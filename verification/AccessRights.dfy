/**
 Access rights end to end: in every run, what a verb may do through an R_Key is
 what the verb that registered the key asked for.
 */
module AccessRights {
  import opened Core
  import Codec
  import opened MemoryModel
  import opened MemoryHistory
  import opened MemoryRecords
  import opened SessionModel
  import opened SessionRuns
  import opened SessionMemory
  import opened ClientModel
  import opened Traffic
  import opened ReadAfterWrite
  import opened Protocol
  import opened ProtocolInvariant
  import opened ProtocolTheorems
  import opened EndToEnd
  import opened VerbOutcomes
  import opened RemoteMemory

  // ---------------------------------------------------------------------
  // Records over a run of operations and of calls
  // ---------------------------------------------------------------------

  lemma {:induction false} OpsKeepRecorded(s: Store, ops: seq<Op>, reg: Op, lkey: nat, rkey: u32)
    requires MemoryModel.Valid(s) && reg.Register? && Recorded(s, reg, lkey, rkey)
    ensures Recorded(After(s, ops), reg, lkey, rkey)
  {
    hide Perform, Recorded, MemoryModel.Valid;
    if ops != [] {
      var n := |ops| - 1;
      OpsKeepRecorded(s, ops[..n], reg, lkey, rkey);
      RunKeepsValid(s, ops[..n]);
      StepKeepsRecorded(After(s, ops[..n]), ops[n], reg, lkey, rkey);
    }
  }

  /** The store operation that a registering call asks for. */
  function RegistrationOf(c: Call): Op
    requires Shaped(c) && c.verb.RegMr?
  {
    Register(c.reqs[0].msg.body.pd, c.verb.flags, c.verb.len, c.reqs[0].env.draws)
  }

  /** Call `i` registered a region and was given `rkey` for it. */
  predicate Grants(y: System, i: nat, rkey: u32)
    requires i < |y.calls|
  {
    && Shaped(y.calls[i]) && y.calls[i].verb.RegMr? && AnswersOf(y, i) != []
    && var body := AnswersOf(y, i)[0].body; body.MrRegAckBody? && body.status == 0 && body.rkey == rkey
  }

  lemma RegisteringCallRecords(s: Session, c: Call)
    requires Orderly(s, c.reqs) && Shaped(c) && s.pending == NoPending && c.verb.RegMr?
    requires MemoryModel.Valid(s.store) && Obstacle(s, c) == None
    ensures var rs := Responses(Run(s, c.reqs).1);
            && |rs| == 1 && rs[0].body.MrRegAckBody?
            && Recorded(Run(s, c.reqs).0.store, RegistrationOf(c), s.store.nextLkey, rs[0].body.rkey)
  {
    hide Run, Responses, Orderly, Shaped, PickFrom, WithRegion, Recorded, MemoryModel.Valid;
    RegCallEffect(s, c);
    RegisterPicks(s.store, RegistrationOf(c));
    JustRecorded(s.store, RegistrationOf(c));
  }

  lemma RegisterPicks(s: Store, reg: Op)
    requires reg.Register? && PickFrom(s.usedRkeys, reg.draws, 0).Some?
    requires |s.regions| < s.maxRegions && s.totalBytes + reg.len <= s.maxTotalBytes
    ensures var key := PickFrom(s.usedRkeys, reg.draws, 0).value;
            Perform(s, reg) == (WithRegion(s, reg.pd, key, reg.flags, Zeros(reg.len)), Registered(s.nextLkey, key))
  {
    hide PickFrom, WithRegion;
  }

  lemma GrantMeansNoObstacle(s: Session, c: Call)
    requires Orderly(s, c.reqs) && Shaped(c) && s.pending == NoPending && c.verb.RegMr?
    requires var rs := Responses(Run(s, c.reqs).1); rs != [] && rs[0].body.MrRegAckBody? && rs[0].body.status == 0
    ensures Obstacle(s, c) == None
  {
    hide Run, Responses, Orderly, Shaped, Obstacle;
    AnswerReportsObstacle(s, c);
  }

  /** What is known of the server when it comes to call `k` of a run. */
  lemma CallFacts(y: System, k: nat)
    requires Inv(y) && k < |y.calls|
    ensures var (d, c) := (MetBy(y, k), y.calls[k]);
            && Shaped(c) && Orderly(d, c.reqs) && d.pending == NoPending && MemoryModel.Valid(d.store)
            && MetBy(y, k + 1) == Run(d, c.reqs).0 && AnswersOf(y, k) == Responses(Run(d, c.reqs).1)
  {
    hide Run, Issued, QueueOk, ClientOk, ServerOk, PipeOk, Shaped, Orderly, MemoryModel.Valid, Responses;
    MeetsCall(y.origin.session, y.calls, k);
  }

  lemma GrantBegins(y: System, i: nat, rkey: u32)
    requires Inv(y) && i < |y.calls| && Grants(y, i, rkey)
    ensures Recorded(MetBy(y, i + 1).store, RegistrationOf(y.calls[i]), MetBy(y, i).store.nextLkey, rkey)
  {
    hide Inv, Run, Responses, Orderly, MemoryModel.Valid, Shaped, Recorded, RegistrationOf, Obstacle, MetBy, AnswersOf;
    CallFacts(y, i);
    GrantMeansNoObstacle(MetBy(y, i), y.calls[i]);
    RegisteringCallRecords(MetBy(y, i), y.calls[i]);
  }

  lemma CallKeepsRecorded(y: System, k: nat, reg: Op, lkey: nat, rkey: u32)
    requires Inv(y) && k < |y.calls| && reg.Register? && Recorded(MetBy(y, k).store, reg, lkey, rkey)
    ensures Recorded(MetBy(y, k + 1).store, reg, lkey, rkey)
  {
    hide Inv, Run, Responses, Orderly, MemoryModel.Valid, Shaped, Recorded, MetBy, AnswersOf, OpsOf, After;
    CallFacts(y, k);
    var (d, c) := (MetBy(y, k), y.calls[k]);
    RunPerformsOps(d, c.reqs);
    OpsKeepRecorded(d.store, OpsOf(d, c.reqs), reg, lkey, rkey);
  }

  lemma {:induction false} GrantIsRecorded(y: System, i: nat, m: nat, rkey: u32)
    requires Inv(y) && i < m <= |y.calls| && Grants(y, i, rkey)
    ensures Recorded(MetBy(y, m).store, RegistrationOf(y.calls[i]), MetBy(y, i).store.nextLkey, rkey)
    decreases m
  {
    hide Inv, Shaped, Recorded, MetBy, AnswersOf;
    if m == i + 1 {
      GrantBegins(y, i, rkey);
    } else {
      GrantIsRecorded(y, i, m - 1, rkey);
      CallKeepsRecorded(y, m - 1, RegistrationOf(y.calls[i]), MetBy(y, i).store.nextLkey, rkey);
    }
  }

  // ---------------------------------------------------------------------
  // The obstacle a verb meets
  // ---------------------------------------------------------------------

  /** A WRITE, a READ or an atomic of a known kind. */
  predicate UsesKey(v: Verb) {
    v.RdmaWrite? || v.RdmaRead? || (v.PostAtomic? && (v.kind == 0x01 || v.kind == 0x02))
  }

  /** The access to the server's memory a call makes. */
  function AccessOf(c: Call): Op
    requires Shaped(c) && UsesKey(c.verb)
  {
    match c.verb
    case RdmaWrite(_, rkey, va, _) => WriteAt(rkey, va, c.reqs[1].msg.body.data)
    case RdmaRead(_, rkey, va, len, _, _) => ReadAt(rkey, va, len)
    case PostAtomic(_, rkey, va, kind, op1, op2) => AtomicAt(rkey, va, kind, op1, op2)
  }

  lemma ObstacleIsRefusal(s: Session, c: Call, reg: Op, lkey: nat)
    requires Shaped(c) && UsesKey(c.verb) && (c.verb.RdmaRead? ==> s.outstandingReads < s.maxOutstandingReads)
    requires reg.Register? && Recorded(s.store, reg, lkey, c.verb.rkey)
    ensures Obstacle(s, c) == Refusal(reg, !Live(s.store, c.verb.rkey), AccessOf(c))
  {
    hide StartOf;
  }

  /**
   In every run: whatever a verb uses an R_Key for, it is refused exactly as the
   registration of the key says, by flag, alignment and bounds, or because the
   key is dead by then.
   */
  lemma RegistrationDecidesAccess(y0: System, steps: seq<Step>, i: nat, m: nat)
    requires GoodRun(y0, steps)
    requires var y := Exec(y0, steps);
             && i < m < |y.calls| && UsesKey(y.calls[m].verb) && Grants(y, i, y.calls[m].verb.rkey)
             && (y.calls[m].verb.RdmaRead? ==> MetBy(y, m).outstandingReads < MetBy(y, m).maxOutstandingReads)
    ensures var y := Exec(y0, steps);
            var c := y.calls[m];
            && Shaped(c)
            && Obstacle(MetBy(y, m), c)
               == Refusal(RegistrationOf(y.calls[i]), !Live(MetBy(y, m).store, c.verb.rkey), AccessOf(c))
  {
    hide Exec, Inv, Start, MetBy, Obstacle, Recorded, Shaped, AnswersOf, Refusal, Live;
    RunKeepsInv(y0, steps);
    var y := Exec(y0, steps);
    CallFacts(y, m);
    GrantIsRecorded(y, i, m, y.calls[m].verb.rkey);
    ObstacleIsRefusal(MetBy(y, m), y.calls[m], RegistrationOf(y.calls[i]), MetBy(y, i).store.nextLkey);
  }

  /**
   A verb through a live key registered without the flag it needs ends in
   ErrAccessDenied, whatever other verbs ran in between, as long as no earlier
   WRITE was refused.
   */
  lemma VerbWithoutFlagIsDenied(y0: System, steps: seq<Step>, y: System, z: System, i: nat)
    requires GoodRun(y0, steps) && y == Exec(y0, steps) && y.waiting.Some? && Finishes(y, z)
    requires var k := |y.outcomes|;
             && i < k < |z.calls| && Refusals(z.origin.session, z.calls[..k]) == 0
             && Shaped(z.calls[k]) && UsesKey(z.calls[k].verb) && Grants(z, i, z.calls[k].verb.rkey)
             && (z.calls[k].verb.RdmaRead? ==> MetBy(z, k).outstandingReads < MetBy(z, k).maxOutstandingReads)
             && Live(MetBy(z, k).store, z.calls[k].verb.rkey)
             && z.calls[i].verb.flags / NeededFlag(AccessOf(z.calls[k])) % 2 == 0
    ensures |z.outcomes| == |y.outcomes| + 1 && z.outcomes[|y.outcomes|] == Rejected(Protocol(ErrAccessDenied))
  {
    hide Exec, Inv, Start, Apply, Obstacle, Refusals, Shaped, Succeeds, MetBy, Recorded, AnswersOf, Live;
    var k := |y.outcomes|;
    RunKeepsInv(y0, steps);
    StepKeepsInv(y, Collect);
    OwnOutcomeIsDecided(y0, steps, y, z);
    GrantIsRecorded(z, i, k, z.calls[k].verb.rkey);
    ObstacleIsRefusal(MetBy(z, k), z.calls[k], RegistrationOf(z.calls[i]), MetBy(z, i).store.nextLkey);
  }

  // ---------------------------------------------------------------------
  // The protection domain
  // ---------------------------------------------------------------------

  /** Registrations and deregistrations carry the protection domain of the connection. */
  predicate InDomain(c: Call, pd: u32) {
    && c.reqs != []
    && (c.verb.RegMr? ==> c.reqs[0].msg.body.MrRegBody? && c.reqs[0].msg.body.pd == pd)
    && (c.verb.DeregMr? ==> c.reqs[0].msg.body.MrDeregBody? && c.reqs[0].msg.body.pd == pd)
  }

  lemma BeginInDomain(y: System, v: Verb, env1: Env, env2: Env)
    requires Requests(y.client, v).Ok?
    ensures var z := BeginStep(y, v, env1, env2);
            z.client.pd == y.client.pd && |z.calls| == |y.calls| + 1 && InDomain(z.calls[|y.calls|], y.client.pd)
  {
    hide Gather;
  }

  lemma StepKeepsDomain(y: System, step: Step)
    ensures var z := Apply(y, step);
            && z.client.pd == y.client.pd && |y.calls| <= |z.calls| && z.calls[..|y.calls|] == y.calls
            && forall k :: |y.calls| <= k < |z.calls| ==> InDomain(z.calls[k], y.client.pd)
  {
    hide InDomain, Requests, Codec.Decode, Completion, ServeFrame, AsFrames, AsInputs, Stamp;
    match step
    case Begin(v, env1, env2) =>
      if Requests(y.client, v).Ok? {
        BeginInDomain(y, v, env1, env2);
      }
    case _ =>
  }

  /** In every run, all of them carry the one the connection began with. */
  lemma {:induction false} RequestsStayInDomain(y0: System, steps: seq<Step>)
    requires y0.calls == []
    ensures var y := Exec(y0, steps);
            y.client.pd == y0.client.pd && forall k :: 0 <= k < |y.calls| ==> InDomain(y.calls[k], y0.client.pd)
  {
    hide Apply, InDomain;
    if steps != [] {
      var n := |steps| - 1;
      RequestsStayInDomain(y0, steps[..n]);
      var y := Exec(y0, steps[..n]);
      StepKeepsDomain(y, steps[n]);
      var z := Apply(y, steps[n]);
      forall k | 0 <= k < |z.calls|
        ensures InDomain(z.calls[k], y0.client.pd)
      {
        assert k < |y.calls| ==> z.calls[k] == z.calls[..|y.calls|][k];
      }
    }
  }
}
