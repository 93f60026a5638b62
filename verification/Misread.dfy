/**
 A run in which read after write fails: after a refused WRITE, a WRITE and a
 READ of the same range both return success and the sink holds other bytes. It
 shows that the hypothesis of EndToEnd.ReadReturnsWhatWasWritten cannot be
 dropped.
 */
module Misread {
  import opened Core
  import opened Codec
  import opened MemoryModel
  import opened MemoryHistory
  import opened SessionModel
  import opened SessionRuns
  import opened ClientModel
  import opened Traffic
  import opened ReadAfterWrite
  import opened Protocol
  import opened ProtocolInvariant
  import opened ProtocolTheorems
  import opened Progress
  import opened EndToEnd
  import opened VerbOutcomes
  import opened Episodes
  import opened RemoteMemory

  // ---------------------------------------------------------------------
  // The script
  // ---------------------------------------------------------------------

  const LKEY: u32 := 1
  const RKEY: u32 := 7
  const BAD_RKEY: u32 := 9
  const CAPACITY := 8

  /** One byte from the start of the local region. */
  const FIRST_BYTE: seq<SgEntry> := [SgEntry(LKEY, 0, 1)]

  /** A registration, a WRITE that is refused, two WRITEs to neighbouring bytes and a READ of each. */
  const REGISTER: Verb := RegMr(0x06, 16)
  const REFUSED: Verb := RdmaWrite(1, BAD_RKEY, 0, [])
  const WRITE_A: Verb := RdmaWrite(2, RKEY, 0, FIRST_BYTE)
  const WRITE_B: Verb := RdmaWrite(3, RKEY, 1, FIRST_BYTE)
  const READ_A: Verb := RdmaRead(4, RKEY, 0, 1, LKEY, 8)
  const READ_B: Verb := RdmaRead(5, RKEY, 1, 1, LKEY, 8)

  /** The random source yields the same key every time. */
  function Fixed(now: nat): Env {
    Env(now, seq(KEY_ATTEMPTS, _ => RKEY))
  }

  // ---------------------------------------------------------------------
  // Running a verb to its end
  // ---------------------------------------------------------------------

  lemma DoVerb(y0: System, steps: seq<Step>, v: Verb, env: Env) returns (more: seq<Step>)
    requires GoodRun(y0, steps) && Exec(y0, steps).waiting.None?
    requires Requests(Exec(y0, steps).client, v).Ok? && FitsVerb(Limit(y0), v)
    ensures var all := steps + [Begin(v, env, env)] + more;
            var b := Apply(Exec(y0, steps), Begin(v, env, env));
            && GoodRun(y0, all) && GoodTraffic(b.origin.session, b.calls) && b.calls != []
            && Inv(Exec(y0, all)) && During(b, Exec(y0, all), v) && Exec(y0, all).waiting.None?
  {
    hide Inv, Apply, Exec, Start, GoodTraffic, During, FitsVerb, Requests;
    var y, begun := Exec(y0, steps), steps + [Begin(v, env, env)];
    RunKeepsInv(y0, steps);
    RunExtends(y0, steps);
    BeginAppends(y0, steps, v, env);
    BegunDuring(y, v, env, env);
    more := VerbReturns(y0, begun);
    ExecConcat(y0, begun, more);
    MovesDuring(Exec(y0, begun), v, more);
  }

  lemma BeginAppends(y0: System, steps: seq<Step>, v: Verb, env: Env)
    requires GoodRun(y0, steps) && FitsVerb(Limit(y0), v)
    ensures GoodRun(y0, steps + [Begin(v, env, env)])
    ensures Exec(y0, steps + [Begin(v, env, env)]) == Apply(Exec(y0, steps), Begin(v, env, env))
  {
    hide Start, Apply, FitsVerb;
    assert (steps + [Begin(v, env, env)])[..|steps|] == steps;
  }

  /** The moves that lead a waiting verb to the state just before it ends. */
  lemma {:induction false} ToLastMove(y0: System, steps: seq<Step>) returns (more: seq<Step>)
    requires GoodRun(y0, steps) && Exec(y0, steps).waiting.Some?
    ensures GoodRun(y0, steps + more) && forall i :: 0 <= i < |more| ==> Moves(more[i])
    ensures var y := Exec(y0, steps + more); y.waiting.Some? && Finishes(y, Apply(y, Collect))
    decreases Work(Exec(y0, steps))
  {
    hide GoodRun, Exec, Apply, Work, Enabled, Inv;
    var y := Exec(y0, steps);
    assert Inv(y) by { RunIsInv(y0, steps); }
    var step := Next(y);
    WaitingCanProceed(y0, steps);
    EndsOrGoesOn(y, step);
    if Apply(y, step).waiting.None? {
      more := [];
      assert steps + more == steps;
    } else {
      StepUsesWork(y, step);
      RunAppend(y0, steps, step);
      var rest := ToLastMove(y0, steps + [step]);
      more := [step] + rest;
      assert steps + more == (steps + [step]) + rest;
    }
  }

  lemma RunIsInv(y0: System, steps: seq<Step>)
    requires GoodRun(y0, steps)
    ensures Inv(Exec(y0, steps))
  {
    hide Inv, Exec, Start;
    RunKeepsInv(y0, steps);
  }

  lemma EndsOrGoesOn(y: System, step: Step)
    requires Inv(y) && y.waiting.Some? && Enabled(y, step) && step == Next(y)
    ensures Apply(y, step).waiting.None? ==> step == Collect && Finishes(y, Apply(y, Collect))
  {
    hide Inv, CollectStep, ServeFrame;
    if step.Collect? {
      CollectShape(y);
    }
  }

  // ---------------------------------------------------------------------
  // The client along the script
  // ---------------------------------------------------------------------

  /** The local region is there and starts with byte `x`, and there is room for completions. */
  predicate Holding(c: Client, n: nat, x: byte) {
    && |c.cq| <= n && c.cqCapacity == CAPACITY && c.pd == 1
    && LKEY in c.localMrs && |c.localMrs[LKEY].buf| == 16 && c.localMrs[LKEY].buf[0] == x
  }

  /** No WRITE, and no READ into the second half, changes that, whatever it consumes. */
  lemma VerbKeepsHolding(c: Client, n: nat, x: byte, v: Verb, body: Body)
    requires Holding(c, n, x) && (v.RdmaWrite? || (v.RdmaRead? && v.localLkey == LKEY && v.localVa == 8))
    ensures Holding(Concluded(c, v, body).0, n + 1, x)
  {
    hide CodeValue, CodeFromValue, StartOf;
  }

  lemma GathersFirstByte(mrs: map<u32, LocalMr>)
    requires LKEY in mrs && |mrs[LKEY].buf| == 16
    ensures Gather(mrs, FIRST_BYTE) == Ok([mrs[LKEY].buf[0]]) && StartOf(FIRST_BYTE, 1) == 1
  {
    assert FIRST_BYTE[..0] == [];
    assert Gather(mrs, []) == Ok([]) && StartOf(FIRST_BYTE, 0) == 0;
    assert mrs[LKEY].buf[0..1] == [mrs[LKEY].buf[0]];
    assert Segment(mrs, FIRST_BYTE[0]) == Ok([mrs[LKEY].buf[0]]);
    assert [] + [mrs[LKEY].buf[0]] == [mrs[LKEY].buf[0]];
  }

  lemma ScriptFits(limit: nat)
    ensures FitsVerb(limit, REGISTER) && FitsVerb(limit, REFUSED) && FitsVerb(limit, WRITE_A)
    ensures FitsVerb(limit, WRITE_B) && FitsVerb(limit, READ_A) && FitsVerb(limit, READ_B)
  {
    assert StartOf(FIRST_BYTE, 0) == 0 && StartOf(FIRST_BYTE, 1) == 1;
  }

  // ---------------------------------------------------------------------
  // The server along the script
  // ---------------------------------------------------------------------

  /** The server's limits leave room for the script. */
  predicate Roomy(config: ServerConfig) {
    && config.mrRegRateLimit >= 1 && config.maxRegions >= 1
    && config.maxTotalBytes >= 16 && config.maxOutstandingReads >= 1
  }

  /** The store with the one region of the script, holding `data`. */
  function StoreWith(config: ServerConfig, data: bytes): Store {
    WithRegion(NewStore(config.maxRegions, config.maxTotalBytes), 1, RKEY, 0x06, data)
  }

  lemma StoreFacts(config: ServerConfig, d: bytes, va: u64, x: byte)
    requires |d| == 16 && va < 16
    ensures var s := StoreWith(config, d);
            && RangeObstacle(s, RKEY, REMOTE_WRITE, va, 1) == None && RangeObstacle(s, RKEY, REMOTE_READ, va, 1) == None
            && Lookup(s, BAD_RKEY, REMOTE_WRITE).Err? && Lookup(s, RKEY, REMOTE_WRITE).Ok?
            && Live(s, RKEY) && DataOf(s, RKEY) == d
            && Perform(s, WriteAt(RKEY, va, [x])).0 == StoreWith(config, Splice(d, va, [x]))
  {
    var s := StoreWith(config, d);
    assert s.regions == map[1 := Region(1, 1, RKEY, 0x06, d)];
    assert Perform(s, WriteAt(RKEY, va, [x])).0.regions == map[1 := Region(1, 1, RKEY, 0x06, Splice(d, va, [x]))];
  }

  /** The draws of the script give its key. */
  lemma FixedDraw(now: nat)
    ensures PickFrom({}, Fixed(now).draws, 0) == Some(RKEY)
  {
  }

  /** The calls of the script, on a connection to such a server. */
  ghost predicate Scripted(z: System, config: ServerConfig, sessionId: u32, now: nat) {
    && Inv(z) && z.origin == Connected(config, sessionId, CAPACITY, now).origin && Roomy(config)
    && |z.calls| == 6 && z.calls[0].verb == REGISTER && z.calls[1].verb == REFUSED && z.calls[2].verb == WRITE_A
    && z.calls[3].verb == WRITE_B && z.calls[4].verb == READ_A && z.calls[5].verb == READ_B
    && (forall k :: 0 <= k < 6 ==> Shaped(z.calls[k]))
    && z.calls[0].reqs[0].env == Fixed(now) && z.calls[0].reqs[0].msg.body.pd == 1
    && z.calls[2].reqs[1].msg.body.data == [1] && z.calls[3].reqs[1].msg.body.data == [2]
  }

  /** The session that meets call `k`, and what it is after it. */
  lemma Meets(z: System, config: ServerConfig, sessionId: u32, now: nat, k: nat)
    requires Scripted(z, config, sessionId, now) && k < 6
    ensures var s := MetBy(z, k);
            && Orderly(s, z.calls[k].reqs) && s.pending == NoPending && MetBy(z, k + 1) == Run(s, z.calls[k].reqs).0
            && AnswersOf(z, k) == Responses(Run(s, z.calls[k].reqs).1)
            && s.outstandingReads < s.maxOutstandingReads
  {
    hide Run, Issued, Orderly, Responses, MemoryModel.Valid, PipeOk, ServerOk, ClientOk, QueueOk, Connected, AllShaped,
         Shaped;
    MeetsCall(z.origin.session, z.calls, k);
    PrefixIsOrderly(z.origin.session, z.calls, k);
    OrderlyIsProcessed(z.origin.session, Issued(z.calls[..k]));
    assert z.origin.session.outstandingReads < z.origin.session.maxOutstandingReads by {
      ConnectedReads(config, sessionId, now);
    }
  }

  lemma {:induction false} PrefixIsOrderly(s: Session, calls: seq<Call>, k: nat)
    requires GoodTraffic(s, calls) && k <= |calls|
    ensures Orderly(s, Issued(calls[..k]))
  {
    if k == |calls| {
      assert calls[..k] == calls;
    } else {
      var n := |calls| - 1;
      GoodPrefix(s, calls);
      PrefixIsOrderly(s, calls[..n], k);
      assert calls[..n][..k] == calls[..k];
    }
  }

  lemma ConnectedReads(config: ServerConfig, sessionId: u32, now: nat)
    requires Roomy(config)
    ensures var s := Connected(config, sessionId, CAPACITY, now).origin.session;
            s.outstandingReads < s.maxOutstandingReads
  {
  }

  /** The store as calls 1 to 4 meet it. */
  lemma StoresAlong(z: System, config: ServerConfig, sessionId: u32, now: nat)
    requires Scripted(z, config, sessionId, now)
    ensures MetBy(z, 1).store == StoreWith(config, Zeros(16)) && MetBy(z, 2).store == StoreWith(config, Zeros(16))
    ensures MetBy(z, 3).store == StoreWith(config, Splice(Zeros(16), 0, [1]))
    ensures MetBy(z, 4).store == StoreWith(config, Splice(Splice(Zeros(16), 0, [1]), 1, [2]))
    ensures RefusedWrite(MetBy(z, 1), REFUSED)
    ensures AnswersOf(z, 2) == [Note(2, WriteCompBody)]
  {
    hide Run, Orderly, Inv, Responses, MetBy, AnswersOf, StoreWith, Splice, Obstacle, RangeObstacle, Lookup;
    var zeros, one := Zeros(16), Splice(Zeros(16), 0, [1]);
    assert MetBy(z, 1).store == StoreWith(config, zeros) by { AfterRegistration(z, config, sessionId, now); }
    Meets(z, config, sessionId, now, 1);
    StoreFacts(config, zeros, 0, 1);
    RefusedCallEffect(MetBy(z, 1), z.calls[1]);
    Meets(z, config, sessionId, now, 2);
    GathersOne();
    assert Obstacle(MetBy(z, 2), z.calls[2]) == None by { WriteIsClear(MetBy(z, 2), z.calls[2], WRITE_A); }
    WriteCallEffect(MetBy(z, 2), z.calls[2]);
    Meets(z, config, sessionId, now, 3);
    StoreFacts(config, one, 1, 2);
    assert Obstacle(MetBy(z, 3), z.calls[3]) == None by { WriteIsClear(MetBy(z, 3), z.calls[3], WRITE_B); }
    WriteCallEffect(MetBy(z, 3), z.calls[3]);
  }

  lemma GathersOne()
    ensures StartOf(FIRST_BYTE, |FIRST_BYTE|) == 1
  {
    assert StartOf(FIRST_BYTE, 0) == 0;
  }

  lemma WriteIsClear(s: Session, c: Call, v: Verb)
    requires Shaped(c) && c.verb == v && (v == WRITE_A || v == WRITE_B)
    requires RangeObstacle(s.store, RKEY, REMOTE_WRITE, v.remoteVa, 1) == None
    ensures Obstacle(s, c) == None
  {
    hide RangeObstacle, StartOf;
    GathersOne();
  }

  lemma AfterRegistration(z: System, config: ServerConfig, sessionId: u32, now: nat)
    requires Scripted(z, config, sessionId, now)
    ensures MetBy(z, 1).store == StoreWith(config, Zeros(16))
  {
    hide Orderly, Inv, Responses, PickFrom, WithRegion, React;
    Meets(z, config, sessionId, now, 0);
    assert MetBy(z, 0) == z.origin.session by { NothingIssued(z.origin.session, z.calls); }
    FixedDraw(now);
    RegCallEffect(MetBy(z, 0), z.calls[0]);
  }

  /** The places of the calls: the refused WRITE takes two. */
  lemma PlacesAlong(z: System, config: ServerConfig, sessionId: u32, now: nat)
    requires Scripted(z, config, sessionId, now)
    ensures OwnerOf(z, 3) == 2 && OwnersPlace(z, 3) == 3 && OwnerOf(z, 5) == 4 && OwnersPlace(z, 5) == 5
  {
    hide Run, Inv, Owner, PlaceOf, Lookup, StoreWith, Responses, Refusals, Orderly, Shaped, Splice, Zeros, GoodTraffic;
    var s := z.origin.session;
    StoresAlong(z, config, sessionId, now);
    PlaceIsLate(s, z.calls, 0);
    assert !RefusedWrite(MetBy(z, 0), REGISTER) && !RefusedWrite(MetBy(z, 4), READ_A);
    StoreFacts(config, Zeros(16), 0, 1);
    StoreFacts(config, Splice(Zeros(16), 0, [1]), 1, 2);
    PlaceStep(s, z.calls, 0);
    PlaceStep(s, z.calls, 1);
    PlaceStep(s, z.calls, 2);
    PlaceStep(s, z.calls, 3);
    PlaceStep(s, z.calls, 4);
    PlaceGrows(s, z.calls, 5, 6);
    OwnerIsOnly(s, z.calls, 3, 2);
    OwnerIsOnly(s, z.calls, 5, 4);
  }

  /** The READ of the first byte meets no obstacle and is answered with what WRITE A put there. */
  lemma ReadAnswer(z: System, config: ServerConfig, sessionId: u32, now: nat)
    requires Scripted(z, config, sessionId, now)
    ensures Obstacle(MetBy(z, 4), z.calls[4]) == None && AnswersOf(z, 4) == [Note(4, ReadRespBody(0, [1]))]
  {
    hide Run, Orderly, Inv, Responses, MetBy, AnswersOf, StoreWith, RangeObstacle, Lookup, Shaped;
    var d := Splice(Splice(Zeros(16), 0, [1]), 1, [2]);
    StoresAlong(z, config, sessionId, now);
    Meets(z, config, sessionId, now, 4);
    StoreFacts(config, d, 0, 1);
    ReadCallEffect(MetBy(z, 4), z.calls[4]);
    assert d[0..1] == [1];
  }

  // ---------------------------------------------------------------------
  // The run
  // ---------------------------------------------------------------------

  /** A point of the run between verbs, with `n` calls made and `x` at the start of the local region. */
  ghost predicate Stage(y0: System, steps: seq<Step>, n: nat, x: byte) {
    var y := Exec(y0, steps);
    GoodRun(y0, steps) && y.waiting.None? && |y.calls| == n && Holding(y.client, n, x)
  }

  /** The call carries verb `v`, with byte `x` as its data if it gathers one. */
  predicate Carrying(c: Call, v: Verb, x: byte) {
    c.verb == v && (v.RdmaWrite? && v.sg == FIRST_BYTE ==> |c.reqs| == 2 && c.reqs[1].msg.body == WriteDataBody([x]))
  }

  predicate InScript(v: Verb) {
    v == REFUSED || v == WRITE_A || v == WRITE_B || v == READ_A || v == READ_B
  }

  lemma ScriptRequests(c: Client, n: nat, x: byte, v: Verb)
    requires Holding(c, n, x) && n < CAPACITY && InScript(v)
    ensures Requests(c, v).Ok?
  {
    GathersFirstByte(c.localMrs);
    assert Gather(c.localMrs, []) == Ok([]);
  }

  /** What beginning a verb of the script puts on record. */
  lemma BegunCarries(y: System, n: nat, x: byte, v: Verb, env: Env)
    requires Inv(y) && y.waiting.None? && |y.calls| == n < CAPACITY && Holding(y.client, n, x) && InScript(v)
    ensures var b := Apply(y, Begin(v, env, env));
            && |b.calls| == n + 1 && b.calls[..n] == y.calls && Carrying(b.calls[n], v, x) && Alike(b.client, y.client)
  {
    hide Inv, Apply, GoodTraffic, During, Gather, Requests, FitsVerb;
    ScriptRequests(y.client, n, x, v);
    ScriptFits(Limit(y));
    BegunDuring(y, v, env, env);
    if v.RdmaWrite? {
      GathersFirstByte(y.client.localMrs);
      IssuedWriteCarriesData(y, Begin(v, env, env));
    }
  }

  lemma NextVerb(y0: System, steps: seq<Step>, n: nat, x: byte, v: Verb, env: Env) returns (more: seq<Step>)
    requires Stage(y0, steps, n, x) && n < CAPACITY && InScript(v)
    ensures var all := steps + [Begin(v, env, env)] + more;
            && Stage(y0, all, n + 1, x)
            && Exec(y0, all).calls[..n] == Exec(y0, steps).calls && Carrying(Exec(y0, all).calls[n], v, x)
  {
    hide Inv, Apply, Exec, GoodRun, GoodTraffic, Requests, FitsVerb, Holding, Concluded, Consumed;
    var y := Exec(y0, steps);
    assert Inv(y) && Limit(y) == Limit(y0) by { RunIsInv(y0, steps); RunExtends(y0, steps); }
    ScriptRequests(y.client, n, x, v);
    ScriptFits(Limit(y0));
    BegunCarries(y, n, x, v, env);
    more := DoVerb(y0, steps, v, env);
    var b := Apply(y, Begin(v, env, env));
    assert Holding(b.client, n, x) by { AlikeHolds(b.client, y.client, n, x); }
    var r := Concluded(b.client, v, Consumed(b, n).body).0;
    VerbKeepsHolding(b.client, n, x, v, Consumed(b, n).body);
    AlikeHolds(Exec(y0, steps + [Begin(v, env, env)] + more).client, r, n + 1, x);
  }

  lemma AlikeHolds(c: Client, d: Client, n: nat, x: byte)
    requires Alike(c, d) && Holding(d, n, x)
    ensures Holding(c, n, x)
  {
  }

  lemma NextByte(y0: System, steps: seq<Step>, n: nat, x: byte, x': byte)
    requires Stage(y0, steps, n, x)
    ensures Stage(y0, steps + [StoreLocal(LKEY, 0, [x'])], n, x')
    ensures Exec(y0, steps + [StoreLocal(LKEY, 0, [x'])]).calls == Exec(y0, steps).calls
  {
    hide Start;
    var step := StoreLocal(LKEY, 0, [x']);
    RunAppend(y0, steps, step);
  }

  /** After the registration the local region is there, zeroed. */
  lemma Registered(config: ServerConfig, sessionId: u32, now: nat) returns (more: seq<Step>)
    requires Roomy(config)
    ensures var y0 := Connected(config, sessionId, CAPACITY, now);
            var all := [Begin(REGISTER, Fixed(now), Fixed(now))] + more;
            var y := Exec(y0, all);
            && Stage(y0, all, 1, 0) && y.calls[0].verb == REGISTER && Shaped(y.calls[0])
            && y.calls[0].reqs[0].env == Fixed(now) && y.calls[0].reqs[0].msg.body.pd == 1
  {
    hide Inv, Apply, GoodTraffic, FitsVerb, During, Connected, Exec, Shaped, EndedCleanly, Start;
    var y0, env := Connected(config, sessionId, CAPACITY, now), Fixed(now);
    ConnectedStarts(config, sessionId, now);
    ScriptFits(Limit(y0));
    assert Exec(y0, []) == y0 by { NoSteps(y0); }
    more := DoVerb(y0, [], REGISTER, env);
    assert [] + [Begin(REGISTER, env, env)] + more == [Begin(REGISTER, env, env)] + more;
    var y := Exec(y0, [Begin(REGISTER, env, env)] + more);
    CleanEpisode(y0, REGISTER, env, env, y);
    BegunRegistration(y0, env);
    RegistrationEnds(y0, y, config, sessionId, now);
  }

  lemma NoSteps(y: System)
    ensures Exec(y, []) == y
  {
  }

  lemma ConnectedStarts(config: ServerConfig, sessionId: u32, now: nat)
    ensures var y0 := Connected(config, sessionId, CAPACITY, now);
            && GoodRun(y0, []) && Idle(y0) && y0.outbox == [] && y0.calls == [] && y0.outcomes == []
            && y0.client == Client(sessionId, 1, 1, Some(1), DEFAULT_ICC, [], CAPACITY, map[])
            && Refusals(y0.origin.session, y0.calls) == 0 && Remote(y0) == y0.origin.session
            && Requests(y0.client, REGISTER).Ok?
  {
    hide Inv, React, Encode, Decode, HandleMessage, MemoryModel.Valid, Filled, FitsVerb;
    HandshakeConnects(config, sessionId, CAPACITY, now, Fixed(now));
    StartInv(Connected(config, sessionId, CAPACITY, now));
  }

  lemma BegunRegistration(y: System, env: Env)
    requires y.waiting.None? && y.outbox == [] && y.calls == []
    ensures var calls := Apply(y, Begin(REGISTER, env, env)).calls;
            && |calls| == 1 && calls[0].verb == REGISTER && |calls[0].reqs| == 1 && calls[0].reqs[0].env == env
            && calls[0].reqs[0].msg.body.MrRegBody? && calls[0].reqs[0].msg.body.pd == y.client.pd
  {
    hide Encode, Wrap32;
  }

  lemma RegistrationEnds(y0: System, y: System, config: ServerConfig, sessionId: u32, now: nat)
    requires Roomy(config) && y0 == Connected(config, sessionId, CAPACITY, now) && Idle(y0)
    requires EndedCleanly(y0, REGISTER, y) && Remote(y0) == y0.origin.session && y0.calls == []
    requires |y.calls| == 1 && |y.calls[0].reqs| == 1 && y.calls[0].reqs[0].env == Fixed(now)
    requires y.calls[0].reqs[0].msg.body.MrRegBody? && y.calls[0].reqs[0].msg.body.pd == 1
    ensures Holding(y.client, 1, 0) && Shaped(y.calls[0])
  {
    hide Run, Inv, Responses, Refusals, MetBy, Orderly, MemoryModel.Valid, WithRegion, PickFrom, RefusedWrite, Remote;
    RemoteFacts(y0, y);
    FixedDraw(now);
    RegCallEffect(Remote(y0), y.calls[0]);
  }

  /** The last verb, up to the step in which it ends. */
  lemma LastVerb(y0: System, steps: seq<Step>, x: byte, env: Env) returns (more: seq<Step>)
    requires Stage(y0, steps, 5, x)
    ensures var all := steps + [Begin(READ_B, env, env)] + more;
            var y := Exec(y0, all);
            && GoodRun(y0, all) && y.waiting == Some(READ_B) && Finishes(y, Apply(y, Collect)) && |y.outcomes| == 5
            && |y.calls| == 6 && y.calls[..5] == Exec(y0, steps).calls && y.calls[5].verb == READ_B
            && Holding(y.client, 5, x)
  {
    hide Inv, Apply, Exec, GoodRun, GoodTraffic, Requests, FitsVerb, Holding, Concluded, Consumed, Finishes;
    var y, begun := Exec(y0, steps), steps + [Begin(READ_B, env, env)];
    assert Inv(y) && Limit(y) == Limit(y0) by { RunIsInv(y0, steps); RunExtends(y0, steps); }
    ScriptRequests(y.client, 5, x, READ_B);
    ScriptFits(Limit(y0));
    BegunCarries(y, 5, x, READ_B, env);
    BegunDuring(y, READ_B, env, env);
    BeginAppends(y0, steps, READ_B, env);
    more := ToLastMove(y0, begun);
    ExecConcat(y0, begun, more);
    MovesDuring(Exec(y0, begun), READ_B, more);
    AlikeHolds(Exec(y0, begun).client, y.client, 5, x);
    AlikeHolds(Exec(y0, begun + more).client, Exec(y0, begun).client, 5, x);
  }

  /** In the scripted run both WRITE B and the READ of its range return success, and the sink holds byte 1. */
  lemma ScriptEnds(y: System, z: System, config: ServerConfig, sessionId: u32, now: nat, x: byte)
    requires Scripted(z, config, sessionId, now) && Inv(y) && y.waiting == Some(READ_B) && Finishes(y, z)
    requires |y.outcomes| == 5 && Holding(y.client, 5, x) && |z.outcomes| == 6
    ensures z.outcomes[3] == Completed == z.outcomes[5]
    ensures ReadLocal(z.client, LKEY, 8, 1) == Ok([1])
  {
    hide Inv, Apply, ReadLocal, Owner, PlaceOf, Refusals, RefusedWrite, Before, EffectOf, Responses, Run, Obstacle,
         Answers;
    PlacesAlong(z, config, sessionId, now);
    StoresAlong(z, config, sessionId, now);
    ReadAnswer(z, config, sessionId, now);
    ConsumesOwners(z, 3);
    FinishIsDecided(y, z);
    CompletedReadHoldsOwnersAnswer(y, z);
  }

  /** The first three calls of the script. */
  predicate FirstHalf(calls: seq<Call>, now: nat) {
    && |calls| == 3 && calls[0].verb == REGISTER && Shaped(calls[0])
    && calls[0].reqs[0].env == Fixed(now) && calls[0].reqs[0].msg.body.pd == 1
    && calls[1].verb == REFUSED && Carrying(calls[2], WRITE_A, 1)
  }

  /** The registration, the refused WRITE and WRITE A, with the local byte then changed to 2. */
  lemma ToFirstHalf(config: ServerConfig, sessionId: u32, now: nat) returns (a: seq<Step>)
    requires Roomy(config)
    ensures var y0 := Connected(config, sessionId, CAPACITY, now);
            Stage(y0, a, 3, 2) && FirstHalf(Exec(y0, a).calls, now)
  {
    hide Stage, Exec, Connected, Shaped, Fixed;
    var y0, env := Connected(config, sessionId, CAPACITY, now), Fixed(now);
    var m0 := Registered(config, sessionId, now);
    var s0 := [Begin(REGISTER, env, env)] + m0;
    NextByte(y0, s0, 1, 0, 1);
    var s1 := s0 + [StoreLocal(LKEY, 0, [1])];
    var m1 := NextVerb(y0, s1, 1, 1, REFUSED, env);
    var s2 := s1 + [Begin(REFUSED, env, env)] + m1;
    StageCount(y0, s0, 1, 0);
    StageCount(y0, s2, 2, 1);
    var m2 := NextVerb(y0, s2, 2, 1, WRITE_A, env);
    var s3 := s2 + [Begin(WRITE_A, env, env)] + m2;
    StageCount(y0, s3, 3, 1);
    NextByte(y0, s3, 3, 1, 2);
    a := s3 + [StoreLocal(LKEY, 0, [2])];
  }

  lemma StageCount(y0: System, steps: seq<Step>, n: nat, x: byte)
    requires Stage(y0, steps, n, x)
    ensures |Exec(y0, steps).calls| == n
  {
    hide Exec, GoodRun, Holding;
  }

  /** WRITE B and both READs, up to the step in which the last READ ends. */
  lemma ToSecondHalf(y0: System, a: seq<Step>, env: Env) returns (b: seq<Step>)
    requires Stage(y0, a, 3, 2)
    ensures var all := a + [Begin(WRITE_B, env, env)] + b;
            var y := Exec(y0, all);
            && GoodRun(y0, all) && y.waiting == Some(READ_B) && Finishes(y, Apply(y, Collect)) && |y.outcomes| == 5
            && Holding(y.client, 5, 2)
            && |y.calls| == 6 && y.calls[..3] == Exec(y0, a).calls && Carrying(y.calls[3], WRITE_B, 2)
            && y.calls[4].verb == READ_A && y.calls[5].verb == READ_B
  {
    hide Stage, Exec, Apply, GoodRun, Holding, Finishes;
    StageCount(y0, a, 3, 2);
    var m3 := NextVerb(y0, a, 3, 2, WRITE_B, env);
    var s4 := a + [Begin(WRITE_B, env, env)] + m3;
    StageCount(y0, s4, 4, 2);
    var m4 := NextVerb(y0, s4, 4, 2, READ_A, env);
    var s5 := s4 + [Begin(READ_A, env, env)] + m4;
    StageCount(y0, s5, 5, 2);
    var m5 := LastVerb(y0, s5, 2, env);
    b := m3 + [Begin(READ_A, env, env)] + m4 + [Begin(READ_B, env, env)] + m5;
    assert s5 + [Begin(READ_B, env, env)] + m5 == a + [Begin(WRITE_B, env, env)] + b;
    var calls := Exec(y0, a + [Begin(WRITE_B, env, env)] + b).calls;
    assert calls[..5][..4][..3] == calls[..3];
    assert calls[..5][..4][3] == calls[3];
  }

  /** The two halves make up the script. */
  lemma HalvesAreScript(config: ServerConfig, sessionId: u32, now: nat, y: System, z: System)
    requires Roomy(config) && Inv(z) && z == Apply(y, Collect) && z.calls == y.calls
    requires z.origin == Connected(config, sessionId, CAPACITY, now).origin
    requires |y.calls| == 6 && FirstHalf(y.calls[..3], now) && Carrying(y.calls[3], WRITE_B, 2)
    requires y.calls[4].verb == READ_A && y.calls[5].verb == READ_B
    ensures Scripted(z, config, sessionId, now)
  {
    hide Apply, PipeOk, ServerOk, ClientOk, QueueOk, Shaped, Orderly, Fixed, Connected, MemoryModel.Valid, Issued;
    assert forall k :: 0 <= k < 6 ==> Shaped(z.calls[k]);
    assert y.calls[..3][0] == y.calls[0] && y.calls[..3][1] == y.calls[1] && y.calls[..3][2] == y.calls[2];
  }

  /** In the script call 5 reads back what call 3 wrote. */
  lemma ScriptReadsBack(z: System)
    requires |z.calls| == 6 && z.calls[3].verb == WRITE_B && z.calls[4].verb == READ_A && z.calls[5].verb == READ_B
    ensures ReadsBack(z, 3, 5)
  {
    hide StartOf;
    GathersOne();
  }

  lemma FitParts(y0: System, a: seq<Step>, step: Step, b: seq<Step>)
    requires GoodRun(y0, a + [step] + b)
    ensures Start(y0) && GoodRun(y0, a) && Fit(y0, a) && Fit(y0, b) && FitsStep(Limit(y0), step)
    ensures Exec(y0, a + [step] + b) == Exec(Apply(Exec(y0, a), step), b)
  {
    hide Start, FitsVerb, Apply;
    var all := a + [step] + b;
    forall i | 0 <= i < |a| ensures FitsStep(Limit(y0), a[i]) { assert all[i] == a[i]; }
    forall i | 0 <= i < |b| ensures FitsStep(Limit(y0), b[i]) { assert all[|a| + 1 + i] == b[i]; }
    assert all[|a|] == step;
    ExecConcat(y0, a + [step], b);
    assert (a + [step])[..|a|] == a;
  }

  /**
   The failing run. From a fresh connection to a server with room, a WRITE is
   refused, and later a WRITE and a READ of the range it wrote both return
   success with no verb writing into the range in between. Everything that
   EndToEnd.ReadReturnsWhatWasWritten asks for holds except that no WRITE was
   refused, and the sink does not hold what the WRITE gathered.
   */
  lemma RefusedWriteMisleadsRead(config: ServerConfig, sessionId: u32, now: nat)
    returns (y0: System, a: seq<Step>, y1: System, write: Step, b: seq<Step>, y2: System, z: System)
    requires Roomy(config)
    ensures y0 == Connected(config, sessionId, CAPACITY, now) && Start(y0)
    ensures Fit(y0, a) && Fit(y0, b) && FitsStep(Limit(y0), write)
    ensures y1 == Exec(y0, a) && y2 == Exec(Apply(y1, write), b) && WriteThenRead(y1, write, y2, z)
    ensures var (w, j) := (|y1.calls|, |y2.outcomes|);
            ReadsBack(z, w, j) && w < |z.outcomes| && z.outcomes[w] == Completed
    ensures Gather(y1.client.localMrs, write.verb.sg) == Ok([2])
    ensures ReadLocal(z.client, y2.waiting.value.localLkey, y2.waiting.value.localVa, 1) == Ok([1])
  {
    hide Inv, Apply, Exec, Start, FitsVerb, Fit, Gather, ReadLocal, Connected, GoodRun, ReadsBack, FirstHalf, Carrying,
         Scripted, Stage;
    y0 := Connected(config, sessionId, CAPACITY, now);
    var env := Fixed(now);
    a := ToFirstHalf(config, sessionId, now);
    y1 := Exec(y0, a);
    write := Begin(WRITE_B, env, env);
    b := ToSecondHalf(y0, a, env);
    FitParts(y0, a, write, b);
    y2 := Exec(Apply(y1, write), b);
    z := Apply(y2, Collect);
    RunIsInv(y0, a + [write] + b);
    StepKeepsInv(y2, Collect);
    RunExtends(y0, a + [write] + b);
    FinishWithinCalls(y2, z);
    assert z.origin == y2.origin && z.calls == y2.calls by { CollectKeepsCalls(y2); }
    HalvesAreScript(config, sessionId, now, y2, z);
    ScriptEnds(y2, z, config, sessionId, now, 2);
    assert ReadsBack(z, 3, 5) by { ScriptVerbs(z, config, sessionId, now); ScriptReadsBack(z); }
    WriteIsIssued(y0, a, env);
  }

  lemma CollectKeepsCalls(y: System)
    requires y.waiting.Some?
    ensures Apply(y, Collect).calls == y.calls && Apply(y, Collect).origin == y.origin
  {
    hide Decode, OnArrival, Accept, Completion;
  }

  lemma ScriptVerbs(z: System, config: ServerConfig, sessionId: u32, now: nat)
    requires Scripted(z, config, sessionId, now)
    ensures |z.calls| == 6 && z.calls[3].verb == WRITE_B && z.calls[4].verb == READ_A && z.calls[5].verb == READ_B
  {
    hide Inv, Connected, Shaped, Fixed;
  }

  lemma WriteIsIssued(y0: System, a: seq<Step>, env: Env)
    requires Stage(y0, a, 3, 2)
    ensures var y1 := Exec(y0, a);
            |y1.calls| == 3 && Issues(y1, Begin(WRITE_B, env, env)) && Gather(y1.client.localMrs, FIRST_BYTE) == Ok([2])
  {
    hide Inv, Exec, Apply, GoodRun, Gather;
    var y1 := Exec(y0, a);
    RunIsInv(y0, a);
    BegunCarries(y1, 3, 2, WRITE_B, env);
    GathersFirstByte(y1.client.localMrs);
  }
}
