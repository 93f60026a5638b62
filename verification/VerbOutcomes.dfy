/**
 Exactly when a verb succeeds: the state of the server at the moment it meets a
 call decides the answer, and the answer, the verb that consumes it and the
 local sink decide the outcome.
 */
module VerbOutcomes {
  import opened Core
  import opened Codec
  import opened MemoryModel
  import opened SessionModel
  import opened SessionRuns
  import opened SessionMemory
  import opened ClientModel
  import opened Traffic
  import opened ReadAfterWrite
  import opened Protocol
  import opened ProtocolInvariant
  import opened ProtocolTheorems
  import opened EndToEnd

  // ---------------------------------------------------------------------
  // What stands in the way of a verb
  // ---------------------------------------------------------------------

  /** What stands in the way of a range access: the key, the flag or the bounds. */
  function RangeObstacle(s: Store, rkey: u32, bit: u32, va: nat, len: nat): Option<ErrorCode>
    requires bit > 0
  {
    match Lookup(s, rkey, bit)
    case Err(code) => Some(code)
    case Ok(entry) => if va + len > |entry.data| then Some(ErrBounds) else None
  }

  function AtomicObstacle(s: Store, v: Verb): Option<ErrorCode>
    requires v.PostAtomic?
  {
    if v.kind != ATOMIC_CAS && v.kind != ATOMIC_FAA then Some(ErrUnknownOpcode)
    else if Lookup(s, v.rkey, REMOTE_ATOMIC).Ok? && v.remoteVa % 8 != 0 then Some(ErrAlignment)
    else RangeObstacle(s, v.rkey, REMOTE_ATOMIC, v.remoteVa, 8)
  }

  /** The rate window, the region limit, the byte limit, and a thousand draws without a usable key. */
  function RegObstacle(s: Session, len: u64, env: Env): Option<ErrorCode> {
    if !Admitted(s, env.now) || |s.store.regions| >= s.store.maxRegions then Some(ErrInternal)
    else if s.store.totalBytes + len > s.store.maxTotalBytes then Some(ErrBounds)
    else if PickFrom(s.store.usedRkeys, env.draws, 0).None? then Some(ErrInternal)
    else None
  }

  function DeregObstacle(s: Store, pd: u32, lkey: u32): Option<ErrorCode> {
    if lkey !in s.regions then Some(ErrInvalidLkey)
    else if s.regions[lkey].pd != pd then Some(ErrInvalidPd)
    else None
  }

  /** The reason, if any, for which a session refuses a call. */
  function Obstacle(s: Session, c: Call): Option<ErrorCode>
    requires Shaped(c)
  {
    match c.verb
    case RegMr(_, len) => RegObstacle(s, len, c.reqs[0].env)
    case DeregMr(lkey) => DeregObstacle(s.store, c.reqs[0].msg.body.pd, lkey)
    case PostSend(_, _) => if s.recvQueueDepth == 0 then Some(ErrRnr) else None
    case RdmaWrite(_, rkey, va, sg) => RangeObstacle(s.store, rkey, REMOTE_WRITE, va, StartOf(sg, |sg|))
    case RdmaRead(_, rkey, va, len, _, _) =>
      if s.outstandingReads >= s.maxOutstandingReads then Some(ErrRnr)
      else RangeObstacle(s.store, rkey, REMOTE_READ, va, len)
    case PostAtomic(_, _, _, _, _, _) => AtomicObstacle(s.store, c.verb)
  }

  /**
   The answer reports the obstacle, as an ERROR or, for registrations, as a
   status; or there is none and it is the verb's own completion.
   */
  predicate Reports(obstacle: Option<ErrorCode>, v: Verb, n: Note) {
    if UsesCq(v) then
      match obstacle
      case Some(code) => n.body.ErrorBody? && n.body.code == code
      case None => Answers(v, n) && !n.body.ErrorBody?
    else
      var status := if obstacle.Some? then CodeValue(obstacle.value) else 0;
      && (obstacle.Some? ==> CodeValue(obstacle.value) != 0)
      && (if v.RegMr? then n.body.MrRegAckBody? && n.body.status == status
          else n.body.MrDeregAckBody? && n.body.status == status)
  }

  lemma SendReports(s: Session, c: Call)
    requires Orderly(s, c.reqs) && Shaped(c) && s.pending == NoPending && c.verb.PostSend?
    ensures var rs := Responses(Run(s, c.reqs).1); rs != [] && Reports(Obstacle(s, c), c.verb, rs[0])
  {
    hide Run, Responses, Ascii, CompleteSend, Orderly, HandleMrReg, HandleMrDereg, HandleReadReq, HandleAtomicReq,
         HandleWrite, HandleWriteData, StartOf;
    var x, y := c.reqs[0], c.reqs[1];
    SecondDispatched(s, c);
    var (s1, o1) := HandleSend(Advance(s, x.msg), x.msg.header);
    var s1' := Advance(s1, y.msg);
    if s.recvQueueDepth == 0 {
      OneResponse(o1[0]);
      assert o1 + [] == [o1[0]];
    } else {
      CompletionResponds(s1'.(pending := NoPending), c.verb.wrid);
      var o2 := CompleteSend(s1'.(pending := NoPending), c.verb.wrid).1;
      assert o1 + o2 == o2;
    }
  }

  lemma WriteMeetsObstacle(s: Store, rkey: u32, va: u64, data: bytes)
    ensures var obstacle := RangeObstacle(s, rkey, REMOTE_WRITE, va, |data|);
            var r := Perform(s, WriteAt(rkey, va, data)).1;
            && (Lookup(s, rkey, REMOTE_WRITE).Err? ==> obstacle == Some(Lookup(s, rkey, REMOTE_WRITE).error))
            && r == (if obstacle.Some? then Failed(obstacle.value) else Done)
  {
    hide Lookup, Splice, WithData;
  }

  lemma WriteShape(c: Call)
    requires Shaped(c) && c.verb.RdmaWrite?
    ensures |c.reqs| == 2 && c.reqs[0].msg.body.WriteBody? && c.reqs[1].msg.body.WriteDataBody?
    ensures c.reqs[0].msg.body.rkey == c.verb.rkey && c.reqs[0].msg.body.remoteVa == c.verb.remoteVa
    ensures c.reqs[0].msg.header.wrid == c.verb.wrid
    ensures |c.reqs[1].msg.body.data| == StartOf(c.verb.sg, |c.verb.sg|)
  {
    hide StartOf;
  }

  lemma WriteReports(s: Session, c: Call)
    requires Orderly(s, c.reqs) && Shaped(c) && s.pending == NoPending && c.verb.RdmaWrite?
    ensures var rs := Responses(Run(s, c.reqs).1); rs != [] && Reports(Obstacle(s, c), c.verb, rs[0])
  {
    hide Run, Responses, Ascii, Lookup, Orderly, HandleMrReg, HandleMrDereg, HandleReadReq, HandleAtomicReq,
         HandleSend, HandleSendData, StartOf, Perform, RangeObstacle, Shaped;
    WriteShape(c);
    var x, y := c.reqs[0], c.reqs[1];
    WriteMeetsObstacle(s.store, c.verb.rkey, c.verb.remoteVa, y.msg.body.data);
    SecondDispatched(s, c);
    var (s1, o1) := HandleWrite(Advance(s, x.msg), x.msg.header, x.msg.body);
    var (s2, o2) := HandleWriteData(Advance(s1, y.msg), y.msg.body.data);
    OneResponse(o2[0]);
    assert o2 == [o2[0]];
    if Lookup(s.store, c.verb.rkey, REMOTE_WRITE).Err? {
      OneResponse(o1[0]);
      assert o1 == [o1[0]];
      ResponsesConcat(o1, o2);
    } else {
      assert o1 + o2 == o2;
    }
  }

  lemma ReadMeetsObstacle(s: Store, rkey: u32, va: u64, len: u64)
    ensures var obstacle := RangeObstacle(s, rkey, REMOTE_READ, va, len);
            var r := ReadIn(s, rkey, va, len);
            if obstacle.Some? then r == Failed(obstacle.value) else r.Bytes? && |r.data| == len
  {
    hide Lookup;
  }

  lemma AtomicMeetsObstacle(s: Store, v: Verb)
    requires v.PostAtomic? && (v.kind == ATOMIC_CAS || v.kind == ATOMIC_FAA)
    ensures var obstacle := AtomicObstacle(s, v);
            var r := Perform(s, AtomicAt(v.rkey, v.remoteVa, v.kind, v.operand1, v.operand2)).1;
            if obstacle.Some? then r == Failed(obstacle.value) else r.Word?
  {
    hide Lookup, Splice, WithData, BigEndian, WordAt, NewWord;
  }

  lemma ReadHandlerReports(s: Session, c: Call)
    requires Shaped(c) && c.verb.RdmaRead?
    ensures var x := c.reqs[0]; Reports(Obstacle(s, c), c.verb, HandleReadReq(s, x.msg.header, x.msg.body).1[0])
  {
    hide Ascii, ReadIn, RangeObstacle;
    ReadMeetsObstacle(s.store, c.verb.rkey, c.verb.remoteVa, c.verb.readLen);
  }

  lemma AtomicHandlerReports(s: Session, c: Call)
    requires Shaped(c) && c.verb.PostAtomic?
    ensures var x := c.reqs[0]; Reports(Obstacle(s, c), c.verb, HandleAtomicReq(s, x.msg.header, x.msg.body).1[0])
  {
    hide Ascii, Perform, RangeObstacle;
    if c.verb.kind == ATOMIC_CAS || c.verb.kind == ATOMIC_FAA {
      AtomicMeetsObstacle(s.store, c.verb);
    }
  }

  lemma SingleReports(s: Session, c: Call)
    requires Orderly(s, c.reqs) && Shaped(c) && s.pending == NoPending && (c.verb.RdmaRead? || c.verb.PostAtomic?)
    ensures var rs := Responses(Run(s, c.reqs).1); rs != [] && Reports(Obstacle(s, c), c.verb, rs[0])
  {
    hide Run, Responses, Orderly, HandleMrReg, HandleMrDereg, HandleWrite, HandleWriteData, HandleSend, HandleSendData,
         HandleReadReq, HandleAtomicReq, Reports, RangeObstacle, AtomicObstacle;
    var x := c.reqs[0];
    var s1 := Advance(s, x.msg);
    assert Obstacle(s1, c) == Obstacle(s, c);
    if c.verb.RdmaRead? {
      ReadHandlerReports(s1, c);
    } else {
      AtomicHandlerReports(s1, c);
    }
    assert c.reqs == [x];
    RunOne(s, x);
    FirstDispatched(s, c);
    var out := React(s, x.msg, x.env).1;
    OneResponse(out[0]);
    assert out == [out[0]];
  }

  lemma RegReports(s: Session, c: Call)
    requires Orderly(s, c.reqs) && Shaped(c) && s.pending == NoPending && !UsesCq(c.verb)
    ensures var rs := Responses(Run(s, c.reqs).1); rs != [] && Reports(Obstacle(s, c), c.verb, rs[0])
  {
    hide Run, Responses, Ascii, Orderly, HandleWrite, HandleWriteData, HandleSend, HandleSendData, HandleReadReq,
         HandleAtomicReq, PickFrom, WithRegion, RollWindow;
    var x := c.reqs[0];
    assert c.reqs == [x];
    RunOne(s, x);
    FirstDispatched(s, c);
    var out := React(s, x.msg, x.env).1;
    OneResponse(out[0]);
    assert out == [out[0]];
    RollKeepsStore(Advance(s, x.msg), x.env.now);
    RollIgnoresNumber(s, x.msg, x.env.now);
  }

  lemma RollKeepsStore(s: Session, now: nat)
    ensures RollWindow(s, now).store == s.store && RollWindow(s, now).mrRegRateLimit == s.mrRegRateLimit
  {
  }

  lemma RollIgnoresNumber(s: Session, m: Message, now: nat)
    ensures RollWindow(Advance(s, m), now).mrRegCount == RollWindow(s, now).mrRegCount
  {
  }

  /** The first answer to a call reports its obstacle, and is its own completion exactly when there is none. */
  lemma AnswerReportsObstacle(s: Session, c: Call)
    requires Orderly(s, c.reqs) && Shaped(c) && s.pending == NoPending
    ensures var rs := Responses(Run(s, c.reqs).1); rs != [] && Reports(Obstacle(s, c), c.verb, rs[0])
  {
    hide Run, Responses, Orderly, Shaped, Reports, Obstacle;
    if !UsesCq(c.verb) {
      RegReports(s, c);
    } else if c.verb.PostSend? {
      SendReports(s, c);
    } else if c.verb.RdmaWrite? {
      WriteReports(s, c);
    } else {
      SingleReports(s, c);
    }
  }

  // ---------------------------------------------------------------------
  // The outcome
  // ---------------------------------------------------------------------

  /** How a read of `len` bytes ends at its local sink. */
  function SinkOutcome(mrs: map<u32, LocalMr>, v: Verb, len: nat): Outcome
    requires v.RdmaRead?
  {
    if v.localLkey !in mrs then Rejected(Protocol(ErrInvalidLkey))
    else if v.localVa + len >= U64_MOD then Rejected(Overflow)
    else if v.localVa + len > |mrs[v.localLkey].buf| then Rejected(Protocol(ErrBounds))
    else Completed
  }

  /** The opcode of the completion that belongs to a verb. */
  function AnswerOpcode(v: Verb): Opcode {
    match v
    case RegMr(_, _) => MrRegAck
    case DeregMr(_) => MrDeregAck
    case PostSend(_, _) => RecvComp
    case RdmaWrite(_, _, _, _) => WriteComp
    case RdmaRead(_, _, _, _, _, _) => ReadResp
    case PostAtomic(_, _, _, _, _, _) => AtomicResp
  }

  /** A verb that met no obstacle and consumed a completion of its own kind. */
  predicate Succeeds(mrs: map<u32, LocalMr>, v: Verb, owner: Verb, o: Outcome)
    requires AnswerOpcode(v) == AnswerOpcode(owner)
  {
    match v
    case RegMr(_, _) => o.GotMr?
    case PostAtomic(_, _, _, _, _, _) => o.GotWord?
    case RdmaRead(_, _, _, _, _, _) => o == SinkOutcome(mrs, v, owner.readLen)
    case _ => o == Completed
  }

  /**
   The outcome of verb `v` when it consumes the first answer to `owner`: the
   obstacle of `owner` if it is reported by an ERROR or to a verb of the same
   kind, an unexpected message if the kinds differ, and success otherwise.
   */
  predicate Decided(mrs: map<u32, LocalMr>, v: Verb, owner: Verb, obstacle: Option<ErrorCode>, o: Outcome) {
    if obstacle.Some? && (UsesCq(owner) || AnswerOpcode(v) == AnswerOpcode(owner)) then
      o == Rejected(Protocol(obstacle.value))
    else if AnswerOpcode(v) != AnswerOpcode(owner) then o == Rejected(UnexpectedMessage(AnswerOpcode(owner)))
    else Succeeds(mrs, v, owner, o)
  }

  lemma CodeRoundTrip(code: ErrorCode)
    ensures CodeFromValue(CodeValue(code)) == code
  {
  }

  lemma AcceptDecides(c: Client, v: Verb, m: Message, owner: Verb, obstacle: Option<ErrorCode>, n: Note)
    requires Reports(obstacle, owner, n) && m.body == n.body && m.header.opcode == OpcodeOf(n.body)
    ensures Decided(c.localMrs, v, owner, obstacle, Accept(c, v, m).1)
  {
    hide CodeValue, CodeFromValue, StartOf, Splice, Zeros, Completion;
    if obstacle.Some? {
      CodeRoundTrip(obstacle.value);
    }
  }

  /** The step that finishes a verb hands it the next response in order. */
  lemma FinishAccepts(y: System, z: System) returns (c: Client, m: Message)
    requires Inv(y) && y.waiting.Some? && Finishes(y, z)
    ensures c == y.client.(expectedRemoteSeq := c.expectedRemoteSeq)
    ensures z.client == Accept(c, y.waiting.value, m).0
    ensures z.outcomes == y.outcomes + [Accept(c, y.waiting.value, m).1]
    ensures 0 <= ServedCount(z) && z.collected <= |SoFar(z).1| && |y.outcomes| < |Responses(Got(z))|
    ensures m.body == Responses(Got(z))[|y.outcomes|].body && m.header.opcode == OpcodeOf(m.body)
  {
    hide Run, Issued, RequestsOk, Increments, RecvComps, Responses, Explains, Wrap32, Accept, Completion, Strays,
         Encode, Decode, Stamp, Numbered, UsesCq, QueueOk, Entries;
    NextResponseDecodes(y);
    UnreadExists(y);
    m := Decode(y.s2c[0]).value;
    var n := SoFar(y).1[y.collected];
    c := y.client.(expectedRemoteSeq := Some(Wrap32(m.header.sequence + 1)));
    GotGrows(y, z);
    MeasuresOfFew(n);
    ResponsesConcat(Got(y), [n]);
  }

  /** What becomes of a verb that finishes, in terms of the owner of its place. */
  ghost predicate DecidedByOwner(y: System, z: System)
    requires y.waiting.Some? && |y.outcomes| < |z.outcomes| <= |z.calls|
  {
    var k := |y.outcomes|;
    var m := OwnerOf(z, k);
    if k > OwnersPlace(z, k) then z.outcomes[k] == Rejected(Protocol(ErrUnknownOpcode))
    else
      && Shaped(z.calls[m])
      && Decided(y.client.localMrs, y.waiting.value, z.calls[m].verb, Obstacle(MetBy(z, m), z.calls[m]), z.outcomes[k])
  }

  lemma FinishIsDecided(y: System, z: System)
    requires Inv(y) && Inv(z) && y.waiting.Some? && Finishes(y, z) && |z.outcomes| <= |z.calls|
    ensures DecidedByOwner(y, z)
  {
    hide Run, Issued, QueueOk, ClientOk, ServerOk, PipeOk, Responses, Refusals, Orderly, MemoryModel.Valid,
         Obstacle, Shaped, Apply, Accept, Owner, PlaceOf, Answers, RefusedWrite, Reports, Decided;
    var k := |y.outcomes|;
    var c, m := FinishAccepts(y, z);
    ConsumesOwners(z, k);
    var o := OwnerOf(z, k);
    assert Shaped(z.calls[o]);
    MeetsCall(z.origin.session, z.calls, o);
    AnswerReportsObstacle(Before(z.origin.session, z.calls, o), z.calls[o]);
    if k == OwnersPlace(z, k) {
      AcceptDecides(c, y.waiting.value, m, z.calls[o].verb, Obstacle(MetBy(z, o), z.calls[o]), AnswersOf(z, o)[0]);
    }
  }

  /**
   Exactly how a verb ends, in every run: the verb that finishes from `y` to `z`
   fails with ErrUnknownOpcode if its place is the second of a refused WRITE,
   and otherwise as the obstacle of its place's owner, the kinds of the two
   verbs and the local sink decide.
   */
  lemma OutcomeIsDecided(y0: System, steps: seq<Step>, y: System, z: System)
    requires GoodRun(y0, steps) && y == Exec(y0, steps) && y.waiting.Some? && Finishes(y, z)
    ensures |z.outcomes| <= |z.calls| && DecidedByOwner(y, z)
  {
    hide Exec, Inv, Start, Apply, DecidedByOwner;
    RunKeepsInv(y0, steps);
    StepKeepsInv(y, Collect);
    FinishWithinCalls(y, z);
    FinishIsDecided(y, z);
  }

  lemma FinishWithinCalls(y: System, z: System)
    requires Inv(y) && Inv(z) && y.waiting.Some? && Finishes(y, z)
    ensures |z.outcomes| <= |z.calls| && |y.outcomes| < |z.calls| && z.calls[|y.outcomes|].verb == y.waiting.value
  {
    hide RequestsOk, PipeOk, QueueOk, ServerOk, Run, Issued, Increments, RecvComps, Responses, Strays, Explains,
         Entries, Decode, OnArrival, Accept, Completion;
  }

  /**
   For a verb before which no WRITE was refused: it fails with its own obstacle
   if there is one, and otherwise succeeds, or fails at the local sink of a read
   exactly as the L_Key and the length of the sink say.
   */
  lemma OwnOutcomeIsDecided(y0: System, steps: seq<Step>, y: System, z: System)
    requires GoodRun(y0, steps) && y == Exec(y0, steps) && y.waiting.Some? && Finishes(y, z)
    requires |y.outcomes| <= |z.calls| && Refusals(z.origin.session, z.calls[..|y.outcomes|]) == 0
    ensures var (k, v) := (|y.outcomes|, y.waiting.value);
            && k < |z.outcomes| <= |z.calls| && z.calls[k].verb == v && Shaped(z.calls[k])
            && match Obstacle(MetBy(z, k), z.calls[k])
               case Some(code) => z.outcomes[k] == Rejected(Protocol(code))
               case None => Succeeds(y.client.localMrs, v, v, z.outcomes[k])
  {
    hide Exec, Inv, Start, Apply, Obstacle, Refusals, Shaped, Owner, Succeeds;
    RunKeepsInv(y0, steps);
    StepKeepsInv(y, Collect);
    FinishWithinCalls(y, z);
    FinishIsDecided(y, z);
    OwnerIsSelfIff(z.origin.session, z.calls, |y.outcomes|);
    PlaceIsLate(z.origin.session, z.calls, |y.outcomes|);
  }
}
