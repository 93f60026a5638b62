/**
 Memory under a session: every run of messages drives the store through a
 sequence of store operations, so all store properties hold of whatever a
 client sends, including a deregistration between WRITE and WRITE_DATA.
 */
module SessionMemory {
  import opened Core
  import opened MemoryModel
  import opened MemoryHistory
  import opened SessionModel

  /** The registration passes the rate limiter. */
  predicate Admitted(s: Session, now: nat) {
    RollWindow(s, now).mrRegCount < s.mrRegRateLimit
  }

  /** The store operation a processed message performs, if any. */
  function OpOf(s: Session, m: Message, env: Env): seq<Op> {
    if !Processed(s, m) then []
    else
      match m.body
      case MrRegBody(pd, flags, len, _) =>
        if Admitted(s, env.now) then [Register(pd, flags, len, env.draws)] else []
      case MrDeregBody(pd, lkey) => [Deregister(pd, lkey)]
      case WriteDataBody(data) =>
        if s.pending.AwaitingWriteData? then [WriteAt(s.pending.rkey, s.pending.remoteVa, data)] else []
      case AtomicReqBody(rkey, kind, va, op1, op2) =>
        if kind == ATOMIC_CAS || kind == ATOMIC_FAA then [AtomicAt(rkey, va, kind, op1, op2)] else []
      case _ => []
  }

  function OpsOf(s: Session, ins: seq<Input>): seq<Op> {
    if ins == [] then []
    else
      var front := ins[..|ins| - 1];
      var last := ins[|ins| - 1];
      OpsOf(s, front) + OpOf(Run(s, front).0, last.msg, last.env)
  }

  lemma AfterOne(s: Store, op: Op)
    ensures After(s, []) == s && After(s, [op]) == Perform(s, op).0
  {
    hide Perform;
    assert [op][..0] == [];
  }

  /** The store part of one message is exactly its store operation. */
  lemma StepPerformsOp(s: Session, m: Message, env: Env)
    ensures React(s, m, env).0.store == After(s.store, OpOf(s, m, env))
  {
    hide Perform, Lookup, ReadIn, Ascii, Decimal, After, CodeValue;
    var ops := OpOf(s, m, env);
    AfterOne(s.store, if ops == [] then Deregister(0, 0) else ops[0]);
    if Processed(s, m) {
      DispatchStore(Advance(s, m), m, env);
    } else {
      RejectedKeepsStore(s, m, env);
    }
  }

  lemma RejectedKeepsStore(s: Session, m: Message, env: Env)
    requires !Processed(s, m)
    ensures React(s, m, env).0.store == s.store
  {
    hide HandleReady, Ascii;
  }

  lemma DispatchStore(s: Session, m: Message, env: Env)
    ensures var t := Dispatch(s, m, env).0.store;
            match m.body
            case MrRegBody(pd, flags, len, _) =>
              t == (if Admitted(s, env.now) then Perform(s.store, Register(pd, flags, len, env.draws)).0 else s.store)
            case MrDeregBody(pd, lkey) => t == Perform(s.store, Deregister(pd, lkey)).0
            case WriteDataBody(data) =>
              t == (if s.pending.AwaitingWriteData?
                    then Perform(s.store, WriteAt(s.pending.rkey, s.pending.remoteVa, data)).0 else s.store)
            case AtomicReqBody(rkey, kind, va, op1, op2) =>
              t == (if kind == ATOMIC_CAS || kind == ATOMIC_FAA
                    then Perform(s.store, AtomicAt(rkey, va, kind, op1, op2)).0 else s.store)
            case _ => t == s.store
  {
    hide Lookup, ReadIn, Ascii, CodeValue;
  }

  /** A run of messages is, for the store, the run of its operations. */
  lemma {:induction false} RunPerformsOps(s: Session, ins: seq<Input>)
    ensures Run(s, ins).0.store == After(s.store, OpsOf(s, ins))
  {
    hide React, After, OpOf;
    if ins == [] {
      AfterOne(s.store, Deregister(0, 0));
    } else {
      var n := |ins| - 1;
      var last := ins[n];
      RunPerformsOps(s, ins[..n]);
      var s1 := Run(s, ins[..n]).0;
      StepPerformsOp(s1, last.msg, last.env);
      AfterConcat(s.store, OpsOf(s, ins[..n]), OpOf(s1, last.msg, last.env));
    }
  }

  /** Store accounting holds after any messages whatever. */
  lemma SessionKeepsStoreValid(s: Session, ins: seq<Input>)
    requires MemoryModel.Valid(s.store)
    ensures MemoryModel.Valid(Run(s, ins).0.store)
  {
    hide Run, After, MemoryModel.Valid;
    RunPerformsOps(s, ins);
    RunKeepsValid(s.store, OpsOf(s, ins));
  }

  /** After any messages on a fresh store, each live byte is the one placed by the last operation that covered it. */
  lemma SessionMemoryIsLastWriterWins(s: Session, ins: seq<Input>, rkey: u32, i: nat)
    requires MemoryModel.Valid(s.store) && s.store.rkeyToLkey == map[]
    requires Live(Run(s, ins).0.store, rkey) && i < |DataOf(Run(s, ins).0.store, rkey)|
    ensures DataOf(Run(s, ins).0.store, rkey)[i] == LastPlaced(Log(s.store, OpsOf(s, ins)), rkey, i)
  {
    hide Run, After, Log, LastPlaced;
    RunPerformsOps(s, ins);
    MemoryIsLastWriterWins(s.store, OpsOf(s, ins), rkey, i);
  }

  /**
   One message changes a byte only through an R_Key that is live at that moment
   and grants the access, and only inside the range the message names.
   */
  lemma MessageChangeNeedsAccess(s: Session, m: Message, env: Env, rkey: u32, i: nat)
    requires MemoryModel.Valid(s.store)
    requires Live(s.store, rkey) && Live(React(s, m, env).0.store, rkey)
    requires i < |DataOf(React(s, m, env).0.store, rkey)|
    ensures var before := DataOf(s.store, rkey);
            var after := DataOf(React(s, m, env).0.store, rkey);
            && |after| == |before|
            && (after[i] != before[i] ==>
                  && Processed(s, m)
                  && (|| (m.body.WriteDataBody? && s.pending.AwaitingWriteData? && s.pending.rkey == rkey
                          && Allows(FlagsOf(s.store, rkey), REMOTE_WRITE)
                          && s.pending.remoteVa <= i < s.pending.remoteVa + |m.body.data| <= |before|)
                      || (m.body.AtomicReqBody? && m.body.rkey == rkey
                          && Allows(FlagsOf(s.store, rkey), REMOTE_ATOMIC)
                          && m.body.remoteVa % 8 == 0
                          && m.body.remoteVa <= i < m.body.remoteVa + 8 <= |before|)))
  {
    hide React, After, Perform, Allows;
    var ops := OpOf(s, m, env);
    StepPerformsOp(s, m, env);
    AfterOne(s.store, if ops == [] then Deregister(0, 0) else ops[0]);
    if ops != [] {
      assert ops == [ops[0]];
      ChangeNeedsAccess(s.store, ops[0], rkey, i);
    }
  }

  /** The answer of a session that was asked to use a key it does not accept. */
  predicate KeyRefused(s: Session, e: Effect) {
    && e.0.store == s.store
    && |e.1| == 1 && e.1[0].body.ErrorBody? && e.1[0].body.code == ErrInvalidMkey
  }

  /** The message asks for memory behind `rkey`: a WRITE, its data, a READ or an atomic. */
  predicate Uses(s: Session, m: Message, rkey: u32) {
    match m.body
    case WriteBody(k, _, _, _) => k == rkey
    case WriteDataBody(_) => s.pending.AwaitingWriteData? && s.pending.rkey == rkey
    case ReadReqBody(k, _, _, _, _) => k == rkey && s.outstandingReads < s.maxOutstandingReads
    case AtomicReqBody(k, kind, _, _, _) => k == rkey && (kind == ATOMIC_CAS || kind == ATOMIC_FAA)
    case _ => false
  }

  lemma DeadKeyRefused(s: Session, m: Message, env: Env, rkey: u32)
    requires Processed(s, m) && Uses(s, m, rkey) && !Live(s.store, rkey)
    ensures KeyRefused(s, React(s, m, env))
  {
    hide Ascii;
  }

  /**
   Revocation: a key that was issued and is no longer live is refused with
   ErrInvalidMkey after any further messages, at the check of a WRITE as well
   as when its data arrives.
   */
  lemma RevokedKeyIsRefusedForever(s: Session, ins: seq<Input>, m: Message, env: Env, rkey: u32)
    requires MemoryModel.Valid(s.store)
    requires rkey in s.store.usedRkeys && !Live(s.store, rkey)
    requires var t := Run(s, ins).0; Processed(t, m) && Uses(t, m, rkey)
    ensures KeyRefused(Run(s, ins).0, React(Run(s, ins).0, m, env))
  {
    hide Run, After, React, Uses, MemoryModel.Valid;
    RunPerformsOps(s, ins);
    RevokedStaysRevoked(s.store, OpsOf(s, ins), rkey);
    DeadKeyRefused(Run(s, ins).0, m, env, rkey);
  }

  /** A deregistration that succeeds leaves its R_Key issued but not live. */
  lemma DeregRevokes(s: Session, m: Message, env: Env)
    requires Processed(s, m) && m.body.MrDeregBody? && MemoryModel.Valid(s.store)
    requires m.body.lkey in s.store.regions && s.store.regions[m.body.lkey].pd == m.body.pd
    ensures var rkey := s.store.regions[m.body.lkey].rkey;
            var (t, out) := React(s, m, env);
            && rkey in t.store.usedRkeys && !Live(t.store, rkey)
            && out == [Note(m.header.wrid, MrDeregAckBody(0))]
  {
    hide Ascii;
    DeregisterKills(s.store, Deregister(m.body.pd, m.body.lkey));
  }
}
