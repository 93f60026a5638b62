/**
 The reply to every operation through a key is decided by the log alone: by the
 registration that returned the key and by whether it was deregistered since.
 */
module MemoryRecords {
  import opened Core
  import opened Codec
  import opened WireLayout
  import opened MemoryModel
  import opened MemoryHistory

  // ---------------------------------------------------------------------
  // What a registration records
  // ---------------------------------------------------------------------

  /** A region as `reg` asked for it, under the keys of `r`, with every byte zero. */
  predicate Created(t: Store, reg: Op, r: Reply)
    requires reg.Register? && r.Registered?
  {
    && Live(t, r.rkey) && t.rkeyToLkey[r.rkey] == r.lkey
    && t.regions[r.lkey].pd == reg.pd && FlagsOf(t, r.rkey) == reg.flags
    && |DataOf(t, r.rkey)| == reg.len && forall i :: 0 <= i < reg.len ==> DataOf(t, r.rkey)[i] == 0
  }

  lemma NewRegion(s: Store, pd: u32, rkey: u32, flags: u32, data: bytes)
    requires s.nextLkey !in s.regions && rkey !in s.rkeyToLkey
    ensures var t := WithRegion(s, pd, rkey, flags, data);
            && Live(t, rkey) && t.rkeyToLkey[rkey] == s.nextLkey && s.nextLkey < t.nextLkey
            && t.regions[s.nextLkey].pd == pd && FlagsOf(t, rkey) == flags && DataOf(t, rkey) == data
            && t.regions - {s.nextLkey} == s.regions && t.rkeyToLkey - {rkey} == s.rkeyToLkey
            && t.totalBytes == s.totalBytes + |data|
  {
    var t := WithRegion(s, pd, rkey, flags, data);
    assert t.regions - {s.nextLkey} == s.regions;
    assert t.rkeyToLkey - {rkey} == s.rkeyToLkey;
  }

  /** A successful registration adds that region under fresh keys and leaves every other region alone. */
  lemma RegistrationRecords(s: Store, op: Op)
    requires Valid(s) && op.Register? && Perform(s, op).1.Registered?
    ensures var (t, r) := Perform(s, op);
            && Created(t, op, r)
            && r.lkey !in s.regions && r.lkey < t.nextLkey && r.rkey !in s.usedRkeys
            && t.regions - {r.lkey} == s.regions && t.rkeyToLkey - {r.rkey} == s.rkeyToLkey
            && t.totalBytes == s.totalBytes + op.len
  {
    hide PickFrom, Accounted;
    PickedKeyIsFresh(s.usedRkeys, op.draws, 0);
    var (t, r) := Perform(s, op);
    assert r.lkey !in s.regions && r.rkey !in s.rkeyToLkey;
    assert t == WithRegion(s, op.pd, r.rkey, op.flags, Zeros(op.len));
    NewRegion(s, op.pd, r.rkey, op.flags, Zeros(op.len));
  }

  /** `rkey` was issued together with `lkey` for `reg`; while it lives, its region is the one `reg` asked for. */
  predicate Recorded(s: Store, reg: Op, lkey: nat, rkey: u32)
    requires reg.Register?
  {
    && rkey in s.usedRkeys && lkey < s.nextLkey
    && (lkey in s.regions <==> Live(s, rkey))
    && (Live(s, rkey) ==>
          && s.rkeyToLkey[rkey] == lkey
          && s.regions[lkey].pd == reg.pd && FlagsOf(s, rkey) == reg.flags && |DataOf(s, rkey)| == reg.len)
  }

  lemma StepKeepsRecorded(s: Store, op: Op, reg: Op, lkey: nat, rkey: u32)
    requires Valid(s) && reg.Register? && Recorded(s, reg, lkey, rkey)
    ensures Recorded(Perform(s, op).0, reg, lkey, rkey)
    ensures Live(Perform(s, op).0, rkey) <==>
            Live(s, rkey) && !(op.Deregister? && op.lkey == lkey && Perform(s, op).1 == Done)
  {
    if op.Register? {
      PickedKeyIsFresh(s.usedRkeys, op.draws, 0);
    }
  }

  /** From the log alone: some operation from position `i` on deregistered `lkey`. */
  predicate Deregistered(log: seq<Event>, i: nat, lkey: nat) {
    exists k :: i <= k < |log| && log[k].op.Deregister? && log[k].op.lkey == lkey && log[k].reply == Done
  }

  lemma DeregisteredStep(log: seq<Event>, i: nat, lkey: nat)
    requires i < |log|
    ensures var e := log[|log| - 1];
            Deregistered(log, i, lkey) <==>
            Deregistered(log[..|log| - 1], i, lkey) || (e.op.Deregister? && e.op.lkey == lkey && e.reply == Done)
  {
    var n := |log| - 1;
    if Deregistered(log, i, lkey) {
      var k :| i <= k < |log| && log[k].op.Deregister? && log[k].op.lkey == lkey && log[k].reply == Done;
      assert k < n ==> log[..n][k] == log[k];
    }
    if Deregistered(log[..n], i, lkey) {
      var k :| i <= k < n && log[..n][k].op.Deregister? && log[..n][k].op.lkey == lkey && log[..n][k].reply == Done;
      assert log[k] == log[..n][k];
    }
  }

  /** A returned key keeps its record, and lives exactly until it is deregistered. */
  lemma {:induction false} RecordStays(s: Store, ops: seq<Op>, i: nat)
    requires Valid(s) && i < |ops| && ops[i].Register? && ReplyTo(s, ops, i).Registered?
    ensures var r := ReplyTo(s, ops, i);
            && Recorded(After(s, ops), ops[i], r.lkey, r.rkey)
            && (Live(After(s, ops), r.rkey) <==> !Deregistered(Log(s, ops), i + 1, r.lkey))
  {
    hide Perform, Recorded, Log, Deregistered, Valid;
    var n := |ops| - 1;
    var r := ReplyTo(s, ops, i);
    RunKeepsValid(s, ops[..n]);
    if i == n {
      JustRecorded(After(s, ops[..n]), ops[n]);
      NothingDeregistered(Log(s, ops), i + 1, r.lkey);
    } else {
      assert ops[..n][..i] == ops[..i];
      RecordStays(s, ops[..n], i);
      StepKeepsRecorded(After(s, ops[..n]), ops[n], ops[i], r.lkey, r.rkey);
      LogPrefix(s, ops);
      DeregisteredStep(Log(s, ops), i + 1, r.lkey);
    }
  }

  lemma JustRecorded(s: Store, op: Op)
    requires Valid(s) && op.Register? && Perform(s, op).1.Registered?
    ensures var (t, r) := Perform(s, op);
            Recorded(t, op, r.lkey, r.rkey) && Live(t, r.rkey)
  {
    hide Valid, PickFrom;
    RegistrationRecords(s, op);
  }

  lemma NothingDeregistered(log: seq<Event>, i: nat, lkey: nat)
    requires |log| <= i
    ensures !Deregistered(log, i, lkey)
  {
  }

  // ---------------------------------------------------------------------
  // Replies from the log
  // ---------------------------------------------------------------------

  predicate ThroughKey(op: Op) {
    op.WriteAt? || op.ReadAt? || op.AtomicAt?
  }

  /** The access flag an operation needs: REMOTE_WRITE, REMOTE_READ or REMOTE_ATOMIC. */
  function NeededFlag(op: Op): u32
    requires ThroughKey(op)
  {
    if op.WriteAt? then 0x02 else if op.ReadAt? then 0x04 else 0x08
  }

  /** What an operation through a key is answered, from its registration and whether the key is dead. */
  function Refusal(reg: Op, dead: bool, op: Op): Option<ErrorCode>
    requires reg.Register? && ThroughKey(op)
  {
    if dead then Some(ErrInvalidMkey)
    else if reg.flags / NeededFlag(op) % 2 == 0 then Some(ErrAccessDenied)
    else
      match op
      case WriteAt(_, offset, data) => if offset + |data| <= reg.len then None else Some(ErrBounds)
      case ReadAt(_, offset, len) => if offset + len <= reg.len then None else Some(ErrBounds)
      case AtomicAt(_, va, kind, _, _) =>
        if va % 8 != 0 then Some(ErrAlignment)
        else if reg.len < va + 8 then Some(ErrBounds)
        else if kind == 0x01 || kind == 0x02 then None
        else Some(ErrUnknownOpcode)
      case _ => None
  }

  predicate AnsweredBy(r: Reply, refusal: Option<ErrorCode>) {
    match refusal
    case Some(code) => r == Failed(code)
    case None => !r.Failed?
  }

  lemma StepReply(s: Store, op: Op, reg: Op, lkey: nat)
    requires reg.Register? && ThroughKey(op) && Recorded(s, reg, lkey, op.rkey)
    ensures AnsweredBy(Perform(s, op).1, Refusal(reg, !Live(s, op.rkey), op))
    ensures Perform(s, op).1.Failed? ==> Perform(s, op).0 == s
  {
    hide Splice, WordAt, BigEndian, WithData;
  }

  /**
   Every WRITE, READ and atomic through a returned key is refused or performed as
   its registration and the deregistrations since then say, whatever else was done.
   */
  lemma ReplyFromLog(s: Store, ops: seq<Op>, i: nat, j: nat)
    requires Valid(s) && i < j < |ops|
    requires ops[i].Register? && ReplyTo(s, ops, i).Registered?
    requires ThroughKey(ops[j]) && ops[j].rkey == ReplyTo(s, ops, i).rkey
    ensures var dead := Deregistered(Log(s, ops[..j]), i + 1, ReplyTo(s, ops, i).lkey);
            AnsweredBy(ReplyTo(s, ops, j), Refusal(ops[i], dead, ops[j]))
  {
    hide Perform, Recorded, Log, Deregistered, Valid, Refusal, AnsweredBy, After;
    assert ops[..j][..i] == ops[..i];
    RecordStays(s, ops[..j], i);
    StepReply(After(s, ops[..j]), ops[j], ops[i], ReplyTo(s, ops, i).lkey);
  }

  /** In particular: through a live key registered without the flag, the answer is ErrAccessDenied. */
  lemma DeniedWithoutFlag(s: Store, ops: seq<Op>, i: nat, j: nat)
    requires Valid(s) && i < j < |ops|
    requires ops[i].Register? && ReplyTo(s, ops, i).Registered?
    requires ThroughKey(ops[j]) && ops[j].rkey == ReplyTo(s, ops, i).rkey
    requires ops[i].flags / NeededFlag(ops[j]) % 2 == 0
    requires !Deregistered(Log(s, ops[..j]), i + 1, ReplyTo(s, ops, i).lkey)
    ensures ReplyTo(s, ops, j) == Failed(ErrAccessDenied)
  {
    hide Perform, Log, Deregistered, Valid, After;
    ReplyFromLog(s, ops, i, j);
  }

  lemma StepDereg(s: Store, op: Op, reg: Op, rkey: u32)
    requires reg.Register? && op.Deregister? && Recorded(s, reg, op.lkey, rkey)
    ensures Perform(s, op).1 ==
            if !Live(s, rkey) then Failed(ErrInvalidLkey)
            else if op.pd != reg.pd then Failed(ErrInvalidPd)
            else Done
  {
  }

  /** A deregistration succeeds once, and only with the protection domain of the registration. */
  lemma DeregisterFromLog(s: Store, ops: seq<Op>, i: nat, j: nat)
    requires Valid(s) && i < j < |ops|
    requires ops[i].Register? && ReplyTo(s, ops, i).Registered?
    requires ops[j].Deregister? && ops[j].lkey == ReplyTo(s, ops, i).lkey
    ensures ReplyTo(s, ops, j) ==
            if Deregistered(Log(s, ops[..j]), i + 1, ops[j].lkey) then Failed(ErrInvalidLkey)
            else if ops[j].pd != ops[i].pd then Failed(ErrInvalidPd)
            else Done
  {
    hide Perform, Recorded, Log, Deregistered, Valid, After;
    assert ops[..j][..i] == ops[..i];
    RecordStays(s, ops[..j], i);
    StepDereg(After(s, ops[..j]), ops[j], ops[i], ReplyTo(s, ops, i).rkey);
  }

  /** Every live key of a run from a fresh store was returned by a registration of that run, as it is recorded. */
  lemma {:induction false} LiveKeyWasReturned(s: Store, ops: seq<Op>, rkey: u32) returns (i: nat)
    requires Valid(s) && s.rkeyToLkey == map[] && Live(After(s, ops), rkey)
    ensures i < |ops| && ops[i].Register?
    ensures ReplyTo(s, ops, i) == Registered(After(s, ops).rkeyToLkey[rkey], rkey)
    ensures After(s, ops).regions[After(s, ops).rkeyToLkey[rkey]].pd == ops[i].pd
    ensures FlagsOf(After(s, ops), rkey) == ops[i].flags && |DataOf(After(s, ops), rkey)| == ops[i].len
  {
    hide Perform, Valid, PickFrom, Log;
    var n := |ops| - 1;
    RunKeepsValid(s, ops[..n]);
    if Live(After(s, ops[..n]), rkey) {
      i := LiveKeyWasReturned(s, ops[..n], rkey);
      assert ops[..n][..i] == ops[..i];
    } else {
      OnlyRegistrationGivesLife(After(s, ops[..n]), ops[n], rkey);
      i := n;
    }
    RecordStays(s, ops, i);
  }

  lemma OnlyRegistrationGivesLife(s: Store, op: Op, rkey: u32)
    requires Valid(s) && !Live(s, rkey) && Live(Perform(s, op).0, rkey)
    ensures op.Register? && Perform(s, op).1 == Registered(Perform(s, op).0.rkeyToLkey[rkey], rkey)
  {
  }

  // ---------------------------------------------------------------------
  // Atomics by bytes
  // ---------------------------------------------------------------------

  /** An atomic returns the big-endian word it finds and stores the new one; the other bytes stay. */
  lemma AtomicOnBytes(s: Store, op: Op)
    requires Valid(s) && op.AtomicAt? && Perform(s, op).1.Word?
    ensures var (t, r) := Perform(s, op);
            var was := DataOf(s, op.rkey);
            && Live(t, op.rkey) && |DataOf(t, op.rkey)| == |was| && op.va % 8 == 0 && op.va + 8 <= |was|
            && r.value == U64At(was, op.va)
            && U64At(DataOf(t, op.rkey), op.va) ==
               (if op.kind == 0x02 then (r.value + op.operand1) % U64_MOD
                else if r.value == op.operand1 then op.operand2 else r.value)
            && forall i :: 0 <= i < |was| && !(op.va <= i < op.va + 8) ==> DataOf(t, op.rkey)[i] == was[i]
  {
    hide FromBigEndian, BigEndian, U64At;
    var (t, r) := Perform(s, op);
    var was := DataOf(s, op.rkey);
    WordIsU64(was, op.va);
    WordOfSplice(was, op.va, NewWord(op.kind, r.value, op.operand1, op.operand2));
    WordIsU64(DataOf(t, op.rkey), op.va);
  }

  /** The bytes the log placed last in a stretch of a region. */
  function PlacedBytes(log: seq<Event>, rkey: u32, from: nat, n: nat): (b: bytes)
    ensures |b| == n
  {
    seq<byte>(n, i requires 0 <= i < n => LastPlaced(log, rkey, from + i))
  }

  /** A successful atomic returns the big-endian value of the eight bytes the log placed last. */
  lemma AtomicReturnsLastPlaced(s: Store, ops: seq<Op>, j: nat)
    requires Valid(s) && s.rkeyToLkey == map[]
    requires j < |ops| && ops[j].AtomicAt? && ReplyTo(s, ops, j).Word?
    ensures ReplyTo(s, ops, j).value == U64At(PlacedBytes(Log(s, ops[..j]), ops[j].rkey, ops[j].va, 8), 0)
  {
    hide After, Log, LastPlaced, Valid, Perform, U64At;
    var op := ops[j];
    var t := After(s, ops[..j]);
    RunKeepsValid(s, ops[..j]);
    AtomicOnBytes(t, op);
    WordKeyIsLive(t, op);
    var b := PlacedBytes(Log(s, ops[..j]), op.rkey, op.va, 8);
    forall i | 0 <= i < 8
      ensures DataOf(t, op.rkey)[op.va..][i] == b[i]
    {
      MemoryIsLastWriterWins(s, ops[..j], op.rkey, op.va + i);
    }
    SameWord(DataOf(t, op.rkey), op.va, b);
  }

  lemma SameWord(data: bytes, at: nat, b: bytes)
    requires at + 8 <= |data| && |b| == 8 && forall i :: 0 <= i < 8 ==> data[at..][i] == b[i]
    ensures U64At(data, at) == U64At(b, 0)
  {
    assert data[at..at + 8] == b;
  }

  lemma WordKeyIsLive(s: Store, op: Op)
    requires op.AtomicAt? && Perform(s, op).1.Word?
    ensures Live(s, op.rkey)
  {
  }
}
