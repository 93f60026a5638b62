/**
 Whole-run properties of the memory store: every byte is the one placed by the
 last successful operation that covered it, atomics behave as operations on one
 64-bit cell, and R_Keys are never reused.
 */
module MemoryHistory {
  import opened Core
  import opened Codec
  import opened MemoryModel

  predicate Live(s: Store, rkey: u32) {
    rkey in s.rkeyToLkey && s.rkeyToLkey[rkey] in s.regions
  }

  function DataOf(s: Store, rkey: u32): bytes
    requires Live(s, rkey)
  {
    s.regions[s.rkeyToLkey[rkey]].data
  }

  function FlagsOf(s: Store, rkey: u32): u32
    requires Live(s, rkey)
  {
    s.regions[s.rkeyToLkey[rkey]].flags
  }

  // ---------------------------------------------------------------------
  // Last writer wins
  // ---------------------------------------------------------------------

  /** What a client of the store observes: operations and their replies. */
  datatype Event = Event(op: Op, reply: Reply)

  function Log(s: Store, ops: seq<Op>): (log: seq<Event>)
    ensures |log| == |ops|
  {
    seq(|ops|, i requires 0 <= i < |ops| => Event(ops[i], ReplyTo(s, ops, i)))
  }

  /** The event succeeded and placed byte `i` of the region behind `rkey`. */
  predicate Places(e: Event, rkey: u32, i: nat) {
    match e
    case Event(Register(_, _, _, _), Registered(_, k)) => k == rkey
    case Event(WriteAt(k, offset, data), Done) => k == rkey && offset <= i < offset + |data|
    case Event(AtomicAt(k, va, _, _, _), Word(_)) => k == rkey && va <= i < va + 8
    case _ => false
  }

  function PlacedByte(e: Event, rkey: u32, i: nat): byte
    requires Places(e, rkey, i)
  {
    match e.op
    case WriteAt(_, offset, data) => data[i - offset]
    case AtomicAt(_, va, kind, op1, op2) =>
      BigEndian(8, NewWord(kind, e.reply.value, op1, op2))[i - va]
    case _ => 0
  }

  /** Computed from the log alone: the byte placed by the last event that covers position `i`. */
  function LastPlaced(log: seq<Event>, rkey: u32, i: nat): byte {
    if log == [] then 0
    else
      var e := log[|log| - 1];
      if Places(e, rkey, i) then PlacedByte(e, rkey, i) else LastPlaced(log[..|log| - 1], rkey, i)
  }

  /** One operation places exactly the bytes its reply says and leaves all others alone. */
  lemma StepByte(s: Store, op: Op, rkey: u32, i: nat)
    requires Valid(s)
    requires Live(Perform(s, op).0, rkey) && i < |DataOf(Perform(s, op).0, rkey)|
    ensures var (t, r) := Perform(s, op);
            if Places(Event(op, r), rkey, i) then DataOf(t, rkey)[i] == PlacedByte(Event(op, r), rkey, i)
            else Live(s, rkey) && FlagsOf(t, rkey) == FlagsOf(s, rkey)
                 && |DataOf(t, rkey)| == |DataOf(s, rkey)| && DataOf(t, rkey)[i] == DataOf(s, rkey)[i]
  {
    var (t, r) := Perform(s, op);
    match op
    case Register(_, _, _, draws) =>
      if r.Registered? {
        assert t.rkeyToLkey == s.rkeyToLkey[r.rkey := r.lkey];
      }
    case Deregister(_, _) =>
    case WriteAt(k, _, _) =>
      if k != rkey && Live(s, k) { assert s.rkeyToLkey[k] != s.rkeyToLkey[rkey]; }
    case ReadAt(_, _, _) =>
    case AtomicAt(k, _, _, _, _) =>
      if k != rkey && Live(s, k) { assert s.rkeyToLkey[k] != s.rkeyToLkey[rkey]; }
  }

  lemma LogPrefix(s: Store, ops: seq<Op>)
    requires ops != []
    ensures Log(s, ops)[..|ops| - 1] == Log(s, ops[..|ops| - 1])
    ensures Log(s, ops)[|ops| - 1] == Event(ops[|ops| - 1], Perform(After(s, ops[..|ops| - 1]), ops[|ops| - 1]).1)
  {
    var n := |ops| - 1;
    forall i | 0 <= i < n
      ensures Log(s, ops)[i] == Log(s, ops[..n])[i]
    {
      assert ops[..n][..i] == ops[..i];
    }
  }

  /** After any sequence of operations on a fresh store, every live byte is the last one placed. */
  lemma {:induction false} MemoryIsLastWriterWins(s: Store, ops: seq<Op>, rkey: u32, i: nat)
    requires Valid(s) && s.rkeyToLkey == map[]
    requires Live(After(s, ops), rkey) && i < |DataOf(After(s, ops), rkey)|
    ensures DataOf(After(s, ops), rkey)[i] == LastPlaced(Log(s, ops), rkey, i)
  {
    if ops != [] {
      var front := ops[..|ops| - 1];
      RunKeepsValid(s, front);
      LogPrefix(s, ops);
      StepByte(After(s, front), ops[|ops| - 1], rkey, i);
      if !Places(Log(s, ops)[|ops| - 1], rkey, i) {
        MemoryIsLastWriterWins(s, front, rkey, i);
      }
    }
  }

  /** A successful read returns, byte for byte, what the log placed last. */
  lemma ReadReturnsLastPlaced(s: Store, ops: seq<Op>, j: nat, i: nat)
    requires Valid(s) && s.rkeyToLkey == map[]
    requires j < |ops| && ops[j].ReadAt? && ReplyTo(s, ops, j).Bytes?
    requires i < ops[j].len
    ensures |ReplyTo(s, ops, j).data| == ops[j].len
    ensures ReplyTo(s, ops, j).data[i] == LastPlaced(Log(s, ops[..j]), ops[j].rkey, ops[j].offset + i)
  {
    hide After, Log, LastPlaced, Valid;
    MemoryIsLastWriterWins(s, ops[..j], ops[j].rkey, ops[j].offset + i);
  }

  // ---------------------------------------------------------------------
  // Access control and revocation
  // ---------------------------------------------------------------------

  /** Memory changes only through an R_Key that is live, grants the access and covers the byte. */
  lemma ChangeNeedsAccess(s: Store, op: Op, rkey: u32, i: nat)
    requires Valid(s) && Live(s, rkey) && Live(Perform(s, op).0, rkey)
    requires i < |DataOf(Perform(s, op).0, rkey)|
    ensures |DataOf(Perform(s, op).0, rkey)| == |DataOf(s, rkey)|
    ensures DataOf(Perform(s, op).0, rkey)[i] != DataOf(s, rkey)[i] ==>
              || (op.WriteAt? && op.rkey == rkey && Allows(FlagsOf(s, rkey), REMOTE_WRITE)
                  && op.offset <= i < op.offset + |op.data| <= |DataOf(s, rkey)|)
              || (op.AtomicAt? && op.rkey == rkey && Allows(FlagsOf(s, rkey), REMOTE_ATOMIC)
                  && op.va % 8 == 0 && op.va <= i < op.va + 8 <= |DataOf(s, rkey)|)
  {
    if op.Register? && Perform(s, op).1.Registered? {
      PickedKeyIsFresh(s.usedRkeys, op.draws, 0);
    }
    StepByte(s, op, rkey, i);
  }

  /** An issued key stays issued, and an issued key that is not live never comes back to life. */
  lemma StepKeepsRevoked(s: Store, op: Op, t: Store, rkey: u32)
    requires Valid(s) && rkey in s.usedRkeys && t == Perform(s, op).0
    ensures rkey in t.usedRkeys
    ensures !Live(s, rkey) ==> !Live(t, rkey)
  {
    if op.Register? {
      PickedKeyIsFresh(s.usedRkeys, op.draws, 0);
    }
  }

  lemma AfterStep(s: Store, ops: seq<Op>, m: nat)
    requires m < |ops|
    ensures After(s, ops[..m + 1]) == Perform(After(s, ops[..m]), ops[m]).0
  {
    assert ops[..m + 1][..m] == ops[..m];
  }

  /** Between any two points of a run, issued keys stay issued and dead keys stay dead. */
  lemma {:induction false} RevokedStaysRevoked(s: Store, ops: seq<Op>, rkey: u32)
    requires Valid(s) && rkey in s.usedRkeys
    ensures rkey in After(s, ops).usedRkeys
    ensures !Live(s, rkey) ==> !Live(After(s, ops), rkey)
  {
    if ops != [] {
      var front := ops[..|ops| - 1];
      RevokedStaysRevoked(s, front, rkey);
      RunKeepsValid(s, front);
      StepKeepsRevoked(After(s, front), ops[|ops| - 1], After(s, ops), rkey);
    }
  }

  /** A run of operations is a run of its first part followed by a run of the rest. */
  lemma {:induction false} AfterConcat(s: Store, a: seq<Op>, b: seq<Op>)
    ensures After(s, a + b) == After(After(s, a), b)
  {
    if b == [] {
      assert a + b == a;
    } else {
      var n := |b| - 1;
      AfterConcat(s, a, b[..n]);
      assert (a + b)[..|a + b| - 1] == a + b[..n];
    }
  }

  lemma AfterSplit(s: Store, ops: seq<Op>, n: nat, m: nat)
    requires n <= m <= |ops|
    ensures After(s, ops[..m]) == After(After(s, ops[..n]), ops[n..m])
  {
    AfterConcat(s, ops[..n], ops[n..m]);
    assert ops[..n] + ops[n..m] == ops[..m];
  }

  lemma DeregisterKills(s: Store, op: Op)
    requires Valid(s) && op.Deregister? && Perform(s, op).1 == Done
    ensures op.lkey in s.regions
    ensures var rkey := s.regions[op.lkey].rkey;
            rkey in Perform(s, op).0.usedRkeys && !Live(Perform(s, op).0, rkey)
  {
  }

  lemma DeadKeyIsRefused(s: Store, op: Op)
    requires op.WriteAt? || op.ReadAt? || op.AtomicAt?
    requires !Live(s, op.rkey)
    ensures Perform(s, op) == (s, Failed(ErrInvalidMkey))
  {
  }

  /**
   Revocation: once a deregistration succeeds, every later operation through
   that R_Key is answered ErrInvalidMkey, whatever happens in between.
   */
  lemma DeregisteredKeyIsDead(s: Store, ops: seq<Op>, i: nat, j: nat)
    requires Valid(s) && i < j < |ops|
    requires ops[i].Deregister? && ReplyTo(s, ops, i) == Done
    requires ops[j].WriteAt? || ops[j].ReadAt? || ops[j].AtomicAt?
    requires ops[i].lkey in After(s, ops[..i]).regions
    requires ops[j].rkey == After(s, ops[..i]).regions[ops[i].lkey].rkey
    ensures ReplyTo(s, ops, j) == Failed(ErrInvalidMkey)
  {
    RunKeepsValid(s, ops[..i]);
    DeregisterKills(After(s, ops[..i]), ops[i]);
    AfterStep(s, ops, i);
    AfterSplit(s, ops, i + 1, j);
    PerformKeepsValid(After(s, ops[..i]), ops[i]);
    RevokedStaysRevoked(After(s, ops[..i + 1]), ops[i + 1..j], ops[j].rkey);
    DeadKeyIsRefused(After(s, ops[..j]), ops[j]);
  }

  lemma RegisteredKeyIsFresh(s: Store, op: Op)
    requires Valid(s) && Perform(s, op).1.Registered?
    ensures var rkey := Perform(s, op).1.rkey;
            && rkey != 0 && rkey !in s.usedRkeys && rkey in Perform(s, op).0.usedRkeys
            && Live(Perform(s, op).0, rkey)
  {
    PickedKeyIsFresh(s.usedRkeys, op.draws, 0);
  }

  /** Distinct registrations return distinct, nonzero R_Keys over the whole session. */
  lemma RegisteredKeysDistinct(s: Store, ops: seq<Op>, i: nat, j: nat)
    requires Valid(s) && i < j < |ops|
    requires ReplyTo(s, ops, i).Registered? && ReplyTo(s, ops, j).Registered?
    ensures ReplyTo(s, ops, i).rkey != 0 && ReplyTo(s, ops, j).rkey != 0
    ensures ReplyTo(s, ops, i).rkey != ReplyTo(s, ops, j).rkey
  {
    RunKeepsValid(s, ops[..i]);
    RunKeepsValid(s, ops[..j]);
    RegisteredKeyIsFresh(After(s, ops[..i]), ops[i]);
    RegisteredKeyIsFresh(After(s, ops[..j]), ops[j]);
    AfterStep(s, ops, i);
    AfterSplit(s, ops, i + 1, j);
    PerformKeepsValid(After(s, ops[..i]), ops[i]);
    RevokedStaysRevoked(After(s, ops[..i + 1]), ops[i + 1..j], ReplyTo(s, ops, i).rkey);
  }

  // ---------------------------------------------------------------------
  // Atomics: one 64-bit cell
  // ---------------------------------------------------------------------

  /** The operation is an atomic on the cell at (`rkey`, `va`). */
  predicate OnCell(op: Op, rkey: u32, va: u64) {
    op.AtomicAt? && op.rkey == rkey && op.va == va
  }

  /** A plain write that would reach into the cell. */
  predicate WritesCell(op: Op, rkey: u32, va: u64) {
    op.WriteAt? && op.rkey == rkey && op.data != [] && op.offset < va + 8 && va < op.offset + |op.data|
  }

  /** A single 64-bit cell driven by the successful atomics of a log. */
  function CellAfter(word: u64, log: seq<Event>, rkey: u32, va: u64): u64 {
    if log == [] then word
    else
      var w := CellAfter(word, log[..|log| - 1], rkey, va);
      var e := log[|log| - 1];
      if OnCell(e.op, rkey, va) && e.reply.Word? then NewWord(e.op.kind, w, e.op.operand1, e.op.operand2) else w
  }

  /** The region behind `rkey`, if still live, has `word` stored at `va`. */
  ghost predicate HoldsWord(s: Store, rkey: u32, va: u64, word: u64) {
    && rkey in s.usedRkeys
    && (Live(s, rkey) ==> va + 8 <= |DataOf(s, rkey)| && WordAt(DataOf(s, rkey), va) == word)
  }

  lemma WordOfSplice(data: bytes, va: nat, word: u64)
    requires va + 8 <= |data|
    ensures WordAt(Splice(data, va, BigEndian(8, word)), va) == word
  {
    LimitIsPower(W8);
    IntegerRoundTrip(8, word);
    assert Splice(data, va, BigEndian(8, word))[va..va + 8] == BigEndian(8, word);
  }

  lemma StepCell(s: Store, op: Op, rkey: u32, va: u64, word: u64)
    requires Valid(s) && va % 8 == 0 && HoldsWord(s, rkey, va, word) && !WritesCell(op, rkey, va)
    ensures var (t, r) := Perform(s, op);
            if OnCell(op, rkey, va) && r.Word? then
              r.value == word && HoldsWord(t, rkey, va, NewWord(op.kind, word, op.operand1, op.operand2))
            else HoldsWord(t, rkey, va, word)
  {
    var (t, r) := Perform(s, op);
    StepKeepsRevoked(s, op, t, rkey);
    if OnCell(op, rkey, va) && r.Word? {
      WordOfSplice(DataOf(s, rkey), va, NewWord(op.kind, word, op.operand1, op.operand2));
    } else if Live(t, rkey) {
      SameLength(s, op, rkey);
      assert DataOf(t, rkey)[va..va + 8] == DataOf(s, rkey)[va..va + 8] by {
        forall i | va <= i < va + 8
          ensures DataOf(t, rkey)[i] == DataOf(s, rkey)[i]
        {
          StepByte(s, op, rkey, i);
          NotPlacedInCell(s, op, rkey, va, i);
        }
      }
    }
  }

  lemma SameLength(s: Store, op: Op, rkey: u32)
    requires Valid(s) && Live(s, rkey) && Live(Perform(s, op).0, rkey)
    ensures |DataOf(Perform(s, op).0, rkey)| == |DataOf(s, rkey)|
  {
    if op.Register? {
      PickedKeyIsFresh(s.usedRkeys, op.draws, 0);
    }
  }

  /** Aligned atomics either address the same word or do not overlap it. */
  lemma NotPlacedInCell(s: Store, op: Op, rkey: u32, va: u64, i: nat)
    requires Valid(s) && va % 8 == 0 && rkey in s.usedRkeys && va <= i < va + 8
    requires !WritesCell(op, rkey, va)
    requires !(OnCell(op, rkey, va) && Perform(s, op).1.Word?)
    ensures !Places(Event(op, Perform(s, op).1), rkey, i)
  {
    if op.Register? {
      PickedKeyIsFresh(s.usedRkeys, op.draws, 0);
    }
  }

  lemma {:induction false} CellRun(s: Store, ops: seq<Op>, rkey: u32, va: u64, word: u64)
    requires Valid(s) && va % 8 == 0 && HoldsWord(s, rkey, va, word)
    requires forall i :: 0 <= i < |ops| ==> !WritesCell(ops[i], rkey, va)
    ensures HoldsWord(After(s, ops), rkey, va, CellAfter(word, Log(s, ops), rkey, va))
  {
    if ops != [] {
      var front := ops[..|ops| - 1];
      CellRun(s, front, rkey, va, word);
      RunKeepsValid(s, front);
      LogPrefix(s, ops);
      StepCell(After(s, front), ops[|ops| - 1], rkey, va, CellAfter(word, Log(s, front), rkey, va));
    }
  }

  /**
   Every atomic on an aligned word returns what a lone 64-bit cell would,
   however other operations that do not write the word are interleaved.
   */
  lemma AtomicsActOnOneCell(s: Store, ops: seq<Op>, rkey: u32, va: u64, j: nat)
    requires Valid(s) && va % 8 == 0 && Live(s, rkey) && va + 8 <= |DataOf(s, rkey)|
    requires forall i :: 0 <= i < |ops| ==> !WritesCell(ops[i], rkey, va)
    requires j < |ops| && OnCell(ops[j], rkey, va) && ReplyTo(s, ops, j).Word?
    ensures ReplyTo(s, ops, j).value == CellAfter(WordAt(DataOf(s, rkey), va), Log(s, ops[..j]), rkey, va)
  {
    var word := WordAt(DataOf(s, rkey), va);
    CellRun(s, ops[..j], rkey, va, word);
    RunKeepsValid(s, ops[..j]);
    StepCell(After(s, ops[..j]), ops[j], rkey, va, CellAfter(word, Log(s, ops[..j]), rkey, va));
  }

  /** Sum of the addends of the successful fetch-and-adds on the cell. */
  function Addends(log: seq<Event>, rkey: u32, va: u64): nat {
    if log == [] then 0
    else
      var e := log[|log| - 1];
      Addends(log[..|log| - 1], rkey, va)
      + (if OnCell(e.op, rkey, va) && e.reply.Word? then e.op.operand1 else 0)
  }

  lemma AddModulo(x: nat, y: nat)
    ensures (x % U64_MOD + y) % U64_MOD == (x + y) % U64_MOD
  {
  }

  lemma {:induction false} CellOfAdds(word: u64, log: seq<Event>, rkey: u32, va: u64)
    requires forall i :: 0 <= i < |log| && OnCell(log[i].op, rkey, va) ==> log[i].op.kind == ATOMIC_FAA
    ensures CellAfter(word, log, rkey, va) == (word + Addends(log, rkey, va)) % U64_MOD
  {
    if log != [] {
      var front := log[..|log| - 1];
      var e := log[|log| - 1];
      CellOfAdds(word, front, rkey, va);
      if OnCell(e.op, rkey, va) && e.reply.Word? {
        AddModulo(word + Addends(front, rkey, va), e.op.operand1);
      }
    }
  }

  /** A run of fetch-and-adds on one word returns the successive partial sums modulo 2^64. */
  lemma FetchAndAddsReturnPartialSums(s: Store, ops: seq<Op>, rkey: u32, va: u64, j: nat)
    requires Valid(s) && va % 8 == 0 && Live(s, rkey) && va + 8 <= |DataOf(s, rkey)|
    requires forall i :: 0 <= i < |ops| ==> !WritesCell(ops[i], rkey, va)
    requires forall i :: 0 <= i < |ops| && OnCell(ops[i], rkey, va) ==> ops[i].kind == ATOMIC_FAA
    requires j < |ops| && OnCell(ops[j], rkey, va) && ReplyTo(s, ops, j).Word?
    ensures ReplyTo(s, ops, j).value
            == (WordAt(DataOf(s, rkey), va) + Addends(Log(s, ops[..j]), rkey, va)) % U64_MOD
  {
    hide After, Valid, Perform, WordAt, Addends, DataOf;
    AtomicsActOnOneCell(s, ops, rkey, va, j);
    CellOfAdds(WordAt(DataOf(s, rkey), va), Log(s, ops[..j]), rkey, va);
  }

  /** Every atomic on the cell tries to swap `free` for something else. */
  predicate Elects(ops: seq<Op>, rkey: u32, va: u64, free: u64) {
    forall i :: 0 <= i < |ops| && OnCell(ops[i], rkey, va) ==>
      ops[i].kind == ATOMIC_CAS && ops[i].operand1 == free && ops[i].operand2 != free
  }

  /** Once the cell is taken it stays taken. */
  lemma {:induction false} TakenStays(s: Store, ops: seq<Op>, rkey: u32, va: u64, free: u64, n: nat)
    requires Elects(ops, rkey, va, free) && n <= |ops| && CellAfter(free, Log(s, ops[..n]), rkey, va) != free
    ensures CellAfter(free, Log(s, ops), rkey, va) == CellAfter(free, Log(s, ops[..n]), rkey, va)
  {
    hide Log;
    if n == |ops| {
      assert ops[..n] == ops;
    } else {
      var m := |ops| - 1;
      assert ops[..m][..n] == ops[..n];
      TakenStays(s, ops[..m], rkey, va, free, n);
      LogPrefix(s, ops);
    }
  }

  /**
   Compare-and-swap elects one winner: of the swaps that all expect `free`, the
   one that finds it gets its value stored, and every later one finds that value.
   */
  lemma CompareAndSwapElectsOne(s: Store, ops: seq<Op>, rkey: u32, va: u64, free: u64, i: nat, j: nat)
    requires Valid(s) && va % 8 == 0 && Live(s, rkey) && va + 8 <= |DataOf(s, rkey)|
    requires WordAt(DataOf(s, rkey), va) == free && Elects(ops, rkey, va, free)
    requires forall m :: 0 <= m < |ops| ==> !WritesCell(ops[m], rkey, va)
    requires i < j < |ops| && OnCell(ops[i], rkey, va) && OnCell(ops[j], rkey, va)
    requires ReplyTo(s, ops, i) == Word(free) && ReplyTo(s, ops, j).Word?
    ensures ReplyTo(s, ops, j) == Word(ops[i].operand2)
  {
    hide Log, After, Valid, Perform, DataOf;
    AtomicsActOnOneCell(s, ops, rkey, va, i);
    AtomicsActOnOneCell(s, ops, rkey, va, j);
    LogPrefix(s, ops[..i + 1]);
    assert ops[..i + 1][..i] == ops[..i];
    assert CellAfter(free, Log(s, ops[..i + 1]), rkey, va) == ops[i].operand2;
    assert ops[..j][..i + 1] == ops[..i + 1];
    TakenStays(s, ops[..j], rkey, va, free, i + 1);
  }
}
