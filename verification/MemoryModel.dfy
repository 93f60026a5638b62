/**
 The server's memory store as a value: what each operation returns and what
 store it leaves behind.
 */
module MemoryModel {
  import opened Core
  import opened Codec

  const REMOTE_WRITE: u32 := 0x02
  const REMOTE_READ: u32 := 0x04
  const REMOTE_ATOMIC: u32 := 0x08

  const ATOMIC_CAS: byte := 0x01
  const ATOMIC_FAA: byte := 0x02

  const KEY_ATTEMPTS := 1000

  /** The values the random source would yield to the retry loop of `generate_rkey`. */
  type Draws = d: seq<u32> | |d| == KEY_ATTEMPTS witness seq(KEY_ATTEMPTS, _ => 0)

  datatype Region = Region(pd: u32, lkey: nat, rkey: u32, flags: u32, data: bytes)

  datatype Store = Store(
    regions: map<nat, Region>,
    rkeyToLkey: map<u32, nat>,
    usedRkeys: set<u32>,
    nextLkey: nat,
    totalBytes: int,
    maxRegions: nat,
    maxTotalBytes: nat)

  function NewStore(maxRegions: nat, maxTotalBytes: nat): Store {
    Store(map[], map[], {}, 1, 0, maxRegions, maxTotalBytes)
  }

  /** `AccessFlags::contains` for a single-bit flag. */
  predicate Allows(flags: u32, bit: u32)
    requires bit > 0
  {
    flags / bit % 2 == 1
  }

  // ---------------------------------------------------------------------
  // Operations and replies
  // ---------------------------------------------------------------------

  datatype Op =
    | Register(pd: u32, flags: u32, len: u64, draws: Draws)
    | Deregister(pd: u32, lkey: nat)
    | WriteAt(rkey: u32, offset: u64, data: bytes)
    | ReadAt(rkey: u32, offset: u64, len: u64)
    | AtomicAt(rkey: u32, va: u64, kind: byte, operand1: u64, operand2: u64)

  datatype Reply =
    | Registered(lkey: nat, rkey: u32)
    | Done
    | Bytes(data: bytes)
    | Word(value: u64)
    | Failed(code: ErrorCode)

  predicate GoodKey(used: set<u32>, k: u32) {
    k != 0 && k !in used
  }

  /** The first acceptable draw at or after position `from`. */
  function PickFrom(used: set<u32>, draws: Draws, from: nat): Option<u32>
    requires from <= KEY_ATTEMPTS
    decreases KEY_ATTEMPTS - from, |draws|
  {
    if from == KEY_ATTEMPTS then None
    else if GoodKey(used, draws[from]) then Some(draws[from])
    else PickFrom(used, draws, from + 1)
  }

  lemma {:induction false} PickedKeyIsFresh(used: set<u32>, draws: Draws, from: nat)
    requires from <= KEY_ATTEMPTS
    ensures PickFrom(used, draws, from).Some? ==> GoodKey(used, PickFrom(used, draws, from).value)
    ensures PickFrom(used, draws, from).None? <==>
            forall i :: from <= i < KEY_ATTEMPTS ==> !GoodKey(used, draws[i])
    decreases KEY_ATTEMPTS - from
  {
    if from < KEY_ATTEMPTS && !GoodKey(used, draws[from]) {
      PickedKeyIsFresh(used, draws, from + 1);
    }
  }

  /** The key is the first usable draw. */
  lemma {:induction false} PickIsFirst(used: set<u32>, draws: Draws, from: nat, i: nat)
    requires from <= i < KEY_ATTEMPTS && GoodKey(used, draws[i])
    requires forall j :: from <= j < i ==> !GoodKey(used, draws[j])
    ensures PickFrom(used, draws, from) == Some(draws[i])
    decreases i - from
  {
    if from < i {
      PickIsFirst(used, draws, from + 1, i);
    }
  }

  /** The store with a new region under the next L_Key. */
  function WithRegion(s: Store, pd: u32, rkey: u32, flags: u32, data: bytes): Store {
    s.(regions := s.regions[s.nextLkey := Region(pd, s.nextLkey, rkey, flags, data)],
       rkeyToLkey := s.rkeyToLkey[rkey := s.nextLkey],
       usedRkeys := s.usedRkeys + {rkey},
       nextLkey := s.nextLkey + 1,
       totalBytes := s.totalBytes + |data|)
  }

  function RegisterIn(s: Store, pd: u32, flags: u32, len: u64, draws: Draws): (Store, Reply) {
    if |s.regions| >= s.maxRegions then (s, Failed(ErrInternal))
    else if s.totalBytes + len > s.maxTotalBytes then (s, Failed(ErrBounds))
    else
      var lkey := s.nextLkey;
      match PickFrom(s.usedRkeys, draws, 0)
      case None => (s.(nextLkey := lkey + 1), Failed(ErrInternal))
      case Some(rkey) => (WithRegion(s, pd, rkey, flags, Zeros(len)), Registered(lkey, rkey))
  }

  function DeregisterIn(s: Store, pd: u32, lkey: nat): (Store, Reply) {
    if lkey !in s.regions then (s, Failed(ErrInvalidLkey))
    else if s.regions[lkey].pd != pd then (s, Failed(ErrInvalidPd))
    else
      var entry := s.regions[lkey];
      (s.(regions := s.regions - {lkey},
          rkeyToLkey := s.rkeyToLkey - {entry.rkey},
          totalBytes := s.totalBytes - |entry.data|),
       Done)
  }

  /** `validate_rkey`: the region behind an R_Key, if it is live and grants the access. */
  function Lookup(s: Store, rkey: u32, bit: u32): Result<Region, ErrorCode>
    requires bit > 0
  {
    if rkey !in s.rkeyToLkey || s.rkeyToLkey[rkey] !in s.regions then Err(ErrInvalidMkey)
    else if !Allows(s.regions[s.rkeyToLkey[rkey]].flags, bit) then Err(ErrAccessDenied)
    else Ok(s.regions[s.rkeyToLkey[rkey]])
  }

  /** The store with the bytes behind a live R_Key replaced. */
  function WithData(s: Store, rkey: u32, data: bytes): Store
    requires rkey in s.rkeyToLkey && s.rkeyToLkey[rkey] in s.regions
  {
    var lkey := s.rkeyToLkey[rkey];
    s.(regions := s.regions[lkey := s.regions[lkey].(data := data)])
  }

  function WriteIn(s: Store, rkey: u32, offset: u64, data: bytes): (Store, Reply) {
    match Lookup(s, rkey, REMOTE_WRITE)
    case Err(code) => (s, Failed(code))
    case Ok(entry) =>
      if offset + |data| > |entry.data| then (s, Failed(ErrBounds))
      else (WithData(s, rkey, Splice(entry.data, offset, data)), Done)
  }

  function ReadIn(s: Store, rkey: u32, offset: u64, len: u64): Reply {
    match Lookup(s, rkey, REMOTE_READ)
    case Err(code) => Failed(code)
    case Ok(entry) =>
      if offset + len > |entry.data| then Failed(ErrBounds) else Bytes(entry.data[offset..offset + len])
  }

  /** The word an atomic stores: compare-and-swap or wrapping fetch-and-add. */
  function NewWord(kind: byte, original: u64, operand1: u64, operand2: u64): u64 {
    if kind == ATOMIC_CAS then (if original == operand1 then operand2 else original)
    else (original + operand1) % U64_MOD
  }

  function WordAt(data: bytes, va: nat): u64
    requires va + 8 <= |data|
  {
    FromBigEndianBound(data[va..va + 8]);
    LimitIsPower(W8);
    FromBigEndian(data[va..va + 8])
  }

  function AtomicIn(s: Store, rkey: u32, va: u64, kind: byte, operand1: u64, operand2: u64): (Store, Reply) {
    match Lookup(s, rkey, REMOTE_ATOMIC)
    case Err(code) => (s, Failed(code))
    case Ok(entry) =>
      if va % 8 != 0 then (s, Failed(ErrAlignment))
      else if va + 8 > |entry.data| then (s, Failed(ErrBounds))
      else if kind != ATOMIC_CAS && kind != ATOMIC_FAA then (s, Failed(ErrUnknownOpcode))
      else
        var original := WordAt(entry.data, va);
        var word := BigEndian(8, NewWord(kind, original, operand1, operand2));
        (WithData(s, rkey, Splice(entry.data, va, word)), Word(original))
  }

  function Perform(s: Store, op: Op): (Store, Reply) {
    match op
    case Register(pd, flags, len, draws) => RegisterIn(s, pd, flags, len, draws)
    case Deregister(pd, lkey) => DeregisterIn(s, pd, lkey)
    case WriteAt(rkey, offset, data) => WriteIn(s, rkey, offset, data)
    case ReadAt(rkey, offset, len) => (s, ReadIn(s, rkey, offset, len))
    case AtomicAt(rkey, va, kind, op1, op2) => AtomicIn(s, rkey, va, kind, op1, op2)
  }

  /** The store after a sequence of operations. */
  function After(s: Store, ops: seq<Op>): Store {
    if ops == [] then s else Perform(After(s, ops[..|ops| - 1]), ops[|ops| - 1]).0
  }

  /** The reply to the operation at position `i`. */
  function ReplyTo(s: Store, ops: seq<Op>, i: nat): Reply
    requires i < |ops|
  {
    Perform(After(s, ops[..i]), ops[i]).1
  }

  // ---------------------------------------------------------------------
  // Accounting invariant
  // ---------------------------------------------------------------------

  /** Sum of the lengths of the regions whose L_Key is below `n`. */
  function BytesBelow(regions: map<nat, Region>, n: nat): nat {
    if n == 0 then 0
    else BytesBelow(regions, n - 1) + (if n - 1 in regions then |regions[n - 1].data| else 0)
  }

  ghost predicate KeysInverse(s: Store) {
    && (forall r :: r in s.rkeyToLkey ==> s.rkeyToLkey[r] in s.regions && s.regions[s.rkeyToLkey[r]].rkey == r)
    && (forall l :: l in s.regions ==>
          s.regions[l].lkey == l && s.regions[l].rkey in s.rkeyToLkey && s.rkeyToLkey[s.regions[l].rkey] == l)
  }

  ghost predicate KeysUsed(s: Store) {
    && (forall r :: r in s.rkeyToLkey ==> r in s.usedRkeys)
    && 0 !in s.usedRkeys
    && (forall l :: l in s.regions ==> l < s.nextLkey)
  }

  ghost predicate Accounted(s: Store) {
    && s.totalBytes == BytesBelow(s.regions, s.nextLkey)
    && |s.regions| <= s.maxRegions
    && s.totalBytes <= s.maxTotalBytes
  }

  /** Both key maps are inverse, live R_Keys were issued, the byte total is exact and the limits hold. */
  ghost predicate Valid(s: Store) {
    KeysInverse(s) && KeysUsed(s) && Accounted(s)
  }

  lemma {:induction false} BytesBelowAgree(a: map<nat, Region>, b: map<nat, Region>, n: nat)
    requires forall l :: l < n ==> (l in a <==> l in b)
    requires forall l :: l < n && l in a ==> |a[l].data| == |b[l].data|
    ensures BytesBelow(a, n) == BytesBelow(b, n)
  {
    if n > 0 {
      BytesBelowAgree(a, b, n - 1);
    }
  }

  lemma {:induction false} BytesBelowRemove(a: map<nat, Region>, k: nat, n: nat)
    requires k in a && k < n
    ensures BytesBelow(a, n) == BytesBelow(a - {k}, n) + |a[k].data|
  {
    if k == n - 1 {
      BytesBelowAgree(a, a - {k}, n - 1);
    } else {
      BytesBelowRemove(a, k, n - 1);
    }
  }

  lemma WithRegionKeepsKeys(s: Store, pd: u32, rkey: u32, flags: u32, data: bytes)
    requires KeysInverse(s) && KeysUsed(s) && GoodKey(s.usedRkeys, rkey)
    ensures KeysInverse(WithRegion(s, pd, rkey, flags, data))
    ensures KeysUsed(WithRegion(s, pd, rkey, flags, data))
  {
  }

  lemma WithRegionKeepsAccount(s: Store, pd: u32, rkey: u32, flags: u32, data: bytes)
    requires Accounted(s) && KeysUsed(s)
    requires |s.regions| < s.maxRegions && s.totalBytes + |data| <= s.maxTotalBytes
    ensures Accounted(WithRegion(s, pd, rkey, flags, data))
  {
    BytesBelowAgree(s.regions, WithRegion(s, pd, rkey, flags, data).regions, s.nextLkey);
  }

  lemma SkippedLkeyKeepsValid(s: Store)
    requires Valid(s)
    ensures Valid(s.(nextLkey := s.nextLkey + 1))
  {
  }

  lemma RegisterKeepsValid(s: Store, pd: u32, flags: u32, len: u64, draws: Draws)
    requires Valid(s)
    ensures Valid(RegisterIn(s, pd, flags, len, draws).0)
  {
    var (t, r) := RegisterIn(s, pd, flags, len, draws);
    if r.Registered? {
      assert t == WithRegion(s, pd, r.rkey, flags, Zeros(len));
      assert GoodKey(s.usedRkeys, r.rkey) by {
        PickedKeyIsFresh(s.usedRkeys, draws, 0);
      }
      WithRegionKeepsKeys(s, pd, r.rkey, flags, Zeros(len));
      WithRegionKeepsAccount(s, pd, r.rkey, flags, Zeros(len));
    } else {
      assert t == s || t == s.(nextLkey := s.nextLkey + 1);
      SkippedLkeyKeepsValid(s);
    }
  }

  lemma DeregisterKeepsValid(s: Store, pd: u32, lkey: nat)
    requires Valid(s)
    ensures Valid(DeregisterIn(s, pd, lkey).0)
  {
    var (t, r) := DeregisterIn(s, pd, lkey);
    if r == Done {
      BytesBelowRemove(s.regions, lkey, s.nextLkey);
      assert s.regions.Keys == t.regions.Keys + {lkey};
    }
  }

  lemma WithDataKeepsValid(s: Store, rkey: u32, data: bytes)
    requires Valid(s) && rkey in s.rkeyToLkey && |data| == |s.regions[s.rkeyToLkey[rkey]].data|
    ensures Valid(WithData(s, rkey, data))
  {
    var t := WithData(s, rkey, data);
    assert t.regions.Keys == s.regions.Keys;
    BytesBelowAgree(s.regions, t.regions, s.nextLkey);
  }

  lemma PerformKeepsValid(s: Store, op: Op)
    requires Valid(s)
    ensures Valid(Perform(s, op).0)
  {
    match op
    case Register(pd, flags, len, draws) => RegisterKeepsValid(s, pd, flags, len, draws);
    case Deregister(pd, lkey) => DeregisterKeepsValid(s, pd, lkey);
    case WriteAt(rkey, offset, data) =>
      if WriteIn(s, rkey, offset, data).1 == Done {
        WithDataKeepsValid(s, rkey, Splice(s.regions[s.rkeyToLkey[rkey]].data, offset, data));
      }
    case ReadAt(_, _, _) =>
    case AtomicAt(rkey, va, kind, op1, op2) =>
      if AtomicIn(s, rkey, va, kind, op1, op2).1.Word? {
        var d := s.regions[s.rkeyToLkey[rkey]].data;
        WithDataKeepsValid(s, rkey, Splice(d, va, BigEndian(8, NewWord(kind, WordAt(d, va), op1, op2))));
      }
  }

  /** Store accounting: every sequence of operations on a fresh store keeps the invariant. */
  lemma {:induction false} RunKeepsValid(s: Store, ops: seq<Op>)
    requires Valid(s)
    ensures Valid(After(s, ops))
  {
    if ops != [] {
      RunKeepsValid(s, ops[..|ops| - 1]);
      PerformKeepsValid(After(s, ops[..|ops| - 1]), ops[|ops| - 1]);
    }
  }

  /** No live region is larger than the byte limit of the store. */
  lemma RegionWithinLimit(s: Store, lkey: nat)
    requires Valid(s) && lkey in s.regions
    ensures |s.regions[lkey].data| <= s.maxTotalBytes
  {
    BytesBelowRemove(s.regions, lkey, s.nextLkey);
  }

  lemma {:induction false} LimitsAreFixed(s: Store, ops: seq<Op>)
    ensures After(s, ops).maxTotalBytes == s.maxTotalBytes && After(s, ops).maxRegions == s.maxRegions
  {
    hide PickFrom, Lookup, Splice;
    if ops != [] {
      LimitsAreFixed(s, ops[..|ops| - 1]);
    }
  }

  /** A registration whose thousand draws all fail changes nothing but `next_lkey`. */
  lemma FailedDrawChangesOnlyNextLkey(s: Store, pd: u32, flags: u32, len: u64, draws: Draws)
    requires RegisterIn(s, pd, flags, len, draws).1.Failed?
    ensures var t := RegisterIn(s, pd, flags, len, draws).0;
            && t.(nextLkey := 0) == s.(nextLkey := 0)
            && (t.nextLkey != s.nextLkey ==>
                  && t.nextLkey == s.nextLkey + 1
                  && (forall i :: 0 <= i < KEY_ATTEMPTS ==> draws[i] == 0 || draws[i] in s.usedRkeys))
  {
    PickedKeyIsFresh(s.usedRkeys, draws, 0);
    assert forall i :: 0 <= i < KEY_ATTEMPTS && !GoodKey(s.usedRkeys, draws[i]) ==>
        draws[i] == 0 || draws[i] in s.usedRkeys;
  }
}
