/**
 The key/value store over a region of 64 slots of 1024 raw bytes: the slot
 format, the probe loops over the bytes of a memory store, and the proof that
 they are the table operations of KvTable.
 */
module KvRegion {
  import opened Core
  import opened Codec
  import opened WireLayout
  import opened MemoryModel
  import opened MemoryHistory
  import opened KvTable

  const SLOT_SIZE := 1024
  const REGION_SIZE := SLOT_COUNT * SLOT_SIZE

  const OFF_STATUS := 0
  const OFF_KEY_LEN := 1
  const OFF_VAL_LEN := 3
  const OFF_KEY := 5
  const OFF_VALUE := 260

  // ---------------------------------------------------------------------
  // The slot format
  // ---------------------------------------------------------------------

  function EncodeSlot(key: bytes, value: bytes): (slot: bytes)
    requires |key| <= MAX_KEY_LEN && |value| <= MAX_VALUE_LEN
    ensures |slot| == SLOT_SIZE
  {
    var s1 := Splice(Zeros(SLOT_SIZE), OFF_STATUS, [1]);
    var s2 := Splice(s1, OFF_KEY_LEN, BigEndian(2, |key|));
    var s3 := Splice(s2, OFF_VAL_LEN, BigEndian(2, |value|));
    var s4 := Splice(s3, OFF_KEY, key);
    Splice(s4, OFF_VALUE, value)
  }

  function DecodeSlot(data: bytes): Slot
    requires |data| == SLOT_SIZE
  {
    if data[OFF_STATUS] == 0 then Free
    else
      var keyLen := FromBigEndian(data[OFF_KEY_LEN..OFF_KEY_LEN + 2]);
      var valLen := FromBigEndian(data[OFF_VAL_LEN..OFF_VAL_LEN + 2]);
      if OFF_KEY + keyLen > SLOT_SIZE || OFF_VALUE + valLen > SLOT_SIZE then Garbled
      else Entry(data[OFF_KEY..OFF_KEY + keyLen], data[OFF_VALUE..OFF_VALUE + valLen])
  }

  /** A slot decodes to the key and value it was encoded from. */
  lemma SlotRoundTrip(key: bytes, value: bytes)
    requires |key| <= MAX_KEY_LEN && |value| <= MAX_VALUE_LEN
    ensures DecodeSlot(EncodeSlot(key, value)) == Entry(key, value)
  {
    hide BigEndian, FromBigEndian, Splice;
    var slot := EncodeSlot(key, value);
    assert slot[OFF_KEY_LEN..OFF_KEY_LEN + 2] == BigEndian(2, |key|);
    assert slot[OFF_VAL_LEN..OFF_VAL_LEN + 2] == BigEndian(2, |value|);
    assert slot[OFF_KEY..OFF_KEY + |key|] == key;
    assert slot[OFF_VALUE..OFF_VALUE + |value|] == value;
    IntegerRoundTrip(2, |key|);
    IntegerRoundTrip(2, |value|);
  }

  /** The slot format by byte position, for every 1024 bytes: status, two lengths, key from 5 on, value from 260 on. */
  lemma SlotIsReadByPosition(data: bytes)
    requires |data| == 1024
    ensures var k: int := U16At(data, 1);
            var v: int := U16At(data, 3);
            DecodeSlot(data) ==
            if data[0] == 0 then Free
            else if 5 + k > 1024 || 260 + v > 1024 then Garbled
            else Entry(data[5..5 + k], data[260..260 + v])
  {
    hide FromBigEndian, U16At;
    ReadsNumber(W2, data, 1);
    ReadsNumber(W2, data, 3);
  }

  /** A written slot holds a one, both lengths, key and value at those positions, and zeros everywhere else. */
  lemma SlotIsWrittenByPosition(key: bytes, value: bytes)
    requires |key| <= MAX_KEY_LEN && |value| <= MAX_VALUE_LEN
    ensures var slot := EncodeSlot(key, value);
            && slot[0] == 1 && U16At(slot, 1) == |key| && U16At(slot, 3) == |value|
            && slot[5..5 + |key|] == key && slot[260..260 + |value|] == value
            && ZeroFrom(slot, 5 + |key|, 260) && ZeroFrom(slot, 260 + |value|, 1024)
  {
    hide BigEndian, FromBigEndian, Splice, U16At;
    var slot := EncodeSlot(key, value);
    assert slot[1..1 + 2] == BigEndian(2, |key|);
    assert slot[3..3 + 2] == BigEndian(2, |value|);
    IntegerRoundTrip(2, |key|);
    IntegerRoundTrip(2, |value|);
    ReadsNumber(W2, slot, 1);
    ReadsNumber(W2, slot, 3);
  }

  lemma ZeroSlotIsFree()
    ensures DecodeSlot(Zeros(SLOT_SIZE)) == Free
  {
  }

  // ---------------------------------------------------------------------
  // The region as a table
  // ---------------------------------------------------------------------

  function RawSlot(raw: bytes, p: nat): (slot: bytes)
    requires |raw| == REGION_SIZE && p < SLOT_COUNT
    ensures |slot| == SLOT_SIZE
  {
    raw[p * SLOT_SIZE..p * SLOT_SIZE + SLOT_SIZE]
  }

  function TableOf(raw: bytes): (t: Table)
    requires |raw| == REGION_SIZE
    ensures forall p :: 0 <= p < SLOT_COUNT ==> t[p] == DecodeSlot(RawSlot(raw, p))
  {
    seq(SLOT_COUNT, p requires 0 <= p < SLOT_COUNT => DecodeSlot(RawSlot(raw, p)))
  }

  /** Writing the bytes of one slot changes that slot of the table and no other. */
  lemma SlotWrite(raw: bytes, p: nat, slot: bytes)
    requires |raw| == REGION_SIZE && p < SLOT_COUNT && |slot| == SLOT_SIZE
    ensures TableOf(Splice(raw, p * SLOT_SIZE, slot)) == TableOf(raw)[p := DecodeSlot(slot)]
  {
    hide DecodeSlot, Splice;
    var after := Splice(raw, p * SLOT_SIZE, slot);
    forall q | 0 <= q < SLOT_COUNT
      ensures RawSlot(after, q) == if q == p then slot else RawSlot(raw, q)
    {
      if q == p {
        assert RawSlot(after, p) == slot;
      } else {
        assert q * SLOT_SIZE + SLOT_SIZE <= p * SLOT_SIZE || p * SLOT_SIZE + SLOT_SIZE <= q * SLOT_SIZE;
        assert RawSlot(after, q) == RawSlot(raw, q);
      }
    }
    assert TableOf(after) == TableOf(raw)[p := DecodeSlot(slot)];
  }

  /** A freshly registered region is an empty table. */
  lemma FreshRegionIsEmpty()
    ensures TableOf(Zeros(REGION_SIZE)) == Empty()
  {
    forall p | 0 <= p < SLOT_COUNT
      ensures DecodeSlot(RawSlot(Zeros(REGION_SIZE), p)) == Free
    {
      assert RawSlot(Zeros(REGION_SIZE), p)[OFF_STATUS] == 0;
    }
  }

  // ---------------------------------------------------------------------
  // The probe loops over a memory store
  // ---------------------------------------------------------------------

  datatype ScanResult = Hit(i: nat, value: bytes) | Gap(i: nat) | Ended | Broken(reply: KvReply)

  /** The probe loop, reading each slot through the store; a refused read ends it. */
  function Scan(s: Store, rkey: u32, key: bytes, i: nat): (r: ScanResult)
    ensures r.Broken? ==> r.reply.SlotOverrun? || r.reply.RdmaError?
    decreases SLOT_COUNT - i, |key|
  {
    if i >= SLOT_COUNT then Ended
    else
      match ReadIn(s, rkey, At(key, i) * SLOT_SIZE, SLOT_SIZE)
      case Bytes(data) =>
        (match DecodeSlot(data)
         case Free => Gap(i)
         case Garbled => Broken(SlotOverrun)
         case Entry(k, v) => if k == key then Hit(i, v) else Scan(s, rkey, key, i + 1))
      case Failed(code) => Broken(RdmaError(code))
      case _ => Ended
  }

  /** Writes one slot through the store. */
  function WriteSlotIn(s: Store, rkey: u32, p: nat, slot: bytes, reply: KvReply): (Store, KvReply)
    requires p < SLOT_COUNT
  {
    var (t, r) := WriteIn(s, rkey, p * SLOT_SIZE, slot);
    (t, if r.Failed? then RdmaError(r.code) else reply)
  }

  function KvStep(s: Store, rkey: u32, op: KvOp): (Store, KvReply) {
    if op.Put? && |op.key| > MAX_KEY_LEN then (s, KeyTooLong)
    else if op.Put? && |op.value| > MAX_VALUE_LEN then (s, ValueTooLong)
    else
      match (op, Scan(s, rkey, op.key, 0))
      case (_, Broken(reply)) => (s, reply)
      case (Put(key, value), Hit(i, _)) => WriteSlotIn(s, rkey, At(key, i), EncodeSlot(key, value), Stored(true))
      case (Put(key, value), Gap(i)) => WriteSlotIn(s, rkey, At(key, i), EncodeSlot(key, value), Stored(false))
      case (Put(_, _), Ended) => (s, TableFull)
      case (Get(_), Hit(_, value)) => (s, Value(Some(value)))
      case (Get(_), _) => (s, Value(None))
      case (Delete(key), Hit(i, _)) => WriteSlotIn(s, rkey, At(key, i), Zeros(SLOT_SIZE), Deleted(true))
      case (Delete(_), _) => (s, Deleted(false))
  }

  lemma ProbeSlot(key: bytes, i: nat)
    ensures At(key, i) == (Hash(key) + i) % SLOT_COUNT
  {
  }

  // ---------------------------------------------------------------------
  // The loops are the table operations
  // ---------------------------------------------------------------------

  /** The key gives read and write access to a region of exactly 64 slots. */
  predicate Accessible(s: Store, rkey: u32) {
    && Lookup(s, rkey, REMOTE_READ).Ok? && Lookup(s, rkey, REMOTE_WRITE).Ok?
    && |DataOf(s, rkey)| == REGION_SIZE
  }

  function TableIn(s: Store, rkey: u32): Table
    requires Accessible(s, rkey)
  {
    TableOf(DataOf(s, rkey))
  }

  lemma SlotRead(s: Store, rkey: u32, p: nat)
    requires Accessible(s, rkey) && p < SLOT_COUNT
    ensures ReadIn(s, rkey, p * SLOT_SIZE, SLOT_SIZE) == Bytes(RawSlot(DataOf(s, rkey), p))
  {
  }

  /** Scanning the bytes is searching the table. */
  lemma {:induction false} ScanIsSearch(s: Store, rkey: u32, key: bytes, i: nat)
    requires Accessible(s, rkey) && i <= SLOT_COUNT
    ensures var t := TableIn(s, rkey);
            match Search(t, key, i)
            case Found(j) => t[At(key, j)].Entry? && Scan(s, rkey, key, i) == Hit(j, t[At(key, j)].value)
            case Vacant(j) => Scan(s, rkey, key, i) == Gap(j)
            case Exhausted => Scan(s, rkey, key, i) == Ended
            case Overrun => Scan(s, rkey, key, i) == Broken(SlotOverrun)
    decreases SLOT_COUNT - i
  {
    hide DecodeSlot, ReadIn, At, Accessible, DataOf, RawSlot;
    if i < SLOT_COUNT {
      SlotRead(s, rkey, At(key, i));
      ScanIsSearch(s, rkey, key, i + 1);
    }
  }

  lemma WriteSlotIsUpdate(s: Store, rkey: u32, p: nat, slot: bytes, reply: KvReply)
    requires MemoryModel.Valid(s) && Accessible(s, rkey) && p < SLOT_COUNT && |slot| == SLOT_SIZE
    ensures var (t, r) := WriteSlotIn(s, rkey, p, slot, reply);
            && MemoryModel.Valid(t) && Accessible(t, rkey) && r == reply
            && TableIn(t, rkey) == TableIn(s, rkey)[p := DecodeSlot(slot)]
  {
    hide DecodeSlot, TableOf, MemoryModel.Valid;
    PerformKeepsValid(s, WriteAt(rkey, p * SLOT_SIZE, slot));
    SlotWrite(DataOf(s, rkey), p, slot);
  }

  /** On an accessible region each operation is the table operation, whatever the table holds. */
  lemma KvStepIsTableStep(s: Store, rkey: u32, op: KvOp)
    requires MemoryModel.Valid(s) && Accessible(s, rkey)
    ensures var (t, r) := KvStep(s, rkey, op);
            && MemoryModel.Valid(t) && Accessible(t, rkey)
            && (TableIn(t, rkey), r) == TableStep(TableIn(s, rkey), op)
  {
    hide Scan, Search, At, EncodeSlot, DecodeSlot, WriteSlotIn, Accessible, MemoryModel.Valid, TableIn;
    var key := op.key;
    ScanIsSearch(s, rkey, key, 0);
    SearchMeans(TableIn(s, rkey), key, 0);
    match op
    case Put(_, value) =>
      if |key| <= MAX_KEY_LEN && |value| <= MAX_VALUE_LEN {
        SlotRoundTrip(key, value);
        match Scan(s, rkey, key, 0)
        case Hit(i, _) => WriteSlotIsUpdate(s, rkey, At(key, i), EncodeSlot(key, value), Stored(true));
        case Gap(i) => WriteSlotIsUpdate(s, rkey, At(key, i), EncodeSlot(key, value), Stored(false));
        case _ =>
      }
    case Get(_) =>
    case Delete(_) =>
      ZeroSlotIsFree();
      match Scan(s, rkey, key, 0)
      case Hit(i, _) => WriteSlotIsUpdate(s, rkey, At(key, i), Zeros(SLOT_SIZE), Deleted(true));
      case _ =>
  }

  // ---------------------------------------------------------------------
  // Runs over raw bytes
  // ---------------------------------------------------------------------

  function KvRun(s: Store, rkey: u32, ops: seq<KvOp>): (Store, seq<KvReply>) {
    if ops == [] then (s, [])
    else
      var (s1, rs) := KvRun(s, rkey, ops[..|ops| - 1]);
      var (s2, r) := KvStep(s1, rkey, ops[|ops| - 1]);
      (s2, rs + [r])
  }

  lemma {:induction false} KvRunIsTableRun(s: Store, rkey: u32, ops: seq<KvOp>)
    requires MemoryModel.Valid(s) && Accessible(s, rkey)
    ensures var (t, rs) := KvRun(s, rkey, ops);
            && MemoryModel.Valid(t) && Accessible(t, rkey)
            && (TableIn(t, rkey), rs) == TableRun(TableIn(s, rkey), ops)
  {
    hide KvStep, TableStep, Accessible, MemoryModel.Valid, TableIn;
    if ops != [] {
      var n := |ops| - 1;
      KvRunIsTableRun(s, rkey, ops[..n]);
      KvStepIsTableStep(KvRun(s, rkey, ops[..n]).0, rkey, ops[n]);
    }
  }

  /**
   Refinement from raw bytes to a finite map: on a freshly registered region,
   every run of puts, gets and safe deletes answers as the map does, and the
   bytes always decode to a table that satisfies the invariant and stands for
   that map.
   */
  lemma RegionRefinesMap(s: Store, rkey: u32, ops: seq<KvOp>)
    requires MemoryModel.Valid(s) && Accessible(s, rkey) && DataOf(s, rkey) == Zeros(REGION_SIZE)
    requires SafeRun(Empty(), ops)
    ensures var (t, rs) := KvRun(s, rkey, ops);
            && Accessible(t, rkey) && Sound(TableIn(t, rkey))
            && (Contents(TableIn(t, rkey)), rs) == MapRun(map[], ops)
  {
    hide KvRun, TableRun, MapRun, Accessible, MemoryModel.Valid, Sound, Contents, SafeRun, TableOf;
    FreshRegionIsEmpty();
    EmptyStandsForNothing();
    KvRunIsTableRun(s, rkey, ops);
    RunRefinesMap(Empty(), ops);
  }
}
