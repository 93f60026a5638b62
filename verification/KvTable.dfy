/**
 The key/value store as a table of 64 slots with linear probing: what put, get
 and delete do to it, when it agrees with a finite map, and exactly when a
 delete breaks that agreement.
 */
module KvTable {
  import opened Core

  const SLOT_COUNT := 64
  const MAX_KEY_LEN := 255
  const MAX_VALUE_LEN := 764

  /** A decoded slot; `Garbled` is one whose stored lengths run past its end. */
  datatype Slot = Free | Entry(key: bytes, value: bytes) | Garbled

  type Table = t: seq<Slot> | |t| == SLOT_COUNT witness seq(SLOT_COUNT, _ => Free)

  // ---------------------------------------------------------------------
  // Hashing and probing
  // ---------------------------------------------------------------------

  const FNV_OFFSET: bv32 := 2_166_136_261
  const FNV_PRIME: bv32 := 16_777_619

  /** One round of 32-bit FNV-1a. */
  function FnvRound(hash: bv32, b: byte): bv32 {
    (hash ^ (b as bv32)) * FNV_PRIME
  }

  function Fnv(key: bytes): bv32 {
    if key == [] then FNV_OFFSET else FnvRound(Fnv(key[..|key| - 1]), key[|key| - 1])
  }

  function Hash(key: bytes): (h: nat)
    ensures h < SLOT_COUNT
  {
    (Fnv(key) as nat) % SLOT_COUNT
  }

  method HashKey(key: bytes) returns (h: nat)
    ensures h == Hash(key)
  {
    hide FnvRound;
    var hash := FNV_OFFSET;
    for i := 0 to |key|
      invariant hash == Fnv(key[..i])
    {
      assert key[..i + 1][..i] == key[..i];
      hash := FnvRound(hash, key[i]);
    }
    assert key[..|key|] == key;
    return (hash as nat) % SLOT_COUNT;
  }

  /** The slot that probe number `i` for a key looks at. */
  function At(key: bytes, i: nat): (p: nat)
    ensures p < SLOT_COUNT
  {
    (Hash(key) + i) % SLOT_COUNT
  }

  /** Published test vectors of 32-bit FNV-1a: the empty string, "a" and "foobar". */
  lemma FnvVectors()
    ensures Fnv([]) == 0x811C_9DC5 && Fnv([0x61]) == 0xE40C_292C
    ensures Fnv([0x66, 0x6F, 0x6F, 0x62, 0x61, 0x72]) == 0xBF9C_F968
    ensures Hash([]) == 5 && Hash([0x61]) == 44
  {
    hide FnvRound;
    var w: bytes := [0x66, 0x6F, 0x6F, 0x62, 0x61, 0x72];
    FnvNext([], 0x61);
    FnvNext([], 0x66);
    FnvNext(w[..1], 0x6F);
    FnvNext(w[..2], 0x6F);
    FnvNext(w[..3], 0x62);
    FnvNext(w[..4], 0x61);
    FnvNext(w[..5], 0x72);
    assert [0x61] == [] + [0x61] && w[..1] == [] + [0x66] && w[..2] == w[..1] + [0x6F] && w[..3] == w[..2] + [0x6F];
    assert w[..4] == w[..3] + [0x62] && w[..5] == w[..4] + [0x61] && w == w[..5] + [0x72];
    FnvRounds();
  }

  lemma FnvNext(key: bytes, b: byte)
    ensures Fnv(key + [b]) == FnvRound(Fnv(key), b)
  {
    hide FnvRound;
    assert (key + [b])[..|key|] == key;
  }

  lemma FnvRounds()
    ensures FnvRound(0x811C_9DC5, 0x61) == 0xE40C_292C
    ensures FnvRound(0x811C_9DC5, 0x66) == 0xE30C_2799
    ensures FnvRound(0xE30C_2799, 0x6F) == 0x6222_E842
    ensures FnvRound(0x6222_E842, 0x6F) == 0xA9F3_7ED7
    ensures FnvRound(0xA9F3_7ED7, 0x62) == 0x3F50_76EF
    ensures FnvRound(0x3F50_76EF, 0x61) == 0x39AA_A18A
    ensures FnvRound(0x39AA_A18A, 0x72) == 0xBF9C_F968
  {
  }

  /** Linear probing: the first probe is at the hash, each later one at the next slot, and slot 0 follows slot 63. */
  lemma ProbesAreConsecutive(key: bytes, i: nat)
    ensures At(key, 0) == Hash(key)
    ensures At(key, i + 1) == if At(key, i) == 63 then 0 else At(key, i) + 1
  {
    hide Hash;
  }

  /** The number of the probe that looks at slot `p`. */
  function Dist(key: bytes, p: nat): (i: nat)
    requires p < SLOT_COUNT
    ensures i < SLOT_COUNT && At(key, i) == p
  {
    hide Hash;
    (p + SLOT_COUNT - Hash(key)) % SLOT_COUNT
  }

  /** Within one round every probe looks at its own slot. */
  lemma DistOfAt(key: bytes, i: nat)
    requires i < SLOT_COUNT
    ensures Dist(key, At(key, i)) == i
  {
    hide Hash;
  }

  datatype Probe = Found(i: nat) | Vacant(i: nat) | Exhausted | Overrun

  /** The probe loop shared by put, get and delete, from probe `i` on. */
  function Search(t: Table, key: bytes, i: nat): Probe
    decreases SLOT_COUNT - i, |key|
  {
    if i >= SLOT_COUNT then Exhausted
    else
      match t[At(key, i)]
      case Free => Vacant(i)
      case Garbled => Overrun
      case Entry(k, _) => if k == key then Found(i) else Search(t, key, i + 1)
  }

  /** Probes `i` to `j`, the last excluded, meet only other keys. */
  ghost predicate OthersUntil(t: Table, key: bytes, i: nat, j: nat) {
    forall m {:trigger At(key, m)} :: i <= m < j ==> t[At(key, m)].Entry? && t[At(key, m)].key != key
  }

  lemma {:induction false} SearchSkips(t: Table, key: bytes, i: nat, j: nat)
    requires i <= j <= SLOT_COUNT && OthersUntil(t, key, i, j)
    ensures Search(t, key, i) == Search(t, key, j)
    decreases j - i
  {
    hide At;
    if i < j {
      assert t[At(key, i)].Entry?;
      SearchSkips(t, key, i + 1, j);
    }
  }

  /** What the result of a search says about the table. */
  lemma {:induction false} SearchMeans(t: Table, key: bytes, i: nat)
    requires i <= SLOT_COUNT
    ensures match Search(t, key, i)
            case Found(j) => i <= j < SLOT_COUNT && OthersUntil(t, key, i, j)
                             && t[At(key, j)].Entry? && t[At(key, j)].key == key
            case Vacant(j) => i <= j < SLOT_COUNT && OthersUntil(t, key, i, j) && t[At(key, j)].Free?
            case Exhausted => OthersUntil(t, key, i, SLOT_COUNT)
            case Overrun => exists p :: 0 <= p < SLOT_COUNT && t[p].Garbled?
    decreases SLOT_COUNT - i
  {
    hide At;
    if i < SLOT_COUNT && t[At(key, i)].Entry? && t[At(key, i)].key != key {
      SearchMeans(t, key, i + 1);
    }
  }

  // ---------------------------------------------------------------------
  // The table invariant and the map it stands for
  // ---------------------------------------------------------------------

  /** Each key occurs once. */
  ghost predicate Distinct(t: Table) {
    forall p, q :: 0 <= p < SLOT_COUNT && 0 <= q < SLOT_COUNT && t[p].Entry? && t[q].Entry? && t[p].key == t[q].key
                   ==> p == q
  }

  /** Every slot from the hash of a key to its position is occupied. */
  ghost predicate Reached(t: Table) {
    forall p, m {:trigger At(t[p].key, m)} ::
      0 <= p < SLOT_COUNT && t[p].Entry? && 0 <= m < Dist(t[p].key, p) ==> t[At(t[p].key, m)].Entry?
  }

  ghost predicate Sized(t: Table) {
    forall p :: 0 <= p < SLOT_COUNT ==>
      !t[p].Garbled? && (t[p].Entry? ==> |t[p].key| <= MAX_KEY_LEN && |t[p].value| <= MAX_VALUE_LEN)
  }

  ghost predicate Sound(t: Table) {
    Distinct(t) && Reached(t) && Sized(t)
  }

  /** The finite map a table stands for. */
  ghost function Contents(t: Table): map<bytes, bytes>
    requires Distinct(t)
  {
    map p | 0 <= p < SLOT_COUNT && t[p].Entry? :: t[p].key := t[p].value
  }

  /** A stored key is found at its place. */
  lemma StoredIsFound(t: Table, q: nat)
    requires Sound(t) && q < SLOT_COUNT && t[q].Entry?
    ensures Search(t, t[q].key, 0) == Found(Dist(t[q].key, q))
  {
    hide At, Dist;
    var key, d := t[q].key, Dist(t[q].key, q);
    forall m | 0 <= m < d
      ensures t[At(key, m)].Entry? && t[At(key, m)].key != key
    {
      assert t[At(key, m)].Entry?;
      DistOfAt(key, m);
    }
    SearchSkips(t, key, 0, d);
  }

  // ---------------------------------------------------------------------
  // get
  // ---------------------------------------------------------------------

  function GetIn(t: Table, key: bytes): Option<bytes> {
    match Search(t, key, 0)
    case Found(i) => SearchMeans(t, key, 0); Some(t[At(key, i)].value)
    case _ => None
  }

  function LookUp(m: map<bytes, bytes>, key: bytes): Option<bytes> {
    if key in m then Some(m[key]) else None
  }

  /** `get` agrees with the map. */
  lemma GetIsLookUp(t: Table, key: bytes)
    requires Sound(t)
    ensures GetIn(t, key) == LookUp(Contents(t), key)
  {
    hide At, Dist, Search, Reached;
    SearchMeans(t, key, 0);
    if key in Contents(t) {
      var q :| 0 <= q < SLOT_COUNT && t[q].Entry? && t[q].key == key;
      StoredIsFound(t, q);
      assert At(key, Dist(key, q)) == q;
    }
  }

  // ---------------------------------------------------------------------
  // put
  // ---------------------------------------------------------------------

  function PutAt(t: Table, key: bytes, value: bytes, i: nat): Table {
    t[At(key, i) := Entry(key, value)]
  }

  /** The table after `put`, or nothing when the probe loop finds no place. */
  function PutIn(t: Table, key: bytes, value: bytes): Option<Table> {
    match Search(t, key, 0)
    case Found(i) => Some(PutAt(t, key, value, i))
    case Vacant(i) => Some(PutAt(t, key, value, i))
    case _ => None
  }

  /** A key that the search did not find is nowhere in the table. */
  lemma NotFoundIsAbsent(t: Table, key: bytes)
    requires Sound(t) && !Search(t, key, 0).Found?
    ensures forall q :: 0 <= q < SLOT_COUNT && t[q].Entry? ==> t[q].key != key
  {
    hide At, Dist, Search, Sound;
    forall q | 0 <= q < SLOT_COUNT && t[q].Entry? && t[q].key == key
      ensures false
    {
      StoredIsFound(t, q);
    }
  }

  lemma PutKeepsReached(t: Table, key: bytes, value: bytes, i: nat)
    requires Reached(t) && i < SLOT_COUNT && OthersUntil(t, key, 0, i)
    requires t[At(key, i)].Free? || (t[At(key, i)].Entry? && t[At(key, i)].key == key)
    ensures Reached(PutAt(t, key, value, i))
  {
    hide At, Dist;
    var u := PutAt(t, key, value, i);
    DistOfAt(key, i);
    forall p, m | 0 <= p < SLOT_COUNT && u[p].Entry? && 0 <= m < Dist(u[p].key, p)
      ensures u[At(u[p].key, m)].Entry?
    {
      if p == At(key, i) {
        assert t[At(key, m)].Entry?;
      } else {
        assert t[At(t[p].key, m)].Entry?;
      }
    }
  }

  /** `put` that finds a place keeps the invariant and updates the map. */
  lemma PutUpdatesMap(t: Table, key: bytes, value: bytes)
    requires Sound(t) && |key| <= MAX_KEY_LEN && |value| <= MAX_VALUE_LEN && PutIn(t, key, value).Some?
    ensures Sound(PutIn(t, key, value).value)
    ensures Contents(PutIn(t, key, value).value) == Contents(t)[key := value]
  {
    hide At, Dist, Search, Reached;
    SearchMeans(t, key, 0);
    if !Search(t, key, 0).Found? {
      NotFoundIsAbsent(t, key);
    }
    var i := Search(t, key, 0).i;
    var u := PutAt(t, key, value, i);
    PutKeepsReached(t, key, value, i);
    assert Distinct(u);
    PutContents(t, u, key, value, At(key, i));
  }

  lemma ContentsAt(t: Table, q: nat)
    requires Distinct(t) && q < SLOT_COUNT && t[q].Entry?
    ensures t[q].key in Contents(t) && Contents(t)[t[q].key] == t[q].value
  {
  }

  /** The slot of a key in the map. */
  lemma SlotOf(t: Table, k: bytes) returns (q: nat)
    requires Distinct(t) && k in Contents(t)
    ensures q < SLOT_COUNT && t[q].Entry? && t[q].key == k
  {
    q :| 0 <= q < SLOT_COUNT && t[q].Entry? && t[q].key == k;
  }

  lemma PutContents(t: Table, u: Table, key: bytes, value: bytes, p: nat)
    requires Distinct(t) && Distinct(u) && p < SLOT_COUNT && u == t[p := Entry(key, value)]
    requires t[p].Free? || (t[p].Entry? && t[p].key == key)
    ensures Contents(u) == Contents(t)[key := value]
  {
    hide Contents;
    ContentsAt(u, p);
    var a, b := Contents(u), Contents(t)[key := value];
    forall k | k in a
      ensures k in b && a[k] == b[k]
    {
      var q := SlotOf(u, k);
      ContentsAt(u, q);
      if q != p {
        assert k != key;
        ContentsAt(t, q);
      }
    }
    forall k | k in b
      ensures k in a
    {
      if k != key {
        var q := SlotOf(t, k);
        ContentsAt(u, q);
      }
    }
  }

  // ---------------------------------------------------------------------
  // TableFull
  // ---------------------------------------------------------------------

  /** The keys in the first `n` slots. */
  ghost function KeysBelow(t: Table, n: nat): set<bytes>
    requires n <= SLOT_COUNT
    decreases n, |t|
  {
    if n == 0 then {}
    else KeysBelow(t, n - 1) + (if t[n - 1].Entry? then {t[n - 1].key} else {})
  }

  lemma {:induction false} KeysBelowMeans(t: Table, n: nat, k: bytes)
    requires n <= SLOT_COUNT
    ensures k in KeysBelow(t, n) <==> exists p :: 0 <= p < n && t[p].Entry? && t[p].key == k
    decreases n, |t|
  {
    if n > 0 {
      KeysBelowMeans(t, n - 1, k);
    }
  }

  /** One more slot adds one key, or none when it is not occupied. */
  lemma KeysBelowStep(t: Table, n: nat)
    requires 0 < n <= SLOT_COUNT && Distinct(t)
    ensures |KeysBelow(t, n)| == |KeysBelow(t, n - 1)| + (if t[n - 1].Entry? then 1 else 0)
  {
    if t[n - 1].Entry? {
      KeysBelowMeans(t, n - 1, t[n - 1].key);
      assert KeysBelow(t, n) == KeysBelow(t, n - 1) + {t[n - 1].key};
    } else {
      assert KeysBelow(t, n) == KeysBelow(t, n - 1);
    }
  }

  /** As many keys as slots exactly when every slot is occupied. */
  lemma {:induction false} KeysBelowCount(t: Table, n: nat)
    requires n <= SLOT_COUNT && Distinct(t)
    ensures |KeysBelow(t, n)| <= n
    ensures |KeysBelow(t, n)| == n <==> forall p :: 0 <= p < n ==> t[p].Entry?
  {
    if n == 0 {
      assert KeysBelow(t, 0) == {};
    } else {
      hide KeysBelow, Distinct;
      KeysBelowCount(t, n - 1);
      KeysBelowStep(t, n);
      assert (forall p :: 0 <= p < n ==> t[p].Entry?)
             <==> (forall p :: 0 <= p < n - 1 ==> t[p].Entry?) && t[n - 1].Entry?;
    }
  }

  lemma ContentsCount(t: Table)
    requires Distinct(t)
    ensures |Contents(t)| <= SLOT_COUNT
    ensures |Contents(t)| == SLOT_COUNT <==> forall p :: 0 <= p < SLOT_COUNT ==> t[p].Entry?
  {
    hide KeysBelow;
    forall k
      ensures k in Contents(t) <==> k in KeysBelow(t, SLOT_COUNT)
    {
      KeysBelowMeans(t, SLOT_COUNT, k);
    }
    assert Contents(t).Keys == KeysBelow(t, SLOT_COUNT);
    KeysBelowCount(t, SLOT_COUNT);
  }

  /** `put` reports a full table exactly when 64 other keys are stored. */
  lemma FullMeansOtherKeys(t: Table, key: bytes, value: bytes)
    requires Sound(t)
    ensures PutIn(t, key, value).None? <==> key !in Contents(t) && |Contents(t)| == SLOT_COUNT
  {
    hide At, Dist, Search, Reached, Distinct;
    SearchMeans(t, key, 0);
    ContentsCount(t);
    match Search(t, key, 0)
    case Found(i) => assert t[At(key, i)].key == key;
    case Vacant(i) => assert !t[At(key, i)].Entry?;
    case Exhausted =>
      NotFoundIsAbsent(t, key);
      forall p | 0 <= p < SLOT_COUNT
        ensures t[p].Entry?
      {
        assert At(key, Dist(key, p)) == p;
      }
    case Overrun =>
  }

  // ---------------------------------------------------------------------
  // delete
  // ---------------------------------------------------------------------

  /** `delete` frees the slot of the key, if it finds it, and leaves no mark behind. */
  function DeleteIn(t: Table, key: bytes): Table {
    match Search(t, key, 0)
    case Found(i) => t[At(key, i) := Free]
    case _ => t
  }

  /** Slot `p` lies on the way from the hash of the key in slot `q` to slot `q`. */
  predicate OnPath(t: Table, q: nat, p: nat)
    requires p < SLOT_COUNT && q < SLOT_COUNT && t[q].Entry?
  {
    Dist(t[q].key, p) < Dist(t[q].key, q)
  }

  lemma DeleteFrees(t: Table, p: nat)
    requires Sound(t) && p < SLOT_COUNT && t[p].Entry?
    ensures DeleteIn(t, t[p].key) == t[p := Free]
  {
    hide At, Dist, Search, Sound;
    StoredIsFound(t, p);
    assert At(t[p].key, Dist(t[p].key, p)) == p;
  }

  /** Freeing a slot on the path of another key makes that key unreachable; freeing any other slot does not. */
  lemma FreeingSlot(t: Table, p: nat, q: nat)
    requires Sound(t) && p < SLOT_COUNT && q < SLOT_COUNT && p != q && t[p].Entry? && t[q].Entry?
    ensures Search(t[p := Free], t[q].key, 0)
            == if OnPath(t, q, p) then Vacant(Dist(t[q].key, p)) else Found(Dist(t[q].key, q))
  {
    hide At, Dist;
    var key, u := t[q].key, t[p := Free];
    var n := if OnPath(t, q, p) then Dist(key, p) else Dist(key, q);
    forall m | 0 <= m < n
      ensures u[At(key, m)].Entry? && u[At(key, m)].key != key
    {
      assert t[At(key, m)].Entry?;
      DistOfAt(key, m);
    }
    SearchSkips(u, key, 0, n);
    assert At(key, Dist(key, p)) == p && At(key, Dist(key, q)) == q;
  }

  /**
   Exact effect of `delete` on another stored key: its `get` is unchanged if and
   only if the freed slot is not on its probe path, and otherwise it is lost.
   */
  lemma DeleteExactEffect(t: Table, p: nat, q: nat)
    requires Sound(t) && p < SLOT_COUNT && q < SLOT_COUNT && p != q && t[p].Entry? && t[q].Entry?
    ensures var after := GetIn(DeleteIn(t, t[p].key), t[q].key);
            && (after == GetIn(t, t[q].key) <==> !OnPath(t, q, p))
            && (OnPath(t, q, p) ==> after == None)
  {
    hide At, Dist, Search, Sound, OnPath;
    DeleteFrees(t, p);
    FreeingSlot(t, p, q);
    StoredIsFound(t, q);
    assert At(t[q].key, Dist(t[q].key, q)) == q;
  }

  /** The delete frees no slot that lies on the path of another stored key. */
  ghost predicate SafeDelete(t: Table, key: bytes) {
    forall p, q :: 0 <= p < SLOT_COUNT && 0 <= q < SLOT_COUNT && p != q && t[p].Entry? && t[q].Entry? && t[p].key == key
                   ==> !OnPath(t, q, p)
  }

  /** A delete keeps the table invariant if and only if it is safe. */
  lemma DeleteKeepsSoundIff(t: Table, p: nat)
    requires Sound(t) && p < SLOT_COUNT && t[p].Entry?
    ensures Sound(t[p := Free]) <==> SafeDelete(t, t[p].key)
  {
    hide At, Dist;
    var u := t[p := Free];
    if SafeDelete(t, t[p].key) {
      forall q, m | 0 <= q < SLOT_COUNT && u[q].Entry? && 0 <= m < Dist(u[q].key, q)
        ensures u[At(u[q].key, m)].Entry?
      {
        assert t[At(t[q].key, m)].Entry?;
        DistOfAt(t[q].key, m);
        assert !OnPath(t, q, p);
      }
    } else {
      var q :| 0 <= q < SLOT_COUNT && p != q && t[q].Entry? && OnPath(t, q, p);
      assert u[q] == t[q] && u[At(u[q].key, Dist(t[q].key, p))] == Free;
    }
  }

  lemma DeleteContents(t: Table, p: nat)
    requires Distinct(t) && p < SLOT_COUNT && t[p].Entry? && Distinct(t[p := Free])
    ensures Contents(t[p := Free]) == Contents(t) - {t[p].key}
  {
    hide Contents;
    var u := t[p := Free];
    var a, b := Contents(u), Contents(t) - {t[p].key};
    forall k | k in a
      ensures k in b && a[k] == b[k]
    {
      var q := SlotOf(u, k);
      ContentsAt(u, q);
      ContentsAt(t, q);
    }
    forall k | k in b
      ensures k in a
    {
      var q := SlotOf(t, k);
      ContentsAt(u, q);
    }
  }

  /** A safe delete removes the key from the map and keeps the invariant. */
  lemma SafeDeleteUpdatesMap(t: Table, key: bytes)
    requires Sound(t) && SafeDelete(t, key)
    ensures Sound(DeleteIn(t, key)) && Contents(DeleteIn(t, key)) == Contents(t) - {key}
  {
    hide At, Dist, Search, Reached, OnPath;
    if Search(t, key, 0).Found? {
      SearchMeans(t, key, 0);
      var p := At(key, Search(t, key, 0).i);
      DeleteKeepsSoundIff(t, p);
      DeleteContents(t, p);
    } else {
      NotFoundIsAbsent(t, key);
    }
  }

  // ---------------------------------------------------------------------
  // Runs
  // ---------------------------------------------------------------------

  datatype KvOp = Put(key: bytes, value: bytes) | Get(key: bytes) | Delete(key: bytes)

  /** `SlotOverrun` stands for the out-of-range slice of a garbled slot, `RdmaError` for a refused remote access. */
  datatype KvReply =
    | Stored(update: bool)
    | TableFull
    | KeyTooLong
    | ValueTooLong
    | Value(value: Option<bytes>)
    | Deleted(found: bool)
    | SlotOverrun
    | RdmaError(code: ErrorCode)

  function TableStep(t: Table, op: KvOp): (Table, KvReply) {
    match op
    case Put(key, value) =>
      if |key| > MAX_KEY_LEN then (t, KeyTooLong)
      else if |value| > MAX_VALUE_LEN then (t, ValueTooLong)
      else (match PutIn(t, key, value)
            case Some(u) => (u, Stored(Search(t, key, 0).Found?))
            case None => (t, if Search(t, key, 0).Overrun? then SlotOverrun else TableFull))
    case Get(key) => (t, if Search(t, key, 0).Overrun? then SlotOverrun else Value(GetIn(t, key)))
    case Delete(key) =>
      (DeleteIn(t, key), if Search(t, key, 0).Overrun? then SlotOverrun else Deleted(Search(t, key, 0).Found?))
  }

  /** The same operation on a finite map that holds at most 64 keys. */
  function MapStep(m: map<bytes, bytes>, op: KvOp): (map<bytes, bytes>, KvReply) {
    match op
    case Put(key, value) =>
      if |key| > MAX_KEY_LEN then (m, KeyTooLong)
      else if |value| > MAX_VALUE_LEN then (m, ValueTooLong)
      else if key !in m && |m| == SLOT_COUNT then (m, TableFull)
      else (m[key := value], Stored(key in m))
    case Get(key) => (m, Value(LookUp(m, key)))
    case Delete(key) => (m - {key}, Deleted(key in m))
  }

  function TableRun(t: Table, ops: seq<KvOp>): (Table, seq<KvReply>) {
    if ops == [] then (t, [])
    else
      var (t1, rs) := TableRun(t, ops[..|ops| - 1]);
      var (t2, r) := TableStep(t1, ops[|ops| - 1]);
      (t2, rs + [r])
  }

  function MapRun(m: map<bytes, bytes>, ops: seq<KvOp>): (map<bytes, bytes>, seq<KvReply>) {
    if ops == [] then (m, [])
    else
      var (m1, rs) := MapRun(m, ops[..|ops| - 1]);
      var (m2, r) := MapStep(m1, ops[|ops| - 1]);
      (m2, rs + [r])
  }

  /** Every delete of the run is safe when it happens. */
  ghost predicate SafeRun(t: Table, ops: seq<KvOp>) {
    forall i :: 0 <= i < |ops| && ops[i].Delete? ==> SafeDelete(TableRun(t, ops[..i]).0, ops[i].key)
  }

  lemma StepRefines(t: Table, op: KvOp)
    requires Sound(t) && (op.Delete? ==> SafeDelete(t, op.key))
    ensures Sound(TableStep(t, op).0)
    ensures (Contents(TableStep(t, op).0), TableStep(t, op).1) == MapStep(Contents(t), op)
  {
    hide At, Dist, Search, Reached, SafeDelete, Contents;
    SearchMeans(t, op.key, 0);
    GetIsLookUp(t, op.key);
    match op
    case Put(key, value) =>
      FullMeansOtherKeys(t, key, value);
      if |key| <= MAX_KEY_LEN && |value| <= MAX_VALUE_LEN && PutIn(t, key, value).Some? {
        PutUpdatesMap(t, key, value);
      }
    case Get(key) =>
    case Delete(key) => SafeDeleteUpdatesMap(t, key);
  }

  /**
   Refinement: in every run whose deletes are safe, replies and contents are
   those of a finite map, and the table invariant holds throughout.
   */
  lemma {:induction false} RunRefinesMap(t: Table, ops: seq<KvOp>)
    requires Sound(t) && SafeRun(t, ops)
    ensures Sound(TableRun(t, ops).0)
    ensures (Contents(TableRun(t, ops).0), TableRun(t, ops).1) == MapRun(Contents(t), ops)
  {
    hide Sound, SafeDelete, TableStep, MapStep, Contents;
    if ops != [] {
      var n := |ops| - 1;
      assert forall i :: 0 <= i < n ==> ops[..n][..i] == ops[..i];
      RunRefinesMap(t, ops[..n]);
      StepRefines(TableRun(t, ops[..n]).0, ops[n]);
    }
  }

  // ---------------------------------------------------------------------
  // A run that does not refine the map
  // ---------------------------------------------------------------------

  function Empty(): Table {
    seq(SLOT_COUNT, _ => Free)
  }

  lemma EmptyStandsForNothing()
    ensures Sound(Empty()) && Contents(Empty()) == map[]
  {
  }

  /** Two colliding keys put into an empty table occupy neighbouring slots. */
  lemma CollidingPuts(k1: bytes, k2: bytes, v: bytes, w: bytes)
    requires Hash(k1) == Hash(k2) && k1 != k2
    ensures At(k2, 0) != At(k2, 1)
    ensures PutIn(Empty(), k1, v) == Some(Empty()[At(k2, 0) := Entry(k1, v)])
    ensures PutIn(Empty()[At(k2, 0) := Entry(k1, v)], k2, w)
            == Some(Empty()[At(k2, 0) := Entry(k1, v)][At(k2, 1) := Entry(k2, w)])
  {
    hide Hash;
    var t1 := Empty()[At(k2, 0) := Entry(k1, v)];
    DistOfAt(k2, 0);
    DistOfAt(k2, 1);
    assert Search(Empty(), k1, 0) == Vacant(0);
    assert Search(t1, k2, 0) == Search(t1, k2, 1) == Vacant(1);
  }

  /**
   Without the safety of deletes the refinement fails: of two colliding keys,
   deleting the first one stored makes `get` lose the second, which the map
   still holds.
   */
  lemma UnsafeDeleteLosesKey(k1: bytes, k2: bytes, v: bytes, w: bytes)
    requires Hash(k1) == Hash(k2) && k1 != k2 && |k1| <= MAX_KEY_LEN && |k2| <= MAX_KEY_LEN
    requires |v| <= MAX_VALUE_LEN && |w| <= MAX_VALUE_LEN
    ensures var t2 := TableStep(TableStep(Empty(), Put(k1, v)).0, Put(k2, w)).0;
            && GetIn(t2, k2) == Some(w)
            && TableStep(TableStep(t2, Delete(k1)).0, Get(k2)).1 == Value(None)
    ensures var m2 := MapStep(MapStep(map[], Put(k1, v)).0, Put(k2, w)).0;
            MapStep(MapStep(m2, Delete(k1)).0, Get(k2)).1 == Value(Some(w))
  {
    hide At, Dist, Search, Hash, Sound, Contents, GetIn, DeleteIn, PutIn;
    CollidingPuts(k1, k2, v, w);
    EmptyStandsForNothing();
    PutUpdatesMap(Empty(), k1, v);
    var t1 := PutIn(Empty(), k1, v).value;
    PutUpdatesMap(t1, k2, w);
    var t2 := PutIn(t1, k2, w).value;
    GetIsLookUp(t2, k2);
    DistOfAt(k2, 0);
    DistOfAt(k2, 1);
    DeleteExactEffect(t2, At(k2, 0), At(k2, 1));
    DeleteFrees(t2, At(k2, 0));
    FreeingSlot(t2, At(k2, 0), At(k2, 1));
  }

  /** Such keys exist already among those of one byte. */
  lemma KeysCollide()
    ensures Hash([0]) == Hash([64])
  {
    var a: bytes, b: bytes := [0], [64];
    assert a[..0] == [] && b[..0] == [];
    assert Fnv(a) == FnvRound(FNV_OFFSET, 0) && Fnv(b) == FnvRound(FNV_OFFSET, 64);
    assert FnvRound(FNV_OFFSET, 0) == 0x050C5D1F;
    assert FnvRound(FNV_OFFSET, 64) == 0xC50BF85F;
  }
}
