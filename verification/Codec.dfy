/**
 The wire codec: big-endian integers, fixed layouts, the frame header, all
 twenty payloads and `RdowsMessage::encode`/`decode`, with the proofs that
 parser and printer undo each other.
 */
module Codec {
  import opened Core

  // ---------------------------------------------------------------------
  // Big-endian integers
  // ---------------------------------------------------------------------

  function Pow256(n: nat): nat {
    if n == 0 then 1 else 256 * Pow256(n - 1)
  }

  /** The low `n` bytes of `v`, most significant first (`put_u8` .. `put_u64`). */
  function BigEndian(n: nat, v: nat): (b: bytes)
    ensures |b| == n
    decreases n, v
  {
    if n == 0 then [] else BigEndian(n - 1, v / 256) + [v % 256]
  }

  /** `get_u8` .. `get_u64` */
  function FromBigEndian(b: bytes): nat {
    if b == [] then 0 else 256 * FromBigEndian(b[..|b| - 1]) + b[|b| - 1]
  }

  lemma {:induction false} FromBigEndianBound(b: bytes)
    ensures FromBigEndian(b) < Pow256(|b|)
  {
    if b != [] {
      FromBigEndianBound(b[..|b| - 1]);
    }
  }

  lemma {:induction false} IntegerRoundTrip(n: nat, v: nat)
    requires v < Pow256(n)
    ensures FromBigEndian(BigEndian(n, v)) == v
  {
    if n > 0 {
      IntegerRoundTrip(n - 1, v / 256);
      assert BigEndian(n, v)[..n - 1] == BigEndian(n - 1, v / 256);
    }
  }

  lemma {:induction false} BytesRoundTrip(b: bytes)
    ensures BigEndian(|b|, FromBigEndian(b)) == b
  {
    if b != [] {
      BytesRoundTrip(b[..|b| - 1]);
    }
  }

  lemma DivideTwice(v: nat, p: nat)
    requires p > 0
    ensures v / 256 / p == v / (256 * p)
  {
    var q := v / 256 / p;
    var r := v / 256 - p * q;
    assert v == 256 * (p * q + r) + v % 256;
    assert 256 * (p * q + r) == (256 * p) * q + 256 * r;
    QuotientIs(v, 256 * p, q, 256 * r + v % 256);
  }

  lemma QuotientIs(v: nat, d: nat, q: nat, r: nat)
    requires v == d * q + r && r < d
    ensures v / d == q
  {
    SameQuotient(d, q, r, v / d, v % d);
  }

  lemma MultipleIsLarge(d: nat, x: int)
    ensures x >= 1 ==> d * x >= d
    ensures x <= -1 ==> d * x + d <= 0
  {
  }

  lemma SameQuotient(d: nat, q: nat, r: nat, k: nat, m: nat)
    requires d * q + r == d * k + m && r < d && m < d
    ensures q == k
  {
    MultipleIsLarge(d, q - k);
    assert d * (q - k) == m - r;
  }

  /** Most significant byte first: byte `i` of `n` carries weight 256 to the power n - 1 - i. */
  lemma {:induction false} BigEndianAt(n: nat, v: nat, i: nat)
    requires i < n
    ensures 0 < Pow256(n - 1 - i)
    ensures BigEndian(n, v)[i] == v / Pow256(n - 1 - i) % 256
    decreases n
  {
    if i < n - 1 {
      BigEndianAt(n - 1, v / 256, i);
      DivideTwice(v, Pow256(n - 2 - i));
    }
  }

  /** The sum of the bytes, each times its weight. */
  function WeightedSum(b: bytes): nat {
    if b == [] then 0 else b[0] * Pow256(|b| - 1) + WeightedSum(b[1..])
  }

  lemma {:induction false} WeightedSumShift(b: bytes, x: byte)
    ensures WeightedSum(b + [x]) == 256 * WeightedSum(b) + x
  {
    if b == [] {
      assert [x][1..] == [];
    } else {
      WeightedSumShift(b[1..], x);
      assert (b + [x])[1..] == b[1..] + [x];
      assert b[0] * Pow256(|b|) == 256 * (b[0] * Pow256(|b| - 1));
    }
  }

  lemma {:induction false} FromBigEndianIsSum(b: bytes)
    ensures FromBigEndian(b) == WeightedSum(b)
  {
    if b != [] {
      var n := |b| - 1;
      FromBigEndianIsSum(b[..n]);
      WeightedSumShift(b[..n], b[n]);
      assert b[..n] + [b[n]] == b;
    }
  }

  // ---------------------------------------------------------------------
  // Fixed layouts of at most eight integer fields
  // ---------------------------------------------------------------------

  datatype Width = W1 | W2 | W3 | W4 | W6 | W8 {
    function Size(): nat {
      match this
      case W1 => 1
      case W2 => 2
      case W3 => 3
      case W4 => 4
      case W6 => 6
      case W8 => 8
    }

    function Limit(): nat {
      match this
      case W1 => 0x100
      case W2 => 0x1_0000
      case W3 => 0x100_0000
      case W4 => U32_MOD
      case W6 => 0x1_0000_0000_0000
      case W8 => U64_MOD
    }
  }

  lemma LimitIsPower(w: Width)
    ensures w.Limit() == Pow256(w.Size())
  {
    assert Pow256(1) == 256;
    assert Pow256(2) == 65536;
    assert Pow256(3) == 0x100_0000;
    assert Pow256(4) == 0x1_0000_0000;
    assert Pow256(6) == 0x1_0000_0000_0000;
    assert Pow256(8) == 0x1_0000_0000_0000_0000;
  }

  type Layout = ws: seq<Width> | |ws| <= 8

  function SizeAt(ws: Layout, i: nat): nat {
    if i < |ws| then ws[i].Size() else 0
  }

  function LayoutSize(ws: Layout): nat {
    SizeAt(ws, 0) + SizeAt(ws, 1) + SizeAt(ws, 2) + SizeAt(ws, 3)
    + SizeAt(ws, 4) + SizeAt(ws, 5) + SizeAt(ws, 6) + SizeAt(ws, 7)
  }

  predicate Fits(ws: Layout, vs: seq<nat>) {
    |vs| == |ws| && forall i :: 0 <= i < |ws| ==> vs[i] < ws[i].Limit()
  }

  lemma LayoutSizeStep(ws: Layout)
    requires ws != []
    ensures LayoutSize(ws) == ws[0].Size() + LayoutSize(ws[1..])
  {
  }

  function Put(ws: Layout, vs: seq<nat>): (b: bytes)
    requires |vs| == |ws|
    ensures |b| == LayoutSize(ws)
    decreases |ws|, |vs|
  {
    if ws == [] then []
    else
      LayoutSizeStep(ws);
      BigEndian(ws[0].Size(), vs[0]) + Put(ws[1..], vs[1..])
  }

  function Get(ws: Layout, b: bytes): (vs: seq<nat>)
    requires LayoutSize(ws) <= |b|
    ensures Fits(ws, vs)
    decreases |ws|, |b|
  {
    if ws == [] then []
    else
      LayoutSizeStep(ws);
      var n := ws[0].Size();
      FromBigEndianBound(b[..n]);
      LimitIsPower(ws[0]);
      [FromBigEndian(b[..n])] + Get(ws[1..], b[n..])
  }

  lemma FieldRoundTrip(w: Width, v: nat, rest: bytes)
    requires v < w.Limit()
    ensures var all := BigEndian(w.Size(), v) + rest;
            FromBigEndian(all[..w.Size()]) == v && all[w.Size()..] == rest
  {
    LimitIsPower(w);
    IntegerRoundTrip(w.Size(), v);
    assert (BigEndian(w.Size(), v) + rest)[..w.Size()] == BigEndian(w.Size(), v);
  }

  lemma {:induction false} LayoutRoundTrip(ws: Layout, vs: seq<nat>, rest: bytes)
    requires Fits(ws, vs)
    ensures Get(ws, Put(ws, vs) + rest) == vs
    decreases |ws|
  {
    hide LayoutSize, BigEndian, FromBigEndian;
    if ws != [] {
      var tail := Put(ws[1..], vs[1..]) + rest;
      LayoutSizeStep(ws);
      LayoutRoundTrip(ws[1..], vs[1..], rest);
      FieldRoundTrip(ws[0], vs[0], tail);
      assert Put(ws, vs) + rest == BigEndian(ws[0].Size(), vs[0]) + tail;
    }
  }

  lemma RestAfterLayout(ws: Layout, vs: seq<nat>, rest: bytes)
    requires |vs| == |ws|
    ensures (Put(ws, vs) + rest)[LayoutSize(ws)..] == rest
  {
    hide LayoutSize, Put;
  }

  const HEADER_LAYOUT: Layout := [W1, W1, W2, W4, W4, W8, W4]
  const SG_LAYOUT: Layout := [W4, W8, W4]
  const LKEY_LAYOUT: Layout := [W4]

  /** The fixed part of each payload; reserved fields are written as zero and ignored on reading. */
  function FixedLayout(op: Opcode): Layout {
    match op
    case Connect => [W4, W4, W4, W4]
    case ConnectAck => [W4, W4, W4, W4]
    case MrReg => [W4, W4, W4, W4]
    case MrRegAck => [W4, W4, W4, W2, W2]
    case MrDereg => [W4, W4]
    case MrDeregAck => [W2, W6]
    case Send => [W2, W2]
    case Write => [W4, W4, W8, W8]
    case ReadReq => [W4, W4, W8, W8, W4, W4, W8]
    case ReadResp => [W8]
    case AtomicReq => [W4, W1, W3, W8, W8, W8]
    case AtomicResp => [W8, W2, W6]
    case CreditUpdate => [W4, W4]
    case Error => [W2, W2, W4, W2]
    case _ => []
  }

  function FixedSize(op: Opcode): nat {
    match op
    case Connect => 16
    case ConnectAck => 16
    case MrReg => 16
    case MrRegAck => 16
    case MrDereg => 8
    case MrDeregAck => 8
    case Send => 4
    case Write => 24
    case ReadReq => 40
    case ReadResp => 8
    case AtomicReq => 32
    case AtomicResp => 16
    case CreditUpdate => 8
    case Error => 10
    case _ => 0
  }

  lemma FixedSizes(op: Opcode)
    ensures LayoutSize(FixedLayout(op)) == FixedSize(op)
  {
  }

  // ---------------------------------------------------------------------
  // Scatter/gather lists
  // ---------------------------------------------------------------------

  const SG_ENTRY_SIZE := 16

  function EncodeSgEntry(e: SgEntry): (b: bytes)
    ensures |b| == SG_ENTRY_SIZE
  {
    Put(SG_LAYOUT, [e.lkey, e.offset, e.length])
  }

  function DecodeSgEntry(b: bytes): SgEntry
    requires SG_ENTRY_SIZE <= |b|
  {
    var v := Get(SG_LAYOUT, b);
    SgEntry(v[0], v[1], v[2])
  }

  function EncodeSgList(list: seq<SgEntry>): (b: bytes)
    ensures |b| == SG_ENTRY_SIZE * |list|
  {
    if list == [] then [] else EncodeSgList(list[..|list| - 1]) + EncodeSgEntry(list[|list| - 1])
  }

  /** `count` consecutive entries from the front of `b`. */
  function DecodeSgList(count: nat, b: bytes): (list: seq<SgEntry>)
    requires SG_ENTRY_SIZE * count <= |b|
    ensures |list| == count
  {
    if count == 0 then [] else
    DecodeSgList(count - 1, b) + [DecodeSgEntry(b[SG_ENTRY_SIZE * (count - 1)..])]
  }

  lemma SgEntryRoundTrip(e: SgEntry, rest: bytes)
    ensures DecodeSgEntry(EncodeSgEntry(e) + rest) == e
  {
    hide Put, Get;
    LayoutRoundTrip(SG_LAYOUT, [e.lkey, e.offset, e.length], rest);
  }

  lemma {:induction false} SgListRoundTrip(list: seq<SgEntry>, rest: bytes)
    ensures DecodeSgList(|list|, EncodeSgList(list) + rest) == list
  {
    hide DecodeSgEntry, EncodeSgEntry;
    if list != [] {
      var n := |list| - 1;
      var front := EncodeSgList(list[..n]);
      var last := EncodeSgEntry(list[n]) + rest;
      SgListRoundTrip(list[..n], last);
      SgEntryRoundTrip(list[n], rest);
      assert EncodeSgList(list) + rest == front + last;
      assert (front + last)[SG_ENTRY_SIZE * n..] == last;
    }
  }

  /** The encoder's loop over a scatter/gather list. */
  method WriteSgEntries(list: seq<SgEntry>) returns (buf: bytes)
    ensures buf == EncodeSgList(list)
  {
    hide EncodeSgEntry;
    buf := [];
    for i := 0 to |list|
      invariant buf == EncodeSgList(list[..i])
    {
      assert list[..i + 1][..i] == list[..i];
      buf := buf + EncodeSgEntry(list[i]);
    }
    assert list[..|list|] == list;
  }

  /** The decoder's loop: it stops at the first entry that is cut short. */
  method ReadSgEntries(count: nat, b: bytes) returns (r: Result<seq<SgEntry>, nat>)
    ensures SG_ENTRY_SIZE * count <= |b| ==> r == Ok(DecodeSgList(count, b))
    ensures |b| < SG_ENTRY_SIZE * count ==> r == Err(|b| % SG_ENTRY_SIZE)
  {
    hide DecodeSgEntry;
    var list := [];
    var cursor := b;
    for i := 0 to count
      invariant SG_ENTRY_SIZE * i <= |b|
      invariant cursor == b[SG_ENTRY_SIZE * i..]
      invariant list == DecodeSgList(i, b)
    {
      if |cursor| < SG_ENTRY_SIZE {
        return Err(|cursor|);
      }
      list := list + [DecodeSgEntry(cursor)];
      cursor := cursor[SG_ENTRY_SIZE..];
    }
    return Ok(list);
  }

  // ---------------------------------------------------------------------
  // Payloads
  // ---------------------------------------------------------------------

  datatype CodecError =
    | HeaderTooShort(got: nat)
    | InvalidVersion(version: byte)
    | InvalidOpcode(opcode: byte)
    | PayloadTooShort(expected: nat, got: nat)
    | LengthUnderflow   // `payload_length` below the fixed part: the subtraction in the decoder panics

  /** The values of the fixed part of a payload. */
  function FixedValues(body: Body): (vs: seq<nat>)
    ensures |vs| == |FixedLayout(OpcodeOf(body))|
  {
    match body
    case ConnectBody(pd, caps, max, icc) => [pd, caps, max, icc]
    case ConnectAckBody(pd, caps, max, icc) => [pd, caps, max, icc]
    case MrRegBody(pd, flags, len, _) => [pd, flags, len / U32_MOD, len % U32_MOD]
    case MrRegAckBody(pd, lkey, rkey, status) => [pd, lkey, rkey, status, 0]
    case MrDeregBody(pd, lkey) => [pd, lkey]
    case MrDeregAckBody(status) => [status, 0]
    case SendBody(sg) => [|sg| % 0x1_0000, 0]
    case WriteBody(rkey, va, len, _) => [rkey, 0, va, len]
    case ReadReqBody(rkey, va, len, lkey, lva) => [rkey, 0, va, len, lkey, 0, lva]
    case ReadRespBody(off, _) => [off]
    case AtomicReqBody(rkey, kind, va, op1, op2) => [rkey, kind, 0, va, op1, op2]
    case AtomicRespBody(orig, status) => [orig, status, 0]
    case CreditUpdateBody(inc) => [inc, 0]
    case ErrorBody(code, fs, desc) => [CodeValue(code), 0, fs, |desc| % 0x1_0000]
    case _ => []
  }

  lemma FixedValuesFit(body: Body)
    ensures Fits(FixedLayout(OpcodeOf(body)), FixedValues(body))
  {
  }

  function TailSize(body: Body): nat {
    match body
    case MrRegBody(_, _, _, Some(_)) => 4
    case SendBody(sg) => SG_ENTRY_SIZE * |sg|
    case SendDataBody(data) => |data|
    case WriteBody(_, _, _, sg) => SG_ENTRY_SIZE * |sg|
    case WriteDataBody(data) => |data|
    case ReadRespBody(_, data) => |data|
    case ErrorBody(_, _, desc) => |desc|
    case _ => 0
  }

  /** What follows the fixed part. */
  function Tail(body: Body): (t: bytes)
    ensures |t| == TailSize(body)
  {
    match body
    case MrRegBody(_, _, _, Some(lkey)) => Put(LKEY_LAYOUT, [lkey])
    case SendBody(sg) => EncodeSgList(sg)
    case SendDataBody(data) => data
    case WriteBody(_, _, _, sg) => EncodeSgList(sg)
    case WriteDataBody(data) => data
    case ReadRespBody(_, data) => data
    case ErrorBody(_, _, desc) => desc
    case _ => []
  }

  function PayloadSize(body: Body): nat {
    FixedSize(OpcodeOf(body)) + TailSize(body)
  }

  function EncodeBody(body: Body): (b: bytes)
    ensures |b| == PayloadSize(body)
  {
    FixedSizes(OpcodeOf(body));
    Put(FixedLayout(OpcodeOf(body)), FixedValues(body)) + Tail(body)
  }

  function BuildSend(count: nat, rest: bytes): Result<Body, CodecError> {
    if |rest| < SG_ENTRY_SIZE * count then Err(PayloadTooShort(4 + SG_ENTRY_SIZE * count, 4 + |rest|)) else
    Ok(SendBody(DecodeSgList(count, rest)))
  }

  function BuildWrite(rkey: u32, va: u64, len: u64, pl: u32, rest: bytes): Result<Body, CodecError> {
    if pl < 24 then Err(LengthUnderflow) else
    var count := (pl - 24) / SG_ENTRY_SIZE;
    if |rest| < SG_ENTRY_SIZE * count then Err(PayloadTooShort(SG_ENTRY_SIZE, |rest| % SG_ENTRY_SIZE)) else
    Ok(WriteBody(rkey, va, len, DecodeSgList(count, rest)))
  }

  /** The bodies of client requests, from the fixed values `v` and the bytes after them. */
  function BuildRequest(op: Opcode, v: seq<nat>, pl: u32, rest: bytes): Result<Body, CodecError>
    requires Fits(FixedLayout(op), v)
  {
    match op
    case Connect => Ok(ConnectBody(v[0], v[1], v[2], v[3]))
    case MrReg =>
      var lkey := if pl >= 20 && |rest| >= 4 then Some(Get(LKEY_LAYOUT, rest)[0]) else None;
      Ok(MrRegBody(v[0], v[1], v[2] * U32_MOD + v[3], lkey))
    case MrDereg => Ok(MrDeregBody(v[0], v[1]))
    case Send => BuildSend(v[0], rest)
    case SendData =>
      if |rest| < pl then Err(PayloadTooShort(pl, |rest|)) else Ok(SendDataBody(rest[..pl]))
    case Write => BuildWrite(v[0], v[2], v[3], pl, rest)
    case WriteData =>
      if |rest| < pl then Err(PayloadTooShort(pl, |rest|)) else Ok(WriteDataBody(rest[..pl]))
    case ReadReq => Ok(ReadReqBody(v[0], v[2], v[3], v[4], v[6]))
    case AtomicReq => Ok(AtomicReqBody(v[0], v[1], v[3], v[4], v[5]))
    case _ => Ok(DisconnectBody)
  }

  function BuildResponse(op: Opcode, v: seq<nat>, pl: u32, rest: bytes): Result<Body, CodecError>
    requires Fits(FixedLayout(op), v)
  {
    match op
    case ConnectAck => Ok(ConnectAckBody(v[0], v[1], v[2], v[3]))
    case MrRegAck => Ok(MrRegAckBody(v[0], v[1], v[2], v[3]))
    case MrDeregAck => Ok(MrDeregAckBody(v[0]))
    case RecvComp => Ok(RecvCompBody)
    case WriteComp => Ok(WriteCompBody)
    case ReadResp =>
      if pl < 8 then Err(LengthUnderflow) else
      if |rest| < pl - 8 then Err(PayloadTooShort(pl, 8 + |rest|)) else
      Ok(ReadRespBody(v[0], rest[..pl - 8]))
    case AtomicResp => Ok(AtomicRespBody(v[0], v[1]))
    case CreditUpdate => Ok(CreditUpdateBody(v[0]))
    case Error =>
      Ok(ErrorBody(CodeFromValue(v[0]), v[2], if 0 < v[3] <= |rest| then rest[..v[3]] else []))
    case _ => Ok(AckBody)
  }

  predicate IsRequest(op: Opcode) {
    op in {Connect, Disconnect, MrReg, MrDereg, Send, SendData, Write, WriteData, ReadReq, AtomicReq}
  }

  function Build(op: Opcode, v: seq<nat>, pl: u32, rest: bytes): Result<Body, CodecError>
    requires Fits(FixedLayout(op), v)
  {
    if IsRequest(op) then BuildRequest(op, v, pl, rest) else BuildResponse(op, v, pl, rest)
  }

  function DecodeBody(op: Opcode, pl: u32, b: bytes): Result<Body, CodecError> {
    var n := FixedSize(op);
    if |b| < n then Err(PayloadTooShort(n, |b|)) else
    FixedSizes(op);
    Build(op, Get(FixedLayout(op), b), pl, b[n..])
  }

  // ---------------------------------------------------------------------
  // Whole messages
  // ---------------------------------------------------------------------

  function EncodeHeader(h: Header): (b: bytes)
    ensures |b| == HEADER_SIZE
  {
    Put(HEADER_LAYOUT,
        [h.version, OpcodeByte(h.opcode), h.flags, h.sessionId, h.sequence, h.wrid, h.payloadLength])
  }

  function DecodeHeader(b: bytes): Result<Header, CodecError> {
    if |b| < HEADER_SIZE then Err(HeaderTooShort(|b|)) else
    var v := Get(HEADER_LAYOUT, b);
    if v[0] != RDOWS_VERSION then Err(InvalidVersion(v[0])) else
    match OpcodeFromByte(v[1])
    case None => Err(InvalidOpcode(v[1]))
    case Some(op) => Ok(Header(v[0], op, v[2], v[3], v[4], v[5], v[6]))
  }

  function Encode(m: Message): bytes {
    EncodeHeader(Filled(m).header) + EncodeBody(m.body)
  }

  function Decode(b: bytes): Result<Message, CodecError> {
    match DecodeHeader(b)
    case Err(e) => Err(e)
    case Ok(h) =>
      match DecodeBody(h.opcode, h.payloadLength, b[HEADER_SIZE..])
      case Err(e) => Err(e)
      case Ok(body) => Ok(Message(h, body))
  }

  /** The frames of a sequence of messages. */
  function EncodeAll(msgs: seq<Message>): (r: seq<bytes>)
    ensures |r| == |msgs|
  {
    seq(|msgs|, i requires 0 <= i < |msgs| => Encode(msgs[i]))
  }

  lemma EncodeAllConcat(a: seq<Message>, b: seq<Message>)
    ensures EncodeAll(a + b) == EncodeAll(a) + EncodeAll(b)
  {
    hide Encode;
  }

  lemma OneFrame(sessionId: u32, seq0: u32, n: Note)
    ensures EncodeAll(Stamp(sessionId, seq0, [n])) == [Encode(NewMessage(sessionId, seq0, n.wrid, n.body))]
  {
    hide Encode;
    assert Wrap32(seq0 + 0) == seq0;
  }

  lemma TwoFrames(sessionId: u32, seq0: u32, n1: Note, n2: Note)
    ensures EncodeAll(Stamp(sessionId, seq0, [n1])) + EncodeAll(Stamp(sessionId, Wrap32(seq0 + 1), [n2]))
            == EncodeAll(Stamp(sessionId, seq0, [n1, n2]))
    ensures Wrap32(Wrap32(seq0 + 1) + 1) == Wrap32(seq0 + 2)
  {
    hide Encode, Stamp, EncodeAll, Wrap32;
    StampConcat(sessionId, seq0, [n1], [n2]);
    EncodeAllConcat(Stamp(sessionId, seq0, [n1]), Stamp(sessionId, Wrap32(seq0 + 1), [n2]));
    assert [n1] + [n2] == [n1, n2];
  }

  /** The messages the encoder represents without truncating a length. */
  predicate WellFormed(m: Message) {
    && m.header.version == RDOWS_VERSION
    && m.header.opcode == OpcodeOf(m.body)
    && PayloadSize(m.body) < U32_MOD
    && (m.body.SendBody? ==> |m.body.sgList| < 0x1_0000)
    && (m.body.ErrorBody? ==> |m.body.description| < 0x1_0000)
  }

  /** The message with the `payload_length` that `encode` puts on the wire. */
  function Filled(m: Message): Message {
    m.(header := m.header.(payloadLength := PayloadSize(m.body) % U32_MOD))
  }

  /** The messages whose length and opcode fields can be written; lists and texts may be of any length. */
  predicate Framed(m: Message) {
    m.header.version == RDOWS_VERSION && m.header.opcode == OpcodeOf(m.body) && PayloadSize(m.body) < U32_MOD
  }

  /** What is left of a body whose 16-bit count or text length has been truncated on the wire. */
  function Shortened(body: Body): Body {
    match body
    case SendBody(sg) => SendBody(sg[..|sg| % 0x1_0000])
    case ErrorBody(code, fs, desc) => ErrorBody(code, fs, desc[..|desc| % 0x1_0000])
    case _ => body
  }

  /** The message as the other side decodes it. */
  function Landed(m: Message): Message {
    Filled(m).(body := Shortened(m.body))
  }

  predicate TailUndone(body: Body) {
    && PayloadSize(body) < U32_MOD
    && Fits(FixedLayout(OpcodeOf(body)), FixedValues(body))
    && Build(OpcodeOf(body), FixedValues(body), PayloadSize(body), Tail(body)) == Ok(Shortened(body))
  }

  lemma {:induction false} SgListConcat(a: seq<SgEntry>, b: seq<SgEntry>)
    ensures EncodeSgList(a + b) == EncodeSgList(a) + EncodeSgList(b)
  {
    hide EncodeSgEntry;
    if b == [] {
      assert a + b == a;
    } else {
      var n := |b| - 1;
      SgListConcat(a, b[..n]);
      assert (a + b)[..|a + b| - 1] == a + b[..n];
    }
  }

  /** The first `n` entries of an encoded list decode to the first `n` entries. */
  lemma SgListPrefix(sg: seq<SgEntry>, n: nat)
    requires n <= |sg|
    ensures DecodeSgList(n, EncodeSgList(sg)) == sg[..n]
  {
    hide DecodeSgList, EncodeSgList;
    SgListConcat(sg[..n], sg[n..]);
    assert sg[..n] + sg[n..] == sg;
    SgListRoundTrip(sg[..n], EncodeSgList(sg[n..]));
  }

  lemma ListTail(body: Body, t: bytes)
    requires (body.SendBody? || body.WriteBody?) && PayloadSize(body) < U32_MOD
    requires |t| == SG_ENTRY_SIZE * |body.sgList|
    requires var n := if body.SendBody? then |body.sgList| % 0x1_0000 else |body.sgList|;
             DecodeSgList(n, t) == body.sgList[..n]
    ensures Fits(FixedLayout(OpcodeOf(body)), FixedValues(body))
    ensures Build(OpcodeOf(body), FixedValues(body), PayloadSize(body), t) == Ok(Shortened(body))
  {
    hide DecodeSgList, Get;
    FixedValuesFit(body);
    var count := |body.sgList|;
    assert body.sgList[..count] == body.sgList;
    assert body.WriteBody? ==> (PayloadSize(body) - 24) / SG_ENTRY_SIZE == count;
  }

  lemma ListTailRoundTrip(body: Body)
    requires (body.SendBody? || body.WriteBody?) && PayloadSize(body) < U32_MOD
    ensures TailUndone(body)
  {
    hide DecodeSgList, EncodeSgList, Get, Build;
    SgListPrefix(body.sgList, if body.SendBody? then |body.sgList| % 0x1_0000 else |body.sgList|);
    ListTail(body, EncodeSgList(body.sgList));
  }

  lemma DataTailRoundTrip(body: Body)
    requires body.SendDataBody? || body.WriteDataBody? || body.ReadRespBody? || body.ErrorBody?
    requires PayloadSize(body) < U32_MOD
    ensures TailUndone(body)
  {
    FixedValuesFit(body);
    var t := Tail(body);
    assert t[..|t|] == t;
  }

  lemma KeyTailRoundTrip(body: Body)
    requires body.MrRegBody?
    ensures TailUndone(body)
  {
    FixedValuesFit(body);
    assert Tail(body) + [] == Tail(body);
    if body.suggestedLkey.Some? {
      LayoutRoundTrip(LKEY_LAYOUT, [body.suggestedLkey.value], []);
    }
  }

  lemma NoTailRoundTrip(body: Body)
    requires TailSize(body) == 0 && !body.MrRegBody? && !body.SendBody? && !body.WriteBody?
    requires !body.SendDataBody? && !body.WriteDataBody? && !body.ReadRespBody? && !body.ErrorBody?
    ensures TailUndone(body)
  {
    hide Get, DecodeSgList, LayoutSize, BuildSend, BuildWrite;
    FixedValuesFit(body);
  }

  /** The bytes after the fixed part give back what the fixed values do not determine. */
  lemma TailRoundTrip(m: Message)
    requires Framed(m)
    ensures TailUndone(m.body)
  {
    hide Tail, Build, FixedValues, FixedLayout, Shortened;
    match m.body
    case MrRegBody(_, _, _, _) => KeyTailRoundTrip(m.body);
    case SendBody(_) => ListTailRoundTrip(m.body);
    case WriteBody(_, _, _, _) => ListTailRoundTrip(m.body);
    case SendDataBody(_) => DataTailRoundTrip(m.body);
    case WriteDataBody(_) => DataTailRoundTrip(m.body);
    case ReadRespBody(_, _) => DataTailRoundTrip(m.body);
    case ErrorBody(_, _, _) => DataTailRoundTrip(m.body);
    case _ => NoTailRoundTrip(m.body);
  }

  lemma BodyRoundTrip(m: Message)
    requires Framed(m)
    ensures DecodeBody(m.header.opcode, Filled(m).header.payloadLength, EncodeBody(m.body)) == Ok(Shortened(m.body))
  {
    hide Put, Get, LayoutSize, Build, Tail, FixedValues, FixedLayout, Shortened;
    var op := OpcodeOf(m.body);
    TailRoundTrip(m);
    FixedSizes(op);
    LayoutRoundTrip(FixedLayout(op), FixedValues(m.body), Tail(m.body));
    RestAfterLayout(FixedLayout(op), FixedValues(m.body), Tail(m.body));
    assert m.header.opcode == op && Filled(m).header.payloadLength == PayloadSize(m.body);
  }

  lemma HeaderRoundTrip(h: Header, rest: bytes)
    requires h.version == RDOWS_VERSION
    ensures DecodeHeader(EncodeHeader(h) + rest) == Ok(h)
    ensures (EncodeHeader(h) + rest)[HEADER_SIZE..] == rest
  {
    hide Put, Get;
    var vs := [h.version, OpcodeByte(h.opcode), h.flags, h.sessionId, h.sequence, h.wrid, h.payloadLength];
    LayoutRoundTrip(HEADER_LAYOUT, vs, rest);
    RestAfterLayout(HEADER_LAYOUT, vs, rest);
  }

  lemma DecodeParts(b: bytes, h: Header, p: bytes, body: Body)
    requires DecodeHeader(b) == Ok(h) && HEADER_SIZE <= |b| && b[HEADER_SIZE..] == p
    requires DecodeBody(h.opcode, h.payloadLength, p) == Ok(body)
    ensures Decode(b) == Ok(Message(h, body))
  {
  }

  /**
   What becomes of any message on the wire: it decodes to itself with
   `payload_length` filled in, except that a SEND list and an ERROR text lose
   what their 16-bit length cannot count.
   */
  lemma WireRoundTrip(m: Message)
    requires Framed(m)
    ensures Decode(Encode(m)) == Ok(Landed(m))
  {
    hide EncodeBody, EncodeHeader, DecodeHeader, DecodeBody, Shortened;
    var h := Filled(m).header;
    var p := EncodeBody(m.body);
    HeaderRoundTrip(h, p);
    BodyRoundTrip(m);
    DecodeParts(EncodeHeader(h) + p, h, p, Shortened(m.body));
  }

  /** A message that can be framed survives the wire if and only if its list or text length fits 16 bits. */
  lemma RoundTripIff(m: Message)
    requires Framed(m)
    ensures Decode(Encode(m)) == Ok(Filled(m)) <==> WellFormed(m)
  {
    hide Encode, Decode;
    WireRoundTrip(m);
    match m.body
    case SendBody(sg) => assert |sg| < 0x1_0000 ==> sg[..|sg|] == sg;
    case ErrorBody(_, _, desc) => assert |desc| < 0x1_0000 ==> desc[..|desc|] == desc;
    case _ =>
  }

  /** Decoding an encoding gives the message back, with `payload_length` filled in. */
  lemma RoundTrip(m: Message)
    requires WellFormed(m)
    ensures Decode(Encode(m)) == Ok(Filled(m))
  {
    hide Encode, Decode;
    RoundTripIff(m);
  }

  lemma BuiltRequest(op: Opcode, v: seq<nat>, pl: u32, rest: bytes)
    requires IsRequest(op) && Fits(FixedLayout(op), v) && BuildRequest(op, v, pl, rest).Ok?
    ensures var body := BuildRequest(op, v, pl, rest).value;
            && OpcodeOf(body) == op && PayloadSize(body) < U32_MOD
            && (body.SendBody? ==> |body.sgList| < 0x1_0000)
  {
    hide DecodeSgList, Get, OpcodeByte, Tail;
  }

  lemma BuiltResponse(op: Opcode, v: seq<nat>, pl: u32, rest: bytes)
    requires !IsRequest(op) && Fits(FixedLayout(op), v) && BuildResponse(op, v, pl, rest).Ok?
    ensures var body := BuildResponse(op, v, pl, rest).value;
            && OpcodeOf(body) == op && PayloadSize(body) < U32_MOD
            && (body.ErrorBody? ==> |body.description| < 0x1_0000)
  {
    hide Get, CodeFromValue, OpcodeByte, Tail;
  }

  /** Whatever the decoder accepts is a message the encoder represents exactly. */
  lemma DecodedIsWellFormed(b: bytes)
    requires Decode(b).Ok?
    ensures WellFormed(Decode(b).value)
  {
    hide Get, LayoutSize, BuildRequest, BuildResponse;
    var h := DecodeHeader(b).value;
    var p := b[HEADER_SIZE..];
    FixedSizes(h.opcode);
    var v := Get(FixedLayout(h.opcode), p);
    var rest := p[FixedSize(h.opcode)..];
    if IsRequest(h.opcode) {
      BuiltRequest(h.opcode, v, h.payloadLength, rest);
    } else {
      BuiltResponse(h.opcode, v, h.payloadLength, rest);
    }
  }

  /**
   Canonical form: for every byte string that decodes, re-encoding and decoding
   yields the same message apart from `payload_length`, and normalising twice
   is the same as normalising once.
   */
  lemma CanonicalForm(b: bytes)
    requires Decode(b).Ok?
    ensures var m := Decode(b).value;
            && Decode(Encode(m)) == Ok(Filled(m))
            && Filled(m).body == m.body
            && Filled(m).header.(payloadLength := 0) == m.header.(payloadLength := 0)
            && Encode(Decode(Encode(m)).value) == Encode(m)
  {
    hide Decode, EncodeBody, EncodeHeader;
    DecodedIsWellFormed(b);
    RoundTrip(Decode(b).value);
  }

  /** No two well-formed messages that differ beyond `payload_length` share an encoding. */
  lemma EncodeInjective(m: Message, n: Message)
    requires WellFormed(m) && WellFormed(n)
    ensures Encode(m) == Encode(n) <==> Filled(m) == Filled(n)
  {
    RoundTrip(m);
    RoundTrip(n);
  }
}
