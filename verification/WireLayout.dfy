/**
 The frame format by byte position. The readers below are plain arithmetic on
 single bytes, so that what is stated here rests neither on the encoder nor on
 the decoder.
 */
module WireLayout {
  import opened Core
  import opened Codec

  // ---------------------------------------------------------------------
  // Numbers at a position
  // ---------------------------------------------------------------------

  function U16At(b: bytes, at: nat): u16
    requires at + 2 <= |b|
  {
    b[at] as int * 0x100 + b[at + 1]
  }

  function U32At(b: bytes, at: nat): u32
    requires at + 4 <= |b|
  {
    b[at] as int * 0x100_0000 + b[at + 1] as int * 0x1_0000 + b[at + 2] as int * 0x100 + b[at + 3]
  }

  function U64At(b: bytes, at: nat): u64
    requires at + 8 <= |b|
  {
    U32At(b, at) * U32_MOD + U32At(b, at + 4)
  }

  function NumberAt(w: Width, b: bytes, at: nat): nat
    requires at + w.Size() <= |b|
  {
    match w
    case W1 => b[at]
    case W2 => U16At(b, at)
    case W3 => b[at] as int * 0x1_0000 + U16At(b, at + 1)
    case W4 => U32At(b, at)
    case W6 => U32At(b, at) * 0x1_0000 + U16At(b, at + 4)
    case W8 => U64At(b, at)
  }

  /** The number in the first `n` bytes at `at` is 256 times the number before its last byte plus that byte. */
  lemma LastByte(b: bytes, at: nat, n: nat)
    requires 0 < n && at + n <= |b|
    ensures FromBigEndian(b[at..at + n]) == 256 * FromBigEndian(b[at..at + n - 1]) + b[at + n - 1]
  {
    assert b[at..at + n][..n - 1] == b[at..at + n - 1];
  }

  lemma EmptyIsZero()
    ensures FromBigEndian([]) == 0
  {
  }

  lemma ReadsNumber(w: Width, b: bytes, at: nat)
    requires at + w.Size() <= |b|
    ensures FromBigEndian(b[at..at + w.Size()]) == NumberAt(w, b, at)
  {
    hide FromBigEndian;
    assert FromBigEndian(b[at..at]) == 0 by {
      assert b[at..at] == [];
      EmptyIsZero();
    }
    LastByte(b, at, 1);
    if w != W1 { LastByte(b, at, 2); }
    if w.Size() > 2 { LastByte(b, at, 3); }
    if w.Size() > 3 { LastByte(b, at, 4); }
    if w.Size() > 4 { LastByte(b, at, 5); LastByte(b, at, 6); }
    if w.Size() > 6 { LastByte(b, at, 7); LastByte(b, at, 8); }
  }

  /** Reading a 64-bit word of memory at `at`. */
  lemma WordIsU64(b: bytes, at: nat)
    requires at + 8 <= |b|
    ensures FromBigEndian(b[at..at + 8]) == U64At(b, at)
  {
    hide FromBigEndian;
    ReadsNumber(W8, b, at);
  }

  // ---------------------------------------------------------------------
  // Fields of a layout
  // ---------------------------------------------------------------------

  function SizeBelow(ws: Layout, i: nat, k: nat): nat {
    if i < k then SizeAt(ws, i) else 0
  }

  /** Where field `k` of a layout starts. */
  function FieldOffset(ws: Layout, k: nat): nat {
    SizeBelow(ws, 0, k) + SizeBelow(ws, 1, k) + SizeBelow(ws, 2, k) + SizeBelow(ws, 3, k)
    + SizeBelow(ws, 4, k) + SizeBelow(ws, 5, k) + SizeBelow(ws, 6, k) + SizeBelow(ws, 7, k)
  }

  lemma FieldOffsetStep(ws: Layout, k: nat)
    requires 0 < k <= |ws|
    ensures FieldOffset(ws, k) == ws[0].Size() + FieldOffset(ws[1..], k - 1)
  {
  }

  lemma FieldOffsetBound(ws: Layout, k: nat)
    requires k < |ws|
    ensures FieldOffset(ws, k) + ws[k].Size() <= LayoutSize(ws)
  {
  }

  lemma GetStep(ws: Layout, b: bytes)
    requires ws != [] && LayoutSize(ws) <= |b|
    ensures LayoutSize(ws) == ws[0].Size() + LayoutSize(ws[1..])
    ensures Get(ws, b)[0] == FromBigEndian(b[..ws[0].Size()])
    ensures Get(ws, b)[1..] == Get(ws[1..], b[ws[0].Size()..])
  {
    hide LayoutSize, FromBigEndian;
    LayoutSizeStep(ws);
  }

  /** What `Get` reads as field `k` are the bytes at that field's offset. */
  lemma {:induction false} GetField(ws: Layout, b: bytes, at: nat, k: nat)
    requires k < |ws| && at + LayoutSize(ws) <= |b|
    ensures at + FieldOffset(ws, k) + ws[k].Size() <= |b|
    ensures Get(ws, b[at..])[k] == NumberAt(ws[k], b, at + FieldOffset(ws, k))
    decreases |ws|
  {
    hide Get, LayoutSize, FieldOffset, NumberAt, FromBigEndian;
    FieldOffsetBound(ws, k);
    GetStep(ws, b[at..]);
    var n := ws[0].Size();
    if k == 0 {
      FirstOffset(ws);
      ReadsNumber(ws[0], b, at);
      assert b[at..][..n] == b[at..at + n];
    } else {
      FieldOffsetStep(ws, k);
      GetField(ws[1..], b, at + n, k - 1);
      assert b[at..][n..] == b[at + n..];
      assert Get(ws, b[at..])[k] == Get(ws, b[at..])[1..][k - 1];
    }
  }

  lemma FirstOffset(ws: Layout)
    ensures FieldOffset(ws, 0) == 0
  {
  }

  // ---------------------------------------------------------------------
  // The format
  // ---------------------------------------------------------------------

  predicate HeaderLaid(b: bytes, h: Header) {
    && HEADER_SIZE <= |b|
    && b[0] == h.version
    && U16At(b, 2) == h.flags
    && U32At(b, 4) == h.sessionId
    && U32At(b, 8) == h.sequence
    && U64At(b, 12) == h.wrid
    && U32At(b, 20) == h.payloadLength
  }

  /** Entries of sixteen bytes each from position `at` on. */
  predicate ListLaid(b: bytes, at: nat, sg: seq<SgEntry>) {
    && at + 16 * |sg| <= |b|
    && forall k :: 0 <= k < |sg| ==> EntryLaid(b, at + 16 * k, sg[k])
  }

  predicate EntryLaid(b: bytes, at: nat, e: SgEntry) {
    at + 16 <= |b| && U32At(b, at) == e.lkey && U64At(b, at + 4) == e.offset && U32At(b, at + 12) == e.length
  }

  predicate DataLaid(b: bytes, at: nat, data: bytes) {
    at + |data| <= |b| && b[at..at + |data|] == data
  }

  /** The numbers of `error.rs`; a number it does not know reads as ErrInternal. */
  predicate CodeLaid(v: u16, c: ErrorCode) {
    match c
    case Success => v == 0x00
    case ErrProtoVersion => v == 0x01
    case ErrUnknownOpcode => v == 0x02
    case ErrInvalidPd => v == 0x03
    case ErrInvalidLkey => v == 0x04
    case ErrInvalidMkey => v == 0x05
    case ErrAccessDenied => v == 0x06
    case ErrBounds => v == 0x07
    case ErrAlignment => v == 0x08
    case ErrPayloadSize => v == 0x09
    case ErrRnr => v == 0x10
    case ErrCqOverflow => v == 0x20
    case ErrSeqGap => v == 0x30
    case ErrTimeout => v == 0x40
    case ErrInternal => v !in {0x00, 0x01, 0x02, 0x03, 0x04, 0x05, 0x06, 0x07, 0x08, 0x09, 0x10, 0x20, 0x30, 0x40}
  }

  /** Opcode and payload of a client request; the payload starts at byte 24. */
  predicate RequestLaid(b: bytes, body: Body)
    requires HEADER_SIZE <= |b|
  {
    match body
    case ConnectBody(pd, caps, max, icc) =>
      && b[1] == 0x01 && 40 <= |b|
      && U32At(b, 24) == pd && U32At(b, 28) == caps && U32At(b, 32) == max && U32At(b, 36) == icc
    case DisconnectBody => b[1] == 0x03
    case MrRegBody(pd, flags, len, lkey) =>
      && b[1] == 0x10 && 40 <= |b|
      && U32At(b, 24) == pd && U32At(b, 28) == flags && U64At(b, 32) == len
      && (lkey.Some? <==> U32At(b, 20) >= 20 && 44 <= |b|)
      && (lkey.Some? ==> U32At(b, 40) == lkey.value)
    case MrDeregBody(pd, lkey) => b[1] == 0x12 && 32 <= |b| && U32At(b, 24) == pd && U32At(b, 28) == lkey
    case SendBody(sg) =>
      b[1] == 0x20 && 28 <= |b| && U16At(b, 24) == |sg| % 0x1_0000 && ListLaid(b, 28, sg)
    case SendDataBody(data) => b[1] == 0x21 && U32At(b, 20) == |data| % U32_MOD && DataLaid(b, 24, data)
    case WriteBody(rkey, va, len, sg) =>
      && b[1] == 0x30 && 48 <= |b|
      && U32At(b, 24) == rkey && U64At(b, 32) == va && U64At(b, 40) == len
      && (24 + 16 * |sg|) % U32_MOD <= U32At(b, 20) < (24 + 16 * |sg|) % U32_MOD + 16
      && ListLaid(b, 48, sg)
    case WriteDataBody(data) => b[1] == 0x31 && U32At(b, 20) == |data| % U32_MOD && DataLaid(b, 24, data)
    case ReadReqBody(rkey, va, len, lkey, lva) =>
      && b[1] == 0x40 && 64 <= |b|
      && U32At(b, 24) == rkey && U64At(b, 32) == va && U64At(b, 40) == len
      && U32At(b, 48) == lkey && U64At(b, 56) == lva
    case AtomicReqBody(rkey, kind, va, op1, op2) =>
      && b[1] == 0x50 && 56 <= |b|
      && U32At(b, 24) == rkey && b[28] == kind && U64At(b, 32) == va && U64At(b, 40) == op1 && U64At(b, 48) == op2
    case _ => true
  }

  /** Opcode and payload of a message the server sends. */
  predicate ResponseLaid(b: bytes, body: Body)
    requires HEADER_SIZE <= |b|
  {
    match body
    case ConnectAckBody(pd, caps, max, icc) =>
      && b[1] == 0x02 && 40 <= |b|
      && U32At(b, 24) == pd && U32At(b, 28) == caps && U32At(b, 32) == max && U32At(b, 36) == icc
    case MrRegAckBody(pd, lkey, rkey, status) =>
      && b[1] == 0x11 && 40 <= |b|
      && U32At(b, 24) == pd && U32At(b, 28) == lkey && U32At(b, 32) == rkey && U16At(b, 36) == status
    case MrDeregAckBody(status) => b[1] == 0x13 && 32 <= |b| && U16At(b, 24) == status
    case RecvCompBody => b[1] == 0x22
    case WriteCompBody => b[1] == 0x32
    case ReadRespBody(off, data) =>
      && b[1] == 0x41 && 32 <= |b|
      && U64At(b, 24) == off && U32At(b, 20) == (8 + |data|) % U32_MOD && DataLaid(b, 32, data)
    case AtomicRespBody(orig, status) => b[1] == 0x51 && 40 <= |b| && U64At(b, 24) == orig && U16At(b, 32) == status
    case AckBody => b[1] == 0x60
    case CreditUpdateBody(inc) => b[1] == 0x61 && 32 <= |b| && U32At(b, 24) == inc
    case ErrorBody(code, fs, desc) =>
      && b[1] == 0xF0 && 34 <= |b|
      && CodeLaid(U16At(b, 24), code) && U32At(b, 28) == fs && DataLaid(b, 34, desc)
      && (U16At(b, 32) == |desc| % 0x1_0000 || (desc == [] && |b| < 34 + U16At(b, 32)))
    case _ => true
  }

  predicate Laid(b: bytes, m: Message) {
    HeaderLaid(b, m.header) && RequestLaid(b, m.body) && ResponseLaid(b, m.body)
  }

  predicate ZeroFrom(b: bytes, from: nat, to: nat) {
    from <= to <= |b| && forall i :: from <= i < to ==> b[i] == 0
  }

  /** The reserved bytes of a frame. */
  predicate ReservedAreZero(b: bytes, body: Body) {
    match body
    case MrRegAckBody(_, _, _, _) => ZeroFrom(b, 38, 40)
    case MrDeregAckBody(_) => ZeroFrom(b, 26, 32)
    case SendBody(_) => ZeroFrom(b, 26, 28)
    case WriteBody(_, _, _, _) => ZeroFrom(b, 28, 32)
    case ReadReqBody(_, _, _, _, _) => ZeroFrom(b, 28, 32) && ZeroFrom(b, 52, 56)
    case AtomicReqBody(_, _, _, _, _) => ZeroFrom(b, 29, 32)
    case AtomicRespBody(_, _) => ZeroFrom(b, 34, 40)
    case CreditUpdateBody(_) => ZeroFrom(b, 28, 32)
    case ErrorBody(_, _, _) => ZeroFrom(b, 26, 28)
    case _ => true
  }

  // ---------------------------------------------------------------------
  // The header
  // ---------------------------------------------------------------------

  lemma HeaderNumbers(b: bytes)
    requires HEADER_SIZE <= |b|
    ensures Get(HEADER_LAYOUT, b)
         == [b[0], b[1], U16At(b, 2), U32At(b, 4), U32At(b, 8), U64At(b, 12), U32At(b, 20)]
  {
    hide Get, U16At, U32At, U64At, FromBigEndian;
    assert b[0..] == b;
    var v := Get(HEADER_LAYOUT, b);
    GetField(HEADER_LAYOUT, b, 0, 0);
    GetField(HEADER_LAYOUT, b, 0, 1);
    GetField(HEADER_LAYOUT, b, 0, 2);
    GetField(HEADER_LAYOUT, b, 0, 3);
    GetField(HEADER_LAYOUT, b, 0, 4);
    GetField(HEADER_LAYOUT, b, 0, 5);
    GetField(HEADER_LAYOUT, b, 0, 6);
    assert v == [v[0], v[1], v[2], v[3], v[4], v[5], v[6]];
  }

  // ---------------------------------------------------------------------
  // The fixed part of each payload
  // ---------------------------------------------------------------------

  /** The fields of the fixed part of a payload, each read at its own position in the frame. */
  function Numbers(op: Opcode, b: bytes): seq<nat>
    requires HEADER_SIZE + FixedSize(op) <= |b|
  {
    match op
    case Connect => [U32At(b, 24), U32At(b, 28), U32At(b, 32), U32At(b, 36)]
    case ConnectAck => [U32At(b, 24), U32At(b, 28), U32At(b, 32), U32At(b, 36)]
    case MrReg => [U32At(b, 24), U32At(b, 28), U32At(b, 32), U32At(b, 36)]
    case MrRegAck => [U32At(b, 24), U32At(b, 28), U32At(b, 32), U16At(b, 36), U16At(b, 38)]
    case MrDereg => [U32At(b, 24), U32At(b, 28)]
    case MrDeregAck => [U16At(b, 24), NumberAt(W6, b, 26)]
    case Send => [U16At(b, 24), U16At(b, 26)]
    case Write => [U32At(b, 24), U32At(b, 28), U64At(b, 32), U64At(b, 40)]
    case ReadReq =>
      [U32At(b, 24), U32At(b, 28), U64At(b, 32), U64At(b, 40), U32At(b, 48), U32At(b, 52), U64At(b, 56)]
    case ReadResp => [U64At(b, 24)]
    case AtomicReq => [U32At(b, 24), b[28], NumberAt(W3, b, 29), U64At(b, 32), U64At(b, 40), U64At(b, 48)]
    case AtomicResp => [U64At(b, 24), U16At(b, 32), NumberAt(W6, b, 34)]
    case CreditUpdate => [U32At(b, 24), U32At(b, 28)]
    case Error => [U16At(b, 24), U16At(b, 26), U32At(b, 28), U16At(b, 32)]
    case _ => []
  }

  lemma FixedNumber(op: Opcode, b: bytes, k: nat)
    requires HEADER_SIZE + FixedSize(op) <= |b| && k < |FixedLayout(op)|
    ensures LayoutSize(FixedLayout(op)) <= |b| - HEADER_SIZE
    ensures |Numbers(op, b)| == |FixedLayout(op)|
    ensures Get(FixedLayout(op), b[HEADER_SIZE..])[k] == Numbers(op, b)[k]
  {
    hide Get, U16At, U32At, U64At, FromBigEndian;
    FixedSizes(op);
    GetField(FixedLayout(op), b, HEADER_SIZE, k);
  }

  lemma FixedNumbers(op: Opcode, b: bytes)
    requires HEADER_SIZE + FixedSize(op) <= |b|
    ensures LayoutSize(FixedLayout(op)) <= |b| - HEADER_SIZE
    ensures Get(FixedLayout(op), b[HEADER_SIZE..]) == Numbers(op, b)
  {
    hide Get, U16At, U32At, U64At, FixedLayout;
    FixedSizes(op);
    forall k | 0 <= k < |FixedLayout(op)|
      ensures |Numbers(op, b)| == |FixedLayout(op)|
      ensures Get(FixedLayout(op), b[HEADER_SIZE..])[k] == Numbers(op, b)[k]
    {
      FixedNumber(op, b, k);
    }
  }

  // ---------------------------------------------------------------------
  // What the decoder reads
  // ---------------------------------------------------------------------

  lemma EntryDecoded(b: bytes, at: nat)
    requires at + SG_ENTRY_SIZE <= |b|
    ensures EntryLaid(b, at, DecodeSgEntry(b[at..]))
  {
    hide Get, U32At, U64At, FromBigEndian;
    GetField(SG_LAYOUT, b, at, 0);
    GetField(SG_LAYOUT, b, at, 1);
    GetField(SG_LAYOUT, b, at, 2);
  }

  lemma {:induction false} ListDecoded(b: bytes, at: nat, count: nat)
    requires at + SG_ENTRY_SIZE * count <= |b|
    ensures ListLaid(b, at, DecodeSgList(count, b[at..]))
  {
    hide EntryLaid, DecodeSgEntry;
    if count > 0 {
      ListDecoded(b, at, count - 1);
      EntryDecoded(b, at + SG_ENTRY_SIZE * (count - 1));
      assert b[at..][SG_ENTRY_SIZE * (count - 1)..] == b[at + SG_ENTRY_SIZE * (count - 1)..];
    }
  }

  lemma KeyDecoded(b: bytes, at: nat)
    requires at + 4 <= |b|
    ensures Get(LKEY_LAYOUT, b[at..])[0] == U32At(b, at)
  {
    hide Get, U32At, FromBigEndian;
    GetField(LKEY_LAYOUT, b, at, 0);
  }

  /** A frame that starts as a frame with opcode `op` and length field `pl`. */
  predicate Starts(b: bytes, op: Opcode, pl: u32) {
    && HEADER_SIZE + FixedSize(op) <= |b|
    && b[1] == OpcodeByte(op) && U32At(b, 20) == pl
    && Fits(FixedLayout(op), Numbers(op, b))
  }

  lemma RequestBuilt(b: bytes, op: Opcode, pl: u32)
    requires Starts(b, op, pl) && IsRequest(op)
    requires BuildRequest(op, Numbers(op, b), pl, b[HEADER_SIZE + FixedSize(op)..]).Ok?
    ensures RequestLaid(b, BuildRequest(op, Numbers(op, b), pl, b[HEADER_SIZE + FixedSize(op)..]).value)
  {
    hide U16At, U32At, DecodeSgList, ListLaid, Get, NumberAt, CodeLaid;
    match op
    case Send => ListDecoded(b, 28, U16At(b, 24));
    case Write => ListDecoded(b, 48, (pl - 24) / SG_ENTRY_SIZE);
    case MrReg => if pl >= 20 && 44 <= |b| { KeyDecoded(b, 40); }
    case _ =>
  }

  lemma ResponseBuilt(b: bytes, op: Opcode, pl: u32)
    requires Starts(b, op, pl) && !IsRequest(op)
    requires BuildResponse(op, Numbers(op, b), pl, b[HEADER_SIZE + FixedSize(op)..]).Ok?
    ensures ResponseLaid(b, BuildResponse(op, Numbers(op, b), pl, b[HEADER_SIZE + FixedSize(op)..]).value)
  {
    hide U16At, U32At, U64At, Get, NumberAt;
  }

  /** Every frame the decoder accepts holds the message it returns, field by field, at the positions of the format. */
  lemma DecodedLayout(b: bytes)
    requires Decode(b).Ok?
    ensures Laid(b, Decode(b).value)
  {
    hide Get, U16At, U32At, U64At, Numbers, BuildRequest, BuildResponse, RequestLaid, ResponseLaid, LayoutSize, Fits;
    var h := DecodeHeader(b).value;
    var op := h.opcode;
    HeaderNumbers(b);
    FixedNumbers(op, b);
    assert b[HEADER_SIZE..][FixedSize(op)..] == b[HEADER_SIZE + FixedSize(op)..];
    assert Starts(b, op, h.payloadLength);
    var body := Decode(b).value.body;
    if IsRequest(op) {
      RequestBuilt(b, op, h.payloadLength);
      RequestIsNoResponse(b, op, Numbers(op, b), h.payloadLength, b[HEADER_SIZE + FixedSize(op)..]);
    } else {
      ResponseBuilt(b, op, h.payloadLength);
      ResponseIsNoRequest(b, op, Numbers(op, b), h.payloadLength, b[HEADER_SIZE + FixedSize(op)..]);
    }
  }

  lemma RequestIsNoResponse(b: bytes, op: Opcode, v: seq<nat>, pl: u32, rest: bytes)
    requires HEADER_SIZE <= |b| && IsRequest(op) && Fits(FixedLayout(op), v) && BuildRequest(op, v, pl, rest).Ok?
    ensures ResponseLaid(b, BuildRequest(op, v, pl, rest).value)
  {
    hide Get, DecodeSgList;
  }

  lemma ResponseIsNoRequest(b: bytes, op: Opcode, v: seq<nat>, pl: u32, rest: bytes)
    requires HEADER_SIZE <= |b| && !IsRequest(op) && Fits(FixedLayout(op), v) && BuildResponse(op, v, pl, rest).Ok?
    ensures RequestLaid(b, BuildResponse(op, v, pl, rest).value)
  {
    hide Get, DecodeSgList;
  }

  // ---------------------------------------------------------------------
  // What the encoder writes
  // ---------------------------------------------------------------------

  /** The frame of a message with its parts in place. */
  predicate Framing(e: bytes, body: Body) {
    var at := HEADER_SIZE + FixedSize(OpcodeOf(body));
    && |e| == at + TailSize(body)
    && e[1] == OpcodeByte(OpcodeOf(body)) && U32At(e, 20) == PayloadSize(body) % U32_MOD
    && Numbers(OpcodeOf(body), e) == FixedValues(body)
    && e[at..] == Tail(body)
  }

  lemma ListEncoded(e: bytes, at: nat, sg: seq<SgEntry>)
    requires at <= |e| && e[at..] == EncodeSgList(sg)
    ensures ListLaid(e, at, sg)
  {
    hide ListLaid, DecodeSgList, EncodeSgList;
    SgListPrefix(sg, |sg|);
    assert sg[..|sg|] == sg;
    ListDecoded(e, at, |sg|);
  }

  lemma KeyEncoded(e: bytes, at: nat, lkey: u32)
    requires at <= |e| && e[at..] == Put(LKEY_LAYOUT, [lkey])
    ensures at + 4 <= |e| && U32At(e, at) == lkey
  {
    hide Get, Put, U32At;
    assert LayoutSize(LKEY_LAYOUT) == 4;
    LayoutRoundTrip(LKEY_LAYOUT, [lkey], []);
    assert Put(LKEY_LAYOUT, [lkey]) + [] == e[at..];
    KeyDecoded(e, at);
  }

  lemma RequestEncoded(e: bytes, body: Body)
    requires Framing(e, body)
    ensures RequestLaid(e, body)
  {
    hide U16At, U32At, EncodeSgList, ListLaid, Put, NumberAt, CodeLaid;
    match body
    case SendBody(sg) => ListEncoded(e, 28, sg);
    case WriteBody(_, _, _, sg) => ListEncoded(e, 48, sg);
    case MrRegBody(_, _, _, lkey) => if lkey.Some? { KeyEncoded(e, 40, lkey.value); }
    case _ =>
  }

  lemma ResponseEncoded(e: bytes, body: Body)
    requires Framing(e, body)
    ensures ResponseLaid(e, body)
  {
    hide U16At, U32At, U64At, EncodeSgList, Put, NumberAt;
  }

  lemma ReservedEncoded(e: bytes, body: Body)
    requires Framing(e, body)
    ensures ReservedAreZero(e, body)
  {
    hide EncodeSgList, Put, Tail;
  }

  lemma EncodedHeader(m: Message)
    ensures HeaderLaid(Encode(m), Filled(m).header)
    ensures Encode(m)[1] == OpcodeByte(m.header.opcode)
  {
    hide Get, Put, U16At, U32At, U64At, EncodeBody, OpcodeByte;
    var e := Encode(m);
    var h := Filled(m).header;
    var vs := [h.version, OpcodeByte(h.opcode), h.flags, h.sessionId, h.sequence, h.wrid, h.payloadLength];
    LayoutRoundTrip(HEADER_LAYOUT, vs, EncodeBody(m.body));
    HeaderNumbers(e);
    assert Get(HEADER_LAYOUT, e)[0] == e[0] && Get(HEADER_LAYOUT, e)[1] == e[1];
  }

  lemma EncodedParts(m: Message)
    requires m.header.opcode == OpcodeOf(m.body)
    ensures Framing(Encode(m), m.body)
  {
    hide Get, Put, U16At, U32At, U64At, EncodeHeader, OpcodeByte, FixedLayout, FixedValues, LayoutSize, Tail, Numbers;
    var e := Encode(m);
    var op := OpcodeOf(m.body);
    EncodedHeader(m);
    FixedSizes(op);
    FixedValuesFit(m.body);
    LayoutRoundTrip(FixedLayout(op), FixedValues(m.body), Tail(m.body));
    RestAfterLayout(FixedLayout(op), FixedValues(m.body), Tail(m.body));
    assert e[HEADER_SIZE..] == EncodeBody(m.body);
    assert e[HEADER_SIZE..][FixedSize(op)..] == e[HEADER_SIZE + FixedSize(op)..];
    FixedNumbers(op, e);
  }

  /**
   The frame of every message, byte by byte: the header, the opcode, each payload
   field at its position, zeros in the reserved places, and nothing after it.
   */
  lemma EncodedLayout(m: Message)
    requires m.header.opcode == OpcodeOf(m.body)
    ensures Laid(Encode(m), Filled(m))
    ensures ReservedAreZero(Encode(m), m.body)
    ensures |Encode(m)| == HEADER_SIZE + PayloadSize(m.body)
  {
    hide Encode, RequestLaid, ResponseLaid, HeaderLaid, ReservedAreZero;
    EncodedHeader(m);
    EncodedParts(m);
    RequestEncoded(Encode(m), m.body);
    ResponseEncoded(Encode(m), m.body);
    ReservedEncoded(Encode(m), m.body);
  }

  // ---------------------------------------------------------------------
  // What the decoder accepts
  // ---------------------------------------------------------------------

  /** The payload is long enough for its opcode; trailing bytes and unknown flags are let through. */
  predicate PayloadReadable(b: bytes)
    requires HEADER_SIZE <= |b|
  {
    var pl := U32At(b, 20);
    match b[1]
    case 0x01 => 40 <= |b|
    case 0x02 => 40 <= |b|
    case 0x03 => true
    case 0x10 => 40 <= |b|
    case 0x11 => 40 <= |b|
    case 0x12 => 32 <= |b|
    case 0x13 => 32 <= |b|
    case 0x20 => 28 <= |b| && 28 + 16 * U16At(b, 24) <= |b|
    case 0x21 => 24 + pl <= |b|
    case 0x22 => true
    case 0x30 => 48 <= |b| && 24 <= pl && 48 + (pl - 24) / 16 * 16 <= |b|
    case 0x31 => 24 + pl <= |b|
    case 0x32 => true
    case 0x40 => 64 <= |b|
    case 0x41 => 8 <= pl && 24 + pl <= |b|
    case 0x50 => 56 <= |b|
    case 0x51 => 40 <= |b|
    case 0x60 => true
    case 0x61 => 32 <= |b|
    case 0xF0 => 34 <= |b|
    case _ => false
  }

  lemma BuildSucceeds(b: bytes, op: Opcode, pl: u32)
    requires Starts(b, op, pl)
    ensures Build(op, Numbers(op, b), pl, b[HEADER_SIZE + FixedSize(op)..]).Ok? <==> PayloadReadable(b)
  {
    hide U16At, U32At, U64At, DecodeSgList, Get, NumberAt, CodeFromValue, Fits, FixedLayout;
  }

  lemma ReadableIsComplete(b: bytes, op: Opcode)
    requires HEADER_SIZE <= |b| && b[1] == OpcodeByte(op) && PayloadReadable(b)
    ensures HEADER_SIZE + FixedSize(op) <= |b|
  {
    hide U16At, U32At;
  }

  lemma KnownOpcode(x: byte)
    ensures OpcodeFromByte(x).Some? ==> OpcodeByte(OpcodeFromByte(x).value) == x
  {
  }

  lemma UnknownIsUnreadable(b: bytes)
    requires HEADER_SIZE <= |b| && PayloadReadable(b)
    ensures OpcodeFromByte(b[1]).Some?
  {
    hide U16At, U32At;
  }

  /** The decoder accepts exactly the frames whose version, opcode and length allow it. */
  lemma DecodeSucceedsIff(b: bytes)
    ensures Decode(b).Ok? <==> HEADER_SIZE <= |b| && b[0] == 0x01 && PayloadReadable(b)
  {
    hide Get, U16At, U32At, U64At, Numbers, LayoutSize, Fits, Build, PayloadReadable, OpcodeByte, OpcodeFromByte,
         FixedSize, FixedLayout;
    if HEADER_SIZE <= |b| {
      HeaderNumbers(b);
      KnownOpcode(b[1]);
      if OpcodeFromByte(b[1]).Some? {
        var op := OpcodeFromByte(b[1]).value;
        if HEADER_SIZE + FixedSize(op) <= |b| {
          FixedNumbers(op, b);
          assert b[HEADER_SIZE..][FixedSize(op)..] == b[HEADER_SIZE + FixedSize(op)..];
          assert Starts(b, op, U32At(b, 20));
          BuildSucceeds(b, op, U32At(b, 20));
        } else if PayloadReadable(b) {
          ReadableIsComplete(b, op);
        }
      } else if PayloadReadable(b) {
        UnknownIsUnreadable(b);
      }
    }
  }
}
