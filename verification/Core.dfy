/**
 Wire-level vocabulary of RDoWS: fixed-width integers, opcodes, error codes,
 the frame header and the twenty message bodies.
 */
module Core {

  type byte = x: int | 0 <= x < 0x100
  type u16 = x: int | 0 <= x < 0x1_0000
  type u32 = x: int | 0 <= x < 0x1_0000_0000
  type u64 = x: int | 0 <= x < 0x1_0000_0000_0000_0000
  type bytes = seq<byte>

  const U32_MOD := 0x1_0000_0000
  const U64_MOD := 0x1_0000_0000_0000_0000

  const RDOWS_VERSION: byte := 0x01
  const HEADER_SIZE := 24
  const DEFAULT_MAX_MSG_SIZE: u32 := 16 * 1024 * 1024
  const DEFAULT_ICC: u32 := 65535

  datatype Option<+T> = None | Some(value: T)

  datatype Result<+T, +E> = Ok(value: T) | Err(error: E)

  /** `u32::wrapping_add` */
  function Wrap32(x: nat): u32 {
    x % U32_MOD
  }

  datatype Opcode =
    | Connect | ConnectAck | Disconnect
    | MrReg | MrRegAck | MrDereg | MrDeregAck
    | Send | SendData | RecvComp
    | Write | WriteData | WriteComp
    | ReadReq | ReadResp
    | AtomicReq | AtomicResp
    | Ack | CreditUpdate | Error

  datatype ErrorCode =
    | Success | ErrProtoVersion | ErrUnknownOpcode | ErrInvalidPd | ErrInvalidLkey
    | ErrInvalidMkey | ErrAccessDenied | ErrBounds | ErrAlignment | ErrPayloadSize
    | ErrRnr | ErrCqOverflow | ErrSeqGap | ErrTimeout | ErrInternal

  datatype Header = Header(
    version: byte,
    opcode: Opcode,
    flags: u16,
    sessionId: u32,
    sequence: u32,
    wrid: u64,
    payloadLength: u32)

  datatype SgEntry = SgEntry(lkey: u32, offset: u64, length: u32)

  /** Descriptions are byte strings; lossy UTF-8 decoding is the identity on the valid ones. */
  datatype Body =
    | ConnectBody(pd: u32, capabilityFlags: u32, maxMsgSize: u32, icc: u32)
    | ConnectAckBody(pd: u32, capabilityFlags: u32, maxMsgSize: u32, icc: u32)
    | DisconnectBody
    | MrRegBody(pd: u32, accessFlags: u32, regionLen: u64, suggestedLkey: Option<u32>)
    | MrRegAckBody(pd: u32, lkey: u32, rkey: u32, status: u16)
    | MrDeregBody(pd: u32, lkey: u32)
    | MrDeregAckBody(status: u16)
    | SendBody(sgList: seq<SgEntry>)
    | SendDataBody(data: bytes)
    | RecvCompBody
    | WriteBody(rkey: u32, remoteVa: u64, length: u64, sgList: seq<SgEntry>)
    | WriteDataBody(data: bytes)
    | WriteCompBody
    | ReadReqBody(rkey: u32, remoteVa: u64, readLen: u64, localLkey: u32, localVa: u64)
    | ReadRespBody(fragmentOffset: u64, data: bytes)
    | AtomicReqBody(rkey: u32, atomicType: byte, remoteVa: u64, operand1: u64, operand2: u64)
    | AtomicRespBody(originalValue: u64, status: u16)
    | AckBody
    | CreditUpdateBody(creditIncrement: u32)
    | ErrorBody(code: ErrorCode, failingSeq: u32, description: bytes)

  datatype Message = Message(header: Header, body: Body)

  /** The opcode that belongs to a body. */
  function OpcodeOf(body: Body): Opcode {
    match body
    case ConnectBody(_, _, _, _) => Connect
    case ConnectAckBody(_, _, _, _) => ConnectAck
    case DisconnectBody => Disconnect
    case MrRegBody(_, _, _, _) => MrReg
    case MrRegAckBody(_, _, _, _) => MrRegAck
    case MrDeregBody(_, _) => MrDereg
    case MrDeregAckBody(_) => MrDeregAck
    case SendBody(_) => Send
    case SendDataBody(_) => SendData
    case RecvCompBody => RecvComp
    case WriteBody(_, _, _, _) => Write
    case WriteDataBody(_) => WriteData
    case WriteCompBody => WriteComp
    case ReadReqBody(_, _, _, _, _) => ReadReq
    case ReadRespBody(_, _) => ReadResp
    case AtomicReqBody(_, _, _, _, _) => AtomicReq
    case AtomicRespBody(_, _) => AtomicResp
    case AckBody => Ack
    case CreditUpdateBody(_) => CreditUpdate
    case ErrorBody(_, _, _) => Error
  }

  /** `RdowsHeader::new`, with the opcode of the body that follows it. */
  function NewMessage(sessionId: u32, sequence: u32, wrid: u64, body: Body): Message {
    Message(Header(RDOWS_VERSION, OpcodeOf(body), 0, sessionId, sequence, wrid, 0), body)
  }

  function OpcodeByte(op: Opcode): byte {
    match op
    case Connect => 0x01
    case ConnectAck => 0x02
    case Disconnect => 0x03
    case MrReg => 0x10
    case MrRegAck => 0x11
    case MrDereg => 0x12
    case MrDeregAck => 0x13
    case Send => 0x20
    case SendData => 0x21
    case RecvComp => 0x22
    case Write => 0x30
    case WriteData => 0x31
    case WriteComp => 0x32
    case ReadReq => 0x40
    case ReadResp => 0x41
    case AtomicReq => 0x50
    case AtomicResp => 0x51
    case Ack => 0x60
    case CreditUpdate => 0x61
    case Error => 0xF0
  }

  function OpcodeFromByte(b: byte): Option<Opcode> {
    match b
    case 0x01 => Some(Connect)
    case 0x02 => Some(ConnectAck)
    case 0x03 => Some(Disconnect)
    case 0x10 => Some(MrReg)
    case 0x11 => Some(MrRegAck)
    case 0x12 => Some(MrDereg)
    case 0x13 => Some(MrDeregAck)
    case 0x20 => Some(Send)
    case 0x21 => Some(SendData)
    case 0x22 => Some(RecvComp)
    case 0x30 => Some(Write)
    case 0x31 => Some(WriteData)
    case 0x32 => Some(WriteComp)
    case 0x40 => Some(ReadReq)
    case 0x41 => Some(ReadResp)
    case 0x50 => Some(AtomicReq)
    case 0x51 => Some(AtomicResp)
    case 0x60 => Some(Ack)
    case 0x61 => Some(CreditUpdate)
    case 0xF0 => Some(Error)
    case _ => None
  }

  function CodeValue(c: ErrorCode): u16 {
    match c
    case Success => 0x0000
    case ErrProtoVersion => 0x0001
    case ErrUnknownOpcode => 0x0002
    case ErrInvalidPd => 0x0003
    case ErrInvalidLkey => 0x0004
    case ErrInvalidMkey => 0x0005
    case ErrAccessDenied => 0x0006
    case ErrBounds => 0x0007
    case ErrAlignment => 0x0008
    case ErrPayloadSize => 0x0009
    case ErrRnr => 0x0010
    case ErrCqOverflow => 0x0020
    case ErrSeqGap => 0x0030
    case ErrTimeout => 0x0040
    case ErrInternal => 0xFFFF
  }

  /** `ErrorCode::try_from(v).unwrap_or(ErrInternal)` */
  function CodeFromValue(v: u16): ErrorCode {
    match v
    case 0x0000 => Success
    case 0x0001 => ErrProtoVersion
    case 0x0002 => ErrUnknownOpcode
    case 0x0003 => ErrInvalidPd
    case 0x0004 => ErrInvalidLkey
    case 0x0005 => ErrInvalidMkey
    case 0x0006 => ErrAccessDenied
    case 0x0007 => ErrBounds
    case 0x0008 => ErrAlignment
    case 0x0009 => ErrPayloadSize
    case 0x0010 => ErrRnr
    case 0x0020 => ErrCqOverflow
    case 0x0030 => ErrSeqGap
    case 0x0040 => ErrTimeout
    case _ => ErrInternal
  }

  /** Sequence slice helper used by every region copy: `s[at..at+|d|] := d`. */
  function Splice(s: bytes, at: nat, d: bytes): (r: bytes)
    requires at + |d| <= |s|
    ensures |r| == |s|
    ensures forall i :: 0 <= i < |s| ==> r[i] == if at <= i < at + |d| then d[i - at] else s[i]
  {
    s[..at] + d + s[at + |d|..]
  }

  function Zeros(n: nat): (r: bytes)
    ensures |r| == n && forall i :: 0 <= i < n ==> r[i] == 0
  {
    seq(n, _ => 0)
  }

  /** A message before `next_header` has numbered it. */
  datatype Note = Note(wrid: u64, body: Body)

  /** Gives consecutive sequence numbers from `seq0` to the messages of an answer. */
  function Stamp(sessionId: u32, seq0: nat, notes: seq<Note>): (out: seq<Message>)
    ensures |out| == |notes|
  {
    seq(|notes|, i requires 0 <= i < |notes| =>
          NewMessage(sessionId, Wrap32(seq0 + i), notes[i].wrid, notes[i].body))
  }

  lemma WrapTwice(x: nat, y: nat)
    ensures Wrap32(Wrap32(x) + y) == Wrap32(x + y)
  {
  }

  lemma StampConcat(sessionId: u32, seq0: u32, a: seq<Note>, b: seq<Note>)
    ensures Stamp(sessionId, seq0, a) + Stamp(sessionId, Wrap32(seq0 + |a|), b) == Stamp(sessionId, seq0, a + b)
    ensures Wrap32(Wrap32(seq0 + |a|) + |b|) == Wrap32(seq0 + |a + b|)
  {
    hide Wrap32;
    var lhs := Stamp(sessionId, seq0, a) + Stamp(sessionId, Wrap32(seq0 + |a|), b);
    var rhs := Stamp(sessionId, seq0, a + b);
    forall i | 0 <= i < |rhs|
      ensures lhs[i] == rhs[i]
    {
      if i >= |a| {
        WrapTwice(seq0 + |a|, i - |a|);
      }
    }
    WrapTwice(seq0 + |a|, |b|);
  }
}
