/**
 One server session as a value: `handle_message` and every handler as a
 function from a session and a received message to the next session and the
 messages it sends.
 */
module SessionModel {
  import opened Core
  import opened Codec
  import opened MemoryModel

  /** Length of the registration window in clock ticks (nanoseconds). */
  const SECOND := 1_000_000_000

  datatype ServerConfig = ServerConfig(
    recvQueueDepth: u32,
    maxRegions: nat,
    maxTotalBytes: nat,
    maxOutstandingReads: u32,
    mrRegRateLimit: u32)

  datatype PendingOp =
    | NoPending
    | AwaitingSendData(wrid: u64)
    | AwaitingWriteData(wrid: u64, rkey: u32, remoteVa: u64, expectedLen: u64)
    | DiscardingSendData

  /** `Closed` also stands for a session whose receive loop has ended on an error. */
  datatype Phase = AwaitingConnect | Ready | Closed

  /** A session apart from the number its next message will carry. */
  datatype Session = Session(
    phase: Phase,
    sessionId: u32,
    pd: u32,
    maxMsgSize: u32,
    store: Store,
    pending: PendingOp,
    recvQueueDepth: u32,
    expectedRemoteSeq: Option<u32>,
    sendsSinceLastCredit: u32,
    icc: u32,
    outstandingReads: u32,
    maxOutstandingReads: u32,
    mrRegCount: u32,
    mrRegWindowStart: nat,
    mrRegRateLimit: u32)

  /** A whole session: its state and its outgoing sequence counter. */
  datatype Server = Server(session: Session, nextSeq: u32)

  /** What the outside world supplies while one message is handled. */
  datatype Env = Env(now: nat, draws: Draws)

  datatype Input = Input(msg: Message, env: Env)

  /** The next session, numbering aside, and what it sends. */
  type Effect = (Session, seq<Note>)

  function NewServer(c: ServerConfig, now: nat): Server {
    Server(NewSession(c, now), 0)
  }

  function NewSession(c: ServerConfig, now: nat): Session {
    Session(AwaitingConnect, 0, 0, DEFAULT_MAX_MSG_SIZE, NewStore(c.maxRegions, c.maxTotalBytes), NoPending,
            c.recvQueueDepth, None, 0, DEFAULT_ICC, 0, c.maxOutstandingReads, 0, now, c.mrRegRateLimit)
  }

  /** The text of a description as bytes. */
  function Ascii(s: string): (b: bytes)
    ensures |b| == |s|
  {
    seq(|s|, i requires 0 <= i < |s| => s[i] as int % 0x100)
  }

  /** Decimal digits of a number, most significant first. */
  function Decimal(n: nat): string {
    if n < 10 then [('0' as int + n) as char] else Decimal(n / 10) + [('0' as int + n % 10) as char]
  }

  // ---------------------------------------------------------------------
  // Sending
  // ---------------------------------------------------------------------

  /** One message sent in answer. */
  function Send1(s: Session, wrid: u64, body: Body): Effect {
    (s, [Note(wrid, body)])
  }

  function SendError(s: Session, code: ErrorCode, failingSeq: u32, text: string): Effect {
    Send1(s, 0, ErrorBody(code, failingSeq, Ascii(text)))
  }

  // ---------------------------------------------------------------------
  // Handlers
  // ---------------------------------------------------------------------

  /** The part of a session that only the handshake and the message filters change. */
  predicate SameParameters(s: Session, t: Session) {
    && t.phase == s.phase && t.sessionId == s.sessionId && t.pd == s.pd
    && t.maxMsgSize == s.maxMsgSize && t.expectedRemoteSeq == s.expectedRemoteSeq && t.icc == s.icc
    && t.outstandingReads == s.outstandingReads && t.maxOutstandingReads == s.maxOutstandingReads
    && t.mrRegRateLimit == s.mrRegRateLimit
  }

  /** An answer that neither completes a SEND nor returns credits. */
  predicate Plain(s: Session, e: Effect) {
    && e.0.sendsSinceLastCredit == s.sendsSinceLastCredit && e.0.icc == s.icc
    && |e.1| <= 1
    && (|e.1| == 1 ==> !e.1[0].body.CreditUpdateBody? && !e.1[0].body.RecvCompBody?)
  }

  predicate SameQueue(s: Session, t: Session) {
    t.recvQueueDepth == s.recvQueueDepth && t.pending == s.pending
  }

  predicate SameLimiter(s: Session, t: Session) {
    t.mrRegCount == s.mrRegCount && t.mrRegWindowStart == s.mrRegWindowStart
  }

  /** The bodies that start or finish a two-message operation. */
  predicate TwoPart(body: Body) {
    body.SendBody? || body.SendDataBody? || body.WriteBody? || body.WriteDataBody?
  }

  /** Opens a new one-second window when the current one is over. */
  function RollWindow(s: Session, now: nat): Session {
    if now - s.mrRegWindowStart >= SECOND then s.(mrRegCount := 0, mrRegWindowStart := now) else s
  }

  function HandleMrReg(s: Session, wrid: u64, body: Body, env: Env): (r: Effect)
    requires body.MrRegBody?
    ensures SameParameters(s, r.0)
    ensures SameQueue(s, r.0)
    ensures Plain(s, r)
    ensures |r.1| == 1 && r.1[0].wrid == wrid && r.1[0].body.MrRegAckBody?
  {
    var s1 := RollWindow(s, env.now);
    if s1.mrRegCount >= s1.mrRegRateLimit then
      Send1(s1, wrid, MrRegAckBody(body.pd, 0, 0, CodeValue(ErrInternal)))
    else
      var (store, r) := Perform(s1.store, Register(body.pd, body.accessFlags, body.regionLen, env.draws));
      var s2 := s1.(mrRegCount := s1.mrRegCount + 1, store := store);
      match r
      case Registered(lkey, rkey) => Send1(s2, wrid, MrRegAckBody(body.pd, lkey % U32_MOD, rkey, 0))
      case Failed(code) => Send1(s2, wrid, MrRegAckBody(body.pd, 0, 0, CodeValue(code)))
      case _ => (s2, [])
  }

  function HandleMrDereg(s: Session, wrid: u64, body: Body): (r: Effect)
    requires body.MrDeregBody?
    ensures SameParameters(s, r.0)
    ensures SameLimiter(s, r.0)
    ensures SameQueue(s, r.0)
    ensures Plain(s, r)
    ensures |r.1| == 1 && r.1[0].wrid == wrid && r.1[0].body.MrDeregAckBody?
  {
    var (store, r) := Perform(s.store, Deregister(body.pd, body.lkey));
    Send1(s.(store := store), wrid, MrDeregAckBody(if r.Failed? then CodeValue(r.code) else 0))
  }

  function HandleSend(s: Session, h: Header): (r: Effect)
    ensures SameParameters(s, r.0)
    ensures SameLimiter(s, r.0)
    ensures Plain(s, r)
    ensures || (r.0.pending == AwaitingSendData(h.wrid) && r.1 == [])
            || (r.0.pending == DiscardingSendData && |r.1| == 1 && r.1[0].body.ErrorBody?)
  {
    if s.recvQueueDepth == 0 then
      var (s1, out) := SendError(s, ErrRnr, h.sequence, "receiver not ready");
      (s1.(pending := DiscardingSendData), out)
    else
      (s.(recvQueueDepth := s.recvQueueDepth - 1, pending := AwaitingSendData(h.wrid)), [])
  }

  /** RECV_COMP, then CREDIT_UPDATE once a quarter of the initial credits has been consumed. */
  function CompleteSend(s: Session, wrid: u64): (r: Effect)
    ensures SameParameters(s, r.0)
    ensures SameLimiter(s, r.0)
  {
    var sends := Wrap32(s.sendsSinceLastCredit + 1);
    if sends >= s.icc / 4 then
      (s.(sendsSinceLastCredit := 0), [Note(wrid, RecvCompBody), Note(0, CreditUpdateBody(sends))])
    else
      (s.(sendsSinceLastCredit := sends), [Note(wrid, RecvCompBody)])
  }

  function HandleSendData(s: Session): (r: Effect)
    ensures SameParameters(s, r.0)
    ensures SameLimiter(s, r.0)
  {
    var s1 := s.(pending := NoPending);
    match s.pending
    case AwaitingSendData(wrid) => CompleteSend(s1, wrid)
    case DiscardingSendData => (s1, [])
    case _ => SendError(s1, ErrUnknownOpcode, 0, "unexpected SEND_DATA without preceding SEND")
  }

  function HandleWrite(s: Session, h: Header, body: Body): (r: Effect)
    requires body.WriteBody?
    ensures SameParameters(s, r.0)
    ensures SameLimiter(s, r.0)
    ensures Plain(s, r)
  {
    match Lookup(s.store, body.rkey, REMOTE_WRITE)
    case Err(code) => SendError(s, code, h.sequence, "")
    case Ok(_) => (s.(pending := AwaitingWriteData(h.wrid, body.rkey, body.remoteVa, body.length)), [])
  }

  function HandleWriteData(s: Session, data: bytes): (r: Effect)
    ensures SameParameters(s, r.0)
    ensures SameLimiter(s, r.0)
    ensures Plain(s, r)
    ensures r.0.pending == NoPending && |r.1| == 1
    ensures || (r.1[0].body.ErrorBody? && (s.pending.AwaitingWriteData? || r.1[0].body.code == ErrUnknownOpcode))
            || (s.pending.AwaitingWriteData? && r.1[0] == Note(s.pending.wrid, WriteCompBody))
  {
    var s1 := s.(pending := NoPending);
    match s.pending
    case AwaitingWriteData(wrid, rkey, va, _) =>
      var (store, r) := Perform(s1.store, WriteAt(rkey, va, data));
      if r.Failed? then SendError(s1.(store := store), r.code, 0, "")
      else Send1(s1.(store := store), wrid, WriteCompBody)
    case _ => SendError(s1, ErrUnknownOpcode, 0, "unexpected WRITE_DATA without preceding WRITE")
  }

  function HandleReadReq(s: Session, h: Header, body: Body): (r: Effect)
    requires body.ReadReqBody?
    ensures SameParameters(s, r.0)
    ensures SameLimiter(s, r.0)
    ensures SameQueue(s, r.0)
    ensures Plain(s, r)
    ensures |r.1| == 1
    ensures r.1[0].body.ErrorBody?
            || (r.1[0].wrid == h.wrid && r.1[0].body.ReadRespBody? && |r.1[0].body.data| == body.readLen)
  {
    if s.outstandingReads >= s.maxOutstandingReads then
      SendError(s, ErrRnr, h.sequence, "too many outstanding reads")
    else
      match ReadIn(s.store, body.rkey, body.remoteVa, body.readLen)
      case Bytes(data) => Send1(s, h.wrid, ReadRespBody(0, data))
      case Failed(code) => SendError(s, code, h.sequence, "")
      case _ => (s, [])
  }

  function HandleAtomicReq(s: Session, h: Header, body: Body): (r: Effect)
    requires body.AtomicReqBody?
    ensures SameParameters(s, r.0)
    ensures SameLimiter(s, r.0)
    ensures SameQueue(s, r.0)
    ensures Plain(s, r)
    ensures |r.1| == 1
    ensures r.1[0].body.ErrorBody? || (r.1[0].wrid == h.wrid && r.1[0].body.AtomicRespBody?)
  {
    if body.atomicType != ATOMIC_CAS && body.atomicType != ATOMIC_FAA then
      SendError(s, ErrUnknownOpcode, h.sequence, "invalid atomic type")
    else
      var (store, r) :=
        Perform(s.store, AtomicAt(body.rkey, body.remoteVa, body.atomicType, body.operand1, body.operand2));
      match r
      case Word(original) => Send1(s.(store := store), h.wrid, AtomicRespBody(original, 0))
      case Failed(code) => SendError(s.(store := store), code, h.sequence, "")
      case _ => (s, [])
  }

  function Dispatch(s: Session, m: Message, env: Env): (r: Effect)
    ensures SameParameters(s, r.0)
    ensures !TwoPart(m.body) ==> SameQueue(s, r.0)
    ensures !m.body.MrRegBody? ==> SameLimiter(s, r.0)
    ensures !m.body.SendDataBody? ==> Plain(s, r)
  {
    match m.body
    case MrRegBody(_, _, _, _) => HandleMrReg(s, m.header.wrid, m.body, env)
    case MrDeregBody(_, _) => HandleMrDereg(s, m.header.wrid, m.body)
    case SendBody(_) => HandleSend(s, m.header)
    case SendDataBody(_) => HandleSendData(s)
    case WriteBody(_, _, _, _) => HandleWrite(s, m.header, m.body)
    case WriteDataBody(data) => HandleWriteData(s, data)
    case ReadReqBody(_, _, _, _, _) => HandleReadReq(s, m.header, m.body)
    case AtomicReqBody(_, _, _, _, _) => HandleAtomicReq(s, m.header, m.body)
    case AckBody => (s, [])
    case _ => SendError(s, ErrUnknownOpcode, m.header.sequence, "unsupported opcode")
  }

  // ---------------------------------------------------------------------
  // The session state machine
  // ---------------------------------------------------------------------

  function HandleConnect(s: Session, m: Message): Effect {
    match m.body
    case ConnectBody(pd, _, maxMsgSize, _) =>
      if m.header.version != RDOWS_VERSION then
        var (s1, out) := SendError(s, ErrProtoVersion, m.header.sequence, "unsupported protocol version");
        (s1.(phase := Closed), out)
      else
        var agreed := if maxMsgSize <= DEFAULT_MAX_MSG_SIZE then maxMsgSize else DEFAULT_MAX_MSG_SIZE;
        var s1 := s.(sessionId := m.header.sessionId, pd := pd, maxMsgSize := agreed);
        var (s2, out) := Send1(s1, 0, ConnectAckBody(pd, 0, agreed, DEFAULT_ICC));
        (s2.(expectedRemoteSeq := Some(Wrap32(m.header.sequence + 1)), phase := Ready), out)
    case _ => (s.(phase := Closed), [])
  }

  function HandleReady(s: Session, m: Message, env: Env): Effect {
    match m.body
    case DisconnectBody => (s.(phase := Closed), [])
    case CreditUpdateBody(_) => (s, [])
    case _ => Dispatch(s, m, env)
  }

  predicate Oversize(s: Session, m: Message) {
    s.phase == Ready && m.header.payloadLength > s.maxMsgSize
  }

  predicate Gap(s: Session, m: Message) {
    s.expectedRemoteSeq.Some? && m.header.sequence != s.expectedRemoteSeq.value
  }

  function GapText(s: Session, m: Message): string
    requires Gap(s, m)
  {
    "expected seq " + Decimal(s.expectedRemoteSeq.value) + ", got " + Decimal(m.header.sequence)
  }

  /** The message passes the size and sequence checks of a ready session. */
  predicate Processed(s: Session, m: Message) {
    s.phase == Ready && !Oversize(s, m) && !Gap(s, m)
  }

  function Advance(s: Session, m: Message): Session {
    s.(expectedRemoteSeq := Some(Wrap32(m.header.sequence + 1)))
  }

  /** `handle_message` without the numbering of what it sends. */
  function React(s: Session, m: Message, env: Env): Effect {
    if Oversize(s, m) then
      SendError(s, ErrPayloadSize, m.header.sequence, "payload exceeds negotiated maximum message size")
    else
      match s.phase
      case AwaitingConnect => HandleConnect(s, m)
      case Ready =>
        if Gap(s, m) then SendError(s, ErrSeqGap, m.header.sequence, GapText(s, m))
        else HandleReady(Advance(s, m), m, env)
      case Closed => (s, [])
  }

  // ---------------------------------------------------------------------
  // Numbering and runs
  // ---------------------------------------------------------------------

  /** Numbers the messages of an effect, from the counter on. */
  function Numbered(nextSeq: u32, e: Effect): (Server, seq<Message>) {
    (Server(e.0, Wrap32(nextSeq + |e.1|)), Stamp(e.0.sessionId, nextSeq, e.1))
  }

  function HandleMessage(s: Server, m: Message, env: Env): (Server, seq<Message>) {
    Numbered(s.nextSeq, React(s.session, m, env))
  }

  /** The receive loop: the session and all messages it sent, after a sequence of received messages. */
  function HandleAll(s: Server, ins: seq<Input>): (Server, seq<Message>) {
    if ins == [] then (s, [])
    else
      var (s1, out) := HandleAll(s, ins[..|ins| - 1]);
      var last := ins[|ins| - 1];
      var (s2, more) := HandleMessage(s1, last.msg, last.env);
      (s2, out + more)
  }

  /** The same loop without numbering. */
  function Run(s: Session, ins: seq<Input>): Effect {
    if ins == [] then (s, [])
    else
      var (s1, out) := Run(s, ins[..|ins| - 1]);
      var last := ins[|ins| - 1];
      var (s2, more) := React(s1, last.msg, last.env);
      (s2, out + more)
  }

  /** A run of messages is a run of its first part followed by a run of the rest. */
  lemma {:induction false} RunConcat(s: Session, a: seq<Input>, b: seq<Input>)
    ensures var (s1, o1) := Run(s, a);
            var (s2, o2) := Run(s1, b);
            Run(s, a + b) == (s2, o1 + o2)
  {
    hide React;
    if b == [] {
      assert a + b == a;
      assert Run(s, a).1 + [] == Run(s, a).1;
    } else {
      var n := |b| - 1;
      RunConcat(s, a, b[..n]);
      assert (a + b)[..|a + b| - 1] == a + b[..n];
      var (s1, o1) := Run(s, a);
      var (s2, o2) := Run(s1, b[..n]);
      var more := React(s2, b[n].msg, b[n].env).1;
      assert (o1 + o2) + more == o1 + (o2 + more);
    }
  }

  /** After the handshake the session id is fixed. */
  lemma ReactKeepsSessionId(s: Session, m: Message, env: Env)
    requires s.phase != AwaitingConnect
    ensures React(s, m, env).0.sessionId == s.sessionId && React(s, m, env).0.phase != AwaitingConnect
  {
    hide Dispatch, Ascii;
  }

  /** The receive loop is the unnumbered run with its whole output numbered consecutively modulo 2^32. */
  lemma {:induction false} HandleAllIsNumberedRun(s: Server, ins: seq<Input>)
    requires s.session.phase != AwaitingConnect
    ensures HandleAll(s, ins) == Numbered(s.nextSeq, Run(s.session, ins))
    ensures Run(s.session, ins).0.phase != AwaitingConnect
    ensures Run(s.session, ins).0.sessionId == s.session.sessionId
  {
    hide React;
    if ins != [] {
      var n := |ins| - 1;
      var last := ins[n];
      HandleAllIsNumberedRun(s, ins[..n]);
      var (s1, o1) := Run(s.session, ins[..n]);
      ReactKeepsSessionId(s1, last.msg, last.env);
      StampConcat(s.session.sessionId, s.nextSeq, o1, React(s1, last.msg, last.env).1);
    }
  }

  // ---------------------------------------------------------------------
  // Frames
  // ---------------------------------------------------------------------

  /** One incoming binary frame and what the world supplies while it is handled. */
  datatype Frame = Frame(data: bytes, env: Env)

  /** A frame that does not decode ends the loop, as does a closed session. */
  function ServeFrame(s: Server, f: Frame): (Server, seq<bytes>) {
    if s.session.phase == Closed then (s, [])
    else
      match Decode(f.data)
      case Err(_) => (s.(session := s.session.(phase := Closed)), [])
      case Ok(m) => var (t, out) := HandleMessage(s, m, f.env); (t, EncodeAll(out))
  }

  function ServeAll(s: Server, frames: seq<Frame>): (Server, seq<bytes>) {
    if frames == [] then (s, [])
    else
      var (s1, out) := ServeAll(s, frames[..|frames| - 1]);
      var (s2, more) := ServeFrame(s1, frames[|frames| - 1]);
      (s2, out + more)
  }

  lemma NothingServed(s: Server, frames: seq<Frame>)
    ensures ServeAll(s, frames[..0]) == (s, [])
  {
    hide ServeFrame;
  }

  lemma ServeNext(s: Server, frames: seq<Frame>, i: nat)
    requires i < |frames|
    ensures var (s1, out) := ServeAll(s, frames[..i]);
            var (s2, more) := ServeFrame(s1, frames[i]);
            ServeAll(s, frames[..i + 1]) == (s2, out + more)
  {
    hide ServeFrame;
    assert frames[..i + 1][..i] == frames[..i];
  }

  lemma {:induction false} ClosedServesNothing(s: Server, a: seq<Frame>, b: seq<Frame>)
    requires ServeAll(s, a).0.session.phase == Closed
    ensures ServeAll(s, a + b) == ServeAll(s, a)
  {
    hide Decode, HandleMessage;
    if b == [] {
      assert a + b == a;
    } else {
      ClosedServesNothing(s, a, b[..|b| - 1]);
      assert (a + b)[..|a + b| - 1] == a + b[..|b| - 1];
      assert ServeAll(s, a).1 + [] == ServeAll(s, a).1;
    }
  }

  /** As long as every frame decodes, the loop over frames is the loop over messages. */
  lemma {:induction false} ServeAllIsHandleAll(s: Server, frames: seq<Frame>, ins: seq<Input>)
    requires |ins| == |frames|
    requires forall i :: 0 <= i < |ins| ==> Decode(frames[i].data) == Ok(ins[i].msg) && frames[i].env == ins[i].env
    ensures ServeAll(s, frames) == (HandleAll(s, ins).0, EncodeAll(HandleAll(s, ins).1))
  {
    hide Decode, Encode, HandleMessage;
    if ins != [] {
      var n := |ins| - 1;
      ServeAllIsHandleAll(s, frames[..n], ins[..n]);
      var (s1, out) := HandleAll(s, ins[..n]);
      var more := HandleMessage(s1, ins[n].msg, ins[n].env).1;
      EncodeAllConcat(out, more);
      ClosedAnswersNothing(s1, ins[n].msg, ins[n].env);
    }
  }

  lemma ClosedAnswersNothing(s: Server, m: Message, env: Env)
    ensures s.session.phase == Closed ==> HandleMessage(s, m, env) == (s, []) && EncodeAll([]) == []
  {
    hide HandleConnect, HandleReady;
    assert Stamp(s.session.sessionId, s.nextSeq, []) == [];
  }

  /** A frame that decodes is handled as its message. */
  lemma ServeFrameHandles(s: Server, f: Frame, m: Message)
    requires Decode(f.data) == Ok(m)
    ensures ServeFrame(s, f) == (HandleMessage(s, m, f.env).0, EncodeAll(HandleMessage(s, m, f.env).1))
  {
    hide Decode, HandleMessage, EncodeAll;
    ClosedAnswersNothing(s, m, f.env);
  }
}
