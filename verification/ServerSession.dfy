/**
 A server session as it runs: one object whose fields the handlers update in
 place, a memory store it owns, and the sink it writes frames to. Each method
 equals the step of SessionModel with the same name.
 */
module ServerSession {
  import opened Core
  import opened Codec
  import opened MemoryModel
  import opened ServerMemory
  import opened SessionModel
  import opened SessionRuns
  import opened SessionFrames

  // ---------------------------------------------------------------------
  // The session object
  // ---------------------------------------------------------------------

  class Session {
    var state: Phase
    var sessionId: u32
    var pd: u32
    var maxMsgSize: u32
    var nextSeq: u32
    const memoryStore: MemoryStore
    var pendingOp: PendingOp
    var recvQueueDepth: u32
    var expectedRemoteSeq: Option<u32>
    var sendsSinceLastCredit: u32
    var icc: u32
    var outstandingReads: u32
    const maxOutstandingReads: u32
    var mrRegCount: u32
    var mrRegWindowStart: nat
    const mrRegRateLimit: u32
    var sink: seq<bytes>

    function State(): SessionModel.Session
      reads this, memoryStore
    {
      SessionModel.Session(state, sessionId, pd, maxMsgSize, memoryStore.View(), pendingOp, recvQueueDepth,
                           expectedRemoteSeq, sendsSinceLastCredit, icc, outstandingReads, maxOutstandingReads,
                           mrRegCount, mrRegWindowStart, mrRegRateLimit)
    }

    function View(): Server
      reads this, memoryStore
    {
      Server(State(), nextSeq)
    }

    /** The object, which was to number its next message `seq0` and had sent `sent`, shows `effect`. */
    ghost predicate Took(seq0: u32, sent: seq<bytes>, effect: Effect)
      reads this, memoryStore
    {
      && View() == Numbered(seq0, effect).0
      && sink == sent + EncodeAll(Numbered(seq0, effect).1)
    }

    constructor (config: ServerConfig, now: nat)
      ensures View() == NewServer(config, now) && sink == []
      ensures fresh(memoryStore)
    {
      state, sessionId, pd, maxMsgSize, nextSeq := AwaitingConnect, 0, 0, DEFAULT_MAX_MSG_SIZE, 0;
      memoryStore := new MemoryStore(config.maxRegions, config.maxTotalBytes);
      pendingOp, recvQueueDepth, expectedRemoteSeq := NoPending, config.recvQueueDepth, None;
      sendsSinceLastCredit, icc, outstandingReads := 0, DEFAULT_ICC, 0;
      maxOutstandingReads := config.maxOutstandingReads;
      mrRegCount, mrRegWindowStart, mrRegRateLimit := 0, now, config.mrRegRateLimit;
      sink := [];
    }

    /** `next_header` followed by `send_message`. */
    method Transmit(wrid: u64, body: Body)
      modifies this`nextSeq, this`sink
      ensures Took(old(nextSeq), old(sink), (old(State()), [Note(wrid, body)]))
    {
      hide Encode, EncodeAll, Stamp, NewMessage;
      var seq0 := nextSeq;
      nextSeq := Wrap32(nextSeq + 1);
      var msg := NewMessage(sessionId, seq0, wrid, body);
      sink := sink + [Encode(msg)];
      OneFrame(sessionId, seq0, Note(wrid, body));
    }

    method TransmitError(code: ErrorCode, failingSeq: u32, text: string)
      modifies this`nextSeq, this`sink
      ensures Took(old(nextSeq), old(sink), SendError(old(State()), code, failingSeq, text))
    {
      Transmit(0, ErrorBody(code, failingSeq, Ascii(text)));
    }

    /** Nothing was sent. */
    ghost method Quiet(seq0: u32, sent: seq<bytes>)
      requires nextSeq == seq0 && sink == sent
      ensures Took(seq0, sent, (State(), []))
    {
      assert Stamp(sessionId, seq0, []) == [];
      assert EncodeAll([]) == [] && sent + [] == sent;
    }

    method HandleMrReg(wrid: u64, body: Body, env: Env)
      requires body.MrRegBody?
      modifies this, memoryStore
      ensures Took(old(nextSeq), old(sink), SessionModel.HandleMrReg(old(State()), wrid, body, env))
    {
      hide Perform, Took;
      if env.now - mrRegWindowStart >= SECOND {
        mrRegCount := 0;
        mrRegWindowStart := env.now;
      }
      if mrRegCount >= mrRegRateLimit {
        Transmit(wrid, MrRegAckBody(body.pd, 0, 0, CodeValue(ErrInternal)));
        return;
      }
      mrRegCount := mrRegCount + 1;
      var r := memoryStore.Register(body.pd, body.accessFlags, body.regionLen, env.draws);
      if r.Registered? {
        Transmit(wrid, MrRegAckBody(body.pd, r.lkey % U32_MOD, r.rkey, 0));
      } else {
        Transmit(wrid, MrRegAckBody(body.pd, 0, 0, CodeValue(r.code)));
      }
    }

    method HandleMrDereg(wrid: u64, body: Body)
      requires body.MrDeregBody?
      modifies this, memoryStore
      ensures Took(old(nextSeq), old(sink), SessionModel.HandleMrDereg(old(State()), wrid, body))
    {
      hide Perform, Took;
      var r := memoryStore.Deregister(body.pd, body.lkey);
      var status := if r.Failed? then CodeValue(r.code) else 0;
      Transmit(wrid, MrDeregAckBody(status));
    }

    method HandleSend(h: Header)
      modifies this
      ensures Took(old(nextSeq), old(sink), SessionModel.HandleSend(old(State()), h))
    {
      if recvQueueDepth == 0 {
        TransmitError(ErrRnr, h.sequence, "receiver not ready");
        pendingOp := DiscardingSendData;
        return;
      }
      recvQueueDepth := recvQueueDepth - 1;
      pendingOp := AwaitingSendData(h.wrid);
      Quiet(nextSeq, sink);
    }

    /** RECV_COMP, and credits back once a quarter of the initial ones has been consumed. */
    method CompleteSend(wrid: u64)
      modifies this
      ensures Took(old(nextSeq), old(sink), SessionModel.CompleteSend(old(State()), wrid))
    {
      hide EncodeAll, Stamp;
      ghost var (seq0, sent) := (nextSeq, sink);
      Transmit(wrid, RecvCompBody);
      sendsSinceLastCredit := Wrap32(sendsSinceLastCredit + 1);
      if sendsSinceLastCredit >= icc / 4 {
        var increment := sendsSinceLastCredit;
        Transmit(0, CreditUpdateBody(increment));
        sendsSinceLastCredit := 0;
        TwoFrames(sessionId, seq0, Note(wrid, RecvCompBody), Note(0, CreditUpdateBody(increment)));
      }
    }

    method HandleSendData()
      modifies this
      ensures Took(old(nextSeq), old(sink), SessionModel.HandleSendData(old(State())))
    {
      hide Took, SessionModel.CompleteSend;
      var pending := pendingOp;
      pendingOp := NoPending;
      match pending {
        case AwaitingSendData(wrid) =>
          CompleteSend(wrid);
        case DiscardingSendData =>
          Quiet(nextSeq, sink);
        case _ =>
          TransmitError(ErrUnknownOpcode, 0, "unexpected SEND_DATA without preceding SEND");
      }
    }

    method HandleWrite(h: Header, body: Body)
      requires body.WriteBody?
      modifies this
      ensures Took(old(nextSeq), old(sink), SessionModel.HandleWrite(old(State()), h, body))
    {
      hide Lookup, Took;
      var found := memoryStore.ValidateRkey(body.rkey, REMOTE_WRITE);
      if found.Err? {
        TransmitError(found.error, h.sequence, "");
        return;
      }
      pendingOp := AwaitingWriteData(h.wrid, body.rkey, body.remoteVa, body.length);
      Quiet(nextSeq, sink);
    }

    method HandleWriteData(data: bytes)
      modifies this, memoryStore
      ensures Took(old(nextSeq), old(sink), SessionModel.HandleWriteData(old(State()), data))
    {
      hide Perform, Took;
      var pending := pendingOp;
      pendingOp := NoPending;
      if !pending.AwaitingWriteData? {
        TransmitError(ErrUnknownOpcode, 0, "unexpected WRITE_DATA without preceding WRITE");
        return;
      }
      var r := memoryStore.WriteRegion(pending.rkey, pending.remoteVa, data);
      if r.Failed? {
        TransmitError(r.code, 0, "");
        return;
      }
      Transmit(pending.wrid, WriteCompBody);
    }

    method HandleReadReq(h: Header, body: Body)
      requires body.ReadReqBody?
      modifies this
      ensures Took(old(nextSeq), old(sink), SessionModel.HandleReadReq(old(State()), h, body))
    {
      hide ReadIn;
      if outstandingReads >= maxOutstandingReads {
        TransmitError(ErrRnr, h.sequence, "too many outstanding reads");
        return;
      }
      outstandingReads := outstandingReads + 1;
      var r := memoryStore.ReadRegion(body.rkey, body.remoteVa, body.readLen);
      if r.Failed? {
        outstandingReads := outstandingReads - 1;
        TransmitError(r.code, h.sequence, "");
        return;
      }
      Transmit(h.wrid, ReadRespBody(0, r.data));
      outstandingReads := outstandingReads - 1;
    }

    method HandleAtomicReq(h: Header, body: Body)
      requires body.AtomicReqBody?
      modifies this, memoryStore
      ensures Took(old(nextSeq), old(sink), SessionModel.HandleAtomicReq(old(State()), h, body))
    {
      hide Perform, Took;
      if body.atomicType != ATOMIC_CAS && body.atomicType != ATOMIC_FAA {
        TransmitError(ErrUnknownOpcode, h.sequence, "invalid atomic type");
        return;
      }
      var r := memoryStore.AtomicOp(body.rkey, body.remoteVa, body.atomicType, body.operand1, body.operand2);
      if r.Word? {
        Transmit(h.wrid, AtomicRespBody(r.value, 0));
      } else {
        TransmitError(r.code, h.sequence, "");
      }
    }

    method Dispatch(m: Message, env: Env)
      modifies this, memoryStore
      ensures Took(old(nextSeq), old(sink), SessionModel.Dispatch(old(State()), m, env))
    {
      hide Took, SessionModel.HandleMrReg, SessionModel.HandleMrDereg, SessionModel.HandleSend,
           SessionModel.HandleSendData, SessionModel.HandleWrite, SessionModel.HandleWriteData,
           SessionModel.HandleReadReq, SessionModel.HandleAtomicReq;
      match m.body {
        case MrRegBody(_, _, _, _) => HandleMrReg(m.header.wrid, m.body, env);
        case MrDeregBody(_, _) => HandleMrDereg(m.header.wrid, m.body);
        case SendBody(_) => HandleSend(m.header);
        case SendDataBody(_) => HandleSendData();
        case WriteBody(_, _, _, _) => HandleWrite(m.header, m.body);
        case WriteDataBody(data) => HandleWriteData(data);
        case ReadReqBody(_, _, _, _, _) => HandleReadReq(m.header, m.body);
        case AtomicReqBody(_, _, _, _, _) => HandleAtomicReq(m.header, m.body);
        case AckBody => Quiet(nextSeq, sink);
        case _ => TransmitError(ErrUnknownOpcode, m.header.sequence, "unsupported opcode");
      }
    }

    method HandleConnect(m: Message)
      modifies this
      ensures Took(old(nextSeq), old(sink), SessionModel.HandleConnect(old(State()), m))
    {
      hide EncodeAll, Stamp, Ascii, Wrap32;
      if !m.body.ConnectBody? {
        state := Closed;
        Quiet(nextSeq, sink);
      } else if m.header.version != RDOWS_VERSION {
        TransmitError(ErrProtoVersion, m.header.sequence, "unsupported protocol version");
        state := Closed;
      } else {
        sessionId := m.header.sessionId;
        pd := m.body.pd;
        maxMsgSize := if m.body.maxMsgSize <= DEFAULT_MAX_MSG_SIZE then m.body.maxMsgSize else DEFAULT_MAX_MSG_SIZE;
        Transmit(0, ConnectAckBody(pd, 0, maxMsgSize, DEFAULT_ICC));
        expectedRemoteSeq := Some(Wrap32(m.header.sequence + 1));
        state := Ready;
      }
    }

    method HandleReady(m: Message, env: Env)
      modifies this, memoryStore
      ensures Took(old(nextSeq), old(sink), SessionModel.HandleReady(old(State()), m, env))
    {
      hide Took, SessionModel.Dispatch;
      match m.body {
        case DisconnectBody =>
          state := Closed;
          Quiet(nextSeq, sink);
        case CreditUpdateBody(_) =>
          Quiet(nextSeq, sink);
        case _ =>
          Dispatch(m, env);
      }
    }

    method HandleMessage(m: Message, env: Env)
      modifies this, memoryStore
      ensures View() == old(SessionModel.HandleMessage(View(), m, env).0)
      ensures sink == old(sink) + old(EncodeAll(SessionModel.HandleMessage(View(), m, env).1))
    {
      hide SessionModel.HandleConnect, SessionModel.HandleReady, SendError, EncodeAll, Stamp;
      if state == Ready && m.header.payloadLength > maxMsgSize {
        TransmitError(ErrPayloadSize, m.header.sequence, "payload exceeds negotiated maximum message size");
        return;
      }
      match state {
        case AwaitingConnect =>
          HandleConnect(m);
        case Ready =>
          if expectedRemoteSeq.Some? && m.header.sequence != expectedRemoteSeq.value {
            var text := "expected seq " + Decimal(expectedRemoteSeq.value) + ", got " + Decimal(m.header.sequence);
            TransmitError(ErrSeqGap, m.header.sequence, text);
            return;
          }
          expectedRemoteSeq := Some(Wrap32(m.header.sequence + 1));
          HandleReady(m, env);
        case Closed =>
          Quiet(nextSeq, sink);
      }
    }

    /** The receive loop: decode, handle, stop when the session closes or a frame does not decode. */
    method ReceiveLoop(frames: seq<Frame>)
      modifies this, memoryStore
      ensures View() == old(ServeAll(View(), frames).0)
      ensures sink == old(sink) + old(ServeAll(View(), frames).1)
    {
      hide SessionModel.HandleMessage, Decode, EncodeAll, ServeAll;
      ghost var (start, sent) := (View(), sink);
      assert ServeAll(start, frames[..0]) == (start, []) && sent + [] == sent by { NothingServed(start, frames); }
      var i := 0;
      while i < |frames|
        invariant 0 <= i <= |frames|
        invariant View() == ServeAll(start, frames[..i]).0
        invariant sink == sent + ServeAll(start, frames[..i]).1
      {
        ghost var (s1, out) := ServeAll(start, frames[..i]);
        ServeNext(start, frames, i);
        var decoded := Decode(frames[i].data);
        i := i + 1;
        if decoded.Err? {
          state := Closed;
          assert out + [] == out;
          break;
        }
        ClosedAnswersNothing(View(), decoded.value, frames[i - 1].env);
        HandleMessage(decoded.value, frames[i - 1].env);
        if state == Closed {
          break;
        }
      }
      assert frames[..i] + frames[i..] == frames;
      if i < |frames| {
        ClosedServesNothing(start, frames[..i], frames[i..]);
      } else {
        assert frames[..i] == frames;
      }
    }
  }

  /**
   `run_session`: a fresh session that runs the receive loop over whatever
   frames arrive. Its frames decode with consecutive numbers, its store is
   sound, and its credits and receive queue are accounted for.
   */
  method RunSession(config: ServerConfig, now: nat, frames: seq<Frame>) returns (session: Session, sent: seq<bytes>)
    ensures (session.View(), sent) == ServeAll(NewServer(config, now), frames)
    ensures MemoryModel.Valid(session.memoryStore.View()) && session.nextSeq == Wrap32(|sent|)
    ensures var notes := Run(NewSession(config, now), Accepted(frames)).1;
            && |sent| == |notes|
            && session.sendsSinceLastCredit + Increments(notes) == RecvComps(notes)
            && config.recvQueueDepth
               == session.recvQueueDepth + RecvComps(notes) + PendingSends(session.State())
                  + Dropped(NewSession(config, now), Accepted(frames))
            && ((forall k :: 0 <= k < |Accepted(frames)| ==>
                   SmallRead(config.maxTotalBytes, Accepted(frames)[k].msg.body)) ==>
                  forall i :: 0 <= i < |sent| ==> SentAs(sent[i], i, notes[i]))
  {
    hide ServeAll, Accepted, Run, Increments, RecvComps, Dropped, Decode, MemoryModel.Valid, SmallRead;
    session := new Session(config, now);
    session.ReceiveLoop(frames);
    sent := session.sink;
    assert [] + ServeAll(NewServer(config, now), frames).1 == ServeAll(NewServer(config, now), frames).1;
    FreshSessionLaws(config, now, frames);
    if forall k :: 0 <= k < |Accepted(frames)| ==> SmallRead(config.maxTotalBytes, Accepted(frames)[k].msg.body) {
      forall i | 0 <= i < |sent|
        ensures SentAs(sent[i], i, Run(NewSession(config, now), Accepted(frames)).1[i])
      {
        FreshFramesDecode(config, now, frames, i);
      }
    }
  }
}
