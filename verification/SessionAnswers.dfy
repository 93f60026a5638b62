/**
 The rest of what a session answers: the handshake and the size limit it
 agrees on, the end of a session, the messages a session does not serve, and
 which request an ERROR names.
 */
module SessionAnswers {
  import opened Core
  import opened Codec
  import opened MemoryModel
  import opened SessionModel
  import opened SessionRuns

  // ---------------------------------------------------------------------
  // The handshake
  // ---------------------------------------------------------------------

  /** What a CONNECT of the right version leads to. */
  lemma ConnectOpens(s: Session, m: Message, env: Env)
    requires s.phase == AwaitingConnect && m.body.ConnectBody? && m.header.version == 0x01
    ensures var (t, out) := React(s, m, env);
            && t.phase == Ready && t.sessionId == m.header.sessionId && t.pd == m.body.pd
            && t.maxMsgSize <= m.body.maxMsgSize && t.maxMsgSize <= 0x100_0000
            && (t.maxMsgSize == m.body.maxMsgSize || t.maxMsgSize == 0x100_0000)
            && t.expectedRemoteSeq == Some(Wrap32(m.header.sequence + 1))
            && out == [Note(0, ConnectAckBody(m.body.pd, 0, t.maxMsgSize, 65535))]
  {
  }

  /** Anything else in place of CONNECT ends the session, a wrong version with an ERROR. */
  lemma OtherThanConnectCloses(s: Session, m: Message, env: Env)
    requires s.phase == AwaitingConnect && !(m.body.ConnectBody? && m.header.version == 0x01)
    ensures var (t, out) := React(s, m, env);
            && t == s.(phase := Closed)
            && if m.body.ConnectBody? then
                 |out| == 1 && out[0].body.ErrorBody? && out[0].body.code == ErrProtoVersion
                 && out[0].body.failingSeq == m.header.sequence
               else out == []
  {
  }

  lemma StepKeepsMaxSize(s: Session, m: Message, env: Env)
    requires s.phase != AwaitingConnect
    ensures var t := React(s, m, env).0; t.phase != AwaitingConnect && t.maxMsgSize == s.maxMsgSize
  {
    hide Dispatch, Ascii;
  }

  lemma {:induction false} RunKeepsMaxSize(s: Session, ins: seq<Input>)
    requires s.phase != AwaitingConnect
    ensures Run(s, ins).0.phase != AwaitingConnect && Run(s, ins).0.maxMsgSize == s.maxMsgSize
  {
    hide React;
    if ins != [] {
      var n := |ins| - 1;
      RunKeepsMaxSize(s, ins[..n]);
      StepKeepsMaxSize(Run(s, ins[..n]).0, ins[n].msg, ins[n].env);
    }
  }

  /**
   The negotiated limit holds for the whole session: after CONNECT, while the
   session lives, a message is refused for its size if and only if it exceeds
   the size the client asked for or 16 MiB.
   */
  lemma NegotiatedLimitHolds(s: Session, hello: Input, ins: seq<Input>, x: Input)
    requires s.phase == AwaitingConnect && hello.msg.body.ConnectBody? && hello.msg.header.version == 0x01
    requires Run(s, [hello] + ins).0.phase == Ready
    ensures var t := Run(s, [hello] + ins).0;
            var size := x.msg.header.payloadLength;
            var big := size > hello.msg.body.maxMsgSize || size > 0x100_0000;
            var (u, out) := React(t, x.msg, x.env);
            && (big ==> u == t && |out| == 1 && out[0].body.ErrorBody? && out[0].body.code == ErrPayloadSize)
            && (!big ==> forall n :: n in out && n.body.ErrorBody? ==> n.body.code != ErrPayloadSize)
  {
    hide Run, React;
    assert [hello][..0] == [];
    var s1 := React(s, hello.msg, hello.env).0;
    assert Run(s, [hello]).0 == s1 by { FirstMessage(s, hello); }
    RunConcat(s, [hello], ins);
    ConnectOpens(s, hello.msg, hello.env);
    RunKeepsMaxSize(s1, ins);
    SizeIsChecked(Run(s, [hello] + ins).0, x);
  }

  lemma FirstMessage(s: Session, x: Input)
    ensures Run(s, [x]) == React(s, x.msg, x.env)
  {
    hide React;
    assert [x][..0] == [];
    assert [] + React(s, x.msg, x.env).1 == React(s, x.msg, x.env).1;
  }

  lemma SizeIsChecked(s: Session, x: Input)
    requires s.phase == Ready
    ensures var big := x.msg.header.payloadLength > s.maxMsgSize;
            var (u, out) := React(s, x.msg, x.env);
            && (big ==> u == s && |out| == 1 && out[0].body.ErrorBody? && out[0].body.code == ErrPayloadSize)
            && (!big ==> forall n :: n in out && n.body.ErrorBody? ==> n.body.code != ErrPayloadSize)
  {
    hide Dispatch, Ascii;
    if Processed(s, x.msg) {
      DispatchAcceptsSize(Advance(s, x.msg), x.msg, x.env);
    }
  }

  lemma DispatchAcceptsSize(s: Session, m: Message, env: Env)
    ensures forall n :: n in Dispatch(s, m, env).1 && n.body.ErrorBody? ==> n.body.code != ErrPayloadSize
  {
    hide Ascii, PickFrom, Splice, WithRegion, WithData, RollWindow, CodeValue, SameParameters, SameQueue, SameLimiter,
         Plain, Wrap32, Allows, WordAt, NewWord, BigEndian;
  }

  // ---------------------------------------------------------------------
  // The end of a session
  // ---------------------------------------------------------------------

  /** After a processed DISCONNECT nothing is processed, answered or changed any more. */
  lemma {:induction false} DisconnectEndsSession(s: Session, x: Input, ins: seq<Input>)
    requires Processed(s, x.msg) && x.msg.body.DisconnectBody?
    ensures Kept(s, [x] + ins) == [x]
    ensures Run(s, [x] + ins).1 == []
    ensures Run(s, [x] + ins).0 == Run(s, [x]).0
    ensures forall m: Message :: !Processed(Run(s, [x] + ins).0, m)
  {
    FirstMessage(s, x);
    if ins == [] {
      assert [x] + ins == [x];
      assert [x][..0] == [];
      assert Kept(s, [x]) == [x];
    } else {
      var n := |ins| - 1;
      DisconnectEndsSession(s, x, ins[..n]);
      assert ([x] + ins)[..|[x] + ins| - 1] == [x] + ins[..n];
    }
  }

  // ---------------------------------------------------------------------
  // Messages a session does not serve
  // ---------------------------------------------------------------------

  /** The messages that only a server sends, and a second CONNECT. */
  predicate Unsupported(body: Body) {
    || body.ConnectBody? || body.ConnectAckBody? || body.MrRegAckBody? || body.MrDeregAckBody? || body.RecvCompBody?
    || body.WriteCompBody? || body.ReadRespBody? || body.AtomicRespBody? || body.ErrorBody?
  }

  /** They are refused, ACK and CREDIT_UPDATE are ignored, and none of them changes anything but the number expected. */
  lemma UnservedChangeNothing(s: Session, m: Message, env: Env)
    requires Processed(s, m) && (Unsupported(m.body) || m.body.AckBody? || m.body.CreditUpdateBody?)
    ensures var (t, out) := React(s, m, env);
            && t == s.(expectedRemoteSeq := Some(Wrap32(m.header.sequence + 1)))
            && if Unsupported(m.body) then
                 |out| == 1 && out[0].body.ErrorBody? && out[0].body.code == ErrUnknownOpcode
               else out == []
  {
    hide Ascii;
  }

  // ---------------------------------------------------------------------
  // Which request an ERROR names
  // ---------------------------------------------------------------------

  /** An ERROR carries no WRID; it names the message it answers, except that nothing is named for data parts. */
  predicate NamesRequest(n: Note, m: Message, data: bool) {
    n.wrid == 0 && n.body.ErrorBody? && n.body.failingSeq == (if data then 0 else m.header.sequence)
  }

  lemma ErrorNamesRequest(s: Session, m: Message, env: Env)
    requires s.phase == Ready
    ensures var data := Processed(s, m) && (m.body.SendDataBody? || m.body.WriteDataBody?);
            forall n :: n in React(s, m, env).1 && n.body.ErrorBody? ==> NamesRequest(n, m, data)
  {
    hide Dispatch, Ascii;
    if Processed(s, m) {
      DispatchNamesRequest(Advance(s, m), m, env);
    }
  }

  lemma DispatchNamesRequest(s: Session, m: Message, env: Env)
    ensures var data := m.body.SendDataBody? || m.body.WriteDataBody?;
            forall n :: n in Dispatch(s, m, env).1 && n.body.ErrorBody? ==> NamesRequest(n, m, data)
  {
    hide Ascii, PickFrom, Splice, WithRegion, WithData, RollWindow, Perform, ReadIn, Lookup, CodeValue, SameParameters,
         SameQueue, SameLimiter, Plain, Wrap32;
  }
}
