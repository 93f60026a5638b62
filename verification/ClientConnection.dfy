/**
 The client as it runs: a completion queue and a connection object whose verbs
 send frames, read from the stream until a response arrives, and update
 credits, completion queue and local buffers in place. Every verb equals
 `RunVerb`, the value-level description built from ClientModel.
 */
module ClientConnection {
  import opened Core
  import opened Codec
  import opened ClientModel

  // ---------------------------------------------------------------------
  // Verbs on values
  // ---------------------------------------------------------------------

  /** A client, the frames it has still to read and what the reading returned. */
  datatype Received = Received(client: Client, stream: seq<bytes>, result: Result<Message, ClientError>)

  /** `recv_app_message`: credit updates are absorbed until something else arrives. */
  function RecvApp(c: Client, stream: seq<bytes>): Received
    decreases |stream|
  {
    if stream == [] then Received(c, [], Err(SessionClosed))
    else
      match Decode(stream[0])
      case Err(e) => Received(c, stream[1..], Err(BadFrame(e)))
      case Ok(m) =>
        match OnArrival(c, m)
        case SeqGap => Received(c, stream[1..], Err(Protocol(ErrSeqGap)))
        case Credit(c1) => RecvApp(c1, stream[1..])
        case Application(c1) => Received(c1, stream[1..], Ok(m))
  }

  /** What a verb leaves behind: the client, the unread frames, the frames it sent, its outcome. */
  datatype VerbRun = VerbRun(client: Client, stream: seq<bytes>, sent: seq<bytes>, outcome: Outcome)

  function RunVerb(c: Client, stream: seq<bytes>, v: Verb): VerbRun {
    match Requests(c, v)
    case Err(e) => VerbRun(c, stream, [], Rejected(e))
    case Ok(notes) =>
      var sent := EncodeAll(Stamp(c.sessionId, c.nextSeq, notes));
      var r := RecvApp(Bump(c, |notes|), stream);
      match r.result
      case Err(e) => VerbRun(r.client, r.stream, sent, Rejected(e))
      case Ok(m) => var (c1, o) := Accept(r.client, v, m); VerbRun(c1, r.stream, sent, o)
  }

  // ---------------------------------------------------------------------
  // The completion queue
  // ---------------------------------------------------------------------

  class CompletionQueue {
    var entries: seq<Cqe>
    const capacity: nat

    constructor (capacity: nat)
      ensures entries == [] && this.capacity == capacity
    {
      entries, this.capacity := [], capacity;
    }

    method Push(cqe: Cqe) returns (accepted: bool)
      modifies this
      ensures accepted <==> |old(entries)| < capacity
      ensures entries == if accepted then old(entries) + [cqe] else old(entries)
    {
      if |entries| >= capacity {
        return false;
      }
      entries := entries + [cqe];
      return true;
    }

    /** The oldest entries, at most `max` of them. */
    method PollCq(max: nat) returns (polled: seq<Cqe>)
      modifies this
      ensures polled + entries == old(entries)
      ensures |polled| == if max <= |old(entries)| then max else |old(entries)|
    {
      var n := if max <= |entries| then max else |entries|;
      polled := entries[..n];
      entries := entries[n..];
    }

    predicate IsFull()
      reads this
    {
      |entries| >= capacity
    }
  }

  // ---------------------------------------------------------------------
  // The connection
  // ---------------------------------------------------------------------

  class RdowsConnection {
    var sink: seq<bytes>
    var stream: seq<bytes>
    const sessionId: u32
    const pd: u32
    var nextSeq: u32
    var expectedRemoteSeq: Option<u32>
    var sendCredits: int
    const cq: CompletionQueue
    var localMrs: map<u32, LocalMr>

    function View(): Client
      reads this, cq
    {
      Client(sessionId, pd, nextSeq, expectedRemoteSeq, sendCredits, cq.entries, cq.capacity, localMrs)
    }

    /** The state and outcome that a verb run describes, on top of frames already sent. */
    ghost predicate Ended(run: VerbRun, sent: seq<bytes>, o: Outcome)
      reads this, cq
    {
      View() == run.client && stream == run.stream && sink == sent + run.sent && o == run.outcome
    }

    /** The connection after CONNECT_ACK. */
    constructor (sessionId: u32, pd: u32, initialRemoteSeq: u32, icc: u32, capacity: nat, stream: seq<bytes>)
      ensures View() == Client(sessionId, pd, 1, Some(initialRemoteSeq), icc, [], capacity, map[])
      ensures this.stream == stream && sink == [] && fresh(cq)
    {
      this.sessionId, this.pd, this.stream := sessionId, pd, stream;
      sink, nextSeq, expectedRemoteSeq, sendCredits := [], 1, Some(initialRemoteSeq), icc;
      cq := new CompletionQueue(capacity);
      localMrs := map[];
    }

    /** `next_header` followed by `send_message`. */
    method Transmit(wrid: u64, body: Body)
      modifies this`nextSeq, this`sink
      ensures View() == Bump(old(View()), 1)
      ensures sink == old(sink) + EncodeAll(Stamp(sessionId, old(nextSeq), [Note(wrid, body)]))
    {
      hide Encode, EncodeAll, Stamp, NewMessage;
      var seq0 := nextSeq;
      nextSeq := Wrap32(nextSeq + 1);
      sink := sink + [Encode(NewMessage(sessionId, seq0, wrid, body))];
      OneFrame(sessionId, seq0, Note(wrid, body));
    }

    /** A request and the data that follows it. */
    method TransmitBoth(wrid: u64, request: Body, data: Body)
      modifies this`nextSeq, this`sink
      ensures View() == Bump(old(View()), 2)
      ensures sink == old(sink) + EncodeAll(Stamp(sessionId, old(nextSeq), [Note(wrid, request), Note(wrid, data)]))
    {
      hide EncodeAll, Stamp;
      TwoFrames(sessionId, nextSeq, Note(wrid, request), Note(wrid, data));
      Transmit(wrid, request);
      Transmit(wrid, data);
    }

    /** Rejects a message out of sequence and otherwise moves the expected number on. */
    method ValidateRemoteSeq(m: Message) returns (ok: bool)
      modifies this`expectedRemoteSeq
      ensures ok <==> !OnArrival(old(View()), m).SeqGap?
      ensures View() == if ok then old(View()).(expectedRemoteSeq := Some(Wrap32(m.header.sequence + 1)))
                        else old(View())
    {
      if expectedRemoteSeq.Some? && m.header.sequence != expectedRemoteSeq.value {
        return false;
      }
      expectedRemoteSeq := Some(Wrap32(m.header.sequence + 1));
      return true;
    }

    method RecvAppMessage() returns (r: Result<Message, ClientError>)
      modifies this`stream, this`expectedRemoteSeq, this`sendCredits
      ensures Received(View(), stream, r) == old(RecvApp(View(), stream))
    {
      hide Decode;
      while stream != []
        invariant RecvApp(View(), stream) == old(RecvApp(View(), stream))
        decreases |stream|
      {
        var decoded := Decode(stream[0]);
        stream := stream[1..];
        if decoded.Err? {
          return Err(BadFrame(decoded.error));
        }
        var m := decoded.value;
        var inOrder := ValidateRemoteSeq(m);
        if !inOrder {
          return Err(Protocol(ErrSeqGap));
        }
        if m.body.CreditUpdateBody? {
          sendCredits := sendCredits + m.body.creditIncrement;
        } else {
          return Ok(m);
        }
      }
      return Err(SessionClosed);
    }

    method GatherSgData(sg: seq<SgEntry>) returns (r: Result<bytes, ClientError>)
      ensures r == Gather(localMrs, sg)
    {
      var result: bytes := [];
      for i := 0 to |sg|
        invariant Gather(localMrs, sg[..i]) == Ok(result)
      {
        var e := sg[i];
        assert sg[..i + 1][..i] == sg[..i];
        if e.lkey !in localMrs {
          GatherFails(localMrs, sg, i);
          return Err(Protocol(ErrInvalidLkey));
        }
        var buf := localMrs[e.lkey].buf;
        var end := e.offset + e.length;
        if end >= U64_MOD {
          GatherFails(localMrs, sg, i);
          return Err(Overflow);
        }
        if end > |buf| {
          GatherFails(localMrs, sg, i);
          return Err(Protocol(ErrBounds));
        }
        result := result + buf[e.offset..end];
      }
      assert sg[..|sg|] == sg;
      return Ok(result);
    }

    /** Pushes the completion of a verb. */
    method Complete(wrid: u64, status: u16, opcode: Opcode, byteCount: nat)
      modifies cq
      ensures View() == ClientModel.Push(old(View()), Cqe(wrid, status, opcode, 0, byteCount % U32_MOD, sessionId))
    {
      var _ := cq.Push(Cqe(wrid, status, opcode, 0, byteCount % U32_MOD, sessionId));
    }

    method RegMr(flags: u32, len: u64) returns (o: Outcome)
      modifies this
      ensures Ended(old(RunVerb(View(), stream, Verb.RegMr(flags, len))), old(sink), o)
    {
      hide RecvApp, EncodeAll, Stamp, Wrap32, CodeValue, CodeFromValue, Gather;
      Transmit(0, MrRegBody(pd, flags, len, None));
      var resp := RecvAppMessage();
      if resp.Err? {
        return Rejected(resp.error);
      }
      var m := resp.value;
      match m.body {
        case MrRegAckBody(_, lkey, rkey, status) =>
          if status != 0 {
            return Rejected(Protocol(CodeFromValue(status)));
          }
          localMrs := localMrs[lkey := LocalMr(lkey, rkey, len, Zeros(len))];
          return GotMr(lkey, rkey, len);
        case ErrorBody(code, _, _) =>
          return Rejected(Protocol(code));
        case _ =>
          return Rejected(UnexpectedMessage(m.header.opcode));
      }
    }

    method DeregMr(lkey: u32) returns (o: Outcome)
      modifies this
      ensures Ended(old(RunVerb(View(), stream, Verb.DeregMr(lkey))), old(sink), o)
    {
      hide RecvApp, EncodeAll, Stamp, Wrap32, CodeValue, CodeFromValue, Gather;
      Transmit(0, MrDeregBody(pd, lkey));
      var resp := RecvAppMessage();
      if resp.Err? {
        return Rejected(resp.error);
      }
      var m := resp.value;
      match m.body {
        case MrDeregAckBody(status) =>
          if status != 0 {
            return Rejected(Protocol(CodeFromValue(status)));
          }
          localMrs := localMrs - {lkey};
          return Completed;
        case ErrorBody(code, _, _) =>
          return Rejected(Protocol(code));
        case _ =>
          return Rejected(UnexpectedMessage(m.header.opcode));
      }
    }

    method PostSend(wrid: u64, sg: seq<SgEntry>) returns (o: Outcome)
      modifies this, cq
      ensures Ended(old(RunVerb(View(), stream, Verb.PostSend(wrid, sg))), old(sink), o)
    {
      hide RecvApp, EncodeAll, Stamp, Wrap32, CodeValue, CodeFromValue, Gather, StartOf;
      if cq.IsFull() {
        return Rejected(Protocol(ErrCqOverflow));
      }
      if sendCredits == 0 {
        return Rejected(SendCreditsExhausted);
      }
      var gathered := GatherSgData(sg);
      if gathered.Err? {
        return Rejected(gathered.error);
      }
      var data := gathered.value;
      GatherSucceeds(localMrs, sg);
      TransmitBoth(wrid, SendBody(sg), SendDataBody(data));
      var resp := RecvAppMessage();
      if resp.Err? {
        return Rejected(resp.error);
      }
      var m := resp.value;
      match m.body {
        case RecvCompBody =>
          sendCredits := sendCredits - 1;
          Complete(wrid, 0, Send, |data|);
          return Completed;
        case ErrorBody(code, _, _) =>
          Complete(wrid, CodeValue(code), Send, 0);
          return Rejected(Protocol(code));
        case _ =>
          return Rejected(UnexpectedMessage(m.header.opcode));
      }
    }

    method RdmaWrite(wrid: u64, rkey: u32, remoteVa: u64, sg: seq<SgEntry>) returns (o: Outcome)
      modifies this, cq
      ensures Ended(old(RunVerb(View(), stream, Verb.RdmaWrite(wrid, rkey, remoteVa, sg))), old(sink), o)
    {
      hide RecvApp, EncodeAll, Stamp, Wrap32, CodeValue, CodeFromValue, Gather, StartOf;
      if cq.IsFull() {
        return Rejected(Protocol(ErrCqOverflow));
      }
      var gathered := GatherSgData(sg);
      if gathered.Err? {
        return Rejected(gathered.error);
      }
      var data := gathered.value;
      GatherSucceeds(localMrs, sg);
      TransmitBoth(wrid, WriteBody(rkey, remoteVa, |data| % U64_MOD, sg), WriteDataBody(data));
      var resp := RecvAppMessage();
      if resp.Err? {
        return Rejected(resp.error);
      }
      var m := resp.value;
      match m.body {
        case WriteCompBody =>
          Complete(wrid, 0, Write, |data|);
          return Completed;
        case ErrorBody(code, _, _) =>
          Complete(wrid, CodeValue(code), Write, 0);
          return Rejected(Protocol(code));
        case _ =>
          return Rejected(UnexpectedMessage(m.header.opcode));
      }
    }

    method RdmaRead(wrid: u64, rkey: u32, remoteVa: u64, readLen: u64, localLkey: u32, localVa: u64)
      returns (o: Outcome)
      modifies this, cq
      ensures Ended(old(RunVerb(View(), stream, Verb.RdmaRead(wrid, rkey, remoteVa, readLen, localLkey, localVa))),
                    old(sink), o)
    {
      hide RecvApp, EncodeAll, Stamp, Wrap32, CodeValue, CodeFromValue, Gather;
      if cq.IsFull() {
        return Rejected(Protocol(ErrCqOverflow));
      }
      Transmit(wrid, ReadReqBody(rkey, remoteVa, readLen, localLkey, localVa));
      var resp := RecvAppMessage();
      if resp.Err? {
        return Rejected(resp.error);
      }
      var m := resp.value;
      match m.body {
        case ReadRespBody(_, data) =>
          if localLkey !in localMrs {
            return Rejected(Protocol(ErrInvalidLkey));
          }
          var mr := localMrs[localLkey];
          if localVa + |data| >= U64_MOD {
            return Rejected(Overflow);
          }
          if localVa + |data| > |mr.buf| {
            return Rejected(Protocol(ErrBounds));
          }
          localMrs := localMrs[localLkey := mr.(buf := Splice(mr.buf, localVa, data))];
          Complete(wrid, 0, ReadReq, |data|);
          return Completed;
        case ErrorBody(code, _, _) =>
          Complete(wrid, CodeValue(code), ReadReq, 0);
          return Rejected(Protocol(code));
        case _ =>
          return Rejected(UnexpectedMessage(m.header.opcode));
      }
    }

    method PostAtomic(wrid: u64, rkey: u32, remoteVa: u64, kind: byte, operand1: u64, operand2: u64)
      returns (o: Outcome)
      modifies this, cq
      ensures Ended(old(RunVerb(View(), stream, Verb.PostAtomic(wrid, rkey, remoteVa, kind, operand1, operand2))),
                    old(sink), o)
    {
      hide RecvApp, EncodeAll, Stamp, Wrap32, CodeValue, CodeFromValue, Gather;
      if cq.IsFull() {
        return Rejected(Protocol(ErrCqOverflow));
      }
      Transmit(wrid, AtomicReqBody(rkey, kind, remoteVa, operand1, operand2));
      var resp := RecvAppMessage();
      if resp.Err? {
        return Rejected(resp.error);
      }
      var m := resp.value;
      match m.body {
        case AtomicRespBody(original, _) =>
          Complete(wrid, 0, AtomicReq, 8);
          return GotWord(original);
        case ErrorBody(code, _, _) =>
          Complete(wrid, CodeValue(code), AtomicReq, 0);
          return Rejected(Protocol(code));
        case _ =>
          return Rejected(UnexpectedMessage(m.header.opcode));
      }
    }

    method WriteLocalMr(lkey: u32, offset: nat, data: bytes) returns (o: Outcome)
      modifies this`localMrs
      ensures (View(), o) == old(WriteLocal(View(), lkey, offset, data))
    {
      if lkey !in localMrs {
        return Rejected(Protocol(ErrInvalidLkey));
      }
      var mr := localMrs[lkey];
      if offset + |data| >= U64_MOD {
        return Rejected(Overflow);
      }
      if offset + |data| > |mr.buf| {
        return Rejected(Protocol(ErrBounds));
      }
      localMrs := localMrs[lkey := mr.(buf := Splice(mr.buf, offset, data))];
      return Completed;
    }

    method ReadLocalMr(lkey: u32, offset: nat, len: nat) returns (r: Result<bytes, ClientError>)
      ensures r == ReadLocal(View(), lkey, offset, len)
    {
      if lkey !in localMrs {
        return Err(Protocol(ErrInvalidLkey));
      }
      var end := offset + len;
      if end >= U64_MOD {
        return Err(Overflow);
      }
      if end > |localMrs[lkey].buf| {
        return Err(Protocol(ErrBounds));
      }
      return Ok(localMrs[lkey].buf[offset..end]);
    }
  }

  /** The first bad entry decides the error. */
  lemma {:induction false} GatherFails(mrs: map<u32, LocalMr>, sg: seq<SgEntry>, i: nat)
    requires i < |sg| && Gather(mrs, sg[..i]).Ok? && Segment(mrs, sg[i]).Err?
    ensures Gather(mrs, sg) == Err(Segment(mrs, sg[i]).error)
  {
    if i + 1 < |sg| {
      var n := |sg| - 1;
      assert sg[..n][..i] == sg[..i];
      GatherFails(mrs, sg[..n], i);
    }
  }
}
