/**
 The client connection as a value: what each verb sends, and what it does with
 the message it was waiting for.
 */
module ClientModel {
  import opened Core
  import opened Codec

  datatype Cqe = Cqe(wrid: u64, status: u16, opcode: Opcode, vendorError: byte, byteCount: u32, qpNumber: u32)

  datatype LocalMr = LocalMr(lkey: u32, rkey: u32, len: u64, buf: bytes)

  /** Credits are an integer here; that they stay within `u32` is proved, not assumed. */
  datatype Client = Client(
    sessionId: u32,
    pd: u32,
    nextSeq: u32,
    expectedRemoteSeq: Option<u32>,
    sendCredits: int,
    cq: seq<Cqe>,
    cqCapacity: nat,
    localMrs: map<u32, LocalMr>)

  datatype Verb =
    | RegMr(flags: u32, len: u64)
    | DeregMr(lkey: u32)
    | PostSend(wrid: u64, sg: seq<SgEntry>)
    | RdmaWrite(wrid: u64, rkey: u32, remoteVa: u64, sg: seq<SgEntry>)
    | RdmaRead(wrid: u64, rkey: u32, remoteVa: u64, readLen: u64, localLkey: u32, localVa: u64)
    | PostAtomic(wrid: u64, rkey: u32, remoteVa: u64, kind: byte, operand1: u64, operand2: u64)

  datatype ClientError =
    | Protocol(code: ErrorCode)
    | SendCreditsExhausted
    | UnexpectedMessage(got: Opcode)
    | BadFrame(error: CodecError)
    | SessionClosed
    | Overflow   // an offset plus a length beyond 64 bits: the program panics

  datatype Outcome =
    | Completed
    | GotMr(lkey: u32, rkey: u32, len: u64)
    | GotWord(value: u64)
    | Rejected(error: ClientError)

  // ---------------------------------------------------------------------
  // Local memory
  // ---------------------------------------------------------------------

  /** The bytes one scatter/gather entry names. */
  function Segment(mrs: map<u32, LocalMr>, e: SgEntry): Result<bytes, ClientError> {
    if e.lkey !in mrs then Err(Protocol(ErrInvalidLkey))
    else if e.offset + e.length >= U64_MOD then Err(Overflow)
    else if e.offset + e.length > |mrs[e.lkey].buf| then Err(Protocol(ErrBounds))
    else Ok(mrs[e.lkey].buf[e.offset..e.offset + e.length])
  }

  /** `gather_sg_data`: the segments in list order, or the error of the first bad entry. */
  function Gather(mrs: map<u32, LocalMr>, sg: seq<SgEntry>): Result<bytes, ClientError> {
    if sg == [] then Ok([])
    else
      match Gather(mrs, sg[..|sg| - 1])
      case Err(e) => Err(e)
      case Ok(front) =>
        match Segment(mrs, sg[|sg| - 1])
        case Err(e) => Err(e)
        case Ok(last) => Ok(front + last)
  }

  predicate InBounds(mrs: map<u32, LocalMr>, sg: seq<SgEntry>) {
    forall i :: 0 <= i < |sg| ==> Segment(mrs, sg[i]).Ok?
  }

  /** Position in the gathered data at which entry `k` starts. */
  function StartOf(sg: seq<SgEntry>, k: nat): nat
    requires k <= |sg|
  {
    if k == 0 then 0 else StartOf(sg, k - 1) + sg[k - 1].length
  }

  lemma {:induction false} StartOfPrefix(sg: seq<SgEntry>, n: nat, k: nat)
    requires k <= n <= |sg|
    ensures StartOf(sg[..n], k) == StartOf(sg, k)
    ensures StartOf(sg, k) <= StartOf(sg, n)
    decreases n, k
  {
    if k > 0 {
      StartOfPrefix(sg, n, k - 1);
    }
    if k < n {
      StartOfPrefix(sg, n - 1, k);
    }
  }

  /** Gathering succeeds exactly when every entry is in bounds. */
  lemma {:induction false} GatherSucceeds(mrs: map<u32, LocalMr>, sg: seq<SgEntry>)
    ensures Gather(mrs, sg).Ok? <==> InBounds(mrs, sg)
    ensures Gather(mrs, sg).Ok? ==> |Gather(mrs, sg).value| == StartOf(sg, |sg|)
  {
    if sg != [] {
      var n := |sg| - 1;
      GatherSucceeds(mrs, sg[..n]);
      StartOfPrefix(sg, n, n);
      assert InBounds(mrs, sg) <==> InBounds(mrs, sg[..n]) && Segment(mrs, sg[n]).Ok?;
    }
  }

  /** Gathering fails only for reasons found in the local regions. */
  lemma {:induction false} GatherErrorIsLocal(mrs: map<u32, LocalMr>, sg: seq<SgEntry>)
    requires Gather(mrs, sg).Err?
    ensures Gather(mrs, sg).error in {Protocol(ErrInvalidLkey), Protocol(ErrBounds), Overflow}
  {
    var n := |sg| - 1;
    if Gather(mrs, sg[..n]).Err? {
      GatherErrorIsLocal(mrs, sg[..n]);
    }
  }

  /** The gathered data is the concatenation of the segments: entry `k` occupies its own stretch. */
  lemma {:induction false} GatherIsConcatenation(mrs: map<u32, LocalMr>, sg: seq<SgEntry>, k: nat)
    requires Gather(mrs, sg).Ok? && k < |sg|
    ensures var data := Gather(mrs, sg).value;
            && Segment(mrs, sg[k]).Ok?
            && StartOf(sg, k) + sg[k].length <= |data|
            && data[StartOf(sg, k)..StartOf(sg, k) + sg[k].length] == Segment(mrs, sg[k]).value
  {
    var n := |sg| - 1;
    var front := Gather(mrs, sg[..n]).value;
    GatherSucceeds(mrs, sg[..n]);
    StartOfPrefix(sg, n, n);
    if k < n {
      GatherIsConcatenation(mrs, sg[..n], k);
      StartOfPrefix(sg, n, k);
      var data := Gather(mrs, sg).value;
      var from, to := StartOf(sg, k), StartOf(sg, k) + sg[k].length;
      assert data[from..to] == front[from..to];
    }
  }

  /** `write_local_mr` */
  function WriteLocal(c: Client, lkey: u32, offset: nat, data: bytes): (Client, Outcome) {
    if lkey !in c.localMrs then (c, Rejected(Protocol(ErrInvalidLkey)))
    else
      var mr := c.localMrs[lkey];
      if offset + |data| >= U64_MOD then (c, Rejected(Overflow))
      else if offset + |data| > |mr.buf| then (c, Rejected(Protocol(ErrBounds)))
      else (c.(localMrs := c.localMrs[lkey := mr.(buf := Splice(mr.buf, offset, data))]), Completed)
  }

  /** `read_local_mr` */
  function ReadLocal(c: Client, lkey: u32, offset: nat, len: nat): Result<bytes, ClientError> {
    if lkey !in c.localMrs then Err(Protocol(ErrInvalidLkey))
    else if offset + len >= U64_MOD then Err(Overflow)
    else if offset + len > |c.localMrs[lkey].buf| then Err(Protocol(ErrBounds))
    else Ok(c.localMrs[lkey].buf[offset..offset + len])
  }

  // ---------------------------------------------------------------------
  // Issuing a verb
  // ---------------------------------------------------------------------

  predicate CqFull(c: Client) {
    |c.cq| >= c.cqCapacity
  }

  /** Verbs that end in a completion-queue entry. */
  predicate UsesCq(v: Verb) {
    !v.RegMr? && !v.DeregMr?
  }

  /** The messages a verb sends, or the reason it gives up before sending anything. */
  function Requests(c: Client, v: Verb): Result<seq<Note>, ClientError> {
    if UsesCq(v) && CqFull(c) then Err(Protocol(ErrCqOverflow))
    else
      match v
      case RegMr(flags, len) => Ok([Note(0, MrRegBody(c.pd, flags, len, None))])
      case DeregMr(lkey) => Ok([Note(0, MrDeregBody(c.pd, lkey))])
      case PostSend(wrid, sg) =>
        if c.sendCredits == 0 then Err(SendCreditsExhausted)
        else (match Gather(c.localMrs, sg)
              case Err(e) => Err(e)
              case Ok(data) => Ok([Note(wrid, SendBody(sg)), Note(wrid, SendDataBody(data))]))
      case RdmaWrite(wrid, rkey, va, sg) =>
        (match Gather(c.localMrs, sg)
         case Err(e) => Err(e)
         case Ok(data) =>
           Ok([Note(wrid, WriteBody(rkey, va, |data| % U64_MOD, sg)), Note(wrid, WriteDataBody(data))]))
      case RdmaRead(wrid, rkey, va, len, lkey, lva) => Ok([Note(wrid, ReadReqBody(rkey, va, len, lkey, lva))])
      case PostAtomic(wrid, rkey, va, kind, op1, op2) =>
        Ok([Note(wrid, AtomicReqBody(rkey, kind, va, op1, op2))])
  }

  /** Numbers `n` outgoing messages. */
  function Bump(c: Client, n: nat): Client {
    c.(nextSeq := Wrap32(c.nextSeq + n))
  }

  // ---------------------------------------------------------------------
  // Receiving
  // ---------------------------------------------------------------------

  datatype Arrival = SeqGap | Credit(client: Client) | Application(client: Client)

  /** One pass of the `recv_app_message` loop: validate the number, absorb credits. */
  function OnArrival(c: Client, m: Message): Arrival {
    if c.expectedRemoteSeq.Some? && m.header.sequence != c.expectedRemoteSeq.value then SeqGap
    else
      var c1 := c.(expectedRemoteSeq := Some(Wrap32(m.header.sequence + 1)));
      if m.body.CreditUpdateBody? then Credit(c1.(sendCredits := c1.sendCredits + m.body.creditIncrement))
      else Application(c1)
  }

  function Push(c: Client, e: Cqe): Client {
    if CqFull(c) then c else c.(cq := c.cq + [e])
  }

  function VerbOpcode(v: Verb): Opcode {
    match v
    case RegMr(_, _) => MrReg
    case DeregMr(_) => MrDereg
    case PostSend(_, _) => Send
    case RdmaWrite(_, _, _, _) => Write
    case RdmaRead(_, _, _, _, _, _) => ReadReq
    case PostAtomic(_, _, _, _, _, _) => AtomicReq
  }

  function Entry(c: Client, v: Verb, status: u16, byteCount: nat): Cqe
    requires UsesCq(v)
  {
    Cqe(v.wrid, status, VerbOpcode(v), 0, byteCount % U32_MOD, c.sessionId)
  }

  /** The completion a successful or failed verb produces for message `m`, if any. */
  function Completion(c: Client, v: Verb, m: Message): Option<Cqe> {
    if !UsesCq(v) then None
    else
      match m.body
      case ErrorBody(code, _, _) => Some(Entry(c, v, CodeValue(code), 0))
      case RecvCompBody => if v.PostSend? then Some(Entry(c, v, 0, StartOf(v.sg, |v.sg|))) else None
      case WriteCompBody => if v.RdmaWrite? then Some(Entry(c, v, 0, StartOf(v.sg, |v.sg|))) else None
      case ReadRespBody(_, data) =>
        if v.RdmaRead? && v.localLkey in c.localMrs && v.localVa + |data| < U64_MOD
           && v.localVa + |data| <= |c.localMrs[v.localLkey].buf|
        then Some(Entry(c, v, 0, |data|)) else None
      case AtomicRespBody(_, _) => if v.PostAtomic? then Some(Entry(c, v, 0, 8)) else None
      case _ => None
  }

  function PushCompletion(c: Client, v: Verb, m: Message): Client {
    match Completion(c, v, m)
    case None => c
    case Some(e) => Push(c, e)
  }

  /** What a verb does with the first message that is not a credit update. */
  function Accept(c: Client, v: Verb, m: Message): (Client, Outcome) {
    var c1 := PushCompletion(c, v, m);
    match m.body
    case ErrorBody(code, _, _) => (c1, Rejected(Protocol(code)))
    case MrRegAckBody(_, lkey, rkey, status) =>
      if !v.RegMr? then (c1, Rejected(UnexpectedMessage(m.header.opcode)))
      else if status != 0 then (c1, Rejected(Protocol(CodeFromValue(status))))
      else (c1.(localMrs := c1.localMrs[lkey := LocalMr(lkey, rkey, v.len, Zeros(v.len))]),
            GotMr(lkey, rkey, v.len))
    case MrDeregAckBody(status) =>
      if !v.DeregMr? then (c1, Rejected(UnexpectedMessage(m.header.opcode)))
      else if status != 0 then (c1, Rejected(Protocol(CodeFromValue(status))))
      else (c1.(localMrs := c1.localMrs - {v.lkey}), Completed)
    case RecvCompBody =>
      if !v.PostSend? then (c1, Rejected(UnexpectedMessage(m.header.opcode)))
      else (c1.(sendCredits := c1.sendCredits - 1), Completed)
    case WriteCompBody =>
      if !v.RdmaWrite? then (c1, Rejected(UnexpectedMessage(m.header.opcode))) else (c1, Completed)
    case ReadRespBody(_, data) =>
      if !v.RdmaRead? then (c1, Rejected(UnexpectedMessage(m.header.opcode)))
      else WriteLocal(c1, v.localLkey, v.localVa, data)
    case AtomicRespBody(original, _) =>
      if !v.PostAtomic? then (c1, Rejected(UnexpectedMessage(m.header.opcode))) else (c1, GotWord(original))
    case _ => (c1, Rejected(UnexpectedMessage(m.header.opcode)))
  }

  /** The outcome tells which response was consumed. */
  predicate Explains(v: Verb, body: Body, o: Outcome) {
    && (o == Completed ==>
          || (v.DeregMr? && body.MrDeregAckBody? && body.status == 0)
          || (v.PostSend? && body.RecvCompBody?)
          || (v.RdmaWrite? && body.WriteCompBody?)
          || (v.RdmaRead? && body.ReadRespBody?))
    && (o.GotMr? ==> v.RegMr? && body.MrRegAckBody? && body.status == 0
                     && o == GotMr(body.lkey, body.rkey, v.len))
    && (o.GotWord? ==> v.PostAtomic? && body.AtomicRespBody? && o.value == body.originalValue)
    && (v.PostSend? && body.RecvCompBody? ==> o == Completed)
    && (v.RdmaWrite? && body.WriteCompBody? ==> o == Completed)
    && (v.RdmaRead? && body.ReadRespBody? ==>
          o == Completed || o == Rejected(Protocol(ErrInvalidLkey)) || o == Rejected(Protocol(ErrBounds))
          || o == Rejected(Overflow))
    && (v.PostAtomic? && body.AtomicRespBody? ==> o.GotWord?)
    && (body.ErrorBody? ==> o == Rejected(Protocol(body.code)))
  }

  lemma AcceptExplains(c: Client, v: Verb, m: Message)
    ensures Explains(v, m.body, Accept(c, v, m).1)
  {
  }

  /** The byte count a successful verb reports for the response it consumed. */
  function CountFor(v: Verb, body: Body): nat {
    match v
    case PostSend(_, sg) => StartOf(sg, |sg|)
    case RdmaWrite(_, _, _, sg) => StartOf(sg, |sg|)
    case RdmaRead(_, _, _, _, _, _) => if body.ReadRespBody? then |body.data| else 0
    case _ => 8
  }

  /**
   The completion that belongs to a finished verb: the code of the ERROR it
   consumed, or status zero if it succeeded, under its own WRID. A read that
   failed at its local sink and an unexpected response leave none.
   */
  function EntryFor(sessionId: u32, v: Verb, body: Body, o: Outcome): Option<Cqe> {
    if !UsesCq(v) then None
    else if body.ErrorBody? then Some(Cqe(v.wrid, CodeValue(body.code), VerbOpcode(v), 0, 0, sessionId))
    else if o == Completed || o.GotWord? then
      Some(Cqe(v.wrid, 0, VerbOpcode(v), 0, CountFor(v, body) % U32_MOD, sessionId))
    else None
  }

  lemma CompletionIsEntry(c: Client, v: Verb, m: Message)
    ensures Completion(c, v, m) == EntryFor(c.sessionId, v, m.body, Accept(c, v, m).1)
  {
    hide CodeValue, StartOf, Splice, Zeros, CodeFromValue;
  }

  /** A completed read leaves the received bytes in the local sink, at the requested place. */
  lemma AcceptedReadFillsSink(c: Client, v: Verb, m: Message)
    requires v.RdmaRead? && Accept(c, v, m).1 == Completed
    ensures m.body.ReadRespBody?
    ensures ReadLocal(Accept(c, v, m).0, v.localLkey, v.localVa, |m.body.data|) == Ok(m.body.data)
  {
    var buf := PushCompletion(c, v, m).localMrs[v.localLkey].buf;
    assert Splice(buf, v.localVa, m.body.data)[v.localVa..v.localVa + |m.body.data|] == m.body.data;
  }
}
