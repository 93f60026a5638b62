/**
 The invariant of every run: what is on the wires is exactly what a sequential
 server would have produced from the requests issued so far, whatever the
 interleaving, and the client's counters agree with what it has read.
 */
module ProtocolInvariant {
  import opened Core
  import opened Codec
  import MemoryModel
  import opened SessionModel
  import opened SessionRuns
  import opened SessionFrames
  import opened ClientModel
  import opened Traffic
  import opened Protocol

  /** All requests issued so far. */
  function Ins(y: System): seq<Input> {
    Issued(y.calls)
  }

  /** Frames sent or about to be sent that the server has not handled yet. */
  function Pipe(y: System): seq<Frame> {
    y.c2s + y.outbox
  }

  function ServedCount(y: System): int {
    |Ins(y)| - |Pipe(y)|
  }

  /** The effect, on the initial session, of the requests the server has handled. */
  function SoFar(y: System): Effect
    requires 0 <= ServedCount(y)
  {
    Run(y.origin.session, Ins(y)[..ServedCount(y)])
  }

  /** Everything the server has sent, as messages. */
  function Mail(y: System): seq<Message>
    requires 0 <= ServedCount(y)
  {
    Stamp(y.origin.session.sessionId, y.origin.nextSeq, SoFar(y).1)
  }

  /** What the client has read. */
  function Got(y: System): seq<Note>
    requires 0 <= ServedCount(y) && y.collected <= |SoFar(y).1|
  {
    SoFar(y).1[..y.collected]
  }

  // ---------------------------------------------------------------------
  // The invariant
  // ---------------------------------------------------------------------

  ghost predicate RequestsOk(y: System) {
    && GoodTraffic(y.origin.session, y.calls)
    && MemoryModel.Valid(y.origin.session.store)
    && (forall k :: 0 <= k < |Ins(y)| ==> SmallRead(Limit(y), Ins(y)[k].msg.body))
    && y.origin.session.maxMsgSize == DEFAULT_MAX_MSG_SIZE
    && y.client.sessionId == y.origin.session.sessionId
    && y.client.nextSeq == Wrap32(y.origin.session.expectedRemoteSeq.value + |Ins(y)|)
  }

  /** The frames in flight decode to the requests the server has not handled, in order. */
  ghost predicate PipeOk(y: System) {
    && 0 <= ServedCount(y)
    && forall i :: 0 <= i < |Pipe(y)| ==>
         var x := Ins(y)[ServedCount(y) + i];
         Decode(Pipe(y)[i].data) == Ok(x.msg) && Pipe(y)[i].env == x.env
  }

  ghost predicate ServerOk(y: System)
    requires 0 <= ServedCount(y)
  {
    && y.server == Numbered(y.origin.nextSeq, SoFar(y)).0
    && y.collected + |y.s2c| == |SoFar(y).1|
    && forall i :: 0 <= i < |y.s2c| ==> y.s2c[i] == Encode(Mail(y)[y.collected + i])
  }

  /** RECV_COMPs that were read by a verb other than a SEND, which does not pay for them. */
  function Strays(calls: seq<Call>, rs: seq<Note>): nat
    requires |rs| <= |calls|
  {
    if rs == [] then 0
    else
      var n := |rs| - 1;
      Strays(calls, rs[..n]) + (if rs[n].body.RecvCompBody? && !calls[n].verb.PostSend? then 1 else 0)
  }

  lemma {:induction false} StraysOfPrefix(calls: seq<Call>, more: seq<Call>, rs: seq<Note>)
    requires |rs| <= |calls|
    ensures Strays(calls + more, rs) == Strays(calls, rs)
  {
    if rs != [] {
      StraysOfPrefix(calls, more, rs[..|rs| - 1]);
    }
  }

  /** The completions of the finished verbs, in the order of the calls. */
  function Entries(sessionId: u32, calls: seq<Call>, outcomes: seq<Outcome>, rs: seq<Note>): seq<Cqe>
    requires |rs| == |outcomes| <= |calls|
  {
    if rs == [] then []
    else
      var n := |rs| - 1;
      Entries(sessionId, calls, outcomes[..n], rs[..n])
      + (match EntryFor(sessionId, calls[n].verb, rs[n].body, outcomes[n]) case Some(e) => [e] case None => [])
  }

  lemma {:induction false} EntriesOfPrefix(sessionId: u32, calls: seq<Call>, more: seq<Call>, outcomes: seq<Outcome>,
                                           rs: seq<Note>)
    requires |rs| == |outcomes| <= |calls|
    ensures Entries(sessionId, calls + more, outcomes, rs) == Entries(sessionId, calls, outcomes, rs)
  {
    if rs != [] {
      var n := |rs| - 1;
      EntriesOfPrefix(sessionId, calls, more, outcomes[..n], rs[..n]);
    }
  }

  ghost predicate ClientOk(y: System)
    requires 0 <= ServedCount(y) && y.collected <= |SoFar(y).1|
  {
    && y.client.expectedRemoteSeq == Some(Wrap32(y.origin.nextSeq + y.collected))
    && |Responses(Got(y))| == |y.outcomes| <= |y.calls|
    && y.client.sendCredits == y.origin.session.icc + Increments(Got(y)) - RecvComps(Got(y))
                               + Strays(y.calls, Responses(Got(y)))
    && |y.calls| == |y.outcomes| + (if y.waiting.Some? then 1 else 0)
    && (y.waiting.Some? ==> y.calls[|y.outcomes|].verb == y.waiting.value)
    && (forall k :: 0 <= k < |y.outcomes| ==>
          Explains(y.calls[k].verb, Responses(Got(y))[k].body, y.outcomes[k]))
    && y.pushed == Entries(y.client.sessionId, y.calls, y.outcomes, Responses(Got(y)))
  }

  /** No completion is ever lost, and a waiting verb has room for its own. */
  ghost predicate QueueOk(y: System) {
    && y.polled + y.client.cq == y.pushed
    && |y.client.cq| <= y.client.cqCapacity
    && y.client.sendCredits >= 0
    && (y.waiting.None? ==> y.outbox == [])
    && (y.waiting.Some? && UsesCq(y.waiting.value) ==> !CqFull(y.client))
    && (y.waiting.Some? && y.waiting.value.PostSend? ==> y.client.sendCredits >= 1)
  }

  ghost predicate Inv(y: System) {
    RequestsOk(y) && PipeOk(y) && ServerOk(y) && ClientOk(y) && QueueOk(y)
  }

  lemma StartInv(y: System)
    requires Start(y)
    ensures Inv(y)
  {
    hide MemoryModel.Valid, React, Encode, Decode;
    assert Issued(y.calls) == [];
  }

  // ---------------------------------------------------------------------
  // Begin
  // ---------------------------------------------------------------------

  /** The form of the notes a verb sends. */
  lemma RequestsShape(limit: nat, c: Client, v: Verb)
    requires Requests(c, v).Ok? && FitsVerb(limit, v)
    ensures var notes := Requests(c, v).value;
            && |notes| == (if v.PostSend? || v.RdmaWrite? then 2 else 1)
            && (forall i :: 0 <= i < |notes| ==>
                  && IsRequestBody(notes[i].body) && SmallRead(limit, notes[i].body)
                  && PayloadSize(notes[i].body) <= DEFAULT_MAX_MSG_SIZE)
  {
    hide Gather;
    if v.PostSend? || v.RdmaWrite? {
      GatherSucceeds(c.localMrs, v.sg);
    }
  }

  lemma BeginShaped(limit: nat, c: Client, v: Verb, env1: Env, env2: Env)
    requires Requests(c, v).Ok? && FitsVerb(limit, v)
    ensures Shaped(Call(v, AsInputs(Stamp(c.sessionId, c.nextSeq, Requests(c, v).value), env1, env2)))
  {
    hide Gather, Wrap32, StartOf;
    RequestsShape(limit, c, v);
    if v.RdmaWrite? || v.PostSend? {
      GatherSucceeds(c.localMrs, v.sg);
    }
  }

  lemma {:induction false} IssuedAppend(calls: seq<Call>, c: Call)
    ensures Issued(calls + [c]) == Issued(calls) + c.reqs
  {
    assert (calls + [c])[..|calls|] == calls;
  }

  lemma BeginInOrder(y: System, v: Verb, env1: Env, env2: Env, i: nat)
    requires RequestsOk(y) && Requests(y.client, v).Ok? && FitsVerb(Limit(y), v)
    requires i < |Requests(y.client, v).value|
    ensures var x := AsInputs(Stamp(y.client.sessionId, y.client.nextSeq, Requests(y.client, v).value), env1, env2)[i];
            SmallRead(Limit(y), x.msg.body) && InOrder(y.origin.session, x, |Ins(y)| + i)
  {
    hide Requests, Issued;
    RequestsShape(Limit(y), y.client, v);
    var e := y.origin.session.expectedRemoteSeq.value;
    WrapTwice(e + |Ins(y)|, i);
  }

  lemma BeginKeepsRequests(y: System, v: Verb, env1: Env, env2: Env)
    requires RequestsOk(y) && Requests(y.client, v).Ok? && FitsVerb(Limit(y), v)
    ensures RequestsOk(BeginStep(y, v, env1, env2))
    ensures var y' := BeginStep(y, v, env1, env2);
            var call := y'.calls[|y.calls|];
            y'.calls == y.calls + [call] && Ins(y') == Ins(y) + call.reqs
  {
    hide Requests, Issued, Shaped, InOrder, SmallRead, Stamp, AsInputs, AsFrames;
    var y' := BeginStep(y, v, env1, env2);
    var notes := Requests(y.client, v).value;
    var call := Call(v, AsInputs(Stamp(y.client.sessionId, y.client.nextSeq, notes), env1, env2));
    IssuedAppend(y.calls, call);
    BeginShaped(Limit(y), y.client, v, env1, env2);
    forall i | 0 <= i < |notes|
      ensures SmallRead(Limit(y), call.reqs[i].msg.body) && InOrder(y.origin.session, call.reqs[i], |Ins(y)| + i)
    {
      BeginInOrder(y, v, env1, env2, i);
    }
    assert forall k :: |Ins(y)| <= k < |Ins(y')| ==> Ins(y')[k] == call.reqs[k - |Ins(y)|];
    WrapTwice(y.origin.session.expectedRemoteSeq.value + |Ins(y)|, |notes|);
  }

  /** The same requests handled gives the same effect. */
  lemma SameSoFar(y: System, y': System)
    requires 0 <= ServedCount(y) && ServedCount(y') == ServedCount(y) && y'.origin == y.origin
    requires |Ins(y)| <= |Ins(y')| && Ins(y')[..|Ins(y)|] == Ins(y)
    ensures SoFar(y') == SoFar(y)
  {
    hide Run, Issued;
    assert Ins(y')[..ServedCount(y)] == Ins(y)[..ServedCount(y)];
  }

  lemma RequestDecodes(y: System, v: Verb, i: nat)
    requires Requests(y.client, v).Ok? && FitsVerb(Limit(y), v) && i < |Requests(y.client, v).value|
    ensures var m := Stamp(y.client.sessionId, y.client.nextSeq, Requests(y.client, v).value)[i];
            Decode(Encode(m)) == Ok(Landed(m))
  {
    hide Requests, Encode, Decode, Landed, FitsVerb;
    RequestsShape(Limit(y), y.client, v);
    WireRoundTrip(Stamp(y.client.sessionId, y.client.nextSeq, Requests(y.client, v).value)[i]);
  }

  lemma BeginKeepsPipe(y: System, v: Verb, env1: Env, env2: Env)
    requires RequestsOk(y) && PipeOk(y) && y.outbox == [] && Requests(y.client, v).Ok? && FitsVerb(Limit(y), v)
    ensures var y' := BeginStep(y, v, env1, env2);
            PipeOk(y') && ServedCount(y') == ServedCount(y) && SoFar(y') == SoFar(y)
  {
    hide Requests, Issued, RequestsOk, Encode, Decode, Landed, Stamp, Run;
    var y' := BeginStep(y, v, env1, env2);
    BeginKeepsRequests(y, v, env1, env2);
    var msgs := Stamp(y.client.sessionId, y.client.nextSeq, Requests(y.client, v).value);
    var reqs := AsInputs(msgs, env1, env2);
    assert Pipe(y') == Pipe(y) + AsFrames(msgs, env1, env2);
    forall i | |Pipe(y)| <= i < |Pipe(y')|
      ensures Decode(Pipe(y')[i].data) == Ok(Ins(y')[ServedCount(y') + i].msg)
      ensures Pipe(y')[i].env == Ins(y')[ServedCount(y') + i].env
    {
      RequestDecodes(y, v, i - |Pipe(y)|);
    }
    SameSoFar(y, y');
  }

  lemma BeginKeepsInv(y: System, v: Verb, env1: Env, env2: Env)
    requires Inv(y) && y.waiting.None? && y.outbox == [] && FitsVerb(Limit(y), v)
    ensures Inv(BeginStep(y, v, env1, env2))
  {
    hide Issued, RequestsOk, Run, Stamp, Numbered, Increments, RecvComps, Responses, Explains, Encode,
         Decode, Gather, Strays, Entries;
    if Requests(y.client, v).Ok? {
      BeginKeepsRequests(y, v, env1, env2);
      BeginKeepsPipe(y, v, env1, env2);
      var more := BeginStep(y, v, env1, env2).calls[|y.calls|..];
      StraysOfPrefix(y.calls, more, Responses(Got(y)));
      EntriesOfPrefix(y.client.sessionId, y.calls, more, y.outcomes, Responses(Got(y)));
    }
  }

  // ---------------------------------------------------------------------
  // Transmit, Poll, StoreLocal
  // ---------------------------------------------------------------------

  lemma TransmitKeepsInv(y: System)
    requires Inv(y) && y.outbox != []
    ensures Inv(Apply(y, Transmit))
  {
    hide Issued, RequestsOk, Run, Stamp, Numbered, Increments, RecvComps, Responses, Explains, Encode, Decode,
         Entries, Strays;
    var y' := Apply(y, Transmit);
    assert Pipe(y') == Pipe(y);
    SameSoFar(y, y');
    assert RequestsOk(y') by { SameRequests(y, y'); }
  }

  lemma PollKeepsInv(y: System, max: nat)
    requires Inv(y) && y.waiting.None?
    ensures Inv(PollStep(y, max))
  {
    hide Issued, RequestsOk, Run, Stamp, Numbered, Increments, RecvComps, Responses, Explains, Encode, Decode,
         Entries, Strays;
    var y' := PollStep(y, max);
    SameSoFar(y, y');
    assert RequestsOk(y') by { SameRequests(y, y'); }
  }

  lemma SameRequests(y: System, y': System)
    requires RequestsOk(y) && y'.calls == y.calls && y'.origin == y.origin
    requires y'.client.nextSeq == y.client.nextSeq && y'.client.sessionId == y.client.sessionId
    ensures RequestsOk(y')
  {
  }

  lemma StoreLocalKeepsInv(y: System, lkey: u32, offset: nat, data: bytes)
    requires Inv(y) && y.waiting.None?
    ensures Inv(Apply(y, StoreLocal(lkey, offset, data)))
  {
    hide Issued, RequestsOk, Run, Stamp, Numbered, Increments, RecvComps, Responses, Explains, Encode, Decode,
         Entries, Strays;
    var y' := Apply(y, StoreLocal(lkey, offset, data));
    SameSoFar(y, y');
    assert RequestsOk(y') by { SameRequests(y, y'); }
  }

  // ---------------------------------------------------------------------
  // Serve
  // ---------------------------------------------------------------------

  /** The next frame in the channel decodes to the next request. */
  lemma NextRequestDecodes(y: System)
    requires RequestsOk(y) && PipeOk(y) && y.c2s != []
    ensures var n := ServedCount(y);
            && n < |Ins(y)|
            && Decode(y.c2s[0].data) == Ok(Ins(y)[n].msg) && y.c2s[0].env == Ins(y)[n].env
  {
    hide Issued, GoodTraffic, Decode;
    assert Pipe(y)[0] == y.c2s[0];
  }

  lemma RunStep(s: Session, ins: seq<Input>, n: nat)
    requires n < |ins|
    ensures var (t, out) := Run(s, ins[..n]);
            var (t', more) := React(t, ins[n].msg, ins[n].env);
            Run(s, ins[..n + 1]) == (t', out + more)
  {
    hide React;
    assert ins[..n + 1][..n] == ins[..n];
  }

  /** After the handshake the session id of a run never changes. */
  lemma {:induction false} RunKeepsSessionId(s: Session, ins: seq<Input>)
    requires s.phase != AwaitingConnect
    ensures Run(s, ins).0.sessionId == s.sessionId && Run(s, ins).0.phase != AwaitingConnect
  {
    hide React;
    if ins != [] {
      var n := |ins| - 1;
      RunKeepsSessionId(s, ins[..n]);
      ReactKeepsSessionId(Run(s, ins[..n]).0, ins[n].msg, ins[n].env);
    }
  }

  lemma ServeExtends(y: System)
    requires RequestsOk(y) && PipeOk(y) && ServerOk(y) && y.c2s != []
    ensures var y' := ServeStep(y);
            && PipeOk(y') && ServedCount(y') == ServedCount(y) + 1
            && Ins(y') == Ins(y)
            && SoFar(y).1 <= SoFar(y').1
            && y'.server == Numbered(y.origin.nextSeq, SoFar(y')).0
            && y'.s2c == y.s2c + EncodeAll(Mail(y')[|SoFar(y).1|..])
            && Mail(y')[..|SoFar(y).1|] == Mail(y)
  {
    hide Run, React, Issued, RequestsOk, Encode, Decode, Stamp, Wrap32, ServeFrame;
    NextRequestDecodes(y);
    var n := ServedCount(y);
    var x := Ins(y)[n];
    var y' := ServeStep(y);
    ServeFrameHandles(y.server, y.c2s[0], x.msg);
    var (t, out) := SoFar(y);
    var (t', more) := React(t, x.msg, x.env);
    assert Pipe(y') == Pipe(y)[1..];
    RunStep(y.origin.session, Ins(y), n);
    assert y.origin.session.phase != AwaitingConnect by { ReadyAtOrigin(y); }
    RunKeepsSessionId(y.origin.session, Ins(y)[..n]);
    RunKeepsSessionId(y.origin.session, Ins(y)[..n + 1]);
    StampConcat(y.origin.session.sessionId, y.origin.nextSeq, out, more);
  }

  lemma ReadyAtOrigin(y: System)
    requires RequestsOk(y)
    ensures y.origin.session.phase == Ready
  {
  }

  lemma ServeKeepsInv(y: System)
    requires Inv(y) && y.c2s != []
    ensures Inv(ServeStep(y))
  {
    hide Issued, RequestsOk, Run, Stamp, Numbered, Increments, RecvComps, Responses, Explains, Encode,
         ServeFrame, Decode, Entries, Strays;
    var y' := ServeStep(y);
    ServeExtends(y);
    assert RequestsOk(y') by { SameRequests(y, y'); }
    assert Got(y') == Got(y);
    forall i | 0 <= i < |y'.s2c|
      ensures y'.s2c[i] == Encode(Mail(y')[y'.collected + i])
    {
      if i < |y.s2c| {
        assert Mail(y')[y.collected + i] == Mail(y)[y.collected + i];
      }
    }
  }

  // ---------------------------------------------------------------------
  // Collect
  // ---------------------------------------------------------------------

  /** The next frame for the client decodes to the next message the server sent, correctly numbered. */
  lemma NextResponseDecodes(y: System)
    requires RequestsOk(y) && PipeOk(y) && ServerOk(y) && y.s2c != []
    ensures var n := SoFar(y).1[y.collected];
            var m := Decode(y.s2c[0]);
            && m.Ok? && m.value.body == n.body && m.value.header.wrid == n.wrid
            && m.value.header.opcode == OpcodeOf(n.body)
            && m.value.header.sequence == Wrap32(y.origin.nextSeq + y.collected)
  {
    hide Issued, Run, Encode, Decode, WellFormed, NoteFits, AllShaped, MemoryModel.Valid;
    var ins := Ins(y)[..ServedCount(y)];
    assert forall k :: 0 <= k < |ins| ==> SmallRead(Limit(y), ins[k].msg.body);
    NotesFit(y.origin.session, ins);
    var n := SoFar(y).1[y.collected];
    assert n in SoFar(y).1;
    var m := Mail(y)[y.collected];
    FittingNoteIsWellFormed(y.origin.session.sessionId, Wrap32(y.origin.nextSeq + y.collected), n);
    RoundTrip(m);
  }

  /** What accepting a response does to the counters of the client. */
  lemma AcceptEffect(c: Client, v: Verb, m: Message)
    ensures var c' := Accept(c, v, m).0;
            && c'.sessionId == c.sessionId && c'.nextSeq == c.nextSeq
            && c'.expectedRemoteSeq == c.expectedRemoteSeq && c'.cqCapacity == c.cqCapacity
            && c'.sendCredits == c.sendCredits - (if m.body.RecvCompBody? && v.PostSend? then 1 else 0)
            && c'.cq == PushCompletion(c, v, m).cq
            && (Completion(c, v, m).Some? ==> UsesCq(v))
  {
    hide Completion, Splice, Zeros;
    CompletionNeedsCq(c, v, m);
  }

  lemma CompletionNeedsCq(c: Client, v: Verb, m: Message)
    ensures Completion(c, v, m).Some? ==> UsesCq(v)
  {
  }

  /** Reading one more message extends what the client has got. */
  lemma GotGrows(y: System, y': System)
    requires 0 <= ServedCount(y) && y.collected < |SoFar(y).1|
    requires y'.calls == y.calls && y'.origin == y.origin && y'.c2s == y.c2s && y'.outbox == y.outbox
    requires y'.collected == y.collected + 1
    ensures ServedCount(y') == ServedCount(y) && SoFar(y') == SoFar(y)
    ensures Got(y') == Got(y) + [SoFar(y).1[y.collected]]
  {
    hide Run, Issued;
  }

  lemma CollectKeepsServer(y: System, y': System)
    requires RequestsOk(y) && PipeOk(y) && ServerOk(y) && y.s2c != []
    requires y'.calls == y.calls && y'.origin == y.origin && y'.c2s == y.c2s && y'.outbox == y.outbox
    requires y'.collected == y.collected + 1 && y'.s2c == y.s2c[1..] && y'.server == y.server
    requires y'.client.nextSeq == y.client.nextSeq && y'.client.sessionId == y.client.sessionId
    ensures RequestsOk(y') && PipeOk(y') && ServerOk(y')
  {
    hide Run, Issued, RequestsOk, Stamp, Numbered, Encode;
    SameRequests(y, y');
    GotGrows(y, y');
  }

  /** A credit update is absorbed and the verb keeps waiting. */
  lemma CreditKeepsClient(y: System, y': System, c: Client)
    requires Inv(y) && y.waiting.Some? && y.s2c != [] && y'.collected == y.collected + 1
    requires SoFar(y).1[y.collected].body.CreditUpdateBody?
    requires y' == y.(s2c := y.s2c[1..], collected := y.collected + 1, client := c)
    requires c == y.client.(expectedRemoteSeq := Some(Wrap32(Wrap32(y.origin.nextSeq + y.collected) + 1)),
                            sendCredits := y.client.sendCredits + SoFar(y).1[y.collected].body.creditIncrement)
    ensures 0 <= ServedCount(y') && y'.collected <= |SoFar(y').1| && ClientOk(y') && QueueOk(y')
  {
    hide Run, Issued, RequestsOk, ServerOk, Increments, RecvComps, Responses, Explains, Wrap32, Decode, Entries;
    assert y.collected < |SoFar(y).1| by { UnreadExists(y); }
    GotGrows(y, y');
    var n := SoFar(y).1[y.collected];
    MeasuresOfFew(n);
    CountsConcat(Got(y), [n]);
    ResponsesConcat(Got(y), [n]);
    assert Responses(Got(y)) + [] == Responses(Got(y));
    WrapTwice(y.origin.nextSeq + y.collected, 1);
  }

  lemma UnreadExists(y: System)
    requires PipeOk(y) && ServerOk(y) && y.s2c != []
    ensures y.collected < |SoFar(y).1|
  {
  }

  /** Any other message ends the verb. */
  lemma ResponseKeepsClient(y: System, y': System, c: Client, m: Message)
    requires Inv(y) && y.waiting.Some? && y.outbox == [] && y.s2c != [] && y.collected < |SoFar(y).1|
    requires var n := SoFar(y).1[y.collected]; !n.body.CreditUpdateBody? && m.body == n.body
    requires c == y.client.(expectedRemoteSeq := Some(Wrap32(Wrap32(y.origin.nextSeq + y.collected) + 1)))
    requires var v := y.waiting.value;
             var (c1, o) := Accept(c, v, m);
             y' == y.(s2c := y.s2c[1..], collected := y.collected + 1, client := c1, waiting := None,
                      outcomes := y.outcomes + [o],
                      pushed := y.pushed + (match Completion(c, v, m) case Some(e) => [e] case None => []))
    ensures 0 <= ServedCount(y') && y'.collected <= |SoFar(y').1| && ClientOk(y') && QueueOk(y')
  {
    hide Run, Issued, RequestsOk, ServerOk, Increments, RecvComps, Responses, Explains, Wrap32, Accept, Completion,
         EntryFor, Decode;
    GotGrows(y, y');
    var v := y.waiting.value;
    var n := SoFar(y).1[y.collected];
    MeasuresOfFew(n);
    CountsConcat(Got(y), [n]);
    ResponsesConcat(Got(y), [n]);
    assert (Responses(Got(y)) + [n])[..|y.outcomes|] == Responses(Got(y));
    assert y'.outcomes[..|y.outcomes|] == y.outcomes;
    WrapTwice(y.origin.nextSeq + y.collected, 1);
    AcceptEffect(c, v, m);
    AcceptExplains(c, v, m);
    CompletionIsEntry(c, v, m);
  }

  lemma CollectKeepsInv(y: System)
    requires Inv(y) && y.waiting.Some? && y.outbox == [] && y.s2c != []
    ensures Inv(CollectStep(y))
    ensures Decode(y.s2c[0]).Ok? && !OnArrival(y.client, Decode(y.s2c[0]).value).SeqGap?
  {
    hide Run, Issued, RequestsOk, Increments, RecvComps, Responses, Explains, Wrap32, Accept, Completion,
         Encode, Decode, Stamp, Numbered, UsesCq;
    NextResponseDecodes(y);
    UnreadExists(y);
    var m := Decode(y.s2c[0]).value;
    var y' := CollectStep(y);
    match OnArrival(y.client, m)
    case Credit(c) =>
      CollectKeepsServer(y, y');
      CreditKeepsClient(y, y', c);
    case Application(c) =>
      AcceptEffect(c, y.waiting.value, m);
      CollectKeepsServer(y, y');
      ResponseKeepsClient(y, y', c, m);
  }

  // ---------------------------------------------------------------------
  // Every run
  // ---------------------------------------------------------------------

  lemma StepKeepsOrigin(y: System, step: Step)
    ensures Apply(y, step).origin == y.origin && y.calls <= Apply(y, step).calls
  {
    hide Decode, Encode, ServeFrame, Requests, OnArrival, Accept, Completion, WriteLocal, Stamp, AsInputs, AsFrames;
  }

  /** A run only adds to the calls. */
  lemma {:induction false} RunExtends(y: System, steps: seq<Step>)
    ensures Exec(y, steps).origin == y.origin && y.calls <= Exec(y, steps).calls
  {
    hide Apply;
    if steps != [] {
      RunExtends(y, steps[..|steps| - 1]);
      StepKeepsOrigin(Exec(y, steps[..|steps| - 1]), steps[|steps| - 1]);
    }
  }

  lemma StepKeepsInv(y: System, step: Step)
    requires Inv(y) && FitsStep(Limit(y), step)
    ensures Inv(Apply(y, step))
  {
    hide Inv, BeginStep, ServeStep, CollectStep, PollStep, WriteLocal, FitsVerb;
    match step
    case Begin(v, env1, env2) =>
      if y.waiting.None? && y.outbox == [] { BeginKeepsInv(y, v, env1, env2); }
    case Transmit =>
      if y.outbox != [] { TransmitKeepsInv(y); }
    case Serve =>
      if y.c2s != [] { ServeKeepsInv(y); }
    case Collect =>
      if y.waiting.Some? && y.outbox == [] && y.s2c != [] { CollectKeepsInv(y); }
    case Poll(max) =>
      if y.waiting.None? { PollKeepsInv(y, max); }
    case StoreLocal(lkey, offset, data) =>
      if y.waiting.None? { StoreLocalKeepsInv(y, lkey, offset, data); }
  }

  /** All verbs of a run fit the sizes of the connection. */
  ghost predicate Fit(y: System, steps: seq<Step>) {
    forall i :: 0 <= i < |steps| ==> FitsStep(Limit(y), steps[i])
  }

  lemma {:induction false} StepsKeepInv(y: System, steps: seq<Step>)
    requires Inv(y) && Fit(y, steps)
    ensures Inv(Exec(y, steps))
  {
    hide Inv, Apply;
    if steps != [] {
      var n := |steps| - 1;
      StepsKeepInv(y, steps[..n]);
      RunExtends(y, steps[..n]);
      StepKeepsInv(Exec(y, steps[..n]), steps[n]);
    }
  }

  /** The invariant holds after every run from a fresh connection. */
  lemma RunKeepsInv(y: System, steps: seq<Step>)
    requires Start(y) && Fit(y, steps)
    ensures Inv(Exec(y, steps))
  {
    hide Inv, Start, Exec, Fit;
    StartInv(y);
    StepsKeepInv(y, steps);
  }
}
