/**
 The server under the traffic of client verbs: in-order requests are always
 processed, and each verb is answered by exactly one response, except that a
 WRITE refused at its key check draws a second ERROR for its data.
 */
module Traffic {
  import opened Core
  import opened MemoryModel
  import opened SessionModel
  import opened SessionRuns
  import opened ClientModel

  // ---------------------------------------------------------------------
  // In-order traffic
  // ---------------------------------------------------------------------

  /** The bodies client verbs send. */
  predicate IsRequestBody(b: Body) {
    b.MrRegBody? || b.MrDeregBody? || b.SendBody? || b.SendDataBody? || b.WriteBody? || b.WriteDataBody?
    || b.ReadReqBody? || b.AtomicReqBody?
  }

  /** The `k`-th request after the point where session `s` expects number `e`. */
  predicate InOrder(s: Session, x: Input, k: nat) {
    && s.expectedRemoteSeq.Some?
    && x.msg.header.sequence == Wrap32(s.expectedRemoteSeq.value + k)
    && x.msg.header.payloadLength <= s.maxMsgSize
    && IsRequestBody(x.msg.body)
  }

  /** Requests numbered consecutively from what the session expects, none of them oversize. */
  ghost predicate Orderly(s: Session, ins: seq<Input>) {
    s.phase == Ready && s.expectedRemoteSeq.Some? && forall k :: 0 <= k < |ins| ==> InOrder(s, ins[k], k)
  }

  /** `t` is ready for the request that comes `n` places after the next one `s` expects. */
  predicate InStep(s: Session, t: Session, n: nat) {
    && t.phase == Ready && s.expectedRemoteSeq.Some?
    && t.expectedRemoteSeq == Some(Wrap32(s.expectedRemoteSeq.value + n))
    && t.maxMsgSize == s.maxMsgSize && t.icc == s.icc && t.sessionId == s.sessionId && t.pd == s.pd
    && t.outstandingReads == s.outstandingReads && t.maxOutstandingReads == s.maxOutstandingReads
  }

  /** A request that passes the filters goes to its handler. */
  lemma ReactDispatches(s: Session, m: Message, env: Env)
    requires Processed(s, m) && IsRequestBody(m.body)
    ensures React(s, m, env) == Dispatch(Advance(s, m), m, env)
  {
    hide Dispatch;
  }

  lemma StepInOrder(s: Session, t: Session, x: Input, k: nat)
    requires InStep(s, t, k) && InOrder(s, x, k)
    ensures Processed(t, x.msg) && InStep(s, React(t, x.msg, x.env).0, k + 1)
  {
    hide React, Dispatch;
    ReactDispatches(t, x.msg, x.env);
    WrapTwice(s.expectedRemoteSeq.value + k, 1);
  }

  /** No false gaps on the server: in-order requests of any number are all processed. */
  lemma {:induction false} OrderlyIsProcessed(s: Session, ins: seq<Input>)
    requires Orderly(s, ins)
    ensures InStep(s, Run(s, ins).0, |ins|)
    ensures Kept(s, ins) == ins
  {
    hide React;
    if ins != [] {
      var n := |ins| - 1;
      OrderlyIsProcessed(s, ins[..n]);
      StepInOrder(s, Run(s, ins[..n]).0, ins[n], n);
      assert ins[..n] + [ins[n]] == ins;
    }
  }

  lemma OrderlyPrefix(s: Session, ins: seq<Input>, n: nat)
    requires Orderly(s, ins) && n <= |ins|
    ensures Orderly(s, ins[..n])
  {
  }

  lemma OrderlySuffix(s: Session, t: Session, a: seq<Input>, b: seq<Input>)
    requires Orderly(s, a + b) && InStep(s, t, |a|)
    ensures Orderly(t, b)
  {
    forall k | 0 <= k < |b|
      ensures InOrder(t, b[k], k)
    {
      assert InOrder(s, (a + b)[|a| + k], |a| + k);
      WrapTwice(s.expectedRemoteSeq.value + |a|, k);
    }
  }

  // ---------------------------------------------------------------------
  // One verb
  // ---------------------------------------------------------------------

  /** A verb that went out, with the requests it sent. */
  datatype Call = Call(verb: Verb, reqs: seq<Input>)

  /** The requests have the form the verb gives them. */
  predicate Shaped(c: Call) {
    && |c.reqs| == (if c.verb.PostSend? || c.verb.RdmaWrite? then 2 else 1)
    && (UsesCq(c.verb) ==> forall i :: 0 <= i < |c.reqs| ==> c.reqs[i].msg.header.wrid == c.verb.wrid)
    && OpcodeOf(c.reqs[0].msg.body) == VerbOpcode(c.verb)
    && match c.verb
       case RegMr(flags, len) =>
         && c.reqs[0].msg.body.MrRegBody? && c.reqs[0].msg.body.accessFlags == flags
         && c.reqs[0].msg.body.regionLen == len && c.reqs[0].msg.body.suggestedLkey == None
       case DeregMr(lkey) => c.reqs[0].msg.body.MrDeregBody? && c.reqs[0].msg.body.lkey == lkey
       case PostSend(_, sg) =>
         && c.reqs[0].msg.body == SendBody(sg[..|sg| % 0x1_0000])
         && c.reqs[1].msg.body.SendDataBody? && |c.reqs[1].msg.body.data| == StartOf(sg, |sg|)
       case RdmaWrite(_, rkey, va, sg) =>
         && c.reqs[0].msg.body.WriteBody? && c.reqs[1].msg.body.WriteDataBody?
         && c.reqs[0].msg.body.rkey == rkey && c.reqs[0].msg.body.remoteVa == va
         && c.reqs[0].msg.body.length == StartOf(sg, |sg|) && c.reqs[0].msg.body.sgList == sg
         && |c.reqs[1].msg.body.data| == StartOf(sg, |sg|)
       case RdmaRead(_, rkey, va, len, lkey, lva) => c.reqs[0].msg.body == ReadReqBody(rkey, va, len, lkey, lva)
       case PostAtomic(_, rkey, va, kind, op1, op2) =>
         c.reqs[0].msg.body == AtomicReqBody(rkey, kind, va, op1, op2)
  }

  /** A response to the verb: an ERROR, or the verb's own completion with the verb's own WRID. */
  predicate Answers(v: Verb, n: Note) {
    n.body.ErrorBody? ||
    match v
    case RegMr(_, _) => n.body.MrRegAckBody?
    case DeregMr(_) => n.body.MrDeregAckBody?
    case PostSend(wrid, _) => n == Note(wrid, RecvCompBody)
    case RdmaWrite(wrid, _, _, _) => n == Note(wrid, WriteCompBody)
    case RdmaRead(wrid, _, _, len, _, _) => n.wrid == wrid && n.body.ReadRespBody? && |n.body.data| == len
    case PostAtomic(wrid, _, _, _, _, _) => n.wrid == wrid && n.body.AtomicRespBody?
  }

  /** The verb is a WRITE whose R_Key the server refuses before it has seen the data. */
  predicate RefusedWrite(s: Session, v: Verb) {
    v.RdmaWrite? && Lookup(s.store, v.rkey, REMOTE_WRITE).Err?
  }

  /** What a session without a pending operation does with the requests of one verb. */
  predicate Served(s: Session, v: Verb, e: Effect) {
    && e.0.pending == NoPending
    && |Responses(e.1)| == (if RefusedWrite(s, v) then 2 else 1)
    && Answers(v, Responses(e.1)[0])
    && (RefusedWrite(s, v) ==>
          var second := Responses(e.1)[1].body; second.ErrorBody? && second.code == ErrUnknownOpcode)
  }

  lemma RunOne(s: Session, x: Input)
    ensures Run(s, [x]) == React(s, x.msg, x.env)
  {
    hide React;
    assert [x][..0] == [];
    assert [] + React(s, x.msg, x.env).1 == React(s, x.msg, x.env).1;
  }

  lemma RunTwo(s: Session, x: Input, y: Input)
    ensures var (s1, o1) := React(s, x.msg, x.env);
            var (s2, o2) := React(s1, y.msg, y.env);
            Run(s, [x, y]) == (s2, o1 + o2)
  {
    hide React;
    RunOne(s, x);
    assert [x, y][..1] == [x];
  }

  /** A single non-credit message is its own list of responses. */
  lemma OneResponse(n: Note)
    requires !n.body.CreditUpdateBody?
    ensures Responses([n]) == [n]
  {
    MeasuresOfFew(n);
  }

  /** The first request of a verb reaches its handler. */
  lemma FirstDispatched(s: Session, c: Call)
    requires Orderly(s, c.reqs) && Shaped(c)
    ensures var x := c.reqs[0];
            && InStep(s, React(s, x.msg, x.env).0, 1)
            && React(s, x.msg, x.env) == Dispatch(Advance(s, x.msg), x.msg, x.env)
  {
    hide React, Dispatch;
    StepInOrder(s, s, c.reqs[0], 0);
    ReactDispatches(s, c.reqs[0].msg, c.reqs[0].env);
  }

  lemma SingleServed(s: Session, c: Call)
    requires Orderly(s, c.reqs) && Shaped(c) && s.pending == NoPending
    requires !c.verb.PostSend? && !c.verb.RdmaWrite?
    ensures Served(s, c.verb, Run(s, c.reqs))
  {
    hide Run, React, Responses, HandleMrReg, HandleMrDereg, HandleReadReq, HandleAtomicReq,
         HandleSend, HandleSendData, HandleWrite, HandleWriteData;
    var x := c.reqs[0];
    assert c.reqs == [x];
    RunOne(s, x);
    FirstDispatched(s, c);
    var out := React(s, x.msg, x.env).1;
    assert |out| == 1 && Answers(c.verb, out[0]);
    OneResponse(out[0]);
    assert out == [out[0]];
  }

  /** Both requests of a two-message verb reach their handlers. */
  lemma SecondDispatched(s: Session, c: Call)
    requires Orderly(s, c.reqs) && Shaped(c) && |c.reqs| == 2
    ensures var (x, y) := (c.reqs[0], c.reqs[1]);
            var (s1, o1) := Dispatch(Advance(s, x.msg), x.msg, x.env);
            var (s2, o2) := Dispatch(Advance(s1, y.msg), y.msg, y.env);
            Run(s, c.reqs) == (s2, o1 + o2)
  {
    hide Run, React, Dispatch;
    var x, y := c.reqs[0], c.reqs[1];
    assert c.reqs == [x, y];
    RunTwo(s, x, y);
    FirstDispatched(s, c);
    var s1 := React(s, x.msg, x.env).0;
    StepInOrder(s, s1, y, 1);
    ReactDispatches(s1, y.msg, y.env);
  }

  lemma SendServed(s: Session, c: Call)
    requires Orderly(s, c.reqs) && Shaped(c) && s.pending == NoPending && c.verb.PostSend?
    ensures Served(s, c.verb, Run(s, c.reqs))
  {
    hide Run, Responses, Ascii, HandleSend, CompleteSend;
    var x, y := c.reqs[0], c.reqs[1];
    SecondDispatched(s, c);
    var (s1, o1) := HandleSend(Advance(s, x.msg), x.msg.header);
    var s1' := Advance(s1, y.msg);
    if s1.pending.DiscardingSendData? {
      OneResponse(o1[0]);
      assert o1 + [] == [o1[0]];
    } else {
      CompletionResponds(s1'.(pending := NoPending), c.verb.wrid);
      var o2 := CompleteSend(s1'.(pending := NoPending), c.verb.wrid).1;
      assert o1 + o2 == o2;
    }
  }

  lemma CompletionResponds(s: Session, wrid: u64)
    ensures Responses(CompleteSend(s, wrid).1) == [Note(wrid, RecvCompBody)]
    ensures CompleteSend(s, wrid).0.pending == s.pending
  {
    hide Responses;
    var comp := Note(wrid, RecvCompBody);
    var credit := Note(0, CreditUpdateBody(Wrap32(s.sendsSinceLastCredit + 1)));
    MeasuresOfFew(comp);
    MeasuresOfFew(credit);
    ResponsesConcat([comp], [credit]);
    assert CompleteSend(s, wrid).1 == [comp] || CompleteSend(s, wrid).1 == [comp] + [credit];
  }

  lemma WriteServed(s: Session, c: Call)
    requires Orderly(s, c.reqs) && Shaped(c) && s.pending == NoPending && c.verb.RdmaWrite?
    ensures Served(s, c.verb, Run(s, c.reqs))
  {
    hide Run, Responses, Ascii, Lookup, HandleWriteData, HandleMrReg, HandleMrDereg, HandleSend, HandleSendData,
         HandleReadReq, HandleAtomicReq;
    var x, y := c.reqs[0], c.reqs[1];
    SecondDispatched(s, c);
    var (s1, o1) := HandleWrite(Advance(s, x.msg), x.msg.header, x.msg.body);
    var (s2, o2) := HandleWriteData(Advance(s1, y.msg), y.msg.body.data);
    OneResponse(o2[0]);
    assert o2 == [o2[0]];
    if RefusedWrite(s, c.verb) {
      OneResponse(o1[0]);
      assert o1 == [o1[0]];
      ResponsesConcat(o1, o2);
    } else {
      assert o1 + o2 == o2;
    }
  }

  /** Every verb is answered once, or twice when it is a refused WRITE. */
  lemma VerbServed(s: Session, c: Call)
    requires Orderly(s, c.reqs) && Shaped(c) && s.pending == NoPending
    ensures Served(s, c.verb, Run(s, c.reqs))
  {
    hide Run, Served;
    if c.verb.PostSend? {
      SendServed(s, c);
    } else if c.verb.RdmaWrite? {
      WriteServed(s, c);
    } else {
      SingleServed(s, c);
    }
  }

  // ---------------------------------------------------------------------
  // Any number of verbs
  // ---------------------------------------------------------------------

  /** All requests of a sequence of calls, in the order they were sent. */
  function Issued(calls: seq<Call>): seq<Input> {
    if calls == [] then [] else Issued(calls[..|calls| - 1]) + calls[|calls| - 1].reqs
  }

  /** The session as it is when it comes to the `k`-th call. */
  function Before(s: Session, calls: seq<Call>, k: nat): Session
    requires k <= |calls|
  {
    Run(s, Issued(calls[..k])).0
  }

  /** Number of WRITEs refused at their key check. */
  function Refusals(s: Session, calls: seq<Call>): nat {
    if calls == [] then 0
    else
      var n := |calls| - 1;
      Refusals(s, calls[..n]) + (if RefusedWrite(Before(s, calls, n), calls[n].verb) then 1 else 0)
  }

  ghost predicate AllShaped(calls: seq<Call>) {
    forall k :: 0 <= k < |calls| ==> Shaped(calls[k])
  }

  /** The session starts between verbs and the calls reach it in order. */
  ghost predicate GoodTraffic(s: Session, calls: seq<Call>) {
    s.pending == NoPending && AllShaped(calls) && Orderly(s, Issued(calls))
  }

  lemma GoodPrefix(s: Session, calls: seq<Call>)
    requires GoodTraffic(s, calls) && calls != []
    ensures var n := |calls| - 1;
            GoodTraffic(s, calls[..n]) && Issued(calls) == Issued(calls[..n]) + calls[n].reqs
  {
    var n := |calls| - 1;
    OrderlyPrefix(s, Issued(calls), |Issued(calls[..n])|);
    assert Issued(calls)[..|Issued(calls[..n])|] == Issued(calls[..n]);
  }

  /** The last call meets a session without a pending operation, in step with its requests. */
  lemma {:induction false} LastCallServed(s: Session, calls: seq<Call>)
    requires GoodTraffic(s, calls) && calls != []
    ensures var n := |calls| - 1;
            var d := Before(s, calls, n);
            && d.pending == NoPending && Orderly(d, calls[n].reqs)
            && Served(d, calls[n].verb, Run(d, calls[n].reqs))
            && Run(s, Issued(calls))
               == (Run(d, calls[n].reqs).0, Run(s, Issued(calls[..n])).1 + Run(d, calls[n].reqs).1)
  {
    hide Run, Served, Orderly;
    var n := |calls| - 1;
    var d := Before(s, calls, n);
    GoodPrefix(s, calls);
    if n == 0 {
      NothingIssued(s, calls);
    } else {
      LastCallServed(s, calls[..n]);
      ServedLeavesNoPending(Before(s, calls[..n], n - 1), calls[n - 1].verb,
                            Run(Before(s, calls[..n], n - 1), calls[n - 1].reqs));
    }
    OrderlyIsProcessed(s, Issued(calls[..n]));
    OrderlySuffix(s, d, Issued(calls[..n]), calls[n].reqs);
    VerbServed(d, calls[n]);
    RunConcat(s, Issued(calls[..n]), calls[n].reqs);
  }

  lemma ServedLeavesNoPending(s: Session, v: Verb, e: Effect)
    requires Served(s, v, e)
    ensures e.0.pending == NoPending
  {
  }

  lemma NothingIssued(s: Session, calls: seq<Call>)
    requires calls != []
    ensures Before(s, calls, 0) == s
  {
    hide React;
  }

  /**
   Request/response pairing on the server: `n` calls draw exactly `n` responses
   plus one for every WRITE refused at its key check.
   */
  lemma {:induction false} CallsAnswered(s: Session, calls: seq<Call>)
    requires GoodTraffic(s, calls)
    ensures |Responses(Run(s, Issued(calls)).1)| == |calls| + Refusals(s, calls)
  {
    hide React, Orderly;
    if calls != [] {
      var n := |calls| - 1;
      var d := Before(s, calls, n);
      GoodPrefix(s, calls);
      LastCallServed(s, calls);
      CallsAnswered(s, calls[..n]);
      ResponsesConcat(Run(s, Issued(calls[..n])).1, Run(d, calls[n].reqs).1);
    }
  }

  /** The effect of the `k`-th call on the session it meets. */
  function EffectOf(s: Session, calls: seq<Call>, k: nat): Effect
    requires k < |calls|
  {
    Run(Before(s, calls, k), calls[k].reqs)
  }

  lemma EffectOfPrefix(s: Session, calls: seq<Call>, n: nat, k: nat)
    requires k < n <= |calls|
    ensures Before(s, calls[..n], k) == Before(s, calls, k)
    ensures EffectOf(s, calls[..n], k) == EffectOf(s, calls, k)
  {
    hide Run;
    assert calls[..n][..k] == calls[..k];
  }

  /** Place of the first response to call `k` among all: each refused WRITE before it moves it back by one. */
  function PlaceOf(s: Session, calls: seq<Call>, k: nat): nat
    requires k <= |calls|
  {
    k + Refusals(s, calls[..k])
  }

  /**
   The server's responses are the responses to each call in turn; call `k` is
   served, and its responses stand from `PlaceOf(k)` on.
   */
  lemma {:induction false} ResponsesInOrder(s: Session, calls: seq<Call>, k: nat)
    requires GoodTraffic(s, calls) && k < |calls|
    ensures Served(Before(s, calls, k), calls[k].verb, EffectOf(s, calls, k))
    ensures var p := PlaceOf(s, calls, k);
            var own := Responses(EffectOf(s, calls, k).1);
            var all := Responses(Run(s, Issued(calls)).1);
            p + |own| <= |all| && all[p..p + |own|] == own
  {
    hide Run, Orderly, Served, Refusals, Responses, Issued;
    var n := |calls| - 1;
    GoodPrefix(s, calls);
    LastCallServed(s, calls);
    CallsAnswered(s, calls[..n]);
    var front, last := Responses(Run(s, Issued(calls[..n])).1), Responses(EffectOf(s, calls, n).1);
    ResponsesConcat(Run(s, Issued(calls[..n])).1, EffectOf(s, calls, n).1);
    if k < n {
      ResponsesInOrder(s, calls[..n], k);
      EffectOfPrefix(s, calls, n, k);
      assert calls[..n][..k] == calls[..k];
      SliceOfFront(front, last, PlaceOf(s, calls, k), PlaceOf(s, calls, k) + |Responses(EffectOf(s, calls, k).1)|);
    } else {
      assert (front + last)[|front|..] == last;
    }
  }

  lemma SliceOfFront(a: seq<Note>, b: seq<Note>, p: nat, q: nat)
    requires p <= q <= |a|
    ensures (a + b)[p..q] == a[p..q]
  {
  }

  lemma {:induction false} RefusalsGrow(s: Session, calls: seq<Call>, k: nat)
    requires k <= |calls|
    ensures Refusals(s, calls[..k]) <= Refusals(s, calls)
  {
    hide RefusedWrite, Before;
    if k == |calls| {
      assert calls[..k] == calls;
    } else {
      var n := |calls| - 1;
      RefusalsGrow(s, calls[..n], k);
      assert calls[..n][..k] == calls[..k];
    }
  }

  // ---------------------------------------------------------------------
  // Whose response stands where
  // ---------------------------------------------------------------------

  /** A call takes one place among the responses, a refused WRITE two. */
  lemma PlaceStep(s: Session, calls: seq<Call>, m: nat)
    requires m < |calls|
    ensures PlaceOf(s, calls, m + 1)
            == PlaceOf(s, calls, m) + (if RefusedWrite(Before(s, calls, m), calls[m].verb) then 2 else 1)
  {
    hide RefusedWrite, Run;
    assert calls[..m + 1][..m] == calls[..m];
  }

  lemma {:induction false} PlaceGrows(s: Session, calls: seq<Call>, m: nat, n: nat)
    requires m <= n <= |calls|
    ensures PlaceOf(s, calls, m) + (n - m) <= PlaceOf(s, calls, n) && m <= PlaceOf(s, calls, m)
    decreases n - m
  {
    hide PlaceOf, RefusedWrite, Before;
    assert m <= PlaceOf(s, calls, m) by { PlaceIsLate(s, calls, m); }
    if m < n {
      PlaceStep(s, calls, m);
      PlaceGrows(s, calls, m + 1, n);
    }
  }

  lemma PlaceIsLate(s: Session, calls: seq<Call>, m: nat)
    requires m <= |calls|
    ensures m <= PlaceOf(s, calls, m)
    ensures PlaceOf(s, calls, m) == m <==> Refusals(s, calls[..m]) == 0
    ensures PlaceOf(s, calls, 0) == 0
  {
    hide Run;
  }

  /** The call whose answer stands at place `k`. */
  function Owner(s: Session, calls: seq<Call>, k: nat): (m: nat)
    requires k < PlaceOf(s, calls, |calls|)
    ensures m < |calls|
    decreases |calls|
  {
    PlaceIsLate(s, calls, 0);
    var n := |calls| - 1;
    if k >= PlaceOf(s, calls, n) then n
    else
      assert calls[..n][..n] == calls[..n];
      Owner(s, calls[..n], k)
  }

  /** The places of the owner include `k`, and no other call's do. */
  lemma {:induction false} OwnerPlace(s: Session, calls: seq<Call>, k: nat)
    requires k < PlaceOf(s, calls, |calls|)
    ensures var m := Owner(s, calls, k);
            PlaceOf(s, calls, m) <= k < PlaceOf(s, calls, m + 1)
    decreases |calls|
  {
    hide Refusals, Run;
    PlaceIsLate(s, calls, 0);
    var n := |calls| - 1;
    assert calls[..n][..n] == calls[..n];
    assert calls[..n + 1] == calls;
    if k < PlaceOf(s, calls, n) {
      OwnerPlace(s, calls[..n], k);
      var m := Owner(s, calls[..n], k);
      assert calls[..n][..m] == calls[..m] && calls[..n][..m + 1] == calls[..m + 1];
    }
  }

  lemma OwnerIsOnly(s: Session, calls: seq<Call>, k: nat, m: nat)
    requires k < PlaceOf(s, calls, |calls|) && m < |calls|
    requires PlaceOf(s, calls, m) <= k < PlaceOf(s, calls, m + 1)
    ensures Owner(s, calls, k) == m
  {
    hide PlaceOf, Owner;
    OwnerPlace(s, calls, k);
    var o := Owner(s, calls, k);
    if o < m {
      PlaceGrows(s, calls, o + 1, m);
    } else if m < o {
      PlaceGrows(s, calls, m + 1, o);
    }
  }

  /** The owner of place `k` is call `k` or an earlier one, and call `k` exactly when no WRITE was refused before it. */
  lemma OwnerIsSelfIff(s: Session, calls: seq<Call>, k: nat)
    requires k < |calls|
    ensures k < PlaceOf(s, calls, |calls|) && Owner(s, calls, k) <= k
    ensures Owner(s, calls, k) == k <==> Refusals(s, calls[..k]) == 0
  {
    hide PlaceOf, Owner, Refusals;
    PlaceGrows(s, calls, k, |calls|);
    PlaceGrows(s, calls, k + 1, |calls|);
    OwnerPlace(s, calls, k);
    var m := Owner(s, calls, k);
    PlaceIsLate(s, calls, m);
    PlaceIsLate(s, calls, k);
    PlaceIsLate(s, calls, k + 1);
    if Refusals(s, calls[..k]) == 0 {
      OwnerIsOnly(s, calls, k, k);
    }
  }

  /** The response at place `k` is the one its owner was given, counted from the owner's first place. */
  lemma ResponseIsOwners(s: Session, calls: seq<Call>, k: nat)
    requires GoodTraffic(s, calls) && k < PlaceOf(s, calls, |calls|)
    ensures var m := Owner(s, calls, k);
            var own := Responses(EffectOf(s, calls, m).1);
            var all := Responses(Run(s, Issued(calls)).1);
            && PlaceOf(s, calls, m) <= k < |all| && k - PlaceOf(s, calls, m) < |own|
            && all[k] == own[k - PlaceOf(s, calls, m)]
            && Served(Before(s, calls, m), calls[m].verb, EffectOf(s, calls, m))
  {
    hide PlaceOf, Owner, Refusals, Run, Orderly, Answers, RefusedWrite, Before, Issued, Responses;
    OwnerPlace(s, calls, k);
    var m := Owner(s, calls, k);
    ResponsesInOrder(s, calls, m);
    PlaceStep(s, calls, m);
    var p, own := PlaceOf(s, calls, m), Responses(EffectOf(s, calls, m).1);
    assert Responses(Run(s, Issued(calls)).1)[p..p + |own|][k - p] == own[k - p];
  }

  // ---------------------------------------------------------------------
  // Verbs never make the server forget a SEND
  // ---------------------------------------------------------------------

  lemma CallDropsNothing(s: Session, c: Call)
    requires Orderly(s, c.reqs) && Shaped(c) && s.pending == NoPending
    ensures Dropped(s, c.reqs) == 0
  {
    hide Ascii, Lookup, Perform, HandleMrReg, HandleMrDereg, HandleReadReq, HandleAtomicReq,
         HandleWriteData, HandleSendData, Run, React, CompleteSend, Dropped;
    var x := c.reqs[0];
    DroppedOne(s, x);
    if |c.reqs| == 1 {
      assert c.reqs == [x];
    } else {
      var y := c.reqs[1];
      FirstDispatched(s, c);
      var s1 := React(s, x.msg, x.env).0;
      assert c.verb.RdmaWrite? ==> !s1.pending.AwaitingSendData?;
      RunOne(s, x);
      DroppedOne(s1, y);
      DroppedConcat(s, [x], [y]);
      assert c.reqs == [x] + [y];
    }
  }

  /** Receive-queue accounting: traffic of client verbs drops no pending SEND. */
  lemma {:induction false} VerbsDropNothing(s: Session, calls: seq<Call>)
    requires GoodTraffic(s, calls)
    ensures Dropped(s, Issued(calls)) == 0
  {
    hide Run, Orderly, Dropped, Served;
    if calls == [] {
      NothingDropped(s);
    } else {
      var n := |calls| - 1;
      GoodPrefix(s, calls);
      LastCallServed(s, calls);
      VerbsDropNothing(s, calls[..n]);
      DroppedConcat(s, Issued(calls[..n]), calls[n].reqs);
      CallDropsNothing(Before(s, calls, n), calls[n]);
    }
  }

  lemma NothingDropped(s: Session)
    ensures Dropped(s, []) == 0
  {
  }
}
