/**
 What a server session guarantees over every sequence of incoming messages,
 well-behaved or not: credit and receive-queue conservation, and the exact
 effect of the size and sequence filters.
 */
module SessionRuns {
  import opened Core
  import opened Codec
  import opened MemoryModel
  import opened SessionModel

  // ---------------------------------------------------------------------
  // Measures of an output sequence
  // ---------------------------------------------------------------------

  function Increment(n: Note): nat {
    if n.body.CreditUpdateBody? then n.body.creditIncrement else 0
  }

  /** Sum of the credit increments in a sequence of messages. */
  function Increments(ns: seq<Note>): nat {
    if ns == [] then 0 else Increments(ns[..|ns| - 1]) + Increment(ns[|ns| - 1])
  }

  /** Number of RECV_COMP messages. */
  function RecvComps(ns: seq<Note>): nat {
    if ns == [] then 0 else RecvComps(ns[..|ns| - 1]) + (if ns[|ns| - 1].body.RecvCompBody? then 1 else 0)
  }

  /** The messages other than CREDIT_UPDATE: the ones a client verb can be waiting for. */
  function Responses(ns: seq<Note>): seq<Note> {
    if ns == [] then []
    else Responses(ns[..|ns| - 1]) + (if ns[|ns| - 1].body.CreditUpdateBody? then [] else [ns[|ns| - 1]])
  }

  /** Sum of the credit increments that come after the last response. */
  function TrailingIncrements(ns: seq<Note>): nat {
    if ns == [] || !ns[|ns| - 1].body.CreditUpdateBody? then 0
    else TrailingIncrements(ns[..|ns| - 1]) + Increment(ns[|ns| - 1])
  }

  lemma {:induction false} CountsConcat(a: seq<Note>, b: seq<Note>)
    ensures Increments(a + b) == Increments(a) + Increments(b)
    ensures RecvComps(a + b) == RecvComps(a) + RecvComps(b)
  {
    if b == [] {
      assert a + b == a;
    } else {
      CountsConcat(a, b[..|b| - 1]);
      assert (a + b)[..|a + b| - 1] == a + b[..|b| - 1];
    }
  }

  lemma {:induction false} ResponsesConcat(a: seq<Note>, b: seq<Note>)
    ensures Responses(a + b) == Responses(a) + Responses(b)
    ensures TrailingIncrements(a + b)
            == TrailingIncrements(b) + (if Responses(b) == [] then TrailingIncrements(a) else 0)
  {
    if b == [] {
      assert a + b == a;
    } else {
      var front, last := b[..|b| - 1], b[|b| - 1];
      ResponsesConcat(a, front);
      assert (a + b)[..|a + b| - 1] == a + front && (a + b)[|a + b| - 1] == last;
      var tail := if last.body.CreditUpdateBody? then [] else [last];
      assert Responses(a + b) == Responses(a + front) + tail;
      assert Responses(b) == Responses(front) + tail;
      assert (Responses(a) + Responses(front)) + tail == Responses(a) + (Responses(front) + tail);
    }
  }

  lemma MeasuresOfFew(n: Note)
    ensures Increments([]) == 0 && RecvComps([]) == 0 && Responses([]) == [] && TrailingIncrements([]) == 0
    ensures Increments([n]) == Increment(n)
    ensures RecvComps([n]) == if n.body.RecvCompBody? then 1 else 0
    ensures Responses([n]) == if n.body.CreditUpdateBody? then [] else [n]
    ensures TrailingIncrements([n]) == Increment(n)
  {
    assert [n][..0] == [];
  }

  // ---------------------------------------------------------------------
  // Credit conservation on the server
  // ---------------------------------------------------------------------

  /** The number of SENDs after which credits are returned. */
  function Quota(icc: u32): nat {
    if icc / 4 == 0 then 1 else icc / 4
  }

  predicate CreditInv(s: Session) {
    s.sendsSinceLastCredit < Quota(s.icc)
  }

  /** Only SEND_DATA that completes a pending SEND is not plain. */
  predicate Completes(s: Session, m: Message) {
    Processed(s, m) && m.body.SendDataBody? && s.pending.AwaitingSendData?
  }

  lemma ReactIsPlain(s: Session, m: Message, env: Env)
    requires !Completes(s, m)
    ensures Plain(s, React(s, m, env))
  {
    hide Dispatch, Ascii;
    if Processed(s, m) {
      if m.body.SendDataBody? {
        SendDataIsDispatched(Advance(s, m), m, env);
      } else {
        assert Plain(Advance(s, m), Dispatch(Advance(s, m), m, env));
      }
    }
  }

  lemma SendDataIsDispatched(s: Session, m: Message, env: Env)
    requires m.body.SendDataBody?
    ensures Dispatch(s, m, env) == HandleSendData(s)
  {
  }

  lemma ReactCompletes(s: Session, m: Message, env: Env)
    requires Completes(s, m)
    ensures React(s, m, env) == CompleteSend(Advance(s, m).(pending := NoPending), s.pending.wrid)
  {
  }

  /** The account is balanced by an answer `out` that leads from session `s` to `t`. */
  predicate Balanced(s: Session, t: Session, out: seq<Note>) {
    && CreditInv(t) && t.icc == s.icc
    && t.sendsSinceLastCredit + Increments(out) == s.sendsSinceLastCredit + RecvComps(out)
    && (Responses(out) == [] ==> out == [] && t.sendsSinceLastCredit == s.sendsSinceLastCredit)
    && (Responses(out) != [] ==> TrailingIncrements(out) + t.sendsSinceLastCredit <= Quota(s.icc))
  }

  lemma PlainIsBalanced(s: Session, e: Effect)
    requires CreditInv(s) && Plain(s, e)
    ensures Balanced(s, e.0, e.1)
  {
    hide Increments, RecvComps, Responses, TrailingIncrements;
    if e.1 == [] {
      MeasuresOfFew(Note(0, AckBody));
    } else {
      MeasuresOfFew(e.1[0]);
      assert e.1 == [e.1[0]];
    }
  }

  lemma CompletionIsBalanced(s: Session, wrid: u64)
    requires CreditInv(s)
    ensures Balanced(s, CompleteSend(s, wrid).0, CompleteSend(s, wrid).1)
  {
    hide Increments, RecvComps, Responses, TrailingIncrements;
    var comp := Note(wrid, RecvCompBody);
    var credit := Note(0, CreditUpdateBody(s.sendsSinceLastCredit + 1));
    MeasuresOfFew(comp);
    MeasuresOfFew(credit);
    CountsConcat([comp], [credit]);
    ResponsesConcat([comp], [credit]);
    assert CompleteSend(s, wrid).1 == [comp] || CompleteSend(s, wrid).1 == [comp] + [credit];
  }

  /** What one message does to the credit account. */
  lemma StepCredit(s: Session, m: Message, env: Env)
    requires CreditInv(s)
    ensures Balanced(s, React(s, m, env).0, React(s, m, env).1)
  {
    hide React, Increments, RecvComps, Responses, TrailingIncrements;
    if Completes(s, m) {
      ReactCompletes(s, m, env);
      CompletionIsBalanced(Advance(s, m).(pending := NoPending), s.pending.wrid);
    } else {
      ReactIsPlain(s, m, env);
      PlainIsBalanced(s, React(s, m, env));
    }
  }

  /**
   Credit conservation on the server, for any incoming messages: credits
   returned plus SENDs not yet credited equal the completions sent, and what
   follows the last response never exceeds one quota.
   */
  lemma {:induction false} RunCredit(s: Session, ins: seq<Input>)
    requires s.sendsSinceLastCredit == 0
    ensures var (t, out) := Run(s, ins);
            && CreditInv(t) && t.icc == s.icc
            && t.sendsSinceLastCredit + Increments(out) == RecvComps(out)
            && TrailingIncrements(out) + t.sendsSinceLastCredit <= Quota(s.icc)
  {
    hide React;
    if ins != [] {
      var n := |ins| - 1;
      RunCredit(s, ins[..n]);
      var (s1, o1) := Run(s, ins[..n]);
      StepCredit(s1, ins[n].msg, ins[n].env);
      CountsConcat(o1, React(s1, ins[n].msg, ins[n].env).1);
      ResponsesConcat(o1, React(s1, ins[n].msg, ins[n].env).1);
    }
  }

  /** An answer has at most two messages, and only the last can return credits. */
  lemma AnswerIsShort(s: Session, m: Message, env: Env)
    ensures var out := React(s, m, env).1; |out| <= 2 && (|out| == 2 ==> !out[0].body.CreditUpdateBody?)
  {
    hide React;
    if Completes(s, m) {
      ReactCompletes(s, m, env);
    } else {
      ReactIsPlain(s, m, env);
    }
  }

  /** Credits are never returned before the completions they are for. */
  lemma {:induction false} PrefixCredit(s: Session, ins: seq<Input>, k: nat)
    requires s.sendsSinceLastCredit == 0 && k <= |Run(s, ins).1|
    ensures Increments(Run(s, ins).1[..k]) <= RecvComps(Run(s, ins).1[..k])
  {
    hide React;
    if ins != [] {
      var n := |ins| - 1;
      var (s1, o1) := Run(s, ins[..n]);
      var more := React(s1, ins[n].msg, ins[n].env).1;
      var out := Run(s, ins).1;
      if k == |out| {
        RunCredit(s, ins);
        assert out[..k] == out;
      } else if k <= |o1| {
        PrefixCredit(s, ins[..n], k);
        assert out[..k] == o1[..k];
      } else {
        RunCredit(s, ins[..n]);
        AnswerIsShort(s1, ins[n].msg, ins[n].env);
        assert out[..k] == o1 + [more[0]];
        CountsConcat(o1, [more[0]]);
        MeasuresOfFew(more[0]);
      }
    }
  }

  // ---------------------------------------------------------------------
  // Receive-queue conservation
  // ---------------------------------------------------------------------

  function PendingSends(s: Session): nat {
    if s.pending.AwaitingSendData? then 1 else 0
  }

  /** The message makes the session forget a SEND that was waiting for its data. */
  predicate Drops(s: Session, m: Message) {
    && s.pending.AwaitingSendData? && Processed(s, m)
    && (|| m.body.SendBody? || m.body.WriteDataBody?
        || (m.body.WriteBody? && Lookup(s.store, m.body.rkey, REMOTE_WRITE).Ok?))
  }

  /** SENDs whose pending state was overwritten or dropped during a run. */
  function Dropped(s: Session, ins: seq<Input>): nat {
    if ins == [] then 0
    else
      var front := ins[..|ins| - 1];
      Dropped(s, front) + (if Drops(Run(s, front).0, ins[|ins| - 1].msg) then 1 else 0)
  }

  predicate QueueBalanced(s: Session, m: Message, t: Session, out: seq<Note>) {
    s.recvQueueDepth + PendingSends(s)
    == t.recvQueueDepth + PendingSends(t) + RecvComps(out) + (if Drops(s, m) then 1 else 0)
  }

  lemma PlainHasNoCompletion(s: Session, e: Effect)
    requires Plain(s, e)
    ensures RecvComps(e.1) == 0
  {
    if e.1 != [] {
      MeasuresOfFew(e.1[0]);
      assert e.1 == [e.1[0]];
    }
  }

  lemma StepQueue(s: Session, m: Message, env: Env)
    ensures QueueBalanced(s, m, React(s, m, env).0, React(s, m, env).1)
  {
    hide RecvComps, Ascii, Decimal, Perform;
    if Completes(s, m) {
      ReactCompletes(s, m, env);
      CompletionCounts(Advance(s, m).(pending := NoPending), s.pending.wrid);
    } else {
      ReactIsPlain(s, m, env);
      PlainHasNoCompletion(s, React(s, m, env));
      if Processed(s, m) && TwoPart(m.body) {
        TwoPartQueue(s, m, env);
      } else {
        OtherKeepsQueue(s, m, env);
      }
    }
  }

  lemma CompletionCounts(s: Session, wrid: u64)
    ensures RecvComps(CompleteSend(s, wrid).1) == 1
    ensures SameQueue(s, CompleteSend(s, wrid).0)
  {
    var comp := Note(wrid, RecvCompBody);
    MeasuresOfFew(comp);
    var credit := Note(0, CreditUpdateBody(Wrap32(s.sendsSinceLastCredit + 1)));
    MeasuresOfFew(credit);
    CountsConcat([comp], [credit]);
    assert CompleteSend(s, wrid).1 == [comp] || CompleteSend(s, wrid).1 == [comp] + [credit];
  }

  lemma OtherKeepsQueue(s: Session, m: Message, env: Env)
    requires !Processed(s, m) || !TwoPart(m.body)
    ensures SameQueue(s, React(s, m, env).0)
  {
    hide Dispatch, Ascii;
  }

  lemma TwoPartQueue(s: Session, m: Message, env: Env)
    requires Processed(s, m) && TwoPart(m.body) && !Completes(s, m)
    ensures var t := React(s, m, env).0;
            s.recvQueueDepth + PendingSends(s)
            == t.recvQueueDepth + PendingSends(t) + (if Drops(s, m) then 1 else 0)
  {
    hide Ascii, Perform, Lookup;
  }

  /**
   Receive-queue conservation, for any incoming messages: the initial depth is
   what remains, plus the completions sent, plus a SEND still waiting for its
   data, plus the SENDs forgotten on the way.
   */
  lemma {:induction false} RunQueue(s: Session, ins: seq<Input>)
    requires s.pending == NoPending
    ensures var (t, out) := Run(s, ins);
            s.recvQueueDepth == t.recvQueueDepth + RecvComps(out) + PendingSends(t) + Dropped(s, ins)
  {
    hide React;
    if ins != [] {
      var n := |ins| - 1;
      RunQueue(s, ins[..n]);
      var (s1, o1) := Run(s, ins[..n]);
      StepQueue(s1, ins[n].msg, ins[n].env);
      CountsConcat(o1, React(s1, ins[n].msg, ins[n].env).1);
    }
  }

  lemma DroppedOne(s: Session, x: Input)
    ensures Dropped(s, [x]) == if Drops(s, x.msg) then 1 else 0
  {
    hide Drops;
    assert [x][..0] == [];
  }

  lemma {:induction false} DroppedConcat(s: Session, a: seq<Input>, b: seq<Input>)
    ensures Dropped(s, a + b) == Dropped(s, a) + Dropped(Run(s, a).0, b)
  {
    hide Run, Drops;
    if b == [] {
      assert a + b == a;
    } else {
      var n := |b| - 1;
      DroppedConcat(s, a, b[..n]);
      RunConcat(s, a, b[..n]);
      assert (a + b)[..|a + b| - 1] == a + b[..n];
    }
  }

  // ---------------------------------------------------------------------
  // Size and sequence filters
  // ---------------------------------------------------------------------

  /** The messages of a run that pass both filters at the moment they arrive. */
  function Kept(s: Session, ins: seq<Input>): seq<Input> {
    if ins == [] then []
    else
      var front := ins[..|ins| - 1];
      var last := ins[|ins| - 1];
      Kept(s, front) + (if Processed(Run(s, front).0, last.msg) then [last] else [])
  }

  /** What the full run sent in answer to the kept messages. */
  function KeptAnswers(s: Session, ins: seq<Input>): seq<Note> {
    if ins == [] then []
    else
      var front := ins[..|ins| - 1];
      var last := ins[|ins| - 1];
      var s1 := Run(s, front).0;
      KeptAnswers(s, front) + (if Processed(s1, last.msg) then React(s1, last.msg, last.env).1 else [])
  }

  /** A message stopped by a filter is answered by at most one ERROR and changes nothing. */
  lemma RejectedChangesNothing(s: Session, m: Message, env: Env)
    requires s.phase != AwaitingConnect && !Processed(s, m)
    ensures var (t, out) := React(s, m, env);
            && t == s
            && (s.phase == Closed ==> out == [])
            && (s.phase == Ready ==>
                  && |out| == 1 && out[0].body.ErrorBody? && out[0].body.failingSeq == m.header.sequence
                  && out[0].body.code == (if Oversize(s, m) then ErrPayloadSize else ErrSeqGap))
  {
    hide HandleReady, Ascii;
  }

  lemma ProcessedAdvances(s: Session, m: Message, env: Env)
    requires Processed(s, m)
    ensures React(s, m, env).0.expectedRemoteSeq == Some(Wrap32(m.header.sequence + 1))
  {
    hide Dispatch;
  }

  /**
   Sequence filtering: for any incoming messages after the handshake, the ones
   processed carry consecutive numbers modulo 2^32, and leaving all others out
   gives the same session and the same answers.
   */
  lemma {:induction false} FilteringIsExact(s: Session, ins: seq<Input>)
    requires s.phase == Ready && s.expectedRemoteSeq.Some?
    ensures Run(s, Kept(s, ins)) == (Run(s, ins).0, KeptAnswers(s, ins))
    ensures forall i :: 0 <= i < |Kept(s, ins)| ==>
              Kept(s, ins)[i].msg.header.sequence == Wrap32(s.expectedRemoteSeq.value + i)
    ensures Run(s, ins).0.phase != AwaitingConnect
    ensures Run(s, ins).0.expectedRemoteSeq == Some(Wrap32(s.expectedRemoteSeq.value + |Kept(s, ins)|))
  {
    hide React;
    if ins != [] {
      var n := |ins| - 1;
      var last := ins[n];
      FilteringIsExact(s, ins[..n]);
      var s1 := Run(s, ins[..n]).0;
      ReactKeepsSessionId(s1, last.msg, last.env);
      var kept := Kept(s, ins[..n]);
      if Processed(s1, last.msg) {
        ProcessedAdvances(s1, last.msg, last.env);
        assert (kept + [last])[..|kept + [last]| - 1] == kept;
        WrapTwice(s.expectedRemoteSeq.value + |kept|, 1);
      } else {
        RejectedChangesNothing(s1, last.msg, last.env);
        assert Kept(s, ins) == kept;
        assert KeptAnswers(s, ins) == KeptAnswers(s, ins[..n]);
      }
    }
  }

  // ---------------------------------------------------------------------
  // Oversize messages
  // ---------------------------------------------------------------------

  lemma {:induction false} KeptConcat(s: Session, a: seq<Input>, b: seq<Input>)
    ensures Kept(s, a + b) == Kept(s, a) + Kept(Run(s, a).0, b)
    ensures |Kept(s, a)| <= |a|
    decreases |a| + |b|
  {
    hide Run, Processed;
    if b == [] {
      assert a + b == a;
      if a != [] {
        KeptConcat(s, a[..|a| - 1], []);
      }
    } else {
      var n := |b| - 1;
      KeptConcat(s, a, b[..n]);
      RunConcat(s, a, b[..n]);
      assert (a + b)[..|a + b| - 1] == a + b[..n];
    }
  }

  /** Messages numbered consecutively from what the session expects, none of them a DISCONNECT. */
  ghost predicate Consecutive(s: Session, ins: seq<Input>) {
    && s.phase == Ready && s.expectedRemoteSeq.Some?
    && forall i :: 0 <= i < |ins| ==>
         ins[i].msg.header.sequence == Wrap32(s.expectedRemoteSeq.value + i) && !ins[i].msg.body.DisconnectBody?
  }

  predicate FitsSize(s: Session, x: Input) {
    x.msg.header.payloadLength <= s.maxMsgSize
  }

  lemma ProcessedStaysReady(s: Session, m: Message, env: Env)
    requires Processed(s, m) && !m.body.DisconnectBody?
    ensures var t := React(s, m, env).0;
            && t.phase == Ready && t.maxMsgSize == s.maxMsgSize
            && t.expectedRemoteSeq == Some(Wrap32(m.header.sequence + 1))
  {
    hide Dispatch;
  }

  /** `t` is ready for the message `n` places after the next one `s` expects. */
  predicate ReadyFor(s: Session, t: Session, n: nat) {
    && s.expectedRemoteSeq.Some? && t.phase == Ready && t.maxMsgSize == s.maxMsgSize
    && t.expectedRemoteSeq == Some(Wrap32(s.expectedRemoteSeq.value + n))
  }

  lemma FittingStep(s: Session, t: Session, x: Input, n: nat)
    requires ReadyFor(s, t, n) && FitsSize(s, x) && !x.msg.body.DisconnectBody?
    requires x.msg.header.sequence == Wrap32(s.expectedRemoteSeq.value + n)
    ensures Processed(t, x.msg) && ReadyFor(s, React(t, x.msg, x.env).0, n + 1)
  {
    hide React;
    ProcessedStaysReady(t, x.msg, x.env);
    WrapTwice(s.expectedRemoteSeq.value + n, 1);
  }

  lemma {:induction false} FittingAreKept(s: Session, ins: seq<Input>)
    requires Consecutive(s, ins) && forall i :: 0 <= i < |ins| ==> FitsSize(s, ins[i])
    ensures Kept(s, ins) == ins && ReadyFor(s, Run(s, ins).0, |ins|)
  {
    hide React, Processed, Wrap32;
    if ins == [] {
      assert ReadyFor(s, s, 0) by { WrapNothing(s.expectedRemoteSeq.value); }
    } else {
      var n := |ins| - 1;
      FittingAreKept(s, ins[..n]);
      FittingStep(s, Run(s, ins[..n]).0, ins[n], n);
      assert ins[..n] + [ins[n]] == ins;
    }
  }

  lemma WrapNothing(x: u32)
    ensures Wrap32(x + 0) == x
  {
  }

  lemma {:induction false} StallAtOnce(s: Session, ins: seq<Input>)
    requires Consecutive(s, ins) && 0 < |ins| <= U32_MOD && !FitsSize(s, ins[0])
    ensures Kept(s, ins) == [] && Run(s, ins).0 == s
  {
    hide React;
    var n := |ins| - 1;
    if n > 0 {
      StallAtOnce(s, ins[..n]);
    }
    assert !Processed(s, ins[n].msg);
    RejectedChangesNothing(s, ins[n].msg, ins[n].env);
  }

  lemma ConsecutiveSuffix(s: Session, t: Session, ins: seq<Input>, k: nat)
    requires Consecutive(s, ins) && k <= |ins|
    requires t.phase == Ready && t.expectedRemoteSeq == Some(Wrap32(s.expectedRemoteSeq.value + k))
    ensures Consecutive(t, ins[k..]) && Consecutive(s, ins[..k])
  {
    forall i | 0 <= i < |ins[k..]|
      ensures ins[k..][i].msg.header.sequence == Wrap32(t.expectedRemoteSeq.value + i)
    {
      WrapTwice(s.expectedRemoteSeq.value + k, i);
    }
  }

  /**
   An oversize message does not advance the expected number: the first one at
   place `k` stops everything that follows it, until the client's counter has
   gone all the way round.
   */
  lemma OversizeStallsSession(s: Session, ins: seq<Input>, k: nat)
    requires Consecutive(s, ins) && k < |ins| && |ins| - k <= U32_MOD
    requires !FitsSize(s, ins[k]) && forall i :: 0 <= i < k ==> FitsSize(s, ins[i])
    ensures Kept(s, ins) == ins[..k] && Run(s, ins).0 == Run(s, ins[..k]).0
  {
    hide Run, Kept;
    assert Consecutive(s, ins[..k]);
    FittingAreKept(s, ins[..k]);
    var t := Run(s, ins[..k]).0;
    ConsecutiveSuffix(s, t, ins, k);
    StallAtOnce(t, ins[k..]);
    assert ins[..k] + ins[k..] == ins;
    KeptConcat(s, ins[..k], ins[k..]);
    RunConcat(s, ins[..k], ins[k..]);
    assert ins[..k] + [] == ins[..k];
  }

  /** Consecutively numbered messages are all processed if and only if none of them is oversize. */
  lemma AllProcessedIffNoneOversize(s: Session, ins: seq<Input>)
    requires Consecutive(s, ins)
    ensures Kept(s, ins) == ins <==> forall i :: 0 <= i < |ins| ==> FitsSize(s, ins[i])
  {
    hide Run, Kept, Consecutive;
    if forall i :: 0 <= i < |ins| ==> FitsSize(s, ins[i]) {
      FittingAreKept(s, ins);
    } else {
      var k := FirstOversize(s, ins);
      OversizeIsDropped(s, ins, k);
    }
  }

  lemma FirstOversize(s: Session, ins: seq<Input>) returns (k: nat)
    requires exists i :: 0 <= i < |ins| && !FitsSize(s, ins[i])
    ensures k < |ins| && !FitsSize(s, ins[k]) && forall i :: 0 <= i < k ==> FitsSize(s, ins[i])
  {
    k := 0;
    while FitsSize(s, ins[k])
      invariant k < |ins| && forall i :: 0 <= i < k ==> FitsSize(s, ins[i])
      decreases |ins| - k
    {
      k := k + 1;
    }
  }

  lemma OversizeIsDropped(s: Session, ins: seq<Input>, k: nat)
    requires Consecutive(s, ins) && k < |ins|
    requires !FitsSize(s, ins[k]) && forall i :: 0 <= i < k ==> FitsSize(s, ins[i])
    ensures |Kept(s, ins)| < |ins|
  {
    hide Run, Kept;
    assert Consecutive(s, ins[..k]);
    FittingAreKept(s, ins[..k]);
    var t := Run(s, ins[..k]).0;
    ConsecutiveSuffix(s, t, ins, k);
    var one := ins[k..k + 1];
    assert Consecutive(t, one) && !FitsSize(t, one[0]);
    StallAtOnce(t, one);
    assert ins[..k] + ins[k..] == ins && one + ins[k + 1..] == ins[k..];
    KeptConcat(s, ins[..k], ins[k..]);
    KeptConcat(t, one, ins[k + 1..]);
    KeptConcat(Run(t, one).0, ins[k + 1..], []);
  }

  /** The message is answered by one ERROR with this code and changes nothing. */
  predicate RefusedWith(s: Session, m: Message, env: Env, code: ErrorCode) {
    var (t, out) := React(s, m, env);
    t == s && |out| == 1 && out[0].body.ErrorBody? && out[0].body.code == code
  }

  /** A SEND_DATA of one byte more than the limit, and the ACK that follows it. */
  function OversizeMessage(): Message {
    NewMessage(0, 1, 0, SendDataBody(Zeros(DEFAULT_MAX_MSG_SIZE + 1)))
  }

  function FollowingMessage(): Message {
    NewMessage(0, 2, 0, AckBody)
  }

  lemma OversizeMessagesTravel()
    ensures Decode(Encode(OversizeMessage())) == Ok(Filled(OversizeMessage()))
    ensures Decode(Encode(FollowingMessage())) == Ok(Filled(FollowingMessage()))
  {
    hide Encode, Decode;
    RoundTrip(OversizeMessage());
    RoundTrip(FollowingMessage());
  }

  /** Both are refused, the first for its size and the second for its number. */
  lemma OversizeExample(config: ServerConfig, now: nat, env: Env)
    ensures var s := NewSession(config, now).(phase := Ready, expectedRemoteSeq := Some(1));
            && RefusedWith(s, Filled(OversizeMessage()), env, ErrPayloadSize)
            && RefusedWith(s, Filled(FollowingMessage()), env, ErrSeqGap)
  {
    hide React, Ascii;
    var s := NewSession(config, now).(phase := Ready, expectedRemoteSeq := Some(1));
    RejectedChangesNothing(s, Filled(OversizeMessage()), env);
    RejectedChangesNothing(s, Filled(FollowingMessage()), env);
  }
}
