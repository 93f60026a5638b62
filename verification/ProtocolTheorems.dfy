/**
 Whole-run theorems about a client and a server joined by FIFO channels: no
 false sequence gaps, credit conservation, request/response pairing and the
 completion queue.
 */
module ProtocolTheorems {
  import opened Core
  import opened Codec
  import MemoryModel
  import opened SessionModel
  import opened SessionRuns
  import opened ClientModel
  import opened Traffic
  import opened Protocol
  import opened ProtocolInvariant

  /** A run of a fresh connection in which every frame keeps to the size limits. */
  ghost predicate GoodRun(y: System, steps: seq<Step>) {
    Start(y) && Fit(y, steps)
  }

  /** Everything the server has sent or will send for the requests issued so far. */
  function AllOut(y: System): seq<Note> {
    Run(y.origin.session, Ins(y)).1
  }

  /** WRITEs, among those issued so far, that the server refuses at their key check. */
  function RefusedSoFar(y: System): nat {
    Refusals(y.origin.session, y.calls)
  }

  /** Messages the server has sent and the client has not read. */
  function Unread(y: System): seq<Note>
    requires 0 <= ServedCount(y) && y.collected <= |SoFar(y).1|
  {
    SoFar(y).1[y.collected..]
  }

  // ---------------------------------------------------------------------
  // No false gaps
  // ---------------------------------------------------------------------

  /** The next frame decodes and passes the filters of whoever reads it. */
  ghost predicate NoGapAhead(y: System) {
    && (y.c2s != [] ==>
          var m := Decode(y.c2s[0].data); m.Ok? && Processed(y.server.session, m.value))
    && (y.waiting.Some? && y.outbox == [] && y.s2c != [] ==>
          var m := Decode(y.s2c[0]); m.Ok? && !OnArrival(y.client, m.value).SeqGap?)
  }

  /**
   Neither side ever sees a sequence gap, an oversize or an undecodable frame,
   in runs of any length and past the wrap of either counter.
   */
  lemma NoFalseGaps(y0: System, steps: seq<Step>)
    requires GoodRun(y0, steps)
    ensures NoGapAhead(Exec(y0, steps))
  {
    hide Run, Exec, Issued, Decode, Encode, OnArrival, Inv;
    RunKeepsInv(y0, steps);
    var y := Exec(y0, steps);
    if y.c2s != [] {
      ServerSeesNoGap(y);
    }
    if y.waiting.Some? && y.outbox == [] && y.s2c != [] {
      CollectKeepsInv(y);
    }
  }

  lemma ServerSeesNoGap(y: System)
    requires Inv(y) && y.c2s != []
    ensures Decode(y.c2s[0].data).Ok?
    ensures Processed(y.server.session, Decode(y.c2s[0].data).value)
  {
    hide Run, Issued, Decode, Encode, Stamp, ClientOk, QueueOk, InOrder;
    NextRequestDecodes(y);
    var n := ServedCount(y);
    OrderlyPrefix(y.origin.session, Ins(y), n);
    OrderlyIsProcessed(y.origin.session, Ins(y)[..n]);
    StepInOrder(y.origin.session, SoFar(y).0, Ins(y)[n], n);
  }

  // ---------------------------------------------------------------------
  // Credit conservation
  // ---------------------------------------------------------------------

  /** The account of credits across client, wire and server. */
  ghost predicate CreditsBalance(y: System)
    requires 0 <= ServedCount(y) && y.collected <= |SoFar(y).1| && |Responses(Got(y))| <= |y.calls|
  {
    y.client.sendCredits + Increments(Unread(y)) + y.server.session.sendsSinceLastCredit
    == y.origin.session.icc + RecvComps(Unread(y)) + Strays(y.calls, Responses(Got(y)))
  }

  /**
   Credit conservation in every run: credits held, credits on the wire and
   SENDs not yet credited add up to the initial credits plus the completions
   not yet paid for.
   */
  lemma CreditsConserved(y0: System, steps: seq<Step>)
    requires GoodRun(y0, steps)
    ensures var y := Exec(y0, steps);
            && 0 <= ServedCount(y) && y.collected <= |SoFar(y).1| && |Responses(Got(y))| <= |y.calls|
            && CreditsBalance(y)
  {
    hide Run, Exec, Issued, Decode, Encode, Stamp, RequestsOk, QueueOk, Increments, RecvComps, Responses, Strays, Start;
    RunKeepsInv(y0, steps);
    var y := Exec(y0, steps);
    assert Inv(y);
    var out := SoFar(y).1;
    assert out == Got(y) + Unread(y);
    CountsConcat(Got(y), Unread(y));
    OriginIsFixed(y0, steps);
    RunCredit(y.origin.session, Ins(y)[..ServedCount(y)]);
  }

  lemma StartHasValidStore(y: System)
    requires Start(y)
    ensures MemoryModel.Valid(y.origin.session.store)
  {
    hide MemoryModel.Valid;
  }

  lemma OriginIsFixed(y0: System, steps: seq<Step>)
    requires Start(y0)
    ensures Exec(y0, steps).origin == y0.origin && y0.origin.session.sendsSinceLastCredit == 0
  {
    hide Exec;
    RunExtends(y0, steps);
  }

  // ---------------------------------------------------------------------
  // Request/response pairing
  // ---------------------------------------------------------------------

  /** What the client has read is a prefix of everything the server will send. */
  lemma GotIsPrefix(y: System)
    requires Inv(y)
    ensures y.collected <= |AllOut(y)| && Got(y) == AllOut(y)[..y.collected]
    ensures AllOut(y) == Got(y) + AllOut(y)[y.collected..]
  {
    hide Run, Issued, RequestsOk, ClientOk, QueueOk, Encode, Stamp;
    var n := ServedCount(y);
    assert Ins(y) == Ins(y)[..n] + Ins(y)[n..];
    RunConcat(y.origin.session, Ins(y)[..n], Ins(y)[n..]);
  }

  /** The `k`-th response the client consumed is the `k`-th the server makes. */
  lemma ConsumedInOrder(y: System, k: nat)
    requires Inv(y) && k < |y.outcomes|
    ensures k < |Responses(AllOut(y))|
    ensures Explains(y.calls[k].verb, Responses(AllOut(y))[k].body, y.outcomes[k])
    ensures Responses(Got(y))[k] == Responses(AllOut(y))[k]
  {
    hide Run, Issued, RequestsOk, QueueOk, Responses, Explains, Increments, RecvComps, Strays, Encode, Stamp;
    GotIsPrefix(y);
    ResponsesConcat(Got(y), AllOut(y)[y.collected..]);
  }

  /**
   Pairing at a verb boundary: the responses the client has not read, including
   those still to come from frames in flight, number exactly the WRITEs refused
   so far at their key check. With nothing in flight they are what the channel
   to the client holds.
   */
  lemma UnreadAtBoundary(y0: System, steps: seq<Step>)
    requires GoodRun(y0, steps) && Exec(y0, steps).waiting.None?
    ensures var y := Exec(y0, steps);
            && y.collected <= |AllOut(y)|
            && |Responses(AllOut(y)[y.collected..])| == RefusedSoFar(y)
            && (Pipe(y) == [] ==> |y.s2c| == |AllOut(y)[y.collected..]|)
  {
    hide Run, Exec, Issued, QueueOk, Responses, Encode, Stamp, Refusals, Orderly, AllShaped, Start, Numbered;
    RunKeepsInv(y0, steps);
    var y := Exec(y0, steps);
    GotIsPrefix(y);
    CallsAnswered(y.origin.session, y.calls);
    ResponsesConcat(Got(y), AllOut(y)[y.collected..]);
    if Pipe(y) == [] {
      assert Ins(y)[..ServedCount(y)] == Ins(y);
    }
  }

  /** The call whose answer stands at place `k`, and which of its answers that is. */
  function OwnerOf(y: System, k: nat): nat
    requires k < |y.calls|
  {
    OwnerIsSelfIff(y.origin.session, y.calls, k);
    Owner(y.origin.session, y.calls, k)
  }

  function AnswersOf(y: System, m: nat): seq<Note>
    requires m < |y.calls|
  {
    Responses(EffectOf(y.origin.session, y.calls, m).1)
  }

  function OwnersPlace(y: System, k: nat): nat
    requires k < |y.calls|
  {
    PlaceOf(y.origin.session, y.calls, OwnerOf(y, k))
  }

  /** The session as the server has it when it comes to call `m`. */
  function MetBy(y: System, m: nat): Session
    requires m <= |y.calls|
  {
    Before(y.origin.session, y.calls, m)
  }

  /** Whose response a finished verb consumed, and what became of the verb. */
  ghost predicate Paired(y: System, k: nat)
    requires k < |y.calls| && k < |y.outcomes|
  {
    var m, own := OwnerOf(y, k), AnswersOf(y, OwnerOf(y, k));
    var n := k - OwnersPlace(y, k);
    && m <= k && 0 <= n < |own|
    && Explains(y.calls[k].verb, own[n].body, y.outcomes[k])
    && |own| == (if RefusedWrite(MetBy(y, m), y.calls[m].verb) then 2 else 1)
    && Answers(y.calls[m].verb, own[0])
    && (n == 1 ==> own[1].body.ErrorBody? && own[1].body.code == ErrUnknownOpcode)
    && (m == k <==> Refusals(y.origin.session, y.calls[..k]) == 0)
  }

  lemma ConsumesOwners(y: System, k: nat)
    requires Inv(y) && k < |y.outcomes|
    ensures k < |y.calls| && Paired(y, k)
    ensures Responses(Got(y))[k] == AnswersOf(y, OwnerOf(y, k))[k - OwnersPlace(y, k)]
  {
    hide Run, Issued, QueueOk, Responses, Encode, Decode, Stamp, Refusals, Orderly, AllShaped, Numbered,
         Explains, Answers, PlaceOf, Owner, Entries, Strays, Increments, RecvComps, RefusedWrite, Before,
         MemoryModel.Valid;
    ConsumedInOrder(y, k);
    OwnerIsSelfIff(y.origin.session, y.calls, k);
    ResponseIsOwners(y.origin.session, y.calls, k);
  }

  /**
   Pairing of a finished verb, in every run: verb `k` consumed an answer to the
   owner of place `k`, which is `k` itself or an earlier call, and is `k` itself
   exactly when no WRITE was refused before it. Each call has one answer, an
   ERROR or its own completion with its own WRID, and a refused WRITE a second
   one, an ERROR too.
   */
  lemma VerbsArePaired(y0: System, steps: seq<Step>, k: nat)
    requires GoodRun(y0, steps) && k < |Exec(y0, steps).outcomes|
    ensures k < |Exec(y0, steps).calls| && Paired(Exec(y0, steps), k)
  {
    hide Exec, Inv, Start, Paired;
    RunKeepsInv(y0, steps);
    ConsumesOwners(Exec(y0, steps), k);
  }

  /** Every refused WRITE makes one later verb fail, whatever it is: the one at its second place. */
  lemma RefusedWriteFailsLaterVerb(y0: System, steps: seq<Step>, m: nat)
    requires GoodRun(y0, steps) && m < |Exec(y0, steps).calls|
    requires var y := Exec(y0, steps);
             && RefusedWrite(MetBy(y, m), y.calls[m].verb)
             && PlaceOf(y.origin.session, y.calls, m) + 1 < |y.outcomes| <= |y.calls|
    ensures var y := Exec(y0, steps);
            y.outcomes[PlaceOf(y.origin.session, y.calls, m) + 1] == Rejected(Protocol(ErrUnknownOpcode))
  {
    hide Exec, Inv, Start, PlaceOf, Owner, Refusals, Answers, RefusedWrite, Before, Run, Responses;
    RunKeepsInv(y0, steps);
    var y := Exec(y0, steps);
    var k := PlaceOf(y.origin.session, y.calls, m) + 1;
    ConsumesOwners(y, k);
    PlaceStep(y.origin.session, y.calls, m);
    PlaceGrows(y.origin.session, y.calls, m + 1, |y.calls|);
    OwnerIsOnly(y.origin.session, y.calls, k, m);
  }

  // ---------------------------------------------------------------------
  // Runs without a refused WRITE
  // ---------------------------------------------------------------------

  lemma {:induction false} NoStrays(calls: seq<Call>, rs: seq<Note>)
    requires |rs| <= |calls|
    requires forall k :: 0 <= k < |rs| ==> Answers(calls[k].verb, rs[k])
    ensures Strays(calls, rs) == 0
  {
    if rs != [] {
      NoStrays(calls, rs[..|rs| - 1]);
    }
  }

  /** Without a refused WRITE every RECV_COMP is read by the SEND it completes. */
  lemma CleanRunHasNoStrays(y: System)
    requires Inv(y) && RefusedSoFar(y) == 0
    ensures Strays(y.calls, Responses(Got(y))) == 0
  {
    hide Run, Issued, QueueOk, Responses, Encode, Stamp, Refusals, Orderly, AllShaped, Numbered,
         Explains, Answers, Strays;
    var s, rs := y.origin.session, Responses(Got(y));
    forall k | 0 <= k < |rs|
      ensures Answers(y.calls[k].verb, rs[k])
    {
      ConsumesOwners(y, k);
      RefusalsGrow(s, y.calls, k);
      PlaceIsLate(s, y.calls, k);
    }
    NoStrays(y.calls, rs);
  }

  /** Credits of a run without a refused WRITE stay between zero and the initial credits. */
  lemma CreditsBounded(y0: System, steps: seq<Step>)
    requires GoodRun(y0, steps) && RefusedSoFar(Exec(y0, steps)) == 0
    ensures 0 <= Exec(y0, steps).client.sendCredits <= y0.origin.session.icc
  {
    hide Run, Exec, Issued, Decode, Encode, Stamp, RequestsOk, Increments, RecvComps, Responses, Strays, Start,
         RefusedSoFar, Numbered, Explains;
    RunKeepsInv(y0, steps);
    var y := Exec(y0, steps);
    OriginIsFixed(y0, steps);
    CleanRunHasNoStrays(y);
    GotIsPrefix(y);
    PrefixCredit(y.origin.session, Ins(y), y.collected);
  }

  lemma {:induction false} NoResponsesMeansTrailing(ns: seq<Note>)
    requires Responses(ns) == []
    ensures TrailingIncrements(ns) == Increments(ns) && RecvComps(ns) == 0
  {
    if ns != [] {
      NoResponsesMeansTrailing(ns[..|ns| - 1]);
    }
  }

  /**
   At a verb boundary of a run without a refused WRITE, the client lacks at most
   one quota of its initial credits.
   */
  lemma CreditsAtBoundary(y0: System, steps: seq<Step>)
    requires GoodRun(y0, steps)
    requires var y := Exec(y0, steps); y.waiting.None? && RefusedSoFar(y) == 0
    ensures Exec(y0, steps).client.sendCredits >= y0.origin.session.icc - Quota(y0.origin.session.icc)
  {
    hide Run, Exec, Issued, Decode, Encode, Stamp, RequestsOk, Increments, RecvComps, Responses, Strays, Start,
         RefusedSoFar, Numbered, Explains, TrailingIncrements, Quota;
    RunKeepsInv(y0, steps);
    var y := Exec(y0, steps);
    OriginIsFixed(y0, steps);
    CleanRunHasNoStrays(y);
    UnreadAtBoundary(y0, steps);
    GotIsPrefix(y);
    var unread := AllOut(y)[y.collected..];
    NoResponsesMeansTrailing(unread);
    CountsConcat(Got(y), unread);
    ResponsesConcat(Got(y), unread);
    RunCredit(y.origin.session, Ins(y));
  }

  /** With two or more initial credits a client that had no WRITE refused never runs out of them. */
  lemma CreditsNeverRunOut(y0: System, steps: seq<Step>, v: Verb)
    requires GoodRun(y0, steps) && y0.origin.session.icc >= 2
    requires var y := Exec(y0, steps); y.waiting.None? && RefusedSoFar(y) == 0
    ensures Requests(Exec(y0, steps).client, v) != Err(SendCreditsExhausted)
  {
    hide Exec, GoodRun, RefusedSoFar, Gather;
    CreditsAtBoundary(y0, steps);
    var mrs := Exec(y0, steps).client.localMrs;
    if (v.PostSend? || v.RdmaWrite?) && Gather(mrs, v.sg).Err? {
      GatherErrorIsLocal(mrs, v.sg);
    }
  }

  // ---------------------------------------------------------------------
  // Receive queue and completion queue
  // ---------------------------------------------------------------------

  /** Every receive-queue place the verbs used is accounted for by a completion sent or a SEND in progress. */
  lemma ReceiveQueueConserved(y0: System, steps: seq<Step>)
    requires GoodRun(y0, steps)
    ensures var y := Exec(y0, steps);
            && 0 <= ServedCount(y)
            && y0.origin.session.recvQueueDepth
               == y.server.session.recvQueueDepth + RecvComps(SoFar(y).1) + PendingSends(y.server.session)
  {
    hide Run, Exec, Issued, Decode, Encode, Stamp, QueueOk, ClientOk, RecvComps, Start, Dropped, Orderly, AllShaped;
    RunKeepsInv(y0, steps);
    var y := Exec(y0, steps);
    OriginIsFixed(y0, steps);
    var s, n := y.origin.session, ServedCount(y);
    VerbsDropNothing(s, y.calls);
    assert Ins(y) == Ins(y)[..n] + Ins(y)[n..];
    DroppedConcat(s, Ins(y)[..n], Ins(y)[n..]);
    assert s.phase == Ready by { ReadyAtOrigin(y); }
    RunQueue(s, Ins(y)[..n]);
  }

  /**
   No completion is refused or lost: polled and queued completions are, in the
   order of the calls, one entry with its own WRID for each finished verb that
   succeeded or consumed an ERROR, and none for any other. The queue stays
   within its capacity, and a waiting verb has room.
   */
  lemma CompletionsKept(y0: System, steps: seq<Step>)
    requires GoodRun(y0, steps)
    ensures var y := Exec(y0, steps);
            && 0 <= ServedCount(y) && y.collected <= |SoFar(y).1|
            && |Responses(Got(y))| == |y.outcomes| <= |y.calls|
            && y.polled + y.client.cq == Entries(y.client.sessionId, y.calls, y.outcomes, Responses(Got(y)))
            && |y.client.cq| <= y.client.cqCapacity
            && (y.waiting.Some? && UsesCq(y.waiting.value) ==> !CqFull(y.client))
  {
    hide Exec, Start, RequestsOk, Run, Issued, Responses, Entries, Explains, Strays, Increments, RecvComps, Decode,
         Encode, Stamp, Numbered;
    RunKeepsInv(y0, steps);
  }
}
