/**
 One verb from beginning to end, under any schedule: whatever frames move in
 between, the client ends up with what the response at the verb's place makes
 of it.
 */
module Episodes {
  import opened Core
  import opened Codec
  import opened SessionModel
  import opened SessionRuns
  import opened ClientModel
  import opened Traffic
  import opened Protocol
  import opened ProtocolInvariant
  import opened ProtocolTheorems
  import opened EndToEnd
  import opened VerbOutcomes

  /** The response at place `k`. */
  ghost function Consumed(y: System, k: nat): Note
    requires k < |y.calls| && GoodTraffic(y.origin.session, y.calls)
  {
    OwnerIsSelfIff(y.origin.session, y.calls, k);
    ResponseIsOwners(y.origin.session, y.calls, k);
    AnswersOf(y, OwnerOf(y, k))[k - OwnersPlace(y, k)]
  }

  /** What a verb makes of a response body, as far as the body and the client decide it. */
  function Concluded(c: Client, v: Verb, body: Body): (Client, Outcome) {
    Accept(c, v, NewMessage(0, 0, 0, body))
  }

  /** Two clients that agree on what a verb looks at and changes. */
  predicate Alike(c: Client, d: Client) {
    && c.localMrs == d.localMrs && c.cq == d.cq && c.cqCapacity == d.cqCapacity
    && c.sessionId == d.sessionId && c.pd == d.pd
  }

  lemma PushIsAlike(c: Client, d: Client, v: Verb, m: Message, n: Message)
    requires Alike(c, d) && m.body == n.body
    ensures Alike(PushCompletion(c, v, m), PushCompletion(d, v, n))
    ensures PushCompletion(c, v, m) == c.(cq := PushCompletion(c, v, m).cq)
    ensures PushCompletion(d, v, n) == d.(cq := PushCompletion(d, v, n).cq)
  {
    hide CodeValue, StartOf;
    assert Completion(c, v, m) == Completion(d, v, n);
  }

  lemma AcceptIsConcluded(c: Client, d: Client, v: Verb, m: Message)
    requires Alike(c, d) && m.header.opcode == OpcodeOf(m.body)
    ensures Accept(c, v, m).1 == Concluded(d, v, m.body).1
    ensures Alike(Accept(c, v, m).0, Concluded(d, v, m.body).0)
  {
    hide CodeValue, CodeFromValue, StartOf, Splice, Zeros, PushCompletion;
    PushIsAlike(c, d, v, m, NewMessage(0, 0, 0, m.body));
  }

  /** From `b`, in which verb `v` has just begun, to `z`: still waiting, or ended. */
  ghost predicate During(b: System, z: System, v: Verb)
    requires GoodTraffic(b.origin.session, b.calls) && b.calls != []
  {
    var r := Concluded(b.client, v, Consumed(b, |b.calls| - 1).body);
    && z.calls == b.calls && z.origin == b.origin && z.polled == b.polled
    && (z.waiting == Some(v) || z.waiting.None?)
    && Alike(z.client, if z.waiting.Some? then b.client else r.0)
    && z.outcomes == b.outcomes + (if z.waiting.Some? then [] else [r.1])
  }

  /** A step that moves a frame. */
  predicate Moves(step: Step) {
    step.Transmit? || step.Serve? || step.Collect?
  }

  /** Collecting keeps everything but the client and the channel, and ends the verb or changes only counters. */
  lemma CollectShape(y: System)
    requires Inv(y) && y.waiting.Some? && y.outbox == [] && y.s2c != []
    ensures var z := CollectStep(y);
            && z.calls == y.calls && z.origin == y.origin && z.polled == y.polled
            && (z.waiting.None? ==> Finishes(y, z))
            && (z.waiting.Some? ==> z.waiting == y.waiting && Alike(z.client, y.client) && z.outcomes == y.outcomes)
  {
    hide Inv, Decode, Accept, Completion;
    CollectKeepsInv(y);
  }

  lemma SameConsumed(y: System, z: System, k: nat)
    requires k < |y.calls| && z.calls == y.calls && z.origin == y.origin && GoodTraffic(y.origin.session, y.calls)
    ensures Consumed(y, k) == Consumed(z, k)
  {
    hide Owner, PlaceOf, Run, Responses;
  }

  lemma CollectDuring(b: System, y: System, v: Verb)
    requires GoodTraffic(b.origin.session, b.calls) && |b.calls| == |b.outcomes| + 1
    requires Inv(y) && During(b, y, v) && y.waiting.Some? && y.outbox == [] && y.s2c != []
    ensures During(b, CollectStep(y), v)
  {
    hide Run, GoodTraffic, Inv, Responses, Refusals, Accept, Concluded, CollectStep, AnswersOf, Finishes, OwnerOf,
         OwnersPlace, Got, SoFar, Paired;
    var z := CollectStep(y);
    CollectShape(y);
    CollectKeepsInv(y);
    if z.waiting.None? {
      var c, m := FinishAccepts(y, z);
      ConsumesOwners(z, |y.outcomes|);
      SameConsumed(b, z, |y.outcomes|);
      AcceptIsConcluded(c, b.client, v, m);
    }
  }

  lemma MoveDuring(b: System, y: System, v: Verb, step: Step)
    requires GoodTraffic(b.origin.session, b.calls) && |b.calls| == |b.outcomes| + 1
    requires Inv(y) && During(b, y, v) && Moves(step)
    ensures During(b, Apply(y, step), v) && Inv(Apply(y, step))
  {
    hide Run, GoodTraffic, Inv, Concluded, CollectStep, Consumed, ServeFrame;
    StepKeepsInv(y, step);
    if step.Collect? && y.waiting.Some? && y.outbox == [] && y.s2c != [] {
      CollectDuring(b, y, v);
    }
  }

  /** What holds right after a verb has begun. */
  lemma BegunDuring(y: System, v: Verb, env1: Env, env2: Env)
    requires Inv(y) && y.waiting.None? && Requests(y.client, v).Ok? && FitsVerb(Limit(y), v)
    ensures var b := Apply(y, Begin(v, env1, env2));
            && Inv(b) && GoodTraffic(b.origin.session, b.calls) && |b.calls| == |b.outcomes| + 1 && During(b, b, v)
            && |b.calls| == |y.calls| + 1 && b.calls[..|y.calls|] == y.calls && b.calls[|y.calls|].verb == v
            && b.origin == y.origin && Alike(b.client, y.client) && b.outcomes == y.outcomes && b.polled == y.polled
            && |y.calls| == |y.outcomes|
            && b.waiting == Some(v)
  {
    hide Run, Issued, Stamp, Increments, RecvComps, Responses, Explains, Encode, Decode, Strays, Entries, Concluded,
         Consumed, Requests, FitsVerb, AsInputs, AsFrames, Orderly, AllShaped, MemoryModel.Valid;
    StepKeepsInv(y, Begin(v, env1, env2));
  }

  /** A schedule of moves from the beginning of a verb. */
  lemma {:induction false} MovesDuring(b: System, v: Verb, more: seq<Step>)
    requires Inv(b) && GoodTraffic(b.origin.session, b.calls) && |b.calls| == |b.outcomes| + 1 && During(b, b, v)
    requires forall i :: 0 <= i < |more| ==> Moves(more[i])
    ensures Inv(Exec(b, more)) && During(b, Exec(b, more), v)
  {
    hide Inv, GoodTraffic, During, Apply;
    if more != [] {
      var n := |more| - 1;
      MovesDuring(b, v, more[..n]);
      MoveDuring(b, Exec(b, more[..n]), v, more[n]);
    }
  }
}
