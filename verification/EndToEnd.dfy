/**
 Read after write from end to end: from the client's local buffers through
 gather, encode, decode, dispatch and store, and back into the local sink.
 */
module EndToEnd {
  import opened Core
  import opened Codec
  import opened MemoryModel
  import opened SessionModel
  import opened SessionRuns
  import opened ClientModel
  import opened Traffic
  import opened Protocol
  import opened ProtocolInvariant
  import opened ProtocolTheorems
  import opened ReadAfterWrite

  // ---------------------------------------------------------------------
  // The two ends
  // ---------------------------------------------------------------------

  /** The step starts a verb that goes out. */
  predicate Issues(y: System, step: Step) {
    step.Begin? && Apply(y, step).calls != y.calls
  }

  /** A WRITE that goes out carries the gathered segments in its WRITE_DATA. */
  lemma IssuedWriteCarriesData(y: System, step: Step)
    requires Issues(y, step) && step.verb.RdmaWrite?
    ensures var calls := Apply(y, step).calls;
            && |calls| == |y.calls| + 1 && calls[|y.calls|].verb == step.verb
            && |calls[|y.calls|].reqs| == 2 && calls[|y.calls|].reqs[1].msg.body.WriteDataBody?
            && Gather(y.client.localMrs, step.verb.sg) == Ok(calls[|y.calls|].reqs[1].msg.body.data)
  {
    hide Gather, Encode, Wrap32;
  }

  /** The step in which a waiting client reads the response that ends its verb. */
  predicate Finishes(y: System, z: System) {
    z == Apply(y, Collect) && |z.outcomes| == |y.outcomes| + 1
  }

  /** A read that completes leaves in the sink the data of the response it consumed. */
  lemma CompletedReadFillsSink(y: System, z: System)
    requires Inv(y) && Inv(z) && Finishes(y, z)
    requires y.waiting.Some? && y.waiting.value.RdmaRead? && z.outcomes[|y.outcomes|] == Completed
    ensures var v := y.waiting.value;
            var body := Responses(Got(z))[|y.outcomes|].body;
            && body.ReadRespBody?
            && ReadLocal(z.client, v.localLkey, v.localVa, |body.data|) == Ok(body.data)
  {
    hide Run, Issued, RequestsOk, Increments, RecvComps, Responses, Explains, Wrap32, Accept, Completion, Strays,
         Encode, Decode, Stamp, Numbered, UsesCq, ReadLocal, QueueOk, Entries;
    assert RequestsOk(y);
    NextResponseDecodes(y);
    UnreadExists(y);
    var m := Decode(y.s2c[0]).value;
    var n := SoFar(y).1[y.collected];
    match OnArrival(y.client, m)
    case Application(c) =>
      AcceptedReadFillsSink(c, y.waiting.value, m);
      GotGrows(y, z);
      MeasuresOfFew(n);
      ResponsesConcat(Got(y), [n]);
  }

  /**
   A read that completes leaves in the sink what the server answered to the
   owner of its place, which is a read as well, though perhaps of another range.
   */
  lemma CompletedReadHoldsOwnersAnswer(y: System, z: System)
    requires Inv(y) && Inv(z) && Finishes(y, z)
    requires y.waiting.Some? && y.waiting.value.RdmaRead? && z.outcomes[|y.outcomes|] == Completed
    requires |z.outcomes| <= |z.calls|
    ensures var (v, m) := (y.waiting.value, OwnerOf(z, |y.outcomes|));
            && z.calls[m].verb.RdmaRead? && AnswersOf(z, m) != [] && AnswersOf(z, m)[0].body.ReadRespBody?
            && var data := AnswersOf(z, m)[0].body.data;
               |data| == z.calls[m].verb.readLen
               && ReadLocal(z.client, v.localLkey, v.localVa, |data|) == Ok(data)
  {
    hide Apply, Inv, Run, Responses, ReadLocal, Owner, PlaceOf, Refusals, RefusedWrite, Before, EffectOf;
    CompletedReadFillsSink(y, z);
    ConsumesOwners(z, |y.outcomes|);
  }

  // ---------------------------------------------------------------------
  // Read after write
  // ---------------------------------------------------------------------

  /** Call `m` reads the range that call `w` wrote, and no verb in between writes into it. */
  ghost predicate ReadsBack(z: System, w: nat, m: nat) {
    && w < m < |z.calls| && z.calls[w].verb.RdmaWrite? && z.calls[m].verb.RdmaRead?
    && z.calls[m].verb.rkey == z.calls[w].verb.rkey && z.calls[m].verb.remoteVa == z.calls[w].verb.remoteVa
    && z.calls[m].verb.readLen == StartOf(z.calls[w].verb.sg, |z.calls[w].verb.sg|)
    && forall i :: w < i < m ==>
         !Touches(z.calls[i].verb, z.calls[w].verb.rkey, z.calls[w].verb.remoteVa, z.calls[m].verb.readLen)
  }

  /** In `y1` a WRITE goes out, and from `y2` to `z` a READ completes. */
  ghost predicate WriteThenRead(y1: System, write: Step, y2: System, z: System) {
    && Issues(y1, write) && write.verb.RdmaWrite?
    && y2.waiting.Some? && y2.waiting.value.RdmaRead? && Finishes(y2, z)
    && |z.outcomes| <= |z.calls| && z.outcomes[|y2.outcomes|] == Completed
  }

  lemma SinkEqualsData(y: System, z: System, w: nat)
    requires Inv(y) && Inv(z) && Finishes(y, z) && MemoryModel.Valid(z.origin.session.store)
    requires y.waiting.Some? && y.waiting.value.RdmaRead? && z.outcomes[|y.outcomes|] == Completed
    requires |z.outcomes| <= |z.calls| && ReadsBack(z, w, OwnerOf(z, |y.outcomes|))
    requires Succeeded(z.origin.session, z.calls, w)
    ensures Shaped(z.calls[w])
    ensures var (v, data) := (y.waiting.value, z.calls[w].reqs[1].msg.body.data);
            ReadLocal(z.client, v.localLkey, v.localVa, |data|) == Ok(data)
  {
    hide Run, Issued, Responses, Encode, Decode, Stamp, Refusals, Orderly, Numbered, Answers, Increments, RecvComps,
         Touches, StartOf, Strays, Explains, QueueOk, ServerOk, Apply, ReadLocal, MemoryModel.Valid, Entries,
         Owner, PlaceOf, Before, ClientOk, PipeOk;
    CompletedReadHoldsOwnersAnswer(y, z);
    ReadSeesWrite(z.origin.session, z.calls, w, OwnerOf(z, |y.outcomes|));
  }

  /** What is known of both ends of a run that writes and later reads. */
  lemma ScenarioFacts(y0: System, a: seq<Step>, y1: System, write: Step, b: seq<Step>, y2: System, z: System)
    requires Start(y0) && Fit(y0, a) && Fit(y0, b) && FitsStep(Limit(y0), write)
    requires y1 == Exec(y0, a) && y2 == Exec(Apply(y1, write), b) && WriteThenRead(y1, write, y2, z)
    ensures Inv(y2) && Inv(z) && MemoryModel.Valid(z.origin.session.store)
    ensures |y1.calls| < |z.calls| && z.calls[|y1.calls|].verb == write.verb
    ensures |z.calls[|y1.calls|].reqs| == 2 && z.calls[|y1.calls|].reqs[1].msg.body.WriteDataBody?
    ensures Gather(y1.client.localMrs, write.verb.sg) == Ok(z.calls[|y1.calls|].reqs[1].msg.body.data)
  {
    hide Exec, Apply, Inv, Start, FitsVerb, StartOf, Gather, MemoryModel.Valid;
    StartInv(y0);
    StepsKeepInv(y0, a);
    RunExtends(y0, a);
    StepKeepsInv(y1, write);
    StepKeepsOrigin(y1, write);
    StepsKeepInv(Apply(y1, write), b);
    RunExtends(Apply(y1, write), b);
    StepKeepsInv(y2, Collect);
    StepKeepsOrigin(y2, Collect);
    IssuedWriteCarriesData(y1, write);
    StartHasValidStore(y0);
  }

  /**
   End-to-end read after write in every run, refused WRITEs included. The run
   has steps `a`, a WRITE that goes out, steps `b` and the step in which a READ
   completes. If the call that owns the READ's place reads back what the WRITE
   wrote, the local sink holds exactly the segments that the WRITE gathered.
   */
  lemma SinkHoldsWhatOwnerReadsBack(y0: System, a: seq<Step>, y1: System, write: Step, b: seq<Step>, y2: System,
                                    z: System)
    requires Start(y0) && Fit(y0, a) && Fit(y0, b) && FitsStep(Limit(y0), write)
    requires y1 == Exec(y0, a) && y2 == Exec(Apply(y1, write), b) && WriteThenRead(y1, write, y2, z)
    requires |y1.calls| < |z.calls| && Succeeded(z.origin.session, z.calls, |y1.calls|)
    requires ReadsBack(z, |y1.calls|, OwnerOf(z, |y2.outcomes|))
    ensures Gather(y1.client.localMrs, write.verb.sg).Ok?
    ensures var (r, data) := (y2.waiting.value, Gather(y1.client.localMrs, write.verb.sg).value);
            ReadLocal(z.client, r.localLkey, r.localVa, |data|) == Ok(data)
  {
    hide Exec, Apply, Inv, Start, FitsVerb, Fit, StartOf, ReadLocal, Gather, MemoryModel.Valid, ReadsBack, Succeeded,
         OwnerOf, Shaped, Issues;
    ScenarioFacts(y0, a, y1, write, b, y2, z);
    SinkEqualsData(y2, z, |y1.calls|);
  }

  /** A verb that returned success, with no WRITE refused before it, was answered without an ERROR. */
  lemma CompletedMeansSucceeded(y: System, k: nat)
    requires Inv(y) && k < |y.outcomes| && k < |y.calls| && y.outcomes[k] == Completed
    requires Refusals(y.origin.session, y.calls[..k]) == 0
    ensures Succeeded(y.origin.session, y.calls, k)
  {
    hide Inv, Run, Responses, Owner, Refusals, RefusedWrite, Before, EffectOf, Answers;
    ConsumesOwners(y, k);
    PlaceIsLate(y.origin.session, y.calls, k);
  }

  /**
   The same in the terms of the client: if no WRITE was refused before the READ,
   its place is its own, so a READ of the range of a WRITE that returned
   success, with no verb writing into the range in between, fills the sink with
   the segments that the WRITE gathered.
   */
  lemma ReadReturnsWhatWasWritten(y0: System, a: seq<Step>, y1: System, write: Step, b: seq<Step>, y2: System,
                                  z: System)
    requires Start(y0) && Fit(y0, a) && Fit(y0, b) && FitsStep(Limit(y0), write)
    requires y1 == Exec(y0, a) && y2 == Exec(Apply(y1, write), b) && WriteThenRead(y1, write, y2, z)
    requires var (w, j) := (|y1.calls|, |y2.outcomes|);
             && ReadsBack(z, w, j) && w < |z.outcomes| && z.outcomes[w] == Completed
             && Refusals(z.origin.session, z.calls[..j]) == 0
    ensures Gather(y1.client.localMrs, write.verb.sg).Ok?
    ensures var (r, data) := (y2.waiting.value, Gather(y1.client.localMrs, write.verb.sg).value);
            ReadLocal(z.client, r.localLkey, r.localVa, |data|) == Ok(data)
  {
    hide Exec, Apply, Inv, Start, FitsVerb, Fit, StartOf, ReadLocal, Gather, MemoryModel.Valid, Touches, Succeeded,
         Owner, Shaped, Issues, Refusals;
    var s, w, j := z.origin.session, |y1.calls|, |y2.outcomes|;
    ScenarioFacts(y0, a, y1, write, b, y2, z);
    OwnerIsSelfIff(s, z.calls, j);
    RefusalsGrow(s, z.calls[..j], w);
    assert z.calls[..j][..w] == z.calls[..w];
    CompletedMeansSucceeded(z, w);
    SinkHoldsWhatOwnerReadsBack(y0, a, y1, write, b, y2, z);
  }
}
