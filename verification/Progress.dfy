/**
 Progress: a waiting verb always has a step ahead of it, and no schedule of
 such steps is longer than the work there is. So every verb returns, whichever
 enabled steps the schedule picks.
 */
module Progress {
  import opened Core
  import opened Codec
  import opened SessionModel
  import opened SessionRuns
  import opened ClientModel
  import opened Traffic
  import opened Protocol
  import opened ProtocolInvariant
  import opened ProtocolTheorems

  /** A step that moves a waiting verb on. */
  predicate Enabled(y: System, step: Step) {
    match step
    case Transmit => y.outbox != []
    case Serve => y.c2s != []
    case Collect => y.waiting.Some? && y.outbox == [] && y.s2c != []
    case _ => false
  }

  /** Frames still to be moved: a frame at the client goes through three hands, and an answer has at most two. */
  function Work(y: System): nat {
    4 * |y.outbox| + 3 * |y.c2s| + |y.s2c|
  }

  lemma MoreResponses(a: seq<Note>, b: seq<Note>)
    ensures |Responses(a)| < |Responses(a + b)| ==> b != []
  {
    assert a + [] == a;
  }

  /** Something the server sent has not been read as long as a verb waits and nothing is in flight to the server. */
  lemma ResponseIsThere(y: System)
    requires Inv(y) && y.waiting.Some? && Pipe(y) == []
    ensures y.s2c != []
  {
    hide Run, Issued, QueueOk, Responses, Encode, Stamp, Refusals, Orderly, AllShaped, Numbered, Increments,
         RecvComps, Strays, Explains;
    GotIsPrefix(y);
    CallsAnswered(y.origin.session, y.calls);
    assert Ins(y)[..ServedCount(y)] == Ins(y);
    MoreResponses(Got(y), AllOut(y)[y.collected..]);
  }

  /** The step to take next for a waiting verb. */
  function Next(y: System): Step {
    if y.outbox != [] then Transmit else if y.c2s != [] then Serve else Collect
  }

  /** No deadlock: in every run a waiting verb has a step that moves it on. */
  lemma WaitingCanProceed(y0: System, steps: seq<Step>)
    requires GoodRun(y0, steps) && Exec(y0, steps).waiting.Some?
    ensures Enabled(Exec(y0, steps), Next(Exec(y0, steps)))
  {
    hide Exec, Inv, Start;
    RunKeepsInv(y0, steps);
    var y := Exec(y0, steps);
    if y.outbox == [] && y.c2s == [] {
      ResponseIsThere(y);
    }
  }

  lemma ServeSendsFew(y: System)
    requires y.c2s != []
    ensures |ServeStep(y).s2c| <= |y.s2c| + 2
    ensures ServeStep(y).c2s == y.c2s[1..] && ServeStep(y).outbox == y.outbox
  {
    hide Decode, Encode, React, Stamp;
    if Decode(y.c2s[0].data).Ok? {
      AnswerIsShort(y.server.session, Decode(y.c2s[0].data).value, y.c2s[0].env);
    }
  }

  /** Every step that moves a verb on uses up work, whichever of them the schedule picks. */
  lemma StepUsesWork(y: System, step: Step)
    requires Enabled(y, step)
    ensures Work(Apply(y, step)) < Work(y)
  {
    hide ServeStep, Decode, OnArrival, Accept, Completion;
    if step.Serve? {
      ServeSendsFew(y);
    }
  }

  /** Each step of the schedule is enabled when it is taken. */
  ghost predicate Scheduled(y: System, more: seq<Step>) {
    forall i :: 0 <= i < |more| ==> Enabled(Exec(y, more[..i]), more[i])
  }

  /** No schedule of enabled steps is longer than the work there is. */
  lemma {:induction false} ScheduleIsBounded(y: System, more: seq<Step>)
    requires Scheduled(y, more)
    ensures Work(Exec(y, more)) + |more| <= Work(y)
  {
    hide Enabled, Work, Apply;
    if more != [] {
      var n := |more| - 1;
      assert forall i :: 0 <= i < n ==> more[..n][..i] == more[..i];
      assert Scheduled(y, more[..n]);
      ScheduleIsBounded(y, more[..n]);
      StepUsesWork(Exec(y, more[..n]), more[n]);
    }
  }

  /**
   Every verb returns: a schedule of enabled steps, taken from any point of any
   run, that cannot be continued has ended the verb.
   */
  lemma StoppedMeansReturned(y0: System, steps: seq<Step>, more: seq<Step>)
    requires GoodRun(y0, steps) && Scheduled(Exec(y0, steps), more)
    requires forall step :: !Enabled(Exec(Exec(y0, steps), more), step)
    ensures Exec(Exec(y0, steps), more).waiting.None? && |more| <= Work(Exec(y0, steps))
  {
    hide Exec, Enabled, Work, GoodRun;
    var y := Exec(y0, steps);
    ScheduleIsBounded(y, more);
    ScheduleFits(y0, steps, more);
    ExecConcat(y0, steps, more);
    if Exec(y, more).waiting.Some? {
      WaitingCanProceed(y0, steps + more);
    }
  }

  lemma ScheduleFits(y0: System, steps: seq<Step>, more: seq<Step>)
    requires GoodRun(y0, steps) && Scheduled(Exec(y0, steps), more)
    ensures GoodRun(y0, steps + more)
  {
    hide Exec, Start;
    forall i | 0 <= i < |more|
      ensures !more[i].Begin?
    {
      assert Enabled(Exec(Exec(y0, steps), more[..i]), more[i]);
    }
  }

  lemma RunAppend(y0: System, steps: seq<Step>, step: Step)
    requires GoodRun(y0, steps) && !step.Begin?
    ensures GoodRun(y0, steps + [step]) && Exec(y0, steps + [step]) == Apply(Exec(y0, steps), step)
  {
    hide Start, Apply;
    assert (steps + [step])[..|steps|] == steps;
  }

  /**
   Every verb returns: from any point of any run, `more` moves of frames lead to
   a state in which the client no longer waits.
   */
  lemma {:induction false} VerbReturns(y0: System, steps: seq<Step>) returns (more: seq<Step>)
    requires GoodRun(y0, steps)
    ensures GoodRun(y0, steps + more) && Exec(y0, steps + more).waiting.None?
    ensures forall i :: 0 <= i < |more| ==> more[i].Transmit? || more[i].Serve? || more[i].Collect?
    decreases Work(Exec(y0, steps))
  {
    hide GoodRun, Exec, Apply, Work, Enabled;
    var y := Exec(y0, steps);
    if y.waiting.None? {
      more := [];
      assert steps + more == steps;
    } else {
      var step := Next(y);
      WaitingCanProceed(y0, steps);
      StepUsesWork(y, step);
      RunAppend(y0, steps, step);
      var rest := VerbReturns(y0, steps + [step]);
      more := [step] + rest;
      assert steps + more == (steps + [step]) + rest;
    }
  }
}
