/** The fixed-window limiter on memory registrations, over whole session runs. */
module RateLimit {
  import opened Core
  import opened MemoryModel
  import opened SessionModel
  import opened SessionMemory

  /** The input is a registration that the session handles and lets through the limiter. */
  predicate PassesLimiter(s: Session, x: Input) {
    Processed(s, x.msg) && x.msg.body.MrRegBody? && Admitted(s, x.env.now)
  }

  /** Number of registrations let through at times in the half-open span from `a` to `b`. */
  function PassedIn(s: Session, ins: seq<Input>, a: nat, b: nat): nat {
    if ins == [] then 0
    else
      var front := ins[..|ins| - 1];
      var last := ins[|ins| - 1];
      PassedIn(s, front, a, b)
      + (if PassesLimiter(Run(s, front).0, last) && a <= last.env.now < b then 1 else 0)
  }

  /** The clock does not run backwards, and the session was opened before the first message. */
  ghost predicate Clocked(s: Session, ins: seq<Input>) {
    && (forall i :: 0 <= i < |ins| ==> s.mrRegWindowStart <= ins[i].env.now)
    && (forall i, j :: 0 <= i <= j < |ins| ==> ins[i].env.now <= ins[j].env.now)
  }

  function LastTime(s: Session, ins: seq<Input>): nat {
    if ins == [] then s.mrRegWindowStart else ins[|ins| - 1].env.now
  }

  lemma LimiterStep(s: Session, x: Input)
    requires s.phase != AwaitingConnect
    ensures var t := React(s, x.msg, x.env).0;
            && t.phase != AwaitingConnect
            && t.mrRegRateLimit == s.mrRegRateLimit
            && (if Processed(s, x.msg) && x.msg.body.MrRegBody? then
                  var r := RollWindow(s, x.env.now);
                  && t.mrRegWindowStart == r.mrRegWindowStart
                  && t.mrRegCount == r.mrRegCount + (if Admitted(s, x.env.now) then 1 else 0)
                else SameLimiter(s, t))
  {
    hide Dispatch, Ascii;
    if Processed(s, x.msg) && x.msg.body.MrRegBody? {
      MrRegIsDispatched(Advance(s, x.msg), x.msg, x.env);
      MrRegLimiter(Advance(s, x.msg), x.msg.header.wrid, x.msg.body, x.env);
    }
  }

  lemma MrRegIsDispatched(s: Session, m: Message, env: Env)
    requires m.body.MrRegBody?
    ensures Dispatch(s, m, env) == HandleMrReg(s, m.header.wrid, m.body, env)
  {
    hide HandleMrReg;
  }

  lemma MrRegLimiter(s: Session, wrid: u64, body: Body, env: Env)
    requires body.MrRegBody?
    ensures var t := HandleMrReg(s, wrid, body, env).0;
            var r := RollWindow(s, env.now);
            && t.mrRegWindowStart == r.mrRegWindowStart
            && t.mrRegCount == r.mrRegCount + (if Admitted(s, env.now) then 1 else 0)
  {
    hide Perform;
  }

  /** Upper bound on the windows opened inside the span up to the one that starts at `w`. */
  function WindowsSince(a: nat, w: nat): nat {
    if w < a then 0 else (w - a) / SECOND + 1
  }

  /** `c` registrations passed in the `n` seconds from `a`, with the limiter now in state `t`. */
  ghost predicate SpanInv(t: Session, c: nat, a: nat, n: nat, last: nat) {
    var limit := t.mrRegRateLimit;
    && t.mrRegCount <= limit
    && t.mrRegWindowStart <= last
    && c <= (n + 1) * limit
    && (last < a ==> c == 0)
    && (t.mrRegWindowStart < a + n * SECOND ==> c <= WindowsSince(a, t.mrRegWindowStart) * limit + t.mrRegCount)
  }

  lemma WindowsAdvance(a: nat, w: nat, w': nat, limit: nat)
    requires w + SECOND <= w' && a <= w'
    ensures WindowsSince(a, w) * limit + limit <= WindowsSince(a, w') * limit
  {
    assert WindowsSince(a, w) + 1 <= WindowsSince(a, w');
    var d := WindowsSince(a, w') - WindowsSince(a, w) - 1;
    assert WindowsSince(a, w') * limit == WindowsSince(a, w) * limit + limit + d * limit;
  }

  lemma WindowsBounded(a: nat, n: nat, w: nat, limit: nat)
    requires w < a + n * SECOND
    ensures WindowsSince(a, w) * limit + limit <= (n + 1) * limit
  {
    assert WindowsSince(a, w) <= n;
    assert WindowsSince(a, w) * limit <= n * limit;
  }

  /** Opening a new window keeps the bound. */
  lemma RollKeepsSpan(s: Session, c: nat, a: nat, n: nat, last: nat, now: nat)
    requires SpanInv(s, c, a, n, last) && last <= now
    ensures SpanInv(RollWindow(s, now), c, a, n, now)
  {
    if now - s.mrRegWindowStart >= SECOND {
      if a <= now < a + n * SECOND {
        WindowsAdvance(a, s.mrRegWindowStart, now, s.mrRegRateLimit);
      }
    }
  }

  /** So does letting one registration through in the current window. */
  lemma PassKeepsSpan(r: Session, t: Session, c: nat, a: nat, n: nat, now: nat)
    requires SpanInv(r, c, a, n, now) && r.mrRegCount < r.mrRegRateLimit
    requires t.mrRegRateLimit == r.mrRegRateLimit && t.mrRegWindowStart == r.mrRegWindowStart
    requires t.mrRegCount == r.mrRegCount + 1
    ensures SpanInv(t, c + (if a <= now < a + n * SECOND then 1 else 0), a, n, now)
  {
    if a <= now < a + n * SECOND {
      WindowsBounded(a, n, r.mrRegWindowStart, r.mrRegRateLimit);
    }
  }

  lemma StepKeepsSpan(s: Session, x: Input, c: nat, a: nat, n: nat, last: nat)
    requires s.phase != AwaitingConnect && SpanInv(s, c, a, n, last) && last <= x.env.now
    ensures var c' := c + (if PassesLimiter(s, x) && a <= x.env.now < a + n * SECOND then 1 else 0);
            SpanInv(React(s, x.msg, x.env).0, c', a, n, x.env.now)
  {
    hide React, WindowsSince;
    LimiterStep(s, x);
    if Processed(s, x.msg) && x.msg.body.MrRegBody? {
      RollKeepsSpan(s, c, a, n, last, x.env.now);
      if Admitted(s, x.env.now) {
        PassKeepsSpan(RollWindow(s, x.env.now), React(s, x.msg, x.env).0, c, a, n, x.env.now);
      }
    }
  }

  lemma {:induction false} RunKeepsSpan(s: Session, ins: seq<Input>, a: nat, n: nat)
    requires s.phase != AwaitingConnect && s.mrRegCount == 0 && Clocked(s, ins)
    ensures Run(s, ins).0.phase != AwaitingConnect
    ensures Run(s, ins).0.mrRegRateLimit == s.mrRegRateLimit
    ensures SpanInv(Run(s, ins).0, PassedIn(s, ins, a, a + n * SECOND), a, n, LastTime(s, ins))
  {
    hide React, SpanInv, PassesLimiter;
    if ins == [] {
      InitialSpan(s, a, n);
    } else {
      var m := |ins| - 1;
      RunKeepsSpan(s, ins[..m], a, n);
      var s1 := Run(s, ins[..m]).0;
      LimiterStep(s1, ins[m]);
      StepKeepsSpan(s1, ins[m], PassedIn(s, ins[..m], a, a + n * SECOND), a, n, LastTime(s, ins[..m]));
    }
  }

  lemma InitialSpan(s: Session, a: nat, n: nat)
    requires s.mrRegCount == 0
    ensures SpanInv(s, 0, a, n, s.mrRegWindowStart)
  {
    assert 0 <= WindowsSince(a, s.mrRegWindowStart) * s.mrRegRateLimit;
    assert 0 <= (n + 1) * s.mrRegRateLimit;
  }

  /**
   Any half-open span of `n` whole seconds contains at most (n + 1) * limit
   registrations that pass the limiter, whatever else the client sends.
   */
  lemma RegistrationRateBound(s: Session, ins: seq<Input>, a: nat, n: nat)
    requires s.phase != AwaitingConnect && s.mrRegCount == 0 && Clocked(s, ins)
    ensures PassedIn(s, ins, a, a + n * SECOND) <= (n + 1) * s.mrRegRateLimit
  {
    hide Run, PassedIn;
    RunKeepsSpan(s, ins, a, n);
  }

  /** Every registration passed so far did so less than a second after the current window opened. */
  lemma {:induction false} NonePassedBeyondWindow(s: Session, ins: seq<Input>, x: nat, y: nat)
    requires s.phase != AwaitingConnect && s.mrRegCount == 0 && Clocked(s, ins)
    requires Run(s, ins).0.mrRegWindowStart + SECOND <= x
    ensures PassedIn(s, ins, x, y) == 0
  {
    hide React;
    if ins != [] {
      var m := |ins| - 1;
      RunKeepsSpan(s, ins[..m], 0, 0);
      LimiterStep(Run(s, ins[..m]).0, ins[m]);
      NonePassedBeyondWindow(s, ins[..m], x, y);
    }
  }

  /**
   The counter is exactly the number of registrations passed since the current
   window opened, and no window lets more than the limit through.
   */
  lemma {:induction false} WindowCountIsExact(s: Session, ins: seq<Input>, y: nat)
    requires s.phase != AwaitingConnect && s.mrRegCount == 0 && Clocked(s, ins)
    requires LastTime(s, ins) < y
    ensures var t := Run(s, ins).0;
            PassedIn(s, ins, t.mrRegWindowStart, y) == t.mrRegCount <= s.mrRegRateLimit
  {
    hide React;
    if ins != [] {
      var m := |ins| - 1;
      RunKeepsSpan(s, ins[..m], 0, 0);
      var s1 := Run(s, ins[..m]).0;
      LimiterStep(s1, ins[m]);
      WindowCountIsExact(s, ins[..m], y);
      if ins[m].env.now - s1.mrRegWindowStart >= SECOND {
        NonePassedBeyondWindow(s, ins[..m], ins[m].env.now, y);
      }
    }
  }

  // ---------------------------------------------------------------------
  // The limiter from the history of registrations
  // ---------------------------------------------------------------------

  /** Arrival times of the registrations the session handled, let through or not. */
  function RegTimes(s: Session, ins: seq<Input>): seq<nat> {
    if ins == [] then []
    else
      var front := ins[..|ins| - 1];
      var last := ins[|ins| - 1];
      RegTimes(s, front)
      + (if Processed(Run(s, front).0, last.msg) && last.msg.body.MrRegBody? then [last.env.now] else [])
  }

  /**
   When the window of the last registration opened: at `start`, or with the
   latest registration that came a second or more after the opening before it.
   */
  function Opening(start: nat, times: seq<nat>): nat {
    if times == [] then start
    else
      var o := Opening(start, times[..|times| - 1]);
      if times[|times| - 1] - o >= SECOND then times[|times| - 1] else o
  }

  /** How many registrations passed in the window that opened at `o`. */
  function PassedSince(start: nat, limit: nat, times: seq<nat>, o: nat): nat
    decreases |times|, 1
  {
    if times == [] then 0
    else
      PassedSince(start, limit, times[..|times| - 1], o)
      + (if Opening(start, times) == o && LastPasses(start, limit, times) then 1 else 0)
  }

  /** The last registration passes if fewer than `limit` have passed since its window opened. */
  predicate LastPasses(start: nat, limit: nat, times: seq<nat>)
    requires times != []
    decreases |times|, 0
  {
    PassedSince(start, limit, times[..|times| - 1], Opening(start, times)) < limit
  }

  lemma {:induction false} NonePassedInFuture(start: nat, limit: nat, times: seq<nat>, o: nat)
    requires Opening(start, times) < o
    ensures PassedSince(start, limit, times, o) == 0
    decreases |times|
  {
    hide LastPasses;
    if times != [] {
      NonePassedInFuture(start, limit, times[..|times| - 1], o);
    }
  }

  /** The state of the limiter is the one the history says. */
  predicate LimiterIs(t: Session, start: nat, limit: nat, times: seq<nat>) {
    && t.mrRegRateLimit == limit && t.mrRegWindowStart == Opening(start, times)
    && t.mrRegCount == PassedSince(start, limit, times, Opening(start, times))
  }

  lemma AdmittedIff(t: Session, start: nat, limit: nat, times: seq<nat>, now: nat)
    requires LimiterIs(t, start, limit, times)
    ensures Admitted(t, now) <==> LastPasses(start, limit, times + [now])
    ensures var r := RollWindow(t, now);
            && r.mrRegWindowStart == Opening(start, times + [now])
            && r.mrRegCount == PassedSince(start, limit, times, r.mrRegWindowStart)
  {
    var all := times + [now];
    assert all[..|all| - 1] == times;
    if now - Opening(start, times) >= SECOND {
      NonePassedInFuture(start, limit, times, now);
    }
  }

  lemma LimiterAdvances(s: Session, x: Input, start: nat, limit: nat, times: seq<nat>)
    requires s.phase != AwaitingConnect && LimiterIs(s, start, limit, times)
    requires Processed(s, x.msg) && x.msg.body.MrRegBody?
    ensures LimiterIs(React(s, x.msg, x.env).0, start, limit, times + [x.env.now])
  {
    hide React, Admitted, RollWindow, LastPasses;
    var all := times + [x.env.now];
    assert all[..|all| - 1] == times;
    LimiterStep(s, x);
    AdmittedIff(s, start, limit, times, x.env.now);
  }

  lemma {:induction false} LimiterFollowsHistory(s: Session, ins: seq<Input>)
    requires s.phase != AwaitingConnect && s.mrRegCount == 0
    ensures Run(s, ins).0.phase != AwaitingConnect
    ensures LimiterIs(Run(s, ins).0, s.mrRegWindowStart, s.mrRegRateLimit, RegTimes(s, ins))
  {
    hide React, LastPasses, Processed;
    if ins != [] {
      var n := |ins| - 1;
      var last := ins[n];
      LimiterFollowsHistory(s, ins[..n]);
      var s1 := Run(s, ins[..n]).0;
      LimiterStep(s1, last);
      if Processed(s1, last.msg) && last.msg.body.MrRegBody? {
        LimiterAdvances(s1, last, s.mrRegWindowStart, s.mrRegRateLimit, RegTimes(s, ins[..n]));
      } else {
        assert RegTimes(s, ins) == RegTimes(s, ins[..n]);
      }
    }
  }

  /** The acknowledgement of what the store made of a registration. */
  predicate Acknowledges(body: Body, pd: u32, r: Reply) {
    && body.MrRegAckBody? && body.pd == pd
    && match r
       case Registered(lkey, rkey) => body.lkey == lkey % U32_MOD && body.rkey == rkey && body.status == 0
       case Failed(code) => body.lkey == 0 && body.rkey == 0 && body.status == CodeValue(code)
       case _ => false
  }

  lemma HandlerAcknowledges(s: Session, wrid: u64, body: Body, env: Env)
    requires body.MrRegBody?
    ensures var (t, out) := HandleMrReg(s, wrid, body, env);
            var (store, r) := Perform(s.store, Register(body.pd, body.accessFlags, body.regionLen, env.draws));
            && |out| == 1 && out[0].wrid == wrid
            && (if Admitted(s, env.now) then t.store == store && Acknowledges(out[0].body, body.pd, r)
                else t.store == s.store && out[0].body == MrRegAckBody(body.pd, 0, 0, 0xFFFF))
  {
    hide PickFrom, WithRegion;
  }

  /**
   Exactly when a registration is let through, from the history alone, and what
   it then does: it passes if and only if fewer than the limit have passed since
   its window opened; it then performs the registration and reports its result,
   and otherwise changes nothing and reports ErrInternal.
   */
  lemma RegistrationIsDecided(s: Session, ins: seq<Input>, x: Input)
    requires s.phase != AwaitingConnect && s.mrRegCount == 0
    requires Processed(Run(s, ins).0, x.msg) && x.msg.body.MrRegBody?
    ensures var t := Run(s, ins).0;
            var b := x.msg.body;
            var (u, out) := React(t, x.msg, x.env);
            var (store, r) := Perform(t.store, Register(b.pd, b.accessFlags, b.regionLen, x.env.draws));
            && |out| == 1 && out[0].wrid == x.msg.header.wrid
            && (if LastPasses(s.mrRegWindowStart, s.mrRegRateLimit, RegTimes(s, ins) + [x.env.now])
                then u.store == store && Acknowledges(out[0].body, b.pd, r)
                else u.store == t.store && out[0].body == MrRegAckBody(b.pd, 0, 0, 0xFFFF))
  {
    hide Run, HandleMrReg, Perform, LastPasses, RegTimes, Admitted, Acknowledges;
    var t := Run(s, ins).0;
    LimiterFollowsHistory(s, ins);
    AdmittedIff(t, s.mrRegWindowStart, s.mrRegRateLimit, RegTimes(s, ins), x.env.now);
    var t1 := Advance(t, x.msg);
    assert LimiterIs(t1, s.mrRegWindowStart, s.mrRegRateLimit, RegTimes(s, ins));
    AdmittedIff(t1, s.mrRegWindowStart, s.mrRegRateLimit, RegTimes(s, ins), x.env.now);
    MrRegIsDispatched(t1, x.msg, x.env);
    HandlerAcknowledges(t1, x.msg.header.wrid, x.msg.body, x.env);
  }

  /** A registration a second or more after the last opening always passes, however many were refused before. */
  lemma NewWindowLetsThrough(start: nat, limit: nat, times: seq<nat>, now: nat)
    requires 0 < limit && Opening(start, times) + SECOND <= now
    ensures LastPasses(start, limit, times + [now])
  {
    var all := times + [now];
    assert all[..|all| - 1] == times;
    NonePassedInFuture(start, limit, times, now);
  }
}
