/**
 The verbs of the connection object are the client steps of the protocol: what
 RunVerb sends is what `Begin` puts in the outbox, and reading until a response
 arrives is a run of `Collect` steps.
 */
module ClientSteps {
  import opened Core
  import opened Codec
  import opened ClientModel
  import opened ClientConnection
  import opened SessionModel
  import opened Protocol

  function Collects(n: nat): (r: seq<Step>)
    ensures |r| == n
  {
    seq(n, _ => Collect)
  }

  lemma CollectFirst(y: System, n: nat)
    ensures Exec(y, Collects(n + 1)) == Exec(Apply(y, Collect), Collects(n))
    ensures Exec(y, Collects(1)) == Apply(y, Collect)
  {
    hide Apply;
    assert Collects(n + 1) == [Collect] + Collects(n);
    ExecConcat(y, [Collect], Collects(n));
    assert Collects(1) == [Collect] && [Collect][..0] == [];
  }

  /** The system after the waiting verb `v` has ended with client `c`, unread frames `rest` and outcome `o`. */
  predicate EndedVerb(y: System, z: System, c: Client, rest: seq<bytes>, o: Outcome) {
    z.client == c && z.waiting.None? && z.s2c == rest && z.outcomes == y.outcomes + [o]
  }

  /** What the verb makes of what it received. */
  function Conclude(r: Received, v: Verb): (Client, Outcome) {
    match r.result
    case Err(e) => (r.client, Rejected(e))
    case Ok(m) => Accept(r.client, v, m)
  }

  lemma {:induction false} RecvAppShrinks(c: Client, stream: seq<bytes>)
    requires stream != []
    ensures |RecvApp(c, stream).stream| < |stream|
    decreases |stream|
  {
    hide Decode, OnArrival;
    if Decode(stream[0]).Ok? && OnArrival(c, Decode(stream[0]).value).Credit? {
      if stream[1..] != [] {
        RecvAppShrinks(OnArrival(c, Decode(stream[0]).value).client, stream[1..]);
      }
    }
  }

  /** Reading until a response arrives is a run of Collect steps that ends the verb the same way. */
  lemma {:induction false} CollectsReadResponse(y: System)
    requires y.waiting.Some? && y.outbox == [] && RecvApp(y.client, y.s2c).result != Err(SessionClosed)
    ensures var r := RecvApp(y.client, y.s2c);
            var (c, o) := Conclude(r, y.waiting.value);
            && |r.stream| <= |y.s2c|
            && EndedVerb(y, Exec(y, Collects(|y.s2c| - |r.stream|)), c, r.stream, o)
    decreases |y.s2c|
  {
    hide Decode, OnArrival, Accept, Completion, Exec;
    RecvAppShrinks(y.client, y.s2c);
    var r := RecvApp(y.client, y.s2c);
    var n := |y.s2c| - |r.stream|;
    CollectFirst(y, n - 1);
    var d := Decode(y.s2c[0]);
    if d.Ok? && OnArrival(y.client, d.value).Credit? {
      CollectsReadResponse(Apply(y, Collect));
    }
  }

  /**
   Let a verb begin in `y` and be, in `y1`, past its sends with nothing read yet.
   If the response has arrived, the frames sent, the client, the unread frames
   and the outcome of RunVerb are those of the protocol steps.
   */
  lemma VerbIsProtocolRun(y: System, v: Verb, env1: Env, env2: Env, y1: System)
    requires y.waiting.None? && y.outbox == [] && Requests(y.client, v).Ok?
    requires y1.client == BeginStep(y, v, env1, env2).client && y1.waiting == Some(v) && y1.outbox == []
    requires RunVerb(y.client, y1.s2c, v).outcome != Rejected(SessionClosed)
    ensures var run := RunVerb(y.client, y1.s2c, v);
            var began := BeginStep(y, v, env1, env2);
            && |began.outbox| == |run.sent|
            && (forall i :: 0 <= i < |run.sent| ==> began.outbox[i].data == run.sent[i])
            && |run.stream| <= |y1.s2c|
            && EndedVerb(y1, Exec(y1, Collects(|y1.s2c| - |run.stream|)), run.client, run.stream, run.outcome)
  {
    hide RecvApp, Requests, Accept, Encode, Stamp, Exec;
    CollectsReadResponse(y1);
  }

  // ---------------------------------------------------------------------
  // Reading from any server
  // ---------------------------------------------------------------------

  /** The frame is a CREDIT_UPDATE with number `seq`. */
  predicate CreditFrame(frame: bytes, seq0: u32) {
    && Decode(frame).Ok? && Decode(frame).value.header.sequence == seq0
    && Decode(frame).value.body.CreditUpdateBody?
  }

  /** Credits carried by the first `k` frames. */
  function Carried(stream: seq<bytes>, k: nat): nat
    requires k <= |stream|
  {
    if k == 0 then 0
    else
      (match Decode(stream[0])
       case Ok(m) => if m.body.CreditUpdateBody? then m.body.creditIncrement else 0
       case Err(_) => 0)
      + Carried(stream[1..], k - 1)
  }

  /** What reading comes to when `k` credit updates in order come first, and frame `k` is the first of another kind. */
  ghost predicate Reads(c: Client, stream: seq<bytes>, e: u32, k: nat, r: Received)
    requires k <= |stream|
  {
    var credited := c.(sendCredits := c.sendCredits + Carried(stream, k), expectedRemoteSeq := Some(Wrap32(e + k)));
    if k == |stream| then r == Received(credited, [], Err(SessionClosed))
    else
      && r.stream == stream[k + 1..]
      && match Decode(stream[k])
         case Err(x) => r.client == credited && r.result == Err(BadFrame(x))
         case Ok(m) =>
           if m.header.sequence != Wrap32(e + k) then r.client == credited && r.result == Err(Protocol(ErrSeqGap))
           else
             r.client == credited.(expectedRemoteSeq := Some(Wrap32(e + k + 1))) && r.result == Ok(m)
  }

  /**
   For every stream of frames, sent by whatever server: credit updates are added
   up as long as they carry the next numbers; the first other frame is the
   response if it carries the next number, a gap if not, and an error if it
   does not decode.
   */
  lemma {:induction false} ReadingIsInOrder(c: Client, stream: seq<bytes>, e: u32, k: nat)
    requires c.expectedRemoteSeq == Some(e) && k <= |stream|
    requires forall i :: 0 <= i < k ==> CreditFrame(stream[i], Wrap32(e + i))
    requires k < |stream| ==> !CreditFrame(stream[k], Wrap32(e + k))
    ensures Reads(c, stream, e, k, RecvApp(c, stream))
    decreases k
  {
    hide Decode, Wrap32, CreditFrame;
    WrapNumber(e);
    if k > 0 {
      FirstIsCredit(c, stream, e);
      var e1 := Wrap32(e + 1);
      WrapTwice(e + 1, k - 1);
      WrapTwice(e + 1, k);
      forall i | 0 <= i < k - 1
        ensures CreditFrame(stream[1..][i], Wrap32(e1 + i))
      {
        assert CreditFrame(stream[i + 1], Wrap32(e + (i + 1)));
        WrapTwice(e + 1, i);
      }
      ReadingIsInOrder(OnArrival(c, Decode(stream[0]).value).client, stream[1..], e1, k - 1);
      assert k < |stream| ==> stream[1..][k..] == stream[k + 1..];
    } else {
      FirstIsOther(c, stream, e);
    }
  }

  lemma FirstIsCredit(c: Client, stream: seq<bytes>, e: u32)
    requires c.expectedRemoteSeq == Some(e) && stream != [] && CreditFrame(stream[0], Wrap32(e + 0))
    ensures Decode(stream[0]).Ok? && OnArrival(c, Decode(stream[0]).value).Credit?
    ensures var m := Decode(stream[0]).value;
            var c1 := OnArrival(c, m).client;
            && m.body.CreditUpdateBody? && RecvApp(c, stream) == RecvApp(c1, stream[1..])
            && c1 == c.(sendCredits := c.sendCredits + m.body.creditIncrement, expectedRemoteSeq := Some(Wrap32(e + 1)))
  {
    hide Decode;
  }

  lemma FirstIsOther(c: Client, stream: seq<bytes>, e: u32)
    requires c.expectedRemoteSeq == Some(e)
    requires stream != [] ==> !CreditFrame(stream[0], Wrap32(e + 0))
    ensures Reads(c, stream, e, 0, RecvApp(c, stream))
  {
    hide Decode;
  }

  lemma WrapNumber(e: u32)
    ensures Wrap32(e + 0) == e
  {
  }

  /** Polling takes the oldest entries, as many as asked for or as there are, and touches nothing else. */
  lemma PollTakesOldest(y: System, max: nat)
    requires y.waiting.None?
    ensures var z := Apply(y, Poll(max));
            var n := |z.polled| - |y.polled|;
            && n == (if max <= |y.client.cq| then max else |y.client.cq|)
            && z.polled + z.client.cq == y.polled + y.client.cq
            && z == y.(client := y.client.(cq := z.client.cq), polled := z.polled)
  {
    hide RecvApp, Decode, Accept;
  }
}
