/**
 Client and server joined by two FIFO channels of byte strings. A run is any
 interleaving of the client's sends and receives with the server's handling of
 messages; verbs, polls and local writes happen in any order the client likes.
 */
module Protocol {
  import opened Core
  import opened Codec
  import opened MemoryModel
  import opened SessionModel
  import opened ClientModel
  import opened Traffic

  /**
   The joined system. `origin`, `calls`, `collected`, `outcomes`, `pushed` and
   `polled` record history and influence nothing.
   */
  datatype System = System(
    client: Client,
    waiting: Option<Verb>,
    outbox: seq<Frame>,
    c2s: seq<Frame>,
    server: Server,
    s2c: seq<bytes>,
    origin: Server,
    calls: seq<Call>,
    collected: nat,
    outcomes: seq<Outcome>,
    pushed: seq<Cqe>,
    polled: seq<Cqe>)

  datatype Step =
    | Begin(verb: Verb, env1: Env, env2: Env)   // the client starts a verb
    | Transmit                                  // one of its frames enters the channel
    | Serve                                     // the server handles one frame
    | Collect                                   // the waiting client reads one frame
    | Poll(max: nat)                            // `poll_cq`
    | StoreLocal(lkey: u32, offset: nat, data: bytes)   // `write_local_mr`

  // ---------------------------------------------------------------------
  // Steps
  // ---------------------------------------------------------------------

  function EnvFor(i: nat, env1: Env, env2: Env): Env {
    if i == 0 then env1 else env2
  }

  /** The requests as the server will decode them. */
  function AsInputs(msgs: seq<Message>, env1: Env, env2: Env): (r: seq<Input>)
    ensures |r| == |msgs|
  {
    seq(|msgs|, i requires 0 <= i < |msgs| => Input(Landed(msgs[i]), EnvFor(i, env1, env2)))
  }

  /** The requests as they go on the wire. */
  function AsFrames(msgs: seq<Message>, env1: Env, env2: Env): (r: seq<Frame>)
    ensures |r| == |msgs|
  {
    seq(|msgs|, i requires 0 <= i < |msgs| => Frame(Encode(msgs[i]), EnvFor(i, env1, env2)))
  }

  function BeginStep(y: System, v: Verb, env1: Env, env2: Env): System {
    match Requests(y.client, v)
    case Err(_) => y
    case Ok(notes) =>
      var msgs := Stamp(y.client.sessionId, y.client.nextSeq, notes);
      y.(client := Bump(y.client, |notes|),
         waiting := Some(v),
         outbox := AsFrames(msgs, env1, env2),
         calls := y.calls + [Call(v, AsInputs(msgs, env1, env2))])
  }

  function ServeStep(y: System): System
    requires y.c2s != []
  {
    var (server, out) := ServeFrame(y.server, y.c2s[0]);
    y.(c2s := y.c2s[1..], server := server, s2c := y.s2c + out)
  }

  /** Ends the current verb. */
  function Finish(y: System, c: Client, o: Outcome): System {
    y.(client := c, waiting := None, outcomes := y.outcomes + [o])
  }

  function CollectStep(y: System): System
    requires y.waiting.Some? && y.s2c != []
  {
    var v := y.waiting.value;
    var rest := y.(s2c := y.s2c[1..], collected := y.collected + 1);
    match Decode(y.s2c[0])
    case Err(e) => Finish(rest, y.client, Rejected(BadFrame(e)))
    case Ok(m) =>
      match OnArrival(y.client, m)
      case SeqGap => Finish(rest, y.client, Rejected(Protocol(ErrSeqGap)))
      case Credit(c) => rest.(client := c)
      case Application(c) =>
        var (c1, o) := Accept(c, v, m);
        Finish(rest, c1, o)
        .(pushed := y.pushed + (match Completion(c, v, m) case Some(e) => [e] case None => []))
  }

  function PollStep(y: System, max: nat): System {
    var n := if max <= |y.client.cq| then max else |y.client.cq|;
    y.(client := y.client.(cq := y.client.cq[n..]), polled := y.polled + y.client.cq[..n])
  }

  /** A step that is not possible leaves the system as it is. */
  function Apply(y: System, step: Step): System {
    match step
    case Begin(v, env1, env2) =>
      if y.waiting.None? && y.outbox == [] then BeginStep(y, v, env1, env2) else y
    case Transmit =>
      if y.outbox == [] then y else y.(c2s := y.c2s + [y.outbox[0]], outbox := y.outbox[1..])
    case Serve => if y.c2s == [] then y else ServeStep(y)
    case Collect =>
      if y.waiting.None? || y.outbox != [] || y.s2c == [] then y else CollectStep(y)
    case Poll(max) => if y.waiting.Some? then y else PollStep(y, max)
    case StoreLocal(lkey, offset, data) =>
      if y.waiting.Some? then y else y.(client := WriteLocal(y.client, lkey, offset, data).0)
  }

  function Exec(y: System, steps: seq<Step>): System {
    if steps == [] then y else Apply(Exec(y, steps[..|steps| - 1]), steps[|steps| - 1])
  }

  lemma {:induction false} ExecConcat(y: System, a: seq<Step>, b: seq<Step>)
    ensures Exec(y, a + b) == Exec(Exec(y, a), b)
  {
    hide Apply;
    if b == [] {
      assert a + b == a;
    } else {
      ExecConcat(y, a, b[..|b| - 1]);
      assert (a + b)[..|a + b| - 1] == a + b[..|b| - 1];
    }
  }

  // ---------------------------------------------------------------------
  // Initial state and size limits
  // ---------------------------------------------------------------------

  /**
   Every frame the verb leads to fits the negotiated size and the wire format,
   with a server that holds at most `limit` bytes.
   */
  predicate FitsVerb(limit: nat, v: Verb) {
    match v
    case PostSend(_, sg) =>
      4 + SG_ENTRY_SIZE * |sg| <= DEFAULT_MAX_MSG_SIZE && StartOf(sg, |sg|) <= DEFAULT_MAX_MSG_SIZE
    case RdmaWrite(_, _, _, sg) =>
      24 + SG_ENTRY_SIZE * |sg| <= DEFAULT_MAX_MSG_SIZE && StartOf(sg, |sg|) <= DEFAULT_MAX_MSG_SIZE
    case RdmaRead(_, _, _, len, _, _) => limit + 8 < U32_MOD || len + 8 < U32_MOD
    case _ => true
  }

  predicate FitsStep(limit: nat, step: Step) {
    step.Begin? ==> FitsVerb(limit, step.verb)
  }

  /** The byte limit of the server's memory store. */
  function Limit(y: System): nat {
    y.origin.session.store.maxTotalBytes
  }

  /** A freshly connected pair, whatever the credit count and wherever the counters start. */
  ghost predicate Start(y: System) {
    && y.server == y.origin
    && y.origin.session.phase == Ready && y.origin.session.pending == NoPending
    && y.origin.session.sendsSinceLastCredit == 0 && MemoryModel.Valid(y.origin.session.store)
    && y.origin.session.maxMsgSize == DEFAULT_MAX_MSG_SIZE
    && y.origin.session.expectedRemoteSeq == Some(y.client.nextSeq)
    && y.client.expectedRemoteSeq == Some(y.origin.nextSeq)
    && y.client.sendCredits == y.origin.session.icc
    && y.client.cq == [] && y.client.sessionId == y.origin.session.sessionId
    && y.waiting.None? && y.outbox == [] && y.c2s == [] && y.s2c == []
    && y.calls == [] && y.collected == 0 && y.outcomes == []
    && y.pushed == [] && y.polled == []
  }

  /** The pair right after CONNECT and CONNECT_ACK. */
  function Connected(config: ServerConfig, sessionId: u32, capacity: nat, now: nat): System {
    var session := NewSession(config, now).(phase := Ready, sessionId := sessionId, pd := 1,
                                            expectedRemoteSeq := Some(1));
    System(Client(sessionId, 1, 1, Some(1), DEFAULT_ICC, [], capacity, map[]),
           None, [], [], Server(session, 1), [], Server(session, 1), [], 0, [], [], [])
  }

  /** The handshake, through the codec, leads to `Connected`. */
  lemma HandshakeConnects(config: ServerConfig, sessionId: u32, capacity: nat, now: nat, env: Env)
    ensures Start(Connected(config, sessionId, capacity, now))
    ensures var hello := NewMessage(sessionId, 0, 0, ConnectBody(1, 0, DEFAULT_MAX_MSG_SIZE, DEFAULT_ICC));
            var y := Connected(config, sessionId, capacity, now);
            && Decode(Encode(hello)) == Ok(Filled(hello))
            && var (server, out) := HandleMessage(NewServer(config, now), Filled(hello), env);
               && server == y.server
               && |out| == 1 && Decode(Encode(out[0])) == Ok(Filled(out[0]))
               && out[0].body == ConnectAckBody(y.client.pd, 0, DEFAULT_MAX_MSG_SIZE, DEFAULT_ICC)
               && y.client.expectedRemoteSeq == Some(Wrap32(out[0].header.sequence + 1))
               && y.client.sendCredits == out[0].body.icc
  {
    hide Encode, Decode;
    var hello := NewMessage(sessionId, 0, 0, ConnectBody(1, 0, DEFAULT_MAX_MSG_SIZE, DEFAULT_ICC));
    RoundTrip(hello);
    var (server, out) := HandleMessage(NewServer(config, now), Filled(hello), env);
    RoundTrip(out[0]);
  }
}
