/**
 Verbs as accesses to remote memory: between verbs, and as long as no WRITE was
 refused, a READ or WRITE that meets no obstacle is one access to the server's
 store, whatever the schedule that carries it.
 */
module RemoteMemory {
  import opened Core
  import opened MemoryModel
  import opened MemoryHistory
  import opened SessionModel
  import opened SessionRuns
  import opened ClientModel
  import opened Traffic
  import opened ReadAfterWrite
  import opened Protocol
  import opened ProtocolInvariant
  import opened ProtocolTheorems
  import opened VerbOutcomes
  import opened Episodes

  // ---------------------------------------------------------------------
  // What a call does to the store
  // ---------------------------------------------------------------------

  /** A READ without an obstacle returns the range and leaves the store as it is. */
  lemma ReadCallEffect(s: Session, c: Call)
    requires Orderly(s, c.reqs) && Shaped(c) && s.pending == NoPending && c.verb.RdmaRead? && Obstacle(s, c) == None
    ensures Live(s.store, c.verb.rkey) && c.verb.remoteVa + c.verb.readLen <= |DataOf(s.store, c.verb.rkey)|
    ensures var v := c.verb;
            var data := DataOf(s.store, v.rkey)[v.remoteVa..v.remoteVa + v.readLen];
            && Run(s, c.reqs).0.store == s.store
            && Responses(Run(s, c.reqs).1) == [Note(v.wrid, ReadRespBody(0, data))]
  {
    hide Run, Responses, Ascii, Allows, HandleMrReg, HandleMrDereg, HandleSend, HandleSendData, HandleWrite,
         HandleWriteData, HandleAtomicReq, Orderly;
    var x := c.reqs[0];
    assert c.reqs == [x];
    RunOne(s, x);
    FirstDispatched(s, c);
    var out := React(s, x.msg, x.env).1;
    OneResponse(out[0]);
    assert out == [out[0]];
  }

  /** A WRITE without an obstacle performs its write and is answered by WRITE_COMP. */
  lemma WriteCallEffect(s: Session, c: Call)
    requires Orderly(s, c.reqs) && Shaped(c) && s.pending == NoPending && c.verb.RdmaWrite? && Obstacle(s, c) == None
    ensures Run(s, c.reqs).0.store
            == Perform(s.store, WriteAt(c.verb.rkey, c.verb.remoteVa, c.reqs[1].msg.body.data)).0
    ensures Responses(Run(s, c.reqs).1) == [Note(c.verb.wrid, WriteCompBody)]
    ensures !RefusedWrite(s, c.verb)
  {
    hide Run, Responses, Ascii, Lookup, Orderly, HandleMrReg, HandleMrDereg, HandleReadReq, HandleAtomicReq,
         HandleSend, HandleSendData, StartOf, Perform, RangeObstacle, Shaped;
    WriteShape(c);
    var x, y := c.reqs[0], c.reqs[1];
    WriteMeetsObstacle(s.store, c.verb.rkey, c.verb.remoteVa, y.msg.body.data);
    SecondDispatched(s, c);
    var (s1, o1) := HandleWrite(Advance(s, x.msg), x.msg.header, x.msg.body);
    var (s2, o2) := HandleWriteData(Advance(s1, y.msg), y.msg.body.data);
    OneResponse(o2[0]);
    assert o1 + o2 == o2;
  }

  /** A registration without an obstacle adds a region of zeros under the first usable draw. */
  lemma RegCallEffect(s: Session, c: Call)
    requires Orderly(s, c.reqs) && Shaped(c) && s.pending == NoPending && c.verb.RegMr? && Obstacle(s, c) == None
    ensures var x := c.reqs[0];
            var key := PickFrom(s.store.usedRkeys, x.env.draws, 0);
            && key.Some?
            && Run(s, c.reqs).0.store == WithRegion(s.store, x.msg.body.pd, key.value, c.verb.flags, Zeros(c.verb.len))
            && Responses(Run(s, c.reqs).1)
               == [Note(x.msg.header.wrid, MrRegAckBody(x.msg.body.pd, s.store.nextLkey % U32_MOD, key.value, 0))]
  {
    hide Run, Responses, Ascii, Orderly, HandleWrite, HandleWriteData, HandleSend, HandleSendData, HandleReadReq,
         HandleAtomicReq, HandleMrDereg, PickFrom, WithRegion, RollWindow;
    var x := c.reqs[0];
    assert c.reqs == [x];
    RunOne(s, x);
    FirstDispatched(s, c);
    RollKeepsStore(Advance(s, x.msg), x.env.now);
    RollIgnoresNumber(s, x.msg, x.env.now);
    var out := React(s, x.msg, x.env).1;
    OneResponse(out[0]);
    assert out == [out[0]];
  }

  /** A WRITE refused at its key check leaves the store as it is. */
  lemma RefusedCallEffect(s: Session, c: Call)
    requires Orderly(s, c.reqs) && Shaped(c) && s.pending == NoPending && RefusedWrite(s, c.verb)
    ensures Run(s, c.reqs).0.store == s.store
  {
    hide Run, Responses, Ascii, Lookup, Orderly, HandleMrReg, HandleMrDereg, HandleReadReq, HandleAtomicReq,
         HandleSend, HandleSendData, StartOf, Perform;
    SecondDispatched(s, c);
  }

  // ---------------------------------------------------------------------
  // Between verbs
  // ---------------------------------------------------------------------

  /** The session as it will be when all requests issued so far have been handled. */
  function Remote(y: System): Session {
    MetBy(y, |y.calls|)
  }

  /** Between verbs. */
  ghost predicate Idle(y: System) {
    Inv(y) && y.waiting.None?
  }

  lemma RemoteFacts(y: System, z: System)
    requires Inv(y) && Inv(z) && z.origin == y.origin
    requires |z.calls| == |y.calls| + 1 && z.calls[..|y.calls|] == y.calls
    ensures var (k, c) := (|y.calls|, z.calls[|y.calls|]);
            && MetBy(z, k) == Remote(y) && Shaped(c) && Orderly(Remote(y), c.reqs) && Remote(y).pending == NoPending
            && MemoryModel.Valid(Remote(y).store) && Remote(z) == Run(Remote(y), c.reqs).0
            && AnswersOf(z, k) == Responses(Run(Remote(y), c.reqs).1)
            && Refusals(y.origin.session, z.calls[..k]) == Refusals(y.origin.session, y.calls)
            && Refusals(y.origin.session, z.calls)
               == Refusals(y.origin.session, y.calls) + (if RefusedWrite(Remote(y), c.verb) then 1 else 0)
            && Remote(z).outstandingReads == Remote(y).outstandingReads
            && Remote(z).maxOutstandingReads == Remote(y).maxOutstandingReads
  {
    hide Run, Issued, QueueOk, ClientOk, ServerOk, PipeOk, Responses, Orderly, MemoryModel.Valid, RefusedWrite, Shaped;
    var k := |y.calls|;
    assert y.calls[..k] == y.calls && z.calls[..k + 1] == z.calls;
    assert Shaped(z.calls[k]);
    MeetsCall(y.origin.session, z.calls, k);
    OrderlyIsProcessed(Remote(y), z.calls[k].reqs);
  }

  /** The end of a verb that began in an idle state, from which no WRITE had been refused. */
  ghost predicate EndedCleanly(y: System, v: Verb, z: System) {
    && |z.calls| == |y.calls| + 1 && z.calls[..|y.calls|] == y.calls && z.calls[|y.calls|].verb == v
    && z.origin == y.origin && z.polled == y.polled && Idle(z)
    && var rs := Responses(Run(Remote(y), z.calls[|y.calls|].reqs).1);
       && rs != []
       && Alike(z.client, Concluded(y.client, v, rs[0].body).0)
       && z.outcomes == y.outcomes + [Concluded(y.client, v, rs[0].body).1]
  }

  /** Without a refused WRITE, a verb ends as the server's first answer to it makes it end. */
  lemma CleanEpisode(y: System, v: Verb, env1: Env, env2: Env, z: System)
    requires Idle(y) && Refusals(y.origin.session, y.calls) == 0
    requires Requests(y.client, v).Ok? && FitsVerb(Limit(y), v)
    requires var b := Apply(y, Begin(v, env1, env2));
             Inv(z) && GoodTraffic(b.origin.session, b.calls) && b.calls != [] && During(b, z, v) && z.waiting.None?
    ensures EndedCleanly(y, v, z)
    ensures z.calls == Apply(y, Begin(v, env1, env2)).calls
  {
    hide Run, Issued, Inv, Responses, GoodTraffic, Requests, FitsVerb, Apply, Owner, Refusals, Concluded, MetBy,
         RefusedWrite, EffectOf;
    var b := Apply(y, Begin(v, env1, env2));
    BegunDuring(y, v, env1, env2);
    RemoteFacts(y, z);
    var k := |y.calls|;
    OwnerIsSelfIff(y.origin.session, z.calls, k);
    PlaceIsLate(y.origin.session, z.calls, k);
    ResponseIsOwners(y.origin.session, z.calls, k);
    SameConsumed(b, z, k);
    var body := Consumed(b, k).body;
    assert body == AnswersOf(z, k)[0].body;
    ConcludedAlike(b.client, y.client, v, body);
  }

  lemma ConcludedAlike(c: Client, d: Client, v: Verb, body: Body)
    requires Alike(c, d)
    ensures Alike(Concluded(c, v, body).0, Concluded(d, v, body).0)
    ensures Concluded(c, v, body).1 == Concluded(d, v, body).1
  {
    hide Accept, Alike;
    AcceptIsConcluded(c, d, v, NewMessage(0, 0, 0, body));
  }
}
