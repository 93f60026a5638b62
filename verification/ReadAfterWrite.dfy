/**
 Read after write on the server: what a completed WRITE placed is what a later
 READ of the same range returns, whatever other verbs come in between, as long
 as none of them writes into the range.
 */
module ReadAfterWrite {
  import opened Core
  import opened MemoryModel
  import opened MemoryHistory
  import opened SessionModel
  import opened SessionRuns
  import opened SessionMemory
  import opened ClientModel
  import opened Traffic

  /** Two ranges, given by start and length, have a position in common. */
  predicate Overlap(a: nat, n: nat, b: nat, m: nat) {
    n > 0 && m > 0 && a < b + m && b < a + n
  }

  /** The operation writes into the range. */
  predicate OpTouches(op: Op, rkey: u32, va: nat, len: nat) {
    || (op.WriteAt? && op.rkey == rkey && Overlap(op.offset, |op.data|, va, len))
    || (op.AtomicAt? && op.rkey == rkey && Overlap(op.va, 8, va, len))
  }

  /** The verb writes into the range. */
  predicate Touches(v: Verb, rkey: u32, va: nat, len: nat) {
    || (v.RdmaWrite? && v.rkey == rkey && Overlap(v.remoteVa, StartOf(v.sg, |v.sg|), va, len))
    || (v.PostAtomic? && v.rkey == rkey && Overlap(v.remoteVa, 8, va, len))
  }

  /** The key has been issued, and as long as it is live the range holds `data`. */
  predicate Holds(s: Store, rkey: u32, va: nat, data: bytes) {
    && rkey in s.usedRkeys
    && (Live(s, rkey) ==> va + |data| <= |DataOf(s, rkey)| && DataOf(s, rkey)[va..va + |data|] == data)
  }

  lemma OpKeepsHolds(s: Store, op: Op, rkey: u32, va: nat, data: bytes)
    requires MemoryModel.Valid(s) && Holds(s, rkey, va, data) && !OpTouches(op, rkey, va, |data|)
    ensures Holds(Perform(s, op).0, rkey, va, data)
  {
    hide Perform, MemoryModel.Valid;
    var t := Perform(s, op).0;
    StepKeepsRevoked(s, op, t, rkey);
    if Live(t, rkey) {
      SameLength(s, op, rkey);
      forall i | va <= i < va + |data|
        ensures DataOf(t, rkey)[i] == DataOf(s, rkey)[i]
      {
        ChangeNeedsAccess(s, op, rkey, i);
      }
      assert DataOf(t, rkey)[va..va + |data|] == DataOf(s, rkey)[va..va + |data|];
    }
  }

  lemma {:induction false} OpsKeepHolds(s: Store, ops: seq<Op>, rkey: u32, va: nat, data: bytes)
    requires MemoryModel.Valid(s) && Holds(s, rkey, va, data)
    requires forall op :: op in ops ==> !OpTouches(op, rkey, va, |data|)
    ensures Holds(After(s, ops), rkey, va, data)
  {
    hide MemoryModel.Valid, Holds, Perform;
    if ops != [] {
      var n := |ops| - 1;
      OpsKeepHolds(s, ops[..n], rkey, va, data);
      RunKeepsValid(s, ops[..n]);
      OpKeepsHolds(After(s, ops[..n]), ops[n], rkey, va, data);
    }
  }

  // ---------------------------------------------------------------------
  // One call
  // ---------------------------------------------------------------------

  lemma OpsOfOne(s: Session, x: Input)
    ensures OpsOf(s, [x]) == OpOf(s, x.msg, x.env)
  {
    hide OpOf, React;
    assert [x][..0] == [];
    assert [] + OpOf(s, x.msg, x.env) == OpOf(s, x.msg, x.env);
  }

  lemma OpsOfTwo(s: Session, x: Input, y: Input)
    ensures OpsOf(s, [x, y]) == OpOf(s, x.msg, x.env) + OpOf(React(s, x.msg, x.env).0, y.msg, y.env)
  {
    hide OpOf, React, Run;
    RunOne(s, x);
    OpsOfOne(s, x);
    assert [x, y][..1] == [x];
  }

  /** Store operations of one call touch only what its verb touches. */
  lemma CallOps(s: Session, c: Call, rkey: u32, va: nat, len: nat)
    requires Orderly(s, c.reqs) && Shaped(c) && s.pending == NoPending && !Touches(c.verb, rkey, va, len)
    ensures forall op :: op in OpsOf(s, c.reqs) ==> !OpTouches(op, rkey, va, len)
  {
    hide Run, React, OpsOf, StartOf, Perform, Lookup, HandleMrReg, HandleMrDereg, HandleReadReq, HandleAtomicReq,
         HandleWriteData, HandleSendData, HandleSend, Ascii;
    var x := c.reqs[0];
    if |c.reqs| == 1 {
      assert c.reqs == [x];
      OpsOfOne(s, x);
    } else {
      var y := c.reqs[1];
      assert c.reqs == [x, y];
      OpsOfTwo(s, x, y);
      FirstDispatched(s, c);
    }
  }

  lemma CallKeepsHolds(s: Session, c: Call, rkey: u32, va: nat, data: bytes)
    requires Orderly(s, c.reqs) && Shaped(c) && s.pending == NoPending && !Touches(c.verb, rkey, va, |data|)
    requires MemoryModel.Valid(s.store) && Holds(s.store, rkey, va, data)
    ensures Holds(Run(s, c.reqs).0.store, rkey, va, data)
  {
    hide Run, OpsOf, MemoryModel.Valid, Holds, Touches, OpTouches, Shaped;
    CallOps(s, c, rkey, va, |data|);
    RunPerformsOps(s, c.reqs);
    OpsKeepHolds(s.store, OpsOf(s, c.reqs), rkey, va, data);
  }

  /** A WRITE answered by WRITE_COMP has placed its data. */
  lemma CompletedWriteHolds(s: Session, c: Call)
    requires Orderly(s, c.reqs) && Shaped(c) && s.pending == NoPending && c.verb.RdmaWrite?
    requires MemoryModel.Valid(s.store)
    requires Responses(Run(s, c.reqs).1) != [] && !Responses(Run(s, c.reqs).1)[0].body.ErrorBody?
    ensures Holds(Run(s, c.reqs).0.store, c.verb.rkey, c.verb.remoteVa, c.reqs[1].msg.body.data)
  {
    hide Run, Responses, Ascii, Allows, HandleMrReg, HandleMrDereg, HandleSend, HandleSendData,
         HandleReadReq, HandleAtomicReq, MemoryModel.Valid, StartOf, Orderly, Perform;
    var x, y := c.reqs[0], c.reqs[1];
    SecondDispatched(s, c);
    var (s1, o1) := HandleWrite(Advance(s, x.msg), x.msg.header, x.msg.body);
    var (s2, o2) := HandleWriteData(Advance(s1, y.msg), y.msg.body.data);
    OneResponse(o2[0]);
    assert o2 == [o2[0]];
    if Lookup(s.store, c.verb.rkey, REMOTE_WRITE).Err? {
      OneResponse(o1[0]);
      assert o1 == [o1[0]];
      ResponsesConcat(o1, o2);
    } else {
      assert o1 + o2 == o2;
      WriteAtHolds(s.store, c.verb.rkey, c.verb.remoteVa, y.msg.body.data);
    }
  }

  lemma WriteAtHolds(s: Store, rkey: u32, va: u64, data: bytes)
    requires MemoryModel.Valid(s) && !Perform(s, WriteAt(rkey, va, data)).1.Failed?
    ensures Holds(Perform(s, WriteAt(rkey, va, data)).0, rkey, va, data)
  {
    var before := DataOf(s, rkey);
    assert Splice(before, va, data)[va..va + |data|] == data;
  }

  /** A READ answered by READ_RESP returns what the range holds. */
  lemma ReadReturnsHeld(s: Session, c: Call, data: bytes)
    requires Orderly(s, c.reqs) && Shaped(c) && c.verb.RdmaRead? && c.verb.readLen == |data|
    requires Holds(s.store, c.verb.rkey, c.verb.remoteVa, data)
    requires Responses(Run(s, c.reqs).1) != [] && Responses(Run(s, c.reqs).1)[0].body.ReadRespBody?
    ensures Responses(Run(s, c.reqs).1)[0].body.data == data
  {
    hide Run, Responses, Ascii, Allows, HandleMrReg, HandleMrDereg, HandleSend, HandleSendData,
         HandleWrite, HandleWriteData, HandleAtomicReq, Orderly;
    var x := c.reqs[0];
    assert c.reqs == [x];
    RunOne(s, x);
    FirstDispatched(s, c);
    var out := React(s, x.msg, x.env).1;
    OneResponse(out[0]);
    assert out == [out[0]];
  }

  // ---------------------------------------------------------------------
  // Any calls in between
  // ---------------------------------------------------------------------

  /** The session that meets call `k`, and what it is after it. */
  lemma {:induction false} MeetsCall(s: Session, calls: seq<Call>, k: nat)
    requires GoodTraffic(s, calls) && k < |calls| && MemoryModel.Valid(s.store)
    ensures var d := Before(s, calls, k);
            && d.pending == NoPending && Orderly(d, calls[k].reqs) && MemoryModel.Valid(d.store)
            && Before(s, calls, k + 1) == EffectOf(s, calls, k).0
  {
    hide Run, Orderly, MemoryModel.Valid, Issued, Served;
    if k + 1 < |calls| {
      var n := |calls| - 1;
      GoodPrefix(s, calls);
      MeetsCall(s, calls[..n], k);
      EffectOfPrefix(s, calls, n, k);
      assert calls[..n][..k + 1] == calls[..k + 1];
    } else {
      LastCallServed(s, calls);
      assert calls[..k + 1] == calls;
      assert s.phase == Ready by { GoodIsReady(s, calls); }
      SessionKeepsStoreValid(s, Issued(calls[..k]));
    }
  }

  lemma GoodIsReady(s: Session, calls: seq<Call>)
    requires GoodTraffic(s, calls)
    ensures s.phase == Ready
  {
  }

  lemma {:induction false} CallsKeepHolds(s: Session, calls: seq<Call>, i: nat, j: nat, rkey: u32, va: nat, data: bytes)
    requires GoodTraffic(s, calls) && MemoryModel.Valid(s.store) && i <= j < |calls|
    requires Holds(Before(s, calls, i).store, rkey, va, data)
    requires forall m :: i <= m < j ==> !Touches(calls[m].verb, rkey, va, |data|)
    ensures Holds(Before(s, calls, j).store, rkey, va, data)
    decreases j - i
  {
    hide Run, MemoryModel.Valid, Issued, Holds, Touches, Orderly;
    if i < j {
      MeetsCall(s, calls, i);
      CallKeepsHolds(Before(s, calls, i), calls[i], rkey, va, data);
      CallsKeepHolds(s, calls, i + 1, j, rkey, va, data);
    }
  }

  /** The first response to call `k` is not an ERROR. */
  predicate Succeeded(s: Session, calls: seq<Call>, k: nat)
    requires k < |calls|
  {
    var rs := Responses(EffectOf(s, calls, k).1);
    rs != [] && !rs[0].body.ErrorBody?
  }

  /**
   Read after write on the server: if call `i` is a WRITE that completed, call
   `j` a READ of the same range that was answered, and no verb in between
   writes into the range, the answer carries the data of the WRITE.
   */
  lemma ReadSeesWrite(s: Session, calls: seq<Call>, i: nat, j: nat)
    requires GoodTraffic(s, calls) && MemoryModel.Valid(s.store) && i < j < |calls|
    requires calls[i].verb.RdmaWrite? && calls[j].verb.RdmaRead?
    requires calls[j].verb.rkey == calls[i].verb.rkey && calls[j].verb.remoteVa == calls[i].verb.remoteVa
    requires calls[j].verb.readLen == StartOf(calls[i].verb.sg, |calls[i].verb.sg|)
    requires Succeeded(s, calls, i) && Succeeded(s, calls, j)
    requires forall m :: i < m < j ==>
               !Touches(calls[m].verb, calls[i].verb.rkey, calls[i].verb.remoteVa, calls[j].verb.readLen)
    ensures Shaped(calls[i])
    ensures var answer := Responses(EffectOf(s, calls, j).1)[0].body;
            answer.ReadRespBody? && answer.data == calls[i].reqs[1].msg.body.data
  {
    hide Run, MemoryModel.Valid, Issued, Holds, Touches, Orderly, Responses, StartOf, Refusals;
    var w := calls[i].verb;
    assert Shaped(calls[i]) && Shaped(calls[j]);
    var data := calls[i].reqs[1].msg.body.data;
    MeetsCall(s, calls, i);
    CompletedWriteHolds(Before(s, calls, i), calls[i]);
    CallsKeepHolds(s, calls, i + 1, j, w.rkey, w.remoteVa, data);
    MeetsCall(s, calls, j);
    ResponsesInOrder(s, calls, j);
    ReadReturnsHeld(Before(s, calls, j), calls[j], data);
  }
}
