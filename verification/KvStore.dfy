/**
 The key/value store as it runs: every slot is read and written by verbs of a
 connection, through both wires and the server, under any schedule. Its
 operations are those of KvRegion on the server's store, so it answers as a
 finite map.
 */
module KvStore {
  import opened Core
  import opened MemoryModel
  import opened MemoryHistory
  import opened SessionModel
  import opened SessionRuns
  import opened SessionMemory
  import opened ClientModel
  import opened Traffic
  import opened Protocol
  import opened ProtocolInvariant
  import opened ProtocolTheorems
  import opened Progress
  import opened EndToEnd
  import opened VerbOutcomes
  import opened Episodes
  import opened RemoteMemory
  import opened KvTable
  import opened KvRegion

  // ---------------------------------------------------------------------
  // Slots through verbs
  // ---------------------------------------------------------------------

  /**
   A connection between verbs whose remote region is an accessible table, with
   a local region to stage slots in and room for a completion.
   */
  ghost predicate Mounted(y: System, rkey: u32, lkey: u32) {
    && Idle(y) && Refusals(y.origin.session, y.calls) == 0
    && Accessible(Remote(y).store, rkey) && Remote(y).outstandingReads < Remote(y).maxOutstandingReads
    && y.client.cq == [] && y.client.cqCapacity >= 1
    && lkey in y.client.localMrs && |y.client.localMrs[lkey].buf| >= SLOT_SIZE
  }

  /** The same, and the region holds nothing but zeros. */
  ghost predicate MountedFresh(y: System, rkey: u32, lkey: u32) {
    Mounted(y, rkey, lkey) && DataOf(Remote(y).store, rkey) == Zeros(REGION_SIZE)
  }

  function ReadVerb(wrid: u64, rkey: u32, lkey: u32, p: nat): Verb
    requires p < SLOT_COUNT
  {
    RdmaRead(wrid, rkey, p * SLOT_SIZE, SLOT_SIZE, lkey, 0)
  }

  function WriteVerb(wrid: u64, rkey: u32, lkey: u32, p: nat): Verb
    requires p < SLOT_COUNT
  {
    RdmaWrite(wrid, rkey, p * SLOT_SIZE, [SgEntry(lkey, 0, SLOT_SIZE)])
  }

  lemma SlotVerbsFit(limit: nat, wrid: u64, rkey: u32, lkey: u32, p: nat)
    requires p < SLOT_COUNT
    ensures FitsVerb(limit, ReadVerb(wrid, rkey, lkey, p)) && FitsVerb(limit, WriteVerb(wrid, rkey, lkey, p))
    ensures StartOf([SgEntry(lkey, 0, SLOT_SIZE)], 1) == SLOT_SIZE
  {
    assert StartOf([SgEntry(lkey, 0, SLOT_SIZE)], 0) == 0;
  }

  /** The range of a slot meets no obstacle. */
  lemma SlotIsFree(s: Store, rkey: u32, p: nat, bit: u32)
    requires Accessible(s, rkey) && p < SLOT_COUNT && (bit == REMOTE_READ || bit == REMOTE_WRITE)
    ensures RangeObstacle(s, rkey, bit, p * SLOT_SIZE, SLOT_SIZE) == None
  {
    hide Allows;
  }

  lemma SlotReadEffect(y: System, wrid: u64, rkey: u32, lkey: u32, p: nat, z: System)
    requires Mounted(y, rkey, lkey) && p < SLOT_COUNT && EndedCleanly(y, ReadVerb(wrid, rkey, lkey, p), z)
    ensures Remote(z).store == Remote(y).store && Refusals(z.origin.session, z.calls) == 0
    ensures Remote(z).outstandingReads < Remote(z).maxOutstandingReads
    ensures z.outcomes[|y.outcomes|] == Completed && |z.client.cq| == 1 && z.client.cqCapacity == y.client.cqCapacity
    ensures lkey in z.client.localMrs && |z.client.localMrs[lkey].buf| == |y.client.localMrs[lkey].buf|
    ensures z.client.localMrs[lkey].buf[..SLOT_SIZE] == RawSlot(DataOf(Remote(y).store, rkey), p)
  {
    hide Run, Inv, Responses, Refusals, MetBy, Orderly, MemoryModel.Valid, Lookup, RangeObstacle, Accessible,
         RefusedWrite;
    var c := z.calls[|y.calls|];
    RemoteFacts(y, z);
    SlotIsFree(Remote(y).store, rkey, p, REMOTE_READ);
    ReadCallEffect(Remote(y), c);
    assert !RefusedWrite(Remote(y), c.verb) by { ReadIsNotRefused(Remote(y), c.verb); }
  }

  lemma ReadIsNotRefused(s: Session, v: Verb)
    requires v.RdmaRead?
    ensures !RefusedWrite(s, v)
  {
  }

  /** Staging a slot in the local region and gathering it gives the slot. */
  lemma StagedIsGathered(mrs: map<u32, LocalMr>, lkey: u32, slot: bytes)
    requires lkey in mrs && |mrs[lkey].buf| >= SLOT_SIZE && |slot| == SLOT_SIZE && mrs[lkey].buf[..SLOT_SIZE] == slot
    ensures Gather(mrs, [SgEntry(lkey, 0, SLOT_SIZE)]) == Ok(slot)
  {
    var sg := [SgEntry(lkey, 0, SLOT_SIZE)];
    assert sg[..0] == [];
    assert Gather(mrs, []) == Ok([]);
    assert [] + slot == slot;
  }

  lemma SlotWriteEffect(y: System, wrid: u64, rkey: u32, lkey: u32, p: nat, slot: bytes, reply: KvReply, z: System)
    requires Mounted(y, rkey, lkey) && p < SLOT_COUNT && EndedCleanly(y, WriteVerb(wrid, rkey, lkey, p), z)
    requires |slot| == SLOT_SIZE && |z.calls[|y.calls|].reqs| == 2
    requires z.calls[|y.calls|].reqs[1].msg.body == WriteDataBody(slot)
    ensures (Remote(z).store, reply) == WriteSlotIn(Remote(y).store, rkey, p, slot, reply)
    ensures Accessible(Remote(z).store, rkey) && Refusals(z.origin.session, z.calls) == 0
    ensures Remote(z).outstandingReads < Remote(z).maxOutstandingReads
    ensures z.outcomes[|y.outcomes|] == Completed && |z.client.cq| == 1 && z.client.cqCapacity == y.client.cqCapacity
    ensures z.client.localMrs == y.client.localMrs
  {
    hide Run, Inv, Responses, Refusals, MetBy, Orderly, MemoryModel.Valid, Lookup, RangeObstacle, Accessible,
         RefusedWrite, StartOf, TableIn;
    var c := z.calls[|y.calls|];
    RemoteFacts(y, z);
    SlotIsFree(Remote(y).store, rkey, p, REMOTE_WRITE);
    SlotVerbsFit(0, wrid, rkey, lkey, p);
    WriteCallEffect(Remote(y), c);
    WriteSlotIsUpdate(Remote(y).store, rkey, p, slot, reply);
  }

  /** Staging in the local region and polling change nothing the next verb depends on. */
  lemma StageKeepsMounted(y: System, rkey: u32, lkey: u32, slot: bytes)
    requires Mounted(y, rkey, lkey) && |slot| == SLOT_SIZE
    ensures var z := Apply(y, StoreLocal(lkey, 0, slot));
            && Mounted(z, rkey, lkey) && Remote(z) == Remote(y) && z.client.localMrs[lkey].buf[..SLOT_SIZE] == slot
  {
    hide Inv, MetBy, Refusals, Accessible;
    StepKeepsInv(y, StoreLocal(lkey, 0, slot));
    assert MetBy(Apply(y, StoreLocal(lkey, 0, slot)), |y.calls|) == MetBy(y, |y.calls|) by {
      SameMetBy(y, Apply(y, StoreLocal(lkey, 0, slot)));
    }
  }

  lemma SameMetBy(y: System, z: System)
    requires z.calls == y.calls && z.origin == y.origin
    ensures Remote(z) == Remote(y)
  {
    hide Before;
  }

  lemma PollMounts(y: System, rkey: u32, lkey: u32)
    requires Idle(y) && Refusals(y.origin.session, y.calls) == 0
    requires Accessible(Remote(y).store, rkey) && Remote(y).outstandingReads < Remote(y).maxOutstandingReads
    requires |y.client.cq| == 1 && y.client.cqCapacity >= 1
    requires lkey in y.client.localMrs && |y.client.localMrs[lkey].buf| >= SLOT_SIZE
    ensures var z := Apply(y, Poll(1));
            Mounted(z, rkey, lkey) && Remote(z) == Remote(y) && z.client.localMrs == y.client.localMrs
            && z.outcomes == y.outcomes
  {
    hide Inv, MetBy, Refusals, Accessible;
    StepKeepsInv(y, Poll(1));
    SameMetBy(y, Apply(y, Poll(1)));
  }

  // ---------------------------------------------------------------------
  // The store
  // ---------------------------------------------------------------------

  class KvStore {
    var system: System
    const remoteRkey: u32
    const localLkey: u32
    var nextWrid: u64
    ghost const start: System
    ghost var taken: seq<Step>

    /** The state is that of a run of the protocol, between verbs. */
    ghost predicate Valid()
      reads this
    {
      Idle(system) && system == Exec(start, taken)
    }

    ghost predicate Ready()
      reads this
    {
      Mounted(system, remoteRkey, localLkey)
    }

    constructor (system: System, remoteRkey: u32, localLkey: u32)
      requires Idle(system)
      ensures Valid() && this.system == system && this.remoteRkey == remoteRkey && this.localLkey == localLkey
      ensures start == system
    {
      this.system, this.remoteRkey, this.localLkey, this.nextWrid := system, remoteRkey, localLkey, 1;
      this.start, this.taken := system, [];
    }

    method Take(step: Step)
      modifies this`system, this`taken
      ensures system == Apply(old(system), step) && taken == old(taken) + [step]
      ensures old(system == Exec(start, taken)) ==> system == Exec(start, taken)
    {
      hide Apply;
      assert (taken + [step])[..|taken|] == taken;
      system := Apply(system, step);
      taken := taken + [step];
    }

    /** Runs one verb to its end; whichever frame can move next moves. */
    method RunVerb(v: Verb) returns (o: Outcome)
      requires Valid() && FitsVerb(Limit(system), v)
      modifies this`system, this`taken
      ensures Valid() && system.origin == old(system.origin)
      ensures old(Requests(system.client, v)).Err? ==>
                system == old(system) && o == Rejected(old(Requests(system.client, v)).error)
      ensures old(Requests(system.client, v)).Ok? && old(Refusals(system.origin.session, system.calls)) == 0 ==>
                EndedCleanly(old(system), v, system) && o == system.outcomes[|system.outcomes| - 1]
      ensures old(Requests(system.client, v)).Ok? && v.RdmaWrite? ==>
                && |system.calls| == |old(system.calls)| + 1 && |system.calls[|old(system.calls)|].reqs| == 2
                && system.calls[|old(system.calls)|].reqs[1].msg.body.WriteDataBody?
                && Gather(old(system.client.localMrs), v.sg)
                   == Ok(system.calls[|old(system.calls)|].reqs[1].msg.body.data)
    {
      hide Inv, Apply, GoodTraffic, During, EndedCleanly, Work, Exec, FitsVerb, Gather, Refusals;
      ghost var y := system;
      var env1: Env := *;
      var env2: Env := *;
      var requests := Requests(system.client, v);
      Take(Begin(v, env1, env2));
      if requests.Err? {
        assert system == y by { FailedBegin(y, v, env1, env2); }
        return Rejected(requests.error);
      }
      BegunDuring(y, v, env1, env2);
      ghost var b := system;
      while system.waiting.Some?
        invariant Inv(system) && During(b, system, v) && system == Exec(start, taken)
        decreases Work(system)
      {
        StepAhead(system);
        ghost var before := system;
        if {
          case system.outbox != [] =>
            StepUsesWork(system, Transmit);
            MoveDuring(b, system, v, Transmit);
            Take(Transmit);
          case system.c2s != [] =>
            StepUsesWork(system, Serve);
            MoveDuring(b, system, v, Serve);
            Take(Serve);
          case system.outbox == [] && system.s2c != [] =>
            StepUsesWork(system, Collect);
            MoveDuring(b, system, v, Collect);
            Take(Collect);
        }
      }
      assert system.calls == b.calls && system.outcomes != [] && system.origin == b.origin by {
        DuringEnds(b, system, v);
      }
      o := system.outcomes[|system.outcomes| - 1];
      if Refusals(y.origin.session, y.calls) == 0 {
        CleanEpisode(y, v, env1, env2, system);
      }
      if v.RdmaWrite? {
        WriteCarries(y, v, env1, env2);
      }
    }

    method TakeWrid() returns (wrid: u64)
      modifies this`nextWrid
      ensures wrid == old(nextWrid) && nextWrid == (wrid + 1) % U64_MOD
    {
      wrid := nextWrid;
      nextWrid := (nextWrid + 1) % U64_MOD;
    }

    /** Polls the completion of a verb that succeeded. */
    method PollOne()
      requires Valid()
      modifies this`system, this`taken
      ensures Valid() && system == Apply(old(system), Poll(1))
    {
      hide Inv, Apply, Exec;
      assert Inv(Apply(system, Poll(1))) by { StepKeepsInv(system, Poll(1)); }
      assert Apply(system, Poll(1)).waiting.None? by { PollKeepsIdle(system); }
      Take(Poll(1));
    }

    method ReadSlot(p: nat) returns (r: Result<bytes, ClientError>)
      requires Valid() && p < SLOT_COUNT
      modifies this
      ensures Valid() && (r.Ok? ==> |r.value| == SLOT_SIZE)
      ensures old(Ready()) ==>
                && Ready() && Remote(system).store == old(Remote(system).store)
                && r == Ok(RawSlot(DataOf(Remote(system).store, remoteRkey), p))
    {
      hide Inv, Apply, Exec, Refusals, Remote, Accessible, FitsVerb, EndedCleanly, DataOf, RawSlot;
      ghost var y := system;
      ghost var ready := Ready();
      var wrid := TakeWrid();
      SlotVerbsFit(Limit(system), wrid, remoteRkey, localLkey, p);
      var o := RunVerb(ReadVerb(wrid, remoteRkey, localLkey, p));
      if ready {
        SlotReadEffect(y, wrid, remoteRkey, localLkey, p, system);
        assert o == Completed by { LastOutcome(y, system, ReadVerb(wrid, remoteRkey, localLkey, p)); }
        PollMounts(system, remoteRkey, localLkey);
      }
      if o.Rejected? {
        return Err(o.error);
      }
      PollOne();
      var local := ReadLocal(system.client, localLkey, 0, SLOT_SIZE);
      if local.Err? {
        return Err(local.error);
      }
      return Ok(local.value);
    }

    /** Stages a slot in the local region. */
    method Stage(slot: bytes) returns (o: Outcome)
      requires Valid()
      modifies this`system, this`taken
      ensures Valid() && system == Apply(old(system), StoreLocal(localLkey, 0, slot))
      ensures o == WriteLocal(old(system.client), localLkey, 0, slot).1
    {
      hide Inv, Apply, Exec;
      o := WriteLocal(system.client, localLkey, 0, slot).1;
      assert Inv(Apply(system, StoreLocal(localLkey, 0, slot))) by {
        StepKeepsInv(system, StoreLocal(localLkey, 0, slot));
      }
      assert Apply(system, StoreLocal(localLkey, 0, slot)).waiting.None? by { StageKeepsIdle(system, localLkey, slot); }
      Take(StoreLocal(localLkey, 0, slot));
    }

    /** Writes a slot and reports `reply`, or the error of the local region or the verb. */
    method WriteSlot(p: nat, slot: bytes, reply: KvReply) returns (r: Result<KvReply, ClientError>)
      requires Valid() && p < SLOT_COUNT && |slot| == SLOT_SIZE
      modifies this
      ensures Valid()
      ensures old(Ready()) ==>
                && Ready() && r == Ok(reply)
                && (Remote(system).store, reply) == WriteSlotIn(old(Remote(system).store), remoteRkey, p, slot, reply)
    {
      hide Inv, Apply, Exec, Refusals, Remote, Accessible, FitsVerb, EndedCleanly, WriteSlotIn, Gather;
      ghost var ready := Ready();
      if ready {
        StageKeepsMounted(system, remoteRkey, localLkey, slot);
      }
      var staged := Stage(slot);
      if staged.Rejected? {
        return Err(staged.error);
      }
      ghost var y := system;
      if ready {
        StagedIsGathered(y.client.localMrs, localLkey, slot);
      }
      var wrid := TakeWrid();
      var v := WriteVerb(wrid, remoteRkey, localLkey, p);
      SlotVerbsFit(Limit(system), wrid, remoteRkey, localLkey, p);
      var o := RunVerb(v);
      if ready {
        SlotWriteEffect(y, wrid, remoteRkey, localLkey, p, slot, reply, system);
        assert o == Completed by { LastOutcome(y, system, v); }
        PollMounts(system, remoteRkey, localLkey);
      }
      if o.Rejected? {
        return Err(o.error);
      }
      PollOne();
      return Ok(reply);
    }

    method Put(key: bytes, value: bytes) returns (r: Result<KvReply, ClientError>)
      requires Valid()
      modifies this
      ensures Valid()
      ensures old(Ready()) ==> Ready() && Answered(old(Remote(system).store), KvOp.Put(key, value), r)
    {
      hide Inv, Exec, Remote, EncodeSlot, DecodeSlot, At, Hash, DataOf, RawSlot, Mounted, WriteSlotIn;
      if |key| > MAX_KEY_LEN {
        return Ok(KeyTooLong);
      }
      if |value| > MAX_VALUE_LEN {
        return Ok(ValueTooLong);
      }
      ghost var (ready, s) := (Ready(), Remote(system).store);
      var start := HashKey(key);
      for i := 0 to SLOT_COUNT
        invariant Valid() && (ready ==> Ready() && Remote(system).store == s)
        invariant ready ==> Scan(s, remoteRkey, key, 0) == Scan(s, remoteRkey, key, i)
      {
        var idx := (start + i) % SLOT_COUNT;
        assert idx == At(key, i) by { ProbeSlot(key, i); }
        var slot := ReadSlot(idx);
        if slot.Err? {
          return Err(slot.error);
        }
        if ready {
          ScanSlot(system, remoteRkey, localLkey, key, i);
        }
        match DecodeSlot(slot.value) {
          case Free =>
            r := WriteSlot(idx, EncodeSlot(key, value), Stored(false));
            return;
          case Garbled =>
            return Ok(SlotOverrun);
          case Entry(k, _) =>
            if k == key {
              r := WriteSlot(idx, EncodeSlot(key, value), Stored(true));
              return;
            }
        }
      }
      return Ok(TableFull);
    }

    method Get(key: bytes) returns (r: Result<KvReply, ClientError>)
      requires Valid()
      modifies this
      ensures Valid()
      ensures old(Ready()) ==> Ready() && Answered(old(Remote(system).store), KvOp.Get(key), r)
    {
      hide Inv, Exec, Remote, DecodeSlot, At, Hash, DataOf, RawSlot, Mounted;
      ghost var (ready, s) := (Ready(), Remote(system).store);
      var start := HashKey(key);
      for i := 0 to SLOT_COUNT
        invariant Valid() && (ready ==> Ready() && Remote(system).store == s)
        invariant ready ==> Scan(s, remoteRkey, key, 0) == Scan(s, remoteRkey, key, i)
      {
        var idx := (start + i) % SLOT_COUNT;
        assert idx == At(key, i) by { ProbeSlot(key, i); }
        var slot := ReadSlot(idx);
        if slot.Err? {
          return Err(slot.error);
        }
        if ready {
          ScanSlot(system, remoteRkey, localLkey, key, i);
        }
        match DecodeSlot(slot.value) {
          case Free =>
            return Ok(Value(None));
          case Garbled =>
            return Ok(SlotOverrun);
          case Entry(k, v) =>
            if k == key {
              return Ok(Value(Some(v)));
            }
        }
      }
      return Ok(Value(None));
    }

    method Delete(key: bytes) returns (r: Result<KvReply, ClientError>)
      requires Valid()
      modifies this
      ensures Valid()
      ensures old(Ready()) ==> Ready() && Answered(old(Remote(system).store), KvOp.Delete(key), r)
    {
      hide Inv, Exec, Remote, DecodeSlot, At, Hash, DataOf, RawSlot, Mounted, WriteSlotIn;
      ghost var (ready, s) := (Ready(), Remote(system).store);
      var start := HashKey(key);
      for i := 0 to SLOT_COUNT
        invariant Valid() && (ready ==> Ready() && Remote(system).store == s)
        invariant ready ==> Scan(s, remoteRkey, key, 0) == Scan(s, remoteRkey, key, i)
      {
        var idx := (start + i) % SLOT_COUNT;
        assert idx == At(key, i) by { ProbeSlot(key, i); }
        var slot := ReadSlot(idx);
        if slot.Err? {
          return Err(slot.error);
        }
        if ready {
          ScanSlot(system, remoteRkey, localLkey, key, i);
        }
        match DecodeSlot(slot.value) {
          case Free =>
            return Ok(Deleted(false));
          case Garbled =>
            return Ok(SlotOverrun);
          case Entry(k, _) =>
            if k == key {
              r := WriteSlot(idx, Zeros(SLOT_SIZE), Deleted(true));
              return;
            }
        }
      }
      return Ok(Deleted(false));
    }

    /**
     A client that works through a list of operations. From a fresh region it
     gets, for puts, gets and safe deletes, the replies of a finite map, whatever
     the schedules of all its verbs, and the region decodes to a sound table for
     that map.
     */
    method PerformAll(ops: seq<KvOp>) returns (replies: seq<Result<KvReply, ClientError>>)
      requires Valid()
      modifies this
      ensures Valid()
      ensures old(Fresh()) && SafeRun(Empty(), ops) ==>
                && Ready() && |replies| == |ops|
                && (forall i :: 0 <= i < |ops| ==> replies[i] == Ok(MapReply(ops, i)))
                && Sound(TableIn(Remote(system).store, remoteRkey))
                && Contents(TableIn(Remote(system).store, remoteRkey)) == MapRun(map[], ops).0
    {
      hide Inv, Exec, Remote, Mounted, KvStep, KvRun, MapRun, SafeRun, TableIn, Sound, Contents, DataOf;
      ghost var (ready, s) := (Ready(), Remote(system).store);
      replies := [];
      assert ready ==> KvRun(s, remoteRkey, ops[..0]) == (s, []) by { NothingRun(s, remoteRkey, ops); }
      for i := 0 to |ops|
        invariant Valid() && |replies| == i
        invariant ready ==> Ready() && Remote(system).store == KvRun(s, remoteRkey, ops[..i]).0
        invariant ready ==> AllOk(replies, KvRun(s, remoteRkey, ops[..i]).1)
      {
        RunNext(s, remoteRkey, ops, i);
        var r;
        match ops[i] {
          case Put(key, value) => r := Put(key, value);
          case Get(key) => r := Get(key);
          case Delete(key) => r := Delete(key);
        }
        replies := replies + [r];
      }
      assert ops[..|ops|] == ops;
      if old(Fresh()) && SafeRun(Empty(), ops) {
        MapAnswers(old(system), remoteRkey, localLkey, ops, replies);
      }
    }

    /** Ready, and the remote region holds nothing but zeros. */
    ghost predicate Fresh()
      reads this
    {
      MountedFresh(system, remoteRkey, localLkey)
    }

    /** The reply and the remote store are those of the operation on the store as it was. */
    ghost predicate Answered(s: Store, op: KvOp, r: Result<KvReply, ClientError>)
      reads this
    {
      r.Ok? && (Remote(system).store, r.value) == KvStep(s, remoteRkey, op)
    }
  }

  /** The reply of a finite map to the `i`-th operation. */
  function MapReply(ops: seq<KvOp>, i: nat): KvReply
    requires i < |ops|
  {
    MapStep(MapRun(map[], ops[..i]).0, ops[i]).1
  }

  predicate AllOk(rs: seq<Result<KvReply, ClientError>>, replies: seq<KvReply>) {
    |rs| == |replies| && forall i :: 0 <= i < |rs| ==> rs[i] == Ok(replies[i])
  }

  lemma NothingRun(s: Store, rkey: u32, ops: seq<KvOp>)
    ensures KvRun(s, rkey, ops[..0]) == (s, [])
  {
    hide KvStep;
  }

  lemma RunNext(s: Store, rkey: u32, ops: seq<KvOp>, i: nat)
    requires i < |ops|
    ensures var (t, rs) := KvRun(s, rkey, ops[..i]);
            var (u, r) := KvStep(t, rkey, ops[i]);
            KvRun(s, rkey, ops[..i + 1]) == (u, rs + [r])
  {
    hide KvStep;
    assert ops[..i + 1][..i] == ops[..i];
  }

  lemma {:induction false} MapReplies(m: map<bytes, bytes>, ops: seq<KvOp>, i: nat)
    requires i < |ops|
    ensures |MapRun(m, ops).1| == |ops| && MapRun(m, ops).1[i] == MapStep(MapRun(m, ops[..i]).0, ops[i]).1
  {
    hide MapStep;
    var n := |ops| - 1;
    if i < n {
      MapReplies(m, ops[..n], i);
      assert ops[..n][..i] == ops[..i];
    } else if n > 0 {
      MapReplies(m, ops[..n], 0);
    }
  }

  lemma MapAnswers(y: System, rkey: u32, lkey: u32, ops: seq<KvOp>, replies: seq<Result<KvReply, ClientError>>)
    requires MountedFresh(y, rkey, lkey) && SafeRun(Empty(), ops)
    requires AllOk(replies, KvRun(Remote(y).store, rkey, ops).1) && |replies| == |ops|
    ensures forall i :: 0 <= i < |ops| ==> replies[i] == Ok(MapReply(ops, i))
    ensures var t := KvRun(Remote(y).store, rkey, ops).0;
            && Accessible(t, rkey) && Sound(TableIn(t, rkey)) && Contents(TableIn(t, rkey)) == MapRun(map[], ops).0
  {
    hide Inv, Remote, KvRun, MapRun, MapStep, SafeRun, TableIn, Sound, Contents, DataOf, Accessible, Refusals,
         MemoryModel.Valid;
    assert MemoryModel.Valid(Remote(y).store) by { RemoteIsValid(y); }
    RegionRefinesMap(Remote(y).store, rkey, ops);
    forall i | 0 <= i < |ops|
      ensures replies[i] == Ok(MapReply(ops, i))
    {
      MapReplies(map[], ops, i);
    }
  }

  lemma RemoteIsValid(y: System)
    requires Inv(y)
    ensures MemoryModel.Valid(Remote(y).store)
  {
    hide Run, Issued, QueueOk, ClientOk, ServerOk, PipeOk, MemoryModel.Valid, AllShaped, Orderly;
    SessionKeepsStoreValid(y.origin.session, Issued(y.calls[..|y.calls|]));
  }

  lemma StageKeepsIdle(y: System, lkey: u32, slot: bytes)
    requires y.waiting.None?
    ensures Apply(y, StoreLocal(lkey, 0, slot)).waiting.None?
  {
  }

  /** One turn of the probe loop, on the bytes that were read. */
  lemma ScanSlot(y: System, rkey: u32, lkey: u32, key: bytes, i: nat)
    requires Mounted(y, rkey, lkey) && i < SLOT_COUNT
    ensures Accessible(Remote(y).store, rkey)
    ensures var s := Remote(y).store;
            var slot := DecodeSlot(RawSlot(DataOf(s, rkey), At(key, i)));
            Scan(s, rkey, key, i) == (match slot
                                      case Free => Gap(i)
                                      case Garbled => Broken(SlotOverrun)
                                      case Entry(k, v) => if k == key then Hit(i, v) else Scan(s, rkey, key, i + 1))
  {
    hide Idle, Remote, Refusals, DecodeSlot, At, RawSlot, DataOf, Accessible;
    SlotRead(Remote(y).store, rkey, At(key, i));
  }

  lemma PollKeepsIdle(y: System)
    requires y.waiting.None?
    ensures Apply(y, Poll(1)).waiting.None?
  {
  }

  lemma LastOutcome(y: System, z: System, v: Verb)
    requires EndedCleanly(y, v, z)
    ensures |z.outcomes| == |y.outcomes| + 1
  {
    hide Inv, Run, Concluded;
  }

  lemma FailedBegin(y: System, v: Verb, env1: Env, env2: Env)
    requires Requests(y.client, v).Err?
    ensures Apply(y, Begin(v, env1, env2)) == y
  {
  }

  lemma StepAhead(y: System)
    requires Inv(y) && y.waiting.Some?
    ensures y.outbox != [] || y.c2s != [] || y.s2c != []
  {
    hide Inv;
    if y.outbox == [] && y.c2s == [] {
      ResponseIsThere(y);
    }
  }

  lemma DuringEnds(b: System, z: System, v: Verb)
    requires GoodTraffic(b.origin.session, b.calls) && b.calls != [] && During(b, z, v) && z.waiting.None?
    ensures z.calls == b.calls && z.outcomes != [] && z.origin == b.origin
  {
    hide GoodTraffic, Concluded, Consumed;
  }

  lemma WriteCarries(y: System, v: Verb, env1: Env, env2: Env)
    requires Inv(y) && y.waiting.None? && Requests(y.client, v).Ok? && v.RdmaWrite? && FitsVerb(Limit(y), v)
    ensures var calls := Apply(y, Begin(v, env1, env2)).calls;
            && |calls| == |y.calls| + 1 && |calls[|y.calls|].reqs| == 2
            && calls[|y.calls|].reqs[1].msg.body.WriteDataBody?
            && Gather(y.client.localMrs, v.sg) == Ok(calls[|y.calls|].reqs[1].msg.body.data)
  {
    hide Inv, Apply, Gather, FitsVerb, During, GoodTraffic, Requests;
    BegunDuring(y, v, env1, env2);
    IssuedWriteCarriesData(y, Begin(v, env1, env2));
  }

  // ---------------------------------------------------------------------
  // Opening a store
  // ---------------------------------------------------------------------

  const LOCAL_WRITE: u32 := 0x01

  /** A registration that began in `y` returned a region in `z`. */
  ghost predicate GaveRegion(y: System, flags: u32, len: u64, z: System) {
    EndedCleanly(y, RegMr(flags, len), z) && |z.outcomes| == |y.outcomes| + 1 && z.outcomes[|y.outcomes|].GotMr?
  }

  /** A registration that returned a region, as the server and the client have it afterwards. */
  lemma RegistrationEffect(y: System, flags: u32, len: u64, z: System)
    requires Idle(y) && Refusals(y.origin.session, y.calls) == 0 && GaveRegion(y, flags, len, z)
    ensures var o := z.outcomes[|y.outcomes|];
            var s := Remote(y).store;
            && GoodKey(s.usedRkeys, o.rkey) && Refusals(z.origin.session, z.calls) == 0
            && (exists pd: u32 :: Remote(z).store == WithRegion(s, pd, o.rkey, flags, Zeros(len)))
            && z.client.localMrs == y.client.localMrs[o.lkey := LocalMr(o.lkey, o.rkey, len, Zeros(len))]
            && z.client.cq == y.client.cq && z.client.cqCapacity == y.client.cqCapacity
            && Remote(z).outstandingReads == Remote(y).outstandingReads
            && Remote(z).maxOutstandingReads == Remote(y).maxOutstandingReads
  {
    hide Run, Inv, Responses, Refusals, MetBy, Orderly, MemoryModel.Valid, WithRegion, PickFrom, Obstacle, RefusedWrite;
    var c := z.calls[|y.calls|];
    RemoteFacts(y, z);
    AnswerReportsObstacle(Remote(y), c);
    assert !RefusedWrite(Remote(y), c.verb) by { RegIsNotRefused(Remote(y), c.verb); }
    assert Obstacle(Remote(y), c) == None;
    RegCallEffect(Remote(y), c);
    PickedKeyIsFresh(Remote(y).store.usedRkeys, c.reqs[0].env.draws, 0);
  }

  lemma RegIsNotRefused(s: Session, v: Verb)
    requires v.RegMr?
    ensures !RefusedWrite(s, v)
  {
  }

  /** The region of a registration for remote access is accessible and empty. */
  lemma NewRegionIsAccessible(s: Store, pd: u32, rkey: u32)
    requires MemoryModel.Valid(s) && GoodKey(s.usedRkeys, rkey)
    ensures var t := WithRegion(s, pd, rkey, 0x06, Zeros(REGION_SIZE));
            Accessible(t, rkey) && DataOf(t, rkey) == Zeros(REGION_SIZE)
  {
  }

  /** Another registration leaves it so. */
  lemma OtherRegionKeepsAccess(s: Store, pd: u32, other: u32, flags: u32, data: bytes, rkey: u32)
    requires MemoryModel.Valid(s) && GoodKey(s.usedRkeys, other) && Accessible(s, rkey)
    ensures var t := WithRegion(s, pd, other, flags, data);
            Accessible(t, rkey) && DataOf(t, rkey) == DataOf(s, rkey)
  {
    hide Allows;
  }

  /** The states between the two registrations of `Open` and after them. */
  lemma OpenedIsReady(y: System, y1: System, y2: System)
    requires Idle(y) && Refusals(y.origin.session, y.calls) == 0 && y.client.cq == [] && y.client.cqCapacity >= 1
    requires Remote(y).outstandingReads < Remote(y).maxOutstandingReads
    requires GaveRegion(y, 0x06, REGION_SIZE, y1) && GaveRegion(y1, LOCAL_WRITE, SLOT_SIZE, y2)
    ensures var (rkey, lkey) := (y1.outcomes[|y.outcomes|].rkey, y2.outcomes[|y1.outcomes|].lkey);
            MountedFresh(y2, rkey, lkey)
  {
    hide Inv, Refusals, Remote, MemoryModel.Valid, WithRegion, Accessible, EndedCleanly, DataOf;
    EndsIdle(y, y1, RegMr(0x06, REGION_SIZE));
    EndsIdle(y1, y2, RegMr(LOCAL_WRITE, SLOT_SIZE));
    RegistrationEffect(y, 0x06, REGION_SIZE, y1);
    var rkey := y1.outcomes[|y.outcomes|].rkey;
    var pd: u32 :| Remote(y1).store == WithRegion(Remote(y).store, pd, rkey, 0x06, Zeros(REGION_SIZE));
    RemoteIsValid(y);
    NewRegionIsAccessible(Remote(y).store, pd, rkey);
    RegistrationEffect(y1, LOCAL_WRITE, SLOT_SIZE, y2);
    var o := y2.outcomes[|y1.outcomes|];
    var pd2: u32 :| Remote(y2).store == WithRegion(Remote(y1).store, pd2, o.rkey, LOCAL_WRITE, Zeros(SLOT_SIZE));
    RemoteIsValid(y1);
    OtherRegionKeepsAccess(Remote(y1).store, pd2, o.rkey, LOCAL_WRITE, Zeros(SLOT_SIZE), rkey);
  }

  lemma EndsIdle(y: System, z: System, v: Verb)
    requires EndedCleanly(y, v, z)
    ensures Idle(z) && |z.outcomes| == |y.outcomes| + 1
  {
    hide Inv, Run, Concluded;
  }

  /** A fresh connection: both registrations of the store, and the store on top of them. */
  method Open(system: System) returns (r: Result<KvStore, ClientError>)
    requires Start(system)
    ensures r.Ok? ==> r.value.Valid() && r.value.system.origin == system.origin
    ensures r.Ok? && system.client.cqCapacity >= 1
            && system.origin.session.outstandingReads < system.origin.session.maxOutstandingReads ==>
              r.value.Fresh()
  {
    hide Inv, Start, EndedCleanly, Refusals, Remote, Accessible, Exec;
    assert Idle(system) && Refusals(system.origin.session, system.calls) == 0 && Remote(system) == system.origin.session
           && system.client.cq == [] by { StartIsIdle(system); }
    var conn := new KvStore(system, 0, 0);
    var o1 := conn.RunVerb(RegMr(0x06, REGION_SIZE));
    if !o1.GotMr? {
      return Err(if o1.Rejected? then o1.error else SessionClosed);
    }
    ghost var y1 := conn.system;
    assert Idle(y1) && |y1.outcomes| == |system.outcomes| + 1 by { EndsIdle(system, y1, RegMr(0x06, REGION_SIZE)); }
    assert Refusals(y1.origin.session, y1.calls) == 0 by { RegistrationEffect(system, 0x06, REGION_SIZE, y1); }
    var o2 := conn.RunVerb(RegMr(LOCAL_WRITE, SLOT_SIZE));
    if !o2.GotMr? {
      return Err(if o2.Rejected? then o2.error else SessionClosed);
    }
    assert |conn.system.outcomes| == |y1.outcomes| + 1 by { EndsIdle(y1, conn.system, RegMr(LOCAL_WRITE, SLOT_SIZE)); }
    if system.client.cqCapacity >= 1
       && system.origin.session.outstandingReads < system.origin.session.maxOutstandingReads {
      OpenedIsReady(system, y1, conn.system);
    }
    var store := new KvStore(conn.system, o1.rkey, o2.lkey);
    return Ok(store);
  }

  lemma StartIsIdle(y: System)
    requires Start(y)
    ensures Idle(y) && Refusals(y.origin.session, y.calls) == 0 && Remote(y) == y.origin.session && y.client.cq == []
  {
    hide Inv, React;
    StartInv(y);
  }
}
