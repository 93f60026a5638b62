/**
 The client's local regions over whole runs: each byte is the one last placed by
 a local write or a completed read, or zero since the registration of its region.
 */
module LocalMemory {
  import opened Core
  import opened Codec
  import opened SessionModel
  import opened ClientModel
  import opened Protocol
  import opened EndToEnd

  type Regions = map<u32, LocalMr>

  /** The length of a local region, if there is one under that L_Key. */
  function LenOf(mrs: Regions, lkey: u32): Option<nat> {
    if lkey in mrs then Some(|mrs[lkey].buf|) else None
  }

  function ByteAt(mrs: Regions, lkey: u32, i: nat): Option<byte> {
    if lkey in mrs && i < |mrs[lkey].buf| then Some(mrs[lkey].buf[i]) else None
  }

  /** What stands in the way of using `len` bytes at `offset` of a region that is `size` bytes long, if it exists. */
  function RangeError(size: Option<nat>, offset: nat, len: nat): Option<ClientError> {
    match size
    case None => Some(Protocol(ErrInvalidLkey))
    case Some(n) =>
      if offset + len >= U64_MOD then Some(Overflow)
      else if offset + len > n then Some(Protocol(ErrBounds))
      else None
  }

  // ---------------------------------------------------------------------
  // Events
  // ---------------------------------------------------------------------

  /** What a client can see happen to its local memory. */
  datatype LocalEvent =
    | Placed(lkey: u32, at: nat, data: bytes)
    | Zeroed(lkey: u32, len: nat)
    | Removed(lkey: u32)

  /** The length of a region as the events say, from the regions `base` at first. */
  function LastLen(base: Regions, log: seq<LocalEvent>, lkey: u32): Option<nat> {
    if log == [] then LenOf(base, lkey)
    else
      var rest := LastLen(base, log[..|log| - 1], lkey);
      match log[|log| - 1]
      case Placed(_, _, _) => rest
      case Zeroed(k, len) => if k == lkey then Some(len) else rest
      case Removed(k) => if k == lkey then None else rest
  }

  /** The byte at a position as the events say. */
  function LastByte(base: Regions, log: seq<LocalEvent>, lkey: u32, i: nat): Option<byte> {
    if log == [] then ByteAt(base, lkey, i)
    else
      var rest := LastByte(base, log[..|log| - 1], lkey, i);
      match log[|log| - 1]
      case Placed(k, at, data) => if k == lkey && at <= i < at + |data| then Some(data[i - at]) else rest
      case Zeroed(k, len) => if k == lkey then (if i < len then Some(0) else None) else rest
      case Removed(k) => if k == lkey then None else rest
  }

  /** The regions hold, byte for byte and length for length, what the events say. */
  ghost predicate Reflects(mrs: Regions, base: Regions, log: seq<LocalEvent>) {
    && (forall k: u32 :: LenOf(mrs, k) == LastLen(base, log, k))
    && (forall k: u32, i: nat :: ByteAt(mrs, k, i) == LastByte(base, log, k, i))
  }

  // ---------------------------------------------------------------------
  // One local write, one accepted response
  // ---------------------------------------------------------------------

  /** From `mrs` to `after`, exactly the event happened: everything it does not name is as it was. */
  ghost predicate Happened(mrs: Regions, after: Regions, e: LocalEvent) {
    match e
    case Placed(l, at, data) =>
      && (forall k: u32 :: LenOf(after, k) == LenOf(mrs, k))
      && (forall k: u32, i: nat :: ByteAt(after, k, i) ==
                         if k == l && at <= i < at + |data| then Some(data[i - at]) else ByteAt(mrs, k, i))
    case Zeroed(l, len) =>
      && (forall k: u32 :: LenOf(after, k) == if k == l then Some(len) else LenOf(mrs, k))
      && (forall k: u32, i: nat :: ByteAt(after, k, i) ==
                         if k == l then (if i < len then Some(0) else None) else ByteAt(mrs, k, i))
    case Removed(l) =>
      && (forall k: u32 :: LenOf(after, k) == if k == l then None else LenOf(mrs, k))
      && (forall k: u32, i: nat :: ByteAt(after, k, i) == if k == l then None else ByteAt(mrs, k, i))
  }

  /**
   A local write that meets no obstacle places its bytes: the length of the
   region, its other bytes and all other regions stay. One that does changes nothing.
   */
  lemma LocalWritePlaces(c: Client, lkey: u32, offset: nat, data: bytes)
    ensures var (d, o) := WriteLocal(c, lkey, offset, data);
            && d == c.(localMrs := d.localMrs)
            && match RangeError(LenOf(c.localMrs, lkey), offset, |data|)
               case Some(e) => o == Rejected(e) && d == c
               case None => o == Completed && Happened(c.localMrs, d.localMrs, Placed(lkey, offset, data))
  {
  }

  /** Reading locally returns the bytes of the range, or fails on the same conditions. */
  lemma LocalReadReturns(c: Client, lkey: u32, offset: nat, len: nat)
    ensures match RangeError(LenOf(c.localMrs, lkey), offset, len)
            case Some(e) => ReadLocal(c, lkey, offset, len) == Err(e)
            case None =>
              && ReadLocal(c, lkey, offset, len).Ok? && |ReadLocal(c, lkey, offset, len).value| == len
              && forall j :: 0 <= j < len ==>
                   ByteAt(c.localMrs, lkey, offset + j) == Some(ReadLocal(c, lkey, offset, len).value[j])
  {
  }

  /** What an accepted response means for local memory, judged by the outcome of the verb. */
  function EventOf(v: Verb, body: Body, o: Outcome): seq<LocalEvent> {
    match o
    case GotMr(lkey, _, len) => [Zeroed(lkey, len)]
    case Completed =>
      if v.DeregMr? then [Removed(v.lkey)]
      else if v.RdmaRead? && body.ReadRespBody? then [Placed(v.localLkey, v.localVa, body.data)]
      else []
    case _ => []
  }

  lemma PushKeepsLocal(c: Client, v: Verb, m: Message)
    ensures PushCompletion(c, v, m).localMrs == c.localMrs
  {
    hide Completion;
  }

  lemma AcceptHappens(c: Client, v: Verb, m: Message)
    ensures var (d, o) := Accept(c, v, m);
            var es := EventOf(v, m.body, o);
            |es| <= 1 && if es == [] then d.localMrs == c.localMrs else Happened(c.localMrs, d.localMrs, es[0])
  {
    hide PushCompletion, WriteLocal, Happened;
    PushKeepsLocal(c, v, m);
    match m.body
    case MrRegAckBody(_, lkey, rkey, status) =>
      if v.RegMr? { RegionAppears(c.localMrs, LocalMr(lkey, rkey, v.len, Zeros(v.len)), lkey, v.len); }
    case MrDeregAckBody(_) =>
      if v.DeregMr? { RegionDisappears(c.localMrs, v.lkey); }
    case ReadRespBody(_, data) =>
      if v.RdmaRead? { LocalWritePlaces(PushCompletion(c, v, m), v.localLkey, v.localVa, data); }
    case _ =>
  }

  lemma RegionAppears(mrs: Regions, mr: LocalMr, lkey: u32, len: nat)
    requires mr.buf == Zeros(len)
    ensures Happened(mrs, mrs[lkey := mr], Zeroed(lkey, len))
  {
  }

  lemma RegionDisappears(mrs: Regions, lkey: u32)
    ensures Happened(mrs, mrs - {lkey}, Removed(lkey))
  {
  }

  lemma EventReflected(mrs: Regions, after: Regions, base: Regions, log: seq<LocalEvent>, e: LocalEvent)
    requires Reflects(mrs, base, log) && Happened(mrs, after, e)
    ensures Reflects(after, base, log + [e])
  {
    hide LenOf, ByteAt;
    var all := log + [e];
    assert all[..|all| - 1] == log && all[|all| - 1] == e;
  }

  // ---------------------------------------------------------------------
  // Runs
  // ---------------------------------------------------------------------

  /** The body of a frame, if it decodes. */
  function BodyOf(frame: bytes): Body {
    match Decode(frame)
    case Ok(m) => m.body
    case Err(_) => AckBody
  }

  /**
   What a step from `y` to `z` does to local memory, from what the program sees:
   the call of write_local_mr and the lengths known so far, or the verb that
   ended, its outcome and the frame it read.
   */
  function StepEvents(y: System, z: System, step: Step, base: Regions, log: seq<LocalEvent>): seq<LocalEvent> {
    match step
    case StoreLocal(lkey, offset, data) =>
      if y.waiting.None? && RangeError(LastLen(base, log, lkey), offset, |data|).None?
      then [Placed(lkey, offset, data)] else []
    case Collect =>
      if y.waiting.Some? && y.s2c != [] && |z.outcomes| == |y.outcomes| + 1
      then EventOf(y.waiting.value, BodyOf(y.s2c[0]), z.outcomes[|y.outcomes|]) else []
    case _ => []
  }

  /** The events of a run. */
  function LocalLog(y0: System, steps: seq<Step>): seq<LocalEvent> {
    if steps == [] then []
    else
      var n := |steps| - 1;
      var log := LocalLog(y0, steps[..n]);
      log + StepEvents(Exec(y0, steps[..n]), Exec(y0, steps), steps[n], y0.client.localMrs, log)
  }

  lemma StepHappens(y: System, step: Step, base: Regions, log: seq<LocalEvent>)
    requires forall k: u32 :: LenOf(y.client.localMrs, k) == LastLen(base, log, k)
    ensures var z := Apply(y, step);
            var es := StepEvents(y, z, step, base, log);
            && |es| <= 1
            && if es == [] then z.client.localMrs == y.client.localMrs
               else Happened(y.client.localMrs, z.client.localMrs, es[0])
  {
    hide Decode, Accept, Completion, WriteLocal, Happened, LenOf, ByteAt, Requests, Stamp, AsFrames, AsInputs,
         ServeFrame;
    match step
    case StoreLocal(lkey, offset, data) => LocalWritePlaces(y.client, lkey, offset, data);
    case Collect =>
      if y.waiting.Some? && y.outbox == [] && y.s2c != [] && Decode(y.s2c[0]).Ok? {
        var m := Decode(y.s2c[0]).value;
        match OnArrival(y.client, m)
        case Application(c) => AcceptHappens(c, y.waiting.value, m);
        case _ =>
      }
    case _ =>
  }

  /** After every run, from any state, the local regions are what the events of the run say. */
  lemma {:induction false} LocalMemoryIsLastWriterWins(y0: System, steps: seq<Step>)
    ensures Reflects(Exec(y0, steps).client.localMrs, y0.client.localMrs, LocalLog(y0, steps))
  {
    hide Apply, StepEvents, Happened, LastByte, LastLen, LenOf, ByteAt;
    var base := y0.client.localMrs;
    if steps == [] {
      NothingHappened(base);
    } else {
      var n := |steps| - 1;
      LocalMemoryIsLastWriterWins(y0, steps[..n]);
      var log := LocalLog(y0, steps[..n]);
      var y, z := Exec(y0, steps[..n]), Exec(y0, steps);
      StepHappens(y, steps[n], base, log);
      var es := StepEvents(y, z, steps[n], base, log);
      assert LocalLog(y0, steps) == log + es;
      if es == [] {
        assert log + es == log;
      } else {
        assert es == [es[0]];
        EventReflected(y.client.localMrs, z.client.localMrs, base, log, es[0]);
      }
    }
  }

  lemma NothingHappened(base: Regions)
    ensures Reflects(base, base, [])
  {
  }

  /**
   What `read_local_mr` returns after any run, from its events: the bytes placed
   last, or the error that the last length of the region implies.
   */
  lemma LocalReadReturnsLastPlaced(y0: System, steps: seq<Step>, lkey: u32, offset: nat, len: nat)
    ensures var base := y0.client.localMrs;
            var log := LocalLog(y0, steps);
            var r := ReadLocal(Exec(y0, steps).client, lkey, offset, len);
            match RangeError(LastLen(base, log, lkey), offset, len)
            case Some(e) => r == Err(e)
            case None =>
              && r.Ok? && |r.value| == len
              && forall j :: 0 <= j < len ==> LastByte(base, log, lkey, offset + j) == Some(r.value[j])
  {
    hide Exec, LocalLog, LastByte, LastLen, LenOf, ByteAt, ReadLocal, RangeError;
    LocalMemoryIsLastWriterWins(y0, steps);
    LocalReadReturns(Exec(y0, steps).client, lkey, offset, len);
  }

  // ---------------------------------------------------------------------
  // Gathering
  // ---------------------------------------------------------------------

  function EntryError(mrs: Regions, e: SgEntry): Option<ClientError> {
    RangeError(LenOf(mrs, e.lkey), e.offset, e.length)
  }

  lemma SegmentReturns(mrs: Regions, e: SgEntry)
    ensures match EntryError(mrs, e)
            case Some(x) => Segment(mrs, e) == Err(x)
            case None =>
              && Segment(mrs, e).Ok? && |Segment(mrs, e).value| == e.length
              && forall j :: 0 <= j < e.length ==>
                   ByteAt(mrs, e.lkey, e.offset + j) == Some(Segment(mrs, e).value[j])
  {
  }

  /** Byte `j` of entry `k` goes where the entries before it end. */
  lemma GatheredByte(mrs: Regions, sg: seq<SgEntry>, k: nat, j: nat)
    requires Gather(mrs, sg).Ok? && k < |sg| && j < sg[k].length
    ensures StartOf(sg, k) + j < |Gather(mrs, sg).value|
    ensures ByteAt(mrs, sg[k].lkey, sg[k].offset + j) == Some(Gather(mrs, sg).value[StartOf(sg, k) + j])
  {
    hide Gather, Segment, StartOf, ByteAt, LenOf;
    GatherIsConcatenation(mrs, sg, k);
    SegmentReturns(mrs, sg[k]);
    var at := StartOf(sg, k);
    assert Gather(mrs, sg).value[at + j] == Gather(mrs, sg).value[at..at + sg[k].length][j];
  }

  /** The first bad entry decides the error. */
  lemma {:induction false} FirstBadEntryDecides(mrs: Regions, sg: seq<SgEntry>, k: nat)
    requires k < |sg| && EntryError(mrs, sg[k]).Some?
    requires forall i :: 0 <= i < k ==> EntryError(mrs, sg[i]).None?
    ensures Gather(mrs, sg) == Err(EntryError(mrs, sg[k]).value)
  {
    hide Segment, EntryError;
    var n := |sg| - 1;
    SegmentReturns(mrs, sg[n]);
    if k < n {
      FirstBadEntryDecides(mrs, sg[..n], k);
    } else {
      forall i | 0 <= i < n
        ensures Segment(mrs, sg[..n][i]).Ok?
      {
        SegmentReturns(mrs, sg[i]);
      }
      assert InBounds(mrs, sg[..n]);
      GatherSucceeds(mrs, sg[..n]);
    }
  }

  /**
   When a verb gives up before sending anything, in this order: the completion
   queue is full, a SEND has no credits, an entry of its list is bad.
   */
  lemma VerbGivesUpIff(c: Client, v: Verb)
    ensures var full := UsesCq(v) && |c.cq| >= c.cqCapacity;
            var broke := v.PostSend? && c.sendCredits == 0;
            var r := Requests(c, v);
            if full then r == Err(Protocol(ErrCqOverflow))
            else if broke then r == Err(SendCreditsExhausted)
            else if v.PostSend? || v.RdmaWrite? then
              && (r.Ok? <==> forall k :: 0 <= k < |v.sg| ==> EntryError(c.localMrs, v.sg[k]).None?)
              && (r.Err? ==> Gather(c.localMrs, v.sg) == Err(r.error))
            else r.Ok?
  {
    hide Gather, Segment, EntryError;
    if v.PostSend? || v.RdmaWrite? {
      GatherSucceeds(c.localMrs, v.sg);
      forall k | 0 <= k < |v.sg|
        ensures Segment(c.localMrs, v.sg[k]).Ok? <==> EntryError(c.localMrs, v.sg[k]).None?
      {
        SegmentReturns(c.localMrs, v.sg[k]);
      }
    }
  }

  /** After any run, a WRITE sends, entry by entry, the bytes placed last in its local segments. */
  lemma WriteSendsLastPlaced(y0: System, steps: seq<Step>, step: Step, k: nat, j: nat)
    requires Issues(Exec(y0, steps), step) && step.verb.RdmaWrite?
    requires k < |step.verb.sg| && j < step.verb.sg[k].length
    ensures var y := Exec(y0, steps);
            var calls := Apply(y, step).calls;
            var e := step.verb.sg[k];
            && |calls| == |y.calls| + 1 && |calls[|y.calls|].reqs| == 2
            && calls[|y.calls|].reqs[1].msg.body.WriteDataBody?
            && var data := calls[|y.calls|].reqs[1].msg.body.data;
               && StartOf(step.verb.sg, k) + j < |data|
               && LastByte(y0.client.localMrs, LocalLog(y0, steps), e.lkey, e.offset + j)
                  == Some(data[StartOf(step.verb.sg, k) + j])
  {
    hide Exec, Apply, Gather, LocalLog, LastByte, LastLen, LenOf, ByteAt, StartOf;
    var y := Exec(y0, steps);
    IssuedWriteCarriesData(y, step);
    LocalMemoryIsLastWriterWins(y0, steps);
    GatheredByte(y.client.localMrs, step.verb.sg, k, j);
  }

  // ---------------------------------------------------------------------
  // Deregistration
  // ---------------------------------------------------------------------

  /** Once a deregistration has completed, its L_Key is unknown to local reads, writes and gathers. */
  lemma DeregisteredIsGone(y: System, z: System, offset: nat, data: bytes, sg: seq<SgEntry>, k: nat)
    requires Finishes(y, z) && y.waiting.Some? && y.waiting.value.DeregMr? && z.outcomes[|y.outcomes|] == Completed
    requires k < |sg| && sg[k].lkey == y.waiting.value.lkey
    requires forall i :: 0 <= i < k ==> EntryError(z.client.localMrs, sg[i]).None?
    ensures var lkey := y.waiting.value.lkey;
            && ReadLocal(z.client, lkey, offset, |data|) == Err(Protocol(ErrInvalidLkey))
            && WriteLocal(z.client, lkey, offset, data) == (z.client, Rejected(Protocol(ErrInvalidLkey)))
            && Gather(z.client.localMrs, sg) == Err(Protocol(ErrInvalidLkey))
  {
    hide Apply, StepEvents, Gather, ReadLocal, WriteLocal;
    var lkey := y.waiting.value.lkey;
    CollectRemoves(y, z);
    LocalReadReturns(z.client, lkey, offset, |data|);
    LocalWritePlaces(z.client, lkey, offset, data);
    FirstBadEntryDecides(z.client.localMrs, sg, k);
  }

  lemma CollectRemoves(y: System, z: System)
    requires Finishes(y, z) && y.waiting.Some? && y.waiting.value.DeregMr? && z.outcomes[|y.outcomes|] == Completed
    ensures LenOf(z.client.localMrs, y.waiting.value.lkey) == None
  {
    hide CollectStep;
    StepHappens(y, Collect, y.client.localMrs, []);
  }
}
