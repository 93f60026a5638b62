/**
 What a server session puts on the wire: every message it sends can be framed
 and decodes again, and the laws of its runs hold of any frames that arrive,
 from a fresh session on.
 */
module SessionFrames {
  import opened Core
  import opened Codec
  import opened MemoryModel
  import opened SessionModel
  import opened SessionRuns
  import opened SessionMemory

  // ---------------------------------------------------------------------
  // Sizes of what the server sends back
  // ---------------------------------------------------------------------

  /** The message fits the wire format. */
  predicate NoteFits(n: Note) {
    && PayloadSize(n.body) < U32_MOD
    && (n.body.SendBody? ==> |n.body.sgList| < 0x1_0000)
    && (n.body.ErrorBody? ==> |n.body.description| < 0x1_0000)
  }

  /**
   The answer to a read fits a frame: either the store can hold no region that
   would not, or the read asks for less. Nothing else the server sends can grow.
   */
  predicate SmallRead(limit: nat, b: Body) {
    b.ReadReqBody? ==> limit + 8 < U32_MOD || b.readLen + 8 < U32_MOD
  }

  lemma ReadWithinLimit(s: Store, rkey: u32, offset: u64, len: u64)
    requires MemoryModel.Valid(s) && ReadIn(s, rkey, offset, len).Bytes?
    ensures |ReadIn(s, rkey, offset, len).data| == len <= s.maxTotalBytes
  {
    hide Allows, MemoryModel.Valid;
    RegionWithinLimit(s, s.rkeyToLkey[rkey]);
  }

  /** The bodies the two-part handlers send. */
  predicate Short(n: Note) {
    n.body.RecvCompBody? || n.body.WriteCompBody? || n.body.CreditUpdateBody?
    || (n.body.ErrorBody? && |n.body.description| < 0x100)
  }

  lemma ShortFits(n: Note)
    requires Short(n)
    ensures NoteFits(n)
  {
  }

  lemma TwoPartNotesFit(s: Session, m: Message, env: Env)
    requires TwoPart(m.body)
    ensures forall n :: n in Dispatch(s, m, env).1 ==> NoteFits(n)
  {
    hide Perform, Lookup, Ascii, Wrap32, CodeValue, NoteFits;
    assert forall n :: n in Dispatch(s, m, env).1 ==> Short(n);
    forall n | n in Dispatch(s, m, env).1
      ensures NoteFits(n)
    {
      ShortFits(n);
    }
  }

  lemma OnePartNotesFit(s: Session, m: Message, env: Env)
    requires !TwoPart(m.body)
    requires MemoryModel.Valid(s.store) && SmallRead(s.store.maxTotalBytes, m.body)
    ensures forall n :: n in Dispatch(s, m, env).1 ==> NoteFits(n)
  {
    hide Perform, ReadIn, CodeValue, Ascii, HandleSend, HandleSendData, HandleWrite, HandleWriteData,
         MemoryModel.Valid;
    if m.body.ReadReqBody? && ReadIn(s.store, m.body.rkey, m.body.remoteVa, m.body.readLen).Bytes? {
      ReadWithinLimit(s.store, m.body.rkey, m.body.remoteVa, m.body.readLen);
    }
  }

  /** Ten digits are enough for a sequence number. */
  lemma DecimalIsShort(x: u32)
    ensures |Decimal(x)| <= 10
  {
    DigitsOf(x, 10, 10_000_000_000);
  }

  lemma {:induction false} DigitsOf(x: nat, k: nat, bound: nat)
    requires k >= 1 && x < bound && bound == Pow10(k)
    ensures |Decimal(x)| <= k
    decreases k
  {
    if x >= 10 {
      DigitsOf(x / 10, k - 1, bound / 10);
    }
  }

  function Pow10(k: nat): nat {
    if k == 0 then 1 else 10 * Pow10(k - 1)
  }

  lemma FilterNotesFit(s: Session, m: Message, env: Env)
    requires s.phase == Ready && !Processed(s, m)
    ensures forall n :: n in React(s, m, env).1 ==> NoteFits(n)
  {
    hide HandleReady, NoteFits, Decimal, Ascii;
    if !Oversize(s, m) {
      DecimalIsShort(s.expectedRemoteSeq.value);
      DecimalIsShort(m.header.sequence);
    }
    forall n | n in React(s, m, env).1
      ensures NoteFits(n)
    {
      ShortFits(n);
    }
  }

  lemma ConnectNotesFit(s: Session, m: Message, env: Env)
    requires s.phase != Ready
    ensures forall n :: n in React(s, m, env).1 ==> NoteFits(n)
  {
    hide HandleReady, Ascii;
  }

  /** Whatever arrives, what the session sends in answer fits the wire format. */
  lemma StepNotesFit(s: Session, m: Message, env: Env)
    requires MemoryModel.Valid(s.store) && SmallRead(s.store.maxTotalBytes, m.body)
    ensures forall n :: n in React(s, m, env).1 ==> NoteFits(n)
  {
    hide Dispatch, NoteFits, MemoryModel.Valid, HandleConnect, Ascii;
    if s.phase != Ready {
      ConnectNotesFit(s, m, env);
    } else if !Processed(s, m) {
      FilterNotesFit(s, m, env);
    } else if TwoPart(m.body) {
      TwoPartNotesFit(Advance(s, m), m, env);
    } else {
      OnePartNotesFit(Advance(s, m), m, env);
    }
  }

  lemma {:induction false} NotesFit(s: Session, ins: seq<Input>)
    requires MemoryModel.Valid(s.store)
    requires forall k :: 0 <= k < |ins| ==> SmallRead(s.store.maxTotalBytes, ins[k].msg.body)
    ensures forall n :: n in Run(s, ins).1 ==> NoteFits(n)
  {
    hide React, NoteFits, MemoryModel.Valid, After, OpsOf;
    if ins != [] {
      var m := |ins| - 1;
      NotesFit(s, ins[..m]);
      SessionKeepsStoreValid(s, ins[..m]);
      RunPerformsOps(s, ins[..m]);
      LimitsAreFixed(s.store, OpsOf(s, ins[..m]));
      StepNotesFit(Run(s, ins[..m]).0, ins[m].msg, ins[m].env);
    }
  }

  lemma FittingNoteIsWellFormed(sessionId: u32, sequence: u32, n: Note)
    requires NoteFits(n)
    ensures WellFormed(NewMessage(sessionId, sequence, n.wrid, n.body))
  {
  }

  // ---------------------------------------------------------------------
  // Runs over frames
  // ---------------------------------------------------------------------

  /** The messages of the frames up to the first that does not decode. */
  function Accepted(frames: seq<Frame>): (ins: seq<Input>)
    ensures |ins| <= |frames|
  {
    if frames == [] then []
    else
      var front := Accepted(frames[..|frames| - 1]);
      var last := frames[|frames| - 1];
      match Decode(last.data)
      case Ok(m) => if |front| == |frames| - 1 then front + [Input(m, last.env)] else front
      case Err(_) => front
  }

  /** The session after the accepted messages; a frame that does not decode closes it. */
  function Ended(s: Server, all: bool): Server {
    if all then s else s.(session := s.session.(phase := Closed))
  }

  /** The loop over frames handles the accepted messages and then stops. */
  lemma {:induction false} ServeAllHandlesAccepted(s: Server, frames: seq<Frame>)
    ensures var ins := Accepted(frames);
            var (t, out) := HandleAll(s, ins);
            ServeAll(s, frames) == (Ended(t, |ins| == |frames|), EncodeAll(out))
  {
    hide Decode, Encode, HandleMessage;
    if frames != [] {
      var n := |frames| - 1;
      var last := frames[n];
      ServeAllHandlesAccepted(s, frames[..n]);
      var front := Accepted(frames[..n]);
      var (t, out) := HandleAll(s, front);
      if |front| == n {
        match Decode(last.data)
        case Ok(m) =>
          ServeFrameHandles(t, last, m);
          EncodeAllConcat(out, HandleMessage(t, m, last.env).1);
        case Err(_) =>
          assert EncodeAll(out) + [] == EncodeAll(out);
      } else {
        assert EncodeAll(out) + [] == EncodeAll(out);
      }
    }
  }

  /** The message carries the note under the given number, for whatever session id. */
  predicate Carries(m: Message, sequence: u32, n: Note) {
    m == NewMessage(m.header.sessionId, sequence, n.wrid, n.body)
  }

  /** Numbered consecutively from the start, the handshake included. */
  lemma {:induction false} HandleAllCarriesRun(s: Server, ins: seq<Input>)
    ensures var (t, out) := HandleAll(s, ins);
            var (u, notes) := Run(s.session, ins);
            && t == Server(u, Wrap32(s.nextSeq + |notes|)) && |out| == |notes|
            && forall i :: 0 <= i < |out| ==> Carries(out[i], Wrap32(s.nextSeq + i), notes[i])
  {
    hide React, Wrap32;
    if ins == [] {
      assert Wrap32(s.nextSeq + 0) == s.nextSeq by { WrapNothing(s.nextSeq); }
    } else {
      var n := |ins| - 1;
      HandleAllCarriesRun(s, ins[..n]);
      var (u, notes) := Run(s.session, ins[..n]);
      var more := React(u, ins[n].msg, ins[n].env).1;
      var (out, all) := (HandleAll(s, ins).1, Run(s.session, ins).1);
      assert all == notes + more;
      WrapTwice(s.nextSeq + |notes|, |more|);
      forall i | 0 <= i < |out|
        ensures Carries(out[i], Wrap32(s.nextSeq + i), all[i])
      {
        if i < |notes| {
          assert Carries(HandleAll(s, ins[..n]).1[i], Wrap32(s.nextSeq + i), notes[i]);
        } else {
          WrapTwice(s.nextSeq + |notes|, i - |notes|);
        }
      }
    }
  }

  lemma FreshStoreIsValid(config: ServerConfig, now: nat)
    ensures MemoryModel.Valid(NewSession(config, now).store)
    ensures NewSession(config, now).store.maxTotalBytes == config.maxTotalBytes
  {
  }

  /**
   The laws of a whole session, from a fresh one, for any frames whatever: the
   store is sound, credits returned plus SENDs not yet credited are the
   completions sent, and the receive queue is accounted for.
   */
  lemma FreshSessionLaws(config: ServerConfig, now: nat, frames: seq<Frame>)
    ensures var (t, sent) := ServeAll(NewServer(config, now), frames);
            var (s, ins) := (NewSession(config, now), Accepted(frames));
            var notes := Run(s, ins).1;
            && |sent| == |notes| && t.nextSeq == Wrap32(|sent|)
            && MemoryModel.Valid(t.session.store)
            && t.session.sendsSinceLastCredit + Increments(notes) == RecvComps(notes)
            && config.recvQueueDepth == t.session.recvQueueDepth + RecvComps(notes) + PendingSends(t.session)
                                        + Dropped(s, ins)
  {
    hide Run, Decode, Encode, HandleAll, Increments, RecvComps, Dropped, MemoryModel.Valid, Accepted, ServeAll;
    var s, ins := NewSession(config, now), Accepted(frames);
    ServeAllHandlesAccepted(NewServer(config, now), frames);
    HandleAllCarriesRun(NewServer(config, now), ins);
    FreshStoreIsValid(config, now);
    SessionKeepsStoreValid(s, ins);
    RunCredit(s, ins);
    RunQueue(s, ins);
  }

  /** The frame decodes to the note, under number `i` modulo 2^32. */
  predicate SentAs(frame: bytes, i: nat, n: Note) {
    var m := Decode(frame);
    m.Ok? && m.value.header.sequence == Wrap32(i) && m.value.header.wrid == n.wrid && m.value.body == n.body
  }

  /** Every frame such a session sends decodes to what it meant to send, numbered consecutively from zero. */
  lemma FreshFramesDecode(config: ServerConfig, now: nat, frames: seq<Frame>, i: nat)
    requires forall k :: 0 <= k < |Accepted(frames)| ==> SmallRead(config.maxTotalBytes, Accepted(frames)[k].msg.body)
    requires i < |ServeAll(NewServer(config, now), frames).1|
    ensures var notes := Run(NewSession(config, now), Accepted(frames)).1;
            i < |notes| && SentAs(ServeAll(NewServer(config, now), frames).1[i], i, notes[i])
  {
    hide Run, Decode, Encode, HandleAll, MemoryModel.Valid, Accepted, ServeAll, NoteFits, WellFormed;
    var s, ins := NewSession(config, now), Accepted(frames);
    ServeAllHandlesAccepted(NewServer(config, now), frames);
    HandleAllCarriesRun(NewServer(config, now), ins);
    FreshStoreIsValid(config, now);
    NotesFit(s, ins);
    var notes := Run(s, ins).1;
    var out := HandleAll(NewServer(config, now), ins).1;
    assert notes[i] in notes && Carries(out[i], Wrap32(i), notes[i]);
    FittingNoteIsWellFormed(out[i].header.sessionId, Wrap32(i), notes[i]);
    RoundTrip(out[i]);
  }
}
