/**
 When credits come back: over every run of messages, each completed quota of
 SENDs is followed at once by one CREDIT_UPDATE for exactly that quota, and
 there is no other.
 */
module CreditReturns {
  import opened Core
  import opened Codec
  import opened SessionModel
  import opened SessionRuns

  /** Number of CREDIT_UPDATE messages. */
  function CreditUpdates(ns: seq<Note>): nat {
    if ns == [] then 0 else CreditUpdates(ns[..|ns| - 1]) + (if ns[|ns| - 1].body.CreditUpdateBody? then 1 else 0)
  }

  lemma {:induction false} CreditUpdatesConcat(a: seq<Note>, b: seq<Note>)
    ensures CreditUpdates(a + b) == CreditUpdates(a) + CreditUpdates(b)
  {
    if b == [] {
      assert a + b == a;
    } else {
      CreditUpdatesConcat(a, b[..|b| - 1]);
      assert (a + b)[..|a + b| - 1] == a + b[..|b| - 1];
    }
  }

  lemma CreditUpdatesOfFew(n: Note)
    ensures CreditUpdates([]) == 0
    ensures CreditUpdates([n]) == if n.body.CreditUpdateBody? then 1 else 0
  {
    assert [n][..0] == [];
  }

  /** The message at `p` returns one quota, right after the RECV_COMP that completes it. */
  predicate InPlace(out: seq<Note>, p: nat, q: nat)
    requires 0 < q && p < |out|
  {
    && out[p].body.CreditUpdateBody? && out[p].body.creditIncrement == q
    && 0 < p && out[p - 1].body.RecvCompBody?
    && RecvComps(out[..p]) % q == 0
  }

  /** Every CREDIT_UPDATE of an output is in its place. */
  ghost predicate AllInPlace(out: seq<Note>, q: nat)
    requires 0 < q
  {
    forall p :: 0 <= p < |out| && out[p].body.CreditUpdateBody? ==> InPlace(out, p, q)
  }

  /** The exact account of an output that leaves `since` SENDs uncredited. */
  ghost predicate Settled(out: seq<Note>, q: nat, since: nat)
    requires 0 < q
  {
    RecvComps(out) == q * CreditUpdates(out) + since && since < q && AllInPlace(out, q)
  }

  /** What the completion of a SEND is answered with. */
  lemma CompletionReturns(s: Session, wrid: u64)
    requires CreditInv(s)
    ensures var (t, out) := CompleteSend(s, wrid);
            var q := Quota(s.icc);
            && t.icc == s.icc
            && (if s.sendsSinceLastCredit + 1 == q then
                  t.sendsSinceLastCredit == 0 && out == [Note(wrid, RecvCompBody), Note(0, CreditUpdateBody(q))]
                else t.sendsSinceLastCredit == s.sendsSinceLastCredit + 1 && out == [Note(wrid, RecvCompBody)])
  {
  }

  lemma PlainStaysSettled(out: seq<Note>, q: nat, since: nat, more: seq<Note>)
    requires 0 < q && Settled(out, q, since) && |more| <= 1
    requires more != [] ==> !more[0].body.CreditUpdateBody? && !more[0].body.RecvCompBody?
    ensures Settled(out + more, q, since)
  {
    hide RecvComps, CreditUpdates;
    CountsConcat(out, more);
    CreditUpdatesConcat(out, more);
    if more == [] {
      assert out + more == out;
    } else {
      assert more == [more[0]];
      MeasuresOfFew(more[0]);
      CreditUpdatesOfFew(more[0]);
    }
    PlacesStay(out, more, q);
  }

  lemma PlacesStay(out: seq<Note>, more: seq<Note>, q: nat)
    requires 0 < q && AllInPlace(out, q)
    requires forall i :: 0 <= i < |more| ==> !more[i].body.CreditUpdateBody?
    ensures AllInPlace(out + more, q)
  {
    var all := out + more;
    forall p | 0 <= p < |all| && all[p].body.CreditUpdateBody?
      ensures InPlace(all, p, q)
    {
      assert p < |out| ==> all[..p] == out[..p] && InPlace(out, p, q);
    }
  }

  lemma CompletionStaysSettled(out: seq<Note>, q: nat, since: nat, comp: Note)
    requires 0 < q && Settled(out, q, since) && comp.body.RecvCompBody?
    ensures RecvComps(out + [comp]) == RecvComps(out) + 1 && CreditUpdates(out + [comp]) == CreditUpdates(out)
    ensures AllInPlace(out + [comp], q)
    ensures since + 1 < q ==> Settled(out + [comp], q, since + 1)
  {
    hide RecvComps, CreditUpdates, AllInPlace;
    CountsConcat(out, [comp]);
    CreditUpdatesConcat(out, [comp]);
    MeasuresOfFew(comp);
    CreditUpdatesOfFew(comp);
    PlacesStay(out, [comp], q);
  }

  lemma CreditStaysSettled(out: seq<Note>, q: nat, n: Note)
    requires 0 < q && AllInPlace(out, q) && out != [] && out[|out| - 1].body.RecvCompBody?
    requires RecvComps(out) == q * CreditUpdates(out) + q && n.body.CreditUpdateBody? && n.body.creditIncrement == q
    ensures Settled(out + [n], q, 0)
  {
    hide RecvComps, CreditUpdates;
    CountsConcat(out, [n]);
    CreditUpdatesConcat(out, [n]);
    MeasuresOfFew(n);
    CreditUpdatesOfFew(n);
    DivideAccount(q, CreditUpdates(out) + 1, 0);
    assert RecvComps(out) == q * (CreditUpdates(out) + 1) + 0;
    var all := out + [n];
    forall p | 0 <= p < |all| && all[p].body.CreditUpdateBody?
      ensures InPlace(all, p, q)
    {
      assert all[..p] == out[..p];
      assert p == |out| ==> out[..p] == out;
      assert p < |out| ==> InPlace(out, p, q);
    }
  }

  lemma DivideAccount(q: nat, k: nat, since: nat)
    requires since < q
    ensures (q * k + since) / q == k && (q * k + since) % q == since
  {
    var v := q * k + since;
    QuotientIs(v, q, k, since);
    assert v % q == v - q * (v / q);
  }

  lemma {:induction false} RunSettles(s: Session, ins: seq<Input>)
    requires s.sendsSinceLastCredit == 0
    ensures var (t, out) := Run(s, ins);
            t.icc == s.icc && Settled(out, Quota(s.icc), t.sendsSinceLastCredit)
  {
    hide React, RecvComps, CreditUpdates, Settled;
    var q := Quota(s.icc);
    if ins == [] {
      NothingIsSettled(q);
      assert Run(s, ins) == (s, []);
    } else {
      var n := |ins| - 1;
      RunSettles(s, ins[..n]);
      var (s1, o1) := Run(s, ins[..n]);
      StepSettles(s1, ins[n].msg, ins[n].env, o1);
    }
  }

  lemma NothingIsSettled(q: nat)
    ensures 0 < q ==> Settled([], q, 0)
  {
  }

  lemma StepSettles(s: Session, m: Message, env: Env, out: seq<Note>)
    requires Settled(out, Quota(s.icc), s.sendsSinceLastCredit)
    ensures var (t, more) := React(s, m, env);
            t.icc == s.icc && Settled(out + more, Quota(s.icc), t.sendsSinceLastCredit)
  {
    hide React, RecvComps, CreditUpdates, AllInPlace, CompleteSend;
    var (t, more) := React(s, m, env);
    var q := Quota(s.icc);
    if Completes(s, m) {
      ReactCompletes(s, m, env);
      CompletionReturns(Advance(s, m).(pending := NoPending), s.pending.wrid);
      CompletionStaysSettled(out, q, s.sendsSinceLastCredit, more[0]);
      if |more| == 2 {
        CreditStaysSettled(out + [more[0]], q, more[1]);
        assert out + more == (out + [more[0]]) + [more[1]];
      } else {
        assert more == [more[0]];
      }
    } else {
      ReactIsPlain(s, m, env);
      PlainStaysSettled(out, q, s.sendsSinceLastCredit, more);
    }
  }

  /**
   The exact return of credits, for any incoming messages: every CREDIT_UPDATE
   carries one quota and directly follows the RECV_COMP that completes it, their
   number is the number of whole quotas completed, and the session counts the rest.
   */
  lemma CreditsReturnByQuota(s: Session, ins: seq<Input>)
    requires s.sendsSinceLastCredit == 0
    ensures var (t, out) := Run(s, ins);
            var q := Quota(s.icc);
            && AllInPlace(out, q)
            && CreditUpdates(out) == RecvComps(out) / q
            && t.sendsSinceLastCredit == RecvComps(out) % q
  {
    hide Run, RecvComps, CreditUpdates, AllInPlace;
    RunSettles(s, ins);
    var (t, out) := Run(s, ins);
    DivideAccount(Quota(s.icc), CreditUpdates(out), t.sendsSinceLastCredit);
  }
}
