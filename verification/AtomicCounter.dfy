/**
 Atomics from end to end: a word of a freshly registered region, driven by
 atomic verbs through the whole stack, behaves as one 64-bit cell, so that
 fetch-and-adds return the running sum.
 */
module AtomicCounter {
  import opened Core
  import opened Codec
  import opened MemoryModel
  import opened MemoryHistory
  import opened SessionModel
  import opened SessionRuns
  import opened SessionMemory
  import opened ClientModel
  import opened Traffic
  import opened ReadAfterWrite
  import opened Protocol
  import opened ProtocolInvariant
  import opened ProtocolTheorems

  // ---------------------------------------------------------------------
  // One call
  // ---------------------------------------------------------------------

  /** The verb is an atomic on the word at (`rkey`, `va`). */
  predicate OnWord(v: Verb, rkey: u32, va: u64) {
    v.PostAtomic? && v.rkey == rkey && v.remoteVa == va
  }

  /** The verb is a WRITE that reaches into the word. */
  predicate WritesWord(v: Verb, rkey: u32, va: u64) {
    v.RdmaWrite? && v.rkey == rkey && Overlap(v.remoteVa, StartOf(v.sg, |v.sg|), va, 8)
  }

  /** The first response to a call, as the server made it. */
  function FirstAnswer(e: Effect): Body
    requires Responses(e.1) != []
  {
    Responses(e.1)[0].body
  }

  /** The word after a call that was answered by `answer`. */
  function WordAfter(word: u64, v: Verb, answer: Body, rkey: u32, va: u64): u64 {
    if OnWord(v, rkey, va) && answer.AtomicRespBody? then NewWord(v.kind, word, v.operand1, v.operand2) else word
  }

  lemma AtomicCallActsOnCell(s: Session, c: Call, rkey: u32, va: u64, word: u64)
    requires Orderly(s, c.reqs) && Shaped(c) && s.pending == NoPending && c.verb.PostAtomic?
    requires MemoryModel.Valid(s.store) && va % 8 == 0 && HoldsWord(s.store, rkey, va, word)
    ensures var e := Run(s, c.reqs);
            && Responses(e.1) != []
            && HoldsWord(e.0.store, rkey, va, WordAfter(word, c.verb, FirstAnswer(e), rkey, va))
            && (OnWord(c.verb, rkey, va) && FirstAnswer(e).AtomicRespBody? ==> FirstAnswer(e).originalValue == word)
  {
    hide Run, Responses, Ascii, HandleMrReg, HandleMrDereg, HandleSend, HandleSendData, HandleReadReq,
         HandleWrite, HandleWriteData, Orderly, MemoryModel.Valid, HoldsWord, Perform, NewWord;
    var x := c.reqs[0];
    assert c.reqs == [x];
    RunOne(s, x);
    FirstDispatched(s, c);
    var out := React(s, x.msg, x.env).1;
    OneResponse(out[0]);
    assert out == [out[0]];
    var v := c.verb;
    StepCell(s.store, AtomicAt(v.rkey, v.remoteVa, v.kind, v.operand1, v.operand2), rkey, va, word);
  }

  /** Operations that neither write the word nor are atomics on it leave it as it is. */
  lemma {:induction false} OpsKeepWord(s: Store, ops: seq<Op>, rkey: u32, va: u64, word: u64)
    requires MemoryModel.Valid(s) && va % 8 == 0 && HoldsWord(s, rkey, va, word)
    requires forall op :: op in ops ==> !OpTouches(op, rkey, va, 8)
    ensures HoldsWord(After(s, ops), rkey, va, word)
  {
    hide MemoryModel.Valid, HoldsWord, Perform;
    if ops != [] {
      var n := |ops| - 1;
      OpsKeepWord(s, ops[..n], rkey, va, word);
      RunKeepsValid(s, ops[..n]);
      assert !OpTouches(ops[n], rkey, va, 8);
      StepCell(After(s, ops[..n]), ops[n], rkey, va, word);
    }
  }

  lemma OtherCallKeepsWord(s: Session, c: Call, rkey: u32, va: u64, word: u64)
    requires Orderly(s, c.reqs) && Shaped(c) && s.pending == NoPending
    requires !c.verb.PostAtomic? && !WritesWord(c.verb, rkey, va)
    requires MemoryModel.Valid(s.store) && va % 8 == 0 && HoldsWord(s.store, rkey, va, word)
    ensures HoldsWord(Run(s, c.reqs).0.store, rkey, va, word)
  {
    hide Run, OpsOf, MemoryModel.Valid, HoldsWord, OpTouches, Shaped, Overlap;
    CallOps(s, c, rkey, va, 8);
    RunPerformsOps(s, c.reqs);
    OpsKeepWord(s.store, OpsOf(s, c.reqs), rkey, va, word);
  }

  /** A registration that succeeds makes every word of its region zero. */
  lemma RegisteredWordIsZero(s: Session, c: Call, va: u64)
    requires Orderly(s, c.reqs) && Shaped(c) && c.verb.RegMr? && va + 8 <= c.verb.len
    requires MemoryModel.Valid(s.store)
    requires var e := Run(s, c.reqs);
             Responses(e.1) != [] && FirstAnswer(e).MrRegAckBody? && FirstAnswer(e).status == 0
    ensures var e := Run(s, c.reqs); HoldsWord(e.0.store, FirstAnswer(e).rkey, va, 0)
  {
    hide Run, Responses, Ascii, HandleMrDereg, HandleSend, HandleSendData, HandleReadReq, HandleAtomicReq,
         HandleWrite, HandleWriteData, Orderly, MemoryModel.Valid, Perform, HoldsWord;
    var x := c.reqs[0];
    assert c.reqs == [x];
    RunOne(s, x);
    FirstDispatched(s, c);
    var out := React(s, x.msg, x.env).1;
    OneResponse(out[0]);
    assert out == [out[0]];
    var b := x.msg.body;
    RegisterZeroes(s.store, b.pd, b.accessFlags, b.regionLen, x.env.draws, va);
    var (t, r) := Perform(s.store, Register(b.pd, b.accessFlags, b.regionLen, x.env.draws));
    var s1 := Advance(s, x.msg);
    assert React(s, x.msg, x.env) == HandleMrReg(s1, x.msg.header.wrid, b, x.env);
    assert RollWindow(s1, x.env.now).store == s.store;
    assert r.Registered?;
    assert React(s, x.msg, x.env).0.store == t;
    assert out[0].body.rkey == r.rkey;
  }

  lemma RegisterZeroes(s: Store, pd: u32, flags: u32, len: u64, draws: Draws, va: u64)
    requires va + 8 <= len
    ensures var (t, r) := Perform(s, Register(pd, flags, len, draws));
            && (r.Registered? ==> HoldsWord(t, r.rkey, va, 0))
            && (r.Failed? ==> CodeValue(r.code) != 0)
  {
    hide PickFrom;
    assert Zeros(len)[va..va + 8] == Zeros(8);
    ZerosAreZero(8);
  }

  lemma {:induction false} ZerosAreZero(n: nat)
    ensures FromBigEndian(Zeros(n)) == 0
    decreases n
  {
    if n > 0 {
      ZerosAreZero(n - 1);
      assert Zeros(n)[..n - 1] == Zeros(n - 1);
    }
  }

  // ---------------------------------------------------------------------
  // Any calls
  // ---------------------------------------------------------------------

  /** The server performed the atomic of call `m`. */
  predicate Performed(y: System, m: nat)
    requires m < |y.calls|
  {
    AnswersOf(y, m) != [] && AnswersOf(y, m)[0].body.AtomicRespBody?
  }

  /** The word, zero before call `i`, as the atomics performed between calls `i` and `k` leave it. */
  function WordBefore(y: System, i: nat, k: nat, rkey: u32, va: u64): u64
    requires i <= k <= |y.calls|
    decreases k
  {
    if k == i then 0
    else
      var w, v := WordBefore(y, i, k - 1, rkey, va), y.calls[k - 1].verb;
      if OnWord(v, rkey, va) && Performed(y, k - 1) then NewWord(v.kind, w, v.operand1, v.operand2) else w
  }

  /** Sum of the addends of the fetch-and-adds on the word performed between calls `i` and `k`. */
  function Added(y: System, i: nat, k: nat, rkey: u32, va: u64): nat
    requires i <= k <= |y.calls|
    decreases k
  {
    if k == i then 0
    else
      var v := y.calls[k - 1].verb;
      Added(y, i, k - 1, rkey, va) + (if OnWord(v, rkey, va) && Performed(y, k - 1) then v.operand1 else 0)
  }

  lemma {:induction false} WordIsSum(y: System, i: nat, k: nat, rkey: u32, va: u64)
    requires i <= k <= |y.calls|
    requires forall m :: i <= m < k && OnWord(y.calls[m].verb, rkey, va) ==> y.calls[m].verb.kind == ATOMIC_FAA
    ensures WordBefore(y, i, k, rkey, va) == Added(y, i, k, rkey, va) % U64_MOD
    decreases k
  {
    hide Performed;
    if i < k {
      WordIsSum(y, i, k - 1, rkey, va);
      var v := y.calls[k - 1].verb;
      AddModulo(Added(y, i, k - 1, rkey, va), if v.PostAtomic? then v.operand1 else 0);
    }
  }

  lemma WordStep(y: System, i: nat, k: nat, rkey: u32, va: u64)
    requires Inv(y) && i <= k < |y.calls| && va % 8 == 0 && !WritesWord(y.calls[k].verb, rkey, va)
    requires HoldsWord(MetBy(y, k).store, rkey, va, WordBefore(y, i, k, rkey, va))
    ensures HoldsWord(MetBy(y, k + 1).store, rkey, va, WordBefore(y, i, k + 1, rkey, va))
    ensures OnWord(y.calls[k].verb, rkey, va) && Performed(y, k) ==>
              AnswersOf(y, k)[0].body.originalValue == WordBefore(y, i, k, rkey, va)
  {
    hide Run, Issued, QueueOk, ClientOk, ServerOk, PipeOk, Responses, Orderly, MemoryModel.Valid, HoldsWord,
         WritesWord, NewWord, Shaped;
    var s, c := y.origin.session, y.calls[k];
    assert Shaped(c);
    MeetsCall(s, y.calls, k);
    var word := WordBefore(y, i, k, rkey, va);
    if c.verb.PostAtomic? {
      AtomicCallActsOnCell(Before(s, y.calls, k), c, rkey, va, word);
    } else {
      OtherCallKeepsWord(Before(s, y.calls, k), c, rkey, va, word);
    }
  }

  lemma {:induction false} WordRun(y: System, i: nat, k: nat, rkey: u32, va: u64)
    requires Inv(y) && i <= k < |y.calls| && va % 8 == 0
    requires forall m :: i <= m < k ==> !WritesWord(y.calls[m].verb, rkey, va)
    requires HoldsWord(MetBy(y, i).store, rkey, va, 0)
    ensures HoldsWord(MetBy(y, k).store, rkey, va, WordBefore(y, i, k, rkey, va))
    decreases k
  {
    hide Inv, MetBy, HoldsWord, WritesWord, Performed;
    if i < k {
      WordRun(y, i, k - 1, rkey, va);
      WordStep(y, i, k - 1, rkey, va);
    }
  }

  // ---------------------------------------------------------------------
  // The theorems
  // ---------------------------------------------------------------------

  /** Call `i` registered a region of more than `va + 7` bytes under `rkey`. */
  predicate Registers(y: System, i: nat, rkey: u32, va: u64)
    requires i < |y.calls|
  {
    && y.calls[i].verb.RegMr? && va + 8 <= y.calls[i].verb.len && AnswersOf(y, i) != []
    && var body := AnswersOf(y, i)[0].body; body.MrRegAckBody? && body.status == 0 && body.rkey == rkey
  }

  /** Call `i` registered the region of the word, and no WRITE reached into the word up to call `m`, an atomic on it. */
  ghost predicate WordScenario(y: System, i: nat, m: nat, rkey: u32, va: u64) {
    && i < m < |y.calls| && va % 8 == 0 && Registers(y, i, rkey, va) && OnWord(y.calls[m].verb, rkey, va)
    && forall n :: i < n < m ==> !WritesWord(y.calls[n].verb, rkey, va)
  }

  lemma RegistrationZeroesWord(y: System, i: nat, rkey: u32, va: u64)
    requires Inv(y) && i < |y.calls| && Registers(y, i, rkey, va)
    ensures HoldsWord(MetBy(y, i + 1).store, rkey, va, 0)
  {
    hide Run, Issued, QueueOk, ClientOk, ServerOk, PipeOk, Responses, Orderly, MemoryModel.Valid, HoldsWord, Shaped;
    assert Shaped(y.calls[i]);
    MeetsCall(y.origin.session, y.calls, i);
    RegisteredWordIsZero(Before(y.origin.session, y.calls, i), y.calls[i], va);
  }

  /** The value the server returned to an atomic call is that of the cell. */
  lemma AnswerIsCell(y: System, i: nat, m: nat, rkey: u32, va: u64)
    requires Inv(y) && WordScenario(y, i, m, rkey, va) && Performed(y, m)
    ensures AnswersOf(y, m)[0].body.originalValue == WordBefore(y, i + 1, m, rkey, va)
  {
    hide Inv, MetBy, HoldsWord, WordBefore, Performed, Registers;
    RegistrationZeroesWord(y, i, rkey, va);
    WordRun(y, i + 1, m, rkey, va);
    assert !WritesWord(y.calls[m].verb, rkey, va);
    WordStep(y, i + 1, m, rkey, va);
  }

  /** A verb that returned a word consumed the answer to an atomic that the server performed. */
  lemma WordComesFromOwner(y: System, k: nat)
    requires Inv(y) && k < |y.outcomes| && y.outcomes[k].GotWord?
    ensures k < |y.calls| && Performed(y, OwnerOf(y, k)) && OwnersPlace(y, k) == k
    ensures y.outcomes[k].value == AnswersOf(y, OwnerOf(y, k))[0].body.originalValue
  {
    hide Inv, Run, Responses, Owner, PlaceOf, Refusals, RefusedWrite, Before, EffectOf, Answers;
    ConsumesOwners(y, k);
  }

  /**
   Atomics through the whole stack, in every run: a verb that returns a word
   returns what a lone 64-bit cell held, zero at the registration of its region
   and driven by the atomics performed since, when the server came to the owner
   of the verb's place. If those are all fetch-and-adds, the word is the sum of
   their addends modulo 2^64.
   */
  lemma AtomicVerbsActOnOneCell(y0: System, steps: seq<Step>, i: nat, k: nat, rkey: u32, va: u64)
    requires GoodRun(y0, steps)
    requires var y := Exec(y0, steps);
             k < |y.outcomes| <= |y.calls| && y.outcomes[k].GotWord? && WordScenario(y, i, OwnerOf(y, k), rkey, va)
    ensures var y := Exec(y0, steps);
            var m := OwnerOf(y, k);
            && y.outcomes[k].value == WordBefore(y, i + 1, m, rkey, va)
            && ((forall n :: i < n < m && OnWord(y.calls[n].verb, rkey, va) ==> y.calls[n].verb.kind == ATOMIC_FAA) ==>
                  y.outcomes[k].value == Added(y, i + 1, m, rkey, va) % U64_MOD)
  {
    hide Exec, Inv, Start, OwnerOf, WordBefore, Added, Performed, Registers;
    RunKeepsInv(y0, steps);
    var y := Exec(y0, steps);
    var m := OwnerOf(y, k);
    WordComesFromOwner(y, k);
    AnswerIsCell(y, i, m, rkey, va);
    if forall n :: i < n < m && OnWord(y.calls[n].verb, rkey, va) ==> y.calls[n].verb.kind == ATOMIC_FAA {
      WordIsSum(y, i + 1, m, rkey, va);
    }
  }

  /** As long as no WRITE was refused before it, an atomic verb is its own owner and tells what the server did. */
  lemma OwnAtomicTells(y: System, k: nat)
    requires Inv(y) && k < |y.outcomes| && k < |y.calls| && y.calls[k].verb.PostAtomic?
    requires Refusals(y.origin.session, y.calls[..k]) == 0
    ensures OwnerOf(y, k) == k && (Performed(y, k) <==> y.outcomes[k].GotWord?)
  {
    hide Inv, Run, Responses, Owner, Refusals, RefusedWrite, Before, EffectOf;
    ConsumesOwners(y, k);
    PlaceIsLate(y.origin.session, y.calls, k);
  }

  /** A word that is no longer zero keeps its value while all atomics on it are swaps that expect zero. */
  lemma {:induction false} TakenWordStays(y: System, i: nat, n: nat, k: nat, rkey: u32, va: u64)
    requires i <= n <= k <= |y.calls|
    requires forall m :: n <= m < k && OnWord(y.calls[m].verb, rkey, va) ==>
               y.calls[m].verb.kind == ATOMIC_CAS && y.calls[m].verb.operand1 == 0
    requires WordBefore(y, i, n, rkey, va) != 0
    ensures WordBefore(y, i, k, rkey, va) == WordBefore(y, i, n, rkey, va)
    decreases k
  {
    hide Performed;
    if n < k {
      TakenWordStays(y, i, n, k - 1, rkey, va);
    }
  }

  /** Every atomic on the word up to call `m` tries to swap zero for something else. */
  ghost predicate Election(y: System, i: nat, m: nat, rkey: u32, va: u64)
    requires m < |y.calls|
  {
    forall n :: i < n <= m && OnWord(y.calls[n].verb, rkey, va) ==>
      y.calls[n].verb.kind == ATOMIC_CAS && y.calls[n].verb.operand1 == 0 && y.calls[n].verb.operand2 != 0
  }

  lemma OneWinner(y: System, i: nat, m: nat, n: nat, rkey: u32, va: u64)
    requires i < m < n < |y.calls| && OnWord(y.calls[m].verb, rkey, va) && Performed(y, m)
    requires Election(y, i, n, rkey, va)
    requires WordBefore(y, i + 1, m, rkey, va) == 0
    ensures WordBefore(y, i + 1, n, rkey, va) == y.calls[m].verb.operand2
  {
    hide Performed;
    assert WordBefore(y, i + 1, m + 1, rkey, va) == y.calls[m].verb.operand2;
    TakenWordStays(y, i + 1, m + 1, n, rkey, va);
  }

  /**
   A lock word through the whole stack, in every run: of the compare-and-swaps
   that all expect zero, the one for which zero was returned has its value
   stored, and whatever word a later verb returns for this word is that value.
   */
  lemma SwapVerbsElectOne(y0: System, steps: seq<Step>, i: nat, j: nat, k: nat, rkey: u32, va: u64)
    requires GoodRun(y0, steps)
    requires var y := Exec(y0, steps);
             && j < k < |y.outcomes| <= |y.calls| && y.outcomes[j] == GotWord(0) && y.outcomes[k].GotWord?
             && WordScenario(y, i, OwnerOf(y, j), rkey, va) && WordScenario(y, i, OwnerOf(y, k), rkey, va)
             && Election(y, i, OwnerOf(y, k), rkey, va)
    ensures var y := Exec(y0, steps); y.outcomes[k] == GotWord(y.calls[OwnerOf(y, j)].verb.operand2)
  {
    hide Exec, Inv, Start, Registers, OwnerOf, WordBefore, Performed, WritesWord, PlaceOf;
    RunKeepsInv(y0, steps);
    var y := Exec(y0, steps);
    var m, n := OwnerOf(y, j), OwnerOf(y, k);
    WordComesFromOwner(y, j);
    WordComesFromOwner(y, k);
    AnswerIsCell(y, i, m, rkey, va);
    AnswerIsCell(y, i, n, rkey, va);
    if n <= m {
      PlaceGrows(y.origin.session, y.calls, n, m);
    }
    OneWinner(y, i, m, n, rkey, va);
  }
}
