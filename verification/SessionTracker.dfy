/**
 The per-IP session count that all connection tasks share: the locked sections
 of `handle_connection`, and what holds under every interleaving of tasks.
 */
module SessionTracker {
  import opened Core

  type Ip = nat
  type Task = nat

  // ---------------------------------------------------------------------
  // The locked sections
  // ---------------------------------------------------------------------

  /** The limit check; a first visit leaves an entry behind even when it is turned away. */
  function AdmitIn(counts: map<Ip, int>, limit: u32, ip: Ip): (map<Ip, int>, bool) {
    var count := if ip in counts then counts[ip] else 0;
    if count >= limit then (counts[ip := count], false) else (counts[ip := count + 1], true)
  }

  /** Giving a place back; an entry that reaches zero is removed. */
  function ReleaseIn(counts: map<Ip, int>, ip: Ip): map<Ip, int> {
    if ip !in counts then counts
    else if counts[ip] - 1 == 0 then counts - {ip}
    else counts[ip := counts[ip] - 1]
  }

  class Tracker {
    var counts: map<Ip, int>
    const limit: u32

    constructor (limit: u32)
      ensures counts == map[] && this.limit == limit
    {
      counts, this.limit := map[], limit;
    }

    method Admit(ip: Ip) returns (admitted: bool)
      modifies this
      ensures (counts, admitted) == old(AdmitIn(counts, limit, ip))
    {
      if ip !in counts {
        counts := counts[ip := 0];
      }
      assert counts[ip := counts[ip]] == counts;
      if counts[ip] >= limit {
        return false;
      }
      ghost var before := old(counts);
      counts := counts[ip := counts[ip] + 1];
      assert counts == before[ip := CountOf(before, ip) + 1];
      return true;
    }

    method Release(ip: Ip)
      modifies this
      ensures counts == old(ReleaseIn(counts, ip))
    {
      if ip in counts {
        counts := counts[ip := counts[ip] - 1];
        if counts[ip] == 0 {
          counts := counts - {ip};
        }
      }
    }
  }

  // ---------------------------------------------------------------------
  // Tasks
  // ---------------------------------------------------------------------

  /** Where a connection task is; `Leaving` is on its way to the lock to give its place back. */
  datatype Stage =
    | Arrived(ip: Ip)
    | InHandshake(ip: Ip)
    | InUpgrade(ip: Ip)
    | InSession(ip: Ip)
    | Leaving(ip: Ip)
    | Gone

  datatype World = World(counts: map<Ip, int>, limit: u32, tasks: map<Task, Stage>)

  /** One task moves; the outcome of the handshake and of the upgrade comes from outside. */
  datatype Move =
    | Arrive(task: Task, ip: Ip)
    | TakeLock(task: Task)
    | Progress(task: Task, ok: bool)

  function Apply(w: World, m: Move): World {
    match m
    case Arrive(task, ip) => if task in w.tasks then w else w.(tasks := w.tasks[task := Arrived(ip)])
    case TakeLock(task) =>
      if task !in w.tasks then w
      else
        (match w.tasks[task]
         case Arrived(ip) =>
           var (counts, admitted) := AdmitIn(w.counts, w.limit, ip);
           w.(counts := counts, tasks := w.tasks[task := if admitted then InHandshake(ip) else Gone])
         case Leaving(ip) => w.(counts := ReleaseIn(w.counts, ip), tasks := w.tasks[task := Gone])
         case _ => w)
    case Progress(task, ok) =>
      if task !in w.tasks then w
      else
        (match w.tasks[task]
         case InHandshake(ip) => w.(tasks := w.tasks[task := if ok then InUpgrade(ip) else Leaving(ip)])
         case InUpgrade(ip) => w.(tasks := w.tasks[task := if ok then InSession(ip) else Leaving(ip)])
         case InSession(ip) => w.(tasks := w.tasks[task := Leaving(ip)])
         case _ => w)
  }

  function Exec(w: World, moves: seq<Move>): World {
    if moves == [] then w else Apply(Exec(w, moves[..|moves| - 1]), moves[|moves| - 1])
  }

  // ---------------------------------------------------------------------
  // The invariant
  // ---------------------------------------------------------------------

  /** The stage of a task that was admitted and has not given its place back. */
  predicate Holds(s: Stage, ip: Ip) {
    (s.InHandshake? || s.InUpgrade? || s.InSession? || s.Leaving?) && s.ip == ip
  }

  function Holders(tasks: map<Task, Stage>, ip: Ip): set<Task> {
    set t | t in tasks && Holds(tasks[t], ip)
  }

  function CountOf(counts: map<Ip, int>, ip: Ip): int {
    if ip in counts then counts[ip] else 0
  }

  /** The count of an address is the number of its holders and never exceeds the limit. */
  predicate CountsExact(w: World, ip: Ip) {
    CountOf(w.counts, ip) == |Holders(w.tasks, ip)| <= w.limit
  }

  ghost predicate Inv(w: World) {
    && (forall ip {:trigger CountsExact(w, ip)} :: CountsExact(w, ip))
    && (w.limit > 0 ==> forall ip :: ip in w.counts ==> w.counts[ip] > 0)
  }

  /** Moving one task changes the holders of an address by that task only. */
  lemma HoldersAfter(tasks: map<Task, Stage>, task: Task, s: Stage, ip: Ip)
    ensures var was := task in tasks && Holds(tasks[task], ip);
            |Holders(tasks[task := s], ip)|
            == |Holders(tasks, ip)| - (if was then 1 else 0) + (if Holds(s, ip) then 1 else 0)
  {
    hide Holds;
    var a, b := Holders(tasks, ip), Holders(tasks[task := s], ip);
    assert a - {task} == b - {task};
    assert task in a ==> |a - {task}| == |a| - 1;
    assert task in b ==> |b - {task}| == |b| - 1;
    assert task !in a ==> a - {task} == a;
    assert task !in b ==> b - {task} == b;
  }

  /** A task that holds a place is counted, so giving the place back cannot underflow. */
  lemma HolderIsCounted(w: World, task: Task, ip: Ip)
    requires Inv(w) && task in w.tasks && Holds(w.tasks[task], ip)
    ensures ip in w.counts && w.counts[ip] >= 1
  {
    assert task in Holders(w.tasks, ip);
    assert CountsExact(w, ip);
  }

  lemma MoveKeepsCounts(w: World, m: Move, ip: Ip)
    requires Inv(w)
    ensures CountsExact(Apply(w, m), ip)
  {
    hide Holders;
    assert CountsExact(w, ip);
    HoldersAfter(w.tasks, m.task, if m.task in Apply(w, m).tasks then Apply(w, m).tasks[m.task] else Gone, ip);
    if m.TakeLock? && m.task in w.tasks && w.tasks[m.task].Leaving? {
      HolderIsCounted(w, m.task, w.tasks[m.task].ip);
    }
  }

  lemma MoveKeepsInv(w: World, m: Move)
    requires Inv(w)
    ensures Inv(Apply(w, m))
  {
    hide CountsExact;
    forall ip
      ensures CountsExact(Apply(w, m), ip)
    {
      MoveKeepsCounts(w, m, ip);
    }
    if m.TakeLock? && m.task in w.tasks && w.tasks[m.task].Leaving? {
      HolderIsCounted(w, m.task, w.tasks[m.task].ip);
    }
  }

  function NewWorld(limit: u32): World {
    World(map[], limit, map[])
  }

  /** What holds of one address: an exact count within the limit, and an entry exactly when it is positive. */
  ghost predicate Tracked(w: World, ip: Ip) {
    && CountOf(w.counts, ip) == |Holders(w.tasks, ip)|
    && 0 <= CountOf(w.counts, ip) <= w.limit
    && (w.limit > 0 ==> (ip in w.counts <==> Holders(w.tasks, ip) != {}))
  }

  lemma {:induction false} RunKeepsInv(limit: u32, moves: seq<Move>)
    ensures Inv(Exec(NewWorld(limit), moves)) && Exec(NewWorld(limit), moves).limit == limit
  {
    hide Apply;
    if moves == [] {
      assert forall ip :: Holders(map[], ip) == {};
    } else {
      RunKeepsInv(limit, moves[..|moves| - 1]);
      MoveKeepsInv(Exec(NewWorld(limit), moves[..|moves| - 1]), moves[|moves| - 1]);
      MoveKeepsLimit(Exec(NewWorld(limit), moves[..|moves| - 1]), moves[|moves| - 1]);
    }
  }

  lemma MoveKeepsLimit(w: World, m: Move)
    ensures Apply(w, m).limit == w.limit
  {
  }

  /** In every interleaving of connection tasks, every address is tracked exactly. */
  lemma TrackerIsExact(limit: u32, moves: seq<Move>, ip: Ip)
    ensures Tracked(Exec(NewWorld(limit), moves), ip)
  {
    hide Exec;
    RunKeepsInv(limit, moves);
    var w := Exec(NewWorld(limit), moves);
    assert CountsExact(w, ip);
  }

  /** In every interleaving a task is admitted if and only if its address holds fewer places than the limit. */
  lemma AdmittedIffRoom(limit: u32, moves: seq<Move>, task: Task)
    requires var w := Exec(NewWorld(limit), moves); task in w.tasks && w.tasks[task].Arrived?
    ensures var w := Exec(NewWorld(limit), moves);
            var ip := w.tasks[task].ip;
            Apply(w, TakeLock(task)).tasks[task]
            == if |Holders(w.tasks, ip)| < limit then InHandshake(ip) else Gone
  {
    hide Exec, Holders;
    RunKeepsInv(limit, moves);
    var w := Exec(NewWorld(limit), moves);
    assert CountsExact(w, w.tasks[task].ip);
  }

  /** No release ever takes a count below zero, in any interleaving. */
  lemma ReleaseNeverUnderflows(limit: u32, moves: seq<Move>, task: Task)
    requires var w := Exec(NewWorld(limit), moves); task in w.tasks && w.tasks[task].Leaving?
    ensures var w := Exec(NewWorld(limit), moves);
            w.tasks[task].ip in w.counts && w.counts[w.tasks[task].ip] >= 1
  {
    hide Exec, Inv;
    RunKeepsInv(limit, moves);
    var w := Exec(NewWorld(limit), moves);
    HolderIsCounted(w, task, w.tasks[task].ip);
  }

  /** With a limit of zero the entry of an address that was turned away stays behind. */
  lemma ZeroLimitLeavesEntry(ip: Ip)
    ensures var w := Exec(NewWorld(0), [Arrive(0, ip), TakeLock(0)]);
            ip in w.counts && Holders(w.tasks, ip) == {}
  {
    var moves := [Arrive(0, ip), TakeLock(0)];
    assert moves[..1] == [Arrive(0, ip)] && [Arrive(0, ip)][..0] == [];
    var w1 := Apply(NewWorld(0), Arrive(0, ip));
    assert Exec(NewWorld(0), moves[..1]) == w1;
    var w2 := Apply(w1, TakeLock(0));
    assert w2.tasks == map[0 := Gone];
    assert Exec(NewWorld(0), moves) == w2;
  }
}
