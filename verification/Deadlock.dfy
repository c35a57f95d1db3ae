/** The wait-for graph scan of ResourceManager::detectDeadlock. */
module Deadlock {

  import opened Common

  datatype Thread = NoThread | Thread(tid: Tid)

  datatype PreemptionPolicy = NoPreemption | Notify | ForcePreempt | PriorityBased

  const MAX_DEPTH := 32

  /** The wait-for graph: who holds each resource, and what each waiting thread waits for. */
  datatype Waits = Waits(owner: map<string, Tid>, wait: map<Tid, string>)

  /** The thread that t waits for. */
  function Successor(g: Waits, t: Tid): Thread {
    if t in g.wait && g.wait[t] in g.owner then Thread(g.owner[g.wait[t]]) else NoThread
  }

  /** The thread n wait-for edges away from t. */
  function Ahead(g: Waits, t: Tid, n: nat): Thread {
    if n == 0 then Thread(t)
    else
      var p := Ahead(g, t, n - 1);
      if p.NoThread? then NoThread else Successor(g, p.tid)
  }

  /** t lies on a cycle of exactly n threads. */
  ghost predicate Cycle(g: Waits, t: Tid, n: nat) {
    && n > 0
    && Ahead(g, t, n) == Thread(t)
    && forall m :: 0 < m < n ==> Ahead(g, t, m) != Thread(t)
  }

  /** t lies on a cycle of 2 to 33 threads. */
  ghost predicate Deadlocked(g: Waits, t: Tid) {
    exists n :: 2 <= n <= MAX_DEPTH + 1 && Cycle(g, t, n)
  }

  // ---------------------------------------------------------------- walks

  lemma {:induction false} AheadPlus(g: Waits, t: Tid, m: nat, n: nat)
    requires Ahead(g, t, m).Thread?
    ensures Ahead(g, t, m + n) == Ahead(g, Ahead(g, t, m).tid, n)
  {
    if n > 0 {
      AheadPlus(g, t, m, n - 1);
    }
  }

  lemma {:induction false} AheadStops(g: Waits, t: Tid, m: nat, n: nat)
    requires m <= n && Ahead(g, t, m).NoThread?
    ensures Ahead(g, t, n).NoThread?
    decreases n - m
  {
    if m < n {
      AheadStops(g, t, m + 1, n);
    }
  }

  /** The next thread of a cycle lies on a cycle of the same size. */
  lemma CycleNext(g: Waits, t: Tid, n: nat)
    requires Cycle(g, t, n)
    ensures Ahead(g, t, 1).Thread? && Cycle(g, Ahead(g, t, 1).tid, n)
  {
    if Ahead(g, t, 1).NoThread? {
      AheadStops(g, t, 1, n);
      assert false;
    }
    var u := Ahead(g, t, 1).tid;
    AheadPlus(g, t, 1, n - 1);
    AheadPlus(g, t, n, 1);
    AheadPlus(g, t, 1, n);
    assert Ahead(g, u, n) == Ahead(g, t, n + 1) == Ahead(g, t, 1);
    assert Ahead(g, u, n - 1) == Thread(t);
    forall m | 0 < m < n
      ensures Ahead(g, u, m) != Thread(u)
    {
      if Ahead(g, u, m) == Thread(u) {
        AheadPlus(g, u, n - 1, m);
        AheadPlus(g, u, m, n - 1);
        assert false;
      }
    }
  }

  lemma {:induction false} CycleAhead(g: Waits, t: Tid, n: nat, m: nat)
    requires Cycle(g, t, n)
    ensures Ahead(g, t, m).Thread? && Cycle(g, Ahead(g, t, m).tid, n)
  {
    if m > 0 {
      CycleAhead(g, t, n, m - 1);
      var u := Ahead(g, t, m - 1).tid;
      CycleNext(g, u, n);
      AheadPlus(g, t, m - 1, 1);
    }
  }

  // ---------------------------------------------------------------- cycles as lists of threads

  /** The thread after the i-th one of a closed chain. */
  function Following(c: seq<Tid>, i: nat): Tid
    requires i < |c|
  {
    if i + 1 == |c| then c[0] else c[i + 1]
  }

  /** The threads of c are distinct and each waits for the next, the last for the first. */
  ghost predicate Loop(g: Waits, c: seq<Tid>) {
    c != [] && Distinct(c) && forall i :: 0 <= i < |c| ==> Successor(g, c[i]) == Thread(Following(c, i))
  }

  lemma {:induction false} AheadOnLoop(g: Waits, c: seq<Tid>, m: nat)
    requires m < |c| && forall i :: 0 <= i < m ==> Successor(g, c[i]) == Thread(Following(c, i))
    ensures Ahead(g, c[0], m) == Thread(c[m])
  {
    if m > 0 {
      AheadOnLoop(g, c, m - 1);
    }
  }

  lemma LoopCycle(g: Waits, c: seq<Tid>)
    requires Loop(g, c)
    ensures Cycle(g, c[0], |c|)
  {
    hide Successor;
    forall m | 0 <= m < |c|
      ensures Ahead(g, c[0], m) == Thread(c[m])
    {
      AheadOnLoop(g, c, m);
    }
    assert Ahead(g, c[0], |c|) == Successor(g, c[|c| - 1]);
  }

  /** The threads of a cycle, in order. */
  lemma CycleLoop(g: Waits, t: Tid, n: nat) returns (c: seq<Tid>)
    requires Cycle(g, t, n)
    ensures Loop(g, c) && c[0] == t && |c| == n
    ensures forall m :: 0 <= m < n ==> Ahead(g, t, m) == Thread(c[m])
  {
    forall m: nat
      ensures Ahead(g, t, m).Thread?
    {
      CycleAhead(g, t, n, m);
    }
    c := seq(n, m requires 0 <= m < n => Ahead(g, t, m).tid);
    CycleDistinct(g, t, n, c);
    forall i | 0 <= i < n
      ensures Successor(g, c[i]) == Thread(Following(c, i))
    {
      assert Ahead(g, t, i + 1) == Successor(g, c[i]);
    }
  }

  lemma CycleDistinct(g: Waits, t: Tid, n: nat, c: seq<Tid>)
    requires Cycle(g, t, n) && |c| == n && forall m :: 0 <= m < n ==> Ahead(g, t, m) == Thread(c[m])
    ensures Distinct(c)
  {
    hide Successor;
    forall i, j | 0 <= i < j < n
      ensures c[i] != c[j]
    {
      CycleAhead(g, t, n, i);
      AheadPlus(g, t, i, j - i);
    }
  }

  // ---------------------------------------------------------------- removing wait records

  predicate SubWaits(h: Waits, g: Waits) {
    h.owner == g.owner && forall t :: t in h.wait ==> t in g.wait && g.wait[t] == h.wait[t]
  }

  lemma {:induction false} AheadSub(h: Waits, g: Waits, t: Tid, n: nat)
    requires SubWaits(h, g) && Ahead(h, t, n).Thread?
    ensures Ahead(g, t, n) == Ahead(h, t, n)
  {
    if n > 0 {
      AheadSub(h, g, t, n - 1);
    }
  }

  lemma CycleSub(h: Waits, g: Waits, t: Tid, n: nat)
    requires SubWaits(h, g) && Cycle(h, t, n)
    ensures Cycle(g, t, n)
  {
    AheadSub(h, g, t, n);
    forall m | 0 < m < n
      ensures Ahead(g, t, m) != Thread(t)
    {
      CycleAhead(h, t, n, m);
      AheadSub(h, g, t, m);
    }
  }

  lemma DeadlockedSub(h: Waits, g: Waits, t: Tid)
    requires SubWaits(h, g) && Deadlocked(h, t)
    ensures Deadlocked(g, t)
  {
    var n :| 2 <= n <= MAX_DEPTH + 1 && Cycle(h, t, n);
    CycleSub(h, g, t, n);
  }

  /** A cycle survives when none of its threads lost its wait record. */
  lemma {:induction false} AheadKept(h: Waits, g: Waits, t: Tid, n: nat)
    requires SubWaits(h, g)
    requires forall m :: 0 <= m < n ==> Ahead(g, t, m).Thread? && Ahead(g, t, m).tid in h.wait
    ensures Ahead(h, t, n) == Ahead(g, t, n)
  {
    if n > 0 {
      AheadKept(h, g, t, n - 1);
      assert Ahead(g, t, n - 1).tid in h.wait;
    }
  }

  lemma CycleKept(h: Waits, g: Waits, t: Tid, n: nat)
    requires SubWaits(h, g) && Cycle(g, t, n)
    requires forall m :: 0 <= m < n ==> Ahead(g, t, m).Thread? && Ahead(g, t, m).tid in h.wait
    ensures Cycle(h, t, n)
  {
    forall m | 0 < m <= n
      ensures Ahead(h, t, m) == Ahead(g, t, m)
    {
      AheadKept(h, g, t, m);
    }
  }

  lemma CycleUnique(g: Waits, t: Tid, n: nat, m: nat)
    requires Cycle(g, t, n) && Cycle(g, t, m)
    ensures n == m
  {
  }

  function Without(g: Waits, t: Tid): Waits {
    g.(wait := g.wait - {t})
  }

  /** Dropping the record of the last thread of w's cycle takes w off every cycle. */
  lemma CycleBroken(g: Waits, w: Tid, n: nat, r: Tid)
    requires 2 <= n && Cycle(g, w, n) && Ahead(g, w, n - 1) == Thread(r)
    ensures !Deadlocked(Without(g, r), w)
  {
    var h := Without(g, r);
    assert Successor(h, r) == NoThread;
    forall m: nat | Cycle(h, w, m)
      ensures false
    {
      CycleSub(h, g, w, m);
      CycleUnique(g, w, n, m);
      CycleAhead(h, w, m, m - 1);
      AheadSub(h, g, w, m - 1);
    }
  }

  // ---------------------------------------------------------------- the scan

  /** Follows the wait chain of waiter; a found cycle is returned as its size and its last thread. */
  method Scan(g: Waits, waiter: Tid) returns (found: bool, last: Tid, ghost n: nat)
    ensures found <==> Deadlocked(g, waiter)
    ensures found ==> 2 <= n <= MAX_DEPTH + 1 && Cycle(g, waiter, n) && Ahead(g, waiter, n - 1) == Thread(last)
  {
    last, n := waiter, 0;
    if waiter !in g.wait || g.wait[waiter] !in g.owner {
      NotOn(g, waiter, 1);
      return false, last, n;
    }
    var currentTid := g.owner[g.wait[waiter]];
    assert Ahead(g, waiter, 1) == Thread(currentTid) by { assert Ahead(g, waiter, 0) == Thread(waiter); }
    if currentTid == waiter {
      assert Cycle(g, waiter, 1);
      forall m: nat | Cycle(g, waiter, m)
        ensures m == 1
      {
        CycleUnique(g, waiter, 1, m);
      }
      return false, last, n;
    }
    var depth := 0;
    while depth < MAX_DEPTH
      invariant 0 <= depth <= MAX_DEPTH
      invariant Ahead(g, waiter, depth + 1) == Thread(currentTid)
      invariant forall m :: 0 < m <= depth + 1 ==> Ahead(g, waiter, m) != Thread(waiter)
    {
      if currentTid !in g.wait || g.wait[currentTid] !in g.owner {
        NotOn(g, waiter, depth + 2);
        return false, last, n;
      }
      var holder := g.owner[g.wait[currentTid]];
      assert Ahead(g, waiter, depth + 2) == Thread(holder);
      if holder == waiter {
        n := depth + 2;
        assert Cycle(g, waiter, n);
        return true, currentTid, n;
      }
      currentTid := holder;
      depth := depth + 1;
    }
    found := false;
  }

  lemma NotOn(g: Waits, t: Tid, n: nat)
    requires n > 0 && Ahead(g, t, n).NoThread?
    requires forall m :: 0 < m < n ==> Ahead(g, t, m) != Thread(t)
    ensures !Deadlocked(g, t)
  {
    forall m: nat | Cycle(g, t, m)
      ensures false
    {
      if m >= n { AheadStops(g, t, n, m); }
    }
  }

  /** removed is what g lost of g0: threads of cycles, no two of the same cycle. */
  ghost predicate Dropped(g0: Waits, g: Waits, removed: set<Tid>) {
    && SubWaits(g, g0)
    && removed == g0.wait.Keys - g.wait.Keys
    && (forall t :: t in removed ==> Deadlocked(g0, t))
    && Apart(g0, removed)
  }

  ghost predicate Apart(g0: Waits, removed: set<Tid>) {
    forall r, t, n :: r in removed && t in removed && r != t && 0 <= n ==> Ahead(g0, r, n) != Thread(t)
  }

  ghost predicate Cleared(g: Waits, todo: set<Tid>) {
    forall t :: t in g.wait && t !in todo ==> !Deadlocked(g, t)
  }

  /** Every cycle of 2 to 33 threads loses exactly one wait record and no other record is lost. */
  ghost predicate OnePerCycle(g0: Waits, removed: set<Tid>) {
    && (forall t :: t in removed ==> Deadlocked(g0, t))
    && Apart(g0, removed)
    && (forall t :: Deadlocked(g0, t) ==>
        exists n :: 0 <= n <= MAX_DEPTH && Ahead(g0, t, n).Thread? && Ahead(g0, t, n).tid in removed)
  }

  /** On a cycle every thread waits. */
  lemma CycleWaits(g: Waits, t: Tid, n: nat, m: nat)
    requires Cycle(g, t, n)
    ensures Ahead(g, t, m).Thread? && Ahead(g, t, m).tid in g.wait
  {
    CycleAhead(g, t, n, m);
    CycleNext(g, Ahead(g, t, m).tid, n);
    assert Ahead(g, Ahead(g, t, m).tid, 0) == Ahead(g, t, m);
  }

  lemma {:induction false} CycleReturn(g: Waits, t: Tid, n: nat, m: nat) returns (k: nat)
    requires Cycle(g, t, n)
    ensures Ahead(g, t, m).Thread? && Ahead(g, Ahead(g, t, m).tid, k) == Thread(t)
  {
    if m == 0 {
      k := 0;
    } else {
      var k' := CycleReturn(g, t, n, m - 1);
      CycleAhead(g, t, n, m - 1);
      var u := Ahead(g, t, m - 1).tid;
      CycleNext(g, u, n);
      AheadPlus(g, t, m - 1, 1);
      var v := Ahead(g, u, 1).tid;
      AheadPlus(g, u, 1, n - 1);
      AheadPlus(g, v, n - 1, k');
      k := n - 1 + k';
    }
  }

  lemma DropApart(g0: Waits, g: Waits, removed: set<Tid>, n: nat, last: Tid)
    requires Dropped(g0, g, removed) && Cycle(g, last, n)
    ensures Apart(g0, removed + {last})
  {
    forall m: nat
      ensures Ahead(g0, last, m).Thread? && Ahead(g0, last, m).tid !in removed
    {
      CycleWaits(g, last, n, m);
      AheadSub(g, g0, last, m);
    }
    forall r, m: nat | r in removed
      ensures Ahead(g0, r, m) != Thread(last)
    {
      if Ahead(g0, r, m) == Thread(last) {
        var n' :| 2 <= n' <= MAX_DEPTH + 1 && Cycle(g0, r, n');
        var k := CycleReturn(g0, r, n', m);
      }
    }
  }

  lemma DropLast(g0: Waits, g: Waits, waiter: Tid, n: nat, last: Tid, todo: set<Tid>, removed: set<Tid>)
    requires Dropped(g0, g, removed) && Cleared(g, todo + {waiter})
    requires 2 <= n <= MAX_DEPTH + 1 && Cycle(g, waiter, n) && Ahead(g, waiter, n - 1) == Thread(last)
    ensures Dropped(g0, Without(g, last), removed + {last})
    ensures Cleared(Without(g, last), todo - {last})
  {
    var h := Without(g, last);
    CycleAhead(g, waiter, n, n - 1);
    CycleWaits(g, waiter, n, n - 1);
    DropApart(g0, g, removed, n, last);
    assert Deadlocked(g, last);
    DeadlockedSub(g, g0, last);
    CycleBroken(g, waiter, n, last);
    assert g0.wait.Keys - h.wait.Keys == removed + {last};
    hide Cycle;
    forall t | t in h.wait && t !in todo - {last}
      ensures !Deadlocked(h, t)
    {
      if t != waiter && Deadlocked(h, t) {
        DeadlockedSub(h, g, t);
      }
    }
  }

  /** When no cycle is left, every cycle has lost a record. */
  lemma CyclesCut(g0: Waits, g: Waits, removed: set<Tid>)
    requires Dropped(g0, g, removed) && forall t :: !Deadlocked(g, t)
    ensures OnePerCycle(g0, removed)
  {
    forall t | Deadlocked(g0, t)
      ensures exists n :: 0 <= n <= MAX_DEPTH && Ahead(g0, t, n).Thread? && Ahead(g0, t, n).tid in removed
    {
      var n :| 2 <= n <= MAX_DEPTH + 1 && Cycle(g0, t, n);
      forall m | 0 <= m < n
        ensures Ahead(g0, t, m).Thread? && Ahead(g0, t, m).tid in g0.wait
      {
        CycleWaits(g0, t, n, m);
      }
      assert !Deadlocked(g, t);
      if forall m :: 0 <= m < n ==> Ahead(g0, t, m).tid in g.wait {
        CycleKept(g, g0, t, n);
      }
    }
  }

  lemma OnlyWaitersDeadlock(g: Waits, t: Tid)
    requires t !in g.wait || g.wait[t] !in g.owner
    ensures !Deadlocked(g, t)
  {
    assert Ahead(g, t, 0) == Thread(t);
    NotOn(g, t, 1);
  }

  /** Reports the waiting threads found on a cycle; under ForcePreempt the last thread of each found
      cycle loses its wait record while the scan goes on. The map may be enumerated in any order. */
  method DetectDeadlock(g0: Waits, policy: PreemptionPolicy) returns (wait: map<Tid, string>, reported: set<Tid>)
    ensures policy != ForcePreempt ==> wait == g0.wait && forall t :: t in reported <==> Deadlocked(g0, t)
    ensures policy == ForcePreempt ==>
      (SubWaits(Waits(g0.owner, wait), g0)
       && OnePerCycle(g0, g0.wait.Keys - wait.Keys)
       && (forall t :: !Deadlocked(Waits(g0.owner, wait), t))
       && (forall t :: t in reported ==> Deadlocked(g0, t)))
  {
    wait, reported := g0.wait, {};
    ghost var removed: set<Tid> := {};
    assert Waits(g0.owner, wait) == g0;
    if |g0.owner| == 0 || |g0.wait| == 0 {
      forall t
        ensures !Deadlocked(g0, t)
      {
        OnlyWaitersDeadlock(g0, t);
      }
      CyclesCut(g0, g0, removed);
      assert g0.wait.Keys - wait.Keys == removed;
      return;
    }
    var todo := wait.Keys;
    hide Deadlocked, Cycle;
    while todo != {}
      invariant todo <= wait.Keys
      invariant Dropped(g0, Waits(g0.owner, wait), removed)
      invariant policy == ForcePreempt ==> Cleared(Waits(g0.owner, wait), todo)
      invariant forall t :: t in reported ==> Deadlocked(g0, t)
      invariant policy != ForcePreempt ==> wait == g0.wait && forall t :: t in wait && t !in todo ==>
          (t in reported <==> Deadlocked(g0, t))
      decreases todo
    {
      var waiter :| waiter in todo;
      todo := todo - {waiter};
      var g := Waits(g0.owner, wait);
      var found, last, n := Scan(g, waiter);
      if found {
        DeadlockedSub(g, g0, waiter);
        reported := reported + {waiter};
        if policy == ForcePreempt {
          DropLast(g0, g, waiter, n, last, todo, removed);
          wait := wait - {last};
          todo := todo - {last};
          removed := removed + {last};
        }
      }
    }
    var g := Waits(g0.owner, wait);
    forall t | t !in wait
      ensures !Deadlocked(g, t)
    {
      OnlyWaitersDeadlock(g, t);
    }
    if policy == ForcePreempt {
      CyclesCut(g0, g, removed);
    }
  }
}
