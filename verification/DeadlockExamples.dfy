/** Reachable deadlocks: rings of any size, which the detector sees up to 33 threads; deadlocks through shared grants,
    which it never sees; and deadlocks that outlast a preemption. */
module DeadlockExamples {
  import opened Common
  import opened Leases
  import opened Deadlock
  import opened GenuineDeadlocks

  // ---------------------------------------------------------------- runs that never spoil the records

  lemma {:induction false} SpoilsConcat(s: State, a: seq<Section>, b: seq<Section>)
    requires NeverSpoils(s, a) && NeverSpoils(Run(s, a), b)
    ensures NeverSpoils(s, a + b)
    decreases |a|
  {
    hide Next, Spoils;
    if a == [] {
      assert a + b == b;
    } else {
      assert (a + b)[1..] == a[1..] + b;
      SpoilsConcat(Next(s, a[0]), a[1..], b);
    }
  }

  /** As long as nobody waits, nothing is spoilt. */
  lemma {:induction false} NobodyWaits(s: State, run: seq<Section>)
    requires s.waitMap == map[] && s.blocked == map[]
    requires forall i :: 0 <= i < |run| ==> !run[i].StartWaiting?
    ensures NeverSpoils(s, run) && Run(s, run).waitMap == map[] && Run(s, run).blocked == map[]
    decreases |run|
  {
    if run != [] {
      WaitsAfter(s, run[0]);
      hide Next;
      assert !Spoils(s, run[0]);
      NobodyWaits(Next(s, run[0]), run[1..]);
    }
  }

  /** Waiting spoils nothing and moves no grant. */
  lemma {:induction false} AllWaiting(s: State, run: seq<Section>)
    requires forall i :: 0 <= i < |run| ==> run[i].StartWaiting?
    ensures NeverSpoils(s, run)
    ensures Run(s, run).holders == s.holders && Run(s, run).ownerMap == s.ownerMap && Run(s, run).entries == s.entries
    decreases |run|
  {
    if run != [] {
      AllWaiting(Next(s, run[0]), run[1..]);
    }
  }

  // ---------------------------------------------------------------- rings of exclusively held resources

  /** The i-th resource of a ring. */
  function Name(i: nat): (name: string)
    ensures |name| == i
  {
    seq(i, _ => 'R')
  }

  /** Every thread takes its resource. */
  function TakeAll(n: nat): seq<Section> {
    if n == 0 then []
    else TakeAll(n - 1) + [Register(Name(n - 1)), TryGrant(n - 1, Name(n - 1), Exclusive), RecordLease(n - 1)]
  }

  function After(n: nat, i: nat): nat { if i + 1 == n then 0 else i + 1 }

  /** The first k threads wait for the resource of the next one. */
  function WaitAll(n: nat, k: nat): seq<Section> {
    if k == 0 then [] else WaitAll(n, k - 1) + [StartWaiting(k - 1, Name(After(n, k - 1)), Exclusive)]
  }

  function RingRun(n: nat): seq<Section> { TakeAll(n) + WaitAll(n, n) }

  function Ring(n: nat): seq<Tid> { seq(n, i => i) }

  /** The first n threads hold their resources, and nobody is inside acquire. */
  ghost predicate Taken(s: State, n: nat) {
    && (forall i: nat :: i < n ==> Name(i) in s.ownerMap && s.ownerMap[Name(i)] == i)
    && (forall i: nat :: n <= i ==> Name(i) !in s.entries)
    && (forall t :: Acquiring(t) !in s.holders)
  }

  lemma TakeNext(s: State, n: nat)
    requires Taken(s, n)
    ensures Taken(Run(s, [Register(Name(n)), TryGrant(n, Name(n), Exclusive), RecordLease(n)]), n + 1)
  {
    var s1 := Next(s, Register(Name(n)));
    assert s1 == s.(entries := s.entries[Name(n) := Entry(Closed, 0, false)]);
    var s3 := Next(Next(s1, TryGrant(n, Name(n), Exclusive)), RecordLease(n));
    TakeGrant(s1, n);
    RunThree(s, [Register(Name(n)), TryGrant(n, Name(n), Exclusive), RecordLease(n)]);
    hide Next;
    assert Taken(s3, n + 1);
  }

  lemma TakeGrant(s: State, n: nat)
    requires Name(n) in s.entries && s.entries[Name(n)] == Entry(Closed, 0, false)
    requires forall t :: Acquiring(t) !in s.holders
    ensures var s' := Next(Next(s, TryGrant(n, Name(n), Exclusive)), RecordLease(n));
      && s'.ownerMap == s.ownerMap[Name(n) := n] && s'.entries.Keys == s.entries.Keys
      && forall t :: Acquiring(t) !in s'.holders
  {
    var s2 := Next(s, TryGrant(n, Name(n), Exclusive));
    assert s2 == Granted(s, n, Name(n), Exclusive);
    assert Next(s2, RecordLease(n)) == Recorded(s2, n);
  }

  lemma {:induction false} TakenAll(n: nat)
    ensures Taken(Run(INITIAL, TakeAll(n)), n)
    ensures forall i :: 0 <= i < |TakeAll(n)| ==> !TakeAll(n)[i].StartWaiting? && !TakeAll(n)[i].Preempt?
  {
    if n > 0 {
      TakenAll(n - 1);
      var more := [Register(Name(n - 1)), TryGrant(n - 1, Name(n - 1), Exclusive), RecordLease(n - 1)];
      TakeNext(Run(INITIAL, TakeAll(n - 1)), n - 1);
      RunConcat(INITIAL, TakeAll(n - 1), more);
    }
  }

  /** Exactly the first k threads wait, each for the resource of the next one. */
  ghost predicate Waiting(s: State, n: nat, k: nat) {
    && (forall t: nat :: t in s.blocked <==> t < k)
    && (forall t: nat :: t in s.waitMap <==> t < k)
    && forall t: nat :: t in s.blocked ==> s.blocked[t] == Want(Name(After(n, t)), Exclusive)
  }

  lemma WaitNext(s: State, n: nat, k: nat)
    requires Inv(s) && Taken(s, n) && Waiting(s, n, k) && k < n
    ensures Waiting(Next(s, StartWaiting(k, Name(After(n, k)), Exclusive)), n, k + 1)
  {
    hide Tables, Accounted;
    var a := StartWaiting(k, Name(After(n, k)), Exclusive);
    assert Queueing(s, a);
    QueueWaits(s, a);
  }

  lemma {:induction false} WaitingAll(s: State, n: nat, k: nat)
    requires Inv(s) && Taken(s, n) && Waiting(s, n, 0) && k <= n
    ensures Waiting(Run(s, WaitAll(n, k)), n, k) && Taken(Run(s, WaitAll(n, k)), n)
    ensures forall i :: 0 <= i < |WaitAll(n, k)| ==> WaitAll(n, k)[i].StartWaiting?
  {
    hide Inv, Taken, Run, Next, Name, After;
    if k > 0 {
      WaitingAll(s, n, k - 1);
      RunInv(s, WaitAll(n, k - 1));
      WaitNext(Run(s, WaitAll(n, k - 1)), n, k - 1);
      hide Waiting;
      RunSnoc(s, WaitAll(n, k - 1), StartWaiting(k - 1, Name(After(n, k - 1)), Exclusive));
      AllWaiting(s, WaitAll(n, k));
      StillTaken(s, Run(s, WaitAll(n, k)), n);
    } else {
      assert Run(s, []) == s by { RunNothing(s); }
    }
  }

  lemma RunNothing(s: State)
    ensures Run(s, []) == s
  {
  }

  lemma StillTaken(s: State, s': State, n: nat)
    requires Taken(s, n) && s'.holders == s.holders && s'.ownerMap == s.ownerMap && s'.entries == s.entries
    ensures Taken(s', n)
  {
  }

  lemma RingReached(n: nat) returns (s: State)
    ensures s == Run(INITIAL, RingRun(n)) && Taken(s, n) && Waiting(s, n, n)
    ensures NeverSpoils(INITIAL, RingRun(n)) && NeverUncovers(INITIAL, RingRun(n))
  {
    hide Taken, Inv, NeverSpoils, NeverUncovers, Run, Next;
    s := Run(INITIAL, TakeAll(n));
    TakenAll(n);
    NobodyWaits(INITIAL, TakeAll(n));
    ReachedByRun(TakeAll(n));
    assert Waiting(s, n, 0);
    WaitingAll(s, n, n);
    AllWaiting(s, WaitAll(n, n));
    SpoilsConcat(INITIAL, TakeAll(n), WaitAll(n, n));
    RunConcat(INITIAL, TakeAll(n), WaitAll(n, n));
    s := Run(s, WaitAll(n, n));
    UnpreemptedRun(INITIAL, RingRun(n));
  }

  lemma RingIsReal(s: State, n: nat)
    requires Inv(s) && Agree(s) && n > 0 && Taken(s, n) && Waiting(s, n, n)
    ensures RealCycle(s, Ring(n)) && Loop(OnRecord(s), Ring(n))
  {
    hide Inv, Agree, WaitsFor, Successor;
    var c := Ring(n);
    forall i | 0 <= i < n
      ensures WaitsFor(s, c[i], Following(c, i)) && Successor(OnRecord(s), c[i]) == Thread(Following(c, i))
    {
      OwnerInTheWay(s, i);
      RecordedEdge(s, i, Following(c, i));
    }
  }

  lemma RingDeadlocked(s: State, n: nat, t: Tid)
    requires n > 0 && Waiting(s, n, n) && Loop(OnRecord(s), Ring(n))
    ensures Deadlocked(OnRecord(s), t) <==> t < n && 2 <= n <= MAX_DEPTH + 1
  {
    if t < n {
      hide Loop, Cycle;
      RingAhead(s, n, t);
      if Deadlocked(OnRecord(s), t) {
        var k :| 2 <= k <= MAX_DEPTH + 1 && Cycle(OnRecord(s), t, k);
        CycleUnique(OnRecord(s), t, n, k);
      }
    } else {
      OnlyWaitersDeadlock(OnRecord(s), t);
    }
  }

  lemma RingFirst(s: State, n: nat)
    requires n > 0 && Loop(OnRecord(s), Ring(n))
    ensures Cycle(OnRecord(s), 0, n) && forall m :: 0 <= m < n ==> Ahead(OnRecord(s), 0, m) == Thread(m)
  {
    LoopCycle(OnRecord(s), Ring(n));
    hide Cycle, Successor, Ahead;
    forall m | 0 <= m < n
      ensures Ahead(OnRecord(s), 0, m) == Thread(m)
    {
      AheadOnLoop(OnRecord(s), Ring(n), m);
    }
  }

  lemma RingAhead(s: State, n: nat, t: Tid)
    requires t < n && Loop(OnRecord(s), Ring(n))
    ensures Cycle(OnRecord(s), t, n) && Ahead(OnRecord(s), t, n - 1 - t) == Thread(n - 1)
  {
    hide Loop, Cycle, Ahead;
    RingFirst(s, n);
    CycleAhead(OnRecord(s), 0, n, t);
    AheadPlus(OnRecord(s), 0, t, n - 1 - t);
  }

  /** For any number of threads there is a run into a deadlock of them all, without a preemption and without a spoilt
      record. The detector reports them exactly when they are 2 to 33. */
  lemma RingSeenIff(n: nat)
    requires n > 0
    ensures NeverSpoils(INITIAL, RingRun(n)) && NeverUncovers(INITIAL, RingRun(n))
    ensures RealCycle(Run(INITIAL, RingRun(n)), Ring(n))
    ensures forall t: Tid :: Deadlocked(OnRecord(Run(INITIAL, RingRun(n))), t) <==> t < n && 2 <= n <= 33
  {
    hide Run, NeverSpoils, NeverUncovers, Deadlocked, RealCycle, Loop, Waiting;
    var s := RingReached(n);
    ReachedByRun(RingRun(n));
    RingIsReal(s, n);
    forall t: Tid
      ensures Deadlocked(OnRecord(s), t) <==> t < n && 2 <= n <= MAX_DEPTH + 1
    {
      RingDeadlocked(s, n, t);
    }
  }

  /** A reachable deadlock of any size the detector sees is still there when one record was erased by preemption, and
      then it is on record no more. */
  lemma PreemptedRing(n: nat)
    requires 2 <= n <= 33
    ensures var s := Run(INITIAL, RingRun(n) + [Preempt({n - 1})]);
      RealCycle(s, Ring(n)) && forall t: Tid :: !Deadlocked(OnRecord(s), t)
  {
    hide Run, Next, NeverSpoils, NeverUncovers, Deadlocked, RealCycle, Loop, Waiting;
    var s := RingReached(n);
    ReachedByRun(RingRun(n));
    RingIsReal(s, n);
    RunSnoc(INITIAL, RingRun(n), Preempt({n - 1}));
    var s' := Next(s, Preempt({n - 1}));
    PreemptionFreesNobody(s, {n - 1}, Ring(n));
    forall t: Tid
      ensures !Deadlocked(OnRecord(s'), t)
    {
      RingCut(s, n, t);
    }
  }

  lemma RingCut(s: State, n: nat, t: Tid)
    requires 2 <= n <= MAX_DEPTH + 1 && Waiting(s, n, n) && Loop(OnRecord(s), Ring(n))
    ensures !Deadlocked(OnRecord(Next(s, Preempt({n - 1}))), t)
  {
    var g := OnRecord(s);
    var h := OnRecord(Next(s, Preempt({n - 1})));
    assert h == Without(g, n - 1);
    if t < n {
      hide Next, Waiting, Loop, Cycle;
      RingAhead(s, n, t);
      CutOff(g, t, n - 1 - t, n - 1);
    } else {
      OnlyWaitersDeadlock(h, t);
    }
  }

  /** Without its record a thread ends every chain through it. */
  lemma CutOff(g: Waits, t: Tid, m: nat, r: Tid)
    requires Ahead(g, t, m) == Thread(r)
    ensures !Deadlocked(Without(g, r), t)
  {
    hide Ahead;
    var h := Without(g, r);
    if Deadlocked(h, t) {
      var n :| 2 <= n <= MAX_DEPTH + 1 && Cycle(h, t, n);
      CycleWaits(h, t, n, m);
      AheadSub(h, g, t, m);
    }
  }

  // ---------------------------------------------------------------- deadlocks through shared grants

  const REGISTER_BOTH := [Register("A"), Register("B")]
  const GRANT_BOTH := [TryGrant(1, "A", Shared), TryGrant(2, "B", Shared)]
  const RECORD_BOTH := [RecordLease(1), RecordLease(2)]
  const SHARE_BOTH := REGISTER_BOTH + GRANT_BOTH + RECORD_BOTH
  const WANT_BOTH := [StartWaiting(1, "B", Exclusive), StartWaiting(2, "A", Exclusive)]

  /** A and B are registered and shared by so many grants, and there are these grants, all of them shared. */
  predicate Sharing(s: State, count: nat, next: int, holders: map<Holder, Grant>) {
    && "A" in s.entries && s.entries["A"] == Entry(Closed, count, false)
    && "B" in s.entries && s.entries["B"] == Entry(Closed, count, false)
    && s.ownerMap == map[] && s.nextLeaseId == next && s.holders == holders
  }

  const ACQUIRING := map[Acquiring(1) := Grant("A", Shared, 1), Acquiring(2) := Grant("B", Shared, 2)]
  const LEASED := map[Leased(1) := Grant("A", Shared, 1), Leased(2) := Grant("B", Shared, 2)]

  lemma RegisterBoth()
    ensures Sharing(Run(INITIAL, REGISTER_BOTH), 0, 1, map[])
  {
    RunTwo(INITIAL, REGISTER_BOTH[0], REGISTER_BOTH[1]);
  }

  lemma GrantBoth(s: State)
    requires Sharing(s, 0, 1, map[])
    ensures Sharing(Run(s, GRANT_BOTH), 1, 1, ACQUIRING)
  {
    RunTwo(s, GRANT_BOTH[0], GRANT_BOTH[1]);
  }

  lemma RecordBoth(s: State)
    requires Sharing(s, 1, 1, ACQUIRING)
    ensures Sharing(Run(s, RECORD_BOTH), 1, 3, LEASED)
  {
    RunTwo(s, RECORD_BOTH[0], RECORD_BOTH[1]);
  }

  lemma ShareBoth()
    ensures Sharing(Run(INITIAL, SHARE_BOTH), 1, 3, LEASED)
  {
    hide Run, Sharing;
    RegisterBoth();
    var s := Run(INITIAL, REGISTER_BOTH);
    GrantBoth(s);
    RecordBoth(Run(s, GRANT_BOTH));
    RunConcat(INITIAL, REGISTER_BOTH, GRANT_BOTH);
    RunConcat(INITIAL, REGISTER_BOTH + GRANT_BOTH, RECORD_BOTH);
  }

  /** Two threads that hold a resource shared and want the other's exclusively are deadlocked, and no thread is
      reported: the detector does not know shared holders. */
  lemma SharedDeadlockUnseen()
    ensures NeverSpoils(INITIAL, SHARE_BOTH + WANT_BOTH) && NeverUncovers(INITIAL, SHARE_BOTH + WANT_BOTH)
    ensures RealCycle(Run(INITIAL, SHARE_BOTH + WANT_BOTH), [1, 2])
    ensures forall t: Tid :: !Deadlocked(OnRecord(Run(INITIAL, SHARE_BOTH + WANT_BOTH)), t)
  {
    UnpreemptedRun(INITIAL, SHARE_BOTH + WANT_BOTH);
    NobodyWaits(INITIAL, SHARE_BOTH);
    hide Inv, Run, Next, NeverSpoils, NeverUncovers, Deadlocked, RealCycle, Sharing;
    ShareBoth();
    var s := Run(INITIAL, SHARE_BOTH);
    AllWaiting(s, WANT_BOTH);
    SpoilsConcat(INITIAL, SHARE_BOTH, WANT_BOTH);
    RunConcat(INITIAL, SHARE_BOTH, WANT_BOTH);
    RunTwo(s, WANT_BOTH[0], WANT_BOTH[1]);
    var s' := Next(Next(s, WANT_BOTH[0]), WANT_BOTH[1]);
    assert WANT_BOTH == [WANT_BOTH[0], WANT_BOTH[1]];
    WantBoth(s);
  }

  lemma WantBoth(s: State)
    requires Sharing(s, 1, 3, LEASED)
    ensures var s' := Next(Next(s, WANT_BOTH[0]), WANT_BOTH[1]);
      RealCycle(s', [1, 2]) && forall t: Tid :: !Deadlocked(OnRecord(s'), t)
  {
    var s1 := Next(s, WANT_BOTH[0]);
    QueueWaits(s, WANT_BOTH[0]);
    assert Sharing(s1, 1, 3, LEASED);
    var s' := Next(s1, WANT_BOTH[1]);
    QueueWaits(s1, WANT_BOTH[1]);
    assert Sharing(s', 1, 3, LEASED);
    hide Next, Deadlocked;
    assert InTheWay(s', 1, Leased(2)) && InTheWay(s', 2, Leased(1));
    forall t: Tid
      ensures !Deadlocked(OnRecord(s'), t)
    {
      OnlyWaitersDeadlock(OnRecord(s'), t);
    }
  }
}
