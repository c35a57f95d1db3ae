/** How a stale wait record makes detectDeadlock report a deadlock that is none. */
module StaleWaits {
  import opened Common
  import opened Leases
  import opened Deadlock
  import opened GenuineDeadlocks

  // Thread 2 holds B; thread 1 holds A; thread 2 waits for A until thread 1 releases it, is granted A
  // shared and releases it; thread 1 takes A again and waits for B.

  const TAKE_BOTH := [Register("A"), Register("B"), TryGrant(2, "B", Exclusive), RecordLease(2),
                      TryGrant(1, "A", Exclusive), RecordLease(1)]
  const RELEASE_A := [StartWaiting(2, "A", Shared), TakeLease(2), FinishRelease(2)]
  const SHARE_A := [TryGrant(2, "A", Shared), RecordLease(2), TakeLease(3), FinishRelease(3)]
  const RETAKE_A := [TryGrant(1, "A", Exclusive), RecordLease(1), StartWaiting(1, "B", Exclusive)]

  /** The part of a state the story depends on: the flags of A and B (B held by thread 2, and A, when
      held exclusively, by thread 1), the next lease number, and the wait records of threads 1 and 2. */
  predicate Looks(s: State, a: Entry, b: Entry, next: int, wait: set<Tid>, blocked: set<Tid>) {
    && "A" in s.entries && s.entries["A"] == a && "B" in s.entries && s.entries["B"] == b
    && s.nextLeaseId == next
    && ("A" in s.ownerMap <==> a.hasExclusiveOwner) && (a.hasExclusiveOwner ==> s.ownerMap["A"] == 1)
    && ("B" in s.ownerMap <==> b.hasExclusiveOwner) && (b.hasExclusiveOwner ==> s.ownerMap["B"] == 2)
    && s.waitMap.Keys == wait && s.blocked.Keys == blocked
    && (2 in wait ==> s.waitMap[2] == "A") && (1 in wait ==> s.waitMap[1] == "B")
    && (1 in blocked ==> s.blocked[1].resourceId == "B")
  }

  predicate NoneAcquiring(s: State) { Acquiring(1) !in s.holders && Acquiring(2) !in s.holders }

  predicate Has(s: State, h: Holder, g: Grant) { h in s.holders && s.holders[h] == g }

  lemma TakeB() returns (s: State)
    ensures s == Run(INITIAL, TAKE_BOTH[..4]) && NoneAcquiring(s)
    ensures Looks(s, Entry(Closed, 0, false), Entry(Closed, 0, true), 2, {}, {})
  {
    var s1 := Next(INITIAL, Register("A"));
    var s2 := Next(s1, Register("B"));
    var s3 := Next(s2, TryGrant(2, "B", Exclusive));
    s := Next(s3, RecordLease(2));
    assert Looks(s2, Entry(Closed, 0, false), Entry(Closed, 0, false), 1, {}, {});
    assert Looks(s3, Entry(Closed, 0, false), Entry(Closed, 0, true), 1, {}, {});
    RunFour(INITIAL, TAKE_BOTH[..4]);
  }

  lemma TakeA(s: State, next: int, wait: set<Tid>) returns (t: State)
    requires NoneAcquiring(s) && 1 !in wait && Looks(s, Entry(Closed, 0, false), Entry(Closed, 0, true), next, wait, {})
    ensures t == Next(Next(s, TryGrant(1, "A", Exclusive)), RecordLease(1))
    ensures NoneAcquiring(t) && Has(t, Leased(next), Grant("A", Exclusive, 1))
    ensures Looks(t, Entry(Closed, 0, true), Entry(Closed, 0, true), next + 1, wait, {})
  {
    var s1 := Next(s, TryGrant(1, "A", Exclusive));
    assert Looks(s1, Entry(Closed, 0, true), Entry(Closed, 0, true), next, wait, {});
    t := Next(s1, RecordLease(1));
  }

  lemma ReleaseA(s: State) returns (t: State)
    requires NoneAcquiring(s) && Has(s, Leased(2), Grant("A", Exclusive, 1))
    requires Looks(s, Entry(Closed, 0, true), Entry(Closed, 0, true), 3, {}, {})
    ensures t == Run(s, RELEASE_A) && NoneAcquiring(t)
    ensures Looks(t, Entry(Closed, 0, false), Entry(Closed, 0, true), 3, {2}, {2})
  {
    var s1 := Next(s, StartWaiting(2, "A", Shared));
    assert Looks(s1, Entry(Closed, 0, true), Entry(Closed, 0, true), 3, {2}, {2});
    var s2 := Next(s1, TakeLease(2));
    assert Looks(s2, Entry(Closed, 0, true), Entry(Closed, 0, true), 3, {2}, {2}) && Releasing(s2, 2);
    t := Next(s2, FinishRelease(2));
    RunThree(s, RELEASE_A);
  }

  lemma ShareA(s: State) returns (t: State)
    requires NoneAcquiring(s)
    requires Looks(s, Entry(Closed, 0, false), Entry(Closed, 0, true), 3, {2}, {2})
    ensures t == Run(s, SHARE_A) && NoneAcquiring(t)
    ensures Looks(t, Entry(Closed, 0, false), Entry(Closed, 0, true), 4, {2}, {})
  {
    var s2 := GetShared(s);
    t := DropShared(s2);
    RunFour(s, SHARE_A);
    hide Looks, Next;
  }

  lemma GetShared(s: State) returns (t: State)
    requires NoneAcquiring(s)
    requires Looks(s, Entry(Closed, 0, false), Entry(Closed, 0, true), 3, {2}, {2})
    ensures t == Next(Next(s, TryGrant(2, "A", Shared)), RecordLease(2))
    ensures NoneAcquiring(t) && Has(t, Leased(3), Grant("A", Shared, 2))
    ensures Looks(t, Entry(Closed, 1, false), Entry(Closed, 0, true), 4, {2}, {})
  {
    var s1 := Next(s, TryGrant(2, "A", Shared));
    assert Looks(s1, Entry(Closed, 1, false), Entry(Closed, 0, true), 3, {2}, {});
    t := Next(s1, RecordLease(2));
  }

  lemma DropShared(s: State) returns (t: State)
    requires NoneAcquiring(s) && Has(s, Leased(3), Grant("A", Shared, 2))
    requires Looks(s, Entry(Closed, 1, false), Entry(Closed, 0, true), 4, {2}, {})
    ensures t == Next(Next(s, TakeLease(3)), FinishRelease(3)) && NoneAcquiring(t)
    ensures Looks(t, Entry(Closed, 0, false), Entry(Closed, 0, true), 4, {2}, {})
  {
    var s1 := Next(s, TakeLease(3));
    assert Looks(s1, Entry(Closed, 1, false), Entry(Closed, 0, true), 4, {2}, {}) && Releasing(s1, 3);
    t := Next(s1, FinishRelease(3));
  }

  lemma RetakeA(s: State) returns (t: State)
    requires NoneAcquiring(s)
    requires Looks(s, Entry(Closed, 0, false), Entry(Closed, 0, true), 4, {2}, {})
    ensures t == Run(s, RETAKE_A)
    ensures Looks(t, Entry(Closed, 0, true), Entry(Closed, 0, true), 5, {1, 2}, {1})
  {
    var s2 := TakeA(s, 4, {2});
    RunThree(s, RETAKE_A);
    t := Next(s2, StartWaiting(1, "B", Exclusive));
    assert t.waitMap.Keys == {1, 2} && t.blocked.Keys == {1};
  }

  /** Two threads can be reported as deadlocked although only one of them waits: the wait record of a
      thread that got its resource shared is never erased. */
  lemma FalseDeadlock()
    ensures var s := Run(INITIAL, TAKE_BOTH + RELEASE_A + SHARE_A + RETAKE_A);
      && Inv(s)
      && Deadlocked(OnRecord(s), 1) && Deadlocked(OnRecord(s), 2)
      && s.blocked.Keys == {1}
      && forall t :: !ReallyDeadlocked(s, t)
  {
    InitialInv();
    RunInv(INITIAL, TAKE_BOTH + RELEASE_A + SHARE_A + RETAKE_A);
    hide Inv, Run, Next, Looks, Deadlocked, ReallyDeadlocked;
    var s1 := TakeB();
    var s2 := TakeA(s1, 2, {});
    assert TAKE_BOTH == TAKE_BOTH[..4] + [TAKE_BOTH[4], TAKE_BOTH[5]];
    RunTwo(s1, TAKE_BOTH[4], TAKE_BOTH[5]);
    RunConcat(INITIAL, TAKE_BOTH[..4], [TAKE_BOTH[4], TAKE_BOTH[5]]);
    var s3 := ReleaseA(s2);
    var s4 := ShareA(s3);
    var s5 := RetakeA(s4);
    RunConcat(INITIAL, TAKE_BOTH, RELEASE_A);
    RunConcat(INITIAL, TAKE_BOTH + RELEASE_A, SHARE_A);
    RunConcat(INITIAL, TAKE_BOTH + RELEASE_A + SHARE_A, RETAKE_A);
    TwoCycle(s5);
    NobodyDeadlocked(s5);
  }

  lemma TwoCycle(s: State)
    requires Looks(s, Entry(Closed, 0, true), Entry(Closed, 0, true), 5, {1, 2}, {1})
    ensures Deadlocked(OnRecord(s), 1) && Deadlocked(OnRecord(s), 2) && s.blocked.Keys == {1}
  {
    assert Loop(OnRecord(s), [1, 2]);
    assert Loop(OnRecord(s), [2, 1]);
    LoopCycle(OnRecord(s), [1, 2]);
    LoopCycle(OnRecord(s), [2, 1]);
  }

  /** Only thread 1 waits, and not for itself. */
  lemma NobodyDeadlocked(s: State)
    requires Inv(s) && Looks(s, Entry(Closed, 0, true), Entry(Closed, 0, true), 5, {1, 2}, {1})
    ensures forall t :: !ReallyDeadlocked(s, t)
  {
    assert WantsOwned(s, 1) && s.ownerMap[s.blocked[1].resourceId] == 2;
    OwnerInTheWay(s, 1);
    hide RealCycle, Inv;
    forall c
      ensures !RealCycle(s, c)
    {
      if RealCycle(s, c) {
        OneWaiter(s, 1, c);
      }
    }
  }

  lemma OneWaiter(s: State, t: Tid, c: seq<Tid>)
    requires s.blocked.Keys == {t} && RealCycle(s, c)
    ensures WaitsFor(s, t, t)
  {
    assert WaitsFor(s, c[0], Following(c, 0)) && c[0] in s.blocked.Keys;
    var last := |c| - 1;
    assert WaitsFor(s, c[last], Following(c, last)) && c[last] in s.blocked.Keys;
  }
}
