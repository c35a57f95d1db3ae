/** When a deadlock on record is a real one, and when a real one is on record. The detector sees the owner map, which
    knows exclusive holders only, and the wait map; who really waits for whom is a matter of the grants and of the
    blocked threads. */
module GenuineDeadlocks {
  import opened Common
  import opened Leases
  import opened Deadlock

  /** What detectDeadlock looks at. */
  function OnRecord(s: State): Waits { Waits(s.ownerMap, s.waitMap) }

  // ---------------------------------------------------------------- who really waits for whom

  /** The grant keeps the waiting thread from what it wants: the same resource, and one of the two is exclusive. */
  predicate InTheWay(s: State, t: Tid, h: Holder) {
    && t in s.blocked && h in s.holders && s.holders[h].resourceId == s.blocked[t].resourceId
    && (s.holders[h].mode == Exclusive || s.blocked[t].mode == Exclusive)
  }

  /** A grant of thread u keeps thread t waiting. */
  ghost predicate WaitsFor(s: State, t: Tid, u: Tid) {
    exists h :: InTheWay(s, t, h) && s.holders[h].tid == u
  }

  /** Distinct threads of which each waits for the next and the last for the first. */
  ghost predicate RealCycle(s: State, c: seq<Tid>) {
    c != [] && Distinct(c) && forall i :: 0 <= i < |c| ==> WaitsFor(s, c[i], Following(c, i))
  }

  ghost predicate ReallyDeadlocked(s: State, t: Tid) {
    exists c :: RealCycle(s, c) && c[0] == t
  }

  /** What thread t waits for has an exclusive owner. */
  predicate WantsOwned(s: State, t: Tid) {
    t in s.blocked && s.blocked[t].resourceId in s.ownerMap
  }

  lemma ExclusiveGrant(s: State, t: Tid, h: Holder)
    requires Inv(s) && InTheWay(s, t, h) && WantsOwned(s, t)
    ensures s.ownerMap[s.blocked[t].resourceId] == s.holders[h].tid
  {
    hide Accounted, Tables;
    InferredModeIsGranted(s, h);
  }

  /** An exclusive owner is the one thread that is waited for. */
  lemma OwnerInTheWay(s: State, t: Tid)
    requires Inv(s) && WantsOwned(s, t)
    ensures forall u :: WaitsFor(s, t, u) <==> s.ownerMap[s.blocked[t].resourceId] == u
  {
    hide Tables;
    var rid := s.blocked[t].resourceId;
    AccountedUse(s, rid);
    assert Holders(s, rid, Exclusive) != {};
    var h :| h in Holders(s, rid, Exclusive);
    assert InTheWay(s, t, h);
    forall u | WaitsFor(s, t, u)
      ensures s.ownerMap[rid] == u
    {
      var k :| InTheWay(s, t, k) && s.holders[k].tid == u;
      ExclusiveGrant(s, t, k);
    }
    ExclusiveGrant(s, t, h);
  }

  /** A thread starts to wait exactly when some grant is in the way of what it wants. */
  lemma StartsIff(s: State, tid: Tid, rid: string, mode: Mode)
    requires Inv(s) && rid in s.entries && Acquiring(tid) !in s.holders
    ensures Queueing(s, StartWaiting(tid, rid, mode)) <==>
      exists h :: h in s.holders && s.holders[h].resourceId == rid &&
                  (s.holders[h].mode == Exclusive || mode == Exclusive)
    ensures Queueing(s, StartWaiting(tid, rid, mode)) ==>
              exists u :: WaitsFor(Next(s, StartWaiting(tid, rid, mode)), tid, u)
  {
    var a := StartWaiting(tid, rid, mode);
    GrantableIff(s, rid, mode);
    hide Inv;
    if Queueing(s, a) {
      var h :| h in s.holders && s.holders[h].resourceId == rid && !(mode == Shared && s.holders[h].mode == Shared);
      assert InTheWay(Next(s, a), tid, h);
      assert WaitsFor(Next(s, a), tid, s.holders[h].tid);
    }
  }

  // ---------------------------------------------------------------- what the records say

  /** A thread that waits and is on record is on record with what it waits for. */
  predicate Agree(s: State) {
    forall t :: t in s.blocked && t in s.waitMap ==> s.waitMap[t] == s.blocked[t].resourceId
  }

  lemma AgreeNext(s: State, a: Section)
    requires Agree(s)
    ensures Agree(Next(s, a))
  {
    WaitsAfter(s, a);
    hide Next, Granting, Queueing;
  }

  lemma {:induction false} AgreeRun(s: State, run: seq<Section>)
    requires Agree(s)
    ensures Agree(Run(s, run))
    decreases |run|
  {
    hide Agree, Next;
    if run != [] {
      AgreeNext(s, run[0]);
      AgreeRun(Next(s, run[0]), run[1..]);
    }
  }

  lemma ReachedByRun(run: seq<Section>)
    ensures Inv(Run(INITIAL, run)) && Agree(Run(INITIAL, run))
  {
    InitialInv();
    RunInv(INITIAL, run);
    AgreeRun(INITIAL, run);
  }

  /** A real wait that is on record, for a resource with an exclusive owner, is an edge of the detector's graph. */
  lemma RecordedEdge(s: State, t: Tid, u: Tid)
    requires Inv(s) && Agree(s) && t in s.waitMap && WantsOwned(s, t)
    ensures WaitsFor(s, t, u) <==> Successor(OnRecord(s), t) == Thread(u)
  {
    hide Inv, WaitsFor;
    OwnerInTheWay(s, t);
  }

  /** A real cycle whose first thread lies on a recorded cycle is that cycle. */
  lemma {:induction false} RecordedPrefix(s: State, c: seq<Tid>, n: nat, m: nat)
    requires Inv(s) && Agree(s) && RealCycle(s, c) && Cycle(OnRecord(s), c[0], n) && m <= |c|
    ensures forall i :: 0 <= i < m ==> c[i] in s.waitMap && WantsOwned(s, c[i])
    ensures forall i :: 0 <= i < m ==> Successor(OnRecord(s), c[i]) == Thread(Following(c, i))
  {
    hide Inv, Agree, WaitsFor, Cycle, Successor;
    if m > 0 {
      var g, k := OnRecord(s), m - 1;
      RecordedPrefix(s, c, n, k);
      AheadOnLoop(g, c, k);
      CycleWaits(g, c[0], n, k);
      CycleWaits(g, c[0], n, m);
      assert WaitsFor(s, c[k], Following(c, k));
      RecordedWants(s, c[k], Following(c, k));
      RecordedEdge(s, c[k], Following(c, k));
    }
  }

  lemma RecordedWants(s: State, t: Tid, u: Tid)
    requires Agree(s) && WaitsFor(s, t, u) && t in s.waitMap && Successor(OnRecord(s), t).Thread?
    ensures WantsOwned(s, t)
  {
  }

  lemma RecordedLoop(s: State, c: seq<Tid>, n: nat)
    requires Inv(s) && Agree(s) && RealCycle(s, c) && Cycle(OnRecord(s), c[0], n)
    ensures Loop(OnRecord(s), c) && |c| == n && AllOwned(s, c)
  {
    hide Inv, Agree, WaitsFor, Cycle, Successor;
    RecordedPrefix(s, c, n, |c|);
    LoopCycle(OnRecord(s), c);
    CycleUnique(OnRecord(s), c[0], n, |c|);
  }

  // ---------------------------------------------------------------- when a report is genuine

  /** Every thread of t's recorded cycle of n really waits. */
  predicate AllWait(s: State, t: Tid, n: nat) {
    forall m :: 0 <= m < n ==>
      Ahead(OnRecord(s), t, m).Thread? && Ahead(OnRecord(s), t, m).tid in s.blocked
  }

  /** On every run: a thread on a recorded cycle is really deadlocked exactly when every thread of that cycle really
      waits. */
  lemma GenuineIff(run: seq<Section>, t: Tid, n: nat)
    requires Cycle(OnRecord(Run(INITIAL, run)), t, n)
    ensures ReallyDeadlocked(Run(INITIAL, run), t) <==> AllWait(Run(INITIAL, run), t, n)
  {
    hide Run;
    ReachedByRun(run);
    GenuineAt(Run(INITIAL, run), t, n);
  }

  lemma GenuineAt(s: State, t: Tid, n: nat)
    requires Inv(s) && Agree(s) && Cycle(OnRecord(s), t, n)
    ensures ReallyDeadlocked(s, t) <==> AllWait(s, t, n)
  {
    hide Inv, Agree, Cycle, WaitsFor, Successor;
    var d := CycleLoop(OnRecord(s), t, n);
    if ReallyDeadlocked(s, t) {
      var c :| RealCycle(s, c) && c[0] == t;
      RecordedLoop(s, c, n);
      SameLoop(OnRecord(s), c, d);
    }
    if AllWait(s, t, n) {
      LoopIsReal(s, d);
    }
  }

  lemma SameLoop(g: Waits, c: seq<Tid>, d: seq<Tid>)
    requires Loop(g, c) && Loop(g, d) && |c| == |d| && c[0] == d[0]
    ensures c == d
  {
    hide Successor;
    forall m | 0 <= m < |c|
      ensures c[m] == d[m]
    {
      AheadOnLoop(g, c, m);
      AheadOnLoop(g, d, m);
    }
  }

  /** A recorded cycle of waiting threads is a real one. */
  lemma LoopIsReal(s: State, c: seq<Tid>)
    requires Inv(s) && Agree(s) && Loop(OnRecord(s), c) && forall m :: 0 <= m < |c| ==> c[m] in s.blocked
    ensures RealCycle(s, c) && AllOwned(s, c)
  {
    hide Inv, WaitsFor;
    forall i | 0 <= i < |c|
      ensures WantsOwned(s, c[i]) && WaitsFor(s, c[i], Following(c, i))
    {
      RecordedEdge(s, c[i], Following(c, i));
    }
  }

  // ---------------------------------------------------------------- which real cycles are on record

  /** Whatever is waited for on c has an exclusive owner. */
  predicate AllOwned(s: State, c: seq<Tid>) {
    forall i :: 0 <= i < |c| ==> WantsOwned(s, c[i])
  }

  /** A real cycle that the detector can see: of 2 to 33 threads, through exclusively held resources only. */
  ghost predicate VisibleCycle(s: State, c: seq<Tid>) {
    RealCycle(s, c) && 2 <= |c| <= MAX_DEPTH + 1 && AllOwned(s, c)
  }

  ghost predicate VisiblyDeadlocked(s: State, t: Tid) {
    exists c :: VisibleCycle(s, c) && c[0] == t
  }

  /** Every thread that waits has its wait record. */
  predicate WaitsCover(s: State) {
    forall t :: t in s.blocked ==> t in s.waitMap && s.waitMap[t] == s.blocked[t].resourceId
  }

  lemma FirstVisibleIff(s: State, c: seq<Tid>)
    requires Inv(s) && WaitsCover(s) && RealCycle(s, c)
    ensures Deadlocked(OnRecord(s), c[0]) <==> VisibleCycle(s, c)
  {
    assert Agree(s);
    hide Inv, Agree, WaitsFor, Cycle, Successor;
    if Deadlocked(OnRecord(s), c[0]) {
      var n :| 2 <= n <= MAX_DEPTH + 1 && Cycle(OnRecord(s), c[0], n);
      RecordedLoop(s, c, n);
    }
    if VisibleCycle(s, c) {
      forall i | 0 <= i < |c|
        ensures Successor(OnRecord(s), c[i]) == Thread(Following(c, i))
      {
        assert WaitsFor(s, c[i], Following(c, i));
        RecordedEdge(s, c[i], Following(c, i));
      }
      LoopCycle(OnRecord(s), c);
    }
  }

  /** c, beginning with its second thread. */
  function Turned(c: seq<Tid>): (d: seq<Tid>)
    requires c != []
    ensures |d| == |c| && forall j :: 0 <= j < |c| ==> d[j] == Following(c, j)
  {
    c[1..] + [c[0]]
  }

  lemma TurnedFollowing(c: seq<Tid>, j: nat)
    requires j < |c|
    ensures var k := if j + 1 == |c| then 0 else j + 1;
      Turned(c)[j] == c[k] && Following(Turned(c), j) == Following(c, k)
  {
  }

  lemma TurnedReal(s: State, c: seq<Tid>)
    requires RealCycle(s, c)
    ensures RealCycle(s, Turned(c)) && (VisibleCycle(s, Turned(c)) <==> VisibleCycle(s, c))
  {
    var d := Turned(c);
    hide WaitsFor, WantsOwned, Following, Turned;
    forall j | 0 <= j < |c|
      ensures WaitsFor(s, d[j], Following(d, j)) && (AllOwned(s, c) ==> WantsOwned(s, d[j]))
    {
      TurnedFollowing(c, j);
      var k := if j + 1 == |c| then 0 else j + 1;
      assert WaitsFor(s, c[k], Following(c, k));
    }
    forall j | 0 <= j < |c|
      ensures AllOwned(s, d) ==> WantsOwned(s, c[j])
    {
      TurnedFollowing(c, if j == 0 then |c| - 1 else j - 1);
    }
    assert Distinct(d) by { TurnedDistinct(c); }
  }

  lemma TurnedDistinct(c: seq<Tid>)
    requires c != [] && Distinct(c)
    ensures Distinct(Turned(c))
  {
  }

  /** A real cycle may begin with any of its threads. */
  lemma {:induction false} Rotated(s: State, c: seq<Tid>, i: nat) returns (d: seq<Tid>)
    requires RealCycle(s, c) && i < |c|
    ensures RealCycle(s, d) && d[0] == c[i] && (VisibleCycle(s, d) <==> VisibleCycle(s, c))
    decreases i
  {
    hide VisibleCycle, WaitsFor, Distinct;
    d := c;
    if i > 0 {
      TurnedReal(s, c);
      d := Rotated(s, Turned(c), i - 1);
    }
  }

  /** When every waiting thread has its record, each thread of a real cycle is on a recorded one exactly when the real
      cycle is visible. */
  lemma VisibleIff(s: State, c: seq<Tid>, t: Tid)
    requires Inv(s) && WaitsCover(s) && RealCycle(s, c) && t in c
    ensures Deadlocked(OnRecord(s), t) <==> VisibleCycle(s, c)
  {
    hide Inv, WaitsCover, RealCycle, VisibleCycle, Deadlocked;
    var i :| 0 <= i < |c| && c[i] == t;
    var d := Rotated(s, c, i);
    FirstVisibleIff(s, d);
  }

  /** A preemption that erases the record of a waiting thread. */
  predicate Uncovers(s: State, a: Section) {
    a.Preempt? && exists t :: t in a.tids && t in s.blocked
  }

  predicate NeverUncovers(s: State, run: seq<Section>)
    decreases |run|
  {
    run == [] || (!Uncovers(s, run[0]) && NeverUncovers(Next(s, run[0]), run[1..]))
  }

  lemma CoverNext(s: State, a: Section)
    requires WaitsCover(s)
    ensures WaitsCover(Next(s, a)) <==> !Uncovers(s, a)
  {
    WaitsAfter(s, a);
    hide Next, Granting, Queueing;
    if a.Preempt? {
      if t :| t in a.tids && t in s.blocked {
        assert t in Next(s, a).blocked && t !in Next(s, a).waitMap;
      }
    }
  }

  lemma {:induction false} CoverRun(s: State, run: seq<Section>)
    requires WaitsCover(s) && NeverUncovers(s, run)
    ensures WaitsCover(Run(s, run))
    decreases |run|
  {
    hide WaitsCover, Uncovers, Next;
    if run != [] {
      CoverNext(s, run[0]);
      CoverRun(Next(s, run[0]), run[1..]);
    }
  }

  lemma {:induction false} UnpreemptedRun(s: State, run: seq<Section>)
    requires forall i :: 0 <= i < |run| ==> !run[i].Preempt?
    ensures NeverUncovers(s, run)
    decreases |run|
  {
    if run != [] {
      UnpreemptedRun(Next(s, run[0]), run[1..]);
    }
  }

  /** On a run without preemption, and on any in which no waiting thread is preempted, the threads of a real cycle are
      deadlocked on record exactly when the cycle is visible. */
  lemma MissedIff(run: seq<Section>, c: seq<Tid>, t: Tid)
    requires NeverUncovers(INITIAL, run) && RealCycle(Run(INITIAL, run), c) && t in c
    ensures Deadlocked(OnRecord(Run(INITIAL, run)), t) <==> VisibleCycle(Run(INITIAL, run), c)
  {
    hide Deadlocked, Run, RealCycle, VisibleCycle;
    ReachedByRun(run);
    CoverRun(INITIAL, run);
    VisibleIff(Run(INITIAL, run), c, t);
  }

  // ---------------------------------------------------------------- exact runs

  /** The sections that make the wait map differ from the truth. */
  predicate Spoils(s: State, a: Section) {
    StaleGrant(s, a) || (a.Preempt? && exists t :: t in a.tids && t in s.waitMap)
  }

  predicate NeverSpoils(s: State, run: seq<Section>)
    decreases |run|
  {
    run == [] || (!Spoils(s, run[0]) && NeverSpoils(Next(s, run[0]), run[1..]))
  }

  lemma {:induction false} ExactRun(s: State, run: seq<Section>)
    requires WaitsExact(s) && NeverSpoils(s, run)
    ensures WaitsExact(Run(s, run))
    decreases |run|
  {
    hide StaleGrant, WaitsExact, Next;
    if run != [] {
      WaitsStayExact(s, run[0]);
      ExactRun(Next(s, run[0]), run[1..]);
    }
  }

  /** On a run without a shared grant to a recorded waiter and without a preemption of one, the deadlocks on record
      are exactly the real ones that are visible. */
  lemma RecordsAreReal(run: seq<Section>, t: Tid)
    requires NeverSpoils(INITIAL, run)
    ensures Deadlocked(OnRecord(Run(INITIAL, run)), t) <==> VisiblyDeadlocked(Run(INITIAL, run), t)
  {
    hide Deadlocked, Run, VisiblyDeadlocked;
    ReachedByRun(run);
    ExactRun(INITIAL, run);
    ExactRecords(Run(INITIAL, run), t);
  }

  lemma ExactRecords(s: State, t: Tid)
    requires Inv(s) && WaitsExact(s)
    ensures Deadlocked(OnRecord(s), t) <==> VisiblyDeadlocked(s, t)
  {
    assert WaitsCover(s) && Agree(s) && forall u :: u in s.waitMap ==> u in s.blocked;
    hide Inv, WaitsExact, WaitsCover, Agree, Cycle, WaitsFor;
    if Deadlocked(OnRecord(s), t) {
      var n :| 2 <= n <= MAX_DEPTH + 1 && Cycle(OnRecord(s), t, n);
      var c := CycleLoop(OnRecord(s), t, n);
      LoopIsReal(s, c);
      assert VisibleCycle(s, c);
    }
    if VisiblyDeadlocked(s, t) {
      var c :| VisibleCycle(s, c) && c[0] == t;
      FirstVisibleIff(s, c);
    }
  }

  // ---------------------------------------------------------------- real deadlocks last

  /** A thread that waits takes part in no acquire but its own. */
  predicate OwnSteps(s: State, a: Section) {
    (a.TryGrant? || a.StartWaiting?) && a.tid in s.blocked ==> Want(a.resourceId, a.mode) == s.blocked[a.tid]
  }

  /** Thread t stops waiting, or the last grant of u that keeps it waiting is released. */
  ghost predicate Frees(s: State, a: Section, t: Tid, u: Tid) {
    (a.GiveUp? && a.tid == t) || (a.FinishRelease? && LastInTheWay(s, a.leaseId, t, u))
  }

  ghost predicate LastInTheWay(s: State, id: int, t: Tid, u: Tid) {
    Releasing(s, id) && forall h :: InTheWay(s, t, h) && s.holders[h].tid == u ==> h == Leased(id)
  }

  lemma BlockedTry(s: State, a: Section, t: Tid, h: Holder)
    requires Inv(s) && OwnSteps(s, a) && a.TryGrant? && a.tid == t && InTheWay(s, t, h)
    ensures !Granting(s, a)
  {
    hide Tables, Owners, Accounted;
    InferredModeIsGranted(s, h);
  }

  /** The name a grant has after a section: recording it as a lease renames it. */
  function Renamed(s: State, a: Section, h: Holder): Holder {
    if a.RecordLease? && h == Acquiring(a.tid) then Leased(s.nextLeaseId) else h
  }

  lemma HoldersAfter(s: State, a: Section)
    ensures var s' := Next(s, a);
      if Granting(s, a) then s'.holders == s.holders[Acquiring(a.tid) := Grant(a.resourceId, a.mode, a.tid)]
      else if a.RecordLease? && Acquiring(a.tid) in s.holders then
        s'.holders == (s.holders - {Acquiring(a.tid)})[Leased(s.nextLeaseId) := s.holders[Acquiring(a.tid)]]
      else
        s'.holders == s.holders ||
        (a.FinishRelease? && Releasing(s, a.leaseId) && s'.holders == s.holders - {Leased(a.leaseId)})
  {
  }

  lemma GrantStays(s: State, a: Section, h: Holder)
    requires Tables(s) && h in s.holders
    requires !(a.FinishRelease? && Releasing(s, a.leaseId) && h == Leased(a.leaseId))
    ensures Renamed(s, a, h) in Next(s, a).holders && Next(s, a).holders[Renamed(s, a, h)] == s.holders[h]
  {
    HoldersAfter(s, a);
    hide Next, Releasing;
  }

  lemma StaysBlocked(s: State, a: Section, t: Tid)
    requires OwnSteps(s, a) && t in s.blocked && !(a.GiveUp? && a.tid == t)
    requires Granting(s, a) ==> a.tid != t
    ensures t in Next(s, a).blocked && Next(s, a).blocked[t] == s.blocked[t]
  {
    WaitsAfter(s, a);
    hide Next, Granting, Queueing;
  }

  /** Only its own giving up and the release of the grant end that a grant keeps a thread waiting. */
  lemma GrantKept(s: State, a: Section, t: Tid, h: Holder)
    requires Inv(s) && OwnSteps(s, a) && InTheWay(s, t, h)
    requires !(a.GiveUp? && a.tid == t) && !(a.FinishRelease? && Releasing(s, a.leaseId) && h == Leased(a.leaseId))
    ensures WaitsFor(Next(s, a), t, s.holders[h].tid)
  {
    if a.TryGrant? && a.tid == t { BlockedTry(s, a, t, h); }
    GrantStays(s, a, h);
    StaysBlocked(s, a, t);
    hide Next, Inv, OwnSteps, Renamed;
    assert InTheWay(Next(s, a), t, Renamed(s, a, h));
  }

  /** Giving up and releasing make nobody wait. */
  lemma NoNewWaits(s: State, a: Section, t: Tid, u: Tid)
    requires (a.GiveUp? || a.FinishRelease?) && WaitsFor(Next(s, a), t, u)
    ensures WaitsFor(s, t, u)
  {
    var h :| InTheWay(Next(s, a), t, h) && Next(s, a).holders[h].tid == u;
    assert InTheWay(s, t, h);
  }

  lemma WaitEndsIff(s: State, a: Section, t: Tid, u: Tid)
    requires Inv(s) && OwnSteps(s, a) && WaitsFor(s, t, u)
    ensures WaitsFor(Next(s, a), t, u) <==> !Frees(s, a, t, u)
  {
    if Frees(s, a, t, u) {
      WaitEnds(s, a, t, u);
    } else if a.FinishRelease? && Releasing(s, a.leaseId) {
      var h :| InTheWay(s, t, h) && s.holders[h].tid == u && h != Leased(a.leaseId);
      hide Inv, Next;
      GrantKept(s, a, t, h);
    } else {
      var h :| InTheWay(s, t, h) && s.holders[h].tid == u;
      hide Inv, Next;
      GrantKept(s, a, t, h);
    }
  }

  lemma WaitEnds(s: State, a: Section, t: Tid, u: Tid)
    requires Inv(s) && WaitsFor(s, t, u) && Frees(s, a, t, u)
    ensures !WaitsFor(Next(s, a), t, u)
  {
    if a.FinishRelease? {
      var h :| InTheWay(s, t, h) && s.holders[h].tid == u;
      InferredModeIsGranted(s, h);
      hide Inv;
      assert Next(s, a).holders == s.holders - {h};
    }
  }

  /** Some wait of the cycle is freed. */
  ghost predicate Breaks(s: State, a: Section, c: seq<Tid>) {
    exists i :: 0 <= i < |c| && Frees(s, a, c[i], Following(c, i))
  }

  /** A real cycle ends with a section exactly when one of its threads gives up, or the last grant is released by which
      a thread of it keeps the one before waiting. Nothing else ends it; in particular no preemption does. */
  lemma CycleEndsIff(s: State, a: Section, c: seq<Tid>)
    requires Inv(s) && OwnSteps(s, a) && RealCycle(s, c)
    ensures RealCycle(Next(s, a), c) <==> !Breaks(s, a, c)
  {
    hide Inv, OwnSteps, Next, WaitsFor, Frees;
    forall i | 0 <= i < |c|
      ensures WaitsFor(Next(s, a), c[i], Following(c, i)) <==> !Frees(s, a, c[i], Following(c, i))
    {
      assert WaitsFor(s, c[i], Following(c, i));
      WaitEndsIff(s, a, c[i], Following(c, i));
    }
  }

  /** A really deadlocked thread stays deadlocked exactly when one of its cycles does not break. */
  lemma DeadlockEndsIff(s: State, a: Section, t: Tid)
    requires Inv(s) && OwnSteps(s, a) && ReallyDeadlocked(s, t)
    ensures ReallyDeadlocked(Next(s, a), t) <==> exists c :: RealCycle(s, c) && c[0] == t && !Breaks(s, a, c)
  {
    hide Inv, OwnSteps, WaitsFor, Breaks, Next;
    if c :| RealCycle(s, c) && c[0] == t && !Breaks(s, a, c) {
      CycleEndsIff(s, a, c);
    }
    if ReallyDeadlocked(Next(s, a), t) {
      if a.GiveUp? || a.FinishRelease? {
        var c :| RealCycle(Next(s, a), c) && c[0] == t;
        OldCycle(s, a, c);
        CycleEndsIff(s, a, c);
      } else {
        var c :| RealCycle(s, c) && c[0] == t;
        assert !Breaks(s, a, c) by { OtherwiseUnbroken(s, a, c); }
      }
    }
  }

  lemma OldCycle(s: State, a: Section, c: seq<Tid>)
    requires (a.GiveUp? || a.FinishRelease?) && RealCycle(Next(s, a), c)
    ensures RealCycle(s, c)
  {
    hide WaitsFor, Next;
    forall i | 0 <= i < |c|
      ensures WaitsFor(s, c[i], Following(c, i))
    {
      NoNewWaits(s, a, c[i], Following(c, i));
    }
  }

  lemma OtherwiseUnbroken(s: State, a: Section, c: seq<Tid>)
    requires !a.GiveUp? && !a.FinishRelease?
    ensures !Breaks(s, a, c)
  {
  }

  /** No wait of the cycle is freed on the run. */
  ghost predicate NeverBreaks(s: State, run: seq<Section>, c: seq<Tid>)
    decreases |run|
  {
    run == [] || (OwnSteps(s, run[0]) && !Breaks(s, run[0], c) && NeverBreaks(Next(s, run[0]), run[1..], c))
  }

  lemma {:induction false} DeadlockLasts(s: State, run: seq<Section>, c: seq<Tid>)
    requires Inv(s) && NeverBreaks(s, run, c) && RealCycle(s, c)
    ensures RealCycle(Run(s, run), c)
    decreases |run|
  {
    hide Inv, RealCycle, OwnSteps, Next, Breaks;
    if run != [] {
      NextInv(s, run[0]);
      CycleEndsIff(s, run[0], c);
      DeadlockLasts(Next(s, run[0]), run[1..], c);
    }
  }

  /** Erasing wait records neither makes nor ends a real cycle. */
  lemma PreemptionFreesNobody(s: State, tids: set<Tid>, c: seq<Tid>)
    ensures RealCycle(Next(s, Preempt(tids)), c) <==> RealCycle(s, c)
  {
    hide WaitsFor;
    var s' := Next(s, Preempt(tids));
    forall t, u
      ensures WaitsFor(s', t, u) <==> WaitsFor(s, t, u)
    {
      SameWaits(s, s', t, u);
    }
  }

  lemma SameWaits(s: State, s': State, t: Tid, u: Tid)
    requires s'.holders == s.holders && s'.blocked == s.blocked
    ensures WaitsFor(s', t, u) <==> WaitsFor(s, t, u)
  {
    if h :| InTheWay(s, t, h) && s.holders[h].tid == u {
      assert InTheWay(s', t, h);
    }
    if h :| InTheWay(s', t, h) && s'.holders[h].tid == u {
      assert InTheWay(s, t, h);
    }
  }
}
