/** ResourceManager: the lease tables as an object, its critical sections as methods, and acquire and
    release built from them while other threads interleave. */
module ResourceManager {
  import opened Common
  import opened Leases
  import opened Deadlock
  import opened GenuineDeadlocks

  datatype AcquireResult = Failed | Acquired(leaseId: int)

  /** A section that is not a step of thread tid's own acquire, nor of its release of lease own. */
  predicate Foreign(tid: Tid, own: int, a: Section) {
    match a
    case TryGrant(t, _, _) => t != tid
    case StartWaiting(t, _, _) => t != tid
    case GiveUp(t) => t != tid
    case RecordLease(t) => t != tid
    case FinishRelease(id) => id != own
    case _ => true
  }

  predicate AllForeign(tid: Tid, own: int, run: seq<Section>) {
    forall k :: 0 <= k < |run| ==> Foreign(tid, own, run[k])
  }

  /** Other threads neither take away nor create a thread's own pending grant. */
  predicate SameGrant(s: State, s': State, tid: Tid) {
    && (Acquiring(tid) in s'.holders <==> Acquiring(tid) in s.holders)
    && (Acquiring(tid) in s.holders ==> s'.holders[Acquiring(tid)] == s.holders[Acquiring(tid)])
  }

  /** A lease that some thread is releasing. */
  predicate InRelease(s: State, id: int, g: Grant) {
    Releasing(s, id) && id < s.nextLeaseId && s.holders[Leased(id)] == g
  }

  lemma ForeignGrant(s: State, tid: Tid, own: int, a: Section)
    requires Foreign(tid, own, a)
    ensures SameGrant(s, Next(s, a), tid)
  {
  }

  lemma ForeignRelease(s: State, tid: Tid, own: int, a: Section, g: Grant)
    requires Foreign(tid, own, a) && InRelease(s, own, g)
    ensures InRelease(Next(s, a), own, g)
  {
  }

  lemma {:induction false} ForeignRun(s: State, tid: Tid, own: int, run: seq<Section>, g: Grant)
    requires AllForeign(tid, own, run)
    ensures SameGrant(s, Run(s, run), tid)
    ensures InRelease(s, own, g) ==> InRelease(Run(s, run), own, g)
    decreases |run|
  {
    if run != [] {
      assert Foreign(tid, own, run[0]);
      ForeignGrant(s, tid, own, run[0]);
      if InRelease(s, own, g) {
        ForeignRelease(s, tid, own, run[0], g);
      }
      hide Next, Foreign, Releasing, InRelease;
      ForeignRun(Next(s, run[0]), tid, own, run[1..], g);
    }
  }

  /** A retired lease stays retired as the history grows. */
  lemma RetiredLater(h: seq<Section>, h': seq<Section>, id: int)
    requires h <= h' && Retired(Run(INITIAL, h), id)
    ensures Retired(Run(INITIAL, h'), id)
  {
    hide Run, Retired, Next;
    assert h' == h + h'[|h|..];
    RunConcat(INITIAL, h, h'[|h|..]);
    StaleHandleHarmless(Run(INITIAL, h), h'[|h|..], id);
  }

  lemma NumberNext(s: State, a: Section)
    ensures s.nextLeaseId <= Next(s, a).nextLeaseId
  {
  }

  /** Lease numbers are only ever counted up. */
  lemma {:induction false} NumbersGrow(s: State, run: seq<Section>)
    ensures s.nextLeaseId <= Run(s, run).nextLeaseId
    decreases |run|
  {
    if run != [] {
      NumberNext(s, run[0]);
      hide Next;
      NumbersGrow(Next(s, run[0]), run[1..]);
    }
  }

  /** A number handed out is larger than every number handed out before it, so none is handed out twice. */
  lemma NumbersFresh(s: State, tid: Tid, run: seq<Section>, tid': Tid)
    requires Acquiring(tid) in s.holders
    requires Acquiring(tid') in Run(Next(s, RecordLease(tid)), run).holders
    ensures var s' := Run(Next(s, RecordLease(tid)), run);
            s.nextLeaseId in Next(s, RecordLease(tid)).leaseMap &&
            s'.nextLeaseId in Next(s', RecordLease(tid')).leaseMap &&
            s.nextLeaseId < s'.nextLeaseId
  {
    hide Run;
    NumbersGrow(Next(s, RecordLease(tid)), run);
  }

  lemma NumbersLater(h: seq<Section>, h': seq<Section>)
    requires h <= h'
    ensures Run(INITIAL, h).nextLeaseId <= Run(INITIAL, h').nextLeaseId
  {
    hide Run;
    assert h' == h + h'[|h|..];
    RunConcat(INITIAL, h, h'[|h|..]);
    NumbersGrow(Run(INITIAL, h), h'[|h|..]);
  }

  /** The grant test would succeed after these sections. */
  predicate Grantable(h: seq<Section>, rid: string, mode: Mode) {
    var s := Run(INITIAL, h);
    rid in s.entries && CanGrant(s.entries[rid], mode)
  }

  /** The history ends with an open that failed. */
  predicate OpenFailed(h: seq<Section>, rid: string) {
    h != [] && h[|h| - 1] == FinishOpen(rid, false)
  }

  /** The history ends with a grant test that granted nothing, and the thread giving up. */
  predicate GaveUp(h: seq<Section>, tid: Tid, rid: string, mode: Mode) {
    |h| >= 2 && h[|h| - 2] == TryGrant(tid, rid, mode) && h[|h| - 1] == GiveUp(tid) &&
        !Grantable(h[..|h| - 2], rid, mode)
  }

  // ---------------------------------------------------------------- what one acquire does

  /** own are the positions of a thread's own sections in the history from start on; all others are foreign. */
  predicate Marks(h: seq<Section>, start: nat, own: seq<nat>, tid: Tid) {
    && (forall k :: 0 <= k < |own| ==> start <= own[k] < |h|)
    && (forall j, k :: 0 <= j < k < |own| ==> own[j] < own[k])
    && (forall p :: start <= p < |h| && p !in own ==> Foreign(tid, -1, h[p]))
  }

  predicate Within(h: seq<Section>, own: seq<nat>) {
    forall k :: 0 <= k < |own| ==> own[k] < |h|
  }

  /** A grant test of the resource that finds it taken. */
  predicate FailedTry(h: seq<Section>, p: nat, tid: Tid, rid: string, mode: Mode)
    requires p < |h|
  {
    h[p] == TryGrant(tid, rid, mode) && !Grantable(h[..p], rid, mode)
  }

  /** Grant tests that all found the resource taken: a first one, the start of the wait, and those after wake-ups. */
  predicate Tested(h: seq<Section>, own: seq<nat>, tid: Tid, rid: string, mode: Mode)
    requires Within(h, own)
  {
    && |own| != 1
    && forall k :: 0 <= k < |own| ==>
         if k == 1 then h[own[k]] == StartWaiting(tid, rid, mode) else FailedTry(h, own[k], tid, rid, mode)
  }

  /** How many grant tests there are in such a list. */
  function TestCount(n: nat): nat { if n <= 1 then n else n - 1 }

  /** The wait loop: tests that fail, then one that grants, recorded as a lease, or the last failing one, after which
      the thread gives up. There are at most polls + 1 tests, and as many before giving up. */
  predicate Looped(h: seq<Section>, own: seq<nat>, tid: Tid, rid: string, mode: Mode, polls: nat, acquired: bool)
    requires Within(h, own)
  {
    && |own| >= 2
    && var n := |own| - 2;
       && Tested(h, own[..n], tid, rid, mode) && TestCount(n) <= polls
       && h[own[n]] == TryGrant(tid, rid, mode) && (Grantable(h[..own[n]], rid, mode) <==> acquired)
       && h[own[n + 1]] == (if acquired then RecordLease(tid) else GiveUp(tid))
       && (!acquired ==> TestCount(n) == polls)
  }

  /** All of an acquire: it begins with the open; when the resource was closed the thread opens it itself, and fails
      with a failing open before any grant test. */
  predicate Protocol(h: seq<Section>, own: seq<nat>, tid: Tid, rid: string, mode: Mode, polls: nat, r: AcquireResult)
    requires Within(h, own)
  {
    && own != [] && h[own[0]] == BeginOpen(rid)
    && if !StateIs(Run(INITIAL, h[..own[0]]), rid, Closed) then
         Looped(h, own[1..], tid, rid, mode, polls, r.Acquired?)
       else
         && |own| >= 2
         && if h[own[1]] == FinishOpen(rid, false) then |own| == 2 && own[1] == |h| - 1 && r == Failed
            else h[own[1]] == FinishOpen(rid, true) && Looped(h, own[2..], tid, rid, mode, polls, r.Acquired?)
  }

  lemma MarkOwn(h: seq<Section>, start: nat, own: seq<nat>, tid: Tid, a: Section)
    requires Marks(h, start, own, tid) && start <= |h|
    ensures Marks(h + [a], start, own + [|h|], tid)
  {
    hide Foreign;
    forall p | start <= p < |h + [a]| && p !in own + [|h|]
      ensures Foreign(tid, -1, (h + [a])[p])
    {
      assert (own + [|h|])[|own|] == |h|;
      assert forall k :: 0 <= k < |own| ==> (own + [|h|])[k] == own[k];
      assert p < |h|;
    }
  }

  lemma MarkForeign(h: seq<Section>, h': seq<Section>, start: nat, own: seq<nat>, tid: Tid)
    requires Marks(h, start, own, tid) && h <= h' && AllForeign(tid, -1, h'[|h|..])
    ensures Marks(h', start, own, tid)
  {
    hide Foreign;
    forall p | start <= p < |h'| && p !in own
      ensures Foreign(tid, -1, h'[p])
    {
      if p >= |h| {
        assert h'[p] == h'[|h|..][p - |h|];
      }
    }
  }

  lemma TestedLater(h: seq<Section>, h': seq<Section>, own: seq<nat>, tid: Tid, rid: string, mode: Mode)
    requires Within(h, own) && Tested(h, own, tid, rid, mode) && h <= h'
    ensures Within(h', own) && Tested(h', own, tid, rid, mode)
  {
    hide Grantable;
    forall k | 0 <= k < |own|
      ensures h'[own[k]] == h[own[k]] && h'[..own[k]] == h[..own[k]]
    {
    }
  }

  lemma TestedAgain(h: seq<Section>, h': seq<Section>, own: seq<nat>, tid: Tid, rid: string, mode: Mode)
    requires Within(h, own) && Tested(h, own, tid, rid, mode) && |own| >= 2 && !Grantable(h, rid, mode)
    requires h' == h + [TryGrant(tid, rid, mode)]
    ensures Within(h', own + [|h|]) && Tested(h', own + [|h|], tid, rid, mode)
  {
    hide Grantable;
    TestedLater(h, h', own, tid, rid, mode);
    assert h'[..|h|] == h;
  }

  lemma TestedFirst(h: seq<Section>, h': seq<Section>, tid: Tid, rid: string, mode: Mode)
    requires !Grantable(h, rid, mode) && h' == h + [TryGrant(tid, rid, mode)] + [StartWaiting(tid, rid, mode)]
    ensures Within(h', [|h|, |h| + 1]) && Tested(h', [|h|, |h| + 1], tid, rid, mode)
  {
    hide Grantable;
    assert h'[..|h|] == h;
  }

  lemma LoopEnds(h: seq<Section>, h': seq<Section>, own: seq<nat>, tid: Tid, rid: string, mode: Mode, polls: nat,
                 acquired: bool)
    requires Within(h, own) && Tested(h, own, tid, rid, mode) && TestCount(|own|) <= polls
    requires (Grantable(h, rid, mode) <==> acquired) && (!acquired ==> TestCount(|own|) == polls)
    requires h' == h + [TryGrant(tid, rid, mode)] + [if acquired then RecordLease(tid) else GiveUp(tid)]
    ensures Within(h', own + [|h|] + [|h| + 1])
    ensures Looped(h', own + [|h|] + [|h| + 1], tid, rid, mode, polls, acquired)
  {
    hide Grantable;
    TestedLater(h, h', own, tid, rid, mode);
    var all := own + [|h|] + [|h| + 1];
    assert h'[..|h|] == h && all[..|own|] == own;
    hide Tested;
  }

  lemma MarksJoin(h: seq<Section>, h': seq<Section>, start: nat, a: seq<nat>, b: seq<nat>, tid: Tid)
    requires start <= |h| && h <= h' && Marks(h, start, a, tid) && Marks(h', |h|, b, tid)
    ensures Marks(h', start, a + b, tid)
  {
    hide Foreign;
    forall p | start <= p < |h'| && p !in a + b
      ensures Foreign(tid, -1, h'[p])
    {
      assert forall k :: 0 <= k < |a| ==> (a + b)[k] == a[k];
      assert forall k :: 0 <= k < |b| ==> (a + b)[|a| + k] == b[k];
    }
  }

  lemma NoMarks(h: seq<Section>, tid: Tid)
    ensures Marks(h, |h|, [], tid) && Within(h, [])
  {
  }

  lemma NoTests(h: seq<Section>, tid: Tid, rid: string, mode: Mode)
    ensures Tested(h, [], tid, rid, mode)
  {
  }

  lemma OpenProtocol(h: seq<Section>, own: seq<nat>, tid: Tid, rid: string, mode: Mode, polls: nat)
    requires Within(h, own) && |own| == 2 && own[1] == |h| - 1 && h[own[0]] == BeginOpen(rid)
    requires StateIs(Run(INITIAL, h[..own[0]]), rid, Closed) && h[own[1]] == FinishOpen(rid, false)
    ensures Protocol(h, own, tid, rid, mode, polls, Failed)
  {
    hide Run, Looped;
  }

  lemma WaitProtocol(h: seq<Section>, mid: seq<Section>, first: seq<nat>, rest: seq<nat>, tid: Tid, rid: string,
                     mode: Mode, polls: nat, r: AcquireResult)
    requires mid <= h && Within(mid, first) && 1 <= |first| <= 2 && mid[first[0]] == BeginOpen(rid)
    requires |first| == 2 <==> StateIs(Run(INITIAL, mid[..first[0]]), rid, Closed)
    requires |first| == 2 ==> mid[first[1]] == FinishOpen(rid, true)
    requires Within(h, rest) && Looped(h, rest, tid, rid, mode, polls, r.Acquired?)
    ensures Within(h, first + rest) && Protocol(h, first + rest, tid, rid, mode, polls, r)
  {
    hide Run, Looped;
    var own := first + rest;
    assert own[|first|..] == rest && h[..own[0]] == mid[..first[0]];
  }

  /** A lease of a resource that its acquire found closed was granted after that acquire had opened the resource. */
  lemma OpenedFirst(h: seq<Section>, start: nat, own: seq<nat>, tid: Tid, rid: string, mode: Mode, polls: nat,
                    r: AcquireResult)
    requires Marks(h, start, own, tid) && Protocol(h, own, tid, rid, mode, polls, r) && r.Acquired?
    requires StateIs(Run(INITIAL, h[..own[0]]), rid, Closed)
    ensures exists f, g :: own[0] < f < g < |h| && h[f] == FinishOpen(rid, true) && h[g] == TryGrant(tid, rid, mode) &&
                           Grantable(h[..g], rid, mode)
  {
    hide Run, Tested, Grantable, Foreign;
    var n := |own| - 2;
    assert own[2..][n - 2] == own[n];
    assert own[0] < own[1] < own[n];
  }

  lemma LoopStarts(h: seq<Section>, own: seq<nat>, tid: Tid, rid: string, mode: Mode, polls: nat, acquired: bool)
    requires Within(h, own) && Looped(h, own, tid, rid, mode, polls, acquired)
    ensures |own| >= 2 && h[own[0]] == TryGrant(tid, rid, mode)
  {
    hide Grantable;
    var n := |own| - 2;
    if n > 0 {
      assert own[..n][0] == own[0];
      assert FailedTry(h, own[..n][0], tid, rid, mode);
    }
  }

  /** After an own open that failed there is no grant test of the thread, and the acquire fails. */
  lemma FailedOpenEnds(h: seq<Section>, start: nat, own: seq<nat>, tid: Tid, rid: string, mode: Mode, polls: nat,
                       r: AcquireResult)
    requires Marks(h, start, own, tid) && Protocol(h, own, tid, rid, mode, polls, r)
    requires |own| >= 2 && h[own[1]] == FinishOpen(rid, false)
    ensures r == Failed && forall p :: start <= p < |h| ==> !(h[p].TryGrant? && h[p].tid == tid)
  {
    hide Run, StateIs, Looped;
    if !StateIs(Run(INITIAL, h[..own[0]]), rid, Closed) {
      LoopStarts(h, own[1..], tid, rid, mode, polls, r.Acquired?);
    }
    forall p | start <= p < |h|
      ensures !(h[p].TryGrant? && h[p].tid == tid)
    {
      if p in own {
        assert p == own[0] || p == own[1];
      } else {
        assert Foreign(tid, -1, h[p]);
      }
    }
  }

  /** After the opening part of an acquire the resource is open exactly when it is registered and no other thread was
      opening it when the acquire began: the code does not wait for an open in progress. */
  lemma OpenAfterIff(h: seq<Section>, own: seq<nat>, tid: Tid, rid: string, mode: Mode, polls: nat, r: AcquireResult)
    requires Within(h, own) && Protocol(h, own, tid, rid, mode, polls, r)
    requires !(|own| >= 2 && h[own[1]] == FinishOpen(rid, false))
    ensures var before := Run(INITIAL, h[..own[0]]);
      var last := if StateIs(before, rid, Closed) then own[1] else own[0];
      var after := Run(INITIAL, h[..last + 1]);
      StateIs(after, rid, Open) <==> rid in after.entries && !StateIs(before, rid, Opening)
  {
    hide Looped, Run;
    var before := Run(INITIAL, h[..own[0]]);
    var last := if StateIs(before, rid, Closed) then own[1] else own[0];
    RunSnoc(INITIAL, h[..last], h[last]);
    assert h[..last + 1] == h[..last] + [h[last]];
  }

  const OPENING := [Register("A"), BeginOpen("A")]
  const GRANT := [BeginOpen("A"), TryGrant(2, "A", Exclusive), RecordLease(2)]
  const UNOPENED := OPENING + GRANT + [FinishOpen("A", false)]

  /** While a thread opens a resource another one is granted it; the open fails and the lease stays. */
  lemma GrantedUnopened()
    ensures Marks(OPENING + GRANT, 2, [2, 3, 4], 2)
    ensures Protocol(OPENING + GRANT, [2, 3, 4], 2, "A", Exclusive, 0, Acquired(1))
    ensures var s := Run(INITIAL, UNOPENED);
      && Leased(1) in s.holders && s.holders[Leased(1)] == Grant("A", Exclusive, 2) && 1 in s.leaseMap
      && StateIs(s, "A", Closed)
  {
    var s2, s5 := UnopenedStates();
    assert StateIs(Next(s5, FinishOpen("A", false)), "A", Closed);
    RunConcat(INITIAL, OPENING, GRANT);
    RunSnoc(INITIAL, OPENING + GRANT, FinishOpen("A", false));
    UnopenedMarks();
    UnopenedProtocol(s2);
    hide Run, Marks, Protocol, StateIs;
  }

  lemma UnopenedMarks()
    ensures Marks(OPENING + GRANT, 2, [2, 3, 4], 2)
  {
    var own := [2, 3, 4];
    assert own[0] == 2 && own[1] == 3 && own[2] == 4;
  }

  lemma UnopenedProtocol(s: State)
    requires s == Run(INITIAL, OPENING) == INITIAL.(entries := map["A" := Entry(Opening, 0, false)])
    requires Next(s, BeginOpen("A")) == s
    ensures Within(OPENING + GRANT, [2, 3, 4])
    ensures Protocol(OPENING + GRANT, [2, 3, 4], 2, "A", Exclusive, 0, Acquired(1))
  {
    var h := OPENING + GRANT;
    RunSnoc(INITIAL, OPENING, BeginOpen("A"));
    hide Run, Next;
    assert h[..2] == OPENING && h[..3] == OPENING + [BeginOpen("A")];
    assert Looped(h, [3, 4], 2, "A", Exclusive, 0, true);
    assert [2, 3, 4][1..] == [3, 4];
  }

  lemma UnopenedStates() returns (s: State, t: State)
    ensures s == Run(INITIAL, OPENING) == INITIAL.(entries := map["A" := Entry(Opening, 0, false)])
    ensures Next(s, BeginOpen("A")) == s && t == Run(s, GRANT)
    ensures Leased(1) in t.holders && t.holders[Leased(1)] == Grant("A", Exclusive, 2) && 1 in t.leaseMap
    ensures "A" in t.entries
  {
    s := Next(Next(INITIAL, OPENING[0]), OPENING[1]);
    RunTwo(INITIAL, OPENING[0], OPENING[1]);
    assert s == INITIAL.(entries := map["A" := Entry(Opening, 0, false)]);
    t := GrantTwo(s);
  }

  lemma GrantTwo(s: State) returns (t: State)
    requires s == INITIAL.(entries := map["A" := Entry(Opening, 0, false)])
    ensures Next(s, BeginOpen("A")) == s && t == Run(s, GRANT)
    ensures Leased(1) in t.holders && t.holders[Leased(1)] == Grant("A", Exclusive, 2) && 1 in t.leaseMap
    ensures "A" in t.entries
  {
    t := Next(Next(Next(s, GRANT[0]), GRANT[1]), GRANT[2]);
    RunThree(s, GRANT);
  }

  lemma LastOpen(h: seq<Section>, rid: string)
    requires h != [] && h[|h| - 1] == FinishOpen(rid, false)
    ensures OpenFailed(h, rid)
  {
  }

  lemma LastTry(h: seq<Section>, h': seq<Section>, tid: Tid, rid: string, mode: Mode)
    requires h' == h + [TryGrant(tid, rid, mode)] + [GiveUp(tid)] && !Grantable(h, rid, mode)
    ensures GaveUp(h', tid, rid, mode)
  {
    hide Grantable;
    assert h'[..|h'| - 2] == h;
  }

  /** From position on, the resource was closed, or the lease was taken when its heartbeat was already gone. */
  predicate ClosedOrGone(h: seq<Section>, position: nat, id: int, rid: string) {
    (exists p :: position <= p < |h| && h[p] == ForceClose(rid)) ||
    (exists q :: position <= q < |h| && h[q] == TakeLease(id) && id !in Run(INITIAL, h[..q]).heartbeats)
  }

  lemma ClosedLater(h: seq<Section>, h': seq<Section>, position: nat, id: int, rid: string)
    requires h <= h' && ClosedOrGone(h, position, id, rid)
    ensures ClosedOrGone(h', position, id, rid)
  {
    hide Run;
    if p :| position <= p < |h| && h[p] == ForceClose(rid) {
      assert h'[p] == ForceClose(rid);
    } else {
      var q :| position <= q < |h| && h[q] == TakeLease(id) && id !in Run(INITIAL, h[..q]).heartbeats;
      assert h'[q] == TakeLease(id) && h'[..q] == h[..q];
    }
  }

  /** Each of these leases has left the lease table for good, and its resource was closed or its heartbeat gone. */
  predicate AllReclaimed(h: seq<Section>, position: nat, ids: seq<int>, beats: map<int, string>) {
    forall id :: id in ids ==>
      Retired(Run(INITIAL, h), id) && id in beats && ClosedOrGone(h, position, id, beats[id])
  }

  lemma OneMoreReclaimed(h: seq<Section>, h': seq<Section>, position: nat, ids: seq<int>, i: nat, beats: map<int,
      string>)
    requires i < |ids| && h <= h' && AllReclaimed(h, position, ids[..i], beats)
    requires Retired(Run(INITIAL, h'), ids[i]) && ids[i] in beats && ClosedOrGone(h', position, ids[i], beats[ids[i]])
    ensures AllReclaimed(h', position, ids[..i + 1], beats)
  {
    hide Run, Retired, ClosedOrGone;
    assert ids[..i + 1] == ids[..i] + [ids[i]];
    forall id | id in ids[..i]
      ensures Retired(Run(INITIAL, h'), id) && ClosedOrGone(h', position, id, beats[id])
    {
      RetiredLater(h, h', id);
      ClosedLater(h, h', position, id, beats[id]);
    }
  }

  lemma AllReclaimedUse(h: seq<Section>, position: nat, ids: seq<int>, beats: map<int, string>, i: nat)
    requires i <= |ids|
    ensures i == 0 ==> AllReclaimed(h, position, ids[..i], beats)
    ensures i == |ids| && AllReclaimed(h, position, ids[..i], beats) ==>
              forall id :: id in ids ==>
                id in beats && ClosedOrGone(h, position, id, beats[id]) && id !in Run(INITIAL, h).leaseMap
  {
    hide Run, ClosedOrGone;
    if i == |ids| {
      assert ids[..i] == ids;
    }
  }

  lemma HeartbeatNext(s: State, a: Section, id: int)
    requires id < s.nextLeaseId && id in Next(s, a).heartbeats
    ensures id in s.heartbeats && Next(s, a).heartbeats[id] == s.heartbeats[id]
  {
  }

  /** The heartbeat record of a lease keeps its resource until it is erased. */
  lemma {:induction false} HeartbeatKept(s: State, run: seq<Section>, id: int)
    requires id < s.nextLeaseId && id in Run(s, run).heartbeats
    ensures id in s.heartbeats && Run(s, run).heartbeats[id] == s.heartbeats[id]
    decreases |run|
  {
    hide Next;
    if run != [] {
      NumberNext(s, run[0]);
      HeartbeatKept(Next(s, run[0]), run[1..], id);
      HeartbeatNext(s, run[0], id);
    }
  }

  lemma HeartbeatLater(h: seq<Section>, h': seq<Section>, id: int)
    requires h <= h' && id < Run(INITIAL, h).nextLeaseId && id in Run(INITIAL, h').heartbeats
    ensures id in Run(INITIAL, h).heartbeats
    ensures Run(INITIAL, h').heartbeats[id] == Run(INITIAL, h).heartbeats[id]
  {
    hide Run, Next;
    RunConcat(INITIAL, h, h'[|h|..]);
    assert h' == h + h'[|h|..];
    HeartbeatKept(Run(INITIAL, h), h'[|h|..], id);
  }

  lemma NextOpened(s: State, rid: string, ok: bool)
    ensures Next(s, FinishOpen(rid, ok)) ==
            if rid in s.entries then WithState(s, rid, if ok then Open else Closed) else s
  {
  }

  lemma NextGrant(s: State, tid: Tid, rid: string, mode: Mode)
    requires Acquiring(tid) !in s.holders
    ensures Next(s, TryGrant(tid, rid, mode)) ==
      if rid in s.entries && CanGrant(s.entries[rid], mode) then Granted(s, tid, rid, mode) else s
  {
  }

  lemma NextFinish(s: State, id: int)
    requires Releasing(s, id) && s.holders[Leased(id)].resourceId in s.entries
    ensures Next(s, FinishRelease(id)) == Released(s, id)
  {
  }

  /** The guard of unregisterResource holds exactly when nobody holds a grant of the resource. */
  lemma NobodyHolds(s: State, rid: string)
    requires Inv(s) && rid in s.entries
    ensures (s.entries[rid].sharedCount > 0 || s.entries[rid].hasExclusiveOwner)
      <==> exists h :: h in s.holders && s.holders[h].resourceId == rid
  {
    AccountedUse(s, rid);
    if h :| h in s.holders && s.holders[h].resourceId == rid {
      InferredModeIsGranted(s, h);
    }
    if s.entries[rid].sharedCount > 0 {
      assert Holders(s, rid, Shared) != {};
      var h :| h in Holders(s, rid, Shared);
      assert h in s.holders;
    }
    if s.entries[rid].hasExclusiveOwner {
      assert Holders(s, rid, Exclusive) != {};
      var h :| h in Holders(s, rid, Exclusive);
      assert h in s.holders;
    }
  }

  lemma LeaseNumber(s: State, id: int)
    requires Inv(s) && id in s.leaseMap
    ensures id < s.nextLeaseId && s.holders[Leased(id)].resourceId == s.leaseMap[id]
  {
    hide Owners, Accounted;
  }

  class Manager {
    var entries: map<string, Entry>
    var leaseMap: map<int, string>
    var heartbeats: map<int, string>
    var ownerMap: map<string, Tid>
    var waitMap: map<Tid, string>
    var nextLeaseId: int
    var activeLeaseCount: int
    const policy: PreemptionPolicy
    // the grants not fully released and the threads that really wait, and all sections so far
    var holders: map<Holder, Grant>
    var blocked: map<Tid, Want>
    ghost var history: seq<Section>

    function Snapshot(): State
      reads this
    {
      State(entries, leaseMap, heartbeats, ownerMap, waitMap, nextLeaseId, activeLeaseCount, holders, blocked)
    }

    /** The object is in the state its history leads to. */
    ghost predicate Valid()
      reads this
    {
      Snapshot() == Run(INITIAL, history)
    }

    constructor (policy: PreemptionPolicy)
      ensures Valid() && history == [] && this.policy == policy
    {
      entries := map[];
      leaseMap := map[];
      heartbeats := map[];
      ownerMap := map[];
      waitMap := map[];
      nextLeaseId := 1;
      activeLeaseCount := 0;
      this.policy := policy;
      holders := map[];
      blocked := map[];
      history := [];
    }

    lemma Reached()
      requires Valid()
      ensures Inv(Snapshot())
    {
      InitialInv();
      RunInv(INITIAL, history);
    }

    /** Notes a section that was just performed. */
    ghost method Note(a: Section, s: State)
      requires s == Run(INITIAL, history) && Snapshot() == Next(s, a)
      modifies this`history
      ensures Valid() && history == old(history) + [a]
    {
      RunSnoc(INITIAL, history, a);
      history := history + [a];
    }

    /** Refuses a null resource without looking, and an id that is taken. */
    method RegisterResource(resourceId: string, isNull: bool) returns (ok: bool)
      requires Valid()
      modifies this
      ensures Valid() && history == if isNull then old(history) else old(history) + [Register(resourceId)]
      ensures ok <==> !isNull && resourceId !in old(entries)
      ensures entries == if ok then old(entries)[resourceId := Entry(Closed, 0, false)] else old(entries)
    {
      if isNull { return false; }
      hide Run;
      ghost var s := Snapshot();
      ok := resourceId !in entries;
      if ok {
        entries := entries[resourceId := Entry(Closed, 0, false)];
      }
      Note(Register(resourceId), s);
    }

    /** Refuses a resource somebody holds a grant of. */
    method UnregisterResource(resourceId: string) returns (ok: bool)
      requires Valid()
      modifies this
      ensures Valid() && history == old(history) + [Unregister(resourceId)]
      ensures ok <==> resourceId in old(entries) && forall h :: h in old(holders) ==>
          old(holders)[h].resourceId != resourceId
      ensures entries == if ok then old(entries) - {resourceId} else old(entries)
    {
      Reached();
      ghost var s := Snapshot();
      ok := false;
      if resourceId in entries {
        NobodyHolds(s, resourceId);
        hide Run, Inv;
        var entry := entries[resourceId];
        if !(entry.sharedCount > 0 || entry.hasExclusiveOwner) {
          entries := entries - {resourceId};
          ok := true;
        }
      }
      hide Run, Inv;
      Note(Unregister(resourceId), s);
    }

    method SetOpening(resourceId: string) returns (begun: bool)
      requires Valid()
      modifies this
      ensures Valid() && history == old(history) + [BeginOpen(resourceId)]
      ensures begun <==> StateIs(old(Snapshot()), resourceId, Closed)
      ensures entries == if begun then old(entries)[resourceId := old(entries)[resourceId].(state := Opening)]
                         else old(entries)
      ensures holders == old(holders)
    {
      hide Run;
      ghost var s := Snapshot();
      begun := resourceId in entries && entries[resourceId].state == Closed;
      if begun {
        entries := entries[resourceId := entries[resourceId].(state := Opening)];
      }
      Note(BeginOpen(resourceId), s);
    }

    method SetOpened(resourceId: string, ok: bool)
      requires Valid()
      modifies this
      ensures Valid() && history == old(history) + [FinishOpen(resourceId, ok)]
      ensures entries == if resourceId !in old(entries) then old(entries)
                         else old(entries)[resourceId :=
                                old(entries)[resourceId].(state := if ok then Open else Closed)]
      ensures holders == old(holders)
    {
      ghost var s := Snapshot();
      NextOpened(s, resourceId, ok);
      hide Run, Next;
      if resourceId in entries {
        entries := entries[resourceId := entries[resourceId].(state := if ok then Open else Closed)];
      }
      Note(FinishOpen(resourceId, ok), s);
    }

    /** What the heartbeat monitor does to the resource of an expired lease. */
    method CloseResource(resourceId: string)
      requires Valid()
      modifies this
      ensures Valid() && history == old(history) + [ForceClose(resourceId)]
      ensures entries == if !StateIs(old(Snapshot()), resourceId, Open) then old(entries)
                         else old(entries)[resourceId := old(entries)[resourceId].(state := Closed)]
      ensures !StateIs(Snapshot(), resourceId, Open)
    {
      hide Run;
      ghost var s := Snapshot();
      if resourceId in entries && entries[resourceId].state == Open {
        entries := entries[resourceId := entries[resourceId].(state := Closed)];
      }
      Note(ForceClose(resourceId), s);
    }

    /** The grant test of acquire's wait loop, with what it records. */
    method TryToGrant(tid: Tid, resourceId: string, mode: Mode) returns (granted: bool)
      requires Valid() && Acquiring(tid) !in holders
      modifies this
      ensures Valid() && history == old(history) + [TryGrant(tid, resourceId, mode)]
      ensures granted <==> resourceId in old(entries) && CanGrant(old(entries)[resourceId], mode)
      ensures granted <==> Acquiring(tid) in holders
      ensures granted ==> holders[Acquiring(tid)] == Grant(resourceId, mode, tid)
    {
      ghost var s := Snapshot();
      NextGrant(s, tid, resourceId, mode);
      hide Run, Next;
      granted := false;
      if resourceId in entries {
        var entry := entries[resourceId];
        if mode == Exclusive {
          if entry.sharedCount == 0 && !entry.hasExclusiveOwner {
            entries := entries[resourceId := entry.(hasExclusiveOwner := true)];
            ownerMap := ownerMap[resourceId := tid];
            waitMap := waitMap - {tid};
            granted := true;
          }
        } else {
          if !entry.hasExclusiveOwner {
            entries := entries[resourceId := entry.(sharedCount := entry.sharedCount + 1)];
            granted := true;
          }
        }
        if granted {
          holders := holders[Acquiring(tid) := Grant(resourceId, mode, tid)];
          blocked := blocked - {tid};
          assert Snapshot() == Granted(s, tid, resourceId, mode);
        }
      }
      hide Granted, CanGrant;
      Note(TryGrant(tid, resourceId, mode), s);
    }

    method Wait(tid: Tid, resourceId: string, mode: Mode)
      requires Valid() && Acquiring(tid) !in holders
      modifies this
      ensures Valid() && history == old(history) + [StartWaiting(tid, resourceId, mode)]
      ensures resourceId in old(entries) && !CanGrant(old(entries)[resourceId], mode) ==>
                waitMap == old(waitMap)[tid := resourceId] && blocked == old(blocked)[tid := Want(resourceId, mode)]
      ensures holders == old(holders) && entries == old(entries)
    {
      hide Run;
      ghost var s := Snapshot();
      if resourceId in entries && !CanGrant(entries[resourceId], mode) {
        waitMap := waitMap[tid := resourceId];
        blocked := blocked[tid := Want(resourceId, mode)];
      }
      Note(StartWaiting(tid, resourceId, mode), s);
    }

    method StopWaiting(tid: Tid)
      requires Valid()
      modifies this
      ensures Valid() && history == old(history) + [GiveUp(tid)]
      ensures waitMap == old(waitMap) - {tid} && blocked == old(blocked) - {tid}
      ensures holders == old(holders) && entries == old(entries) && tid !in waitMap
    {
      hide Run;
      ghost var s := Snapshot();
      waitMap := waitMap - {tid};
      blocked := blocked - {tid};
      Note(GiveUp(tid), s);
    }

    /** Gives the grant of a thread its lease number. */
    method Record(tid: Tid) returns (leaseId: int)
      requires Valid() && Acquiring(tid) in holders
      modifies this
      ensures Valid() && history == old(history) + [RecordLease(tid)]
      ensures Acquiring(tid) !in holders && leaseId in leaseMap
      ensures Leased(leaseId) in holders && holders[Leased(leaseId)] == old(holders)[Acquiring(tid)]
      ensures leaseId == old(nextLeaseId) && nextLeaseId == leaseId + 1 && activeLeaseCount == old(activeLeaseCount) + 1
      ensures var rid := old(holders)[Acquiring(tid)].resourceId;
              leaseMap == old(leaseMap)[leaseId := rid] && heartbeats == old(heartbeats)[leaseId := rid]
    {
      hide Run;
      ghost var s := Snapshot();
      var grant := holders[Acquiring(tid)];
      leaseId := nextLeaseId;
      nextLeaseId := nextLeaseId + 1;
      leaseMap := leaseMap[leaseId := grant.resourceId];
      activeLeaseCount := activeLeaseCount + 1;
      heartbeats := heartbeats[leaseId := grant.resourceId];
      holders := (holders - {Acquiring(tid)})[Leased(leaseId) := grant];
      Note(RecordLease(tid), s);
    }

    /** Any sections of other threads. */
    method Interfere(tid: Tid, own: int, ghost g: Grant)
      requires Valid()
      modifies this
      ensures Valid() && old(history) <= history
      ensures Acquiring(tid) in holders <==> Acquiring(tid) in old(holders)
      ensures AllForeign(tid, own, history[|old(history)|..])
      ensures InRelease(old(Snapshot()), own, g) ==> InRelease(Snapshot(), own, g)
    {
      assert AllForeign(tid, own, history[|history|..]);
      hide Run, InRelease;
      hide AllForeign;
      var run: seq<Section> := *;
      if !AllForeign(tid, own, run) { return; }
      var before := Snapshot();
      var s := Run(before, run);
      ForeignRun(before, tid, own, run, g);
      RunConcat(INITIAL, history, run);
      entries, leaseMap, heartbeats, ownerMap, waitMap := s.entries, s.leaseMap, s.heartbeats, s.ownerMap, s.waitMap;
      nextLeaseId, activeLeaseCount, holders, blocked := s.nextLeaseId, s.activeLeaseCount, s.holders, s.blocked;
      history := history + run;
      assert history[|old(history)|..] == run;
    }

    /** What the history says about the entries holds of them. */
    lemma Now()
      requires Valid()
      ensures forall rid, mode ::
                Grantable(history, rid, mode) <==> rid in entries && CanGrant(entries[rid], mode)
    {
      hide Run;
    }

    /** acquire: polls is how often the condition variable wakes the thread before its deadline; own are the positions
        of its own sections in the history. */
    method Acquire(tid: Tid, resourceId: string, mode: Mode, polls: nat)
      returns (r: AcquireResult, ghost own: seq<nat>)
      requires Valid() && Acquiring(tid) !in holders
      modifies this
      ensures Valid() && old(history) <= history
      ensures Acquiring(tid) !in holders
      ensures r.Acquired? ==> r.leaseId in leaseMap
      ensures r.Acquired? ==> Leased(r.leaseId) in holders && holders[Leased(r.leaseId)] == Grant(resourceId, mode, tid)
      ensures r.Acquired? ==> |history| > 0 && history[|history| - 1] == RecordLease(tid)
      ensures resourceId !in old(entries) ==> r == Failed && history == old(history)
      ensures r == Failed ==>
                resourceId !in old(entries) || OpenFailed(history, resourceId) || GaveUp(history, tid, resourceId, mode)
      ensures Marks(history, |old(history)|, own, tid) && Within(history, own)
      ensures resourceId in old(entries) ==> Protocol(history, own, tid, resourceId, mode, polls, r)
    {
      hide *;
      own := [];
      if resourceId !in entries {
        NoMarks(history, tid);
        return Failed, own;
      }
      ghost var start := history;
      ghost var first, rest;
      var open: bool;
      open, first := EnsureOpen(tid, resourceId);
      if !open {
        OpenProtocol(history, first, tid, resourceId, mode, polls);
        return Failed, first;
      }
      ghost var mid := history;
      r, rest := AwaitGrant(tid, resourceId, mode, polls);
      own := first + rest;
      MarksJoin(mid, history, |start|, first, rest, tid);
      WaitProtocol(history, mid, first, rest, tid, resourceId, mode, polls, r);
    }

    /** The opening part of acquire: a closed resource is opened by the thread itself. */
    method EnsureOpen(tid: Tid, resourceId: string) returns (ok: bool, ghost own: seq<nat>)
      requires Valid() && Acquiring(tid) !in holders
      modifies this
      ensures Valid() && old(history) <= history && Acquiring(tid) !in holders
      ensures Marks(history, |old(history)|, own, tid) && Within(history, own)
      ensures 1 <= |own| <= 2 && own[0] < |history| && history[own[0]] == BeginOpen(resourceId)
      ensures |own| == 2 <==> StateIs(Run(INITIAL, history[..own[0]]), resourceId, Closed)
      ensures |own| == 2 ==> own[1] < |history| && history[own[1]] == FinishOpen(resourceId, ok)
      ensures !ok ==> |own| == 2 && own[1] == |history| - 1 && OpenFailed(history, resourceId)
    {
      hide InRelease, Foreign, AllForeign, Run;
      ghost var g := Grant(resourceId, Shared, tid);
      ghost var start := history;
      NoMarks(start, tid);
      hide Marks;
      Interfere(tid, -1, g);
      MarkForeign(start, history, |start|, [], tid);
      ghost var h0 := history;
      assert Snapshot() == Run(INITIAL, h0);
      var begun := SetOpening(resourceId);
      MarkOwn(h0, |start|, [], tid, BeginOpen(resourceId));
      own := [] + [|h0|];
      ok := true;
      assert history[..|h0|] == h0 && history[|h0|] == BeginOpen(resourceId);
      hide Valid, StateIs;
      if begun {
        ghost var h1 := history;
        Interfere(tid, -1, g);
        MarkForeign(h1, history, |start|, own, tid);
        ghost var h2 := history;
        ok := *;
        SetOpened(resourceId, ok);
        MarkOwn(h2, |start|, own, tid, FinishOpen(resourceId, ok));
        own := own + [|h2|];
        assert history[..|h0|] == h0 && history[|h0|] == BeginOpen(resourceId);
        if !ok {
          LastOpen(history, resourceId);
          return;
        }
        ghost var h3 := history;
        Interfere(tid, -1, g);
        MarkForeign(h3, history, |start|, own, tid);
        assert history[..|h0|] == h0;
      }
    }

    /** The wait loop of acquire, and recording the lease. */
    method AwaitGrant(tid: Tid, resourceId: string, mode: Mode, polls: nat)
      returns (r: AcquireResult, ghost own: seq<nat>)
      requires Valid() && Acquiring(tid) !in holders
      modifies this
      ensures Valid() && old(history) <= history
      ensures Acquiring(tid) !in holders
      ensures r.Acquired? ==> r.leaseId in leaseMap
      ensures r.Acquired? ==> Leased(r.leaseId) in holders && holders[Leased(r.leaseId)] == Grant(resourceId, mode, tid)
      ensures r.Acquired? ==> |history| > 0 && history[|history| - 1] == RecordLease(tid)
      ensures r == Failed ==> GaveUp(history, tid, resourceId, mode)
      ensures Marks(history, |old(history)|, own, tid) && Within(history, own)
      ensures Looped(history, own, tid, resourceId, mode, polls, r.Acquired?)
    {
      hide Valid, InRelease, Snapshot, GaveUp, Foreign, Marks, Looped, Tested, AllForeign;
      ghost var start := history;
      own := [];
      NoMarks(start, tid);
      assert Tested(start, [], tid, resourceId, mode) by { NoTests(start, tid, resourceId, mode); }
      var waited := false;
      var left := polls;
      while true
        invariant Valid() && start <= history && Acquiring(tid) !in holders
        invariant Marks(history, |start|, own, tid) && Within(history, own)
        invariant Tested(history, own, tid, resourceId, mode)
        invariant (waited <==> own != []) && |own| != 1 && TestCount(|own|) + left == polls
        decreases left
      {
        ghost var h := history;
        ghost var free := resourceId in entries && CanGrant(entries[resourceId], mode);
        assert free == Grantable(h, resourceId, mode) by { Now(); }
        var acquired := TryToGrant(tid, resourceId, mode);
        MarkOwn(h, |start|, own, tid, TryGrant(tid, resourceId, mode));
        ghost var tried := own + [|h|];
        ghost var h1 := history;
        if acquired {
          var leaseId := Record(tid);
          MarkOwn(h1, |start|, tried, tid, RecordLease(tid));
          LoopEnds(h, history, own, tid, resourceId, mode, polls, true);
          own := tried + [|h1|];
          return Acquired(leaseId), own;
        }
        if left == 0 {
          StopWaiting(tid);
          MarkOwn(h1, |start|, tried, tid, GiveUp(tid));
          LoopEnds(h, history, own, tid, resourceId, mode, polls, false);
          LastTry(h, history, tid, resourceId, mode);
          own := tried + [|h1|];
          return Failed, own;
        }
        if !waited {
          waited := true;
          Wait(tid, resourceId, mode);
          MarkOwn(h1, |start|, tried, tid, StartWaiting(tid, resourceId, mode));
          TestedFirst(h, history, tid, resourceId, mode);
          assert tried + [|h1|] == [|h|, |h| + 1];
          own := [|h|, |h| + 1];
        } else {
          TestedAgain(h, history, own, tid, resourceId, mode);
          own := tried;
        }
        ghost var h2 := history;
        Interfere(tid, -1, Grant(resourceId, mode, tid));
        MarkForeign(h2, history, |start|, own, tid);
        TestedLater(h2, history, own, tid, resourceId, mode);
        left := left - 1;
      }
    }

    /** Takes a lease out of the tables; false for a lease that is not there any more. */
    method Take(leaseId: int) returns (found: bool)
      requires Valid()
      modifies this
      ensures Valid() && history == old(history) + [TakeLease(leaseId)]
      ensures found <==> leaseId in old(leaseMap)
      ensures holders == old(holders) && entries == old(entries) && leaseId !in leaseMap && leaseId !in heartbeats
      ensures ownerMap == old(ownerMap) && nextLeaseId == old(nextLeaseId)
      ensures forall id :: id != leaseId ==> (id in leaseMap <==> id in old(leaseMap))
    {
      hide Run;
      ghost var s := Snapshot();
      heartbeats := heartbeats - {leaseId};
      found := leaseId in leaseMap;
      leaseMap := leaseMap - {leaseId};
      Note(TakeLease(leaseId), s);
    }

    /** Updates the entry of a lease that was taken out of the tables, with the mode inferred from it. */
    method Finish(leaseId: int, resourceId: string) returns (mode: Mode)
      requires Valid() && Leased(leaseId) in holders && leaseId !in leaseMap
      requires holders[Leased(leaseId)].resourceId == resourceId
      modifies this
      ensures Valid() && history == old(history) + [FinishRelease(leaseId)]
      ensures mode == old(holders)[Leased(leaseId)].mode
      ensures Leased(leaseId) !in holders
      ensures holders == old(holders) - {Leased(leaseId)} && leaseMap == old(leaseMap)
      ensures activeLeaseCount == old(activeLeaseCount) - 1 && resourceId in old(entries)
      ensures mode == Exclusive ==>
                ownerMap == old(ownerMap) - {resourceId} &&
                entries == old(entries)[resourceId := old(entries)[resourceId].(hasExclusiveOwner := false)]
      ensures mode == Shared ==>
                ownerMap == old(ownerMap) &&
                entries == old(entries)[resourceId :=
                  old(entries)[resourceId].(sharedCount := old(entries)[resourceId].sharedCount - 1)]
    {
      Reached();
      ghost var s := Snapshot();
      InferredModeIsGranted(s, Leased(leaseId));
      NextFinish(s, leaseId);
      hide Run, Inv, Next;
      var entry := entries[resourceId];
      mode := if entry.hasExclusiveOwner then Exclusive else Shared;
      if entry.hasExclusiveOwner {
        entries := entries[resourceId := entry.(hasExclusiveOwner := false)];
        ownerMap := ownerMap - {resourceId};
      } else if entry.sharedCount > 0 {
        entries := entries[resourceId := entry.(sharedCount := entry.sharedCount - 1)];
      }
      activeLeaseCount := activeLeaseCount - 1;
      holders := holders - {Leased(leaseId)};
      Note(FinishRelease(leaseId), s);
    }

    /** releaseLease, called by a thread through a handle, or by the heartbeat monitor; other threads run
        between taking the lease out of the tables and updating its entry. */
    method ReleaseLease(tid: Tid, leaseId: int) returns (released: bool)
      requires Valid()
      modifies this
      ensures Valid() && old(history) <= history
      ensures released <==> leaseId in old(leaseMap)
      ensures released ==> Leased(leaseId) !in holders && leaseId !in leaseMap
      ensures released ==> history[|history| - 1] == FinishRelease(leaseId)
      ensures released ==>
                |history| >= |old(history)| + 2 &&
                AllForeign(tid, leaseId, history[|old(history)| + 1..|history| - 1])
      ensures leaseId < old(nextLeaseId) ==> Retired(Snapshot(), leaseId)
      ensures |history| > |old(history)| && history[|old(history)|] == TakeLease(leaseId)
      ensures !released ==> history == old(history) + [TakeLease(leaseId)]
      ensures !released ==> holders == old(holders) && entries == old(entries)
    {
      Reached();
      ghost var s := Snapshot();
      hide Run, AllForeign;
      var resourceId := if leaseId in leaseMap then leaseMap[leaseId] else "";
      if leaseId in leaseMap {
        LeaseIsLive(s, leaseId);
        LeaseNumber(s, leaseId);
      }
      hide Inv;
      released := Take(leaseId);
      ghost var h := history;
      if released {
        ghost var g := holders[Leased(leaseId)];
        Interfere(tid, leaseId, g);
        ghost var h' := history;
        var mode := Finish(leaseId, resourceId);
        assert history[|h|..|history| - 1] == h'[|h|..];
      }
      if leaseId < s.nextLeaseId {
        RetiredLater(h, history, leaseId);
      }
    }

    /** The heartbeat monitor reclaims expired leases, whose numbers it read from the heartbeat table, and closes their
        resources, unless another thread released the lease first. None of the leases comes back. */
    method Reclaim(monitor: Tid, expired: seq<int>)
      requires Valid() && forall id :: id in expired ==> id in heartbeats
      modifies this
      ensures Valid() && old(history) <= history
      ensures forall id :: id in expired ==> id !in leaseMap
      ensures forall id :: id in expired ==> ClosedOrGone(history, |old(history)|, id, old(heartbeats)[id])
    {
      Reached();
      assert forall id :: id in expired ==> id < nextLeaseId;
      ghost var start, n := history, nextLeaseId;
      ghost var beats := heartbeats;
      AllReclaimedUse(history, |history|, expired, beats, 0);
      hide Run, Inv, Next, ClosedOrGone, AllReclaimed;
      var i := 0;
      while i < |expired|
        invariant 0 <= i <= |expired|
        invariant Valid() && start <= history && n <= nextLeaseId
        invariant AllReclaimed(history, |start|, expired[..i], beats)
      {
        var id := expired[i];
        var known := id in heartbeats;
        var rid := if known then heartbeats[id] else "";
        ghost var h := history;
        assert id in expired;
        if known { HeartbeatLater(start, history, id); }
        ReclaimOne(monitor, id, known, rid, |start|);
        OneMoreReclaimed(h, history, |start|, expired, i, beats);
        i := i + 1;
      }
      AllReclaimedUse(history, |start|, expired, beats, i);
    }

    method ReclaimOne(monitor: Tid, leaseId: int, known: bool, rid: string, ghost position: nat)
      requires Valid() && leaseId < nextLeaseId && position <= |history|
      requires known == (leaseId in heartbeats)
      modifies this
      ensures Valid() && old(history) <= history && old(nextLeaseId) <= nextLeaseId
      ensures Retired(Snapshot(), leaseId)
      ensures known ==> history != [] && history[|history| - 1] == ForceClose(rid) && !StateIs(Snapshot(), rid, Open)
      ensures known ==> ClosedOrGone(history, position, leaseId, rid)
      ensures !known ==> forall r :: ClosedOrGone(history, position, leaseId, r)
    {
      hide Run, Next, StateIs;
      ghost var h0 := history;
      var released := ReleaseLease(monitor, leaseId);
      ghost var h := history;
      if known {
        CloseResource(rid);
      }
      RetiredLater(h, history, leaseId);
      NumbersLater(h0, history);
      assert heartbeats - {leaseId} == heartbeats;
      heartbeats := heartbeats - {leaseId};
      if !known {
        assert history[|h0|] == TakeLease(leaseId) && history[..|h0|] == h0;
      }
    }

    /** Reports the deadlocks on record and, when the policy says so, erases one wait record of each. It wakes nobody:
        who really waits for whom, and every real deadlock, stays as it was. */
    method DetectAndPreempt() returns (reported: set<Tid>)
      requires Valid()
      modifies this
      ensures Valid() && history == old(history) + [Preempt(old(waitMap).Keys - waitMap.Keys)]
      ensures ownerMap == old(ownerMap) && holders == old(holders) && blocked == old(blocked)
      ensures forall t :: t in reported ==> Deadlocked(Waits(ownerMap, old(waitMap)), t)
      ensures policy != ForcePreempt ==> waitMap == old(waitMap)
      ensures policy != ForcePreempt ==> forall t :: Deadlocked(Waits(ownerMap, waitMap), t) ==> t in reported
      ensures policy == ForcePreempt ==> forall t :: !Deadlocked(Waits(ownerMap, waitMap), t)
      ensures policy == ForcePreempt ==> SubWaits(Waits(ownerMap, waitMap), Waits(ownerMap, old(waitMap)))
      ensures policy == ForcePreempt ==> OnePerCycle(Waits(ownerMap, old(waitMap)), old(waitMap).Keys - waitMap.Keys)
      ensures NeverUncovers(INITIAL, old(history)) && policy != ForcePreempt ==>
                forall c, t :: RealCycle(Snapshot(), c) && t in c ==> (t in reported <==> VisibleCycle(Snapshot(), c))
      ensures NeverSpoils(INITIAL, old(history)) && policy != ForcePreempt ==>
                forall t :: t in reported <==> VisiblyDeadlocked(Snapshot(), t)
      ensures forall c :: RealCycle(Snapshot(), c) <==> RealCycle(old(Snapshot()), c)
    {
      hide Run, Deadlocked, OnePerCycle, NeverUncovers, NeverSpoils, VisibleCycle, VisiblyDeadlocked;
      ghost var s := Snapshot();
      var wait;
      wait, reported := DetectDeadlock(Waits(ownerMap, waitMap), policy);
      ghost var lost := waitMap.Keys - wait.Keys;
      assert waitMap - lost == wait;
      waitMap := wait;
      Note(Preempt(lost), s);
      forall c
        ensures RealCycle(Snapshot(), c) <==> RealCycle(s, c)
      {
        PreemptionFreesNobody(s, lost, c);
      }
      assert policy != ForcePreempt ==> Snapshot() == s;
      Completeness(old(history), s);
    }
  }

  /** What the detector sees of the state a history leads to. */
  lemma Completeness(h: seq<Section>, s: State)
    requires s == Run(INITIAL, h)
    ensures NeverUncovers(INITIAL, h) ==>
              forall c, t :: RealCycle(s, c) && t in c ==> (Deadlocked(OnRecord(s), t) <==> VisibleCycle(s, c))
    ensures NeverSpoils(INITIAL, h) ==> forall t :: Deadlocked(OnRecord(s), t) <==> VisiblyDeadlocked(s, t)
  {
    hide Run, Deadlocked, NeverUncovers, NeverSpoils, VisibleCycle, VisiblyDeadlocked;
    if NeverUncovers(INITIAL, h) {
      forall c, t | RealCycle(s, c) && t in c
        ensures Deadlocked(OnRecord(s), t) <==> VisibleCycle(s, c)
      {
        MissedIff(h, c, t);
      }
    }
    if NeverSpoils(INITIAL, h) {
      forall t
        ensures Deadlocked(OnRecord(s), t) <==> VisiblyDeadlocked(s, t)
      {
        RecordsAreReal(h, t);
      }
    }
  }

  /** A lease handle: releasing it again, or releasing it after the monitor reclaimed the lease, does nothing. */
  class LeaseHandle {
    var leaseId: int
    var valid: bool

    constructor (leaseId: int)
      ensures this.leaseId == leaseId && valid
    {
      this.leaseId := leaseId;
      valid := true;
    }

    method Release(tid: Tid, manager: Manager) returns (released: bool)
      requires manager.Valid()
      modifies this, manager
      ensures manager.Valid() && !valid
      ensures released <==> old(valid) && old(leaseId) in old(manager.leaseMap)
      ensures released ==> Leased(old(leaseId)) !in manager.holders
      ensures !released ==> manager.holders == old(manager.holders) && manager.entries == old(manager.entries)
    {
      if !valid { return false; }
      valid := false;
      released := manager.ReleaseLease(tid, leaseId);
      leaseId := -1;
    }
  }
}
