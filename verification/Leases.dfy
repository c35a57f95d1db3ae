/** The lease bookkeeping of ResourceManager as a transition system over its critical sections. Every
    interleaving of threads is a sequence of these sections. */
module Leases {

  import opened Common

  datatype Mode = Shared | Exclusive

  datatype ResourceState = Closed | Opening | Open

  datatype Entry = Entry(state: ResourceState, sharedCount: int, hasExclusiveOwner: bool)

  /** Who holds a grant: a thread still inside acquire, or a recorded lease. */
  datatype Holder = Acquiring(tid: Tid) | Leased(leaseId: int)

  datatype Grant = Grant(resourceId: string, mode: Mode, tid: Tid)

  /** What a waiting thread waits for. */
  datatype Want = Want(resourceId: string, mode: Mode)

  /** The tables of the manager. holders and blocked are history: the grants that are not fully
      released yet, and the threads that really wait, with what for. */
  datatype State = State(
    entries: map<string, Entry>,
    leaseMap: map<int, string>,
    heartbeats: map<int, string>,
    ownerMap: map<string, Tid>,
    waitMap: map<Tid, string>,
    nextLeaseId: int,
    activeLeaseCount: int,
    holders: map<Holder, Grant>,
    blocked: map<Tid, Want>)

  const INITIAL := State(map[], map[], map[], map[], map[], 1, 0, map[], map[])

  // ---------------------------------------------------------------- the critical sections

  datatype Section =
    | Register(resourceId: string)
    | Unregister(resourceId: string)
    | BeginOpen(resourceId: string)
    | FinishOpen(resourceId: string, ok: bool)
    | ForceClose(resourceId: string)
    | TryGrant(tid: Tid, resourceId: string, mode: Mode)
    | StartWaiting(tid: Tid, resourceId: string, mode: Mode)
    | GiveUp(tid: Tid)
    | RecordLease(tid: Tid)
    | TakeLease(leaseId: int)
    | FinishRelease(leaseId: int)
    | Preempt(tids: set<Tid>)

  predicate CanGrant(e: Entry, mode: Mode) {
    if mode == Exclusive then e.sharedCount == 0 && !e.hasExclusiveOwner else !e.hasExclusiveOwner
  }

  /** A lease that left the lease table but whose entry is not updated yet. */
  predicate Releasing(s: State, leaseId: int) {
    Leased(leaseId) in s.holders && leaseId !in s.leaseMap
  }

  /** The mode releaseLease infers from the entry. */
  function InferredMode(e: Entry): Mode {
    if e.hasExclusiveOwner then Exclusive else Shared
  }

  function AfterRelease(e: Entry): Entry {
    if e.hasExclusiveOwner then e.(hasExclusiveOwner := false)
    else if e.sharedCount > 0 then e.(sharedCount := e.sharedCount - 1)
    else e
  }

  function Granted(s: State, tid: Tid, rid: string, mode: Mode): State
    requires rid in s.entries
  {
    var e := s.entries[rid];
    var s := s.(holders := s.holders[Acquiring(tid) := Grant(rid, mode, tid)], blocked := s.blocked - {tid});
    if mode == Exclusive then
      s.(entries := s.entries[rid := e.(hasExclusiveOwner := true)],
         ownerMap := s.ownerMap[rid := tid],
         waitMap := s.waitMap - {tid})
    else
      s.(entries := s.entries[rid := e.(sharedCount := e.sharedCount + 1)])
  }

  /** A grant marks its resource as owned and names the owner, or counts one sharer more; only an exclusive grant erases
      the wait record of the thread. */
  lemma GrantMeaning(s: State, tid: Tid, rid: string, mode: Mode)
    requires rid in s.entries
    ensures var s', e := Granted(s, tid, rid, mode), s.entries[rid];
      && s'.holders == s.holders[Acquiring(tid) := Grant(rid, mode, tid)] && s'.blocked == s.blocked - {tid}
      && (mode == Exclusive ==>
            s'.entries == s.entries[rid := Entry(e.state, e.sharedCount, true)] &&
            s'.ownerMap == s.ownerMap[rid := tid] && s'.waitMap == s.waitMap - {tid})
      && (mode == Shared ==>
            s'.entries == s.entries[rid := Entry(e.state, e.sharedCount + 1, e.hasExclusiveOwner)] &&
            s'.ownerMap == s.ownerMap && s'.waitMap == s.waitMap)
  {
  }

  function Recorded(s: State, tid: Tid): State
    requires Acquiring(tid) in s.holders
  {
    var g := s.holders[Acquiring(tid)];
    var id := s.nextLeaseId;
    s.(leaseMap := s.leaseMap[id := g.resourceId], heartbeats := s.heartbeats[id := g.resourceId],
       nextLeaseId := id + 1, activeLeaseCount := s.activeLeaseCount + 1,
       holders := (s.holders - {Acquiring(tid)})[Leased(id) := g])
  }

  function Released(s: State, id: int): State
    requires Leased(id) in s.holders && s.holders[Leased(id)].resourceId in s.entries
  {
    var rid := s.holders[Leased(id)].resourceId;
    var e := s.entries[rid];
    s.(entries := s.entries[rid := AfterRelease(e)],
       ownerMap := if e.hasExclusiveOwner then s.ownerMap - {rid} else s.ownerMap,
       activeLeaseCount := s.activeLeaseCount - 1,
       holders := s.holders - {Leased(id)})
  }

  predicate StateIs(s: State, rid: string, st: ResourceState) {
    rid in s.entries && s.entries[rid].state == st
  }

  function WithState(s: State, rid: string, st: ResourceState): State
    requires rid in s.entries
  {
    s.(entries := s.entries[rid := s.entries[rid].(state := st)])
  }

  /** One critical section; a section whose guard fails changes nothing. */
  function Next(s: State, a: Section): State {
    match a
    case Register(rid) =>
      if rid in s.entries then s else s.(entries := s.entries[rid := Entry(Closed, 0, false)])
    case Unregister(rid) =>
      if rid !in s.entries || s.entries[rid].sharedCount > 0 || s.entries[rid].hasExclusiveOwner then s
      else s.(entries := s.entries - {rid})
    case BeginOpen(rid) => if StateIs(s, rid, Closed) then WithState(s, rid, Opening) else s
    case FinishOpen(rid, ok) => if rid in s.entries then WithState(s, rid, if ok then Open else Closed) else s
    case ForceClose(rid) => if StateIs(s, rid, Open) then WithState(s, rid, Closed) else s
    case TryGrant(tid, rid, mode) =>
      if rid !in s.entries || Acquiring(tid) in s.holders || !CanGrant(s.entries[rid], mode) then s
      else Granted(s, tid, rid, mode)
    case StartWaiting(tid, rid, mode) =>
      if rid !in s.entries || Acquiring(tid) in s.holders || CanGrant(s.entries[rid], mode) then s
      else s.(waitMap := s.waitMap[tid := rid], blocked := s.blocked[tid := Want(rid, mode)])
    case GiveUp(tid) =>
      s.(waitMap := s.waitMap - {tid}, blocked := s.blocked - {tid})
    case RecordLease(tid) =>
      if Acquiring(tid) in s.holders then Recorded(s, tid) else s
    case TakeLease(id) =>
      s.(heartbeats := s.heartbeats - {id}, leaseMap := s.leaseMap - {id})
    case FinishRelease(id) =>
      if Releasing(s, id) && s.holders[Leased(id)].resourceId in s.entries then Released(s, id) else s
    case Preempt(tids) =>
      s.(waitMap := s.waitMap - tids)
  }

  function Run(s: State, run: seq<Section>): State
    decreases |run|
  {
    if run == [] then s else Run(Next(s, run[0]), run[1..])
  }

  // ---------------------------------------------------------------- the invariant

  /** The holders of a resource in a mode. */
  function Holders(s: State, rid: string, mode: Mode): set<Holder> {
    set h | h in s.holders && s.holders[h].resourceId == rid && s.holders[h].mode == mode
  }

  function Leasing(s: State): set<Holder> {
    set h | h in s.holders && h.Leased?
  }

  /** The counters of an entry describe its holders, and an exclusive holder is alone. */
  ghost predicate Accounted(s: State, rid: string) {
    if rid in s.entries then
      && s.entries[rid].sharedCount == |Holders(s, rid, Shared)|
      && |Holders(s, rid, Exclusive)| == (if s.entries[rid].hasExclusiveOwner then 1 else 0)
      && (s.entries[rid].hasExclusiveOwner ==> s.entries[rid].sharedCount == 0)
    else
      Holders(s, rid, Shared) == {} && Holders(s, rid, Exclusive) == {}
  }

  ghost predicate Owners(s: State) {
    && (forall rid :: rid in s.ownerMap <==> rid in s.entries && s.entries[rid].hasExclusiveOwner)
    && (forall h :: h in s.holders && s.holders[h].mode == Exclusive ==>
          s.holders[h].resourceId in s.ownerMap && s.ownerMap[s.holders[h].resourceId] == s.holders[h].tid)
  }

  ghost predicate Tables(s: State) {
    && (forall id :: id in s.leaseMap ==> Leased(id) in s.holders && s.holders[Leased(id)].resourceId == s.leaseMap[id])
    && (forall h :: h in s.holders && h.Leased? ==> h.leaseId < s.nextLeaseId)
    && (forall id :: id in s.heartbeats ==> id < s.nextLeaseId)
    && (forall t :: Acquiring(t) in s.holders ==> s.holders[Acquiring(t)].tid == t)
    && s.activeLeaseCount == |Leasing(s)|
  }

  ghost predicate Inv(s: State) {
    Tables(s) && Owners(s) && forall rid :: Accounted(s, rid)
  }

  lemma HoldersAdd(s: State, s': State, h: Holder, g: Grant, rid: string, mode: Mode)
    requires h !in s.holders && s'.holders == s.holders[h := g]
    ensures Holders(s', rid, mode) == Holders(s, rid, mode) + (if g.resourceId == rid &&
        g.mode == mode then {h} else {})
    ensures |Holders(s', rid, mode)| == |Holders(s, rid, mode)| + (if g.resourceId == rid &&
        g.mode == mode then 1 else 0)
  {
    if g.resourceId == rid && g.mode == mode {
      assert Holders(s', rid, mode) == Holders(s, rid, mode) + {h};
    } else {
      assert Holders(s', rid, mode) == Holders(s, rid, mode);
    }
  }

  lemma HoldersRemove(s: State, s': State, h: Holder, rid: string, mode: Mode)
    requires h in s.holders && s'.holders == s.holders - {h}
    ensures |Holders(s', rid, mode)| ==
      |Holders(s, rid, mode)| - (if s.holders[h].resourceId == rid && s.holders[h].mode == mode then 1 else 0)
    ensures Holders(s', rid, mode) <= Holders(s, rid, mode)
  {
    var g := s.holders[h];
    HoldersAdd(s', s.(holders := s'.holders[h := g]), h, g, rid, mode);
    assert s'.holders[h := g] == s.holders;
    assert Holders(s.(holders := s'.holders[h := g]), rid, mode) == Holders(s, rid, mode);
  }

  lemma AccountedUse(s: State, rid: string)
    requires forall r :: Accounted(s, r)
    ensures Accounted(s, rid)
  {
  }

  /** Sections that leave holders and the counters alone keep every account. */
  lemma AccountedFrame(s: State, s': State)
    requires forall rid :: Accounted(s, rid)
    requires s'.holders == s.holders && s'.entries.Keys == s.entries.Keys
    requires forall rid :: rid in s.entries ==>
      s'.entries[rid].sharedCount == s.entries[rid].sharedCount &&
          s'.entries[rid].hasExclusiveOwner == s.entries[rid].hasExclusiveOwner
    ensures forall rid :: Accounted(s', rid)
  {
    forall rid
      ensures Accounted(s', rid)
    {
      AccountedUse(s, rid);
      assert Holders(s', rid, Shared) == Holders(s, rid, Shared) &&
          Holders(s', rid, Exclusive) == Holders(s, rid, Exclusive);
    }
  }

  lemma GrantedAccounted(s: State, tid: Tid, rid: string, mode: Mode)
    requires Inv(s) && rid in s.entries && Acquiring(tid) !in s.holders && CanGrant(s.entries[rid], mode)
    ensures forall r :: Accounted(Granted(s, tid, rid, mode), r)
  {
    var s' := Granted(s, tid, rid, mode);
    forall r
      ensures Accounted(s', r)
    {
      AccountedUse(s, r);
      HoldersAdd(s, s', Acquiring(tid), Grant(rid, mode, tid), r, Shared);
      HoldersAdd(s, s', Acquiring(tid), Grant(rid, mode, tid), r, Exclusive);
      hide Holders;
    }
  }

  lemma GrantedInv(s: State, tid: Tid, rid: string, mode: Mode)
    requires Inv(s) && rid in s.entries && Acquiring(tid) !in s.holders && CanGrant(s.entries[rid], mode)
    ensures Inv(Granted(s, tid, rid, mode))
  {
    var s' := Granted(s, tid, rid, mode);
    GrantedAccounted(s, tid, rid, mode);
    AloneInEntry(s, rid);
    hide Accounted;
    assert Leasing(s') == Leasing(s);
    assert Tables(s') by { hide Owners; }
    GrantedOwners(s, tid, rid, mode);
    hide Tables, Leasing, Owners;
  }

  lemma GrantedOwners(s: State, tid: Tid, rid: string, mode: Mode)
    requires Owners(s) && rid in s.entries && Acquiring(tid) !in s.holders && CanGrant(s.entries[rid], mode)
    requires forall h :: h in s.holders && s.holders[h].resourceId == rid ==> s.holders[h].mode == Shared
    ensures Owners(Granted(s, tid, rid, mode))
  {
    var s' := Granted(s, tid, rid, mode);
    assert forall h :: h in s'.holders && h != Acquiring(tid) ==> h in s.holders && s'.holders[h] == s.holders[h];
  }

  /** Without an exclusive flag there is no exclusive holder. */
  lemma AloneInEntry(s: State, rid: string)
    requires forall r :: Accounted(s, r)
    ensures !(rid in s.entries && s.entries[rid].hasExclusiveOwner) ==>
      forall h :: h in s.holders && s.holders[h].resourceId == rid ==> s.holders[h].mode == Shared
  {
    AccountedUse(s, rid);
    forall h | h in s.holders && s.holders[h].resourceId == rid && s.holders[h].mode == Exclusive
      ensures rid in s.entries && s.entries[rid].hasExclusiveOwner
    {
      assert h in Holders(s, rid, Exclusive);
    }
  }

  /** The grant test succeeds exactly when no grant of the resource is in the way: there is none, or the test and all of
      them are shared. */
  lemma GrantableIff(s: State, rid: string, mode: Mode)
    requires Inv(s) && rid in s.entries
    ensures CanGrant(s.entries[rid], mode) <==>
      forall h :: h in s.holders && s.holders[h].resourceId == rid ==> mode == Shared && s.holders[h].mode == Shared
  {
    AloneInEntry(s, rid);
    AccountedUse(s, rid);
    hide Tables, Owners;
    assert forall h :: h in s.holders && s.holders[h].resourceId == rid ==>
        h in Holders(s, rid, Shared) || h in Holders(s, rid, Exclusive);
    if CanGrant(s.entries[rid], Exclusive) {
      assert Holders(s, rid, Shared) == {} && Holders(s, rid, Exclusive) == {};
    } else {
      var h := HolderOf(s, rid);
    }
  }

  lemma HolderOf(s: State, rid: string) returns (h: Holder)
    requires Accounted(s, rid) && rid in s.entries && !CanGrant(s.entries[rid], Exclusive)
    ensures h in s.holders && s.holders[h].resourceId == rid
    ensures s.entries[rid].hasExclusiveOwner ==> s.holders[h].mode == Exclusive
  {
    var mode := if s.entries[rid].hasExclusiveOwner then Exclusive else Shared;
    assert Holders(s, rid, mode) != {};
    h :| h in Holders(s, rid, mode);
  }

  /** Any number of shared grants of one resource exist side by side. */
  lemma SharedTogether(s: State, tid: Tid, rid: string)
    requires Inv(s) && rid in s.entries && Acquiring(tid) !in s.holders
    requires forall h :: h in s.holders && s.holders[h].resourceId == rid ==> s.holders[h].mode == Shared
    ensures var s' := Next(s, TryGrant(tid, rid, Shared));
      && s'.holders == s.holders[Acquiring(tid) := Grant(rid, Shared, tid)]
      && s'.entries[rid].sharedCount == s.entries[rid].sharedCount + 1 && !s'.entries[rid].hasExclusiveOwner
  {
    GrantableIff(s, rid, Shared);
    hide Inv;
  }

  lemma RecordedInv(s: State, tid: Tid)
    requires Inv(s) && Acquiring(tid) in s.holders
    ensures Inv(Recorded(s, tid))
  {
    RecordedAccounted(s, tid);
    hide Accounted;
    assert Leasing(Recorded(s, tid)) == Leasing(s) + {Leased(s.nextLeaseId)};
    assert Leased(s.nextLeaseId) !in Leasing(s);
  }

  lemma RecordedAccounted(s: State, tid: Tid)
    requires Inv(s) && Acquiring(tid) in s.holders
    ensures forall rid :: Accounted(Recorded(s, tid), rid)
  {
    var s' := Recorded(s, tid);
    var g := s.holders[Acquiring(tid)];
    var mid := s.(holders := s.holders - {Acquiring(tid)});
    var id := Leased(s.nextLeaseId);
    assert id !in s.holders;
    hide Owners, Tables;
    forall rid
      ensures Accounted(s', rid)
    {
      AccountedUse(s, rid);
      HoldersRemove(s, mid, Acquiring(tid), rid, Shared);
      HoldersRemove(s, mid, Acquiring(tid), rid, Exclusive);
      HoldersAdd(mid, s', id, g, rid, Shared);
      HoldersAdd(mid, s', id, g, rid, Exclusive);
      if rid !in s.entries { Unused(s, Acquiring(tid), rid); }
      hide Holders;
    }
  }

  lemma Unused(s: State, h: Holder, rid: string)
    requires h in s.holders && Accounted(s, rid) && rid !in s.entries
    ensures s.holders[h].resourceId != rid
  {
    assert h in Holders(s, s.holders[h].resourceId, s.holders[h].mode);
  }

  /** The mode inferred from the entry is the granted one, for every lease not yet fully released. */
  lemma InferredModeIsGranted(s: State, h: Holder)
    requires Inv(s) && h in s.holders
    ensures s.holders[h].resourceId in s.entries
    ensures InferredMode(s.entries[s.holders[h].resourceId]) == s.holders[h].mode
    ensures s.holders[h].mode == Shared ==> s.entries[s.holders[h].resourceId].sharedCount > 0
  {
    var g := s.holders[h];
    AccountedUse(s, g.resourceId);
    assert h in Holders(s, g.resourceId, g.mode);
    assert |Holders(s, g.resourceId, g.mode)| > 0;
  }

  lemma ReleasedInv(s: State, id: int)
    requires Inv(s) && Releasing(s, id)
    requires s.holders[Leased(id)].resourceId in s.entries
    ensures Inv(Released(s, id))
  {
    var s' := Released(s, id);
    var g := s.holders[Leased(id)];
    InferredModeIsGranted(s, Leased(id));
    forall rid
      ensures Accounted(s', rid)
    {
      AccountedUse(s, rid);
      HoldersRemove(s, s', Leased(id), rid, Shared);
      HoldersRemove(s, s', Leased(id), rid, Exclusive);
      hide Holders;
    }
    assert Leasing(s') == Leasing(s) - {Leased(id)};
    assert Leased(id) in Leasing(s);
    assert Owners(s') by {
      OnlyExclusive(s, Leased(id));
      hide Accounted, Tables, Leasing;
    }
  }

  lemma OnlyExclusive(s: State, h: Holder)
    requires Inv(s) && h in s.holders
    ensures forall k ::
              k in s.holders && s.holders[k].resourceId == s.holders[h].resourceId && s.holders[k].mode == Exclusive ==>
                k == h
  {
    var rid := s.holders[h].resourceId;
    forall k | k in s.holders && s.holders[k].resourceId == rid && s.holders[k].mode == Exclusive
      ensures k == h
    {
      MutualExclusion(s, k, h);
    }
  }

  /** An exclusive holder is the only holder of its resource. */
  lemma MutualExclusion(s: State, k: Holder, h: Holder)
    requires Inv(s) && k in s.holders && h in s.holders
    requires s.holders[k].resourceId == s.holders[h].resourceId && s.holders[k].mode == Exclusive
    ensures k == h
  {
    var rid := s.holders[k].resourceId;
    InferredModeIsGranted(s, k);
    InferredModeIsGranted(s, h);
    AccountedUse(s, rid);
    assert k in Holders(s, rid, Exclusive) && h in Holders(s, rid, Exclusive);
    if k != h {
      assert {k, h} <= Holders(s, rid, Exclusive);
      SubsetSize({k, h}, Holders(s, rid, Exclusive));
    }
  }

  lemma SubsetSize<T>(a: set<T>, b: set<T>)
    requires a <= b
    ensures |a| <= |b|
  {
    assert b == a + (b - a);
  }

  /** Sections that touch neither holders nor owners nor counters. */
  lemma FrameInv(s: State, s': State)
    requires Inv(s)
    requires s'.holders == s.holders && s'.ownerMap == s.ownerMap
    requires s'.nextLeaseId == s.nextLeaseId && s'.activeLeaseCount == s.activeLeaseCount
    requires forall id :: id in s'.leaseMap ==> id in s.leaseMap && s'.leaseMap[id] == s.leaseMap[id]
    requires forall id :: id in s'.heartbeats ==> id in s.heartbeats
    requires s'.entries.Keys == s.entries.Keys
    requires forall rid :: rid in s.entries ==>
      s'.entries[rid].sharedCount == s.entries[rid].sharedCount &&
          s'.entries[rid].hasExclusiveOwner == s.entries[rid].hasExclusiveOwner
    ensures Inv(s')
  {
    AccountedFrame(s, s');
    hide Accounted;
    assert Leasing(s') == Leasing(s);
  }

  lemma RegisterInv(s: State, rid: string)
    requires Inv(s) && rid !in s.entries
    ensures Inv(s.(entries := s.entries[rid := Entry(Closed, 0, false)]))
  {
    var s' := s.(entries := s.entries[rid := Entry(Closed, 0, false)]);
    EntriesAccounted(s, s', rid);
    AloneInEntry(s, rid);
    hide Accounted;
    assert Leasing(s') == Leasing(s);
  }

  lemma UnregisterInv(s: State, rid: string)
    requires Inv(s) && rid in s.entries && s.entries[rid].sharedCount <= 0 && !s.entries[rid].hasExclusiveOwner
    ensures Inv(s.(entries := s.entries - {rid}))
  {
    var s' := s.(entries := s.entries - {rid});
    EntriesAccounted(s, s', rid);
    AloneInEntry(s, rid);
    hide Accounted;
    assert Leasing(s') == Leasing(s);
  }

  /** Adding or removing an entry nobody holds keeps every account. */
  lemma EntriesAccounted(s: State, s': State, rid: string)
    requires forall r :: Accounted(s, r)
    requires s'.holders == s.holders
    requires forall r :: r != rid ==> (r in s.entries <==> r in s'.entries) && (r in s.entries ==>
        s'.entries[r] == s.entries[r])
    requires rid in s.entries ==> s.entries[rid].sharedCount <= 0 && !s.entries[rid].hasExclusiveOwner
    requires rid in s'.entries ==> s'.entries[rid] == Entry(Closed, 0, false)
    ensures forall r :: Accounted(s', r)
  {
    forall r
      ensures Accounted(s', r)
    {
      AccountedUse(s, r);
      assert Holders(s', r, Shared) == Holders(s, r, Shared) && Holders(s', r, Exclusive) == Holders(s, r, Exclusive);
    }
  }

  /** Every critical section keeps the invariant. */
  lemma NextInv(s: State, a: Section)
    requires Inv(s)
    ensures Inv(Next(s, a))
  {
    hide Inv, Holders, Accounted;
    match a
    case TryGrant(tid, rid, mode) =>
      if Next(s, a) != s { GrantedInv(s, tid, rid, mode); }
    case RecordLease(tid) =>
      if Acquiring(tid) in s.holders { RecordedInv(s, tid); }
    case FinishRelease(id) =>
      if Next(s, a) != s { ReleasedInv(s, id); }
    case Register(rid) =>
      if Next(s, a) != s { RegisterInv(s, rid); }
    case Unregister(rid) =>
      if Next(s, a) != s { UnregisterInv(s, rid); }
    case BeginOpen(rid) =>
      if Next(s, a) != s { WithStateInv(s, rid, Opening); }
    case FinishOpen(rid, ok) =>
      if Next(s, a) != s { WithStateInv(s, rid, if ok then Open else Closed); }
    case ForceClose(rid) =>
      if Next(s, a) != s { WithStateInv(s, rid, Closed); }
    case StartWaiting(tid, rid, mode) =>
      if Next(s, a) != s { WaitInv(s, s.waitMap[tid := rid], s.blocked[tid := Want(rid, mode)]); }
    case GiveUp(tid) => WaitInv(s, s.waitMap - {tid}, s.blocked - {tid});
    case TakeLease(id) => TakeInv(s, id);
    case Preempt(tids) => WaitInv(s, s.waitMap - tids, s.blocked);
  }

  lemma WithStateInv(s: State, rid: string, st: ResourceState)
    requires Inv(s) && rid in s.entries
    ensures Inv(WithState(s, rid, st))
  {
    hide Inv;
    FrameInv(s, WithState(s, rid, st));
  }

  lemma WaitInv(s: State, waits: map<Tid, string>, blocked: map<Tid, Want>)
    requires Inv(s)
    ensures Inv(s.(waitMap := waits, blocked := blocked))
  {
    hide Inv;
    FrameInv(s, s.(waitMap := waits, blocked := blocked));
  }

  lemma TakeInv(s: State, id: int)
    requires Inv(s)
    ensures Inv(s.(heartbeats := s.heartbeats - {id}, leaseMap := s.leaseMap - {id}))
  {
    hide Inv;
    FrameInv(s, s.(heartbeats := s.heartbeats - {id}, leaseMap := s.leaseMap - {id}));
  }

  /** In every interleaving from the initial state the invariant holds. */
  lemma {:induction false} RunInv(s: State, run: seq<Section>)
    requires Inv(s)
    ensures Inv(Run(s, run))
    decreases |run|
  {
    if run != [] {
      NextInv(s, run[0]);
      RunInv(Next(s, run[0]), run[1..]);
    }
  }

  lemma InitialInv()
    ensures Inv(INITIAL)
  {
    assert Leasing(INITIAL) == {};
    forall rid
      ensures Accounted(INITIAL, rid)
    {
      assert Holders(INITIAL, rid, Shared) == {} && Holders(INITIAL, rid, Exclusive) == {};
    }
  }

  // ---------------------------------------------------------------- stale handles

  /** The lease was recorded once and has been taken out of the lease table since. */
  predicate Retired(s: State, id: int) {
    id < s.nextLeaseId && id !in s.leaseMap && id !in s.heartbeats
  }

  lemma RetiredNext(s: State, a: Section, id: int)
    requires Retired(s, id)
    ensures Retired(Next(s, a), id) && Next(s, TakeLease(id)) == s
  {
    assert s.heartbeats - {id} == s.heartbeats && s.leaseMap - {id} == s.leaseMap;
  }

  /** Whatever happens after a lease was reclaimed, releasing the stale handle changes nothing: the
      table lookup fails, and no later lease has its number. */
  lemma {:induction false} StaleHandleHarmless(s: State, run: seq<Section>, id: int)
    requires Retired(s, id)
    ensures Retired(Run(s, run), id) && Next(Run(s, run), TakeLease(id)) == Run(s, run)
    decreases |run|
  {
    RetiredNext(s, TakeLease(id), id);
    if run != [] {
      RetiredNext(s, run[0], id);
      StaleHandleHarmless(Next(s, run[0]), run[1..], id);
    }
  }

  /** A lease in the table is live: its resource is registered and accounts for it. */
  lemma LeaseIsLive(s: State, id: int)
    requires Inv(s) && id in s.leaseMap
    ensures Leased(id) in s.holders && s.leaseMap[id] in s.entries
    ensures InferredMode(s.entries[s.leaseMap[id]]) == s.holders[Leased(id)].mode
  {
    InferredModeIsGranted(s, Leased(id));
  }

  // ---------------------------------------------------------------- wait records

  /** The wait map records exactly the threads that wait, with what they wait for. */
  predicate WaitsExact(s: State) {
    s.waitMap.Keys == s.blocked.Keys && forall t :: t in s.blocked ==> s.waitMap[t] == s.blocked[t].resourceId
  }

  /** The grant test of the section succeeds. */
  predicate Granting(s: State, a: Section) {
    && a.TryGrant? && a.resourceId in s.entries && Acquiring(a.tid) !in s.holders
    && CanGrant(s.entries[a.resourceId], a.mode)
  }

  /** A shared grant to a thread that has a wait record. */
  predicate StaleGrant(s: State, a: Section) {
    Granting(s, a) && a.mode == Shared && a.tid in s.waitMap
  }

  /** The thread of the section starts to wait. */
  predicate Queueing(s: State, a: Section) {
    && a.StartWaiting? && a.resourceId in s.entries && Acquiring(a.tid) !in s.holders
    && !CanGrant(s.entries[a.resourceId], a.mode)
  }

  lemma GrantWaits(s: State, a: Section)
    requires Granting(s, a)
    ensures a.TryGrant? && Next(s, a).blocked == s.blocked - {a.tid}
    ensures Next(s, a).waitMap == if a.mode == Exclusive then s.waitMap - {a.tid} else s.waitMap
  {
  }

  lemma QueueWaits(s: State, a: Section)
    requires Queueing(s, a)
    ensures a.StartWaiting? && Next(s, a).waitMap == s.waitMap[a.tid := a.resourceId]
    ensures Next(s, a).blocked == s.blocked[a.tid := Want(a.resourceId, a.mode)]
  {
  }

  /** What the other sections do to the waiting threads and their records. */
  lemma OtherWaits(s: State, a: Section)
    requires !Granting(s, a) && !Queueing(s, a)
    ensures Next(s, a).blocked == if a.GiveUp? then s.blocked - {a.tid} else s.blocked
    ensures Next(s, a).waitMap ==
      if a.GiveUp? then s.waitMap - {a.tid} else if a.Preempt? then s.waitMap - a.tids else s.waitMap
  {
  }

  lemma WaitsAfter(s: State, a: Section)
    ensures var s' := Next(s, a);
      if Granting(s, a) then
        && a.TryGrant? && s'.blocked == s.blocked - {a.tid}
        && s'.waitMap == if a.mode == Exclusive then s.waitMap - {a.tid} else s.waitMap
      else if Queueing(s, a) then
        && a.StartWaiting? && s'.waitMap == s.waitMap[a.tid := a.resourceId]
        && s'.blocked == s.blocked[a.tid := Want(a.resourceId, a.mode)]
      else
        && s'.blocked == (if a.GiveUp? then s.blocked - {a.tid} else s.blocked)
        && s'.waitMap ==
           if a.GiveUp? then s.waitMap - {a.tid} else if a.Preempt? then s.waitMap - a.tids else s.waitMap
  {
    hide Next;
    if Granting(s, a) {
      GrantWaits(s, a);
    } else if Queueing(s, a) {
      QueueWaits(s, a);
    } else {
      OtherWaits(s, a);
    }
  }

  /** Exactly two sections make the wait map differ from the truth: a shared grant after a wait, which
      forgets to erase the record, and a preemption, which erases the record of a waiting thread. */
  lemma WaitsStayExact(s: State, a: Section)
    requires WaitsExact(s)
    ensures WaitsExact(Next(s, a)) <==> !StaleGrant(s, a) && !(a.Preempt? && exists t :: t in a.tids && t in s.waitMap)
  {
    WaitsAfter(s, a);
    hide Next, Granting, Queueing;
    var s' := Next(s, a);
    if StaleGrant(s, a) {
      assert a.tid in s'.waitMap.Keys && a.tid !in s'.blocked.Keys;
    } else if a.Preempt? {
      if t :| t in a.tids && t in s.waitMap {
        assert t in s.blocked.Keys && t in s'.blocked.Keys && t !in s'.waitMap.Keys;
      }
    } else if Granting(s, a) && a.mode == Shared {
      assert a.tid !in s.blocked.Keys;
    }
  }

  lemma {:induction false} RunConcat(s: State, a: seq<Section>, b: seq<Section>)
    ensures Run(s, a + b) == Run(Run(s, a), b)
    decreases |a|
  {
    if a == [] {
      assert a + b == b;
    } else {
      assert (a + b)[1..] == a[1..] + b;
      RunConcat(Next(s, a[0]), a[1..], b);
    }
  }

  lemma RunSnoc(s: State, run: seq<Section>, a: Section)
    ensures Run(s, run + [a]) == Next(Run(s, run), a)
  {
    RunConcat(s, run, [a]);
    assert [a][1..] == [];
    assert Run(Run(s, run), [a]) == Run(Next(Run(s, run), a), []);
  }

  lemma RunTwo(s: State, a: Section, b: Section)
    ensures Run(s, [a, b]) == Next(Next(s, a), b)
  {
    assert [a, b][1..] == [b] && [b][1..] == [];
    assert Run(Next(s, a), [b]) == Run(Next(Next(s, a), b), []);
  }

  lemma RunFirst(s: State, run: seq<Section>)
    requires run != []
    ensures Run(s, run) == Run(Next(s, run[0]), run[1..])
  {
  }

  lemma RunFour(s: State, run: seq<Section>)
    requires |run| == 4
    ensures Run(s, run) == Next(Next(Next(Next(s, run[0]), run[1]), run[2]), run[3])
  {
    hide Next;
    RunConcat(s, run[..2], run[2..]);
    assert run == run[..2] + run[2..] && run[..2] == [run[0], run[1]] && run[2..] == [run[2], run[3]];
    RunTwo(s, run[0], run[1]);
    RunTwo(Run(s, run[..2]), run[2], run[3]);
  }

  lemma RunThree(s: State, run: seq<Section>)
    requires |run| == 3
    ensures Run(s, run) == Next(Next(Next(s, run[0]), run[1]), run[2])
  {
    hide Next;
    RunConcat(s, run[..2], run[2..]);
    assert run == run[..2] + run[2..] && run[..2] == [run[0], run[1]] && run[2..] == [run[2]];
    RunTwo(s, run[0], run[1]);
    RunFirst(Run(s, run[..2]), [run[2]]);
  }
}
