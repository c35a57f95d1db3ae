/** The layered opening of resources in WorkflowEngine::preallocateResources. */
module Preallocation {
  import opened Common
  import opened Graphs
  import opened DependencyAnalyzer

  /** A dependency chain through registered resources, starting at v. */
  ghost predicate Chain(g: Graph, p: seq<string>, v: string) {
    && |p| >= 1 && p[0] == v
    && (forall i :: 0 <= i < |p| ==> p[i] in g)
    && (forall i :: 0 <= i < |p| - 1 ==> Edge(g, p[i], p[i + 1]))
  }

  /** n is the number of edges of the longest registered dependency chain below v. */
  ghost predicate LongestChain(g: Graph, v: string, n: int) {
    && (exists p :: Chain(g, p, v) && |p| - 1 == n)
    && (forall p :: Chain(g, p, v) ==> |p| - 1 <= n)
  }

  /** The level of node k is one above the highest level among the dependencies listed before it. */
  predicate LevelOf(nodes: seq<ResourceNode>, level: map<string, int>, k: nat)
    requires k < |nodes|
  {
    var id := nodes[k].resourceId;
    var deps := nodes[k].strongDependencies;
    && id in level && level[id] >= 0
    && (forall d :: d in deps && HasId(nodes[..k], d) ==> d in level && level[d] < level[id])
    && (level[id] == 0 || exists d :: d in deps && HasId(nodes[..k], d) && d in level && level[d] == level[id] - 1)
  }

  method ComputeLevels(nodes: seq<ResourceNode>) returns (level: map<string, int>)
    requires DistinctIds(nodes)
    ensures forall v :: v in level <==> HasId(nodes, v)
    ensures forall k :: 0 <= k < |nodes| ==> LevelOf(nodes, level, k)
  {
    level := map[];
    var i := 0;
    while i < |nodes|
      invariant 0 <= i <= |nodes|
      invariant forall v :: v in level <==> HasId(nodes[..i], v)
      invariant forall k :: 0 <= k < i ==> LevelOf(nodes, level, k)
    {
      var deps := nodes[i].strongDependencies;
      var maxDepLevel := 0;
      var j := 0;
      while j < |deps|
        invariant 0 <= j <= |deps|
        invariant maxDepLevel >= 0
        invariant forall d :: d in deps[..j] && d in level ==> level[d] < maxDepLevel
        invariant maxDepLevel == 0 || exists d :: d in deps[..j] && d in level && level[d] == maxDepLevel - 1
      {
        assert deps[..j + 1] == deps[..j] + [deps[j]];
        if deps[j] in level && level[deps[j]] + 1 > maxDepLevel {
          maxDepLevel := level[deps[j]] + 1;
        }
        j := j + 1;
      }
      assert deps[..j] == deps;
      AddLevel(nodes, level, i, maxDepLevel);
      level := level[nodes[i].resourceId := maxDepLevel];
      i := i + 1;
    }
    assert nodes[..i] == nodes;
  }

  lemma AddLevel(nodes: seq<ResourceNode>, level: map<string, int>, i: nat, n: int)
    requires DistinctIds(nodes) && i < |nodes| && n >= 0
    requires forall v :: v in level <==> HasId(nodes[..i], v)
    requires forall k :: 0 <= k < i ==> LevelOf(nodes, level, k)
    requires forall d :: d in nodes[i].strongDependencies && d in level ==> level[d] < n
    requires n == 0 || exists d :: d in nodes[i].strongDependencies && d in level && level[d] == n - 1
    ensures var level' := level[nodes[i].resourceId := n];
      && (forall v :: v in level' <==> HasId(nodes[..i + 1], v))
      && (forall k :: 0 <= k < i + 1 ==> LevelOf(nodes, level', k))
  {
    var id := nodes[i].resourceId;
    var level' := level[id := n];
    assert id !in level;
    assert nodes[..i + 1] == nodes[..i] + [nodes[i]];
    forall v
      ensures HasId(nodes[..i + 1], v) <==> HasId(nodes[..i], v) || v == id
    {
      HasIdAppend(nodes[..i], nodes[i], v);
    }
    forall k | 0 <= k < i
      ensures LevelOf(nodes, level', k)
    {
      assert LevelOf(nodes, level, k);
    }
  }

  /** The analyzed nodes of an acyclic graph, in the order the analyzer promises. */
  ghost predicate Analyzed(g: Graph, nodes: seq<ResourceNode>) {
    && DistinctIds(nodes) && Complete(g, nodes) && Ordered(g, nodes)
    && forall i :: 0 <= i < |nodes| ==> nodes[i].resourceId in g
  }

  lemma DependencyLower(g: Graph, nodes: seq<ResourceNode>, level: map<string, int>, v: string, d: string)
    requires Analyzed(g, nodes) && HasId(nodes, v) && ReachPlus(g, v, d) && d in g
    requires forall k :: 0 <= k < |nodes| ==> LevelOf(nodes, level, k)
    ensures HasId(nodes, d) && v in level && d in level && level[d] < level[v]
  {
    hide ReachPlus;
    var k :| 0 <= k < |nodes| && nodes[k].resourceId == v;
    assert d in nodes[k].strongDependencies;
    assert HasId(nodes[..k], d);
    var i :| 0 <= i < k && nodes[..k][i].resourceId == d;
    assert nodes[i].resourceId == d;
    assert LevelOf(nodes, level, k);
  }

  lemma {:induction false} ChainBound(g: Graph, nodes: seq<ResourceNode>, level: map<string, int>, v: string,
      p: seq<string>)
    requires Analyzed(g, nodes) && HasId(nodes, v) && Chain(g, p, v)
    requires forall k :: 0 <= k < |nodes| ==> LevelOf(nodes, level, k)
    ensures v in level && |p| - 1 <= level[v]
    decreases |p|
  {
    hide ReachPlus;
    if |p| == 1 {
      var k :| 0 <= k < |nodes| && nodes[k].resourceId == v;
      assert LevelOf(nodes, level, k);
    } else {
      assert Edge(g, p[0], p[1]);
      ReachEdge(g, v, p[1]);
      DependencyLower(g, nodes, level, v, p[1]);
      var q := p[1..];
      forall i | 0 <= i < |q| - 1
        ensures Edge(g, q[i], q[i + 1])
      {
        assert q[i] == p[i + 1] && q[i + 1] == p[i + 2];
      }
      ChainBound(g, nodes, level, p[1], q);
    }
  }

  lemma {:induction false} ChainExists(g: Graph, nodes: seq<ResourceNode>, level: map<string, int>, v: string)
      returns (p: seq<string>)
    requires Analyzed(g, nodes) && HasId(nodes, v)
    requires forall k :: 0 <= k < |nodes| ==> LevelOf(nodes, level, k)
    ensures v in level && Chain(g, p, v) && |p| - 1 >= level[v]
    decreases if v in level then level[v] else 0
  {
    hide Reach;
    var k :| 0 <= k < |nodes| && nodes[k].resourceId == v;
    assert LevelOf(nodes, level, k);
    if level[v] == 0 {
      p := [v];
    } else {
      var d :| d in nodes[k].strongDependencies && HasId(nodes[..k], d) && d in level && level[d] == level[v] - 1;
      var i :| 0 <= i < k && nodes[..k][i].resourceId == d;
      assert nodes[i].resourceId == d && LevelOf(nodes, level, i);
      var q := ChainExists(g, nodes, level, d);
      var m :| Edge(g, v, m) && Reach(g, m, d);
      var w := WalkOf(g, m, d);
      var tail := JoinChain(g, w, m, q, d);
      p := [v] + tail;
    }
  }

  lemma WalkOf(g: Graph, a: string, b: string) returns (p: seq<string>)
    requires Reach(g, a, b)
    ensures Walk(g, p, a, b)
  {
    p :| Walk(g, p, a, b);
  }

  lemma JoinChain(g: Graph, w: seq<string>, m: string, q: seq<string>, d: string) returns (p: seq<string>)
    requires Walk(g, w, m, d) && Chain(g, q, d)
    ensures Chain(g, p, m) && |p| >= |q|
  {
    p := w[..|w| - 1] + q;
    forall i | 0 <= i < |w|
      ensures p[i] == w[i] && w[i] in g
    {
      if i < |w| - 1 {
        assert Edge(g, w[i], w[i + 1]);
      } else {
        assert p[i] == q[0];
      }
    }
    assert forall i :: |w| - 1 <= i < |p| ==> p[i] == q[i - |w| + 1];
  }

  /** On the analyzer's order the level is the longest dependency chain, and dependencies are strictly lower. */
  lemma LevelIsLongestChain(g: Graph, nodes: seq<ResourceNode>, level: map<string, int>, v: string)
    requires Analyzed(g, nodes) && HasId(nodes, v)
    requires forall k :: 0 <= k < |nodes| ==> LevelOf(nodes, level, k)
    ensures v in level && LongestChain(g, v, level[v])
    ensures forall d :: ReachPlus(g, v, d) && d in g ==> d in level && level[d] < level[v]
  {
    hide ReachPlus;
    var p := ChainExists(g, nodes, level, v);
    ChainBound(g, nodes, level, v, p);
    forall q | Chain(g, q, v)
      ensures |q| - 1 <= level[v]
    {
      ChainBound(g, nodes, level, v, q);
    }
    forall d | ReachPlus(g, v, d) && d in g
      ensures d in level && level[d] < level[v]
    {
      DependencyLower(g, nodes, level, v, d);
    }
  }

  function Layer(level: map<string, int>, n: int): set<string> {
    set r | r in level && level[r] == n
  }

  function Below(level: map<string, int>, n: int): set<string> {
    set r | r in level && level[r] < n
  }

  /** r was handed to preallocateAll in one of the first n groups. */
  ghost predicate Started(layers: seq<set<string>>, n: nat, r: string) {
    exists k :: 0 <= k < n && k < |layers| && r in layers[k]
  }

  /** When a group is handed out, everything of a lower level was handed out before and opened. */
  ghost predicate LowerFirst(level: map<string, int>, openable: set<string>, layers: seq<set<string>>) {
    forall k, r :: 0 <= k < |layers| && r in layers[k] ==>
        r in level && LowerOpened(level, openable, layers, k, level[r])
  }

  ghost predicate LowerOpened(level: map<string, int>, openable: set<string>, layers: seq<set<string>>, k: nat,
      n: int) {
    forall d :: d in Below(level, n) ==> Started(layers, k, d) && d in openable
  }

  method MaxLevel(level: map<string, int>) returns (maxLevel: nat)
    ensures forall r :: r in level ==> level[r] <= maxLevel
  {
    maxLevel := 0;
    var keys := level.Keys;
    while keys != {}
      invariant keys <= level.Keys
      invariant forall r :: r in level && r !in keys ==> level[r] <= maxLevel
      decreases keys
    {
      var r :| r in keys;
      keys := keys - {r};
      if level[r] > maxLevel { maxLevel := level[r]; }
    }
  }

  /** Opens layer after layer; openable holds the ids whose open succeeds. layers lists, in order,
      the groups handed to preallocateAll. */
  method OpenLayers(level: map<string, int>, openable: set<string>)
      returns (ok: bool, total: nat, ghost layers: seq<set<string>>)
    requires forall r :: r in level ==> level[r] >= 0
    ensures ok <==> level.Keys <= openable
    ensures ok ==> total == |level.Keys| && forall r :: r in level ==> Started(layers, |layers|, r)
    ensures LowerFirst(level, openable, layers)
  {
    var maxLevel := MaxLevel(level);
    total := 0;
    layers := [];
    var lvl := 0;
    NoLayers(level, openable);
    hide LowerFirst, LowerOpened, Started, Below, Layer;
    while lvl <= maxLevel
      invariant 0 <= lvl <= maxLevel + 1
      invariant LowerFirst(level, openable, layers)
      invariant LowerOpened(level, openable, layers, |layers|, lvl)
      invariant total == |Below(level, lvl)|
    {
      var group := Layer(level, lvl);
      Halves(level, lvl, openable);
      OpenNext(level, openable, layers, lvl);
      if group != {} {
        var succeeded := |group * openable|;
        layers := layers + [group];
        if succeeded < |group| {
          ok := false;
          total := total + succeeded;
          return;
        }
      }
      total := total + |group|;
      lvl := lvl + 1;
    }
    AllLayers(level, openable, layers, lvl);
    ok := true;
  }

  lemma NoLayers(level: map<string, int>, openable: set<string>)
    requires forall r :: r in level ==> level[r] >= 0
    ensures Below(level, 0) == {} && LowerFirst(level, openable, []) && LowerOpened(level, openable, [], 0, 0)
  {
  }

  lemma AllLayers(level: map<string, int>, openable: set<string>, layers: seq<set<string>>, n: int)
    requires (forall r :: r in level ==> level[r] < n) && LowerOpened(level, openable, layers, |layers|, n)
    ensures Below(level, n) == level.Keys && level.Keys <= openable
    ensures forall r :: r in level ==> Started(layers, |layers|, r)
  {
    assert Below(level, n) == level.Keys;
  }

  lemma Halves(level: map<string, int>, n: int, openable: set<string>)
    ensures |Below(level, n + 1)| == |Below(level, n)| + |Layer(level, n)|
    ensures |Layer(level, n) * openable| <= |Layer(level, n)|
    ensures |Layer(level, n) * openable| == |Layer(level, n)| <==> Layer(level, n) <= openable
    ensures Layer(level, n) <= level.Keys
  {
    var group := Layer(level, n);
    assert Below(level, n + 1) == Below(level, n) + group;
    assert group == group * openable + (group - openable);
    assert |group| == |group * openable| + |group - openable|;
    if group <= openable {
      assert group * openable == group;
    } else {
      assert group - openable != {};
    }
  }

  lemma OpenNext(level: map<string, int>, openable: set<string>, layers: seq<set<string>>, n: int)
    requires LowerFirst(level, openable, layers)
    requires LowerOpened(level, openable, layers, |layers|, n)
    ensures LowerFirst(level, openable, layers + [Layer(level, n)])
    ensures Layer(level, n) <= openable ==>
        LowerOpened(level, openable, layers + [Layer(level, n)], |layers| + 1, n + 1)
    ensures Layer(level, n) == {} ==> LowerOpened(level, openable, layers, |layers|, n + 1)
  {
    var all := layers + [Layer(level, n)];
    forall k, d | 0 <= k <= |layers| && Started(layers, k, d)
      ensures Started(all, k, d) && Started(all, |all|, d)
    {
      var j :| 0 <= j < k && d in layers[j];
      assert d in all[j];
    }
    assert forall d :: d in Below(level, n + 1) ==> d in Below(level, n) || d in Layer(level, n);
    assert all[|layers|] == Layer(level, n);
    forall k, r | 0 <= k < |all| && r in all[k]
      ensures r in level && LowerOpened(level, openable, all, k, level[r])
    {
      if k < |layers| {
        assert all[k] == layers[k];
        assert LowerOpened(level, openable, layers, k, level[r]);
      }
    }
  }

  /** Every registered dependency of a resource was handed out in an earlier group, and opened. */
  ghost predicate DependenciesOpenedFirst(g: Graph, openable: set<string>, layers: seq<set<string>>) {
    forall k, r, d :: 0 <= k < |layers| && r in layers[k] && ReachPlus(g, r, d) && d in g ==>
        Started(layers, k, d) && d in openable
  }

  /** s is the set of collected resources. */
  ghost predicate CollectedSet(g: Graph, roots: seq<string>, s: set<string>) {
    forall v :: v in s <==> Collected(g, roots, v)
  }

  /** ridVec are the requested ids the resource manager knows. */
  method PreallocateResources(ridVec: seq<string>, lookup: Registry, openable: set<string>)
    returns (ok: bool, ghost layers: seq<set<string>>, ghost needed: set<string>)
    ensures CollectedSet(Declared(lookup), ridVec, needed)
    ensures forall s :: CollectedSet(Declared(lookup), ridVec, s) ==>
              (ok <==> ridVec == [] || (s <= openable && |s| == |ridVec|))
    ensures !SomeCycle(Declared(lookup), ridVec) ==> DependenciesOpenedFirst(Declared(lookup), openable, layers)
    ensures ok && ridVec != [] ==> forall r :: r in needed ==> Started(layers, |layers|, r)
  {
    ghost var g := Declared(lookup);
    layers := [];
    if ridVec == [] {
      needed := {};
      ok := true;
      return;
    }
    var analyzer := new ResourceDependencyAnalyzer();
    var depNodes, depError, expanded := analyzer.Analyze(ridVec, lookup, true);
    if analyzer.hasCycle {
      // the circular-dependency exit is never taken: Analyze leaves the flag clear
      assert false;
    }
    var level := ComputeLevels(depNodes);
    needed := level.Keys;
    var total: nat;
    NonNegative(depNodes, level);
    ok, total, layers := OpenLayers(level, openable);
    if !SomeCycle(g, ridVec) {
      LevelsSuffice(g, ridVec, depNodes, level, openable, layers);
    }
    ok := ok && total == |ridVec|;
    forall s | CollectedSet(g, ridVec, s)
      ensures s == needed
    {
    }
  }

  lemma NonNegative(nodes: seq<ResourceNode>, level: map<string, int>)
    requires forall v :: v in level <==> HasId(nodes, v)
    requires forall k :: 0 <= k < |nodes| ==> LevelOf(nodes, level, k)
    ensures forall r :: r in level ==> level[r] >= 0
  {
    forall r | r in level
      ensures level[r] >= 0
    {
      var k :| 0 <= k < |nodes| && nodes[k].resourceId == r;
      assert LevelOf(nodes, level, k);
    }
  }

  lemma LevelsSuffice(g: Graph, roots: seq<string>, nodes: seq<ResourceNode>, level: map<string, int>,
      openable: set<string>, layers: seq<set<string>>)
    requires DistinctIds(nodes) && Complete(g, nodes) && Ordered(g, nodes)
    requires forall v :: HasId(nodes, v) <==> Collected(g, roots, v)
    requires forall v :: v in level <==> HasId(nodes, v)
    requires forall k :: 0 <= k < |nodes| ==> LevelOf(nodes, level, k)
    requires LowerFirst(level, openable, layers)
    ensures DependenciesOpenedFirst(g, openable, layers)
  {
    hide ReachPlus, Reach;
    assert Analyzed(g, nodes) by {
      forall i | 0 <= i < |nodes|
        ensures nodes[i].resourceId in g
      {
        assert HasId(nodes, nodes[i].resourceId);
      }
    }
    forall k, r, d | 0 <= k < |layers| && r in layers[k] && ReachPlus(g, r, d) && d in g
      ensures Started(layers, k, d) && d in openable
    {
      DependencyLower(g, nodes, level, r, d);
      assert d in Below(level, level[r]);
    }
  }

  /** A registered dependency of a request that was not requested itself. */
  ghost predicate Unrequested(g: Graph, ridVec: seq<string>, d: string) {
    d in g && d !in ridVec && exists r :: r in ridVec && ReachPlus(g, r, d)
  }

  /** The requested ids the lookup does not know. */
  function Unknown(g: Graph, ridVec: seq<string>): set<string> {
    set r | r in ridVec && r !in g
  }

  /** For distinct requests the counts agree exactly when there are as many unrequested registered dependencies as
      requested ids the lookup does not know; when it knows all of them, when every registered dependency of a request
      was requested. */
  lemma CountsAgreeIff(g: Graph, ridVec: seq<string>, needed: set<string>)
    requires CollectedSet(g, ridVec, needed) && Distinct(ridVec)
    ensures forall d :: d in needed - Elements(ridVec) <==> Unrequested(g, ridVec, d)
    ensures |needed| == |ridVec| <==> |needed - Elements(ridVec)| == |Unknown(g, ridVec)|
    ensures (forall r :: r in ridVec ==> r in g) ==>
              (|needed| == |ridVec| <==> forall d :: !Unrequested(g, ridVec, d))
  {
    var requested, unknown := Elements(ridVec), Unknown(g, ridVec);
    DistinctSize(ridVec);
    forall d
      ensures d in needed - requested <==> Unrequested(g, ridVec, d)
    {
      UnrequestedIff(g, ridVec, needed, d);
    }
    hide Unrequested;
    assert requested - unknown <= needed && unknown !! needed by { RequestedKnown(g, ridVec, needed); }
    assert needed == (needed - requested) + (requested - unknown);
    assert requested == (requested - unknown) + unknown;
    if unknown == {} && |needed - requested| == 0 {
      assert needed - requested == {};
    }
  }

  lemma UnrequestedIff(g: Graph, ridVec: seq<string>, needed: set<string>, d: string)
    requires CollectedSet(g, ridVec, needed)
    ensures d in needed - Elements(ridVec) <==> Unrequested(g, ridVec, d)
  {
    hide Reach, ReachPlus;
    if d in needed - Elements(ridVec) {
      var r :| r in ridVec && Reach(g, r, d);
      ReachSplit(g, r, d);
    }
    if Unrequested(g, ridVec, d) {
      var r :| r in ridVec && ReachPlus(g, r, d);
      ReachPlusReach(g, r, d);
      assert Collected(g, ridVec, d);
    }
  }

  lemma RequestedKnown(g: Graph, ridVec: seq<string>, needed: set<string>)
    requires CollectedSet(g, ridVec, needed)
    ensures Elements(ridVec) - Unknown(g, ridVec) <= needed && Unknown(g, ridVec) !! needed
  {
    hide Reach;
    forall r | r in ridVec && r in g
      ensures r in needed
    {
      ReachRefl(g, r);
      assert Collected(g, ridVec, r);
    }
    forall r | r in ridVec && r !in g
      ensures r !in needed
    {
      assert !Collected(g, ridVec, r);
    }
  }

  /** A resource with a dependency that was not requested is not preallocated, though both can be opened. */
  method UnrequestedDependency()
    returns (ok: bool, lookup: Registry, ridVec: seq<string>, openable: set<string>, ghost needed: set<string>)
    ensures CollectedSet(Declared(lookup), ridVec, needed) && needed <= openable && |needed| != |ridVec|
    ensures Unrequested(Declared(lookup), ridVec, "B") && !ok
  {
    lookup, ridVec, openable := map["A" := [Some("B")], "B" := []], ["A"], {"A", "B"};
    ghost var g := Declared(lookup);
    ghost var layers;
    ok, layers, needed := PreallocateResources(ridVec, lookup, openable);
    assert Edge(g, "A", "B") by { assert [Some("B")][1..] == []; }
    ReachEdge(g, "A", "B");
    assert "A" in ridVec && Unrequested(g, ridVec, "B");
    CountsAgreeIff(g, ridVec, needed);
    forall r | r in needed
      ensures r in openable
    {
      assert Collected(g, ridVec, r) && r in g;
    }
  }

  /** With the shipped lookup, which finds nothing, preallocation succeeds only when nothing is requested. */
  lemma EmptyLookupFails(ridVec: seq<string>, needed: set<string>)
    requires CollectedSet(Declared(map[]), ridVec, needed)
    ensures |needed| == |ridVec| <==> ridVec == []
  {
    forall v
      ensures v !in needed
    {
      assert !Collected(Declared(map[]), ridVec, v);
    }
    assert needed == {};
  }
}
