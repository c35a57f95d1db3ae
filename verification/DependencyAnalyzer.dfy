/** ResourceDependencyAnalyzer: collection of the dependency tree, transitive closure, cycle report
    and topological order. */
module DependencyAnalyzer {
  import opened Common
  import opened Graphs
  import opened Tarjan

  datatype Option<+T> = None | Some(value: T)

  datatype ResourceNode = ResourceNode(resourceId: string, strongDependencies: seq<string>)

  /** The lookup function: a missing key is a null resource; a resource lists the names of its
      dependencies, None standing for a null entry. */
  type Registry = map<string, seq<Option<string>>>

  function DepNames(deps: seq<Option<string>>): seq<string> {
    if deps == [] then []
    else if deps[0].None? then DepNames(deps[1..])
    else [deps[0].value] + DepNames(deps[1..])
  }

  /** The declared dependency graph. */
  function Declared(reg: Registry): Graph {
    map r | r in reg :: DepNames(reg[r])
  }

  /** The declared dependencies are the entries that are not null, in their order and as often as they occur. */
  lemma {:induction false} NamesMeaning(a: seq<Option<string>>, b: seq<Option<string>>, name: string)
    ensures DepNames([]) == [] && DepNames([None]) == [] && DepNames([Some(name)]) == [name]
    ensures DepNames(a + b) == DepNames(a) + DepNames(b)
  {
    if a == [] {
      assert a + b == b;
    } else {
      NamesMeaning(a[1..], b, name);
      assert (a + b)[1..] == a[1..] + b;
    }
  }

  lemma {:induction false} NameListed(deps: seq<Option<string>>, name: string)
    ensures name in DepNames(deps) <==> Some(name) in deps
  {
    if deps != [] {
      NameListed(deps[1..], name);
      assert deps == [deps[0]] + deps[1..];
    }
  }

  /** The graph has an edge exactly where a registered resource lists another. */
  lemma EdgeMeaning(reg: Registry, a: string, b: string)
    ensures Edge(Declared(reg), a, b) <==> a in reg && Some(b) in reg[a]
  {
    if a in reg {
      NameListed(reg[a], b);
    }
  }

  predicate DistinctIds(nodes: seq<ResourceNode>) {
    forall i, j :: 0 <= i < j < |nodes| ==> nodes[i].resourceId != nodes[j].resourceId
  }

  predicate HasId(nodes: seq<ResourceNode>, v: string) {
    exists i :: 0 <= i < |nodes| && nodes[i].resourceId == v
  }

  /** The graph spanned by a list of nodes. */
  function GraphOf(nodes: seq<ResourceNode>): (g: Graph)
    requires DistinctIds(nodes)
    ensures forall v :: v in g <==> HasId(nodes, v)
    ensures forall i :: 0 <= i < |nodes| ==>
        nodes[i].resourceId in g && g[nodes[i].resourceId] == nodes[i].strongDependencies
  {
    map i | 0 <= i < |nodes| :: nodes[i].resourceId := nodes[i].strongDependencies
  }

  // ---------------------------------------------------------------- collecting the tree

  /** Dependency d of node i was appended earlier, is unregistered, or leads back to node i. */
  ghost predicate DepBefore(g: Graph, nodes: seq<ResourceNode>, i: nat, d: string)
    requires i < |nodes|
  {
    d !in g || HasId(nodes[..i], d) || Reach(g, d, nodes[i].resourceId)
  }

  ghost predicate PostOrder(g: Graph, nodes: seq<ResourceNode>) {
    forall i, d :: 0 <= i < |nodes| && d in nodes[i].strongDependencies ==> DepBefore(g, nodes, i, d)
  }

  /** The state of the depth-first collection; open holds the ids whose call has not returned. */
  ghost predicate Collecting(g: Graph, visited: set<string>, nodes: seq<ResourceNode>, open: set<string>) {
    && DistinctIds(nodes)
    && (forall i :: 0 <= i < |nodes| ==>
          nodes[i].resourceId in g && nodes[i].strongDependencies == g[nodes[i].resourceId])
    && (forall v :: v in g ==> (v in visited <==> HasId(nodes, v) || v in open))
    && (forall v :: v in open ==> v in g && !HasId(nodes, v))
    && (forall i :: 0 <= i < |nodes| ==> nodes[i].resourceId in visited)
    && (forall i, d :: 0 <= i < |nodes| && d in nodes[i].strongDependencies ==> d in visited)
    && PostOrder(g, nodes)
  }

  method BuildTree(resourceId: string, lookup: Registry, visited0: set<string>, nodes0: seq<ResourceNode>,
      ghost open: set<string>)
    returns (visited: set<string>, nodes: seq<ResourceNode>)
    requires Collecting(Declared(lookup), visited0, nodes0, open)
    requires forall z :: z in open ==> Reach(Declared(lookup), z, resourceId)
    ensures Collecting(Declared(lookup), visited, nodes, open)
    ensures visited0 <= visited && nodes0 <= nodes && resourceId in visited
    ensures forall v :: v in visited && v !in visited0 ==> Reach(Declared(lookup), resourceId, v)
    decreases lookup.Keys - visited0
  {
    ghost var g := Declared(lookup);
    visited, nodes := visited0, nodes0;
    ReachRefl(g, resourceId);
    if resourceId in visited { return; }
    visited := visited + {resourceId};
    if resourceId !in lookup {
      return;
    }
    var dependencies := lookup[resourceId];
    var strong: seq<string> := [];
    var i := 0;
    while i < |dependencies|
      invariant 0 <= i <= |dependencies|
      invariant DepNames(dependencies) == strong + DepNames(dependencies[i..])
      invariant Collecting(g, visited, nodes, open + {resourceId})
      invariant visited0 + {resourceId} <= visited && nodes0 <= nodes
      invariant forall v :: v in visited && v !in visited0 ==> Reach(g, resourceId, v)
      invariant forall d :: d in strong ==> d in visited
    {
      if dependencies[i].Some? {
        var depId := dependencies[i].value;
        ghost var before := visited;
        assert DepNames(dependencies[i..]) == [depId] + DepNames(dependencies[i + 1..]);
        DescendTo(g, resourceId, depId, open);
        visited, nodes := BuildTree(depId, lookup, visited, nodes, open + {resourceId});
        ReachVia(g, resourceId, depId, before, visited);
        strong := strong + [depId];
      }
      i := i + 1;
    }
    AppendNode(g, ResourceNode(resourceId, strong), visited, nodes, open);
    nodes := nodes + [ResourceNode(resourceId, strong)];
  }

  lemma DescendTo(g: Graph, a: string, b: string, open: set<string>)
    requires Edge(g, a, b)
    requires forall z :: z in open ==> Reach(g, z, a)
    ensures Reach(g, a, b)
    ensures forall z :: z in open + {a} ==> Reach(g, z, b)
  {
    hide Reach, Edge;
    ReachEdge(g, a, b);
    forall z | z in open
      ensures Reach(g, z, b)
    {
      ReachTrans(g, z, a, b);
    }
  }

  lemma ReachVia(g: Graph, a: string, b: string, before: set<string>, after: set<string>)
    requires Reach(g, a, b)
    requires forall v :: v in after && v !in before ==> Reach(g, b, v)
    ensures forall v :: v in after && v !in before ==> Reach(g, a, v)
  {
    hide Reach;
    forall v | v in after && v !in before
      ensures Reach(g, a, v)
    {
      ReachTrans(g, a, b, v);
    }
  }

  lemma HasIdAppend(nodes: seq<ResourceNode>, n: ResourceNode, v: string)
    ensures HasId(nodes + [n], v) <==> HasId(nodes, v) || v == n.resourceId
  {
    if HasId(nodes, v) {
      var i :| 0 <= i < |nodes| && nodes[i].resourceId == v;
      assert (nodes + [n])[i].resourceId == v;
    }
    assert (nodes + [n])[|nodes|] == n;
  }

  lemma AppendNode(g: Graph, n: ResourceNode, visited: set<string>, nodes: seq<ResourceNode>, open: set<string>)
    requires Collecting(g, visited, nodes, open + {n.resourceId}) && n.resourceId !in open
    requires n.resourceId in g && n.strongDependencies == g[n.resourceId] && n.resourceId in visited
    requires forall z :: z in open ==> Reach(g, z, n.resourceId)
    requires forall d :: d in n.strongDependencies ==> d in visited
    ensures Collecting(g, visited, nodes + [n], open)
  {
    hide Reach;
    var all := nodes + [n];
    forall v
      ensures HasId(all, v) <==> HasId(nodes, v) || v == n.resourceId
    {
      HasIdAppend(nodes, n, v);
    }
    ReachRefl(g, n.resourceId);
    assert DistinctIds(all) by {
      forall i | 0 <= i < |nodes|
        ensures nodes[i].resourceId != n.resourceId
      {
        assert HasId(nodes, nodes[i].resourceId);
      }
    }
    forall i, d | 0 <= i < |all| && d in all[i].strongDependencies
      ensures DepBefore(g, all, i, d)
    {
      if i < |nodes| {
        assert all[..i] == nodes[..i];
        assert DepBefore(g, nodes, i, d);
      } else {
        assert all[..i] == nodes;
      }
    }
  }

  /** v is registered and some requested id reaches it. */
  ghost predicate Collected(g: Graph, roots: seq<string>, v: string) {
    v in g && exists r :: r in roots && Reach(g, r, v)
  }

  method CollectAll(resourceIds: seq<string>, lookup: Registry) returns (nodes: seq<ResourceNode>)
    ensures DistinctIds(nodes) && PostOrder(Declared(lookup), nodes)
    ensures forall i :: 0 <= i < |nodes| ==>
      (nodes[i].resourceId in lookup && nodes[i].strongDependencies == Declared(lookup)[nodes[i].resourceId])
    ensures forall v :: HasId(nodes, v) <==> Collected(Declared(lookup), resourceIds, v)
  {
    ghost var g := Declared(lookup);
    var visited: set<string> := {};
    nodes := [];
    var i := 0;
    CollectingStarts(g);
    hide Reach, Collecting, Collected, PostOrder, HasId;
    while i < |resourceIds|
      invariant 0 <= i <= |resourceIds|
      invariant Collecting(g, visited, nodes, {})
      invariant forall k :: 0 <= k < i ==> resourceIds[k] in visited
      invariant forall v :: v in visited ==> exists r :: r in resourceIds && Reach(g, r, v)
    {
      visited, nodes := BuildTree(resourceIds[i], lookup, visited, nodes, {});
      i := i + 1;
    }
    CollectedIffReached(g, resourceIds, visited, nodes);
    CollectingEnds(lookup, visited, nodes);
  }

  lemma CollectingStarts(g: Graph)
    ensures Collecting(g, {}, [], {})
  {
  }

  lemma CollectingEnds(lookup: Registry, visited: set<string>, nodes: seq<ResourceNode>)
    requires Collecting(Declared(lookup), visited, nodes, {})
    ensures DistinctIds(nodes) && PostOrder(Declared(lookup), nodes)
    ensures forall i :: 0 <= i < |nodes| ==>
      (nodes[i].resourceId in lookup && nodes[i].strongDependencies == Declared(lookup)[nodes[i].resourceId])
  {
    hide PostOrder, HasId;
  }

  lemma CollectedIffReached(g: Graph, roots: seq<string>, visited: set<string>, nodes: seq<ResourceNode>)
    requires Collecting(g, visited, nodes, {})
    requires forall r :: r in roots ==> r in visited
    requires forall v :: v in visited ==> exists r :: r in roots && Reach(g, r, v)
    ensures forall v :: HasId(nodes, v) <==> Collected(g, roots, v)
  {
    hide Reach;
    forall v
      ensures HasId(nodes, v) <==> Collected(g, roots, v)
    {
      if HasId(nodes, v) {
        assert v in visited;
      } else if Collected(g, roots, v) {
        var r :| r in roots && Reach(g, r, v);
        var s := iset w | w in visited;
        assert forall x, y :: x in s && Edge(g, x, y) ==> y in s by {
          forall x, y | x in s && Edge(g, x, y)
            ensures y in s
          {
            assert HasId(nodes, x);
          }
        }
        ClosedReach(g, s, r, v);
      }
    }
  }

  // ---------------------------------------------------------------- transitive closure

  predicate SameIds(nodes: seq<ResourceNode>, nodes': seq<ResourceNode>) {
    |nodes'| == |nodes| && forall i :: 0 <= i < |nodes| ==> nodes'[i].resourceId == nodes[i].resourceId
  }

  /** d can be appended to node i: some dependency of node i depends on it. */
  predicate Indirect(nodes: seq<ResourceNode>, i: nat, d: string)
    requires i < |nodes|
  {
    exists j :: 0 <= j < |nodes| && nodes[j].resourceId in nodes[i].strongDependencies &&
        d in nodes[j].strongDependencies
  }

  /** While expanding: ids stay, lists only grow, and every entry is reachable in the original graph. */
  ghost predicate Expanding(nodes0: seq<ResourceNode>, nodes: seq<ResourceNode>) {
    && DistinctIds(nodes0) && SameIds(nodes0, nodes)
    && (forall i :: 0 <= i < |nodes| ==> nodes0[i].strongDependencies <= nodes[i].strongDependencies)
    && (forall i, d :: 0 <= i < |nodes| && d in nodes[i].strongDependencies
          ==> ReachPlus(GraphOf(nodes0), nodes[i].resourceId, d))
  }

  /** The ids that occur as a dependency. */
  function Targets(nodes: seq<ResourceNode>): set<string> {
    set i, d | 0 <= i < |nodes| && d in nodes[i].strongDependencies :: d
  }

  function Missing(nodes: seq<ResourceNode>, universe: set<string>): set<(int, string)> {
    set i, d | 0 <= i < |nodes| && d in universe && d !in nodes[i].strongDependencies :: (i, d)
  }

  /** The dependencies of node i's dependencies that node i does not list yet, with repetitions. */
  method TransitiveDeps(nodes: seq<ResourceNode>, i: nat) returns (deps: seq<string>)
    requires i < |nodes| && DistinctIds(nodes)
    ensures forall d :: d in deps <==> Indirect(nodes, i, d) && d !in nodes[i].strongDependencies
  {
    var indexMap := map j | 0 <= j < |nodes| :: nodes[j].resourceId := j;
    var own := nodes[i].strongDependencies;
    deps := [];
    var k := 0;
    while k < |own|
      invariant 0 <= k <= |own|
      invariant forall d :: d in deps <==>
                  d !in own &&
                  exists m, j ::
                    0 <= m < k && 0 <= j < |nodes| && nodes[j].resourceId == own[m] && d in nodes[j].strongDependencies
    {
      if own[k] in indexMap {
        var trans := nodes[indexMap[own[k]]].strongDependencies;
        ghost var before := deps;
        var l := 0;
        while l < |trans|
          invariant 0 <= l <= |trans|
          invariant forall d :: d in deps <==> d in before || (d !in own && d in trans[..l])
        {
          if trans[l] !in own {
            deps := deps + [trans[l]];
          }
          l := l + 1;
        }
        assert trans[..l] == trans;
      }
      k := k + 1;
    }
  }

  /** Node k already lists the dependencies of its dependencies. */
  ghost predicate Saturated(nodes: seq<ResourceNode>, k: nat)
    requires k < |nodes|
  {
    forall d :: Indirect(nodes, k, d) ==> d in nodes[k].strongDependencies
  }

  ghost predicate SaturatedTo(nodes: seq<ResourceNode>, n: nat) {
    n <= |nodes| && forall k :: 0 <= k < n ==> Saturated(nodes, k)
  }

  method ExpandTree(nodes0: seq<ResourceNode>) returns (nodes: seq<ResourceNode>)
    requires DistinctIds(nodes0)
    ensures SameIds(nodes0, nodes) && DistinctIds(nodes)
    ensures forall i :: 0 <= i < |nodes| ==> nodes0[i].strongDependencies <= nodes[i].strongDependencies
    ensures forall i, d :: 0 <= i < |nodes| ==>
      (d in nodes[i].strongDependencies <==> ReachPlus(GraphOf(nodes0), nodes0[i].resourceId, d))
  {
    hide *;
    nodes := nodes0;
    ghost var universe := Targets(nodes0);
    StartExpanding(nodes0);
    var changed := true;
    while changed
      invariant Expanding(nodes0, nodes) && |nodes| == |nodes0| && DistinctIds(nodes)
      invariant Targets(nodes) <= universe
      invariant !changed ==> SaturatedTo(nodes, |nodes|)
      decreases Missing(nodes, universe), changed
    {
      ghost var before := nodes;
      changed := false;
      var i := 0;
      SaturatedNone(nodes);
      while i < |nodes|
        invariant 0 <= i <= |nodes|
        invariant Expanding(nodes0, nodes) && |nodes| == |nodes0| && DistinctIds(nodes)
        invariant Targets(nodes) <= universe
        invariant !changed ==> nodes == before && SaturatedTo(nodes, i)
        invariant changed ==> Missing(nodes, universe) < Missing(before, universe)
      {
        var transitiveDeps := TransitiveDeps(nodes, i);
        if transitiveDeps != [] {
          GrowNode(nodes0, nodes, i, transitiveDeps, universe);
          nodes := nodes[i := nodes[i].(strongDependencies := nodes[i].strongDependencies + transitiveDeps)];
          changed := true;
        } else {
          SaturatedNext(nodes, i);
        }
        i := i + 1;
      }
    }
    ClosedIsReach(nodes0, nodes);
  }

  lemma SaturatedNone(nodes: seq<ResourceNode>)
    ensures SaturatedTo(nodes, 0)
  {
  }

  lemma SaturatedNext(nodes: seq<ResourceNode>, i: nat)
    requires i < |nodes| && forall d :: !(Indirect(nodes, i, d) && d !in nodes[i].strongDependencies)
    ensures SaturatedTo(nodes, i) ==> SaturatedTo(nodes, i + 1)
  {
    hide Indirect;
  }

  lemma StartExpanding(nodes: seq<ResourceNode>)
    requires DistinctIds(nodes)
    ensures Expanding(nodes, nodes)
    ensures forall d, i :: 0 <= i < |nodes| && d in nodes[i].strongDependencies ==> d in Targets(nodes)
  {
    hide Reach;
    var g := GraphOf(nodes);
    forall i, d | 0 <= i < |nodes| && d in nodes[i].strongDependencies
      ensures ReachPlus(g, nodes[i].resourceId, d)
    {
      ReachEdge(g, nodes[i].resourceId, d);
    }
  }

  /** Appending indirect dependencies keeps the lists sound and shrinks what is missing. */
  lemma GrowNode(nodes0: seq<ResourceNode>, nodes: seq<ResourceNode>, i: nat, deps: seq<string>, universe: set<string>)
    requires Expanding(nodes0, nodes) && i < |nodes| && Targets(nodes) <= universe
    requires deps != [] && forall d :: d in deps ==> Indirect(nodes, i, d) && d !in nodes[i].strongDependencies
    ensures var nodes' := nodes[i := nodes[i].(strongDependencies := nodes[i].strongDependencies + deps)];
      && Expanding(nodes0, nodes') && DistinctIds(nodes')
      && Targets(nodes') <= universe
      && Missing(nodes', universe) < Missing(nodes, universe)
  {
    GrowReach(nodes0, nodes, i, deps);
    GrowTargets(nodes, i, deps, universe);
  }

  lemma GrowReach(nodes0: seq<ResourceNode>, nodes: seq<ResourceNode>, i: nat, deps: seq<string>)
    requires Expanding(nodes0, nodes) && i < |nodes|
    requires forall d :: d in deps ==> Indirect(nodes, i, d)
    ensures var nodes' := nodes[i := nodes[i].(strongDependencies := nodes[i].strongDependencies + deps)];
            Expanding(nodes0, nodes') && DistinctIds(nodes')
  {
    hide ReachPlus, GraphOf;
    var g := GraphOf(nodes0);
    forall d | d in deps
      ensures ReachPlus(g, nodes[i].resourceId, d)
    {
      var j :| 0 <= j < |nodes| && nodes[j].resourceId in nodes[i].strongDependencies &&
               d in nodes[j].strongDependencies;
      ReachPlusReach(g, nodes[j].resourceId, d);
      ReachPlusTrans(g, nodes[i].resourceId, nodes[j].resourceId, d);
    }
  }

  lemma GrowTargets(nodes: seq<ResourceNode>, i: nat, deps: seq<string>, universe: set<string>)
    requires i < |nodes| && Targets(nodes) <= universe
    requires deps != [] && forall d :: d in deps ==> Indirect(nodes, i, d) && d !in nodes[i].strongDependencies
    ensures var nodes' := nodes[i := nodes[i].(strongDependencies := nodes[i].strongDependencies + deps)];
            Targets(nodes') <= universe && Missing(nodes', universe) < Missing(nodes, universe)
  {
    var nodes' := nodes[i := nodes[i].(strongDependencies := nodes[i].strongDependencies + deps)];
    forall d | d in deps
      ensures d in universe
    {
      var j :| 0 <= j < |nodes| && nodes[j].resourceId in nodes[i].strongDependencies &&
               d in nodes[j].strongDependencies;
      assert d in Targets(nodes);
    }
    forall d | d in Targets(nodes')
      ensures d in universe
    {
      var k :| 0 <= k < |nodes'| && d in nodes'[k].strongDependencies;
      if d !in deps {
        assert d in nodes[k].strongDependencies && d in Targets(nodes);
      }
    }
    assert (i as int, deps[0]) in Missing(nodes, universe) && (i as int, deps[0]) !in Missing(nodes', universe);
  }

  lemma ClosedIsReach(nodes0: seq<ResourceNode>, nodes: seq<ResourceNode>)
    requires Expanding(nodes0, nodes) && SaturatedTo(nodes, |nodes|)
    ensures SameIds(nodes0, nodes)
    ensures forall i :: 0 <= i < |nodes| ==> nodes0[i].strongDependencies <= nodes[i].strongDependencies
    ensures forall i, d :: 0 <= i < |nodes| ==>
      (d in nodes[i].strongDependencies <==> ReachPlus(GraphOf(nodes0), nodes0[i].resourceId, d))
  {
    hide ReachPlus, Saturated;
    var g := GraphOf(nodes0);
    forall i, d | 0 <= i < |nodes| && ReachPlus(g, nodes[i].resourceId, d)
      ensures d in nodes[i].strongDependencies
    {
      assert Saturated(nodes, i);
      SaturatedReach(nodes0, nodes, i, d);
    }
  }

  lemma SaturatedReach(nodes0: seq<ResourceNode>, nodes: seq<ResourceNode>, i: nat, d: string)
    requires DistinctIds(nodes0) && SameIds(nodes0, nodes) && i < |nodes| && Saturated(nodes, i)
    requires forall k :: 0 <= k < |nodes| ==> nodes0[k].strongDependencies <= nodes[k].strongDependencies
    requires ReachPlus(GraphOf(nodes0), nodes0[i].resourceId, d)
    ensures d in nodes[i].strongDependencies
  {
    hide Reach;
    var g := GraphOf(nodes0);
    var m :| Edge(g, nodes0[i].resourceId, m) && Reach(g, m, d);
    var s := iset v | v in nodes[i].strongDependencies;
    forall x, y | x in s && Edge(g, x, y)
      ensures y in s
    {
      var j :| 0 <= j < |nodes0| && nodes0[j].resourceId == x;
      assert y in nodes0[j].strongDependencies && y in nodes[j].strongDependencies;
      assert Indirect(nodes, i, y);
    }
    assert m in nodes0[i].strongDependencies;
    ClosedReach(g, s, m, d);
  }

  // ---------------------------------------------------------------- Kahn's order

  function Elements(s: seq<string>): set<string> { set x | x in s }

  function Hits(deps: seq<string>, sorted: seq<string>): set<string> { set r | r in sorted && r in deps }

  lemma ElementsSize(s: seq<string>)
    ensures |Elements(s)| <= |s|
  {
    if s != [] {
      ElementsSize(s[1..]);
      assert Elements(s) == Elements(s[1..]) + {s[0]};
    }
  }

  /** A list has as many distinct hits as entries only if all its entries are hits. */
  lemma HitsSize(deps: seq<string>, sorted: seq<string>)
    ensures |Hits(deps, sorted)| <= |deps|
    ensures |Hits(deps, sorted)| == |deps| ==> forall d :: d in deps ==> d in sorted
  {
    ElementsSize(deps);
    var rest := Elements(deps) - Hits(deps, sorted);
    assert Elements(deps) == Hits(deps, sorted) + rest;
    assert |Elements(deps)| == |Hits(deps, sorted)| + |rest|;
    if |Hits(deps, sorted)| == |deps| {
      assert rest == {};
      forall d | d in deps
        ensures d in sorted
      {
        assert d in Elements(deps);
      }
    }
  }

  lemma DistinctSize(s: seq<string>)
    ensures |Elements(s)| == |s| <==> Distinct(s)
  {
    if s != [] {
      var rest := s[1..];
      DistinctSize(rest);
      ElementsSize(rest);
      assert Elements(s) == Elements(rest) + {s[0]};
      if s[0] in rest {
        assert Elements(s) == Elements(rest);
        var k :| 0 <= k < |rest| && rest[k] == s[0];
        assert s[0] == s[k + 1];
      } else if Distinct(rest) {
        forall i, j | 0 <= i < j < |s|
          ensures s[i] != s[j]
        {
          assert s[j] == rest[j - 1];
          if i > 0 { assert s[i] == rest[i - 1]; }
        }
      } else {
        var i, j :| 0 <= i < j < |rest| && rest[i] == rest[j];
        assert s[i + 1] == s[j + 1];
      }
    }
  }

  lemma HitsReady(deps: seq<string>, sorted: seq<string>)
    ensures |Hits(deps, sorted)| == |deps| <==> Ready(deps, sorted)
  {
    HitsSize(deps, sorted);
    DistinctSize(deps);
    ElementsSize(deps);
    if forall d :: d in deps ==> d in sorted {
      assert Hits(deps, sorted) == Elements(deps);
    }
  }

  lemma HitsNext(deps: seq<string>, sorted: seq<string>, rid: string)
    requires rid !in sorted
    ensures |Hits(deps, sorted + [rid])| == |Hits(deps, sorted)| + (if rid in deps then 1 else 0)
  {
    if rid in deps {
      assert Hits(deps, sorted + [rid]) == Hits(deps, sorted) + {rid};
    } else {
      assert Hits(deps, sorted + [rid]) == Hits(deps, sorted);
    }
  }

  /** Every id of the list comes after everything its node depends on. */
  ghost predicate DepsFirst(nodes: seq<ResourceNode>, sorted: seq<string>) {
    forall k, i, d ::
      (0 <= k < |sorted| && 0 <= i < |nodes| && nodes[i].resourceId == sorted[k] && d in nodes[i].strongDependencies)
      ==> d in sorted[..k]
  }

  /** No repeated entry, and every entry is sorted. */
  predicate Ready(deps: seq<string>, sorted: seq<string>) {
    Distinct(deps) && forall d :: d in deps ==> d in sorted
  }

  /** Kahn's counters when nodes[..j] have seen the last entry of sorted and the others have not. */
  ghost predicate Counting(nodes: seq<ResourceNode>, sorted: seq<string>, q: seq<string>, count: map<string, int>,
      j: nat) {
    && j <= |nodes| && (j < |nodes| ==> sorted != [])
    && Distinct(sorted + q)
    && (forall r :: r in sorted + q ==> HasId(nodes, r))
    && (forall r :: r in count <==> HasId(nodes, r))
    && (forall i :: 0 <= i < j ==> CountOf(count, nodes[i].resourceId) == Open(nodes[i].strongDependencies, sorted))
    && (forall i :: j <= i < |nodes| ==>
          CountOf(count, nodes[i].resourceId) == Open(nodes[i].strongDependencies, sorted[..|sorted| - 1]))
    && (forall i :: 0 <= i < |nodes| ==>
          (nodes[i].resourceId in sorted + q <==> CountOf(count, nodes[i].resourceId) == 0))
    && DepsFirst(nodes, sorted)
  }

  /** How many entries of the list are counted as not sorted yet. */
  function Open(deps: seq<string>, sorted: seq<string>): int { |deps| - |Hits(deps, sorted)| }

  function CountOf(count: map<string, int>, r: string): int { if r in count then count[r] else -1 }

  method KahnSort(nodes: seq<ResourceNode>) returns (sorted: seq<string>)
    requires DistinctIds(nodes)
    ensures Distinct(sorted) && DepsFirst(nodes, sorted)
    ensures forall r :: r in sorted ==> HasId(nodes, r)
    ensures forall i :: 0 <= i < |nodes| ==>
      (nodes[i].resourceId in sorted <==> Ready(nodes[i].strongDependencies, sorted))
  {
    hide *;
    var depCount := InitialCount(nodes);
    var q: seq<string> := [];
    sorted := [];
    var todo := depCount.Keys;
    QueueNone(depCount);
    while todo != {}
      invariant todo <= depCount.Keys
      invariant Queued(q, depCount, todo)
      decreases todo
    {
      var rid :| rid in todo;
      QueueNext(q, depCount, todo, rid);
      todo := todo - {rid};
      if depCount[rid] == 0 {
        q := q + [rid];
      }
    }
    StartCounting(nodes, q, depCount);
    while q != []
      invariant Counting(nodes, sorted, q, depCount, |nodes|)
      decreases Ids(nodes) - Elements(sorted)
    {
      var rid := q[0];
      PopNext(nodes, sorted, q, depCount);
      q := q[1..];
      sorted := sorted + [rid];
      ghost var before := sorted;
      var j := 0;
      while j < |nodes|
        invariant 0 <= j <= |nodes|
        invariant Counting(nodes, sorted, q, depCount, j)
        invariant sorted == before
      {
        SeeNext(nodes, sorted, q, depCount, j);
        if rid in nodes[j].strongDependencies {
          depCount := depCount[nodes[j].resourceId := depCount[nodes[j].resourceId] - 1];
          if depCount[nodes[j].resourceId] == 0 {
            q := q + [nodes[j].resourceId];
          }
        }
        j := j + 1;
      }
    }
    DoneCounting(nodes, sorted, depCount);
  }

  function Ids(nodes: seq<ResourceNode>): set<string> { set i | 0 <= i < |nodes| :: nodes[i].resourceId }

  function InitialCount(nodes: seq<ResourceNode>): (count: map<string, int>)
    requires DistinctIds(nodes)
  {
    map i | 0 <= i < |nodes| :: nodes[i].resourceId := |nodes[i].strongDependencies|
  }

  /** q holds, once each, the ids already tried whose count is zero. */
  predicate Queued(q: seq<string>, count: map<string, int>, todo: set<string>) {
    && Distinct(q)
    && (forall r :: r in q ==> r in count && r !in todo && count[r] == 0)
    && (forall r :: r in count && r !in todo && count[r] == 0 ==> r in q)
  }

  lemma QueueNone(count: map<string, int>)
    ensures Queued([], count, count.Keys)
  {
  }

  lemma QueueNext(q: seq<string>, count: map<string, int>, todo: set<string>, rid: string)
    requires Queued(q, count, todo) && rid in todo && todo <= count.Keys
    ensures Queued(if count[rid] == 0 then q + [rid] else q, count, todo - {rid})
  {
  }

  lemma StartCounting(nodes: seq<ResourceNode>, q: seq<string>, count: map<string, int>)
    requires DistinctIds(nodes) && count == InitialCount(nodes) && Queued(q, count, {})
    ensures Counting(nodes, [], q, count, |nodes|)
  {
    assert [] + q == q;
  }

  lemma PopNext(nodes: seq<ResourceNode>, sorted: seq<string>, q: seq<string>, count: map<string, int>)
    requires Counting(nodes, sorted, q, count, |nodes|) && q != []
    ensures Counting(nodes, sorted + [q[0]], q[1..], count, 0)
    ensures Ids(nodes) - Elements(sorted + [q[0]]) < Ids(nodes) - Elements(sorted)
  {
    var rid := q[0];
    var sorted' := sorted + [rid];
    assert sorted' + q[1..] == sorted + q;
    assert sorted'[..|sorted'| - 1] == sorted;
    assert (sorted + q)[|sorted|] == rid;
    assert HasId(nodes, rid);
    assert rid !in sorted by {
      forall k | 0 <= k < |sorted|
        ensures sorted[k] != rid
      {
        assert (sorted + q)[k] == sorted[k];
      }
    }
    assert rid in Ids(nodes) - Elements(sorted) && rid !in Ids(nodes) - Elements(sorted');
    forall k, i, d | 0 <= k < |sorted'| && 0 <= i < |nodes| && nodes[i].resourceId == sorted'[k] &&
        d in nodes[i].strongDependencies
      ensures d in sorted'[..k]
    {
      if k < |sorted| {
        assert sorted'[..k] == sorted[..k] && sorted'[k] == sorted[k];
      } else {
        assert nodes[i].resourceId in sorted + q;
        HitsSize(nodes[i].strongDependencies, sorted);
        assert sorted'[..k] == sorted;
      }
    }
  }

  lemma SeeNext(nodes: seq<ResourceNode>, sorted: seq<string>, q: seq<string>, count: map<string, int>, j: nat)
    requires DistinctIds(nodes) && j < |nodes| && Counting(nodes, sorted, q, count, j)
    ensures nodes[j].resourceId in count && sorted != []
    ensures var id := nodes[j].resourceId;
      var count' := if sorted[|sorted| - 1] in nodes[j].strongDependencies then count[id := count[id] - 1] else count;
      var q' := if sorted[|sorted| - 1] in nodes[j].strongDependencies && count'[id] == 0 then q + [id] else q;
      Counting(nodes, sorted, q', count', j + 1)
  {
    hide DepsFirst, Hits;
    var id := nodes[j].resourceId;
    var deps := nodes[j].strongDependencies;
    assert HasId(nodes, id);
    LastHit(sorted, q, deps);
    HitsSize(deps, sorted);
    if sorted[|sorted| - 1] in deps {
      assert id !in sorted + q;
      ListAppend(sorted, q, id);
    }
  }

  lemma ListAppend(sorted: seq<string>, q: seq<string>, id: string)
    requires Distinct(sorted + q) && id !in sorted + q
    ensures Distinct(sorted + (q + [id]))
    ensures forall r :: r in sorted + (q + [id]) <==> r in sorted + q || r == id
  {
    assert sorted + (q + [id]) == (sorted + q) + [id];
  }

  lemma LastHit(sorted: seq<string>, q: seq<string>, deps: seq<string>)
    requires Distinct(sorted + q) && sorted != []
    ensures |Hits(deps, sorted)| ==
            |Hits(deps, sorted[..|sorted| - 1])| + (if sorted[|sorted| - 1] in deps then 1 else 0)
  {
    var rid := sorted[|sorted| - 1];
    var init := sorted[..|sorted| - 1];
    assert sorted == init + [rid];
    forall k | 0 <= k < |init|
      ensures init[k] != rid
    {
      assert (sorted + q)[k] == init[k] && (sorted + q)[|init|] == rid;
    }
    HitsNext(deps, init, rid);
  }

  lemma DoneCounting(nodes: seq<ResourceNode>, sorted: seq<string>, count: map<string, int>)
    requires Counting(nodes, sorted, [], count, |nodes|)
    ensures Distinct(sorted) && DepsFirst(nodes, sorted)
    ensures forall r :: r in sorted ==> HasId(nodes, r)
    ensures forall i :: 0 <= i < |nodes| ==>
      (nodes[i].resourceId in sorted <==> Ready(nodes[i].strongDependencies, sorted))
  {
    assert sorted + [] == sorted;
    forall i | 0 <= i < |nodes|
      ensures nodes[i].resourceId in sorted <==> Ready(nodes[i].strongDependencies, sorted)
    {
      HitsReady(nodes[i].strongDependencies, sorted);
    }
  }

  // ---------------------------------------------------------------- analyze

  /** Every registered dependency of a node comes before the node. */
  ghost predicate Ordered(g: Graph, nodes: seq<ResourceNode>) {
    forall i, d :: 0 <= i < |nodes| && d in nodes[i].strongDependencies && d in g ==> HasId(nodes[..i], d)
  }

  /** Each dependency list is complete and correct with respect to the declared graph. */
  ghost predicate Complete(g: Graph, nodes: seq<ResourceNode>) {
    forall i, d :: 0 <= i < |nodes| ==> (d in nodes[i].strongDependencies <==> ReachPlus(g, nodes[i].resourceId, d))
  }

  ghost predicate SomeCycle(g: Graph, roots: seq<string>) {
    exists r :: Collected(g, roots, r) && OnCycle(g, r)
  }

  /** Kahn's counters can reach zero: no repeated and no unregistered entry. */
  predicate KahnReady(nodes: seq<ResourceNode>) {
    forall i :: 0 <= i < |nodes| ==>
      (Distinct(nodes[i].strongDependencies) && forall d :: d in nodes[i].strongDependencies ==> HasId(nodes, d))
  }

  function SelfReference(id: string): string { "Resource '" + id + "' references itself." }

  function Join(parts: seq<string>, sep: string): string {
    if parts == [] then "" else if |parts| == 1 then parts[0] else parts[0] + sep + Join(parts[1..], sep)
  }

  function Bracketed(sccs: seq<seq<string>>): seq<string> {
    if sccs == [] then [] else ["[" + Join(sccs[0], " -> ") + "]"] + Bracketed(sccs[1..])
  }

  function CycleText(sccs: seq<seq<string>>): string {
    "Circular dependencies detected: " + Join(Bracketed(sccs), "; ")
  }

  /** How a component and a pair of components are described. */
  lemma CycleTextMeaning(a: string, b: string, c: string, d: string)
    ensures CycleText([[a, b], [c, d]]) ==
      "Circular dependencies detected: " +
      ("[" + Join([a, b], " -> ") + "]" + "; " + ("[" + Join([c, d], " -> ") + "]"))
    ensures Join([a, b], " -> ") == a + " -> " + b
  {
    hide Join;
    assert Join([a, b], " -> ") == a + " -> " + b by { JoinTwo(a, b, " -> "); }
    var x, y := "[" + Join([a, b], " -> ") + "]", "[" + Join([c, d], " -> ") + "]";
    assert [[a, b], [c, d]][1..] == [[c, d]] && [[c, d]][1..] == [];
    assert Bracketed([]) == [] && Bracketed([[c, d]]) == [y] && Bracketed([[a, b], [c, d]]) == [x, y];
    JoinTwo(x, y, "; ");
  }

  lemma JoinTwo(a: string, b: string, sep: string)
    ensures Join([a, b], sep) == a + sep + b
  {
    assert [a, b][1..] == [b] && Join([b], sep) == b;
  }

  predicate FirstSelfReference(nodes: seq<ResourceNode>, i: nat)
    requires i < |nodes|
  {
    && nodes[i].resourceId in nodes[i].strongDependencies
    && forall k :: 0 <= k < i ==> nodes[k].resourceId !in nodes[k].strongDependencies
  }

  method FindSelfReference(nodes: seq<ResourceNode>) returns (found: Option<string>)
    ensures found.None? ==> forall i :: 0 <= i < |nodes| ==> nodes[i].resourceId !in nodes[i].strongDependencies
    ensures found.Some? ==>
              exists i :: 0 <= i < |nodes| && FirstSelfReference(nodes, i) && found.value == nodes[i].resourceId
  {
    var i := 0;
    while i < |nodes|
      invariant 0 <= i <= |nodes|
      invariant forall k :: 0 <= k < i ==> nodes[k].resourceId !in nodes[k].strongDependencies
    {
      var deps := nodes[i].strongDependencies;
      var j := 0;
      while j < |deps|
        invariant 0 <= j <= |deps|
        invariant nodes[i].resourceId !in deps[..j]
      {
        if deps[j] == nodes[i].resourceId {
          assert FirstSelfReference(nodes, i);
          return Some(nodes[i].resourceId);
        }
        j := j + 1;
      }
      assert deps[..j] == deps;
      i := i + 1;
    }
    found := None;
  }

  method Rearranged(nodes: seq<ResourceNode>, sorted: seq<string>) returns (result: seq<ResourceNode>)
    requires forall r :: r in sorted ==> HasId(nodes, r)
    ensures |result| == |sorted|
    ensures forall k :: 0 <= k < |sorted| ==> result[k].resourceId == sorted[k] && result[k] in nodes
  {
    result := [];
    var k := 0;
    while k < |sorted|
      invariant 0 <= k <= |sorted| && |result| == k
      invariant forall l :: 0 <= l < k ==> result[l].resourceId == sorted[l] && result[l] in nodes
    {
      assert sorted[k] in sorted;
      var j := 0;
      while nodes[j].resourceId != sorted[k]
        invariant 0 <= j < |nodes|
        invariant exists m :: j <= m < |nodes| && nodes[m].resourceId == sorted[k]
        decreases |nodes| - j
      {
        j := j + 1;
      }
      result := result + [nodes[j]];
      k := k + 1;
    }
  }

  /** The nodes are exactly the collected resources, once each. */
  ghost predicate Gathered(g: Graph, roots: seq<string>, nodes: seq<ResourceNode>) {
    DistinctIds(nodes) && forall v :: HasId(nodes, v) <==> Collected(g, roots, v)
  }

  lemma CollectedStep(g: Graph, roots: seq<string>, a: string, b: string)
    requires Collected(g, roots, a) && Edge(g, a, b) && b in g
    ensures Collected(g, roots, b)
  {
    hide Reach;
    var r :| r in roots && Reach(g, r, a);
    ReachEdge(g, a, b);
    ReachTrans(g, r, a, b);
  }

  /** Leaving out what was not collected does not change what a collected resource reaches. */
  lemma SameReachPlus(g: Graph, roots: seq<string>, nodes: seq<ResourceNode>, a: string, d: string)
    requires Gathered(g, roots, nodes) && HasId(nodes, a)
    requires forall i :: 0 <= i < |nodes| ==>
        nodes[i].resourceId in g && nodes[i].strongDependencies == g[nodes[i].resourceId]
    ensures ReachPlus(GraphOf(nodes), a, d) <==> ReachPlus(g, a, d)
  {
    hide Reach;
    var h := GraphOf(nodes);
    assert forall x, y :: HasId(nodes, x) ==> Edge(h, x, y) == Edge(g, x, y);
    if ReachPlus(h, a, d) {
      var m :| Edge(h, a, m) && Reach(h, m, d);
      var s := iset v | Reach(g, m, v);
      ReachRefl(g, m);
      forall x, y | x in s && Edge(h, x, y)
        ensures y in s
      {
        ReachEdge(g, x, y);
        ReachTrans(g, m, x, y);
      }
      ClosedReach(h, s, m, d);
    }
    if ReachPlus(g, a, d) {
      var m :| Edge(g, a, m) && Reach(g, m, d);
      var s := iset v | Reach(h, m, v) && (v in g ==> HasId(nodes, v));
      ReachRefl(h, m);
      if m in g { CollectedStep(g, roots, a, m); }
      forall x, y | x in s && Edge(g, x, y)
        ensures y in s
      {
        ReachEdge(h, x, y);
        ReachTrans(h, m, x, y);
        if y in g { CollectedStep(g, roots, x, y); }
      }
      ClosedReach(g, s, m, d);
    }
  }

  lemma ExpandedComplete(g: Graph, roots: seq<string>, collected: seq<ResourceNode>, nodes: seq<ResourceNode>)
    requires Gathered(g, roots, collected) && SameIds(collected, nodes)
    requires forall i :: 0 <= i < |collected| ==>
        collected[i].resourceId in g && collected[i].strongDependencies == g[collected[i].resourceId]
    requires forall i, d :: 0 <= i < |nodes| ==>
      (d in nodes[i].strongDependencies <==> ReachPlus(GraphOf(collected), collected[i].resourceId, d))
    ensures Gathered(g, roots, nodes) && Complete(g, nodes)
  {
    hide ReachPlus, Collected;
    forall v
      ensures HasId(nodes, v) <==> HasId(collected, v)
    {
      if i :| 0 <= i < |nodes| && nodes[i].resourceId == v {
        assert collected[i].resourceId == v;
      }
      if i :| 0 <= i < |nodes| && collected[i].resourceId == v {
        assert nodes[i].resourceId == v;
      }
    }
    forall i, d | 0 <= i < |nodes|
      ensures d in nodes[i].strongDependencies <==> ReachPlus(g, nodes[i].resourceId, d)
    {
      SameReachPlus(g, roots, collected, collected[i].resourceId, d);
    }
  }

  lemma CycleIffSelf(g: Graph, roots: seq<string>, nodes: seq<ResourceNode>)
    requires Gathered(g, roots, nodes) && Complete(g, nodes)
    ensures SomeCycle(g, roots) <==> exists i :: 0 <= i < |nodes| && nodes[i].resourceId in nodes[i].strongDependencies
    ensures forall i :: 0 <= i < |nodes| && nodes[i].resourceId in nodes[i].strongDependencies ==>
      Collected(g, roots, nodes[i].resourceId) && OnCycle(g, nodes[i].resourceId)
  {
    hide ReachPlus, Collected;
    forall i | 0 <= i < |nodes|
      ensures Collected(g, roots, nodes[i].resourceId)
    {
      assert HasId(nodes, nodes[i].resourceId);
    }
    if SomeCycle(g, roots) {
      var r :| Collected(g, roots, r) && OnCycle(g, r);
      var i :| 0 <= i < |nodes| && nodes[i].resourceId == r;
      assert r in nodes[i].strongDependencies;
    }
  }

  /** Two different nodes depend on each other. */
  ghost predicate HasMutualPair(nodes: seq<ResourceNode>)
    requires DistinctIds(nodes)
  {
    exists a, b :: HasId(nodes, a) && a != b && Mutual(GraphOf(nodes), a, b)
  }

  /** On an acyclic closed list the component search has nothing to report. */
  lemma NoMutualPair(g: Graph, roots: seq<string>, nodes: seq<ResourceNode>)
    requires Gathered(g, roots, nodes) && Complete(g, nodes) && !SomeCycle(g, roots)
    ensures !HasMutualPair(nodes)
  {
    hide Reach, Collected;
    var h := GraphOf(nodes);
    forall a, b | HasId(nodes, a) && a != b && Mutual(h, a, b)
      ensures false
    {
      ClosureReach(g, nodes, a, b);
      ClosureReach(g, nodes, b, a);
      MutualOnCycle(g, a, b);
    }
  }

  lemma ClosureReach(g: Graph, nodes: seq<ResourceNode>, a: string, b: string)
    requires DistinctIds(nodes) && Complete(g, nodes) && Reach(GraphOf(nodes), a, b)
    ensures Reach(g, a, b)
  {
    hide Reach, ReachPlus;
    var h := GraphOf(nodes);
    var s := iset v | Reach(g, a, v);
    ReachRefl(g, a);
    forall x, y | x in s && Edge(h, x, y)
      ensures y in s
    {
      var i :| 0 <= i < |nodes| && nodes[i].resourceId == x;
      ReachPlusReach(g, x, y);
      ReachTrans(g, a, x, y);
    }
    ClosedReach(h, s, a, b);
  }

  /** Without cycles, post-order puts everything a node reaches before the node. */
  lemma DepthFirstOrdered(g: Graph, roots: seq<string>, collected: seq<ResourceNode>, nodes: seq<ResourceNode>)
    requires Gathered(g, roots, collected) && PostOrder(g, collected) && !SomeCycle(g, roots)
    requires forall i :: 0 <= i < |collected| ==>
        collected[i].resourceId in g && collected[i].strongDependencies == g[collected[i].resourceId]
    requires SameIds(collected, nodes) && Complete(g, nodes)
    ensures Ordered(g, nodes)
  {
    hide Reach, Collected;
    forall i, d | 0 <= i < |nodes| && d in nodes[i].strongDependencies && d in g
      ensures HasId(nodes[..i], d)
    {
      var m :| Edge(g, nodes[i].resourceId, m) && Reach(g, m, d);
      var s := iset v | v !in g || HasId(collected[..i], v);
      EdgeBefore(g, roots, collected, i, i, m);
      forall x, y | x in s && Edge(g, x, y)
        ensures y in s
      {
        var j :| 0 <= j < i && collected[..i][j].resourceId == x;
        EdgeBefore(g, roots, collected, j, i, y);
      }
      ClosedReach(g, s, m, d);
      var k :| 0 <= k < i && collected[..i][k].resourceId == d;
      assert nodes[..i][k].resourceId == d;
    }
  }

  lemma EdgeBefore(g: Graph, roots: seq<string>, collected: seq<ResourceNode>, j: nat, i: nat, y: string)
    requires Gathered(g, roots, collected) && PostOrder(g, collected) && !SomeCycle(g, roots)
    requires j <= i && j < |collected| && i <= |collected|
    requires Edge(g, collected[j].resourceId, y) && collected[j].strongDependencies == g[collected[j].resourceId]
    ensures y !in g || HasId(collected[..i], y)
  {
    hide Reach, Collected;
    var x := collected[j].resourceId;
    assert HasId(collected, x);
    assert !OnCycle(g, x);
    assert !Reach(g, y, x);
    assert DepBefore(g, collected, j, y);
    if HasId(collected[..j], y) {
      var k :| 0 <= k < j && collected[..j][k].resourceId == y;
      assert collected[..i][k].resourceId == y;
    }
  }

  /** Kahn's loop sorts every node exactly when no list has a repeated or unregistered entry. */
  lemma KahnExit(g: Graph, nodes: seq<ResourceNode>, sorted: seq<string>)
    requires DistinctIds(nodes) && Ordered(g, nodes) && Distinct(sorted)
    requires forall i :: 0 <= i < |nodes| ==> nodes[i].resourceId in g
    requires forall r :: r in sorted ==> HasId(nodes, r)
    requires forall i :: 0 <= i < |nodes| ==>
      (nodes[i].resourceId in sorted <==> Ready(nodes[i].strongDependencies, sorted))
    ensures |sorted| == |nodes| <==> forall v :: HasId(nodes, v) ==> v in sorted
    ensures |sorted| == |nodes| <==> KahnReady(nodes)
  {
    SortedSize(nodes, sorted);
    if KahnReady(nodes) {
      ReadySorted(g, nodes, sorted, |nodes|);
    }
    if forall v :: HasId(nodes, v) ==> v in sorted {
      forall i | 0 <= i < |nodes|
        ensures Ready(nodes[i].strongDependencies, sorted)
      {
        assert HasId(nodes, nodes[i].resourceId);
      }
    }
  }

  lemma IdsSize(nodes: seq<ResourceNode>)
    requires DistinctIds(nodes)
    ensures |Ids(nodes)| == |nodes|
  {
    if nodes != [] {
      var init := nodes[..|nodes| - 1];
      var id := nodes[|nodes| - 1].resourceId;
      IdsSize(init);
      forall v
        ensures v in Ids(nodes) <==> v in Ids(init) || v == id
      {
        if v in Ids(init) {
          var i :| 0 <= i < |init| && init[i].resourceId == v;
          assert nodes[i].resourceId == v;
        }
        if v in Ids(nodes) && v != id {
          var i :| 0 <= i < |nodes| && nodes[i].resourceId == v;
          assert init[i].resourceId == v;
        }
      }
      assert Ids(nodes) == Ids(init) + {id};
      assert id !in Ids(init);
    }
  }

  lemma SortedSize(nodes: seq<ResourceNode>, sorted: seq<string>)
    requires DistinctIds(nodes) && Distinct(sorted)
    requires forall r :: r in sorted ==> HasId(nodes, r)
    ensures |sorted| == |nodes| <==> forall v :: HasId(nodes, v) ==> v in sorted
  {
    IdsSize(nodes);
    DistinctSize(sorted);
    assert forall v :: v in Ids(nodes) <==> HasId(nodes, v);
    var rest := Ids(nodes) - Elements(sorted);
    assert Ids(nodes) == Elements(sorted) + rest;
    assert |Ids(nodes)| == |Elements(sorted)| + |rest|;
    if forall v :: HasId(nodes, v) ==> v in sorted {
      assert rest == {};
    }
    if |sorted| == |nodes| {
      assert rest == {};
      forall v | HasId(nodes, v)
        ensures v in sorted
      {
        assert v in Ids(nodes) && v !in rest;
      }
    }
  }

  lemma {:induction false} ReadySorted(g: Graph, nodes: seq<ResourceNode>, sorted: seq<string>, n: nat)
    requires n <= |nodes| && Ordered(g, nodes) && KahnReady(nodes)
    requires forall i :: 0 <= i < |nodes| ==> nodes[i].resourceId in g
    requires forall i :: 0 <= i < |nodes| ==>
      (nodes[i].resourceId in sorted <==> Ready(nodes[i].strongDependencies, sorted))
    ensures forall i :: 0 <= i < n ==> nodes[i].resourceId in sorted
  {
    if n > 0 {
      ReadySorted(g, nodes, sorted, n - 1);
      forall d | d in nodes[n - 1].strongDependencies
        ensures d in sorted
      {
        var k :| 0 <= k < |nodes| && nodes[k].resourceId == d;
        assert HasId(nodes[..n - 1], d);
        var l :| 0 <= l < n - 1 && nodes[..n - 1][l].resourceId == d;
        assert nodes[l].resourceId == d;
      }
    }
  }

  lemma Permuted(g: Graph, roots: seq<string>, nodes: seq<ResourceNode>, sorted: seq<string>, result: seq<ResourceNode>)
    requires Gathered(g, roots, nodes) && Complete(g, nodes)
    requires Distinct(sorted) && DepsFirst(nodes, sorted)
    requires forall v :: HasId(nodes, v) <==> v in sorted
    requires |result| == |sorted|
    requires forall k :: 0 <= k < |sorted| ==> result[k].resourceId == sorted[k] && result[k] in nodes
    ensures Gathered(g, roots, result) && Complete(g, result) && Ordered(g, result)
  {
    hide ReachPlus, Collected;
    forall v
      ensures HasId(result, v) <==> v in sorted
    {
      if v in sorted {
        var k :| 0 <= k < |sorted| && sorted[k] == v;
        assert result[k].resourceId == v;
      }
    }
    forall k, d | 0 <= k < |result|
      ensures d in result[k].strongDependencies <==> ReachPlus(g, result[k].resourceId, d)
      ensures d in result[k].strongDependencies ==> HasId(result[..k], d)
    {
      var i :| 0 <= i < |nodes| && nodes[i] == result[k];
      if d in result[k].strongDependencies {
        assert nodes[i].resourceId == sorted[k];
        var l :| 0 <= l < k && sorted[..k][l] == d;
        assert result[..k][l].resourceId == d;
      }
    }
  }

  class ResourceDependencyAnalyzer {
    var hasCycle: bool
    var cycleDescription: string

    constructor ()
      ensures !hasCycle && cycleDescription == ""
    {
      hasCycle := false;
      cycleDescription := "";
    }

    method TarjanScc(nodes: seq<ResourceNode>)
      requires DistinctIds(nodes)
      modifies this
      ensures hasCycle <==> old(hasCycle) || HasMutualPair(nodes)
      ensures !HasMutualPair(nodes) ==> cycleDescription == old(cycleDescription)
      ensures HasMutualPair(nodes) ==>
        exists sccs :: ExactComponents(GraphOf(nodes), sccs) && cycleDescription == CycleText(sccs)
    {
      var sccs := FindComponents(GraphOf(nodes));
      if sccs != [] {
        hasCycle := true;
        cycleDescription := CycleText(sccs);
      }
    }

    method Analyze(resourceIds: seq<string>, lookup: Registry, wantsError: bool)
      returns (result: seq<ResourceNode>, errorMessage: Option<string>, ghost expanded: seq<ResourceNode>)
      modifies this
      ensures errorMessage.Some? <==> wantsError && SomeCycle(Declared(lookup), resourceIds)
      ensures errorMessage.Some? ==> NamesCycle(Declared(lookup), resourceIds, errorMessage.value)
      ensures !hasCycle && cycleDescription == ""
      ensures DistinctIds(result) && Complete(Declared(lookup), result)
      ensures forall v :: HasId(result, v) <==> Collected(Declared(lookup), resourceIds, v)
      ensures !SomeCycle(Declared(lookup), resourceIds) ==> Ordered(Declared(lookup), result)
      ensures DistinctIds(expanded) && Complete(Declared(lookup), expanded)
      ensures forall v :: HasId(expanded, v) <==> Collected(Declared(lookup), resourceIds, v)
      ensures SomeCycle(Declared(lookup), resourceIds) || !KahnReady(expanded) ==> result == expanded
    {
      hide Reach, Collected, SomeCycle, OnCycle, Complete, Ordered, PostOrder, KahnReady, SameIds, Mutual, GraphOf;
      ghost var g := Declared(lookup);
      hasCycle := false;
      cycleDescription := "";
      errorMessage := None;
      var collected := CollectAll(resourceIds, lookup);
      var nodes := ExpandTree(collected);
      expanded := nodes;
      ExpandedComplete(g, resourceIds, collected, nodes);
      var own := FindSelfReference(nodes);
      CycleIffSelf(g, resourceIds, nodes);
      if own.Some? {
        if wantsError {
          errorMessage := Some(SelfReference(own.value));
          CycleNamed(g, resourceIds, own.value);
        }
        result := nodes;
        return;
      }
      NoMutualPair(g, resourceIds, nodes);
      TarjanScc(nodes);
      if hasCycle && wantsError {
        errorMessage := Some(cycleDescription);
      }
      DepthFirstOrdered(g, resourceIds, collected, nodes);
      result := SortNodes(nodes, g, resourceIds);
    }
  }

  /** The error text names a collected resource on a cycle. */
  ghost predicate NamesCycle(g: Graph, roots: seq<string>, text: string) {
    exists r :: Collected(g, roots, r) && OnCycle(g, r) && text == "Resource '" + r + "' references itself."
  }

  lemma CycleNamed(g: Graph, roots: seq<string>, r: string)
    requires Collected(g, roots, r) && OnCycle(g, r)
    ensures NamesCycle(g, roots, SelfReference(r))
  {
  }

  /** The two exits of the sorting: Kahn's order, or the given order when he could not sort every node. */
  method SortNodes(nodes: seq<ResourceNode>, ghost g: Graph, ghost roots: seq<string>)
    returns (result: seq<ResourceNode>)
    requires Gathered(g, roots, nodes) && Complete(g, nodes) && Ordered(g, nodes)
    ensures Gathered(g, roots, result) && Complete(g, result) && Ordered(g, result)
    ensures !KahnReady(nodes) ==> result == nodes
  {
    hide Reach, Complete, Ordered, KahnReady, DepsFirst, Ready;
    forall i | 0 <= i < |nodes| ensures nodes[i].resourceId in g {
      assert HasId(nodes, nodes[i].resourceId);
    }
    var sorted := KahnSort(nodes);
    KahnExit(g, nodes, sorted);
    if |sorted| != |nodes| {
      return nodes;
    }
    result := Rearranged(nodes, sorted);
    Permuted(g, roots, nodes, sorted, result);
  }

  /** Two resources that depend on each other: the error is reported, the cycle flag stays clear. */
  method UnflaggedCycle()
    returns (analyzer: ResourceDependencyAnalyzer, lookup: Registry, errorMessage: Option<string>)
    ensures lookup == map["A" := [Some("B")], "B" := [Some("A")]] && SomeCycle(Declared(lookup), ["A"])
    ensures errorMessage.Some? && NamesCycle(Declared(lookup), ["A"], errorMessage.value)
    ensures !analyzer.hasCycle && analyzer.cycleDescription == ""
  {
    lookup := map["A" := [Some("B")], "B" := [Some("A")]];
    analyzer := new ResourceDependencyAnalyzer();
    var result;
    ghost var expanded;
    result, errorMessage, expanded := analyzer.Analyze(["A"], lookup, true);
    TwoCycle(Declared(lookup));
  }

  lemma TwoCycle(g: Graph)
    requires Edge(g, "A", "B") && Edge(g, "B", "A")
    ensures SomeCycle(g, ["A"])
  {
    ReachEdge(g, "B", "A");
    assert OnCycle(g, "A");
    ReachRefl(g, "A");
    assert "A" in ["A"] && Collected(g, ["A"], "A");
  }
}
