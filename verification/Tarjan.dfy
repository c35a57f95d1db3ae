/** The strongly-connected-component search of the resource dependency analyzer. */
module Tarjan {
  import opened Common
  import opened Graphs

  datatype Vertex = Vertex(index: int, lowlink: int, onStack: bool)

  /** The by-reference state shared by all recursive calls of the search. */
  datatype Search = Search(vertices: map<string, Vertex>, stack: seq<string>, sccs: seq<seq<string>>, index: int)

  function Idx(t: Search, v: string): int { if v in t.vertices then t.vertices[v].index else -1 }

  function Low(t: Search, v: string): int { if v in t.vertices then t.vertices[v].lowlink else -1 }

  predicate On(t: Search, v: string) { v in t.vertices && t.vertices[v].onStack }

  predicate Visited(t: Search, v: string) { Idx(t, v) != -1 }

  predicate Assigned(t: Search, v: string) { Visited(t, v) && !On(t, v) }

  function White(t: Search): set<string> { set v | v in t.vertices && t.vertices[v].index == -1 }

  // ---------------------------------------------------------------- what the search establishes

  /** A component: two or more nodes, listed once each, and together exactly one mutual-reachability class. */
  ghost predicate IsComponent(g: Graph, c: seq<string>) {
    && |c| > 1
    && Distinct(c)
    && forall a, b :: a in c ==> (b in c <==> Mutual(g, a, b))
  }

  ghost predicate Disjoint(sccs: seq<seq<string>>) {
    forall k, l :: 0 <= k < l < |sccs| ==> forall v :: v in sccs[k] ==> v !in sccs[l]
  }

  predicate Listed(sccs: seq<seq<string>>, a: string) {
    exists k :: 0 <= k < |sccs| && a in sccs[k]
  }

  // ---------------------------------------------------------------- invariant of the search

  /** The flags of the vertices agree with each other. */
  ghost predicate Flags(g: Graph, t: Search) {
    && t.vertices.Keys == g.Keys
    && t.index >= 0
    && (forall v :: v in t.vertices ==> -1 <= Idx(t, v) < t.index)
    && (forall v :: On(t, v) ==> Visited(t, v))
  }

  /** The stack lists the vertices flagged as being on it, in the order of their visits. */
  ghost predicate Stacked(t: Search) {
    && (forall v :: v in t.stack <==> On(t, v))
    && (forall i, j :: 0 <= i < j < |t.stack| ==> Idx(t, t.stack[i]) < Idx(t, t.stack[j]))
  }

  /** A vertex reaches every vertex above it on the stack. */
  ghost predicate StackOrder(g: Graph, t: Search) {
    forall x, y :: On(t, x) && On(t, y) && Idx(t, x) <= Idx(t, y) ==> Reach(g, x, y)
  }

  ghost predicate Covered(g: Graph, t: Search, gray: set<string>, y: string) {
    exists z :: z in gray && Idx(t, z) <= Idx(t, y) && Reach(g, y, z)
  }

  /** Every vertex of the stack reaches a vertex, no higher on the stack, whose call is still open. */
  ghost predicate GrayCover(g: Graph, t: Search, gray: set<string>) {
    && (forall z :: z in gray ==> On(t, z))
    && (forall y {:trigger Covered(g, t, gray, y)} :: On(t, y) ==> Covered(g, t, gray, y))
  }

  /** A vertex whose call returned has only visited successors. */
  ghost predicate BlackClosed(g: Graph, t: Search, gray: set<string>) {
    forall a, b :: Visited(t, a) && a !in gray && Edge(g, a, b) && b in g ==> Visited(t, b)
  }

  /** The components recorded so far cover exactly the vertices that left the stack. */
  ghost predicate Popped(g: Graph, t: Search) {
    && (forall a, b :: Assigned(t, a) && Edge(g, a, b) && b in g ==> Assigned(t, b))
    && (forall k :: 0 <= k < |t.sccs| ==> IsComponent(g, t.sccs[k]))
    && (forall k, v :: 0 <= k < |t.sccs| && v in t.sccs[k] ==> Assigned(t, v))
    && Disjoint(t.sccs)
    && (forall a, b :: Assigned(t, a) && a != b && Mutual(g, a, b) ==> Listed(t.sccs, a))
  }

  /** What holds of the search between any two edge visits; gray is the set of calls still open. */
  ghost predicate Inv(g: Graph, t: Search, gray: set<string>) {
    && Flags(g, t) && Stacked(t) && StackOrder(g, t)
    && GrayCover(g, t, gray) && BlackClosed(g, t, gray) && Popped(g, t)
  }

  /** Everything a recursive call promises about the vertices that were already visited. */
  ghost predicate Extends(t0: Search, t: Search) {
    && t0.vertices.Keys == t.vertices.Keys
    && t0.index <= t.index
    && t0.stack <= t.stack
    && (forall v :: Visited(t0, v) ==> t.vertices[v] == t0.vertices[v])
  }

  /** Edges from the new part of the stack to its old part, except those of skip, are covered by low. */
  ghost predicate LowCovers(g: Graph, t0: Search, t: Search, skip: set<string>, low: int) {
    forall y, z :: On(t, y) && !On(t0, y) && y !in skip && On(t0, z) && Edge(g, y, z) ==> low <= Idx(t0, z)
  }

  ghost predicate LowTarget(g: Graph, t: Search, x: string, low: int) {
    exists z :: On(t, z) && Idx(t, z) == low && Reach(g, x, z)
  }

  ghost predicate Scanned(g: Graph, x: string, t0: Search, t: Search, i: nat)
    requires x in g && i <= |g[x]|
  {
    forall k :: 0 <= k < i ==>
      && (g[x][k] in g ==> Visited(t, g[x][k]))
      && (On(t0, g[x][k]) ==> Low(t, x) <= Idx(t0, g[x][k]))
  }

  /** The state of the call for x, entered in t0, before it looks at edge i. */
  ghost predicate Pending(g: Graph, x: string, t0: Search, t: Search, gray: set<string>, i: nat) {
    && x in g && i <= |g[x]|
    && Flags(g, t0) && Stacked(t0) && GrayCover(g, t0, gray)
    && Inv(g, t, gray + {x})
    && Extends(t0, t)
    && White(t) < White(t0)
    && t0.stack + [x] <= t.stack
    && Idx(t0, x) == -1 && On(t, x) && Idx(t, x) == t0.index && Low(t, x) <= t0.index
    && LowTarget(g, t, x, Low(t, x))
    && LowCovers(g, t0, t, {x}, Low(t, x))
    && Scanned(g, x, t0, t, i)
  }

  /** What the call for x, entered in t0, leaves behind in t. */
  ghost predicate Returned(g: Graph, x: string, t0: Search, t: Search, gray: set<string>) {
    && x in g
    && Inv(g, t, gray)
    && Extends(t0, t)
    && Visited(t, x)
    && White(t) < White(t0)
    && t0.index <= Idx(t, x)
    && LowCovers(g, t0, t, {}, Low(t, x))
    && (On(t, x) ==> LowTarget(g, t, x, Low(t, x)) && Low(t, x) < Idx(t, x))
    && (!On(t, x) ==> (forall v :: On(t, v) ==> On(t0, v)) && Low(t, x) == Idx(t, x))
  }

  // ---------------------------------------------------------------- the search

  method StrongConnect(g: Graph, x: string, t0: Search, ghost gray: set<string>) returns (t: Search)
    requires Inv(g, t0, gray)
    requires x in g && Idx(t0, x) == -1
    requires forall z :: z in gray ==> Reach(g, z, x)
    ensures Returned(g, x, t0, t, gray)
    decreases White(t0)
  {
    hide *;
    t := Search(t0.vertices[x := Vertex(t0.index, t0.index, true)], t0.stack + [x], t0.sccs, t0.index + 1);
    EnterPending(g, x, t0, t, gray);
    var deps := g[x];
    var i := 0;
    while i < |deps|
      invariant 0 <= i <= |deps|
      invariant Pending(g, x, t0, t, gray, i)
    {
      var w := deps[i];
      PendingFacts(g, x, t0, t, gray, i);
      if w in t.vertices {
        VertexFacts(t, w);
        if t.vertices[w].index == -1 {
          ghost var before := t;
          ChildPre(g, x, t0, t, gray, i);
          t := StrongConnect(g, w, t, gray + {x});
          ghost var after := t;
          ChildFacts(g, x, t0, before, after, gray, i);
          t := Lowered(x, t, Min(t.vertices[x].lowlink, t.vertices[w].lowlink));
          StepChild(g, x, t0, before, after, t, gray, i);
        } else if t.vertices[w].onStack {
          ghost var before := t;
          t := Lowered(x, t, Min(t.vertices[x].lowlink, t.vertices[w].index));
          StepOnStack(g, x, t0, before, t, gray, i);
        } else {
          StepSkip(g, x, t0, t, gray, i);
        }
      } else {
        StepSkip(g, x, t0, t, gray, i);
      }
      i := i + 1;
    }
    PendingFacts(g, x, t0, t, gray, i);
    if t.vertices[x].lowlink == t.vertices[x].index {
      t := PopComponent(g, x, t0, t, gray);
    } else {
      StayOnStack(g, x, t0, t, gray);
    }
  }

  function Lowered(x: string, t: Search, low: int): Search
    requires x in t.vertices
  {
    t.(vertices := t.vertices[x := t.vertices[x].(lowlink := low)])
  }

  /** Pops the stack down to and including x, and records the popped vertices when there are several. */
  method PopComponent(g: Graph, x: string, ghost t0: Search, t1: Search, ghost gray: set<string>) returns (t: Search)
    requires x in g && Pending(g, x, t0, t1, gray, |g[x]|) && Low(t1, x) == Idx(t1, x)
    ensures Returned(g, x, t0, t, gray)
  {
    hide *;
    t := t1;
    var scc: seq<string> := [];
    var done := false;
    PopStart(g, x, t0, t1, gray);
    while !done
      invariant Popping(g, x, t0, t1, t, scc, done)
      decreases |t.stack|
    {
      PopStep(g, x, t0, t1, t, scc);
      var w := t.stack[|t.stack| - 1];
      t := t.(stack := t.stack[..|t.stack| - 1], vertices := t.vertices[w := t.vertices[w].(onStack := false)]);
      scc := scc + [w];
      done := w == x;
    }
    PopAll(g, x, t0, t1, t, scc, gray);
    NewComponent(g, x, t0, t1, t, scc, gray);
    if |scc| > 1 {
      t := t.(sccs := t.sccs + [scc]);
    }
  }

  // ---------------------------------------------------------------- entering, scanning and leaving a vertex

  lemma VertexFacts(t: Search, w: string)
    requires w in t.vertices
    ensures Idx(t, w) == t.vertices[w].index && Low(t, w) == t.vertices[w].lowlink
    ensures On(t, w) == t.vertices[w].onStack
    ensures Visited(t, w) == (Idx(t, w) != -1)
    ensures Assigned(t, w) == (Visited(t, w) && !On(t, w))
  {
  }

  lemma PendingFacts(g: Graph, x: string, t0: Search, t: Search, gray: set<string>, i: nat)
    requires Pending(g, x, t0, t, gray, i)
    ensures x in g && t.vertices.Keys == g.Keys && White(t) < White(t0)
    ensures x in t.vertices && Idx(t, x) == t.vertices[x].index && Low(t, x) == t.vertices[x].lowlink
  {
    hide StackOrder, GrayCover, BlackClosed, Popped, LowCovers, LowTarget, Stacked, Scanned;
  }

  /** The invariant looks at nothing but the index and stack flags, the stack and the components. */
  lemma LoweredInv(g: Graph, x: string, t: Search, low: int, gray: set<string>)
    requires Inv(g, t, gray) && x in t.vertices
    ensures Inv(g, Lowered(x, t, low), gray) && White(Lowered(x, t, low)) == White(t)
    ensures forall v :: Idx(Lowered(x, t, low), v) == Idx(t, v) && On(Lowered(x, t, low), v) == On(t, v)
  {
    hide Reach, Popped, StackOrder, BlackClosed, GrayCover;
    var t' := Lowered(x, t, low);
    assert forall v :: Idx(t', v) == Idx(t, v) && On(t', v) == On(t, v);
    assert forall v :: Visited(t', v) == Visited(t, v) && Assigned(t', v) == Assigned(t, v);
    PoppedFrame(g, t, t');
    OpenFrame(g, t, t', gray);
  }

  lemma OpenFrame(g: Graph, t: Search, t': Search, gray: set<string>)
    requires StackOrder(g, t) && GrayCover(g, t, gray) && BlackClosed(g, t, gray)
    requires forall v :: Idx(t', v) == Idx(t, v) && On(t', v) == On(t, v)
    ensures StackOrder(g, t') && GrayCover(g, t', gray) && BlackClosed(g, t', gray)
  {
    hide Reach, Idx, On, Edge;
    forall y | On(t', y)
      ensures Covered(g, t', gray, y)
    {
      assert Covered(g, t, gray, y);
    }
  }

  lemma PoppedFrame(g: Graph, t: Search, t': Search)
    requires Popped(g, t) && t'.sccs == t.sccs
    requires forall v :: Assigned(t', v) == Assigned(t, v)
    ensures Popped(g, t')
  {
    hide Assigned, Edge, Mutual, IsComponent, Disjoint, Listed;
  }

  lemma EnterPending(g: Graph, x: string, t0: Search, t: Search, gray: set<string>)
    requires Inv(g, t0, gray)
    requires x in g && Idx(t0, x) == -1
    requires forall z :: z in gray ==> Reach(g, z, x)
    requires t == Search(t0.vertices[x := Vertex(t0.index, t0.index, true)], t0.stack + [x], t0.sccs, t0.index + 1)
    ensures Pending(g, x, t0, t, gray, 0)
  {
    hide Reach, IsComponent, Disjoint, Listed;
    assert forall v :: v != x ==> Idx(t, v) == Idx(t0, v) && On(t, v) == On(t0, v);
    assert x in White(t0) && x !in White(t);
    EnterStacked(x, t0, t);
    ReachRefl(g, x);
    EnterReach(g, x, t0, t, gray);
    assert BlackClosed(g, t, gray + {x});
    assert Popped(g, t) by {
      assert forall v :: Assigned(t, v) == Assigned(t0, v);
      PoppedFrame(g, t0, t);
    }
  }

  lemma EnterStacked(x: string, t0: Search, t: Search)
    requires Stacked(t0) && !On(t0, x) && t.stack == t0.stack + [x]
    requires forall v :: v in t0.vertices ==> Idx(t0, v) < Idx(t, x)
    requires forall v :: v != x ==> Idx(t, v) == Idx(t0, v) && On(t, v) == On(t0, v)
    requires On(t, x)
    ensures Stacked(t)
  {
    hide Idx;
    forall v
      ensures v in t.stack <==> On(t, v)
    {
      assert v in t.stack <==> v in t0.stack || v == x;
    }
    forall i, j | 0 <= i < j < |t.stack|
      ensures Idx(t, t.stack[i]) < Idx(t, t.stack[j])
    {
      assert t.stack[i] == t0.stack[i] && On(t0, t0.stack[i]);
      if j < |t0.stack| {
        assert t.stack[j] == t0.stack[j] && On(t0, t0.stack[j]);
      }
    }
  }

  lemma EnterReach(g: Graph, x: string, t0: Search, t: Search, gray: set<string>)
    requires Flags(g, t0) && StackOrder(g, t0) && GrayCover(g, t0, gray)
    requires Idx(t0, x) == -1 && Idx(t, x) == t0.index && On(t, x)
    requires forall z :: z in gray ==> Reach(g, z, x)
    requires forall v :: v != x ==> Idx(t, v) == Idx(t0, v) && On(t, v) == On(t0, v)
    ensures StackOrder(g, t) && GrayCover(g, t, gray + {x})
  {
    hide Reach;
    ReachRefl(g, x);
    forall y | On(t0, y)
      ensures Reach(g, y, x) && Covered(g, t, gray + {x}, y)
    {
      assert Covered(g, t0, gray, y);
      var z :| z in gray && Idx(t0, z) <= Idx(t0, y) && Reach(g, y, z);
      ReachTrans(g, y, z, x);
    }
    assert Covered(g, t, gray + {x}, x);
  }

  lemma StepSkip(g: Graph, x: string, t0: Search, t: Search, gray: set<string>, i: nat)
    requires Pending(g, x, t0, t, gray, i) && i < |g[x]|
    requires g[x][i] in t.vertices ==> Assigned(t, g[x][i])
    ensures Pending(g, x, t0, t, gray, i + 1)
  {
    hide StackOrder, GrayCover, BlackClosed, Popped, LowTarget, LowCovers, Stacked, Reach;
    assert !On(t0, g[x][i]);
  }

  lemma StepOnStack(g: Graph, x: string, t0: Search, t: Search, t': Search, gray: set<string>, i: nat)
    requires Pending(g, x, t0, t, gray, i) && i < |g[x]|
    requires On(t, g[x][i])
    requires x in t.vertices && t' == Lowered(x, t, Min(Low(t, x), Idx(t, g[x][i])))
    ensures Pending(g, x, t0, t', gray, i + 1)
  {
    var w := g[x][i];
    LoweredInv(g, x, t, Min(Low(t, x), Idx(t, w)), gray + {x});
    StackTarget(g, x, t, t', w);
    LoweredKeeps(g, x, t0, t, Min(Low(t, x), Idx(t, w)));
    StackScanned(g, x, t0, t, t', i);
    hide Inv, Flags, Stacked, GrayCover, Extends, White, LowTarget, LowCovers, Scanned;
  }

  /** Lowering x's lowlink leaves what the call keeps. */
  lemma LoweredKeeps(g: Graph, x: string, t0: Search, t: Search, low: int)
    requires x in t.vertices && Extends(t0, t) && Idx(t0, x) == -1 && LowCovers(g, t0, t, {x}, Low(t, x))
    requires low <= Low(t, x)
    ensures var t' := Lowered(x, t, low);
            Extends(t0, t') && LowCovers(g, t0, t', {x}, low) && Low(t', x) == low && t'.stack == t.stack
  {
    var t' := Lowered(x, t, low);
    assert forall v :: Idx(t', v) == Idx(t, v) && On(t', v) == On(t, v);
  }

  lemma StackScanned(g: Graph, x: string, t0: Search, t: Search, t': Search, i: nat)
    requires x in g && i < |g[x]| && Scanned(g, x, t0, t, i) && Extends(t0, t) && Flags(g, t) && Flags(g, t0)
    requires On(t, g[x][i]) && Low(t', x) == Min(Low(t, x), Idx(t, g[x][i]))
    requires forall v :: Idx(t', v) == Idx(t, v)
    ensures Scanned(g, x, t0, t', i + 1)
  {
    var w := g[x][i];
    assert Visited(t, w);
    if On(t0, w) {
      assert Visited(t0, w);
    }
    hide Flags, On;
  }

  lemma StackTarget(g: Graph, x: string, t: Search, t': Search, w: string)
    requires Edge(g, x, w) && On(t, w) && LowTarget(g, t, x, Low(t, x))
    requires x in t.vertices && t' == Lowered(x, t, Min(Low(t, x), Idx(t, w)))
    ensures LowTarget(g, t', x, Low(t', x))
  {
    ReachEdge(g, x, w);
    hide Reach;
    var z :| On(t, z) && Idx(t, z) == Low(t, x) && Reach(g, x, z);
    assert On(t', z) && On(t', w);
  }

  lemma ChildPre(g: Graph, x: string, t0: Search, t: Search, gray: set<string>, i: nat)
    requires Pending(g, x, t0, t, gray, i)
    requires forall z :: z in gray ==> Reach(g, z, x)
    requires i < |g[x]| && g[x][i] in g
    ensures Inv(g, t, gray + {x})
    ensures forall z :: z in gray + {x} ==> Reach(g, z, g[x][i])
  {
    hide Reach, Inv;
    var w := g[x][i];
    assert Edge(g, x, w);
    ReachEdge(g, x, w);
    forall z | z in gray
      ensures Reach(g, z, w)
    {
      ReachTrans(g, z, x, w);
    }
  }

  lemma ChildFacts(g: Graph, x: string, t0: Search, t: Search, u: Search, gray: set<string>, i: nat)
    requires Pending(g, x, t0, t, gray, i) && i < |g[x]|
    requires Returned(g, g[x][i], t, u, gray + {x})
    ensures x in u.vertices && g[x][i] in u.vertices && x in g && u.vertices[x] == t.vertices[x]
    ensures Low(u, g[x][i]) == u.vertices[g[x][i]].lowlink && Low(u, x) == u.vertices[x].lowlink
  {
    hide StackOrder, GrayCover, BlackClosed, Popped, LowTarget, LowCovers, Stacked, Reach;
  }

  lemma StepChild(g: Graph, x: string, t0: Search, t: Search, u: Search, t': Search, gray: set<string>, i: nat)
    requires Pending(g, x, t0, t, gray, i) && i < |g[x]| && Idx(t, g[x][i]) == -1
    requires Returned(g, g[x][i], t, u, gray + {x})
    requires x in u.vertices && t' == Lowered(x, u, Min(Low(u, x), Low(u, g[x][i])))
    ensures Pending(g, x, t0, t', gray, i + 1)
  {
    hide StackOrder, GrayCover, BlackClosed, Popped, Stacked, Reach, LowTarget, LowCovers, Edge;
    var w := g[x][i];
    ChildFacts(g, x, t0, t, u, gray, i);
    var low := Min(Low(u, x), Low(u, w));
    LoweredInv(g, x, u, low, gray + {x});
    ChildTarget(g, x, t, u, gray + {x}, i);
    ChildCovers(g, x, t0, t, u, low, gray, i);
    OpenEdges(g, x, t0, u, t', low);
    ChildScanned(g, x, t0, t, t', gray, i);
    assert Extends(t0, t');
  }

  lemma OpenEdges(g: Graph, x: string, t0: Search, t: Search, t': Search, low: int)
    requires forall v :: Idx(t', v) == Idx(t, v) && On(t', v) == On(t, v)
    requires LowTarget(g, t, x, low) && LowCovers(g, t0, t, {x}, low)
    ensures LowTarget(g, t', x, low) && LowCovers(g, t0, t', {x}, low)
  {
    hide Reach, Edge, Idx, On;
    var z :| On(t, z) && Idx(t, z) == low && Reach(g, x, z);
    assert On(t', z);
  }

  lemma ChildScanned(g: Graph, x: string, t0: Search, t: Search, t': Search, gray: set<string>, i: nat)
    requires Pending(g, x, t0, t, gray, i) && i < |g[x]| && Idx(t, g[x][i]) == -1
    requires forall v :: Visited(t, v) ==> Visited(t', v)
    requires Visited(t', g[x][i]) && Low(t', x) <= Low(t, x)
    ensures Scanned(g, x, t0, t', i + 1)
  {
    hide StackOrder, GrayCover, BlackClosed, Popped, Stacked, LowTarget, LowCovers;
    assert !On(t0, g[x][i]);
  }

  lemma ChildCovers(g: Graph, x: string, t0: Search, t: Search, u: Search, low: int, gray: set<string>, i: nat)
    requires x in g && i < |g[x]|
    requires Extends(t0, t) && LowCovers(g, t0, t, {x}, Low(t, x))
    requires LowCovers(g, t, u, {}, Low(u, g[x][i]))
    requires low <= Low(t, x) && low <= Low(u, g[x][i])
    requires forall v :: On(t0, v) ==> Visited(t0, v)
    ensures LowCovers(g, t0, u, {x}, low)
  {
    forall y, z | On(u, y) && !On(t0, y) && y != x && On(t0, z) && Edge(g, y, z)
      ensures low <= Idx(t0, z)
    {
      assert On(t, z) && Idx(t, z) == Idx(t0, z);
    }
  }

  lemma ChildTarget(g: Graph, x: string, t: Search, u: Search, gray: set<string>, i: nat)
    requires x in g && i < |g[x]| && Flags(g, t)
    requires LowTarget(g, t, x, Low(t, x)) && Low(u, x) == Low(t, x)
    requires Returned(g, g[x][i], t, u, gray)
    requires Low(t, x) < t.index
    ensures LowTarget(g, u, x, Min(Low(u, x), Low(u, g[x][i])))
  {
    hide StackOrder, GrayCover, BlackClosed, Popped, Stacked, Reach, LowCovers;
    var w := g[x][i];
    assert Edge(g, x, w);
    ReachEdge(g, x, w);
    var z :| On(t, z) && Idx(t, z) == Low(t, x) && Reach(g, x, z);
    assert On(u, z) && Idx(u, z) == Low(u, x);
    if On(u, w) {
      var z' :| On(u, z') && Idx(u, z') == Low(u, w) && Reach(g, w, z');
      ReachTrans(g, x, w, z');
    }
  }

  lemma AllVisited(g: Graph, x: string, t0: Search, t: Search, gray: set<string>)
    requires x in g && Pending(g, x, t0, t, gray, |g[x]|)
    ensures BlackClosed(g, t, gray)
  {
    hide LowTarget, LowCovers, Popped, StackOrder, GrayCover, Stacked;
    forall a, b | Visited(t, a) && a !in gray && Edge(g, a, b) && b in g
      ensures Visited(t, b)
    {
      if a == x {
        var k :| 0 <= k < |g[x]| && g[x][k] == b;
      }
    }
  }

  lemma StayOnStack(g: Graph, x: string, t0: Search, t: Search, gray: set<string>)
    requires x in g && Pending(g, x, t0, t, gray, |g[x]|) && Low(t, x) != Idx(t, x)
    ensures Returned(g, x, t0, t, gray)
  {
    AllVisited(g, x, t0, t, gray);
    AllCovered(g, x, t0, t, gray);
    StayCovered(g, x, t, gray);
    hide Popped, Reach, Stacked, StackOrder, BlackClosed, GrayCover, LowCovers, LowTarget, Scanned;
  }

  lemma StayCovered(g: Graph, x: string, t: Search, gray: set<string>)
    requires GrayCover(g, t, gray + {x})
    requires LowTarget(g, t, x, Low(t, x)) && Low(t, x) < Idx(t, x)
    ensures GrayCover(g, t, gray)
  {
    var z := LowCovered(g, x, t, gray);
    hide Reach, On, Idx, Low, Covered, LowTarget;
    forall y | On(t, y)
      ensures Covered(g, t, gray, y)
    {
      assert Covered(g, t, gray + {x}, y);
      CoveredVia(g, t, x, z, gray, y);
    }
  }

  lemma LowCovered(g: Graph, x: string, t: Search, gray: set<string>) returns (z: string)
    requires GrayCover(g, t, gray + {x})
    requires LowTarget(g, t, x, Low(t, x)) && Low(t, x) < Idx(t, x)
    ensures z in gray && Idx(t, z) <= Idx(t, x) && Reach(g, x, z)
  {
    hide Reach, On, Idx, Low;
    var w :| On(t, w) && Idx(t, w) == Low(t, x) && Reach(g, x, w);
    assert Covered(g, t, gray + {x}, w);
    z :| z in gray + {x} && Idx(t, z) <= Idx(t, w) && Reach(g, w, z);
    ReachTrans(g, x, w, z);
  }

  lemma CoveredVia(g: Graph, t: Search, x: string, z: string, gray: set<string>, y: string)
    requires Covered(g, t, gray + {x}, y)
    requires z in gray && Idx(t, z) <= Idx(t, x) && Reach(g, x, z)
    ensures Covered(g, t, gray, y)
  {
    hide Reach, Idx;
    var z' :| z' in gray + {x} && Idx(t, z') <= Idx(t, y) && Reach(g, y, z');
    if z' == x {
      ReachTrans(g, y, x, z);
    }
  }

  lemma AllCovered(g: Graph, x: string, t0: Search, t: Search, gray: set<string>)
    requires x in g && Pending(g, x, t0, t, gray, |g[x]|)
    ensures LowCovers(g, t0, t, {}, Low(t, x))
  {
    hide Popped, Reach, Stacked, StackOrder, BlackClosed, GrayCover, LowTarget;
    forall y, z | On(t, y) && !On(t0, y) && On(t0, z) && Edge(g, y, z)
      ensures Low(t, x) <= Idx(t0, z)
    {
      if y == x {
        var k :| 0 <= k < |g[x]| && g[x][k] == z;
      }
    }
  }

  // ---------------------------------------------------------------- popping a component

  /** t is t1 after popping scc, the last pushed first. */
  ghost predicate Popping(g: Graph, x: string, t0: Search, t1: Search, t: Search, scc: seq<string>, done: bool) {
    && |t0.stack| <= |t.stack| <= |t1.stack| && |scc| + |t.stack| == |t1.stack|
    && t0.stack + [x] <= t1.stack && Stacked(t1) && t1.vertices.Keys == g.Keys
    && (forall k :: 0 <= k < |t.stack| ==> t.stack[k] == t1.stack[k])
    && (forall k :: 0 <= k < |scc| ==> scc[k] == t1.stack[|t1.stack| - 1 - k])
    && Unflagged(t1, t, scc)
    && (done <==> |t.stack| == |t0.stack|)
  }

  ghost predicate Unflagged(t1: Search, t: Search, scc: seq<string>) {
    && t.vertices.Keys == t1.vertices.Keys && t.sccs == t1.sccs && t.index == t1.index
    && forall v :: v in t.vertices ==>
         t.vertices[v] == if v in scc then t1.vertices[v].(onStack := false) else t1.vertices[v]
  }

  lemma PopStart(g: Graph, x: string, t0: Search, t1: Search, gray: set<string>)
    requires x in g && Pending(g, x, t0, t1, gray, |g[x]|)
    ensures Popping(g, x, t0, t1, t1, [], false)
  {
    hide StackOrder, GrayCover, BlackClosed, Popped, LowTarget, LowCovers, Stacked, Scanned;
  }

  lemma PopStep(g: Graph, x: string, t0: Search, t1: Search, t: Search, scc: seq<string>)
    requires Popping(g, x, t0, t1, t, scc, false)
    ensures |t.stack| > 0 && t.stack[|t.stack| - 1] in t.vertices
    ensures var w := t.stack[|t.stack| - 1];
      Popping(g, x, t0, t1,
        t.(stack := t.stack[..|t.stack| - 1], vertices := t.vertices[w := t.vertices[w].(onStack := false)]),
        scc + [w], w == x)
  {
    var n := |t.stack| - 1;
    var w := t.stack[n];
    assert w == t1.stack[n] && w in t1.stack;
    assert t1.stack[|t0.stack|] == x;
    if n > |t0.stack| {
      assert Idx(t1, x) < Idx(t1, w);
    }
    assert forall v :: v in scc + [w] <==> v in scc || v == w;
  }

  /** The popped vertices are what the call for x added to the stack. */
  ghost predicate PoppedAll(x: string, t0: Search, t1: Search, t: Search, scc: seq<string>) {
    && t.stack == t0.stack
    && x in scc && Distinct(scc)
    && (forall v :: v in scc <==> On(t1, v) && !On(t0, v))
    && Unflagged(t1, t, scc)
  }

  lemma PopAll(g: Graph, x: string, t0: Search, t1: Search, t: Search, scc: seq<string>, gray: set<string>)
    requires x in g && Pending(g, x, t0, t1, gray, |g[x]|)
    requires Popping(g, x, t0, t1, t, scc, true)
    ensures PoppedAll(x, t0, t1, t, scc)
  {
    hide StackOrder, GrayCover, BlackClosed, Popped, LowTarget, LowCovers, Scanned, Unflagged;
    assert t.stack == t0.stack;
    assert t1.stack[|t0.stack|] == x && scc[|scc| - 1] == x;
    forall v | v in scc
      ensures v in t1.stack && v !in t0.stack
    {
      PoppedAbove(t0, t1, scc, v);
    }
    forall v | v in t1.stack && v !in t0.stack
      ensures v in scc
    {
      var j :| 0 <= j < |t1.stack| && t1.stack[j] == v;
      assert forall k :: 0 <= k < |t0.stack| ==> t1.stack[k] == t0.stack[k];
      assert scc[|t1.stack| - 1 - j] == v;
    }
  }

  lemma PoppedAbove(t0: Search, t1: Search, scc: seq<string>, v: string)
    requires t0.stack <= t1.stack && |scc| + |t0.stack| == |t1.stack| && Stacked(t1)
    requires forall k :: 0 <= k < |scc| ==> scc[k] == t1.stack[|t1.stack| - 1 - k]
    requires v in scc
    ensures v in t1.stack && v !in t0.stack
  {
    var k :| 0 <= k < |scc| && scc[k] == v;
    assert t1.stack[|t1.stack| - 1 - k] == v;
    forall j | 0 <= j < |t0.stack|
      ensures t0.stack[j] != v
    {
      assert t0.stack[j] == t1.stack[j];
      assert Idx(t1, t1.stack[j]) < Idx(t1, v);
    }
  }

  /** From what the call for x left on the stack one reaches only that, finished components and unregistered ids. */
  lemma NoEscape(g: Graph, x: string, t0: Search, t: Search, gray: set<string>, y: string, z: string)
    requires x in g && Pending(g, x, t0, t, gray, |g[x]|) && Low(t, x) == Idx(t, x)
    requires On(t, y) && !On(t0, y) && Reach(g, y, z)
    ensures z !in g || Assigned(t, z) || (On(t, z) && !On(t0, z))
  {
    var s := iset v | v !in g || Assigned(t, v) || (On(t, v) && !On(t0, v));
    forall a, b | a in s && Edge(g, a, b)
      ensures b in s
    {
      if b in g && !Assigned(t, a) {
        NoExit(g, x, t0, t, gray, a, b);
      }
    }
    hide *;
    ClosedReach(g, s, y, z);
  }

  lemma NoExit(g: Graph, x: string, t0: Search, t: Search, gray: set<string>, a: string, b: string)
    requires x in g && Pending(g, x, t0, t, gray, |g[x]|) && Low(t, x) == Idx(t, x)
    requires On(t, a) && !On(t0, a) && Edge(g, a, b) && b in g
    ensures Visited(t, b) && !On(t0, b)
  {
    hide Stacked, StackOrder, Popped, LowTarget, Reach;
    if a == x {
      var k :| 0 <= k < |g[x]| && g[x][k] == b;
    } else {
      assert BlackClosed(g, t, gray + {x});
    }
  }

  /** What has left the stack reaches nothing that is still on it. */
  lemma AssignedStays(g: Graph, t: Search, a: string, b: string)
    requires Flags(g, t) && Popped(g, t) && Assigned(t, a) && Reach(g, a, b)
    ensures !On(t, b)
  {
    hide Reach, IsComponent, Disjoint, Listed;
    var s := iset v | v !in g || Assigned(t, v);
    ClosedReach(g, s, a, b);
  }

  lemma ReachesX(g: Graph, x: string, t0: Search, t: Search, gray: set<string>, y: string)
    requires x in g && Pending(g, x, t0, t, gray, |g[x]|) && Low(t, x) == Idx(t, x)
    requires On(t, y) && !On(t0, y)
    ensures Mutual(g, x, y)
  {
    hide Reach, LowTarget, LowCovers, BlackClosed, Popped, Scanned, Stacked;
    assert Covered(g, t, gray + {x}, y);
    var z :| z in gray + {x} && Idx(t, z) <= Idx(t, y) && Reach(g, y, z);
    NoEscape(g, x, t0, t, gray, y, z);
    assert z == x;
    assert On(t, x) && Idx(t, x) <= Idx(t, y);
  }

  /** The popped vertices are one mutual-reachability class. */
  lemma OneClass(g: Graph, x: string, t0: Search, t: Search, gray: set<string>, a: string, b: string)
    requires x in g && Pending(g, x, t0, t, gray, |g[x]|) && Low(t, x) == Idx(t, x)
    requires On(t, a) && !On(t0, a)
    ensures (On(t, b) && !On(t0, b)) <==> Mutual(g, a, b)
  {
    hide Reach, LowTarget, LowCovers, BlackClosed, Popped, StackOrder, GrayCover, Scanned, Stacked;
    ReachesX(g, x, t0, t, gray, a);
    if On(t, b) && !On(t0, b) {
      ReachesX(g, x, t0, t, gray, b);
      ReachTrans(g, a, x, b);
      ReachTrans(g, b, x, a);
    } else if Mutual(g, a, b) {
      NoEscape(g, x, t0, t, gray, a, b);
      if b in g {
        AssignedStays(g, t, b, a);
      } else {
        MutualOnCycle(g, b, a);
      }
      assert false;
    }
  }

  lemma NewComponent(g: Graph, x: string, t0: Search, t1: Search, t: Search, scc: seq<string>, gray: set<string>)
    requires x in g && Pending(g, x, t0, t1, gray, |g[x]|) && Low(t1, x) == Idx(t1, x)
    requires PoppedAll(x, t0, t1, t, scc)
    ensures Returned(g, x, t0, if |scc| > 1 then t.(sccs := t.sccs + [scc]) else t, gray)
  {
    var t2 := if |scc| > 1 then t.(sccs := t.sccs + [scc]) else t;
    hide StackOrder, GrayCover, BlackClosed, Popped, LowTarget, LowCovers, Scanned, Stacked;
    assert forall v :: Idx(t2, v) == Idx(t1, v) && Low(t2, v) == Low(t1, v);
    assert forall v :: On(t2, v) == (On(t1, v) && v !in scc);
    assert forall v :: On(t2, v) == On(t0, v);
    PoppedAfter(g, x, t0, t1, t2, scc, gray);
    RestCovered(g, x, t0, t1, t2, gray);
    RestShape(g, x, t0, t1, t2, gray);
    assert White(t2) == White(t1);
    assert forall v :: Visited(t0, v) ==> v !in scc;
  }

  lemma RestShape(g: Graph, x: string, t0: Search, t1: Search, t: Search, gray: set<string>)
    requires x in g && Pending(g, x, t0, t1, gray, |g[x]|)
    requires forall v :: Idx(t, v) == Idx(t1, v) && On(t, v) == On(t0, v)
    requires t.stack == t0.stack
    ensures Stacked(t) && StackOrder(g, t) && BlackClosed(g, t, gray)
    ensures forall low :: LowCovers(g, t0, t, {}, low)
  {
    AllVisited(g, x, t0, t1, gray);
    hide GrayCover, Popped, LowTarget, Scanned, Reach, Edge;
    assert forall v :: On(t0, v) ==> On(t1, v) && Idx(t1, v) == Idx(t0, v);
    assert StackOrder(g, t) by { hide Stacked, BlackClosed; }
    assert BlackClosed(g, t, gray) by { hide Stacked, StackOrder; }
  }

  lemma RestCovered(g: Graph, x: string, t0: Search, t1: Search, t: Search, gray: set<string>)
    requires x in g && Pending(g, x, t0, t1, gray, |g[x]|)
    requires forall v :: Idx(t, v) == Idx(t1, v) && On(t, v) == On(t0, v)
    ensures GrayCover(g, t, gray)
  {
    hide StackOrder, BlackClosed, Popped, LowTarget, LowCovers, Scanned, Stacked, Reach;
    forall y | On(t, y)
      ensures Covered(g, t, gray, y)
    {
      assert Covered(g, t1, gray + {x}, y);
      var z :| z in gray + {x} && Idx(t1, z) <= Idx(t1, y) && Reach(g, y, z);
      assert z in gray;
    }
  }

  lemma PoppedAfter(g: Graph, x: string, t0: Search, t1: Search, t: Search, scc: seq<string>, gray: set<string>)
    requires x in g && Pending(g, x, t0, t1, gray, |g[x]|) && Low(t1, x) == Idx(t1, x)
    requires Distinct(scc) && (forall v :: v in scc <==> On(t1, v) && !On(t0, v)) && x in scc
    requires forall v :: Idx(t, v) == Idx(t1, v) && On(t, v) == (On(t1, v) && v !in scc)
    requires t.sccs == if |scc| > 1 then t1.sccs + [scc] else t1.sccs
    ensures Popped(g, t)
  {
    forall a, b | a in scc
      ensures b in scc <==> Mutual(g, a, b)
    {
      OneClass(g, x, t0, t1, gray, a, b);
    }
    assert Before: Popped(g, t1);
    assert forall v :: Assigned(t, v) <==> Assigned(t1, v) || v in scc by {
      hide StackOrder, GrayCover, BlackClosed, Popped, LowTarget, LowCovers, Scanned, Stacked, Mutual;
    }
    forall a, b | a in scc && Edge(g, a, b) && b in g
      ensures Assigned(t, b)
    {
      ReachEdge(g, a, b);
      NoEscape(g, x, t0, t1, gray, a, b);
    }
    assert forall v :: v in scc ==> !Assigned(t1, v);
    hide Pending, Distinct;
    PoppedExtend(g, t1, t, scc);
  }

  lemma PoppedExtend(g: Graph, t1: Search, t: Search, scc: seq<string>)
    requires Popped(g, t1) && scc != [] && Distinct(scc)
    requires t.sccs == if |scc| > 1 then t1.sccs + [scc] else t1.sccs
    requires forall v :: Assigned(t, v) <==> Assigned(t1, v) || v in scc
    requires forall v :: v in scc ==> !Assigned(t1, v)
    requires forall a, b :: a in scc ==> (b in scc <==> Mutual(g, a, b))
    requires forall a, b :: a in scc && Edge(g, a, b) && b in g ==> Assigned(t, b)
    ensures Popped(g, t)
  {
    hide Assigned, Edge, Mutual;
    assert forall k :: 0 <= k < |t1.sccs| ==> t.sccs[k] == t1.sccs[k];
    forall a, b | Assigned(t, a) && a != b && Mutual(g, a, b)
      ensures Listed(t.sccs, a)
    {
      if a in scc {
        assert b in scc;
        assert t.sccs[|t1.sccs|] == scc;
      } else {
        assert Listed(t1.sccs, a);
        var k :| 0 <= k < |t1.sccs| && a in t1.sccs[k];
        assert a in t.sccs[k];
      }
    }
  }


  // ---------------------------------------------------------------- the search from every vertex

  /** The recorded components are exactly the classes of two or more mutually reachable vertices. */
  ghost predicate ExactComponents(g: Graph, sccs: seq<seq<string>>) {
    && (forall k :: 0 <= k < |sccs| ==> IsComponent(g, sccs[k]))
    && Disjoint(sccs)
    && (forall a, b :: a in g && a != b && Mutual(g, a, b) ==> Listed(sccs, a))
  }

  /** The vertices are tried in any order, as an unordered map enumerates them. */
  method FindComponents(g: Graph) returns (sccs: seq<seq<string>>)
    ensures ExactComponents(g, sccs)
    ensures sccs == [] <==> forall a, b :: a in g && Mutual(g, a, b) ==> a == b
  {
    var t := Search(map v | v in g :: Vertex(-1, -1, false), [], [], 0);
    ghost var start := t;
    var todo := g.Keys;
    assert Inv(g, t, {});
    while todo != {}
      invariant Inv(g, t, {})
      invariant todo <= g.Keys
      invariant forall v :: v in g && v !in todo ==> Visited(t, v)
      decreases todo
    {
      var v :| v in todo;
      todo := todo - {v};
      if t.vertices[v].index == -1 {
        ghost var before := t;
        t := StrongConnect(g, v, t, {});
        NextRoot(g, v, before, t);
      }
    }
    AllComponents(g, t);
    sccs := t.sccs;
    EmptyIff(g, sccs);
  }

  lemma NextRoot(g: Graph, v: string, t0: Search, t: Search)
    requires Returned(g, v, t0, t, {})
    ensures Inv(g, t, {}) && Visited(t, v)
    ensures forall w :: Visited(t0, w) ==> Visited(t, w)
  {
    hide StackOrder, GrayCover, BlackClosed, Popped, Stacked, LowTarget, LowCovers;
  }

  lemma AllComponents(g: Graph, t: Search)
    requires Inv(g, t, {}) && forall v :: v in g ==> Visited(t, v)
    ensures ExactComponents(g, t.sccs)
  {
    hide StackOrder, BlackClosed, Stacked, Mutual, Listed, Disjoint, IsComponent, Edge;
    forall a | a in g
      ensures Assigned(t, a)
    {
      assert !Covered(g, t, {}, a);
    }
  }

  lemma EmptyIff(g: Graph, sccs: seq<seq<string>>)
    requires ExactComponents(g, sccs)
    ensures sccs == [] <==> forall a, b :: a in g && Mutual(g, a, b) ==> a == b
  {
    hide Reach;
    if sccs != [] {
      var c := sccs[0];
      assert IsComponent(g, c);
      assert c[0] in c && c[1] in c && c[0] != c[1];
      assert Mutual(g, c[0], c[1]);
      MutualOnCycle(g, c[0], c[1]);
    }
  }
}
