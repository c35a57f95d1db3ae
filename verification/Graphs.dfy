/** Directed graphs over resource ids: the keys are the registered resources, the value of a key
    is its dependency list. A dependency may name an id that is not a key. */
module Graphs {

  type Graph = map<string, seq<string>>

  predicate Edge(g: Graph, a: string, b: string) {
    a in g && b in g[a]
  }

  ghost predicate Walk(g: Graph, p: seq<string>, a: string, b: string) {
    && |p| >= 1 && p[0] == a && p[|p| - 1] == b
    && forall i :: 0 <= i < |p| - 1 ==> Edge(g, p[i], p[i + 1])
  }

  /** b is reachable from a by zero or more edges. */
  ghost predicate Reach(g: Graph, a: string, b: string) {
    exists p :: Walk(g, p, a, b)
  }

  /** b is reachable from a by one or more edges. */
  ghost predicate ReachPlus(g: Graph, a: string, b: string) {
    exists m :: Edge(g, a, m) && Reach(g, m, b)
  }

  ghost predicate Mutual(g: Graph, a: string, b: string) {
    Reach(g, a, b) && Reach(g, b, a)
  }

  ghost predicate OnCycle(g: Graph, a: string) {
    ReachPlus(g, a, a)
  }

  lemma ReachRefl(g: Graph, a: string)
    ensures Reach(g, a, a)
  {
    assert Walk(g, [a], a, a);
  }

  lemma ReachTrans(g: Graph, a: string, b: string, c: string)
    requires Reach(g, a, b) && Reach(g, b, c)
    ensures Reach(g, a, c)
  {
    var p :| Walk(g, p, a, b);
    var q :| Walk(g, q, b, c);
    var r := p + q[1..];
    forall i | 0 <= i < |r| - 1
      ensures Edge(g, r[i], r[i + 1])
    {
      if i < |p| - 1 {
        assert r[i] == p[i] && r[i + 1] == p[i + 1];
      } else {
        assert r[i] == q[i - |p| + 1] && r[i + 1] == q[i - |p| + 2];
      }
    }
    assert Walk(g, r, a, c);
  }

  lemma ReachEdge(g: Graph, a: string, b: string)
    requires Edge(g, a, b)
    ensures Reach(g, a, b) && ReachPlus(g, a, b)
  {
    assert Walk(g, [a, b], a, b);
    ReachRefl(g, b);
  }

  /** Any set closed under edges is closed under reachability. */
  lemma ClosedReach(g: Graph, s: iset<string>, a: string, b: string)
    requires a in s && Reach(g, a, b)
    requires forall x, y :: x in s && Edge(g, x, y) ==> y in s
    ensures b in s
  {
    var p :| Walk(g, p, a, b);
    var i := 0;
    while i < |p| - 1
      invariant 0 <= i <= |p| - 1
      invariant p[i] in s
    {
      assert Edge(g, p[i], p[i + 1]);
      i := i + 1;
    }
  }

  lemma ReachPlusReach(g: Graph, a: string, b: string)
    requires ReachPlus(g, a, b)
    ensures Reach(g, a, b) && a in g
  {
    var m :| Edge(g, a, m) && Reach(g, m, b);
    ReachEdge(g, a, m);
    ReachTrans(g, a, m, b);
  }

  lemma ReachSplit(g: Graph, a: string, b: string)
    requires Reach(g, a, b)
    ensures a == b || ReachPlus(g, a, b)
  {
    var p :| Walk(g, p, a, b);
    if |p| > 1 {
      forall i | 0 <= i < |p[1..]| - 1
        ensures Edge(g, p[1..][i], p[1..][i + 1])
      {
        assert Edge(g, p[i + 1], p[i + 2]);
      }
      assert Walk(g, p[1..], p[1], b);
      assert Edge(g, p[0], p[1]);
    }
  }

  lemma ReachPlusTrans(g: Graph, a: string, b: string, c: string)
    requires ReachPlus(g, a, b) && Reach(g, b, c)
    ensures ReachPlus(g, a, c)
  {
    var m :| Edge(g, a, m) && Reach(g, m, b);
    ReachTrans(g, m, b, c);
  }

  /** Two distinct mutually reachable nodes both lie on a cycle. */
  lemma MutualOnCycle(g: Graph, a: string, b: string)
    requires a != b && Mutual(g, a, b)
    ensures OnCycle(g, a) && a in g
  {
    ReachSplit(g, a, b);
    ReachPlusTrans(g, a, b, a);
    ReachPlusReach(g, a, a);
  }
}
