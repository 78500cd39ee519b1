/** Nested loops: what is left of a loop's body, and which graphs have well-nested loops. */
module LoopNesting {
  import opened Graphs
  import opened Loops
  import opened Components
  import opened Tarjan
  import opened LoopBodies

  /** The blocks of a loop with the edges between them, except those to the header. */
  ghost function Inner(g: Graph, nodes: seq<nat>, root: nat): Graph {
    Graph(nodes, root, seq(|g.succ|, (a: nat) requires a < |g.succ| => if a in nodes then Without(Within(g.succ[a], nodes), [root]) else []), [])
  }

  lemma InnerEdges(g: Graph, nodes: seq<nat>, root: nat, a: nat, b: nat)
    ensures Inner(g, nodes, root).Edge(a, b) <==> g.Edge(a, b) && a in nodes && b in nodes && b != root
  {
    if a < |g.succ| {
      WithinMembers(g.succ[a], nodes);
      WithoutMembers(Within(g.succ[a], nodes), [root]);
    }
  }

  ghost predicate Inside(g: Graph, nodes: seq<nat>) {
    forall i | 0 <= i < |nodes| :: nodes[i] in g.blocks
  }

  lemma InnerIsValid(g: Graph, nodes: seq<nat>, root: nat)
    requires g.SuccValid() && NoDuplicates(nodes) && root in nodes && Inside(g, nodes)
    ensures Inner(g, nodes, root).SuccValid()
  {
    var inner := Inner(g, nodes, root);
    forall b: nat, i | b < |inner.succ| && 0 <= i < |inner.succ[b]|
      ensures inner.succ[b][i] in nodes && b in nodes
    {
      InnerEdges(g, nodes, root, b, inner.succ[b][i]);
    }
  }

  lemma SameEdgesSamePaths(g: Graph, h: Graph)
    requires g.blocks == h.blocks && forall a: nat, b: nat :: g.Edge(a, b) <==> h.Edge(a, b)
    ensures forall p :: g.IsPath(p) <==> h.IsPath(p)
    ensures forall a: nat, b: nat :: g.Reaches(a, b) <==> h.Reaches(a, b)
  {
    forall p
      ensures g.IsPath(p) <==> h.IsPath(p)
    {
    }
    forall a: nat, b: nat
      ensures g.Reaches(a, b) <==> h.Reaches(a, b)
    {
      if g.Reaches(a, b) {
        var p :| g.IsPathBetween(p, a, b);
        assert h.IsPathBetween(p, a, b);
      }
      if h.Reaches(a, b) {
        var p :| h.IsPathBetween(p, a, b);
        assert g.IsPathBetween(p, a, b);
      }
    }
  }

  // ---------------------------------------------------------------- walks inside a component

  /** Every block of a path between two blocks of a component belongs to the component. */
  lemma PathInComponent(g: Graph, root: nat, nodes: seq<nat>, p: seq<nat>, i: nat)
    requires Component(g, root, nodes) && g.IsPath(p) && p[0] in nodes && Last(p) in nodes && i < |p|
    ensures p[i] in nodes
  {
    PathPrefix(g, p, i + 1);
    PathSuffix(g, p, i);
    assert g.IsPathBetween(p[..i + 1], p[0], p[i]) && g.IsPathBetween(p[i..], p[i], Last(p));
    ReachesTransitively(g, root, p[0], p[i]);
    ReachesTransitively(g, p[i], Last(p), root);
  }

  /** The part of a path after the last visit of its first block. */
  lemma {:induction false} AfterLastVisit(g: Graph, p: seq<nat>, root: nat) returns (q: seq<nat>)
    requires g.IsPath(p) && p[0] == root
    ensures g.IsPathBetween(q, root, Last(p)) && forall i | 0 < i < |q| :: q[i] != root
    ensures forall i | 0 <= i < |q| :: q[i] in p
    decreases |p|
  {
    if i :| 0 < i < |p| && p[i] == root {
      PathSuffix(g, p, i);
      q := AfterLastVisit(g, p[i..], root);
    } else {
      q := p;
    }
  }

  /** In a component of `outer`, whose edges are edges of `g`, the header reaches every block without coming
      back to itself. */
  lemma HeaderReachesInside(g: Graph, outer: Graph, root: nat, nodes: seq<nat>, w: nat)
    requires Component(outer, root, nodes) && w in nodes
    requires forall a: nat, b: nat :: outer.Edge(a, b) ==> g.Edge(a, b)
    ensures Inner(g, nodes, root).Reaches(root, w)
  {
    var inner := Inner(g, nodes, root);
    var p :| outer.IsPathBetween(p, root, w);
    var q := AfterLastVisit(outer, p, root);
    forall i | 0 <= i < |q|
      ensures q[i] in nodes
    {
      PathInComponent(outer, root, nodes, q, i);
    }
    forall i | 0 <= i < |q| - 1
      ensures inner.Edge(q[i], q[i + 1])
    {
      assert outer.Edge(q[i], q[i + 1]);
      InnerEdges(g, nodes, root, q[i], q[i + 1]);
    }
    assert inner.IsPathBetween(q, root, w);
  }

  /** Nothing leads back to the header inside. */
  lemma NothingReachesHeader(g: Graph, nodes: seq<nat>, root: nat, v: nat)
    ensures Inner(g, nodes, root).Reaches(v, root) ==> v == root
  {
    var inner := Inner(g, nodes, root);
    if inner.Reaches(v, root) {
      var p :| inner.IsPathBetween(p, v, root);
      if |p| > 1 {
        assert inner.Edge(p[|p| - 2], p[|p| - 1]);
        InnerEdges(g, nodes, root, p[|p| - 2], p[|p| - 1]);
      }
    }
  }

  /** The exact condition under which dropping one edge frees the header: it stays in a nested loop if and only
      if the copy still has an edge to it from another block. */
  lemma HeaderFreedExactly(g: Graph, outer: Graph, nodes: seq<nat>, root: nat, tail: nat, body: Graph)
    requires g.SuccValid() && NoDuplicates(nodes) && Inside(g, nodes)
    requires Component(outer, root, nodes) && forall a: nat, b: nat :: outer.Edge(a, b) ==> g.Edge(a, b)
    requires IsBody(g, nodes, root, tail, body) && body.SuccValid()
    ensures (exists w: nat :: w != root && Mutual(body, root, w)) <==> (exists u: nat :: u != root && body.Edge(u, root))
  {
    if w: nat :| w != root && Mutual(body, root, w) {
      var p :| body.IsPathBetween(p, w, root);
      var u := LastBeforeHeader(body, p, root);
    }
    if u: nat :| u != root && body.Edge(u, root) {
      BodyEdges(g, nodes, root, tail, body, u, root);
      HeaderReachesInside(g, outer, root, nodes, u);
      var q :| Inner(g, nodes, root).IsPathBetween(q, root, u);
      forall i | 0 <= i < |q| - 1
        ensures body.Edge(q[i], q[i + 1])
      {
        assert Inner(g, nodes, root).Edge(q[i], q[i + 1]);
        InnerEdges(g, nodes, root, q[i], q[i + 1]);
        BodyEdges(g, nodes, root, tail, body, q[i], q[i + 1]);
      }
      assert body.IsPathBetween(q, root, u);
      ReachesByEdge(body, u, root);
      assert Mutual(body, root, u);
    }
  }

  lemma {:induction false} LastBeforeHeader(g: Graph, p: seq<nat>, root: nat) returns (u: nat)
    requires g.IsPath(p) && Last(p) == root && p[0] != root
    ensures u != root && g.Edge(u, root)
    decreases |p|
  {
    u := p[|p| - 2];
    assert g.Edge(p[|p| - 2], p[|p| - 1]);
    if u == root {
      PathPrefix(g, p, |p| - 1);
      u := LastBeforeHeader(g, p[..|p| - 1], root);
    }
  }

  // ---------------------------------------------------------------- components of a body

  ghost function Elements(s: seq<nat>): set<nat> {
    set v | v in s
  }

  lemma SubsetSize(s: seq<nat>, t: seq<nat>, x: nat)
    requires NoDuplicates(s) && NoDuplicates(t) && x in t && x !in s && forall v: nat :: v in s ==> v in t
    ensures |s| < |t|
  {
    SeqSetSize(s);
    SeqSetSize(t);
    assert Elements(s) + {x} <= Elements(t);
    SubsetCard(Elements(s) + {x}, Elements(t));
  }

  lemma SubsetCard(a: set<nat>, b: set<nat>)
    requires a <= b
    ensures |a| <= |b|
  {
    assert b == a + (b - a);
  }

  lemma {:induction false} SeqSetSize(s: seq<nat>)
    requires NoDuplicates(s)
    ensures |Elements(s)| == |s|
  {
    if s == [] {
      assert Elements(s) == {};
    } else {
      var t := s[..|s| - 1];
      SeqSetSize(t);
      assert Elements(s) == Elements(t) + {Last(s)};
    }
  }

  /** A component of the body is smaller than the loop and avoids the header. */
  lemma NestedIsSmaller(g: Graph, nodes: seq<nat>, root: nat, c: seq<nat>, r: nat)
    requires g.SuccValid() && NoDuplicates(nodes) && root in nodes && Inside(g, nodes)
    requires Component(Inner(g, nodes, root), r, c) && |c| >= 2
    ensures root !in c && (forall v: nat :: v in c ==> v in nodes) && |c| < |nodes|
  {
    var inner := Inner(g, nodes, root);
    forall v: nat | v in c
      ensures v in nodes
    {
      var p :| inner.IsPathBetween(p, r, v);
      assert p[|p| - 1] in inner.blocks;
    }
    InnerIsValid(g, nodes, root);
    AloneOrNot(inner, r, c);
    if root in c {
      var w: nat :| w != root && Mutual(inner, root, w);
      NothingReachesHeader(g, nodes, root, w);
    }
    SubsetSize(c, nodes, root);
  }
}
