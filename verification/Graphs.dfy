/** Control-flow graphs as the analyser holds them: a list of blocks, an entry block, and for every
    block its successor and predecessor lists.  Blocks are identified by their number. */
module Graphs {

  datatype Graph = Graph(blocks: seq<nat>, root: nat, succ: seq<seq<nat>>, pred: seq<seq<nat>>) {

    /** There is an edge from `a` to `b`. */
    predicate Edge(a: nat, b: nat) {
      a < |succ| && b in succ[a]
    }

    /** Block numbers are in range and listed once, and the successor lists join listed blocks. */
    ghost predicate SuccValid() {
      && (forall i | 0 <= i < |blocks| :: blocks[i] < |succ|)
      && NoDuplicates(blocks)
      && root in blocks
      && (forall b: nat, i | b < |succ| && 0 <= i < |succ[b]| :: succ[b][i] in blocks && b in blocks)
    }

    /** In addition the predecessor lists mirror the successor lists. */
    ghost predicate Valid() {
      && SuccValid()
      && |pred| == |succ|
      && (forall b: nat, i | b < |pred| && 0 <= i < |pred[b]| :: pred[b][i] in blocks && b in blocks)
      && (forall a: nat, b: nat | b < |pred| && a in pred[b] :: Edge(a, b))
      && (forall a: nat, b: nat | Edge(a, b) :: a in pred[b])
    }

    /** The same blocks with every edge turned round. */
    function Reverse(): Graph {
      Graph(blocks, root, pred, succ)
    }

    /** `p` is a non-empty walk along edges. */
    ghost predicate IsPath(p: seq<nat>) {
      && p != []
      && (forall i | 0 <= i < |p| :: p[i] in blocks)
      && (forall i | 0 <= i < |p| - 1 :: Edge(p[i], p[i + 1]))
    }

    ghost predicate IsPathBetween(p: seq<nat>, a: nat, b: nat) {
      IsPath(p) && p[0] == a && p[|p| - 1] == b
    }

    ghost predicate Reaches(a: nat, b: nat) {
      exists p :: IsPathBetween(p, a, b)
    }
  }

  ghost predicate NoDuplicates<T>(s: seq<T>) {
    forall i, j | 0 <= i < j < |s| :: s[i] != s[j]
  }

  function Last<T>(s: seq<T>): T
    requires s != []
  {
    s[|s| - 1]
  }

  lemma PathExtends(g: Graph, p: seq<nat>, b: nat)
    requires g.SuccValid() && g.IsPath(p) && g.Edge(Last(p), b)
    ensures g.IsPath(p + [b])
  {
  }

  lemma PathPrefix(g: Graph, p: seq<nat>, k: nat)
    requires g.IsPath(p) && 0 < k <= |p|
    ensures g.IsPath(p[..k])
  {
  }

  lemma PathSuffix(g: Graph, p: seq<nat>, k: nat)
    requires g.IsPath(p) && k < |p|
    ensures g.IsPath(p[k..])
  {
  }

  lemma PathsJoin(g: Graph, p: seq<nat>, q: seq<nat>)
    requires g.IsPath(p) && g.IsPath(q) && Last(p) == q[0]
    ensures g.IsPath(p + q[1..])
    ensures Last(p + q[1..]) == Last(q)
  {
  }

  lemma ReachesItself(g: Graph, a: nat)
    requires a in g.blocks
    ensures g.Reaches(a, a)
  {
    assert g.IsPathBetween([a], a, a);
  }

  lemma ReachesByEdge(g: Graph, a: nat, b: nat)
    requires g.SuccValid() && g.Edge(a, b)
    ensures g.Reaches(a, b)
  {
    assert g.IsPathBetween([a, b], a, b);
  }

  lemma ReachesTransitively(g: Graph, a: nat, b: nat, c: nat)
    requires g.Reaches(a, b) && g.Reaches(b, c)
    ensures g.Reaches(a, c)
  {
    var p :| g.IsPathBetween(p, a, b);
    var q :| g.IsPathBetween(q, b, c);
    PathsJoin(g, p, q);
    assert g.IsPathBetween(p + q[1..], a, c);
  }

  lemma ReverseIsValid(g: Graph)
    requires g.Valid()
    ensures g.Reverse().Valid()
  {
    var r := g.Reverse();
    forall a: nat, b: nat
      ensures r.Edge(a, b) <==> g.Edge(b, a)
      ensures b < |r.pred| && a in r.pred[b] <==> g.Edge(b, a)
    {
    }
    forall b: nat, i | b < |r.succ| && 0 <= i < |r.succ[b]|
      ensures r.succ[b][i] in r.blocks && b in r.blocks
    {
      assert g.pred[b][i] in g.blocks;
    }
    forall b: nat, i | b < |r.pred| && 0 <= i < |r.pred[b]|
      ensures r.pred[b][i] in r.blocks && b in r.blocks
    {
      assert g.succ[b][i] in g.blocks;
    }
  }

  /** A graph is valid if its two kinds of lists agree. */
  lemma ListsAgree(g: Graph)
    requires |g.succ| == |g.pred| && NoDuplicates(g.blocks) && g.root in g.blocks && forall i | 0 <= i < |g.blocks| :: g.blocks[i] < |g.succ|
    requires forall a: nat, b: nat :: g.Edge(a, b) <==> b < |g.pred| && a in g.pred[b]
    requires forall a: nat, b: nat | g.Edge(a, b) :: a in g.blocks && b in g.blocks
    ensures g.Valid()
  {
    forall b: nat, i | b < |g.succ| && 0 <= i < |g.succ[b]|
      ensures g.succ[b][i] in g.blocks && b in g.blocks
    {
      assert g.Edge(b, g.succ[b][i]);
    }
    forall b: nat, i | b < |g.pred| && 0 <= i < |g.pred[b]|
      ensures g.pred[b][i] in g.blocks && b in g.blocks
    {
      assert g.pred[b][i] in g.pred[b];
    }
  }
}
