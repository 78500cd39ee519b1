/** Two loops with two back edges each: on one the search for nested loops never ends, since the copy of the body is
    again one component of all its blocks; on the other, an ordinary loop with a `continue`, it ends. */
module LoopCounterexample {
  import opened Graphs
  import opened Loops
  import opened Components
  import opened Tarjan
  import opened LoopBodies
  import opened LoopNesting
  import opened LoopForest
  import opened LoopSearch

  /** Entry 0, header 1, and two blocks 2 and 3 that lead to each other and back to the header. */
  function TwoBackEdges(): Graph {
    Graph([0, 1, 2, 3], 0, [[1], [2], [3, 1], [2, 1]], [[], [0, 2, 3], [1, 3], [2]])
  }

  predicate Linked(a: nat, b: nat) {
    (a == 0 && b == 1) || (a == 1 && b == 2) || (a == 2 && b in {1, 3}) || (a == 3 && b in {1, 2})
  }

  lemma TwoBackEdgesLinks(a: nat, b: nat)
    ensures TwoBackEdges().Edge(a, b) <==> Linked(a, b)
  {
    if a < 4 {
      assert TwoBackEdges().succ[a] == if a == 0 then [1] else if a == 1 then [2] else if a == 2 then [3, 1] else [2, 1];
    }
  }

  ghost predicate AllOfTheLoop(nodes: seq<nat>) {
    NoDuplicates(nodes) && forall v: nat :: v in nodes <==> v in {1, 2, 3}
  }

  /** A cycle through all three blocks is left, whichever of the two back edges is missing. */
  lemma StillConnected(h: Graph, tail: nat)
    requires AllOfTheLoop(h.blocks) && tail in {2, 3}
    requires forall a: nat, b: nat :: Linked(a, b) && a != 0 && (b != 1 || a != tail) ==> h.Edge(a, b)
    ensures forall v: nat | v in h.blocks :: Mutual(h, 1, v)
  {
    var other: nat := 5 - tail;
    assert h.IsPathBetween([1, 2], 1, 2);
    assert h.IsPathBetween([1, 2, 3], 1, 3);
    assert h.IsPathBetween([other, 1], other, 1);
    assert h.IsPathBetween([tail, other, 1], tail, 1);
    ReachesItself(h, 1);
  }

  /** Whatever order the blocks are listed in and whichever back edge is dropped, the copy stays connected. */
  lemma CopyIsConnected(l: Loop)
    requires AllOfTheLoop(l.nodes) && l.root == 1
    ensures StaysConnected(TwoBackEdges(), l)
  {
    var g := TwoBackEdges();
    var tail := TailOf(g, l.nodes, 1);
    TwoBackEdgesLinks(2, 1);
    TailLeadsBack(g, l.nodes, 1, 2);
    TwoBackEdgesLinks(tail, 1);
    assert 0 !in l.nodes;
    forall a: nat, b: nat
      ensures Linked(a, b) && a != 0 && (b != 1 || a != tail) ==> BodyOf(g, l).Edge(a, b)
    {
      TwoBackEdgesLinks(a, b);
      CopyEdges(g, l.nodes, 1, a, b);
    }
    StillConnected(BodyOf(g, l), tail);
  }

  /** The block whose edge is dropped is one of the loop and leads to the header, if any does. */
  lemma {:induction false} TailLeadsBack(g: Graph, nodes: seq<nat>, root: nat, u: nat)
    requires u in nodes && g.Edge(u, root)
    ensures var tail := TailOf(g, nodes, root); tail in nodes && g.Edge(tail, root)
  {
    if !g.Edge(nodes[0], root) {
      assert u in nodes[1..];
      TailLeadsBack(g, nodes[1..], root, u);
    }
  }

  /** The members of a component are blocks. */
  lemma ComponentInside(g: Graph, r: nat, c: seq<nat>, v: nat)
    requires Component(g, r, c) && v in c
    ensures v in g.blocks && r in g.blocks
  {
    var p :| g.IsPathBetween(p, r, v);
    assert p[|p| - 1] in g.blocks && p[0] in g.blocks;
  }

  /** Two loops do not share a block. */
  lemma NotInBoth(g: Graph, found: seq<Loop>, base: nat, first: seq<int>, v: nat)
    requires FindsComponents(g, found, base, first)
    ensures base + 1 < |found| ==> exists m: nat :: base <= m < |found| && v !in found[m].nodes
  {
    if base + 1 < |found| && v in found[base].nodes {
      assert v !in found[base + 1].nodes;
    }
  }

  lemma NoWayBack(g: Graph, v: nat)
    requires g == TwoBackEdges() && g.Reaches(v, 0)
    ensures v == 0
  {
    var p :| g.IsPathBetween(p, v, 0);
    if |p| > 1 {
      assert g.Edge(p[|p| - 2], p[|p| - 1]);
      TwoBackEdgesLinks(p[|p| - 2], p[|p| - 1]);
    }
  }

  /** The loop the search starts with is that loop. */
  lemma FirstLoop(c: seq<nat>, r: nat)
    requires Component(TwoBackEdges(), r, c) && |c| >= 2
    ensures AllOfTheLoop(c)
  {
    var g := TwoBackEdges();
    forall v: nat | v in c
      ensures v in g.blocks && (v == 0 <==> r == 0)
    {
      ComponentInside(g, r, c, v);
      if v == 0 {
        NoWayBack(g, r);
      }
      if r == 0 {
        NoWayBack(g, v);
      }
    }
    assert c[0] in c && c[1] in c;
    assert r in {1, 2, 3};
    forall v: nat | v in {1, 2, 3}
      ensures v in c
    {
      LoopIsConnected(r, v);
      LoopIsConnected(v, r);
    }
  }

  lemma LoopIsConnected(a: nat, b: nat)
    requires a in {1, 2, 3} && b in {1, 2, 3}
    ensures TwoBackEdges().Reaches(a, b)
  {
    var g := TwoBackEdges();
    forall a: nat, b: nat
      ensures g.Edge(a, b) <==> Linked(a, b)
    {
      TwoBackEdgesLinks(a, b);
    }
    var p := if a == b then [a]
             else if Linked(a, b) then [a, b]
             else [1, 2, 3];
    assert g.IsPathBetween(p, a, b);
  }

  /** After any number of rounds one loop is still to be searched, and it is the same loop again. */
  lemma TwoBackEdgesNeverEnd(lists: seq<seq<Loop>>, n: nat)
    requires SearchRun(TwoBackEdges(), lists) && n < |lists|
    ensures exists i: nat :: n <= i < |lists[n]| && lists[n][i].root == 1 && AllOfTheLoop(lists[n][i].nodes)
    ensures !NoneStaysConnected(TwoBackEdges())
  {
    var g := TwoBackEdges();
    var top, first :| FindsComponents(g, top, 0, first) && lists[0] == MarkOutside(top);
    FirstSearch(top, first);
    var l := lists[0][0];
    CopyIsConnected(l);
    TwoBackEdgesIsValid();
    SearchNeverEnds(g, lists, 0, n);
    assert SearchRun(g, [lists[0]]) && ComesTo([lists[0]], l);
  }

  lemma TwoBackEdgesIsValid()
    ensures TwoBackEdges().Valid()
  {
    var g := TwoBackEdges();
    forall a: nat, b: nat
      ensures g.Edge(a, b) <==> Linked(a, b)
      ensures b < |g.pred| && a in g.pred[b] <==> Linked(a, b)
    {
      TwoBackEdgesLinks(a, b);
      if b < 4 {
        assert g.pred[b] == if b == 0 then [] else if b == 1 then [0, 2, 3] else if b == 2 then [1, 3] else [2];
      }
    }
    ListsAgree(g);
  }

  lemma AllReached()
    ensures RootReachesAll(TwoBackEdges())
  {
    var g := TwoBackEdges();
    TwoBackEdgesLinks(0, 1);
    ReachesItself(g, 0);
    assert g.IsPathBetween([0, 1], 0, 1);
    forall v: nat | v in g.blocks
      ensures g.Reaches(0, v)
    {
      if v != 0 {
        LoopIsConnected(1, v);
        ReachesTransitively(g, 0, 1, v);
      }
    }
  }

  /** The loop is entered at block 1 only. */
  lemma EnteredAtHeader(c: seq<nat>, r: nat, u: nat)
    requires AllOfTheLoop(c) && r in c && TwoBackEdges().Edge(u, r) && u !in c
    ensures r == 1
  {
    TwoBackEdgesLinks(u, r);
  }

  lemma FirstSearch(top: seq<Loop>, first: seq<int>)
    requires FindsComponents(TwoBackEdges(), top, 0, first)
    ensures |top| == 1 && top[0].root == 1 && AllOfTheLoop(top[0].nodes)
  {
    var g := TwoBackEdges();
    OneTopLoop(top, first);
    AllReached();
    var r := top[0].root;
    assert 0 !in top[0].nodes && r in top[0].nodes;
    var u: nat :| g.Edge(u, r) && u !in top[0].nodes;
    EnteredAtHeader(top[0].nodes, r, u);
  }

  lemma OneTopLoop(top: seq<Loop>, first: seq<int>)
    requires FindsComponents(TwoBackEdges(), top, 0, first)
    ensures |top| == 1 && AllOfTheLoop(top[0].nodes)
  {
    var g := TwoBackEdges();
    LoopIsConnected(1, 2);
    LoopIsConnected(2, 1);
    assert 1 in g.blocks && Mutual(g, 1, 2);
    var k: nat :| k < |top| && 1 in top[k].nodes;
    forall m: nat | m < |top|
      ensures AllOfTheLoop(top[m].nodes) && 1 in top[m].nodes
    {
      FirstLoop(top[m].nodes, top[m].root);
      assert 1 in {1, 2, 3};
    }
    NotInBoth(g, top, 0, first, 1);
  }

  // ---------------------------------------------------------------- a loop with a `continue`

  /** Entry 0, header 1, and two blocks 2 and 3 that both lead back to the header only. */
  function TwoContinues(): Graph {
    Graph([0, 1, 2, 3], 0, [[1], [2, 3], [1], [1]], [[], [0, 2, 3], [1], [1]])
  }

  lemma TwoContinuesLinks(a: nat, b: nat)
    ensures TwoContinues().Edge(a, b) <==> (a in {0, 2, 3} && b == 1) || (a == 1 && b in {2, 3})
  {
    if a < 4 {
      assert TwoContinues().succ[a] == if a == 1 then [2, 3] else [1];
    }
  }

  /** The dropped edge was the only one between its ends. */
  lemma OnlyOnce(l: Loop)
    requires l.root in l.nodes && TailOf(TwoContinues(), l.nodes, l.root) in l.nodes
    requires IsBody(TwoContinues(), l.nodes, l.root, TailOf(TwoContinues(), l.nodes, l.root), BodyOf(TwoContinues(), l))
    ensures !BodyOf(TwoContinues(), l).Edge(TailOf(TwoContinues(), l.nodes, l.root), l.root)
  {
    var g := TwoContinues();
    var tail := TailOf(g, l.nodes, l.root);
    DroppedEdge(g, l.nodes, l.root, tail, BodyOf(g, l));
    assert g.succ[tail] == if tail == 1 then [2, 3] else [1];
  }

  /** No path leads from a block without ways out, and none to a block without ways in. */
  lemma NoPath(h: Graph, a: nat, b: nat)
    requires a != b && ((forall c: nat :: !h.Edge(a, c)) || (forall c: nat :: !h.Edge(c, b)))
    ensures !h.Reaches(a, b)
  {
    if p :| h.IsPathBetween(p, a, b) {
      assert h.Edge(p[0], p[1]) && h.Edge(p[|p| - 2], p[|p| - 2 + 1]);
    }
  }

  lemma NothingStaysConnected(outer: Graph, l: Loop)
    requires LoopOf(TwoContinues(), outer, l)
    ensures !StaysConnected(TwoContinues(), l)
  {
    var g, body := TwoContinues(), BodyOf(TwoContinues(), l);
    var tail := TailOf(g, l.nodes, l.root);
    StaysExactly(g, outer, l);
    BodyReached(g, outer, l);
    assert g.Edge(tail, l.root);
    TwoContinuesLinks(tail, l.root);
    OnlyOnce(l);
    forall c: nat
      ensures l.root == 1 ==> !body.Edge(tail, c)
      ensures l.root != 1 ==> !body.Edge(c, l.root)
    {
      TwoContinuesLinks(tail, c);
      TwoContinuesLinks(c, l.root);
      CopyEdges(g, l.nodes, l.root, tail, c);
      CopyEdges(g, l.nodes, l.root, c, l.root);
      assert 0 in l.nodes ==> tail != 0 || l.root == 1;
    }
    NoPath(body, tail, l.root);
  }

  lemma TwoContinuesIsValid()
    ensures TwoContinues().Valid()
  {
    var g := TwoContinues();
    forall a: nat, b: nat
      ensures g.Edge(a, b) <==> b < |g.pred| && a in g.pred[b]
      ensures g.Edge(a, b) ==> a in g.blocks && b in g.blocks
    {
      TwoContinuesLinks(a, b);
      if b < 4 {
        assert g.pred[b] == if b == 0 then [] else if b == 1 then [0, 2, 3] else [1];
      }
    }
    ListsAgree(g);
  }

  /** On this graph the search ends, although the loop has two back edges. */
  lemma TwoContinuesEnd()
    ensures TwoContinues().Valid() && NoneStaysConnected(TwoContinues())
  {
    var g := TwoContinues();
    TwoContinuesIsValid();
    forall lists, l | SearchRun(g, lists) && ComesTo(lists, l)
      ensures !StaysConnected(g, l)
    {
      var k: nat := |lists| - 1;
      RunKeepsSearch(g, lists, k);
      assert FoundOk(g, lists[k], k, k);
      IsLoopOf(g, lists[k], k, k);
      NothingStaysConnected(FoundIn(g, lists[k], k), l);
    }
  }
}
