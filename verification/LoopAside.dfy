/** A program whose loop is entered beside its header, and a run that keeps the loop's bound but not the block's. */
module LoopAside {
  import opened Graphs
  import opened Loops
  import opened Components
  import opened Tarjan
  import opened LoopNesting
  import opened LoopForest
  import opened LoopStays
  import opened LoopBounds
  import opened LoopCounterexample

  /** The entry leads both to block 1 and to block 2, which lead to each other; only block 1 leads out. */
  function TwoWaysIn(): Graph {
    Graph([0, 1, 2, 3], 0, [[1, 2], [2, 3], [1], []], [[], [0, 2], [0, 1], [1]])
  }

  lemma TwoWaysInEdges(a: nat, b: nat)
    ensures TwoWaysIn().Edge(a, b) <==> (a == 0 && b in {1, 2}) || (a == 1 && b in {2, 3}) || (a == 2 && b == 1)
  {
    if a < 4 {
      assert TwoWaysIn().succ[a] == if a == 0 then [1, 2] else if a == 1 then [2, 3] else if a == 2 then [1] else [];
    }
  }

  lemma TwoWaysInIsValid()
    ensures TwoWaysIn().Valid()
  {
    var g := TwoWaysIn();
    forall a: nat, b: nat
      ensures g.Edge(a, b) <==> b < |g.pred| && a in g.pred[b]
      ensures g.Edge(a, b) ==> a in g.blocks && b in g.blocks
    {
      TwoWaysInEdges(a, b);
      if b < 4 {
        assert g.pred[b] == if b == 0 then [] else if b == 1 then [0, 2] else if b == 2 then [0, 1] else [1];
      }
    }
    ListsAgree(g);
  }

  function TheLoop(): Loop {
    Loop(0, 1, UNDEF, [2, 1], outside := true, analysed := true)
  }

  /** The only blocks that reach each other are 1 and 2. */
  lemma TwoWaysInMutual(v: nat, w: nat)
    ensures v in {1, 2} && w in {1, 2} ==> Mutual(TwoWaysIn(), v, w)
    ensures v != w && Mutual(TwoWaysIn(), v, w) ==> v in {1, 2} && w in {1, 2}
  {
    var g := TwoWaysIn();
    TwoWaysInIsValid();
    if v in {1, 2} && w in {1, 2} {
      TwoWaysInEdges(1, 2);
      TwoWaysInEdges(2, 1);
      ReachesByEdge(g, 1, 2);
      ReachesByEdge(g, 2, 1);
      ReachesItself(g, v);
    }
    if v != w && Mutual(g, v, w) {
      OnTheWayBack(v, w);
      OnTheWayBack(w, v);
    }
  }

  /** Nothing leads to block 0, and nothing on from block 3. */
  lemma OnTheWayBack(v: nat, w: nat)
    requires v != w && TwoWaysIn().Reaches(v, w)
    ensures v in {0, 1, 2} && w in {1, 2, 3}
  {
    var g := TwoWaysIn();
    var p :| g.IsPathBetween(p, v, w);
    assert g.Edge(p[0], p[1]) && g.Edge(p[|p| - 2], p[|p| - 2 + 1]);
    TwoWaysInEdges(p[0], p[1]);
    TwoWaysInEdges(p[|p| - 2], p[|p| - 2 + 1]);
  }

  /** The loop search finds exactly this loop, with header 1: block 1 is listed before block 2 at the entry. */
  lemma FoundWithHeader(top: seq<Loop>, first: seq<int>)
    requires FindsComponents(TwoWaysIn(), top, 0, first)
    ensures |top| == 1 && top[0].root == 1 && forall v: nat :: v in top[0].nodes <==> v in {1, 2}
  {
    var g := TwoWaysIn();
    TwoWaysInMutual(1, 2);
    var k: nat :| k < |top| && 1 in top[k].nodes;
    forall m: nat, v: nat | m < |top|
      ensures v in top[m].nodes <==> v in {1, 2}
    {
      OnlyLoop(top[m].root, top[m].nodes, v);
    }
    NotInBoth(g, top, 0, first, 1);
    OneBeforeTwo(first);
    assert top[0].root in top[0].nodes;
  }

  lemma OnlyLoop(r: nat, c: seq<nat>, v: nat)
    requires Component(TwoWaysIn(), r, c) && |c| >= 2
    ensures v in c <==> v in {1, 2}
  {
    assert c[0] in c && c[1] in c;
    var w := if c[0] == r then c[1] else c[0];
    TwoWaysInMutual(r, w);
    TwoWaysInMutual(r, v);
  }

  lemma OneBeforeTwo(first: seq<int>)
    requires SearchOrder(TwoWaysIn(), first)
    ensures first[1] < first[2]
  {
    var g := TwoWaysIn();
    assert 0 in g.blocks && 1 in g.blocks && 2 in g.blocks;
    assert first[0] != first[2];
    assert InTurn(g, first, 2);
    TwoWaysInEdges(0, 2);
    if u: nat, j: nat :| TurnOf(g, first, 2, u, j) {
      TwoWaysInEdges(u, 2);
      assert g.Edge(u, 2);
      assert u == 0 ==> g.succ[0] == [1, 2] && j == 1 && Before(first, g.succ[0][0], 2);
    }
  }

  lemma TheLoopIsForest()
    ensures ForestOk(TwoWaysIn(), [TheLoop()])
  {
    var g, loops := TwoWaysIn(), [TheLoop()];
    forall v: nat
      ensures v in [2, 1] <==> Mutual(g, 1, v)
    {
      TwoWaysInMutual(1, v);
    }
    assert RecordOk(g, loops, 0);
    forall v: nat, w: nat | v in g.blocks && v != w && Mutual(g, v, w)
      ensures InLoopWithParent(loops, v, UNDEF)
    {
      TwoWaysInMutual(v, w);
      assert loops[0].parent == UNDEF && v in loops[0].nodes;
    }
    forall v: nat, w: nat | v != w
      ensures !Mutual(Inner(g, [2, 1], 1), v, w)
    {
      OneWayInside(v, w);
    }
  }

  /** Inside the loop without its header, only 1 leads to 2. */
  lemma OneWayInside(v: nat, w: nat)
    requires v != w
    ensures !Mutual(Inner(TwoWaysIn(), [2, 1], 1), v, w)
  {
    forall a: nat, b: nat
      ensures Inner(TwoWaysIn(), [2, 1], 1).Edge(a, b) ==> a == 1 && b == 2
    {
      InnerEdges(TwoWaysIn(), [2, 1], 1, a, b);
      TwoWaysInEdges(a, b);
    }
    OneEdgeOnly(Inner(TwoWaysIn(), [2, 1], 1), v, w);
    OneEdgeOnly(Inner(TwoWaysIn(), [2, 1], 1), w, v);
  }

  lemma OneEdgeOnly(h: Graph, v: nat, w: nat)
    requires v != w && forall a: nat, b: nat :: h.Edge(a, b) ==> a == 1 && b == 2
    ensures h.Reaches(v, w) ==> v == 1
  {
    if h.Reaches(v, w) {
      var p :| h.IsPathBetween(p, v, w);
      assert h.Edge(p[0], p[1]);
    }
  }

  /** The run in through block 2. */
  function Aside(): seq<nat> {
    [0, 2, 1, 2, 1, 3]
  }

  lemma AsideIsRun()
    ensures IsRunOf(TwoWaysIn(), Aside()) && BoundKept(Aside(), TheLoop(), 1)
    ensures Visits(Aside(), 6, 2) == 2 && Visits(Aside(), 6, 1) == 2
  {
    var p, loop := Aside(), TheLoop();
    TwoWaysInEdges(0, 2);
    TwoWaysInEdges(2, 1);
    TwoWaysInEdges(1, 2);
    TwoWaysInEdges(1, 3);
    assert StayRuns(p, 0, loop) == StayRuns(p, 1, loop) == StayRuns(p, 2, loop) == 0;
    assert StayRuns(p, 3, loop) == StayRuns(p, 4, loop) == 1;
    assert StayRuns(p, 5, loop) == 2 && StayRuns(p, 6, loop) == 0;
    forall n: nat | n <= |p|
      ensures StayRuns(p, n, loop) <= 2
    {
    }
    assert Visits(p, 2, 1) == 0 && Visits(p, 4, 1) == 1 && Visits(p, 6, 1) == 2;
    assert Visits(p, 2, 2) == 1 && Visits(p, 4, 2) == 2 && Visits(p, 6, 2) == 2;
  }

  /** Entering the loop beside its header breaks the bound: the run keeps the loop's bound 1, yet block 2 runs twice where
      the detector allows it once.  A way past the header leads in. */
  lemma {:induction false} EnteredAsideExceeds(x: Bounds)
    requires var limits := [Limit(1, 1)]; ParentsFirst([TheLoop()]) && BoundsAre([TheLoop()], limits, 2, 0, x)
    ensures BoundedRun(TwoWaysIn(), [TheLoop()], [Limit(1, 1)], Aside()) && Innermost([TheLoop()], 2) == 0
    ensures x.realX == 1 && Visits(Aside(), |Aside()|, 2) == 2
    ensures Early(TwoWaysIn(), TheLoop(), [2])
  {
    var g, loops, limits := TwoWaysIn(), [TheLoop()], [Limit(1, 1)];
    TwoWaysInIsValid();
    TheLoopIsForest();
    AsideIsRun();
    assert RealX(loops, limits, 2, UNDEF) == 1;
    assert Last(loops) == TheLoop() && loops[..0] == [];
    assert Innermost([], 3) == UNDEF;
    TwoWaysInEdges(0, 2);
    assert EntryBeside(g, TheLoop(), 2);
    ReachesItself(Inner(g, [2, 1], 1), 2);
  }
}
