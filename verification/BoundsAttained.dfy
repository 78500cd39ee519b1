/** The bounds of the loop bound detector are no larger than they must be. */
module BoundsAttained {
  import opened Graphs
  import opened Loops
  import opened Components
  import opened LoopNesting
  import opened LoopForest
  import opened LoopStays
  import opened LoopExact
  import opened LoopBounds
  import IpetSound

  // ---------------------------------------------------------------- in every program

  /** The sinks recorded for the loops can leave them. */
  ghost predicate SinksLeave(g: Graph, loops: seq<Loop>, limits: seq<Limit>, b: nat) {
    |loops| == |limits| && forall i: nat | i < |loops| && limits[i].sink == b && b in loops[i].nodes :: ExitAt(g, loops[i], b)
  }

  /** Where no way leads past the headers of the chain, `real_x` is the number of times that the loop is entered, times that
      of the block per entry. */
  lemma {:induction false} RealXIsRunX(g: Graph, loops: seq<Loop>, limits: seq<Limit>, b: nat, id: nat)
    requires g.SuccValid() && ForestOk(g, loops) && ParentsFirst(loops) && id < |loops| && SinksLeave(g, loops, limits, b)
    requires b in loops[id].nodes && ChainOk(g, loops, id) && BlockOk(g, loops, limits, b, id)
    ensures RealX(loops, limits, b, id) == RunX(g, loops, limits, b, id)
  {
    assert RecordOk(g, loops, id);
    WaysAreOuter(g, loops, limits, id);
    OuterOfBlock(g, loops, limits, b, id);
    if b != loops[id].root && limits[id].sink == b {
      LeftBehind(g, loops[id], b, [b]);
    }
    assert Factor(loops, limits, b, id) == RunsPerEntry(g, loops, limits, b, id);
  }

  /** The loops around are no more than products of bounds: the block is neither their header nor their sink. */
  lemma {:induction false} OuterOfBlock(g: Graph, loops: seq<Loop>, limits: seq<Limit>, b: nat, id: nat)
    requires g.SuccValid() && ForestOk(g, loops) && ParentsFirst(loops) && id < |loops| && SinksLeave(g, loops, limits, b)
    requires b in loops[id].nodes && ChainOk(g, loops, id)
    ensures RealX(loops, limits, b, loops[id].parent) == OuterX(loops, limits, loops[id].parent)
    decreases id
  {
    assert RecordOk(g, loops, id);
    var up := loops[id].parent;
    if up != UNDEF {
      ChildInParent(g, loops, id);
      assert b in loops[up].nodes && b != loops[up].root;
      NotSink(g, loops, limits, b, up, loops[id].nodes);
      OuterOfBlock(g, loops, limits, b, up);
    }
  }

  lemma NotSink(g: Graph, loops: seq<Loop>, limits: seq<Limit>, b: nat, up: nat, c: seq<nat>)
    requires up < |loops| && SinksLeave(g, loops, limits, b) && b in c && b in loops[up].nodes
    ensures limits[up].sink == b ==> Extra(g, loops[up], c) > 0
  {
    if limits[up].sink == b {
      LeftBehind(g, loops[up], b, c);
    }
  }

  /** A part from which the loop can be left is left late. */
  lemma LeftBehind(g: Graph, loop: Loop, b: nat, c: seq<nat>)
    requires ExitAt(g, loop, b) && b in c
    ensures Late(g, loop, c)
  {
    ReachesItself(Inner(g, loop.nodes, loop.root), b);
  }

  /** And the runs per entry are attained: for every bound there is a run that keeps it, leaves the loop, and in that stay
      runs the header once more than the bound, and enters the block as often as it can be run. */
  lemma RunsAttained(g: Graph, outer: Graph, loops: seq<Loop>, limits: seq<Limit>, b: nat, id: nat) returns (p: seq<nat>, n: nat)
    requires id < |loops| == |limits| && Setting(g, outer, loops[id], b, [b])
    ensures IsRunOf(g, p) && BoundKept(p, loops[id], limits[id].bound) && LeavesAt(p, n, loops[id].nodes)
    ensures StayRuns(p, n, loops[id]) == RunsPerEntry(g, loops, limits, loops[id].root, id)
    ensures StayEntries(p, n, loops[id], [b]) == RunsPerEntry(g, loops, limits, b, id)
  {
    p, n := Attained(g, outer, loops[id], b, [b], limits[id].bound);
    StayBound(g, loops[id], b, [b], p, n, limits[id].bound);
  }

  // ---------------------------------------------------------------- over a whole run

  /** A loop that tests at its start, 1 to 4 and 6, around one that tests at its end, 2, 3 and 6: block 3 leaves it, block 6
      leads back to its header, and block 4 follows it. */
  function TwoKinds(): Graph {
    Graph([0, 1, 2, 3, 4, 5, 6], 0, [[1], [2, 5], [3], [6, 4], [1], [], [2]], [[], [0, 4], [1, 6], [2], [3], [1], [3]])
  }

  function TwoKindsLoops(): seq<Loop> {
    [Loop(0, 1, UNDEF, [1, 2, 3, 4, 6], outside := true), Loop(1, 2, 0, [2, 3, 6])]
  }

  /** The outer loop is left at its header, the inner one at block 3. */
  function TwoLimits(k: nat, m: nat): seq<Limit> {
    [Limit(k, 1), Limit(m, 3)]
  }

  predicate Linked(a: nat, b: nat) {
    (a in {0, 4} && b == 1) || (a == 1 && b in {2, 5}) || (a == 2 && b == 3) || (a == 3 && b in {4, 6}) || (a == 6 && b == 2)
  }

  lemma TwoKindsEdges(a: nat, b: nat)
    ensures TwoKinds().Edge(a, b) <==> Linked(a, b)
    ensures b < |TwoKinds().pred| && a in TwoKinds().pred[b] <==> Linked(a, b)
  {
    var g := TwoKinds();
    if a < 7 {
      assert g.succ[a] == if a in {0, 4} then [1] else if a == 1 then [2, 5] else if a == 2 then [3]
                          else if a == 3 then [6, 4] else if a == 6 then [2] else [];
    }
    if b < 7 {
      assert g.pred[b] == if b == 0 then [] else if b == 1 then [0, 4] else if b == 2 then [1, 6] else if b == 3 then [2]
                          else if b == 5 then [1] else [3];
    }
  }

  lemma TwoKindsIsValid()
    ensures TwoKinds().Valid()
  {
    var g := TwoKinds();
    forall a: nat, b: nat
      ensures g.Edge(a, b) <==> b < |g.pred| && a in g.pred[b]
      ensures g.Edge(a, b) ==> a in g.blocks && b in g.blocks
    {
      TwoKindsEdges(a, b);
    }
    ListsAgree(g);
  }

  /** Ranks that never fall along edges tell blocks apart that cannot reach each other both ways. */
  lemma {:induction false} RanksRise(h: Graph, rank: seq<int>, p: seq<nat>)
    requires h.IsPath(p) && forall v: nat | v in h.blocks :: v < |rank|
    requires forall a: nat, b: nat | h.Edge(a, b) && a in h.blocks && b in h.blocks :: rank[a] <= rank[b]
    ensures rank[p[0]] <= rank[Last(p)]
    decreases |p|
  {
    if |p| > 1 {
      PathPrefix(h, p, |p| - 1);
      RanksRise(h, rank, p[..|p| - 1]);
      assert h.Edge(p[|p| - 2], p[|p| - 2 + 1]);
    }
  }

  lemma SameRank(h: Graph, rank: seq<int>, a: nat, b: nat)
    requires forall v: nat | v in h.blocks :: v < |rank|
    requires forall a: nat, b: nat | h.Edge(a, b) && a in h.blocks && b in h.blocks :: rank[a] <= rank[b]
    ensures Mutual(h, a, b) ==> a in h.blocks && b in h.blocks && rank[a] == rank[b]
  {
    if Mutual(h, a, b) {
      var p :| h.IsPathBetween(p, a, b);
      var q :| h.IsPathBetween(q, b, a);
      RanksRise(h, rank, p);
      RanksRise(h, rank, q);
      assert p[0] in h.blocks && q[0] in h.blocks;
    }
  }

  /** A way around connects all blocks on it. */
  lemma RoundIsMutual(h: Graph, way: seq<nat>, i: nat, j: nat)
    requires h.SuccValid() && h.IsPath(way) && h.Edge(Last(way), way[0]) && i < |way| && j < |way|
    ensures Mutual(h, way[i], way[j])
  {
    AroundTo(h, way, i, j);
    AroundTo(h, way, j, i);
  }

  lemma AroundTo(h: Graph, way: seq<nat>, i: nat, j: nat)
    requires h.SuccValid() && h.IsPath(way) && h.Edge(Last(way), way[0]) && i < |way| && j < |way|
    ensures h.Reaches(way[i], way[j])
  {
    PathSuffix(h, way, i);
    PathPrefix(h, way, j + 1);
    assert h.IsPathBetween(way[i..], way[i], Last(way)) && h.IsPathBetween(way[..j + 1], way[0], way[j]);
    ReachesByEdge(h, Last(way), way[0]);
    ReachesTransitively(h, way[i], Last(way), way[0]);
    ReachesTransitively(h, way[i], way[0], way[j]);
  }

  /** The edges of the bodies of the two loops. */
  ghost predicate IsOuterBody(h: Graph) {
    h.blocks == [1, 2, 3, 4, 6] && forall a: nat, b: nat :: h.Edge(a, b) <==> Linked(a, b) && a in {1, 2, 3, 4, 6} && b in {2, 3, 4, 6}
  }

  ghost predicate IsInnerBody(h: Graph) {
    h.blocks == [2, 3, 6] && forall a: nat, b: nat :: h.Edge(a, b) <==> Linked(a, b) && a in {2, 3, 6} && b in {3, 6}
  }

  lemma BodyEdges(nodes: seq<nat>, root: nat)
    ensures forall a: nat, b: nat ::
              Inner(TwoKinds(), nodes, root).Edge(a, b) <==> Linked(a, b) && a in nodes && b in nodes && b != root
    ensures Inner(TwoKinds(), nodes, root).blocks == nodes
  {
    forall a: nat, b: nat
      ensures Inner(TwoKinds(), nodes, root).Edge(a, b) <==> Linked(a, b) && a in nodes && b in nodes && b != root
    {
      TwoKindsEdges(a, b);
      InnerEdges(TwoKinds(), nodes, root, a, b);
    }
  }

  lemma OuterBodyIs(l: Loop)
    requires l.root == 1 && l.nodes == [1, 2, 3, 4, 6]
    ensures IsOuterBody(Inner(TwoKinds(), l.nodes, l.root)) && Inner(TwoKinds(), l.nodes, l.root).SuccValid()
  {
    BodyEdges(l.nodes, l.root);
    IsOuter(Inner(TwoKinds(), l.nodes, l.root), l.nodes);
    TwoKindsIsValid();
    OuterNodes(l.nodes);
    InnerIsValid(TwoKinds(), l.nodes, l.root);
  }

  lemma OuterNodes(nodes: seq<nat>)
    requires nodes == [1, 2, 3, 4, 6]
    ensures NoDuplicates(nodes) && LoopNesting.Inside(TwoKinds(), nodes) && 1 in nodes
  {
  }

  lemma InnerBodyIs(l: Loop)
    requires l.root == 2 && l.nodes == [2, 3, 6]
    ensures IsInnerBody(Inner(TwoKinds(), l.nodes, l.root))
  {
    BodyEdges(l.nodes, l.root);
    IsInner(Inner(TwoKinds(), l.nodes, l.root), l.nodes);
  }

  lemma IsOuter(h: Graph, nodes: seq<nat>)
    requires nodes == [1, 2, 3, 4, 6] && h.blocks == nodes
    requires forall a: nat, b: nat :: h.Edge(a, b) <==> Linked(a, b) && a in nodes && b in nodes && b != 1
    ensures IsOuterBody(h)
  {
  }

  lemma IsInner(h: Graph, nodes: seq<nat>)
    requires nodes == [2, 3, 6] && h.blocks == nodes
    requires forall a: nat, b: nat :: h.Edge(a, b) <==> Linked(a, b) && a in nodes && b in nodes && b != 2
    ensures IsInnerBody(h)
  {
  }

  lemma OuterWay()
    ensures var way := [1, 2, 3, 6, 2, 3, 4]; TwoKinds().IsPath(way) && TwoKinds().Edge(Last(way), way[0])
  {
    TwoKindsEdges(1, 2);
    TwoKindsEdges(2, 3);
    TwoKindsEdges(3, 6);
    TwoKindsEdges(6, 2);
    TwoKindsEdges(3, 4);
    TwoKindsEdges(4, 1);
  }

  lemma OuterMembers(w: nat)
    requires w in {1, 2, 3, 4, 6}
    ensures Mutual(TwoKinds(), 1, w)
  {
    TwoKindsIsValid();
    OuterWay();
    RoundIsMutual(TwoKinds(), [1, 2, 3, 6, 2, 3, 4], 0, if w == 1 then 0 else if w == 2 then 1 else if w == 3 then 2 else if w == 4 then 6 else 3);
  }

  lemma InnerMembers(h: Graph, w: nat)
    requires IsOuterBody(h) && h.SuccValid() && w in {2, 3, 6}
    ensures Mutual(h, 2, w)
  {
    assert Linked(2, 3) && Linked(3, 6) && Linked(6, 2);
    assert h.IsPath([2, 3, 6]);
    RoundIsMutual(h, [2, 3, 6], 0, if w == 2 then 0 else if w == 3 then 1 else 2);
  }

  lemma OuterRanks(v: nat, w: nat)
    ensures v != w && Mutual(TwoKinds(), v, w) ==> v in {1, 2, 3, 4, 6} && w in {1, 2, 3, 4, 6}
  {
    var g, rank := TwoKinds(), [0, 1, 1, 1, 1, 2, 1];
    forall a: nat, b: nat | g.Edge(a, b) && a in g.blocks && b in g.blocks
      ensures rank[a] <= rank[b]
    {
      TwoKindsEdges(a, b);
    }
    SameRank(g, rank, v, w);
  }

  lemma InnerRanks(h: Graph, v: nat, w: nat)
    requires IsOuterBody(h)
    ensures v != w && Mutual(h, v, w) ==> v in {2, 3, 6} && w in {2, 3, 6}
  {
    var rank := [0, 0, 1, 1, 2, 0, 1];
    assert rank[1] == 0 && rank[2] == rank[3] == rank[6] == 1 && rank[4] == 2;
    forall a: nat, b: nat | h.Edge(a, b) && a in h.blocks && b in h.blocks
      ensures rank[a] <= rank[b]
    {
      assert Linked(a, b);
    }
    SameRank(h, rank, v, w);
  }

  lemma NothingInside(h: Graph, v: nat, w: nat)
    requires IsInnerBody(h)
    ensures v != w ==> !Mutual(h, v, w)
  {
    var rank := [0, 0, 0, 1, 0, 0, 2];
    assert rank[2] == 0 && rank[3] == 1 && rank[6] == 2;
    forall a: nat, b: nat | h.Edge(a, b) && a in h.blocks && b in h.blocks
      ensures rank[a] <= rank[b]
    {
      assert Linked(a, b);
    }
    SameRank(h, rank, v, w);
  }

  lemma OuterIsComponent()
    ensures Component(TwoKinds(), 1, [1, 2, 3, 4, 6])
  {
    forall w: nat
      ensures w in [1, 2, 3, 4, 6] <==> Mutual(TwoKinds(), 1, w)
    {
      OuterRanks(1, w);
      if w in {1, 2, 3, 4, 6} {
        OuterMembers(w);
      }
    }
  }

  lemma InnerIsComponent(h: Graph)
    requires IsOuterBody(h) && h.SuccValid()
    ensures Component(h, 2, [2, 3, 6])
  {
    forall w: nat
      ensures w in [2, 3, 6] <==> Mutual(h, 2, w)
    {
      InnerRanks(h, 2, w);
      if w in {2, 3, 6} {
        InnerMembers(h, w);
      }
    }
  }

  lemma TwoKindsComplete()
    ensures Complete(TwoKinds(), TwoKindsLoops())
  {
    var g, loops := TwoKinds(), TwoKindsLoops();
    assert loops[0].parent == UNDEF && loops[1].parent == 0;
    OuterBodyIs(loops[0]);
    InnerBodyIs(loops[1]);
    forall v: nat, w: nat | v in g.blocks && v != w && Mutual(g, v, w)
      ensures InLoopWithParent(loops, v, UNDEF)
    {
      OuterRanks(v, w);
      assert v in loops[0].nodes;
    }
    forall i: nat, v: nat, w: nat | i < |loops| && v != w && Mutual(Inner(g, loops[i].nodes, loops[i].root), v, w)
      ensures InLoopWithParent(loops, v, i)
    {
      if i == 0 {
        InnerRanks(Inner(g, loops[0].nodes, loops[0].root), v, w);
        assert v in loops[1].nodes;
      } else {
        NothingInside(Inner(g, loops[1].nodes, loops[1].root), v, w);
      }
    }
  }

  lemma TwoKindsForest()
    ensures TwoKinds().Valid() && ForestOk(TwoKinds(), TwoKindsLoops())
  {
    TwoKindsIsValid();
    OuterRecord();
    InnerRecord();
    TwoKindsNested();
    TwoKindsComplete();
    BothRecords(TwoKinds(), TwoKindsLoops());
  }

  lemma BothRecords(g: Graph, loops: seq<Loop>)
    requires |loops| == 2 && RecordOk(g, loops, 0) && RecordOk(g, loops, 1)
    ensures Records(g, loops)
  {
  }

  lemma TwoKindsNested()
    ensures Forest(TwoKindsLoops())
  {
    var outer, inner := TwoKindsLoops()[0], TwoKindsLoops()[1];
    assert outer.root == 1 && outer.nodes == [1, 2, 3, 4, 6] && inner.nodes == [2, 3, 6];
    assert InBody(outer, inner.nodes);
  }

  lemma OuterRecord()
    ensures RecordOk(TwoKinds(), TwoKindsLoops(), 0)
  {
    OuterIsComponent();
    var l := TwoKindsLoops()[0];
    assert l.root == 1 && l.nodes == [1, 2, 3, 4, 6] && l.outside;
  }

  lemma InnerRecord()
    ensures RecordOk(TwoKinds(), TwoKindsLoops(), 1)
  {
    var up, l := TwoKindsLoops()[0], TwoKindsLoops()[1];
    assert up.root == 1 && up.nodes == [1, 2, 3, 4, 6];
    assert l.root == 2 && l.nodes == [2, 3, 6] && !l.outside && l.parent == 0;
    OuterBodyIs(up);
    InnerIsComponent(Around(TwoKinds(), TwoKindsLoops(), 1));
  }

  /** From the inner header `m` times round, to block 3. */
  function Turns(m: nat): seq<nat> {
    if m == 0 then [3] else Turns(m - 1) + [6, 2, 3]
  }

  /** A round of the outer loop, from behind its header. */
  function Lap(m: nat): seq<nat> {
    [2] + Turns(m) + [4, 1]
  }

  function Laps(k: nat, m: nat): seq<nat> {
    if k == 0 then [0, 1] else Laps(k - 1, m) + Lap(m)
  }

  /** The run with all rounds that the bounds allow. */
  function FullRun(k: nat, m: nat): seq<nat> {
    Laps(k, m) + [5]
  }

  lemma {:induction false} TurnsCount(m: nat)
    ensures CountOf(Turns(m), 1) == 0 && CountOf(Turns(m), 4) == 0
    ensures CountOf(Turns(m), 2) == m && CountOf(Turns(m), 3) == m + 1 && CountOf(Turns(m), 6) == m
  {
    if m > 0 {
      TurnsCount(m - 1);
      ThreeMore(Turns(m - 1));
    } else {
      assert forall b: nat :: Visits([3], 1, b) == if b == 3 then 1 else 0;
    }
  }

  lemma ThreeMore(s: seq<nat>)
    ensures forall b: nat :: CountOf(s + [6, 2, 3], b) == CountOf(s, b) + if b in {2, 3, 6} then 1 else 0
  {
    forall b: nat
      ensures CountOf(s + [6, 2, 3], b) == CountOf(s, b) + if b in {2, 3, 6} then 1 else 0
    {
      var t := [6, 2, 3];
      CountAdds(s, t, b);
      assert Visits(t, 1, b) == if b == 6 then 1 else 0;
      assert Visits(t, 2, b) == if b in {2, 6} then 1 else 0;
    }
  }

  lemma LapCount(m: nat)
    ensures CountOf(Lap(m), 1) == 1 && CountOf(Lap(m), 4) == 1
    ensures CountOf(Lap(m), 2) == m + 1 && CountOf(Lap(m), 3) == m + 1 && CountOf(Lap(m), 6) == m
  {
    TurnsCount(m);
    forall b: nat
      ensures CountOf(Lap(m), b) == CountOf(Turns(m), b) + if b in {1, 2, 4} then 1 else 0
    {
      CountAdds([2] + Turns(m), [4, 1], b);
      CountAdds([2], Turns(m), b);
      assert Visits([2], 1, b) == if b == 2 then 1 else 0;
      assert Visits([4, 1], 1, b) == if b == 4 then 1 else 0;
    }
  }

  lemma {:induction false} LapsCount(k: nat, m: nat)
    ensures CountOf(Laps(k, m), 1) == k + 1 && CountOf(Laps(k, m), 4) == k
    ensures CountOf(Laps(k, m), 2) == k * (m + 1) && CountOf(Laps(k, m), 3) == k * (m + 1) && CountOf(Laps(k, m), 6) == k * m
  {
    if k > 0 {
      LapsCount(k - 1, m);
      LapCount(m);
      forall b: nat
        ensures CountOf(Laps(k, m), b) == CountOf(Laps(k - 1, m), b) + CountOf(Lap(m), b)
      {
        CountAdds(Laps(k - 1, m), Lap(m), b);
      }
      OneLapMore(k, m + 1);
      OneLapMore(k, m);
    } else {
      assert forall b: nat :: Visits([0, 1], 1, b) == if b == 0 then 1 else 0;
      assert forall b: nat :: Visits([0, 1], 2, b) == if b in {0, 1} then 1 else 0;
    }
  }

  lemma OneLapMore(k: nat, n: nat)
    requires k > 0
    ensures k * n == (k - 1) * n + n
  {
  }

  // the run is a path and keeps the bound of the inner loop

  lemma {:induction false} TurnsGo(m: nat)
    ensures Goes(TwoKinds(), TwoKindsLoops()[1], 2, Turns(m), 3)
  {
    var g, loop := TwoKinds(), TwoKindsLoops()[1];
    TwoKindsEdges(2, 3);
    TwoKindsEdges(3, 6);
    TwoKindsEdges(6, 2);
    if m == 0 {
      assert StepAt(g, loop, 2, [3], 0);
    } else {
      TurnsGo(m - 1);
      assert StepAt(g, loop, 3, [6, 2, 3], 0) && StepAt(g, loop, 3, [6, 2, 3], 1) && StepAt(g, loop, 3, [6, 2, 3], 2);
      GoesJoin(g, loop, 2, Turns(m - 1), 3, [6, 2, 3], 3);
    }
  }

  /** What holds of the run between two laps. */
  ghost predicate BetweenLaps(p: seq<nat>, m: nat) {
    IsRunOf(TwoKinds(), p) && Last(p) == 1 && BoundKept(p, TwoKindsLoops()[1], m)
  }

  lemma EnterInner(p: seq<nat>, m: nat)
    requires BetweenLaps(p, m)
    ensures Stands(TwoKinds(), TwoKindsLoops()[1], [], m, p + [2], 2, 1, 0)
  {
    var loop, q := TwoKindsLoops()[1], p + [2];
    TwoKindsIsValid();
    TwoKindsEdges(1, 2);
    PathExtends(TwoKinds(), p, 2);
    assert q[|q| - 2] == 1 && q[|q| - 1] == 2;
    assert LoopStays.Enters(q, |q| - 1, loop.nodes);
    assert StayRuns(q, |q|, loop) == 1;
    KeptByPrefix(p, q, loop, m);
  }

  lemma LeaveInner(q: seq<nat>, m: nat)
    requires IsRunOf(TwoKinds(), q) && Last(q) == 3 && BoundKept(q, TwoKindsLoops()[1], m)
    ensures BetweenLaps(q + [4, 1], m)
  {
    var loop, r := TwoKindsLoops()[1], q + [4];
    TwoKindsIsValid();
    TwoKindsEdges(3, 4);
    TwoKindsEdges(4, 1);
    PathExtends(TwoKinds(), q, 4);
    assert StayRuns(r, |r|, loop) == 0;
    KeptByPrefix(q, r, loop, m);
    PathExtends(TwoKinds(), r, 1);
    assert q + [4, 1] == r + [1];
    assert StayRuns(r + [1], |r| + 1, loop) == 0;
    KeptByPrefix(r, r + [1], loop, m);
  }

  lemma OneLap(p: seq<nat>, m: nat)
    requires BetweenLaps(p, m)
    ensures BetweenLaps(p + Lap(m), m)
  {
    var g, loop := TwoKinds(), TwoKindsLoops()[1];
    TwoKindsIsValid();
    EnterInner(p, m);
    TurnsGo(m);
    TurnsCount(m);
    GoOn(g, loop, [], m, p + [2], 2, 1, 0, Turns(m), 3);
    LeaveInner(p + [2] + Turns(m), m);
    assert p + [2] + Turns(m) + [4, 1] == p + Lap(m);
  }

  lemma {:induction false} AllLaps(k: nat, m: nat)
    ensures BetweenLaps(Laps(k, m), m)
  {
    if k > 0 {
      AllLaps(k - 1, m);
      OneLap(Laps(k - 1, m), m);
    } else {
      TwoKindsEdges(0, 1);
      FewInside([0, 1], TwoKindsLoops()[1], m);
    }
  }

  lemma FewInside(p: seq<nat>, loop: Loop, m: nat)
    requires p == [0, 1] && 0 !in loop.nodes && 1 !in loop.nodes
    ensures BoundKept(p, loop, m)
  {
    forall n: nat | n <= |p|
      ensures StayRuns(p, n, loop) <= m + 1
    {
    }
  }

  lemma FullRunIsBounded(k: nat, m: nat)
    ensures BoundedRun(TwoKinds(), TwoKindsLoops(), TwoLimits(k, m), FullRun(k, m))
  {
    var g, p, q, outer, inner := TwoKinds(), Laps(k, m), FullRun(k, m), TwoKindsLoops()[0], TwoKindsLoops()[1];
    TwoKindsForest();
    AllLaps(k, m);
    TwoKindsEdges(1, 5);
    PathExtends(g, p, 5);
    assert StayRuns(q, |q|, inner) == 0;
    KeptByPrefix(p, q, inner, m);
    LapsCount(k, m);
    CountAdds(p, [5], 1);
    forall n: nat | n <= |q|
      ensures StayRuns(q, n, outer) <= k + 1
    {
      RunsAtMostVisits(q, n, outer);
      VisitsGrow(q, n, |q|, 1);
      assert Visits([5], 1, 1) == 0;
    }
    LastIsOutside();
  }

  lemma LastIsOutside()
    ensures Innermost(TwoKindsLoops(), 5) == UNDEF
  {
  }

  lemma FullRunCounts(k: nat, m: nat)
    ensures var p := FullRun(k, m);
            && Visits(p, |p|, 1) == k + 1 && Visits(p, |p|, 4) == k
            && Visits(p, |p|, 2) == k * (m + 1) && Visits(p, |p|, 3) == k * (m + 1) && Visits(p, |p|, 6) == k * m
  {
    LapsCount(k, m);
    forall b: nat | b in {1, 2, 3, 4, 6}
      ensures CountOf(FullRun(k, m), b) == CountOf(Laps(k, m), b)
    {
      CountAdds(Laps(k, m), [5], b);
      assert Visits([5], 1, b) == 0;
    }
  }

  /** Whatever the bounds are, a run that keeps them executes every block of the two loops exactly `real_x` times: the two
      headers, the sink of the inner loop, and the plain blocks of both. */
  lemma RealXAttained(k: nat, m: nat, b: nat, x: Bounds)
    requires b in {1, 2, 3, 4, 6} && ParentsFirst(TwoKindsLoops()) && LoopNumber(TwoKindsLoops(), Innermost(TwoKindsLoops(), b))
    requires BoundsAre(TwoKindsLoops(), TwoLimits(k, m), b, Innermost(TwoKindsLoops(), b), x)
    ensures BoundedRun(TwoKinds(), TwoKindsLoops(), TwoLimits(k, m), FullRun(k, m))
    ensures Visits(FullRun(k, m), |FullRun(k, m)|, b) == x.realX
    ensures x.realX == if b == 1 then k + 1 else if b == 4 then k else if b == 6 then k * m else k * (m + 1)
  {
    FullRunIsBounded(k, m);
    FullRunCounts(k, m);
    BoundsOfTwoKinds(k, m, b, x);
  }

  lemma BoundsOfTwoKinds(k: nat, m: nat, b: nat, x: Bounds)
    requires b in {1, 2, 3, 4, 6} && ParentsFirst(TwoKindsLoops()) && LoopNumber(TwoKindsLoops(), Innermost(TwoKindsLoops(), b))
    requires BoundsAre(TwoKindsLoops(), TwoLimits(k, m), b, Innermost(TwoKindsLoops(), b), x)
    ensures x.realX == if b == 1 then k + 1 else if b == 4 then k else if b == 6 then k * m else k * (m + 1)
  {
    var loops, limits := TwoKindsLoops(), TwoLimits(k, m);
    assert loops[0].root == 1 && loops[1].root == 2 && limits[0] == Limit(k, 1) && limits[1] == Limit(m, 3);
    InnermostOfTwoKinds(b);
    TwoLevels(loops, limits, b, 0, 1);
  }

  lemma InnermostOfTwoKinds(b: nat)
    requires b in {1, 2, 3, 4, 6}
    ensures Innermost(TwoKindsLoops(), b) == if b in {2, 3, 6} then 1 else 0
  {
    var loops := TwoKindsLoops();
    assert loops[..1] == [loops[0]] && [loops[0]][..0] == [];
  }

  lemma {:induction false} TwoLevels(loops: seq<Loop>, limits: seq<Limit>, b: nat, i: nat, j: nat)
    requires ParentsFirst(loops) && i < |loops| == |limits| && j < |loops| && loops[i].parent == UNDEF && loops[j].parent == i
    ensures RealX(loops, limits, b, i) == Factor(loops, limits, b, i)
    ensures RealX(loops, limits, b, j) == Factor(loops, limits, b, j) * Factor(loops, limits, b, i)
  {
  }

  // ---------------------------------------------------------------- how often the headers lead into their loops

  /** How often a walk goes from the header on into its loop, and how often it comes to it from outside. */
  ghost predicate Leads(p: seq<nat>, loop: Loop, stays: nat, entries: nat) {
    && IpetSound.StayCount(p, |p|, loop.root, loop.nodes) == stays
    && IpetSound.EntryCount(p, |p|, loop.root, loop.nodes) == entries
  }

  /** Walks that meet in a block add up. */
  lemma {:induction false} LeadsAdd(p: seq<nat>, s: seq<nat>, loop: Loop, stays: nat, entries: nat, stays2: nat, entries2: nat)
    requires p != [] && Leads(p, loop, stays, entries) && Leads([Last(p)] + s, loop, stays2, entries2)
    ensures Leads(p + s, loop, stays + stays2, entries + entries2)
    decreases |s|
  {
    var t := [Last(p)] + s;
    if s == [] {
      assert p + s == p;
    } else {
      var rest := s[..|s| - 1];
      var u := [Last(p)] + rest;
      assert t[..|t| - 1] == u && (p + s)[..|p + s| - 1] == p + rest;
      assert t[|t| - 2] == (p + s)[|p + s| - 2] && t[|t| - 1] == (p + s)[|p + s| - 1];
      LeadsFront(t, loop);
      LeadsFront(p + s, loop);
      LeadsAdd(p, rest, loop, stays, entries,
               IpetSound.StayCount(u, |u|, loop.root, loop.nodes), IpetSound.EntryCount(u, |u|, loop.root, loop.nodes));
    }
  }

  lemma LeadsFront(p: seq<nat>, loop: Loop)
    requires |p| > 1
    ensures var q := p[..|p| - 1];
            && IpetSound.StayCount(p, |p|, loop.root, loop.nodes) ==
               IpetSound.StayCount(q, |q|, loop.root, loop.nodes) + (if p[|p| - 2] == loop.root && p[|p| - 1] in loop.nodes then 1 else 0)
            && IpetSound.EntryCount(p, |p|, loop.root, loop.nodes) ==
               IpetSound.EntryCount(q, |q|, loop.root, loop.nodes) + (if p[|p| - 1] == loop.root && p[|p| - 2] !in loop.nodes then 1 else 0)
  {
    SameFront(p[..|p| - 1], p, |p| - 1, loop);
  }

  lemma {:induction false} SameFront(q: seq<nat>, p: seq<nat>, n: nat, loop: Loop)
    requires n <= |q| && q <= p
    ensures IpetSound.StayCount(p, n, loop.root, loop.nodes) == IpetSound.StayCount(q, n, loop.root, loop.nodes)
    ensures IpetSound.EntryCount(p, n, loop.root, loop.nodes) == IpetSound.EntryCount(q, n, loop.root, loop.nodes)
  {
    if n > 0 {
      SameFront(q, p, n - 1, loop);
    }
  }

  /** One step. */
  lemma StepLeads(a: nat, b: nat, loop: Loop)
    ensures Leads([a, b], loop, if a == loop.root && b in loop.nodes then 1 else 0, if b == loop.root && a !in loop.nodes then 1 else 0)
  {
    LeadsFront([a, b], loop);
    assert [a, b][..1] == [a];
  }

  lemma TwoStepsLead(a: nat, b: nat, c: nat, loop: Loop, stays: nat, entries: nat)
    requires stays == (if a == loop.root && b in loop.nodes then 1 else 0) + if b == loop.root && c in loop.nodes then 1 else 0
    requires entries == (if b == loop.root && a !in loop.nodes then 1 else 0) + if c == loop.root && b !in loop.nodes then 1 else 0
    ensures Leads([a, b, c], loop, stays, entries)
  {
    StepLeads(a, b, loop);
    StepLeads(b, c, loop);
    LeadsAdd([a, b], [c], loop, if a == loop.root && b in loop.nodes then 1 else 0, if b == loop.root && a !in loop.nodes then 1 else 0,
             if b == loop.root && c in loop.nodes then 1 else 0, if c == loop.root && b !in loop.nodes then 1 else 0);
    assert [a, b] + [c] == [a, b, c] && [b] + [c] == [b, c];
  }

  lemma {:induction false} TurnsLead(m: nat, outer: Loop, inner: Loop)
    requires outer == TwoKindsLoops()[0] && inner == TwoKindsLoops()[1]
    ensures Leads([2] + Turns(m), outer, 0, 0) && Leads([2] + Turns(m), inner, m + 1, 0)
  {
    if m == 0 {
      StepLeads(2, 3, outer);
      StepLeads(2, 3, inner);
      assert [2] + Turns(0) == [2, 3];
    } else {
      TurnsLead(m - 1, outer, inner);
      BackAndOn(outer, inner);
      var p := [2] + Turns(m - 1);
      assert Last(p) == 3 && [3] + [6, 2, 3] == [3, 6, 2, 3] && p + [6, 2, 3] == [2] + Turns(m);
      LeadsAdd(p, [6, 2, 3], outer, 0, 0, 0, 0);
      LeadsAdd(p, [6, 2, 3], inner, m, 0, 1, 0);
    }
  }

  lemma BackAndOn(outer: Loop, inner: Loop)
    requires outer == TwoKindsLoops()[0] && inner == TwoKindsLoops()[1]
    ensures Leads([3, 6, 2, 3], outer, 0, 0) && Leads([3, 6, 2, 3], inner, 1, 0)
  {
    TwoStepsLead(3, 6, 2, outer, 0, 0);
    TwoStepsLead(3, 6, 2, inner, 0, 0);
    StepLeads(2, 3, outer);
    StepLeads(2, 3, inner);
    assert [3, 6, 2] + [3] == [3, 6, 2, 3] && [2] + [3] == [2, 3];
    LeadsAdd([3, 6, 2], [3], outer, 0, 0, 0, 0);
    LeadsAdd([3, 6, 2], [3], inner, 0, 0, 1, 0);
  }

  lemma LapLeads(m: nat, outer: Loop, inner: Loop)
    requires outer == TwoKindsLoops()[0] && inner == TwoKindsLoops()[1]
    ensures Leads([1] + Lap(m), outer, 1, 0) && Leads([1] + Lap(m), inner, m + 1, 1)
  {
    var p := [1, 2] + Turns(m);
    StepLeads(1, 2, outer);
    StepLeads(1, 2, inner);
    TurnsLead(m, outer, inner);
    LeadsAdd([1, 2], Turns(m), outer, 1, 0, 0, 0);
    LeadsAdd([1, 2], Turns(m), inner, 0, 1, m + 1, 0);
    TwoStepsLead(3, 4, 1, outer, 0, 0);
    TwoStepsLead(3, 4, 1, inner, 0, 0);
    assert Last(p) == 3 && [3] + [4, 1] == [3, 4, 1] && p + [4, 1] == [1] + Lap(m);
    LeadsAdd(p, [4, 1], outer, 1, 0, 0, 0);
    LeadsAdd(p, [4, 1], inner, m + 1, 1, 0, 0);
  }

  lemma {:induction false} LapsLead(k: nat, m: nat, outer: Loop, inner: Loop)
    requires outer == TwoKindsLoops()[0] && inner == TwoKindsLoops()[1]
    ensures Last(Laps(k, m)) == 1 && Leads(Laps(k, m), outer, k, 1) && Leads(Laps(k, m), inner, k * (m + 1), k)
  {
    if k == 0 {
      StepLeads(0, 1, outer);
      StepLeads(0, 1, inner);
    } else {
      LapsLead(k - 1, m, outer, inner);
      LapLeads(m, outer, inner);
      LeadsAdd(Laps(k - 1, m), Lap(m), outer, k - 1, 1, 1, 0);
      LeadsAdd(Laps(k - 1, m), Lap(m), inner, (k - 1) * (m + 1), k - 1, m + 1, 1);
      OneLapMore(k, m + 1);
    }
  }

  lemma OuterOfTwoKinds(k: nat, m: nat)
    requires ParentsFirst(TwoKindsLoops())
    ensures OuterX(TwoKindsLoops(), TwoLimits(k, m), UNDEF) == 1 && OuterX(TwoKindsLoops(), TwoLimits(k, m), 0) == k
  {
    var top, none: int := 0, UNDEF;
    assert OuterX(TwoKindsLoops(), TwoLimits(k, m), none) == 1;
    assert OuterX(TwoKindsLoops(), TwoLimits(k, m), top) == k * OuterX(TwoKindsLoops(), TwoLimits(k, m), none);
  }

  /** On that run both loops are entered exactly `outer_x` times.  The header of the loop that tests at its start leads into it exactly `inner_x` times per entry, as the
      integer program demands.  The header of the loop that tests at its end does so once more per entry, so that a run
      which uses its whole bound does not meet that row. */
  lemma InnerXOnFullRun(k: nat, m: nat, x: Bounds, y: Bounds)
    requires ParentsFirst(TwoKindsLoops())
    requires BoundsAre(TwoKindsLoops(), TwoLimits(k, m), 1, 0, x) && BoundsAre(TwoKindsLoops(), TwoLimits(k, m), 2, 1, y)
    ensures var p, outer, inner := FullRun(k, m), TwoKindsLoops()[0], TwoKindsLoops()[1];
            && IpetSound.StayCount(p, |p|, 1, outer.nodes) == x.innerX * IpetSound.EntryCount(p, |p|, 1, outer.nodes)
            && IpetSound.StayCount(p, |p|, 2, inner.nodes) == (y.innerX + 1) * IpetSound.EntryCount(p, |p|, 2, inner.nodes)
            && IpetSound.EntryCount(p, |p|, 1, outer.nodes) == x.outerX && IpetSound.EntryCount(p, |p|, 2, inner.nodes) == y.outerX
  {
    var outer, inner := TwoKindsLoops()[0], TwoKindsLoops()[1];
    LapsLead(k, m, outer, inner);
    StepLeads(1, 5, outer);
    StepLeads(1, 5, inner);
    assert [1] + [5] == [1, 5];
    LeadsAdd(Laps(k, m), [5], outer, k, 1, 0, 0);
    LeadsAdd(Laps(k, m), [5], inner, k * (m + 1), k, 0, 0);
    assert x.innerX == k && y.innerX == m;
    OuterOfTwoKinds(k, m);
    assert k * (m + 1) == (m + 1) * k;
  }
}
