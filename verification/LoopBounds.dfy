/** The bounds of the loop bound detector: products along the chain of surrounding loops, and which runs they hold for. */
module LoopBounds {
  import opened Graphs
  import opened Loops
  import opened Components
  import opened LoopNesting
  import opened LoopForest
  import opened LoopMerge
  import opened LoopIdentification
  import opened LoopStays

  /** How often a block runs, its loop is entered, and its loop iterates. */
  datatype Bounds = Bounds(realX: int, outerX: int, innerX: int)

  /** What is known of loop `id`: the bound given for it, and the last block found with an edge out of it. */
  datatype Limit = Limit(bound: nat, sink: nat)

  ghost predicate ParentsFirst(loops: seq<Loop>) {
    forall i: nat | i < |loops| :: loops[i].parent == UNDEF || 0 <= loops[i].parent < i
  }

  predicate LoopNumber(loops: seq<Loop>, id: int) {
    UNDEF <= id < |loops|
  }

  function Factor(loops: seq<Loop>, limits: seq<Limit>, b: nat, id: nat): nat
    requires id < |loops| == |limits|
  {
    if loops[id].root == b || limits[id].sink == b then limits[id].bound + 1 else limits[id].bound
  }

  /** The product along the chain that starts with loop `id`. */
  ghost function RealX(loops: seq<Loop>, limits: seq<Limit>, b: nat, id: int): nat
    requires ParentsFirst(loops) && |loops| == |limits| && LoopNumber(loops, id)
    decreases id + 1
  {
    if id == UNDEF then 1 else Factor(loops, limits, b, id) * RealX(loops, limits, b, loops[id].parent)
  }

  ghost function OuterX(loops: seq<Loop>, limits: seq<Limit>, id: int): nat
    requires ParentsFirst(loops) && |loops| == |limits| && LoopNumber(loops, id)
    decreases id + 1
  {
    if id == UNDEF then 1 else limits[id].bound * OuterX(loops, limits, loops[id].parent)
  }

  ghost predicate BoundsAre(loops: seq<Loop>, limits: seq<Limit>, b: nat, id: int, x: Bounds)
    requires ParentsFirst(loops) && |loops| == |limits| && LoopNumber(loops, id)
  {
    && x.realX == RealX(loops, limits, b, id)
    && x.outerX == OuterX(loops, limits, if id == UNDEF then UNDEF else loops[id].parent)
    && x.innerX == if id == UNDEF then 1 else limits[id].bound
  }

  /** The position of the loop with a number. */
  function Place(loops: seq<Loop>, id: int): int
    requires id == UNDEF || HasId(loops, id)
  {
    if id == UNDEF then UNDEF else PositionOf(loops, id)
  }

  /** The last of the first `n` positions whose loop contains `v`. */
  function LastWith(loops: seq<Loop>, v: nat, n: nat): int
    requires n <= |loops|
  {
    if n == 0 then UNDEF else if v in loops[n - 1].nodes then n - 1 else LastWith(loops, v, n - 1)
  }

  lemma {:induction false} InnermostIsLastWith(loops: seq<Loop>, v: nat, n: nat)
    requires n <= |loops| && forall i | 0 <= i < |loops| :: loops[i].id != UNDEF
    ensures var q := LastWith(loops, v, n); UNDEF <= q < n && Innermost(loops[..n], v) == if q == UNDEF then UNDEF else loops[q].id
  {
    if n > 0 {
      InnermostIsLastWith(loops, v, n - 1);
      assert loops[..n][..n - 1] == loops[..n - 1] && loops[..n][n - 1] == loops[n - 1];
    }
  }

  lemma {:induction false} SameLastWith(loops: seq<Loop>, others: seq<Loop>, v: nat, n: nat)
    requires n <= |loops| == |others| && forall i | 0 <= i < |loops| :: others[i].nodes == loops[i].nodes
    ensures LastWith(others, v, n) == LastWith(loops, v, n)
  {
    if n > 0 {
      SameLastWith(loops, others, v, n - 1);
    }
  }

  /** The innermost loop is at the same place whatever the loops are called. */
  lemma InnermostPlace(loops: seq<Loop>, v: nat)
    requires NumbersOk(loops)
    ensures Innermost(loops, v) == UNDEF || HasId(loops, Innermost(loops, v))
    ensures Innermost(Renumbered(loops), v) == Place(loops, Innermost(loops, v))
  {
    var n, ren := |loops|, Renumbered(loops);
    InnermostIsLastWith(loops, v, n);
    InnermostIsLastWith(ren, v, n);
    SameLastWith(loops, ren, v, n);
    assert loops[..n] == loops && ren[..n] == ren;
    var q := LastWith(loops, v, n);
    if q != UNDEF {
      assert loops[q].id == loops[q].id;
      SamePosition(loops, q, loops[q].id);
    }
  }

  /** Loops with numbers of their own and surrounding loops in front, and the bounds and sinks found for them. */
  ghost predicate Numbered(loops: seq<Loop>, limits: seq<Limit>) {
    NumbersOk(loops) && ParentsFirst(Renumbered(loops)) && |loops| == |limits|
  }

  /** The products taken from loop `start` up to loop `at`, without it. */
  ghost predicate Multiplied(loops: seq<Loop>, limits: seq<Limit>, b: nat, start: int, at: int, bound: int, bound2: int)
    requires ParentsFirst(loops) && |loops| == |limits| && LoopNumber(loops, start) && LoopNumber(loops, at)
  {
    && bound * RealX(loops, limits, b, at) == RealX(loops, limits, b, start)
    && if at == start then bound2 == 1
       else start != UNDEF && bound2 * OuterX(loops, limits, at) == OuterX(loops, limits, loops[start].parent)
  }

  lemma {:induction false} MultipliedOn(loops: seq<Loop>, limits: seq<Limit>, b: nat, start: int, at: nat, bound: int, bound2: int)
    requires ParentsFirst(loops) && |loops| == |limits| && LoopNumber(loops, start) && at < |loops|
    requires at <= start && Multiplied(loops, limits, b, start, at, bound, bound2)
    ensures Multiplied(loops, limits, b, start, loops[at].parent, bound * Factor(loops, limits, b, at),
                       if at == start then 1 else bound2 * limits[at].bound)
  {
    Associates(bound, Factor(loops, limits, b, at), RealX(loops, limits, b, loops[at].parent));
    Associates(bound2, limits[at].bound, OuterX(loops, limits, loops[at].parent));
  }

  /** The loop up the chain for one block, whose loop has number `id`. */
  method BlockBounds(loops: seq<Loop>, limits: seq<Limit>, b: nat, id: int) returns (x: Bounds)
    requires Numbered(loops, limits) && (id == UNDEF || HasId(loops, id))
    ensures BoundsAre(Renumbered(loops), limits, b, Place(loops, id), x)
  {
    var bound, bound2, bound3 := 1, 1, 1;
    ghost var ren, start := Renumbered(loops), Place(loops, id);
    var at := id;
    if at != UNDEF {
      bound3 := limits[PositionOf(loops, at)].bound;
    }
    while at != UNDEF
      invariant at == UNDEF || HasId(loops, at)
      invariant UNDEF <= Place(loops, at) <= start && (at == id <==> Place(loops, at) == start)
      invariant Multiplied(ren, limits, b, start, Place(loops, at), bound, bound2)
      decreases Place(loops, at)
    {
      var q := PositionOf(loops, at);
      assert ren[q].root == loops[q].root && ren[q].parent == Place(loops, loops[q].parent);
      MultipliedOn(ren, limits, b, start, q, bound, bound2);
      if loops[q].root == b {
        bound := bound * (limits[q].bound + 1);
      } else if limits[q].sink == b {
        bound := bound * (limits[q].bound + 1);
      } else {
        bound := bound * limits[q].bound;
      }
      if at != id {
        bound2 := bound2 * limits[q].bound;
      }
      at := loops[q].parent;
    }
    x := Bounds(bound, bound2, bound3);
  }

  lemma Associates(a: int, b: int, c: int)
    ensures a * (b * c) == (a * b) * c
  {
  }

  /** `detect_bounds` */
  method DetectBounds(g: Graph, loops: seq<Loop>, limits: seq<Limit>, loopId: seq<int>) returns (bounds: seq<Bounds>)
    requires g.SuccValid() && Numbered(loops, limits) && |loopId| == |g.succ|
    requires forall b | b in g.blocks :: loopId[b] == UNDEF || HasId(loops, loopId[b])
    ensures |bounds| == |loopId|
    ensures forall b | b in g.blocks :: BoundsAre(Renumbered(loops), limits, b, Place(loops, loopId[b]), bounds[b])
  {
    bounds := seq(|loopId|, _ => Bounds(0, 0, 0));
    for i := 0 to |g.blocks|
      invariant |bounds| == |loopId|
      invariant forall k | 0 <= k < i ::
                  BoundsAre(Renumbered(loops), limits, g.blocks[k], Place(loops, loopId[g.blocks[k]]), bounds[g.blocks[k]])
    {
      var x := BlockBounds(loops, limits, g.blocks[i], loopId[g.blocks[i]]);
      bounds := bounds[g.blocks[i] := x];
    }
  }

  // ---------------------------------------------------------------- from stays to runs

  /** What every stay keeps, the run keeps over all entries of the loop. */
  lemma {:induction false} StaysAdd(p: seq<nat>, n: nat, loop: Loop, c: seq<nat>, m: nat)
    requires n <= |p| && (forall v: nat | v in c :: v in loop.nodes)
    requires forall k: nat | LeavesAt(p, k, loop.nodes) :: StayEntries(p, k, loop, c) <= m
    ensures n > 0 && p[n - 1] in loop.nodes ==>
              Entries(p, n, loop.nodes) > 0 && Entries(p, n, c) <= m * (Entries(p, n, loop.nodes) - 1) + StayEntries(p, n, loop, c)
    ensures n == 0 || p[n - 1] !in loop.nodes ==> Entries(p, n, c) <= m * Entries(p, n, loop.nodes)
  {
    if n > 0 {
      StaysAdd(p, n - 1, loop, c, m);
      if n > 1 && p[n - 1] !in loop.nodes && p[n - 2] in loop.nodes {
        assert LeavesAt(p, n - 1, loop.nodes);
        OneMore(m, Entries(p, n - 1, loop.nodes));
      }
    }
  }

  lemma OneMore(m: nat, n: nat)
    requires n > 0
    ensures m * (n - 1) + m == m * n
  {
  }

  lemma {:induction false} HeaderRuns(p: seq<nat>, n: nat, loop: Loop, bound: nat)
    requires n <= |p| && BoundKept(p, loop, bound) && loop.root in loop.nodes
    ensures Visits(p, n, loop.root) + (if n > 0 && p[n - 1] in loop.nodes then bound + 1 - StayRuns(p, n, loop) else 0)
            <= (bound + 1) * Entries(p, n, loop.nodes)
  {
    if n > 0 {
      HeaderRuns(p, n - 1, loop, bound);
      assert StayRuns(p, n - 1, loop) <= bound + 1 && StayRuns(p, n, loop) <= bound + 1;
      assert (bound + 1) * (Entries(p, n - 1, loop.nodes) + 1) == (bound + 1) * Entries(p, n - 1, loop.nodes) + (bound + 1);
    }
  }

  // ---------------------------------------------------------------- the bounds hold

  /** A run from the entry to a block outside all loops that keeps the loops' bounds, on a program with its forest of
      loops. */
  ghost predicate BoundedRun(g: Graph, loops: seq<Loop>, limits: seq<Limit>, p: seq<nat>) {
    && g.SuccValid() && ForestOk(g, loops) && |loops| == |limits|
    && IsRunOf(g, p) && Innermost(loops, Last(p)) == UNDEF
    && forall i: nat | i < |loops| :: BoundKept(p, loops[i], limits[i].bound)
  }

  /** Up the chain from loop `id`, every loop lies in the next one where no way leads past the header. */
  ghost predicate ChainOk(g: Graph, loops: seq<Loop>, id: int)
    requires ParentsFirst(loops) && LoopNumber(loops, id)
    decreases id + 1
  {
    id == UNDEF || loops[id].parent == UNDEF ||
    (Extra(g, loops[loops[id].parent], loops[id].nodes) == 0 && ChainOk(g, loops, loops[id].parent))
  }

  /** The same for a block in its innermost loop, with one way past the header if it is the loop's sink; only headers jump
      to themselves. */
  ghost predicate BlockOk(g: Graph, loops: seq<Loop>, limits: seq<Limit>, b: nat, id: int)
    requires |loops| == |limits| && LoopNumber(loops, id)
  {
    if id == UNDEF then !g.Edge(b, b)
    else b == loops[id].root || (!g.Edge(b, b) && Extra(g, loops[id], [b]) <= if limits[id].sink == b then 1 else 0)
  }

  lemma ParentsAreFirst(g: Graph, loops: seq<Loop>)
    requires ForestOk(g, loops)
    ensures ParentsFirst(loops)
  {
    forall j: nat | j < |loops|
      ensures loops[j].parent == UNDEF || 0 <= loops[j].parent < j
    {
      assert RecordOk(g, loops, j);
    }
  }

  /** What the count needs to know of one loop. */
  lemma {:induction false} LoopOfRun(g: Graph, loops: seq<Loop>, limits: seq<Limit>, p: seq<nat>, i: nat)
    requires BoundedRun(g, loops, limits, p) && i < |loops|
    ensures loops[i].root in loops[i].nodes && Last(p) !in loops[i].nodes && BoundKept(p, loops[i], limits[i].bound)
  {
    assert RecordOk(g, loops, i);
    InnermostHas(g, loops, Last(p));
  }

  /** Over the run, a component of the body of the loop is entered at most bound times per entry of the loop, and once more
      for every way past the header. */
  lemma {:induction false} BodyEntries(g: Graph, loops: seq<Loop>, limits: seq<Limit>, p: seq<nat>, i: nat, r: nat, c: seq<nat>)
    requires BoundedRun(g, loops, limits, p) && i < |loops| && PartOf(g, loops[i], r, c)
    ensures Entries(p, |p|, c) <= (limits[i].bound + Extra(g, loops[i], c)) * Entries(p, |p|, loops[i].nodes)
  {
    LoopOfRun(g, loops, limits, p, i);
    forall k: nat | LeavesAt(p, k, loops[i].nodes)
      ensures StayEntries(p, k, loops[i], c) <= limits[i].bound + Extra(g, loops[i], c)
    {
      StayBound(g, loops[i], r, c, p, k, limits[i].bound);
    }
    StaysAdd(p, |p|, loops[i], c, limits[i].bound + Extra(g, loops[i], c));
  }

  lemma EntersOnce(g: Graph, r: nat, c: seq<nat>, p: seq<nat>, e: nat, n: nat)
    requires g.IsPath(p) && e < n < |p| && Component(g, r, c) && p[e] in c
    ensures !Enters(p, n, c)
  {
    if p[n] in c {
      var q := p[e..n + 1];
      PathInComponent(g, r, c, q, |q| - 2);
      assert q[|q| - 2] == p[n - 1];
    }
  }

  /** A component of the whole program is entered once. */
  lemma {:induction false} EntriesOnTop(g: Graph, r: nat, c: seq<nat>, p: seq<nat>, n: nat)
    requires g.IsPath(p) && n <= |p| && Component(g, r, c)
    ensures Entries(p, n, c) <= 1
    ensures Entries(p, n, c) == 1 ==> exists e: nat :: e < n && Enters(p, e, c)
  {
    if n > 0 {
      EntriesOnTop(g, r, c, p, n - 1);
      if Entries(p, n - 1, c) == 1 && Enters(p, n - 1, c) {
        var e: nat :| e < n - 1 && Enters(p, e, c);
        EntersOnce(g, r, c, p, e, n - 1);
      } else if Enters(p, n - 1, c) {
        assert Entries(p, n, c) == 1;
      }
    }
  }

  /** How often a part of the body can be entered per entry of the loop. */
  ghost function Ways(g: Graph, loop: Loop, limit: Limit, c: seq<nat>): nat {
    limit.bound + Extra(g, loop, c)
  }

  /** How often loop `id` can be entered: the product of the bounds around it, each with one more for every way past its
      header. */
  ghost function WayX(g: Graph, loops: seq<Loop>, limits: seq<Limit>, id: nat): nat
    requires ParentsFirst(loops) && id < |loops| == |limits|
  {
    var up := loops[id].parent;
    if up == UNDEF then 1
    else Ways(g, loops[up], limits[up], loops[id].nodes) * WayX(g, loops, limits, up)
  }

  lemma {:induction false} EntriesWithinWays(g: Graph, loops: seq<Loop>, limits: seq<Limit>, p: seq<nat>, i: nat)
    requires BoundedRun(g, loops, limits, p) && i < |loops| && ParentsFirst(loops)
    ensures Entries(p, |p|, loops[i].nodes) <= WayX(g, loops, limits, i)
    decreases i
  {
    assert RecordOk(g, loops, i);
    var up := loops[i].parent;
    if up == UNDEF {
      EntriesOnTop(g, loops[i].root, loops[i].nodes, p, |p|);
    } else {
      EntriesWithinWays(g, loops, limits, p, up);
      NestedEntries(g, loops, limits, p, i, up, WayX(g, loops, limits, up));
    }
  }

  lemma {:induction false} NestedEntries(g: Graph, loops: seq<Loop>, limits: seq<Limit>, p: seq<nat>, i: nat, up: nat, ways: nat)
    requires BoundedRun(g, loops, limits, p) && i < |loops| && up < |loops| && loops[i].parent == up
    requires Entries(p, |p|, loops[up].nodes) <= ways
    ensures Entries(p, |p|, loops[i].nodes) <= Ways(g, loops[up], limits[up], loops[i].nodes) * ways
  {
    ChildInParent(g, loops, i);
    BodyEntries(g, loops, limits, p, up, loops[i].root, loops[i].nodes);
    Monotone(Ways(g, loops[up], limits[up], loops[i].nodes), Entries(p, |p|, loops[up].nodes), ways);
  }

  lemma {:induction false} WaysAreOuter(g: Graph, loops: seq<Loop>, limits: seq<Limit>, i: nat)
    requires |loops| == |limits| && i < |loops| && ParentsFirst(loops) && ChainOk(g, loops, i)
    ensures WayX(g, loops, limits, i) == OuterX(loops, limits, loops[i].parent)
    decreases i
  {
    if loops[i].parent != UNDEF {
      WaysAreOuter(g, loops, limits, loops[i].parent);
    }
  }

  /** Loop `i` is entered at most that often, which is `outer_x` where no way leads past the headers of the chain. */
  lemma {:induction false} LoopEntries(g: Graph, loops: seq<Loop>, limits: seq<Limit>, p: seq<nat>, i: nat)
    requires BoundedRun(g, loops, limits, p) && i < |loops| && ParentsFirst(loops)
    ensures Entries(p, |p|, loops[i].nodes) <= WayX(g, loops, limits, i)
    ensures ChainOk(g, loops, i) ==> WayX(g, loops, limits, i) == OuterX(loops, limits, loops[i].parent)
  {
    EntriesWithinWays(g, loops, limits, p, i);
    if ChainOk(g, loops, i) {
      WaysAreOuter(g, loops, limits, i);
    }
  }

  lemma Monotone(k: nat, a: nat, b: nat)
    requires a <= b
    ensures k * a <= k * b
  {
  }

  lemma ChildInParent(g: Graph, loops: seq<Loop>, i: nat)
    requires g.SuccValid() && ForestOk(g, loops) && i < |loops| && 0 <= loops[i].parent < |loops|
    ensures PartOf(g, loops[loops[i].parent], loops[i].root, loops[i].nodes)
  {
    var up := loops[i].parent;
    assert RecordOk(g, loops, i) && RecordOk(g, loops, up);
    NestedIsSmaller(g, loops[up].nodes, loops[up].root, loops[i].nodes, loops[i].root);
  }

  /** A block that is in no nested loop is a component of its own in the body of its loop. */
  lemma AloneInBody(g: Graph, loops: seq<Loop>, b: nat, i: nat)
    requires g.SuccValid() && ForestOk(g, loops) && i < |loops| && Innermost(loops, b) == i
    ensures b in loops[i].nodes && Component(Inner(g, loops[i].nodes, loops[i].root), b, [b])
  {
    InnermostHas(g, loops, b);
    ReachesItself(Inner(g, loops[i].nodes, loops[i].root), b);
    forall w: nat
      ensures w in [b] <==> Mutual(Inner(g, loops[i].nodes, loops[i].root), b, w)
    {
      DeeperLoop(g, loops, b, i, w);
    }
  }

  lemma DeeperLoop(g: Graph, loops: seq<Loop>, b: nat, i: nat, w: nat)
    requires g.SuccValid() && ForestOk(g, loops) && i < |loops| && b in loops[i].nodes
    ensures w != b && Mutual(Inner(g, loops[i].nodes, loops[i].root), b, w) ==> Innermost(loops, b) > i
  {
    if w != b && Mutual(Inner(g, loops[i].nodes, loops[i].root), b, w) {
      var j: nat :| j < |loops| && loops[j].parent == i && b in loops[j].nodes;
      assert RecordOk(g, loops, j);
      InnermostIsLast(g, loops, b, j);
    }
  }

  lemma TopLoop(g: Graph, loops: seq<Loop>, b: nat, w: nat)
    requires g.SuccValid() && ForestOk(g, loops) && b in g.blocks
    ensures w != b && Mutual(g, b, w) ==> Innermost(loops, b) != UNDEF
  {
    if w != b && Mutual(g, b, w) {
      var j: nat :| j < |loops| && loops[j].parent == UNDEF && b in loops[j].nodes;
      InnermostIsLast(g, loops, b, j);
    }
  }

  lemma AloneOnTop(g: Graph, loops: seq<Loop>, b: nat)
    requires g.SuccValid() && ForestOk(g, loops) && b in g.blocks && Innermost(loops, b) == UNDEF
    ensures Component(g, b, [b])
  {
    ReachesItself(g, b);
    forall w: nat
      ensures w in [b] <==> Mutual(g, b, w)
    {
      TopLoop(g, loops, b, w);
    }
  }

  lemma {:induction false} InnermostHasIn(loops: seq<Loop>, b: nat)
    requires forall i: nat | i < |loops| :: loops[i].id == i
    ensures var id := Innermost(loops, b);
            id == UNDEF || (0 <= id < |loops| && b in loops[id].nodes && forall j: nat | id < j < |loops| :: b !in loops[j].nodes)
  {
    if loops != [] && !(b in Last(loops).nodes) {
      InnermostHasIn(loops[..|loops| - 1], b);
    }
  }

  lemma InnermostHas(g: Graph, loops: seq<Loop>, b: nat)
    requires ForestOk(g, loops)
    ensures var id := Innermost(loops, b);
            id == UNDEF || (0 <= id < |loops| && b in loops[id].nodes && forall j: nat | id < j < |loops| :: b !in loops[j].nodes)
  {
    forall i: nat | i < |loops|
      ensures loops[i].id == i
    {
      assert RecordOk(g, loops, i);
    }
    InnermostHasIn(loops, b);
  }

  lemma InnermostIsLast(g: Graph, loops: seq<Loop>, b: nat, j: nat)
    requires ForestOk(g, loops) && j < |loops| && b in loops[j].nodes
    ensures j <= Innermost(loops, b) < |loops|
  {
    InnermostHas(g, loops, b);
    assert RecordOk(g, loops, j);
  }

  /** Without an edge to itself, every run of a block enters it. */
  lemma {:induction false} VisitsEnter(g: Graph, p: seq<nat>, n: nat, b: nat)
    requires g.IsPath(p) && n <= |p| && !g.Edge(b, b)
    ensures Visits(p, n, b) == Entries(p, n, [b])
  {
    if n > 0 {
      VisitsEnter(g, p, n - 1, b);
      if n > 1 {
        assert g.Edge(p[n - 2], p[n - 1]);
      }
    }
  }

  /** How often a block can run per entry of its loop. */
  ghost function RunsPerEntry(g: Graph, loops: seq<Loop>, limits: seq<Limit>, b: nat, id: nat): nat
    requires id < |loops| == |limits|
  {
    if b == loops[id].root then limits[id].bound + 1 else Ways(g, loops[id], limits[id], [b])
  }

  /** How often a block can run: its loop's entries times the bound, with one more for the header or for every way past
      it. */
  ghost function RunX(g: Graph, loops: seq<Loop>, limits: seq<Limit>, b: nat, id: int): nat
    requires ParentsFirst(loops) && |loops| == |limits| && LoopNumber(loops, id)
  {
    if id == UNDEF then 1
    else RunsPerEntry(g, loops, limits, b, id) * WayX(g, loops, limits, id)
  }

  /** The block count bound.  A run executes every block at most so often, unless the block is no header and jumps to itself.
      Where no way leads past the headers, that is within `real_x`, and the loop of the block is entered at most `outer_x`
      times. */
  lemma {:induction false} BlockCounts(g: Graph, loops: seq<Loop>, limits: seq<Limit>, p: seq<nat>, b: nat, x: Bounds)
    requires BoundedRun(g, loops, limits, p) && b in g.blocks && ParentsFirst(loops)
    requires var id := Innermost(loops, b);
             LoopNumber(loops, id) && BoundsAre(loops, limits, b, id, x) && (!g.Edge(b, b) || (id != UNDEF && b == loops[id].root))
    ensures Visits(p, |p|, b) <= RunX(g, loops, limits, b, Innermost(loops, b))
    ensures var id := Innermost(loops, b);
            ChainOk(g, loops, id) && BlockOk(g, loops, limits, b, id) ==>
              && Visits(p, |p|, b) <= x.realX
              && (id != UNDEF ==> Entries(p, |p|, loops[id].nodes) <= x.outerX)
  {
    var id := Innermost(loops, b);
    if id == UNDEF {
      AloneOnTop(g, loops, b);
      EntriesOnTop(g, b, [b], p, |p|);
      VisitsEnter(g, p, |p|, b);
    } else {
      LoopEntries(g, loops, limits, p, id);
      RunsWithinWays(g, loops, limits, p, b, id);
      if ChainOk(g, loops, id) && BlockOk(g, loops, limits, b, id) {
        WithinRealX(g, loops, limits, b, id);
      }
    }
  }

  lemma {:induction false} RunsWithinWays(g: Graph, loops: seq<Loop>, limits: seq<Limit>, p: seq<nat>, b: nat, id: nat)
    requires BoundedRun(g, loops, limits, p) && ParentsFirst(loops) && id < |loops| && Innermost(loops, b) == id
    requires (!g.Edge(b, b) || b == loops[id].root) && Entries(p, |p|, loops[id].nodes) <= WayX(g, loops, limits, id)
    ensures Visits(p, |p|, b) <= RunX(g, loops, limits, b, id)
  {
    BlockInLoop(g, loops, limits, p, b, id);
    Monotone(RunsPerEntry(g, loops, limits, b, id), Entries(p, |p|, loops[id].nodes), WayX(g, loops, limits, id));
  }

  lemma {:induction false} WithinRealX(g: Graph, loops: seq<Loop>, limits: seq<Limit>, b: nat, id: nat)
    requires ParentsFirst(loops) && id < |loops| == |limits| && BlockOk(g, loops, limits, b, id)
    requires WayX(g, loops, limits, id) == OuterX(loops, limits, loops[id].parent)
    ensures RunX(g, loops, limits, b, id) <= RealX(loops, limits, b, id)
  {
    var outer, around := OuterX(loops, limits, loops[id].parent), RealX(loops, limits, b, loops[id].parent);
    FactorsCover(loops, limits, b, loops[id].parent);
    MoreTimes(RunsPerEntry(g, loops, limits, b, id), Factor(loops, limits, b, id), outer);
    Monotone(Factor(loops, limits, b, id), outer, around);
  }

  lemma {:induction false} BlockInLoop(g: Graph, loops: seq<Loop>, limits: seq<Limit>, p: seq<nat>, b: nat, id: nat)
    requires BoundedRun(g, loops, limits, p) && id < |loops| && Innermost(loops, b) == id && (!g.Edge(b, b) || b == loops[id].root)
    ensures Visits(p, |p|, b) <=
            RunsPerEntry(g, loops, limits, b, id) * Entries(p, |p|, loops[id].nodes)
  {
    LoopOfRun(g, loops, limits, p, id);
    AloneInBody(g, loops, b, id);
    if b == loops[id].root {
      HeaderRuns(p, |p|, loops[id], limits[id].bound);
    } else {
      assert PartOf(g, loops[id], b, [b]);
      BodyEntries(g, loops, limits, p, id, b, [b]);
      VisitsEnter(g, p, |p|, b);
    }
  }

  lemma MoreTimes(a: nat, b: nat, n: nat)
    requires a <= b
    ensures a * n <= b * n
  {
  }

  lemma {:induction false} FactorsCover(loops: seq<Loop>, limits: seq<Limit>, b: nat, id: int)
    requires ParentsFirst(loops) && |loops| == |limits| && LoopNumber(loops, id)
    ensures OuterX(loops, limits, id) <= RealX(loops, limits, b, id)
    decreases id + 1
  {
    if id != UNDEF {
      var up := loops[id].parent;
      FactorsCover(loops, limits, b, up);
      Monotone(limits[id].bound, OuterX(loops, limits, up), RealX(loops, limits, b, up));
      var r, k := RealX(loops, limits, b, up), limits[id].bound;
      assert (k + 1) * r == k * r + r;
    }
  }

  /** The loop is entered and left at its header only. */
  ghost predicate HeaderOnly(g: Graph, loop: Loop) {
    && (forall u: nat, v: nat | g.Edge(u, v) && u !in loop.nodes && v in loop.nodes :: v == loop.root)
    && (forall u: nat, v: nat | g.Edge(u, v) && u in loop.nodes && v !in loop.nodes :: u == loop.root)
    && (g.root in loop.nodes ==> g.root == loop.root)
  }

  /** Then no way leads past the header. */
  lemma HeaderOnlySuffices(g: Graph, loop: Loop, c: seq<nat>)
    requires HeaderOnly(g, loop) && loop.root !in c
    ensures Extra(g, loop, c) == 0
  {
    if Late(g, loop, c) {
      var x: nat, y: nat :| x in c && ExitAt(g, loop, y) && Inner(g, loop.nodes, loop.root).Reaches(x, y);
      NothingReachesHeader(g, loop.nodes, loop.root, x);
    }
  }
}
