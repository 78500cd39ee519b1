/** The table that the cache analysis consults, filled by the loop search.  What the search leaves meets all that the
    analysis asks of it, the termination of the must search included, if the entry has no predecessors and reaches every
    block. */
module LoopTables {
  import opened Graphs
  import opened Loops
  import opened Components
  import opened Tarjan
  import opened LoopNesting
  import opened LoopForest
  import opened LoopSearch
  import opened LoopMerge
  import opened LoopIdentification
  import opened LoopStays
  import opened LoopBounds
  import opened MustSearch
  import LoopFreeGraphs
  import Classification
  import FirstMisses

  /** Loops and numbers as `identify_loops` leaves them. */
  ghost predicate Identified(g: Graph, table: LoopTable) {
    && g.Valid() && NumbersOk(table.loops) && ForestOk(g, Renumbered(table.loops)) && HeadersReached(g, table.loops)
    && |table.loopId| == |g.succ|
    && forall b: nat | b < |table.loopId| ::
         table.loopId[b] == if b in g.blocks then Innermost(table.loops, b) else UNDEF
  }

  /** A loop at its place in the forest. */
  lemma AtPlace(g: Graph, table: LoopTable, q: nat) returns (outer: Graph)
    requires Identified(g, table) && q < |table.loops|
    ensures Component(outer, table.loops[q].root, table.loops[q].nodes) && |table.loops[q].nodes| >= 2
    ensures forall a: nat, b: nat :: outer.Edge(a, b) ==> g.Edge(a, b)
    ensures Inside(g, table.loops[q].nodes)
  {
    var ren := Renumbered(table.loops);
    assert RecordOk(g, ren, q);
    outer := Around(g, ren, q);
    forall a: nat, b: nat
      ensures outer.Edge(a, b) ==> g.Edge(a, b)
    {
      if !ren[q].outside {
        InnerEdges(g, ren[ren[q].parent].nodes, ren[ren[q].parent].root, a, b);
      }
    }
  }

  /** Every block of a loop has a predecessor in the loop. */
  lemma PredInside(g: Graph, table: LoopTable, q: nat, b: nat) returns (u: nat)
    requires Identified(g, table) && q < |table.loops| && b in table.loops[q].nodes
    ensures u in table.loops[q].nodes && g.Edge(u, b) && u in g.pred[b] && u in g.blocks && b in g.blocks
  {
    var l := table.loops[q];
    var outer := AtPlace(g, table, q);
    var w := if l.nodes[0] == b then l.nodes[1] else l.nodes[0];
    assert w in l.nodes && w != b;
    MutualThrough(outer, w, l.root, b);
    var p :| outer.IsPathBetween(p, w, b);
    PathInComponent(outer, l.root, l.nodes, p, |p| - 2);
    u := p[|p| - 2];
    assert outer.Edge(p[|p| - 2], p[|p| - 2 + 1]);
    assert g.Edge(u, b);
    var i :| 0 <= i < |g.succ[u]| && g.succ[u][i] == b;
  }

  /** The loop that a block's number names is the last one that contains it. */
  lemma LoopOfBlock(g: Graph, table: LoopTable, b: nat) returns (q: nat)
    requires Identified(g, table) && b < |table.loopId| && table.loopId[b] != UNDEF
    ensures q < |table.loops| && table.loops[q].id == table.loopId[b] && b in table.loops[q].nodes && b in g.blocks
    ensures table.Has(table.loopId[b]) && table.Get(table.loopId[b]) == table.loops[q]
  {
    var loops := table.loops;
    InnermostIsLastWith(loops, b, |loops|);
    LastWithHas(loops, b, |loops|);
    assert loops[..|loops|] == loops;
    q := LastWith(loops, b, |loops|);
    assert loops[q].id == table.loopId[b];
    SameLoop(loops, q);
  }

  lemma {:induction false} LastWithHas(loops: seq<Loop>, v: nat, n: nat)
    requires n <= |loops|
    ensures var q := LastWith(loops, v, n); q == UNDEF || (0 <= q < n && v in loops[q].nodes)
    ensures LastWith(loops, v, n) == UNDEF ==> forall i | 0 <= i < n :: v !in loops[i].nodes
  {
    if n > 0 {
      LastWithHas(loops, v, n - 1);
    }
  }

  lemma {:induction false} SameLoop(loops: seq<Loop>, q: nat)
    requires q < |loops| && forall i, j | 0 <= i < j < |loops| :: loops[i].id < loops[j].id
    ensures FirstWithId(loops, loops[q].id) == loops[q]
  {
    if q > 0 {
      SameLoop(loops[1..], q - 1);
    }
  }

  lemma TableIsValid(g: Graph, table: LoopTable)
    requires Identified(g, table)
    ensures table.Valid(g)
  {
    forall b: nat | b < |table.loopId|
      ensures table.loopId[b] == UNDEF || table.Has(table.loopId[b])
    {
      if table.loopId[b] != UNDEF {
        var q := LoopOfBlock(g, table, b);
      }
    }
    forall i: nat | i < |table.loops|
      ensures table.loops[i].root in table.loops[i].nodes
      ensures table.loops[i].parent == UNDEF || table.Has(table.loops[i].parent)
    {
      var outer := AtPlace(g, table, i);
      assert table.loops[i].parent == UNDEF || HasId(table.loops, table.loops[i].parent);
    }
  }

  /** If the entry has no predecessors and reaches every block, every header has a predecessor outside its loop and one
      inside, as the analysis asserts. */
  lemma HeadersAreEntered(g: Graph, table: LoopTable)
    requires Identified(g, table) && RootReachesAll(g) && g.pred[g.root] == []
    ensures table.Valid(g) && table.HeadersEntered(g)
  {
    TableIsValid(g, table);
    forall b | b in g.blocks && table.IsHeader(b)
      ensures table.OutsidePreds(g, b) != [] && table.InLoopPreds(g, b) != []
    {
      HeaderIsEntered(g, table, b);
    }
  }

  lemma HeaderIsEntered(g: Graph, table: LoopTable, b: nat)
    requires Identified(g, table) && RootReachesAll(g) && g.pred[g.root] == [] && table.Valid(g)
    requires b in g.blocks && table.IsHeader(b)
    ensures table.OutsidePreds(g, b) != [] && table.InLoopPreds(g, b) != []
  {
    var q := LoopOfBlock(g, table, b);
    var l := table.loops[q];
    var u := PredInside(g, table, q, b);
    assert b != g.root;
    assert Reached(g, l);
    var v: nat :| g.Edge(v, l.root) && v !in l.nodes;
    WithoutMembers(g.pred[b], l.nodes);
    assert v in table.OutsidePreds(g, b);
    assert u in table.InLoopPreds(g, b);
  }

  /** No block inside a loop is only entered from outside every loop, so the classification never aborts. */
  lemma NoneEnteredAside(g: Graph, table: LoopTable, b: nat)
    requires Identified(g, table) && table.Valid(g) && b in g.blocks
    ensures !Classification.EnteredAside(g, table, b)
  {
    if table.loopId[b] != UNDEF {
      var q := LoopOfBlock(g, table, b);
      var u := PredInside(g, table, q, b);
      InnermostIsLastWith(table.loops, u, |table.loops|);
      LastWithHas(table.loops, u, |table.loops|);
      assert table.loops[..|table.loops|] == table.loops;
      assert table.loopId[u] != UNDEF;
      assert |g.pred[b]| == 1 ==> g.pred[b][0] == u;
    }
  }

  /** Inside every loop all blocks reach each other, as the exact results on first misses ask. */
  lemma LoopsAreConnected(g: Graph, table: LoopTable, q: nat)
    requires Identified(g, table) && q < |table.loops|
    ensures FirstMisses.Connected(g, table.loops[q].nodes)
  {
    var l := table.loops[q];
    var outer := AtPlace(g, table, q);
    forall a, b | a in l.nodes && b in l.nodes
      ensures FirstMisses.ReachesInside(g, l.nodes, a, b)
    {
      MutualThrough(outer, a, l.root, b);
      var p :| outer.IsPathBetween(p, a, b);
      forall i | 0 <= i < |p|
        ensures p[i] in l.nodes && p[i] in g.blocks
      {
        PathInComponent(outer, l.root, l.nodes, p, i);
        var k :| 0 <= k < |l.nodes| && l.nodes[k] == p[i];
      }
      forall i | 0 <= i < |p| - 1
        ensures g.Edge(p[i], p[i + 1])
      {
        assert outer.Edge(p[i], p[i + 1]);
      }
      assert g.IsPathBetween(p, a, b) && FirstMisses.Inside(p, 0, |p| - 1, l.nodes);
    }
  }

  // ---------------------------------------------------------------- the must search terminates

  /** The must search goes from `b` to `a`. */
  ghost predicate Followed(g: Graph, table: LoopTable, a: nat, b: nat)
    requires table.Valid(g) && table.HeadersEntered(g)
  {
    b in g.blocks && a in g.pred[b] && a != b && (table.IsHeader(b) ==> a == table.MainPred(g, b))
  }

  ghost function FollowedOf(g: Graph, table: LoopTable, a: nat, s: seq<nat>): seq<nat>
    requires table.Valid(g) && table.HeadersEntered(g)
  {
    if s == [] then []
    else FollowedOf(g, table, a, s[..|s| - 1]) + if Followed(g, table, a, Graphs.Last(s)) then [Graphs.Last(s)] else []
  }

  lemma {:induction false} FollowedMembers(g: Graph, table: LoopTable, a: nat, s: seq<nat>)
    requires table.Valid(g) && table.HeadersEntered(g)
    ensures forall x: nat :: x in FollowedOf(g, table, a, s) <==> x in s && Followed(g, table, a, x)
  {
    if s != [] {
      FollowedMembers(g, table, a, s[..|s| - 1]);
      assert s == s[..|s| - 1] + [Graphs.Last(s)];
    }
  }

  /** The graph of the edges that the search follows. */
  ghost function FollowedGraph(g: Graph, table: LoopTable): (h: Graph)
    requires table.Valid(g) && table.HeadersEntered(g)
    ensures h.blocks == g.blocks && |h.succ| == |g.succ|
  {
    Graph(g.blocks, g.root, seq(|g.succ|, (a: nat) requires a < |g.succ| => FollowedOf(g, table, a, g.succ[a])), [])
  }

  lemma FollowedEdges(g: Graph, table: LoopTable, a: nat, b: nat)
    requires table.Valid(g) && table.HeadersEntered(g)
    ensures FollowedGraph(g, table).Edge(a, b) <==> Followed(g, table, a, b)
    ensures Followed(g, table, a, b) ==> g.Edge(a, b) && a in g.blocks
  {
    if a < |g.succ| {
      FollowedMembers(g, table, a, g.succ[a]);
    }
    if Followed(g, table, a, b) {
      assert g.Edge(a, b);
      var i :| 0 <= i < |g.pred[b]| && g.pred[b][i] == a;
    }
  }

  lemma FollowedIsValid(g: Graph, table: LoopTable)
    requires table.Valid(g) && table.HeadersEntered(g)
    ensures FollowedGraph(g, table).SuccValid()
  {
    var h := FollowedGraph(g, table);
    forall b: nat, i | b < |h.succ| && 0 <= i < |h.succ[b]|
      ensures h.succ[b][i] in h.blocks && b in h.blocks
    {
      assert h.Edge(b, h.succ[b][i]);
      FollowedEdges(g, table, b, h.succ[b][i]);
    }
  }

  /** All blocks that reach `a` over followed edges and back lie in loop `q`. */
  ghost predicate RoundsInside(g: Graph, table: LoopTable, a: nat, q: nat)
    requires table.Valid(g) && table.HeadersEntered(g) && q < |table.loops|
  {
    forall x: nat | Mutual(FollowedGraph(g, table), a, x) :: x in table.loops[q].nodes
  }

  /** The root of a loop is a header, and the search enters it from outside. */
  lemma RootEnteredOutside(g: Graph, table: LoopTable, q: nat, u: nat)
    requires Identified(g, table) && table.Valid(g) && table.HeadersEntered(g) && q < |table.loops|
    requires Followed(g, table, u, table.loops[q].root)
    ensures u !in table.loops[q].nodes
  {
    var r := table.loops[q].root;
    var outer := AtPlace(g, table, q);
    assert r in table.loops[q].nodes;
    InnermostIsLastWith(table.loops, r, |table.loops|);
    LastWithLater(table.loops, r, |table.loops|, q);
    assert table.loops[..|table.loops|] == table.loops;
    var m := LoopOfBlock(g, table, r);
    RootIsInnermost(g, table, q, m);
  }

  /** The last loop with the root of loop `q` is loop `q`. */
  lemma RootIsInnermost(g: Graph, table: LoopTable, q: nat, m: nat)
    requires Identified(g, table) && q < |table.loops| && m < |table.loops|
    requires table.loops[q].root in table.loops[q].nodes && table.loops[q].root in g.blocks
    requires table.loopId[table.loops[q].root] == table.loops[m].id
    ensures m == q
  {
    var loops, ren, r := table.loops, Renumbered(table.loops), table.loops[q].root;
    InnermostIsLastWith(loops, r, |loops|);
    assert loops[..|loops|] == loops;
    LastWithLater(loops, r, |loops|, q);
    LastWithHas(loops, r, |loops|);
    var n := LastWith(loops, r, |loops|);
    assert loops[n].id == loops[m].id;
    assert n == m;
    assert q < m ==> Disjoint(ren[q].nodes, ren[m].nodes) || InBody(ren[q], ren[m].nodes);
  }

  lemma {:induction false} LastWithLater(loops: seq<Loop>, v: nat, n: nat, q: nat)
    requires q < n <= |loops| && v in loops[q].nodes
    ensures LastWith(loops, v, n) >= q
  {
    if v !in loops[n - 1].nodes {
      LastWithLater(loops, v, n - 1, q);
    }
  }

  /** A round over followed edges through `r` comes to it from another block of the round. */
  lemma RoundComesFrom(g: Graph, table: LoopTable, a: nat, b: nat, r: nat) returns (u: nat)
    requires table.Valid(g) && table.HeadersEntered(g)
    requires a != b && Mutual(FollowedGraph(g, table), a, b) && Mutual(FollowedGraph(g, table), a, r)
    ensures Followed(g, table, u, r) && Mutual(FollowedGraph(g, table), a, u)
  {
    var h := FollowedGraph(g, table);
    var w := if a == r then b else a;
    var p :| h.IsPathBetween(p, w, r);
    u := p[|p| - 2];
    assert h.Edge(p[|p| - 2], p[|p| - 2 + 1]);
    FollowedEdges(g, table, u, r);
    if a != r {
      OnTheRound(h, a, r, p, |p| - 2);
    } else {
      OnTheRound(h, w, r, p, |p| - 2);
      MutualThrough(h, a, w, u);
    }
  }

  /** A round over followed edges inside a loop does not pass the loop's root. */
  lemma RoundAvoidsRoot(g: Graph, table: LoopTable, q: nat, a: nat, b: nat)
    requires Identified(g, table) && table.Valid(g) && table.HeadersEntered(g) && q < |table.loops|
    requires a != b && Mutual(FollowedGraph(g, table), a, b) && RoundsInside(g, table, a, q)
    ensures !Mutual(FollowedGraph(g, table), a, table.loops[q].root)
  {
    if Mutual(FollowedGraph(g, table), a, table.loops[q].root) {
      var u := RoundComesFrom(g, table, a, b, table.loops[q].root);
      RootEnteredOutside(g, table, q, u);
    }
  }

  /** So it is a round of the loop's body. */
  lemma RoundInBody(g: Graph, table: LoopTable, q: nat, a: nat, x: nat, y: nat)
    requires table.Valid(g) && table.HeadersEntered(g) && q < |table.loops| && RoundsInside(g, table, a, q)
    requires !Mutual(FollowedGraph(g, table), a, table.loops[q].root)
    requires Mutual(FollowedGraph(g, table), a, x) && Mutual(FollowedGraph(g, table), x, y)
    ensures Inner(g, table.loops[q].nodes, table.loops[q].root).Reaches(x, y)
  {
    var h, l := FollowedGraph(g, table), table.loops[q];
    var p :| h.IsPathBetween(p, x, y);
    forall i | 0 <= i < |p|
      ensures p[i] in l.nodes && p[i] != l.root
    {
      OnTheRound(h, x, y, p, i);
      MutualThrough(h, a, x, p[i]);
    }
    forall i | 0 <= i < |p| - 1
      ensures Inner(g, l.nodes, l.root).Edge(p[i], p[i + 1])
    {
      assert h.Edge(p[i], p[i + 1]);
      FollowedEdges(g, table, p[i], p[i + 1]);
      InnerEdges(g, l.nodes, l.root, p[i], p[i + 1]);
    }
    assert Inner(g, l.nodes, l.root).IsPathBetween(p, x, y);
  }

  /** Nothing inside a loop comes round over followed edges: a round would lie in ever smaller loops. */
  lemma {:induction false} NoRoundInside(g: Graph, table: LoopTable, q: nat, a: nat, b: nat)
    requires Identified(g, table) && table.Valid(g) && table.HeadersEntered(g) && q < |table.loops|
    requires RoundsInside(g, table, a, q)
    ensures Mutual(FollowedGraph(g, table), a, b) ==> a == b
    decreases |table.loops| - q
  {
    if a != b && Mutual(FollowedGraph(g, table), a, b) {
      RoundAvoidsRoot(g, table, q, a, b);
      var j := SmallerLoop(g, table, q, a, b);
      NoRoundInside(g, table, j, a, b);
    }
  }

  lemma SmallerLoop(g: Graph, table: LoopTable, q: nat, a: nat, b: nat) returns (j: nat)
    requires Identified(g, table) && table.Valid(g) && table.HeadersEntered(g) && q < |table.loops|
    requires RoundsInside(g, table, a, q) && !Mutual(FollowedGraph(g, table), a, table.loops[q].root)
    requires a != b && Mutual(FollowedGraph(g, table), a, b)
    ensures q < j < |table.loops| && RoundsInside(g, table, a, j)
  {
    var h, ren, l := FollowedGraph(g, table), Renumbered(table.loops), table.loops[q];
    var inner := Inner(g, l.nodes, l.root);
    forall x: nat | Mutual(h, a, x)
      ensures Mutual(inner, a, x)
    {
      ReachesTransitively(h, a, x, a);
      RoundInBody(g, table, q, a, a, x);
      RoundInBody(g, table, q, a, x, a);
    }
    assert Mutual(inner, a, b) && ren[q].nodes == l.nodes && ren[q].root == l.root;
    assert InLoopWithParent(ren, a, q);
    j :| j < |ren| && ren[j].parent == q && a in ren[j].nodes;
    assert RecordOk(g, ren, j);
    forall x: nat | Mutual(h, a, x)
      ensures x in table.loops[j].nodes
    {
      MutualThrough(inner, ren[j].root, a, x);
    }
  }

  /** The edges that the search follows make no round at all. */
  lemma NoRound(g: Graph, table: LoopTable, a: nat, b: nat)
    requires Identified(g, table) && table.Valid(g) && table.HeadersEntered(g)
    ensures Mutual(FollowedGraph(g, table), a, b) ==> a == b
  {
    var h, ren := FollowedGraph(g, table), Renumbered(table.loops);
    if a != b && Mutual(h, a, b) {
      forall x: nat | Mutual(h, a, x)
        ensures Mutual(g, a, x)
      {
        FollowedReaches(g, table, a, x);
        FollowedReaches(g, table, x, a);
      }
      var p :| h.IsPathBetween(p, a, b);
      assert p[0] in g.blocks;
      assert InLoopWithParent(ren, a, UNDEF);
      var j: nat :| j < |ren| && ren[j].parent == UNDEF && a in ren[j].nodes;
      assert RecordOk(g, ren, j);
      forall x: nat | Mutual(h, a, x)
        ensures x in table.loops[j].nodes
      {
        MutualThrough(g, ren[j].root, a, x);
      }
      NoRoundInside(g, table, j, a, b);
    }
  }

  lemma FollowedReaches(g: Graph, table: LoopTable, a: nat, b: nat)
    requires table.Valid(g) && table.HeadersEntered(g) && FollowedGraph(g, table).Reaches(a, b)
    ensures g.Reaches(a, b)
  {
    var h := FollowedGraph(g, table);
    var p :| h.IsPathBetween(p, a, b);
    forall i | 0 <= i < |p| - 1
      ensures g.Edge(p[i], p[i + 1])
    {
      assert h.Edge(p[i], p[i + 1]);
      FollowedEdges(g, table, p[i], p[i + 1]);
    }
    assert g.IsPathBetween(p, a, b);
  }

  /** The number of blocks behind each block over followed edges. */
  ghost function Ranks(g: Graph, table: LoopTable): seq<nat>
    requires table.Valid(g) && table.HeadersEntered(g)
  {
    LoopFreeGraphs.AncestorCounts(FollowedGraph(g, table))
  }

  /** On every table that the loop search leaves the must search terminates, whether loops are entered at their headers
      only or not. */
  lemma TableIsSearchable(g: Graph, table: LoopTable)
    requires Identified(g, table) && table.Valid(g) && table.HeadersEntered(g)
    ensures Searchable(g, table, Ranks(g, table))
  {
    var h := FollowedGraph(g, table);
    FollowedIsValid(g, table);
    forall b, a: nat | b in g.blocks && a in g.pred[b] && a != b && (table.IsHeader(b) ==> a == table.MainPred(g, b))
      ensures Ranks(g, table)[a] < Ranks(g, table)[b]
    {
      assert Followed(g, table, a, b);
      FollowedEdges(g, table, a, b);
      NoRound(g, table, a, b);
      LoopFreeGraphs.FewerAncestors(h, a, b);
    }
  }

  /** Whatever the loop search leaves serves the analysis: it ends, and no assertion of the classification fails. */
  lemma TableServes(g: Graph, table: LoopTable)
    requires Identified(g, table) && RootReachesAll(g) && g.pred[g.root] == []
    ensures table.Valid(g) && table.HeadersEntered(g) && Searchable(g, table, Ranks(g, table))
    ensures forall b | b in g.blocks :: !Classification.EnteredAside(g, table, b)
  {
    HeadersAreEntered(g, table);
    TableIsSearchable(g, table);
    forall b | b in g.blocks
      ensures !Classification.EnteredAside(g, table, b)
    {
      NoneEnteredAside(g, table, b);
    }
  }
}
