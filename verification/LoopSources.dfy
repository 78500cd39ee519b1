/** When the search for loops ends, read off the program and its forest of loops: it depends on which sources of edges to a
    header reach each other inside the loop. */
module LoopSources {
  import opened Graphs
  import opened Loops
  import opened Components
  import opened Tarjan
  import opened LoopBodies
  import opened LoopNesting
  import opened LoopOrder
  import opened LoopForest
  import opened LoopSearch
  import opened LoopIdentification

  /** The loop is entered at its header only. */
  ghost predicate EnteredAtHeader(g: Graph, l: Loop) {
    && (forall u: nat, v: nat | g.Edge(u, v) && u !in l.nodes && v in l.nodes :: v == l.root)
    && (g.root in l.nodes ==> g.root == l.root)
  }

  /** A block of the loop with an edge to the header. */
  ghost predicate Source(g: Graph, l: Loop, t: nat) {
    t in l.nodes && t != l.root && g.Edge(t, l.root)
  }

  /** Without the header no source reaches another one, and each has one edge to the header. */
  ghost predicate SourcesApart(g: Graph, l: Loop) {
    forall t: nat, u: nat | Source(g, l, t) && Source(g, l, u) && Inner(g, l.nodes, l.root).Reaches(t, u) ::
      t == u && multiset(g.succ[t])[l.root] == 1
  }

  /** The setting: a program whose blocks are all reached, and its loops, entered at their headers. */
  ghost predicate Program(g: Graph, forest: seq<Loop>) {
    && g.Valid() && RootReachesAll(g) && ForestOk(g, forest)
    && forall q: nat | q < |forest| :: EnteredAtHeader(g, forest[q])
  }

  // ---------------------------------------------------------------- what the search finds, in the forest

  /** `l` is what is left of loop `q`: it has its header, and holds with a block all that reach it and back inside. */
  ghost predicate PartOfLoop(g: Graph, forest: seq<Loop>, l: Loop, q: nat) {
    && q < |forest| && l.root == forest[q].root && (forall v: nat | v in l.nodes :: v in forest[q].nodes)
    && forall v: nat, w: nat | v in l.nodes && Mutual(Inner(g, forest[q].nodes, forest[q].root), v, w) :: w in l.nodes
  }

  /** Blocks that reach each other in the body of loop `q` do so in the copy of what is left of it. */
  lemma MutualInCopy(g: Graph, forest: seq<Loop>, l: Loop, q: nat, v: nat, w: nat)
    requires PartOfLoop(g, forest, l, q) && v in l.nodes && Mutual(Inner(g, forest[q].nodes, forest[q].root), v, w)
    ensures Mutual(BodyOf(g, l), v, w)
  {
    ReachInCopy(g, forest, l, q, v, w);
    ReachInCopy(g, forest, l, q, w, v);
  }

  lemma ReachInCopy(g: Graph, forest: seq<Loop>, l: Loop, q: nat, v: nat, w: nat)
    requires PartOfLoop(g, forest, l, q) && v in l.nodes && Mutual(Inner(g, forest[q].nodes, forest[q].root), v, w)
    ensures BodyOf(g, l).Reaches(v, w)
  {
    var inner, part := Inner(g, forest[q].nodes, forest[q].root), Inner(g, l.nodes, l.root);
    var p :| inner.IsPathBetween(p, v, w);
    forall i | 0 <= i < |p|
      ensures p[i] in l.nodes
    {
      OnTheRound(inner, v, w, p, i);
    }
    forall i | 0 <= i < |p| - 1
      ensures part.Edge(p[i], p[i + 1])
    {
      assert inner.Edge(p[i], p[i + 1]);
      InnerEdges(g, forest[q].nodes, forest[q].root, p[i], p[i + 1]);
      InnerEdges(g, l.nodes, l.root, p[i], p[i + 1]);
    }
    assert part.IsPathBetween(p, v, w);
    InnerInCopy(g, l, v, w);
  }

  /** A component of the copy without the header lies in the body. */
  lemma MutualInBody(g: Graph, forest: seq<Loop>, l: Loop, q: nat, c: Loop, w: nat)
    requires PartOfLoop(g, forest, l, q) && Component(BodyOf(g, l), c.root, c.nodes) && l.root !in c.nodes && w in c.nodes
    ensures Mutual(Inner(g, forest[q].nodes, forest[q].root), c.root, w)
  {
    ReachInBody(g, forest, l, q, c, c.root, w);
    ReachInBody(g, forest, l, q, c, w, c.root);
  }

  lemma ReachInBody(g: Graph, forest: seq<Loop>, l: Loop, q: nat, c: Loop, v: nat, w: nat)
    requires PartOfLoop(g, forest, l, q) && Component(BodyOf(g, l), c.root, c.nodes) && l.root !in c.nodes
    requires v in c.nodes && w in c.nodes && BodyOf(g, l).Reaches(v, w)
    ensures Inner(g, forest[q].nodes, forest[q].root).Reaches(v, w)
  {
    var body, inner := BodyOf(g, l), Inner(g, forest[q].nodes, forest[q].root);
    var p :| body.IsPathBetween(p, v, w);
    forall i | 0 <= i < |p|
      ensures p[i] in c.nodes && p[i] in forest[q].nodes
    {
      PathInComponent(body, c.root, c.nodes, p, i);
    }
    forall i | 0 <= i < |p| - 1
      ensures inner.Edge(p[i], p[i + 1])
    {
      assert body.Edge(p[i], p[i + 1]);
      CopyEdges(g, l.nodes, l.root, p[i], p[i + 1]);
      InnerEdges(g, forest[q].nodes, forest[q].root, p[i], p[i + 1]);
    }
    assert inner.IsPathBetween(p, v, w);
  }

  /** A loop found in the copy that holds the header again. */
  lemma SameAgain(g: Graph, forest: seq<Loop>, l: Loop, q: nat, c: Loop)
    requires PartOfLoop(g, forest, l, q) && Component(BodyOf(g, l), c.root, c.nodes) && Under(l, c) && l.root in c.nodes
    ensures PartOfLoop(g, forest, c, q)
  {
    forall v: nat, w: nat | v in c.nodes && Mutual(Inner(g, forest[q].nodes, forest[q].root), v, w)
      ensures w in c.nodes
    {
      MutualInCopy(g, forest, l, q, v, w);
      var body := BodyOf(g, l);
      ReachesTransitively(body, c.root, v, w);
      ReachesTransitively(body, w, v, c.root);
    }
  }

  /** One without the header is a loop of the forest inside loop `q`. */
  lemma ChildFound(g: Graph, forest: seq<Loop>, l: Loop, q: nat, c: Loop) returns (j: nat)
    requires Program(g, forest) && PartOfLoop(g, forest, l, q)
    requires Component(BodyOf(g, l), c.root, c.nodes) && Under(l, c) && l.root !in c.nodes && |c.nodes| >= 2
    requires Reached(BodyOf(g, l), c)
    ensures PartOfLoop(g, forest, c, j) && forest[j].parent == q
  {
    var inner := Inner(g, forest[q].nodes, forest[q].root);
    var w := if c.nodes[0] == c.root then c.nodes[1] else c.nodes[0];
    assert w in c.nodes && w != c.root;
    MutualInBody(g, forest, l, q, c, w);
    assert InLoopWithParent(forest, c.root, q);
    j :| j < |forest| && forest[j].parent == q && c.root in forest[j].nodes;
    assert RecordOk(g, forest, j);
    forall v: nat
      ensures v in c.nodes <==> v in forest[j].nodes
    {
      SameMembers(g, forest, l, q, c, j, v);
    }
    SameRoot(g, forest, l, c, j);
    WholeLoop(g, forest, c, j);
  }

  lemma SameMembers(g: Graph, forest: seq<Loop>, l: Loop, q: nat, c: Loop, j: nat, v: nat)
    requires PartOfLoop(g, forest, l, q) && Component(BodyOf(g, l), c.root, c.nodes) && Under(l, c) && l.root !in c.nodes
    requires j < |forest| && forest[j].parent == q && RecordOk(g, forest, j) && c.root in forest[j].nodes
    ensures v in c.nodes <==> v in forest[j].nodes
  {
    var inner := Inner(g, forest[q].nodes, forest[q].root);
    if v in c.nodes {
      MutualInBody(g, forest, l, q, c, v);
      MutualThrough(inner, forest[j].root, c.root, v);
      ReachesTransitively(inner, forest[j].root, c.root, v);
      ReachesTransitively(inner, v, c.root, forest[j].root);
    }
    if v in forest[j].nodes {
      MutualThrough(inner, c.root, forest[j].root, v);
      MutualInCopy(g, forest, l, q, c.root, v);
    }
  }

  /** Where the search enters a loop of the forest, there its header is. */
  lemma SameRoot(g: Graph, forest: seq<Loop>, l: Loop, c: Loop, j: nat)
    requires j < |forest| && EnteredAtHeader(g, forest[j]) && Reached(BodyOf(g, l), c) && l.root !in c.nodes
    requires c.root in c.nodes && forall v: nat :: v in c.nodes <==> v in forest[j].nodes
    ensures c.root == forest[j].root
  {
    var u: nat :| BodyOf(g, l).Edge(u, c.root) && u !in c.nodes;
    CopyEdges(g, l.nodes, l.root, u, c.root);
  }

  lemma WholeLoop(g: Graph, forest: seq<Loop>, c: Loop, j: nat)
    requires j < |forest| && c.root == forest[j].root && forall v: nat :: v in c.nodes <==> v in forest[j].nodes
    ensures PartOfLoop(g, forest, c, j)
  {
    forall v: nat, w: nat | v in c.nodes && Mutual(Inner(g, forest[j].nodes, forest[j].root), v, w)
      ensures w in c.nodes
    {
      var p :| Inner(g, forest[j].nodes, forest[j].root).IsPathBetween(p, v, w);
      assert p[|p| - 1] in forest[j].nodes;
    }
  }

  /** A loop of the whole program is a loop of the forest. */
  lemma OuterFound(g: Graph, forest: seq<Loop>, l: Loop) returns (j: nat)
    requires Program(g, forest) && Component(g, l.root, l.nodes) && |l.nodes| >= 2 && Reached(g, l)
    ensures PartOfLoop(g, forest, l, j)
  {
    var w := if l.nodes[0] == l.root then l.nodes[1] else l.nodes[0];
    assert w in l.nodes && w != l.root;
    var p :| g.IsPathBetween(p, l.root, w);
    assert p[0] in g.blocks && InLoopWithParent(forest, l.root, UNDEF);
    j :| j < |forest| && forest[j].parent == UNDEF && l.root in forest[j].nodes;
    assert RecordOk(g, forest, j);
    forall v: nat
      ensures v in l.nodes <==> v in forest[j].nodes
    {
      if v in l.nodes {
        ReachesTransitively(g, forest[j].root, l.root, v);
        ReachesTransitively(g, v, l.root, forest[j].root);
      }
      if v in forest[j].nodes {
        MutualThrough(g, l.root, forest[j].root, v);
      }
    }
    if l.root != g.root {
      var u: nat :| g.Edge(u, l.root) && u !in l.nodes;
    }
    WholeLoop(g, forest, l, j);
  }

  /** Every loop that the search finds is part of a loop of the forest and has its header. */
  lemma {:induction false} FoundInForest(g: Graph, forest: seq<Loop>, loops: seq<Loop>, k: nat, i: nat) returns (q: nat)
    requires Program(g, forest) && AllFound(g, loops, k) && i < |loops|
    ensures PartOfLoop(g, forest, loops[i], q)
    decreases i
  {
    assert FoundOk(g, loops, k, i);
    if loops[i].outside {
      q := OuterFound(g, forest, loops[i]);
    } else {
      var up := loops[i].parent;
      q := FoundInForest(g, forest, loops, k, up);
      assert FoundOk(g, loops, k, up);
      IsLoopOf(g, loops, k, up);
      BodyReached(g, FoundIn(g, loops, up), loops[up]);
      if loops[up].root in loops[i].nodes {
        SameAgain(g, forest, loops[up], q, loops[i]);
      } else {
        q := ChildFound(g, forest, loops[up], q, loops[i]);
      }
    }
  }

  // ---------------------------------------------------------------- sources apart

  /** Where a path from a source to the header comes to it first. */
  lemma {:induction false} FirstToHeader(h: Graph, p: seq<nat>, root: nat) returns (n: nat)
    requires h.IsPath(p) && p[0] != root && Last(p) == root
    ensures 0 < n < |p| && p[n] == root && forall i | 0 <= i < n :: p[i] != root
    decreases |p|
  {
    n := |p| - 1;
    if m: nat :| 0 < m < n && p[m] == root {
      PathPrefix(h, p, m + 1);
      n := FirstToHeader(h, p[..m + 1], root);
    }
  }

  /** The source whose edge is dropped does not reach the header in the copy. */
  lemma ApartDoesNotStay(g: Graph, forest: seq<Loop>, outer: Graph, l: Loop, q: nat)
    requires LoopOf(g, outer, l) && InOrder(g, l) && PartOfLoop(g, forest, l, q) && SourcesApart(g, forest[q])
    ensures !StaysConnected(g, l)
  {
    var body, tail := BodyOf(g, l), TailOf(g, l.nodes, l.root);
    StaysExactly(g, outer, l);
    BodyReached(g, outer, l);
    TailIsSource(g, outer, l);
    if body.Reaches(tail, l.root) {
      var u := SourceReached(g, forest, l, q, tail);
      assert Source(g, forest[q], tail) && Source(g, forest[q], u);
      DroppedEdge(g, l.nodes, l.root, tail, body);
    }
  }

  /** A block that reaches the header in the copy reaches a source whose edge is left. */
  lemma SourceReached(g: Graph, forest: seq<Loop>, l: Loop, q: nat, t: nat) returns (u: nat)
    requires PartOfLoop(g, forest, l, q) && t != l.root && BodyOf(g, l).Reaches(t, l.root)
    ensures Source(g, l, u) && BodyOf(g, l).Edge(u, l.root) && Inner(g, forest[q].nodes, forest[q].root).Reaches(t, u)
  {
    var body := BodyOf(g, l);
    var p :| body.IsPathBetween(p, t, l.root);
    var n := FirstToHeader(body, p, l.root);
    u := p[n - 1];
    assert body.Edge(p[n - 1], p[n - 1 + 1]);
    CopyEdges(g, l.nodes, l.root, u, l.root);
    InBodyUpTo(g, forest, l, q, p, n);
  }

  lemma InBodyUpTo(g: Graph, forest: seq<Loop>, l: Loop, q: nat, p: seq<nat>, n: nat)
    requires PartOfLoop(g, forest, l, q) && BodyOf(g, l).IsPath(p) && 0 < n <= |p| && forall i | 0 <= i < n :: p[i] != l.root
    ensures Inner(g, forest[q].nodes, forest[q].root).Reaches(p[0], p[n - 1])
  {
    var inner := Inner(g, forest[q].nodes, forest[q].root);
    forall i | 0 <= i < n - 1
      ensures inner.Edge(p[i], p[i + 1])
    {
      assert BodyOf(g, l).Edge(p[i], p[i + 1]);
      CopyEdges(g, l.nodes, l.root, p[i], p[i + 1]);
      InnerEdges(g, forest[q].nodes, forest[q].root, p[i], p[i + 1]);
    }
    assert inner.IsPathBetween(p[..n], p[0], p[n - 1]);
  }

  /** The dropped edge starts at another block than the header, which is listed last. */
  lemma TailIsSource(g: Graph, outer: Graph, l: Loop)
    requires LoopOf(g, outer, l) && InOrder(g, l) && NoDuplicates(l.nodes)
    ensures Source(g, l, TailOf(g, l.nodes, l.root))
  {
    assert l.nodes[0] in l.nodes && l.nodes[0] != l.nodes[|l.nodes| - 1];
    var p :| outer.IsPathBetween(p, l.nodes[0], l.root);
    var n := FirstToHeader(outer, p, l.root);
    PathInComponent(outer, l.root, l.nodes, p, n - 1);
    assert outer.Edge(p[n - 1], p[n - 1 + 1]);
    TailBeforeLast(g, l.nodes, l.root, p[n - 1]);
  }

  lemma {:induction false} TailBeforeLast(g: Graph, nodes: seq<nat>, root: nat, u: nat)
    requires NoDuplicates(nodes) && u in nodes && u != root && g.Edge(u, root) && Last(nodes) == root
    ensures TailOf(g, nodes, root) in nodes && TailOf(g, nodes, root) != root && g.Edge(TailOf(g, nodes, root), root)
  {
    if g.Edge(nodes[0], root) {
      assert |nodes| > 1 && nodes[0] != nodes[|nodes| - 1];
    } else {
      assert u in nodes[1..];
      TailBeforeLast(g, nodes[1..], root, u);
    }
  }

  /** The search ends if in every loop of the forest the sources are apart. */
  lemma ApartEnds(g: Graph, forest: seq<Loop>)
    requires Program(g, forest) && forall q: nat | q < |forest| :: SourcesApart(g, forest[q])
    ensures NoneStaysConnected(g)
  {
    forall lists, l | SearchRun(g, lists) && ComesTo(lists, l)
      ensures !StaysConnected(g, l)
    {
      var k: nat := |lists| - 1;
      RunKeepsSearch(g, lists, k);
      var q := FoundInForest(g, forest, lists[k], k, k);
      assert FoundOk(g, lists[k], k, k);
      IsLoopOf(g, lists[k], k, k);
      ApartDoesNotStay(g, forest, FoundIn(g, lists[k], k), l, q);
    }
  }

  /** So it ends if every header has one predecessor inside its loop, with one edge. */
  lemma OneBackEdgeEnds(g: Graph, forest: seq<Loop>)
    requires Program(g, forest)
    requires forall q: nat, t: nat, u: nat | q < |forest| && Source(g, forest[q], t) && Source(g, forest[q], u) ::
               t == u && multiset(g.succ[t])[forest[q].root] == 1
    ensures NoneStaysConnected(g)
  {
    forall q: nat | q < |forest|
      ensures SourcesApart(g, forest[q])
    {
    }
    ApartEnds(g, forest);
  }

  // ---------------------------------------------------------------- sources that cross

  /** Two sources of the loop reach each other without the header, or one has several edges to it. */
  ghost predicate SourcesCross(g: Graph, l: Loop, t: nat, u: nat) {
    && Source(g, l, t) && Source(g, l, u) && Mutual(Inner(g, l.nodes, l.root), t, u)
    && (t != u || multiset(g.succ[t])[l.root] > 1)
  }

  /** A loop with both blocks is still to be searched after `n` rounds. */
  ghost predicate Held(loops: seq<Loop>, n: nat, r: nat, t: nat) {
    exists i: nat :: n <= i < |loops| && r in loops[i].nodes && t in loops[i].nodes
  }

  /** The blocks of a loop reach each other wherever its edges are. */
  lemma LoopInside(g: Graph, forest: seq<Loop>, q: nat, h: Graph, a: nat, b: nat)
    requires ForestOk(g, forest) && q < |forest| && a in forest[q].nodes && b in forest[q].nodes
    requires forall v: nat | v in forest[q].nodes :: v in h.blocks
    requires forall v: nat, w: nat | g.Edge(v, w) && v in forest[q].nodes && w in forest[q].nodes :: h.Edge(v, w)
    ensures h.Reaches(a, b)
  {
    assert RecordOk(g, forest, q);
    var outer := Around(g, forest, q);
    MutualThrough(outer, a, forest[q].root, b);
    var p :| outer.IsPathBetween(p, a, b);
    forall i | 0 <= i < |p|
      ensures p[i] in forest[q].nodes
    {
      PathInComponent(outer, forest[q].root, forest[q].nodes, p, i);
    }
    forall i | 0 <= i < |p| - 1
      ensures h.Edge(p[i], p[i + 1])
    {
      assert outer.Edge(p[i], p[i + 1]);
      if !forest[q].outside {
        InnerEdges(g, forest[forest[q].parent].nodes, forest[forest[q].parent].root, p[i], p[i + 1]);
      }
    }
    assert h.IsPathBetween(p, a, b);
  }

  /** A loop whose header lies in another loop lies in its body. */
  lemma LiesInBody(forest: seq<Loop>, p: nat, q: nat)
    requires Forest(forest) && p < |forest| && q < |forest| && p != q
    requires forest[q].root in forest[q].nodes && forest[q].root in forest[p].nodes
    ensures InBody(forest[p], forest[q].nodes)
  {
    if p < q {
      LastIsInnermost(forest, forest[q].root, p, q);
    } else {
      LastIsInnermost(forest, forest[q].root, q, p);
    }
  }

  /** In the copy of what is left of a loop around it, a loop stays together. */
  lemma StaysTogether(g: Graph, forest: seq<Loop>, l: Loop, p: nat, q: nat, a: nat, b: nat)
    requires Program(g, forest) && PartOfLoop(g, forest, l, p) && q < |forest| && p != q
    requires forest[q].root in l.nodes && a in forest[q].nodes && b in forest[q].nodes && a in l.nodes
    ensures Mutual(BodyOf(g, l), a, b)
  {
    var inner := Inner(g, forest[p].nodes, forest[p].root);
    assert RecordOk(g, forest, q);
    LiesInBody(forest, p, q);
    forall v: nat, w: nat | g.Edge(v, w) && v in forest[q].nodes && w in forest[q].nodes
      ensures inner.Edge(v, w)
    {
      InnerEdges(g, forest[p].nodes, forest[p].root, v, w);
    }
    LoopInside(g, forest, q, inner, a, b);
    LoopInside(g, forest, q, inner, b, a);
    MutualInCopy(g, forest, l, p, a, b);
  }

  /** In the copy of what is left of the loop itself, one of the sources still leads to the header. */
  lemma StillLeadsBack(g: Graph, forest: seq<Loop>, outer: Graph, l: Loop, q: nat, t: nat, u: nat)
    requires LoopOf(g, outer, l) && PartOfLoop(g, forest, l, q) && SourcesCross(g, forest[q], t, u) && t in l.nodes
    ensures Mutual(BodyOf(g, l), l.root, t)
  {
    BodyReached(g, outer, l);
    MutualInCopy(g, forest, l, q, t, u);
    EdgeLeft(g, l, t, u);
  }

  lemma EdgeLeft(g: Graph, l: Loop, t: nat, u: nat)
    requires IsBody(g, l.nodes, l.root, TailOf(g, l.nodes, l.root), BodyOf(g, l)) && BodyOf(g, l).SuccValid()
    requires l.root in l.nodes && t in l.nodes && u in l.nodes && g.Edge(t, l.root) && g.Edge(u, l.root)
    requires BodyOf(g, l).Reaches(t, u) && (t != u || multiset(g.succ[t])[l.root] > 1)
    ensures BodyOf(g, l).Reaches(t, l.root)
  {
    var body, tail := BodyOf(g, l), TailOf(g, l.nodes, l.root);
    if u != tail {
      CopyEdges(g, l.nodes, l.root, u, l.root);
      ReachesByEdge(body, u, l.root);
      ReachesTransitively(body, t, u, l.root);
    } else if t != tail {
      CopyEdges(g, l.nodes, l.root, t, l.root);
      ReachesByEdge(body, t, l.root);
    } else {
      DroppedEdge(g, l.nodes, l.root, tail, body);
      ReachesByEdge(body, t, l.root);
    }
  }

  /** The loop whose body is searched keeps header and source together. */
  lemma SearchedHolds(g: Graph, forest: seq<Loop>, loops: seq<Loop>, k: nat, q: nat, t: nat, u: nat)
    requires Program(g, forest) && q < |forest| && SourcesCross(g, forest[q], t, u)
    requires AllFound(g, loops, k) && k < |loops| && forest[q].root in loops[k].nodes && t in loops[k].nodes
    ensures Mutual(BodyOf(g, loops[k]), forest[q].root, t)
  {
    var p := FoundInForest(g, forest, loops, k, k);
    assert FoundOk(g, loops, k, k);
    IsLoopOf(g, loops, k, k);
    if p == q {
      StillLeadsBack(g, forest, FoundIn(g, loops, k), loops[k], q, t, u);
    } else {
      assert RecordOk(g, forest, q);
      StaysTogether(g, forest, loops[k], p, q, forest[q].root, t);
    }
  }

  lemma StepHolds(g: Graph, forest: seq<Loop>, loops: seq<Loop>, k: nat, found: seq<Loop>, first: seq<int>, q: nat, t: nat, u: nat)
    requires Program(g, forest) && q < |forest| && SourcesCross(g, forest[q], t, u)
    requires Step(g, loops, k, found, first) && SearchOk(g, loops, k) && Held(loops, k, forest[q].root, t)
    ensures Held(Adopt(found, |loops|, k), k + 1, forest[q].root, t)
  {
    var r := forest[q].root;
    var i: nat :| k <= i < |loops| && r in loops[i].nodes && t in loops[i].nodes;
    if i == k {
      SearchedHolds(g, forest, loops, k, q, t, u);
      FoundTogether(BodyOf(g, loops[k]), found, |loops|, first, r, t);
    }
    AdoptHolds(loops, k, found, i, r, t);
  }

  lemma AdoptHolds(loops: seq<Loop>, k: nat, found: seq<Loop>, i: nat, r: nat, t: nat)
    requires k < |loops| <= |found| && found[..|loops|] == MarkAnalysed(loops, k) && k <= i < |loops|
    requires r in loops[i].nodes && t in loops[i].nodes
    requires i == k ==> exists m: nat :: |loops| <= m < |found| && r in found[m].nodes && t in found[m].nodes
    ensures Held(Adopt(found, |loops|, k), k + 1, r, t)
  {
    var next := Adopt(found, |loops|, k);
    if i == k {
      var m: nat :| |loops| <= m < |found| && r in found[m].nodes && t in found[m].nodes;
      assert next[m].nodes == found[m].nodes;
    } else {
      assert next[i] == found[..|loops|][i];
    }
  }

  lemma FoundTogether(h: Graph, found: seq<Loop>, base: nat, first: seq<int>, r: nat, t: nat)
    requires FindsComponents(h, found, base, first) && Mutual(h, r, t) && r != t
    ensures exists m: nat :: base <= m < |found| && r in found[m].nodes && t in found[m].nodes
  {
    var p :| h.IsPathBetween(p, r, t);
    assert p[0] in h.blocks;
    var m: nat :| base <= m < |found| && r in found[m].nodes;
    ReachesTransitively(h, found[m].root, r, t);
    ReachesTransitively(h, t, r, found[m].root);
  }

  lemma RoundHolds(g: Graph, forest: seq<Loop>, loops: seq<Loop>, k: nat, next: seq<Loop>, q: nat, t: nat, u: nat)
    requires Program(g, forest) && q < |forest| && SourcesCross(g, forest[q], t, u)
    requires Round(g, loops, k, next) && SearchOk(g, loops, k) && Held(loops, k, forest[q].root, t)
    ensures Held(next, k + 1, forest[q].root, t)
  {
    var found, first :| Step(g, loops, k, found, first) && next == Adopt(found, |loops|, k);
    StepHolds(g, forest, loops, k, found, first, q, t, u);
  }

  lemma StartHolds(g: Graph, forest: seq<Loop>, q: nat, t: nat, u: nat, loops: seq<Loop>)
    requires Program(g, forest) && q < |forest| && SourcesCross(g, forest[q], t, u) && StartsWith(g, loops)
    ensures Held(loops, 0, forest[q].root, t)
  {
    var r := forest[q].root;
    var top: seq<Loop>, first: seq<int> :| FindsComponents(g, top, 0, first) && loops == MarkOutside(top);
    assert RecordOk(g, forest, q);
    forall v: nat | v in forest[q].nodes
      ensures v in g.blocks
    {
      var i :| 0 <= i < |forest[q].nodes| && forest[q].nodes[i] == v;
    }
    LoopInside(g, forest, q, g, r, t);
    LoopInside(g, forest, q, g, t, r);
    FoundTogether(g, top, 0, first, r, t);
    var m: nat :| m < |top| && r in top[m].nodes && t in top[m].nodes;
    assert loops[m].nodes == top[m].nodes;
  }

  /** With such sources in some loop of the forest the search never ends: whatever it has done, a loop with the header and
      the source is still to be searched. */
  lemma {:induction false} CrossingNeverEnds(g: Graph, forest: seq<Loop>, q: nat, t: nat, u: nat, lists: seq<seq<Loop>>, n: nat)
    requires Program(g, forest) && q < |forest| && SourcesCross(g, forest[q], t, u)
    requires SearchRun(g, lists) && n < |lists|
    ensures Held(lists[n], n, forest[q].root, t)
  {
    if n == 0 {
      StartHolds(g, forest, q, t, u, lists[0]);
    } else {
      var k: nat := n - 1;
      CrossingNeverEnds(g, forest, q, t, u, lists, k);
      RunKeepsSearch(g, lists, k);
      RoundHolds(g, forest, lists[k], k, lists[k + 1], q, t, u);
    }
  }
}
