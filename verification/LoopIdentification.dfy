/** `identify_loops`: the search, the removal of repeated headers, and the numbers of the blocks; and that the loops left
    are the forest of loops of the program. */
module LoopIdentification {
  import opened Graphs
  import opened Loops
  import opened Components
  import opened Tarjan
  import opened LoopBodies
  import opened LoopNesting
  import opened LoopOrder
  import opened LoopForest
  import opened LoopSearch
  import opened LoopMerge

  /** A finished search. */
  ghost predicate Finished(g: Graph, loops: seq<Loop>) {
    g.Valid() && SearchOk(g, loops, |loops|)
  }

  lemma ParentsInOrder(g: Graph, loops: seq<Loop>)
    requires Finished(g, loops)
    ensures ParentsBefore(loops)
  {
    forall j: nat | j < |loops|
      ensures loops[j].id == j && (loops[j].parent == UNDEF || 0 <= loops[j].parent < j)
    {
      assert FoundOk(g, loops, |loops|, j);
    }
  }

  /** The loops that go are exactly those that repeat a header. */
  ghost predicate RepeatsGo(loops: seq<Loop>, gone: set<nat>) {
    CanGo(loops, gone) && forall j: nat | j < |loops| :: j in gone <==> Repeats(loops, j)
  }

  // ---------------------------------------------------------------- paths

  /** The blocks of a path between two blocks that reach each other reach them too. */
  lemma OnTheRound(h: Graph, x: nat, y: nat, p: seq<nat>, i: nat)
    requires Mutual(h, x, y) && h.IsPathBetween(p, x, y) && i < |p|
    ensures Mutual(h, x, p[i])
  {
    PathPrefix(h, p, i + 1);
    PathSuffix(h, p, i);
    assert h.IsPathBetween(p[..i + 1], x, p[i]) && h.IsPathBetween(p[i..], p[i], y);
    ReachesTransitively(h, p[i], y, x);
  }

  /** A path without the header whose blocks all lie in `nodes` is a path of the body of `nodes`. */
  lemma PathInside(g: Graph, outer: seq<nat>, nodes: seq<nat>, root: nat, p: seq<nat>)
    requires Inner(g, outer, root).IsPath(p) && forall i | 0 <= i < |p| :: p[i] in nodes
    ensures Inner(g, nodes, root).IsPath(p)
  {
    forall i | 0 <= i < |p| - 1
      ensures Inner(g, nodes, root).Edge(p[i], p[i + 1])
    {
      assert Inner(g, outer, root).Edge(p[i], p[i + 1]);
      InnerEdges(g, outer, root, p[i], p[i + 1]);
      InnerEdges(g, nodes, root, p[i], p[i + 1]);
    }
  }

  lemma ReachesInside(g: Graph, outer: seq<nat>, nodes: seq<nat>, root: nat, x: nat, y: nat)
    requires Inner(g, outer, root).Reaches(x, y) && Mutual(Inner(g, outer, root), x, y)
    requires forall z: nat | Mutual(Inner(g, outer, root), x, z) :: z in nodes
    ensures Inner(g, nodes, root).Reaches(x, y)
  {
    var h := Inner(g, outer, root);
    var p :| h.IsPathBetween(p, x, y);
    forall i | 0 <= i < |p|
      ensures p[i] in nodes
    {
      OnTheRound(h, x, y, p, i);
    }
    PathInside(g, outer, nodes, root, p);
    assert Inner(g, nodes, root).IsPathBetween(p, x, y);
  }

  /** Blocks that reach each other in the body of `outer` do so in that of `nodes`, if `nodes` holds all of them. */
  lemma MutualInside(g: Graph, outer: seq<nat>, nodes: seq<nat>, root: nat, x: nat, y: nat)
    requires Mutual(Inner(g, outer, root), x, y)
    requires forall z: nat | Mutual(Inner(g, outer, root), x, z) :: z in nodes
    ensures Mutual(Inner(g, nodes, root), x, y)
  {
    ReachesInside(g, outer, nodes, root, x, y);
    forall z: nat | Mutual(Inner(g, outer, root), y, z)
      ensures z in nodes
    {
      MutualThrough(Inner(g, outer, root), x, y, z);
    }
    ReachesInside(g, outer, nodes, root, y, x);
  }

  lemma InnerMutualInCopy(g: Graph, l: Loop, x: nat, y: nat)
    requires Mutual(Inner(g, l.nodes, l.root), x, y)
    ensures Mutual(BodyOf(g, l), x, y)
  {
    InnerInCopy(g, l, x, y);
    InnerInCopy(g, l, y, x);
  }

  // ---------------------------------------------------------------- the chain of loops with one header

  /** The loop that stays for `j` has the same header and holds all of `j`. */
  lemma {:induction false} UpIsAround(g: Graph, loops: seq<Loop>, gone: set<nat>, j: nat)
    requires Finished(g, loops) && RepeatsGo(loops, gone) && j < |loops|
    ensures var u := Up(loops, gone, j);
            && u < |loops| && loops[u].root == loops[j].root && (forall v: nat | v in loops[j].nodes :: v in loops[u].nodes)
            && !Repeats(loops, u)
  {
    if j in gone {
      assert FoundOk(g, loops, |loops|, j);
      UpIsAround(g, loops, gone, loops[j].parent);
    }
  }

  /** Blocks of loop `j` that reach each other without the header in the loop that stays do so in the copy of `j`. */
  lemma {:induction false} DownTheChain(g: Graph, loops: seq<Loop>, gone: set<nat>, j: nat, x: nat, y: nat)
    requires Finished(g, loops) && RepeatsGo(loops, gone) && j < |loops| && x in loops[j].nodes
    requires var a := loops[Up(loops, gone, j)]; Mutual(Inner(g, a.nodes, a.root), x, y)
    ensures y in loops[j].nodes && Mutual(BodyOf(g, loops[j]), x, y)
    decreases j, 1
  {
    var a := loops[Up(loops, gone, j)];
    UpIsAround(g, loops, gone, j);
    if j in gone {
      forall z: nat | Mutual(Inner(g, a.nodes, a.root), x, z)
        ensures z in loops[j].nodes
      {
        StaysInChild(g, loops, gone, j, x, z);
      }
      MutualInside(g, a.nodes, loops[j].nodes, a.root, x, y);
      InnerMutualInCopy(g, loops[j], x, y);
    } else {
      InnerMutualInCopy(g, loops[j], x, y);
      var p :| Inner(g, a.nodes, a.root).IsPathBetween(p, x, y);
      assert p[|p| - 1] in a.nodes;
    }
  }

  lemma {:induction false} StaysInChild(g: Graph, loops: seq<Loop>, gone: set<nat>, j: nat, x: nat, z: nat)
    requires Finished(g, loops) && RepeatsGo(loops, gone) && j < |loops| && j in gone && x in loops[j].nodes
    requires var a := loops[Up(loops, gone, j)]; Mutual(Inner(g, a.nodes, a.root), x, z)
    ensures z in loops[j].nodes
    decreases j, 0
  {
    assert FoundOk(g, loops, |loops|, j);
    var up: nat := loops[j].parent;
    DownTheChain(g, loops, gone, up, x, z);
    MutualThrough(BodyOf(g, loops[up]), x, loops[j].root, x);
    ReachesTransitively(BodyOf(g, loops[up]), loops[j].root, x, z);
    ReachesTransitively(BodyOf(g, loops[up]), z, x, loops[j].root);
  }

  // ---------------------------------------------------------------- the loops that stay

  /** A loop that stays avoids the header of the loop it was found in. */
  lemma AvoidsHeader(g: Graph, loops: seq<Loop>, j: nat)
    requires Finished(g, loops) && j < |loops| && !Repeats(loops, j) && !loops[j].outside
    ensures 0 <= loops[j].parent < j && loops[loops[j].parent].root !in loops[j].nodes
  {
    assert FoundOk(g, loops, |loops|, j);
  }

  /** It is a component of the body of the loop that stays around it. */
  lemma StaysComponent(g: Graph, loops: seq<Loop>, gone: set<nat>, j: nat)
    requires Finished(g, loops) && RepeatsGo(loops, gone) && j < |loops| && !Repeats(loops, j) && !loops[j].outside
    ensures 0 <= loops[j].parent < j
    ensures var a := loops[Up(loops, gone, loops[j].parent)]; Component(Inner(g, a.nodes, a.root), loops[j].root, loops[j].nodes)
  {
    assert FoundOk(g, loops, |loops|, j);
    AvoidsHeader(g, loops, j);
    var up: nat := loops[j].parent;
    var a, r := loops[Up(loops, gone, up)], loops[j].root;
    UpIsAround(g, loops, gone, up);
    forall v: nat
      ensures v in loops[j].nodes <==> Mutual(Inner(g, a.nodes, a.root), r, v)
    {
      if v in loops[j].nodes {
        JoinedInside(g, loops[up], a, loops[j], r, v);
        JoinedInside(g, loops[up], a, loops[j], v, r);
      }
      if Mutual(Inner(g, a.nodes, a.root), r, v) {
        DownTheChain(g, loops, gone, up, r, v);
      }
    }
  }

  /** Inside a component of a copy that avoids the header, paths are paths of the body around. */
  lemma JoinedInside(g: Graph, p: Loop, a: Loop, l: Loop, x: nat, y: nat)
    requires Component(BodyOf(g, p), l.root, l.nodes) && x in l.nodes && y in l.nodes && p.root !in l.nodes
    requires a.root == p.root && forall v: nat | v in p.nodes :: v in a.nodes
    requires Under(p, l)
    ensures Inner(g, a.nodes, a.root).Reaches(x, y)
  {
    var body := BodyOf(g, p);
    ReachesTransitively(body, x, l.root, y);
    var q :| body.IsPathBetween(q, x, y);
    forall i | 0 <= i < |q|
      ensures q[i] in l.nodes
    {
      PathInComponent(body, l.root, l.nodes, q, i);
    }
    forall i | 0 <= i < |q| - 1
      ensures Inner(g, a.nodes, a.root).Edge(q[i], q[i + 1])
    {
      assert body.Edge(q[i], q[i + 1]);
      CopyEdges(g, p.nodes, p.root, q[i], q[i + 1]);
      InnerEdges(g, a.nodes, a.root, q[i], q[i + 1]);
    }
    assert Inner(g, a.nodes, a.root).IsPathBetween(q, x, y);
  }

  /** No component of the body of a loop that stays is missing: if it lies in a loop that has been removed, it has been
      found in there. */
  lemma {:induction false} StaysListed(g: Graph, loops: seq<Loop>, gone: set<nat>, i: nat, v: nat, w: nat) returns (m: nat)
    requires Finished(g, loops) && RepeatsGo(loops, gone) && i < |loops|
    requires v != w && Mutual(Inner(g, loops[i].nodes, loops[i].root), v, w)
    ensures m < |loops| && !Repeats(loops, m) && 0 <= loops[m].parent < m && v in loops[m].nodes
    ensures Up(loops, gone, loops[m].parent) == Up(loops, gone, i)
    decreases |loops| - i
  {
    var l := loops[i];
    InnerMutualInCopy(g, l, v, w);
    var j: nat :| j < |loops| && loops[j].parent == i && v in loops[j].nodes;
    assert FoundOk(g, loops, |loops|, j);
    if Repeats(loops, j) {
      var first: nat :| first < j && loops[first].root == loops[j].root;
      assert HeaderFromParent(loops, j);
      forall z: nat | Mutual(Inner(g, l.nodes, l.root), v, z)
        ensures z in loops[j].nodes
      {
        InnerMutualInCopy(g, l, v, z);
        ReachesTransitively(BodyOf(g, l), loops[j].root, v, z);
        ReachesTransitively(BodyOf(g, l), z, v, loops[j].root);
      }
      MutualInside(g, l.nodes, loops[j].nodes, l.root, v, w);
      m := StaysListed(g, loops, gone, j, v, w);
    } else {
      m := j;
    }
  }

  // ---------------------------------------------------------------- the list that is left

  /** The position of the first loop with a number. */
  function PositionOf(loops: seq<Loop>, id: int): (q: nat)
    requires HasId(loops, id)
    ensures q < |loops| && loops[q].id == id
  {
    if loops[0].id == id then 0 else PositionOf(loops[1..], id) + 1
  }

  /** The list with positions for numbers. */
  function Renumbered(loops: seq<Loop>): seq<Loop>
    requires forall q | 0 <= q < |loops| :: loops[q].parent == UNDEF || HasId(loops, loops[q].parent)
  {
    seq(|loops|, q requires 0 <= q < |loops| =>
          loops[q].(id := q, parent := if loops[q].parent == UNDEF then UNDEF else PositionOf(loops, loops[q].parent)))
  }

  /** All loops have different numbers, and parents are in the list. */
  ghost predicate NumbersOk(loops: seq<Loop>) {
    && (forall q | 0 <= q < |loops| :: loops[q].id != UNDEF && (loops[q].parent == UNDEF || HasId(loops, loops[q].parent)))
    && forall q, s | 0 <= q < s < |loops| :: loops[q].id < loops[s].id
  }

  /** What the removal leaves of a finished search. */
  ghost predicate Result(g: Graph, loops: seq<Loop>, gone: set<nat>, cur: seq<Loop>) {
    Finished(g, loops) && RepeatsGo(loops, gone) && ParentsBefore(loops) && Left(loops, gone, cur)
  }

  lemma NumbersLeft(g: Graph, loops: seq<Loop>, gone: set<nat>, cur: seq<Loop>)
    requires Result(g, loops, gone, cur)
    ensures NumbersOk(cur)
  {
    forall q | 0 <= q < |cur|
      ensures cur[q].id != UNDEF && (cur[q].parent == UNDEF || HasId(cur, cur[q].parent))
    {
      assert Entry(loops, gone, cur[q]);
      if loops[cur[q].id].parent != UNDEF {
        assert cur[q].parent == Up(loops, gone, loops[cur[q].id].parent);
      }
    }
  }

  /** The entry at position `q` and its loop in the list of the search. */
  lemma EntryIs(g: Graph, loops: seq<Loop>, gone: set<nat>, cur: seq<Loop>, q: nat) returns (j: nat)
    requires Result(g, loops, gone, cur) && q < |cur|
    ensures j < |loops| && cur[q].id == j && !Repeats(loops, j) && FoundOk(g, loops, |loops|, j)
    ensures cur[q] == loops[j].(parent := ParentNow(loops, gone, j))
  {
    assert Entry(loops, gone, cur[q]);
    j := cur[q].id;
    assert FoundOk(g, loops, |loops|, j);
  }

  lemma RecordLeft(g: Graph, loops: seq<Loop>, gone: set<nat>, cur: seq<Loop>, q: nat)
    requires Result(g, loops, gone, cur) && q < |cur| && NumbersOk(cur)
    ensures RecordOk(g, Renumbered(cur), q)
  {
    var j := EntryIs(g, loops, gone, cur, q);
    if !loops[j].outside {
      StaysComponent(g, loops, gone, j);
      var s := ParentEntry(g, loops, gone, cur, q, j);
    }
  }

  /** The entry of the loop around. */
  lemma ParentEntry(g: Graph, loops: seq<Loop>, gone: set<nat>, cur: seq<Loop>, q: nat, j: nat) returns (s: nat)
    requires Result(g, loops, gone, cur) && q < |cur| && NumbersOk(cur) && j < |loops| && cur[q].id == j
    requires cur[q] == loops[j].(parent := ParentNow(loops, gone, j)) && 0 <= loops[j].parent < j
    ensures s < q && Renumbered(cur)[q].parent == s
    ensures var u := Up(loops, gone, loops[j].parent);
            Renumbered(cur)[s].nodes == loops[u].nodes && Renumbered(cur)[s].root == loops[u].root
  {
    var u := Up(loops, gone, loops[j].parent);
    s := PositionOf(cur, u);
    var k := EntryIs(g, loops, gone, cur, s);
  }

  lemma ForestLeft(g: Graph, loops: seq<Loop>, gone: set<nat>, cur: seq<Loop>)
    requires Result(g, loops, gone, cur) && NumbersOk(cur)
    ensures Forest(Renumbered(cur))
  {
    var ren := Renumbered(cur);
    forall a: nat, b: nat | a < b < |ren|
      ensures Disjoint(ren[a].nodes, ren[b].nodes) || InBody(ren[a], ren[b].nodes)
    {
      var i := EntryIs(g, loops, gone, cur, a);
      var j := EntryIs(g, loops, gone, cur, b);
      assert i < j;
      assert loops[i].root != loops[j].root;
      assert Disjoint(loops[i].nodes, loops[j].nodes) || Under(loops[i], loops[j]);
    }
  }

  lemma CompleteLeft(g: Graph, loops: seq<Loop>, gone: set<nat>, cur: seq<Loop>)
    requires Result(g, loops, gone, cur) && NumbersOk(cur)
    ensures Complete(g, Renumbered(cur))
  {
    var ren := Renumbered(cur);
    forall v: nat, w: nat | v in g.blocks && v != w && Mutual(g, v, w)
      ensures InLoopWithParent(ren, v, UNDEF)
    {
      var j: nat :| j < |loops| && loops[j].parent == UNDEF && v in loops[j].nodes;
      OuterStays(g, loops, j);
      ListedLeft(g, loops, gone, cur, j, v);
    }
    forall q: nat, v: nat, w: nat | q < |ren| && v != w && Mutual(Inner(g, ren[q].nodes, ren[q].root), v, w)
      ensures InLoopWithParent(ren, v, q)
    {
      var i := EntryIs(g, loops, gone, cur, q);
      var m := StaysListed(g, loops, gone, i, v, w);
      ListedLeft(g, loops, gone, cur, m, v);
      SamePosition(cur, q, i);
    }
  }

  lemma OuterStays(g: Graph, loops: seq<Loop>, j: nat)
    requires Finished(g, loops) && j < |loops| && loops[j].parent == UNDEF
    ensures !Repeats(loops, j)
  {
    assert FoundOk(g, loops, |loops|, j);
    assert Repeats(loops, j) ==> HeaderFromParent(loops, j);
  }

  lemma SamePosition(cur: seq<Loop>, q: nat, id: int)
    requires NumbersOk(cur) && q < |cur| && cur[q].id == id
    ensures HasId(cur, id) && PositionOf(cur, id) == q
  {
  }

  /** A loop that stays is in the list, under the position of the loop around it. */
  lemma ListedLeft(g: Graph, loops: seq<Loop>, gone: set<nat>, cur: seq<Loop>, m: nat, v: nat)
    requires Result(g, loops, gone, cur) && NumbersOk(cur) && m < |loops| && !Repeats(loops, m) && v in loops[m].nodes
    ensures var up := ParentNow(loops, gone, m);
            if up == UNDEF then InLoopWithParent(Renumbered(cur), v, UNDEF)
            else HasId(cur, up) && InLoopWithParent(Renumbered(cur), v, PositionOf(cur, up))
  {
    assert HasId(cur, m);
    var s: nat :| s < |cur| && cur[s].id == m;
    var j := EntryIs(g, loops, gone, cur, s);
    assert Renumbered(cur)[s].nodes == loops[m].nodes;
  }

  /** What is left is the forest of loops. */
  lemma ResultIsForest(g: Graph, loops: seq<Loop>, gone: set<nat>, cur: seq<Loop>)
    requires Result(g, loops, gone, cur)
    ensures NumbersOk(cur) && ForestOk(g, Renumbered(cur))
  {
    NumbersLeft(g, loops, gone, cur);
    forall q: nat | q < |cur|
      ensures RecordOk(g, Renumbered(cur), q)
    {
      RecordLeft(g, loops, gone, cur, q);
    }
    ForestLeft(g, loops, gone, cur);
    CompleteLeft(g, loops, gone, cur);
  }

  /** On a program whose blocks are all reached from the entry, every header left is the entry or has a predecessor
      outside its loop. */
  ghost predicate HeadersReached(g: Graph, loops: seq<Loop>) {
    RootReachesAll(g) ==> forall q | 0 <= q < |loops| :: Reached(g, loops[q])
  }

  lemma HeadersLeft(g: Graph, loops: seq<Loop>, gone: set<nat>, cur: seq<Loop>)
    requires Result(g, loops, gone, cur)
    ensures HeadersReached(g, cur)
  {
    if RootReachesAll(g) {
      forall q: nat | q < |cur|
        ensures Reached(g, cur[q])
      {
        var j := EntryIs(g, loops, gone, cur, q);
        if !loops[j].outside {
          HeaderInBody(g, loops, j);
        }
      }
    }
  }

  lemma HeaderInBody(g: Graph, loops: seq<Loop>, j: nat)
    requires Finished(g, loops) && j < |loops| && !Repeats(loops, j) && !loops[j].outside
    ensures Reached(g, loops[j])
  {
    AvoidsHeader(g, loops, j);
    var up: nat := loops[j].parent;
    assert FoundOk(g, loops, |loops|, j) && FoundOk(g, loops, |loops|, up);
    IsLoopOf(g, loops, |loops|, up);
    BodyReached(g, FoundIn(g, loops, up), loops[up]);
    assert loops[j].root in loops[j].nodes;
    var u: nat :| BodyOf(g, loops[up]).Edge(u, loops[j].root) && u !in loops[j].nodes;
    CopyEdges(g, loops[up].nodes, loops[up].root, u, loops[j].root);
  }

  // ---------------------------------------------------------------- the steps of the search

  ghost predicate AnalysedUpTo(loops: seq<Loop>, n: nat) {
    n <= |loops| && forall i: nat | i < |loops| :: loops[i].analysed <==> i < n
  }

  /** The scan after a body has been searched: passes the searched loops, and gives the loops found last, which
      are neither outer loops nor have a parent, their parent; their blocks take over the loop numbers of the copy. */
  method ScanLoops(loops: seq<Loop>, parent: int, copyId: seq<int>, loopId: seq<int>, ghost n: nat)
    returns (loops': seq<Loop>, loopId': seq<int>, last: nat)
    requires |copyId| == |loopId| && AnalysedUpTo(loops, n)
    requires forall i, j | 0 <= i < |loops| && 0 <= j < |loops[i].nodes| :: loops[i].nodes[j] < |loopId|
    ensures |loops'| == |loops| && |loopId'| == |loopId|
    ensures forall i: nat | i < |loops| ::
              loops'[i] == if !loops[i].analysed && !loops[i].outside && loops[i].parent == UNDEF then loops[i].(parent := parent) else loops[i]
    ensures last == n
    ensures forall v: nat | v < |loopId| && (forall i: nat | i < |loops| :: v !in loops[i].nodes) :: loopId'[v] == loopId[v]
  {
    loops', loopId', last := loops, loopId, 0;
    for it := 0 to |loops|
      invariant |loops'| == |loops| && |loopId'| == |loopId| && last == if it <= n then it else n
      invariant forall i: nat | i < it ::
                  loops'[i] == if !loops[i].analysed && !loops[i].outside && loops[i].parent == UNDEF then loops[i].(parent := parent) else loops[i]
      invariant forall i: nat | it <= i < |loops| :: loops'[i] == loops[i]
      invariant forall v: nat | v < |loopId| && (forall i: nat | i < |loops| :: v !in loops[i].nodes) :: loopId'[v] == loopId[v]
    {
      if loops'[it].analysed {
        last := it + 1;
      } else {
        if !loops'[it].outside && loops'[it].parent == UNDEF {
          loopId' := PointerRemap(loops'[it].nodes, copyId, loopId');
          loops' := loops'[it := loops'[it].(parent := parent)];
        }
      }
    }
  }

  /** `loop_pointer_remap` for a loop that still refers to the copy. */
  method PointerRemap(nodes: seq<nat>, copyId: seq<int>, loopId: seq<int>) returns (loopId': seq<int>)
    requires |copyId| == |loopId| && forall j | 0 <= j < |nodes| :: nodes[j] < |loopId|
    ensures |loopId'| == |loopId|
    ensures forall v: nat | v < |loopId| :: loopId'[v] == if v in nodes then copyId[v] else loopId[v]
  {
    loopId' := loopId;
    for j := 0 to |nodes|
      invariant |loopId'| == |loopId|
      invariant forall v: nat | v < |loopId| :: loopId'[v] == if v in nodes[..j] then copyId[v] else loopId[v]
    {
      loopId' := loopId'[nodes[j] := copyId[nodes[j]]];
      assert nodes[..j + 1] == nodes[..j] + [nodes[j]];
    }
    assert nodes[..|nodes|] == nodes;
  }

  /** The last pass: every loop in list order numbers its blocks. */
  method NumberBlocks(loops: seq<Loop>, loopId: seq<int>) returns (loopId': seq<int>)
    requires forall i, j | 0 <= i < |loops| && 0 <= j < |loops[i].nodes| :: loops[i].nodes[j] < |loopId|
    requires forall i | 0 <= i < |loops| :: loops[i].id != UNDEF
    ensures |loopId'| == |loopId|
    ensures forall v: nat | v < |loopId| ::
              loopId'[v] == if Innermost(loops, v) != UNDEF then Innermost(loops, v) else loopId[v]
  {
    loopId' := loopId;
    for i := 0 to |loops|
      invariant |loopId'| == |loopId|
      invariant forall v: nat | v < |loopId| ::
                  loopId'[v] == if Innermost(loops[..i], v) != UNDEF then Innermost(loops[..i], v) else loopId[v]
    {
      loopId' := SetAll(loops[i].nodes, loops[i].id, loopId');
      assert loops[..i + 1][..i] == loops[..i];
    }
    assert loops[..|loops|] == loops;
  }

  lemma TopIds(g: Graph, loops: seq<Loop>, first: seq<int>, loopId: seq<int>)
    requires g.SuccValid() && FindsComponents(g, loops, 0, first) && |loopId| == |g.succ|
    requires forall b | b in g.blocks && b != g.root :: IdOk(g, loops, 0, b, loopId[b])
    requires loopId[g.root] == UNDEF
    ensures UnloopedUnnumbered(g, MarkOutside(loops), loopId)
  {
    forall v: nat | v in g.blocks && (forall i: nat | i < |loops| :: v !in MarkOutside(loops)[i].nodes)
      ensures loopId[v] == UNDEF
    {
      if v != g.root {
        assert IdOk(g, loops, 0, v, loopId[v]);
        forall w: nat
          ensures !(w != v && Mutual(g, v, w))
        {
          PartnerLooped(g, loops, first, v, w);
        }
      }
    }
  }

  lemma PartnerLooped(g: Graph, loops: seq<Loop>, first: seq<int>, v: nat, w: nat)
    requires FindsComponents(g, loops, 0, first) && v in g.blocks
    ensures w != v && Mutual(g, v, w) ==> exists i: nat :: i < |loops| && v in MarkOutside(loops)[i].nodes
  {
    if w != v && Mutual(g, v, w) {
      var i: nat :| i < |loops| && v in loops[i].nodes;
      assert v in MarkOutside(loops)[i].nodes;
    }
  }

  lemma NodesInRange(g: Graph, loops: seq<Loop>, k: nat)
    requires g.SuccValid() && AllFound(g, loops, k)
    ensures forall i, j | 0 <= i < |loops| && 0 <= j < |loops[i].nodes| :: loops[i].nodes[j] < |g.succ|
  {
    forall i: nat | i < |loops|
      ensures forall j | 0 <= j < |loops[i].nodes| :: loops[i].nodes[j] < |g.succ|
    {
      assert FoundOk(g, loops, k, i);
    }
  }

  /** The list of a finished step meets what the scan needs. */
  lemma ScanReady(g: Graph, loops: seq<Loop>, k: nat, found: seq<Loop>)
    requires g.SuccValid() && k < |loops| <= |found| && AllFound(g, Adopt(found, |loops|, k), k + 1)
    ensures AnalysedUpTo(found, k + 1)
    ensures forall i, j | 0 <= i < |found| && 0 <= j < |found[i].nodes| :: found[i].nodes[j] < |g.succ|
  {
    var next, done := Adopt(found, |loops|, k), k + 1;
    forall i: nat | i < |found|
      ensures found[i].analysed <==> i < done
      ensures forall j | 0 <= j < |found[i].nodes| :: found[i].nodes[j] < |g.succ|
    {
      assert FoundOk(g, next, done, i);
      assert next[i].nodes == found[i].nodes;
    }
  }

  /** The loops found last are the ones that are neither searched nor outer loops nor have a parent. */
  ghost predicate LastHaveNoParent(found: seq<Loop>, n: nat) {
    forall i: nat | i < |found| :: i >= n <==> !found[i].analysed && !found[i].outside && found[i].parent == UNDEF
  }

  lemma FoundLast(g: Graph, loops: seq<Loop>, k: nat, found: seq<Loop>, first: seq<int>)
    requires Step(g, loops, k, found, first) && AllFound(g, loops, k)
    ensures LastHaveNoParent(found, |loops|)
  {
    assert FoundOk(g, loops, k, k);
    forall i: nat | i < |found|
      ensures i >= |loops| <==> !found[i].analysed && !found[i].outside && found[i].parent == UNDEF
    {
      if i < |loops| {
        assert FoundOk(g, loops, k, i);
        assert found[i] == found[..|loops|][i];
      }
    }
  }

  /** The scan gives exactly the loops found last their parent. */
  lemma ScanAdopts(found: seq<Loop>, n: nat, k: nat, scanned: seq<Loop>)
    requires n <= |found| == |scanned| && LastHaveNoParent(found, n)
    requires forall i: nat | i < |found| ::
               scanned[i] == if !found[i].analysed && !found[i].outside && found[i].parent == UNDEF then found[i].(parent := k) else found[i]
    ensures scanned == Adopt(found, n, k)
  {
  }

  lemma StillUnnumbered(g: Graph, loops: seq<Loop>, k: nat, found: seq<Loop>, loopId: seq<int>, loopId': seq<int>)
    requires k < |loops| <= |found| && found[..|loops|] == MarkAnalysed(loops, k)
    requires |loopId| == |loopId'| == |g.succ| && UnloopedUnnumbered(g, loops, loopId)
    requires forall v: nat | v < |loopId| && (forall i: nat | i < |found| :: v !in found[i].nodes) :: loopId'[v] == loopId[v]
    ensures UnloopedUnnumbered(g, Adopt(found, |loops|, k), loopId')
  {
    var next := Adopt(found, |loops|, k);
    forall v: nat | v < |loopId| && v in g.blocks && (forall i: nat | i < |next| :: v !in next[i].nodes)
      ensures loopId'[v] == UNDEF
    {
      forall i: nat | i < |found|
        ensures v !in found[i].nodes
      {
        assert next[i].nodes == found[i].nodes;
      }
      forall i: nat | i < |loops|
        ensures v !in loops[i].nodes
      {
        assert found[i] == found[..|loops|][i];
      }
    }
  }

  /** Blocks in no loop have no loop number. */
  ghost predicate UnloopedUnnumbered(g: Graph, loops: seq<Loop>, loopId: seq<int>)
    requires |loopId| == |g.succ|
  {
    forall v: nat | v < |loopId| && v in g.blocks && (forall i: nat | i < |loops| :: v !in loops[i].nodes) :: loopId[v] == UNDEF
  }

  /** After the removal every block that is in a loop is in one that is left. */
  lemma {:induction false} InnermostLeft(g: Graph, loops: seq<Loop>, gone: set<nat>, cur: seq<Loop>, v: nat)
    requires Result(g, loops, gone, cur) && NumbersOk(cur)
    ensures Innermost(cur, v) == UNDEF ==> forall i: nat | i < |loops| :: v !in loops[i].nodes
  {
    if Innermost(cur, v) == UNDEF {
      forall i: nat | i < |loops|
        ensures v !in loops[i].nodes
      {
        UpIsAround(g, loops, gone, i);
        var u := Up(loops, gone, i);
        assert HasId(cur, u);
        var s: nat :| s < |cur| && cur[s].id == u;
        var j := EntryIs(g, loops, gone, cur, s);
        assert cur[s].nodes == loops[u].nodes;
      }
    }
  }

  class Cfg {
    const g: Graph
    var loopList: seq<Loop>
    var loopId: seq<int>

    constructor (g: Graph)
      ensures this.g == g && loopList == [] && loopId == seq(|g.succ|, _ => UNDEF)
    {
      this.g, loopList, loopId := g, [], seq(|g.succ|, _ => UNDEF);
    }

    /** `identify_loops`: it terminates if no loop that it comes to stays connected, and then leaves the forest of loops
        of the program and numbers every block with its innermost loop. */
    method IdentifyLoops()
      requires g.Valid() && NoneStaysConnected(g) && loopList == []
      modifies this
      ensures NumbersOk(loopList) && ForestOk(g, Renumbered(loopList)) && HeadersReached(g, loopList)
      ensures |loopId| == |g.succ| && forall b | b in g.blocks :: loopId[b] == Innermost(loopList, b)
    {
      var top := new Finder(g, []);
      var detected := top.Tarjan();
      loopList, loopId := MarkOutside(top.loops), top.loopId;
      OuterLoopsStart(g, top.loops, top.first);
      TopIds(g, top.loops, top.first, loopId);
      if detected {
        assert StartsWith(g, loopList);
        SearchBodies();
      } else {
        assert loopList == [];
      }
      RemoveAndNumber();
    }

    /** The loop over the list, which grows while it is walked. */
    method SearchBodies()
      requires g.Valid() && NoneStaysConnected(g) && StartsWith(g, loopList) && SearchOk(g, loopList, 0)
      requires |loopId| == |g.succ| && UnloopedUnnumbered(g, loopList, loopId)
      modifies this
      ensures Finished(g, loopList)
      ensures |loopId| == |g.succ| && UnloopedUnnumbered(g, loopList, loopId)
    {
      var it: nat := 0;
      ghost var lists := [loopList];
      while it < |loopList|
        invariant it <= |loopList| && SearchOk(g, loopList, it)
        invariant SearchRun(g, lists) && |lists| == it + 1 && Last(lists) == loopList
        invariant |loopId| == |g.succ| && UnloopedUnnumbered(g, loopList, loopId)
        decreases Weight(loopList[it..])
      {
        assert ComesTo(lists, loopList[it]);
        ghost var before := loopList;
        SearchBody(it);
        RunGoesOn(g, lists, it, loopList);
        lists := lists + [loopList];
        it := it + 1;
      }
    }

    /** The end: of loops with one header the first stays, and every block gets the number of its innermost loop. */
    method RemoveAndNumber()
      requires Finished(g, loopList)
      requires |loopId| == |g.succ| && UnloopedUnnumbered(g, loopList, loopId)
      modifies this
      ensures NumbersOk(loopList) && ForestOk(g, Renumbered(loopList)) && HeadersReached(g, loopList)
      ensures |loopId| == |g.succ| && forall b | b in g.blocks :: loopId[b] == Innermost(loopList, b)
    {
      ghost var loops, ids := loopList, loopId;
      ghost var gone;
      ParentsInOrder(g, loopList);
      NodesInRange(g, loopList, |loopList|);
      loopList, loopId, gone := RemoveSameHeaders(loopList, loopId);
      ResultIsForest(g, loops, gone, loopList);
      HeadersLeft(g, loops, gone, loopList);
      LeftInRange(g, loops, gone, loopList);
      loopId := NumberBlocks(loopList, loopId);
      forall b | b in g.blocks
        ensures loopId[b] == Innermost(loopList, b)
      {
        InnermostLeft(g, loops, gone, loopList, b);
      }
    }

    /** One round: searches the body of loop `it` for nested loops. */
    method SearchBody(it: nat)
      requires g.Valid() && it < |loopList| && SearchOk(g, loopList, it) && !StaysConnected(g, loopList[it])
      requires |loopId| == |g.succ| && UnloopedUnnumbered(g, loopList, loopId)
      modifies this
      ensures SearchOk(g, loopList, it + 1) && Round(g, old(loopList), it, loopList)
      ensures |loopId| == |g.succ| && UnloopedUnnumbered(g, loopList, loopId)
      ensures it + 1 <= |loopList| && Weight(loopList[it + 1..]) < old(Weight(loopList[it..]))
    {
      ghost var before := loopList;
      var found, copyId, detected := FindInBody(g, loopList, it);
      var last := it + 1;
      if detected {
        loopList, loopId, last := ScanLoops(found, it, copyId, loopId, it + 1);
        ScanAdopts(found, |before|, it, loopList);
      } else {
        loopList := found;
        assert loopList == Adopt(found, |before|, it);
      }
      assert last == it + 1;
      StillUnnumbered(g, before, it, found, old(loopId), loopId);
    }
  }

  lemma RunGoesOn(g: Graph, lists: seq<seq<Loop>>, it: nat, next: seq<Loop>)
    requires SearchRun(g, lists) && |lists| == it + 1 && Round(g, Last(lists), it, next)
    ensures SearchRun(g, lists + [next])
  {
    var longer := lists + [next];
    forall k: nat | k < |longer| - 1
      ensures Round(g, longer[k], k, longer[k + 1])
    {
      if k < |lists| - 1 {
        assert Round(g, lists[k], k, lists[k + 1]);
      }
    }
  }

  lemma LeftInRange(g: Graph, loops: seq<Loop>, gone: set<nat>, cur: seq<Loop>)
    requires Result(g, loops, gone, cur)
    ensures forall i, j | 0 <= i < |cur| && 0 <= j < |cur[i].nodes| :: cur[i].nodes[j] < |g.succ|
    ensures forall i | 0 <= i < |cur| :: cur[i].id != UNDEF
  {
    NodesInRange(g, loops, |loops|);
    forall i: nat | i < |cur|
      ensures cur[i].id != UNDEF && forall j | 0 <= j < |cur[i].nodes| :: cur[i].nodes[j] < |g.succ|
    {
      var k := EntryIs(g, loops, gone, cur, i);
    }
  }

  /** Searches the body of loop `it`; with parents filled in, the new list meets all promises again. */
  method FindInBody(g: Graph, loops: seq<Loop>, it: nat) returns (found: seq<Loop>, copyId: seq<int>, detected: bool)
    requires g.Valid() && it < |loops| && SearchOk(g, loops, it) && !StaysConnected(g, loops[it])
    ensures |loops| <= |found| && found[..|loops|] == MarkAnalysed(loops, it) && |copyId| == |g.succ|
    ensures detected <==> |found| > |loops|
    ensures SearchOk(g, Adopt(found, |loops|, it), it + 1) && Round(g, loops, it, Adopt(found, |loops|, it))
    ensures Weight(Adopt(found, |loops|, it)[it + 1..]) < Weight(loops[it..])
    ensures AnalysedUpTo(found, it + 1) && LastHaveNoParent(found, |loops|)
    ensures forall i, j | 0 <= i < |found| && 0 <= j < |found[i].nodes| :: found[i].nodes[j] < |g.succ|
  {
    ghost var first;
    found, copyId, detected, first := SearchCopy(g, loops, it);
    assert FoundOk(g, loops, it, it);
    StepKeepsSearch(g, loops, it, found, first);
    StepShrinks(g, loops, it, found, first);
    ScanReady(g, loops, it, found);
    FoundLast(g, loops, it, found, first);
  }

  /** Marks loop `it` as searched and runs the loop search on the copy of its body. */
  method SearchCopy(g: Graph, loops: seq<Loop>, it: nat)
    returns (found: seq<Loop>, copyId: seq<int>, detected: bool, ghost first: seq<int>)
    requires g.Valid() && it < |loops| && AllFound(g, loops, it)
    ensures Step(g, loops, it, found, first) && |copyId| == |g.succ|
    ensures detected <==> |found| > |loops|
  {
    assert FoundOk(g, loops, it, it);
    IsLoopOf(g, loops, it, it);
    HasBackEdge(g, FoundIn(g, loops, it), loops[it]);
    var body;
    ghost var tail;
    body, tail := NewCfgFromLoop(g, loops[it].nodes, loops[it].root);
    BodyIsCopy(g, loops[it].nodes, loops[it].root, tail, body);
    found, copyId, detected, first := SearchGraph(body, MarkAnalysed(loops, it));
  }

  /** `tarjan` on a copy, which appends to the list of loops it is given. */
  method SearchGraph(copy: Graph, loops: seq<Loop>)
    returns (found: seq<Loop>, copyId: seq<int>, detected: bool, ghost first: seq<int>)
    requires copy.SuccValid()
    ensures |loops| <= |found| && found[..|loops|] == loops && FindsComponents(copy, found, |loops|, first)
    ensures |copyId| == |copy.succ| && (detected <==> |found| > |loops|)
  {
    var finder := new Finder(copy, loops);
    detected := finder.Tarjan();
    found, copyId, first := finder.loops, finder.loopId, finder.first;
  }
}
