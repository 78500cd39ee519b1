/** `identify_loops`, first part: the search for loops inside loops.  Every loop found is searched through a copy of its
    body from which one edge to the header has been dropped.  Whether the search ends, and what it finds. */
module LoopSearch {
  import opened Graphs
  import opened Loops
  import opened Components
  import opened Tarjan
  import opened LoopBodies
  import opened LoopNesting
  import opened LoopOrder
  import opened LoopForest

  /** The copy that is searched for loops inside `l`. */
  ghost function BodyOf(g: Graph, l: Loop): Graph {
    Copy(g, l.nodes, l.root)
  }

  /** The graph in which loop `i` has been found: the whole program, or the copy of its parent's body. */
  ghost function FoundIn(g: Graph, loops: seq<Loop>, i: nat): Graph
    requires i < |loops| && (loops[i].outside || 0 <= loops[i].parent < |loops|)
  {
    if loops[i].outside then g else BodyOf(g, loops[loops[i].parent])
  }

  /** `m` lies in `l`, and if it holds the header of `l` it has the same header. */
  ghost predicate Under(l: Loop, m: Loop) {
    (forall v: nat | v in m.nodes :: v in l.nodes) && (l.root in m.nodes ==> m.root == l.root)
  }

  /** Loop `i` when the bodies of the first `k` loops have been searched. */
  ghost predicate FoundOk(g: Graph, loops: seq<Loop>, k: nat, i: nat)
    requires i < |loops|
  {
    var l := loops[i];
    && l.id == i && NoDuplicates(l.nodes) && Inside(g, l.nodes) && |l.nodes| >= 2
    && (l.analysed <==> i < k)
    && (if l.outside then l.parent == UNDEF else 0 <= l.parent < i && l.parent < k && Under(loops[l.parent], l))
    && Component(FoundIn(g, loops, i), l.root, l.nodes) && InOrder(g, l)
    && (RootReachesAll(FoundIn(g, loops, i)) ==> Reached(FoundIn(g, loops, i), l))
  }

  /** The header of the loop is the entry of the graph, or entered from outside the loop. */
  ghost predicate Reached(outer: Graph, l: Loop) {
    l.root == outer.root || exists u: nat :: outer.Edge(u, l.root) && u !in l.nodes
  }

  ghost predicate AllFound(g: Graph, loops: seq<Loop>, k: nat) {
    forall i: nat {:trigger FoundOk(g, loops, k, i)} | i < |loops| :: FoundOk(g, loops, k, i)
  }

  /** Two loops are disjoint, or the earlier one has been searched and the later one lies in it. */
  ghost predicate Nested(loops: seq<Loop>, k: nat) {
    forall i: nat, j: nat | i < j < |loops| ::
      Disjoint(loops[i].nodes, loops[j].nodes) || (i < k && Under(loops[i], loops[j]))
  }

  /** A loop with the header of an earlier one has been found in a loop with that header. */
  ghost predicate HeadersInherited(loops: seq<Loop>) {
    forall i: nat, j: nat | i < j < |loops| && loops[i].root == loops[j].root :: HeaderFromParent(loops, j)
  }

  ghost predicate HeaderFromParent(loops: seq<Loop>, j: nat)
    requires j < |loops|
  {
    !loops[j].outside && 0 <= loops[j].parent < j && loops[loops[j].parent].root == loops[j].root
  }

  /** No component is missing: neither of the program nor of a copy that has been searched. */
  ghost predicate AllListed(g: Graph, loops: seq<Loop>, k: nat) {
    && k <= |loops|
    && (forall v: nat, w: nat | v in g.blocks && v != w && Mutual(g, v, w) :: InLoopWithParent(loops, v, UNDEF))
    && (forall i: nat, v: nat, w: nat | i < k && v != w && Mutual(BodyOf(g, loops[i]), v, w) :: InLoopWithParent(loops, v, i))
  }

  /** Everything the list promises when the first `k` bodies have been searched. */
  ghost predicate SearchOk(g: Graph, loops: seq<Loop>, k: nat) {
    AllFound(g, loops, k) && Nested(loops, k) && HeadersInherited(loops) && AllListed(g, loops, k)
  }

  function MarkAnalysed(loops: seq<Loop>, k: nat): seq<Loop>
    requires k < |loops|
  {
    loops[k := loops[k].(analysed := true)]
  }

  /** The list after the loops found in the body of loop `k` have got their parent. */
  function Adopt(loops: seq<Loop>, n: nat, k: nat): seq<Loop>
    requires n <= |loops|
  {
    seq(|loops|, i requires 0 <= i < |loops| => if i < n then loops[i] else loops[i].(parent := k))
  }

  // ---------------------------------------------------------------- copies of bodies

  lemma CopyEdges(g: Graph, nodes: seq<nat>, root: nat, a: nat, b: nat)
    ensures Copy(g, nodes, root).Edge(a, b) ==> g.Edge(a, b) && a in nodes && b in nodes
    ensures g.Edge(a, b) && a in nodes && b in nodes && (b != root || a != TailOf(g, nodes, root)) ==> Copy(g, nodes, root).Edge(a, b)
  {
    if a < |g.succ| {
      WithinMembers(g.succ[a], nodes);
      WithinMembers(RemoveFirst(g.succ[a], root), nodes);
      RemoveFirstMembers(g.succ[a], root);
    }
  }

  /** `l` is a component of `outer`, which is part of the program. */
  ghost predicate LoopOf(g: Graph, outer: Graph, l: Loop) {
    && g.Valid() && Component(outer, l.root, l.nodes) && |l.nodes| >= 2 && Inside(g, l.nodes)
    && forall a: nat, b: nat :: outer.Edge(a, b) ==> g.Edge(a, b)
  }

  lemma IsLoopOf(g: Graph, loops: seq<Loop>, k: nat, i: nat)
    requires g.Valid() && i < |loops| && FoundOk(g, loops, k, i)
    ensures LoopOf(g, FoundIn(g, loops, i), loops[i])
  {
    if !loops[i].outside {
      var p := loops[loops[i].parent];
      forall a: nat, b: nat
        ensures BodyOf(g, p).Edge(a, b) ==> g.Edge(a, b)
      {
        CopyEdges(g, p.nodes, p.root, a, b);
      }
    }
  }

  /** Some block of a loop leads to the header. */
  lemma HasBackEdge(g: Graph, outer: Graph, l: Loop)
    requires LoopOf(g, outer, l)
    ensures exists i | 0 <= i < |l.nodes| :: g.Edge(l.nodes[i], l.root)
  {
    var w := if l.nodes[0] == l.root then l.nodes[1] else l.nodes[0];
    assert w in l.nodes && w != l.root;
    var p :| outer.IsPathBetween(p, w, l.root);
    PathInComponent(outer, l.root, l.nodes, p, |p| - 2);
    assert outer.Edge(p[|p| - 2], p[|p| - 1]);
    var i :| 0 <= i < |l.nodes| && l.nodes[i] == p[|p| - 2];
  }

  /** The copy of a loop is a graph whose blocks are all reached from the header. */
  lemma BodyReached(g: Graph, outer: Graph, l: Loop)
    requires LoopOf(g, outer, l)
    ensures BodyOf(g, l).SuccValid() && RootReachesAll(BodyOf(g, l))
    ensures IsBody(g, l.nodes, l.root, TailOf(g, l.nodes, l.root), BodyOf(g, l))
  {
    var body := BodyOf(g, l);
    HasBackEdge(g, outer, l);
    CopyIsBody(g, l.nodes, l.root);
    BodyIsValid(g, l.nodes, l.root, TailOf(g, l.nodes, l.root), body);
    forall w | w in body.blocks
      ensures body.Reaches(body.root, w)
    {
      HeaderReachesInside(g, outer, l.root, l.nodes, w);
      InnerInCopy(g, l, l.root, w);
    }
  }

  /** What can be reached without the header can be reached in the copy. */
  lemma InnerInCopy(g: Graph, l: Loop, a: nat, b: nat)
    requires Inner(g, l.nodes, l.root).Reaches(a, b)
    ensures BodyOf(g, l).Reaches(a, b)
  {
    var p :| Inner(g, l.nodes, l.root).IsPathBetween(p, a, b);
    forall i | 0 <= i < |p| - 1
      ensures BodyOf(g, l).Edge(p[i], p[i + 1])
    {
      assert Inner(g, l.nodes, l.root).Edge(p[i], p[i + 1]);
      InnerEdges(g, l.nodes, l.root, p[i], p[i + 1]);
      CopyEdges(g, l.nodes, l.root, p[i], p[i + 1]);
    }
    assert BodyOf(g, l).IsPathBetween(p, a, b);
  }

  // ---------------------------------------------------------------- one body

  /** The facts about one step: loop `k` of `loops` is searched through its copy, and `found` is the list the search
      leaves. */
  ghost predicate Step(g: Graph, loops: seq<Loop>, k: nat, found: seq<Loop>, first: seq<int>) {
    && g.Valid() && k < |loops| <= |found| && found[..|loops|] == MarkAnalysed(loops, k)
    && FindsComponents(BodyOf(g, loops[k]), found, |loops|, first)
  }

  lemma NewLoop(g: Graph, loops: seq<Loop>, k: nat, found: seq<Loop>, first: seq<int>, m: nat)
    requires Step(g, loops, k, found, first) && FoundOk(g, loops, k, k) && |loops| <= m < |found|
    ensures var l := found[m];
            && Component(BodyOf(g, loops[k]), l.root, l.nodes) && Under(loops[k], l) && InOrder(g, l)
            && Reached(BodyOf(g, loops[k]), l)
            && NoDuplicates(l.nodes) && Inside(g, l.nodes) && |l.nodes| >= 2
            && l.id == m && l.parent == UNDEF && !l.outside && !l.analysed
  {
    IsLoopOf(g, loops, k, k);
    BodyReached(g, FoundIn(g, loops, k), loops[k]);
    NewMembers(g, loops[k], found, |loops|, first, m);
    NewInOrder(g, loops[k], found, |loops|, first, m);
  }

  lemma NewMembers(g: Graph, outer: Loop, found: seq<Loop>, n: nat, first: seq<int>, m: nat)
    requires BodyOf(g, outer).SuccValid() && FindsComponents(BodyOf(g, outer), found, n, first) && n <= m < |found|
    requires Inside(g, outer.nodes)
    ensures Under(outer, found[m]) && Inside(g, found[m].nodes)
  {
    var body, l := BodyOf(g, outer), found[m];
    forall v: nat | v in l.nodes
      ensures v in outer.nodes && v in g.blocks
    {
      var p :| body.IsPathBetween(p, l.root, v);
      assert p[|p| - 1] in body.blocks;
    }
    forall i | 0 <= i < |l.nodes|
      ensures l.nodes[i] in g.blocks
    {
      assert l.nodes[i] in l.nodes;
    }
    if outer.root in l.nodes {
      assert l.root in l.nodes && l.root in body.blocks;
      assert first[outer.root] == first[l.root];
    }
  }

  lemma NewInOrder(g: Graph, outer: Loop, found: seq<Loop>, n: nat, first: seq<int>, m: nat)
    requires BodyOf(g, outer).SuccValid() && FindsComponents(BodyOf(g, outer), found, n, first) && n <= m < |found|
    requires IsBody(g, outer.nodes, outer.root, TailOf(g, outer.nodes, outer.root), BodyOf(g, outer)) && Under(outer, found[m])
    ensures InOrder(g, found[m])
  {
    var body, l := BodyOf(g, outer), found[m];
    forall v | v in l.nodes
      ensures v < |first| && l.root < |first| && 0 <= first[l.root] <= first[v]
    {
      assert l.root in l.nodes && l.root in body.blocks;
    }
    assert l.root in l.nodes;
    ComponentInOrder(body, first, l.root, l.nodes);
    CopyLists(g, outer.nodes, outer.root, TailOf(g, outer.nodes, outer.root), body, l.nodes, l.root);
  }

  lemma StepKeepsFound(g: Graph, loops: seq<Loop>, k: nat, found: seq<Loop>, first: seq<int>)
    requires Step(g, loops, k, found, first) && AllFound(g, loops, k)
    ensures AllFound(g, Adopt(found, |loops|, k), k + 1)
  {
    var next, done := Adopt(found, |loops|, k), k + 1;
    forall i: nat | i < |next|
      ensures FoundOk(g, next, done, i)
    {
      assert FoundOk(g, loops, k, k);
      if i < |loops| {
        assert FoundOk(g, loops, k, i);
        OldFound(g, loops, k, found, i);
      } else {
        NewFound(g, loops, k, found, first, i);
      }
    }
  }

  lemma OldFound(g: Graph, loops: seq<Loop>, k: nat, found: seq<Loop>, i: nat)
    requires k < |loops| <= |found| && found[..|loops|] == MarkAnalysed(loops, k) && i < |loops| && FoundOk(g, loops, k, i)
    ensures FoundOk(g, Adopt(found, |loops|, k), k + 1, i)
  {
    var next := Adopt(found, |loops|, k);
    assert next[i] == found[..|loops|][i];
    if !loops[i].outside {
      assert next[loops[i].parent] == found[..|loops|][loops[i].parent];
    }
  }

  lemma NewFound(g: Graph, loops: seq<Loop>, k: nat, found: seq<Loop>, first: seq<int>, m: nat)
    requires Step(g, loops, k, found, first) && FoundOk(g, loops, k, k) && |loops| <= m < |found|
    ensures FoundOk(g, Adopt(found, |loops|, k), k + 1, m)
  {
    var next := Adopt(found, |loops|, k);
    NewLoop(g, loops, k, found, first, m);
    assert next[k] == found[..|loops|][k];
    assert BodyOf(g, next[k]) == BodyOf(g, loops[k]);
  }

  lemma StepKeepsNested(g: Graph, loops: seq<Loop>, k: nat, found: seq<Loop>, first: seq<int>)
    requires Step(g, loops, k, found, first) && FoundOk(g, loops, k, k) && Nested(loops, k)
    ensures Nested(Adopt(found, |loops|, k), k + 1)
  {
    var next := Adopt(found, |loops|, k);
    forall i: nat, j: nat | i < j < |next|
      ensures Disjoint(next[i].nodes, next[j].nodes) || (i < k + 1 && Under(next[i], next[j]))
    {
      if j < |loops| {
        assert next[i] == found[..|loops|][i] && next[j] == found[..|loops|][j];
      } else {
        NewLoop(g, loops, k, found, first, j);
        if i < |loops| {
          assert next[i] == found[..|loops|][i];
          NestedStep(loops, k, i, next[j]);
        }
      }
    }
  }

  /** Where a new loop inside loop `k` lies with respect to loop `i`. */
  lemma NestedStep(loops: seq<Loop>, k: nat, i: nat, c: Loop)
    requires k < |loops| && i < |loops| && Nested(loops, k) && Under(loops[k], c)
    ensures Disjoint(loops[i].nodes, c.nodes) || (i < k + 1 && Under(loops[i], c))
  {
    if i < k {
      assert Disjoint(loops[i].nodes, loops[k].nodes) || Under(loops[i], loops[k]);
    } else if k < i {
      assert Disjoint(loops[k].nodes, loops[i].nodes);
    }
  }

  lemma StepKeepsHeaders(g: Graph, loops: seq<Loop>, k: nat, found: seq<Loop>, first: seq<int>)
    requires Step(g, loops, k, found, first) && AllFound(g, loops, k) && Nested(loops, k) && HeadersInherited(loops)
    ensures HeadersInherited(Adopt(found, |loops|, k))
  {
    var next := Adopt(found, |loops|, k);
    forall i: nat, j: nat | i < j < |next|
      ensures next[i].root == next[j].root ==> HeaderFromParent(next, j)
    {
      if i >= |loops| {
        RootsDiffer(BodyOf(g, loops[k]), found, |loops|, first, i, j);
      } else if next[i].root == next[j].root {
        if j < |loops| {
          OldHeaderKept(loops, k, found, i, j);
        } else {
          NewHeaderKept(g, loops, k, found, first, i, j);
        }
      }
    }
  }

  lemma RootsDiffer(g: Graph, found: seq<Loop>, n: nat, first: seq<int>, i: nat, j: nat)
    requires FindsComponents(g, found, n, first) && n <= i < j < |found|
    ensures found[i].root != found[j].root
  {
    assert found[i].root in found[i].nodes && found[j].root in found[j].nodes;
  }

  lemma OldHeaderKept(loops: seq<Loop>, k: nat, found: seq<Loop>, i: nat, j: nat)
    requires k < |loops| <= |found| && found[..|loops|] == MarkAnalysed(loops, k) && HeadersInherited(loops)
    requires i < j < |loops| && found[i].root == found[j].root
    ensures HeaderFromParent(Adopt(found, |loops|, k), j)
  {
    assert found[i] == found[..|loops|][i] && found[j] == found[..|loops|][j];
    assert HeaderFromParent(loops, j);
    assert found[loops[j].parent] == found[..|loops|][loops[j].parent];
  }

  lemma NewHeaderKept(g: Graph, loops: seq<Loop>, k: nat, found: seq<Loop>, first: seq<int>, i: nat, j: nat)
    requires Step(g, loops, k, found, first) && AllFound(g, loops, k) && Nested(loops, k)
    requires i < |loops| <= j < |found| && found[i].root == found[j].root
    ensures HeaderFromParent(Adopt(found, |loops|, k), j)
  {
    assert found[i] == found[..|loops|][i] && found[k] == found[..|loops|][k];
    assert FoundOk(g, loops, k, k) && FoundOk(g, loops, k, i);
    NewLoop(g, loops, k, found, first, j);
    SharesHeader(loops, k, i, found[j]);
  }

  lemma SharesHeader(loops: seq<Loop>, k: nat, i: nat, c: Loop)
    requires k < |loops| && i < |loops| && Nested(loops, k) && Under(loops[k], c)
    requires loops[i].root in loops[i].nodes && c.root in c.nodes && loops[i].root == c.root
    ensures loops[k].root == c.root
  {
    assert c.root in loops[k].nodes;
    if i != k {
      var a, b := if i < k then i else k, if i < k then k else i;
      assert Disjoint(loops[a].nodes, loops[b].nodes) || (a < k && Under(loops[a], loops[b]));
    }
  }

  lemma StillInLoop(loops: seq<Loop>, k: nat, found: seq<Loop>, v: nat, parent: int)
    requires k < |loops| <= |found| && found[..|loops|] == MarkAnalysed(loops, k) && InLoopWithParent(loops, v, parent)
    ensures InLoopWithParent(Adopt(found, |loops|, k), v, parent)
  {
    var j: nat :| j < |loops| && loops[j].parent == parent && v in loops[j].nodes;
    assert Adopt(found, |loops|, k)[j] == found[..|loops|][j];
  }

  lemma StepKeepsListed(g: Graph, loops: seq<Loop>, k: nat, found: seq<Loop>, first: seq<int>)
    requires Step(g, loops, k, found, first) && AllListed(g, loops, k)
    ensures AllListed(g, Adopt(found, |loops|, k), k + 1)
  {
    var next := Adopt(found, |loops|, k);
    forall v: nat, w: nat | v in g.blocks && v != w && Mutual(g, v, w)
      ensures InLoopWithParent(next, v, UNDEF)
    {
      StillInLoop(loops, k, found, v, UNDEF);
    }
    forall i: nat, v: nat, w: nat | i < k + 1 && v != w && Mutual(BodyOf(g, next[i]), v, w)
      ensures InLoopWithParent(next, v, i)
    {
      assert next[i] == found[..|loops|][i];
      if i < k {
        StillInLoop(loops, k, found, v, i);
      } else {
        ChildListed(g, loops, k, found, first, v, w);
      }
    }
  }

  lemma ChildListed(g: Graph, loops: seq<Loop>, k: nat, found: seq<Loop>, first: seq<int>, v: nat, w: nat)
    requires Step(g, loops, k, found, first) && v != w && Mutual(BodyOf(g, loops[k]), v, w)
    ensures InLoopWithParent(Adopt(found, |loops|, k), v, k)
  {
    var body := BodyOf(g, loops[k]);
    var p :| body.IsPathBetween(p, v, w);
    assert p[0] in body.blocks;
    var m: nat :| |loops| <= m < |found| && v in found[m].nodes;
    assert Adopt(found, |loops|, k)[m].parent == k;
  }

  /** Every step keeps what the list promises. */
  lemma StepKeepsSearch(g: Graph, loops: seq<Loop>, k: nat, found: seq<Loop>, first: seq<int>)
    requires Step(g, loops, k, found, first) && SearchOk(g, loops, k)
    ensures SearchOk(g, Adopt(found, |loops|, k), k + 1)
  {
    StepKeepsFound(g, loops, k, found, first);
    assert FoundOk(g, loops, k, k);
    StepKeepsNested(g, loops, k, found, first);
    StepKeepsHeaders(g, loops, k, found, first);
    StepKeepsListed(g, loops, k, found, first);
  }

  function MarkOutside(loops: seq<Loop>): seq<Loop> {
    seq(|loops|, i requires 0 <= i < |loops| => loops[i].(outside := true))
  }

  /** The loops of the whole program start the list. */
  lemma OuterLoopsStart(g: Graph, loops: seq<Loop>, first: seq<int>)
    requires g.Valid() && FindsComponents(g, loops, 0, first)
    ensures SearchOk(g, MarkOutside(loops), 0)
  {
    var marked, none := MarkOutside(loops), 0;
    forall i: nat | i < |marked|
      ensures FoundOk(g, marked, none, i)
    {
      OuterLoop(g, loops, first, i);
    }
    forall i: nat, j: nat | i < j < |marked|
      ensures Disjoint(marked[i].nodes, marked[j].nodes) && marked[i].root != marked[j].root
    {
      assert loops[i].root in loops[i].nodes && loops[j].root in loops[j].nodes;
    }
    forall v: nat, w: nat | v in g.blocks && v != w && Mutual(g, v, w)
      ensures InLoopWithParent(marked, v, UNDEF)
    {
      var i: nat :| i < |loops| && v in loops[i].nodes;
      assert marked[i].parent == UNDEF && v in marked[i].nodes;
    }
  }

  lemma OuterLoop(g: Graph, loops: seq<Loop>, first: seq<int>, i: nat)
    requires g.Valid() && FindsComponents(g, loops, 0, first) && i < |loops|
    ensures FoundOk(g, MarkOutside(loops), 0, i)
  {
    var l := loops[i];
    forall j | 0 <= j < |l.nodes|
      ensures l.nodes[j] in g.blocks
    {
      assert l.nodes[j] in l.nodes;
      var p :| g.IsPathBetween(p, l.root, l.nodes[j]);
      assert p[|p| - 1] in g.blocks;
    }
    assert l.root in l.nodes;
    forall v | v in l.nodes
      ensures v < |first| && 0 <= first[l.root] <= first[v]
    {
      var j :| 0 <= j < |l.nodes| && l.nodes[j] == l.root;
    }
    ComponentInOrder(g, first, l.root, l.nodes);
  }

  // ---------------------------------------------------------------- when the search ends

  /** The copy of the loop is still one component of all its blocks. */
  ghost predicate StaysConnected(g: Graph, l: Loop) {
    forall v: nat | v in l.nodes :: Mutual(BodyOf(g, l), l.root, v)
  }

  /** That is so exactly when the block whose edge was dropped can still reach the header. */
  lemma StaysExactly(g: Graph, outer: Graph, l: Loop)
    requires LoopOf(g, outer, l)
    ensures StaysConnected(g, l) <==> BodyOf(g, l).Reaches(TailOf(g, l.nodes, l.root), l.root)
  {
    var body, tail := BodyOf(g, l), TailOf(g, l.nodes, l.root);
    BodyReached(g, outer, l);
    if body.Reaches(tail, l.root) {
      forall v: nat | v in l.nodes
        ensures Mutual(body, l.root, v)
      {
        BackToHeader(g, outer, l, v);
      }
    }
  }

  lemma BackToHeader(g: Graph, outer: Graph, l: Loop, v: nat)
    requires LoopOf(g, outer, l) && v in l.nodes && BodyOf(g, l).Reaches(TailOf(g, l.nodes, l.root), l.root)
    ensures BodyOf(g, l).Reaches(v, l.root)
  {
    var p :| outer.IsPathBetween(p, v, l.root);
    forall i | 0 <= i < |p|
      ensures p[i] in l.nodes
    {
      PathInComponent(outer, l.root, l.nodes, p, i);
    }
    BackAlong(g, outer, l, p, 0);
  }

  /** From every block of such a path the copy leads back to the header. */
  lemma {:induction false} BackAlong(g: Graph, outer: Graph, l: Loop, p: seq<nat>, i: nat)
    requires LoopOf(g, outer, l) && BodyOf(g, l).Reaches(TailOf(g, l.nodes, l.root), l.root)
    requires outer.IsPath(p) && Last(p) == l.root && i < |p| && forall j | 0 <= j < |p| :: p[j] in l.nodes
    ensures BodyOf(g, l).Reaches(p[i], l.root)
    decreases |p| - i
  {
    var body := BodyOf(g, l);
    BodyReached(g, outer, l);
    if i == |p| - 1 {
      ReachesItself(body, l.root);
    } else if p[i] != TailOf(g, l.nodes, l.root) {
      BackAlong(g, outer, l, p, i + 1);
      assert outer.Edge(p[i], p[i + 1]);
      CopyEdges(g, l.nodes, l.root, p[i], p[i + 1]);
      ReachesByEdge(body, p[i], p[i + 1]);
      ReachesTransitively(body, p[i], p[i + 1], l.root);
    }
  }

  /** One round of the search takes the list from `loops` to `next` by searching the body of loop `k`. */
  ghost predicate Round(g: Graph, loops: seq<Loop>, k: nat, next: seq<Loop>) {
    exists found, first :: Step(g, loops, k, found, first) && next == Adopt(found, |loops|, k)
  }

  /** `lists` are the loop lists of a run of the search, from the loops of the whole program on. */
  ghost predicate SearchRun(g: Graph, lists: seq<seq<Loop>>) {
    && lists != [] && StartsWith(g, lists[0])
    && forall k: nat {:trigger Round(g, lists[k], k, lists[k + 1])} | k < |lists| - 1 :: Round(g, lists[k], k, lists[k + 1])
  }

  ghost predicate StartsWith(g: Graph, loops: seq<Loop>) {
    exists top, first :: FindsComponents(g, top, 0, first) && loops == MarkOutside(top)
  }

  /** The loop whose body the run is to search next. */
  ghost predicate ComesTo(lists: seq<seq<Loop>>, l: Loop) {
    lists != [] && |lists| <= |Last(lists)| && l == Last(lists)[|lists| - 1]
  }

  /** No loop that the search comes to stays connected in its copy. */
  ghost predicate NoneStaysConnected(g: Graph) {
    forall lists, l | SearchRun(g, lists) && ComesTo(lists, l) :: !StaysConnected(g, l)
  }

  lemma {:induction false} RunKeepsSearch(g: Graph, lists: seq<seq<Loop>>, n: nat)
    requires g.Valid() && SearchRun(g, lists) && n < |lists|
    ensures SearchOk(g, lists[n], n)
  {
    if n == 0 {
      var top, first :| FindsComponents(g, top, 0, first) && lists[0] == MarkOutside(top);
      OuterLoopsStart(g, top, first);
    } else {
      var k: nat := n - 1;
      RunKeepsSearch(g, lists, k);
      assert Round(g, lists[k], k, lists[k + 1]);
      var found, first :| Step(g, lists[k], k, found, first) && lists[k + 1] == Adopt(found, |lists[k]|, k);
      StepKeepsSearch(g, lists[k], k, found, first);
    }
  }

  /** A loop like `l` is still to be searched after `n` rounds. */
  ghost predicate Waiting(loops: seq<Loop>, n: nat, l: Loop) {
    exists i: nat :: n <= i < |loops| && loops[i].root == l.root && loops[i].nodes == l.nodes
  }

  /** A search that comes to a loop that stays connected finds it again in its own body. */
  lemma FoundAgain(g: Graph, loops: seq<Loop>, k: nat, found: seq<Loop>, first: seq<int>)
    requires Step(g, loops, k, found, first) && SearchOk(g, loops, k) && StaysConnected(g, loops[k])
    ensures Waiting(Adopt(found, |loops|, k), k + 1, loops[k])
  {
    var l, body := loops[k], BodyOf(g, loops[k]);
    assert FoundOk(g, loops, k, k);
    var w := l.nodes[0];
    assert w in l.nodes && l.root in l.nodes && w != l.root;
    var m: nat :| |loops| <= m < |found| && l.root in found[m].nodes;
    NewLoop(g, loops, k, found, first, m);
    forall v: nat
      ensures v in found[m].nodes <==> v in l.nodes
    {
    }
    SameLoop(g, l, found[m]);
    assert Adopt(found, |loops|, k)[m].root == l.root && Adopt(found, |loops|, k)[m].nodes == l.nodes;
  }

  lemma WaitsOn(g: Graph, loops: seq<Loop>, k: nat, found: seq<Loop>, first: seq<int>, l: Loop)
    requires Step(g, loops, k, found, first) && SearchOk(g, loops, k) && StaysConnected(g, l) && Waiting(loops, k, l)
    ensures Waiting(Adopt(found, |loops|, k), k + 1, l)
  {
    var i: nat :| k <= i < |loops| && loops[i].root == l.root && loops[i].nodes == l.nodes;
    if i == k {
      assert BodyOf(g, loops[k]) == BodyOf(g, l);
      FoundAgain(g, loops, k, found, first);
    } else {
      assert Adopt(found, |loops|, k)[i] == found[..|loops|][i];
    }
  }

  /** If the search ever comes to a loop that stays connected, it never ends: after any number of rounds the same loop is
      still to be searched. */
  lemma {:induction false} SearchNeverEnds(g: Graph, lists: seq<seq<Loop>>, k: nat, n: nat)
    requires g.Valid() && SearchRun(g, lists) && k <= n < |lists|
    requires k < |lists[k]| && StaysConnected(g, lists[k][k])
    ensures n < |lists[n]| && Waiting(lists[n], n, lists[k][k])
    decreases n
  {
    if k < n {
      var m: nat := n - 1;
      SearchNeverEnds(g, lists, k, m);
      RunKeepsSearch(g, lists, m);
      assert Round(g, lists[m], m, lists[m + 1]);
      var found, first :| Step(g, lists[m], m, found, first) && lists[m + 1] == Adopt(found, |lists[m]|, m);
      WaitsOn(g, lists[m], m, found, first, lists[k][k]);
    }
  }

  // ---------------------------------------------------------------- otherwise every round makes progress

  /** What is left to do for a list of loops to be searched. */
  function Weight(loops: seq<Loop>): nat {
    if loops == [] then 0
    else Weight(loops[..|loops| - 1]) + if Last(loops).nodes == [] then 0 else 2 * |Last(loops).nodes| - 1
  }

  function Sizes(loops: seq<Loop>): nat {
    if loops == [] then 0 else Sizes(loops[..|loops| - 1]) + |Last(loops).nodes|
  }

  lemma {:induction false} WeightIs(loops: seq<Loop>)
    requires forall i | 0 <= i < |loops| :: loops[i].nodes != []
    ensures Weight(loops) == 2 * Sizes(loops) - |loops|
  {
    if loops != [] {
      WeightIs(loops[..|loops| - 1]);
      assert loops[|loops| - 1].nodes != [];
    }
  }

  lemma {:induction false} WeightAdds(s: seq<Loop>, t: seq<Loop>)
    ensures Weight(s + t) == Weight(s) + Weight(t)
  {
    if t == [] {
      assert s + t == s;
    } else {
      WeightAdds(s, t[..|t| - 1]);
      assert (s + t)[..|s + t| - 1] == s + t[..|t| - 1];
    }
  }

  lemma {:induction false} SameWeight(s: seq<Loop>, t: seq<Loop>)
    requires |s| == |t| && forall i | 0 <= i < |s| :: s[i].nodes == t[i].nodes
    ensures Weight(s) == Weight(t)
  {
    if s != [] {
      SameWeight(s[..|s| - 1], t[..|t| - 1]);
    }
  }

  lemma {:induction false} DisjointSizes(loops: seq<Loop>, all: set<nat>)
    requires forall i | 0 <= i < |loops| :: NoDuplicates(loops[i].nodes) && Elements(loops[i].nodes) <= all
    requires forall i, j | 0 <= i < j < |loops| :: Disjoint(loops[i].nodes, loops[j].nodes)
    ensures Sizes(loops) <= |all|
  {
    if loops != [] {
      var rest, last := loops[..|loops| - 1], Last(loops);
      forall i | 0 <= i < |rest|
        ensures Elements(rest[i].nodes) <= all - Elements(last.nodes)
      {
        assert Disjoint(loops[i].nodes, loops[|loops| - 1].nodes);
        assert Elements(loops[i].nodes) <= all;
      }
      DisjointSizes(rest, all - Elements(last.nodes));
      SeqSetSize(last.nodes);
      assert all == (all - Elements(last.nodes)) + Elements(last.nodes);
    }
  }

  ghost predicate Smaller(nodes: seq<nat>, part: seq<nat>) {
    NoDuplicates(part) && part != [] && Elements(part) < Elements(nodes)
  }

  /** Disjoint loops inside a loop weigh less than the loop, unless one of them takes up all of it. */
  lemma ChildrenWeigh(nodes: seq<nat>, children: seq<Loop>)
    requires NoDuplicates(nodes) && nodes != []
    requires forall i | 0 <= i < |children| :: Smaller(nodes, children[i].nodes)
    requires forall i, j | 0 <= i < j < |children| :: Disjoint(children[i].nodes, children[j].nodes)
    ensures Weight(children) < 2 * |nodes| - 1
  {
    DisjointSizes(children, Elements(nodes));
    SeqSetSize(nodes);
    WeightIs(children);
    if |children| == 1 {
      SeqSetSize(children[0].nodes);
      SmallerSet(Elements(children[0].nodes), Elements(nodes));
      assert children[..0] == [];
      assert Sizes(children) == |children[0].nodes|;
    }
  }

  lemma SmallerSet(s: set<nat>, t: set<nat>)
    requires s < t
    ensures |s| < |t|
  {
    assert t == s + (t - s);
  }

  /** Searching a loop that does not stay connected leaves less to do. */
  lemma StepShrinks(g: Graph, loops: seq<Loop>, k: nat, found: seq<Loop>, first: seq<int>)
    requires Step(g, loops, k, found, first) && FoundOk(g, loops, k, k) && !StaysConnected(g, loops[k])
    ensures Weight(Adopt(found, |loops|, k)[k + 1..]) < Weight(loops[k..])
  {
    var n := |loops|;
    forall m: nat | n <= m < |found|
      ensures Smaller(loops[k].nodes, found[m].nodes)
    {
      NewLoop(g, loops, k, found, first, m);
      PartOfLoop(g, loops[k], found[m]);
    }
    forall i: nat, j: nat | n <= i < j < |found|
      ensures Disjoint(found[i].nodes, found[j].nodes)
    {
      ChildrenDisjoint(BodyOf(g, loops[k]), found, n, first, i, j);
    }
    ChildrenWeigh(loops[k].nodes, found[n..]);
    WorkShrinks(loops, k, found);
  }

  /** A component that takes up the whole loop would show that it stays connected. */
  lemma PartOfLoop(g: Graph, l: Loop, c: Loop)
    requires Component(BodyOf(g, l), c.root, c.nodes) && Under(l, c) && !StaysConnected(g, l) && l.root in l.nodes
    ensures Elements(c.nodes) < Elements(l.nodes)
  {
    var v: nat :| v in l.nodes && !Mutual(BodyOf(g, l), l.root, v);
    assert v in c.nodes ==> Mutual(BodyOf(g, l), c.root, v);
    assert v in Elements(l.nodes) && l.root in Elements(l.nodes);
  }

  lemma ChildrenDisjoint(body: Graph, found: seq<Loop>, n: nat, first: seq<int>, i: nat, j: nat)
    requires FindsComponents(body, found, n, first) && n <= i < j < |found|
    ensures Disjoint(found[i].nodes, found[j].nodes)
  {
  }

  lemma WorkShrinks(loops: seq<Loop>, k: nat, found: seq<Loop>)
    requires k < |loops| <= |found| && found[..|loops|] == MarkAnalysed(loops, k) && loops[k].nodes != []
    requires Weight(found[|loops|..]) < 2 * |loops[k].nodes| - 1
    ensures Weight(Adopt(found, |loops|, k)[k + 1..]) < Weight(loops[k..])
  {
    var next := Adopt(found, |loops|, k);
    assert next[k + 1..] == loops[k + 1..] + next[|loops|..] by {
      assert forall i | k < i < |loops| :: next[i] == found[..|loops|][i] == loops[i];
    }
    SameWeight(found[|loops|..], next[|loops|..]);
    WeightAdds(loops[k + 1..], next[|loops|..]);
    assert loops[k..] == [loops[k]] + loops[k + 1..];
    WeightAdds([loops[k]], loops[k + 1..]);
    assert [loops[k]][..0] == [];
  }
}
