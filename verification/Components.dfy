/** Strongly connected components, and the bookkeeping facts behind Tarjan's algorithm. */
module Components {
  import opened Graphs
  import opened Loops

  ghost predicate Mutual(g: Graph, a: nat, b: nat) {
    g.Reaches(a, b) && g.Reaches(b, a)
  }

  /** `nodes` lists, once each, the blocks in the same strongly connected component as `root`. */
  ghost predicate Component(g: Graph, root: nat, nodes: seq<nat>) {
    && root in nodes && NoDuplicates(nodes)
    && forall w: nat :: w in nodes <==> Mutual(g, root, w)
  }

  predicate Visited(index: seq<int>, v: nat) {
    v < |index| && index[v] != UNDEF
  }

  /** Visited and no longer on the stack. */
  predicate Done(index: seq<int>, stack: seq<nat>, v: nat) {
    Visited(index, v) && v !in stack
  }

  ghost predicate StackOk(g: Graph, index: seq<int>, next: int, stack: seq<nat>) {
    && |index| == |g.succ|
    && (forall v | 0 <= v < |index| :: UNDEF <= index[v] < next)
    && (forall i | 0 <= i < |stack| :: stack[i] in g.blocks && stack[i] < |index| && index[stack[i]] != UNDEF)
    && (forall i, j | 0 <= i < j < |stack| :: index[stack[i]] < index[stack[j]])
  }

  /** Edges never lead out of the finished components. */
  ghost predicate Closed(g: Graph, index: seq<int>, stack: seq<nat>) {
    forall v: nat, w: nat | g.Edge(v, w) && Done(index, stack, v) :: Done(index, stack, w)
  }

  /** Only blocks still being searched may have unvisited successors. */
  ghost predicate NoUnvisited(g: Graph, index: seq<int>, gray: set<nat>) {
    forall v: nat, w: nat | g.Edge(v, w) && Visited(index, v) && v !in gray :: Visited(index, w)
  }

  /** Lower blocks on the stack reach higher ones. */
  ghost predicate Chain(g: Graph, stack: seq<nat>) {
    forall i, j | 0 <= i <= j < |stack| :: g.Reaches(stack[i], stack[j])
  }

  /** `gray` holds the block at some position up to `j`, and the block at `j` reaches it. */
  ghost predicate AnchoredAt(g: Graph, stack: seq<nat>, gray: set<nat>, j: nat)
    requires j < |stack|
  {
    exists i | 0 <= i <= j :: stack[i] in gray && g.Reaches(stack[j], stack[i])
  }

  ghost predicate Anchored(g: Graph, stack: seq<nat>, gray: set<nat>) {
    && (forall v | v in gray :: v in stack)
    && forall j: nat | j < |stack| :: AnchoredAt(g, stack, gray, j)
  }

  /** The loops from position `base` on are pairwise disjoint components of finished blocks with at least two
      blocks, rooted at the block visited first, and they cover every finished block with a partner. */
  ghost predicate LoopsOk(g: Graph, index: seq<int>, first: seq<int>, stack: seq<nat>, loops: seq<Loop>, base: nat) {
    && |first| == |index| == |g.succ| && base <= |loops|
    && (forall k: nat | base <= k < |loops| :: LoopOk(g, index, first, stack, loops[k], k))
    && (forall k: nat, m: nat, v: nat | base <= k < m < |loops| && v in loops[k].nodes :: v !in loops[m].nodes)
    && (forall v: nat, w: nat | Done(index, stack, v) && v != w && Mutual(g, v, w) ::
          exists k: nat | base <= k < |loops| :: v in loops[k].nodes)
  }

  ghost predicate LoopOk(g: Graph, index: seq<int>, first: seq<int>, stack: seq<nat>, loop: Loop, k: nat)
    requires |first| == |index| == |g.succ|
  {
    && Component(g, loop.root, loop.nodes) && |loop.nodes| >= 2
    && loop.root < |first| && loop.id == k && loop.parent == UNDEF && !loop.outside && !loop.analysed
    && Falling(first, loop.nodes)
    && forall v | v in loop.nodes :: Done(index, stack, v) && first[loop.root] <= first[v]
  }

  /** The block visited last is listed first. */
  ghost predicate Falling(first: seq<int>, nodes: seq<nat>) {
    && (forall i | 0 <= i < |nodes| :: nodes[i] < |first|)
    && forall i, j | 0 <= i < j < |nodes| :: first[nodes[i]] > first[nodes[j]]
  }

  /** `nodes` is the part of the stack above `k0`, popped from the top. */
  ghost predicate PoppedFrom(stack: seq<nat>, k0: nat, nodes: seq<nat>) {
    && k0 <= |stack| && |nodes| == |stack| - k0
    && forall i | 0 <= i < |nodes| :: nodes[i] == stack[|stack| - 1 - i]
  }

  /** Finished blocks other than the entry carry the number of their loop, or none when they are alone. */
  ghost predicate IdsOk(g: Graph, index: seq<int>, stack: seq<nat>, loops: seq<Loop>, base: nat, loopId: seq<int>) {
    && |loopId| == |index| && base <= |loops|
    && forall v: nat | Done(index, stack, v) && v != g.root :: IdOk(g, loops, base, v, loopId[v])
  }

  ghost predicate IdOk(g: Graph, loops: seq<Loop>, base: nat, v: nat, id: int)
    requires base <= |loops|
  {
    if exists w :: w != v && Mutual(g, v, w) then base <= id < |loops| && v in loops[id].nodes else id == UNDEF
  }

  // ---------------------------------------------------------------- paths

  lemma {:induction false} PathLeaves(g: Graph, p: seq<nat>, c: seq<nat>) returns (u: nat, w: nat)
    requires g.IsPath(p) && p[0] in c && Last(p) !in c
    ensures g.Edge(u, w) && u in c && w !in c && g.Reaches(w, Last(p))
    decreases |p|
  {
    if p[1] in c {
      PathSuffix(g, p, 1);
      u, w := PathLeaves(g, p[1..], c);
    } else {
      u, w := p[0], p[1];
      PathSuffix(g, p, 1);
      assert g.IsPathBetween(p[1..], w, Last(p));
    }
  }

  lemma {:induction false} DoneStaysDone(g: Graph, index: seq<int>, stack: seq<nat>, p: seq<nat>)
    requires Closed(g, index, stack) && g.IsPath(p) && Done(index, stack, p[0])
    ensures Done(index, stack, Last(p))
    decreases |p|
  {
    if |p| > 1 {
      assert g.Edge(p[0], p[1]);
      PathSuffix(g, p, 1);
      DoneStaysDone(g, index, stack, p[1..]);
    }
  }

  lemma DoneReachesDone(g: Graph, index: seq<int>, stack: seq<nat>, a: nat, b: nat)
    requires Closed(g, index, stack) && Done(index, stack, a) && g.Reaches(a, b)
    ensures Done(index, stack, b)
  {
    var p :| g.IsPathBetween(p, a, b);
    DoneStaysDone(g, index, stack, p);
  }

  // ---------------------------------------------------------------- closing a component

  /** All edges out of the part of the stack above `k0` end in that part or in finished blocks. */
  ghost predicate Sealed(g: Graph, index: seq<int>, stack: seq<nat>, k0: nat)
    requires k0 <= |stack|
  {
    forall u: nat, w: nat | g.Edge(u, w) && u in stack[k0..] && w !in stack[k0..] :: Done(index, stack, w)
  }

  /** From a sealed part a block still on the stack below is out of reach. */
  lemma SealedStaysAbove(g: Graph, index: seq<int>, stack: seq<nat>, k0: nat, a: nat, b: nat)
    requires k0 <= |stack| && Closed(g, index, stack) && Sealed(g, index, stack, k0)
    requires a in stack[k0..] && g.Reaches(a, b)
    ensures b in stack[k0..] || Done(index, stack, b)
  {
    var p :| g.IsPathBetween(p, a, b);
    if b !in stack[k0..] {
      var u, w := PathLeaves(g, p, stack[k0..]);
      DoneReachesDone(g, index, stack, w, b);
    }
  }

  /** A sealed part of the stack that starts with its only searched block is that block's component. */
  lemma SealedIsComponent(g: Graph, index: seq<int>, next: int, stack: seq<nat>, gray: set<nat>, k0: nat)
    requires g.SuccValid() && StackOk(g, index, next, stack) && k0 < |stack|
    requires Closed(g, index, stack) && Sealed(g, index, stack, k0) && Chain(g, stack) && Anchored(g, stack, gray)
    requires forall i | k0 < i < |stack| :: stack[i] !in gray
    ensures Component(g, stack[k0], stack[k0..])
  {
    var bb, c := stack[k0], stack[k0..];
    forall w: nat | w in c
      ensures Mutual(g, bb, w)
    {
      var j :| k0 <= j < |stack| && stack[j] == w;
      assert AnchoredAt(g, stack, gray, j);
      var i :| 0 <= i <= j && stack[i] in gray && g.Reaches(stack[j], stack[i]);
      SealedStaysAbove(g, index, stack, k0, w, stack[i]);
    }
    forall w: nat | Mutual(g, bb, w)
      ensures w in c
    {
      assert bb == c[0];
      SealedStaysAbove(g, index, stack, k0, bb, w);
      if Done(index, stack, w) {
        DoneReachesDone(g, index, stack, w, bb);
      }
    }
  }

  /** Taking a sealed part off the stack keeps the rest in order. */
  lemma PopKeeps(g: Graph, index: seq<int>, next: int, stack: seq<nat>, gray: set<nat>, k0: nat)
    requires g.SuccValid() && StackOk(g, index, next, stack) && k0 < |stack|
    requires Closed(g, index, stack) && Sealed(g, index, stack, k0) && Chain(g, stack) && Anchored(g, stack, gray)
    requires stack[k0] in gray && forall i | k0 < i < |stack| :: stack[i] !in gray
    ensures var rest := stack[..k0];
            && StackOk(g, index, next, rest) && Closed(g, index, rest) && Chain(g, rest)
            && Anchored(g, rest, gray - {stack[k0]})
  {
    var rest := stack[..k0];
    DoneAfterPop(index, stack, k0, next, g);
    assert Closed(g, index, rest) by {
      forall v: nat, w: nat | g.Edge(v, w) && Done(index, rest, v)
        ensures Done(index, rest, w)
      {
        assert v in stack[k0..] || Done(index, stack, v);
      }
    }
    PopAnchored(g, stack, gray, k0);
  }

  lemma PopAnchored(g: Graph, stack: seq<nat>, gray: set<nat>, k0: nat)
    requires k0 < |stack| && Anchored(g, stack, gray)
    requires forall i | k0 < i < |stack| :: stack[i] !in gray
    requires NoDuplicates(stack)
    ensures Anchored(g, stack[..k0], gray - {stack[k0]})
  {
    var rest := stack[..k0];
    forall j: nat | j < k0
      ensures AnchoredAt(g, rest, gray - {stack[k0]}, j)
    {
      assert AnchoredAt(g, stack, gray, j);
      var i :| 0 <= i <= j && stack[i] in gray && g.Reaches(stack[j], stack[i]);
      assert rest[i] == stack[i] && rest[j] == stack[j];
    }
    forall v | v in gray - {stack[k0]}
      ensures v in rest
    {
      var i :| 0 <= i < |stack| && stack[i] == v;
      assert rest[i] == v;
    }
  }

  /** A block that reaches a lower block of the stack may stay on it when its search ends. */
  lemma KeepAnchored(g: Graph, stack: seq<nat>, gray: set<nat>, k0: nat, i0: nat)
    requires g.SuccValid() && i0 < k0 < |stack| && NoDuplicates(stack)
    requires Anchored(g, stack, gray) && stack[k0] in gray && g.Reaches(stack[k0], stack[i0])
    ensures Anchored(g, stack, gray - {stack[k0]})
  {
    forall j: nat | j < |stack|
      ensures AnchoredAt(g, stack, gray - {stack[k0]}, j)
    {
      assert AnchoredAt(g, stack, gray, j);
      var i :| 0 <= i <= j && stack[i] in gray && g.Reaches(stack[j], stack[i]);
      if i == k0 {
        assert AnchoredAt(g, stack, gray, i0);
        var m :| 0 <= m <= i0 && stack[m] in gray && g.Reaches(stack[i0], stack[m]);
        ReachesTransitively(g, stack[j], stack[k0], stack[i0]);
        ReachesTransitively(g, stack[j], stack[i0], stack[m]);
      }
    }
  }

  /** Pushing a block that every searched block reaches. */
  lemma PushKeeps(g: Graph, index: seq<int>, next: int, stack: seq<nat>, gray: set<nat>, bb: nat)
    requires g.SuccValid() && StackOk(g, index, next, stack) && bb in g.blocks && index[bb] == UNDEF && next >= 0
    requires Closed(g, index, stack) && NoUnvisited(g, index, gray) && Chain(g, stack) && Anchored(g, stack, gray)
    requires forall v | v in gray :: g.Reaches(v, bb)
    ensures var index', stack', gray' := index[bb := next], stack + [bb], gray + {bb};
            && StackOk(g, index', next + 1, stack') && Closed(g, index', stack') && NoUnvisited(g, index', gray')
            && Chain(g, stack') && Anchored(g, stack', gray')
            && forall v: nat :: Done(index', stack', v) <==> Done(index, stack, v)
  {
    assert bb !in stack;
    PushReached(g, stack, gray, bb);
    PushAnchored(g, stack, gray, bb);
  }

  lemma PushReached(g: Graph, stack: seq<nat>, gray: set<nat>, bb: nat)
    requires Chain(g, stack) && Anchored(g, stack, gray) && bb in g.blocks && forall v | v in gray :: g.Reaches(v, bb)
    ensures Chain(g, stack + [bb])
  {
    ReachesItself(g, bb);
    forall i | 0 <= i < |stack|
      ensures g.Reaches(stack[i], bb)
    {
      assert AnchoredAt(g, stack, gray, i);
      var m :| 0 <= m <= i && stack[m] in gray && g.Reaches(stack[i], stack[m]);
      ReachesTransitively(g, stack[i], stack[m], bb);
    }
  }

  lemma PushAnchored(g: Graph, stack: seq<nat>, gray: set<nat>, bb: nat)
    requires Anchored(g, stack, gray) && bb in g.blocks
    ensures Anchored(g, stack + [bb], gray + {bb})
  {
    var stack', gray' := stack + [bb], gray + {bb};
    ReachesItself(g, bb);
    forall j: nat | j < |stack'|
      ensures AnchoredAt(g, stack', gray', j)
    {
      if j < |stack| {
        assert AnchoredAt(g, stack, gray, j);
        var i :| 0 <= i <= j && stack[i] in gray && g.Reaches(stack[j], stack[i]);
        assert stack'[i] in gray';
      } else {
        assert stack'[j] in gray';
      }
    }
  }

  /** The loop list after the component in `stack[k0..]` has been taken off. */
  function WithComponent(loops: seq<Loop>, nodes: seq<nat>, bb: nat): seq<Loop> {
    if |nodes| == 1 then loops else loops + [Loop(|loops|, bb, UNDEF, nodes)]
  }

  lemma SameBlocks(g: Graph, root: nat, s: seq<nat>, t: seq<nat>)
    requires Component(g, root, s) && NoDuplicates(t) && forall v: nat :: v in s <==> v in t
    ensures Component(g, root, t)
  {
  }

  lemma AloneOrNot(g: Graph, bb: nat, nodes: seq<nat>)
    requires g.SuccValid() && bb in g.blocks && Component(g, bb, nodes)
    ensures |nodes| == 1 ==> forall w: nat :: Mutual(g, bb, w) ==> w == bb
    ensures |nodes| >= 2 ==> forall v | v in nodes :: exists w: nat :: w != v && Mutual(g, v, w)
  {
    if |nodes| == 1 {
      assert nodes[0] == bb;
    } else {
      assert |nodes| >= 2 by {
        assert nodes != [];
      }
      forall v | v in nodes
        ensures exists w: nat :: w != v && Mutual(g, v, w)
      {
        var w := if nodes[0] == v then nodes[1] else nodes[0];
        assert w in nodes;
        MutualThrough(g, v, bb, w);
      }
    }
  }

  lemma MutualThrough(g: Graph, a: nat, b: nat, c: nat)
    requires Mutual(g, b, a) && Mutual(g, b, c)
    ensures Mutual(g, a, c)
  {
    ReachesTransitively(g, a, b, c);
    ReachesTransitively(g, c, b, a);
  }

  lemma PopExtendsLoops(g: Graph, index: seq<int>, next: int, first: seq<int>, stack: seq<nat>, k0: nat,
                        loops: seq<Loop>, base: nat, nodes: seq<nat>)
    requires g.SuccValid() && StackOk(g, index, next, stack) && k0 < |stack|
    requires LoopsOk(g, index, first, stack, loops, base)
    requires Component(g, stack[k0], nodes) && PoppedFrom(stack, k0, nodes) && forall v: nat :: v in nodes <==> v in stack[k0..]
    requires forall i | k0 <= i < |stack| :: first[stack[i]] == index[stack[i]]
    ensures LoopsOk(g, index, first, stack[..k0], WithComponent(loops, nodes, stack[k0]), base)
  {
    PopCovers(g, index, next, first, stack, k0, loops, base, nodes);
    var rest, loops' := stack[..k0], WithComponent(loops, nodes, stack[k0]);
    DoneAfterPop(index, stack, k0, next, g);
    forall k: nat | base <= k < |loops'|
      ensures LoopOk(g, index, first, rest, loops'[k], k)
    {
      if k < |loops| {
        assert LoopOk(g, index, first, stack, loops[k], k);
      } else {
        NewLoopOk(g, index, next, first, stack, k0, nodes, k);
      }
    }
    forall k: nat, m: nat, v: nat | base <= k < m < |loops'| && v in loops'[k].nodes
      ensures v !in loops'[m].nodes
    {
      PopDisjoint(g, index, first, stack, k0, loops, base, nodes, k, m, v);
    }
  }

  lemma PopDisjoint(g: Graph, index: seq<int>, first: seq<int>, stack: seq<nat>, k0: nat,
                    loops: seq<Loop>, base: nat, nodes: seq<nat>, k: nat, m: nat, v: nat)
    requires LoopsOk(g, index, first, stack, loops, base) && k0 < |stack|
    requires forall v: nat :: v in nodes <==> v in stack[k0..]
    requires var loops' := WithComponent(loops, nodes, stack[k0]); base <= k < m < |loops'| && v in loops'[k].nodes
    ensures v !in WithComponent(loops, nodes, stack[k0])[m].nodes
  {
    assert LoopOk(g, index, first, stack, loops[k], k);
    if m == |loops| {
      assert v !in stack[k0..];
    }
  }

  lemma PopCovers(g: Graph, index: seq<int>, next: int, first: seq<int>, stack: seq<nat>, k0: nat,
                  loops: seq<Loop>, base: nat, nodes: seq<nat>)
    requires g.SuccValid() && StackOk(g, index, next, stack) && k0 < |stack|
    requires LoopsOk(g, index, first, stack, loops, base)
    requires Component(g, stack[k0], nodes) && forall v: nat :: v in nodes <==> v in stack[k0..]
    ensures var loops' := WithComponent(loops, nodes, stack[k0]);
            forall v: nat, w: nat | Done(index, stack[..k0], v) && v != w && Mutual(g, v, w) ::
              exists k: nat | base <= k < |loops'| :: v in loops'[k].nodes
  {
    var loops' := WithComponent(loops, nodes, stack[k0]);
    DoneAfterPop(index, stack, k0, next, g);
    AloneOrNot(g, stack[k0], nodes);
    forall v: nat, w: nat | Done(index, stack[..k0], v) && v != w && Mutual(g, v, w)
      ensures exists k: nat | base <= k < |loops'| :: v in loops'[k].nodes
    {
      if v in nodes {
        assert |nodes| != 1;
        assert loops'[|loops|].nodes == nodes;
      } else {
        var k: nat :| base <= k < |loops| && v in loops[k].nodes;
        assert loops'[k] == loops[k];
      }
    }
  }

  lemma DoneAfterPop(index: seq<int>, stack: seq<nat>, k0: nat, next: int, g: Graph)
    requires StackOk(g, index, next, stack) && k0 < |stack|
    ensures forall v: nat :: Done(index, stack[..k0], v) <==> Done(index, stack, v) || v in stack[k0..]
  {
    forall v: nat | v in stack[k0..]
      ensures Done(index, stack[..k0], v)
    {
      var i :| k0 <= i < |stack| && stack[i] == v;
    }
    assert stack == stack[..k0] + stack[k0..];
  }

  lemma NewLoopOk(g: Graph, index: seq<int>, next: int, first: seq<int>, stack: seq<nat>, k0: nat, nodes: seq<nat>, k: nat)
    requires StackOk(g, index, next, stack) && k0 < |stack| && |first| == |index|
    requires Component(g, stack[k0], nodes) && |nodes| >= 2 && PoppedFrom(stack, k0, nodes)
    requires forall v: nat :: v in nodes <==> v in stack[k0..]
    requires forall i | k0 <= i < |stack| :: first[stack[i]] == index[stack[i]]
    ensures LoopOk(g, index, first, stack[..k0], Loop(k, stack[k0], UNDEF, nodes), k)
  {
    DoneAfterPop(index, stack, k0, next, g);
    forall v | v in nodes
      ensures first[stack[k0]] <= first[v]
    {
      var i :| k0 <= i < |stack| && stack[i] == v;
    }
  }

  lemma PopExtendsIds(g: Graph, index: seq<int>, next: int, stack: seq<nat>, k0: nat,
                      loops: seq<Loop>, base: nat, nodes: seq<nat>, loopId: seq<int>, loopId': seq<int>)
    requires g.SuccValid() && StackOk(g, index, next, stack) && k0 < |stack|
    requires IdsOk(g, index, stack, loops, base, loopId) && |loopId'| == |loopId|
    requires Component(g, stack[k0], nodes) && forall v: nat :: v in nodes <==> v in stack[k0..]
    requires forall v: nat | v < |loopId| ::
               loopId'[v] == if v !in nodes then loopId[v] else if |nodes| == 1 then UNDEF else |loops|
    ensures IdsOk(g, index, stack[..k0], WithComponent(loops, nodes, stack[k0]), base, loopId')
  {
    var bb, rest, loops' := stack[k0], stack[..k0], WithComponent(loops, nodes, stack[k0]);
    AloneOrNot(g, bb, nodes);
    forall v: nat | Done(index, rest, v) && v != g.root
      ensures IdOk(g, loops', base, v, loopId'[v])
    {
      if v in nodes {
        if |nodes| == 1 {
          assert v == bb;
        } else {
          assert loops'[|loops|].nodes == nodes;
        }
      } else {
        assert stack == rest + stack[k0..];
        assert IdOk(g, loops, base, v, loopId[v]);
      }
    }
  }
}
