/** Loop detection with Tarjan's algorithm, as the analyser runs it: the graph's entry block is searched again
    on every iteration of the outer loop. */
module Tarjan {
  import opened Graphs
  import opened Loops
  import opened Components

  /** The fields of a search that its invariant speaks about. */
  datatype State = State(tarjanIndex: seq<int>, tarjanLlink: seq<int>, loopId: seq<int>, first: seq<int>,
                         index: int, stack: seq<nat>, loops: seq<Loop>, starts: set<nat>)

  ghost predicate Numbered(g: Graph, s: State) {
    && |s.tarjanLlink| == |s.loopId| == |s.first| == |g.succ|
    && StackOk(g, s.tarjanIndex, s.index, s.stack)
  }

  /** The invariant of the search while the blocks in `gray` are being searched. */
  ghost predicate Ok(g: Graph, base: nat, s: State, gray: set<nat>) {
    && g.SuccValid() && s.index >= 0 && Numbered(g, s)
    && Closed(g, s.tarjanIndex, s.stack)
    && NoUnvisited(g, s.tarjanIndex, gray) && Chain(g, s.stack) && Anchored(g, s.stack, gray)
    && (forall i | 0 <= i < |s.stack| :: s.first[s.stack[i]] == s.tarjanIndex[s.stack[i]])
    && LoopsOk(g, s.tarjanIndex, s.first, s.stack, s.loops, base)
    && IdsOk(g, s.tarjanIndex, s.stack, s.loops, base, s.loopId)
    && Entered(g, s)
  }

  /** Every visited block is one a search was started at or has a predecessor visited before it, and has been visited
      in its turn, the entry block first of all. */
  ghost predicate Entered(g: Graph, s: State)
    requires |s.first| == |s.tarjanIndex|
  {
    && FirstOk(g, s)
    && forall v: nat | Visited(s.tarjanIndex, v) :: (v in s.starts || EnteredFrom(g, s, v)) && InTurn(g, s.first, v)
  }

  ghost predicate FirstOk(g: Graph, s: State)
    requires |s.first| == |s.tarjanIndex|
  {
    && (forall v: nat | v < |s.first| ::
          && (Visited(s.tarjanIndex, v) <==> s.first[v] >= 0) && s.first[v] < s.index
          && (s.first[v] >= 0 ==> g.root < |s.first| && 0 <= s.first[g.root] <= s.first[v]))
    && forall v: nat, w: nat | v < w < |s.first| && s.first[v] >= 0 :: s.first[v] != s.first[w]
  }

  /** `z` was visited before `v`. */
  predicate Before(first: seq<int>, z: nat, v: nat) {
    z < |first| && v < |first| && 0 <= first[z] < first[v]
  }

  /** When `v` was visited, every block visited after number `low` had only visited successors. */
  ghost predicate Exhausted(g: Graph, first: seq<int>, v: nat, low: int) {
    forall z: nat, x: nat | g.Edge(z, x) && Before(first, z, v) && low < first[z] :: Before(first, x, v)
  }

  /** When `v` was visited, it was the first unvisited successor of `u`, the last block that had any. */
  ghost predicate TurnOf(g: Graph, first: seq<int>, v: nat, u: nat, j: nat) {
    && Before(first, u, v) && u < |g.succ| && j < |g.succ[u]| && g.succ[u][j] == v
    && (forall i | 0 <= i < j :: Before(first, g.succ[u][i], v))
    && Exhausted(g, first, v, first[u])
  }

  /** The order of the search: a new block is the first unvisited successor of the block visited last among those that
      have any, or no visited block has any. */
  ghost predicate InTurn(g: Graph, first: seq<int>, v: nat) {
    Exhausted(g, first, v, UNDEF) || exists u: nat, j: nat :: TurnOf(g, first, v, u, j)
  }

  ghost predicate EnteredFrom(g: Graph, s: State, v: nat)
    requires |s.first| == |s.tarjanIndex| && v < |s.first|
  {
    exists u: nat :: g.Edge(u, v) && Visited(s.tarjanIndex, u) && s.first[u] < s.first[v]
  }

  /** Blocks visited before keep their numbers, finished blocks stay finished and keep their loop, and the loops
      found before stay.  Only the links of the blocks in `except` may change. */
  ghost predicate KeptExcept(s: State, t: State, except: set<nat>) {
    && |s.tarjanIndex| == |t.tarjanIndex| == |s.tarjanLlink| == |t.tarjanLlink|
    && |s.first| == |t.first| == |s.loopId| == |t.loopId| == |s.tarjanIndex|
    && (forall v: nat | Visited(s.tarjanIndex, v) :: t.tarjanIndex[v] == s.tarjanIndex[v] && t.first[v] == s.first[v])
    && (forall v: nat | Visited(s.tarjanIndex, v) && v !in except :: t.tarjanLlink[v] == s.tarjanLlink[v])
    && (forall v: nat | Done(s.tarjanIndex, s.stack, v) :: t.loopId[v] == s.loopId[v] && v !in t.stack)
    && s.index <= t.index && s.loops <= t.loops && s.stack <= t.stack
  }

  ghost predicate Kept(s: State, t: State) {
    KeptExcept(s, t, {})
  }

  lemma KeptOnwards(r: State, s: State, t: State, bb: nat)
    requires Kept(r, s) && KeptExcept(s, t, {bb}) && !Visited(r.tarjanIndex, bb)
    ensures Kept(r, t)
  {
    forall v: nat | Done(r.tarjanIndex, r.stack, v)
      ensures t.loopId[v] == r.loopId[v] && v !in t.stack
    {
      assert Done(s.tarjanIndex, s.stack, v);
    }
  }

  /** What the search of `bb`, started in state `s`, leaves in state `t`. */
  ghost predicate Searched(g: Graph, s: State, t: State, bb: nat, gray: set<nat>) {
    && Kept(s, t) && StackOk(g, t.tarjanIndex, t.index, t.stack) && bb < |t.tarjanIndex| && t.tarjanIndex[bb] >= s.index && t.tarjanIndex[bb] != UNDEF
    && (bb !in t.stack ==> t.stack == s.stack && t.tarjanLlink[bb] == t.tarjanIndex[bb])
    && (bb in t.stack ==> ReachesNumber(g, t, bb, s.stack, t.tarjanLlink[bb]))
    && (forall i | |s.stack| <= i < |t.stack| :: t.stack[i] !in gray)
    && forall x: nat, y: nat | x in t.stack[|s.stack|..] && y in s.stack && g.Edge(x, y) ::
         t.tarjanLlink[bb] <= t.tarjanIndex[y]
  }

  /** `bb` reaches the block of `among` that has number `number`. */
  ghost predicate ReachesNumber(g: Graph, s: State, bb: nat, among: seq<nat>, number: int) {
    exists y :: y in among && y < |s.tarjanIndex| && s.tarjanIndex[y] == number && g.Reaches(bb, y)
  }

  /** `bb` lies directly on `below`, and no block above it is still being searched. */
  ghost predicate OnTop(s: State, bb: nat, below: seq<nat>, gray: set<nat>) {
    below + [bb] <= s.stack && (forall i | |below| < i < |s.stack| :: s.stack[i] !in gray)
  }

  /** `low` bounds the number of every block of `below` that an edge from above leads to; of the edges of `bb`
      only those to `known` count. */
  ghost predicate LowCovers(g: Graph, s: State, bb: nat, below: seq<nat>, known: seq<nat>, low: int)
    requires |below| <= |s.stack|
  {
    forall x: nat, y: nat | x in s.stack[|below|..] && y in below && g.Edge(x, y) && (x != bb || y in known) ::
      y < |s.tarjanIndex| && low <= s.tarjanIndex[y]
  }

  ghost predicate AllVisited(s: State, blocks: seq<nat>) {
    forall k | 0 <= k < |blocks| :: Visited(s.tarjanIndex, blocks[k])
  }

  /** The loop over the successors of `bb` after `j` of them; `below` was the stack when its search started. */
  ghost predicate Progress(g: Graph, s: State, bb: nat, below: seq<nat>, gray: set<nat>, j: nat) {
    && Numbered(g, s) && bb in gray && bb < |g.succ| && j <= |g.succ[bb]|
    && OnTop(s, bb, below, gray)
    && s.tarjanLlink[bb] <= s.tarjanIndex[bb]
    && ReachesNumber(g, s, bb, below + [bb], s.tarjanLlink[bb])
    && AllVisited(s, g.succ[bb][..j])
    && LowCovers(g, s, bb, below, g.succ[bb][..j], s.tarjanLlink[bb])
  }

  ghost predicate Searching(g: Graph, base: nat, s: State, bb: nat, below: seq<nat>, gray: set<nat>, j: nat) {
    Ok(g, base, s, gray) && Progress(g, s, bb, below, gray, j)
  }

  function Min(a: int, b: int): int { if a <= b then a else b }

  function Lower(s: State, bb: nat, link: int): State
    requires bb < |s.tarjanLlink|
  {
    s.(tarjanLlink := s.tarjanLlink[bb := Min(s.tarjanLlink[bb], link)])
  }

  lemma LowCoversMore(g: Graph, s: State, bb: nat, below: seq<nat>, known: seq<nat>, low: int, w: nat, low': int)
    requires |below| <= |s.stack| && LowCovers(g, s, bb, below, known, low) && low' <= low
    requires w in below ==> w < |s.tarjanIndex| && low' <= s.tarjanIndex[w]
    ensures LowCovers(g, s, bb, below, known + [w], low')
  {
    forall x: nat, y: nat | x in s.stack[|below|..] && y in below && g.Edge(x, y) && (x != bb || y in known + [w])
      ensures y < |s.tarjanIndex| && low' <= s.tarjanIndex[y]
    {
      assert x != bb || y in known || y == w;
    }
  }

  lemma BelowIsOnStack(s: State, bb: nat, below: seq<nat>, gray: set<nat>)
    requires OnTop(s, bb, below, gray)
    ensures bb in s.stack && forall y | y in below :: y in s.stack
  {
    assert s.stack[|below|] == bb;
    forall y | y in below
      ensures y in s.stack
    {
      var m :| 0 <= m < |below| && below[m] == y;
      assert s.stack[m] == y;
    }
  }

  /** A successor that is visited and not on the stack needs nothing. */
  lemma SkipFinished(g: Graph, s: State, bb: nat, below: seq<nat>, gray: set<nat>, j: nat)
    requires Progress(g, s, bb, below, gray, j) && j < |g.succ[bb]|
    requires Done(s.tarjanIndex, s.stack, g.succ[bb][j])
    ensures Progress(g, s, bb, below, gray, j + 1)
  {
    assert g.succ[bb][..j + 1] == g.succ[bb][..j] + [g.succ[bb][j]];
    BelowIsOnStack(s, bb, below, gray);
    LowCoversMore(g, s, bb, below, g.succ[bb][..j], s.tarjanLlink[bb], g.succ[bb][j], s.tarjanLlink[bb]);
  }

  lemma LowerKeepsOk(g: Graph, base: nat, s: State, bb: nat, link: int, gray: set<nat>)
    requires Ok(g, base, s, gray) && bb < |s.tarjanLlink|
    ensures Ok(g, base, Lower(s, bb, link), gray)
  {
    SameEntered(g, s, Lower(s, bb, link));
  }

  lemma LowerReaches(g: Graph, s: State, bb: nat, below: seq<nat>, link: int)
    requires bb < |s.tarjanLlink|
    requires ReachesNumber(g, s, bb, below + [bb], s.tarjanLlink[bb])
    requires link < s.tarjanLlink[bb] ==> ReachesNumber(g, s, bb, below, link)
    ensures var t := Lower(s, bb, link); ReachesNumber(g, t, bb, below + [bb], t.tarjanLlink[bb])
  {
    var t := Lower(s, bb, link);
    var y :| y in below + [bb] && y < |s.tarjanIndex| && s.tarjanIndex[y] == t.tarjanLlink[bb] && g.Reaches(bb, y);
    assert y in below + [bb] && t.tarjanIndex[y] == t.tarjanLlink[bb];
  }

  lemma SmallerNumberIsBelow(g: Graph, index: seq<int>, next: int, stack: seq<nat>, below: seq<nat>, bb: nat, y: nat)
    requires StackOk(g, index, next, stack) && below + [bb] <= stack && y in stack && bb in stack && index[y] < index[bb]
    ensures y in below
  {
    var i :| 0 <= i < |stack| && stack[i] == y;
    assert stack[|below|] == bb;
    if i < |below| {
      assert stack[i] == below[i];
    }
  }

  /** A successor on the stack lowers the link to its number. */
  lemma UseStacked(g: Graph, s: State, bb: nat, below: seq<nat>, gray: set<nat>, j: nat)
    requires g.SuccValid() && Progress(g, s, bb, below, gray, j) && j < |g.succ[bb]| && g.succ[bb][j] in s.stack
    ensures Progress(g, Lower(s, bb, s.tarjanIndex[g.succ[bb][j]]), bb, below, gray, j + 1)
  {
    var w := g.succ[bb][j];
    var t := Lower(s, bb, s.tarjanIndex[w]);
    assert g.succ[bb][..j + 1] == g.succ[bb][..j] + [w];
    BelowIsOnStack(s, bb, below, gray);
    if s.tarjanIndex[w] < s.tarjanLlink[bb] {
      SmallerNumberIsBelow(g, s.tarjanIndex, s.index, s.stack, below, bb, w);
      ReachesByEdge(g, bb, w);
      assert w in below && s.tarjanIndex[w] == s.tarjanIndex[w] && g.Reaches(bb, w);
    }
    LowerReaches(g, s, bb, below, s.tarjanIndex[w]);
    LowCoversMore(g, s, bb, below, g.succ[bb][..j], s.tarjanLlink[bb], w, t.tarjanLlink[bb]);
    SameCover(g, s, t, bb, below, g.succ[bb][..j + 1], t.tarjanLlink[bb]);
  }

  lemma SameCover(g: Graph, s: State, t: State, bb: nat, below: seq<nat>, known: seq<nat>, low: int)
    requires s.stack == t.stack && s.tarjanIndex == t.tarjanIndex && |below| <= |s.stack|
    requires LowCovers(g, s, bb, below, known, low)
    ensures LowCovers(g, t, bb, below, known, low)
  {
  }

  lemma ChildLinkReaches(g: Graph, s: State, t: State, bb: nat, below: seq<nat>, gray: set<nat>, child: nat)
    requires g.SuccValid() && Numbered(g, s) && Numbered(g, t) && bb in g.blocks && below + [bb] <= s.stack
    requires s.tarjanLlink[bb] <= s.tarjanIndex[bb] && Searched(g, s, t, child, gray) && g.Edge(bb, child)
    requires t.tarjanLlink[child] < t.tarjanLlink[bb]
    ensures ReachesNumber(g, t, bb, below, t.tarjanLlink[child])
  {
    assert bb == s.stack[|below|] && Visited(s.tarjanIndex, bb);
    assert child in t.stack;
    var y :| y in s.stack && y < |t.tarjanIndex| && t.tarjanIndex[y] == t.tarjanLlink[child] && g.Reaches(child, y);
    assert Visited(s.tarjanIndex, y);
    SmallerNumberIsBelow(g, s.tarjanIndex, s.index, s.stack, below, bb, y);
    ReachesByEdge(g, bb, child);
    ReachesTransitively(g, bb, child, y);
  }

  lemma ChildLinkCovers(g: Graph, s: State, t: State, bb: nat, below: seq<nat>, gray: set<nat>, j: nat, x: nat, y: nat)
    requires Progress(g, s, bb, below, gray, j) && j < |g.succ[bb]|
    requires Numbered(g, t) && Searched(g, s, t, g.succ[bb][j], gray)
    requires x in t.stack[|below|..] && y in below && g.Edge(x, y) && (x != bb || y in g.succ[bb][..j])
    ensures y < |t.tarjanIndex| && Min(t.tarjanLlink[bb], t.tarjanLlink[g.succ[bb][j]]) <= t.tarjanIndex[y]
  {
    assert bb == s.stack[|below|] && Visited(s.tarjanIndex, bb);
    var m :| 0 <= m < |below| && below[m] == y;
    assert s.stack[m] == y && Visited(s.tarjanIndex, y);
    var i :| |below| <= i < |t.stack| && t.stack[i] == x;
    if i < |s.stack| {
      assert s.stack[i] == x;
      assert x in s.stack[|below|..];
    } else {
      assert x in t.stack[|s.stack|..];
      assert y in s.stack;
    }
  }

  /** A successor that had to be searched lowers the link to its own link. */
  lemma UseChild(g: Graph, s: State, t: State, bb: nat, below: seq<nat>, gray: set<nat>, j: nat)
    requires g.SuccValid() && Progress(g, s, bb, below, gray, j) && j < |g.succ[bb]| && !Visited(s.tarjanIndex, g.succ[bb][j])
    requires Numbered(g, t) && Searched(g, s, t, g.succ[bb][j], gray)
    ensures Progress(g, Lower(t, bb, t.tarjanLlink[g.succ[bb][j]]), bb, below, gray, j + 1)
  {
    var child := g.succ[bb][j];
    var r := Lower(t, bb, t.tarjanLlink[child]);
    ChildKeepsLink(g, s, t, bb, below, gray, child);
    ChildKeepsTop(s, t, bb, below, gray);
    ChildVisits(g, s, t, bb, j, gray);
    assert g.succ[bb][..j + 1] == g.succ[bb][..j] + [child];
    BelowIsOnStack(s, bb, below, gray);
    ChildCovers(g, s, t, bb, below, gray, j);
    LowCoversMore(g, t, bb, below, g.succ[bb][..j], r.tarjanLlink[bb], child, r.tarjanLlink[bb]);
    SameCover(g, t, r, bb, below, g.succ[bb][..j + 1], r.tarjanLlink[bb]);
  }

  lemma ChildCovers(g: Graph, s: State, t: State, bb: nat, below: seq<nat>, gray: set<nat>, j: nat)
    requires Progress(g, s, bb, below, gray, j) && j < |g.succ[bb]|
    requires Numbered(g, t) && Searched(g, s, t, g.succ[bb][j], gray)
    ensures |below| <= |t.stack|
    ensures LowCovers(g, t, bb, below, g.succ[bb][..j], Min(t.tarjanLlink[bb], t.tarjanLlink[g.succ[bb][j]]))
  {
    forall x: nat, y: nat | x in t.stack[|below|..] && y in below && g.Edge(x, y) && (x != bb || y in g.succ[bb][..j])
      ensures y < |t.tarjanIndex| && Min(t.tarjanLlink[bb], t.tarjanLlink[g.succ[bb][j]]) <= t.tarjanIndex[y]
    {
      ChildLinkCovers(g, s, t, bb, below, gray, j, x, y);
    }
  }

  lemma ChildKeepsLink(g: Graph, s: State, t: State, bb: nat, below: seq<nat>, gray: set<nat>, child: nat)
    requires g.SuccValid() && Numbered(g, s) && Numbered(g, t) && bb in g.blocks && below + [bb] <= s.stack
    requires s.tarjanLlink[bb] <= s.tarjanIndex[bb] && Searched(g, s, t, child, gray) && g.Edge(bb, child)
    requires ReachesNumber(g, s, bb, below + [bb], s.tarjanLlink[bb])
    ensures var r := Lower(t, bb, t.tarjanLlink[child]);
            r.tarjanLlink[bb] <= r.tarjanIndex[bb] && ReachesNumber(g, r, bb, below + [bb], r.tarjanLlink[bb])
  {
    assert bb == s.stack[|below|] && Visited(s.tarjanIndex, bb);
    var y :| y in below + [bb] && y < |s.tarjanIndex| && s.tarjanIndex[y] == s.tarjanLlink[bb] && g.Reaches(bb, y);
    assert y in s.stack && Visited(s.tarjanIndex, y);
    assert t.tarjanIndex[y] == t.tarjanLlink[bb];
    if t.tarjanLlink[child] < t.tarjanLlink[bb] {
      ChildLinkReaches(g, s, t, bb, below, gray, child);
    }
    LowerReaches(g, t, bb, below, t.tarjanLlink[child]);
  }

  lemma ChildKeepsTop(s: State, t: State, bb: nat, below: seq<nat>, gray: set<nat>)
    requires OnTop(s, bb, below, gray) && s.stack <= t.stack
    requires forall i | |s.stack| <= i < |t.stack| :: t.stack[i] !in gray
    ensures OnTop(t, bb, below, gray)
  {
    forall i | |below| < i < |t.stack|
      ensures t.stack[i] !in gray
    {
      if i < |s.stack| {
        assert t.stack[i] == s.stack[i];
      }
    }
  }

  lemma ChildVisits(g: Graph, s: State, t: State, bb: nat, j: nat, gray: set<nat>)
    requires bb < |g.succ| && j < |g.succ[bb]| && AllVisited(s, g.succ[bb][..j]) && Searched(g, s, t, g.succ[bb][j], gray)
    ensures AllVisited(t, g.succ[bb][..j + 1])
  {
    forall k | 0 <= k < j + 1
      ensures Visited(t.tarjanIndex, g.succ[bb][k])
    {
      if k < j {
        assert Visited(s.tarjanIndex, g.succ[bb][..j][k]);
      }
    }
  }

  lemma AllSuccessorsKnown(g: Graph, base: nat, s: State, bb: nat, below: seq<nat>, gray: set<nat>)
    requires bb < |g.succ| && Searching(g, base, s, bb, below, gray, |g.succ[bb]|)
    ensures LowCovers(g, s, bb, below, g.succ[bb], s.tarjanLlink[bb]) && AllVisited(s, g.succ[bb])
    ensures NoUnvisited(g, s.tarjanIndex, gray - {bb})
  {
    assert g.succ[bb][..|g.succ[bb]|] == g.succ[bb];
    forall v: nat, w: nat | g.Edge(v, w) && Visited(s.tarjanIndex, v) && v !in gray - {bb}
      ensures Visited(s.tarjanIndex, w)
    {
      if v == bb {
        var k :| 0 <= k < |g.succ[bb]| && g.succ[bb][k] == w;
      }
    }
  }

  /** When the link of `bb` is its own number, nothing above `below` leads back below. */
  lemma TopIsSealed(g: Graph, base: nat, s: State, bb: nat, below: seq<nat>, gray: set<nat>)
    requires bb < |g.succ| && Searching(g, base, s, bb, below, gray, |g.succ[bb]|)
    requires s.tarjanLlink[bb] == s.tarjanIndex[bb]
    ensures Sealed(g, s.tarjanIndex, s.stack, |below|)
  {
    AllSuccessorsKnown(g, base, s, bb, below, gray);
    forall u: nat, w: nat | g.Edge(u, w) && u in s.stack[|below|..] && w !in s.stack[|below|..]
      ensures Done(s.tarjanIndex, s.stack, w)
    {
      var i :| |below| <= i < |s.stack| && s.stack[i] == u;
      assert Visited(s.tarjanIndex, u);
      assert u != bb ==> u !in gray;
      assert u != bb || w in g.succ[bb];
      if w in s.stack {
        NotBelow(s, bb, below, gray, w);
      }
    }
  }

  /** A block of the stack that is not above `below` has a smaller number than `bb` and lies in `below`. */
  lemma NotBelow(s: State, bb: nat, below: seq<nat>, gray: set<nat>, w: nat)
    requires OnTop(s, bb, below, gray) && w in s.stack && w !in s.stack[|below|..]
    requires forall i | 0 <= i < |s.stack| :: s.stack[i] < |s.tarjanIndex|
    requires forall i, j | 0 <= i < j < |s.stack| :: s.tarjanIndex[s.stack[i]] < s.tarjanIndex[s.stack[j]]
    ensures w in below && w < |s.tarjanIndex| && bb < |s.tarjanIndex| && s.tarjanIndex[w] < s.tarjanIndex[bb]
  {
    var m :| 0 <= m < |s.stack| && s.stack[m] == w;
    assert s.stack[|below|] == bb;
    if m < |below| {
      assert below[m] == w;
    }
  }

  /** The end of a search that takes a component off the stack. */
  lemma FinishComponent(g: Graph, base: nat, s: State, bb: nat, below: seq<nat>, gray: set<nat>, nodes: seq<nat>, loopId: seq<int>)
    requires bb < |g.succ| && Searching(g, base, s, bb, below, gray, |g.succ[bb]|)
    requires s.tarjanLlink[bb] == s.tarjanIndex[bb]
    requires NoDuplicates(nodes) && PoppedFrom(s.stack, |below|, nodes) && forall v: nat :: v in nodes <==> v in s.stack[|below|..]
    requires |loopId| == |s.loopId| && forall v: nat | v < |loopId| ::
               loopId[v] == if v !in nodes then s.loopId[v] else if |nodes| == 1 then UNDEF else |s.loops|
    ensures Ok(g, base, s.(stack := below, loops := WithComponent(s.loops, nodes, bb), loopId := loopId), gray - {bb})
    ensures IdOk(g, WithComponent(s.loops, nodes, bb), base, bb, if |nodes| == 1 then UNDEF else |s.loops|)
  {
    var k0 := |below|;
    assert s.stack[k0] == bb && s.stack[..k0] == below;
    TopIsSealed(g, base, s, bb, below, gray);
    AllSuccessorsKnown(g, base, s, bb, below, gray);
    SealedIsComponent(g, s.tarjanIndex, s.index, s.stack, gray, k0);
    SameBlocks(g, bb, s.stack[k0..], nodes);
    PopKeeps(g, s.tarjanIndex, s.index, s.stack, gray, k0);
    PopExtendsLoops(g, s.tarjanIndex, s.index, s.first, s.stack, k0, s.loops, base, nodes);
    PopExtendsIds(g, s.tarjanIndex, s.index, s.stack, k0, s.loops, base, nodes, s.loopId, loopId);
    SameEntered(g, s, s.(stack := below, loops := WithComponent(s.loops, nodes, bb), loopId := loopId));
    NewId(g, s.loops, base, bb, nodes);
  }

  lemma NewId(g: Graph, loops: seq<Loop>, base: nat, bb: nat, nodes: seq<nat>)
    requires g.SuccValid() && bb in g.blocks && Component(g, bb, nodes) && base <= |loops|
    ensures IdOk(g, WithComponent(loops, nodes, bb), base, bb, if |nodes| == 1 then UNDEF else |loops|)
  {
    AloneOrNot(g, bb, nodes);
    if |nodes| != 1 {
      assert WithComponent(loops, nodes, bb)[|loops|].nodes == nodes;
    }
  }

  /** The end of a search that leaves its block on the stack. */
  lemma FinishOnStack(g: Graph, base: nat, s: State, bb: nat, below: seq<nat>, gray: set<nat>)
    requires bb < |g.succ| && Searching(g, base, s, bb, below, gray, |g.succ[bb]|)
    requires s.tarjanLlink[bb] != s.tarjanIndex[bb]
    ensures Ok(g, base, s, gray - {bb}) && ReachesNumber(g, s, bb, below, s.tarjanLlink[bb])
  {
    AllSuccessorsKnown(g, base, s, bb, below, gray);
    var y :| y in below + [bb] && y < |s.tarjanIndex| && s.tarjanIndex[y] == s.tarjanLlink[bb] && g.Reaches(bb, y);
    assert y != bb && y in below;
    var i0 :| 0 <= i0 < |below| && below[i0] == y;
    assert s.stack[i0] == y && s.stack[|below|] == bb;
    KeepAnchored(g, s.stack, gray, |below|, i0);
  }

  /** Pops blocks until `bb` has been popped, giving each the number of the new loop. */
  method PopComponent(stack: seq<nat>, loopId: seq<int>, bb: nat, id: int, ghost k0: nat)
    returns (stack': seq<nat>, loopId': seq<int>, nodes: seq<nat>)
    requires k0 < |stack| && stack[k0] == bb && NoDuplicates(stack)
    requires forall i | 0 <= i < |stack| :: stack[i] < |loopId|
    ensures stack' == stack[..k0] && PoppedFrom(stack, k0, nodes) && NoDuplicates(nodes)
    ensures forall v: nat :: v in nodes <==> v in stack[k0..]
    ensures |loopId'| == |loopId| && forall v: nat | v < |loopId| :: loopId'[v] == if v in nodes then id else loopId[v]
  {
    stack', loopId', nodes := stack, loopId, [];
    var popBb, more := bb, true;
    while more
      invariant k0 <= |stack'| <= |stack| && stack' == stack[..|stack'|] && (more <==> |stack'| > k0)
      invariant |nodes| == |stack| - |stack'| && forall i | 0 <= i < |nodes| :: nodes[i] == stack[|stack| - 1 - i]
      invariant |loopId'| == |loopId| && forall v: nat | v < |loopId| :: loopId'[v] == if v in nodes then id else loopId[v]
      decreases |stack'|
    {
      popBb := Last(stack');
      loopId' := loopId'[popBb := id];
      nodes := nodes + [popBb];
      stack' := stack'[..|stack'| - 1];
      more := popBb != bb;
    }
    forall v: nat
      ensures v in nodes <==> v in stack[k0..]
    {
      if v in stack[k0..] {
        var i :| k0 <= i < |stack| && stack[i] == v;
        assert nodes[|stack| - 1 - i] == v;
      }
    }
  }

  /** The block that generates a component: a single block is no loop. */
  method CloseComponent(stack: seq<nat>, loopId: seq<int>, loops: seq<Loop>, bb: nat, ghost k0: nat)
    returns (stack': seq<nat>, loopId': seq<int>, loops': seq<Loop>, ghost nodes: seq<nat>)
    requires k0 < |stack| && stack[k0] == bb && NoDuplicates(stack)
    requires forall i | 0 <= i < |stack| :: stack[i] < |loopId|
    ensures stack' == stack[..k0] && PoppedFrom(stack, k0, nodes) && NoDuplicates(nodes)
    ensures forall v: nat :: v in nodes <==> v in stack[k0..]
    ensures loops' == WithComponent(loops, nodes, bb)
    ensures |loopId'| == |loopId| && forall v: nat | v < |loopId| ::
              loopId'[v] == if v !in nodes then loopId[v] else if |nodes| == 1 then UNDEF else |loops|
    ensures |stack| == 1 ==> loops' == loops && loopId' == loopId[bb := UNDEF]
  {
    var popped;
    stack', loopId', popped := PopComponent(stack, loopId, bb, |loops|, k0);
    nodes := popped;
    assert bb == stack[k0..][0];
    assert bb in stack[k0..];
    if |popped| == 1 {
      assert popped[0] == bb;
      loopId', loops' := loopId'[bb := UNDEF], loops;
    } else {
      loops' := loops + [Loop(|loops|, bb, UNDEF, popped)];
    }
  }

  lemma PoppedIsSearched(g: Graph, start: State, s: State, bb: nat, below: seq<nat>, gray: set<nat>, nodes: seq<nat>, loopId: seq<int>)
    requires bb < |g.succ| && Progress(g, s, bb, below, gray, |g.succ[bb]|) && Kept(start, s) && below == start.stack
    requires start.index <= s.tarjanIndex[bb] == s.tarjanLlink[bb] && UNDEF < start.index
    requires forall v: nat :: v in nodes <==> v in s.stack[|below|..]
    requires |loopId| == |s.loopId| && forall v: nat | v < |loopId| && v !in nodes :: loopId[v] == s.loopId[v]
    ensures Searched(g, start, s.(stack := below, loops := WithComponent(s.loops, nodes, bb), loopId := loopId), bb, gray - {bb})
  {
    var t := s.(stack := below, loops := WithComponent(s.loops, nodes, bb), loopId := loopId);
    assert s.stack[|below|] == bb;
    forall i, j | 0 <= i < j < |below|
      ensures t.tarjanIndex[below[i]] < t.tarjanIndex[below[j]]
    {
      assert below[i] == s.stack[i] && below[j] == s.stack[j];
    }
    forall i | 0 <= i < |below|
      ensures below[i] in g.blocks && below[i] < |g.succ| && t.tarjanIndex[below[i]] != UNDEF && below[i] != bb
    {
      assert below[i] == s.stack[i];
    }
    forall v: nat | Done(start.tarjanIndex, start.stack, v)
      ensures t.loopId[v] == start.loopId[v]
    {
      assert v !in s.stack[|below|..];
    }
  }

  /** `t` is `s` with the component `nodes` of `bb` taken off the stack. */
  ghost predicate Popped(s: State, t: State, bb: nat, k0: nat, nodes: seq<nat>)
    requires k0 < |s.stack|
  {
    && t == s.(stack := s.stack[..k0], loops := WithComponent(s.loops, nodes, bb), loopId := t.loopId)
    && NoDuplicates(nodes) && PoppedFrom(s.stack, k0, nodes) && (forall v: nat :: v in nodes <==> v in s.stack[k0..])
    && |t.loopId| == |s.loopId|
    && (forall v: nat | v < |s.loopId| ::
          t.loopId[v] == if v !in nodes then s.loopId[v] else if |nodes| == 1 then UNDEF else |s.loops|)
    && (|s.stack| == 1 ==> t.loops == s.loops && bb < |s.loopId| && t.loopId == s.loopId[bb := UNDEF])
  }

  lemma SearchEnds(g: Graph, base: nat, start: State, s: State, t: State, bb: nat, gray: set<nat>, nodes: seq<nat>)
    requires bb < |g.succ| && Searching(g, base, s, bb, start.stack, gray, |g.succ[bb]|) && Kept(start, s)
    requires 0 <= start.index <= s.tarjanIndex[bb]
    requires if s.tarjanLlink[bb] == s.tarjanIndex[bb] then Popped(s, t, bb, |start.stack|, nodes) else t == s
    ensures Ok(g, base, t, gray - {bb}) && Searched(g, start, t, bb, gray - {bb}) && t.starts == s.starts
    ensures bb !in t.stack ==> IdOk(g, t.loops, base, bb, t.loopId[bb])
  {
    if s.tarjanLlink[bb] == s.tarjanIndex[bb] {
      SearchPops(g, base, start, s, t, bb, gray, nodes);
    } else {
      SearchStays(g, base, start, s, bb, gray);
    }
  }

  /** Blocks being searched have been visited. */
  lemma GrayVisited(g: Graph, base: nat, s: State, gray: set<nat>)
    requires Ok(g, base, s, gray)
    ensures forall v | v in gray :: Visited(s.tarjanIndex, v)
  {
  }

  /** The block being searched stands on the stack, behind what was there before. */
  lemma OnStack(g: Graph, base: nat, s: State, bb: nat, below: seq<nat>, gray: set<nat>)
    requires bb < |g.succ| && Searching(g, base, s, bb, below, gray, |g.succ[bb]|)
    ensures |below| < |s.stack| && s.stack[|below|] == bb && NoDuplicates(s.stack)
    ensures |s.tarjanIndex| == |s.tarjanLlink| == |s.loopId| && forall i | 0 <= i < |s.stack| :: s.stack[i] < |s.loopId|
  {
    assert OnTop(s, bb, below, gray);
  }

  /** The block was the first of its component, which has been taken off the stack. */
  lemma SearchPops(g: Graph, base: nat, start: State, s: State, t: State, bb: nat, gray: set<nat>, nodes: seq<nat>)
    requires bb < |g.succ| && Searching(g, base, s, bb, start.stack, gray, |g.succ[bb]|) && Kept(start, s)
    requires 0 <= start.index <= s.tarjanIndex[bb]
    requires s.tarjanLlink[bb] == s.tarjanIndex[bb] && Popped(s, t, bb, |start.stack|, nodes)
    ensures Ok(g, base, t, gray - {bb}) && Searched(g, start, t, bb, gray - {bb}) && t.starts == s.starts
    ensures bb !in t.stack ==> IdOk(g, t.loops, base, bb, t.loopId[bb])
  {
    assert s.stack[..|start.stack|] == start.stack;
    FinishComponent(g, base, s, bb, start.stack, gray, nodes, t.loopId);
    PopsSearched(g, base, start, s, t, bb, gray, nodes);
  }

  lemma PopsSearched(g: Graph, base: nat, start: State, s: State, t: State, bb: nat, gray: set<nat>, nodes: seq<nat>)
    requires bb < |g.succ| && Searching(g, base, s, bb, start.stack, gray, |g.succ[bb]|) && Kept(start, s)
    requires 0 <= start.index <= s.tarjanIndex[bb]
    requires s.tarjanLlink[bb] == s.tarjanIndex[bb] && Popped(s, t, bb, |start.stack|, nodes)
    ensures Searched(g, start, t, bb, gray - {bb})
  {
    assert s.stack[..|start.stack|] == start.stack;
    PoppedIsSearched(g, start, s, bb, start.stack, gray, nodes, t.loopId);
  }

  /** The block reaches one below it, and stays on the stack. */
  lemma SearchStays(g: Graph, base: nat, start: State, s: State, bb: nat, gray: set<nat>)
    requires bb < |g.succ| && Searching(g, base, s, bb, start.stack, gray, |g.succ[bb]|) && Kept(start, s)
    requires 0 <= start.index <= s.tarjanIndex[bb] && s.tarjanLlink[bb] != s.tarjanIndex[bb]
    ensures Ok(g, base, s, gray - {bb}) && Searched(g, start, s, bb, gray - {bb}) && bb in s.stack
  {
    FinishOnStack(g, base, s, bb, start.stack, gray);
    KeptIsSearched(g, start, s, bb, start.stack, gray);
  }

  /** A searched successor: the invariant after its link has been taken over. */
  lemma AfterChild(g: Graph, base: nat, s: State, t: State, bb: nat, below: seq<nat>, gray: set<nat>, j: nat)
    requires bb < |g.succ| && j < |g.succ[bb]| && !Visited(s.tarjanIndex, g.succ[bb][j])
    requires Searching(g, base, s, bb, below, gray, j) && Ok(g, base, t, gray) && Searched(g, s, t, g.succ[bb][j], gray)
    ensures var r := Lower(t, bb, t.tarjanLlink[g.succ[bb][j]]);
            Searching(g, base, r, bb, below, gray, j + 1) && KeptExcept(s, r, {bb})
  {
    UseChild(g, s, t, bb, below, gray, j);
    LowerKeepsOk(g, base, t, bb, t.tarjanLlink[g.succ[bb][j]], gray);
    ChildKeeps(g, s, t, bb, below, gray, j);
  }

  lemma ChildKeeps(g: Graph, s: State, t: State, bb: nat, below: seq<nat>, gray: set<nat>, j: nat)
    requires bb < |g.succ| && j < |g.succ[bb]| && Progress(g, s, bb, below, gray, j) && !Visited(s.tarjanIndex, g.succ[bb][j])
    requires Numbered(g, t) && Searched(g, s, t, g.succ[bb][j], gray)
    ensures KeptExcept(s, Lower(t, bb, t.tarjanLlink[g.succ[bb][j]]), {bb})
  {
  }

  lemma AfterStacked(g: Graph, base: nat, s: State, bb: nat, below: seq<nat>, gray: set<nat>, j: nat)
    requires bb < |g.succ| && j < |g.succ[bb]| && g.succ[bb][j] in s.stack
    requires Searching(g, base, s, bb, below, gray, j)
    ensures g.succ[bb][j] < |s.tarjanIndex|
    ensures var r := Lower(s, bb, s.tarjanIndex[g.succ[bb][j]]);
            Searching(g, base, r, bb, below, gray, j + 1) && KeptExcept(s, r, {bb})
  {
    UseStacked(g, s, bb, below, gray, j);
    LowerKeepsOk(g, base, s, bb, s.tarjanIndex[g.succ[bb][j]], gray);
  }

  lemma KeptIsSearched(g: Graph, start: State, s: State, bb: nat, below: seq<nat>, gray: set<nat>)
    requires bb < |g.succ| && Progress(g, s, bb, below, gray, |g.succ[bb]|) && Kept(start, s) && below == start.stack
    requires start.index <= s.tarjanIndex[bb] && UNDEF < start.index && ReachesNumber(g, s, bb, below, s.tarjanLlink[bb])
    ensures Searched(g, start, s, bb, gray - {bb})
  {
    assert s.stack[|below|] == bb;
    assert g.succ[bb][..|g.succ[bb]|] == g.succ[bb];
    forall i | |below| <= i < |s.stack|
      ensures s.stack[i] !in gray - {bb}
    {
    }
  }

  lemma AgainKeepsOk(g: Graph, base: nat, start: State, s: State, bb: nat)
    requires Ok(g, base, start, {}) && start.stack == [] && bb == g.root && Visited(start.tarjanIndex, bb)
    requires SearchedAgain(start, s, bb)
    ensures Ok(g, base, s.(stack := [], loopId := start.loopId[bb := UNDEF]), {})
  {
    var t := s.(stack := [], loopId := start.loopId[bb := UNDEF]);
    forall v: nat
      ensures Visited(t.tarjanIndex, v) <==> Visited(start.tarjanIndex, v)
      ensures Done(t.tarjanIndex, [], v) <==> Done(start.tarjanIndex, [], v)
    {
    }
    SameEntered(g, start, t);
    forall k: nat | base <= k < |t.loops|
      ensures LoopOk(g, t.tarjanIndex, t.first, [], t.loops[k], k)
    {
      assert LoopOk(g, start.tarjanIndex, start.first, [], start.loops[k], k);
    }
    forall v: nat | Done(t.tarjanIndex, [], v) && v != g.root
      ensures IdOk(g, t.loops, base, v, t.loopId[v])
    {
      assert Done(start.tarjanIndex, [], v);
    }
  }

  ghost predicate RootReachesAll(g: Graph) {
    forall b | b in g.blocks :: g.Reaches(g.root, b)
  }

  /** The loops from position `base` on: every one is a component of at least two blocks, rooted at the block
      visited first; different ones share no block; and every component of at least two blocks is among them. */
  ghost predicate FindsComponents(g: Graph, loops: seq<Loop>, base: nat, first: seq<int>) {
    && |first| == |g.succ| && base <= |loops|
    && (forall k: nat | base <= k < |loops| ::
          && Component(g, loops[k].root, loops[k].nodes) && |loops[k].nodes| >= 2
          && loops[k].id == k && loops[k].parent == UNDEF && !loops[k].outside && !loops[k].analysed
          && Falling(first, loops[k].nodes)
          && forall v | v in loops[k].nodes :: v < |first| && loops[k].root < |first| && first[loops[k].root] <= first[v])
    && SearchOrder(g, first)
    && (RootReachesAll(g) ==> forall k: nat | base <= k < |loops| ::
          loops[k].root == g.root || exists u :: g.Edge(u, loops[k].root) && u !in loops[k].nodes)
    && (forall k: nat, m: nat, v: nat | base <= k < m < |loops| && v in loops[k].nodes :: v !in loops[m].nodes)
    && (forall v: nat, w: nat | v in g.blocks && v != w && Mutual(g, v, w) ::
          exists k: nat | base <= k < |loops| :: v in loops[k].nodes)
  }

  /** All blocks have been visited in their turn, the entry block first. */
  ghost predicate SearchOrder(g: Graph, first: seq<int>) {
    && |first| == |g.succ|
    && (forall v | v in g.blocks :: v < |first| && g.root < |first| && 0 <= first[g.root] <= first[v] && InTurn(g, first, v))
    && forall v: nat, w: nat | v < w < |first| && first[v] >= 0 :: first[v] != first[w]
  }

  /** The outer loop before iteration `i`. */
  ghost predicate Outer(g: Graph, base: nat, s: State, i: nat) {
    && Ok(g, base, s, {}) && s.stack == [] && g.root in s.starts && i <= |g.blocks|
    && (forall k | 0 <= k < i :: Visited(s.tarjanIndex, g.blocks[k]))
    && (i == 0 ==> |s.loops| == base && s.tarjanIndex[g.root] == UNDEF)
    && (i > 0 ==> Visited(s.tarjanIndex, g.root))
    && (i == 1 ==> IdOk(g, s.loops, base, g.root, s.loopId[g.root]))
    && (i > 1 ==> s.loopId[g.root] == UNDEF)
    && (RootReachesAll(g) ==> s.starts == {g.root})
  }

  /** After the entry block has been searched, for the first time or again. */
  ghost predicate RootDone(g: Graph, base: nat, t: State, i: nat) {
    && Ok(g, base, t, {}) && t.stack == [] && g.root in t.starts && i <= |g.blocks|
    && Visited(t.tarjanIndex, g.root)
    && (forall k | 0 <= k < i :: Visited(t.tarjanIndex, g.blocks[k]))
    && (if i == 0 then IdOk(g, t.loops, base, g.root, t.loopId[g.root]) else t.loopId[g.root] == UNDEF)
    && (RootReachesAll(g) ==> t.starts == {g.root} && forall b | b in g.blocks :: Visited(t.tarjanIndex, b))
  }

  lemma RootSearched(g: Graph, base: nat, s: State, t: State, i: nat)
    requires Outer(g, base, s, i) && Ok(g, base, t, {}) && t.starts == s.starts
    requires if i == 0 then Searched(g, s, t, g.root, {}) && (g.root !in t.stack ==> IdOk(g, t.loops, base, g.root, t.loopId[g.root]))
             else
               && t.loopId == s.loopId[g.root := UNDEF] && t.stack == [] && t.first == s.first
               && t.tarjanIndex == s.tarjanIndex[g.root := s.index]
    ensures RootDone(g, base, t, i)
  {
    if i == 0 {
      EmptyStack(g, t);
    }
    if RootReachesAll(g) {
      forall b | b in g.blocks
        ensures Visited(t.tarjanIndex, b)
      {
        AllReachableVisited(g, t.tarjanIndex, g.root, b);
      }
    }
  }

  /** `bb` is an unvisited successor of a block being searched that was visited after all others being searched, and all
      successors before it have been visited. */
  ghost predicate IsNext(g: Graph, s: State, gray: set<nat>, bb: nat) {
    exists u: nat, j: nat :: IsNextOf(g, s, gray, bb, u, j)
  }

  ghost predicate IsNextOf(g: Graph, s: State, gray: set<nat>, bb: nat, u: nat, j: nat) {
    && u in gray && u < |g.succ| && j < |g.succ[u]| && g.succ[u][j] == bb && AllVisited(s, g.succ[u][..j])
    && u < |s.first| && forall x | x in gray :: x < |s.first| && s.first[x] <= s.first[u]
  }

  /** With no search under way nothing is on the stack. */
  lemma EmptyStack(g: Graph, t: State)
    requires Anchored(g, t.stack, {})
    ensures t.stack == []
  {
    assert |t.stack| > 0 ==> AnchoredAt(g, t.stack, {}, 0);
  }

  lemma IterationEnds(g: Graph, base: nat, t: State, u: State, i: nat)
    requires RootDone(g, base, t, i) && Ok(g, base, u, {}) && i < |g.blocks|
    requires if Visited(t.tarjanIndex, g.blocks[i]) then u == t
             else Searched(g, t.(starts := t.starts + {g.blocks[i]}), u, g.blocks[i], {}) && u.starts == t.starts + {g.blocks[i]}
    ensures Outer(g, base, u, i + 1) && t.loops <= u.loops
  {
    EmptyStack(g, u);
    if !Visited(t.tarjanIndex, g.blocks[i]) {
      assert Done(t.tarjanIndex, t.stack, g.root);
      forall k | 0 <= k < i
        ensures Visited(u.tarjanIndex, g.blocks[k])
      {
        assert Visited(t.tarjanIndex, g.blocks[k]);
      }
      if i == 0 {
        LongerLoops(g, t.loops, u.loops, base, g.root, t.loopId[g.root]);
      }
    }
  }

  lemma LongerLoops(g: Graph, loops: seq<Loop>, loops': seq<Loop>, base: nat, v: nat, id: int)
    requires base <= |loops| && loops <= loops' && IdOk(g, loops, base, v, id)
    ensures IdOk(g, loops', base, v, id)
  {
    if exists w: nat :: w != v && Mutual(g, v, w) {
      assert loops'[id] == loops[id];
    }
  }

  lemma StartAdded(g: Graph, base: nat, t: State, bb: nat)
    requires Ok(g, base, t, {})
    ensures Ok(g, base, t.(starts := t.starts + {bb}), {})
  {
    var u := t.(starts := t.starts + {bb});
    forall v: nat | Visited(u.tarjanIndex, v)
      ensures (v in u.starts || EnteredFrom(g, u, v)) && InTurn(g, u.first, v)
    {
      if v !in u.starts {
        assert EnteredFrom(g, t, v);
        var w: nat :| g.Edge(w, v) && Visited(t.tarjanIndex, w) && t.first[w] < t.first[v];
        assert g.Edge(w, v) && Visited(u.tarjanIndex, w) && u.first[w] < u.first[v];
      }
    }
  }

  /** What holds when every block has been visited. */
  lemma SearchIsComplete(g: Graph, base: nat, s: State)
    requires Outer(g, base, s, |g.blocks|)
    ensures FindsComponents(g, s.loops, base, s.first) && |s.loopId| == |g.succ|
    ensures forall b | b in g.blocks && b != g.root :: IdOk(g, s.loops, base, b, s.loopId[b])
    ensures s.loopId[g.root] == UNDEF
  {
    assert g.blocks != [];
    if |g.blocks| == 1 {
      NoPartner(g);
    }
    RootsEntered(g, base, s);
    forall k: nat | base <= k < |s.loops|
      ensures LoopOk(g, s.tarjanIndex, s.first, [], s.loops[k], k)
    {
    }
    forall b | b in g.blocks
      ensures Done(s.tarjanIndex, s.stack, b)
    {
      var k :| 0 <= k < |g.blocks| && g.blocks[k] == b;
      assert Visited(s.tarjanIndex, g.blocks[k]);
    }
  }

  class Finder {
    const g: Graph
    /** The loops found so far; a run appends to those it was given. */
    var loops: seq<Loop>
    var tarjanIndex: seq<int>
    var tarjanLlink: seq<int>
    var loopId: seq<int>
    var index: int
    var stack: seq<nat>
    /** The number each block got when it was first visited. */
    ghost var first: seq<int>
    /** The blocks the outer loop has started a search at. */
    ghost var starts: set<nat>
    ghost const base: nat

    constructor (g: Graph, loops: seq<Loop>)
      requires g.SuccValid()
      ensures this.g == g && this.loops == loops && base == |loops| && stack == [] && starts == {}
      ensures Ok(g, base, Fields(), {})
      ensures forall v: nat | v < |g.succ| :: tarjanIndex[v] == UNDEF && loopId[v] == UNDEF
    {
      this.g, this.loops, base := g, loops, |loops|;
      tarjanIndex := seq(|g.succ|, _ => UNDEF);
      tarjanLlink := seq(|g.succ|, _ => UNDEF);
      loopId := seq(|g.succ|, _ => UNDEF);
      first := seq(|g.succ|, _ => UNDEF);
      index, stack, starts := 0, [], {};
    }

    ghost function Fields(): State
      reads this
    {
      State(tarjanIndex, tarjanLlink, loopId, first, index, stack, loops, starts)
    }

    ghost function Unvisited(): set<nat>
      reads this
    {
      set v: nat | v < |tarjanIndex| && tarjanIndex[v] == UNDEF
    }

    /** `tarjan_strong_connect`.  Apart from the entry block, which is searched again on an empty stack, it is
        called for unvisited blocks only. */
    method StrongConnect(bb: nat, ghost gray: set<nat>)
      requires Ok(g, base, Fields(), gray) && bb in g.blocks
      requires tarjanIndex[bb] == UNDEF || (bb == g.root && stack == [] && gray == {})
      requires forall v | v in gray :: g.Reaches(v, bb)
      requires (bb in starts && gray == {} && (bb == g.root || Visited(tarjanIndex, g.root))) || IsNext(g, Fields(), gray, bb)
      modifies this
      ensures Ok(g, base, Fields(), gray) && starts == old(starts)
      ensures old(tarjanIndex[bb]) == UNDEF && bb !in stack ==> IdOk(g, loops, base, bb, loopId[bb])
      ensures old(tarjanIndex[bb]) == UNDEF ==> Searched(g, old(Fields()), Fields(), bb, gray) && Unvisited() < old(Unvisited())
      ensures old(tarjanIndex[bb]) != UNDEF ==>
                && loopId == old(loopId)[bb := UNDEF] && loops == old(loops) && stack == [] && first == old(first)
                && tarjanIndex == old(tarjanIndex)[bb := old(index)]
      decreases Unvisited(), 3
    {
      ghost var again, start := tarjanIndex[bb] != UNDEF, Fields();
      GrayVisited(g, base, start, gray);
      assert !again ==> gray + {bb} - {bb} == gray;
      Enter(bb);
      SearchStarts(g, base, start, Fields(), bb, gray, again);
      assert !again ==> bb in old(Unvisited()) && bb !in Unvisited();
      SearchSuccessors(bb, again, start, start.stack, gray + {bb});
      EndSearch(bb, again, start, gray + {bb});
    }

    /** The start: numbers the block and puts it on the stack. */
    method Enter(bb: nat)
      requires |tarjanIndex| == |tarjanLlink| == |first| && bb < |tarjanIndex|
      modifies this
      ensures var s := old(Fields());
              Fields() == s.(tarjanIndex := s.tarjanIndex[bb := s.index], tarjanLlink := s.tarjanLlink[bb := s.index],
                             first := if s.tarjanIndex[bb] != UNDEF then s.first else s.first[bb := s.index],
                             index := s.index + 1, stack := s.stack + [bb])
    {
      if tarjanIndex[bb] == UNDEF {
        first := first[bb := index];
      }
      tarjanIndex := tarjanIndex[bb := index];
      tarjanLlink := tarjanLlink[bb := index];
      index := index + 1;
      stack := stack + [bb];
    }

    /** The end, when all successors have been considered. */
    method EndSearch(bb: nat, ghost again: bool, ghost start: State, ghost gray: set<nat>)
      requires bb in g.blocks && bb < |g.succ| && g.SuccValid()
      requires again ==> Ok(g, base, start, {}) && start.stack == [] && bb == g.root && Visited(start.tarjanIndex, bb)
      requires again ==> SearchedAgain(start, Fields(), bb)
      requires !again ==> Searching(g, base, Fields(), bb, start.stack, gray, |g.succ[bb]|) && Kept(start, Fields())
      requires !again ==> 0 <= start.index <= tarjanIndex[bb]
      modifies this`loops, this`loopId, this`stack
      ensures tarjanIndex == old(tarjanIndex) && first == old(first) && starts == old(starts)
      ensures again ==> stack == [] && loopId == start.loopId[bb := UNDEF] && loops == start.loops && Ok(g, base, Fields(), {})
      ensures !again ==> Ok(g, base, Fields(), gray - {bb}) && Searched(g, start, Fields(), bb, gray - {bb})
      ensures !again && bb !in stack ==> IdOk(g, loops, base, bb, loopId[bb])
    {
      ghost var s := Fields();
      if !again {
        OnStack(g, base, s, bb, start.stack, gray);
      }
      ghost var nodes := FinishSearch(bb, if again then 0 else |start.stack|);
      if again {
        AgainKeepsOk(g, base, start, s, bb);
      } else {
        SearchEnds(g, base, start, s, Fields(), bb, gray, nodes);
      }
    }

    /** `tarjan`: searches the entry block on every iteration, and every block not visited yet.  The loops
        appended are exactly the strongly connected components with at least two blocks, each once. */
    method Tarjan() returns (detected: bool)
      requires Ok(g, base, Fields(), {}) && stack == [] && starts == {} && |loops| == base
      requires forall v: nat | v < |g.succ| :: tarjanIndex[v] == UNDEF && loopId[v] == UNDEF
      modifies this
      ensures old(loops) <= loops && (detected <==> |loops| > |old(loops)|)
      ensures FindsComponents(g, loops, |old(loops)|, first)
      ensures |loopId| == |g.succ|
      ensures forall b | b in g.blocks && b != g.root :: IdOk(g, loops, |old(loops)|, b, loopId[b])
      ensures loopId[g.root] == UNDEF
    {
      var nLoops := |loops|;
      starts := starts + {g.root};
      for i := 0 to |g.blocks|
        invariant Outer(g, base, Fields(), i) && old(loops) <= loops
      {
        SearchFrom(i);
      }
      SearchIsComplete(g, base, Fields());
      detected := nLoops < |loops|;
    }

    /** One iteration of the outer loop. */
    method SearchFrom(i: nat)
      requires Outer(g, base, Fields(), i) && i < |g.blocks|
      modifies this
      ensures Outer(g, base, Fields(), i + 1) && old(loops) <= loops
    {
      ghost var s := Fields();
      StrongConnect(g.root, {});
      ghost var t := Fields();
      RootSearched(g, base, s, t, i);
      var bb := g.blocks[i];
      if tarjanIndex[bb] == UNDEF {
        starts := starts + {bb};
        StartAdded(g, base, t, bb);
        StrongConnect(bb, {});
      }
      IterationEnds(g, base, t, Fields(), i);
    }

    /** The end of the search of `bb`: takes its component off the stack if its link is its own number. */
    method FinishSearch(bb: nat, ghost k0: nat) returns (ghost nodes: seq<nat>)
      requires k0 < |stack| && stack[k0] == bb && NoDuplicates(stack)
      requires |tarjanIndex| == |tarjanLlink| == |loopId| && forall i | 0 <= i < |stack| :: stack[i] < |loopId|
      modifies this`loops, this`loopId, this`stack
      ensures if tarjanLlink[bb] == tarjanIndex[bb] then Popped(old(Fields()), Fields(), bb, k0, nodes)
              else Fields() == old(Fields())
    {
      nodes := [];
      if tarjanLlink[bb] == tarjanIndex[bb] {
        stack, loopId, loops, nodes := CloseComponent(stack, loopId, loops, bb, k0);
      }
    }

    /** Searches the unvisited `j`-th successor of `bb` and takes over its link. */
    method VisitSuccessor(bb: nat, j: nat, ghost below: seq<nat>, ghost gray: set<nat>)
      requires bb < |g.succ| && j < |g.succ[bb]| && Searching(g, base, Fields(), bb, below, gray, j)
      requires !Visited(tarjanIndex, g.succ[bb][j]) && forall v | v in gray :: g.Reaches(v, bb)
      modifies this
      ensures bb < |tarjanIndex| && tarjanIndex[bb] == old(tarjanIndex[bb])
      ensures Searching(g, base, Fields(), bb, below, gray, j + 1) && KeptExcept(old(Fields()), Fields(), {bb})
      ensures Unvisited() <= old(Unvisited()) && starts == old(starts)
      decreases Unvisited(), 5
    {
      var successor := g.succ[bb][j];
      ghost var before := Fields();
      SearchSuccessor(bb, j, below, gray);
      ghost var after := Fields();
      AfterChild(g, base, before, after, bb, below, gray, j);
      tarjanLlink := tarjanLlink[bb := Min(tarjanLlink[bb], tarjanLlink[successor])];
      assert Fields() == Lower(after, bb, after.tarjanLlink[successor]);
    }

    /** The recursive call for the unvisited `j`-th successor of `bb`. */
    method SearchSuccessor(bb: nat, j: nat, ghost below: seq<nat>, ghost gray: set<nat>)
      requires bb < |g.succ| && j < |g.succ[bb]| && Searching(g, base, Fields(), bb, below, gray, j)
      requires !Visited(tarjanIndex, g.succ[bb][j]) && forall v | v in gray :: g.Reaches(v, bb)
      modifies this
      ensures Ok(g, base, Fields(), gray) && Searched(g, old(Fields()), Fields(), g.succ[bb][j], gray)
      ensures Unvisited() <= old(Unvisited()) && starts == old(starts)
      decreases Unvisited(), 4
    {
      var successor := g.succ[bb][j];
      assert successor in g.blocks && g.Edge(bb, successor);
      ReachAll(g, gray, bb, successor);
      SuccessorIsNext(g, base, Fields(), bb, below, gray, j);
      StrongConnect(successor, gray);
    }

    /** The loop over the successors. */
    method SearchSuccessors(bb: nat, ghost again: bool, ghost start: State, ghost below: seq<nat>, ghost gray: set<nat>)
      requires bb in g.blocks && bb < |g.succ| && g.SuccValid() && |tarjanIndex| == |g.succ|
      requires if again then SearchedAgain(start, Fields(), bb) && AllVisited(start, g.succ[bb]) && start.index >= 0
               else Searching(g, base, Fields(), bb, below, gray, 0) && Kept(start, Fields()) && !Visited(start.tarjanIndex, bb)
      requires !again ==> forall v | v in gray :: g.Reaches(v, bb)
      modifies this
      ensures bb < |tarjanIndex| && tarjanIndex[bb] == old(tarjanIndex[bb])
      ensures again ==> SearchedAgain(start, Fields(), bb)
      ensures !again ==> Searching(g, base, Fields(), bb, below, gray, |g.succ[bb]|) && Kept(start, Fields())
      ensures Unvisited() <= old(Unvisited()) && starts == old(starts)
      decreases Unvisited(), if again then 2 else 8
    {
      for j := 0 to |g.succ[bb]|
        invariant |tarjanIndex| == |g.succ| && tarjanIndex[bb] == old(tarjanIndex[bb])
        invariant again ==> SearchedAgain(start, Fields(), bb)
        invariant !again ==> Searching(g, base, Fields(), bb, below, gray, j) && Kept(start, Fields())
        invariant Unvisited() <= old(Unvisited()) && starts == old(starts)
      {
        NextSuccessor(bb, j, again, start, below, gray);
      }
    }

    /** The loop body, seen from where the loop started. */
    method NextSuccessor(bb: nat, j: nat, ghost again: bool, ghost start: State, ghost below: seq<nat>, ghost gray: set<nat>)
      requires bb in g.blocks && bb < |g.succ| && j < |g.succ[bb]| && g.SuccValid() && |tarjanIndex| == |g.succ|
      requires if again then SearchedAgain(start, Fields(), bb) && AllVisited(start, g.succ[bb]) && start.index >= 0
               else Searching(g, base, Fields(), bb, below, gray, j) && Kept(start, Fields()) && !Visited(start.tarjanIndex, bb)
      requires !again ==> forall v | v in gray :: g.Reaches(v, bb)
      modifies this
      ensures |tarjanIndex| == |g.succ| && tarjanIndex[bb] == old(tarjanIndex[bb])
      ensures again ==> SearchedAgain(start, Fields(), bb)
      ensures !again ==> Searching(g, base, Fields(), bb, below, gray, j + 1) && Kept(start, Fields())
      ensures Unvisited() <= old(Unvisited()) && starts == old(starts)
      decreases Unvisited(), if again then 1 else 7
    {
      ghost var before := Fields();
      ConsiderSuccessor(bb, j, again, start, below, gray);
      if !again {
        KeptOnwards(start, before, Fields(), bb);
      }
    }

    /** The loop body: considers the `j`-th successor of `bb`. */
    method ConsiderSuccessor(bb: nat, j: nat, ghost again: bool, ghost start: State, ghost below: seq<nat>, ghost gray: set<nat>)
      requires bb in g.blocks && bb < |g.succ| && j < |g.succ[bb]| && g.SuccValid() && |tarjanIndex| == |g.succ|
      requires if again then SearchedAgain(start, Fields(), bb) && AllVisited(start, g.succ[bb]) && start.index >= 0
               else Searching(g, base, Fields(), bb, below, gray, j)
      requires !again ==> forall v | v in gray :: g.Reaches(v, bb)
      modifies this
      ensures bb < |tarjanIndex| && tarjanIndex[bb] == old(tarjanIndex[bb])
      ensures again ==> SearchedAgain(start, Fields(), bb)
      ensures !again ==> Searching(g, base, Fields(), bb, below, gray, j + 1) && KeptExcept(old(Fields()), Fields(), {bb})
      ensures Unvisited() <= old(Unvisited()) && starts == old(starts)
      decreases Unvisited(), if again then 0 else 6
    {
      var successor := g.succ[bb][j];
      assert successor in g.blocks && g.Edge(bb, successor);
      assert again ==> Visited(start.tarjanIndex, successor);
      ghost var before := Fields();
      if tarjanIndex[successor] == UNDEF {
        VisitSuccessor(bb, j, below, gray);
      } else if successor in stack {
        tarjanLlink := tarjanLlink[bb := Min(tarjanLlink[bb], tarjanIndex[successor])];
        if !again {
          AfterStacked(g, base, before, bb, below, gray, j);
          assert Fields() == Lower(before, bb, before.tarjanIndex[successor]);
        }
      } else if !again {
        SkipFinished(g, before, bb, below, gray, j);
      }
    }
  }

  lemma SuccessorIsNext(g: Graph, base: nat, s: State, bb: nat, below: seq<nat>, gray: set<nat>, j: nat)
    requires bb < |g.succ| && j < |g.succ[bb]| && Searching(g, base, s, bb, below, gray, j)
    ensures IsNext(g, s, gray, g.succ[bb][j])
  {
    assert s.stack[|below|] == bb;
    forall x | x in gray
      ensures x < |s.first| && s.first[x] <= s.first[bb]
    {
      assert x in s.stack;
      var m :| 0 <= m < |s.stack| && s.stack[m] == x;
      assert m <= |below|;
    }
    assert IsNextOf(g, s, gray, g.succ[bb][j], bb, j);
  }

  lemma ReachAll(g: Graph, gray: set<nat>, bb: nat, successor: nat)
    requires g.SuccValid() && g.Edge(bb, successor) && forall v | v in gray :: g.Reaches(v, bb)
    ensures forall v | v in gray :: g.Reaches(v, successor)
  {
    ReachesByEdge(g, bb, successor);
    forall v | v in gray
      ensures g.Reaches(v, successor)
    {
      ReachesTransitively(g, v, bb, successor);
    }
  }

  /** The fields while the entry block is searched again: all its successors are finished already. */
  ghost predicate SearchedAgain(start: State, s: State, bb: nat) {
    && bb < |start.tarjanIndex| == |start.tarjanLlink|
    && s == start.(tarjanIndex := start.tarjanIndex[bb := start.index], tarjanLlink := start.tarjanLlink[bb := start.index],
                   index := start.index + 1, stack := [bb])
  }

  lemma SearchStarts(g: Graph, base: nat, start: State, s: State, bb: nat, gray: set<nat>, again: bool)
    requires Ok(g, base, start, gray) && bb in g.blocks && again == (start.tarjanIndex[bb] != UNDEF)
    requires again ==> start.stack == [] && gray == {}
    requires forall v | v in gray :: g.Reaches(v, bb)
    requires (bb in start.starts && gray == {} && (bb == g.root || Visited(start.tarjanIndex, g.root))) || IsNext(g, start, gray, bb)
    requires s == start.(tarjanIndex := start.tarjanIndex[bb := start.index], tarjanLlink := start.tarjanLlink[bb := start.index],
                         first := if again then start.first else start.first[bb := start.index],
                         index := start.index + 1, stack := start.stack + [bb])
    ensures !again ==> Searching(g, base, s, bb, start.stack, gray + {bb}, 0) && Kept(start, s)
    ensures !again ==> forall v | v in gray + {bb} :: g.Reaches(v, bb)
    ensures again ==> SearchedAgain(start, s, bb) && AllVisited(start, g.succ[bb])
  {
    if again {
      assert forall k | 0 <= k < |g.succ[bb]| :: g.Edge(bb, g.succ[bb][k]);
    } else {
      PushOk(g, base, start, bb, gray);
      ReachesItself(g, bb);
      PushProgress(g, start, s, bb, gray);
    }
  }

  function Push(s: State, bb: nat): State
    requires bb < |s.tarjanIndex| == |s.tarjanLlink| == |s.first|
  {
    s.(tarjanIndex := s.tarjanIndex[bb := s.index], tarjanLlink := s.tarjanLlink[bb := s.index],
       first := s.first[bb := s.index], index := s.index + 1, stack := s.stack + [bb])
  }

  lemma PushOk(g: Graph, base: nat, s: State, bb: nat, gray: set<nat>)
    requires Ok(g, base, s, gray) && bb in g.blocks && s.tarjanIndex[bb] == UNDEF
    requires forall v | v in gray :: g.Reaches(v, bb)
    requires (bb in s.starts && gray == {} && (bb == g.root || Visited(s.tarjanIndex, g.root))) || IsNext(g, s, gray, bb)
    ensures Ok(g, base, Push(s, bb), gray + {bb})
  {
    PushEntered(g, s, bb, gray);
    PushKeeps(g, s.tarjanIndex, s.index, s.stack, gray, bb);
    var t := Push(s, bb);
    forall k: nat | base <= k < |t.loops|
      ensures LoopOk(g, t.tarjanIndex, t.first, t.stack, t.loops[k], k)
    {
      assert LoopOk(g, s.tarjanIndex, s.first, s.stack, s.loops[k], k);
    }
    forall v: nat | Done(t.tarjanIndex, t.stack, v) && v != g.root
      ensures IdOk(g, t.loops, base, v, t.loopId[v])
    {
      assert Done(s.tarjanIndex, s.stack, v);
    }
  }

  lemma PushProgress(g: Graph, start: State, s: State, bb: nat, gray: set<nat>)
    requires g.SuccValid() && Numbered(g, start) && bb in g.blocks && start.tarjanIndex[bb] == UNDEF && start.index >= 0
    requires s == Push(start, bb) && g.Reaches(bb, bb) && Numbered(g, s)
    ensures Progress(g, s, bb, start.stack, gray + {bb}, 0) && Kept(start, s)
  {
    assert bb in start.stack + [bb] && s.tarjanIndex[bb] == s.tarjanLlink[bb];
  }

  lemma PushEntered(g: Graph, s: State, bb: nat, gray: set<nat>)
    requires g.SuccValid() && Numbered(g, s) && Entered(g, s) && bb in g.blocks && s.tarjanIndex[bb] == UNDEF && s.index >= 0
    requires forall v | v in gray :: v in s.stack
    requires NoUnvisited(g, s.tarjanIndex, gray)
    requires (bb in s.starts && gray == {} && (bb == g.root || Visited(s.tarjanIndex, g.root))) || IsNext(g, s, gray, bb)
    ensures Entered(g, Push(s, bb))
  {
    var t := Push(s, bb);
    PushFirst(g, s, bb, gray);
    NewInTurn(g, s, bb, gray);
    forall v: nat | Visited(t.tarjanIndex, v)
      ensures (v in t.starts || EnteredFrom(g, t, v)) && InTurn(g, t.first, v)
    {
      if v == bb {
        NewEntered(g, s, bb, gray);
      } else {
        assert v in s.starts || EnteredFrom(g, s, v);
        StillEntered(g, s, bb, v);
      }
    }
  }

  lemma PushFirst(g: Graph, s: State, bb: nat, gray: set<nat>)
    requires g.SuccValid() && Numbered(g, s) && FirstOk(g, s) && bb in g.blocks && s.tarjanIndex[bb] == UNDEF && s.index >= 0
    requires forall v | v in gray :: v in s.stack
    requires (gray == {} && (bb == g.root || Visited(s.tarjanIndex, g.root))) || IsNext(g, s, gray, bb)
    ensures FirstOk(g, Push(s, bb))
  {
    if IsNext(g, s, gray, bb) {
      var u: nat, j: nat :| IsNextOf(g, s, gray, bb, u, j);
      assert u in s.stack;
      assert Visited(s.tarjanIndex, u) && s.first[u] >= 0;
    }
  }

  /** The block pushed has been visited in its turn. */
  lemma NewInTurn(g: Graph, s: State, bb: nat, gray: set<nat>)
    requires g.SuccValid() && Numbered(g, s) && FirstOk(g, s) && bb in g.blocks && s.tarjanIndex[bb] == UNDEF && s.index >= 0
    requires NoUnvisited(g, s.tarjanIndex, gray) && forall v | v in gray :: v in s.stack
    requires gray == {} || IsNext(g, s, gray, bb)
    ensures InTurn(g, Push(s, bb).first, bb)
  {
    var first := Push(s, bb).first;
    forall z: nat
      ensures Before(first, z, bb) <==> Visited(s.tarjanIndex, z)
    {
    }
    if gray == {} {
      assert Exhausted(g, first, bb, UNDEF);
    } else {
      var u: nat, j: nat :| IsNextOf(g, s, gray, bb, u, j);
      assert u in s.stack;
      forall i | 0 <= i < j
        ensures Before(first, g.succ[u][i], bb)
      {
        assert Visited(s.tarjanIndex, g.succ[u][..j][i]);
      }
      forall z: nat, x: nat | g.Edge(z, x) && Before(first, z, bb) && first[u] < first[z]
        ensures Before(first, x, bb)
      {
        assert z !in gray;
      }
      assert TurnOf(g, first, bb, u, j);
    }
  }

  lemma NewEntered(g: Graph, s: State, bb: nat, gray: set<nat>)
    requires g.SuccValid() && Numbered(g, s) && FirstOk(g, s) && bb in g.blocks && s.tarjanIndex[bb] == UNDEF && s.index >= 0
    requires forall v | v in gray :: v in s.stack
    requires bb in s.starts || IsNext(g, s, gray, bb)
    ensures bb in s.starts || EnteredFrom(g, Push(s, bb), bb)
  {
    if bb !in s.starts {
      var t := Push(s, bb);
      var u: nat, j: nat :| IsNextOf(g, s, gray, bb, u, j);
      assert u in s.stack;
      assert g.Edge(u, bb) && Visited(t.tarjanIndex, u) && t.first[u] < t.first[bb];
    }
  }

  /** Visiting another block changes nothing for those visited before. */
  lemma StillEntered(g: Graph, s: State, bb: nat, v: nat)
    requires Numbered(g, s) && FirstOk(g, s) && bb < |g.succ| && s.tarjanIndex[bb] == UNDEF && s.index >= 0
    requires Visited(s.tarjanIndex, v) && InTurn(g, s.first, v)
    ensures InTurn(g, Push(s, bb).first, v)
    ensures EnteredFrom(g, s, v) ==> EnteredFrom(g, Push(s, bb), v)
  {
    var t := Push(s, bb);
    forall z: nat
      ensures Before(t.first, z, v) <==> Before(s.first, z, v)
    {
    }
    SameTurn(g, s.first, t.first, v);
    if EnteredFrom(g, s, v) {
      var u: nat :| g.Edge(u, v) && Visited(s.tarjanIndex, u) && s.first[u] < s.first[v];
      assert g.Edge(u, v) && Visited(t.tarjanIndex, u) && t.first[u] < t.first[v];
    }
  }

  lemma SameTurn(g: Graph, first: seq<int>, first': seq<int>, v: nat)
    requires InTurn(g, first, v) && |first| == |first'|
    requires forall z: nat :: Before(first', z, v) <==> Before(first, z, v)
    requires forall z: nat | Before(first, z, v) :: first'[z] == first[z]
    ensures InTurn(g, first', v)
  {
    if Exhausted(g, first, v, UNDEF) {
      assert Exhausted(g, first', v, UNDEF);
    } else {
      var u: nat, j: nat :| TurnOf(g, first, v, u, j);
      assert TurnOf(g, first', v, u, j);
    }
  }

  lemma SameEntered(g: Graph, s: State, t: State)
    requires |s.first| == |s.tarjanIndex| == |t.tarjanIndex| && t.first == s.first && t.starts == s.starts && Entered(g, s)
    requires s.index <= t.index
    requires forall v: nat :: Visited(t.tarjanIndex, v) <==> Visited(s.tarjanIndex, v)
    ensures Entered(g, t)
  {
    forall v: nat | Visited(t.tarjanIndex, v)
      ensures (v in t.starts || EnteredFrom(g, t, v)) && InTurn(g, t.first, v)
    {
      if v !in t.starts {
        assert EnteredFrom(g, s, v);
        var u: nat :| g.Edge(u, v) && Visited(s.tarjanIndex, u) && s.first[u] < s.first[v];
        assert g.Edge(u, v) && Visited(t.tarjanIndex, u) && t.first[u] < t.first[v];
      }
    }
  }

  /** With no search under way, everything reachable from a visited block is visited. */
  lemma {:induction false} VisitedSpreads(g: Graph, index: seq<int>, p: seq<nat>)
    requires NoUnvisited(g, index, {}) && g.IsPath(p) && Visited(index, p[0])
    ensures Visited(index, Last(p))
    decreases |p|
  {
    if |p| > 1 {
      assert g.Edge(p[0], p[1]);
      PathSuffix(g, p, 1);
      VisitedSpreads(g, index, p[1..]);
    }
  }

  lemma AllReachableVisited(g: Graph, index: seq<int>, a: nat, b: nat)
    requires NoUnvisited(g, index, {}) && Visited(index, a) && g.Reaches(a, b)
    ensures Visited(index, b)
  {
    var p :| g.IsPathBetween(p, a, b);
    VisitedSpreads(g, index, p);
  }

  lemma NoPartner(g: Graph)
    requires g.SuccValid() && |g.blocks| == 1
    ensures forall w: nat :: Mutual(g, g.root, w) ==> w == g.root
  {
    forall w: nat | Mutual(g, g.root, w)
      ensures w == g.root
    {
      var p :| g.IsPathBetween(p, g.root, w);
      assert p[|p| - 1] in g.blocks;
    }
  }

  lemma RootsEntered(g: Graph, base: nat, s: State)
    requires Ok(g, base, s, {}) && s.stack == [] && (RootReachesAll(g) ==> s.starts == {g.root})
    ensures RootReachesAll(g) ==> forall k: nat | base <= k < |s.loops| ::
              s.loops[k].root == g.root || exists u :: g.Edge(u, s.loops[k].root) && u !in s.loops[k].nodes
  {
    if RootReachesAll(g) {
      forall k: nat | base <= k < |s.loops| && s.loops[k].root != g.root
        ensures exists u :: g.Edge(u, s.loops[k].root) && u !in s.loops[k].nodes
      {
        var r := s.loops[k].root;
        assert LoopOk(g, s.tarjanIndex, s.first, s.stack, s.loops[k], k);
        assert EnteredFrom(g, s, r);
        var u: nat :| g.Edge(u, r) && Visited(s.tarjanIndex, u) && s.first[u] < s.first[r];
      }
    }
  }
}
