/** The order in which a search lists the blocks of a loop.  It depends on nothing but the edges inside the loop other
    than those to its header, so a search that finds the same loop again lists it in the same order. */
module LoopOrder {
  import opened Graphs
  import opened Loops
  import opened Components
  import opened Tarjan
  import opened LoopBodies
  import opened LoopNesting

  function Reversed(s: seq<nat>): (r: seq<nat>)
    ensures |r| == |s| && forall i | 0 <= i < |s| :: r[i] == s[|s| - 1 - i]
  {
    seq(|s|, i requires 0 <= i < |s| => s[|s| - 1 - i])
  }

  /** `w` is the first block of `list` that is not in `prefix`. */
  ghost predicate FirstNew(list: seq<nat>, prefix: seq<nat>, w: nat) {
    w !in prefix && exists j | 0 <= j < |list| :: list[j] == w && forall i | 0 <= i < j :: list[i] in prefix
  }

  /** After the blocks of `prefix` a search goes on from its `a`-th block to `w`: the later ones have nothing new. */
  ghost predicate NextFrom(lists: seq<seq<nat>>, prefix: seq<nat>, a: nat, w: nat) {
    && a < |prefix| && prefix[a] < |lists| && FirstNew(lists[prefix[a]], prefix, w)
    && forall b: nat, x: nat | a < b < |prefix| && prefix[b] < |lists| && x in lists[prefix[b]] :: x in prefix
  }

  ghost predicate DfsOrder(lists: seq<seq<nat>>, order: seq<nat>) {
    forall k: nat {:trigger HasNext(lists, order, k)} | 0 < k < |order| :: HasNext(lists, order, k)
  }

  ghost predicate HasNext(lists: seq<seq<nat>>, order: seq<nat>, k: nat)
    requires k < |order|
  {
    exists a: nat :: NextFrom(lists, order[..k], a, order[k])
  }

  lemma NextIsUnique(lists: seq<seq<nat>>, prefix: seq<nat>, a: nat, v: nat, b: nat, w: nat)
    requires NextFrom(lists, prefix, a, v) && NextFrom(lists, prefix, b, w)
    ensures v == w
  {
    LaterHasNone(lists, prefix, a, v, b, w);
    LaterHasNone(lists, prefix, b, w, a, v);
    if a == b {
      var i :| 0 <= i < |lists[prefix[a]]| && lists[prefix[a]][i] == v && forall x | 0 <= x < i :: lists[prefix[a]][x] in prefix;
      var j :| 0 <= j < |lists[prefix[a]]| && lists[prefix[a]][j] == w && forall x | 0 <= x < j :: lists[prefix[a]][x] in prefix;
    }
  }

  lemma LaterHasNone(lists: seq<seq<nat>>, prefix: seq<nat>, a: nat, v: nat, b: nat, w: nat)
    requires NextFrom(lists, prefix, a, v)
    ensures a < b < |prefix| && prefix[b] < |lists| ==> !FirstNew(lists[prefix[b]], prefix, w)
  {
    if a < b < |prefix| && prefix[b] < |lists| {
      var list := lists[prefix[b]];
      forall j | 0 <= j < |list|
        ensures list[j] in prefix
      {
        assert list[j] in list;
      }
    }
  }

  /** There is only one order that starts with a given block. */
  lemma {:induction false} SamePrefix(lists: seq<seq<nat>>, s: seq<nat>, t: seq<nat>, n: nat)
    requires DfsOrder(lists, s) && DfsOrder(lists, t) && n <= |s| == |t| && (s != [] ==> s[0] == t[0])
    ensures s[..n] == t[..n]
  {
    if n > 1 {
      var k: nat := n - 1;
      SamePrefix(lists, s, t, k);
      assert HasNext(lists, s, k) && HasNext(lists, t, k);
      var a: nat :| NextFrom(lists, s[..k], a, s[k]);
      var b: nat :| NextFrom(lists, t[..k], b, t[k]);
      NextIsUnique(lists, s[..k], a, s[k], b, t[k]);
      assert s[..n] == s[..k] + [s[k]] && t[..n] == t[..k] + [t[k]];
    }
  }

  // ---------------------------------------------------------------- the lists of the body

  /** The successors inside the loop, without the header. */
  function Inward(s: seq<nat>, nodes: seq<nat>, root: nat): seq<nat> {
    Without(Within(s, nodes), [root])
  }

  lemma InwardAdds(s: seq<nat>, x: nat, nodes: seq<nat>, root: nat)
    ensures Inward(s + [x], nodes, root) == Inward(s, nodes, root) + if x in nodes && x != root then [x] else []
  {
    var all, w := s + [x], Within(s, nodes);
    assert all[..|all| - 1] == s && Last(all) == x;
    var more := w + [x];
    assert more[..|more| - 1] == w && more[|more| - 1] == x;
    assert Within(all, nodes) == if x in nodes then more else w;
    assert x in [root] <==> x == root;
  }

  lemma InwardMembers(s: seq<nat>, nodes: seq<nat>, root: nat)
    ensures forall x: nat :: x in Inward(s, nodes, root) <==> x in s && x in nodes && x != root
  {
    WithinMembers(s, nodes);
    WithoutMembers(Within(s, nodes), [root]);
  }

  lemma {:induction false} InwardPrefix(s: seq<nat>, n: nat, nodes: seq<nat>, root: nat)
    requires n <= |s|
    ensures Inward(s[..n], nodes, root) <= Inward(s, nodes, root)
    decreases |s|
  {
    if n < |s| {
      var front := s[..|s| - 1];
      InwardPrefix(front, n, nodes, root);
      assert front[..n] == s[..n] && s == front + [Last(s)];
      InwardAdds(front, Last(s), nodes, root);
    } else {
      assert s[..n] == s;
    }
  }

  /** The first new successor is also the first new one among those inside. */
  lemma FirstNewInward(s: seq<nat>, nodes: seq<nat>, root: nat, prefix: seq<nat>, j: nat)
    requires j < |s| && s[j] in nodes && s[j] != root && s[j] !in prefix
    requires forall i | 0 <= i < j && s[i] in nodes && s[i] != root :: s[i] in prefix
    ensures FirstNew(Inward(s, nodes, root), prefix, s[j])
  {
    var before, list := Inward(s[..j], nodes, root), Inward(s, nodes, root);
    InwardMembers(s[..j], nodes, root);
    assert s[..j + 1] == s[..j] + [s[j]];
    InwardAdds(s[..j], s[j], nodes, root);
    InwardPrefix(s, j + 1, nodes, root);
    assert list[|before|] == s[j];
    forall i | 0 <= i < |before|
      ensures list[i] in prefix
    {
      assert list[i] == before[i] && before[i] in before;
      var m :| 0 <= m < |s[..j]| && s[..j][m] == before[i];
    }
  }

  lemma {:induction false} InwardWithoutFirst(s: seq<nat>, x: nat, nodes: seq<nat>, root: nat)
    requires x !in nodes || x == root
    ensures Inward(RemoveFirst(s, x), nodes, root) == Inward(s, nodes, root)
  {
    if s != [] {
      var front := s[..|s| - 1];
      InwardWithoutFirst(front, x, nodes, root);
      assert s == front + [Last(s)];
      InwardAdds(front, Last(s), nodes, root);
      if x in front {
        InwardAdds(RemoveFirst(front, x), Last(s), nodes, root);
      }
    }
  }

  lemma {:induction false} InwardOfWithin(s: seq<nat>, outer: seq<nat>, nodes: seq<nat>, root: nat)
    requires forall v: nat | v in nodes :: v in outer
    ensures Inward(Within(s, outer), nodes, root) == Inward(s, nodes, root)
  {
    if s != [] {
      var front := s[..|s| - 1];
      InwardOfWithin(front, outer, nodes, root);
      assert s == front + [Last(s)];
      InwardAdds(front, Last(s), nodes, root);
      InwardAdds(Within(front, outer), Last(s), nodes, root);
      if Last(s) !in outer {
        assert Within(s, outer) == Within(front, outer);
      }
    }
  }

  lemma {:induction false} WithinSameMembers(s: seq<nat>, nodes: seq<nat>, others: seq<nat>)
    requires forall v: nat :: v in nodes <==> v in others
    ensures Within(s, nodes) == Within(s, others)
  {
    if s != [] {
      WithinSameMembers(s[..|s| - 1], nodes, others);
    }
  }

  lemma SameMembersSameLists(g: Graph, nodes: seq<nat>, others: seq<nat>, root: nat)
    requires forall v: nat :: v in nodes <==> v in others
    ensures Inner(g, nodes, root).succ == Inner(g, others, root).succ
  {
    forall a: nat | a < |g.succ|
      ensures Inner(g, nodes, root).succ[a] == Inner(g, others, root).succ[a]
    {
      WithinSameMembers(g.succ[a], nodes, others);
    }
  }

  /** The copy of a surrounding loop has the same lists inside `nodes`. */
  lemma CopyLists(g: Graph, outer: seq<nat>, header: nat, tail: nat, body: Graph, nodes: seq<nat>, root: nat)
    requires IsBody(g, outer, header, tail, body) && (forall v: nat | v in nodes :: v in outer)
    requires header in nodes ==> root == header
    ensures Inner(body, nodes, root).succ == Inner(g, nodes, root).succ
  {
    forall a: nat | a < |g.succ|
      ensures Inner(body, nodes, root).succ[a] == Inner(g, nodes, root).succ[a]
    {
      if a in nodes {
        var s := g.succ[a];
        InwardOfWithin(s, outer, nodes, root);
        InwardOfWithin(RemoveFirst(s, header), outer, nodes, root);
        InwardWithoutFirst(s, header, nodes, root);
      }
    }
  }

  // ---------------------------------------------------------------- a component in the order of the search

  /** A walk that starts before `v`, over blocks visited after number `low`, has been visited before `v` altogether. */
  lemma {:induction false} WalkBefore(g: Graph, first: seq<int>, v: nat, low: int, p: seq<nat>)
    requires Exhausted(g, first, v, low) && g.IsPath(p) && Before(first, p[0], v)
    requires forall i | 0 <= i < |p| :: p[i] < |first| && low < first[p[i]]
    ensures Before(first, Last(p), v)
    decreases |p|
  {
    if |p| > 1 {
      var q := p[..|p| - 1];
      PathPrefix(g, p, |p| - 1);
      WalkBefore(g, first, v, low, q);
      assert g.Edge(p[|p| - 2], p[|p| - 1]);
    }
  }

  /** `r` is the block of its component that was visited first, and `w` another one. */
  ghost predicate SearchedFrom(g: Graph, first: seq<int>, r: nat, nodes: seq<nat>, w: nat) {
    && g.SuccValid() && SearchOrder(g, first) && Component(g, r, nodes) && w in nodes && r < |first|
    && forall v | v in nodes :: v < |first| && 0 <= first[r] <= first[v]
  }

  /** All of a component has been visited by the time the first block that its root does not reach is. */
  lemma NotBetween(g: Graph, first: seq<int>, r: nat, nodes: seq<nat>, w: nat, x: nat, low: int)
    requires SearchedFrom(g, first, r, nodes, w) && Exhausted(g, first, x, low) && low < first[r]
    requires Before(first, r, x)
    ensures Before(first, w, x)
  {
    var p :| g.IsPathBetween(p, r, w);
    forall i | 0 <= i < |p|
      ensures p[i] < |first| && low < first[p[i]]
    {
      PathInComponent(g, r, nodes, p, i);
    }
    WalkBefore(g, first, x, low, p);
  }

  /** The root reaches everything visited between it and a block of its component. */
  lemma {:induction false} RootReaches(g: Graph, first: seq<int>, r: nat, nodes: seq<nat>, w: nat, x: nat)
    requires SearchedFrom(g, first, r, nodes, w) && x in g.blocks && x < |first| && first[r] <= first[x] < first[w]
    ensures g.Reaches(r, x)
    decreases first[x]
  {
    assert InTurn(g, first, x);
    if x == r {
      ReachesItself(g, r);
    } else {
      assert first[r] != first[x];
      if Exhausted(g, first, x, UNDEF) {
        NotBetween(g, first, r, nodes, w, x, UNDEF);
        assert false;
      } else {
        var y: nat, j: nat :| TurnOf(g, first, x, y, j);
        assert g.Edge(y, x);
        if first[y] < first[r] {
          NotBetween(g, first, r, nodes, w, x, first[y]);
          assert false;
        } else {
          RootReaches(g, first, r, nodes, w, y);
          ReachesByEdge(g, y, x);
          ReachesTransitively(g, r, y, x);
        }
      }
    }
  }

  /** The block from which the search came to `w` is in the component too. */
  lemma ParentInside(g: Graph, first: seq<int>, r: nat, nodes: seq<nat>, w: nat, u: nat, j: nat)
    requires SearchedFrom(g, first, r, nodes, w) && TurnOf(g, first, w, u, j) && w != r
    ensures u in nodes
  {
    assert g.Edge(u, w);
    assert first[r] != first[w];
    if first[u] < first[r] {
      NotBetween(g, first, r, nodes, w, w, first[u]);
    }
    RootReaches(g, first, r, nodes, w, u);
    ReachesByEdge(g, u, w);
    ReachesTransitively(g, u, w, r);
  }

  lemma HasParent(g: Graph, first: seq<int>, r: nat, nodes: seq<nat>, w: nat) returns (u: nat, j: nat)
    requires SearchedFrom(g, first, r, nodes, w) && w != r
    ensures TurnOf(g, first, w, u, j) && u in nodes
  {
    var p :| g.IsPathBetween(p, r, w);
    assert p[|p| - 1] in g.blocks;
    assert InTurn(g, first, w);
    assert first[r] != first[w];
    if Exhausted(g, first, w, UNDEF) {
      NotBetween(g, first, r, nodes, w, w, UNDEF);
    }
    u, j :| TurnOf(g, first, w, u, j);
    ParentInside(g, first, r, nodes, w, u, j);
  }

  /** In the reversed list, the blocks before position `k` are those visited before the block there. */
  lemma PrefixIsBefore(first: seq<int>, nodes: seq<nat>, k: nat, x: nat)
    requires Falling(first, nodes) && k < |nodes| && (forall v | v in nodes :: 0 <= first[v])
    ensures x in Reversed(nodes)[..k] <==> x in nodes && Before(first, x, Reversed(nodes)[k])
  {
    var order := Reversed(nodes);
    assert forall i | 0 <= i < |nodes| :: nodes[i] in nodes;
    if x in order[..k] {
      var i :| 0 <= i < k && order[i] == x;
      assert nodes[|nodes| - 1 - i] == x;
    }
    if x in nodes && Before(first, x, order[k]) {
      var i :| 0 <= i < |nodes| && nodes[i] == x;
      assert order[|nodes| - 1 - i] == x;
      assert |nodes| - 1 - i < k;
      assert order[..k][|nodes| - 1 - i] == x;
    }
  }

  /** The list of a loop found by a search, reversed, is the order in which a search from its header goes through the
      body. */
  lemma ComponentInOrder(g: Graph, first: seq<int>, r: nat, nodes: seq<nat>)
    requires g.SuccValid() && SearchOrder(g, first) && Component(g, r, nodes) && Falling(first, nodes) && r < |first|
    requires forall v | v in nodes :: v < |first| && 0 <= first[r] <= first[v]
    ensures DfsOrder(Inner(g, nodes, r).succ, Reversed(nodes)) && nodes != [] && Last(nodes) == r
  {
    var order, lists := Reversed(nodes), Inner(g, nodes, r).succ;
    var m :| 0 <= m < |nodes| && nodes[m] == r;
    assert nodes[|nodes| - 1] in nodes;
    assert m == |nodes| - 1;
    forall k: nat | 0 < k < |order|
      ensures HasNext(lists, order, k)
    {
      assert order[k] == nodes[|nodes| - 1 - k];
      assert order[k] in nodes && order[k] != r;
      var u, j := HasParent(g, first, r, nodes, order[k]);
      var a := GoesOn(g, first, r, nodes, k, u, j);
      assert NextFrom(lists, order[..k], a, order[k]);
    }
  }

  lemma GoesOn(g: Graph, first: seq<int>, r: nat, nodes: seq<nat>, k: nat, u: nat, j: nat) returns (a: nat)
    requires g.SuccValid() && SearchOrder(g, first) && Component(g, r, nodes) && Falling(first, nodes) && r < |first|
    requires forall v | v in nodes :: v < |first| && 0 <= first[r] <= first[v]
    requires 0 < k < |nodes| && Reversed(nodes)[k] != r && TurnOf(g, first, Reversed(nodes)[k], u, j) && u in nodes
    ensures NextFrom(Inner(g, nodes, r).succ, Reversed(nodes)[..k], a, Reversed(nodes)[k])
  {
    var order := Reversed(nodes);
    var w, prefix := order[k], order[..k];
    assert w == nodes[|nodes| - 1 - k];
    forall x: nat
      ensures x in prefix <==> x in nodes && Before(first, x, w)
    {
      PrefixIsBefore(first, nodes, k, x);
    }
    a :| 0 <= a < k && prefix[a] == u;
    FirstNewThere(g, first, r, nodes, w, u, j, prefix);
    forall b: nat, x: nat | a < b < k && prefix[b] < |g.succ| && x in Inner(g, nodes, r).succ[prefix[b]]
      ensures x in prefix
    {
      LaterIsExhausted(g, first, r, nodes, k, u, a, b, x);
    }
  }

  lemma FirstNewThere(g: Graph, first: seq<int>, r: nat, nodes: seq<nat>, w: nat, u: nat, j: nat, prefix: seq<nat>)
    requires TurnOf(g, first, w, u, j) && u in nodes && w in nodes && w != r
    requires forall x: nat :: x in prefix <==> x in nodes && Before(first, x, w)
    ensures FirstNew(Inner(g, nodes, r).succ[u], prefix, w)
  {
    FirstNewInward(g.succ[u], nodes, r, prefix, j);
  }

  lemma LaterIsExhausted(g: Graph, first: seq<int>, r: nat, nodes: seq<nat>, k: nat, u: nat, a: nat, b: nat, x: nat)
    requires Falling(first, nodes) && (forall v | v in nodes :: v < |first| && 0 <= first[v])
    requires a < b < k < |nodes| && Reversed(nodes)[a] == u && Exhausted(g, first, Reversed(nodes)[k], first[u])
    requires Reversed(nodes)[b] < |g.succ| && x in Inner(g, nodes, r).succ[Reversed(nodes)[b]]
    ensures x in Reversed(nodes)[..k]
  {
    var order := Reversed(nodes);
    var z := order[b];
    assert z == nodes[|nodes| - 1 - b] && u == nodes[|nodes| - 1 - a] && order[k] == nodes[|nodes| - 1 - k];
    assert z in nodes;
    InwardMembers(g.succ[z], nodes, r);
    assert g.Edge(z, x);
    PrefixIsBefore(first, nodes, k, x);
  }

  // ---------------------------------------------------------------- loops in order

  /** The blocks of the loop are listed in the one order that the edges of `g` give, from the last to the header. */
  ghost predicate InOrder(g: Graph, loop: Loop) {
    loop.nodes != [] && Last(loop.nodes) == loop.root && DfsOrder(Inner(g, loop.nodes, loop.root).succ, Reversed(loop.nodes))
  }

  /** A loop in order is known by its header and the set of its blocks. */
  lemma SameLoop(g: Graph, l: Loop, m: Loop)
    requires InOrder(g, l) && InOrder(g, m) && l.root == m.root && NoDuplicates(l.nodes) && NoDuplicates(m.nodes)
    requires forall v: nat :: v in l.nodes <==> v in m.nodes
    ensures l.nodes == m.nodes
  {
    SameMembersSameLists(g, l.nodes, m.nodes, l.root);
    SeqSetSize(l.nodes);
    SeqSetSize(m.nodes);
    assert Elements(l.nodes) == Elements(m.nodes);
    SameReversed(Inner(g, l.nodes, l.root).succ, l.nodes, m.nodes);
  }

  lemma SameReversed(lists: seq<seq<nat>>, s: seq<nat>, t: seq<nat>)
    requires DfsOrder(lists, Reversed(s)) && DfsOrder(lists, Reversed(t)) && |s| == |t| && s != [] && Last(s) == Last(t)
    ensures s == t
  {
    var n := |s|;
    SamePrefix(lists, Reversed(s), Reversed(t), n);
    forall i | 0 <= i < n
      ensures s[i] == t[i]
    {
      var k := n - 1 - i;
      assert Reversed(s)[..n][k] == Reversed(t)[..n][k];
      assert Reversed(s)[k] == s[n - 1 - k] && Reversed(t)[k] == t[n - 1 - k];
    }
  }
}
