/** The copy of a loop in which nested loops are looked for: its blocks, the edges between them, and one edge
    to the header dropped. */
module LoopBodies {
  import opened Graphs
  import opened Loops
  import opened Components

  /** The elements of `s` that are in `nodes`, in order. */
  function Within(s: seq<nat>, nodes: seq<nat>): seq<nat> {
    if s == [] then [] else Within(s[..|s| - 1], nodes) + if Last(s) in nodes then [Last(s)] else []
  }

  /** `s` without the first occurrence of `x`. */
  function RemoveFirst(s: seq<nat>, x: nat): seq<nat> {
    if s == [] then []
    else if x in s[..|s| - 1] then RemoveFirst(s[..|s| - 1], x) + [Last(s)]
    else if Last(s) == x then s[..|s| - 1]
    else s
  }

  lemma {:induction false} WithinMembers(s: seq<nat>, nodes: seq<nat>)
    ensures forall x: nat :: x in Within(s, nodes) <==> x in s && x in nodes
  {
    if s != [] {
      WithinMembers(s[..|s| - 1], nodes);
      assert s == s[..|s| - 1] + [Last(s)];
    }
  }

  lemma {:induction false} RemoveFirstCounts(s: seq<nat>, x: nat)
    ensures multiset(RemoveFirst(s, x)) == multiset(s) - multiset{x}
  {
    if s != [] {
      RemoveFirstCounts(s[..|s| - 1], x);
      assert s == s[..|s| - 1] + [Last(s)];
      assert x in s[..|s| - 1] ==> x in multiset(s[..|s| - 1]);
      assert x !in s[..|s| - 1] ==> x !in multiset(s[..|s| - 1]);
    }
  }

  lemma RemoveFirstMembers(s: seq<nat>, x: nat)
    ensures forall y: nat | y != x :: y in RemoveFirst(s, x) <==> y in s
    ensures x in RemoveFirst(s, x) <==> multiset(s)[x] > 1
  {
    RemoveFirstCounts(s, x);
    forall y: nat
      ensures y in RemoveFirst(s, x) <==> y in multiset(RemoveFirst(s, x))
      ensures y in s <==> y in multiset(s)
    {
    }
  }

  /** Filters one successor list; the first edge to the root that is met in the whole copy is dropped. */
  method TrimSuccessors(succ: seq<nat>, nodes: seq<nat>, root: nat, dropped: bool)
    returns (result: seq<nat>, dropped': bool)
    requires root in nodes
    ensures dropped' <==> dropped || root in succ
    ensures result == if dropped then Within(succ, nodes) else Within(RemoveFirst(succ, root), nodes)
  {
    result, dropped' := [], dropped;
    for i := 0 to |succ|
      invariant dropped' <==> dropped || root in succ[..i]
      invariant result == if dropped then Within(succ[..i], nodes) else Within(RemoveFirst(succ[..i], root), nodes)
    {
      assert succ[..i + 1][..i] == succ[..i] && succ[..i + 1] == succ[..i] + [succ[i]];
      assert Last(succ[..i + 1]) == succ[i];
      if succ[i] !in nodes {
        if !dropped {
          OneMore(succ, root, i, nodes);
        }
      } else if succ[i] == root && !dropped' {
        dropped' := true;
      } else {
        result := result + [succ[i]];
        if !dropped {
          OneMore(succ, root, i, nodes);
        }
      }
    }
    assert succ[..|succ|] == succ;
  }

  lemma OneMore(succ: seq<nat>, root: nat, i: nat, nodes: seq<nat>)
    requires i < |succ| && (succ[i] != root || root in succ[..i])
    ensures Within(RemoveFirst(succ[..i + 1], root), nodes) ==
            Within(RemoveFirst(succ[..i], root), nodes) + if succ[i] in nodes then [succ[i]] else []
  {
    var s := succ[..i + 1];
    assert s[..|s| - 1] == succ[..i] && Last(s) == succ[i];
    NothingToRemove(succ[..i], root);
    var r := RemoveFirst(succ[..i], root);
    assert RemoveFirst(s, root) == r + [succ[i]];
    assert (r + [succ[i]])[..|r|] == r;
  }

  lemma {:induction false} NothingToRemove(s: seq<nat>, x: nat)
    ensures x !in s ==> RemoveFirst(s, x) == s
  {
  }

  /** `tail` is the first listed block with an edge to the root, and that edge is the one dropped from the copy. */
  ghost predicate IsBody(g: Graph, nodes: seq<nat>, root: nat, tail: nat, body: Graph) {
    && body.blocks == nodes && body.root == root && |body.succ| == |g.succ| == |body.pred| == |g.pred|
    && tail in nodes && FirstTail(g, nodes, root, tail)
    && (forall a: nat | a < |g.succ| ::
          && body.succ[a] == (if a in nodes then Copied(g, nodes, root, a == tail, a) else [])
          && body.pred[a] == (if a in nodes then Within(g.pred[a], nodes) else []))
  }

  /** `new_cfg_from_loop` */
  method NewCfgFromLoop(g: Graph, nodes: seq<nat>, root: nat) returns (body: Graph, ghost tail: nat)
    requires g.SuccValid() && |g.pred| == |g.succ| && NoDuplicates(nodes) && root in nodes
    requires forall i | 0 <= i < |nodes| :: nodes[i] in g.blocks
    requires exists i | 0 <= i < |nodes| :: g.Edge(nodes[i], root)
    ensures IsBody(g, nodes, root, tail, body) && body.SuccValid()
  {
    var succ, pred;
    succ, tail := CopySuccessors(g, nodes, root);
    pred := CopyPredecessors(g, nodes);
    body := Graph(nodes, root, succ, pred);
    BodyIsValid(g, nodes, root, tail, body);
  }

  method CopySuccessors(g: Graph, nodes: seq<nat>, root: nat) returns (succ: seq<seq<nat>>, ghost tail: nat)
    requires NoDuplicates(nodes) && root in nodes && forall i | 0 <= i < |nodes| :: nodes[i] < |g.succ|
    requires exists i | 0 <= i < |nodes| :: g.Edge(nodes[i], root)
    ensures |succ| == |g.succ| && tail in nodes && FirstTail(g, nodes, root, tail)
    ensures forall a: nat | a < |g.succ| :: succ[a] == if a in nodes then Copied(g, nodes, root, a == tail, a) else []
  {
    succ := seq(|g.succ|, _ => []);
    var dropped := false;
    tail := root;
    for i := 0 to |nodes|
      invariant |succ| == |g.succ|
      invariant if dropped then FirstTail(g, nodes[..i], root, tail) && tail in nodes[..i] else NoTail(g, nodes[..i], root)
      invariant forall a: nat | a < |g.succ| ::
                  succ[a] == if a in nodes[..i] then Copied(g, nodes, root, dropped && a == tail, a) else []
    {
      var bb := nodes[i];
      var trimmed, now := TrimSuccessors(g.succ[bb], nodes, root, dropped);
      TailsMore(g, nodes, i, root, dropped, tail);
      assert nodes[..i + 1] == nodes[..i] + [bb];
      assert bb !in nodes[..i];
      assert trimmed == Copied(g, nodes, root, now && !dropped, bb) by {
        NothingToRemove(g.succ[bb], root);
      }
      if now && !dropped {
        tail := bb;
      }
      succ, dropped := succ[bb := trimmed], now;
    }
    assert nodes[..|nodes|] == nodes;
  }

  method CopyPredecessors(g: Graph, nodes: seq<nat>) returns (pred: seq<seq<nat>>)
    requires NoDuplicates(nodes) && forall i | 0 <= i < |nodes| :: nodes[i] < |g.pred|
    ensures |pred| == |g.pred|
    ensures forall a: nat | a < |g.pred| :: pred[a] == if a in nodes then Within(g.pred[a], nodes) else []
  {
    pred := seq(|g.pred|, _ => []);
    for i := 0 to |nodes|
      invariant |pred| == |g.pred|
      invariant forall a: nat | a < |g.pred| :: pred[a] == if a in nodes[..i] then Within(g.pred[a], nodes) else []
    {
      var kept := FilterPreds(g.pred[nodes[i]], nodes);
      pred := pred[nodes[i] := kept];
      assert nodes[..i + 1] == nodes[..i] + [nodes[i]];
    }
    assert nodes[..|nodes|] == nodes;
  }

  method FilterPreds(preds: seq<nat>, nodes: seq<nat>) returns (result: seq<nat>)
    ensures result == Within(preds, nodes)
  {
    result := [];
    for i := 0 to |preds|
      invariant result == Within(preds[..i], nodes)
    {
      assert preds[..i + 1][..i] == preds[..i];
      if preds[i] in nodes {
        result := result + [preds[i]];
      }
    }
    assert preds[..|preds|] == preds;
  }

  /** The successors of `a` in the copy, with the first edge to the root cut out or not. */
  function Copied(g: Graph, nodes: seq<nat>, root: nat, cut: bool, a: nat): seq<nat>
    requires a < |g.succ|
  {
    Within(if cut then RemoveFirst(g.succ[a], root) else g.succ[a], nodes)
  }

  ghost predicate NoTail(g: Graph, nodes: seq<nat>, root: nat) {
    forall m | 0 <= m < |nodes| :: !g.Edge(nodes[m], root)
  }

  /** `tail` is the first of `nodes` with an edge to the root. */
  ghost predicate FirstTail(g: Graph, nodes: seq<nat>, root: nat, tail: nat) {
    exists k | 0 <= k < |nodes| :: nodes[k] == tail && g.Edge(tail, root) && NoTail(g, nodes[..k], root)
  }

  lemma TailsMore(g: Graph, nodes: seq<nat>, i: nat, root: nat, dropped: bool, tail: nat)
    requires i < |nodes|
    requires if dropped then FirstTail(g, nodes[..i], root, tail) else NoTail(g, nodes[..i], root)
    ensures dropped ==> FirstTail(g, nodes[..i + 1], root, tail)
    ensures !dropped && g.Edge(nodes[i], root) ==> FirstTail(g, nodes[..i + 1], root, nodes[i])
    ensures !dropped && !g.Edge(nodes[i], root) ==> NoTail(g, nodes[..i + 1], root)
  {
    var longer := nodes[..i + 1];
    if dropped {
      var k :| 0 <= k < i && nodes[..i][k] == tail && g.Edge(tail, root) && NoTail(g, nodes[..i][..k], root);
      assert longer[k] == tail && longer[..k] == nodes[..i][..k];
    } else if g.Edge(nodes[i], root) {
      assert longer[i] == nodes[i] && longer[..i] == nodes[..i];
    }
  }

  lemma BodyEdges(g: Graph, nodes: seq<nat>, root: nat, tail: nat, body: Graph, a: nat, b: nat)
    requires IsBody(g, nodes, root, tail, body)
    ensures body.Edge(a, b) ==> g.Edge(a, b) && a in nodes && b in nodes
    ensures g.Edge(a, b) && a in nodes && b in nodes && (b != root || a != tail) ==> body.Edge(a, b)
  {
    if a < |g.succ| {
      WithinMembers(g.succ[a], nodes);
      WithinMembers(RemoveFirst(g.succ[a], root), nodes);
      RemoveFirstMembers(g.succ[a], root);
    }
  }

  lemma DroppedEdge(g: Graph, nodes: seq<nat>, root: nat, tail: nat, body: Graph)
    requires IsBody(g, nodes, root, tail, body) && root in nodes
    ensures body.Edge(tail, root) <==> multiset(g.succ[tail])[root] > 1
  {
    WithinMembers(RemoveFirst(g.succ[tail], root), nodes);
    RemoveFirstMembers(g.succ[tail], root);
  }

  lemma BodyIsValid(g: Graph, nodes: seq<nat>, root: nat, tail: nat, body: Graph)
    requires g.SuccValid() && IsBody(g, nodes, root, tail, body) && NoDuplicates(nodes) && root in nodes
    requires forall i | 0 <= i < |nodes| :: nodes[i] in g.blocks
    ensures body.SuccValid()
  {
    forall b: nat, i | b < |body.succ| && 0 <= i < |body.succ[b]|
      ensures body.succ[b][i] in nodes && b in nodes
    {
      BodyEdges(g, nodes, root, tail, body, b, body.succ[b][i]);
    }
  }

  // ---------------------------------------------------------------- the copy as a value

  /** The first listed block with an edge to the root. */
  function TailOf(g: Graph, nodes: seq<nat>, root: nat): nat {
    if nodes == [] then root else if g.Edge(nodes[0], root) then nodes[0] else TailOf(g, nodes[1..], root)
  }

  ghost function Copy(g: Graph, nodes: seq<nat>, root: nat): Graph {
    Graph(nodes, root,
          seq(|g.succ|, (a: nat) requires a < |g.succ| => if a in nodes then Copied(g, nodes, root, a == TailOf(g, nodes, root), a) else []),
          seq(|g.pred|, (a: nat) requires a < |g.pred| => if a in nodes then Within(g.pred[a], nodes) else []))
  }

  lemma {:induction false} TailIsFirst(g: Graph, nodes: seq<nat>, root: nat, k: nat)
    requires k < |nodes| && g.Edge(nodes[k], root) && NoTail(g, nodes[..k], root)
    ensures TailOf(g, nodes, root) == nodes[k]
  {
    if k > 0 {
      assert nodes[..k][0] == nodes[0];
      assert nodes[1..][..k - 1] == nodes[..k][1..];
      assert forall m | 0 < m < k :: nodes[..k][m] == nodes[..k][1..][m - 1];
      TailIsFirst(g, nodes[1..], root, k - 1);
    }
  }

  /** There is no choice in copying a body. */
  lemma BodyIsCopy(g: Graph, nodes: seq<nat>, root: nat, tail: nat, body: Graph)
    requires IsBody(g, nodes, root, tail, body)
    ensures body == Copy(g, nodes, root) && tail == TailOf(g, nodes, root)
  {
    var k: nat :| k < |nodes| && nodes[k] == tail && g.Edge(tail, root) && NoTail(g, nodes[..k], root);
    TailIsFirst(g, nodes, root, k);
  }

  lemma {:induction false} FirstTailExists(g: Graph, nodes: seq<nat>, root: nat, n: nat)
    requires n <= |nodes| && !NoTail(g, nodes[..n], root)
    ensures exists k | 0 <= k < |nodes| :: g.Edge(nodes[k], root) && NoTail(g, nodes[..k], root)
  {
    var m :| 0 <= m < n && g.Edge(nodes[..n][m], root);
    if !NoTail(g, nodes[..m], root) {
      FirstTailExists(g, nodes, root, m);
    }
  }

  lemma CopyIsBody(g: Graph, nodes: seq<nat>, root: nat)
    requires |g.pred| == |g.succ| && exists i | 0 <= i < |nodes| :: g.Edge(nodes[i], root)
    ensures IsBody(g, nodes, root, TailOf(g, nodes, root), Copy(g, nodes, root))
  {
    assert nodes[..|nodes|] == nodes;
    FirstTailExists(g, nodes, root, |nodes|);
    var k: nat :| k < |nodes| && g.Edge(nodes[k], root) && NoTail(g, nodes[..k], root);
    TailIsFirst(g, nodes, root, k);
  }
}
