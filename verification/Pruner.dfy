/** The pruner: removes from the graph what the solution of the integer program does not execute. */
module Pruner {
  import opened Graphs
  import opened Loops

  /** The solution: how often each block runs, and how much flows from block to block. */
  datatype Solution = Solution(wcc: seq<int>, transfer: seq<seq<int>>) {
    ghost predicate Fits(g: Graph) {
      && |wcc| == |transfer| == |g.succ| && (forall a | 0 <= a < |transfer| :: |transfer[a]| == |wcc|)
      && (forall a | 0 <= a < |transfer| :: forall b | 0 <= b < |wcc| :: transfer[a][b] >= 0)
    }

    /** What flow conservation gives: no more flows along an edge than either end runs. */
    ghost predicate Conserved(g: Graph)
      requires Fits(g)
    {
      forall a: nat, b: nat | a < |wcc| && b < |wcc| && g.Edge(a, b) :: transfer[a][b] <= wcc[a] && transfer[a][b] <= wcc[b]
    }
  }

  /** No edge and no block is listed twice. */
  ghost predicate Simple(g: Graph) {
    && g.Valid()
    && (forall b: nat | b < |g.succ| :: NoDuplicates(g.succ[b]) && NoDuplicates(g.pred[b]))
  }

  /** `erase` of the first occurrence. */
  function Erase(s: seq<nat>, x: nat): seq<nat> {
    if s == [] then [] else if s[0] == x then s[1..] else [s[0]] + Erase(s[1..], x)
  }

  /** Without duplicates, erasing one occurrence removes the element. */
  lemma {:induction false} EraseIsWithout(s: seq<nat>, x: nat)
    requires NoDuplicates(s)
    ensures Erase(s, x) == Without(s, [x])
  {
    if s != [] {
      assert NoDuplicates(s[1..]);
      EraseIsWithout(s[1..], x);
      WithoutFirst(s, [x]);
      if s[0] == x {
        WithoutNone(s[1..], [x]);
      }
    }
  }

  lemma {:induction false} WithoutFirst(s: seq<nat>, drop: seq<nat>)
    requires s != []
    ensures Without(s, drop) == (if s[0] in drop then [] else [s[0]]) + Without(s[1..], drop)
  {
    if |s| == 1 {
      assert s[..0] == [] && s[1..] == [];
    } else {
      var front := s[..|s| - 1];
      WithoutFirst(front, drop);
      assert front[1..] == s[1..][..|s[1..]| - 1];
    }
  }

  lemma {:induction false} WithoutNone(s: seq<nat>, drop: seq<nat>)
    requires forall x: nat | x in drop :: x !in s
    ensures Without(s, drop) == s
  {
    if s != [] {
      WithoutNone(s[..|s| - 1], drop);
      assert s[|s| - 1] in s;
      assert s == s[..|s| - 1] + [s[|s| - 1]];
    }
  }

  lemma {:induction false} WithoutTwice(s: seq<nat>, drop: seq<nat>, more: seq<nat>)
    ensures Without(Without(s, drop), more) == Without(s, drop + more)
  {
    if s != [] {
      WithoutTwice(s[..|s| - 1], drop, more);
      var w, x := Without(s[..|s| - 1], drop), s[|s| - 1];
      if x in drop {
        assert Without(s, drop) == w;
      } else {
        assert (w + [x])[..|w + [x]| - 1] == w;
      }
    }
  }

  lemma {:induction false} WithoutDistinct(s: seq<nat>, drop: seq<nat>)
    requires NoDuplicates(s)
    ensures NoDuplicates(Without(s, drop))
  {
    if s != [] {
      WithoutDistinct(s[..|s| - 1], drop);
      WithoutMembers(s[..|s| - 1], drop);
      var w := Without(s[..|s| - 1], drop);
      assert forall i | 0 <= i < |w| :: w[i] in w;
    }
  }

  // ---------------------------------------------------------------- the graph as blocks are removed

  /** The lists when the blocks of `gone` have been removed, in that order. */
  ghost function SuccOf(g: Graph, gone: seq<nat>, a: nat): seq<nat>
    requires a < |g.succ|
  {
    if a in gone then [] else Without(g.succ[a], gone)
  }

  ghost function PredOf(g: Graph, gone: seq<nat>, a: nat): seq<nat>
    requires a < |g.pred|
  {
    if a in gone then [] else Without(g.pred[a], gone)
  }

  ghost predicate ListsAre(g: Graph, gone: seq<nat>, blocks: seq<nat>, succ: seq<seq<nat>>, pred: seq<seq<nat>>) {
    && |succ| == |g.succ| && |pred| == |g.pred|
    && blocks == Without(g.blocks, gone)
    && (forall a: nat | a < |succ| :: succ[a] == SuccOf(g, gone, a))
    && (forall a: nat | a < |pred| :: pred[a] == PredOf(g, gone, a))
  }

  /** Erases `b` from the list of each element of `at`. */
  method EraseFromEach(lists: seq<seq<nat>>, at: seq<nat>, b: nat) returns (lists': seq<seq<nat>>)
    requires NoDuplicates(at) && forall i | 0 <= i < |at| :: at[i] < |lists| && NoDuplicates(lists[at[i]])
    ensures |lists'| == |lists|
    ensures forall a: nat | a < |lists| :: lists'[a] == if a in at then Without(lists[a], [b]) else lists[a]
  {
    lists' := lists;
    for i := 0 to |at|
      invariant |lists'| == |lists|
      invariant forall a: nat | a < |lists| :: lists'[a] == if a in at[..i] then Without(lists[a], [b]) else lists[a]
    {
      assert at[i] !in at[..i];
      EraseIsWithout(lists[at[i]], b);
      lists' := lists'[at[i] := Erase(lists'[at[i]], b)];
      assert at[..i + 1] == at[..i] + [at[i]];
    }
    assert at[..|at|] == at;
  }

  /** The lists mirror each other while blocks are removed. */
  lemma ListsMirror(g: Graph, gone: seq<nat>, a: nat, b: nat)
    requires g.Valid()
    ensures a < |g.succ| && b in SuccOf(g, gone, a) <==> b < |g.pred| && a in PredOf(g, gone, b)
    ensures a < |g.succ| && b in SuccOf(g, gone, a) ==> g.Edge(a, b) && a !in gone && b !in gone
  {
    if a < |g.succ| {
      WithoutMembers(g.succ[a], gone);
    }
    if b < |g.pred| {
      WithoutMembers(g.pred[b], gone);
    }
    if a < |g.succ| && b in g.succ[a] {
      var i :| 0 <= i < |g.succ[a]| && g.succ[a][i] == b;
      assert b in g.blocks;
      assert g.Edge(a, b);
    }
    if b < |g.pred| && a in g.pred[b] {
      assert g.Edge(a, b);
    }
  }

  lemma ListsDistinct(g: Graph, gone: seq<nat>, a: nat)
    requires Simple(g) && a < |g.succ|
    ensures NoDuplicates(SuccOf(g, gone, a)) && NoDuplicates(PredOf(g, gone, a))
    ensures forall i | 0 <= i < |SuccOf(g, gone, a)| :: SuccOf(g, gone, a)[i] < |g.succ|
    ensures forall i | 0 <= i < |PredOf(g, gone, a)| :: PredOf(g, gone, a)[i] < |g.succ|
  {
    WithoutDistinct(g.succ[a], gone);
    WithoutDistinct(g.pred[a], gone);
    forall i | 0 <= i < |SuccOf(g, gone, a)|
      ensures SuccOf(g, gone, a)[i] < |g.succ|
    {
      ListsMirror(g, gone, a, SuccOf(g, gone, a)[i]);
    }
    forall i | 0 <= i < |PredOf(g, gone, a)|
      ensures PredOf(g, gone, a)[i] < |g.succ|
    {
      ListsMirror(g, gone, PredOf(g, gone, a)[i], a);
    }
  }

  lemma OneMoreGone(g: Graph, gone: seq<nat>, a: nat, b: nat)
    requires a < |g.succ| == |g.pred| && a != b
    ensures SuccOf(g, gone + [b], a) == Without(SuccOf(g, gone, a), [b])
    ensures PredOf(g, gone + [b], a) == Without(PredOf(g, gone, a), [b])
  {
    WithoutTwice(g.succ[a], gone, [b]);
    WithoutTwice(g.pred[a], gone, [b]);
  }

  /** Unlinking `b` on both sides leaves the lists of the graph without `b`. */
  method RemoveBlock(g: Graph, ghost gone: seq<nat>, b: nat, blocks: seq<nat>, succ: seq<seq<nat>>, pred: seq<seq<nat>>)
    returns (blocks': seq<nat>, succ': seq<seq<nat>>, pred': seq<seq<nat>>)
    requires Simple(g) && ListsAre(g, gone, blocks, succ, pred) && b in g.blocks && b !in gone
    ensures ListsAre(g, gone + [b], blocks', succ', pred')
  {
    succ', pred' := Unlink(g, gone, b, succ, pred);
    blocks' := Erase(blocks, b);
    WithoutDistinct(g.blocks, gone);
    EraseIsWithout(blocks, b);
    WithoutTwice(g.blocks, gone, [b]);
    forall a: nat | a < |g.succ|
      ensures succ'[a] == SuccOf(g, gone + [b], a) && pred'[a] == PredOf(g, gone + [b], a)
    {
      if a != b {
        UnlinkedOne(g, gone, a, b);
      }
    }
  }

  method Unlink(g: Graph, ghost gone: seq<nat>, b: nat, succ: seq<seq<nat>>, pred: seq<seq<nat>>)
    returns (succ': seq<seq<nat>>, pred': seq<seq<nat>>)
    requires Simple(g) && b < |g.succ| == |succ| == |pred| && (forall a: nat | a < |succ| :: succ[a] == SuccOf(g, gone, a))
    requires forall a: nat | a < |pred| :: pred[a] == PredOf(g, gone, a)
    ensures |succ'| == |pred'| == |g.succ| && succ'[b] == [] && pred'[b] == []
    ensures forall a: nat | a < |succ'| && a != b ::
              && succ'[a] == (if a in PredOf(g, gone, b) then Without(succ[a], [b]) else succ[a])
              && pred'[a] == (if a in SuccOf(g, gone, b) then Without(pred[a], [b]) else pred[a])
  {
    AllDistinct(g, gone);
    pred' := EraseFromEach(pred, succ[b], b);
    succ' := succ[b := []];
    WithoutMembers(pred[b], [b]);
    WithoutDistinct(pred[b], [b]);
    ListsMirror(g, gone, b, b);
    WithoutRange(pred[b], [b], |succ|);
    succ' := EraseFromEach(succ', pred'[b], b);
    pred' := pred'[b := []];
  }

  lemma WithoutRange(s: seq<nat>, drop: seq<nat>, n: nat)
    requires forall i | 0 <= i < |s| :: s[i] < n
    ensures forall i | 0 <= i < |Without(s, drop)| :: Without(s, drop)[i] < n
  {
    WithoutMembers(s, drop);
    var w := Without(s, drop);
    forall i | 0 <= i < |w|
      ensures w[i] < n
    {
      assert w[i] in w;
    }
  }

  /** Where `b` is not listed, dropping it changes nothing. */
  lemma UnlinkedOne(g: Graph, gone: seq<nat>, a: nat, b: nat)
    requires Simple(g) && a < |g.succ| && b < |g.succ| && a != b
    ensures SuccOf(g, gone + [b], a) == if a in PredOf(g, gone, b) then Without(SuccOf(g, gone, a), [b]) else SuccOf(g, gone, a)
    ensures PredOf(g, gone + [b], a) == if a in SuccOf(g, gone, b) then Without(PredOf(g, gone, a), [b]) else PredOf(g, gone, a)
  {
    OneMoreGone(g, gone, a, b);
    ListsMirror(g, gone, a, b);
    ListsMirror(g, gone, b, a);
    if b !in SuccOf(g, gone, a) {
      WithoutNone(SuccOf(g, gone, a), [b]);
    }
    if b !in PredOf(g, gone, a) {
      WithoutNone(PredOf(g, gone, a), [b]);
    }
  }

  lemma AllDistinct(g: Graph, gone: seq<nat>)
    requires Simple(g)
    ensures forall a: nat | a < |g.succ| :: NoDuplicates(SuccOf(g, gone, a)) && NoDuplicates(PredOf(g, gone, a))
    ensures forall a: nat, i | a < |g.succ| && 0 <= i < |SuccOf(g, gone, a)| :: SuccOf(g, gone, a)[i] < |g.succ|
    ensures forall a: nat, i | a < |g.succ| && 0 <= i < |PredOf(g, gone, a)| :: PredOf(g, gone, a)[i] < |g.succ|
  {
    forall a: nat | a < |g.succ|
      ensures NoDuplicates(SuccOf(g, gone, a)) && NoDuplicates(PredOf(g, gone, a))
      ensures forall i | 0 <= i < |SuccOf(g, gone, a)| :: SuccOf(g, gone, a)[i] < |g.succ|
      ensures forall i | 0 <= i < |PredOf(g, gone, a)| :: PredOf(g, gone, a)[i] < |g.succ|
    {
      ListsDistinct(g, gone, a);
    }
  }

  // ---------------------------------------------------------------- the search

  ghost predicate Zero(sol: Solution, b: nat) {
    b < |sol.wcc| && sol.wcc[b] == 0
  }

  /** During the search: blocks with count zero are gone once the search has left them, nothing else is, and every
      successor of a block the search has left has been visited. */
  ghost predicate Searching(g: Graph, sol: Solution, visited: set<nat>, gone: seq<nat>, gray: set<nat>) {
    && (forall b | b in visited :: b in g.blocks && g.Reaches(g.root, b))
    && (forall b: nat :: b in gone <==> b in visited && b !in gray && Zero(sol, b))
    && (forall a: nat, b: nat | g.Edge(a, b) && a in visited && a !in gray :: b in visited)
  }

  ghost function AllBlocks(g: Graph): set<nat> {
    set b | b in g.blocks
  }

  class Pruning {
    const g: Graph
    const sol: Solution
    var blocks: seq<nat>
    var succ: seq<seq<nat>>
    var pred: seq<seq<nat>>
    var visited: set<nat>
    ghost var gone: seq<nat>

    constructor (g: Graph, sol: Solution)
      requires Simple(g)
      ensures this.g == g && this.sol == sol && visited == {} && gone == []
      ensures ListsAre(g, gone, blocks, succ, pred)
    {
      this.g, this.sol := g, sol;
      blocks, succ, pred := g.blocks, g.succ, g.pred;
      visited, gone := {}, [];
      new;
      NothingGone(g);
    }

    /** `recursive_prune` */
    method RecursivePrune(b: nat, ghost gray: set<nat>)
      requires Simple(g) && sol.Fits(g) && b in g.blocks && g.Reaches(g.root, b)
      requires ListsAre(g, gone, blocks, succ, pred) && Searching(g, sol, visited, gone, gray) && gray <= visited
      modifies this
      ensures ListsAre(g, gone, blocks, succ, pred) && Searching(g, sol, visited, gone, gray)
      ensures old(visited) <= visited && b in visited
      decreases AllBlocks(g) - visited, 0
    {
      if b in visited {
        return;
      }
      var shouldRemove := sol.wcc[b] == 0;
      NotYetGone(g, sol, visited, gone, gray, b);
      assert b in AllBlocks(g);
      visited := visited + {b};
      PruneAll(b, succ[b], gray);
      if shouldRemove {
        Remove(b);
      }
    }

    /** The recursion into the successors listed when the block was visited. */
    method PruneAll(b: nat, list: seq<nat>, ghost gray: set<nat>)
      requires Simple(g) && sol.Fits(g) && ListsAre(g, gone, blocks, succ, pred)
      requires Searching(g, sol, visited, gone, gray + {b}) && gray + {b} <= visited
      requires forall i | 0 <= i < |list| :: list[i] in g.blocks && g.Reaches(g.root, list[i])
      modifies this
      ensures ListsAre(g, gone, blocks, succ, pred) && Searching(g, sol, visited, gone, gray + {b})
      ensures old(visited) <= visited && forall i | 0 <= i < |list| :: list[i] in visited
      decreases AllBlocks(g) - visited, |list|
    {
      if list != [] {
        RecursivePrune(list[0], gray + {b});
        PruneAll(b, list[1..], gray);
      }
    }

    /** The removal after the recursion. */
    method Remove(b: nat)
      requires Simple(g) && ListsAre(g, gone, blocks, succ, pred) && b in g.blocks && b !in gone
      modifies this`blocks, this`succ, this`pred, this`gone
      ensures ListsAre(g, gone, blocks, succ, pred) && gone == old(gone) + [b]
    {
      blocks, succ, pred := RemoveBlock(g, gone, b, blocks, succ, pred);
      gone := gone + [b];
    }

    /** `prune`: afterwards the blocks that the entry reaches and that never run are gone, and exactly the edges
        are left that join remaining blocks and carry flow. */
    method Prune()
      requires Simple(g) && sol.Fits(g) && visited == {} && gone == [] && ListsAre(g, gone, blocks, succ, pred)
      modifies this
      ensures Pruned(g, sol, gone, Graph(blocks, g.root, succ, pred))
    {
      ReachesItself(g, g.root);
      RecursivePrune(g.root, {});
      EntryReaches(g, sol, visited, gone);
      RemoveUnusedEdges();
    }

    /** `remove_unused_edges` */
    method RemoveUnusedEdges()
      requires Simple(g) && sol.Fits(g) && ListsAre(g, gone, blocks, succ, pred) && ReachedZeroesGone(g, sol, gone)
      modifies this`succ, this`pred
      ensures Pruned(g, sol, gone, Graph(blocks, g.root, succ, pred))
    {
      ghost var succ0 := succ;
      RemainingGraph(g, gone, blocks, succ, pred);
      succ, pred := DropAllUnused(sol, blocks, succ, pred);
      EdgesLeft(g, sol, gone, blocks, succ0, succ, pred);
    }
  }

  ghost predicate Lists(succ: seq<seq<nat>>, pred: seq<seq<nat>>) {
    && |succ| == |pred| && Mirrored(succ, pred)
    && forall a: nat | a < |succ| :: NoDuplicates(succ[a]) && NoDuplicates(pred[a])
  }

  /** The outer loop over the blocks. */
  method DropAllUnused(sol: Solution, blocks: seq<nat>, succ: seq<seq<nat>>, pred: seq<seq<nat>>)
    returns (succ': seq<seq<nat>>, pred': seq<seq<nat>>)
    requires Lists(succ, pred) && |succ| == |sol.transfer| && forall i | 0 <= i < |blocks| :: blocks[i] < |succ|
    requires forall a: nat | a < |sol.transfer| :: |sol.transfer[a]| == |succ|
    ensures Lists(succ', pred') && |succ'| == |succ|
    ensures forall a: nat, c: nat | a < |succ| :: c in succ'[a] <==> c in succ[a] && (a in blocks ==> Flows(sol, a, c))
  {
    succ', pred' := succ, pred;
    for k := 0 to |blocks|
      invariant Lists(succ', pred') && |succ'| == |succ| && Kept(sol, succ, blocks[..k], succ')
    {
      ghost var succ1 := succ';
      succ', pred' := DropUnused(sol, blocks[k], succ', pred');
      OneMoreKept(sol, succ, blocks, k, succ1, succ');
    }
    assert blocks[..|blocks|] == blocks;
  }

  /** The edges from `done` without flow have been dropped, no others. */
  ghost predicate Kept(sol: Solution, succ: seq<seq<nat>>, done: seq<nat>, succ': seq<seq<nat>>) {
    && |succ'| == |succ|
    && forall a: nat, c: nat {:trigger c in succ'[a]} | a < |succ| :: c in succ'[a] <==> c in succ[a] && (a in done ==> Flows(sol, a, c))
  }

  lemma OneMoreKept(sol: Solution, succ: seq<seq<nat>>, blocks: seq<nat>, k: nat, succ1: seq<seq<nat>>, succ2: seq<seq<nat>>)
    requires k < |blocks| && blocks[k] < |succ| && Kept(sol, succ, blocks[..k], succ1) && |succ2| == |succ|
    requires forall a: nat | a < |succ| && a != blocks[k] :: succ2[a] == succ1[a]
    requires forall c: nat :: c in succ2[blocks[k]] <==> c in succ1[blocks[k]] && Flows(sol, blocks[k], c)
    ensures Kept(sol, succ, blocks[..k + 1], succ2)
  {
    assert blocks[..k + 1] == blocks[..k] + [blocks[k]];
    forall a: nat, c: nat | a < |succ|
      ensures c in succ2[a] <==> c in succ[a] && (a in blocks[..k + 1] ==> Flows(sol, a, c))
    {
      assert c in succ1[a] <==> c in succ[a] && (a in blocks[..k] ==> Flows(sol, a, c));
    }
  }

  /** Both lists agree about every edge, and all list entries are blocks. */
  ghost predicate Mirrored(succ: seq<seq<nat>>, pred: seq<seq<nat>>) {
    && (forall a: nat, c: nat {:trigger c in succ[a]} | a < |succ| && c in succ[a] :: c < |pred| && a in pred[c])
    && (forall a: nat, c: nat {:trigger a in pred[c]} | c < |pred| && a in pred[c] :: a < |succ| && c in succ[a])
  }

  lemma RemainingEdges(g: Graph, gone: seq<nat>, succ: seq<seq<nat>>, pred: seq<seq<nat>>)
    requires Simple(g) && |succ| == |g.succ| && |pred| == |g.pred|
    requires forall a: nat | a < |succ| :: succ[a] == SuccOf(g, gone, a) && pred[a] == PredOf(g, gone, a)
    ensures Mirrored(succ, pred)
    ensures forall a: nat, c: nat | a < |succ| :: c in succ[a] <==> g.Edge(a, c) && a !in gone && c !in gone
  {
    forall a: nat, c: nat
      ensures a < |succ| && c in succ[a] ==> c < |pred| && a in pred[c]
      ensures c < |pred| && a in pred[c] ==> a < |succ| && c in succ[a]
      ensures a < |succ| ==> (c in succ[a] <==> g.Edge(a, c) && a !in gone && c !in gone)
    {
      ListsMirror(g, gone, a, c);
      if a < |succ| {
        WithoutMembers(g.succ[a], gone);
      }
    }
  }

  lemma RemainingGraph(g: Graph, gone: seq<nat>, blocks: seq<nat>, succ: seq<seq<nat>>, pred: seq<seq<nat>>)
    requires Simple(g) && ListsAre(g, gone, blocks, succ, pred)
    ensures Lists(succ, pred) && forall i | 0 <= i < |blocks| :: blocks[i] < |succ|
    ensures forall a: nat, c: nat | a < |succ| :: c in succ[a] <==> g.Edge(a, c) && a !in gone && c !in gone
  {
    AllDistinct(g, gone);
    RemainingEdges(g, gone, succ, pred);
    WithoutRange(g.blocks, gone, |succ|);
  }

  /** The inner loop for one block: erases its edges without flow on both sides. */
  method DropUnused(sol: Solution, bb: nat, succ: seq<seq<nat>>, pred: seq<seq<nat>>)
    returns (succ': seq<seq<nat>>, pred': seq<seq<nat>>)
    requires bb < |succ| == |sol.transfer| && |sol.transfer[bb]| == |succ| && Lists(succ, pred)
    ensures Lists(succ', pred') && |succ'| == |succ| && forall a: nat | a < |succ| && a != bb :: succ'[a] == succ[a]
    ensures forall c: nat :: c in succ'[bb] <==> c in succ[bb] && Flows(sol, bb, c)
  {
    var list, i := succ[bb], 0;
    pred' := pred;
    while i < |list|
      invariant Dropping(sol, bb, succ[bb], pred, list, i, pred')
      decreases |list| - i
    {
      var s := list[i];
      assert s in list && s in succ[bb];
      if sol.transfer[bb][s] == 0 {
        EraseStep(sol, bb, succ[bb], pred, list, i, pred');
        list := list[..i] + list[i + 1..];
        pred' := pred'[s := Erase(pred'[s], bb)];
      } else {
        i := i + 1;
      }
    }
    succ' := succ[bb := list];
    MirrorKept(sol, bb, succ, pred, succ', pred');
  }

  /** The inner loop: `list` is what is left of `list0`, and its first `i` elements carry flow. */
  ghost predicate Dropping(sol: Solution, bb: nat, list0: seq<nat>, pred0: seq<seq<nat>>, list: seq<nat>, i: nat, pred: seq<seq<nat>>) {
    && i <= |list| && |pred| == |pred0| && NoDuplicates(list)
    && (forall k | 0 <= k < i :: Flows(sol, bb, list[k]))
    && (forall c: nat | c in list0 :: c in list || !Flows(sol, bb, c))
    && (forall c: nat | c in list :: c in list0)
    && (forall c: nat | c < |pred| :: pred[c] == if c in list0 && c !in list then Without(pred0[c], [bb]) else pred0[c])
  }

  lemma EraseStep(sol: Solution, bb: nat, list0: seq<nat>, pred0: seq<seq<nat>>, list: seq<nat>, i: nat, pred: seq<seq<nat>>)
    requires Dropping(sol, bb, list0, pred0, list, i, pred) && i < |list| && !Flows(sol, bb, list[i])
    requires list[i] < |pred| && NoDuplicates(pred0[list[i]])
    ensures Dropping(sol, bb, list0, pred0, list[..i] + list[i + 1..], i, pred[list[i] := Erase(pred[list[i]], bb)])
  {
    RestMembers(list, i);
    assert list[i] in list;
    EraseIsWithout(pred0[list[i]], bb);
  }

  lemma RestMembers(list: seq<nat>, i: nat)
    requires i < |list| && NoDuplicates(list)
    ensures NoDuplicates(list[..i] + list[i + 1..])
    ensures forall c: nat :: c in list[..i] + list[i + 1..] <==> c in list && c != list[i]
  {
    var rest := list[..i] + list[i + 1..];
    forall c: nat | c in list && c != list[i]
      ensures c in rest
    {
      var k :| 0 <= k < |list| && list[k] == c;
      assert rest[if k < i then k else k - 1] == c;
    }
  }

  lemma MirrorKept(sol: Solution, bb: nat, succ: seq<seq<nat>>, pred: seq<seq<nat>>, succ': seq<seq<nat>>, pred': seq<seq<nat>>)
    requires bb < |succ| == |succ'| == |pred'| && Lists(succ, pred)
    requires NoDuplicates(succ'[bb]) && forall a: nat | a < |succ| && a != bb :: succ'[a] == succ[a]
    requires forall c: nat :: c in succ'[bb] <==> c in succ[bb] && Flows(sol, bb, c)
    requires forall c: nat | c < |succ| ::
               pred'[c] == if c in succ[bb] && !Flows(sol, bb, c) then Without(pred[c], [bb]) else pred[c]
    ensures Lists(succ', pred')
  {
    forall c: nat | c < |succ|
      ensures NoDuplicates(pred'[c])
      ensures forall a: nat :: a in pred'[c] <==> a in pred[c] && !(a == bb && c in succ[bb] && !Flows(sol, bb, c))
    {
      WithoutDistinct(pred[c], [bb]);
      WithoutMembers(pred[c], [bb]);
    }
    forall a: nat, c: nat
      ensures a < |succ'| && c in succ'[a] ==> c < |pred'| && a in pred'[c]
      ensures c < |pred'| && a in pred'[c] ==> a < |succ'| && c in succ'[a]
    {
      if a < |succ'| && c in succ'[a] {
        assert c in succ[a];
        assert c < |pred| && a in pred[c];
      }
      if c < |pred'| && a in pred'[c] {
        assert a in pred[c];
        assert a < |succ| && c in succ[a];
      }
    }
  }

  // ---------------------------------------------------------------- what pruning achieves

  /** The blocks removed are those the entry reaches that never run. */
  ghost predicate ReachedZeroesGone(g: Graph, sol: Solution, gone: seq<nat>) {
    forall b: nat :: b in gone <==> b in g.blocks && g.Reaches(g.root, b) && Zero(sol, b)
  }

  ghost predicate Pruned(g: Graph, sol: Solution, gone: seq<nat>, h: Graph)
    requires sol.Fits(g)
  {
    && ReachedZeroesGone(g, sol, gone) && h.blocks == Without(g.blocks, gone) && h.root == g.root
    && |h.succ| == |h.pred| == |g.succ|
    && (forall a: nat | a < |h.succ| :: NoDuplicates(h.succ[a]) && NoDuplicates(h.pred[a]))
    && (forall a: nat, c: nat :: h.Edge(a, c) <==> c < |h.pred| && a in h.pred[c])
    && (forall a: nat, c: nat :: h.Edge(a, c) <==> g.Edge(a, c) && a !in gone && c !in gone && Flows(sol, a, c))
  }

  predicate Flows(sol: Solution, a: nat, c: nat) {
    a < |sol.transfer| && c < |sol.transfer[a]| && sol.transfer[a][c] != 0
  }

  lemma EdgesLeft(g: Graph, sol: Solution, gone: seq<nat>, blocks: seq<nat>, succ0: seq<seq<nat>>, succ: seq<seq<nat>>, pred: seq<seq<nat>>)
    requires Simple(g) && sol.Fits(g) && ReachedZeroesGone(g, sol, gone) && blocks == Without(g.blocks, gone)
    requires |succ| == |succ0| == |g.succ| && Lists(succ, pred)
    requires forall a: nat, c: nat | a < |succ0| :: c in succ0[a] <==> g.Edge(a, c) && a !in gone && c !in gone
    requires forall a: nat, c: nat | a < |succ| :: c in succ[a] <==> c in succ0[a] && (a in blocks ==> Flows(sol, a, c))
    ensures Pruned(g, sol, gone, Graph(blocks, g.root, succ, pred))
  {
    var h := Graph(blocks, g.root, succ, pred);
    WithoutMembers(g.blocks, gone);
    forall a: nat, c: nat
      ensures h.Edge(a, c) <==> g.Edge(a, c) && a !in gone && c !in gone && Flows(sol, a, c)
    {
      if g.Edge(a, c) {
        var i :| 0 <= i < |g.succ[a]| && g.succ[a][i] == c;
        assert a in g.blocks;
      }
    }
  }

  /** A finished search has visited exactly what the entry reaches. */
  lemma EntryReaches(g: Graph, sol: Solution, visited: set<nat>, gone: seq<nat>)
    requires g.Valid() && Searching(g, sol, visited, gone, {}) && g.root in visited
    ensures ReachedZeroesGone(g, sol, gone)
  {
    forall b: nat | g.Reaches(g.root, b)
      ensures b in visited
    {
      var p :| g.IsPathBetween(p, g.root, b);
      PathVisited(g, sol, visited, gone, p);
    }
  }

  lemma {:induction false} PathVisited(g: Graph, sol: Solution, visited: set<nat>, gone: seq<nat>, p: seq<nat>)
    requires g.IsPath(p) && Searching(g, sol, visited, gone, {}) && p[0] in visited
    ensures Graphs.Last(p) in visited
    decreases |p|
  {
    if |p| > 1 {
      PathPrefix(g, p, |p| - 1);
      PathVisited(g, sol, visited, gone, p[..|p| - 1]);
      assert g.Edge(p[|p| - 2], p[|p| - 1]);
    }
  }

  lemma NothingGone(g: Graph)
    requires g.Valid()
    ensures ListsAre(g, [], g.blocks, g.succ, g.pred)
  {
    WithoutNone(g.blocks, []);
    forall a: nat | a < |g.succ|
      ensures g.succ[a] == SuccOf(g, [], a) && g.pred[a] == PredOf(g, [], a)
    {
      WithoutNone(g.succ[a], []);
      WithoutNone(g.pred[a], []);
    }
  }

  /** The successors found in the list of a newly visited block, and those already gone, are all it has. */
  lemma NotYetGone(g: Graph, sol: Solution, visited: set<nat>, gone: seq<nat>, gray: set<nat>, b: nat)
    requires g.Valid() && Searching(g, sol, visited, gone, gray) && b !in visited && b in g.blocks && g.Reaches(g.root, b)
    ensures b !in gone && Searching(g, sol, visited + {b}, gone, gray + {b})
    ensures forall c: nat | g.Edge(b, c) :: c in SuccOf(g, gone, b) || c in visited
    ensures forall i | 0 <= i < |SuccOf(g, gone, b)| :: SuccOf(g, gone, b)[i] in g.blocks && g.Reaches(g.root, SuccOf(g, gone, b)[i])
  {
    WithoutMembers(g.succ[b], gone);
    forall i | 0 <= i < |SuccOf(g, gone, b)|
      ensures SuccOf(g, gone, b)[i] in g.blocks && g.Reaches(g.root, SuccOf(g, gone, b)[i])
    {
      var c := SuccOf(g, gone, b)[i];
      assert c in g.succ[b];
      ReachesByEdge(g, b, c);
      ReachesTransitively(g, g.root, b, c);
    }
  }

  /** With flow conserved, the edges left are exactly those that carry flow. */
  lemma EdgesLeftCarryFlow(g: Graph, sol: Solution, gone: seq<nat>, h: Graph, a: nat, c: nat)
    requires g.Valid() && sol.Fits(g) && sol.Conserved(g) && Pruned(g, sol, gone, h)
    ensures h.Edge(a, c) <==> g.Edge(a, c) && Flows(sol, a, c)
  {
    if g.Edge(a, c) && Flows(sol, a, c) {
      assert sol.transfer[a][c] > 0;
      assert !Zero(sol, a) && !Zero(sol, c);
    }
  }

  /** A path survives exactly when all its edges carry flow and its blocks remain. */
  lemma PathsSurvive(g: Graph, sol: Solution, gone: seq<nat>, h: Graph, p: seq<nat>)
    requires g.Valid() && sol.Fits(g) && sol.Conserved(g) && Pruned(g, sol, gone, h) && g.IsPath(p)
    ensures h.IsPath(p) <==> p[0] !in gone && forall i | 0 <= i < |p| - 1 :: Flows(sol, p[i], p[i + 1])
  {
    WithoutMembers(g.blocks, gone);
    forall i | 0 <= i < |p| - 1
      ensures h.Edge(p[i], p[i + 1]) <==> Flows(sol, p[i], p[i + 1])
    {
      assert g.Edge(p[i], p[i + 1]);
      EdgesLeftCarryFlow(g, sol, gone, h, p[i], p[i + 1]);
    }
    if p[0] !in gone && forall i | 0 <= i < |p| - 1 :: Flows(sol, p[i], p[i + 1]) {
      forall i | 0 <= i < |p|
        ensures p[i] in h.blocks
      {
        if i > 0 {
          assert h.Edge(p[i - 1], p[i]);
        }
      }
    }
  }

  /** Every block the entry still reaches runs at least once, provided the entry does. */
  lemma ReachedBlocksRun(g: Graph, sol: Solution, gone: seq<nat>, h: Graph, b: nat)
    requires g.Valid() && sol.Fits(g) && Pruned(g, sol, gone, h) && !Zero(sol, g.root) && h.Reaches(h.root, b)
    ensures !Zero(sol, b) && b in h.blocks
  {
    var p :| h.IsPathBetween(p, h.root, b);
    WithoutMembers(g.blocks, gone);
    assert p[|p| - 1] in h.blocks;
    forall i | 0 <= i < |p|
      ensures p[i] in g.blocks
    {
      assert p[i] in h.blocks;
    }
    forall i | 0 <= i < |p| - 1
      ensures g.Edge(p[i], p[i + 1])
    {
      assert h.Edge(p[i], p[i + 1]);
    }
    assert g.IsPathBetween(p, g.root, b);
  }
}
