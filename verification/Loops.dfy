/** The loop table that the analyses consult: which loop a block belongs to, and the loops themselves. */
module Loops {
  import opened Graphs

  const UNDEF: int := -1

  /** `outside` marks a loop found in the whole program, `analysed` one whose body has been searched. */
  datatype Loop = Loop(id: int, root: nat, parent: int, nodes: seq<nat>,
                       nameonly outside: bool := false, nameonly analysed: bool := false)

  /** `loopId[b]` is the number of the innermost loop of block `b`, or `UNDEF`. */
  datatype LoopTable = LoopTable(loopId: seq<int>, loops: seq<Loop>) {

    predicate Has(id: int) {
      exists i | 0 <= i < |loops| :: loops[i].id == id
    }

    /** `get_loop`: the first listed loop with that number. */
    function Get(id: int): (loop: Loop)
      requires Has(id)
      ensures loop in loops && loop.id == id
    {
      FirstWithId(loops, id)
    }

    predicate IsHeader(b: nat)
      requires b < |loopId| && (loopId[b] == UNDEF || Has(loopId[b]))
    {
      loopId[b] != UNDEF && Get(loopId[b]).root == b
    }

    ghost predicate Valid(g: Graph) {
      && g.Valid()
      && |loopId| == |g.succ|
      && (forall b: nat | b < |loopId| :: loopId[b] == UNDEF || Has(loopId[b]))
      && (forall i | 0 <= i < |loops| ::
            loops[i].root in loops[i].nodes && (loops[i].parent == UNDEF || Has(loops[i].parent)))
    }

    /** The assertions of `get_inloop_predecessors` hold for every header. */
    ghost predicate HeadersEntered(g: Graph)
      requires Valid(g)
    {
      forall b | b in g.blocks && IsHeader(b) ::
        && OutsidePreds(g, b) != []
        && InLoopPreds(g, b) != []
    }

    /** Predecessors of header `b` that are not nodes of its loop. */
    ghost function OutsidePreds(g: Graph, b: nat): seq<nat>
      requires Valid(g) && b in g.blocks && IsHeader(b)
    {
      Without(g.pred[b], Get(loopId[b]).nodes)
    }

    /** The last predecessor outside the loop. */
    ghost function MainPred(g: Graph, b: nat): (p: nat)
      requires Valid(g) && b in g.blocks && IsHeader(b) && OutsidePreds(g, b) != []
      ensures p in g.pred[b] && p !in Get(loopId[b]).nodes
    {
      WithoutMembers(g.pred[b], Get(loopId[b]).nodes);
      assert Last(OutsidePreds(g, b)) in OutsidePreds(g, b);
      Last(OutsidePreds(g, b))
    }

    /** Every predecessor of header `b` except the main one. */
    ghost function InLoopPreds(g: Graph, b: nat): (ps: seq<nat>)
      requires Valid(g) && b in g.blocks && IsHeader(b) && OutsidePreds(g, b) != []
      ensures forall p :: p in ps <==> p in g.pred[b] && p != MainPred(g, b)
    {
      WithoutMembers(g.pred[b], [MainPred(g, b)]);
      Without(g.pred[b], [MainPred(g, b)])
    }
  }

  function FirstWithId(loops: seq<Loop>, id: int): (loop: Loop)
    requires exists i | 0 <= i < |loops| :: loops[i].id == id
    ensures loop in loops && loop.id == id
  {
    if loops[0].id == id then loops[0] else FirstWithId(loops[1..], id)
  }

  /** The elements of `s` that are not in `drop`, in order. */
  function Without(s: seq<nat>, drop: seq<nat>): seq<nat> {
    if s == [] then []
    else Without(s[..|s| - 1], drop) + if s[|s| - 1] in drop then [] else [s[|s| - 1]]
  }

  lemma {:induction false} WithoutMembers(s: seq<nat>, drop: seq<nat>)
    ensures forall x :: x in Without(s, drop) <==> x in s && x !in drop
  {
    if s != [] {
      WithoutMembers(s[..|s| - 1], drop);
      assert s == s[..|s| - 1] + [s[|s| - 1]];
    }
  }

  /** `get_inloop_predecessors`: splits a header's predecessors into the main one and the rest. */
  method GetInLoopPredecessors(g: Graph, table: LoopTable, b: nat) returns (mainPred: nat, inLoop: seq<nat>)
    requires table.Valid(g) && b in g.blocks && table.IsHeader(b) && table.OutsidePreds(g, b) != []
    ensures mainPred == table.MainPred(g, b) && inLoop == table.InLoopPreds(g, b)
  {
    var preds, nodes := g.pred[b], table.Get(table.loopId[b]).nodes;
    var found := false;
    mainPred := 0;
    for i := 0 to |preds|
      invariant found <==> Without(preds[..i], nodes) != []
      invariant found ==> mainPred == Last(Without(preds[..i], nodes))
    {
      assert preds[..i + 1][..i] == preds[..i];
      if preds[i] !in nodes {
        mainPred, found := preds[i], true;
      }
    }
    assert preds[..|preds|] == preds;
    inLoop := [];
    for i := 0 to |preds|
      invariant inLoop == Without(preds[..i], [mainPred])
    {
      assert preds[..i + 1][..i] == preds[..i];
      if preds[i] != mainPred {
        inLoop := inLoop + [preds[i]];
      }
    }
  }
}
