/** The forest of loops that `identify_loops` is to build. */
module LoopForest {
  import opened Graphs
  import opened Loops
  import opened Components
  import opened LoopNesting

  ghost predicate Disjoint(s: seq<nat>, t: seq<nat>) {
    forall v: nat | v in s :: v !in t
  }

  /** All of `t` lies in the body of `loop`, without its header. */
  ghost predicate InBody(loop: Loop, t: seq<nat>) {
    forall v: nat | v in t :: v in loop.nodes && v != loop.root
  }

  /** The graph in which loop `i` is a strongly connected component: the whole program, or its parent's body. */
  ghost function Around(g: Graph, loops: seq<Loop>, i: nat): Graph
    requires i < |loops| && (loops[i].outside || 0 <= loops[i].parent < |loops|)
  {
    if loops[i].outside then g else Inner(g, loops[loops[i].parent].nodes, loops[loops[i].parent].root)
  }

  ghost predicate RecordOk(g: Graph, loops: seq<Loop>, i: nat)
    requires i < |loops|
  {
    var l := loops[i];
    && l.id == i && NoDuplicates(l.nodes) && Inside(g, l.nodes) && |l.nodes| >= 2
    && (if l.outside then l.parent == UNDEF else 0 <= l.parent < i)
    && Component(Around(g, loops, i), l.root, l.nodes)
  }

  ghost predicate Records(g: Graph, loops: seq<Loop>) {
    forall i: nat | i < |loops| :: RecordOk(g, loops, i)
  }

  /** Two loops are disjoint, or the later one lies in the body of the earlier one. */
  ghost predicate Forest(loops: seq<Loop>) {
    forall i: nat, j: nat | i < j < |loops| :: Disjoint(loops[i].nodes, loops[j].nodes) || InBody(loops[i], loops[j].nodes)
  }

  ghost predicate InLoopWithParent(loops: seq<Loop>, v: nat, parent: int) {
    exists j: nat :: j < |loops| && loops[j].parent == parent && v in loops[j].nodes
  }

  /** No component is missing, neither of the program nor of a body. */
  ghost predicate Complete(g: Graph, loops: seq<Loop>) {
    && (forall v: nat, w: nat | v in g.blocks && v != w && Mutual(g, v, w) :: InLoopWithParent(loops, v, UNDEF))
    && (forall i: nat, v: nat, w: nat | i < |loops| && v != w && Mutual(Inner(g, loops[i].nodes, loops[i].root), v, w) ::
          InLoopWithParent(loops, v, i))
  }

  /** Every loop is a component of the program or of the body of its parent, loops are nested or disjoint, and no
      component is missing. */
  ghost predicate ForestOk(g: Graph, loops: seq<Loop>) {
    Records(g, loops) && Forest(loops) && Complete(g, loops)
  }

  /** The last loop in the list that contains a block is its innermost loop: it lies in the body of every other. */
  lemma LastIsInnermost(loops: seq<Loop>, v: nat, i: nat, j: nat)
    requires Forest(loops) && i < j < |loops| && v in loops[i].nodes && v in loops[j].nodes
    ensures InBody(loops[i], loops[j].nodes)
  {
    assert !Disjoint(loops[i].nodes, loops[j].nodes);
  }

  /** In such a forest no two loops share a header. */
  lemma HeadersDiffer(g: Graph, loops: seq<Loop>, i: nat, j: nat)
    requires ForestOk(g, loops) && i < j < |loops|
    ensures loops[i].root != loops[j].root
  {
    assert RecordOk(g, loops, i) && RecordOk(g, loops, j);
    assert loops[i].root in loops[i].nodes && loops[j].root in loops[j].nodes;
  }

  /** The number of the last loop in the list that contains `v`. */
  function Innermost(loops: seq<Loop>, v: nat): (id: int)
    ensures id == UNDEF <==> forall i | 0 <= i < |loops| && loops[i].id != UNDEF :: v !in loops[i].nodes
  {
    if loops == [] then UNDEF
    else if v in Last(loops).nodes && Last(loops).id != UNDEF then Last(loops).id
    else Innermost(loops[..|loops| - 1], v)
  }
}
