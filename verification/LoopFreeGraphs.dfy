/** What a loop search that finds nothing says about the graph: the must search and the end-to-end miss bound apply. */
module LoopFreeGraphs {
  import opened Graphs
  import opened Loops
  import opened Components
  import opened Tarjan
  import opened CacheState
  import opened MayStates
  import opened MustSearch

  /** The blocks from which `v` can be reached. */
  ghost function Ancestors(g: Graph, v: nat): set<nat> {
    set u | u in g.blocks && g.Reaches(u, v)
  }

  ghost function AncestorCounts(g: Graph): seq<nat> {
    seq(|g.succ|, (v: nat) => |Ancestors(g, v)|)
  }

  lemma FewerAncestors(g: Graph, a: nat, b: nat)
    requires g.SuccValid() && g.Edge(a, b) && a != b && !Mutual(g, a, b)
    ensures |Ancestors(g, a)| < |Ancestors(g, b)|
  {
    ReachesByEdge(g, a, b);
    ReachesItself(g, b);
    forall u | u in Ancestors(g, a)
      ensures u in Ancestors(g, b)
    {
      ReachesTransitively(g, u, a, b);
    }
    assert b !in Ancestors(g, a) && b in Ancestors(g, b);
    SmallerSet(Ancestors(g, a), Ancestors(g, b));
  }

  lemma SmallerSet(s: set<nat>, t: set<nat>)
    requires s < t
    ensures |s| < |t|
  {
    assert t == s + (t - s);
  }

  /** When the loop search reports no loop, every block is free of loops and the must search terminates: counting
      ancestors ranks the blocks. */
  lemma NothingDetected(g: Graph, loops: seq<Loop>, first: seq<int>, table: LoopTable)
    requires g.Valid() && FindsComponents(g, loops, |loops|, first)
    requires table.Valid(g) && LoopFree(g, table)
    ensures forall v: nat, w: nat | v in g.blocks && v != w :: !Mutual(g, v, w)
    ensures table.HeadersEntered(g) && Searchable(g, table, AncestorCounts(g))
  {
    forall b, a: nat | b in g.blocks && a in g.pred[b] && a != b
      ensures AncestorCounts(g)[a] < AncestorCounts(g)[b]
    {
      assert g.Edge(a, b);
      FewerAncestors(g, a, b);
    }
  }
}
