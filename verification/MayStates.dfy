/** What the reaching (RMB) and live (LMB) cache states mean, and the facts the fixpoint loops rely on. */
module MayStates {
  import opened Graphs
  import opened CacheState

  /** One abstract state for each block number. */
  type States = seq<CState>

  /** `p` leads from a block that references tag `t` on `line` to `b`, and no later block on it uses the line. */
  ghost predicate MayVia(g: Graph, refs: States, b: nat, line: nat, t: Tag, p: seq<nat>)
    requires |refs| == |g.succ| && g.Valid() && line < LINES
  {
    && g.IsPath(p) && Last(p) == b
    && t in refs[p[0]][line]
    && forall j | 0 < j < |p| :: refs[p[j]][line] == {}
  }

  ghost predicate May(g: Graph, refs: States, b: nat, line: nat, t: Tag)
    requires |refs| == |g.succ| && g.Valid() && line < LINES
  {
    exists p :: MayVia(g, refs, b, line, t, p)
  }

  /** Every tag that some block in `from` records for `line`. */
  ghost function Inflow(x: States, from: seq<nat>, line: nat): set<Tag>
    requires line < LINES && forall i | 0 <= i < |from| :: from[i] < |x|
  {
    set a, t | a in from && t in x[a][line] :: t
  }

  /** Every recorded tag is justified by a path. */
  ghost predicate Sound(g: Graph, refs: States, x: States)
    requires |refs| == |g.succ| && g.Valid()
  {
    && |x| == |refs|
    && forall b: nat, line: nat, t | b in g.blocks && line < LINES && t in x[b][line] :: May(g, refs, b, line, t)
  }

  /** A line the block itself references is either still empty or holds exactly its references. */
  ghost predicate Settled(refs: States, x: States) {
    && |x| == |refs|
    && forall b, line | 0 <= b < |x| && 0 <= line < LINES && refs[b][line] != {} ::
         x[b][line] == {} || x[b][line] == refs[b][line]
  }

  /** Another pass over block `b` would not change it. */
  ghost predicate StableAt(g: Graph, refs: States, x: States, b: nat)
    requires |refs| == |g.succ| == |x| && g.Valid() && b in g.blocks
  {
    forall line | 0 <= line < LINES ::
      if refs[b][line] == {} then Inflow(x, g.pred[b], line) <= x[b][line] else x[b][line] == refs[b][line]
  }

  /** The states are exactly what paths justify. */
  ghost predicate Exact(g: Graph, refs: States, x: States)
    requires |refs| == |g.succ| && g.Valid()
  {
    && |x| == |refs|
    && forall b: nat, line: nat, t | b in g.blocks && line < LINES :: t in x[b][line] <==> May(g, refs, b, line, t)
  }

  lemma MayFlows(g: Graph, refs: States, a: nat, b: nat, line: nat, t: Tag)
    requires |refs| == |g.succ| && g.Valid() && line < LINES
    requires g.Edge(a, b) && refs[b][line] == {} && May(g, refs, a, line, t)
    ensures May(g, refs, b, line, t)
  {
    var p :| MayVia(g, refs, a, line, t, p);
    PathExtends(g, p, b);
    assert MayVia(g, refs, b, line, t, p + [b]);
  }

  lemma MayOwn(g: Graph, refs: States, b: nat, line: nat, t: Tag)
    requires |refs| == |g.succ| && g.Valid() && line < LINES
    requires b in g.blocks && t in refs[b][line]
    ensures May(g, refs, b, line, t)
  {
    assert MayVia(g, refs, b, line, t, [b]);
  }

  lemma {:induction false} StableCoversPath(g: Graph, refs: States, x: States, b: nat, line: nat, t: Tag, p: seq<nat>)
    requires |refs| == |g.succ| == |x| && g.Valid() && line < LINES
    requires forall c <- g.blocks :: StableAt(g, refs, x, c)
    requires MayVia(g, refs, b, line, t, p)
    ensures b in g.blocks && t in x[b][line]
    decreases |p|
  {
    assert StableAt(g, refs, x, b);
    if |p| > 1 {
      var q := p[..|p| - 1];
      StableCoversPath(g, refs, x, Last(q), line, t, q);
      assert g.Edge(p[|p| - 2], p[|p| - 1]);
      assert t in Inflow(x, g.pred[b], line);
    }
  }

  /** A sound state that no pass changes is exact. */
  lemma StableIsExact(g: Graph, refs: States, x: States)
    requires |refs| == |g.succ| == |x| && g.Valid()
    requires Sound(g, refs, x) && forall c <- g.blocks :: StableAt(g, refs, x, c)
    ensures Exact(g, refs, x)
  {
    forall b: nat, line: nat, t | b in g.blocks && line < LINES && May(g, refs, b, line, t)
      ensures t in x[b][line]
    {
      var p :| MayVia(g, refs, b, line, t, p);
      StableCoversPath(g, refs, x, b, line, t, p);
    }
  }

  ghost function AllTags(refs: States): set<Tag> {
    set b, line, t | 0 <= b < |refs| && 0 <= line < LINES && t in refs[b][line] :: t
  }

  /** What could still be added: shrinks with every pass that reports a change. */
  ghost function Missing(refs: States, x: States): set<(int, int, Tag)> {
    set b, line, t | 0 <= b < |x| && 0 <= line < LINES && t in AllTags(refs) && t !in x[b][line] :: (b, line, t)
  }

  lemma MayTagIsKnown(g: Graph, refs: States, b: nat, line: nat, t: Tag)
    requires |refs| == |g.succ| && g.Valid() && line < LINES && May(g, refs, b, line, t)
    ensures t in AllTags(refs)
  {
    var p :| MayVia(g, refs, b, line, t, p);
    assert t in refs[p[0]][line];
  }

  /** One block's update of a fixpoint pass: what it keeps and what it achieves. */
  lemma UpdateBlock(g: Graph, refs: States, x: States, b: nat, flow: CState, next: CState)
    requires |refs| == |g.succ| == |x| && g.Valid() && b in g.blocks
    requires Sound(g, refs, x) && Settled(refs, x)
    requires forall line | 0 <= line < LINES :: flow[line] == Inflow(x, g.pred[b], line)
    requires forall line | 0 <= line < LINES ::
               next[line] == OutputLine(refs[b][line] + flow[line], x[b][line], refs[b][line])
    ensures var y := x[b := next];
            && Sound(g, refs, y) && Settled(refs, y)
            && (y != x ==> Missing(refs, y) < Missing(refs, x))
            && (y == x ==> StableAt(g, refs, x, b))
    ensures next != x[b] <==> exists line | 0 <= line < LINES ::
              if refs[b][line] == {} then !(refs[b][line] + flow[line] <= x[b][line]) else x[b][line] == {}
  {
    var y := x[b := next];
    forall line: nat, t | line < LINES && t in next[line]
      ensures May(g, refs, b, line, t)
    {
      if t in refs[b][line] {
        MayOwn(g, refs, b, line, t);
      } else if t !in x[b][line] {
        var a :| a in g.pred[b] && t in x[a][line];
        MayFlows(g, refs, a, b, line, t);
      }
    }
    forall line | 0 <= line < LINES
      ensures x[b][line] <= next[line]
    {
    }
    if next != x[b] {
      var line :| 0 <= line < LINES && next[line] != x[b][line];
      var t :| t in next[line] && t !in x[b][line];
      MayTagIsKnown(g, refs, b, line, t);
      assert (b, line, t) in Missing(refs, x) && (b, line, t) !in Missing(refs, y);
    } else {
      assert y == x;
      forall line | 0 <= line < LINES && refs[b][line] != {}
        ensures x[b][line] == refs[b][line]
      {
        assert next[line] == refs[b][line];
      }
    }
    assert Missing(refs, y) <= Missing(refs, x);
  }

  /** The recorded inflow of block `b` is the union over its predecessors. */
  ghost predicate InputAgrees(g: Graph, input: States, x: States, b: nat)
    requires |input| == |x| == |g.succ| && g.Valid() && b in g.blocks
  {
    forall line | 0 <= line < LINES :: input[b][line] == Inflow(x, g.pred[b], line)
  }

  ghost predicate Cleared(x: States) {
    forall b, line | 0 <= b < |x| && 0 <= line < LINES :: x[b][line] == {}
  }

  lemma InflowGrows(x: States, from: seq<nat>, j: nat)
    requires j < |from| && forall i | 0 <= i < |from| :: from[i] < |x|
    ensures forall line | 0 <= line < LINES ::
              Inflow(x, from[..j + 1], line) == Inflow(x, from[..j], line) + x[from[j]][line]
  {
    assert from[..j + 1] == from[..j] + [from[j]];
  }
}
