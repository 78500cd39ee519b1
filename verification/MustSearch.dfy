/** The backward search that decides whether a tag is accessed on every way into a block. */
module MustSearch {
  import opened Graphs
  import opened Loops
  import opened CacheState
  import opened MayStates

  /** `p` starts at a block without predecessors, ends at `b` and never references tag `t` on `line`. */
  ghost predicate AvoidsVia(g: Graph, refs: States, b: nat, line: nat, t: Tag, p: seq<nat>)
    requires g.Valid() && |refs| == |g.succ| && line < LINES
  {
    && g.IsPath(p) && g.pred[p[0]] == [] && Last(p) == b
    && forall i | 0 <= i < |p| :: t !in refs[p[i]][line]
  }

  /** Every path from a block without predecessors to `b` contains a block that references the tag. */
  ghost predicate AlwaysAccessed(g: Graph, refs: States, b: nat, line: nat, t: Tag)
    requires g.Valid() && |refs| == |g.succ| && line < LINES
  {
    !exists p :: AvoidsVia(g, refs, b, line, t, p)
  }

  lemma AvoidanceExtends(g: Graph, refs: States, a: nat, b: nat, line: nat, t: Tag)
    requires g.Valid() && |refs| == |g.succ| && line < LINES
    requires b in g.blocks && a in g.pred[b] && t !in refs[b][line]
    ensures AlwaysAccessed(g, refs, b, line, t) ==> AlwaysAccessed(g, refs, a, line, t)
  {
    if p :| AvoidsVia(g, refs, a, line, t, p) {
      assert g.Edge(a, b);
      PathExtends(g, p, b);
      assert AvoidsVia(g, refs, b, line, t, p + [b]);
    }
  }

  lemma EntryAvoids(g: Graph, refs: States, b: nat, line: nat, t: Tag)
    requires g.Valid() && |refs| == |g.succ| && line < LINES && b in g.blocks
    requires g.pred[b] == [] && t !in refs[b][line]
    ensures !AlwaysAccessed(g, refs, b, line, t)
  {
    assert AvoidsVia(g, refs, b, line, t, [b]);
  }

  /** An avoiding path to a block that has predecessors enters it from another block. */
  lemma {:induction false} AvoidanceEnters(g: Graph, refs: States, b: nat, line: nat, t: Tag, p: seq<nat>) returns (a: nat)
    requires g.Valid() && |refs| == |g.succ| && line < LINES && b in g.blocks
    requires AvoidsVia(g, refs, b, line, t, p) && g.pred[b] != []
    ensures a in g.pred[b] && a != b && !AlwaysAccessed(g, refs, a, line, t)
    decreases |p|
  {
    var q := p[..|p| - 1];
    assert |p| > 1;
    assert g.Edge(p[|p| - 2], p[|p| - 1]);
    assert AvoidsVia(g, refs, Last(q), line, t, q);
    if Last(q) == b {
      a := AvoidanceEnters(g, refs, b, line, t, q);
    } else {
      a := Last(q);
    }
  }

  datatype SearchState = NotVisited | VisitedFound | VisitedNotFound | LoopHeaderWaiting

  /** Ranks that fall along every edge the search follows, except from a header into its own loop:
      without the edges from inside a loop to its header, and without self edges, the graph is acyclic. */
  ghost predicate Searchable(g: Graph, table: LoopTable, rank: seq<nat>)
    requires table.Valid(g) && table.HeadersEntered(g)
  {
    && |rank| == |g.succ|
    && forall b, a: nat | b in g.blocks && a in g.pred[b] && a != b && (table.IsHeader(b) ==> a == table.MainPred(g, b)) ::
         rank[a] < rank[b]
  }

  ghost predicate LoopFree(g: Graph, table: LoopTable)
    requires table.Valid(g)
  {
    forall b | b in g.blocks :: table.loopId[b] == UNDEF
  }

  // ---------------------------------------------------------------- what the answer says on graphs with loops

  /** Blocks none of which references the tag, each entered from another one of them if it is entered at all; a header
      both over its main predecessor and over one of its other predecessors. */
  ghost predicate Evades(g: Graph, table: LoopTable, refs: States, line: nat, t: Tag, u: set<nat>)
    requires table.Valid(g) && table.HeadersEntered(g) && |refs| == |g.succ| && line < LINES
  {
    forall b | b in u ::
      && b in g.blocks && t !in refs[b][line]
      && if table.IsHeader(b) then table.MainPred(g, b) in u && exists q | q in table.InLoopPreds(g, b) :: q in u
         else g.pred[b] == [] || exists q | q in g.pred[b] :: q != b && q in u
  }

  /** No such set holds the block.  This is all that a positive answer says. */
  ghost predicate Accepted(g: Graph, table: LoopTable, refs: States, b: nat, line: nat, t: Tag)
    requires table.Valid(g) && table.HeadersEntered(g) && |refs| == |g.succ| && line < LINES
  {
    forall u | Evades(g, table, refs, line, t, u) :: b !in u
  }

  /** A way to `b` without the tag from a header or from the entry. */
  ghost predicate DodgesVia(g: Graph, table: LoopTable, refs: States, b: nat, line: nat, t: Tag, p: seq<nat>)
    requires table.Valid(g) && |refs| == |g.succ| && line < LINES
  {
    && g.IsPath(p) && Last(p) == b && (table.IsHeader(p[0]) || g.pred[p[0]] == [])
    && forall i | 0 <= i < |p| :: t !in refs[p[i]][line]
  }

  ghost predicate Dodges(g: Graph, table: LoopTable, refs: States, b: nat, line: nat, t: Tag)
    requires table.Valid(g) && |refs| == |g.succ| && line < LINES
  {
    exists p :: DodgesVia(g, table, refs, b, line, t, p)
  }

  /** Some other predecessor of header `b` than the main one has such a way. */
  ghost predicate BodyDodges(g: Graph, table: LoopTable, refs: States, b: nat, line: nat, t: Tag)
    requires table.Valid(g) && table.HeadersEntered(g) && |refs| == |g.succ| && line < LINES && b in g.blocks && table.IsHeader(b)
  {
    exists q | q in table.InLoopPreds(g, b) :: Dodges(g, table, refs, q, line, t)
  }

  /** An avoiding path that enters every header on it over the main predecessor, where the tag can also be dodged in
      the body of each of these headers. */
  ghost predicate SlipsVia(g: Graph, table: LoopTable, refs: States, b: nat, line: nat, t: Tag, p: seq<nat>)
    requires table.Valid(g) && table.HeadersEntered(g) && |refs| == |g.succ| && line < LINES
  {
    && AvoidsVia(g, refs, b, line, t, p)
    && forall i | 0 <= i < |p| && table.IsHeader(p[i]) ::
         0 < i && p[i - 1] == table.MainPred(g, p[i]) && BodyDodges(g, table, refs, p[i], line, t)
  }

  /** There is no such path.  Then the answer is positive. */
  ghost predicate Sure(g: Graph, table: LoopTable, refs: States, b: nat, line: nat, t: Tag)
    requires table.Valid(g) && table.HeadersEntered(g) && |refs| == |g.succ| && line < LINES
  {
    !exists p :: SlipsVia(g, table, refs, b, line, t, p)
  }

  lemma AlwaysIsSure(g: Graph, table: LoopTable, refs: States, b: nat, line: nat, t: Tag)
    requires table.Valid(g) && table.HeadersEntered(g) && |refs| == |g.succ| && line < LINES
    ensures AlwaysAccessed(g, refs, b, line, t) ==> Sure(g, table, refs, b, line, t)
  {
  }

  /** A way to a predecessor goes on to the block. */
  lemma SlipExtends(g: Graph, table: LoopTable, refs: States, a: nat, b: nat, line: nat, t: Tag)
    requires table.Valid(g) && table.HeadersEntered(g) && |refs| == |g.succ| && line < LINES
    requires b in g.blocks && a in g.pred[b] && t !in refs[b][line] && !Sure(g, table, refs, a, line, t)
    requires table.IsHeader(b) ==> a == table.MainPred(g, b) && BodyDodges(g, table, refs, b, line, t)
    ensures !Sure(g, table, refs, b, line, t)
  {
    var p :| SlipsVia(g, table, refs, a, line, t, p);
    assert g.Edge(a, b);
    PathExtends(g, p, b);
    var q := p + [b];
    assert AvoidsVia(g, refs, b, line, t, q);
    forall i | 0 <= i < |q| && table.IsHeader(q[i])
      ensures 0 < i && q[i - 1] == table.MainPred(g, q[i]) && BodyDodges(g, table, refs, q[i], line, t)
    {
      if i < |p| {
        assert q[i] == p[i];
      }
    }
    assert SlipsVia(g, table, refs, b, line, t, q);
  }

  lemma EntrySlips(g: Graph, table: LoopTable, refs: States, b: nat, line: nat, t: Tag)
    requires table.Valid(g) && table.HeadersEntered(g) && |refs| == |g.succ| && line < LINES && b in g.blocks
    requires g.pred[b] == [] && t !in refs[b][line] && !table.IsHeader(b)
    ensures !Sure(g, table, refs, b, line, t)
  {
    assert SlipsVia(g, table, refs, b, line, t, [b]);
  }

  /** A block that cannot be dodged to is no header, has predecessors, and none of them can be dodged to. */
  lemma DodgeExtends(g: Graph, table: LoopTable, refs: States, b: nat, line: nat, t: Tag)
    requires table.Valid(g) && |refs| == |g.succ| && line < LINES && b in g.blocks && t !in refs[b][line]
    requires !Dodges(g, table, refs, b, line, t)
    ensures !table.IsHeader(b) && g.pred[b] != []
    ensures forall a | a in g.pred[b] :: !Dodges(g, table, refs, a, line, t)
  {
    if table.IsHeader(b) || g.pred[b] == [] {
      assert DodgesVia(g, table, refs, b, line, t, [b]);
    }
    forall a | a in g.pred[b]
      ensures !Dodges(g, table, refs, a, line, t)
    {
      if p :| DodgesVia(g, table, refs, a, line, t, p) {
        assert g.Edge(a, b);
        PathExtends(g, p, b);
        assert DodgesVia(g, table, refs, b, line, t, p + [b]);
      }
    }
  }

  /** Without loops, accepted blocks are exactly those where the tag is always accessed. */
  lemma LoopFreeAccepted(g: Graph, table: LoopTable, refs: States, b: nat, line: nat, t: Tag)
    requires table.Valid(g) && table.HeadersEntered(g) && |refs| == |g.succ| && line < LINES && b in g.blocks
    requires LoopFree(g, table)
    ensures Accepted(g, table, refs, b, line, t) ==> AlwaysAccessed(g, refs, b, line, t)
  {
    var u := set c | c in g.blocks && !AlwaysAccessed(g, refs, c, line, t);
    forall c | c in u && g.pred[c] != []
      ensures t !in refs[c][line] && exists q | q in g.pred[c] :: q != c && q in u
    {
      var p :| AvoidsVia(g, refs, c, line, t, p);
      var q := AvoidanceEnters(g, refs, c, line, t, p);
      assert q in u;
    }
    assert Evades(g, table, refs, line, t, u) by {
      forall c | c in u
        ensures t !in refs[c][line]
      {
        var p :| AvoidsVia(g, refs, c, line, t, p);
        assert p[|p| - 1] == c;
      }
    }
  }

  /** Loops that are not nested, and entered at their headers only over the main predecessor. */
  ghost predicate Flat(g: Graph, table: LoopTable)
    requires table.Valid(g) && table.HeadersEntered(g)
  {
    && (forall b, q | b in g.blocks && table.IsHeader(b) && q in table.InLoopPreds(g, b) :: table.loopId[q] == table.loopId[b])
    && (forall b, q | b in g.blocks && table.loopId[b] != UNDEF && !table.IsHeader(b) && q in g.pred[b] ::
          table.loopId[q] == table.loopId[b])
    && (forall b | b in g.blocks && table.loopId[b] != UNDEF && !table.IsHeader(b) :: g.pred[b] != [])
  }

  lemma DodgeOn(g: Graph, table: LoopTable, refs: States, a: nat, b: nat, line: nat, t: Tag, x: seq<nat>) returns (w: seq<nat>)
    requires table.Valid(g) && |refs| == |g.succ| && line < LINES && DodgesVia(g, table, refs, a, line, t, x)
    requires b in g.blocks && a in g.pred[b] && t !in refs[b][line]
    ensures w == x + [b] && DodgesVia(g, table, refs, b, line, t, w)
  {
    assert g.Edge(a, b);
    PathExtends(g, x, b);
    w := x + [b];
  }

  /** In a flat loop, a way into the body begins at the loop's own header. */
  lemma {:induction false} DodgeStaysInside(g: Graph, table: LoopTable, refs: States, b: nat, line: nat, t: Tag, p: seq<nat>)
    returns (w: seq<nat>)
    requires table.Valid(g) && table.HeadersEntered(g) && |refs| == |g.succ| && line < LINES && Flat(g, table)
    requires b in g.blocks && table.loopId[b] != UNDEF && DodgesVia(g, table, refs, b, line, t, p)
    ensures DodgesVia(g, table, refs, b, line, t, w) && table.IsHeader(w[0]) && table.loopId[w[0]] == table.loopId[b]
    ensures forall i | 0 < i < |w| :: !table.IsHeader(w[i])
    decreases |p|
  {
    if table.IsHeader(b) {
      w := [b];
    } else {
      assert |p| > 1;
      var a := p[|p| - 2];
      assert g.Edge(a, p[|p| - 1]);
      DodgePrefix(g, table, refs, b, line, t, p, |p| - 1);
      assert a in g.pred[b] && t !in refs[p[|p| - 1]][line];
      var x := DodgeStaysInside(g, table, refs, a, line, t, p[..|p| - 1]);
      w := DodgeOn(g, table, refs, a, b, line, t, x);
    }
  }

  /** A block on the slipping path `p`, or on a way without the tag from a header of `p` into its body. */
  ghost predicate OnTheWay(g: Graph, table: LoopTable, refs: States, line: nat, t: Tag, p: seq<nat>, b: nat)
    requires table.Valid(g) && |refs| == |g.succ| && line < LINES
  {
    b in p || exists w :: DodgesVia(g, table, refs, b, line, t, w) && w[0] in p && table.IsHeader(w[0])
                          && forall i | 0 < i < |w| :: !table.IsHeader(w[i])
  }

  lemma WayLeadsOn(g: Graph, table: LoopTable, refs: States, line: nat, t: Tag, p: seq<nat>, b: nat)
    requires table.Valid(g) && table.HeadersEntered(g) && |refs| == |g.succ| && line < LINES && Flat(g, table)
    requires p != [] && SlipsVia(g, table, refs, Last(p), line, t, p) && OnTheWay(g, table, refs, line, t, p, b)
    requires table.IsHeader(b)
    ensures OnTheWay(g, table, refs, line, t, p, table.MainPred(g, b))
    ensures exists q | q in table.InLoopPreds(g, b) :: OnTheWay(g, table, refs, line, t, p, q)
  {
    assert b in p by {
      if w :| DodgesVia(g, table, refs, b, line, t, w) && w[0] in p && table.IsHeader(w[0])
              && forall i | 0 < i < |w| :: !table.IsHeader(w[i]) {
        assert |w| == 1;
      }
    }
    var i :| 0 <= i < |p| && p[i] == b;
    assert BodyDodges(g, table, refs, b, line, t);
    var q :| q in table.InLoopPreds(g, b) && Dodges(g, table, refs, q, line, t);
    var v :| DodgesVia(g, table, refs, q, line, t, v);
    assert q in g.blocks;
    var w := DodgeStaysInside(g, table, refs, q, line, t, v);
    assert w[0] == b;
    assert OnTheWay(g, table, refs, line, t, p, q);
    assert p[i - 1] in p;
  }

  lemma WayComesFrom(g: Graph, table: LoopTable, refs: States, line: nat, t: Tag, p: seq<nat>, b: nat)
    requires table.Valid(g) && table.HeadersEntered(g) && |refs| == |g.succ| && line < LINES
    requires p != [] && SlipsVia(g, table, refs, Last(p), line, t, p) && OnTheWay(g, table, refs, line, t, p, b)
    requires !table.IsHeader(b) && b in g.blocks && g.pred[b] != []
    ensures exists q | q in g.pred[b] :: q != b && OnTheWay(g, table, refs, line, t, p, q)
  {
    if b in p {
      var i := FirstEntry(g, p, b);
      assert p[i - 1] in p;
    } else {
      var w :| DodgesVia(g, table, refs, b, line, t, w) && w[0] in p && table.IsHeader(w[0])
               && forall i | 0 < i < |w| :: !table.IsHeader(w[i]);
      assert w[|w| - 1] == b;
      var i := FirstEntry(g, w, b);
      DodgePrefix(g, table, refs, b, line, t, w, i);
    }
  }

  /** Where a path first comes to `b`, it comes from another block. */
  lemma FirstEntry(g: Graph, p: seq<nat>, b: nat) returns (i: nat)
    requires g.Valid() && g.IsPath(p) && b in p && p[0] != b
    ensures 0 < i < |p| && p[i] == b && p[i - 1] != b && p[i - 1] in g.pred[b]
  {
    i := FirstOf(p, b);
    assert p[i - 1] == p[..i][i - 1];
    assert g.Edge(p[i - 1], p[i - 1 + 1]);
  }

  lemma DodgePrefix(g: Graph, table: LoopTable, refs: States, b: nat, line: nat, t: Tag, w: seq<nat>, i: nat)
    requires table.Valid(g) && |refs| == |g.succ| && line < LINES && DodgesVia(g, table, refs, b, line, t, w) && 0 < i <= |w|
    ensures DodgesVia(g, table, refs, w[i - 1], line, t, w[..i]) && w[..i][0] == w[0]
  {
    PathPrefix(g, w, i);
  }

  lemma {:induction false} FirstOf(p: seq<nat>, b: nat) returns (i: nat)
    requires b in p
    ensures i < |p| && p[i] == b && b !in p[..i]
  {
    if p[0] == b {
      i := 0;
    } else {
      var k := FirstOf(p[1..], b);
      i := k + 1;
      assert p[..i] == [p[0]] + p[1..][..k];
    }
  }

  /** On graphs without nested loops the two bounds meet: the answer is positive exactly when every avoiding path
      passes a header of which no round avoids the tag. */
  lemma FlatAnswer(g: Graph, table: LoopTable, refs: States, b: nat, line: nat, t: Tag)
    requires table.Valid(g) && table.HeadersEntered(g) && |refs| == |g.succ| && line < LINES && b in g.blocks
    requires Flat(g, table)
    ensures Accepted(g, table, refs, b, line, t) ==> Sure(g, table, refs, b, line, t)
  {
    if p :| SlipsVia(g, table, refs, b, line, t, p) {
      var u := set c | c in g.blocks && OnTheWay(g, table, refs, line, t, p, c);
      forall c | c in u
        ensures t !in refs[c][line]
        ensures if table.IsHeader(c) then table.MainPred(g, c) in u && exists q | q in table.InLoopPreds(g, c) :: q in u
                else g.pred[c] == [] || exists q | q in g.pred[c] :: q != c && q in u
      {
        if c !in p {
          var w :| DodgesVia(g, table, refs, c, line, t, w);
          assert w[|w| - 1] == c;
        }
        if table.IsHeader(c) {
          WayLeadsOn(g, table, refs, line, t, p, c);
          var q :| q in table.InLoopPreds(g, c) && OnTheWay(g, table, refs, line, t, p, q);
          assert q in u && table.MainPred(g, c) in u;
        } else if g.pred[c] != [] {
          WayComesFrom(g, table, refs, line, t, p, c);
          var q :| q in g.pred[c] && q != c && OnTheWay(g, table, refs, line, t, p, q);
          assert q in u;
        }
      }
      assert Evades(g, table, refs, line, t, u);
      assert b in u by {
        assert p[|p| - 1] == b;
      }
    }
  }

  /** Blocks where the answer has to be positive, blocks where it may be, and blocks that can be dodged to. */
  datatype Limits = Limits(sure: set<nat>, accepted: set<nat>, dodged: set<nat>)

  ghost function LimitsOf(g: Graph, table: LoopTable, refs: States, line: nat, t: Tag): Limits
    requires table.Valid(g) && table.HeadersEntered(g) && |refs| == |g.succ| && line < LINES
  {
    Limits(set b | b in g.blocks && Sure(g, table, refs, b, line, t),
           set b | b in g.blocks && Accepted(g, table, refs, b, line, t),
           set b | b in g.blocks && Dodges(g, table, refs, b, line, t))
  }

  /** What one step of the search relies on at block `b`. */
  ghost predicate FitsAt(g: Graph, table: LoopTable, refs: States, line: nat, t: Tag, s: Limits, b: nat)
    requires table.Valid(g) && table.HeadersEntered(g) && |refs| == |g.succ| && line < LINES && b in g.blocks
  {
    && (t in refs[b][line] ==> b in s.accepted)
    && (if table.IsHeader(b) then
          && (table.MainPred(g, b) in s.accepted ==> b in s.accepted)
          && ((forall q | q in table.InLoopPreds(g, b) :: q in s.accepted) ==> b in s.accepted)
          && (t !in refs[b][line] ==> b in s.dodged)
          && ((t !in refs[b][line] && table.MainPred(g, b) !in s.sure && exists q | q in table.InLoopPreds(g, b) :: q in s.dodged)
              ==> b !in s.sure)
        else
          && (g.pred[b] != [] && (forall q | q in g.pred[b] && q != b :: q in s.accepted) ==> b in s.accepted)
          && (t !in refs[b][line] && g.pred[b] == [] ==> b !in s.sure)
          && (t !in refs[b][line] ==> forall q | q in g.pred[b] :: (q !in s.sure ==> b !in s.sure) && (q in s.dodged ==> b in s.dodged)))
    && (b !in s.sure ==> b in s.dodged)
  }

  ghost predicate Fits(g: Graph, table: LoopTable, refs: States, line: nat, t: Tag, s: Limits)
    requires table.Valid(g) && table.HeadersEntered(g) && |refs| == |g.succ| && line < LINES
  {
    forall b {:trigger FitsAt(g, table, refs, line, t, s, b)} | b in g.blocks :: FitsAt(g, table, refs, line, t, s, b)
  }

  lemma SlippedIsDodged(g: Graph, table: LoopTable, refs: States, b: nat, line: nat, t: Tag)
    requires table.Valid(g) && table.HeadersEntered(g) && |refs| == |g.succ| && line < LINES
    ensures !Sure(g, table, refs, b, line, t) ==> Dodges(g, table, refs, b, line, t)
  {
    if p :| SlipsVia(g, table, refs, b, line, t, p) {
      assert DodgesVia(g, table, refs, b, line, t, p);
    }
  }

  lemma HeaderFits(g: Graph, table: LoopTable, refs: States, line: nat, t: Tag, b: nat)
    requires table.Valid(g) && table.HeadersEntered(g) && |refs| == |g.succ| && line < LINES && b in g.blocks && table.IsHeader(b)
    ensures t !in refs[b][line] ==> Dodges(g, table, refs, b, line, t)
    ensures t !in refs[b][line] && !Sure(g, table, refs, table.MainPred(g, b), line, t) && BodyDodges(g, table, refs, b, line, t)
            ==> !Sure(g, table, refs, b, line, t)
  {
    if t !in refs[b][line] {
      assert DodgesVia(g, table, refs, b, line, t, [b]);
      if !Sure(g, table, refs, table.MainPred(g, b), line, t) && BodyDodges(g, table, refs, b, line, t) {
        SlipExtends(g, table, refs, table.MainPred(g, b), b, line, t);
      }
    }
  }

  lemma BlockFits(g: Graph, table: LoopTable, refs: States, line: nat, t: Tag, b: nat)
    requires table.Valid(g) && table.HeadersEntered(g) && |refs| == |g.succ| && line < LINES && b in g.blocks && !table.IsHeader(b)
    requires t !in refs[b][line]
    ensures g.pred[b] == [] ==> !Sure(g, table, refs, b, line, t)
    ensures forall q | q in g.pred[b] ::
              && (!Sure(g, table, refs, q, line, t) ==> !Sure(g, table, refs, b, line, t))
              && (Dodges(g, table, refs, q, line, t) ==> Dodges(g, table, refs, b, line, t))
  {
    if g.pred[b] == [] {
      EntrySlips(g, table, refs, b, line, t);
    }
    if !Dodges(g, table, refs, b, line, t) {
      DodgeExtends(g, table, refs, b, line, t);
    }
    forall q | q in g.pred[b] && !Sure(g, table, refs, q, line, t)
      ensures !Sure(g, table, refs, b, line, t)
    {
      SlipExtends(g, table, refs, q, b, line, t);
    }
  }

  lemma AcceptedFits(g: Graph, table: LoopTable, refs: States, line: nat, t: Tag, b: nat)
    requires table.Valid(g) && table.HeadersEntered(g) && |refs| == |g.succ| && line < LINES && b in g.blocks
    ensures var s := LimitsOf(g, table, refs, line, t);
            && (t in refs[b][line] ==> b in s.accepted)
            && (if table.IsHeader(b) then
                  && (table.MainPred(g, b) in s.accepted ==> b in s.accepted)
                  && ((forall q | q in table.InLoopPreds(g, b) :: q in s.accepted) ==> b in s.accepted)
                else g.pred[b] != [] && (forall q | q in g.pred[b] && q != b :: q in s.accepted) ==> b in s.accepted)
  {
    if !Accepted(g, table, refs, b, line, t) {
      var u :| Evades(g, table, refs, line, t, u) && b in u;
      forall c | c in u
        ensures !Accepted(g, table, refs, c, line, t)
      {
      }
    }
  }

  lemma LimitsFit(g: Graph, table: LoopTable, refs: States, line: nat, t: Tag)
    requires table.Valid(g) && table.HeadersEntered(g) && |refs| == |g.succ| && line < LINES
    ensures Fits(g, table, refs, line, t, LimitsOf(g, table, refs, line, t))
  {
    var s := LimitsOf(g, table, refs, line, t);
    forall b | b in g.blocks
      ensures FitsAt(g, table, refs, line, t, s, b)
    {
      LimitsFitAt(g, table, refs, line, t, s, b);
    }
  }

  lemma LimitsFitAt(g: Graph, table: LoopTable, refs: States, line: nat, t: Tag, s: Limits, b: nat)
    requires table.Valid(g) && table.HeadersEntered(g) && |refs| == |g.succ| && line < LINES && b in g.blocks
    requires s == LimitsOf(g, table, refs, line, t)
    ensures FitsAt(g, table, refs, line, t, s, b)
  {
    AcceptedFits(g, table, refs, line, t, b);
    SlippedIsDodged(g, table, refs, b, line, t);
    if table.IsHeader(b) {
      HeaderFits(g, table, refs, line, t, b);
    } else if t !in refs[b][line] {
      BlockFits(g, table, refs, line, t, b);
    }
  }

  /** What a mark left on block `b` by a search for `t` on `line` says. */
  ghost predicate MarkIsRight(g: Graph, table: LoopTable, refs: States, b: nat, line: nat, t: Tag, s: Limits, mark: SearchState)
    requires table.Valid(g) && |refs| == |g.succ| && line < LINES && b in g.blocks
  {
    match mark
    case NotVisited => true
    case VisitedFound => b in s.accepted
    case VisitedNotFound => b !in s.sure
    case LoopHeaderWaiting => t !in refs[b][line] && table.IsHeader(b)
  }

  /** Marks are never taken back, and no header is left waiting. */
  ghost predicate Goes(g: Graph, before: seq<SearchState>, after: seq<SearchState>)
    requires g.SuccValid() && |before| == |after| == |g.succ|
  {
    forall b | b in g.blocks ::
      && (before[b] != NotVisited ==> after[b] != NotVisited)
      && (after[b] == LoopHeaderWaiting <==> before[b] == LoopHeaderWaiting)
  }

  lemma GoesOn(g: Graph, s1: seq<SearchState>, s2: seq<SearchState>, s3: seq<SearchState>)
    requires g.SuccValid() && |s1| == |s2| == |s3| == |g.succ| && Goes(g, s1, s2) && Goes(g, s2, s3)
    ensures Goes(g, s1, s3)
  {
  }

  class Search {
    const g: Graph
    const table: LoopTable
    const refs: States
    var searchState: seq<SearchState>

    constructor (g: Graph, table: LoopTable, refs: States)
      requires g.Valid() && table.Valid(g) && table.HeadersEntered(g) && |refs| == |g.succ|
      ensures Valid() && this.g == g && this.table == table && this.refs == refs
    {
      this.g, this.table, this.refs := g, table, refs;
      searchState := seq(|g.succ|, _ => NotVisited);
    }

    ghost predicate Valid()
      reads this
    {
      g.Valid() && table.Valid(g) && table.HeadersEntered(g) && |refs| == |searchState| == |g.succ|
    }

    ghost function UnvisitedHeaders(): set<nat>
      requires Valid()
      reads this
    {
      set h | h in g.blocks && table.IsHeader(h) && searchState[h] == NotVisited
    }

    ghost predicate MarksAgree(line: nat, t: Tag, s: Limits)
      requires Valid() && line < LINES
      reads this
    {
      forall b | b in g.blocks :: MarkIsRight(g, table, refs, b, line, t, s, searchState[b])
    }

    /** The tag can be dodged on the way into every header that waits for the search of its body. */
    ghost predicate WaitingSlip(s: Limits)
      requires Valid()
      reads this
    {
      forall b | b in g.blocks && searchState[b] == LoopHeaderWaiting :: b !in s.sure
    }

    /** `clear_search_states` */
    method ClearSearchStates()
      requires Valid()
      modifies this
      ensures Valid()
      ensures forall b | b in g.blocks :: searchState[b] == NotVisited
    {
      for i := 0 to |g.blocks|
        invariant Valid()
        invariant forall k | 0 <= k < i :: searchState[g.blocks[k]] == NotVisited
      {
        searchState := searchState[g.blocks[i] := NotVisited];
      }
    }

    /** `is_always_accessed`.  The answer is positive if the block is sure to be preceded by the tag, and only if it is
        accepted; in particular a negative answer is right on every graph. */
    method IsAlwaysAccessed(bb: nat, t: Tag, line: nat, ghost rank: seq<nat>) returns (always: bool)
      requires Valid() && bb in g.blocks && line < LINES && Searchable(g, table, rank)
      modifies this
      ensures Valid()
      ensures Sure(g, table, refs, bb, line, t) ==> always
      ensures always ==> Accepted(g, table, refs, bb, line, t)
      ensures AlwaysAccessed(g, refs, bb, line, t) ==> always
      ensures LoopFree(g, table) ==> (always <==> AlwaysAccessed(g, refs, bb, line, t))
      ensures Flat(g, table) ==> (always <==> Sure(g, table, refs, bb, line, t))
    {
      ghost var s := LimitsOf(g, table, refs, line, t);
      LimitsFit(g, table, refs, line, t);
      ClearSearchStates();
      always := Visit(bb, t, line, rank, s);
      LimitsMean(g, table, refs, line, t, bb);
    }

    /** `is_always_accessed_impl` */
    method Visit(bb: nat, t: Tag, line: nat, ghost rank: seq<nat>, ghost s: Limits) returns (always: bool)
      requires Valid() && bb in g.blocks && line < LINES
      requires Searchable(g, table, rank) && Fits(g, table, refs, line, t, s) && MarksAgree(line, t, s)
      requires WaitingSlip(s) || bb !in s.dodged
      modifies this
      ensures Valid() && MarksAgree(line, t, s) && Goes(g, old(searchState), searchState) && searchState[bb] != NotVisited
      ensures bb in s.sure ==> always
      ensures always ==> bb in s.accepted
      decreases UnvisitedHeaders(), 0, rank[bb], 1
    {
      assert FitsAt(g, table, refs, line, t, s, bb);
      match searchState[bb] {
        case NotVisited =>
          if t in refs[bb][line] {
            Mark(bb, VisitedFound, line, t, s);
            return true;
          }
          if table.IsHeader(bb) {
            always := VisitHeader(bb, t, line, rank, s);
          } else if g.pred[bb] == [] {
            Mark(bb, VisitedNotFound, line, t, s);
            always := false;
          } else {
            always := VisitPreds(bb, g.pred[bb], true, t, line, rank, s);
            ghost var before := searchState;
            Mark(bb, if always then VisitedFound else VisitedNotFound, line, t, s);
            GoesOn(g, old(searchState), before, searchState);
          }
        case VisitedFound =>
          always := true;
        case VisitedNotFound =>
          always := false;
        case LoopHeaderWaiting =>
          always := false;
      }
    }

    /** The header case: first the way in from outside, then the body with the header marked as waiting. */
    method VisitHeader(bb: nat, t: Tag, line: nat, ghost rank: seq<nat>, ghost s: Limits) returns (always: bool)
      requires Valid() && bb in g.blocks && line < LINES && t !in refs[bb][line]
      requires Searchable(g, table, rank) && Fits(g, table, refs, line, t, s) && MarksAgree(line, t, s) && WaitingSlip(s)
      requires table.IsHeader(bb) && searchState[bb] == NotVisited
      modifies this
      ensures Valid() && MarksAgree(line, t, s) && Goes(g, old(searchState), searchState) && searchState[bb] != NotVisited
      ensures bb in s.sure ==> always
      ensures always ==> bb in s.accepted
      decreases UnvisitedHeaders(), 0, rank[bb], 0
    {
      assert bb in UnvisitedHeaders();
      var mainPred, inLoop := GetInLoopPredecessors(g, table, bb);
      assert mainPred in g.pred[bb] && mainPred != bb;
      assert FitsAt(g, table, refs, line, t, s, bb);
      always := Visit(mainPred, t, line, rank, s);
      ghost var between := searchState;
      if always {
        Mark(bb, VisitedFound, line, t, s);
      } else {
        always := VisitBody(bb, inLoop, t, line, rank, s);
      }
      GoesOn(g, old(searchState), between, searchState);
    }

    /** The search of the body, with the header marked as waiting. */
    method VisitBody(bb: nat, inLoop: seq<nat>, t: Tag, line: nat, ghost rank: seq<nat>, ghost s: Limits) returns (always: bool)
      requires Valid() && bb in g.blocks && line < LINES && t !in refs[bb][line]
      requires Searchable(g, table, rank) && Fits(g, table, refs, line, t, s) && MarksAgree(line, t, s) && WaitingSlip(s)
      requires table.IsHeader(bb) && inLoop == table.InLoopPreds(g, bb) && table.MainPred(g, bb) !in s.sure
      requires searchState[bb] != LoopHeaderWaiting
      modifies this
      ensures Valid() && MarksAgree(line, t, s) && Goes(g, old(searchState), searchState) && searchState[bb] != NotVisited
      ensures bb in s.sure ==> always
      ensures always ==> bb in s.accepted
      decreases UnvisitedHeaders() - {bb}, 1, 0, 1
    {
      assert FitsAt(g, table, refs, line, t, s, bb);
      forall q | q in inLoop
        ensures q !in s.sure ==> q in s.dodged
      {
        assert FitsAt(g, table, refs, line, t, s, q);
      }
      Mark(bb, LoopHeaderWaiting, line, t, s);
      always := VisitPreds(bb, inLoop, false, t, line, rank, s);
      Mark(bb, if always then VisitedFound else VisitedNotFound, line, t, s);
    }

    /** The conjunction over `preds`; the general case skips an edge from the block to itself. */
    method VisitPreds(bb: nat, preds: seq<nat>, skipSelf: bool, t: Tag, line: nat, ghost rank: seq<nat>, ghost s: Limits)
      returns (always: bool)
      requires Valid() && bb in g.blocks && line < LINES && t !in refs[bb][line]
      requires Searchable(g, table, rank) && Fits(g, table, refs, line, t, s) && MarksAgree(line, t, s)
      requires if skipSelf then preds == g.pred[bb] != [] && !table.IsHeader(bb) && searchState[bb] == NotVisited
               else table.IsHeader(bb) && searchState[bb] == LoopHeaderWaiting && preds == table.InLoopPreds(g, bb)
      requires WaitingSlip(s) || forall q | q in preds :: q !in s.dodged
      modifies this
      ensures Valid() && MarksAgree(line, t, s) && Goes(g, old(searchState), searchState)
      ensures always ==> forall q | q in preds && !(skipSelf && q == bb) :: q in s.accepted
      ensures !always ==> exists q | q in preds :: q !in s.sure
      decreases UnvisitedHeaders(), if skipSelf then 0 else 1, if skipSelf then rank[bb] else 0, 0
    {
      always := true;
      for i := 0 to |preds|
        invariant Valid() && MarksAgree(line, t, s) && Goes(g, old(searchState), searchState)
        invariant always ==> forall k | 0 <= k < i && !(skipSelf && preds[k] == bb) :: preds[k] in s.accepted
        invariant !always ==> exists q | q in preds :: q !in s.sure
      {
        var p := preds[i];
        assert p in preds && p in g.pred[bb];
        if !skipSelf || p != bb {
          assert UnvisitedHeaders() <= old(UnvisitedHeaders());
          ghost var before := searchState;
          var found := Visit(p, t, line, rank, s);
          GoesOn(g, old(searchState), before, searchState);
          always := always && found;
        }
      }
    }

    method Mark(bb: nat, state: SearchState, ghost line: nat, ghost t: Tag, ghost s: Limits)
      requires Valid() && bb in g.blocks && line < LINES && MarksAgree(line, t, s) && state != NotVisited
      requires MarkIsRight(g, table, refs, bb, line, t, s, state)
      modifies this
      ensures Valid() && MarksAgree(line, t, s) && searchState == old(searchState)[bb := state]
    {
      searchState := searchState[bb := state];
    }
  }

  /** What the limits say about the answer at block `b`. */
  lemma LimitsMean(g: Graph, table: LoopTable, refs: States, line: nat, t: Tag, b: nat)
    requires table.Valid(g) && table.HeadersEntered(g) && |refs| == |g.succ| && line < LINES && b in g.blocks
    ensures var s := LimitsOf(g, table, refs, line, t);
            && (b in s.sure <==> Sure(g, table, refs, b, line, t)) && (b in s.accepted <==> Accepted(g, table, refs, b, line, t))
    ensures AlwaysAccessed(g, refs, b, line, t) ==> Sure(g, table, refs, b, line, t)
    ensures LoopFree(g, table) && Accepted(g, table, refs, b, line, t) ==> AlwaysAccessed(g, refs, b, line, t)
    ensures Flat(g, table) && Accepted(g, table, refs, b, line, t) ==> Sure(g, table, refs, b, line, t)
  {
    AlwaysIsSure(g, table, refs, b, line, t);
    if LoopFree(g, table) {
      LoopFreeAccepted(g, table, refs, b, line, t);
    }
    if Flat(g, table) {
      FlatAnswer(g, table, refs, b, line, t);
    }
  }
}
