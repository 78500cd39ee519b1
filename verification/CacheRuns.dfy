/** Concrete runs against the abstract states: what the cache really holds along a path. */
module CacheRuns {
  import opened Graphs
  import opened Options
  import opened CacheState
  import opened MayStates
  import opened MustSearch

  /** `refs` is what `create_state` builds from the bundles of every block. */
  ghost predicate RefsOf(g: Graph, code: seq<seq<Bundle>>, refs: States) {
    && g.Valid() && |code| == |refs| == |g.succ|
    && forall b: nat, line: nat | b < |code| && line < LINES :: refs[b][line] == References(code[b], line)
  }

  /** No two bundles of a block compete for a line. */
  ghost predicate OneTagPerLine(bundles: seq<Bundle>) {
    forall i, j | 0 <= i < j < |bundles| && bundles[i].Line() == bundles[j].Line() ::
      bundles[i].Tag() == bundles[j].Tag()
  }

  /** Every block is well placed in memory and uses one tag per line. */
  ghost predicate WellFormedCode(code: seq<seq<Bundle>>) {
    forall b | 0 <= b < |code| :: WellPlaced(code[b]) && OneTagPerLine(code[b])
  }

  ghost predicate InRange(code: seq<seq<Bundle>>, p: seq<nat>) {
    forall i | 0 <= i < |p| :: p[i] < |code|
  }

  /** The cache after the blocks of `p` have run from `c`. */
  ghost function RunPath(code: seq<seq<Bundle>>, c: Cache, p: seq<nat>): Cache
    requires InRange(code, p)
  {
    if p == [] then c else RunBundles(RunPath(code, c, p[..|p| - 1]), code[Last(p)])
  }

  /** A cold run leaves in each line either nothing, if no block used it, or a tag that may reach the end. */
  lemma {:induction false} ColdRunIsJustified(g: Graph, code: seq<seq<Bundle>>, refs: States, p: seq<nat>, line: nat)
    requires RefsOf(g, code, refs) && g.IsPath(p) && line < LINES
    ensures match RunPath(code, Cold(), p)[line]
            case None => forall i | 0 <= i < |p| :: refs[p[i]][line] == {}
            case Some(t) => May(g, refs, Last(p), line, t)
    decreases |p|
  {
    var b, q := Last(p), p[..|p| - 1];
    LineAfterBundles(RunPath(code, Cold(), q), code[b], line);
    if refs[b][line] != {} {
      MayOwn(g, refs, b, line, RunPath(code, Cold(), p)[line].value);
    } else if q != [] {
      PathPrefix(g, p, |p| - 1);
      ColdRunIsJustified(g, code, refs, q, line);
      if RunPath(code, Cold(), q)[line].Some? {
        assert g.Edge(p[|p| - 2], p[|p| - 1]);
        MayFlows(g, refs, Last(q), b, line, RunPath(code, Cold(), q)[line].value);
      }
    }
  }

  /** `t` is in block `b`'s must state when the reaching state of the line is exactly `t` and the line is
      either the block's own or accessed on every way in. */
  ghost predicate Must(g: Graph, refs: States, rmb: States, b: nat, line: nat, t: Tag)
    requires g.Valid() && |refs| == |rmb| == |g.succ| && b in g.blocks && line < LINES
  {
    && rmb[b][line] == {t}
    && (|refs[b][line]| == 1 || (refs[b][line] == {} && AlwaysAccessed(g, refs, b, line, t)))
  }

  /** A tag in the must state really is in the cache after every run from an entry block. */
  lemma MustIsCached(g: Graph, code: seq<seq<Bundle>>, refs: States, rmb: States, p: seq<nat>, line: nat, t: Tag)
    requires RefsOf(g, code, refs) && Exact(g, refs, rmb) && line < LINES
    requires g.IsPath(p) && g.pred[p[0]] == []
    requires Must(g, refs, rmb, Last(p), line, t)
    ensures RunPath(code, Cold(), p)[line] == Some(t)
  {
    var b := Last(p);
    ColdRunIsJustified(g, code, refs, p, line);
    if RunPath(code, Cold(), p)[line] == None {
      assert AvoidsVia(g, refs, b, line, t, p);
      assert false;
    }
  }

  // ---------------------------------------------------------------- inside one block

  lemma {:induction false} LineKept(c: Cache, bundles: seq<Bundle>, line: nat, t: Tag)
    requires line < LINES && c[line] == Some(t)
    requires forall i | 0 <= i < |bundles| && bundles[i].Line() == line :: bundles[i].Tag() == t
    ensures RunBundles(c, bundles)[line] == Some(t)
  {
    LineAfterBundles(c, bundles, line);
  }

  /** A bundle whose line already holds its tag when the block is entered hits. */
  lemma CachedOnEntryHits(c: Cache, bundles: seq<Bundle>, j: nat)
    requires OneTagPerLine(bundles) && j < |bundles|
    requires c[bundles[j].Line()] == Some(bundles[j].Tag())
    ensures Hits(RunBundles(c, bundles[..j]), bundles[j])
  {
    LineKept(c, bundles[..j], bundles[j].Line(), bundles[j].Tag());
  }

  /** A bundle that is neither first in its block nor first in its line hits. */
  lemma InsideLineHits(c: Cache, bundles: seq<Bundle>, j: nat)
    requires WellPlaced(bundles) && 0 < j < |bundles| && bundles[j].BlkOffset() != 0
    ensures Hits(RunBundles(c, bundles[..j]), bundles[j])
  {
    SameLineAsPrevious(bundles, j);
    assert bundles[..j] == bundles[..j - 1] + [bundles[j - 1]];
  }

  lemma {:induction false} AddressesGrow(bundles: seq<Bundle>, i: nat, j: nat)
    requires WellPlaced(bundles) && i < j < |bundles|
    ensures bundles[i].address + bundles[i].size <= bundles[j].address
  {
    assert bundles[j - 1].InsideLine() && bundles[j - 1 + 1].address == bundles[j - 1].address + bundles[j - 1].size;
    if i < j - 1 {
      AddressesGrow(bundles, i, j - 1);
    }
  }

  /** The first bundle of a line has no earlier bundle of its block on that line. */
  lemma FirstOnItsLine(bundles: seq<Bundle>, j: nat)
    requires WellPlaced(bundles) && OneTagPerLine(bundles) && j < |bundles| && (bundles[j].BlkOffset() == 0 || j == 0)
    ensures References(bundles[..j], bundles[j].Line()) == {}
  {
    var u := bundles[j];
    forall i | 0 <= i < j
      ensures bundles[i].Line() != u.Line()
    {
      AddressesGrow(bundles, i, j);
      assert bundles[i].InsideLine();
      assert bundles[i].address / 8 < u.address / 8;
      TagOfLineNumber(u.address);
      TagOfLineNumber(bundles[i].address);
    }
  }

  /** The cache just before bundle `j` of block `p[i]` on a cold run along `p`. */
  ghost function Before(code: seq<seq<Bundle>>, p: seq<nat>, i: nat, j: nat): Cache
    requires InRange(code, p)
    requires i < |p| && j < |code[p[i]]|
  {
    RunBundles(RunPath(code, Cold(), p[..i]), code[p[i]][..j])
  }

  /** Bundle `j` of block `p[i]` misses. */
  ghost predicate MissAt(code: seq<seq<Bundle>>, p: seq<nat>, i: nat, j: nat)
    requires InRange(code, p)
    requires i < |p| && j < |code[p[i]]|
  {
    !Hits(Before(code, p, i, j), code[p[i]][j])
  }

  // ---------------------------------------------------------------- persistence

  /** Once block `p[i]` has used a line with one tag, the line holds that tag when the block is left. */
  lemma TagAfterBlock(code: seq<seq<Bundle>>, p: seq<nat>, i: nat, j: nat)
    requires InRange(code, p) && i < |p| && j < |code[p[i]]| && OneTagPerLine(code[p[i]])
    ensures var u := code[p[i]][j]; RunPath(code, Cold(), p[..i + 1])[u.Line()] == Some(u.Tag())
  {
    var u := code[p[i]][j];
    assert p[..i + 1][..i] == p[..i];
    LineAfterBundles(RunPath(code, Cold(), p[..i]), code[p[i]], u.Line());
    assert u.Tag() in References(code[p[i]], u.Line());
  }

  lemma {:induction false} UsedLineStaysUsed(code: seq<seq<Bundle>>, p: seq<nat>, i: nat, k: nat, line: nat)
    requires InRange(code, p) && i <= k <= |p| && line < LINES
    requires RunPath(code, Cold(), p[..i])[line].Some?
    ensures RunPath(code, Cold(), p[..k])[line].Some?
    decreases k - i
  {
    if i < k {
      UsedLineStaysUsed(code, p, i, k - 1, line);
      assert p[..k][..k - 1] == p[..k - 1];
      LineAfterBundles(RunPath(code, Cold(), p[..k - 1]), code[p[k - 1]], line);
    }
  }

  /** When the reaching input of a block's line is exactly `{t}`, the block finds its tag `t` missing at most
      once in a whole run, on any graph. */
  lemma PersistentInRun(g: Graph, code: seq<seq<Bundle>>, refs: States, rmb: States, p: seq<nat>, i: nat, k: nat, j: nat)
    requires RefsOf(g, code, refs) && Exact(g, refs, rmb)
    requires g.IsPath(p) && i < k < |p| && p[i] == p[k] && j < |code[p[k]]| && OneTagPerLine(code[p[k]])
    requires var u := code[p[k]][j]; Inflow(rmb, g.pred[p[k]], u.Line()) == {u.Tag()}
    ensures !MissAt(code, p, k, j)
  {
    var u := code[p[k]][j];
    TagAfterBlock(code, p, i, j);
    UsedLineStaysUsed(code, p, i + 1, k, u.Line());
    PathPrefix(g, p, k);
    ColdRunIsJustified(g, code, refs, p[..k], u.Line());
    assert g.Edge(p[k - 1], p[k]);
    var t := RunPath(code, Cold(), p[..k])[u.Line()].value;
    assert t in Inflow(rmb, g.pred[p[k]], u.Line());
    CachedOnEntryHits(RunPath(code, Cold(), p[..k]), code[p[k]], j);
  }

  /** Blocks `p[i..k]` only use `line` with tag `t`. */
  ghost predicate NoConflictBetween(refs: States, p: seq<nat>, i: nat, k: nat, line: nat, t: Tag)
    requires i <= k <= |p| && line < LINES && forall x | 0 <= x < |p| :: p[x] < |refs|
  {
    forall x | i <= x < k :: refs[p[x]][line] <= {t}
  }

  lemma {:induction false} TagSurvives(g: Graph, code: seq<seq<Bundle>>, refs: States, p: seq<nat>, i: nat, k: nat, line: nat, t: Tag)
    requires RefsOf(g, code, refs) && InRange(code, p) && i <= k <= |p| && line < LINES
    requires NoConflictBetween(refs, p, i, k, line, t)
    requires RunPath(code, Cold(), p[..i])[line] == Some(t)
    ensures RunPath(code, Cold(), p[..k])[line] == Some(t)
    decreases k - i
  {
    if i < k {
      TagSurvives(g, code, refs, p, i, k - 1, line, t);
      assert p[..k][..k - 1] == p[..k - 1];
      LineAfterBundles(RunPath(code, Cold(), p[..k - 1]), code[p[k - 1]], line);
      assert refs[p[k - 1]][line] <= {t};
    }
  }

  /** If no block between two accesses to the same tag uses the line otherwise, the second one hits. */
  lemma PersistentBetween(g: Graph, code: seq<seq<Bundle>>, refs: States, p: seq<nat>, i: nat, j: nat, k: nat, m: nat)
    requires RefsOf(g, code, refs) && InRange(code, p) && i < k < |p|
    requires j < |code[p[i]]| && m < |code[p[k]]| && OneTagPerLine(code[p[i]]) && OneTagPerLine(code[p[k]])
    requires code[p[i]][j].Line() == code[p[k]][m].Line() && code[p[i]][j].Tag() == code[p[k]][m].Tag()
    requires NoConflictBetween(refs, p, i, k, code[p[k]][m].Line(), code[p[k]][m].Tag())
    ensures !MissAt(code, p, k, m)
  {
    var u := code[p[k]][m];
    TagAfterBlock(code, p, i, j);
    TagSurvives(g, code, refs, p, i + 1, k, u.Line(), u.Tag());
    CachedOnEntryHits(RunPath(code, Cold(), p[..k]), code[p[k]], m);
  }
}
