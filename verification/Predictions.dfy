/** Which prediction a bundle gets, read off the predecessors of its block, the tags that reach it and its loop; and that an
    always-miss for a tag that cannot arrive is one on every run. */
module Predictions {
  import opened Graphs
  import opened Loops
  import opened Options
  import opened CacheState
  import opened MayStates
  import opened MustSearch
  import opened CacheRuns
  import opened Classification
  import opened FirstMisses
  import opened AlwaysHits

  /** A bundle that neither starts its block nor its line is a hit. */
  lemma LaterIsHit(f: Facts, code: seq<seq<Bundle>>, b: nat, j: nat, answers: Answers)
    requires f.Correct(code) && WellFormedCode(code) && b in f.g.blocks && j < |code[b]|
    requires j > 0 && code[b][j].BlkOffset() != 0
    ensures f.Decide(code[b], b, j, answers) == Decision(AHit, false)
  {
    OneReference(code[b], j);
  }

  /** In a block of more than 256 bundles that uses several tags on a line, bundles that start the line or the block are
      always-misses and the others hits, whatever the states say. */
  lemma LongBlock(f: Facts, bundles: seq<Bundle>, b: nat, j: nat, answers: Answers)
    requires f.Valid() && b in f.g.blocks && j < |bundles| && |f.refs[b][bundles[j].Line()]| > 1
    ensures |bundles| > 256 ==> (f.Decide(bundles, b, j, answers) == Decision(AMiss, true) <==> bundles[j].BlkOffset() == 0 || j == 0)
    ensures |bundles| > 256 ==> (f.Decide(bundles, b, j, answers) == Decision(AHit, false) <==> bundles[j].BlkOffset() != 0 && j > 0)
  {
  }

  /** What reaches a block comes from its predecessors. */
  lemma InputIs(f: Facts, code: seq<seq<Bundle>>, b: nat, line: nat, t: Tag)
    requires f.Correct(code) && b in f.g.blocks && line < LINES
    ensures t in f.inputRmb[b][line] <==> exists a :: a in f.g.pred[b] && t in f.rmb[a][line]
    ensures |f.g.pred[b]| == 1 ==> f.inputRmb[b][line] == f.rmb[f.g.pred[b][0]][line]
    ensures t in f.inputRmb[b][line] ==> (f.inputRmb[b][line] == {t} <==> |f.inputRmb[b][line]| == 1)
  {
    assert f.inputRmb[b][line] == Inflow(f.rmb, f.g.pred[b], line);
    if |f.g.pred[b]| == 1 {
      assert f.g.pred[b] == [f.g.pred[b][0]];
    }
    if t in f.inputRmb[b][line] && |f.inputRmb[b][line]| == 1 {
      SingletonIsAll(f.inputRmb[b][line], t);
    }
  }

  /** Outside all loops the first bundle of a line is a hit if its block has one predecessor and the edge from it would not
      be charged, a conflict if there are several predecessors and the tag can come from one of them, and otherwise an
      always-miss: if the tag can come from none, or the only edge would be charged. */
  lemma OutsideLoops(f: Facts, code: seq<seq<Bundle>>, b: nat, j: nat, answers: Answers)
    requires f.Correct(code) && WellFormedCode(code) && b in f.g.blocks && j < |code[b]|
    requires (code[b][j].BlkOffset() == 0 || j == 0) && f.table.loopId[b] == UNDEF
    ensures var u, preds, d := code[b][j], f.g.pred[b], f.Decide(code[b], b, j, answers);
            && (d == Decision(AHit, false) <==> |preds| == 1 && !f.Charged(preds[0], u))
            && (d == Decision(Conflict, true) <==> |preds| > 1 && exists a :: a in preds && u.Tag() in f.rmb[a][u.Line()])
            && (d == Decision(AMiss, true) <==>
                (forall a | a in preds :: u.Tag() !in f.rmb[a][u.Line()]) || (|preds| == 1 && f.Charged(preds[0], u)))
            && d in {Decision(AHit, false), Decision(Conflict, true), Decision(AMiss, true)}
  {
    var u := code[b][j];
    OneReference(code[b], j);
    InputIs(f, code, b, u.Line(), u.Tag());
    if |f.g.pred[b]| == 1 {
      OnlyPred(f, b, u);
    }
    OutsideProcedure(f, code[b], b, j, answers);
  }

  lemma OnlyPred(f: Facts, b: nat, u: Bundle)
    requires f.Valid() && b in f.g.blocks && |f.g.pred[b]| == 1
    requires f.inputRmb[b][u.Line()] == f.rmb[f.g.pred[b][0]][u.Line()]
    ensures f.g.pred[b] == [f.g.pred[b][0]]
    ensures u.Tag() in f.inputRmb[b][u.Line()] && |f.inputRmb[b][u.Line()]| == 1 && f.MustInPreds(b, u.Tag(), u.Line()) <==>
            !f.Charged(f.g.pred[b][0], u)
  {
    assert f.g.pred[b][0] in f.g.blocks;
  }

  /** The procedure, outside all loops. */
  lemma OutsideProcedure(f: Facts, bundles: seq<Bundle>, b: nat, j: nat, answers: Answers)
    requires f.Valid() && b in f.g.blocks && j < |bundles| && f.table.loopId[b] == UNDEF
    requires (bundles[j].BlkOffset() == 0 || j == 0) && |f.refs[b][bundles[j].Line()]| <= 1
    requires bundles[j].Tag() in f.inputRmb[b][bundles[j].Line()] ==> f.g.pred[b] != []
    ensures var u := bundles[j];
            f.Decide(bundles, b, j, answers) ==
              if u.Tag() in f.inputRmb[b][u.Line()] && |f.g.pred[b]| > 1 then Decision(Conflict, true)
              else if u.Tag() in f.inputRmb[b][u.Line()] && |f.inputRmb[b][u.Line()]| == 1 && f.MustInPreds(b, u.Tag(), u.Line())
              then Decision(AHit, false) else Decision(AMiss, true)
  {
    var n := |f.inputRmb[b][bundles[j].Line()]|;
    assert bundles[j].Tag() in f.inputRmb[b][bundles[j].Line()] ==> n >= 1;
  }

  /** Some block of the loop uses the line with other tags only. */
  ghost predicate Contested(f: Facts, loop: Loop, line: nat, t: Tag)
    requires f.Valid() && line < LINES
  {
    exists x: nat :: x in loop.nodes && x < |f.refs| && f.refs[x][line] != {} && t !in f.refs[x][line]
  }

  /** The only predecessor lies in another loop than the block. */
  ghost predicate FromOtherLoop(f: Facts, b: nat)
    requires f.Valid() && b in f.g.blocks
  {
    |f.g.pred[b]| == 1 && f.table.loopId[f.g.pred[b][0]] != f.table.loopId[b]
  }

  /** In a loop, beside its header, the first bundle of a line whose tag alone can arrive is a hit if all searches say so and
      else a first miss; it is never charged in every iteration. */
  lemma AloneInLoop(f: Facts, code: seq<seq<Bundle>>, b: nat, j: nat, answers: Answers)
    requires f.Correct(code) && WellFormedCode(code) && b in f.g.blocks && j < |code[b]|
    requires code[b][j].BlkOffset() == 0 || j == 0
    requires f.table.loopId[b] != UNDEF && !f.table.IsHeader(b) && f.inputRmb[b][code[b][j].Line()] == {code[b][j].Tag()}
    ensures var u := code[b][j];
            f.Decide(code[b], b, j, answers) ==
              if answers.falseHits && forall a | a in f.g.pred[b] :: u.Tag() in f.must[a][u.Line()] then Decision(AHit, false)
              else Decision(FMiss, true)
  {
    var u := code[b][j];
    OneReference(code[b], j);
    InputIs(f, code, b, u.Line(), u.Tag());
    assert f.MustInPreds(b, u.Tag(), u.Line()) <==> forall a | a in f.g.pred[b] :: u.Tag() in f.must[a][u.Line()];
  }

  /** If the tag cannot arrive it is an always-miss, inside loops and outside. */
  lemma NeverArrives(f: Facts, code: seq<seq<Bundle>>, b: nat, j: nat, answers: Answers)
    requires f.Correct(code) && WellFormedCode(code) && b in f.g.blocks && j < |code[b]|
    requires (code[b][j].BlkOffset() == 0 || j == 0) && code[b][j].Tag() !in f.inputRmb[b][code[b][j].Line()]
    ensures f.Decide(code[b], b, j, answers) == Decision(AMiss, true)
  {
    OneReference(code[b], j);
  }

  /** If others can arrive too, several predecessors make a conflict when one of them never brings the tag.  Behind a loop
      inside it is a first miss, and behind any other loop an always-miss; an only predecessor outside all loops stops the
      analysis.  Everywhere else it depends on whether the line is contested in the loop. */
  lemma OthersInLoop(f: Facts, code: seq<seq<Bundle>>, b: nat, j: nat, answers: Answers)
    requires f.Correct(code) && WellFormedCode(code) && b in f.g.blocks && j < |code[b]|
    requires code[b][j].BlkOffset() == 0 || j == 0
    requires f.table.loopId[b] != UNDEF && !f.table.IsHeader(b)
    requires code[b][j].Tag() in f.inputRmb[b][code[b][j].Line()] && f.inputRmb[b][code[b][j].Line()] != {code[b][j].Tag()}
    ensures var u, preds, d := code[b][j], f.g.pred[b], f.Decide(code[b], b, j, answers);
            var contested := Contested(f, f.table.Get(f.table.loopId[b]), u.Line(), u.Tag());
            var missing := |preds| > 1 && exists a :: a in preds && u.Tag() !in f.rmb[a][u.Line()];
            && (d == Decision(Conflict, true) <==> missing)
            && (d == Aborted <==> FromOtherLoop(f, b) && f.table.loopId[preds[0]] == UNDEF)
            && (d == Decision(FMiss, true) <==> FollowsOwnInner(f, b) || (!missing && !FromOtherLoop(f, b) && !contested))
            && (d == Decision(AMiss, true) <==> FollowsForeign(f, b) || (!missing && !FromOtherLoop(f, b) && contested))
  {
    var u := code[b][j];
    OneReference(code[b], j);
    InputIs(f, code, b, u.Line(), u.Tag());
    if |f.g.pred[b]| == 1 && f.MustInPreds(b, u.Tag(), u.Line()) {
      MustOfOnlyPred(f, code, b, u.Tag(), u.Line());
    }
    TestsMean(f, b, u.Line(), u.Tag(), f.table.Get(f.table.loopId[b]));
    SeveralTags(f, code[b], b, j, answers);
  }

  ghost predicate FollowsOwnInner(f: Facts, b: nat)
    requires f.Valid() && b in f.g.blocks
  {
    FromOtherLoop(f, b) && f.table.loopId[f.g.pred[b][0]] != UNDEF &&
    f.table.Get(f.table.loopId[f.g.pred[b][0]]).parent == f.table.loopId[b]
  }

  ghost predicate FollowsForeign(f: Facts, b: nat)
    requires f.Valid() && b in f.g.blocks
  {
    FromOtherLoop(f, b) && f.table.loopId[f.g.pred[b][0]] != UNDEF &&
    f.table.Get(f.table.loopId[f.g.pred[b][0]]).parent != f.table.loopId[b]
  }

  lemma TestsMean(f: Facts, b: nat, line: nat, t: Tag, loop: Loop)
    requires f.Valid() && b in f.g.blocks && line < LINES
    ensures f.ReachesFromPreds(b, t, line) <==> forall a | a in f.g.pred[b] :: t in f.rmb[a][line]
    ensures f.CacheConflicts(loop, t, line) <==> Contested(f, loop, line, t)
  {
  }

  /** The procedure, for several tags. */
  lemma SeveralTags(f: Facts, bundles: seq<Bundle>, b: nat, j: nat, answers: Answers)
    requires f.Valid() && b in f.g.blocks && j < |bundles| && f.g.pred[b] != []
    requires (bundles[j].BlkOffset() == 0 || j == 0) && |f.refs[b][bundles[j].Line()]| <= 1
    requires f.table.loopId[b] != UNDEF && !f.table.IsHeader(b)
    requires bundles[j].Tag() in f.inputRmb[b][bundles[j].Line()] && |f.inputRmb[b][bundles[j].Line()]| != 1
    requires |f.g.pred[b]| == 1 ==> !f.MustInPreds(b, bundles[j].Tag(), bundles[j].Line())
    ensures var u, preds, d := bundles[j], f.g.pred[b], f.Decide(bundles, b, j, answers);
            d == if |preds| > 1 && !f.ReachesFromPreds(b, u.Tag(), u.Line()) then Decision(Conflict, true)
                 else if FromOtherLoop(f, b) then
                   if f.table.loopId[preds[0]] == UNDEF then Aborted
                   else if FollowsOwnInner(f, b) then Decision(FMiss, true) else Decision(AMiss, true)
                 else if f.CacheConflicts(f.table.Get(f.table.loopId[b]), u.Tag(), u.Line()) then Decision(AMiss, true)
                 else Decision(FMiss, true)
  {
    assert |f.inputRmb[b][bundles[j].Line()]| > 1;
  }

  // ---------------------------------------------------------------- always-misses are right

  /** Bundle `j` of block `b` misses whenever a run from an entry block comes to it. */
  ghost predicate MissesOnEveryRun(g: Graph, code: seq<seq<Bundle>>, b: nat, j: nat)
    requires g.Valid() && |code| == |g.succ| && b < |code| && j < |code[b]|
  {
    forall p, i: nat | g.IsPath(p) && g.pred[p[0]] == [] && i < |p| && p[i] == b :: MissAt(code, p, i, j)
  }

  lemma HitMeansArrival(f: Facts, code: seq<seq<Bundle>>, p: seq<nat>, i: nat, j: nat)
    requires f.Correct(code) && WellFormedCode(code) && f.g.IsPath(p) && i < |p| && j < |code[p[i]]|
    requires code[p[i]][j].BlkOffset() == 0 || j == 0
    ensures !MissAt(code, p, i, j) ==> code[p[i]][j].Tag() in f.inputRmb[p[i]][code[p[i]][j].Line()]
  {
    var u := code[p[i]][j];
    DecidedOnEntry(code, p, i, j);
    if !MissAt(code, p, i, j) {
      assert i > 0;
      PathPrefix(f.g, p, i);
      ColdRunIsJustified(f.g, code, f.refs, p[..i], u.Line());
      assert f.g.Edge(p[i - 1], p[i - 1 + 1]);
      assert u.Tag() in f.rmb[p[i - 1]][u.Line()];
      assert u.Tag() in Inflow(f.rmb, f.g.pred[p[i]], u.Line());
    }
  }

  lemma ArrivalMeansHit(f: Facts, code: seq<seq<Bundle>>, b: nat, j: nat, a: nat)
    requires f.Correct(code) && WellFormedCode(code) && b in f.g.blocks && j < |code[b]|
    requires forall c | c in f.g.blocks :: Reachable(f.g, c)
    requires a in f.g.pred[b] && code[b][j].Tag() in f.rmb[a][code[b][j].Line()]
    ensures !MissesOnEveryRun(f.g, code, b, j)
  {
    var u := code[b][j];
    var r, w := RunCarrying(f, code, a, b, j, u.Tag());
    CarriedHits(f, code, b, j, r, w);
  }

  lemma CarriedHits(f: Facts, code: seq<seq<Bundle>>, b: nat, j: nat, r: seq<nat>, w: seq<nat>)
    requires f.Correct(code) && WellFormedCode(code) && b in f.g.blocks && j < |code[b]|
    requires r != [] && f.g.IsPath(w) && r[|r| - 1] == w[0] && f.g.IsPath(r + w[1..] + [b])
    requires code[b][j].Tag() in f.refs[w[0]][code[b][j].Line()]
    requires forall x | 0 < x < |w| :: f.refs[w[x]][code[b][j].Line()] == {}
    ensures !MissAt(code, r + w[1..] + [b], |r + w[1..]|, j)
  {
    var u := code[b][j];
    var p, at, k := r + w[1..] + [b], |r| - 1, |r + w[1..]|;
    assert p[at] == w[0];
    forall x | at < x < k
      ensures f.refs[p[x]][u.Line()] == {}
    {
      assert p[x] == w[x - at];
    }
    ForeignTagSurvives(f, code, p, at, k, u.Line(), u.Tag());
    CachedOnEntryHits(RunPath(code, Cold(), p[..k]), code[b], j);
  }

  /** On graphs whose blocks can all be reached, the first bundle of a line misses on every run exactly if its tag cannot
      arrive at its block; those are the always-misses that are predicted for that reason. */
  lemma AlwaysMissExact(f: Facts, code: seq<seq<Bundle>>, b: nat, j: nat)
    requires f.Correct(code) && WellFormedCode(code) && b in f.g.blocks && j < |code[b]|
    requires (code[b][j].BlkOffset() == 0 || j == 0) && forall c | c in f.g.blocks :: Reachable(f.g, c)
    ensures MissesOnEveryRun(f.g, code, b, j) <==> code[b][j].Tag() !in f.inputRmb[b][code[b][j].Line()]
  {
    var u := code[b][j];
    if u.Tag() in f.inputRmb[b][u.Line()] {
      var a := InputComesFrom(f, code, b, u.Line(), u.Tag());
      ArrivalMeansHit(f, code, b, j, a);
    } else {
      forall p, i: nat | f.g.IsPath(p) && f.g.pred[p[0]] == [] && i < |p| && p[i] == b
        ensures MissAt(code, p, i, j)
      {
        HitMeansArrival(f, code, p, i, j);
      }
    }
  }
}
