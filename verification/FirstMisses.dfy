/** First misses inside loops: when a bundle misses at most once while a run stays in the loop.

    Two kinds of first misses can miss in every iteration.  The classification means to separate first misses from
    conflicts at a header by asking whether the tag is in the header's own must state.  That question always has the
    answer yes, so a header is never a conflict.  And behind an inner loop, where several tags can arrive, the block is
    always a first miss.  Both are right exactly when no block inside the loop can bring another tag to the block. */
module FirstMisses {
  import opened Graphs
  import opened Loops
  import opened Options
  import opened CacheState
  import opened MayStates
  import opened MustSearch
  import opened CacheRuns
  import opened Classification

  /** The test for a conflict at a header is never taken for one of the header's own bundles. */
  lemma HeaderIsNeverConflict(f: Facts, code: seq<seq<Bundle>>, b: nat, j: nat, answers: Answers)
    requires f.Correct(code) && WellFormedCode(code) && b in f.g.blocks && j < |code[b]| && f.table.IsHeader(b)
    ensures var u := code[b][j];
            f.Decide(code[b], b, j, answers) ==
              if u.BlkOffset() != 0 && j != 0 then Decision(AHit, false)
              else if u.Tag() !in f.inputRmb[b][u.Line()] then Decision(AMiss, true)
              else if f.table.Get(f.table.loopId[b]).parent != UNDEF && answers.insideLoop then Decision(AHit, false)
              else Decision(FMiss, true)
  {
    var u := code[b][j];
    OneReference(code[b], j);
    OwnTagIsReaching(f, code, b, j);
    forall t | t in f.must[b][u.Line()]
      ensures t == u.Tag()
    {
      assert f.rmb[b][u.Line()] == {t};
      assert t in {u.Tag()};
    }
    assert f.must[b][u.Line()] == {u.Tag()};
  }

  lemma OwnTagIsReaching(f: Facts, code: seq<seq<Bundle>>, b: nat, j: nat)
    requires f.Correct(code) && WellFormedCode(code) && b in f.g.blocks && j < |code[b]|
    ensures var u := code[b][j]; f.rmb[b][u.Line()] == {u.Tag()} && u.Tag() in f.must[b][u.Line()]
  {
    var u := code[b][j];
    var line := u.Line();
    OneReference(code[b], j);
    MayOwn(f.g, f.refs, b, line, u.Tag());
    forall t | t in f.rmb[b][line]
      ensures t == u.Tag()
    {
      var p :| MayVia(f.g, f.refs, b, line, t, p);
      assert |p| == 1;
    }
    assert f.rmb[b][line] == {u.Tag()};
  }

  ghost predicate Inside(p: seq<nat>, i: nat, k: nat, nodes: seq<nat>) {
    k < |p| && forall x | i <= x <= k :: p[x] in nodes
  }

  /** A loop that is entered only at its root and in which every block reaches every other without leaving. */
  ghost predicate NaturalLoop(g: Graph, loop: Loop) {
    && loop.root in loop.nodes
    && (forall a: nat, b: nat | g.Edge(a, b) && b in loop.nodes && a !in loop.nodes :: b == loop.root)
    && Connected(g, loop.nodes)
  }

  ghost predicate Connected(g: Graph, nodes: seq<nat>) {
    forall a, b | a in nodes && b in nodes :: ReachesInside(g, nodes, a, b)
  }

  ghost predicate ReachesInside(g: Graph, nodes: seq<nat>, a: nat, b: nat) {
    exists p :: g.IsPathBetween(p, a, b) && Inside(p, 0, |p| - 1, nodes)
  }

  /** Bundle `j` of block `b` never misses twice while a run stays inside the loop. */
  ghost predicate MissesOncePerStay(g: Graph, code: seq<seq<Bundle>>, b: nat, j: nat, nodes: seq<nat>)
    requires |code| == |g.succ| && g.Valid() && b < |code| && j < |code[b]|
  {
    forall p, i: nat, k: nat | g.IsPath(p) && g.pred[p[0]] == [] && i < k && Inside(p, i, k, nodes) && p[i] == b && p[k] == b ::
      MissAt(code, p, i, j) ==> !MissAt(code, p, k, j)
  }

  /** `w` stays inside the loop and brings tag `u` to the end of a predecessor of block `b`. */
  ghost predicate Carries(g: Graph, refs: States, b: nat, nodes: seq<nat>, line: nat, u: Tag, w: seq<nat>)
    requires g.Valid() && |refs| == |g.succ| && line < LINES
  {
    && g.IsPath(w) && Inside(w, 0, |w| - 1, nodes) && g.Edge(Last(w), b)
    && u in refs[w[0]][line] && forall x | 0 < x < |w| :: refs[w[x]][line] == {}
  }

  /** Some block inside the loop can bring another tag than `t` to block `b`. */
  ghost predicate ForeignInside(g: Graph, refs: States, b: nat, nodes: seq<nat>, line: nat, t: Tag)
    requires g.Valid() && |refs| == |g.succ| && line < LINES
  {
    exists u, w :: u != t && Carries(g, refs, b, nodes, line, u, w)
  }

  /** After block `p[i]` has used the line, another tag is there only if a block inside the loop has brought it. */
  lemma {:induction false} HeldInside(g: Graph, code: seq<seq<Bundle>>, refs: States, p: seq<nat>, i: nat, j: nat, x: nat,
                                      nodes: seq<nat>, u: Tag) returns (w: seq<nat>)
    requires RefsOf(g, code, refs) && g.IsPath(p) && i < x && Inside(p, i, x, nodes)
    requires j < |code[p[i]]| && OneTagPerLine(code[p[i]])
    requires u != code[p[i]][j].Tag() && RunPath(code, Cold(), p[..x])[code[p[i]][j].Line()] == Some(u)
    ensures Carries(g, refs, p[x], nodes, code[p[i]][j].Line(), u, w)
    decreases x
  {
    var line, b := code[p[i]][j].Line(), p[x - 1];
    TagAfterBlock(code, p, i, j);
    assert g.Edge(p[x - 1], p[x - 1 + 1]) && b in nodes;
    assert x != i + 1;
    LastStep(g, code, refs, p, x, line);
    if refs[b][line] != {} {
      w := [b];
    } else {
      var v := HeldInside(g, code, refs, p, i, j, x - 1, nodes, u);
      w := CarriedOn(g, refs, b, p[x], nodes, line, u, v);
    }
  }

  lemma LastStep(g: Graph, code: seq<seq<Bundle>>, refs: States, p: seq<nat>, x: nat, line: nat)
    requires RefsOf(g, code, refs) && g.IsPath(p) && 0 < x <= |p| && line < LINES
    ensures var after := RunPath(code, Cold(), p[..x])[line];
            if refs[p[x - 1]][line] == {} then after == RunPath(code, Cold(), p[..x - 1])[line]
            else after.Some? && after.value in refs[p[x - 1]][line]
  {
    assert p[..x][..x - 1] == p[..x - 1];
    LineAfterBundles(RunPath(code, Cold(), p[..x - 1]), code[p[x - 1]], line);
  }

  lemma CarriedOn(g: Graph, refs: States, b: nat, next: nat, nodes: seq<nat>, line: nat, u: Tag, v: seq<nat>) returns (w: seq<nat>)
    requires g.Valid() && |refs| == |g.succ| && line < LINES && Carries(g, refs, b, nodes, line, u, v)
    requires b in nodes && g.Edge(b, next) && b < |refs| && refs[b][line] == {}
    ensures Carries(g, refs, next, nodes, line, u, w)
  {
    PathExtends(g, v, b);
    w := v + [b];
  }

  lemma NothingForeignSuffices(f: Facts, code: seq<seq<Bundle>>, b: nat, j: nat, nodes: seq<nat>, p: seq<nat>, i: nat, k: nat)
    requires f.Correct(code) && WellFormedCode(code) && b in f.g.blocks && j < |code[b]|
    requires !ForeignInside(f.g, f.refs, b, nodes, code[b][j].Line(), code[b][j].Tag())
    requires f.g.IsPath(p) && i < k && Inside(p, i, k, nodes) && p[i] == b && p[k] == b
    ensures !MissAt(code, p, k, j)
  {
    var u := code[b][j];
    TagAfterBlock(code, p, i, j);
    UsedLineStaysUsed(code, p, i + 1, k, u.Line());
    var t := RunPath(code, Cold(), p[..k])[u.Line()].value;
    if t != u.Tag() {
      var w := HeldInside(f.g, code, f.refs, p, i, j, k, nodes, t);
    }
    CachedOnEntryHits(RunPath(code, Cold(), p[..k]), code[b], j);
  }

  // ---------------------------------------------------------------- the run that misses in every iteration

  /** Coming back to the header over a block that leaves another tag in the line makes its bundle miss. */
  lemma RoundMisses(f: Facts, code: seq<seq<Bundle>>, b: nat, j: nat, s: seq<nat>, c: seq<nat>, e: nat, t: Tag)
    requires f.Correct(code) && WellFormedCode(code) && b in f.g.blocks && j < |code[b]|
    requires code[b][j].BlkOffset() == 0 || j == 0
    requires f.g.IsPath(s) && Last(s) == b
    requires f.g.IsPath(c) && c[0] == b && f.g.Edge(Last(c), b) && 0 < e < |c|
    requires t in f.refs[c[e]][code[b][j].Line()] && t != code[b][j].Tag()
    requires forall x | e < x < |c| :: f.refs[c[x]][code[b][j].Line()] == {}
    ensures f.g.IsPath(s + c[1..] + [b]) && MissAt(code, s + c[1..] + [b], |s| + |c| - 1, j)
  {
    var line := code[b][j].Line();
    var p := s + c[1..] + [b];
    PathsJoin(f.g, s, c);
    PathExtends(f.g, s + c[1..], b);
    forall x | |s| + e <= x < |s| + |c| - 1
      ensures f.refs[p[x]][line] == {}
    {
      assert p[x] == c[x - |s| + 1];
    }
    assert p[|s| - 1 + e] == c[e];
    ForeignTagSurvives(f, code, p, |s| - 1 + e, |s| + |c| - 1, line, t);
    FirstOnItsLine(code[b], j);
    LineAfterBundles(RunPath(code, Cold(), p[..|s| + |c| - 1]), code[b][..j], line);
  }

  /** A tag brought in by block `p[at]` is still there when no block up to `k` uses the line. */
  lemma ForeignTagSurvives(f: Facts, code: seq<seq<Bundle>>, p: seq<nat>, at: nat, k: nat, line: nat, t: Tag)
    requires f.Correct(code) && WellFormedCode(code) && f.g.IsPath(p) && at < k <= |p| && line < LINES
    requires t in f.refs[p[at]][line]
    requires forall x | at < x < k :: f.refs[p[x]][line] == {}
    ensures RunPath(code, Cold(), p[..k])[line] == Some(t)
  {
    var z :| 0 <= z < |code[p[at]]| && code[p[at]][z].Line() == line && code[p[at]][z].Tag() == t;
    TagAfterBlock(code, p, at, z);
    TagSurvives(f.g, code, f.refs, p, at + 1, k, line, t);
  }

  lemma MissAtOfPrefix(code: seq<seq<Bundle>>, p: seq<nat>, q: seq<nat>, i: nat, j: nat)
    requires InRange(code, p) && InRange(code, q) && p <= q && i < |p| && j < |code[p[i]]|
    ensures MissAt(code, p, i, j) <==> MissAt(code, q, i, j)
  {
    assert p[..i] == q[..i];
  }

  /** A foreign tag comes round on a cycle inside the loop: the block, one that references the tag, and back without
      using the line again. */
  lemma CarrierCycle(f: Facts, code: seq<seq<Bundle>>, b: nat, j: nat, nodes: seq<nat>, u: Tag, w: seq<nat>) returns (c: seq<nat>, e: nat)
    requires f.Correct(code) && WellFormedCode(code) && b in f.g.blocks && j < |code[b]|
    requires Connected(f.g, nodes) && b in nodes && u != code[b][j].Tag()
    requires Carries(f.g, f.refs, b, nodes, code[b][j].Line(), u, w)
    ensures f.g.IsPath(c) && c[0] == b && f.g.Edge(Last(c), b) && 0 < e < |c| && Inside(c, 0, |c| - 1, nodes)
    ensures u in f.refs[c[e]][code[b][j].Line()] && forall x | e < x < |c| :: f.refs[c[x]][code[b][j].Line()] == {}
  {
    OneReference(code[b], j);
    assert w[0] in nodes;
    assert ReachesInside(f.g, nodes, b, w[0]);
    var h :| f.g.IsPathBetween(h, b, w[0]) && Inside(h, 0, |h| - 1, nodes);
    JoinInside(f.g, nodes, h, w);
    c, e := h + w[1..], |h| - 1;
    forall x | e < x < |c|
      ensures f.refs[c[x]][code[b][j].Line()] == {}
    {
      assert c[x] == c[e..][x - e];
    }
  }

  lemma JoinInside(g: Graph, nodes: seq<nat>, h: seq<nat>, w: seq<nat>)
    requires g.IsPath(h) && g.IsPath(w) && Last(h) == w[0] && Inside(h, 0, |h| - 1, nodes) && Inside(w, 0, |w| - 1, nodes)
    ensures var c := h + w[1..];
            && g.IsPath(c) && c[0] == h[0] && Last(c) == Last(w) && Inside(c, 0, |c| - 1, nodes)
            && c[|h| - 1..] == w
  {
    PathsJoin(g, h, w);
  }

  /** A foreign tag brought to the block inside the loop yields a run on which its bundle misses twice in one stay. */
  lemma ForeignTagMissesTwice(f: Facts, code: seq<seq<Bundle>>, b: nat, j: nat, nodes: seq<nat>, r: seq<nat>, u: Tag, w: seq<nat>)
    requires f.Correct(code) && WellFormedCode(code) && b in f.g.blocks && j < |code[b]|
    requires code[b][j].BlkOffset() == 0 || j == 0
    requires Connected(f.g, nodes) && b in nodes
    requires f.g.IsPath(r) && f.g.pred[r[0]] == [] && Last(r) == b
    requires u != code[b][j].Tag() && Carries(f.g, f.refs, b, nodes, code[b][j].Line(), u, w)
    ensures !MissesOncePerStay(f.g, code, b, j, nodes)
  {
    var c, e := CarrierCycle(f, code, b, j, nodes, u, w);
    RoundMisses(f, code, b, j, r, c, e, u);
    var p := r + c[1..] + [b];
    RoundMisses(f, code, b, j, p, c, e, u);
    TwoRounds(f.g, code, b, j, nodes, r, c);
  }

  lemma TwoRounds(g: Graph, code: seq<seq<Bundle>>, b: nat, j: nat, nodes: seq<nat>, r: seq<nat>, c: seq<nat>)
    requires |code| == |g.succ| && g.Valid() && b < |code| && j < |code[b]|
    requires r != [] && |c| > 1 && c[0] == b && Inside(c, 0, |c| - 1, nodes)
    requires r[0] < |g.pred| && g.pred[r[0]] == []
    requires g.IsPath(r + c[1..] + [b]) && MissAt(code, r + c[1..] + [b], |r| + |c| - 1, j)
    requires var p := r + c[1..] + [b]; g.IsPath(p + c[1..] + [b]) && MissAt(code, p + c[1..] + [b], |p| + |c| - 1, j)
    ensures !MissesOncePerStay(g, code, b, j, nodes)
  {
    var p := r + c[1..] + [b];
    var p2 := p + c[1..] + [b];
    var i, k := |r| + |c| - 1, |p| + |c| - 1;
    MissAtOfPrefix(code, p, p2, i, j);
    forall x | i <= x <= k
      ensures p2[x] in nodes
    {
      assert c[0] in nodes;
      if i < x < k {
        assert p2[x] == c[x - i];
      }
    }
    assert Inside(p2, i, k, nodes) && p2[i] == b && p2[k] == b;
  }

  /** The exact condition, for every block of a loop that can be reached: its bundle misses at most once per stay if and
      only if no block inside the loop can bring another tag to it. */
  lemma FirstMissExact(f: Facts, code: seq<seq<Bundle>>, b: nat, j: nat, nodes: seq<nat>, r: seq<nat>)
    requires f.Correct(code) && WellFormedCode(code) && b in f.g.blocks && j < |code[b]|
    requires code[b][j].BlkOffset() == 0 || j == 0
    requires Connected(f.g, nodes) && b in nodes
    requires f.g.IsPath(r) && f.g.pred[r[0]] == [] && Last(r) == b
    ensures MissesOncePerStay(f.g, code, b, j, nodes) <==>
              !ForeignInside(f.g, f.refs, b, nodes, code[b][j].Line(), code[b][j].Tag())
  {
    if u, w :| u != code[b][j].Tag() && Carries(f.g, f.refs, b, nodes, code[b][j].Line(), u, w) {
      ForeignTagMissesTwice(f, code, b, j, nodes, r, u, w);
    } else {
      NothingForeignIsOnce(f, code, b, j, nodes);
    }
  }

  lemma NothingForeignIsOnce(f: Facts, code: seq<seq<Bundle>>, b: nat, j: nat, nodes: seq<nat>)
    requires f.Correct(code) && WellFormedCode(code) && b in f.g.blocks && j < |code[b]|
    requires !ForeignInside(f.g, f.refs, b, nodes, code[b][j].Line(), code[b][j].Tag())
    ensures MissesOncePerStay(f.g, code, b, j, nodes)
  {
    forall p, i: nat, k: nat | f.g.IsPath(p) && f.g.pred[p[0]] == [] && i < k && Inside(p, i, k, nodes) && p[i] == b && p[k] == b
      ensures !MissAt(code, p, k, j)
    {
      NothingForeignSuffices(f, code, b, j, nodes, p, i, k);
    }
  }

  /** Which first misses keep their promise.  One that has a single reaching tag, or no conflicts in its loop, misses once
      per stay.  Otherwise its block is a header, or follows a loop inside its own, and may miss in every iteration. */
  lemma FirstMissPromise(f: Facts, code: seq<seq<Bundle>>, b: nat, j: nat, answers: Answers)
    requires f.Correct(code) && WellFormedCode(code) && b in f.g.blocks && j < |code[b]|
    requires f.Decide(code[b], b, j, answers) == Decision(FMiss, true)
    ensures f.table.loopId[b] != UNDEF
    ensures var u, loop := code[b][j], f.table.Get(f.table.loopId[b]);
            || (!ForeignInside(f.g, f.refs, b, loop.nodes, u.Line(), u.Tag()) && MissesOncePerStay(f.g, code, b, j, loop.nodes))
            || f.table.IsHeader(b) || FollowsInnerLoop(f.g, f.table, b)
  {
    var u := code[b][j];
    var loop := f.table.Get(f.table.loopId[b]);
    if !f.table.IsHeader(b) && !FollowsInnerLoop(f.g, f.table, b) {
      SingleTagIsNotForeign(f, code, b, j, loop.nodes);
      NoConflictsNothingForeign(f, code, b, j, loop);
      NothingForeignIsOnce(f, code, b, j, loop.nodes);
    }
  }

  /** The only predecessor lies in a loop inside the loop of the block. */
  ghost predicate FollowsInnerLoop(g: Graph, table: LoopTable, b: nat)
    requires table.Valid(g) && b in g.blocks
  {
    && table.loopId[b] != UNDEF && !table.IsHeader(b) && |g.pred[b]| == 1 && table.loopId[g.pred[b][0]] != UNDEF
    && table.Get(table.loopId[g.pred[b][0]]).parent == table.loopId[b]
  }

  /** A tag brought from inside the loop is among the reaching tags. */
  lemma CarriedReaches(f: Facts, code: seq<seq<Bundle>>, b: nat, nodes: seq<nat>, line: nat, u: Tag, w: seq<nat>)
    requires f.Correct(code) && b in f.g.blocks && line < LINES && Carries(f.g, f.refs, b, nodes, line, u, w)
    ensures Last(w) in f.g.pred[b] && u in f.rmb[Last(w)][line] && u in f.inputRmb[b][line]
  {
    assert MayVia(f.g, f.refs, Last(w), line, u, w);
    assert w[|w| - 1] in f.g.blocks;
    assert u in f.rmb[Last(w)][line];
    assert f.inputRmb[b][line] == Inflow(f.rmb, f.g.pred[b], line);
  }

  lemma SingleTagIsNotForeign(f: Facts, code: seq<seq<Bundle>>, b: nat, j: nat, nodes: seq<nat>)
    requires f.Correct(code) && b in f.g.blocks && j < |code[b]|
    requires code[b][j].Tag() in f.inputRmb[b][code[b][j].Line()]
    ensures |f.inputRmb[b][code[b][j].Line()]| == 1 ==>
              !ForeignInside(f.g, f.refs, b, nodes, code[b][j].Line(), code[b][j].Tag())
  {
    var t, line := code[b][j].Tag(), code[b][j].Line();
    if |f.inputRmb[b][line]| == 1 {
      SingletonIsAll(f.inputRmb[b][line], t);
      forall u, w | Carries(f.g, f.refs, b, nodes, line, u, w)
        ensures u == t
      {
        CarriedReaches(f, code, b, nodes, line, u, w);
      }
    }
  }

  lemma NoConflictsNothingForeign(f: Facts, code: seq<seq<Bundle>>, b: nat, j: nat, loop: Loop)
    requires f.Correct(code) && WellFormedCode(code) && b in f.g.blocks && j < |code[b]|
    ensures !f.CacheConflicts(loop, code[b][j].Tag(), code[b][j].Line()) ==>
              !ForeignInside(f.g, f.refs, b, loop.nodes, code[b][j].Line(), code[b][j].Tag())
  {
    var t, line := code[b][j].Tag(), code[b][j].Line();
    if u, w :| u != t && Carries(f.g, f.refs, b, loop.nodes, line, u, w) {
      assert w[0] in loop.nodes;
      var y :| 0 <= y < |loop.nodes| && loop.nodes[y] == w[0];
      var z :| 0 <= z < |code[w[0]]| && code[w[0]][z].Line() == line && code[w[0]][z].Tag() == u;
      OneReference(code[w[0]], z);
      assert t !in f.refs[loop.nodes[y]][line] && f.refs[loop.nodes[y]][line] != {};
    }
  }

  /** Behind an inner loop several reaching tags always give a first miss, whatever else holds. */
  lemma AfterInnerLoop(f: Facts, code: seq<seq<Bundle>>, b: nat, j: nat, answers: Answers)
    requires f.Correct(code) && WellFormedCode(code) && b in f.g.blocks && j < |code[b]|
    requires code[b][j].BlkOffset() == 0 || j == 0
    requires FollowsInnerLoop(f.g, f.table, b) && f.table.loopId[f.g.pred[b][0]] != f.table.loopId[b]
    requires code[b][j].Tag() in f.inputRmb[b][code[b][j].Line()] && |f.inputRmb[b][code[b][j].Line()]| > 1
    ensures f.Decide(code[b], b, j, answers) == Decision(FMiss, true)
  {
    var u := code[b][j];
    OneReference(code[b], j);
    if f.MustInPreds(b, u.Tag(), u.Line()) {
      MustOfOnlyPred(f, code, b, u.Tag(), u.Line());
    }
  }

  // ---------------------------------------------------------------- headers

  /** No block inside the loop can leave another tag in the line at one of the header's back edges. */
  ghost predicate BackEdgesKeepTag(f: Facts, b: nat, nodes: seq<nat>, line: nat, t: Tag)
    requires f.Valid() && b in f.g.blocks && line < LINES
  {
    forall q | q in f.g.pred[b] && q in nodes :: f.rmb[q][line] <= {t}
  }

  /** A path that carries a foreign tag to a back edge stays inside a loop that is entered at its header only. */
  lemma {:induction false} CarrierStaysInside(f: Facts, b: nat, loop: Loop, line: nat, t: Tag, w: seq<nat>)
    requires f.Valid() && |f.refs| == |f.g.succ| && b in f.g.blocks && line < LINES
    requires NaturalLoop(f.g, loop) && loop.root == b && f.refs[b][line] != {} && t !in f.refs[b][line]
    requires w != [] && MayVia(f.g, f.refs, Last(w), line, t, w) && Last(w) in loop.nodes
    ensures Inside(w, 0, |w| - 1, loop.nodes)
    decreases |w|
  {
    if |w| > 1 {
      var v := w[..|w| - 1];
      assert f.g.Edge(w[|w| - 2], w[|w| - 1]);
      assert Last(v) in loop.nodes;
      CarrierStaysInside(f, b, loop, line, t, v);
    }
  }

  /** At the header of a natural loop the condition can be read off the reaching states of the back edges. */
  lemma BackEdgesDecide(f: Facts, code: seq<seq<Bundle>>, b: nat, j: nat, loop: Loop)
    requires f.Correct(code) && WellFormedCode(code) && b in f.g.blocks && j < |code[b]|
    requires NaturalLoop(f.g, loop) && loop.root == b
    ensures BackEdgesKeepTag(f, b, loop.nodes, code[b][j].Line(), code[b][j].Tag()) <==>
              !ForeignInside(f.g, f.refs, b, loop.nodes, code[b][j].Line(), code[b][j].Tag())
  {
    var t, line := code[b][j].Tag(), code[b][j].Line();
    if u, w :| u != t && Carries(f.g, f.refs, b, loop.nodes, line, u, w) {
      CarriedReaches(f, code, b, loop.nodes, line, u, w);
      assert w[|w| - 1] in loop.nodes;
    }
    if q :| q in f.g.pred[b] && q in loop.nodes && !(f.rmb[q][line] <= {t}) {
      var u :| u in f.rmb[q][line] && u != t;
      BackEdgeCarries(f, code, b, j, loop, q, u);
    }
  }

  lemma BackEdgeCarries(f: Facts, code: seq<seq<Bundle>>, b: nat, j: nat, loop: Loop, q: nat, u: Tag)
    requires f.Correct(code) && WellFormedCode(code) && b in f.g.blocks && j < |code[b]|
    requires NaturalLoop(f.g, loop) && loop.root == b && q in f.g.pred[b] && q in loop.nodes
    requires u in f.rmb[q][code[b][j].Line()] && u != code[b][j].Tag()
    ensures ForeignInside(f.g, f.refs, b, loop.nodes, code[b][j].Line(), code[b][j].Tag())
  {
    var line := code[b][j].Line();
    OneReference(code[b], j);
    var w :| MayVia(f.g, f.refs, q, line, u, w);
    CarrierStaysInside(f, b, loop, line, u, w);
    assert Carries(f.g, f.refs, b, loop.nodes, line, u, w);
  }

  /** A first miss at the header of a reachable natural loop keeps its promise if and only if no block inside
      the loop can leave another tag in the line at a back edge. */
  lemma HeaderFirstMissExact(f: Facts, code: seq<seq<Bundle>>, b: nat, j: nat, answers: Answers, r: seq<nat>)
    requires f.Correct(code) && WellFormedCode(code) && b in f.g.blocks && j < |code[b]| && f.table.IsHeader(b)
    requires f.Decide(code[b], b, j, answers) == Decision(FMiss, true)
    requires NaturalLoop(f.g, f.table.Get(f.table.loopId[b]))
    requires f.g.IsPath(r) && f.g.pred[r[0]] == [] && Last(r) == b
    ensures var nodes := f.table.Get(f.table.loopId[b]).nodes;
            MissesOncePerStay(f.g, code, b, j, nodes) <==>
              BackEdgesKeepTag(f, b, nodes, code[b][j].Line(), code[b][j].Tag())
  {
    var loop := f.table.Get(f.table.loopId[b]);
    FirstMissExact(f, code, b, j, loop.nodes, r);
    BackEdgesDecide(f, code, b, j, loop);
  }
}
