/** The limits of the integer program on first misses against the real cache.  A row allows as many first misses of a block
    as there are entries to a loop: the block's own loop, but for a header the loop of its main predecessor. */
module FirstMissLimits {
  import opened Graphs
  import opened Loops
  import opened CacheState
  import opened MayStates
  import opened MustSearch
  import opened CacheRuns
  import opened Classification
  import opened FirstMisses
  import opened LoopMerge
  import opened LoopIdentification
  import opened LoopStays
  import opened LoopBounds
  import opened LoopTables
  import opened Ipet
  import LoopForest
  import IpetSound

  // ---------------------------------------------------------------- the first misses of a run

  /** Some bundle of block `p[i]` that is predicted as a first miss misses. */
  ghost predicate FirstMissAt(f: Facts, code: seq<seq<Bundle>>, prediction: seq<seq<Prediction>>, p: seq<nat>, i: nat)
    requires Predicted(f, code, prediction, p) && i < |p|
  {
    exists j: nat :: j < |code[p[i]]| && prediction[p[i]][j] == FMiss && MissAt(code, p, i, j)
  }

  /** What the integer program counts on the run. */
  ghost function Flags(f: Facts, code: seq<seq<Bundle>>, prediction: seq<seq<Prediction>>, p: seq<nat>): (missed: seq<bool>)
    requires Predicted(f, code, prediction, p)
    ensures |missed| == |p| && forall i: nat | i < |p| :: missed[i] <==> FirstMissAt(f, code, prediction, p, i)
  {
    seq(|p|, i requires 0 <= i < |p| => FirstMissAt(f, code, prediction, p, i))
  }

  ghost function FirstMissCount(f: Facts, code: seq<seq<Bundle>>, prediction: seq<seq<Prediction>>, p: seq<nat>, b: nat): nat
    requires Predicted(f, code, prediction, p)
  {
    IpetSound.MissCount(p, Flags(f, code, prediction, p), |p|, b)
  }

  ghost predicate BlockPredicted(f: Facts, code: seq<seq<Bundle>>, prediction: seq<seq<Prediction>>, b: nat) {
    f.Valid() && |prediction| == |code| == |f.g.succ| && b in f.g.blocks && |prediction[b]| == |code[b]|
  }

  /** No block of `nodes` can bring another tag to a first miss of block `b`. */
  ghost predicate Steady(f: Facts, code: seq<seq<Bundle>>, prediction: seq<seq<Prediction>>, b: nat, nodes: seq<nat>)
    requires BlockPredicted(f, code, prediction, b)
  {
    forall j: nat | j < |code[b]| && prediction[b][j] == FMiss ::
      !ForeignInside(f.g, f.refs, b, nodes, code[b][j].Line(), code[b][j].Tag())
  }

  lemma RunIsPredicted(f: Facts, code: seq<seq<Bundle>>, prediction: seq<seq<Prediction>>, answers: (nat, nat) -> Answers, p: seq<nat>)
    requires f.Correct(code) && Classified(f, code, prediction, answers) && forall x | 0 <= x < |p| :: p[x] in f.g.blocks
    ensures Predicted(f, code, prediction, p)
  {
  }

  // ---------------------------------------------------------------- at most one per entry

  /** Block `b` has run in the stay in `nodes` that position `n - 1` belongs to. */
  predicate Seen(p: seq<nat>, n: nat, nodes: seq<nat>, b: nat)
    requires n <= |p|
  {
    n > 0 && p[n - 1] in nodes && (p[n - 1] == b || (!LoopStays.Enters(p, n - 1, nodes) && Seen(p, n - 1, nodes, b)))
  }

  lemma {:induction false} SeenWhen(p: seq<nat>, n: nat, nodes: seq<nat>, b: nat) returns (i: nat)
    requires n <= |p| && Seen(p, n, nodes, b)
    ensures i < n && p[i] == b && forall x | i <= x < n :: p[x] in nodes
  {
    if p[n - 1] == b {
      i := n - 1;
    } else {
      i := SeenWhen(p, n - 1, nodes, b);
    }
  }

  lemma NotInSameStay(f: Facts, code: seq<seq<Bundle>>, prediction: seq<seq<Prediction>>, p: seq<nat>, k: nat, nodes: seq<nat>)
    requires f.Correct(code) && WellFormedCode(code) && Predicted(f, code, prediction, p) && f.g.IsPath(p)
    requires k < |p| && p[k] in nodes && Steady(f, code, prediction, p[k], nodes) && Seen(p, k, nodes, p[k])
    ensures !FirstMissAt(f, code, prediction, p, k)
  {
    var i := SeenWhen(p, k, nodes, p[k]);
    forall j: nat | j < |code[p[k]]| && prediction[p[k]][j] == FMiss
      ensures !MissAt(code, p, k, j)
    {
      NothingForeignSuffices(f, code, p[k], j, nodes, p, i, k);
    }
  }

  /** Where nothing foreign can come, the first misses of a block are at most the entries to the loop. */
  lemma {:induction false} MissesWithinEntries(f: Facts, code: seq<seq<Bundle>>, prediction: seq<seq<Prediction>>,
                                               p: seq<nat>, n: nat, b: nat, nodes: seq<nat>)
    requires f.Correct(code) && WellFormedCode(code) && Predicted(f, code, prediction, p) && f.g.IsPath(p) && n <= |p|
    requires b in nodes && BlockPredicted(f, code, prediction, b) && Steady(f, code, prediction, b, nodes)
    ensures IpetSound.MissCount(p, Flags(f, code, prediction, p), n, b) +
            (if n > 0 && p[n - 1] in nodes && !Seen(p, n, nodes, b) then 1 else 0) <= Entries(p, n, nodes)
  {
    if n > 0 {
      MissesWithinEntries(f, code, prediction, p, n - 1, b, nodes);
      if p[n - 1] == b && Seen(p, n - 1, nodes, b) {
        NotInSameStay(f, code, prediction, p, n - 1, nodes);
      }
    }
  }

  // ---------------------------------------------------------------- the condition is exact

  lemma {:induction false} MissCountOfPrefix(p: seq<nat>, q: seq<nat>, s: seq<bool>, t: seq<bool>, n: nat, b: nat)
    requires n <= |p| == |s| && |q| == |t| && p <= q && s <= t
    ensures IpetSound.MissCount(q, t, n, b) == IpetSound.MissCount(p, s, n, b)
  {
    if n > 0 {
      MissCountOfPrefix(p, q, s, t, n - 1, b);
    }
  }

  lemma {:induction false} MissCountGrows(p: seq<nat>, s: seq<bool>, m: nat, n: nat, b: nat)
    requires m <= n <= |p| == |s|
    ensures IpetSound.MissCount(p, s, m, b) <= IpetSound.MissCount(p, s, n, b)
  {
    if m < n {
      MissCountGrows(p, s, m, n - 1, b);
    }
  }

  lemma FlagsOfPrefix(f: Facts, code: seq<seq<Bundle>>, prediction: seq<seq<Prediction>>, p: seq<nat>, q: seq<nat>)
    requires Predicted(f, code, prediction, p) && Predicted(f, code, prediction, q) && p <= q
    ensures Flags(f, code, prediction, p) <= Flags(f, code, prediction, q)
  {
    forall i: nat | i < |p|
      ensures FirstMissAt(f, code, prediction, p, i) <==> FirstMissAt(f, code, prediction, q, i)
    {
      forall j: nat | j < |code[p[i]]|
        ensures MissAt(code, p, i, j) <==> MissAt(code, q, i, j)
      {
        MissAtOfPrefix(code, p, q, i, j);
      }
    }
  }

  /** Going on inside the loop does not enter it. */
  lemma {:induction false} StaysInside(p: seq<nat>, q: seq<nat>, n: nat, nodes: seq<nat>)
    requires p != [] && p <= q && |p| <= n <= |q| && forall x | |p| - 1 <= x < n :: q[x] in nodes
    ensures Entries(q, n, nodes) == Entries(p, |p|, nodes)
  {
    if n == |p| {
      EntriesOfPrefix(p, q, n, nodes);
    } else {
      StaysInside(p, q, n - 1, nodes);
    }
  }

  lemma {:induction false} EntriesOfPrefix(p: seq<nat>, q: seq<nat>, n: nat, nodes: seq<nat>)
    requires n <= |p| && p <= q
    ensures Entries(q, n, nodes) == Entries(p, n, nodes)
  {
    if n > 0 {
      EntriesOfPrefix(p, q, n - 1, nodes);
    }
  }

  /** One round that brings the foreign tag adds a first miss and no entry. */
  lemma RoundCounts(f: Facts, code: seq<seq<Bundle>>, prediction: seq<seq<Prediction>>, b: nat, j: nat, nodes: seq<nat>,
                    s: seq<nat>, c: seq<nat>, p: seq<nat>)
    requires Predicted(f, code, prediction, s) && Predicted(f, code, prediction, p)
    requires s != [] && c != [] && c[0] == b && s[|s| - 1] == b && p == s + c[1..] + [b]
    requires FirstMisses.Inside(c, 0, |c| - 1, nodes) && |c| > 1
    requires j < |code[b]| && prediction[b][j] == FMiss && MissAt(code, p, |s| + |c| - 1, j)
    ensures FirstMissCount(f, code, prediction, p, b) > FirstMissCount(f, code, prediction, s, b)
    ensures Entries(p, |p|, nodes) == Entries(s, |s|, nodes)
  {
    assert FirstMissAt(f, code, prediction, p, |p| - 1);
    FlagsOfPrefix(f, code, prediction, s, p);
    OneMoreMiss(s, p, Flags(f, code, prediction, s), Flags(f, code, prediction, p), b);
    RoundStays(nodes, s, c, p);
  }

  lemma OneMoreMiss(s: seq<nat>, p: seq<nat>, before: seq<bool>, after: seq<bool>, b: nat)
    requires |before| == |s| && |after| == |p| && 0 < |s| < |p| && s <= p && before <= after
    requires p[|p| - 1] == b && after[|p| - 1]
    ensures IpetSound.MissCount(p, after, |p|, b) > IpetSound.MissCount(s, before, |s|, b)
  {
    MissCountOfPrefix(s, p, before, after, |s|, b);
    MissCountGrows(p, after, |s|, |p| - 1, b);
  }

  lemma RoundStays(nodes: seq<nat>, s: seq<nat>, c: seq<nat>, p: seq<nat>)
    requires s != [] && |c| > 1 && s[|s| - 1] == c[0] && p == s + c[1..] + [c[0]]
    requires forall x | 0 <= x < |c| :: c[x] in nodes
    ensures Entries(p, |p|, nodes) == Entries(s, |s|, nodes)
  {
    forall x | |s| - 1 <= x < |p|
      ensures p[x] in nodes
    {
      if |s| <= x < |p| - 1 {
        assert p[x] == c[x - |s| + 1];
      }
    }
    StaysInside(s, p, |p|, nodes);
  }

  /** After `n` rounds there are at least `n` first misses and still as many entries. */
  lemma {:induction false} RoundsCount(f: Facts, code: seq<seq<Bundle>>, prediction: seq<seq<Prediction>>, answers: (nat, nat) -> Answers,
                                       b: nat, j: nat, nodes: seq<nat>, r: seq<nat>, c: seq<nat>, e: nat, u: Tag, n: nat)
    returns (p: seq<nat>)
    requires f.Correct(code) && WellFormedCode(code) && Classified(f, code, prediction, answers) && b in f.g.blocks && j < |code[b]|
    requires prediction[b][j] == FMiss && (code[b][j].BlkOffset() == 0 || j == 0)
    requires f.g.IsPath(r) && Last(r) == b
    requires f.g.IsPath(c) && c[0] == b && f.g.Edge(Last(c), b) && 0 < e < |c| && FirstMisses.Inside(c, 0, |c| - 1, nodes)
    requires u in f.refs[c[e]][code[b][j].Line()] && u != code[b][j].Tag()
    requires forall x | e < x < |c| :: f.refs[c[x]][code[b][j].Line()] == {}
    ensures f.g.IsPath(p) && p[0] == r[0] && Last(p) == b && Predicted(f, code, prediction, p)
    ensures FirstMissCount(f, code, prediction, p, b) >= n && Entries(p, |p|, nodes) == Entries(r, |r|, nodes)
  {
    if n == 0 {
      p := r;
    } else {
      var s := RoundsCount(f, code, prediction, answers, b, j, nodes, r, c, e, u, n - 1);
      p := s + c[1..] + [b];
      RoundMisses(f, code, b, j, s, c, e, u);
      RoundCounts(f, code, prediction, b, j, nodes, s, c, p);
    }
  }

  /** On no run from an entry block has `b` more first misses than there are entries to the loop. */
  ghost predicate WithinEntries(f: Facts, code: seq<seq<Bundle>>, prediction: seq<seq<Prediction>>, answers: (nat, nat) -> Answers,
                                b: nat, nodes: seq<nat>)
    requires f.Correct(code) && Classified(f, code, prediction, answers)
  {
    forall p | f.g.IsPath(p) && f.g.pred[p[0]] == [] ::
      FirstMissCount(f, code, prediction, p, b) <= Entries(p, |p|, nodes)
  }

  /** The exact condition, for a loop that can be reached and holds the block: its first misses are within the entries to
      the loop on every run if and only if no block inside can bring another tag to one of them.  Otherwise they exceed
      every number. */
  lemma LimitExact(f: Facts, code: seq<seq<Bundle>>, prediction: seq<seq<Prediction>>, answers: (nat, nat) -> Answers,
                   b: nat, nodes: seq<nat>, r: seq<nat>)
    requires f.Correct(code) && WellFormedCode(code) && Classified(f, code, prediction, answers) && b in f.g.blocks
    requires Connected(f.g, nodes) && b in nodes
    requires f.g.IsPath(r) && f.g.pred[r[0]] == [] && Last(r) == b
    ensures WithinEntries(f, code, prediction, answers, b, nodes) <==> Steady(f, code, prediction, b, nodes)
  {
    if Steady(f, code, prediction, b, nodes) {
      forall p | f.g.IsPath(p) && f.g.pred[p[0]] == []
        ensures FirstMissCount(f, code, prediction, p, b) <= Entries(p, |p|, nodes)
      {
        MissesWithinEntries(f, code, prediction, p, |p|, b, nodes);
      }
    } else {
      var j: nat :| j < |code[b]| && prediction[b][j] == FMiss &&
                    ForeignInside(f.g, f.refs, b, nodes, code[b][j].Line(), code[b][j].Tag());
      var p := TooMany(f, code, prediction, answers, b, j, nodes, r, Entries(r, |r|, nodes) + 1);
    }
  }

  /** With a foreign tag inside, any number of first misses in the stay that a run has reached. */
  lemma TooMany(f: Facts, code: seq<seq<Bundle>>, prediction: seq<seq<Prediction>>, answers: (nat, nat) -> Answers,
                b: nat, j: nat, nodes: seq<nat>, r: seq<nat>, n: nat) returns (p: seq<nat>)
    requires f.Correct(code) && WellFormedCode(code) && Classified(f, code, prediction, answers) && b in f.g.blocks
    requires Connected(f.g, nodes) && b in nodes && f.g.IsPath(r) && Last(r) == b
    requires j < |code[b]| && prediction[b][j] == FMiss
    requires ForeignInside(f.g, f.refs, b, nodes, code[b][j].Line(), code[b][j].Tag())
    ensures f.g.IsPath(p) && p[0] == r[0] && Predicted(f, code, prediction, p)
    ensures FirstMissCount(f, code, prediction, p, b) >= n && Entries(p, |p|, nodes) == Entries(r, |r|, nodes)
  {
    var u, w :| u != code[b][j].Tag() && Carries(f.g, f.refs, b, nodes, code[b][j].Line(), u, w);
    var c, e := CarrierCycle(f, code, b, j, nodes, u, w);
    assert f.Decide(code[b], b, j, answers(b, j)).prediction == FMiss;
    p := RoundsCount(f, code, prediction, answers, b, j, nodes, r, c, e, u, n);
  }

  // ---------------------------------------------------------------- the rows of the integer program

  /** The program that the analysed blocks become: bounds of the loop bound detector, and first misses as classified. */
  ghost predicate Analysed(prog: Program, limits: seq<Limit>, f: Facts, code: seq<seq<Bundle>>, prediction: seq<seq<Prediction>>,
                           answers: (nat, nat) -> Answers)
  {
    && prog.Valid() && prog.g == f.g && prog.table == f.table && Identified(f.g, f.table)
    && f.Correct(code) && WellFormedCode(code) && Classified(f, code, prediction, answers)
    && Numbered(f.table.loops, limits)
    && forall b | b in f.g.blocks ::
         && (prog.firstMiss[b] <==> FMiss in prediction[b])
         && (f.table.loopId[b] == UNDEF || HasId(f.table.loops, f.table.loopId[b]))
         && BoundsAre(Renumbered(f.table.loops), limits, b, Place(f.table.loops, f.table.loopId[b]), prog.bounds[b])
  }

  /** The position of the innermost loop of a block. */
  ghost function LoopOf(table: LoopTable, b: nat): int
    requires b < |table.loopId| && (table.loopId[b] == UNDEF || HasId(table.loops, table.loopId[b]))
  {
    Place(table.loops, table.loopId[b])
  }

  lemma LoopOfBlockIs(prog: Program, limits: seq<Limit>, f: Facts, code: seq<seq<Bundle>>, prediction: seq<seq<Prediction>>,
                      answers: (nat, nat) -> Answers, b: nat) returns (q: nat)
    requires Analysed(prog, limits, f, code, prediction, answers) && b in f.g.blocks && f.table.loopId[b] != UNDEF
    ensures q == LoopOf(f.table, b) && q < |f.table.loops| && b in f.table.loops[q].nodes
    ensures f.table.Get(f.table.loopId[b]) == f.table.loops[q]
  {
    q := LoopOfBlock(f.g, f.table, b);
    var place := PositionOf(f.table.loops, f.table.loopId[b]);
    assert f.table.loops[place].id == f.table.loops[q].id;
  }

  /** The row of `b` allows as many first misses as loop `q` can be entered. */
  ghost predicate RowAllows(prog: Program, limits: seq<Limit>, b: nat, q: nat)
    requires prog.Valid() && b in prog.g.blocks && Numbered(prog.table.loops, limits) && q < |prog.table.loops|
  {
    OuterX(Renumbered(prog.table.loops), limits, Renumbered(prog.table.loops)[q].parent) <= IpetSound.MissLimit(prog, b)
  }

  /** Any block's row allows that for its own loop, unless it is a header; a header's row for its main predecessor's. */
  lemma RowOfLoop(prog: Program, limits: seq<Limit>, f: Facts, code: seq<seq<Bundle>>, prediction: seq<seq<Prediction>>,
                  answers: (nat, nat) -> Answers, b: nat, q: nat)
    requires Analysed(prog, limits, f, code, prediction, answers) && b in f.g.blocks && q < |f.table.loops|
    requires q == LoopOf(f.table, RowBlock(prog, b))
    ensures RowAllows(prog, limits, b, q)
  {
    var x := prog.bounds[RowBlock(prog, b)];
    assert BoundsAre(Renumbered(f.table.loops), limits, RowBlock(prog, b), q, x);
  }

  /** The block whose `outer_x` limits the first misses of `b`. */
  ghost function RowBlock(prog: Program, b: nat): (m: nat)
    requires prog.Valid() && b in prog.g.blocks
    ensures m in prog.g.blocks
  {
    if prog.Header(b) then
      var m := prog.table.MainPred(prog.g, b);
      assert m in prog.g.blocks by {
        var i :| 0 <= i < |prog.g.pred[b]| && prog.g.pred[b][i] == m;
      }
      m
    else b
  }

  /** A run that keeps the loops' bounds keeps the row, if the row allows the entries to some loop of the block in which
      nothing foreign can come to its first misses. */
  lemma LimitKept(prog: Program, limits: seq<Limit>, f: Facts, code: seq<seq<Bundle>>, prediction: seq<seq<Prediction>>,
                  answers: (nat, nat) -> Answers, p: seq<nat>, b: nat, q: nat)
    requires Analysed(prog, limits, f, code, prediction, answers) && b in f.g.blocks && q < |f.table.loops|
    requires BoundedRun(f.g, Renumbered(f.table.loops), limits, p) && ChainOk(f.g, Renumbered(f.table.loops), q)
    requires RowAllows(prog, limits, b, q) && b in f.table.loops[q].nodes && Steady(f, code, prediction, b, f.table.loops[q].nodes)
    ensures FirstMissCount(f, code, prediction, p, b) <= IpetSound.MissLimit(prog, b)
  {
    LoopEntries(f.g, Renumbered(f.table.loops), limits, p, q);
    MissesWithinEntries(f, code, prediction, p, |p|, b, f.table.loops[q].nodes);
  }

  /** What is called a first miss in a block that is no header and does not follow an inner loop keeps its row. */
  lemma PromisedLimit(prog: Program, limits: seq<Limit>, f: Facts, code: seq<seq<Bundle>>, prediction: seq<seq<Prediction>>,
                      answers: (nat, nat) -> Answers, p: seq<nat>, b: nat)
    requires Analysed(prog, limits, f, code, prediction, answers) && b in f.g.blocks && prog.firstMiss[b]
    requires !f.table.IsHeader(b) && !FollowsInnerLoop(f.g, f.table, b)
    requires BoundedRun(f.g, Renumbered(f.table.loops), limits, p)
    requires ChainOk(f.g, Renumbered(f.table.loops), LoopOf(f.table, b))
    ensures FirstMissCount(f, code, prediction, p, b) <= IpetSound.MissLimit(prog, b)
  {
    var j :| 0 <= j < |prediction[b]| && prediction[b][j] == FMiss;
    AllSteady(f, code, prediction, answers, b);
    var q := LoopOfBlockIs(prog, limits, f, code, prediction, answers, b);
    RowOfLoop(prog, limits, f, code, prediction, answers, b, q);
    LimitKept(prog, limits, f, code, prediction, answers, p, b, q);
  }

  lemma AllSteady(f: Facts, code: seq<seq<Bundle>>, prediction: seq<seq<Prediction>>, answers: (nat, nat) -> Answers, b: nat)
    requires f.Correct(code) && WellFormedCode(code) && Classified(f, code, prediction, answers) && b in f.g.blocks
    requires FMiss in prediction[b] && !f.table.IsHeader(b) && !FollowsInnerLoop(f.g, f.table, b)
    ensures f.table.loopId[b] != UNDEF
    ensures Steady(f, code, prediction, b, f.table.Get(f.table.loopId[b]).nodes)
  {
    forall j: nat | j < |code[b]| && prediction[b][j] == FMiss
      ensures f.table.loopId[b] != UNDEF
      ensures !ForeignInside(f.g, f.refs, b, f.table.Get(f.table.loopId[b]).nodes, code[b][j].Line(), code[b][j].Tag())
    {
      var d := f.Decide(code[b], b, j, answers(b, j));
      UnlistedDecisions(f, code, code[b], b, j, answers(b, j));
      FirstMissPromise(f, code, b, j, answers(b, j));
    }
    var j :| 0 <= j < |prediction[b]| && prediction[b][j] == FMiss;
  }

  /** A nested header's row counts the entries to the loop of its main predecessor.  Its first misses are within those on
      every run if and only if no block of that loop, not just of its own, can bring another tag to them; a run that keeps
      the loops' bounds then keeps the row. */
  lemma HeaderLimit(prog: Program, limits: seq<Limit>, f: Facts, code: seq<seq<Bundle>>, prediction: seq<seq<Prediction>>,
                    answers: (nat, nat) -> Answers, b: nat, q: nat, r: seq<nat>)
    requires Analysed(prog, limits, f, code, prediction, answers) && b in f.g.blocks && f.table.IsHeader(b)
    requires q == LoopOf(f.table, f.table.MainPred(f.g, b)) && q < |f.table.loops| && b in f.table.loops[q].nodes
    requires f.g.IsPath(r) && f.g.pred[r[0]] == [] && Last(r) == b
    ensures IpetSound.MissLimit(prog, b) == OuterX(Renumbered(f.table.loops), limits, Renumbered(f.table.loops)[q].parent)
    ensures WithinEntries(f, code, prediction, answers, b, f.table.loops[q].nodes) <==>
            Steady(f, code, prediction, b, f.table.loops[q].nodes)
    ensures Steady(f, code, prediction, b, f.table.loops[q].nodes) && ChainOk(f.g, Renumbered(f.table.loops), q) ==>
              forall p | BoundedRun(f.g, Renumbered(f.table.loops), limits, p) ::
                FirstMissCount(f, code, prediction, p, b) <= IpetSound.MissLimit(prog, b)
  {
    RowOfLoop(prog, limits, f, code, prediction, answers, b, q);
    LoopsAreConnected(f.g, f.table, q);
    LimitExact(f, code, prediction, answers, b, f.table.loops[q].nodes, r);
    assert BoundsAre(Renumbered(f.table.loops), limits, RowBlock(prog, b), q, prog.bounds[RowBlock(prog, b)]);
    if Steady(f, code, prediction, b, f.table.loops[q].nodes) && ChainOk(f.g, Renumbered(f.table.loops), q) {
      forall p | BoundedRun(f.g, Renumbered(f.table.loops), limits, p)
        ensures FirstMissCount(f, code, prediction, p, b) <= IpetSound.MissLimit(prog, b)
      {
        LimitKept(prog, limits, f, code, prediction, answers, p, b, q);
      }
    }
  }

  // ---------------------------------------------------------------- the flags are steps of the integer program

  /** The header is entered from its main predecessor and from inside its loop, and the loop at its header only. */
  ghost predicate OneWayIn(g: Graph, table: LoopTable, b: nat)
    requires table.Valid(g) && table.HeadersEntered(g) && b in g.blocks && table.IsHeader(b)
  {
    var nodes := table.Get(table.loopId[b]).nodes;
    && (forall a: nat, v: nat | g.Edge(a, v) && v in nodes && a !in nodes :: v == b && a == table.MainPred(g, b))
    && forall v | v in nodes && v in g.blocks :: g.pred[v] != []
  }

  /** Inside the loop, its only way in lies behind. */
  lemma {:induction false} HeaderSeen(g: Graph, table: LoopTable, b: nat, p: seq<nat>, n: nat)
    requires table.Valid(g) && table.HeadersEntered(g) && b in g.blocks && table.IsHeader(b) && OneWayIn(g, table, b)
    requires g.IsPath(p) && g.pred[p[0]] == [] && 0 < n <= |p| && p[n - 1] in table.Get(table.loopId[b]).nodes
    ensures Seen(p, n, table.Get(table.loopId[b]).nodes, b)
  {
    if n > 1 {
      assert g.Edge(p[n - 2], p[n - 2 + 1]);
      if p[n - 2] in table.Get(table.loopId[b]).nodes {
        HeaderSeen(g, table, b, p, n - 1);
      }
    }
  }

  /** On a run a header's first misses occur where it is entered from its main predecessor, as the integer program has it,
      if nothing foreign can come inside its own loop. */
  lemma MissFromMainPred(f: Facts, code: seq<seq<Bundle>>, prediction: seq<seq<Prediction>>, p: seq<nat>, k: nat)
    requires f.Correct(code) && WellFormedCode(code) && Predicted(f, code, prediction, p)
    requires f.g.IsPath(p) && f.g.pred[p[0]] == [] && 0 < k < |p| && f.table.IsHeader(p[k]) && OneWayIn(f.g, f.table, p[k])
    requires p[k] in f.table.Get(f.table.loopId[p[k]]).nodes
    requires Steady(f, code, prediction, p[k], f.table.Get(f.table.loopId[p[k]]).nodes) && FirstMissAt(f, code, prediction, p, k)
    ensures p[k - 1] == f.table.MainPred(f.g, p[k])
  {
    var nodes := f.table.Get(f.table.loopId[p[k]]).nodes;
    assert f.g.Edge(p[k - 1], p[k - 1 + 1]);
    if p[k - 1] in nodes {
      HeaderSeen(f.g, f.table, p[k], p, k);
      NotInSameStay(f, code, prediction, p, k, nodes);
    }
  }

  /** The entry has no first misses. */
  lemma NoneAtEntry(f: Facts, code: seq<seq<Bundle>>, prediction: seq<seq<Prediction>>, answers: (nat, nat) -> Answers, b: nat)
    requires f.Correct(code) && Classified(f, code, prediction, answers) && b in f.g.blocks && f.g.pred[b] == []
    ensures FMiss !in prediction[b]
  {
    forall j: nat | j < |code[b]|
      ensures prediction[b][j] != FMiss
    {
      assert f.inputRmb[b][code[b][j].Line()] == {};
    }
  }

  /** Every header with first misses has one way in, and nothing foreign comes inside its own loop. */
  ghost predicate HeadersSteady(f: Facts, code: seq<seq<Bundle>>, prediction: seq<seq<Prediction>>, answers: (nat, nat) -> Answers)
    requires f.Correct(code) && Classified(f, code, prediction, answers)
  {
    forall b | b in f.g.blocks && f.table.IsHeader(b) && FMiss in prediction[b] ::
      OneWayIn(f.g, f.table, b) && Steady(f, code, prediction, b, f.table.Get(f.table.loopId[b]).nodes)
  }

  /** Then the run with the first misses of the real cache is a run of the integer program. */
  lemma CacheRunIsRun(prog: Program, limits: seq<Limit>, f: Facts, code: seq<seq<Bundle>>, prediction: seq<seq<Prediction>>,
                      answers: (nat, nat) -> Answers, p: seq<nat>, missed: seq<bool>)
    requires Analysed(prog, limits, f, code, prediction, answers) && HeadersSteady(f, code, prediction, answers)
    requires IpetSound.IsRun(prog, p, missed) && f.g.pred[p[0]] == []
    ensures IpetSound.IsRun(prog, p, Flags(f, code, prediction, p))
  {
    var flags := Flags(f, code, prediction, p);
    forall i: nat | i < |p| && flags[i]
      ensures i > 0 && prog.firstMiss[p[i]] && (prog.Header(p[i]) ==> p[i - 1] == prog.table.MainPred(prog.g, p[i]))
    {
      var j: nat :| j < |code[p[i]]| && prediction[p[i]][j] == FMiss && MissAt(code, p, i, j);
      assert FMiss in prediction[p[i]];
      if i == 0 {
        NoneAtEntry(f, code, prediction, answers, p[0]);
      }
      if prog.Header(p[i]) {
        var q := LoopOfBlockIs(prog, limits, f, code, prediction, answers, p[i]);
        MissFromMainPred(f, code, prediction, p, i);
      }
    }
  }

  /** The first misses of every block are within its row. */
  ghost predicate RowsFit(prog: Program, limits: seq<Limit>, f: Facts, code: seq<seq<Bundle>>, prediction: seq<seq<Prediction>>,
                          answers: (nat, nat) -> Answers)
    requires Analysed(prog, limits, f, code, prediction, answers)
  {
    forall b | b in f.g.blocks && prog.firstMiss[b] :: exists q: nat ::
      && q < |f.table.loops| && ChainOk(f.g, Renumbered(f.table.loops), q) && RowAllows(prog, limits, b, q)
      && b in f.table.loops[q].nodes && Steady(f, code, prediction, b, f.table.loops[q].nodes)
  }

  /** With the real first misses, the maximum of the integer program covers the cost of every run within the bounds of its
      loops and blocks. */
  lemma MaximumCoversCache(prog: Program, limits: seq<Limit>, f: Facts, code: seq<seq<Bundle>>, prediction: seq<seq<Prediction>>,
                           answers: (nat, nat) -> Answers, p: seq<nat>, missed: seq<bool>, all: seq<Var>, wcet: int)
    requires Analysed(prog, limits, f, code, prediction, answers) && HeadersSteady(f, code, prediction, answers)
    requires RowsFit(prog, limits, f, code, prediction, answers)
    requires IpetSound.IsRun(prog, p, missed) && f.g.pred[p[0]] == []
    requires BoundedRun(f.g, Renumbered(f.table.loops), limits, p)
    requires forall b | b in f.g.blocks && !Isolated(f.g, b) && b != p[0] :: Visits(p, |p|, b) <= prog.bounds[b].realX
    requires forall b | b in f.g.blocks && prog.Header(b) :: IpetSound.ExactlyBound(prog, b, p)
    requires all == AllVars(prog, prog.g.blocks) && IpetSound.IsUpperBound(prog, all, wcet)
    ensures IpetSound.IsRun(prog, p, Flags(f, code, prediction, p))
    ensures IpetSound.RunCost(prog, p, Flags(f, code, prediction, p), |p|) <= wcet
  {
    CacheRunIsRun(prog, limits, f, code, prediction, answers, p, missed);
    forall b | b in f.g.blocks && prog.firstMiss[b]
      ensures FirstMissCount(f, code, prediction, p, b) <= IpetSound.MissLimit(prog, b)
    {
      var q: nat :| q < |f.table.loops| && ChainOk(f.g, Renumbered(f.table.loops), q) && RowAllows(prog, limits, b, q) &&
                    b in f.table.loops[q].nodes && Steady(f, code, prediction, b, f.table.loops[q].nodes);
      LimitKept(prog, limits, f, code, prediction, answers, p, b, q);
    }
    IpetSound.MaximumCovers(prog, all, wcet, p, Flags(f, code, prediction, p));
  }
}
