/** A program on which a nested header has more first misses than the integer program allows it. */
module NestedHeaderLimit {
  import opened Graphs
  import opened Loops
  import opened Options
  import opened CacheState
  import opened MayStates
  import opened MustSearch
  import opened CacheRuns
  import opened Classification
  import opened FirstMisses
  import opened AlwaysHits
  import opened LoopStays
  import opened LoopBounds
  import opened FirstMissLimits
  import IpetSound
  import LoopExact

  /** Outer loop 1, 2, 3, 4 with the inner loop 2, 3; only the outer header leads out. */
  function Nest(): Graph {
    Graph([0, 1, 2, 3, 4, 5], 0, [[1], [2, 5], [3, 4], [2], [1], []], [[], [0, 4], [1, 3], [2], [2], [1]])
  }

  function NestTable(): LoopTable {
    LoopTable([UNDEF, 0, 1, 1, 0, UNDEF], [Loop(0, 1, UNDEF, [1, 2, 3, 4]), Loop(1, 2, 0, [2, 3])])
  }

  /** The inner header and the block behind the inner loop share line 0 with different tags. */
  function NestCode(): seq<seq<Bundle>> {
    [[Bundle(24, 1)], [Bundle(8, 1)], [Bundle(0, 1)], [Bundle(16, 1)], [Bundle(256, 1)], [Bundle(32, 1)]]
  }

  /** Two rounds of the outer loop. */
  function TwoRounds(): seq<nat> {
    [0, 1, 2, 4, 1, 2, 4, 1, 5]
  }

  lemma NestEdges(a: nat, b: nat)
    ensures Nest().Edge(a, b) <==>
            (a in {0, 4} && b == 1) || (a == 1 && b in {2, 5}) || (a == 2 && b in {3, 4}) || (a == 3 && b == 2)
  {
    if a < 6 {
      assert Nest().succ[a] == if a in {0, 4} then [1] else if a == 1 then [2, 5] else if a == 2 then [3, 4] else if a == 3 then [2] else [];
    }
  }

  lemma TwoRoundsIsPath()
    ensures Nest().IsPath(TwoRounds()) && Nest().pred[TwoRounds()[0]] == []
  {
    NestEdges(0, 1);
    NestEdges(1, 2);
    NestEdges(2, 4);
    NestEdges(4, 1);
    NestEdges(1, 5);
  }

  lemma NestReferences(refs: States)
    requires RefsOf(Nest(), NestCode(), refs)
    ensures refs[0][0] == {} && refs[1][0] == {} && refs[2][0] == {0} && refs[3][0] == {} && refs[4][0] == {1} && refs[5][0] == {}
  {
    var code: seq<seq<Bundle>> := NestCode();
    assert code[2][0].Line() == 0 && code[2][0].Tag() == 0 && code[4][0].Line() == 0 && code[4][0].Tag() == 1;
    assert code[0][0].Line() == 3 && code[1][0].Line() == 1 && code[3][0].Line() == 2 && code[5][0].Line() == 4;
    OneReference(code[2], 0);
    OneReference(code[4], 0);
  }

  lemma NestIsWellFormed()
    ensures WellFormedCode(NestCode()) && NestCode()[2] == [Bundle(0, 1)]
    ensures Bundle(0, 1).Line() == 0 && Bundle(0, 1).Tag() == 0 && Bundle(0, 1).BlkOffset() == 0
  {
  }

  lemma InnerIsHeader(f: Facts)
    requires f.g == Nest() && f.table == NestTable() && f.Correct(NestCode())
    ensures f.table.IsHeader(2) && f.table.Get(f.table.loopId[2]) == f.table.loops[1] && f.table.MainPred(f.g, 2) == 1
  {
    var table := f.table;
    assert table.loops[0].id == 0 && table.loops[1].id == 1;
    assert table.Has(1);
    assert FirstWithId(table.loops, 1) == FirstWithId(table.loops[1..], 1) == table.loops[1];
    assert f.g.pred[2] == [1, 3];
  }

  /** The inner header's own tag comes round inside its loop. */
  lemma OwnTagArrives(f: Facts)
    requires f.g == Nest() && f.Correct(NestCode())
    ensures 0 in f.inputRmb[2][0]
  {
    NestReferences(f.refs);
    OwnTagAround(f.refs);
    assert f.g.pred[2][1] == 3;
    assert 0 in f.rmb[3][0];
    assert 0 in Inflow(f.rmb, f.g.pred[2], 0);
  }

  lemma OwnTagAround(refs: States)
    requires Nest().Valid() && |refs| == 6 && refs[2][0] == {0} && refs[3][0] == {}
    ensures May(Nest(), refs, 3, 0, 0)
  {
    NestEdges(2, 3);
    assert MayVia(Nest(), refs, 3, 0, 0, [2, 3]);
  }

  /** Inside its own loop nothing foreign can come to it, inside the outer loop it can. */
  lemma ForeignOutsideOnly(f: Facts)
    requires f.g == Nest() && f.Correct(NestCode())
    ensures !ForeignInside(f.g, f.refs, 2, [2, 3], 0, 0) && ForeignInside(f.g, f.refs, 2, [1, 2, 3, 4], 0, 0)
  {
    NestReferences(f.refs);
    ForeignAround(f.refs);
    NothingForeignInside(f.refs);
  }

  lemma ForeignAround(refs: States)
    requires Nest().Valid() && |refs| == 6 && refs[1][0] == {} && refs[4][0] == {1}
    ensures Carries(Nest(), refs, 2, [1, 2, 3, 4], 0, 1, [4, 1])
  {
    NestEdges(4, 1);
    NestEdges(1, 2);
  }

  lemma NothingForeignInside(refs: States)
    requires Nest().Valid() && |refs| == 6 && refs[2][0] == {0} && refs[3][0] == {}
    ensures !ForeignInside(Nest(), refs, 2, [2, 3], 0, 0)
  {
    forall u, w | Carries(Nest(), refs, 2, [2, 3], 0, u, w)
      ensures u == 0
    {
      assert w[0] in [2, 3];
    }
  }

  /** Before the first round nothing has used the line. */
  lemma MissesInFirstRound(f: Facts)
    requires f.g == Nest() && f.Correct(NestCode()) && Nest().IsPath(TwoRounds()) && WellFormedCode(NestCode())
    requires NestCode()[2] == [Bundle(0, 1)] && Bundle(0, 1).Line() == 0 && Bundle(0, 1).Tag() == 0 && Bundle(0, 1).BlkOffset() == 0
    requires f.refs[0][0] == {} && f.refs[1][0] == {}
    ensures MissAt(NestCode(), TwoRounds(), 2, 0)
  {
    var code, p, q := NestCode(), TwoRounds(), [0, 1];
    DecidedOnEntry(code, p, 2, 0);
    assert p[..2] == q;
    if RunPath(code, Cold(), q)[0] == Some(0) {
      HeldIsUsed(f.g, code, f.refs, q, 0, 0);
    }
  }

  /** Before the second one block 4 has left its tag. */
  lemma MissesInSecondRound(f: Facts)
    requires f.g == Nest() && f.Correct(NestCode()) && Nest().IsPath(TwoRounds()) && WellFormedCode(NestCode())
    requires NestCode()[2] == [Bundle(0, 1)] && Bundle(0, 1).Line() == 0 && Bundle(0, 1).Tag() == 0 && Bundle(0, 1).BlkOffset() == 0
    requires f.refs[4][0] == {1} && f.refs[1][0] == {}
    ensures MissAt(NestCode(), TwoRounds(), 5, 0)
  {
    TagOfTailStays(f);
    DecidedOnEntry(NestCode(), TwoRounds(), 5, 0);
  }

  lemma TagOfTailStays(f: Facts)
    requires f.g == Nest() && f.Correct(NestCode()) && Nest().IsPath(TwoRounds()) && WellFormedCode(NestCode())
    requires f.refs[4][0] == {1} && f.refs[1][0] == {}
    ensures RunPath(NestCode(), Cold(), TwoRounds()[..5])[0] == Some(1)
  {
    var p := TwoRounds();
    assert p[3] == 4 && p[4] == 1;
    ForeignTagSurvives(f, NestCode(), p, 3, 5, 0, 1);
  }

  lemma CountsBoth(f: Facts, prediction: seq<seq<Prediction>>)
    requires f.g == Nest() && Predicted(f, NestCode(), prediction, TwoRounds()) && prediction[2] == [FMiss]
    requires NestCode()[2] == [Bundle(0, 1)]
    requires MissAt(NestCode(), TwoRounds(), 2, 0) && MissAt(NestCode(), TwoRounds(), 5, 0)
    ensures FirstMissCount(f, NestCode(), prediction, TwoRounds(), 2) >= 2
  {
    var p, flags := TwoRounds(), Flags(f, NestCode(), prediction, TwoRounds());
    assert FirstMissAt(f, NestCode(), prediction, p, 2) && FirstMissAt(f, NestCode(), prediction, p, 5);
    TwoFlags(p, flags);
  }

  lemma TwoFlags(p: seq<nat>, flags: seq<bool>)
    requires p == TwoRounds() && |flags| == 9 && flags[2] && flags[5]
    ensures IpetSound.MissCount(p, flags, 9, 2) >= 2
  {
    MissCountGrows(p, flags, 3, 5, 2);
    MissCountGrows(p, flags, 6, 9, 2);
  }

  /** The run keeps bounds of two rounds and one, and enters the outer loop once. */
  lemma TwoRoundsIsBounded()
    ensures BoundKept(TwoRounds(), NestTable().loops[0], 2) && BoundKept(TwoRounds(), NestTable().loops[1], 1)
    ensures Entries(TwoRounds(), 9, [1, 2, 3, 4]) == 1
  {
    var p := TwoRounds();
    FewRuns(p, NestTable().loops[0], 2);
    FewRuns(p, NestTable().loops[1], 1);
    StaysInside(p[..2], p, 8, [1, 2, 3, 4]);
    assert Entries(p[..2], 1, [1, 2, 3, 4]) == 0;
  }

  lemma FewRuns(p: seq<nat>, loop: Loop, k: nat)
    requires p == TwoRounds() && ((loop.root == 1 && k == 2) || (loop.root == 2 && k == 1))
    ensures BoundKept(p, loop, k)
  {
    assert Visits(p, 4, loop.root) == 1;
    assert Visits(p, 7, loop.root) == 2;
    assert Visits(p, 9, loop.root) == k + 1;
    forall n: nat | n <= |p|
      ensures StayRuns(p, n, loop) <= k + 1
    {
      LoopExact.RunsAtMostVisits(p, n, loop);
      LoopExact.VisitsGrow(p, n, |p|, loop.root);
    }
  }

  /** The inner header is a first miss that keeps its promise inside its own loop, and its row allows as many misses as the
      outer loop is entered: one.  On a run that keeps the bounds of both loops it misses twice.  The search inside the loop
      has the answer no here, since it stops at block 1. */
  lemma NestedHeaderExceeds(f: Facts, prediction: seq<seq<Prediction>>, answers: (nat, nat) -> Answers, limits: seq<Limit>, x: Bounds)
    requires f.g == Nest() && f.table == NestTable() && f.Correct(NestCode()) && Classified(f, NestCode(), prediction, answers)
    requires !answers(2, 0).insideLoop
    requires |limits| == 2 && ParentsFirst(NestTable().loops) && BoundsAre(NestTable().loops, limits, 1, 0, x)
    ensures prediction[2] == [FMiss] && MissesOncePerStay(f.g, NestCode(), 2, 0, [2, 3])
    ensures f.table.MainPred(f.g, 2) == 1 && x.outerX == 1
    ensures f.g.IsPath(TwoRounds()) && f.g.pred[TwoRounds()[0]] == []
    ensures BoundKept(TwoRounds(), f.table.loops[0], 2) && BoundKept(TwoRounds(), f.table.loops[1], 1)
    ensures FirstMissCount(f, NestCode(), prediction, TwoRounds(), 2) > x.outerX
    ensures FirstMissCount(f, NestCode(), prediction, TwoRounds(), 2) > Entries(TwoRounds(), 9, f.table.loops[0].nodes)
  {
    NestIsWellFormed();
    TwoRoundsIsPath();
    InnerIsFirstMiss(f, answers(2, 0));
    OnlyPrediction(f, prediction, answers);
    OutermostRow(limits, x);
    RunIsPredicted(f, NestCode(), prediction, answers, TwoRounds());
    OncePerStayInside(f);
    MissesInBothRounds(f, prediction);
    TwoRoundsIsBounded();
  }

  lemma OnlyPrediction(f: Facts, prediction: seq<seq<Prediction>>, answers: (nat, nat) -> Answers)
    requires f.g == Nest() && f.Correct(NestCode()) && Classified(f, NestCode(), prediction, answers)
    requires NestCode()[2] == [Bundle(0, 1)] && f.Decide(NestCode()[2], 2, 0, answers(2, 0)) == Decision(FMiss, true)
    ensures prediction[2] == [FMiss]
  {
    assert 2 in f.g.blocks;
  }

  /** A loop that lies in no other is entered once. */
  lemma OutermostRow(limits: seq<Limit>, x: Bounds)
    requires |limits| == 2 && ParentsFirst(NestTable().loops) && BoundsAre(NestTable().loops, limits, 1, 0, x)
    ensures x.outerX == 1
  {
  }

  lemma OncePerStayInside(f: Facts)
    requires f.g == Nest() && f.Correct(NestCode()) && WellFormedCode(NestCode())
    requires NestCode()[2] == [Bundle(0, 1)] && Bundle(0, 1).Line() == 0 && Bundle(0, 1).Tag() == 0 && Bundle(0, 1).BlkOffset() == 0
    ensures MissesOncePerStay(f.g, NestCode(), 2, 0, [2, 3])
  {
    ForeignOutsideOnly(f);
    NothingForeignIsOnce(f, NestCode(), 2, 0, [2, 3]);
  }

  lemma MissesInBothRounds(f: Facts, prediction: seq<seq<Prediction>>)
    requires f.g == Nest() && f.Correct(NestCode()) && Nest().IsPath(TwoRounds()) && WellFormedCode(NestCode())
    requires NestCode()[2] == [Bundle(0, 1)] && Bundle(0, 1).Line() == 0 && Bundle(0, 1).Tag() == 0 && Bundle(0, 1).BlkOffset() == 0
    requires Predicted(f, NestCode(), prediction, TwoRounds()) && prediction[2] == [FMiss]
    ensures FirstMissCount(f, NestCode(), prediction, TwoRounds(), 2) >= 2
  {
    NestReferences(f.refs);
    MissesInFirstRound(f);
    MissesInSecondRound(f);
    CountsBoth(f, prediction);
  }

  lemma InnerIsFirstMiss(f: Facts, answers: Answers)
    requires f.g == Nest() && f.table == NestTable() && f.Correct(NestCode()) && !answers.insideLoop && WellFormedCode(NestCode())
    requires NestCode()[2] == [Bundle(0, 1)] && Bundle(0, 1).Line() == 0 && Bundle(0, 1).Tag() == 0 && Bundle(0, 1).BlkOffset() == 0
    ensures f.Decide(NestCode()[2], 2, 0, answers) == Decision(FMiss, true) && f.table.MainPred(f.g, 2) == 1
  {
    InnerIsHeader(f);
    OwnTagArrives(f);
    HeaderIsNeverConflict(f, NestCode(), 2, 0, answers);
  }
}
