/** Inputs on which the cache analysis says more than is true. */
module CacheCounterexamples {
  import opened Graphs
  import opened Loops
  import opened Options
  import opened CacheState
  import opened MayStates
  import opened MustSearch
  import opened CacheRuns
  import opened Classification
  import opened FirstMisses
  import opened AlwaysHits
  import opened CacheAnalysis

  /** Entry 0, header 1, and two alternative bodies 2 and 3. */
  function TwoBodies(): Graph {
    Graph([0, 1, 2, 3], 0, [[1], [2, 3], [1], [1]], [[], [0, 2, 3], [1], [1]])
  }

  function OneLoop(): LoopTable {
    LoopTable([UNDEF, 0, 0, 0], [Loop(0, 1, UNDEF, [1, 2, 3])])
  }

  /** The header and body 2 share line 0 with different tags; body 3 and the entry use other lines. */
  function SharedLine(): seq<seq<Bundle>> {
    [[Bundle(16, 1)], [Bundle(0, 1)], [Bundle(256, 1)], [Bundle(8, 1)]]
  }

  lemma TwoBodiesEdges(a: nat, b: nat)
    ensures var g := TwoBodies();
            && (g.Edge(a, b) <==> (a == 0 && b == 1) || (a == 1 && b in {2, 3}) || (a in {2, 3} && b == 1))
            && (b < |g.pred| && a in g.pred[b] <==> (a == 0 && b == 1) || (a == 1 && b in {2, 3}) || (a in {2, 3} && b == 1))
  {
    var g := TwoBodies();
    if a < 4 {
      assert g.succ[a] == if a == 0 then [1] else if a == 1 then [2, 3] else [1];
    }
    if b < 4 {
      assert g.pred[b] == if b == 0 then [] else if b == 1 then [0, 2, 3] else [1];
    }
  }

  lemma TwoBodiesIsValid()
    ensures TwoBodies().Valid()
  {
    var g := TwoBodies();
    forall a: nat, b: nat
      ensures g.Edge(a, b) <==> b < |g.pred| && a in g.pred[b]
      ensures g.Edge(a, b) ==> a in g.blocks && b in g.blocks
    {
      TwoBodiesEdges(a, b);
    }
    ListsAgree(g);
  }

  lemma OneLoopIsValid()
    ensures TwoBodies().Valid() && OneLoop().Valid(TwoBodies()) && OneLoop().IsHeader(1)
  {
    TwoBodiesIsValid();
    assert OneLoop().loops[0].id == 0;
    assert OneLoop().Has(0);
  }

  /** A round through all blocks of a loop connects them. */
  lemma RoundConnects(g: Graph, nodes: seq<nat>, way: seq<nat>)
    requires g.SuccValid() && g.IsPath(way) && g.Edge(Last(way), way[0])
    requires forall b | b in way :: b in nodes
    requires forall b | b in nodes :: b in way
    ensures Connected(g, nodes)
  {
    forall a, b | a in nodes && b in nodes
      ensures ReachesInside(g, nodes, a, b)
    {
      var i :| 0 <= i < |way| && way[i] == a;
      var k :| 0 <= k < |way| && way[k] == b;
      GoRound(g, nodes, way, i, k);
    }
  }

  /** From position `i` to the end of the round and on from its start to position `k`. */
  lemma GoRound(g: Graph, nodes: seq<nat>, way: seq<nat>, i: nat, k: nat)
    requires g.SuccValid() && g.IsPath(way) && g.Edge(Last(way), way[0]) && i < |way| && k < |way|
    requires forall b | b in way :: b in nodes
    ensures ReachesInside(g, nodes, way[i], way[k])
  {
    var p := way[i..] + way[..k + 1];
    forall x | 0 <= x < |p|
      ensures p[x] in way
    {
    }
    forall x | 0 <= x < |p| - 1
      ensures g.Edge(p[x], p[x + 1])
    {
      if x < |way| - i - 1 {
        assert p[x] == way[i + x] && p[x + 1] == way[i + x + 1];
      } else if x == |way| - i - 1 {
        assert p[x] == Last(way) && p[x + 1] == way[0];
      } else {
        var y := x - (|way| - i);
        assert p[x] == way[y] && p[x + 1] == way[y + 1];
      }
    }
    assert g.IsPathBetween(p, way[i], way[k]) && Inside(p, 0, |p| - 1, nodes);
  }

  lemma TwoBodiesIsNatural()
    ensures NaturalLoop(TwoBodies(), OneLoop().loops[0])
  {
    var g, nodes := TwoBodies(), [1, 2, 3];
    TwoBodiesIsValid();
    TwoBodiesEdges(2, 1);
    TwoBodiesEdges(1, 3);
    TwoBodiesEdges(3, 1);
    TwoBodiesEdges(1, 2);
    var way := [2, 1, 3, 1];
    assert way[0] == 2 && way[1] == 1 && way[2] == 3;
    RoundConnects(g, nodes, way);
    forall a: nat, b: nat | g.Edge(a, b) && b in nodes && a !in nodes
      ensures b == 1
    {
      TwoBodiesEdges(a, b);
    }
  }

  lemma SharedLineReferences(refs: States)
    requires RefsOf(TwoBodies(), SharedLine(), refs)
    ensures refs[1][0] == {0} && refs[2][0] == {1} && refs[3][0] == {} && refs[0][0] == {}
  {
    var code: seq<seq<Bundle>> := SharedLine();
    assert code[1][0].Line() == 0 && code[1][0].Tag() == 0;
    assert code[2][0].Line() == 0 && code[2][0].Tag() == 1;
    assert code[3][0].Line() == 1 && code[0][0].Line() == 2;
    OneReference(code[1], 0);
    OneReference(code[2], 0);
  }

  lemma BothTagsReach(f: Facts)
    requires f.g == TwoBodies() && f.table == OneLoop() && f.Correct(SharedLine())
    ensures 1 in f.rmb[2][0] && 0 in f.inputRmb[1][0] && |f.refs[1][0]| == 1
  {
    SharedLineReferences(f.refs);
    TagsAtTheBackEdges(f.refs);
    assert f.g.pred[1][2] == 3;
    assert 0 in f.rmb[3][0] && 1 in f.rmb[2][0];
    assert 0 in Inflow(f.rmb, f.g.pred[1], 0);
  }

  lemma TagsAtTheBackEdges(refs: States)
    requires TwoBodies().Valid() && |refs| == 4
    requires refs[1][0] == {0} && refs[2][0] == {1} && refs[3][0] == {}
    ensures May(TwoBodies(), refs, 3, 0, 0) && May(TwoBodies(), refs, 2, 0, 1)
  {
    TwoBodiesEdges(1, 3);
    assert MayVia(TwoBodies(), refs, 3, 0, 0, [1, 3]);
    assert MayVia(TwoBodies(), refs, 2, 0, 1, [2]);
  }

  lemma SharedLineIsWellFormed()
    ensures WellFormedCode(SharedLine())
  {
  }

  lemma HeaderIsFirstMiss(f: Facts, answers: Answers)
    requires f.g == TwoBodies() && f.table == OneLoop() && f.Correct(SharedLine())
    requires 0 in f.inputRmb[1][0] && |f.refs[1][0]| == 1 && WellFormedCode(SharedLine())
    ensures f.Decide(SharedLine()[1], 1, 0, answers) == Decision(FMiss, true)
  {
    OneLoopIsValid();
    assert f.table.Get(0) == f.table.loops[0];
    var u := SharedLine()[1][0];
    assert u == Bundle(0, 1) && u.Tag() == 0 && u.Line() == 0 && u.BlkOffset() == 0;
    HeaderIsNeverConflict(f, SharedLine(), 1, 0, answers);
  }

  lemma HeaderMissesTwice(f: Facts)
    requires f.g == TwoBodies() && f.Correct(SharedLine())
    requires 1 in f.rmb[2][0] && WellFormedCode(SharedLine()) && NaturalLoop(f.g, OneLoop().loops[0])
    ensures !MissesOncePerStay(f.g, SharedLine(), 1, 0, [1, 2, 3])
  {
    TwoBodiesEdges(0, 1);
    TwoBodiesEdges(2, 1);
    assert f.g.IsPath([0, 1]);
    assert 1 in f.refs[2][0] by { SharedLineReferences(f.refs); }
    ForeignTagMissesTwice(f, SharedLine(), 1, 0, [1, 2, 3], [0, 1], 1, [2]);
  }

  /** The header is predicted as a first miss, yet it can miss in every iteration of one stay in the loop. */
  lemma HeaderFirstMissCanFail(f: Facts, answers: Answers)
    requires f.g == TwoBodies() && f.table == OneLoop() && f.Correct(SharedLine())
    ensures f.Decide(SharedLine()[1], 1, 0, answers) == Decision(FMiss, true)
    ensures !MissesOncePerStay(f.g, SharedLine(), 1, 0, [1, 2, 3])
  {
    TwoBodiesIsNatural();
    SharedLineIsWellFormed();
    BothTagsReach(f);
    HeaderIsFirstMiss(f, answers);
    HeaderMissesTwice(f);
  }

  // ---------------------------------------------------------------- an always-hit that misses

  /** Entry 0, header 1 with body 2, and block 3 behind the loop. */
  function LoopThenExit(): Graph {
    Graph([0, 1, 2, 3], 0, [[1], [2, 3], [1], []], [[], [0, 2], [1], [1]])
  }

  function SmallLoop(): LoopTable {
    LoopTable([UNDEF, 0, 0, UNDEF], [Loop(0, 1, UNDEF, [1, 2])])
  }

  /** The body and the last block use the same tag of line 0, entry and header other lines. */
  function SharedTag(): seq<seq<Bundle>> {
    [[Bundle(16, 1)], [Bundle(8, 1)], [Bundle(0, 1)], [Bundle(4, 1)]]
  }

  lemma LoopThenExitEdges(a: nat, b: nat)
    ensures var g := LoopThenExit();
            && (g.Edge(a, b) <==> (a == 0 && b == 1) || (a == 1 && b in {2, 3}) || (a == 2 && b == 1))
            && (b < |g.pred| && a in g.pred[b] <==> (a == 0 && b == 1) || (a == 1 && b in {2, 3}) || (a == 2 && b == 1))
  {
    var g := LoopThenExit();
    if a < 4 {
      assert g.succ[a] == if a == 0 then [1] else if a == 1 then [2, 3] else if a == 2 then [1] else [];
    }
    if b < 4 {
      assert g.pred[b] == if b == 0 then [] else if b == 1 then [0, 2] else [1];
    }
  }

  lemma SmallLoopIsValid()
    ensures LoopThenExit().Valid() && SmallLoop().Valid(LoopThenExit()) && SmallLoop().HeadersEntered(LoopThenExit())
    ensures SmallLoop().IsHeader(1) && !SmallLoop().IsHeader(3)
    ensures forall q | q in SmallLoop().InLoopPreds(LoopThenExit(), 1) :: q == 2
  {
    var g, table := LoopThenExit(), SmallLoop();
    forall a: nat, b: nat
      ensures g.Edge(a, b) <==> b < |g.pred| && a in g.pred[b]
      ensures g.Edge(a, b) ==> a in g.blocks && b in g.blocks
    {
      LoopThenExitEdges(a, b);
    }
    ListsAgree(g);
    assert table.loops[0].id == 0;
    assert table.Has(0) && table.Get(0) == table.loops[0];
    WithoutMembers(g.pred[1], [1, 2]);
    assert g.pred[1] == [0, 2];
    assert 0 in table.OutsidePreds(g, 1);
    assert 0 == table.MainPred(g, 1);
    assert 2 in table.InLoopPreds(g, 1);
    forall b | b in g.blocks && table.IsHeader(b)
      ensures b == 1
    {
    }
  }

  lemma SharedTagReferences(refs: States)
    requires RefsOf(LoopThenExit(), SharedTag(), refs)
    ensures refs[0][0] == {} && refs[1][0] == {} && refs[2][0] == {0} && refs[3][0] == {0}
  {
    var code: seq<seq<Bundle>> := SharedTag();
    assert code[2][0].Line() == 0 && code[2][0].Tag() == 0;
    assert code[3][0].Line() == 0 && code[3][0].Tag() == 0;
    assert code[1][0].Line() == 1 && code[0][0].Line() == 2;
    OneReference(code[2], 0);
    OneReference(code[3], 0);
  }

  /** Tag 0 is all that reaches the header and the last block, and every round of the loop accesses it. */
  lemma HeaderIsClaimed(f: Facts)
    requires f.g == LoopThenExit() && f.table == SmallLoop() && f.Correct(SharedTag())
    ensures f.must[1][0] == {0} && f.inputRmb[3][0] == {0}
  {
    SmallLoopIsValid();
    SharedTagReferences(f.refs);
    LoopThenExitEdges(2, 1);
    assert MayVia(f.g, f.refs, 1, 0, 0, [2, 1]);
    forall t | t in f.rmb[1][0]
      ensures t == 0
    {
      var p :| MayVia(f.g, f.refs, 1, 0, t, p);
      assert p[0] in f.g.blocks;
    }
    assert f.rmb[1][0] == {0};
    assert f.inputRmb[3][0] == Inflow(f.rmb, f.g.pred[3], 0);
    assert f.g.pred[3] == [1];
    RoundsAccess(f.refs);
  }

  lemma RoundsAccess(refs: States)
    requires |refs| == 4 && 0 in refs[2][0]
    requires LoopThenExit().Valid() && SmallLoop().Valid(LoopThenExit()) && SmallLoop().HeadersEntered(LoopThenExit())
    requires SmallLoop().IsHeader(1) && forall q | q in SmallLoop().InLoopPreds(LoopThenExit(), 1) :: q == 2
    ensures Sure(LoopThenExit(), SmallLoop(), refs, 1, 0, 0)
  {
    var g, table := LoopThenExit(), SmallLoop();
    forall w
      ensures !DodgesVia(g, table, refs, 2, 0, 0, w)
    {
      assert w != [] ==> Last(w) == w[|w| - 1];
    }
    assert !BodyDodges(g, table, refs, 1, 0, 0);
    forall p
      ensures !SlipsVia(g, table, refs, 1, 0, 0, p)
    {
      assert p != [] ==> Last(p) == p[|p| - 1];
    }
  }

  /** Whatever results the analysis ends with, the last block is predicted to hit; on the run that leaves the loop at once
      it misses. */
  lemma AlwaysHitCanMiss(f: Facts, answers: Answers)
    requires f.g == LoopThenExit() && f.table == SmallLoop() && f.Correct(SharedTag())
    ensures f.Decide(SharedTag()[3], 3, 0, answers) == Decision(AHit, false)
    ensures f.g.IsPath([0, 1, 3]) && MissAt(SharedTag(), [0, 1, 3], 2, 0)
  {
    HeaderIsClaimed(f);
    SmallLoopIsValid();
    assert SharedTag()[3][0].Line() == 0 && SharedTag()[3][0].Tag() == 0;
    assert f.g.pred[3] == [1];
    assert f.MustInPreds(3, 0, 0);
    OneReference(SharedTag()[3], 0);
    ExitMisses(f);
  }

  lemma ExitMisses(f: Facts)
    requires f.g == LoopThenExit() && f.table == SmallLoop() && f.Correct(SharedTag())
    ensures f.g.IsPath([0, 1, 3]) && MissAt(SharedTag(), [0, 1, 3], 2, 0)
  {
    SharedTagReferences(f.refs);
    LoopThenExitEdges(0, 1);
    LoopThenExitEdges(1, 3);
    assert SharedTag()[3][0].Line() == 0 && SharedTag()[3][0].Tag() == 0;
    assert AvoidsVia(f.g, f.refs, 1, 0, 0, [0, 1]);
    AvoidedMisses(f, SharedTag(), 3, 0, [0, 1]);
    assert [0, 1] + [3] == [0, 1, 3];
  }

  /** End to end: the analysis itself, given this graph, ends with a hit for the bundle of the last block. */
  method AnalyseLoopThenExit(answers: (nat, nat) -> Answers) returns (analysis: Analysis, ok: bool)
    ensures analysis.g == LoopThenExit() && analysis.code == SharedTag() && analysis.g.Valid()
    ensures ok && |analysis.prediction| == 4 && analysis.prediction[3] == [AHit]
    ensures analysis.g.IsPath([0, 1, 3]) && MissAt(SharedTag(), [0, 1, 3], 2, 0)
  {
    SmallLoopIsValid();
    analysis := new Analysis(LoopThenExit(), SmallLoop(), SharedTag());
    ghost var rank := [0, 1, 2, 2];
    SearchTerminates(rank);
    ok := analysis.Analize(answers, rank);
    NoneEnteredAside();
    LastIsHit(analysis.Results(), answers, analysis.prediction[3], analysis.aMisses[3], analysis.fMisses[3], analysis.conflicts[3]);
  }

  lemma LastIsHit(f: Facts, answers: (nat, nat) -> Answers, pr: seq<Prediction>, am: seq<nat>, fm: seq<nat>, cf: seq<nat>)
    requires f.g == LoopThenExit() && f.table == SmallLoop() && f.Correct(SharedTag())
    requires BlockClassified(f, SharedTag()[3], 3, answers, pr, am, fm, cf)
    ensures pr == [AHit] && f.g.IsPath([0, 1, 3]) && MissAt(SharedTag(), [0, 1, 3], 2, 0)
  {
    AlwaysHitCanMiss(f, answers(3, 0));
  }

  lemma SearchTerminates(rank: seq<nat>)
    requires rank == [0, 1, 2, 2] && LoopThenExit().Valid() && SmallLoop().Valid(LoopThenExit())
    requires SmallLoop().HeadersEntered(LoopThenExit()) && SmallLoop().IsHeader(1)
    requires forall q | q in SmallLoop().InLoopPreds(LoopThenExit(), 1) :: q == 2
    ensures Searchable(LoopThenExit(), SmallLoop(), rank)
  {
    var g, table := LoopThenExit(), SmallLoop();
    assert table.Get(0) == table.loops[0];
    assert table.MainPred(g, 1) !in [1, 2];
    forall b, a: nat | b in g.blocks && a in g.pred[b] && a != b && (table.IsHeader(b) ==> a == table.MainPred(g, b))
      ensures rank[a] < rank[b]
    {
      LoopThenExitEdges(a, b);
      assert g.Edge(a, b);
    }
  }

  lemma NoneEnteredAside()
    requires LoopThenExit().Valid() && SmallLoop().Valid(LoopThenExit())
    ensures forall b | b in LoopThenExit().blocks :: !EnteredAside(LoopThenExit(), SmallLoop(), b)
  {
    var g := LoopThenExit();
    forall b | b in g.blocks
      ensures !EnteredAside(g, SmallLoop(), b)
    {
      if b == 1 {
        assert g.pred[1] == [0, 2];
      } else if b == 2 {
        assert g.pred[2] == [1];
      }
    }
  }

  // ---------------------------------------------------------------- a first miss behind an inner loop

  /** Outer loop 1, 2, 3, 4 with the inner loop 2, 3; block 4 follows the inner loop. */
  function InnerThenTail(): Graph {
    Graph([0, 1, 2, 3, 4], 0, [[1], [2], [3, 4], [2], [1]], [[], [0, 4], [1, 3], [2], [2]])
  }

  function TwoLoops(): LoopTable {
    LoopTable([UNDEF, 0, 1, 1, 0], [Loop(0, 1, UNDEF, [1, 2, 3, 4]), Loop(1, 2, 0, [2, 3])])
  }

  /** The inner body and the tail use line 0 with different tags, the other blocks other lines. */
  function InnerConflict(): seq<seq<Bundle>> {
    [[Bundle(16, 1)], [Bundle(8, 1)], [Bundle(24, 1)], [Bundle(256, 1)], [Bundle(0, 1)]]
  }

  lemma InnerThenTailEdges(a: nat, b: nat)
    ensures var g := InnerThenTail();
            && (g.Edge(a, b) <==> (a, b) in {(0, 1), (1, 2), (2, 3), (2, 4), (3, 2), (4, 1)})
            && (b < |g.pred| && a in g.pred[b] <==> (a, b) in {(0, 1), (1, 2), (2, 3), (2, 4), (3, 2), (4, 1)})
  {
    var g := InnerThenTail();
    if a < 5 {
      assert g.succ[a] == if a == 0 then [1] else if a == 1 then [2] else if a == 2 then [3, 4] else if a == 3 then [2] else [1];
    }
    if b < 5 {
      assert g.pred[b] == if b == 0 then [] else if b == 1 then [0, 4] else if b == 2 then [1, 3] else [2];
    }
  }

  lemma InnerConflictReferences(refs: States)
    requires RefsOf(InnerThenTail(), InnerConflict(), refs)
    ensures refs[1][0] == {} && refs[2][0] == {} && refs[3][0] == {1} && refs[4][0] == {0}
  {
    var code: seq<seq<Bundle>> := InnerConflict();
    assert code[3][0].Line() == 0 && code[3][0].Tag() == 1;
    assert code[4][0].Line() == 0 && code[4][0].Tag() == 0;
    assert code[1][0].Line() == 1 && code[2][0].Line() == 3;
    OneReference(code[3], 0);
    OneReference(code[4], 0);
  }

  lemma OuterIsConnected()
    requires InnerThenTail().Valid()
    ensures Connected(InnerThenTail(), [1, 2, 3, 4])
  {
    var g := InnerThenTail();
    InnerThenTailEdges(1, 2);
    InnerThenTailEdges(2, 3);
    InnerThenTailEdges(3, 2);
    InnerThenTailEdges(2, 4);
    InnerThenTailEdges(4, 1);
    var way := [1, 2, 3, 2, 4];
    assert way[0] == 1 && way[1] == 2 && way[2] == 3 && way[4] == 4;
    RoundConnects(g, [1, 2, 3, 4], way);
  }

  lemma TailReceivesBoth(f: Facts)
    requires f.g == InnerThenTail() && f.Correct(InnerConflict())
    ensures f.inputRmb[4][0] == f.rmb[2][0] && 0 in f.rmb[2][0] && 1 in f.rmb[2][0]
    ensures Carries(f.g, f.refs, 4, [1, 2, 3, 4], 0, 1, [3, 2])
  {
    InnerConflictReferences(f.refs);
    BothComeToInnerHeader(f.refs);
    assert May(f.g, f.refs, 2, 0, 1) && May(f.g, f.refs, 2, 0, 0);
    assert f.g.pred[4] == [2];
    assert f.inputRmb[4][0] == Inflow(f.rmb, [2], 0);
  }

  lemma BothComeToInnerHeader(refs: States)
    requires |refs| == 5 && InnerThenTail().Valid()
    requires refs[1][0] == {} && refs[2][0] == {} && refs[3][0] == {1} && refs[4][0] == {0}
    ensures MayVia(InnerThenTail(), refs, 2, 0, 1, [3, 2]) && MayVia(InnerThenTail(), refs, 2, 0, 0, [4, 1, 2])
    ensures Carries(InnerThenTail(), refs, 4, [1, 2, 3, 4], 0, 1, [3, 2])
  {
    InnerThenTailEdges(3, 2);
    InnerThenTailEdges(4, 1);
    InnerThenTailEdges(1, 2);
    InnerThenTailEdges(2, 4);
  }

  lemma TwoMembers<T>(s: set<T>, x: T, y: T)
    requires x in s && y in s && x != y
    ensures |s| > 1
  {
    if |s| <= 1 {
      assert |s| == 1;
      SingletonIsAll(s, x);
    }
  }

  /** The block behind the inner loop is predicted as a first miss, yet it can miss in every iteration of the outer. */
  lemma FirstMissAfterInnerLoopCanFail(f: Facts, answers: Answers)
    requires f.g == InnerThenTail() && f.table == TwoLoops() && f.Correct(InnerConflict())
    ensures f.Decide(InnerConflict()[4], 4, 0, answers) == Decision(FMiss, true)
    ensures !MissesOncePerStay(f.g, InnerConflict(), 4, 0, [1, 2, 3, 4])
  {
    TailReceivesBoth(f);
    TailFollowsInner(f);
    TwoMembers(f.inputRmb[4][0], 0, 1);
    AfterInnerLoop(f, InnerConflict(), 4, 0, answers);
    OuterIsConnected();
    WayToTail();
    ForeignTagMissesTwice(f, InnerConflict(), 4, 0, [1, 2, 3, 4], [0, 1, 2, 4], 1, [3, 2]);
  }

  lemma WayToTail()
    ensures InnerThenTail().IsPath([0, 1, 2, 4]) && InnerThenTail().pred[0] == []
  {
    InnerThenTailEdges(0, 1);
    InnerThenTailEdges(1, 2);
    InnerThenTailEdges(2, 4);
  }

  lemma TailFollowsInner(f: Facts)
    requires f.g == InnerThenTail() && f.table == TwoLoops() && f.Valid()
    ensures FollowsInnerLoop(f.g, f.table, 4) && f.table.loopId[f.g.pred[4][0]] != f.table.loopId[4]
    ensures WellFormedCode(InnerConflict()) && InnerConflict()[4][0].Line() == 0 && InnerConflict()[4][0].Tag() == 0
  {
    var table := f.table;
    assert table.loops[0].id == 0 && table.loops[1].id == 1;
    assert table.Has(0) && table.Has(1);
    assert table.Get(0) == table.loops[0];
    assert FirstWithId(table.loops, 1) == FirstWithId(table.loops[1..], 1) == table.loops[1];
    assert f.g.pred[4] == [2];
  }
}
