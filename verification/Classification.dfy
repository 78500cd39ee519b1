/** `classify_instr`: how a bundle is predicted, and what the predictions promise about concrete runs. */
module Classification {
  import opened Graphs
  import opened Loops
  import opened Options
  import opened CacheState
  import opened MayStates
  import opened MustSearch
  import opened CacheRuns

  datatype Prediction = Unknown | AMiss | AHit | FMiss | Conflict

  /** A prediction, whether the bundle's index is listed with it, or a failed assertion of the source. */
  datatype Decision = Decision(prediction: Prediction, listed: bool) | Aborted

  /** The answers of the two in-loop searches that only choose between a hit and a first miss. */
  datatype Answers = Answers(falseHits: bool, insideLoop: bool)

  const CACHE_SIZE: nat := 256

  /** What the must state of one line holds: nothing but the single reaching tag, which is claimed when the block itself
      uses the line, and otherwise when the must search answers yes, as it does where it is sure and only where it
      accepts. */
  ghost predicate MustLineIsRight(g: Graph, table: LoopTable, refs: States, rmb: States, b: nat, line: nat, tags: set<Tag>)
    requires table.Valid(g) && table.HeadersEntered(g) && |refs| == |rmb| == |g.succ| && b in g.blocks && line < LINES
  {
    && (forall t | t in tags ::
          rmb[b][line] == {t} && (|refs[b][line]| == 1 || (refs[b][line] == {} && Accepted(g, table, refs, b, line, t))))
    && (forall t | rmb[b][line] == {t} && (|refs[b][line]| == 1 || (refs[b][line] == {} && Sure(g, table, refs, b, line, t))) ::
          t in tags)
  }

  /** On every graph the tags accessed on every way in are claimed, and without loops no others. */
  lemma MustClaims(g: Graph, table: LoopTable, refs: States, rmb: States, b: nat, line: nat, tags: set<Tag>, t: Tag)
    requires table.Valid(g) && table.HeadersEntered(g) && |refs| == |rmb| == |g.succ| && b in g.blocks && line < LINES
    requires MustLineIsRight(g, table, refs, rmb, b, line, tags)
    ensures Must(g, refs, rmb, b, line, t) ==> t in tags
    ensures LoopFree(g, table) && t in tags ==> Must(g, refs, rmb, b, line, t)
  {
    AlwaysIsSure(g, table, refs, b, line, t);
    if LoopFree(g, table) {
      LoopFreeAccepted(g, table, refs, b, line, t);
    }
  }

  /** The results of the fixpoints and of the must search, which the classification reads. */
  datatype Facts = Facts(g: Graph, table: LoopTable, refs: States, inputRmb: States, rmb: States, must: States) {

    ghost predicate Valid() {
      && g.Valid() && table.Valid(g)
      && |refs| == |inputRmb| == |rmb| == |must| == |g.succ|
    }

    /** `search_must_cset` */
    predicate MustInPreds(b: nat, t: Tag, line: nat)
      requires Valid() && b in g.blocks && line < LINES
    {
      forall i | 0 <= i < |g.pred[b]| :: t in must[g.pred[b][i]][line]
    }

    /** `predecessor_out_rmb_search_tag` */
    predicate ReachesFromPreds(b: nat, t: Tag, line: nat)
      requires Valid() && b in g.blocks && line < LINES
    {
      forall i | 0 <= i < |g.pred[b]| :: t in rmb[g.pred[b][i]][line]
    }

    /** `search_cache_conflicts`: some block of the loop uses the line without this tag. */
    predicate CacheConflicts(loop: Loop, t: Tag, line: nat)
      requires Valid() && line < LINES
    {
      exists i | 0 <= i < |loop.nodes| && loop.nodes[i] < |refs| ::
        t !in refs[loop.nodes[i]][line] && refs[loop.nodes[i]][line] != {}
    }

    function Decide(bundles: seq<Bundle>, b: nat, j: nat, answers: Answers): Decision
      requires Valid() && b in g.blocks && j < |bundles|
    {
      var u := bundles[j];
      var t, line := u.Tag(), u.Line();
      var first := u.BlkOffset() == 0 || j == 0;
      var outside := table.loopId[b] == UNDEF;
      var n, preds := |inputRmb[b][line]|, |g.pred[b]|;
      if |bundles| > CACHE_SIZE && |refs[b][line]| > 1 then
        if first then Decision(AMiss, true) else Decision(AHit, false)
      else if t !in inputRmb[b][line] then
        if first then Decision(AMiss, true) else Decision(AHit, false)
      else if !first then Decision(AHit, false)
      else if n >= 1 && preds > 1 && outside then Decision(Conflict, true)
      else if n > 1 && preds == 1 && outside then Decision(AMiss, true)
      else if n == 1 && preds == 1 && MustInPreds(b, t, line) && outside then Decision(AHit, false)
      else if table.IsHeader(b) then
        if t in must[b][line] && |must[b][line]| == 1 then
          if table.Get(table.loopId[b]).parent != UNDEF && answers.insideLoop then Decision(AHit, false)
          else Decision(FMiss, true)
        else Decision(Conflict, true)
      else if n > 1 && preds > 1 && !outside && !ReachesFromPreds(b, t, line) then Decision(Conflict, true)
      else if !outside && n == 1 && preds == 1 then
        if answers.falseHits && MustInPreds(b, t, line) then Decision(AHit, false) else Decision(FMiss, true)
      else if !outside && n == 1 && preds > 1 then
        if answers.falseHits && MustInPreds(b, t, line) then Decision(AHit, false) else Decision(FMiss, true)
      else if !outside && n > 1 && preds == 1 && table.loopId[g.pred[b][0]] != table.loopId[b] then
        if table.loopId[g.pred[b][0]] == UNDEF then Aborted
        else if table.loopId[b] == table.Get(table.loopId[g.pred[b][0]]).parent then
          // the source sets this always-miss without listing its index
          if answers.falseHits && MustInPreds(b, t, line) then Decision(AMiss, false) else Decision(FMiss, true)
        else Decision(AMiss, true)
      else if !outside && n > 1 && !CacheConflicts(table.Get(table.loopId[b]), t, line) then Decision(FMiss, true)
      else if !outside && n == 1 && ReachesFromPreds(b, t, line) && MustInPreds(b, t, line) then Decision(AHit, false)
      else Decision(AMiss, true)
    }

    /** What the fixpoints and the must search guarantee about the results. */
    ghost predicate Correct(code: seq<seq<Bundle>>) {
      && Valid() && RefsOf(g, code, refs) && Exact(g, refs, rmb)
      && (forall b: nat, line: nat | b in g.blocks && line < LINES ::
            inputRmb[b][line] == Inflow(rmb, g.pred[b], line))
      && table.HeadersEntered(g)
      && (forall b: nat, line: nat | b in g.blocks && line < LINES ::
            MustLineIsRight(g, table, refs, rmb, b, line, must[b][line]))
    }

    /** `conflict_timing` charges a penalty for bundle `u` on the edge from `a`. */
    predicate Charged(a: nat, u: Bundle)
      requires Valid() && a in g.blocks
    {
      var t, line := u.Tag(), u.Line();
      t !in rmb[a][line] || |rmb[a][line]| > 1 || t !in must[a][line]
    }
  }

  lemma OneReference(bundles: seq<Bundle>, j: nat)
    requires OneTagPerLine(bundles) && j < |bundles|
    ensures References(bundles, bundles[j].Line()) == {bundles[j].Tag()}
  {
    var u := bundles[j];
    forall t | t in References(bundles, u.Line())
      ensures t == u.Tag()
    {
      var i :| 0 <= i < |bundles| && bundles[i].Line() == u.Line() && bundles[i].Tag() == t;
    }
  }

  // ---------------------------------------------------------------- misses that the predictions foresee

  /** The must state of block `a` holds a tag that is not accessed on every way to it, as can happen behind headers. */
  ghost predicate FalseClaim(f: Facts, a: nat, line: nat, t: Tag)
    requires f.Valid() && a in f.g.blocks && line < LINES
  {
    t in f.must[a][line] && !AlwaysAccessed(f.g, f.refs, a, line, t)
  }

  ghost predicate ClaimsHold(f: Facts)
    requires f.Valid()
  {
    forall a: nat, line: nat, t: Tag | a in f.g.blocks && line < LINES :: !FalseClaim(f, a, line, t)
  }

  /** Without loops the must search makes no false claims. */
  lemma NoFalseClaims(f: Facts, code: seq<seq<Bundle>>)
    requires f.Correct(code) && LoopFree(f.g, f.table)
    ensures ClaimsHold(f)
  {
    forall a: nat, line: nat, t: Tag | a in f.g.blocks && line < LINES
      ensures !FalseClaim(f, a, line, t)
    {
      MustClaims(f.g, f.table, f.refs, f.rmb, a, line, f.must[a][line], t);
      if t in f.must[a][line] && f.refs[a][line] != {} {
        OwnTagAccessed(f, code, a, line, t);
      }
    }
  }

  lemma OwnTagAccessed(f: Facts, code: seq<seq<Bundle>>, a: nat, line: nat, t: Tag)
    requires f.Correct(code) && a in f.g.blocks && line < LINES && f.rmb[a][line] == {t} && f.refs[a][line] != {}
    ensures t in f.refs[a][line] && AlwaysAccessed(f.g, f.refs, a, line, t)
  {
    var u :| u in f.refs[a][line];
    MayOwn(f.g, f.refs, a, line, u);
    assert u in f.rmb[a][line];
  }

  /** No block in front of position `i` uses the line. */
  ghost predicate Untouched(f: Facts, p: seq<nat>, i: nat, line: nat)
    requires f.Valid() && i <= |p| && line < LINES && forall x | 0 <= x < |p| :: p[x] in f.g.blocks
  {
    forall x | 0 <= x < i :: f.refs[p[x]][line] == {}
  }

  /** A false claim about the predecessor deceives the run at position `i`: the line is still as cold as at the start. */
  ghost predicate Deceived(f: Facts, p: seq<nat>, i: nat, u: Bundle)
    requires f.Valid() && i < |p| && forall x | 0 <= x < |p| :: p[x] in f.g.blocks
  {
    0 < i && FalseClaim(f, p[i - 1], u.Line(), u.Tag()) && Untouched(f, p, i, u.Line())
  }

  /** What comes into a block whose must claims and reaching states name its tag alone. */
  lemma ClaimedEdge(f: Facts, code: seq<seq<Bundle>>, p: seq<nat>, i: nat, j: nat)
    requires f.Correct(code) && WellFormedCode(code)
    requires f.g.IsPath(p) && f.g.pred[p[0]] == [] && 0 < i < |p| && j < |code[p[i]]|
    requires code[p[i]][j].Tag() in f.must[p[i - 1]][code[p[i]][j].Line()]
    ensures MissAt(code, p, i, j) ==> Deceived(f, p, i, code[p[i]][j])
  {
    var g, u, q := f.g, code[p[i]][j], p[..i];
    PathPrefix(g, p, i);
    ColdRunIsJustified(g, code, f.refs, q, u.Line());
    match RunPath(code, Cold(), q)[u.Line()] {
      case None =>
        assert AvoidsVia(g, f.refs, p[i - 1], u.Line(), u.Tag(), q);
        assert forall x | 0 <= x < i :: q[x] == p[x];
      case Some(t) =>
        assert t in f.rmb[p[i - 1]][u.Line()];
        CachedOnEntryHits(RunPath(code, Cold(), q), code[p[i]], j);
    }
  }

  /** Over an edge that is not charged a bundle misses only if no block so far has used its line and the must search was
      wrong about the predecessor; without loops it never misses. */
  lemma UnchargedEdgeHits(f: Facts, code: seq<seq<Bundle>>, p: seq<nat>, i: nat, j: nat)
    requires f.Correct(code) && WellFormedCode(code)
    requires f.g.IsPath(p) && f.g.pred[p[0]] == [] && 0 < i < |p| && j < |code[p[i]]|
    requires !f.Charged(p[i - 1], code[p[i]][j])
    ensures MissAt(code, p, i, j) ==> Deceived(f, p, i, code[p[i]][j])
    ensures LoopFree(f.g, f.table) ==> !MissAt(code, p, i, j)
  {
    ClaimedEdge(f, code, p, i, j);
    if LoopFree(f.g, f.table) {
      NoFalseClaims(f, code);
    }
  }

  /** A miss is either predicted as an always-miss, or as a conflict that is charged on the edge just taken, or a first
      miss of a loop, or comes from a wrong answer of the searches: of the must search about the predecessor, and then
      from a line that the run has not used yet, or at a nested header of the search inside the loop. */
  ghost predicate Foreseen(f: Facts, code: seq<seq<Bundle>>, p: seq<nat>, i: nat, j: nat, answers: Answers)
    requires f.Valid() && |code| == |f.g.succ| && i < |p| && (forall x | 0 <= x < |p| :: p[x] in f.g.blocks) && j < |code[p[i]]|
  {
    var b, u := p[i], code[p[i]][j];
    match f.Decide(code[b], b, j, answers)
    case Decision(AMiss, listed) => listed
    case Decision(Conflict, listed) => listed && 0 < i && (f.Charged(p[i - 1], u) || Deceived(f, p, i, u))
    case Decision(FMiss, listed) => listed && f.table.loopId[b] != UNDEF
    case Decision(AHit, _) =>
      if f.table.IsHeader(b) then f.table.Get(f.table.loopId[b]).parent != UNDEF && answers.insideLoop
      else Deceived(f, p, i, u)
    case Decision(Unknown, _) => false
    case Aborted => EnteredAside(f.g, f.table, b)
  }

  /** On every graph.  Without loops that leaves always-misses and charged conflicts, so an always-hit hits on every run. */
  lemma MissesArePredicted(f: Facts, code: seq<seq<Bundle>>, p: seq<nat>, i: nat, j: nat, answers: Answers)
    requires f.Correct(code) && WellFormedCode(code)
    requires f.g.IsPath(p) && f.g.pred[p[0]] == [] && i < |p| && j < |code[p[i]]|
    ensures MissAt(code, p, i, j) ==> Foreseen(f, code, p, i, j, answers)
    ensures LoopFree(f.g, f.table) && MissAt(code, p, i, j) ==>
              match f.Decide(code[p[i]], p[i], j, answers)
              case Decision(AMiss, listed) => listed
              case Decision(Conflict, listed) => listed && 0 < i && f.Charged(p[i - 1], code[p[i]][j])
              case _ => false
  {
    var b, u := p[i], code[p[i]][j];
    OneReference(code[b], j);
    if j > 0 && u.BlkOffset() != 0 {
      InsideLineHits(RunPath(code, Cold(), p[..i]), code[b], j);
    } else {
      UnlistedDecisions(f, code, code[b], b, j, answers);
      FirstBundle(f, code[b], b, j, answers);
      if 0 < i {
        assert f.g.Edge(p[i - 1], p[i]);
        if u.Tag() in f.must[p[i - 1]][u.Line()] {
          ClaimedEdge(f, code, p, i, j);
        }
      } else {
        assert f.inputRmb[b][u.Line()] == {};
      }
      if LoopFree(f.g, f.table) {
        NoFalseClaims(f, code);
      }
    }
  }

  /** What decides about the first bundle of a line. */
  lemma FirstBundle(f: Facts, bundles: seq<Bundle>, b: nat, j: nat, answers: Answers)
    requires f.Valid() && b in f.g.blocks && j < |bundles| && (bundles[j].BlkOffset() == 0 || j == 0)
    requires |f.refs[b][bundles[j].Line()]| <= 1
    ensures match f.Decide(bundles, b, j, answers)
            case Decision(AHit, listed) =>
              if f.table.IsHeader(b) then f.table.Get(f.table.loopId[b]).parent != UNDEF && answers.insideLoop
              else bundles[j].Tag() in f.inputRmb[b][bundles[j].Line()] && f.MustInPreds(b, bundles[j].Tag(), bundles[j].Line())
            case Decision(FMiss, listed) => f.table.loopId[b] != UNDEF
            case Decision(Conflict, listed) => bundles[j].Tag() in f.inputRmb[b][bundles[j].Line()]
            case Decision(p, _) => p != Unknown
            case Aborted => true
  {
  }

  /** The decisions for all bundles of a block. */
  ghost function Decisions(f: Facts, bundles: seq<Bundle>, b: nat, answers: (nat, nat) -> Answers): seq<Decision>
    requires f.Valid() && b in f.g.blocks
  {
    seq(|bundles|, j requires 0 <= j < |bundles| => f.Decide(bundles, b, j, answers(b, j)))
  }

  ghost function Predictions(ds: seq<Decision>): seq<Prediction>
    requires Aborted !in ds
  {
    seq(|ds|, j requires 0 <= j < |ds| => assert ds[j] in ds; ds[j].prediction)
  }

  /** The indices listed with prediction `what`. */
  ghost function Listed(ds: seq<Decision>, what: Prediction): seq<nat> {
    if ds == [] then []
    else Listed(ds[..|ds| - 1], what) + if Last(ds) == Decision(what, true) then [|ds| - 1] else []
  }

  /** Predictions recorded for every bundle of every block, as `classify_instr` leaves them. */
  ghost predicate Classified(f: Facts, code: seq<seq<Bundle>>, prediction: seq<seq<Prediction>>, answers: (nat, nat) -> Answers)
    requires f.Valid() && |code| == |f.g.succ|
  {
    && |prediction| == |code|
    && forall b | b in f.g.blocks ::
         && |prediction[b]| == |code[b]|
         && forall j: nat | j < |code[b]| ::
              var d := f.Decide(code[b], b, j, answers(b, j));
              d.Decision? && prediction[b][j] == d.prediction
  }

  /** With a single predecessor, whatever its must state claims is all that reaches the block. */
  lemma MustOfOnlyPred(f: Facts, code: seq<seq<Bundle>>, b: nat, t: Tag, line: nat)
    requires f.Correct(code) && b in f.g.blocks && line < LINES
    requires |f.g.pred[b]| == 1 && f.MustInPreds(b, t, line)
    ensures f.inputRmb[b][line] == {t}
  {
    var a := f.g.pred[b][0];
    assert f.g.pred[b] == [a];
    assert a in f.g.blocks;
    assert t in f.must[a][line] && f.rmb[a][line] == {t};
    assert Inflow(f.rmb, [a], line) == f.rmb[a][line];
  }

  /** Only hits are left unlisted, although one branch sets an always-miss without listing it.  An assertion fails only
      at a block inside a loop that is not its header and whose only predecessor is outside every loop. */
  lemma UnlistedDecisions(f: Facts, code: seq<seq<Bundle>>, bundles: seq<Bundle>, b: nat, j: nat, answers: Answers)
    requires f.Correct(code) && b in f.g.blocks && j < |bundles|
    ensures match f.Decide(bundles, b, j, answers)
            case Decision(p, listed) => !listed ==> p == AHit
            case Aborted => EnteredAside(f.g, f.table, b)
  {
    var u := bundles[j];
    if |f.g.pred[b]| == 1 && f.MustInPreds(b, u.Tag(), u.Line()) {
      MustOfOnlyPred(f, code, b, u.Tag(), u.Line());
    }
    UnlistedBranch(f, bundles, b, j, answers);
  }

  /** The branch that does not list its always-miss asks for several reaching tags and for the tag in the must state of
      the only predecessor. */
  lemma UnlistedBranch(f: Facts, bundles: seq<Bundle>, b: nat, j: nat, answers: Answers)
    requires f.Valid() && b in f.g.blocks && j < |bundles|
    ensures match f.Decide(bundles, b, j, answers)
            case Decision(p, listed) =>
              !listed ==> p == AHit || (|f.g.pred[b]| == 1 && |f.inputRmb[b][bundles[j].Line()]| > 1 &&
                                        f.MustInPreds(b, bundles[j].Tag(), bundles[j].Line()))
            case Aborted => EnteredAside(f.g, f.table, b)
  {
  }

  /** A block inside a loop, not its header, that is only entered from outside every loop. */
  ghost predicate EnteredAside(g: Graph, table: LoopTable, b: nat)
    requires table.Valid(g) && b in g.blocks
  {
    table.loopId[b] != UNDEF && !table.IsHeader(b) && |g.pred[b]| == 1 && table.loopId[g.pred[b][0]] == UNDEF
  }

  lemma BlockDecisions(f: Facts, code: seq<seq<Bundle>>, bundles: seq<Bundle>, b: nat, answers: (nat, nat) -> Answers)
    requires f.Correct(code) && b in f.g.blocks
    ensures var ds := Decisions(f, bundles, b, answers);
            && Decision(FMiss, false) !in ds && Decision(Conflict, false) !in ds && Decision(AMiss, false) !in ds
            && (Aborted in ds ==> EnteredAside(f.g, f.table, b))
  {
    var ds := Decisions(f, bundles, b, answers);
    forall j: nat | j < |ds|
      ensures ds[j] !in {Decision(FMiss, false), Decision(Conflict, false), Decision(AMiss, false)}
      ensures ds[j] == Aborted ==> EnteredAside(f.g, f.table, b)
    {
      UnlistedDecisions(f, code, bundles, b, j, answers(b, j));
    }
  }

  function Count(predictions: seq<Prediction>, what: Prediction): nat {
    if predictions == [] then 0
    else Count(predictions[..|predictions| - 1], what) + if Last(predictions) == what then 1 else 0
  }

  /** The number of conflict bundles charged on the edge from `a`. */
  function ChargedConflicts(f: Facts, bundles: seq<Bundle>, predictions: seq<Prediction>, a: nat): nat
    requires f.Valid() && a in f.g.blocks && |predictions| == |bundles|
  {
    if bundles == [] then 0
    else
      var k := |bundles| - 1;
      ChargedConflicts(f, bundles[..k], predictions[..k], a) +
      if predictions[k] == Conflict && f.Charged(a, bundles[k]) then 1 else 0
  }

  /** The misses the analysis accounts for when the run enters position `i` of `p`. */
  function AccountedMisses(f: Facts, code: seq<seq<Bundle>>, prediction: seq<seq<Prediction>>, p: seq<nat>, i: nat): nat
    requires f.Valid() && |prediction| == |code| == |f.g.succ| && i < |p|
    requires forall x | 0 <= x < |p| :: p[x] in f.g.blocks && |prediction[p[x]]| == |code[p[x]]|
  {
    Count(prediction[p[i]], AMiss) +
    if i == 0 then 0 else ChargedConflicts(f, code[p[i]], prediction[p[i]], p[i - 1])
  }

  /** A first miss of a loop, or a bundle of a nested header called a hit, misses. */
  ghost predicate LoopMissAt(f: Facts, code: seq<seq<Bundle>>, prediction: seq<seq<Prediction>>, p: seq<nat>, i: nat, j: nat)
    requires Predicted(f, code, prediction, p) && i < |p| && j < |code[p[i]]|
  {
    MissAt(code, p, i, j) &&
    (prediction[p[i]][j] == FMiss || (prediction[p[i]][j] == AHit && f.table.IsHeader(p[i])))
  }

  ghost predicate Predicted(f: Facts, code: seq<seq<Bundle>>, prediction: seq<seq<Prediction>>, p: seq<nat>) {
    && f.Valid() && |prediction| == |code| == |f.g.succ|
    && forall x | 0 <= x < |p| :: p[x] in f.g.blocks && |prediction[p[x]]| == |code[p[x]]|
  }

  /** How many there are among the first `k` bundles of block `p[i]`. */
  ghost function LoopMissesAt(f: Facts, code: seq<seq<Bundle>>, prediction: seq<seq<Prediction>>, p: seq<nat>, i: nat, k: nat): nat
    requires Predicted(f, code, prediction, p) && i < |p| && k <= |code[p[i]]|
  {
    if k == 0 then 0
    else LoopMissesAt(f, code, prediction, p, i, k - 1) + if LoopMissAt(f, code, prediction, p, i, k - 1) then 1 else 0
  }

  /** The lines that the first `k` bundles of block `p[i]` are the first to use, if the must search may be wrong. */
  ghost function ColdLines(f: Facts, code: seq<seq<Bundle>>, p: seq<nat>, i: nat, k: nat): set<nat>
    requires f.Valid() && |code| == |f.g.succ| && (forall x | 0 <= x < |p| :: p[x] in f.g.blocks)
    requires i < |p| && k <= |code[p[i]]|
  {
    if ClaimsHold(f) then {}
    else set line: nat | line < LINES && Untouched(f, p, i, line) && References(code[p[i]][..k], line) != {}
  }

  lemma MissIsCounted(f: Facts, code: seq<seq<Bundle>>, prediction: seq<seq<Prediction>>,
                      answers: (nat, nat) -> Answers, p: seq<nat>, i: nat, j: nat)
    requires f.Correct(code) && WellFormedCode(code) && Classified(f, code, prediction, answers)
    requires f.g.IsPath(p) && f.g.pred[p[0]] == [] && i < |p| && j < |code[p[i]]|
    ensures MissAt(code, p, i, j) ==>
              || prediction[p[i]][j] == AMiss
              || (prediction[p[i]][j] == Conflict && 0 < i && f.Charged(p[i - 1], code[p[i]][j]))
              || LoopMissAt(f, code, prediction, p, i, j)
              || (Deceived(f, p, i, code[p[i]][j]) && (code[p[i]][j].BlkOffset() == 0 || j == 0))
  {
    MissesArePredicted(f, code, p, i, j, answers(p[i], j));
    if j > 0 && code[p[i]][j].BlkOffset() != 0 {
      InsideLineHits(RunPath(code, Cold(), p[..i]), code[p[i]], j);
    }
  }

  /** Bundle `k - 1` is the first of the run on its line. */
  lemma ColdLineAdded(f: Facts, code: seq<seq<Bundle>>, p: seq<nat>, i: nat, k: nat)
    requires f.Valid() && |code| == |f.g.succ| && (forall x | 0 <= x < |p| :: p[x] in f.g.blocks)
    requires i < |p| && 0 < k <= |code[p[i]]| && WellFormedCode(code)
    ensures ColdLines(f, code, p, i, k - 1) <= ColdLines(f, code, p, i, k)
    ensures Deceived(f, p, i, code[p[i]][k - 1]) && (code[p[i]][k - 1].BlkOffset() == 0 || k == 1) ==>
              code[p[i]][k - 1].Line() in ColdLines(f, code, p, i, k) - ColdLines(f, code, p, i, k - 1)
  {
    var bundles := code[p[i]];
    var u := bundles[k - 1];
    assert bundles[..k] == bundles[..k - 1] + [u];
    forall line: nat | References(bundles[..k - 1], line) != {}
      ensures References(bundles[..k], line) != {}
    {
      var v :| v in bundles[..k - 1] && v.Line() == line;
      assert v.Tag() in References(bundles[..k], line);
    }
    assert u.Tag() in References(bundles[..k], u.Line());
    if u.BlkOffset() == 0 || k == 1 {
      FirstOnItsLine(bundles, k - 1);
    }
  }

  /** What is allowed for the first `k` bundles of block `p[i]`. */
  ghost function Cover(f: Facts, code: seq<seq<Bundle>>, prediction: seq<seq<Prediction>>, p: seq<nat>, i: nat, k: nat): nat
    requires Predicted(f, code, prediction, p) && i < |p| && k <= |code[p[i]]|
  {
    Count(prediction[p[i]][..k], AMiss) +
    (if i == 0 then 0 else ChargedConflicts(f, code[p[i]][..k], prediction[p[i]][..k], p[i - 1])) +
    LoopMissesAt(f, code, prediction, p, i, k) + |ColdLines(f, code, p, i, k)|
  }

  lemma CoverGrows(f: Facts, code: seq<seq<Bundle>>, prediction: seq<seq<Prediction>>, p: seq<nat>, i: nat, k: nat)
    requires Predicted(f, code, prediction, p) && i < |p| && 0 < k <= |code[p[i]]|
    requires ColdLines(f, code, p, i, k - 1) <= ColdLines(f, code, p, i, k)
    ensures Cover(f, code, prediction, p, i, k - 1) <= Cover(f, code, prediction, p, i, k)
    ensures || prediction[p[i]][k - 1] == AMiss
            || (prediction[p[i]][k - 1] == Conflict && 0 < i && f.Charged(p[i - 1], code[p[i]][k - 1]))
            || LoopMissAt(f, code, prediction, p, i, k - 1)
            || ColdLines(f, code, p, i, k - 1) != ColdLines(f, code, p, i, k)
            ==> Cover(f, code, prediction, p, i, k - 1) < Cover(f, code, prediction, p, i, k)
  {
    StepCounts(f, Cold(), code[p[i]], prediction[p[i]], k, if i == 0 then p[i] else p[i - 1]);
    MoreElements(ColdLines(f, code, p, i, k - 1), ColdLines(f, code, p, i, k));
  }

  /** Every miss adds to it. */
  lemma MissIsCovered(f: Facts, code: seq<seq<Bundle>>, prediction: seq<seq<Prediction>>,
                      answers: (nat, nat) -> Answers, p: seq<nat>, i: nat, k: nat)
    requires f.Correct(code) && WellFormedCode(code) && Classified(f, code, prediction, answers)
    requires f.g.IsPath(p) && f.g.pred[p[0]] == [] && i < |p| && 0 < k <= |code[p[i]]|
    ensures Cover(f, code, prediction, p, i, k - 1) + (if MissAt(code, p, i, k - 1) then 1 else 0) <=
            Cover(f, code, prediction, p, i, k)
  {
    MissIsCounted(f, code, prediction, answers, p, i, k - 1);
    ColdLineAdded(f, code, p, i, k);
    CoverGrows(f, code, prediction, p, i, k);
  }

  /** The misses of the first `k` bundles of a block are covered. */
  lemma {:induction false} MissesUpTo(f: Facts, code: seq<seq<Bundle>>, prediction: seq<seq<Prediction>>,
                                      answers: (nat, nat) -> Answers, p: seq<nat>, i: nat, k: nat)
    requires f.Correct(code) && WellFormedCode(code) && Classified(f, code, prediction, answers)
    requires f.g.IsPath(p) && f.g.pred[p[0]] == [] && i < |p| && k <= |code[p[i]]|
    ensures Misses(RunPath(code, Cold(), p[..i]), code[p[i]][..k]) <= Cover(f, code, prediction, p, i, k)
  {
    if k > 0 {
      MissesUpTo(f, code, prediction, answers, p, i, k - 1);
      StepCounts(f, RunPath(code, Cold(), p[..i]), code[p[i]], prediction[p[i]], k, p[i]);
      MissIsCovered(f, code, prediction, answers, p, i, k);
    }
  }

  lemma MoreElements<T>(s: set<T>, t: set<T>)
    requires s <= t
    ensures |s| + |t - s| == |t| && (s != t ==> |s| < |t|)
  {
    assert t == s + (t - s);
    if s != t {
      assert |t - s| > 0;
    }
  }

  /** How the three counters move from bundle `k - 1` to bundle `k`. */
  lemma StepCounts(f: Facts, c: Cache, bundles: seq<Bundle>, predictions: seq<Prediction>, k: nat, a: nat)
    requires f.Valid() && a in f.g.blocks && 0 < k <= |bundles| == |predictions|
    ensures Misses(c, bundles[..k]) ==
            Misses(c, bundles[..k - 1]) + if Hits(RunBundles(c, bundles[..k - 1]), bundles[k - 1]) then 0 else 1
    ensures Count(predictions[..k], AMiss) ==
            Count(predictions[..k - 1], AMiss) + if predictions[k - 1] == AMiss then 1 else 0
    ensures ChargedConflicts(f, bundles[..k], predictions[..k], a) ==
            ChargedConflicts(f, bundles[..k - 1], predictions[..k - 1], a) +
            if predictions[k - 1] == Conflict && f.Charged(a, bundles[k - 1]) then 1 else 0
  {
    assert bundles[..k][..k - 1] == bundles[..k - 1];
    assert predictions[..k][..k - 1] == predictions[..k - 1];
  }

  /** Without loops nothing is a first miss, and no line comes as a surprise. */
  lemma {:induction false} NoLoopMisses(f: Facts, code: seq<seq<Bundle>>, prediction: seq<seq<Prediction>>,
                                        answers: (nat, nat) -> Answers, p: seq<nat>, i: nat, k: nat)
    requires f.Correct(code) && WellFormedCode(code) && Classified(f, code, prediction, answers) && LoopFree(f.g, f.table)
    requires f.g.IsPath(p) && f.g.pred[p[0]] == [] && i < |p| && k <= |code[p[i]]|
    ensures LoopMissesAt(f, code, prediction, p, i, k) == 0
  {
    if k > 0 {
      NoLoopMisses(f, code, prediction, answers, p, i, k - 1);
      MissesArePredicted(f, code, p, i, k - 1, answers(p[i], k - 1));
    }
  }

  /** The misses of a block, entered along the run, never exceed its always-misses, the conflicts charged on the edge it
      was entered by, and the first misses that do miss; and the lines it is the first to use, if a must claim is false. */
  lemma BlockMissBound(f: Facts, code: seq<seq<Bundle>>, prediction: seq<seq<Prediction>>,
                       answers: (nat, nat) -> Answers, p: seq<nat>, i: nat)
    requires f.Correct(code) && WellFormedCode(code) && Classified(f, code, prediction, answers)
    requires f.g.IsPath(p) && f.g.pred[p[0]] == [] && i < |p|
    ensures Misses(RunPath(code, Cold(), p[..i]), code[p[i]]) <=
            AccountedMisses(f, code, prediction, p, i) + LoopMissesAt(f, code, prediction, p, i, |code[p[i]]|) +
            |ColdLines(f, code, p, i, |code[p[i]]|)|
    ensures LoopFree(f.g, f.table) ==>
              Misses(RunPath(code, Cold(), p[..i]), code[p[i]]) <= AccountedMisses(f, code, prediction, p, i)
  {
    var b := p[i];
    var k := |code[b]|;
    MissesUpTo(f, code, prediction, answers, p, i, k);
    assert code[b][..k] == code[b] && prediction[b][..k] == prediction[b];
    if LoopFree(f.g, f.table) {
      NoFalseClaims(f, code);
      NoLoopMisses(f, code, prediction, answers, p, i, k);
    }
  }

  /** All misses of a cold run along `p[..n]`. */
  ghost function RunMisses(code: seq<seq<Bundle>>, p: seq<nat>, n: nat): nat
    requires InRange(code, p) && n <= |p|
  {
    if n == 0 then 0
    else RunMisses(code, p, n - 1) + Misses(RunPath(code, Cold(), p[..n - 1]), code[p[n - 1]])
  }

  function AccountedAlong(f: Facts, code: seq<seq<Bundle>>, prediction: seq<seq<Prediction>>, p: seq<nat>, n: nat): nat
    requires f.Valid() && |prediction| == |code| == |f.g.succ| && n <= |p|
    requires forall x | 0 <= x < |p| :: p[x] in f.g.blocks && |prediction[p[x]]| == |code[p[x]]|
  {
    if n == 0 then 0 else AccountedAlong(f, code, prediction, p, n - 1) + AccountedMisses(f, code, prediction, p, n - 1)
  }

  ghost function LoopMissesAlong(f: Facts, code: seq<seq<Bundle>>, prediction: seq<seq<Prediction>>, p: seq<nat>, n: nat): nat
    requires Predicted(f, code, prediction, p) && n <= |p|
  {
    if n == 0 then 0
    else LoopMissesAlong(f, code, prediction, p, n - 1) + LoopMissesAt(f, code, prediction, p, n - 1, |code[p[n - 1]]|)
  }

  /** The lines that `p[..n]` uses, if the must search may be wrong. */
  ghost function WarmLines(f: Facts, p: seq<nat>, n: nat): set<nat>
    requires f.Valid() && n <= |p| && forall x | 0 <= x < |p| :: p[x] in f.g.blocks
  {
    if ClaimsHold(f) then {} else set line: nat | line < LINES && !Untouched(f, p, n, line)
  }

  lemma TouchedByLast(f: Facts, p: seq<nat>, n: nat, line: nat)
    requires f.Valid() && 0 < n <= |p| && line < LINES && forall x | 0 <= x < |p| :: p[x] in f.g.blocks
    ensures Untouched(f, p, n, line) <==> Untouched(f, p, n - 1, line) && f.refs[p[n - 1]][line] == {}
  {
    if Untouched(f, p, n - 1, line) && f.refs[p[n - 1]][line] == {} {
      forall x | 0 <= x < n
        ensures f.refs[p[x]][line] == {}
      {
        assert x == n - 1 || x < n - 1;
      }
    }
  }

  lemma NewWarmLines(f: Facts, code: seq<seq<Bundle>>, p: seq<nat>, n: nat)
    requires f.Correct(code) && 0 < n <= |p| && forall x | 0 <= x < |p| :: p[x] in f.g.blocks
    requires forall line: nat | line < LINES ::
               Untouched(f, p, n, line) <==> Untouched(f, p, n - 1, line) && f.refs[p[n - 1]][line] == {}
    ensures WarmLines(f, p, n - 1) <= WarmLines(f, p, n)
    ensures WarmLines(f, p, n) - WarmLines(f, p, n - 1) == ColdLines(f, code, p, n - 1, |code[p[n - 1]]|)
  {
    var b, cold := p[n - 1], ColdLines(f, code, p, n - 1, |code[p[n - 1]]|);
    assert code[b][..|code[b]|] == code[b];
    forall line: nat | line < LINES
      ensures References(code[b], line) == f.refs[b][line]
    {
    }
    if !ClaimsHold(f) {
      forall line: nat
        ensures line in WarmLines(f, p, n) - WarmLines(f, p, n - 1) <==> line in cold
      {
      }
    }
  }

  lemma WarmLinesGrow(f: Facts, code: seq<seq<Bundle>>, p: seq<nat>, n: nat)
    requires f.Correct(code) && 0 < n <= |p| && forall x | 0 <= x < |p| :: p[x] in f.g.blocks
    ensures |WarmLines(f, p, n)| == |WarmLines(f, p, n - 1)| + |ColdLines(f, code, p, n - 1, |code[p[n - 1]]|)|
  {
    forall line: nat | line < LINES
      ensures Untouched(f, p, n, line) <==> Untouched(f, p, n - 1, line) && f.refs[p[n - 1]][line] == {}
    {
      TouchedByLast(f, p, n, line);
    }
    NewWarmLines(f, code, p, n);
    MoreElements(WarmLines(f, p, n - 1), WarmLines(f, p, n));
  }

  lemma {:induction false} AtMost(s: set<nat>, n: nat)
    requires forall x | x in s :: x < n
    ensures |s| <= n
  {
    if n > 0 {
      AtMost(s - {n - 1}, n - 1);
      MoreElements(s - {n - 1}, s);
      assert s - (s - {n - 1}) <= {n - 1};
      MoreElements(s - (s - {n - 1}), {n - 1});
    } else {
      assert s == {};
    }
  }

  /** End to end, on every graph: no cold run from an entry block misses more often than accounted for along it, besides
      the first misses that do miss; and once more per cache line if some must claim is false.  Without loops nothing has
      to be added. */
  lemma {:induction false} RunMissBound(f: Facts, code: seq<seq<Bundle>>, prediction: seq<seq<Prediction>>,
                                        answers: (nat, nat) -> Answers, p: seq<nat>, n: nat)
    requires f.Correct(code) && WellFormedCode(code) && Classified(f, code, prediction, answers)
    requires f.g.IsPath(p) && f.g.pred[p[0]] == [] && n <= |p|
    ensures RunMisses(code, p, n) <=
            AccountedAlong(f, code, prediction, p, n) + LoopMissesAlong(f, code, prediction, p, n) + |WarmLines(f, p, n)|
    ensures |WarmLines(f, p, n)| <= if ClaimsHold(f) then 0 else LINES
    ensures LoopFree(f.g, f.table) ==> RunMisses(code, p, n) <= AccountedAlong(f, code, prediction, p, n)
  {
    AtMost(WarmLines(f, p, n), LINES);
    if n > 0 {
      RunMissBound(f, code, prediction, answers, p, n - 1);
      BlockMissBound(f, code, prediction, answers, p, n - 1);
      WarmLinesGrow(f, code, p, n);
    }
  }

  // ---------------------------------------------------------------- first misses

  /** A first miss whose reaching input is one tag misses at most once in a whole run, on every graph. */
  lemma FirstMissOncePerRun(f: Facts, code: seq<seq<Bundle>>, p: seq<nat>, i: nat, k: nat, j: nat, answers: Answers)
    requires f.Correct(code) && WellFormedCode(code)
    requires f.g.IsPath(p) && i < k < |p| && p[i] == p[k] && j < |code[p[k]]|
    requires f.Decide(code[p[k]], p[k], j, answers) == Decision(FMiss, true)
    requires |f.inputRmb[p[k]][code[p[k]][j].Line()]| == 1
    ensures !MissAt(code, p, k, j)
  {
    var b, u := p[k], code[p[k]][j];
    OneReference(code[b], j);
    assert u.Tag() in f.inputRmb[b][u.Line()];
    SingletonIsAll(f.inputRmb[b][u.Line()], u.Tag());
    PersistentInRun(f.g, code, f.refs, f.rmb, p, i, k, j);
  }

  lemma SingletonIsAll<T>(s: set<T>, x: T)
    requires x in s && |s| == 1
    ensures s == {x}
  {
    assert |s - {x}| == 0;
    assert s == {x} + (s - {x});
  }

  /** Without cache conflicts in its loop, a tag misses at most once while the run stays inside the loop, whatever
      blocks and bundles use it. */
  lemma FirstMissOncePerStay(f: Facts, code: seq<seq<Bundle>>, p: seq<nat>, i: nat, j: nat, k: nat, m: nat, loop: Loop)
    requires f.Correct(code) && WellFormedCode(code)
    requires f.g.IsPath(p) && i < k < |p| && j < |code[p[i]]| && m < |code[p[k]]|
    requires code[p[i]][j].Line() == code[p[k]][m].Line() && code[p[i]][j].Tag() == code[p[k]][m].Tag()
    requires forall x | i <= x <= k :: p[x] in loop.nodes
    requires !f.CacheConflicts(loop, code[p[k]][m].Tag(), code[p[k]][m].Line())
    ensures !MissAt(code, p, k, m)
  {
    var u := code[p[k]][m];
    forall x | i <= x < k
      ensures f.refs[p[x]][u.Line()] <= {u.Tag()}
    {
      var y :| 0 <= y < |loop.nodes| && loop.nodes[y] == p[x];
      assert f.refs[loop.nodes[y]][u.Line()] == {} || u.Tag() in f.refs[loop.nodes[y]][u.Line()];
      if u.Tag() in f.refs[p[x]][u.Line()] {
        var z :| 0 <= z < |code[p[x]]| && code[p[x]][z].Line() == u.Line() && code[p[x]][z].Tag() == u.Tag();
        OneReference(code[p[x]], z);
      }
    }
    PersistentBetween(f.g, code, f.refs, p, i, j, k, m);
  }
}
