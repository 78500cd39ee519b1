/** The instruction-cache analysis: the two fixpoints, the must search and the classification. */
module CacheAnalysis {
  import opened Graphs
  import opened Loops
  import opened Options
  import opened CacheState
  import opened MayStates
  import opened MustSearch
  import opened CacheRuns
  import opened Classification

  /** The inner loop of both fixpoints: the states of the blocks in `from`, copied into a cleared state. */
  method Merge(x: States, from: seq<nat>) returns (flow: CState)
    requires forall i | 0 <= i < |from| :: from[i] < |x|
    ensures forall line | 0 <= line < LINES :: flow[line] == Inflow(x, from, line)
  {
    flow := EmptyState();
    for j := 0 to |from|
      invariant forall line | 0 <= line < LINES :: flow[line] == Inflow(x, from[..j], line)
    {
      var grown, _ := CopyCState(x[from[j]], flow);
      InflowGrows(x, from, j);
      flow := grown;
    }
    assert from[..|from|] == from;
  }

  /** The body of both fixpoint loops for block `bb`, whose inflow comes from the blocks in `from`. */
  method Refresh(ghost g: Graph, refs: States, x: States, bb: nat, from: seq<nat>)
    returns (flow: CState, next: CState, added: bool)
    requires |refs| == |g.succ| == |x| && g.Valid() && bb in g.blocks && from == g.pred[bb]
    requires Sound(g, refs, x) && Settled(refs, x)
    ensures forall line | 0 <= line < LINES :: flow[line] == Inflow(x, from, line)
    ensures var y := x[bb := next];
            && Sound(g, refs, y) && Settled(refs, y)
            && (if added then Missing(refs, y) < Missing(refs, x) else y == x && StableAt(g, refs, x, bb))
  {
    flow := Merge(x, from);
    var own, _ := CopyCState(refs[bb], EmptyState());
    var temp, _ := CopyCState(flow, own);
    next, added := MakeOutputCState(temp, x[bb], refs[bb]);
    UpdateBlock(g, refs, x, bb, flow, next);
    assert next == x[bb] ==> x[bb := next] == x;
  }

  /** One pass of a fixpoint: updates every block in turn from the states of the blocks that `from` lists for it. */
  method Pass(g: Graph, refs: States, from: seq<seq<nat>>, input: States, x: States)
    returns (input': States, x': States, change: bool)
    requires |refs| == |g.succ| == |x| == |input| && g.Valid() && from == g.pred
    requires Sound(g, refs, x) && Settled(refs, x)
    ensures |input'| == |x'| == |g.succ| && Sound(g, refs, x') && Settled(refs, x')
    ensures change ==> Missing(refs, x') < Missing(refs, x)
    ensures !change ==> x' == x && forall b | b in g.blocks :: StableAt(g, refs, x, b) && InputAgrees(g, input', x, b)
  {
    input', x', change := input, x, false;
    for i := 0 to |g.blocks|
      invariant |input'| == |x'| == |g.succ| && Sound(g, refs, x') && Settled(refs, x')
      invariant if change then Missing(refs, x') < Missing(refs, x) else x' == x
      invariant !change ==> forall b | b in g.blocks[..i] :: StableAt(g, refs, x, b) && InputAgrees(g, input', x, b)
    {
      var bb := g.blocks[i];
      var flow, next, added := Refresh(g, refs, x', bb, from[bb]);
      input', x' := input'[bb := flow], x'[bb := next];
      change := change || added;
      assert g.blocks[..i + 1] == g.blocks[..i] + [bb];
    }
    assert g.blocks[..|g.blocks|] == g.blocks;
  }

  method CreateStates(code: seq<seq<Bundle>>) returns (states: States)
    ensures |states| == |code|
    ensures forall b: nat, line: nat | b < |code| && line < LINES :: states[b][line] == References(code[b], line)
  {
    states := [];
    for b := 0 to |code|
      invariant |states| == b
      invariant forall c: nat, line: nat | c < b && line < LINES :: states[c][line] == References(code[c], line)
    {
      var state := CreateState(code[b]);
      states := states + [state];
    }
  }

  method MustState(search: Search, rmb: States, bb: nat, ghost rank: seq<nat>) returns (state: CState)
    requires search.Valid() && |rmb| == |search.g.succ| && bb in search.g.blocks && Searchable(search.g, search.table, rank)
    modifies search
    ensures search.Valid()
    ensures forall line: nat | line < LINES ::
              MustLineIsRight(search.g, search.table, search.refs, rmb, bb, line, state[line])
  {
    var g, refs := search.g, search.refs;
    state := EmptyState();
    for j := 0 to LINES
      invariant search.Valid()
      invariant forall line: nat | line < j :: MustLineIsRight(g, search.table, refs, rmb, bb, line, state[line])
      invariant forall line: nat | j <= line < LINES :: state[line] == {}
    {
      if |rmb[bb][j]| == 1 {
        var t :| t in rmb[bb][j];
        SingletonIsAll(rmb[bb][j], t);
        if |refs[bb][j]| == 1 {
          state := state[j := {t}];
        } else if refs[bb][j] == {} {
          var isMust := search.IsAlwaysAccessed(bb, t, j, rank);
          if isMust {
            state := state[j := {t}];
          }
        }
      }
    }
  }

  ghost predicate BlockClassified(f: Facts, bundles: seq<Bundle>, b: nat, answers: (nat, nat) -> Answers,
                                  pr: seq<Prediction>, am: seq<nat>, fm: seq<nat>, cf: seq<nat>)
    requires f.Valid() && b in f.g.blocks
  {
    var ds := Decisions(f, bundles, b, answers);
    && Aborted !in ds && pr == Predictions(ds)
    && am == Listed(ds, AMiss) && fm == Listed(ds, FMiss) && cf == Listed(ds, Conflict)
  }

  method ClassifyBlock(f: Facts, bundles: seq<Bundle>, b: nat, answers: (nat, nat) -> Answers)
    returns (ok: bool, pr: seq<Prediction>, am: seq<nat>, fm: seq<nat>, cf: seq<nat>)
    requires f.Valid() && b in f.g.blocks
    ensures if ok then BlockClassified(f, bundles, b, answers, pr, am, fm, cf)
            else Aborted in Decisions(f, bundles, b, answers)
  {
    pr, am, fm, cf := [], [], [], [];
    ghost var ds := Decisions(f, bundles, b, answers);
    for j := 0 to |bundles|
      invariant Aborted !in ds[..j] && pr == Predictions(ds[..j])
      invariant am == Listed(ds[..j], AMiss) && fm == Listed(ds[..j], FMiss) && cf == Listed(ds[..j], Conflict)
    {
      assert ds[..j + 1][..j] == ds[..j] && ds[..j + 1] == ds[..j] + [ds[j]];
      match f.Decide(bundles, b, j, answers(b, j))
      case Aborted =>
        assert ds[j] == Aborted;
        return false, pr, am, fm, cf;
      case Decision(p, listed) =>
        pr := pr + [p];
        if listed {
          match p
          case AMiss => am := am + [j];
          case FMiss => fm := fm + [j];
          case Conflict => cf := cf + [j];
          case _ =>
        }
    }
    assert ds[..|bundles|] == ds;
    ok := true;
  }

  class Analysis {
    const g: Graph
    const table: LoopTable
    const code: seq<seq<Bundle>>
    /** `my_cstate`, `my_cstate_input` and `my_cstate_output`: all three are built the same way. */
    var refs: States
    var inputRmb: States
    var rmb: States
    var lmb: States
    var outputLmb: States
    var must: States
    /** `a_misses_b_index`, `f_misses_b_index` and `conflict_b_index`, and the prediction of every bundle. */
    var aMisses: seq<seq<nat>>
    var fMisses: seq<seq<nat>>
    var conflicts: seq<seq<nat>>
    var prediction: seq<seq<Prediction>>

    ghost predicate Valid()
      reads this
    {
      && g.Valid() && table.Valid(g) && table.HeadersEntered(g)
      && |code| == |g.succ|
      && |refs| == |inputRmb| == |rmb| == |lmb| == |outputLmb| == |must| == |g.succ|
      && |aMisses| == |fMisses| == |conflicts| == |prediction| == |g.succ|
      && RefsOf(g, code, refs)
    }

    ghost function Results(): Facts
      reads this
    {
      Facts(g, table, refs, inputRmb, rmb, must)
    }

    constructor (g: Graph, table: LoopTable, code: seq<seq<Bundle>>)
      requires g.Valid() && table.Valid(g) && table.HeadersEntered(g) && |code| == |g.succ|
      ensures Valid() && this.g == g && this.table == table && this.code == code
      ensures Cleared(rmb) && Cleared(lmb)
      ensures forall b | b in g.blocks :: aMisses[b] == fMisses[b] == conflicts[b] == []
    {
      this.g, this.table, this.code := g, table, code;
      var blank := seq(|code|, _ => EmptyState());
      inputRmb, rmb, lmb, outputLmb, must := blank, blank, blank, blank, blank;
      var states := CreateStates(code);
      refs := states;
      var none := seq(|code|, _ => []);
      aMisses, fMisses, conflicts := none, none, none;
      prediction := seq(|code|, b requires 0 <= b < |code| => seq(|code[b]|, _ => Unknown));
    }

    /** `calc_rmb_cstate`: repeats passes over all blocks until one changes nothing. */
    method CalcRmb()
      requires Valid() && Cleared(rmb)
      modifies this`rmb, this`inputRmb
      ensures Valid() && Exact(g, refs, rmb)
      ensures forall b | b in g.blocks :: InputAgrees(g, inputRmb, rmb, b)
    {
      var change := true;
      while change
        invariant Valid() && Sound(g, refs, rmb) && Settled(refs, rmb)
        invariant !change ==> forall b | b in g.blocks :: StableAt(g, refs, rmb, b) && InputAgrees(g, inputRmb, rmb, b)
        decreases Missing(refs, rmb), change
      {
        inputRmb, rmb, change := Pass(g, refs, g.pred, inputRmb, rmb);
      }
      StableIsExact(g, refs, rmb);
    }

    /** `calc_lmb_cstate`: the same passes over successors. */
    method CalcLmb()
      requires Valid() && Cleared(lmb)
      modifies this`lmb, this`outputLmb
      ensures Valid() && g.Reverse().Valid() && Exact(g.Reverse(), refs, lmb)
      ensures forall b | b in g.blocks :: InputAgrees(g.Reverse(), outputLmb, lmb, b)
    {
      ReverseIsValid(g);
      var r := g.Reverse();
      var change := true;
      while change
        invariant Valid() && Sound(r, refs, lmb) && Settled(refs, lmb)
        invariant !change ==> forall b | b in r.blocks :: StableAt(r, refs, lmb, b) && InputAgrees(r, outputLmb, lmb, b)
        decreases Missing(refs, lmb), change
      {
        outputLmb, lmb, change := Pass(r, refs, g.succ, outputLmb, lmb);
      }
      StableIsExact(r, refs, lmb);
    }

    /** `calc_must_cstate` */
    method CalcMust(ghost rank: seq<nat>)
      requires Valid() && Searchable(g, table, rank)
      modifies this`must
      ensures Valid()
      ensures forall b: nat, line: nat | b in g.blocks && line < LINES ::
                MustLineIsRight(g, table, refs, rmb, b, line, must[b][line])
    {
      var search := new Search(g, table, refs);
      for i := 0 to |g.blocks|
        invariant Valid() && search.Valid() && fresh(search) && search.g == g && search.table == table && search.refs == refs
        invariant forall k, line: nat | 0 <= k < i && line < LINES ::
                    MustLineIsRight(g, table, refs, rmb, g.blocks[k], line, must[g.blocks[k]][line])
      {
        var bb := g.blocks[i];
        var state := MustState(search, rmb, bb, rank);
        must := must[bb := state];
      }
    }

    /** `classify_instr`: predicts every bundle and lists the indices of the misses and conflicts of each block.
        Returns false where an assertion of the source fails. */
    method ClassifyInstr(answers: (nat, nat) -> Answers) returns (ok: bool)
      requires Valid() && forall b | b in g.blocks :: aMisses[b] == fMisses[b] == conflicts[b] == []
      modifies this`prediction, this`aMisses, this`fMisses, this`conflicts
      ensures Valid()
      ensures ok ==> forall b | b in g.blocks ::
                BlockClassified(Results(), code[b], b, answers, prediction[b], aMisses[b], fMisses[b], conflicts[b])
      ensures !ok ==> exists b | b in g.blocks :: Aborted in Decisions(Results(), code[b], b, answers)
    {
      var f := Facts(g, table, refs, inputRmb, rmb, must);
      for i := 0 to |g.blocks|
        invariant Valid() && f == Results()
        invariant forall b | b in g.blocks[..i] ::
                    BlockClassified(f, code[b], b, answers, prediction[b], aMisses[b], fMisses[b], conflicts[b])
      {
        var bb := g.blocks[i];
        var done, pr, am, fm, cf := ClassifyBlock(f, code[bb], bb, answers);
        if !done {
          return false;
        }
        prediction := prediction[bb := pr];
        aMisses, fMisses, conflicts := aMisses[bb := am], fMisses[bb := fm], conflicts[bb := cf];
        assert g.blocks[..i + 1] == g.blocks[..i] + [bb];
      }
      assert g.blocks[..|g.blocks|] == g.blocks;
      return true;
    }

    /** `analize`: after it the results mean what the fixpoints and the search promise, and every bundle is
        classified unless some block inside a loop is entered beside the header. */
    method Analize(answers: (nat, nat) -> Answers, ghost rank: seq<nat>) returns (ok: bool)
      requires Valid() && Cleared(rmb) && Cleared(lmb) && Searchable(g, table, rank)
      requires forall b | b in g.blocks :: aMisses[b] == fMisses[b] == conflicts[b] == []
      modifies this
      ensures Valid() && Results().Correct(code)
      ensures g.Reverse().Valid() && Exact(g.Reverse(), refs, lmb)
      ensures ok ==> forall b | b in g.blocks ::
                BlockClassified(Results(), code[b], b, answers, prediction[b], aMisses[b], fMisses[b], conflicts[b])
      ensures ok || exists b | b in g.blocks :: EnteredAside(g, table, b)
    {
      CalcRmb();
      CalcLmb();
      CalcMust(rank);
      ok := ClassifyInstr(answers);
      assert forall b: nat, line: nat | b in g.blocks && line < LINES ::
          MustLineIsRight(g, table, refs, rmb, b, line, must[b][line]);
      if !ok {
        ghost var b :| b in g.blocks && Aborted in Decisions(Results(), code[b], b, answers);
        BlockDecisions(Results(), code, code[b], b, answers);
      }
    }
  }

  /** The list holds exactly the places with the prediction, in order. */
  ghost predicate ListsPlaces(list: seq<nat>, pr: seq<Prediction>, what: Prediction) {
    && (forall j: nat :: j in list <==> j < |pr| && pr[j] == what)
    && forall x, y | 0 <= x < y < |list| :: list[x] < list[y]
  }

  lemma {:induction false} ListedPlaces(ds: seq<Decision>, what: Prediction)
    ensures forall j: nat :: j in Listed(ds, what) <==> j < |ds| && ds[j] == Decision(what, true)
    ensures forall x, y | 0 <= x < y < |Listed(ds, what)| :: Listed(ds, what)[x] < Listed(ds, what)[y]
  {
    if ds != [] {
      var rest := ds[..|ds| - 1];
      ListedPlaces(rest, what);
      if Last(ds) == Decision(what, true) {
        OnePlaceMore(Listed(rest, what), |ds| - 1);
      }
    }
  }

  lemma OnePlaceMore(places: seq<nat>, n: nat)
    requires forall j: nat :: j in places ==> j < n
    requires forall x, y | 0 <= x < y < |places| :: places[x] < places[y]
    ensures forall x, y | 0 <= x < y < |places + [n]| :: (places + [n])[x] < (places + [n])[y]
    ensures forall j: nat :: j in places + [n] <==> j in places || j == n
  {
    forall x, y | 0 <= x < y < |places + [n]|
      ensures (places + [n])[x] < (places + [n])[y]
    {
      assert places[x] in places;
    }
  }

  lemma AllListed(ds: seq<Decision>, what: Prediction)
    requires Aborted !in ds && Decision(what, false) !in ds
    ensures ListsPlaces(Listed(ds, what), Predictions(ds), what)
  {
    ListedPlaces(ds, what);
    forall j: nat | j < |ds|
      ensures ds[j] == Decision(what, true) <==> Predictions(ds)[j] == what
    {
      assert ds[j] in ds;
    }
  }

  /** The three lists agree with the predictions, as the timing pass asserts. */
  lemma ListsMatchPredictions(f: Facts, code: seq<seq<Bundle>>, bundles: seq<Bundle>, b: nat, answers: (nat, nat) -> Answers,
                              pr: seq<Prediction>, am: seq<nat>, fm: seq<nat>, cf: seq<nat>)
    requires f.Correct(code) && b in f.g.blocks
    requires BlockClassified(f, bundles, b, answers, pr, am, fm, cf)
    ensures |am| == Count(pr, AMiss) && |fm| == Count(pr, FMiss) && |cf| == Count(pr, Conflict)
    ensures ListsPlaces(am, pr, AMiss) && ListsPlaces(fm, pr, FMiss) && ListsPlaces(cf, pr, Conflict)
  {
    var ds := Decisions(f, bundles, b, answers);
    BlockDecisions(f, code, bundles, b, answers);
    AllListed(ds, AMiss);
    AllListed(ds, FMiss);
    AllListed(ds, Conflict);
    ListedCount(ds, AMiss);
    ListedCount(ds, FMiss);
    ListedCount(ds, Conflict);
  }

  lemma {:induction false} ListedCount(ds: seq<Decision>, what: Prediction)
    requires Aborted !in ds
    ensures |Listed(ds, what)| <= Count(Predictions(ds), what)
    ensures |Listed(ds, what)| == Count(Predictions(ds), what) <==> Decision(what, false) !in ds
  {
    if ds != [] {
      var rest := ds[..|ds| - 1];
      ListedCount(rest, what);
      assert ds == rest + [Last(ds)];
      assert Predictions(ds)[..|ds| - 1] == Predictions(rest);
      assert Last(ds) in ds;
    }
  }
}
