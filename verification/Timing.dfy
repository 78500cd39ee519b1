/** The part of the timing pass that turns predictions into miss counts and penalties on incoming edges. */
module Timing {
  import opened Graphs
  import opened Loops
  import opened Options
  import opened CacheState
  import opened MayStates
  import opened MustSearch
  import opened CacheRuns
  import opened Classification

  /** How often `a` is listed. */
  function Occurrences(preds: seq<nat>, a: nat): nat {
    multiset(preds)[a]
  }

  /** Only blocks with several predecessors have conflicts, as `conflict_timing` asserts. */
  lemma ConflictHasSeveralPreds(f: Facts, bundles: seq<Bundle>, b: nat, j: nat, answers: Answers)
    requires f.Valid() && f.table.HeadersEntered(f.g) && b in f.g.blocks && j < |bundles|
    requires f.Decide(bundles, b, j, answers) == Decision(Conflict, true)
    ensures |f.g.pred[b]| > 1
  {
    if f.table.IsHeader(b) {
      var m, q := f.table.MainPred(f.g, b), f.table.InLoopPreds(f.g, b)[0];
      assert q in f.table.InLoopPreds(f.g, b);
    }
  }

  /** `conflict_timing`: adds the penalty of one conflict bundle to the time of every charged edge. */
  method ConflictTiming(f: Facts, b: nat, u: Bundle, times: map<Option<nat>, nat>) returns (result: map<Option<nat>, nat>)
    requires f.Valid() && b in f.g.blocks && |f.g.pred[b]| > 1
    requires forall i | 0 <= i < |f.g.pred[b]| :: Some(f.g.pred[b][i]) in times
    ensures result.Keys == times.Keys
    ensures forall a | a in f.g.blocks && Some(a) in times ::
              result[Some(a)] == times[Some(a)] + if f.Charged(a, u) then PENALTY * Occurrences(f.g.pred[b], a) else 0
  {
    var preds := f.g.pred[b];
    var t, line := u.Tag(), u.Line();
    result := times;
    for i := 0 to |preds|
      invariant result.Keys == times.Keys
      invariant forall a | a in f.g.blocks && Some(a) in times ::
                  result[Some(a)] == times[Some(a)] + if f.Charged(a, u) then PENALTY * Occurrences(preds[..i], a) else 0
    {
      var a := preds[i];
      assert preds[..i + 1] == preds[..i] + [a];
      assert Some(a) in result;
      if t !in f.rmb[a][line] {
        result := result[Some(a) := result[Some(a)] + PENALTY];
      } else {
        if |f.rmb[a][line]| > 1 {
          result := result[Some(a) := result[Some(a)] + PENALTY];
        }
        if |f.rmb[a][line]| == 1 && t !in f.must[a][line] {
          result := result[Some(a) := result[Some(a)] + PENALTY];
        }
      }
    }
    assert preds[..|preds|] == preds;
  }

  /** The counting pass of `add_cache_miss_penalty` over one block. */
  method CountMisses(f: Facts, bundles: seq<Bundle>, b: nat, predictions: seq<Prediction>)
    returns (aMisses: nat, fMisses: nat, conflicts: nat, times: map<Option<nat>, nat>)
    requires f.Valid() && b in f.g.blocks && |predictions| == |bundles|
    requires Conflict in predictions ==> |f.g.pred[b]| > 1
    ensures aMisses == Count(predictions, AMiss)
    ensures fMisses == Count(predictions, FMiss)
    ensures conflicts == Count(predictions, Conflict)
    ensures TimesAre(f, bundles, predictions, f.g.pred[b], times)
  {
    aMisses, fMisses, conflicts := 0, 0, 0;
    times := NoPenalty(f.g.pred[b]);
    for j := 0 to |bundles|
      invariant aMisses == Count(predictions[..j], AMiss)
      invariant fMisses == Count(predictions[..j], FMiss)
      invariant conflicts == Count(predictions[..j], Conflict)
      invariant TimesAre(f, bundles[..j], predictions[..j], f.g.pred[b], times)
    {
      assert predictions[..j + 1][..j] == predictions[..j];
      if predictions[j] == AMiss {
        aMisses := aMisses + 1;
      }
      if predictions[j] == FMiss {
        fMisses := fMisses + 1;
      }
      ghost var before := times;
      if predictions[j] == Conflict {
        conflicts := conflicts + 1;
        times := ConflictTiming(f, b, bundles[j], times);
      }
      TimesStep(f, bundles, predictions, f.g.pred[b], j, before, times);
    }
    assert predictions[..|bundles|] == predictions && bundles[..|bundles|] == bundles;
  }

  /** The penalties recorded so far on every incoming edge; an entry block has one imaginary edge. */
  ghost predicate TimesAre(f: Facts, bundles: seq<Bundle>, predictions: seq<Prediction>, preds: seq<nat>, times: map<Option<nat>, nat>)
    requires f.Valid() && |predictions| == |bundles| && forall i | 0 <= i < |preds| :: preds[i] in f.g.blocks
  {
    && (preds == [] ==> times == map[None := 0])
    && forall a | a in preds ::
         && Some(a) in times
         && times[Some(a)] == PENALTY * ChargedConflicts(f, bundles, predictions, a) * Occurrences(preds, a)
  }

  method NoPenalty(preds: seq<nat>) returns (times: map<Option<nat>, nat>)
    ensures preds == [] ==> times == map[None := 0]
    ensures forall a | a in preds :: Some(a) in times && times[Some(a)] == 0
  {
    times := map[];
    for i := 0 to |preds|
      invariant i == 0 ==> times == map[]
      invariant forall k | 0 <= k < i :: Some(preds[k]) in times && times[Some(preds[k])] == 0
    {
      times := times[Some(preds[i]) := 0];
    }
    if |preds| == 0 {
      times := times[None := 0];
    }
  }

  lemma TimesStep(f: Facts, bundles: seq<Bundle>, predictions: seq<Prediction>, preds: seq<nat>, j: nat,
                  before: map<Option<nat>, nat>, after: map<Option<nat>, nat>)
    requires f.Valid() && j < |bundles| == |predictions| && forall i | 0 <= i < |preds| :: preds[i] in f.g.blocks
    requires TimesAre(f, bundles[..j], predictions[..j], preds, before)
    requires if predictions[j] == Conflict then
               && preds != [] && after.Keys == before.Keys
               && forall a | a in f.g.blocks && Some(a) in before ::
                    after[Some(a)] == before[Some(a)] + if f.Charged(a, bundles[j]) then PENALTY * Occurrences(preds, a) else 0
             else after == before
    ensures TimesAre(f, bundles[..j + 1], predictions[..j + 1], preds, after)
  {
    assert predictions[..j + 1][..j] == predictions[..j] && bundles[..j + 1][..j] == bundles[..j];
    forall a | a in preds
      ensures Some(a) in after
      ensures after[Some(a)] ==
              PENALTY * ChargedConflicts(f, bundles[..j + 1], predictions[..j + 1], a) * Occurrences(preds, a)
    {
      ChargeOneMore(ChargedConflicts(f, bundles[..j], predictions[..j], a), Occurrences(preds, a));
    }
  }

  lemma ChargeOneMore(charged: nat, times: nat)
    ensures PENALTY * (charged + 1) * times == PENALTY * charged * times + PENALTY * times
  {
  }

  /** Cycles: the stall cycles of a block, entered along the run, are covered by its always-miss penalties and the
      penalty recorded on the edge it was entered by, besides the first misses that do miss and the lines that a false must
      claim gives away; on a loop-free graph without these. */
  lemma PenaltyCoversStalls(f: Facts, code: seq<seq<Bundle>>, prediction: seq<seq<Prediction>>,
                            answers: (nat, nat) -> Answers, p: seq<nat>, i: nat, aMisses: nat, edgeTime: nat)
    requires f.Correct(code) && WellFormedCode(code) && Classified(f, code, prediction, answers)
    requires f.g.IsPath(p) && f.g.pred[p[0]] == [] && i < |p|
    requires aMisses == Count(prediction[p[i]], AMiss)
    requires 0 < i ==> edgeTime == PENALTY * ChargedConflicts(f, code[p[i]], prediction[p[i]], p[i - 1]) *
                                   Occurrences(f.g.pred[p[i]], p[i - 1])
    ensures var stalls := PENALTY * Misses(RunPath(code, Cold(), p[..i]), code[p[i]]);
            var n := |code[p[i]]|;
            && stalls <= PENALTY * aMisses + edgeTime +
                         PENALTY * (LoopMissesAt(f, code, prediction, p, i, n) + |ColdLines(f, code, p, i, n)|)
            && (LoopFree(f.g, f.table) ==> stalls <= PENALTY * aMisses + edgeTime)
  {
    BlockMissBound(f, code, prediction, answers, p, i);
    if 0 < i {
      assert f.g.Edge(p[i - 1], p[i]);
      var charged := ChargedConflicts(f, code[p[i]], prediction[p[i]], p[i - 1]);
      MoreOccurrences(PENALTY * charged, Occurrences(f.g.pred[p[i]], p[i - 1]));
    }
  }

  lemma MoreOccurrences(x: nat, times: nat)
    requires times > 0
    ensures x <= x * times
  {
  }
}
