/** The main program's order of passes: the loop search first, then the cache analysis on the table it leaves. */
module ProgramAnalysis {
  import opened Graphs
  import opened Loops
  import opened CacheState
  import opened LoopSearch
  import opened LoopIdentification
  import opened LoopTables
  import opened MustSearch
  import opened Classification
  import opened CacheAnalysis
  import Tarjan

  /** The entries of `numbers` for the blocks of the graph; other numbers belong to no block. */
  method TableFrom(g: Graph, loops: seq<Loop>, numbers: seq<int>) returns (table: LoopTable)
    requires |numbers| == |g.succ|
    ensures table.loops == loops && |table.loopId| == |g.succ|
    ensures forall b: nat | b < |g.succ| :: table.loopId[b] == if b in g.blocks then numbers[b] else UNDEF
  {
    table := LoopTable(seq(|g.succ|, b requires 0 <= b < |g.succ| => if b in g.blocks then numbers[b] else UNDEF), loops);
  }

  /** `identify_loops`, then `analize`, from the graph and its code alone: both end, no assertion fails, and every
      bundle is classified by results that mean what fixpoints and search promise. */
  method AnalyseProgram(g: Graph, code: seq<seq<Bundle>>, answers: (nat, nat) -> Answers)
    returns (table: LoopTable, analysis: Analysis)
    requires g.Valid() && g.pred[g.root] == [] && Tarjan.RootReachesAll(g) && NoneStaysConnected(g)
    requires |code| == |g.succ|
    ensures Identified(g, table) && table.Valid(g) && table.HeadersEntered(g)
    ensures analysis.Valid() && analysis.g == g && analysis.table == table && analysis.code == code
    ensures analysis.Results().Correct(code)
    ensures forall b | b in g.blocks ::
              BlockClassified(analysis.Results(), code[b], b, answers, analysis.prediction[b],
                              analysis.aMisses[b], analysis.fMisses[b], analysis.conflicts[b])
  {
    var cfg := new Cfg(g);
    cfg.IdentifyLoops();
    table := TableFrom(g, cfg.loopList, cfg.loopId);
    TableServes(g, table);
    analysis := new Analysis(g, table, code);
    var ok := analysis.Analize(answers, Ranks(g, table));
    assert ok;
  }
}
