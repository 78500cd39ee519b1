/** The integer program of the implicit path enumeration: its variables, objective and constraints. */
module Ipet {
  import opened Graphs
  import opened Loops
  import opened LoopBounds

  datatype Flow = PureFallthrough | ConditionalFallthrough | ConditionalFallthroughPreload | Conditional
                | ConditionalPreload | Jump | Call | Ret

  /** What the analyses before have stored in the blocks. Edge times are keyed by the predecessor, `UNDEF` for the
      edge into the entry. */
  datatype Program = Program(g: Graph, table: LoopTable, firstMiss: seq<bool>, time: seq<map<int, nat>>,
                             ftime: seq<map<int, nat>>, flow: seq<map<nat, Flow>>, bounds: seq<Bounds>) {
    ghost predicate Valid() {
      && table.Valid(g) && table.HeadersEntered(g)
      && |firstMiss| == |time| == |ftime| == |flow| == |bounds| == |g.succ|
      && (forall b | b in g.blocks :: NoDuplicates(g.pred[b]) && (g.pred[b] == [] ==> UNDEF in time[b]))
      && (forall a: nat, b: nat | g.Edge(a, b) :: a in time[b] && (firstMiss[b] ==> a in ftime[b]) && b in flow[a])
    }

    predicate Header(b: nat)
      requires b < |table.loopId| && (table.loopId[b] == UNDEF || table.Has(table.loopId[b]))
    {
      table.IsHeader(b)
    }

    /** `is_entry_loop` for a header and one of its predecessors. */
    ghost predicate EntersLoop(a: nat, b: nat)
      requires Valid() && b in g.blocks
    {
      Header(b) && a !in table.Get(table.loopId[b]).nodes
    }

    /** `is_in_loop`: from a header into its own loop. */
    ghost predicate StaysInLoop(a: nat, b: nat)
      requires Valid() && a in g.blocks
    {
      Header(a) && b in table.Get(table.loopId[a]).nodes
    }
  }

  /** The cycles saved between two blocks. */
  function DeltaOf(f: Flow): int {
    match f
    case ConditionalFallthrough => 8
    case ConditionalPreload => 7
    case ConditionalFallthroughPreload => 2
    case _ => 4
  }

  const DELTA: int := 4

  /** A variable: how often the run takes this edge. `UNDEF` stands for the outside at either end. */
  datatype Var = Var(from: int, to: int, fmiss: bool, entry: bool, exit: bool, loopEntry: bool, fromHeader: bool,
                     time: nat, delta: int, bound: int)

  /** What distinguishes a variable, and what one step of a run says: the two ends and whether there is a first miss. */
  datatype Key = Key(from: int, to: int, fmiss: bool)

  function KeyOf(v: Var): Key {
    Key(v.from, v.to, v.fmiss)
  }

  /** The variables of edges into `b`, in order. */
  function Into(all: seq<Var>, b: nat): seq<Var> {
    if all == [] then [] else Into(all[..|all| - 1], b) + if LastVar(all).to == b then [LastVar(all)] else []
  }

  function OutOf(all: seq<Var>, b: nat): seq<Var> {
    if all == [] then [] else OutOf(all[..|all| - 1], b) + if LastVar(all).from == b then [LastVar(all)] else []
  }

  function LastVar(all: seq<Var>): Var
    requires all != []
  {
    all[|all| - 1]
  }

  // ---------------------------------------------------------------- which variables there should be

  /** The steps a run can take. */
  ghost predicate Legal(prog: Program, k: Key)
    requires prog.Valid()
  {
    var g := prog.g;
    if k.from == UNDEF then k.to in g.blocks && g.pred[k.to] == [] && g.succ[k.to] != [] && !k.fmiss
    else if k.to == UNDEF then k.from in g.blocks && g.succ[k.from] == [] && g.pred[k.from] != [] && !k.fmiss
    else
      && k.from in g.blocks && k.to in g.blocks && g.Edge(k.from, k.to)
      && (k.fmiss ==> prog.firstMiss[k.to] && (prog.Header(k.to) ==> k.from == prog.table.MainPred(g, k.to)))
  }

  ghost function TimeOf(prog: Program, k: Key): nat
    requires prog.Valid() && Legal(prog, k)
  {
    if k.to == UNDEF then 0
    else if k.fmiss then prog.ftime[k.to][k.from]
    else prog.time[k.to][k.from]
  }

  ghost function SavedOn(prog: Program, k: Key): int
    requires prog.Valid() && Legal(prog, k)
  {
    if k.from == UNDEF || k.to == UNDEF then DELTA else DeltaOf(prog.flow[k.from][k.to])
  }

  /** The variable for a step. */
  ghost function VarFor(prog: Program, k: Key): (v: Var)
    requires prog.Valid() && Legal(prog, k)
    ensures KeyOf(v) == k
  {
    var inner := k.from != UNDEF && k.to != UNDEF;
    Var(k.from, k.to, k.fmiss, k.from == UNDEF, k.to == UNDEF,
        inner && prog.EntersLoop(k.from, k.to), inner && prog.StaysInLoop(k.from, k.to),
        TimeOf(prog, k), SavedOn(prog, k),
        if k.fmiss && prog.Header(k.to) then prog.bounds[k.from].outerX else 0)
  }

  /** How many of the variables are for step `k`. */
  function CountFor(all: seq<Var>, k: Key): nat {
    if all == [] then 0 else CountFor(all[..|all| - 1], k) + if KeyOf(LastVar(all)) == k then 1 else 0
  }

  /** There is exactly one variable for every step a run can take, and no other. */
  ghost predicate Exactly(prog: Program, all: seq<Var>)
    requires prog.Valid()
  {
    && (forall i | 0 <= i < |all| :: Legal(prog, KeyOf(all[i])) && all[i] == VarFor(prog, KeyOf(all[i])))
    && (forall k {:trigger CountFor(all, k)} | Legal(prog, k) :: CountFor(all, k) == 1)
  }

  // ---------------------------------------------------------------- linear expressions

  datatype Term = Term(v: Var, coef: int)

  datatype Relation = Equal | AtMost

  datatype Constraint = Constraint(terms: seq<Term>, rel: Relation, rhs: int)

  type Assignment = Var -> nat

  function Value(terms: seq<Term>, x: Assignment): int {
    if terms == [] then 0 else Value(terms[..|terms| - 1], x) + terms[|terms| - 1].coef * x(terms[|terms| - 1].v)
  }

  predicate Holds(c: Constraint, x: Assignment) {
    match c.rel
    case Equal => Value(c.terms, x) == c.rhs
    case AtMost => Value(c.terms, x) <= c.rhs
  }

  /** What a variable contributes to an expression. */
  datatype Weight = Incoming | Outgoing | Missed | Enters(times: int) | Stays | Cost | Toward(to: nat)

  function TermsFor(g: Graph, w: Weight, v: Var): seq<Term> {
    match w
    case Incoming => [Term(v, 1)]
    case Outgoing => [Term(v, -1)]
    case Missed => if v.fmiss then [Term(v, 1)] else []
    case Enters(n) => if v.loopEntry then [Term(v, n)] else []
    case Stays => if v.fromHeader then [Term(v, -1)] else []
    case Toward(to) => if v.to == to then [Term(v, 1)] else []
    case Cost =>
      if v.exit then []
      else if 0 <= v.to < |g.succ| && g.succ[v.to] != [] then [Term(v, v.time), Term(v, -v.delta)]
      else [Term(v, v.time)]
  }

  function Terms(g: Graph, w: Weight, vs: seq<Var>): seq<Term> {
    if vs == [] then [] else Terms(g, w, vs[..|vs| - 1]) + TermsFor(g, w, vs[|vs| - 1])
  }

  predicate Isolated(g: Graph, b: nat)
    requires b < |g.succ| == |g.pred|
  {
    g.pred[b] == [] && g.succ[b] == []
  }

  /** The objective: the time of every edge into a block, less the cycles saved unless the block is the last. */
  function Objective(g: Graph, all: seq<Var>, blocks: seq<nat>): seq<Term> {
    if blocks == [] then []
    else Objective(g, all, blocks[..|blocks| - 1]) + Terms(g, Cost, Into(all, blocks[|blocks| - 1]))
  }

  function FlowConstraint(g: Graph, all: seq<Var>, b: nat): Constraint {
    Constraint(Terms(g, Incoming, Into(all, b)) + Terms(g, Outgoing, OutOf(all, b)), Equal, 0)
  }

  predicate HasEntry(vs: seq<Var>) {
    exists i | 0 <= i < |vs| :: vs[i].entry
  }

  function LoopConstraint(g: Graph, all: seq<Var>, b: nat, x: Bounds): Constraint {
    var vs := Into(all, b);
    if HasEntry(vs) then Constraint(Terms(g, Incoming, vs), Equal, 1) else Constraint(Terms(g, Incoming, vs), AtMost, x.realX)
  }

  /** The bound of the last first-miss variable. */
  function MissBound(vs: seq<Var>): int {
    if vs == [] then 0 else if vs[|vs| - 1].fmiss then vs[|vs| - 1].bound else MissBound(vs[..|vs| - 1])
  }

  function CacheConstraint(g: Graph, all: seq<Var>, b: nat, header: bool, x: Bounds): Constraint {
    Constraint(Terms(g, Missed, Into(all, b)), AtMost, if header then MissBound(Into(all, b)) else x.outerX)
  }

  function AutoloopConstraint(g: Graph, all: seq<Var>, b: nat, x: Bounds): Constraint {
    Constraint(Terms(g, Enters(x.innerX), Into(all, b)) + Terms(g, Stays, OutOf(all, b)), Equal, 0)
  }

  // ---------------------------------------------------------------- building the program

  class Builder {
    const prog: Program
    var bbIn: seq<seq<Var>>
    var bbOut: seq<seq<Var>>
    var all: seq<Var>

    /** The lists of the blocks hold the variables of their edges. */
    ghost predicate Lists()
      reads this
    {
      && |bbIn| == |bbOut| == |prog.g.succ|
      && forall b: nat | b < |bbIn| :: bbIn[b] == Into(all, b) && bbOut[b] == OutOf(all, b)
    }

    constructor (prog: Program)
      ensures this.prog == prog && all == [] && Lists()
    {
      this.prog := prog;
      bbIn, bbOut := seq(|prog.g.succ|, _ => []), seq(|prog.g.succ|, _ => []);
      all := [];
    }

    /** `store_edge_info` */
    method StoreEdgeInfo(from: int, to: int, fmiss: bool, time: nat, bound: int)
      requires prog.Valid() && Lists() && Legal(prog, Key(from, to, fmiss)) && time == TimeOf(prog, Key(from, to, fmiss))
      requires bound == if fmiss && prog.Header(to) then prog.bounds[from].outerX else 0
      modifies this
      ensures Lists() && all == old(all) + [VarFor(prog, Key(from, to, fmiss))]
    {
      var loopEntry, fromHeader, delta := EdgeFlags(from, to);
      var v := Var(from, to, fmiss, from == UNDEF, to == UNDEF, loopEntry, fromHeader, time, delta, bound);
      assert v == VarFor(prog, Key(from, to, fmiss));
      Record(v);
    }

    /** How the edge lies to the loops, and the cycles saved on it. */
    method EdgeFlags(from: int, to: int) returns (loopEntry: bool, fromHeader: bool, delta: int)
      requires prog.Valid() && (Legal(prog, Key(from, to, false)) || Legal(prog, Key(from, to, true)))
      ensures loopEntry == (from != UNDEF && to != UNDEF && prog.EntersLoop(from, to))
      ensures fromHeader == (from != UNDEF && to != UNDEF && prog.StaysInLoop(from, to))
      ensures delta == if from == UNDEF || to == UNDEF then DELTA else DeltaOf(prog.flow[from][to])
    {
      loopEntry, fromHeader, delta := false, false, 4;
      if from != UNDEF && to != UNDEF {
        if prog.Header(to) {
          loopEntry := from !in prog.table.Get(prog.table.loopId[to]).nodes;
          if prog.Header(from) {
            fromHeader := to in prog.table.Get(prog.table.loopId[from]).nodes;
          }
        } else if prog.Header(from) {
          fromHeader := to in prog.table.Get(prog.table.loopId[from]).nodes;
        }
        var flow := prog.flow[from][to];
        if flow == ConditionalFallthrough {
          delta := 8;
        } else if flow == ConditionalPreload {
          delta := 7;
        } else if flow == ConditionalFallthroughPreload {
          delta := 2;
        }
      }
    }

    /** Puts a variable into the lists it belongs to. */
    method Record(v: Var)
      requires Lists() && UNDEF <= v.from < |bbIn| && UNDEF <= v.to < |bbIn|
      modifies this
      ensures Lists() && all == old(all) + [v]
    {
      if v.to != UNDEF {
        bbIn := bbIn[v.to := bbIn[v.to] + [v]];
      }
      if v.from != UNDEF {
        bbOut := bbOut[v.from := bbOut[v.from] + [v]];
      }
      all := all + [v];
      assert all[..|all| - 1] == old(all);
    }

    /** `create_fmiss_vars` for a loop header: the main predecessor can cause the first miss, the others never. */
    method CreateHeaderVars(b: nat)
      requires prog.Valid() && Lists() && b in prog.g.blocks && prog.firstMiss[b] && prog.Header(b)
      modifies this
      ensures Lists() && all == old(all) + HeaderVars(prog, b)
    {
      var mainPred, inLoop := GetInLoopPredecessors(prog.g, prog.table, b);
      InLoopArePreds(prog, b);
      assert mainPred in prog.g.pred[b];
      StoreEdgeInfo(mainPred, b, true, prog.ftime[b][mainPred], prog.bounds[mainPred].outerX);
      StoreEdgeInfo(mainPred, b, false, prog.time[b][mainPred], 0);
      CreatePlainVars(b, inLoop);
    }

    /** `create_fmiss_vars` for other blocks: every edge can cause the first miss. */
    method CreateSplitVars(b: nat)
      requires prog.Valid() && Lists() && b in prog.g.blocks && prog.firstMiss[b] && !prog.Header(b)
      modifies this
      ensures Lists() && all == old(all) + SplitVars(prog, b, prog.g.pred[b])
    {
      var preds := prog.g.pred[b];
      for i := 0 to |preds|
        invariant Lists() && all == old(all) + SplitVars(prog, b, preds[..i])
      {
        assert preds[i] in prog.g.pred[b];
        StoreEdgeInfo(preds[i], b, true, prog.ftime[b][preds[i]], 0);
        StoreEdgeInfo(preds[i], b, false, prog.time[b][preds[i]], 0);
        assert preds[..i + 1][..i] == preds[..i];
      }
      assert preds[..|preds|] == preds;
    }

    /** Variables without first miss, as `create_normal_vars` makes them. */
    method CreatePlainVars(b: nat, preds: seq<nat>)
      requires prog.Valid() && Lists() && b in prog.g.blocks && forall i | 0 <= i < |preds| :: preds[i] in prog.g.pred[b]
      modifies this
      ensures Lists() && all == old(all) + NormalVars(prog, b, preds)
    {
      for i := 0 to |preds|
        invariant Lists() && all == old(all) + NormalVars(prog, b, preds[..i])
      {
        assert preds[i] in prog.g.pred[b];
        StoreEdgeInfo(preds[i], b, false, prog.time[b][preds[i]], 0);
        assert preds[..i + 1][..i] == preds[..i];
      }
      assert preds[..|preds|] == preds;
    }

    /** The body of `create_variables` for one block. */
    method CreateVarsOf(b: nat)
      requires prog.Valid() && Lists() && b in prog.g.blocks
      modifies this
      ensures Lists() && all == old(all) + VarsOf(prog, b)
    {
      if prog.g.pred[b] == [] && prog.g.succ[b] == [] {
        return;
      }
      CreateIncoming(b);
      if prog.g.succ[b] == [] {
        StoreEdgeInfo(b, UNDEF, false, 0, 0);
      }
    }

    method CreateIncoming(b: nat)
      requires prog.Valid() && Lists() && b in prog.g.blocks && !Isolated(prog.g, b)
      modifies this
      ensures Lists() && all == old(all) + IncomingVars(prog, b)
    {
      if prog.g.pred[b] == [] {
        StoreEdgeInfo(UNDEF, b, false, prog.time[b][UNDEF], 0);
      } else if !prog.firstMiss[b] {
        CreatePlainVars(b, prog.g.pred[b]);
      } else if prog.Header(b) {
        CreateHeaderVars(b);
      } else {
        CreateSplitVars(b);
      }
    }

    /** `create_variables` */
    method CreateVariables()
      requires prog.Valid() && Lists() && all == []
      modifies this
      ensures Lists() && all == AllVars(prog, prog.g.blocks)
    {
      var blocks := prog.g.blocks;
      for i := 0 to |blocks|
        invariant Lists() && all == AllVars(prog, blocks[..i])
      {
        CreateVarsOf(blocks[i]);
        ghost var done := blocks[..i + 1];
        assert done[..|done| - 1] == blocks[..i] && done[|done| - 1] == blocks[i];
      }
      assert blocks[..|blocks|] == blocks;
    }

    /** `create_objective` */
    method CreateObjective() returns (terms: seq<Term>)
      requires prog.g.SuccValid() && Lists()
      ensures terms == Objective(prog.g, all, prog.g.blocks)
    {
      var g, blocks := prog.g, prog.g.blocks;
      terms := [];
      for i := 0 to |blocks|
        invariant terms == Objective(g, all, blocks[..i])
      {
        var b := blocks[i];
        assert b < |bbIn|;
        var part := Gather(Cost, bbIn[b]);
        terms := terms + part;
        ghost var done := blocks[..i + 1];
        assert done[..|done| - 1] == blocks[..i] && done[|done| - 1] == b;
      }
      assert blocks[..|blocks|] == blocks;
    }

    /** One pass over a variable list, appending the terms that are written for each variable. */
    method Gather(w: Weight, vs: seq<Var>) returns (terms: seq<Term>)
      ensures terms == Terms(prog.g, w, vs)
    {
      terms := [];
      for i := 0 to |vs|
        invariant terms == Terms(prog.g, w, vs[..i])
      {
        terms := terms + TermsFor(prog.g, w, vs[i]);
        assert vs[..i + 1][..i] == vs[..i];
      }
      assert vs[..|vs|] == vs;
    }

    /** `extract_loop_constraints` for one block that is not isolated. */
    method LoopRow(b: nat) returns (c: Constraint)
      requires Lists() && b < |bbIn| == |prog.bounds|
      ensures c == LoopConstraint(prog.g, all, b, prog.bounds[b])
    {
      var vs := bbIn[b];
      var foundEntry := false;
      for i := 0 to |vs|
        invariant foundEntry <==> HasEntry(vs[..i])
      {
        if vs[i].entry {
          foundEntry := true;
          assert vs[..i + 1][i].entry;
        } else if foundEntry {
          var k :| 0 <= k < i && vs[..i][k].entry;
          assert vs[..i + 1][k].entry;
        }
      }
      assert vs[..|vs|] == vs;
      var terms := Gather(Incoming, vs);
      c := if foundEntry then Constraint(terms, Equal, 1) else Constraint(terms, AtMost, prog.bounds[b].realX);
    }

    /** `extract_flow_conserv_constraints` for one block that is not isolated. */
    method FlowRow(b: nat) returns (c: Constraint)
      requires Lists() && b < |bbIn|
      ensures c == FlowConstraint(prog.g, all, b)
    {
      var ins := Gather(Incoming, bbIn[b]);
      var outs := Gather(Outgoing, bbOut[b]);
      c := Constraint(ins + outs, Equal, 0);
    }

    /** `extract_cache_constraints` for one block with a first miss. */
    method CacheRow(b: nat) returns (c: Constraint)
      requires prog.Valid() && Lists() && b in prog.g.blocks
      ensures c == CacheConstraint(prog.g, all, b, prog.Header(b), prog.bounds[b])
    {
      var vs := bbIn[b];
      var bound := 0;
      for i := 0 to |vs|
        invariant bound == MissBound(vs[..i])
      {
        if vs[i].fmiss {
          bound := vs[i].bound;
        }
        assert vs[..i + 1][..i] == vs[..i];
      }
      assert vs[..|vs|] == vs;
      var terms := Gather(Missed, vs);
      c := Constraint(terms, AtMost, if prog.Header(b) then bound else prog.bounds[b].outerX);
    }

    /** `extract_autoloop_constraints` for one header. */
    method AutoloopRow(b: nat) returns (c: Constraint)
      requires Lists() && b < |bbIn| == |prog.bounds|
      ensures c == AutoloopConstraint(prog.g, all, b, prog.bounds[b])
    {
      var ins := Gather(Enters(prog.bounds[b].innerX), bbIn[b]);
      var outs := Gather(Stays, bbOut[b]);
      c := Constraint(ins + outs, Equal, 0);
    }

    /** `extract_all_constraints`, after the declarations that fix entry and exit variables to 1. */
    method Extract() returns (rows: seq<Constraint>)
      requires prog.Valid() && Lists()
      ensures forall c :: c in rows <==> Row(prog, all, c)
    {
      var blocks := prog.g.blocks;
      rows := FixedRows();
      for i := 0 to |blocks|
        invariant RowsUpTo(prog, all, i, rows)
      {
        var more := BlockRows(blocks[i]);
        MoreRows(prog, all, i, rows, more);
        rows := rows + more;
      }
    }

    /** `get_transfer_count`: what the solution sends from one block to another. */
    method TransferCount(x: Assignment, a: nat, b: nat) returns (count: int)
      requires Lists() && a < |bbOut|
      ensures count == Transfer(prog.g, all, x, a, b)
    {
      var vs := bbOut[a];
      count := 0;
      for i := 0 to |vs|
        invariant count == Value(Terms(prog.g, Toward(b), vs[..i]), x)
      {
        TowardGrows(prog.g, vs, i, b, x);
        if vs[i].to == b {
          count := count + x(vs[i]);
        }
      }
      assert vs[..|vs|] == vs;
    }

    /** `update_cfg`: the count of every block is the sum of its incoming variables. */
    method UpdateCfg(x: Assignment) returns (wcc: seq<int>)
      requires prog.g.SuccValid() && Lists()
      ensures |wcc| == |prog.g.succ|
      ensures forall b: nat | b < |wcc| :: wcc[b] == if b in prog.g.blocks then BlockCount(prog.g, all, x, b) else 0
    {
      var blocks := prog.g.blocks;
      wcc := seq(|prog.g.succ|, _ => 0);
      for i := 0 to |blocks|
        invariant |wcc| == |prog.g.succ|
        invariant forall b: nat | b < |wcc| :: wcc[b] == if b in blocks[..i] then BlockCount(prog.g, all, x, b) else 0
      {
        var b := blocks[i];
        var count := SumOf(x, bbIn[b]);
        wcc := wcc[b := count];
        assert blocks[..i + 1] == blocks[..i] + [b];
      }
      assert blocks[..|blocks|] == blocks;
    }

    method SumOf(x: Assignment, vs: seq<Var>) returns (count: int)
      ensures count == Value(Terms(prog.g, Incoming, vs), x)
    {
      count := 0;
      for i := 0 to |vs|
        invariant count == Value(Terms(prog.g, Incoming, vs[..i]), x)
      {
        assert vs[..i + 1][..i] == vs[..i];
        ValueJoins(Terms(prog.g, Incoming, vs[..i]), [Term(vs[i], 1)], x);
        OneTermValue(Term(vs[i], 1), x);
        count := count + x(vs[i]);
      }
      assert vs[..|vs|] == vs;
    }

    method FixedRows() returns (rows: seq<Constraint>)
      requires prog.Valid()
      ensures RowsUpTo(prog, all, 0, rows)
    {
      rows := [];
      for i := 0 to |all|
        invariant forall c :: c in rows <==> exists j :: 0 <= j < i && FixedRow(all, j, c)
      {
        ghost var before := rows;
        if all[i].entry || all[i].exit {
          rows := rows + [Fixed(all[i])];
        }
        assert forall c :: c in rows <==> c in before || FixedRow(all, i, c);
      }
    }

    method BlockRows(b: nat) returns (rows: seq<Constraint>)
      requires prog.Valid() && Lists() && b in prog.g.blocks
      ensures forall c :: c in rows <==> BlockRow(prog, all, b, c)
    {
      rows := [];
      if !(prog.g.pred[b] == [] && prog.g.succ[b] == []) {
        var loopRow := LoopRow(b);
        var flowRow := FlowRow(b);
        rows := [loopRow, flowRow];
      }
      if prog.firstMiss[b] {
        var cacheRow := CacheRow(b);
        rows := rows + [cacheRow];
      }
      if prog.Header(b) {
        var autoRow := AutoloopRow(b);
        rows := rows + [autoRow];
      }
    }
  }

  /** What an assignment sends from `a` to `b`. */
  function Transfer(g: Graph, all: seq<Var>, x: Assignment, a: nat, b: nat): int {
    Value(Terms(g, Toward(b), OutOf(all, a)), x)
  }

  /** How often a block runs. */
  function BlockCount(g: Graph, all: seq<Var>, x: Assignment, b: nat): int {
    Value(Terms(g, Incoming, Into(all, b)), x)
  }

  lemma {:induction false} ValueJoins(s: seq<Term>, t: seq<Term>, x: Assignment)
    ensures Value(s + t, x) == Value(s, x) + Value(t, x)
  {
    if t == [] {
      assert s + t == s;
    } else {
      assert (s + t)[..|s + t| - 1] == s + t[..|t| - 1];
      ValueJoins(s, t[..|t| - 1], x);
    }
  }

  lemma OneTermValue(t: Term, x: Assignment)
    ensures Value([t], x) == t.coef * x(t.v) && Value([], x) == 0
  {
    assert [t][..0] == [];
  }

  lemma TowardGrows(g: Graph, vs: seq<Var>, i: nat, b: nat, x: Assignment)
    requires i < |vs|
    ensures Value(Terms(g, Toward(b), vs[..i + 1]), x) ==
            Value(Terms(g, Toward(b), vs[..i]), x) + if vs[i].to == b then x(vs[i]) else 0
  {
    assert vs[..i + 1][..i] == vs[..i];
    ValueJoins(Terms(g, Toward(b), vs[..i]), TermsFor(g, Toward(b), vs[i]), x);
    OneTermValue(Term(vs[i], 1), x);
  }

  function Fixed(v: Var): Constraint {
    Constraint([Term(v, 1)], Equal, 1)
  }

  /** The constraints about block `b`. */
  ghost predicate BlockRow(prog: Program, all: seq<Var>, b: nat, c: Constraint)
    requires prog.Valid() && b in prog.g.blocks
  {
    || (!Isolated(prog.g, b) && c == LoopConstraint(prog.g, all, b, prog.bounds[b]))
    || (!Isolated(prog.g, b) && c == FlowConstraint(prog.g, all, b))
    || (prog.firstMiss[b] && c == CacheConstraint(prog.g, all, b, prog.Header(b), prog.bounds[b]))
    || (prog.Header(b) && c == AutoloopConstraint(prog.g, all, b, prog.bounds[b]))
  }

  /** The constraints of the program. */
  ghost predicate Row(prog: Program, all: seq<Var>, c: Constraint)
    requires prog.Valid()
  {
    || (exists i :: 0 <= i < |all| && FixedRow(all, i, c))
    || (exists i :: 0 <= i < |prog.g.blocks| && BlockRow(prog, all, prog.g.blocks[i], c))
  }

  predicate FixedRow(all: seq<Var>, i: nat, c: Constraint)
    requires i < |all|
  {
    (all[i].entry || all[i].exit) && c == Fixed(all[i])
  }

  /** The rows of the fixed variables and of the first `n` blocks. */
  ghost predicate RowsUpTo(prog: Program, all: seq<Var>, n: nat, rows: seq<Constraint>)
    requires prog.Valid() && n <= |prog.g.blocks|
  {
    forall c :: c in rows <==>
      || (exists i :: 0 <= i < |all| && FixedRow(all, i, c))
      || (exists i :: 0 <= i < n && BlockRow(prog, all, prog.g.blocks[i], c))
  }

  lemma MoreRows(prog: Program, all: seq<Var>, n: nat, rows: seq<Constraint>, more: seq<Constraint>)
    requires prog.Valid() && n < |prog.g.blocks| && RowsUpTo(prog, all, n, rows)
    requires forall c :: c in more <==> BlockRow(prog, all, prog.g.blocks[n], c)
    ensures RowsUpTo(prog, all, n + 1, rows + more)
  {
  }

  // ---------------------------------------------------------------- the variables in order

  ghost function NormalVars(prog: Program, b: nat, preds: seq<nat>): seq<Var>
    requires prog.Valid() && b in prog.g.blocks && forall i | 0 <= i < |preds| :: preds[i] in prog.g.pred[b]
  {
    if preds == [] then []
    else NormalVars(prog, b, preds[..|preds| - 1]) + [VarFor(prog, Key(preds[|preds| - 1], b, false))]
  }

  ghost function SplitVars(prog: Program, b: nat, preds: seq<nat>): seq<Var>
    requires prog.Valid() && b in prog.g.blocks && forall i | 0 <= i < |preds| :: preds[i] in prog.g.pred[b]
    requires prog.firstMiss[b] && !prog.Header(b)
  {
    if preds == [] then []
    else SplitVars(prog, b, preds[..|preds| - 1]) +
         [VarFor(prog, Key(preds[|preds| - 1], b, true)), VarFor(prog, Key(preds[|preds| - 1], b, false))]
  }

  lemma InLoopArePreds(prog: Program, b: nat)
    requires prog.Valid() && b in prog.g.blocks && prog.Header(b)
    ensures var inLoop := prog.table.InLoopPreds(prog.g, b); forall i | 0 <= i < |inLoop| :: inLoop[i] in prog.g.pred[b]
  {
    var inLoop := prog.table.InLoopPreds(prog.g, b);
    forall i | 0 <= i < |inLoop|
      ensures inLoop[i] in prog.g.pred[b]
    {
      assert inLoop[i] in inLoop;
    }
  }

  ghost function HeaderVars(prog: Program, b: nat): seq<Var>
    requires prog.Valid() && b in prog.g.blocks && prog.firstMiss[b] && prog.Header(b)
  {
    InLoopArePreds(prog, b);
    var m := prog.table.MainPred(prog.g, b);
    [VarFor(prog, Key(m, b, true)), VarFor(prog, Key(m, b, false))] + NormalVars(prog, b, prog.table.InLoopPreds(prog.g, b))
  }

  ghost function IncomingVars(prog: Program, b: nat): seq<Var>
    requires prog.Valid() && b in prog.g.blocks && !Isolated(prog.g, b)
  {
    if prog.g.pred[b] == [] then [VarFor(prog, Key(UNDEF, b, false))]
    else if !prog.firstMiss[b] then NormalVars(prog, b, prog.g.pred[b])
    else if prog.Header(b) then HeaderVars(prog, b)
    else SplitVars(prog, b, prog.g.pred[b])
  }

  ghost function ExitVars(prog: Program, b: nat): seq<Var>
    requires prog.Valid() && b in prog.g.blocks && !Isolated(prog.g, b)
  {
    if prog.g.succ[b] == [] then [VarFor(prog, Key(b, UNDEF, false))] else []
  }

  ghost function VarsOf(prog: Program, b: nat): seq<Var>
    requires prog.Valid() && b in prog.g.blocks
  {
    if Isolated(prog.g, b) then [] else IncomingVars(prog, b) + ExitVars(prog, b)
  }

  ghost function AllVars(prog: Program, blocks: seq<nat>): seq<Var>
    requires prog.Valid() && forall i | 0 <= i < |blocks| :: blocks[i] in prog.g.blocks
  {
    if blocks == [] then [] else AllVars(prog, blocks[..|blocks| - 1]) + VarsOf(prog, blocks[|blocks| - 1])
  }
}
