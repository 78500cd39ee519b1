/** What the pruner takes over from a solution of the integer program. */
module Solutions {
  import opened Graphs
  import opened Loops
  import opened Ipet
  import opened IpetRuns
  import opened IpetSound
  import opened Transfers
  import Pruner

  /** The counts of the blocks and of the edges, as the pruner asks for them. */
  ghost predicate IsSolution(g: Graph, all: seq<Var>, x: Assignment, sol: Pruner.Solution) {
    && |sol.wcc| == |sol.transfer| == |g.succ| && (forall a: nat | a < |sol.transfer| :: |sol.transfer[a]| == |sol.wcc|)
    && (forall b: nat | b < |sol.wcc| :: sol.wcc[b] == if b in g.blocks then BlockCount(g, all, x, b) else 0)
    && (forall a: nat, b: nat | a < |sol.wcc| && b < |sol.wcc| :: sol.transfer[a][b] == Transfer(g, all, x, a, b))
  }

  /** Reads the solution off an assignment. */
  method ReadSolution(builder: Builder, x: Assignment) returns (sol: Pruner.Solution)
    requires builder.prog.g.SuccValid() && builder.Lists()
    ensures IsSolution(builder.prog.g, builder.all, x, sol)
  {
    var wcc := builder.UpdateCfg(x);
    var transfer: seq<seq<int>> := [];
    for a := 0 to |wcc|
      invariant |transfer| == a && forall c: nat | c < a :: |transfer[c]| == |wcc|
      invariant forall c: nat, b: nat | c < a && b < |wcc| :: transfer[c][b] == Transfer(builder.prog.g, builder.all, x, c, b)
    {
      var row := ReadRow(builder, x, a, |wcc|);
      transfer := transfer + [row];
    }
    sol := Pruner.Solution(wcc, transfer);
  }

  method ReadRow(builder: Builder, x: Assignment, a: nat, size: nat) returns (row: seq<int>)
    requires builder.Lists() && a < |builder.bbOut|
    ensures |row| == size && forall b: nat | b < size :: row[b] == Transfer(builder.prog.g, builder.all, x, a, b)
  {
    row := [];
    for b := 0 to size
      invariant |row| == b && forall c: nat | c < b :: row[c] == Transfer(builder.prog.g, builder.all, x, a, c)
    {
      var count := builder.TransferCount(x, a, b);
      row := row + [count];
    }
  }

  /** A feasible assignment meets what the pruner relies on: nothing is negative, and no edge carries more than its ends. */
  lemma FeasibleIsConserved(prog: Program, all: seq<Var>, x: Assignment, sol: Pruner.Solution)
    requires prog.Valid() && Feasible(prog, all, x) && IsSolution(prog.g, all, x, sol)
    ensures sol.Fits(prog.g) && sol.Conserved(prog.g)
  {
    var g := prog.g;
    forall a: nat, b: nat | a < |sol.wcc| && b < |sol.wcc|
      ensures sol.transfer[a][b] >= 0
    {
      TowardWithin(g, OutOf(all, a), b, x);
    }
    forall a: nat, b: nat | a < |sol.wcc| && b < |sol.wcc| && g.Edge(a, b)
      ensures sol.transfer[a][b] <= sol.wcc[a] && sol.transfer[a][b] <= sol.wcc[b]
    {
      var i :| 0 <= i < |g.succ[a]| && g.succ[a][i] == b;
      assert g.succ[a][i] in g.blocks && a in g.blocks;
      assert !Isolated(g, a);
      TransferWithinCounts(prog, all, x, a, b);
    }
  }

  /** The entry variable is fixed, so the entry block runs. */
  lemma EntryRuns(prog: Program, all: seq<Var>, x: Assignment, sol: Pruner.Solution)
    requires prog.Valid() && Exactly(prog, all) && Feasible(prog, all, x) && IsSolution(prog.g, all, x, sol)
    requires prog.g.pred[prog.g.root] == [] && prog.g.succ[prog.g.root] != []
    ensures sol.wcc[prog.g.root] == 1
  {
    var g, b := prog.g, prog.g.root;
    var i :| 0 <= i < |g.blocks| && g.blocks[i] == b;
    var c := LoopConstraint(g, all, b, prog.bounds[b]);
    assert BlockRow(prog, all, g.blocks[i], c) && Row(prog, all, c) && Holds(c, x);
    EntryListed(prog, all, b);
  }

  /** In a solution the variables into the program and out of it are one. */
  lemma EndsAreOne(prog: Program, all: seq<Var>, x: Assignment, i: nat)
    requires prog.Valid() && Feasible(prog, all, x) && i < |all| && (all[i].entry || all[i].exit)
    ensures x(all[i]) == 1
  {
    var c := Ipet.Fixed(all[i]);
    assert FixedRow(all, i, c) && Row(prog, all, c) && Holds(c, x);
    OneTermValue(Term(all[i], 1), x);
  }

  /** The assignment uses an edge: one of its variables, with or without a first miss, is not zero. */
  ghost predicate Used(prog: Program, x: Assignment, a: nat, b: nat)
    requires prog.Valid()
  {
    exists fmiss: bool :: Legal(prog, Key(a, b, fmiss)) && x(VarFor(prog, Key(a, b, fmiss))) != 0
  }

  lemma UsedIsSent(prog: Program, all: seq<Var>, x: Assignment, a: nat, b: nat)
    requires prog.Valid() && Exactly(prog, all) && prog.g.Edge(a, b)
    ensures Used(prog, x, a, b) <==> Transfer(prog.g, all, x, a, b) != 0
  {
    TransferIsVariables(prog, all, x, a, b);
    assert Legal(prog, Key(a, b, true)) && x(VarFor(prog, Key(a, b, true))) != 0 ==> Used(prog, x, a, b);
    assert x(VarFor(prog, Key(a, b, false))) != 0 ==> Used(prog, x, a, b);
  }

  /** End to end: pruned by a feasible assignment, the graph keeps exactly the edges that the assignment uses, and every
      block left within reach of the entry is executed. */
  lemma PrunedByAssignment(prog: Program, all: seq<Var>, x: Assignment, sol: Pruner.Solution, gone: seq<nat>, h: Graph)
    requires prog.Valid() && Exactly(prog, all) && Feasible(prog, all, x) && IsSolution(prog.g, all, x, sol)
    requires prog.g.pred[prog.g.root] == [] && prog.g.succ[prog.g.root] != []
    requires sol.Fits(prog.g) && Pruner.Pruned(prog.g, sol, gone, h)
    ensures forall a: nat, b: nat | prog.g.Edge(a, b) :: h.Edge(a, b) <==> Used(prog, x, a, b)
    ensures forall a: nat, b: nat | prog.g.Edge(a, b) :: h.Edge(a, b) <==> Transfer(prog.g, all, x, a, b) != 0
    ensures forall b: nat | h.Reaches(h.root, b) :: b in prog.g.blocks && BlockCount(prog.g, all, x, b) > 0
  {
    var g := prog.g;
    FeasibleIsConserved(prog, all, x, sol);
    EntryRuns(prog, all, x, sol);
    forall a: nat, b: nat | g.Edge(a, b)
      ensures h.Edge(a, b) <==> Used(prog, x, a, b)
      ensures h.Edge(a, b) <==> Transfer(g, all, x, a, b) != 0
    {
      UsedIsSent(prog, all, x, a, b);
      Pruner.EdgesLeftCarryFlow(g, sol, gone, h, a, b);
      var i :| 0 <= i < |g.succ[a]| && g.succ[a][i] == b;
      assert b in g.blocks;
    }
    forall b: nat | h.Reaches(h.root, b)
      ensures b in g.blocks && BlockCount(g, all, x, b) > 0
    {
      Pruner.ReachedBlocksRun(g, sol, gone, h, b);
      WithoutMembers(g.blocks, gone);
      CountNotNegative(g, Into(all, b), x);
    }
  }

  lemma {:induction false} CountNotNegative(g: Graph, vs: seq<Var>, x: Assignment)
    ensures Value(Terms(g, Incoming, vs), x) >= 0
  {
    if vs != [] {
      CountNotNegative(g, vs[..|vs| - 1], x);
      ValueJoins(Terms(g, Incoming, vs[..|vs| - 1]), [Term(vs[|vs| - 1], 1)], x);
      OneTermValue(Term(vs[|vs| - 1], 1), x);
    }
  }
}
