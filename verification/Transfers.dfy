/** What is read off a solution of the integer program for the edges of the graph, against the steps of runs and against the
    variables. */
module Transfers {
  import opened Graphs
  import opened Loops
  import opened LoopStays
  import opened Ipet
  import opened IpetRuns
  import opened IpetSound

  // ---------------------------------------------------------------- on a run

  /** How often the first `n` blocks of the run step from `a` to `b`. */
  function StepsBetween(p: seq<nat>, n: nat, a: nat, b: nat): nat
    requires n <= |p|
  {
    if n < 2 then 0 else StepsBetween(p, n - 1, a, b) + if p[n - 2] == a && p[n - 1] == b then 1 else 0
  }

  lemma SentStep(prog: Program, all: seq<Var>, a: nat, b: nat, p: seq<nat>, missed: seq<bool>, n: nat)
    requires IsRun(prog, p, missed) && Exactly(prog, all) && 0 < n <= |p|
    ensures Total(Terms(prog.g, Toward(b), OutOf(all, a)), StepsTo(p, missed, n)) ==
            Total(Terms(prog.g, Toward(b), OutOf(all, a)), StepsTo(p, missed, n - 1)) +
            if n > 1 && p[n - 2] == a && p[n - 1] == b then 1 else 0
  {
    var k := StepAt(p, missed, n - 1);
    ListTotal(prog, all, false, Toward(b), a, p, missed, n);
    TowardWeight(prog, b, k);
    assert n > 1 ==> k.from == p[n - 2] && k.to == p[n - 1];
  }

  lemma TowardWeight(prog: Program, b: nat, k: Key)
    requires prog.Valid() && Legal(prog, k)
    ensures Weigh(prog.g, Toward(b), VarFor(prog, k)) == if k.to == b then 1 else 0
  {
    assert KeyOf(VarFor(prog, k)) == k;
  }

  lemma {:induction false} StepsTotal(prog: Program, all: seq<Var>, a: nat, b: nat, p: seq<nat>, missed: seq<bool>, n: nat)
    requires IsRun(prog, p, missed) && Exactly(prog, all) && n <= |p|
    ensures Total(Terms(prog.g, Toward(b), OutOf(all, a)), StepsTo(p, missed, n)) == StepsBetween(p, n, a, b)
  {
    if n > 0 {
      StepsTotal(prog, all, a, b, p, missed, n - 1);
      SentStep(prog, all, a, b, p, missed, n);
    }
  }

  /** At the counts of a run, what is sent from `a` to `b` is how often the run steps from one to the other, and the count of
      a block is how often it runs. */
  lemma TransferIsSteps(prog: Program, all: seq<Var>, p: seq<nat>, missed: seq<bool>, a: nat, b: nat)
    requires IsRun(prog, p, missed) && Exactly(prog, all)
    ensures Transfer(prog.g, all, CountsOf(Steps(p, missed)), a, b) == StepsBetween(p, |p|, a, b)
    ensures BlockCount(prog.g, all, CountsOf(Steps(p, missed)), b) == Visits(p, |p|, b)
  {
    SentOnRun(prog, all, p, missed, a, b);
    CountOnRun(prog, all, p, missed, b);
  }

  lemma SentOnRun(prog: Program, all: seq<Var>, p: seq<nat>, missed: seq<bool>, a: nat, b: nat)
    requires IsRun(prog, p, missed) && Exactly(prog, all)
    ensures Transfer(prog.g, all, CountsOf(Steps(p, missed)), a, b) == StepsBetween(p, |p|, a, b)
  {
    SumOverSteps(Terms(prog.g, Toward(b), OutOf(all, a)), Steps(p, missed));
    ExitTotal(prog, all, false, Toward(b), a, p, missed);
    TowardWeight(prog, b, Key(Last(p), UNDEF, false));
    StepsTotal(prog, all, a, b, p, missed, |p|);
  }

  lemma CountOnRun(prog: Program, all: seq<Var>, p: seq<nat>, missed: seq<bool>, b: nat)
    requires IsRun(prog, p, missed) && Exactly(prog, all)
    ensures BlockCount(prog.g, all, CountsOf(Steps(p, missed)), b) == Visits(p, |p|, b)
  {
    SumOverSteps(Terms(prog.g, Incoming, Into(all, b)), Steps(p, missed));
    ExitTotal(prog, all, true, Incoming, b, p, missed);
    IncomingTotal(prog, all, b, p, missed, |p|);
  }

  // ---------------------------------------------------------------- by its variables

  /** What the variables for step `k` carry. */
  ghost function Carried(prog: Program, all: seq<Var>, x: Assignment, k: Key): nat
    requires prog.Valid()
  {
    if Legal(prog, k) then CountFor(all, k) * x(VarFor(prog, k)) else 0
  }

  lemma {:induction false} SentIsCarried(prog: Program, all: seq<Var>, x: Assignment, a: nat, b: nat)
    requires prog.Valid() && AllLegal(prog, all)
    ensures Transfer(prog.g, all, x, a, b) == Carried(prog, all, x, Key(a, b, false)) + Carried(prog, all, x, Key(a, b, true))
  {
    if all != [] {
      var rest, v := all[..|all| - 1], LastVar(all);
      SentIsCarried(prog, rest, x, a, b);
      assert v == all[|all| - 1] && KeyOf(v) == Key(v.from, v.to, v.fmiss);
      TransferGrows(prog.g, all, x, a, b);
      CarriedGrows(prog, all, x, Key(a, b, false));
      CarriedGrows(prog, all, x, Key(a, b, true));
    }
  }

  lemma TransferGrows(g: Graph, all: seq<Var>, x: Assignment, a: nat, b: nat)
    requires all != []
    ensures var v := LastVar(all);
            Transfer(g, all, x, a, b) == Transfer(g, all[..|all| - 1], x, a, b) + if v.from == a && v.to == b then x(v) else 0
  {
    var rest, v, vs := all[..|all| - 1], LastVar(all), OutOf(all, a);
    if v.from == a {
      assert vs == OutOf(rest, a) + [v];
      assert vs[..|vs| - 1] == OutOf(rest, a);
      ValueJoins(Terms(g, Toward(b), OutOf(rest, a)), TermsFor(g, Toward(b), v), x);
      OneTermValue(Term(v, 1), x);
    } else {
      assert vs == OutOf(rest, a);
    }
  }

  lemma CarriedGrows(prog: Program, all: seq<Var>, x: Assignment, k: Key)
    requires prog.Valid() && all != [] && Legal(prog, KeyOf(LastVar(all))) && LastVar(all) == VarFor(prog, KeyOf(LastVar(all)))
    ensures Carried(prog, all, x, k) ==
            Carried(prog, all[..|all| - 1], x, k) + if KeyOf(LastVar(all)) == k then x(LastVar(all)) else 0
  {
    if Legal(prog, k) {
      MoreOf(x(VarFor(prog, k)), CountFor(all[..|all| - 1], k));
    }
  }

  /** What is sent along an edge is the sum of its variables: the one without a first miss, and the one with it if the edge
      has that. */
  lemma TransferIsVariables(prog: Program, all: seq<Var>, x: Assignment, a: nat, b: nat)
    requires prog.Valid() && Exactly(prog, all) && prog.g.Edge(a, b)
    ensures Legal(prog, Key(a, b, false))
    ensures Transfer(prog.g, all, x, a, b) ==
            x(VarFor(prog, Key(a, b, false))) + if Legal(prog, Key(a, b, true)) then x(VarFor(prog, Key(a, b, true))) else 0
  {
    var i :| 0 <= i < |prog.g.succ[a]| && prog.g.succ[a][i] == b;
    assert b in prog.g.blocks && a in prog.g.blocks;
    SentIsCarried(prog, all, x, a, b);
    assert CountFor(all, Key(a, b, false)) == 1;
    assert Legal(prog, Key(a, b, true)) ==> CountFor(all, Key(a, b, true)) == 1;
  }

  // ---------------------------------------------------------------- out of a block

  /** What a list of variables sends to the given blocks. */
  function SentTo(g: Graph, vs: seq<Var>, x: Assignment, blocks: seq<nat>): int {
    if blocks == [] then 0
    else SentTo(g, vs, x, blocks[..|blocks| - 1]) + Value(Terms(g, Toward(blocks[|blocks| - 1]), vs), x)
  }

  /** What leaves the program. */
  function SentOut(vs: seq<Var>, x: Assignment): nat {
    if vs == [] then 0 else SentOut(vs[..|vs| - 1], x) + if LastVar(vs).to == UNDEF then x(LastVar(vs)) else 0
  }

  lemma {:induction false} SentToGrows(g: Graph, vs: seq<Var>, x: Assignment, blocks: seq<nat>)
    requires vs != [] && NoDuplicates(blocks)
    ensures SentTo(g, vs, x, blocks) ==
            SentTo(g, vs[..|vs| - 1], x, blocks) + if Occurs(blocks, LastVar(vs).to) then x(LastVar(vs)) else 0
  {
    if blocks != [] {
      var rest, b := blocks[..|blocks| - 1], blocks[|blocks| - 1];
      SentToGrows(g, vs, x, rest);
      assert vs[..|vs|] == vs;
      TowardGrows(g, vs, |vs| - 1, b, x);
      OccursLast(blocks, LastVar(vs).to);
    }
  }

  lemma {:induction false} NothingSent(g: Graph, x: Assignment, blocks: seq<nat>)
    ensures SentTo(g, [], x, blocks) == 0
  {
    if blocks != [] {
      NothingSent(g, x, blocks[..|blocks| - 1]);
    }
  }

  /** Everything that goes out goes to some block or out of the program. */
  lemma {:induction false} AllIsSent(g: Graph, vs: seq<Var>, x: Assignment, blocks: seq<nat>)
    requires NoDuplicates(blocks) && forall i | 0 <= i < |vs| :: vs[i].to == UNDEF || Occurs(blocks, vs[i].to)
    ensures SentTo(g, vs, x, blocks) + SentOut(vs, x) + Value(Terms(g, Outgoing, vs), x) == 0
  {
    if vs == [] {
      NothingSent(g, x, blocks);
    } else {
      var rest, v := vs[..|vs| - 1], LastVar(vs);
      AllIsSent(g, rest, x, blocks);
      SentToGrows(g, vs, x, blocks);
      assert v == vs[|vs| - 1] && !Occurs(blocks, UNDEF);
      ValueJoins(Terms(g, Outgoing, rest), [Term(v, -1)], x);
      OneTermValue(Term(v, -1), x);
    }
  }

  lemma {:induction false} OutOfMembers(all: seq<Var>, a: nat)
    ensures forall v :: v in OutOf(all, a) <==> v in all && v.from == a
  {
    if all != [] {
      OutOfMembers(all[..|all| - 1], a);
      assert all == all[..|all| - 1] + [LastVar(all)];
    }
  }

  /** In a solution, what a block sends to all blocks and out of the program adds up to its count. */
  lemma TransfersAddUp(prog: Program, all: seq<Var>, x: Assignment, a: nat)
    requires prog.Valid() && Exactly(prog, all) && Feasible(prog, all, x) && a in prog.g.blocks && !Isolated(prog.g, a)
    ensures SentTo(prog.g, OutOf(all, a), x, prog.g.blocks) + SentOut(OutOf(all, a), x) == BlockCount(prog.g, all, x, a)
    ensures forall b: nat :: Transfer(prog.g, all, x, a, b) == Value(Terms(prog.g, Toward(b), OutOf(all, a)), x)
  {
    var vs := OutOf(all, a);
    OutOfMembers(all, a);
    forall i | 0 <= i < |vs|
      ensures vs[i].to == UNDEF || Occurs(prog.g.blocks, vs[i].to)
    {
      assert vs[i] in all;
      var k :| 0 <= k < |all| && all[k] == vs[i];
      assert Legal(prog, KeyOf(all[k]));
      if vs[i].to != UNDEF {
        OccursIn(prog.g.blocks, vs[i].to);
      }
    }
    AllIsSent(prog.g, vs, x, prog.g.blocks);
    FlowBalances(prog, all, x, a);
  }

  // ---------------------------------------------------------------- cycles saved

  /** How many of the first `n` steps lead along an edge of kind `f` into a block that is not the last. */
  ghost function StepsOfKind(prog: Program, p: seq<nat>, missed: seq<bool>, n: nat, f: Flow): nat
    requires IsRun(prog, p, missed) && n <= |p|
  {
    if n < 2 then 0
    else
      StepIsLegal(prog, p, missed, n - 1);
      StepsOfKind(prog, p, missed, n - 1, f) +
      if prog.g.succ[p[n - 1]] != [] && prog.flow[p[n - 2]][p[n - 1]] == f then 1 else 0
  }

  /** How many of the first `n` blocks are not the last. */
  function NotLast(g: Graph, p: seq<nat>, n: nat): nat
    requires n <= |p| && forall i | 0 <= i < |p| :: p[i] < |g.succ|
  {
    if n == 0 then 0 else NotLast(g, p, n - 1) + if g.succ[p[n - 1]] != [] then 1 else 0
  }

  /** The times of the edges taken. */
  ghost function RunTime(prog: Program, p: seq<nat>, missed: seq<bool>, n: nat): nat
    requires IsRun(prog, p, missed) && n <= |p|
  {
    if n == 0 then 0
    else
      StepIsLegal(prog, p, missed, n - 1);
      RunTime(prog, p, missed, n - 1) +
      if n == 1 then prog.time[p[0]][UNDEF]
      else if missed[n - 1] then prog.ftime[p[n - 1]][p[n - 2]]
      else prog.time[p[n - 1]][p[n - 2]]
  }

  /** The cost of a run is the time of its edges less four cycles for every block but the last; conditional edges that fall
      through save another four, those that have been preloaded three, and those that fall through a preload two less. */
  lemma {:induction false} CyclesSaved(prog: Program, p: seq<nat>, missed: seq<bool>, n: nat)
    requires IsRun(prog, p, missed) && n <= |p|
    ensures RunCost(prog, p, missed, n) ==
            RunTime(prog, p, missed, n) - 4 * NotLast(prog.g, p, n)
            - 4 * StepsOfKind(prog, p, missed, n, ConditionalFallthrough)
            - 3 * StepsOfKind(prog, p, missed, n, ConditionalPreload)
            + 2 * StepsOfKind(prog, p, missed, n, ConditionalFallthroughPreload)
  {
    if n > 0 {
      CyclesSaved(prog, p, missed, n - 1);
    }
  }
}
