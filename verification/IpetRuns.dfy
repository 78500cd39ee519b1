/** Why the integer program covers every run: a run gives every variable a count; the counts meet all constraints,
    and the objective is the time of the run. */
module IpetRuns {
  import opened Graphs
  import opened Loops
  import opened LoopBounds
  import opened Ipet

  // ---------------------------------------------------------------- the variables are exactly the steps

  lemma {:induction false} CountJoins(s: seq<Var>, t: seq<Var>, k: Key)
    ensures CountFor(s + t, k) == CountFor(s, k) + CountFor(t, k)
  {
    if t == [] {
      assert s + t == s;
    } else {
      assert (s + t)[..|s + t| - 1] == s + t[..|t| - 1];
      CountJoins(s, t[..|t| - 1], k);
    }
  }

  /** All variables in the list are the variables of legal steps. */
  ghost predicate AllLegal(prog: Program, vs: seq<Var>)
    requires prog.Valid()
  {
    forall i | 0 <= i < |vs| :: Legal(prog, KeyOf(vs[i])) && vs[i] == VarFor(prog, KeyOf(vs[i]))
  }

  predicate Occurs(s: seq<nat>, x: int) {
    exists i | 0 <= i < |s| :: s[i] == x
  }

  lemma {:induction false} NormalCounts(prog: Program, b: nat, preds: seq<nat>, k: Key)
    requires prog.Valid() && b in prog.g.blocks && NoDuplicates(preds)
    requires forall i | 0 <= i < |preds| :: preds[i] in prog.g.pred[b]
    ensures AllLegal(prog, NormalVars(prog, b, preds))
    ensures CountFor(NormalVars(prog, b, preds), k) == if k.to == b && !k.fmiss && Occurs(preds, k.from) then 1 else 0
  {
    if preds != [] {
      var rest := preds[..|preds| - 1];
      NormalCounts(prog, b, rest, k);
      var p := preds[|preds| - 1];
      assert p in prog.g.pred[b];
      var vs := NormalVars(prog, b, preds);
      assert vs[..|vs| - 1] == NormalVars(prog, b, rest);
      OccursLast(preds, k.from);
    }
  }

  lemma {:induction false} SplitCounts(prog: Program, b: nat, preds: seq<nat>, k: Key)
    requires prog.Valid() && b in prog.g.blocks && NoDuplicates(preds) && prog.firstMiss[b] && !prog.Header(b)
    requires forall i | 0 <= i < |preds| :: preds[i] in prog.g.pred[b]
    ensures AllLegal(prog, SplitVars(prog, b, preds))
    ensures CountFor(SplitVars(prog, b, preds), k) == if k.to == b && Occurs(preds, k.from) then 1 else 0
  {
    if preds != [] {
      var rest := preds[..|preds| - 1];
      SplitCounts(prog, b, rest, k);
      var p := preds[|preds| - 1];
      assert p in prog.g.pred[b];
      TwoVars(VarFor(prog, Key(p, b, true)), VarFor(prog, Key(p, b, false)), k);
      CountJoins(SplitVars(prog, b, rest), [VarFor(prog, Key(p, b, true)), VarFor(prog, Key(p, b, false))], k);
      OccursLast(preds, k.from);
    }
  }

  lemma TwoVars(v: Var, w: Var, k: Key)
    ensures CountFor([v, w], k) == (if KeyOf(v) == k then 1 else 0) + (if KeyOf(w) == k then 1 else 0)
  {
    CountJoins([v], [w], k);
    OneVar(v, k);
    OneVar(w, k);
    assert [v] + [w] == [v, w];
  }

  lemma OccursLast(s: seq<nat>, x: int)
    requires s != [] && NoDuplicates(s)
    ensures Occurs(s, x) <==> Occurs(s[..|s| - 1], x) || x == s[|s| - 1]
    ensures !Occurs(s[..|s| - 1], s[|s| - 1])
  {
    if Occurs(s, x) && x != s[|s| - 1] {
      var i :| 0 <= i < |s| && s[i] == x;
      assert s[..|s| - 1][i] == x;
    }
  }

  lemma OneVar(v: Var, k: Key)
    ensures CountFor([v], k) == if KeyOf(v) == k then 1 else 0
  {
    assert [v][..0] == [];
  }

  lemma {:induction false} WithoutKeepsOrder(s: seq<nat>, drop: seq<nat>)
    requires NoDuplicates(s)
    ensures NoDuplicates(Without(s, drop))
  {
    if s != [] {
      var rest := s[..|s| - 1];
      WithoutKeepsOrder(rest, drop);
      WithoutMembers(rest, drop);
      var w := Without(rest, drop);
      forall i | 0 <= i < |w|
        ensures w[i] != s[|s| - 1]
      {
        assert w[i] in w;
        assert w[i] in rest;
      }
    }
  }

  /** The main predecessor and the others make up the predecessors of a header. */
  lemma HeaderPreds(prog: Program, b: nat, x: int)
    requires prog.Valid() && b in prog.g.blocks && prog.Header(b)
    ensures var m, inLoop := prog.table.MainPred(prog.g, b), prog.table.InLoopPreds(prog.g, b);
            && NoDuplicates(inLoop) && !Occurs(inLoop, m)
            && (Occurs(prog.g.pred[b], x) <==> x == m || Occurs(inLoop, x))
  {
    var m, inLoop, preds := prog.table.MainPred(prog.g, b), prog.table.InLoopPreds(prog.g, b), prog.g.pred[b];
    WithoutKeepsOrder(preds, [m]);
    OccursIn(inLoop, x);
    OccursIn(inLoop, m);
    OccursIn(preds, x);
  }

  lemma OccursIn(s: seq<nat>, x: int)
    ensures Occurs(s, x) <==> x >= 0 && x in s
  {
  }

  lemma HeaderCounts(prog: Program, b: nat, k: Key)
    requires prog.Valid() && b in prog.g.blocks && prog.firstMiss[b] && prog.Header(b)
    ensures AllLegal(prog, HeaderVars(prog, b))
    ensures CountFor(HeaderVars(prog, b), k) ==
            if k.to == b && Occurs(prog.g.pred[b], k.from) && (k.fmiss ==> k.from == prog.table.MainPred(prog.g, b)) then 1 else 0
  {
    InLoopArePreds(prog, b);
    HeaderPreds(prog, b, k.from);
    var m, inLoop := prog.table.MainPred(prog.g, b), prog.table.InLoopPreds(prog.g, b);
    NormalCounts(prog, b, inLoop, k);
    var v, w := VarFor(prog, Key(m, b, true)), VarFor(prog, Key(m, b, false));
    TwoVars(v, w, k);
    CountJoins([v, w], NormalVars(prog, b, inLoop), k);
  }

  lemma LegalInto(prog: Program, k: Key)
    requires prog.Valid() && Legal(prog, k) && k.from != UNDEF && k.to != UNDEF
    ensures Occurs(prog.g.pred[k.to], k.from)
  {
    assert k.from in prog.g.pred[k.to];
  }

  lemma IncomingCounts(prog: Program, b: nat, k: Key)
    requires prog.Valid() && b in prog.g.blocks && !Isolated(prog.g, b)
    ensures AllLegal(prog, IncomingVars(prog, b))
    ensures Legal(prog, k) ==> CountFor(IncomingVars(prog, b), k) == if k.to == b then 1 else 0
  {
    if Legal(prog, k) && k.to == b && k.from != UNDEF {
      LegalInto(prog, k);
    }
    if prog.g.pred[b] == [] {
      OneVar(VarFor(prog, Key(UNDEF, b, false)), k);
    } else if !prog.firstMiss[b] {
      NormalCounts(prog, b, prog.g.pred[b], k);
    } else if prog.Header(b) {
      HeaderCounts(prog, b, k);
    } else {
      SplitCounts(prog, b, prog.g.pred[b], k);
    }
  }

  lemma BlockCounts(prog: Program, b: nat, k: Key)
    requires prog.Valid() && b in prog.g.blocks
    ensures AllLegal(prog, VarsOf(prog, b))
    ensures Legal(prog, k) ==> CountFor(VarsOf(prog, b), k) == if k.to == b || (k.to == UNDEF && k.from == b) then 1 else 0
  {
    if !Isolated(prog.g, b) {
      IncomingCounts(prog, b, k);
      CountJoins(IncomingVars(prog, b), ExitVars(prog, b), k);
      if prog.g.succ[b] == [] {
        OneVar(VarFor(prog, Key(b, UNDEF, false)), k);
      }
    }
  }

  lemma {:induction false} AllCounts(prog: Program, blocks: seq<nat>, k: Key)
    requires prog.Valid() && NoDuplicates(blocks) && forall i | 0 <= i < |blocks| :: blocks[i] in prog.g.blocks
    ensures AllLegal(prog, AllVars(prog, blocks))
    ensures Legal(prog, k) ==> CountFor(AllVars(prog, blocks), k) == if Occurs(blocks, if k.to == UNDEF then k.from else k.to) then 1 else 0
  {
    if blocks != [] {
      AllCounts(prog, blocks[..|blocks| - 1], k);
      MoreCounts(prog, blocks, k);
    }
  }

  lemma MoreCounts(prog: Program, blocks: seq<nat>, k: Key)
    requires prog.Valid() && NoDuplicates(blocks) && blocks != [] && forall i | 0 <= i < |blocks| :: blocks[i] in prog.g.blocks
    requires AllLegal(prog, AllVars(prog, blocks[..|blocks| - 1]))
    requires Legal(prog, k) ==> CountFor(AllVars(prog, blocks[..|blocks| - 1]), k) ==
                                if Occurs(blocks[..|blocks| - 1], if k.to == UNDEF then k.from else k.to) then 1 else 0
    ensures AllLegal(prog, AllVars(prog, blocks))
    ensures Legal(prog, k) ==> CountFor(AllVars(prog, blocks), k) == if Occurs(blocks, if k.to == UNDEF then k.from else k.to) then 1 else 0
  {
    var rest, b := blocks[..|blocks| - 1], blocks[|blocks| - 1];
    BlockCounts(prog, b, k);
    LegalJoins(prog, AllVars(prog, rest), VarsOf(prog, b));
    CountJoins(AllVars(prog, rest), VarsOf(prog, b), k);
    OccursLast(blocks, if k.to == UNDEF then k.from else k.to);
  }

  lemma LegalJoins(prog: Program, s: seq<Var>, t: seq<Var>)
    requires prog.Valid() && AllLegal(prog, s) && AllLegal(prog, t)
    ensures AllLegal(prog, s + t)
  {
  }

  /** `create_variables` makes exactly one variable for every step a run can take. */
  lemma VariablesAreSteps(prog: Program)
    requires prog.Valid()
    ensures Exactly(prog, AllVars(prog, prog.g.blocks))
  {
    var none := Key(UNDEF, UNDEF, false);
    AllCounts(prog, prog.g.blocks, none);
    forall k | Legal(prog, k)
      ensures CountFor(AllVars(prog, prog.g.blocks), k) == 1
    {
      AllCounts(prog, prog.g.blocks, k);
      var at := if k.to == UNDEF then k.from else k.to;
      var i :| 0 <= i < |prog.g.blocks| && prog.g.blocks[i] == at;
    }
  }

  // ---------------------------------------------------------------- counting steps

  /** How often a step occurs in a run. */
  function Times(steps: seq<Key>, k: Key): nat {
    if steps == [] then 0 else Times(steps[..|steps| - 1], k) + if steps[|steps| - 1] == k then 1 else 0
  }

  /** The counts a run gives the variables. */
  function CountsOf(steps: seq<Key>): Assignment {
    (v: Var) => Times(steps, KeyOf(v))
  }

  /** What step `k` contributes to an expression. */
  function Coef(terms: seq<Term>, k: Key): int {
    if terms == [] then 0
    else Coef(terms[..|terms| - 1], k) + if KeyOf(terms[|terms| - 1].v) == k then terms[|terms| - 1].coef else 0
  }

  function Total(terms: seq<Term>, steps: seq<Key>): int {
    if steps == [] then 0 else Total(terms, steps[..|steps| - 1]) + Coef(terms, steps[|steps| - 1])
  }

  lemma {:induction false} EmptyRun(terms: seq<Term>)
    ensures Value(terms, CountsOf([])) == 0
  {
    if terms != [] {
      EmptyRun(terms[..|terms| - 1]);
    }
  }

  lemma {:induction false} OneMoreStep(terms: seq<Term>, steps: seq<Key>, k: Key)
    ensures Value(terms, CountsOf(steps + [k])) == Value(terms, CountsOf(steps)) + Coef(terms, k)
  {
    if terms != [] {
      OneMoreStep(terms[..|terms| - 1], steps, k);
      var t := terms[|terms| - 1];
      assert (steps + [k])[..|steps|] == steps;
      assert CountsOf(steps + [k])(t.v) == CountsOf(steps)(t.v) + if KeyOf(t.v) == k then 1 else 0;
      MoreOf(t.coef, CountsOf(steps)(t.v));
    }
  }

  lemma MoreOf(c: int, n: int)
    ensures c * (n + 1) == c * n + c
  {
  }

  /** Summing over the variables is summing over the steps. */
  lemma {:induction false} SumOverSteps(terms: seq<Term>, steps: seq<Key>)
    ensures Value(terms, CountsOf(steps)) == Total(terms, steps)
    decreases |steps|
  {
    if steps == [] {
      EmptyRun(terms);
    } else {
      SumOverSteps(terms, steps[..|steps| - 1]);
      OneMoreStep(terms, steps[..|steps| - 1], steps[|steps| - 1]);
      assert steps == steps[..|steps| - 1] + [steps[|steps| - 1]];
    }
  }

  lemma {:induction false} CoefJoins(s: seq<Term>, t: seq<Term>, k: Key)
    ensures Coef(s + t, k) == Coef(s, k) + Coef(t, k)
  {
    if t == [] {
      assert s + t == s;
    } else {
      assert (s + t)[..|s + t| - 1] == s + t[..|t| - 1];
      CoefJoins(s, t[..|t| - 1], k);
    }
  }

  // ---------------------------------------------------------------- what each constraint counts

  function Weigh(g: Graph, w: Weight, v: Var): int {
    match w
    case Incoming => 1
    case Outgoing => -1
    case Missed => if v.fmiss then 1 else 0
    case Enters(n) => if v.loopEntry then n else 0
    case Stays => if v.fromHeader then -1 else 0
    case Toward(to) => if v.to == to then 1 else 0
    case Cost => if v.exit then 0 else v.time - if 0 <= v.to < |g.succ| && g.succ[v.to] != [] then v.delta else 0
  }

  lemma OneTerm(t: Term, k: Key)
    ensures Coef([t], k) == if KeyOf(t.v) == k then t.coef else 0
  {
    assert [t][..0] == [];
  }

  lemma WeighsFor(g: Graph, w: Weight, v: Var, k: Key)
    ensures Coef(TermsFor(g, w, v), k) == if KeyOf(v) == k then Weigh(g, w, v) else 0
  {
    var ts := TermsFor(g, w, v);
    if |ts| == 1 {
      OneTerm(ts[0], k);
      assert ts == [ts[0]];
    } else if |ts| == 2 {
      OneTerm(ts[0], k);
      OneTerm(ts[1], k);
      CoefJoins([ts[0]], [ts[1]], k);
      assert ts == [ts[0]] + [ts[1]];
    }
  }

  /** The end of an edge at which it is listed. */
  predicate Listed(into: bool, k: Key, b: nat) {
    if into then k.to == b else k.from == b
  }

  function ListOf(into: bool, all: seq<Var>, b: nat): seq<Var> {
    if into then Into(all, b) else OutOf(all, b)
  }

  /** Through the variables of one block, a step contributes the weight of its variable. */
  lemma {:induction false} CoefOfList(prog: Program, into: bool, w: Weight, all: seq<Var>, b: nat, k: Key)
    requires prog.Valid() && AllLegal(prog, all) && Legal(prog, k) && CountFor(all, k) <= 1
    ensures Coef(Terms(prog.g, w, ListOf(into, all, b)), k) ==
            if Listed(into, k, b) && CountFor(all, k) == 1 then Weigh(prog.g, w, VarFor(prog, k)) else 0
  {
    if all != [] {
      var rest, v := all[..|all| - 1], LastVar(all);
      assert v == all[|all| - 1];
      CoefOfList(prog, into, w, rest, b, k);
      ListGrows(prog.g, into, w, all, b, k);
    }
  }

  lemma ListGrows(g: Graph, into: bool, w: Weight, all: seq<Var>, b: nat, k: Key)
    requires all != []
    ensures Coef(Terms(g, w, ListOf(into, all, b)), k) ==
            Coef(Terms(g, w, ListOf(into, all[..|all| - 1], b)), k) +
            if Listed(into, KeyOf(LastVar(all)), b) && KeyOf(LastVar(all)) == k then Weigh(g, w, LastVar(all)) else 0
  {
    var rest, v, vs := all[..|all| - 1], LastVar(all), ListOf(into, all, b);
    if Listed(into, KeyOf(v), b) {
      assert vs == ListOf(into, rest, b) + [v];
      assert vs[..|vs| - 1] == ListOf(into, rest, b);
      CoefJoins(Terms(g, w, ListOf(into, rest, b)), TermsFor(g, w, v), k);
      WeighsFor(g, w, v, k);
    } else {
      assert vs == ListOf(into, rest, b);
    }
  }

  lemma ListedWeight(prog: Program, into: bool, w: Weight, all: seq<Var>, b: nat, k: Key)
    requires prog.Valid() && Exactly(prog, all) && Legal(prog, k)
    ensures Coef(Terms(prog.g, w, ListOf(into, all, b)), k) == if Listed(into, k, b) then Weigh(prog.g, w, VarFor(prog, k)) else 0
  {
    CoefOfList(prog, into, w, all, b, k);
  }
}
