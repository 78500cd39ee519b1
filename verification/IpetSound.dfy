/** A maximum of the integer program is at least the cost of every run within the bounds. */
module IpetSound {
  import opened Graphs
  import opened Loops
  import opened LoopForest
  import opened LoopMerge
  import opened LoopIdentification
  import opened LoopStays
  import opened LoopBounds
  import opened Ipet
  import opened IpetRuns

  /** The steps of a run over the blocks `p`, up to its `n`-th block; `missed[i]` says whether entering `p[i]` is
      a first miss. */
  function StepsTo(p: seq<nat>, missed: seq<bool>, n: nat): seq<Key>
    requires n <= |p| == |missed|
  {
    if n == 0 then [] else StepsTo(p, missed, n - 1) + [StepAt(p, missed, n - 1)]
  }

  function StepAt(p: seq<nat>, missed: seq<bool>, i: nat): Key
    requires i < |p| == |missed|
  {
    if i == 0 then Key(UNDEF, p[0], false) else Key(p[i - 1], p[i], missed[i])
  }

  /** All steps: into the program, along the blocks, and out. */
  function Steps(p: seq<nat>, missed: seq<bool>): seq<Key>
    requires |p| == |missed| && p != []
  {
    StepsTo(p, missed, |p|) + [Key(Last(p), UNDEF, false)]
  }

  /** The program has one entry and one exit besides isolated blocks; the run leads from one to the other, and
      first misses occur where they can. */
  ghost predicate IsRun(prog: Program, p: seq<nat>, missed: seq<bool>) {
    && prog.Valid() && prog.g.IsPath(p) && |p| >= 2 && |missed| == |p|
    && (forall b | b in prog.g.blocks && !Isolated(prog.g, b) :: (prog.g.pred[b] == [] <==> b == p[0]))
    && (forall b | b in prog.g.blocks && !Isolated(prog.g, b) :: (prog.g.succ[b] == [] <==> b == Last(p)))
    && (forall i | 0 <= i < |p| :: missed[i] ==>
          i > 0 && prog.firstMiss[p[i]] && (prog.Header(p[i]) ==> p[i - 1] == prog.table.MainPred(prog.g, p[i])))
  }

  // ---------------------------------------------------------------- counts of a run

  /** How often block `b` is entered with a first miss. */
  function MissCount(p: seq<nat>, missed: seq<bool>, n: nat, b: nat): nat
    requires n <= |p| == |missed|
  {
    if n == 0 then 0 else MissCount(p, missed, n - 1, b) + if p[n - 1] == b && n > 1 && missed[n - 1] then 1 else 0
  }

  /** How often the header `b` is entered from outside `nodes`. */
  function EntryCount(p: seq<nat>, n: nat, b: nat, nodes: seq<nat>): nat
    requires n <= |p|
  {
    if n < 2 then 0 else EntryCount(p, n - 1, b, nodes) + if p[n - 1] == b && p[n - 2] !in nodes then 1 else 0
  }

  /** How often the run goes from the header `b` into its loop. */
  function StayCount(p: seq<nat>, n: nat, b: nat, nodes: seq<nat>): nat
    requires n <= |p|
  {
    if n < 2 then 0 else StayCount(p, n - 1, b, nodes) + if p[n - 2] == b && p[n - 1] in nodes then 1 else 0
  }

  /** The cost of entering the `i`-th block: its time along that edge, less the cycles saved unless it is the last. */
  ghost function CostAt(prog: Program, p: seq<nat>, missed: seq<bool>, i: nat): int
    requires IsRun(prog, p, missed) && i < |p|
  {
    StepIsLegal(prog, p, missed, i);
    var b := p[i];
    if i == 0 then prog.time[b][UNDEF] - (if prog.g.succ[b] == [] then 0 else 4)
    else
      (if missed[i] then prog.ftime[b][p[i - 1]] else prog.time[b][p[i - 1]]) -
      (if prog.g.succ[b] == [] then 0 else DeltaOf(prog.flow[p[i - 1]][b]))
  }

  ghost function RunCost(prog: Program, p: seq<nat>, missed: seq<bool>, n: nat): int
    requires IsRun(prog, p, missed) && n <= |p|
  {
    if n == 0 then 0 else RunCost(prog, p, missed, n - 1) + CostAt(prog, p, missed, n - 1)
  }

  lemma StepIsLegal(prog: Program, p: seq<nat>, missed: seq<bool>, i: nat)
    requires IsRun(prog, p, missed) && i < |p|
    ensures Legal(prog, StepAt(p, missed, i))
    ensures i > 0 ==> prog.g.Edge(p[i - 1], p[i]) && p[i - 1] in prog.g.pred[p[i]]
    ensures !Isolated(prog.g, p[i])
  {
    if i > 0 {
      assert prog.g.Edge(p[i - 1], p[i]);
      assert prog.g.pred[p[i]] != [];
    } else {
      assert prog.g.Edge(p[0], p[1]);
    }
  }

  lemma ExitIsLegal(prog: Program, p: seq<nat>, missed: seq<bool>)
    requires IsRun(prog, p, missed)
    ensures Legal(prog, Key(Last(p), UNDEF, false))
  {
    StepIsLegal(prog, p, missed, |p| - 1);
  }

  // ---------------------------------------------------------------- sums along a run

  lemma TotalGrows(terms: seq<Term>, steps: seq<Key>, k: Key)
    ensures Total(terms, steps + [k]) == Total(terms, steps) + Coef(terms, k)
  {
    assert (steps + [k])[..|steps|] == steps;
  }

  /** Weighing the steps of the run through the list of a block. */
  lemma ListTotal(prog: Program, all: seq<Var>, into: bool, w: Weight, b: nat, p: seq<nat>, missed: seq<bool>, n: nat)
    requires IsRun(prog, p, missed) && Exactly(prog, all) && 0 < n <= |p|
    ensures Legal(prog, StepAt(p, missed, n - 1))
    ensures Total(Terms(prog.g, w, ListOf(into, all, b)), StepsTo(p, missed, n)) ==
            Total(Terms(prog.g, w, ListOf(into, all, b)), StepsTo(p, missed, n - 1)) +
            if Listed(into, StepAt(p, missed, n - 1), b) then Weigh(prog.g, w, VarFor(prog, StepAt(p, missed, n - 1))) else 0
  {
    StepIsLegal(prog, p, missed, n - 1);
    TotalGrows(Terms(prog.g, w, ListOf(into, all, b)), StepsTo(p, missed, n - 1), StepAt(p, missed, n - 1));
    ListedWeight(prog, into, w, all, b, StepAt(p, missed, n - 1));
  }

  lemma IncomingStep(prog: Program, all: seq<Var>, b: nat, p: seq<nat>, missed: seq<bool>, n: nat)
    requires IsRun(prog, p, missed) && Exactly(prog, all) && 0 < n <= |p|
    ensures Total(Terms(prog.g, Incoming, Into(all, b)), StepsTo(p, missed, n)) ==
            Total(Terms(prog.g, Incoming, Into(all, b)), StepsTo(p, missed, n - 1)) + if p[n - 1] == b then 1 else 0
  {
    ListTotal(prog, all, true, Incoming, b, p, missed, n);
  }

  lemma MissStep(prog: Program, all: seq<Var>, b: nat, p: seq<nat>, missed: seq<bool>, n: nat)
    requires IsRun(prog, p, missed) && Exactly(prog, all) && 0 < n <= |p|
    ensures Total(Terms(prog.g, Missed, Into(all, b)), StepsTo(p, missed, n)) ==
            Total(Terms(prog.g, Missed, Into(all, b)), StepsTo(p, missed, n - 1)) +
            if p[n - 1] == b && n > 1 && missed[n - 1] then 1 else 0
  {
    ListTotal(prog, all, true, Missed, b, p, missed, n);
    MissWeight(prog, p, missed, n - 1);
  }

  lemma MissWeight(prog: Program, p: seq<nat>, missed: seq<bool>, i: nat)
    requires prog.Valid() && i < |p| == |missed| && Legal(prog, StepAt(p, missed, i))
    ensures Weigh(prog.g, Missed, VarFor(prog, StepAt(p, missed, i))) == if i > 0 && missed[i] then 1 else 0
  {
    assert VarFor(prog, StepAt(p, missed, i)).fmiss == StepAt(p, missed, i).fmiss;
  }

  lemma {:induction false} IncomingTotal(prog: Program, all: seq<Var>, b: nat, p: seq<nat>, missed: seq<bool>, n: nat)
    requires IsRun(prog, p, missed) && Exactly(prog, all) && n <= |p|
    ensures Total(Terms(prog.g, Incoming, Into(all, b)), StepsTo(p, missed, n)) == Visits(p, n, b)
  {
    if n > 0 {
      IncomingTotal(prog, all, b, p, missed, n - 1);
      IncomingStep(prog, all, b, p, missed, n);
    }
  }

  lemma {:induction false} MissTotal(prog: Program, all: seq<Var>, b: nat, p: seq<nat>, missed: seq<bool>, n: nat)
    requires IsRun(prog, p, missed) && Exactly(prog, all) && n <= |p|
    ensures Total(Terms(prog.g, Missed, Into(all, b)), StepsTo(p, missed, n)) == MissCount(p, missed, n, b)
  {
    if n > 0 {
      MissTotal(prog, all, b, p, missed, n - 1);
      MissStep(prog, all, b, p, missed, n);
    }
  }

  lemma {:induction false} OutgoingTotal(prog: Program, all: seq<Var>, b: nat, p: seq<nat>, missed: seq<bool>, n: nat)
    requires IsRun(prog, p, missed) && Exactly(prog, all) && 0 < n <= |p|
    ensures Total(Terms(prog.g, Outgoing, OutOf(all, b)), StepsTo(p, missed, n)) + Visits(p, n - 1, b) == 0
  {
    ListTotal(prog, all, false, Outgoing, b, p, missed, n);
    if n > 1 {
      OutgoingTotal(prog, all, b, p, missed, n - 1);
    } else {
      assert StepsTo(p, missed, 0) == [];
    }
  }

  /** A step is weighed as an entry exactly when it comes from outside the loop. */
  lemma EntryWeight(prog: Program, x: int, b: nat, p: seq<nat>, missed: seq<bool>, i: nat, nodes: seq<nat>)
    requires IsRun(prog, p, missed) && i < |p| && b in prog.g.blocks && prog.Header(b)
    requires nodes == prog.table.Get(prog.table.loopId[b]).nodes && p[i] == b
    ensures Legal(prog, StepAt(p, missed, i))
    ensures Weigh(prog.g, Enters(x), VarFor(prog, StepAt(p, missed, i))) == if i > 0 && p[i - 1] !in nodes then x else 0
  {
    StepIsLegal(prog, p, missed, i);
  }

  lemma StayWeight(prog: Program, b: nat, p: seq<nat>, missed: seq<bool>, i: nat, nodes: seq<nat>)
    requires IsRun(prog, p, missed) && 0 < i < |p| && b in prog.g.blocks && prog.Header(b)
    requires nodes == prog.table.Get(prog.table.loopId[b]).nodes && p[i - 1] == b
    ensures Legal(prog, StepAt(p, missed, i))
    ensures Weigh(prog.g, Stays, VarFor(prog, StepAt(p, missed, i))) == if p[i] in nodes then -1 else 0
  {
    StepIsLegal(prog, p, missed, i);
  }

  /** `x` for every entry. */
  function EntrySum(p: seq<nat>, n: nat, b: nat, nodes: seq<nat>, x: int): int
    requires n <= |p|
  {
    if n < 2 then 0 else EntrySum(p, n - 1, b, nodes, x) + if p[n - 1] == b && p[n - 2] !in nodes then x else 0
  }

  lemma {:induction false} EntrySumIs(p: seq<nat>, n: nat, b: nat, nodes: seq<nat>, x: int)
    requires n <= |p|
    ensures EntrySum(p, n, b, nodes, x) == x * EntryCount(p, n, b, nodes)
  {
    if n >= 2 {
      EntrySumIs(p, n - 1, b, nodes, x);
      MoreOf(x, EntryCount(p, n - 1, b, nodes));
    }
  }

  lemma EntryStep(prog: Program, all: seq<Var>, x: int, b: nat, p: seq<nat>, missed: seq<bool>, n: nat, nodes: seq<nat>)
    requires IsRun(prog, p, missed) && Exactly(prog, all) && 0 < n <= |p| && b in prog.g.blocks && prog.Header(b)
    requires nodes == prog.table.Get(prog.table.loopId[b]).nodes
    ensures Total(Terms(prog.g, Enters(x), Into(all, b)), StepsTo(p, missed, n)) ==
            Total(Terms(prog.g, Enters(x), Into(all, b)), StepsTo(p, missed, n - 1)) +
            if n >= 2 && p[n - 1] == b && p[n - 2] !in nodes then x else 0
  {
    ListTotal(prog, all, true, Enters(x), b, p, missed, n);
    if p[n - 1] == b {
      EntryWeight(prog, x, b, p, missed, n - 1, nodes);
    }
  }

  lemma {:induction false} EntryTotal(prog: Program, all: seq<Var>, x: int, b: nat, p: seq<nat>, missed: seq<bool>, n: nat,
                                      nodes: seq<nat>)
    requires IsRun(prog, p, missed) && Exactly(prog, all) && n <= |p| && b in prog.g.blocks && prog.Header(b)
    requires nodes == prog.table.Get(prog.table.loopId[b]).nodes
    ensures Total(Terms(prog.g, Enters(x), Into(all, b)), StepsTo(p, missed, n)) == EntrySum(p, n, b, nodes, x)
  {
    if n > 0 {
      EntryTotal(prog, all, x, b, p, missed, n - 1, nodes);
      EntryStep(prog, all, x, b, p, missed, n, nodes);
    }
  }

  lemma {:induction false} StayTotal(prog: Program, all: seq<Var>, b: nat, p: seq<nat>, missed: seq<bool>, n: nat,
                                     nodes: seq<nat>)
    requires IsRun(prog, p, missed) && Exactly(prog, all) && n <= |p| && b in prog.g.blocks && prog.Header(b)
    requires nodes == prog.table.Get(prog.table.loopId[b]).nodes
    ensures Total(Terms(prog.g, Stays, OutOf(all, b)), StepsTo(p, missed, n)) + StayCount(p, n, b, nodes) == 0
  {
    if n > 0 {
      StayTotal(prog, all, b, p, missed, n - 1, nodes);
      ListTotal(prog, all, false, Stays, b, p, missed, n);
      if n > 1 && p[n - 2] == b {
        StayWeight(prog, b, p, missed, n - 1, nodes);
      }
    }
  }

  /** The last step, out of the program. */
  lemma ExitTotal(prog: Program, all: seq<Var>, into: bool, w: Weight, b: nat, p: seq<nat>, missed: seq<bool>)
    requires IsRun(prog, p, missed) && Exactly(prog, all)
    ensures Legal(prog, Key(Last(p), UNDEF, false))
    ensures Total(Terms(prog.g, w, ListOf(into, all, b)), Steps(p, missed)) ==
            Total(Terms(prog.g, w, ListOf(into, all, b)), StepsTo(p, missed, |p|)) +
            if !into && b == Last(p) then Weigh(prog.g, w, VarFor(prog, Key(Last(p), UNDEF, false))) else 0
  {
    ExitIsLegal(prog, p, missed);
    TotalGrows(Terms(prog.g, w, ListOf(into, all, b)), StepsTo(p, missed, |p|), Key(Last(p), UNDEF, false));
    ListedWeight(prog, into, w, all, b, Key(Last(p), UNDEF, false));
  }

  lemma {:induction false} TotalJoins(s: seq<Term>, t: seq<Term>, steps: seq<Key>)
    ensures Total(s + t, steps) == Total(s, steps) + Total(t, steps)
    decreases |steps|
  {
    if steps != [] {
      TotalJoins(s, t, steps[..|steps| - 1]);
      CoefJoins(s, t, steps[|steps| - 1]);
    }
  }

  // ---------------------------------------------------------------- the constraints hold

  /** Flow is conserved at every block. */
  lemma FlowHolds(prog: Program, all: seq<Var>, b: nat, p: seq<nat>, missed: seq<bool>)
    requires IsRun(prog, p, missed) && Exactly(prog, all)
    ensures Holds(FlowConstraint(prog.g, all, b), CountsOf(Steps(p, missed)))
  {
    TwoSides(Terms(prog.g, Incoming, Into(all, b)), Terms(prog.g, Outgoing, OutOf(all, b)), Steps(p, missed));
    InSide(prog, all, b, p, missed);
    OutSide(prog, all, b, p, missed);
  }

  lemma TwoSides(ins: seq<Term>, outs: seq<Term>, steps: seq<Key>)
    ensures Value(ins + outs, CountsOf(steps)) == Total(ins, steps) + Total(outs, steps)
  {
    SumOverSteps(ins + outs, steps);
    TotalJoins(ins, outs, steps);
  }

  lemma InSide(prog: Program, all: seq<Var>, b: nat, p: seq<nat>, missed: seq<bool>)
    requires IsRun(prog, p, missed) && Exactly(prog, all)
    ensures Total(Terms(prog.g, Incoming, Into(all, b)), Steps(p, missed)) == Visits(p, |p|, b)
  {
    ExitTotal(prog, all, true, Incoming, b, p, missed);
    IncomingTotal(prog, all, b, p, missed, |p|);
  }

  lemma OutSide(prog: Program, all: seq<Var>, b: nat, p: seq<nat>, missed: seq<bool>)
    requires IsRun(prog, p, missed) && Exactly(prog, all)
    ensures Total(Terms(prog.g, Outgoing, OutOf(all, b)), Steps(p, missed)) + Visits(p, |p|, b) == 0
  {
    ExitTotal(prog, all, false, Outgoing, b, p, missed);
    OutgoingTotal(prog, all, b, p, missed, |p|);
  }

  /** The variables into a block add up to its visits. */
  lemma VisitsOf(prog: Program, all: seq<Var>, b: nat, p: seq<nat>, missed: seq<bool>)
    requires IsRun(prog, p, missed) && Exactly(prog, all)
    ensures Value(Terms(prog.g, Incoming, Into(all, b)), CountsOf(Steps(p, missed))) == Visits(p, |p|, b)
  {
    SumOverSteps(Terms(prog.g, Incoming, Into(all, b)), Steps(p, missed));
    InSide(prog, all, b, p, missed);
  }

  /** The loop constraint of a block holds exactly when the run keeps to its bound; the entry runs once. */
  lemma LoopHolds(prog: Program, all: seq<Var>, b: nat, p: seq<nat>, missed: seq<bool>)
    requires IsRun(prog, p, missed) && Exactly(prog, all) && b in prog.g.blocks && !Isolated(prog.g, b)
    ensures Holds(LoopConstraint(prog.g, all, b, prog.bounds[b]), CountsOf(Steps(p, missed))) <==>
            b == p[0] || Visits(p, |p|, b) <= prog.bounds[b].realX
  {
    VisitsOf(prog, all, b, p, missed);
    EntryListed(prog, all, b);
    if b == p[0] {
      OnceAtEntry(prog, p, |p|);
    }
  }

  lemma OnceAtEntry(prog: Program, p: seq<nat>, n: nat)
    requires prog.Valid() && prog.g.IsPath(p) && 0 < n <= |p| && p[0] in prog.g.blocks && prog.g.pred[p[0]] == []
    ensures Visits(p, n, p[0]) == 1
  {
    if n > 1 {
      OnceAtEntry(prog, p, n - 1);
      assert prog.g.Edge(p[n - 2], p[n - 1]);
    }
  }

  lemma {:induction false} IntoMembers(all: seq<Var>, b: nat, v: Var)
    ensures v in Into(all, b) <==> v in all && v.to == b
  {
    if all != [] {
      IntoMembers(all[..|all| - 1], b, v);
      assert all == all[..|all| - 1] + [LastVar(all)];
    }
  }

  lemma {:induction false} CountedIsMember(all: seq<Var>, k: Key) returns (v: Var)
    requires CountFor(all, k) > 0
    ensures v in all && KeyOf(v) == k
  {
    if KeyOf(LastVar(all)) == k {
      v := LastVar(all);
    } else {
      v := CountedIsMember(all[..|all| - 1], k);
    }
  }

  lemma EntryListed(prog: Program, all: seq<Var>, b: nat)
    requires prog.Valid() && Exactly(prog, all) && b in prog.g.blocks && !Isolated(prog.g, b)
    ensures HasEntry(Into(all, b)) <==> prog.g.pred[b] == []
  {
    var vs := Into(all, b);
    if HasEntry(vs) {
      var i :| 0 <= i < |vs| && vs[i].entry;
      IntoMembers(all, b, vs[i]);
      var j :| 0 <= j < |all| && all[j] == vs[i];
      assert Legal(prog, KeyOf(all[j])) && all[j] == VarFor(prog, KeyOf(all[j]));
    }
    if prog.g.pred[b] == [] {
      var k := Key(UNDEF, b, false);
      assert Legal(prog, k);
      var v := CountedIsMember(all, k);
      var j :| 0 <= j < |all| && all[j] == v;
      assert all[j] == VarFor(prog, KeyOf(all[j]));
      IntoMembers(all, b, v);
    }
  }

  /** What the run may do at a block with first misses. */
  ghost function MissLimit(prog: Program, b: nat): int
    requires prog.Valid() && b in prog.g.blocks && (prog.Header(b) ==> prog.table.OutsidePreds(prog.g, b) != [])
  {
    if prog.Header(b) then prog.bounds[prog.table.MainPred(prog.g, b)].outerX else prog.bounds[b].outerX
  }

  lemma MemberIsLegal(prog: Program, all: seq<Var>, v: Var)
    requires prog.Valid() && Exactly(prog, all) && v in all
    ensures Legal(prog, KeyOf(v)) && v == VarFor(prog, KeyOf(v))
  {
    var j :| 0 <= j < |all| && all[j] == v;
  }

  lemma BoundIs(prog: Program, all: seq<Var>, b: nat, v: Var)
    requires prog.Valid() && Exactly(prog, all) && b in prog.g.blocks && prog.Header(b) && v in all && v.to == b && v.fmiss
    ensures v.bound == prog.bounds[prog.table.MainPred(prog.g, b)].outerX
  {
    MemberIsLegal(prog, all, v);
  }

  /** In a list with a first-miss variable of a header, the bound used is that of the main predecessor. */
  lemma {:induction false} MissBoundIs(prog: Program, all: seq<Var>, b: nat, vs: seq<Var>)
    requires prog.Valid() && Exactly(prog, all) && b in prog.g.blocks && prog.Header(b)
    requires forall i | 0 <= i < |vs| :: vs[i] in all && vs[i].to == b
    ensures (exists i :: 0 <= i < |vs| && vs[i].fmiss) ==> MissBound(vs) == prog.bounds[prog.table.MainPred(prog.g, b)].outerX
  {
    if vs != [] {
      MissBoundIs(prog, all, b, vs[..|vs| - 1]);
      if vs[|vs| - 1].fmiss {
        BoundIs(prog, all, b, vs[|vs| - 1]);
      } else if i :| 0 <= i < |vs| && vs[i].fmiss {
        assert vs[..|vs| - 1][i].fmiss;
      }
    }
  }

  /** The cache constraint of a block holds exactly when the run keeps to the limit of first misses. */
  lemma CacheHolds(prog: Program, all: seq<Var>, b: nat, p: seq<nat>, missed: seq<bool>)
    requires IsRun(prog, p, missed) && Exactly(prog, all) && b in prog.g.blocks && prog.firstMiss[b]
    ensures Holds(CacheConstraint(prog.g, all, b, prog.Header(b), prog.bounds[b]), CountsOf(Steps(p, missed))) <==>
            MissCount(p, missed, |p|, b) <= MissLimit(prog, b)
  {
    SumOverSteps(Terms(prog.g, Missed, Into(all, b)), Steps(p, missed));
    ExitTotal(prog, all, true, Missed, b, p, missed);
    MissTotal(prog, all, b, p, missed, |p|);
    if prog.Header(b) {
      HeaderMissBound(prog, all, b);
    }
  }

  lemma HeaderMissBound(prog: Program, all: seq<Var>, b: nat)
    requires prog.Valid() && Exactly(prog, all) && b in prog.g.blocks && prog.firstMiss[b] && prog.Header(b)
    ensures MissBound(Into(all, b)) == MissLimit(prog, b)
  {
    var vs, m := Into(all, b), prog.table.MainPred(prog.g, b);
    forall i | 0 <= i < |vs|
      ensures vs[i] in all && vs[i].to == b
    {
      IntoMembers(all, b, vs[i]);
    }
    var k := Key(m, b, true);
    assert m in prog.g.pred[b];
    assert Legal(prog, k);
    var v := CountedIsMember(all, k);
    IntoMembers(all, b, v);
    var i :| 0 <= i < |vs| && vs[i] == v;
    MissBoundIs(prog, all, b, vs);
  }

  /** The autoloop equality holds exactly when the run goes from the header into the loop its bound times per entry. */
  lemma AutoloopHolds(prog: Program, all: seq<Var>, b: nat, p: seq<nat>, missed: seq<bool>)
    requires IsRun(prog, p, missed) && Exactly(prog, all) && b in prog.g.blocks && prog.Header(b)
    ensures var nodes := prog.table.Get(prog.table.loopId[b]).nodes;
            Holds(AutoloopConstraint(prog.g, all, b, prog.bounds[b]), CountsOf(Steps(p, missed))) <==>
            StayCount(p, |p|, b, nodes) == prog.bounds[b].innerX * EntryCount(p, |p|, b, nodes)
  {
    var nodes, x := prog.table.Get(prog.table.loopId[b]).nodes, prog.bounds[b].innerX;
    AutoloopValue(prog, all, x, b, p, missed, nodes);
    IsZero(Terms(prog.g, Enters(x), Into(all, b)) + Terms(prog.g, Stays, OutOf(all, b)), CountsOf(Steps(p, missed)),
           x * EntryCount(p, |p|, b, nodes), StayCount(p, |p|, b, nodes));
  }

  lemma IsZero(terms: seq<Term>, x: Assignment, a: int, b: int)
    requires Value(terms, x) == a - b
    ensures Holds(Constraint(terms, Equal, 0), x) <==> b == a
  {
  }

  lemma AutoloopValue(prog: Program, all: seq<Var>, x: int, b: nat, p: seq<nat>, missed: seq<bool>, nodes: seq<nat>)
    requires IsRun(prog, p, missed) && Exactly(prog, all) && b in prog.g.blocks && prog.Header(b)
    requires nodes == prog.table.Get(prog.table.loopId[b]).nodes
    ensures Value(Terms(prog.g, Enters(x), Into(all, b)) + Terms(prog.g, Stays, OutOf(all, b)), CountsOf(Steps(p, missed))) ==
            x * EntryCount(p, |p|, b, nodes) - StayCount(p, |p|, b, nodes)
  {
    TwoSides(Terms(prog.g, Enters(x), Into(all, b)), Terms(prog.g, Stays, OutOf(all, b)), Steps(p, missed));
    EntrySide(prog, all, x, b, p, missed, nodes);
    StaySide(prog, all, b, p, missed, nodes);
    EntrySumIs(p, |p|, b, nodes, x);
  }

  lemma EntrySide(prog: Program, all: seq<Var>, x: int, b: nat, p: seq<nat>, missed: seq<bool>, nodes: seq<nat>)
    requires IsRun(prog, p, missed) && Exactly(prog, all) && b in prog.g.blocks && prog.Header(b)
    requires nodes == prog.table.Get(prog.table.loopId[b]).nodes
    ensures Total(Terms(prog.g, Enters(x), Into(all, b)), Steps(p, missed)) == EntrySum(p, |p|, b, nodes, x)
  {
    ExitTotal(prog, all, true, Enters(x), b, p, missed);
    EntryTotal(prog, all, x, b, p, missed, |p|, nodes);
  }

  lemma ExitDoesNotStay(prog: Program, p: seq<nat>)
    requires prog.Valid() && p != [] && Legal(prog, Key(Last(p), UNDEF, false))
    ensures Weigh(prog.g, Stays, VarFor(prog, Key(Last(p), UNDEF, false))) == 0
  {
  }

  lemma StaySide(prog: Program, all: seq<Var>, b: nat, p: seq<nat>, missed: seq<bool>, nodes: seq<nat>)
    requires IsRun(prog, p, missed) && Exactly(prog, all) && b in prog.g.blocks && prog.Header(b)
    requires nodes == prog.table.Get(prog.table.loopId[b]).nodes
    ensures Total(Terms(prog.g, Stays, OutOf(all, b)), Steps(p, missed)) + StayCount(p, |p|, b, nodes) == 0
  {
    ExitTotal(prog, all, false, Stays, b, p, missed);
    ExitDoesNotStay(prog, p);
    StayTotal(prog, all, b, p, missed, |p|, nodes);
  }

  lemma {:induction false} TimesFromOutside(p: seq<nat>, missed: seq<bool>, n: nat, k: Key)
    requires 0 < n <= |p| == |missed| && k.from == UNDEF
    ensures Times(StepsTo(p, missed, n), k) == if k == Key(UNDEF, p[0], false) then 1 else 0
  {
    var s := StepsTo(p, missed, n);
    assert s[..|s| - 1] == StepsTo(p, missed, n - 1);
    if n > 1 {
      TimesFromOutside(p, missed, n - 1, k);
    } else {
      assert Times([], k) == 0;
    }
  }

  lemma {:induction false} TimesToOutside(p: seq<nat>, missed: seq<bool>, n: nat, k: Key)
    requires n <= |p| == |missed| && k.to == UNDEF
    ensures Times(StepsTo(p, missed, n), k) == 0
  {
    if n > 0 {
      var s := StepsTo(p, missed, n);
      assert s[..|s| - 1] == StepsTo(p, missed, n - 1);
      TimesToOutside(p, missed, n - 1, k);
    }
  }

  /** The entry and the exit are taken once. */
  lemma EndsHold(prog: Program, all: seq<Var>, i: nat, p: seq<nat>, missed: seq<bool>)
    requires IsRun(prog, p, missed) && Exactly(prog, all) && i < |all| && (all[i].entry || all[i].exit)
    ensures Holds(Fixed(all[i]), CountsOf(Steps(p, missed)))
  {
    var k, s := KeyOf(all[i]), Steps(p, missed);
    assert Legal(prog, k) && all[i] == VarFor(prog, k);
    assert s[..|s| - 1] == StepsTo(p, missed, |p|);
    if k.from == UNDEF {
      TimesFromOutside(p, missed, |p|, k);
    } else {
      TimesToOutside(p, missed, |p|, k);
    }
    assert Fixed(all[i]).terms[..0] == [];
    assert Value([], CountsOf(s)) == 0;
  }

  // ---------------------------------------------------------------- the objective

  /** Through the objective a step contributes its cost, once. */
  lemma {:induction false} ObjectiveCoef(prog: Program, all: seq<Var>, blocks: seq<nat>, k: Key)
    requires prog.Valid() && Exactly(prog, all) && Legal(prog, k) && NoDuplicates(blocks)
    ensures Coef(Objective(prog.g, all, blocks), k) == if Occurs(blocks, k.to) then Weigh(prog.g, Cost, VarFor(prog, k)) else 0
  {
    if blocks != [] {
      var rest, b := blocks[..|blocks| - 1], blocks[|blocks| - 1];
      ObjectiveCoef(prog, all, rest, k);
      CoefJoins(Objective(prog.g, all, rest), Terms(prog.g, Cost, Into(all, b)), k);
      ListedWeight(prog, true, Cost, all, b, k);
      OccursLast(blocks, k.to);
    }
  }

  lemma CostOfStep(prog: Program, all: seq<Var>, p: seq<nat>, missed: seq<bool>, i: nat)
    requires IsRun(prog, p, missed) && Exactly(prog, all) && i < |p|
    ensures Coef(Objective(prog.g, all, prog.g.blocks), StepAt(p, missed, i)) == CostAt(prog, p, missed, i)
  {
    StepIsLegal(prog, p, missed, i);
    ObjectiveCoef(prog, all, prog.g.blocks, StepAt(p, missed, i));
    assert p[i] in prog.g.blocks;
    OccursIn(prog.g.blocks, p[i]);
    StepCost(prog, p, missed, i);
  }

  lemma StepCost(prog: Program, p: seq<nat>, missed: seq<bool>, i: nat)
    requires IsRun(prog, p, missed) && i < |p|
    ensures Legal(prog, StepAt(p, missed, i))
    ensures Weigh(prog.g, Cost, VarFor(prog, StepAt(p, missed, i))) == CostAt(prog, p, missed, i)
  {
    StepIsLegal(prog, p, missed, i);
    CostOfEdge(prog, StepAt(p, missed, i));
  }

  lemma CostOfEdge(prog: Program, k: Key)
    requires prog.Valid() && Legal(prog, k) && k.to != UNDEF
    ensures Weigh(prog.g, Cost, VarFor(prog, k)) == TimeOf(prog, k) - if prog.g.succ[k.to] == [] then 0 else SavedOn(prog, k)
  {
  }

  lemma {:induction false} CostTotal(prog: Program, all: seq<Var>, p: seq<nat>, missed: seq<bool>, n: nat)
    requires IsRun(prog, p, missed) && Exactly(prog, all) && n <= |p|
    ensures Total(Objective(prog.g, all, prog.g.blocks), StepsTo(p, missed, n)) == RunCost(prog, p, missed, n)
  {
    if n > 0 {
      CostTotal(prog, all, p, missed, n - 1);
      CostOfStep(prog, all, p, missed, n - 1);
      TotalGrows(Objective(prog.g, all, prog.g.blocks), StepsTo(p, missed, n - 1), StepAt(p, missed, n - 1));
    }
  }

  /** The objective at the counts of a run is the time of the run less the cycles saved. */
  lemma ObjectiveIsCost(prog: Program, all: seq<Var>, p: seq<nat>, missed: seq<bool>)
    requires IsRun(prog, p, missed) && Exactly(prog, all)
    ensures Value(Objective(prog.g, all, prog.g.blocks), CountsOf(Steps(p, missed))) == RunCost(prog, p, missed, |p|)
  {
    var terms, out := Objective(prog.g, all, prog.g.blocks), Key(Last(p), UNDEF, false);
    SumOverSteps(terms, Steps(p, missed));
    CostTotal(prog, all, p, missed, |p|);
    TotalGrows(terms, StepsTo(p, missed, |p|), out);
    ExitIsLegal(prog, p, missed);
    ObjectiveCoef(prog, all, prog.g.blocks, out);
    OccursIn(prog.g.blocks, UNDEF);
  }

  // ---------------------------------------------------------------- every run is covered

  /** The run keeps the bounds of its blocks and first misses, and takes every loop exactly its bound. */
  ghost predicate WithinBounds(prog: Program, p: seq<nat>, missed: seq<bool>)
    requires IsRun(prog, p, missed)
  {
    && (forall b | b in prog.g.blocks && !Isolated(prog.g, b) && b != p[0] :: Visits(p, |p|, b) <= prog.bounds[b].realX)
    && (forall b | b in prog.g.blocks && prog.firstMiss[b] :: MissCount(p, missed, |p|, b) <= MissLimit(prog, b))
    && (forall b | b in prog.g.blocks && prog.Header(b) :: ExactlyBound(prog, b, p))
  }

  ghost predicate ExactlyBound(prog: Program, b: nat, p: seq<nat>)
    requires prog.Valid() && b in prog.g.blocks && prog.Header(b)
  {
    var nodes := prog.table.Get(prog.table.loopId[b]).nodes;
    StayCount(p, |p|, b, nodes) == prog.bounds[b].innerX * EntryCount(p, |p|, b, nodes)
  }

  ghost predicate Feasible(prog: Program, all: seq<Var>, x: Assignment)
    requires prog.Valid()
  {
    forall c {:trigger Row(prog, all, c)} {:trigger Holds(c, x)} | Row(prog, all, c) :: Holds(c, x)
  }

  lemma BlockRowHolds(prog: Program, all: seq<Var>, b: nat, c: Constraint, p: seq<nat>, missed: seq<bool>)
    requires IsRun(prog, p, missed) && Exactly(prog, all) && b in prog.g.blocks && BlockRow(prog, all, b, c)
    requires WithinBounds(prog, p, missed)
    ensures Holds(c, CountsOf(Steps(p, missed)))
  {
    if !Isolated(prog.g, b) {
      FlowHolds(prog, all, b, p, missed);
      LoopHolds(prog, all, b, p, missed);
    }
    if prog.firstMiss[b] {
      CacheHolds(prog, all, b, p, missed);
    }
    if prog.Header(b) {
      AutoloopHolds(prog, all, b, p, missed);
    }
  }

  /** The counts of a run meet every constraint of the program exactly when the run is within its bounds and takes
      every loop exactly its bound. */
  lemma FeasibleExactly(prog: Program, all: seq<Var>, p: seq<nat>, missed: seq<bool>)
    requires IsRun(prog, p, missed) && Exactly(prog, all)
    ensures Feasible(prog, all, CountsOf(Steps(p, missed))) <==> WithinBounds(prog, p, missed)
  {
    var x := CountsOf(Steps(p, missed));
    if WithinBounds(prog, p, missed) {
      forall c | Row(prog, all, c)
        ensures Holds(c, x)
      {
        if i :| 0 <= i < |all| && FixedRow(all, i, c) {
          EndsHold(prog, all, i, p, missed);
        } else {
          var i :| 0 <= i < |prog.g.blocks| && BlockRow(prog, all, prog.g.blocks[i], c);
          BlockRowHolds(prog, all, prog.g.blocks[i], c, p, missed);
        }
      }
    }
    if Feasible(prog, all, x) {
      forall b | b in prog.g.blocks
        ensures !Isolated(prog.g, b) && b != p[0] ==> Visits(p, |p|, b) <= prog.bounds[b].realX
        ensures prog.firstMiss[b] ==> MissCount(p, missed, |p|, b) <= MissLimit(prog, b)
        ensures prog.Header(b) ==> ExactlyBound(prog, b, p)
      {
        FeasibleBlock(prog, all, b, p, missed);
      }
    }
  }

  lemma FeasibleBlock(prog: Program, all: seq<Var>, b: nat, p: seq<nat>, missed: seq<bool>)
    requires IsRun(prog, p, missed) && Exactly(prog, all) && b in prog.g.blocks
    requires Feasible(prog, all, CountsOf(Steps(p, missed)))
    ensures !Isolated(prog.g, b) && b != p[0] ==> Visits(p, |p|, b) <= prog.bounds[b].realX
    ensures prog.firstMiss[b] ==> MissCount(p, missed, |p|, b) <= MissLimit(prog, b)
    ensures prog.Header(b) ==> ExactlyBound(prog, b, p)
  {
    var i :| 0 <= i < |prog.g.blocks| && prog.g.blocks[i] == b;
    var x := CountsOf(Steps(p, missed));
    if !Isolated(prog.g, b) && b != p[0] {
      assert BlockRow(prog, all, prog.g.blocks[i], LoopConstraint(prog.g, all, b, prog.bounds[b]));
      LoopHolds(prog, all, b, p, missed);
    }
    if prog.firstMiss[b] {
      assert BlockRow(prog, all, prog.g.blocks[i], CacheConstraint(prog.g, all, b, prog.Header(b), prog.bounds[b]));
      CacheHolds(prog, all, b, p, missed);
    }
    if prog.Header(b) {
      assert BlockRow(prog, all, prog.g.blocks[i], AutoloopConstraint(prog.g, all, b, prog.bounds[b]));
      AutoloopHolds(prog, all, b, p, missed);
    }
  }

  /** No feasible assignment has a greater objective. */
  ghost predicate IsUpperBound(prog: Program, all: seq<Var>, wcet: int)
    requires prog.Valid()
  {
    forall x: Assignment {:trigger Feasible(prog, all, x)} | Feasible(prog, all, x) ::
      Value(Objective(prog.g, all, prog.g.blocks), x) <= wcet
  }

  /** A value that no feasible assignment exceeds bounds the cost of every run within the bounds. */
  lemma MaximumCovers(prog: Program, all: seq<Var>, wcet: int, p: seq<nat>, missed: seq<bool>)
    requires IsRun(prog, p, missed) && WithinBounds(prog, p, missed)
    requires all == AllVars(prog, prog.g.blocks) && IsUpperBound(prog, all, wcet)
    ensures RunCost(prog, p, missed, |p|) <= wcet
  {
    VariablesAreSteps(prog);
    RunIsCovered(prog, all, wcet, p, missed);
  }

  lemma RunIsCovered(prog: Program, all: seq<Var>, wcet: int, p: seq<nat>, missed: seq<bool>)
    requires IsRun(prog, p, missed) && WithinBounds(prog, p, missed) && Exactly(prog, all) && IsUpperBound(prog, all, wcet)
    ensures RunCost(prog, p, missed, |p|) <= wcet
  {
    FeasibleExactly(prog, all, p, missed);
    ObjectiveIsCost(prog, all, p, missed);
  }

  /** With the bounds of the loop bound detector, a run that keeps the loops' bounds keeps those of the blocks, where no way
      leads past the headers. */
  lemma {:induction false} LoopBoundsSuffice(prog: Program, limits: seq<Limit>, p: seq<nat>, missed: seq<bool>, b: nat)
    requires IsRun(prog, p, missed) && b in prog.g.blocks && Numbered(prog.table.loops, limits)
    requires BoundedRun(prog.g, Renumbered(prog.table.loops), limits, p)
    requires prog.table.loopId[b] == Innermost(prog.table.loops, b) && (prog.table.loopId[b] == UNDEF || HasId(prog.table.loops, prog.table.loopId[b]))
    requires BoundsAre(Renumbered(prog.table.loops), limits, b, Place(prog.table.loops, prog.table.loopId[b]), prog.bounds[b])
    requires ChainOk(prog.g, Renumbered(prog.table.loops), Place(prog.table.loops, prog.table.loopId[b]))
    requires BlockOk(prog.g, Renumbered(prog.table.loops), limits, b, Place(prog.table.loops, prog.table.loopId[b]))
    ensures Visits(p, |p|, b) <= prog.bounds[b].realX
  {
    InnermostPlace(prog.table.loops, b);
    LoopBounds.BlockCounts(prog.g, Renumbered(prog.table.loops), limits, p, b, prog.bounds[b]);
  }

  /** A program of one block is not covered: its block is isolated and gets no variable, so the objective is empty. */
  lemma OneBlockHasNoCost(prog: Program, b: nat, x: Assignment)
    requires prog.Valid() && prog.g.blocks == [b] && Isolated(prog.g, b)
    ensures var all := AllVars(prog, prog.g.blocks);
            all == [] && Value(Objective(prog.g, all, prog.g.blocks), x) == 0
  {
    assert prog.g.blocks[..0] == [];
    assert VarsOf(prog, b) == [] && AllVars(prog, []) == [];
    assert Objective(prog.g, [], []) == [] && Terms(prog.g, Cost, Into([], b)) == [];
  }

  // ---------------------------------------------------------------- counts of a solution

  lemma {:induction false} TowardWithin(g: Graph, vs: seq<Var>, b: nat, x: Assignment)
    ensures 0 <= Value(Terms(g, Toward(b), vs), x) <= -Value(Terms(g, Outgoing, vs), x)
  {
    if vs != [] {
      var rest, v := vs[..|vs| - 1], vs[|vs| - 1];
      TowardWithin(g, rest, b, x);
      ValueJoins(Terms(g, Toward(b), rest), TermsFor(g, Toward(b), v), x);
      ValueJoins(Terms(g, Outgoing, rest), [Term(v, -1)], x);
      OneTermValue(Term(v, 1), x);
      OneTermValue(Term(v, -1), x);
    }
  }

  lemma {:induction false} TowardIsIncoming(g: Graph, all: seq<Var>, a: nat, b: nat, x: Assignment)
    ensures Value(Terms(g, Toward(b), OutOf(all, a)), x) <= Value(Terms(g, Incoming, Into(all, b)), x)
  {
    if all != [] {
      var rest, v := all[..|all| - 1], LastVar(all);
      TowardIsIncoming(g, rest, a, b, x);
      OneTermValue(Term(v, 1), x);
      if v.from == a {
        assert OutOf(all, a)[..|OutOf(all, a)| - 1] == OutOf(rest, a);
        ValueJoins(Terms(g, Toward(b), OutOf(rest, a)), TermsFor(g, Toward(b), v), x);
      } else {
        assert OutOf(all, a) == OutOf(rest, a);
      }
      if v.to == b {
        assert Into(all, b)[..|Into(all, b)| - 1] == Into(rest, b);
        ValueJoins(Terms(g, Incoming, Into(rest, b)), [Term(v, 1)], x);
      } else {
        assert Into(all, b) == Into(rest, b);
      }
    }
  }

  /** In every solution, what flows along an edge is at most the count of either end. */
  lemma TransferWithinCounts(prog: Program, all: seq<Var>, x: Assignment, a: nat, b: nat)
    requires prog.Valid() && a in prog.g.blocks && !Isolated(prog.g, a) && Feasible(prog, all, x)
    ensures 0 <= Transfer(prog.g, all, x, a, b) <= Value(Terms(prog.g, Incoming, Into(all, a)), x)
    ensures Transfer(prog.g, all, x, a, b) <= Value(Terms(prog.g, Incoming, Into(all, b)), x)
  {
    FlowBalances(prog, all, x, a);
    TowardWithin(prog.g, OutOf(all, a), b, x);
    TowardIsIncoming(prog.g, all, a, b, x);
  }

  lemma FlowBalances(prog: Program, all: seq<Var>, x: Assignment, a: nat)
    requires prog.Valid() && a in prog.g.blocks && !Isolated(prog.g, a) && Feasible(prog, all, x)
    ensures Value(Terms(prog.g, Incoming, Into(all, a)), x) + Value(Terms(prog.g, Outgoing, OutOf(all, a)), x) == 0
  {
    var i :| 0 <= i < |prog.g.blocks| && prog.g.blocks[i] == a;
    var c := FlowConstraint(prog.g, all, a);
    assert BlockRow(prog, all, prog.g.blocks[i], c);
    assert Row(prog, all, c);
    assert Holds(c, x);
    ValueJoins(Terms(prog.g, Incoming, Into(all, a)), Terms(prog.g, Outgoing, OutOf(all, a)), x);
  }
}
