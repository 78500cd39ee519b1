/** The bound on stays is exact: for every bound there are runs that keep it and enter the component as often as
    `LoopStays.StayBound` allows. */
module LoopExact {
  import opened Graphs
  import opened Loops
  import opened Components
  import opened Tarjan
  import opened LoopNesting
  import opened LoopStays

  /** A loop of a program whose blocks are all reached from the entry, that can be left, and a component of its body. */
  ghost predicate Setting(g: Graph, outer: Graph, loop: Loop, r: nat, c: seq<nat>) {
    && PartOf(g, loop, r, c) && Component(outer, loop.root, loop.nodes) && Inside(g, loop.nodes) && RootReachesAll(g)
    && (forall a: nat, b: nat :: outer.Edge(a, b) ==> g.Edge(a, b))
    && exists y: nat :: ExitAt(g, loop, y)
  }

  // ---------------------------------------------------------------- walks inside the loop

  /** Appending `s` to a run that ends at `x` leads inside the loop to `y`. */
  ghost predicate Goes(g: Graph, loop: Loop, x: nat, s: seq<nat>, y: nat) {
    && (forall i: nat {:trigger StepAt(g, loop, x, s, i)} | i < |s| :: StepAt(g, loop, x, s, i))
    && y == if s == [] then x else s[|s| - 1]
  }

  predicate StepAt(g: Graph, loop: Loop, x: nat, s: seq<nat>, i: nat)
    requires i < |s|
  {
    s[i] in loop.nodes && s[i] in g.blocks && g.Edge(BeforeThat(x, s, i), s[i])
  }

  function BeforeThat(x: nat, s: seq<nat>, i: nat): nat
    requires i < |s|
  {
    if i == 0 then x else s[i - 1]
  }

  lemma GoesJoin(g: Graph, loop: Loop, x: nat, s: seq<nat>, y: nat, t: seq<nat>, z: nat)
    requires Goes(g, loop, x, s, y) && Goes(g, loop, y, t, z)
    ensures Goes(g, loop, x, s + t, z) && forall b: nat :: CountOf(s + t, b) == CountOf(s, b) + CountOf(t, b)
  {
    forall i: nat | i < |s + t|
      ensures StepAt(g, loop, x, s + t, i)
    {
      if i < |s| {
        assert StepAt(g, loop, x, s, i);
      } else {
        assert StepAt(g, loop, y, t, i - |s|);
      }
    }
    forall b: nat
      ensures CountOf(s + t, b) == CountOf(s, b) + CountOf(t, b)
    {
      CountAdds(s, t, b);
    }
  }

  lemma {:induction false} CountAdds(s: seq<nat>, t: seq<nat>, b: nat)
    ensures CountOf(s + t, b) == CountOf(s, b) + CountOf(t, b)
  {
    if t == [] {
      assert s + t == s;
    } else {
      CountAdds(s, t[..|t| - 1], b);
      assert (s + t)[..|s + t| - 1] == s + t[..|t| - 1];
      CountOfFront(s + t);
      CountOfFront(t);
    }
  }

  /** A way of the body, without the header. */
  lemma WalkInside(g: Graph, loop: Loop, x: nat, y: nat) returns (s: seq<nat>)
    requires Inside(g, loop.nodes) && Inner(g, loop.nodes, loop.root).Reaches(x, y)
    ensures Goes(g, loop, x, s, y) && CountOf(s, loop.root) == 0
  {
    var inner := Inner(g, loop.nodes, loop.root);
    var p :| inner.IsPathBetween(p, x, y);
    s := p[1..];
    forall i: nat | i < |s|
      ensures s[i] != loop.root && StepAt(g, loop, x, s, i)
    {
      assert inner.Edge(p[i], p[i + 1]);
      InnerEdges(g, loop.nodes, loop.root, p[i], p[i + 1]);
      InLoop(g, loop, s[i]);
    }
    NoneCounts(s, loop.root, |s|);
  }

  lemma InLoop(g: Graph, loop: Loop, v: nat)
    requires Inside(g, loop.nodes) && v in loop.nodes
    ensures v in g.blocks
  {
    var i :| 0 <= i < |loop.nodes| && loop.nodes[i] == v;
  }

  lemma {:induction false} FirstOf(p: seq<nat>, b: nat) returns (i: nat)
    requires b in p
    ensures i < |p| && p[i] == b && forall k | 0 <= k < i :: p[k] != b
  {
    if p[0] == b {
      i := 0;
    } else {
      var k := FirstOf(p[1..], b);
      i := k + 1;
    }
  }

  /** From every other block of the loop the header can be reached inside the loop. */
  lemma WalkToHeader(g: Graph, outer: Graph, loop: Loop, x: nat) returns (s: seq<nat>)
    requires Component(outer, loop.root, loop.nodes) && Inside(g, loop.nodes) && x in loop.nodes && x != loop.root
    requires forall a: nat, b: nat :: outer.Edge(a, b) ==> g.Edge(a, b)
    ensures Goes(g, loop, x, s, loop.root) && CountOf(s, loop.root) == 1
  {
    var p :| outer.IsPathBetween(p, x, loop.root);
    assert p[|p| - 1] in p;
    var n := FirstOf(p, loop.root);
    s := p[1..n + 1];
    forall i: nat | i < |s|
      ensures StepAt(g, loop, x, s, i)
    {
      PathInComponent(outer, loop.root, loop.nodes, p, i + 1);
      assert outer.Edge(p[i], p[i + 1]);
      InLoop(g, loop, s[i]);
    }
    CountOfFront(s);
    forall i | 0 <= i < |s| - 1
      ensures s[i] != loop.root
    {
      assert s[i] == p[i + 1];
    }
    NoneCounts(s[..|s| - 1], loop.root, |s| - 1);
  }

  /** A round from the header through the component and back. */
  lemma WalkRound(g: Graph, outer: Graph, loop: Loop, r: nat, c: seq<nat>) returns (s: seq<nat>)
    requires Setting(g, outer, loop, r, c)
    ensures Goes(g, loop, loop.root, s, loop.root) && CountOf(s, loop.root) == 1 && exists i | 0 <= i < |s| :: s[i] in c
  {
    HeaderReachesInside(g, outer, loop.root, loop.nodes, r);
    var t := WalkInside(g, loop, loop.root, r);
    var u := WalkToHeader(g, outer, loop, r);
    GoesJoin(g, loop, loop.root, t, r, u, loop.root);
    s := t + u;
    assert s[|t| - 1] == r;
  }

  // ---------------------------------------------------------------- runs

  /** A run that keeps the bound and ends at `x`, after `runs` runs of the header in this stay and at least `entries`
      entries. */
  ghost predicate Stands(g: Graph, loop: Loop, c: seq<nat>, k: nat, p: seq<nat>, x: nat, runs: nat, entries: nat) {
    && IsRunOf(g, p) && p[|p| - 1] == x && x in loop.nodes && BoundKept(p, loop, k)
    && StayRuns(p, |p|, loop) == runs && StayEntries(p, |p|, loop, c) >= entries
  }

  lemma GoOn(g: Graph, loop: Loop, c: seq<nat>, k: nat, p: seq<nat>, x: nat, runs: nat, entries: nat, s: seq<nat>, y: nat)
    requires g.SuccValid() && Stands(g, loop, c, k, p, x, runs, entries) && Goes(g, loop, x, s, y)
    requires runs + CountOf(s, loop.root) <= k + 1
    ensures Stands(g, loop, c, k, p + s, y, runs + CountOf(s, loop.root), entries)
    ensures x !in c && (exists i | 0 <= i < |s| :: s[i] in c) ==>
              Stands(g, loop, c, k, p + s, y, runs + CountOf(s, loop.root), entries + 1)
  {
    forall i: nat | i < |s|
      ensures s[i] in loop.nodes
    {
      assert StepAt(g, loop, x, s, i);
    }
    AppendInside(p, s, loop, c, k);
    PathGoesOn(g, loop, p, x, s, y);
  }

  lemma PathGoesOn(g: Graph, loop: Loop, p: seq<nat>, x: nat, s: seq<nat>, y: nat)
    requires IsRunOf(g, p) && p[|p| - 1] == x && x in loop.nodes && Goes(g, loop, x, s, y)
    ensures IsRunOf(g, p + s) && (p + s)[|p + s| - 1] == y && y in loop.nodes
  {
    var q := p + s;
    assert s != [] ==> StepAt(g, loop, x, s, |s| - 1);
    forall i | 0 <= i < |q| - 1
      ensures g.Edge(q[i], q[i + 1])
    {
      if i >= |p| - 1 {
        var j: nat := i + 1 - |p|;
        assert StepAt(g, loop, x, s, j);
        assert q[i + 1] == s[j] && q[i] == BeforeThat(x, s, j);
      }
    }
    forall i | 0 <= i < |q|
      ensures q[i] in g.blocks
    {
      if i >= |p| {
        assert StepAt(g, loop, x, s, i - |p|);
      }
    }
  }

  lemma {:induction false} RunsAtMostVisits(p: seq<nat>, n: nat, loop: Loop)
    requires n <= |p|
    ensures StayRuns(p, n, loop) <= Visits(p, n, loop.root)
  {
    if n > 0 {
      RunsAtMostVisits(p, n - 1, loop);
    }
  }

  lemma {:induction false} VisitsGrow(p: seq<nat>, m: nat, n: nat, b: nat)
    requires m <= n <= |p|
    ensures Visits(p, m, b) <= Visits(p, n, b)
  {
    if m < n {
      VisitsGrow(p, m, n - 1, b);
    }
  }

  /** A run that comes to the header at most once keeps every bound. */
  lemma FewVisitsKept(p: seq<nat>, loop: Loop, k: nat)
    requires Visits(p, |p|, loop.root) <= 1
    ensures BoundKept(p, loop, k)
  {
    forall n: nat | n <= |p|
      ensures StayRuns(p, n, loop) <= k + 1
    {
      RunsAtMostVisits(p, n, loop);
      VisitsGrow(p, n, |p|, loop.root);
    }
  }

  /** A path on which `b` occurs at most once. */
  lemma OnceOnly(g: Graph, a: nat, z: nat, b: nat) returns (p: seq<nat>)
    requires g.SuccValid() && g.Reaches(a, z)
    ensures g.IsPathBetween(p, a, z) && CountOf(p, b) <= 1 && (z == b ==> CountOf(p, b) == 1)
  {
    var q :| g.IsPathBetween(q, a, z);
    if b in q {
      var i := FirstOf(q, b);
      PathSuffix(g, q, i);
      var t := AfterLastVisit(g, q[i..], b);
      PathPrefix(g, q, i + 1);
      PathsJoin(g, q[..i + 1], t);
      p := q[..i + 1] + t[1..];
      CountOfFront(q[..i + 1]);
      assert q[..i + 1][..i] == q[..i];
      NoneCounts(q[..i], b, i);
      NoneCounts(t[1..], b, |t| - 1);
      CountAdds(q[..i + 1], t[1..], b);
    } else {
      p := q;
      NoneCounts(q, b, |q|);
      assert q[|q| - 1] in q;
    }
  }

  /** A run to the header that comes to it once. */
  lemma StartAtHeader(g: Graph, outer: Graph, loop: Loop, r: nat, c: seq<nat>, k: nat) returns (p: seq<nat>)
    requires Setting(g, outer, loop, r, c)
    ensures Stands(g, loop, c, k, p, loop.root, 1, 0)
  {
    InLoop(g, loop, loop.root);
    p := OnceOnly(g, g.root, loop.root, loop.root);
    FewVisitsKept(p, loop, k);
    RunsAtMostVisits(p, |p|, loop);
  }

  /** A run that enters the loop beside the header. */
  lemma StartBeside(g: Graph, outer: Graph, loop: Loop, r: nat, c: seq<nat>, k: nat, v: nat) returns (p: seq<nat>)
    requires Setting(g, outer, loop, r, c) && EntryBeside(g, loop, v)
    ensures Stands(g, loop, c, k, p, v, 0, if v in c then 1 else 0)
  {
    if v == g.root {
      p := [v];
      InLoop(g, loop, v);
      assert Visits(p, 1, loop.root) == 0;
      FewVisitsKept(p, loop, k);
      RunsAtMostVisits(p, 1, loop);
      EntersAtStart(p, loop, c);
    } else {
      var u: nat :| g.Edge(u, v) && u !in loop.nodes;
      EdgeInside(g, u, v);
      var q := OnceOnly(g, g.root, u, loop.root);
      p := q + [v];
      PathExtends(g, q, v);
      CountAdds(q, [v], loop.root);
      assert Visits([v], 1, loop.root) == 0;
      FewVisitsKept(p, loop, k);
      EntersAtEnd(p, loop, c);
    }
  }

  lemma EdgeInside(g: Graph, u: nat, v: nat)
    requires g.SuccValid() && g.Edge(u, v)
    ensures u in g.blocks && v in g.blocks
  {
    var i :| 0 <= i < |g.succ[u]| && g.succ[u][i] == v;
  }

  lemma EntersAtStart(p: seq<nat>, loop: Loop, c: seq<nat>)
    requires |p| == 1 && p[0] in loop.nodes && p[0] != loop.root
    ensures StayRuns(p, 1, loop) == 0 && StayEntries(p, 1, loop, c) == if p[0] in c then 1 else 0
  {
    assert Enters(p, 0, loop.nodes);
  }

  lemma EntersAtEnd(p: seq<nat>, loop: Loop, c: seq<nat>)
    requires |p| > 1 && p[|p| - 1] in loop.nodes && p[|p| - 1] != loop.root && p[|p| - 2] !in loop.nodes
    requires forall v: nat | v in c :: v in loop.nodes
    ensures StayRuns(p, |p|, loop) == 0 && StayEntries(p, |p|, loop, c) == if p[|p| - 1] in c then 1 else 0
  {
    assert Enters(p, |p| - 1, loop.nodes);
  }

  /** A run to the header for the first time in its stay, through the component if it can be reached early. */
  lemma FirstRun(g: Graph, outer: Graph, loop: Loop, r: nat, c: seq<nat>, k: nat) returns (p: seq<nat>)
    requires Setting(g, outer, loop, r, c)
    ensures Stands(g, loop, c, k, p, loop.root, 1, if Early(g, loop, c) then 1 else 0)
  {
    if Early(g, loop, c) {
      var v: nat, x: nat :| EntryBeside(g, loop, v) && x in c && Inner(g, loop.nodes, loop.root).Reaches(v, x);
      var q := StartBeside(g, outer, loop, r, c, k, v);
      var s := WalkInside(g, loop, v, x);
      var t := WalkToHeader(g, outer, loop, x);
      GoOn(g, loop, c, k, q, v, 0, if v in c then 1 else 0, s, x);
      assert v !in c ==> s[|s| - 1] in c;
      GoOn(g, loop, c, k, q + s, x, 0, 1, t, loop.root);
      p := q + s + t;
    } else {
      p := StartAtHeader(g, outer, loop, r, c, k);
    }
  }

  /** Round after round, as often as the bound allows. */
  lemma {:induction false} Rounds(g: Graph, outer: Graph, loop: Loop, r: nat, c: seq<nat>, k: nat, m: nat) returns (p: seq<nat>)
    requires Setting(g, outer, loop, r, c) && m <= k
    ensures Stands(g, loop, c, k, p, loop.root, m + 1, m + if Early(g, loop, c) then 1 else 0)
  {
    if m == 0 {
      p := FirstRun(g, outer, loop, r, c, k);
    } else {
      var q := Rounds(g, outer, loop, r, c, k, m - 1);
      p := OneMoreRound(g, outer, loop, r, c, k, q, m, m - 1 + if Early(g, loop, c) then 1 else 0);
    }
  }

  lemma OneMoreRound(g: Graph, outer: Graph, loop: Loop, r: nat, c: seq<nat>, k: nat, q: seq<nat>, runs: nat, entries: nat)
    returns (p: seq<nat>)
    requires Setting(g, outer, loop, r, c) && Stands(g, loop, c, k, q, loop.root, runs, entries) && runs <= k
    ensures Stands(g, loop, c, k, p, loop.root, runs + 1, entries + 1)
  {
    var s := WalkRound(g, outer, loop, r, c);
    GoOn(g, loop, c, k, q, loop.root, runs, entries, s, loop.root);
    p := q + s;
  }

  /** From the header to an exit, through the component if the loop can be left from it. */
  lemma LastRun(g: Graph, outer: Graph, loop: Loop, r: nat, c: seq<nat>, k: nat) returns (p: seq<nat>, y: nat)
    requires Setting(g, outer, loop, r, c)
    ensures ExitAt(g, loop, y) && Stands(g, loop, c, k, p, y, k + 1, k + Extra(g, loop, c))
  {
    var q := Rounds(g, outer, loop, r, c, k, k);
    var e := k + if Early(g, loop, c) then 1 else 0;
    if Late(g, loop, c) {
      var x: nat;
      x, y :| x in c && ExitAt(g, loop, y) && Inner(g, loop.nodes, loop.root).Reaches(x, y);
      p := LastThrough(g, outer, loop, r, c, k, q, e, x, y);
    } else {
      y :| ExitAt(g, loop, y);
      p := LastDirect(g, outer, loop, r, c, k, q, e, y);
    }
  }

  lemma LastThrough(g: Graph, outer: Graph, loop: Loop, r: nat, c: seq<nat>, k: nat, q: seq<nat>, e: nat, x: nat, y: nat)
    returns (p: seq<nat>)
    requires Setting(g, outer, loop, r, c) && Stands(g, loop, c, k, q, loop.root, k + 1, e)
    requires x in c && y in loop.nodes && Inner(g, loop.nodes, loop.root).Reaches(x, y)
    ensures Stands(g, loop, c, k, p, y, k + 1, e + 1)
  {
    HeaderReachesInside(g, outer, loop.root, loop.nodes, x);
    var s := WalkInside(g, loop, loop.root, x);
    var t := WalkInside(g, loop, x, y);
    assert s[|s| - 1] in c;
    GoOn(g, loop, c, k, q, loop.root, k + 1, e, s, x);
    GoOn(g, loop, c, k, q + s, x, k + 1, e + 1, t, y);
    p := q + s + t;
  }

  lemma LastDirect(g: Graph, outer: Graph, loop: Loop, r: nat, c: seq<nat>, k: nat, q: seq<nat>, e: nat, y: nat) returns (p: seq<nat>)
    requires Setting(g, outer, loop, r, c) && Stands(g, loop, c, k, q, loop.root, k + 1, e) && y in loop.nodes
    ensures Stands(g, loop, c, k, p, y, k + 1, e)
  {
    HeaderReachesInside(g, outer, loop.root, loop.nodes, y);
    var s := WalkInside(g, loop, loop.root, y);
    GoOn(g, loop, c, k, q, loop.root, k + 1, e, s, y);
    p := q + s;
  }

  /** Every stay of every run that keeps bound `k` enters the component at most `k + d` times. */
  ghost predicate EntersAtMost(g: Graph, loop: Loop, c: seq<nat>, k: nat, d: nat) {
    forall p, n: nat | IsRunOf(g, p) && BoundKept(p, loop, k) && LeavesAt(p, n, loop.nodes) :: StayEntries(p, n, loop, c) <= k + d
  }

  lemma Attained(g: Graph, outer: Graph, loop: Loop, r: nat, c: seq<nat>, k: nat) returns (p: seq<nat>, n: nat)
    requires Setting(g, outer, loop, r, c)
    ensures IsRunOf(g, p) && BoundKept(p, loop, k) && LeavesAt(p, n, loop.nodes) && StayEntries(p, n, loop, c) >= k + Extra(g, loop, c)
    ensures StayRuns(p, n, loop) == k + 1
  {
    var q, y := LastRun(g, outer, loop, r, c, k);
    var z: nat :| g.Edge(y, z) && z !in loop.nodes;
    EdgeInside(g, y, z);
    PathExtends(g, q, z);
    p, n := q + [z], |q|;
    CountsOfPrefix(q, p, n, loop, c);
    KeptByPrefix(q, p, loop, k);
  }

  /** Exactly: for every bound `k`, the runs that keep it enter the component at most `k + d` times per stay if and only if
      there are at most `d` ways past the header, one in and one out.  In particular the bound itself holds if and only if
      the component can neither be reached in front of the header nor the loop be left behind it. */
  lemma StayBoundExact(g: Graph, outer: Graph, loop: Loop, r: nat, c: seq<nat>, k: nat, d: nat)
    requires Setting(g, outer, loop, r, c)
    ensures EntersAtMost(g, loop, c, k, d) <==> Extra(g, loop, c) <= d
    ensures EntersAtMost(g, loop, c, k, 0) <==> !Early(g, loop, c) && !Late(g, loop, c)
  {
    forall p, n: nat | IsRunOf(g, p) && BoundKept(p, loop, k) && LeavesAt(p, n, loop.nodes)
      ensures StayEntries(p, n, loop, c) <= k + Extra(g, loop, c)
    {
      StayBound(g, loop, r, c, p, n, k);
    }
    var p, n := Attained(g, outer, loop, r, c, k);
  }
}
