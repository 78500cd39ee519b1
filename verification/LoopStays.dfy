/** Stays in a loop: how often a part of the body can be entered while the header runs at most once more than the bound.
    The answer is the bound, plus one if the part can be reached on the way to the header, plus one if the loop can be left
    from it. */
module LoopStays {
  import opened Graphs
  import opened Loops
  import opened Components
  import opened Tarjan
  import opened LoopNesting

  // ---------------------------------------------------------------- counting along a run

  /** Position `k` of the run enters `nodes`. */
  predicate Enters(p: seq<nat>, k: nat, nodes: seq<nat>) {
    k < |p| && p[k] in nodes && (k == 0 || p[k - 1] !in nodes)
  }

  function Entries(p: seq<nat>, n: nat, nodes: seq<nat>): nat
    requires n <= |p|
  {
    if n == 0 then 0 else Entries(p, n - 1, nodes) + if Enters(p, n - 1, nodes) then 1 else 0
  }

  function Visits(p: seq<nat>, n: nat, b: nat): nat
    requires n <= |p|
  {
    if n == 0 then 0 else Visits(p, n - 1, b) + if p[n - 1] == b then 1 else 0
  }

  /** Runs of the header during the stay in the loop that position `n - 1` belongs to. */
  function StayRuns(p: seq<nat>, n: nat, loop: Loop): nat
    requires n <= |p|
  {
    if n == 0 || p[n - 1] !in loop.nodes then 0
    else (if Enters(p, n - 1, loop.nodes) then 0 else StayRuns(p, n - 1, loop)) + if p[n - 1] == loop.root then 1 else 0
  }

  /** Entries into `c` during that stay. */
  function StayEntries(p: seq<nat>, n: nat, loop: Loop, c: seq<nat>): nat
    requires n <= |p|
  {
    if n == 0 || p[n - 1] !in loop.nodes then 0
    else (if Enters(p, n - 1, loop.nodes) then 0 else StayEntries(p, n - 1, loop, c)) + if Enters(p, n - 1, c) then 1 else 0
  }

  /** `c` has been entered during that stay since the header last ran. */
  predicate Since(p: seq<nat>, n: nat, loop: Loop, c: seq<nat>)
    requires n <= |p|
  {
    && n > 0 && p[n - 1] in loop.nodes && p[n - 1] != loop.root
    && ((!Enters(p, n - 1, loop.nodes) && Since(p, n - 1, loop, c)) || Enters(p, n - 1, c))
  }

  /** During every stay the header runs at most once more than the bound. */
  ghost predicate BoundKept(p: seq<nat>, loop: Loop, bound: nat) {
    forall n: nat | n <= |p| :: StayRuns(p, n, loop) <= bound + 1
  }

  /** The run leaves the loop behind position `n - 1`. */
  predicate LeavesAt(p: seq<nat>, n: nat, nodes: seq<nat>) {
    0 < n < |p| && p[n - 1] in nodes && p[n] !in nodes
  }

  ghost predicate IsRunOf(g: Graph, p: seq<nat>) {
    g.IsPath(p) && p[0] == g.root
  }

  // ---------------------------------------------------------------- ways past the header

  /** The loop can be entered at `v` beside its header. */
  ghost predicate EntryBeside(g: Graph, loop: Loop, v: nat) {
    v in loop.nodes && v != loop.root && (v == g.root || exists u: nat :: g.Edge(u, v) && u !in loop.nodes)
  }

  /** Some way into the loop leads to `c` before the header. */
  ghost predicate Early(g: Graph, loop: Loop, c: seq<nat>) {
    exists v: nat, x: nat :: EntryBeside(g, loop, v) && x in c && Inner(g, loop.nodes, loop.root).Reaches(v, x)
  }

  /** The loop can be left behind `y`. */
  ghost predicate ExitAt(g: Graph, loop: Loop, y: nat) {
    y in loop.nodes && exists z: nat :: g.Edge(y, z) && z !in loop.nodes
  }

  /** Some way from `c` leads out of the loop without the header. */
  ghost predicate Late(g: Graph, loop: Loop, c: seq<nat>) {
    exists x: nat, y: nat :: x in c && ExitAt(g, loop, y) && Inner(g, loop.nodes, loop.root).Reaches(x, y)
  }

  ghost function Extra(g: Graph, loop: Loop, c: seq<nat>): nat {
    (if Early(g, loop, c) then 1 else 0) + if Late(g, loop, c) then 1 else 0
  }

  /** `c` is a component of the body of the loop. */
  ghost predicate PartOf(g: Graph, loop: Loop, r: nat, c: seq<nat>) {
    && g.SuccValid() && loop.root in loop.nodes && Component(Inner(g, loop.nodes, loop.root), r, c) && loop.root !in c
    && forall v: nat | v in c :: v in loop.nodes
  }

  // ---------------------------------------------------------------- the upper bound

  /** A stretch of a run inside the loop without its header is a path of the body. */
  lemma PathOfBody(g: Graph, loop: Loop, p: seq<nat>, e: nat, n: nat)
    requires g.IsPath(p) && e <= n < |p| && forall k | e <= k <= n :: p[k] in loop.nodes && p[k] != loop.root
    ensures Inner(g, loop.nodes, loop.root).IsPath(p[e..n + 1])
    ensures Inner(g, loop.nodes, loop.root).Reaches(p[e], p[n])
  {
    var q, inner := p[e..n + 1], Inner(g, loop.nodes, loop.root);
    forall k | 0 <= k < |q| - 1
      ensures inner.Edge(q[k], q[k + 1])
    {
      assert g.Edge(p[e + k], p[e + k + 1]);
      InnerEdges(g, loop.nodes, loop.root, q[k], q[k + 1]);
    }
    assert inner.IsPathBetween(q, p[e], p[n]);
  }

  /** Where `c` was entered last, and that the header has not run since. */
  lemma {:induction false} SinceWhen(p: seq<nat>, n: nat, loop: Loop, c: seq<nat>) returns (e: nat)
    requires n <= |p| && Since(p, n, loop, c)
    ensures e < n && Enters(p, e, c) && forall k | e <= k < n :: p[k] in loop.nodes && p[k] != loop.root
  {
    if Enters(p, n - 1, c) {
      e := n - 1;
    } else {
      e := SinceWhen(p, n - 1, loop, c);
    }
  }

  /** A component that has been left is not entered again before the header runs. */
  lemma NotAgain(g: Graph, loop: Loop, r: nat, c: seq<nat>, p: seq<nat>, n: nat)
    requires PartOf(g, loop, r, c) && g.IsPath(p) && 0 < n < |p| && Since(p, n, loop, c) && p[n] in loop.nodes && p[n] != loop.root
    ensures !Enters(p, n, c)
  {
    var e := SinceWhen(p, n, loop, c);
    if p[n] in c {
      PathOfBody(g, loop, p, e, n);
      var q := p[e..n + 1];
      PathInComponent(Inner(g, loop.nodes, loop.root), r, c, q, |q| - 2);
      assert q[|q| - 2] == p[n - 1];
    }
  }

  /** A stay without the header goes back to where the loop was entered beside it. */
  lemma {:induction false} StayBegan(g: Graph, loop: Loop, p: seq<nat>, n: nat) returns (e: nat)
    requires IsRunOf(g, p) && 0 < n <= |p| && p[n - 1] in loop.nodes && StayRuns(p, n, loop) == 0
    ensures e < n && EntryBeside(g, loop, p[e]) && forall k | e <= k < n :: p[k] in loop.nodes && p[k] != loop.root
  {
    if Enters(p, n - 1, loop.nodes) {
      e := n - 1;
      if e > 0 {
        assert g.Edge(p[e - 1], p[e - 1 + 1]);
      }
    } else {
      e := StayBegan(g, loop, p, n - 1);
    }
  }

  lemma EnteredEarly(g: Graph, loop: Loop, r: nat, c: seq<nat>, p: seq<nat>, n: nat)
    requires PartOf(g, loop, r, c) && IsRunOf(g, p) && 0 < n <= |p| && p[n - 1] in c && StayRuns(p, n, loop) == 0
    ensures Early(g, loop, c)
  {
    var e := StayBegan(g, loop, p, n);
    PathOfBody(g, loop, p, e, n - 1);
  }

  /** What holds of a stay at every position: each entry but the last one is followed by the header, and the first one is
      preceded by it unless the component can be reached early. */
  ghost predicate Paid(g: Graph, loop: Loop, c: seq<nat>, p: seq<nat>, n: nat)
    requires n <= |p|
  {
    var since := if Since(p, n, loop, c) then 1 else 0;
    if StayRuns(p, n, loop) == 0 then
      StayEntries(p, n, loop, c) == since && (Since(p, n, loop, c) ==> Early(g, loop, c))
    else
      StayEntries(p, n, loop, c) + 1 <= StayRuns(p, n, loop) + since + if Early(g, loop, c) then 1 else 0
  }

  lemma {:induction false} StayPaid(g: Graph, loop: Loop, r: nat, c: seq<nat>, p: seq<nat>, n: nat)
    requires PartOf(g, loop, r, c) && IsRunOf(g, p) && n <= |p|
    ensures Paid(g, loop, c, p, n)
  {
    if n > 0 && p[n - 1] in loop.nodes {
      StayPaid(g, loop, r, c, p, n - 1);
      if p[n - 1] != loop.root {
        if n > 1 && Since(p, n - 1, loop, c) {
          NotAgain(g, loop, r, c, p, n - 1);
        }
        if Enters(p, n - 1, c) && StayRuns(p, n, loop) == 0 {
          EnteredEarly(g, loop, r, c, p, n);
        }
      }
    }
  }

  /** A stay that ends in such a component shows that the loop can be left from it. */
  lemma LeftLate(g: Graph, loop: Loop, r: nat, c: seq<nat>, p: seq<nat>, n: nat)
    requires PartOf(g, loop, r, c) && IsRunOf(g, p) && LeavesAt(p, n, loop.nodes) && Since(p, n, loop, c)
    ensures Late(g, loop, c)
  {
    var e := SinceWhen(p, n, loop, c);
    PathOfBody(g, loop, p, e, n - 1);
    assert g.Edge(p[n - 1], p[n - 1 + 1]);
    assert ExitAt(g, loop, p[n - 1]);
  }

  lemma StayBound(g: Graph, loop: Loop, r: nat, c: seq<nat>, p: seq<nat>, n: nat, k: nat)
    requires PartOf(g, loop, r, c) && IsRunOf(g, p) && BoundKept(p, loop, k) && LeavesAt(p, n, loop.nodes)
    ensures StayEntries(p, n, loop, c) <= k + Extra(g, loop, c)
  {
    StayPaid(g, loop, r, c, p, n);
    if Since(p, n, loop, c) {
      LeftLate(g, loop, r, c, p, n);
    }
    assert StayRuns(p, n, loop) <= k + 1;
  }

  // ---------------------------------------------------------------- runs that reach it

  /** How often `b` occurs. */
  function CountOf(s: seq<nat>, b: nat): nat {
    Visits(s, |s|, b)
  }

  lemma {:induction false} CountsOfPrefix(p: seq<nat>, q: seq<nat>, n: nat, loop: Loop, c: seq<nat>)
    requires n <= |p| && p <= q
    ensures StayRuns(q, n, loop) == StayRuns(p, n, loop) && StayEntries(q, n, loop, c) == StayEntries(p, n, loop, c)
  {
    if n > 0 {
      CountsOfPrefix(p, q, n - 1, loop, c);
    }
  }

  lemma KeptByPrefix(p: seq<nat>, q: seq<nat>, loop: Loop, k: nat)
    requires p <= q && BoundKept(p, loop, k) && |q| == |p| + 1 && StayRuns(q, |q|, loop) <= k + 1
    ensures BoundKept(q, loop, k)
  {
    forall n: nat | n <= |q|
      ensures StayRuns(q, n, loop) <= k + 1
    {
      if n <= |p| {
        CountsOfPrefix(p, q, n, loop, []);
      }
    }
  }

  /** What is appended inside the loop counts for the same stay. */
  lemma {:induction false} AppendInside(p: seq<nat>, s: seq<nat>, loop: Loop, c: seq<nat>, k: nat)
    requires p != [] && p[|p| - 1] in loop.nodes && (forall i | 0 <= i < |s| :: s[i] in loop.nodes)
    requires BoundKept(p, loop, k) && StayRuns(p, |p|, loop) + CountOf(s, loop.root) <= k + 1
    ensures var q := p + s;
            && StayRuns(q, |q|, loop) == StayRuns(p, |p|, loop) + CountOf(s, loop.root) && BoundKept(q, loop, k)
            && StayEntries(q, |q|, loop, c) >= StayEntries(p, |p|, loop, c)
            && ((p[|p| - 1] !in c && exists i | 0 <= i < |s| :: s[i] in c) ==> StayEntries(q, |q|, loop, c) > StayEntries(p, |p|, loop, c))
  {
    if s == [] {
      assert p + s == p;
    } else {
      var t, b, q := s[..|s| - 1], s[|s| - 1], p + s;
      CountOfFront(s);
      AppendInside(p, t, loop, c, k);
      var before := p + t;
      assert q[..|q| - 1] == before && q[|q| - 1] == b && q[|q| - 2] == before[|before| - 1];
      CountsOfPrefix(before, q, |q| - 1, loop, c);
      KeptByPrefix(before, q, loop, k);
      if p[|p| - 1] !in c && b in c && forall i | 0 <= i < |t| :: t[i] !in c {
        assert before[|before| - 1] !in c;
      }
    }
  }

  lemma CountOfFront(s: seq<nat>)
    requires s != []
    ensures forall b: nat :: CountOf(s, b) == CountOf(s[..|s| - 1], b) + if s[|s| - 1] == b then 1 else 0
  {
    forall b: nat
      ensures CountOf(s, b) == CountOf(s[..|s| - 1], b) + if s[|s| - 1] == b then 1 else 0
    {
      VisitsOfPrefix(s[..|s| - 1], s, |s| - 1, b);
    }
  }

  lemma {:induction false} VisitsOfPrefix(p: seq<nat>, q: seq<nat>, n: nat, b: nat)
    requires n <= |p| && p <= q
    ensures Visits(q, n, b) == Visits(p, n, b)
  {
    if n > 0 {
      VisitsOfPrefix(p, q, n - 1, b);
    }
  }

  lemma {:induction false} NoneCounts(s: seq<nat>, b: nat, n: nat)
    requires n <= |s| && forall i | 0 <= i < n :: s[i] != b
    ensures Visits(s, n, b) == 0
  {
    if n > 0 {
      NoneCounts(s, b, n - 1);
    }
  }
}
