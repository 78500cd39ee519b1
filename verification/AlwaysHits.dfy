/** When a bundle that is the first of its block on a line hits on every run, on graphs with or without loops. */
module AlwaysHits {
  import opened Graphs
  import opened Loops
  import opened Options
  import opened CacheState
  import opened MayStates
  import opened MustSearch
  import opened CacheRuns
  import opened Classification
  import opened FirstMisses

  /** Bundle `j` of block `b` hits whenever a run from an entry block comes to it. */
  ghost predicate HitsOnEveryRun(g: Graph, code: seq<seq<Bundle>>, b: nat, j: nat)
    requires g.Valid() && |code| == |g.succ| && b < |code| && j < |code[b]|
  {
    forall p, i: nat | g.IsPath(p) && g.pred[p[0]] == [] && i < |p| && p[i] == b :: !MissAt(code, p, i, j)
  }

  /** What a line holds after a run has been used on the way. */
  lemma {:induction false} HeldIsUsed(g: Graph, code: seq<seq<Bundle>>, refs: States, q: seq<nat>, line: nat, t: Tag)
    requires RefsOf(g, code, refs) && InRange(code, q) && line < LINES
    requires RunPath(code, Cold(), q)[line] == Some(t)
    ensures exists x :: 0 <= x < |q| && t in refs[q[x]][line]
  {
    if q != [] {
      var r := q[..|q| - 1];
      LineAfterBundles(RunPath(code, Cold(), r), code[Last(q)], line);
      if refs[Last(q)][line] == {} {
        HeldIsUsed(g, code, refs, r, line, t);
        var x :| 0 <= x < |r| && t in refs[r[x]][line];
        assert q[x] == r[x];
      }
    }
  }

  /** Whether the bundle hits is decided when its block is entered. */
  lemma DecidedOnEntry(code: seq<seq<Bundle>>, p: seq<nat>, i: nat, j: nat)
    requires WellFormedCode(code) && InRange(code, p) && i < |p| && j < |code[p[i]]|
    requires code[p[i]][j].BlkOffset() == 0 || j == 0
    ensures var u := code[p[i]][j]; !MissAt(code, p, i, j) <==> RunPath(code, Cold(), p[..i])[u.Line()] == Some(u.Tag())
  {
    var u := code[p[i]][j];
    FirstOnItsLine(code[p[i]], j);
    LineAfterBundles(RunPath(code, Cold(), p[..i]), code[p[i]][..j], u.Line());
  }

  /** On a run that avoids the tag up to the block, the bundle misses. */
  lemma AvoidedMisses(f: Facts, code: seq<seq<Bundle>>, b: nat, j: nat, q: seq<nat>)
    requires f.Correct(code) && WellFormedCode(code) && b in f.g.blocks && j < |code[b]|
    requires code[b][j].BlkOffset() == 0 || j == 0
    requires f.g.IsPath(q) && f.g.Edge(Last(q), b)
    requires AvoidsVia(f.g, f.refs, Last(q), code[b][j].Line(), code[b][j].Tag(), q)
    ensures f.g.IsPath(q + [b]) && MissAt(code, q + [b], |q|, j)
  {
    var u, p := code[b][j], q + [b];
    PathExtends(f.g, q, b);
    DecidedOnEntry(code, p, |q|, j);
    assert p[..|q|] == q;
    if RunPath(code, Cold(), q)[u.Line()] == Some(u.Tag()) {
      HeldIsUsed(f.g, code, f.refs, q, u.Line(), u.Tag());
    }
  }

  /** If the tag is accessed on every way to the predecessors and nothing else reaches the block, the bundle hits. */
  lemma AccessedHits(f: Facts, code: seq<seq<Bundle>>, p: seq<nat>, i: nat, j: nat)
    requires f.Correct(code) && WellFormedCode(code)
    requires f.g.IsPath(p) && f.g.pred[p[0]] == [] && i < |p| && j < |code[p[i]]|
    requires f.g.pred[p[i]] != [] && f.inputRmb[p[i]][code[p[i]][j].Line()] <= {code[p[i]][j].Tag()}
    requires forall a | a in f.g.pred[p[i]] :: AlwaysAccessed(f.g, f.refs, a, code[p[i]][j].Line(), code[p[i]][j].Tag())
    ensures !MissAt(code, p, i, j)
  {
    var u := code[p[i]][j];
    assert 0 < i && f.g.Edge(p[i - 1], p[i - 1 + 1]);
    var q := p[..i];
    PathPrefix(f.g, p, i);
    ColdRunIsJustified(f.g, code, f.refs, q, u.Line());
    match RunPath(code, Cold(), q)[u.Line()] {
      case None =>
        assert AvoidsVia(f.g, f.refs, Last(q), u.Line(), u.Tag(), q);
        assert false;
      case Some(t) =>
        assert t in f.rmb[p[i - 1]][u.Line()];
        assert t in Inflow(f.rmb, f.g.pred[p[i]], u.Line());
        CachedOnEntryHits(RunPath(code, Cold(), q), code[p[i]], j);
    }
  }

  /** A bundle whose own tag alone reaches its block hits on every run if and only if the tag is accessed on every way
      to every predecessor. */
  lemma SingleTagHits(f: Facts, code: seq<seq<Bundle>>, b: nat, j: nat)
    requires f.Correct(code) && WellFormedCode(code) && b in f.g.blocks && j < |code[b]|
    requires code[b][j].BlkOffset() == 0 || j == 0
    requires f.inputRmb[b][code[b][j].Line()] == {code[b][j].Tag()}
    ensures HitsOnEveryRun(f.g, code, b, j) <==>
            forall a | a in f.g.pred[b] :: AlwaysAccessed(f.g, f.refs, a, code[b][j].Line(), code[b][j].Tag())
  {
    var g, u := f.g, code[b][j];
    assert g.pred[b] != [] by {
      assert u.Tag() in Inflow(f.rmb, g.pred[b], u.Line());
    }
    AccessDecides(f, code, b, j);
  }

  lemma AccessDecides(f: Facts, code: seq<seq<Bundle>>, b: nat, j: nat)
    requires f.Correct(code) && WellFormedCode(code) && b in f.g.blocks && j < |code[b]|
    requires code[b][j].BlkOffset() == 0 || j == 0
    requires f.g.pred[b] != [] && f.inputRmb[b][code[b][j].Line()] <= {code[b][j].Tag()}
    ensures HitsOnEveryRun(f.g, code, b, j) <==>
            forall a | a in f.g.pred[b] :: AlwaysAccessed(f.g, f.refs, a, code[b][j].Line(), code[b][j].Tag())
  {
    if a :| a in f.g.pred[b] && !AlwaysAccessed(f.g, f.refs, a, code[b][j].Line(), code[b][j].Tag()) {
      NotAccessedMisses(f, code, b, j, a);
    } else {
      AccessedHitsAlways(f, code, b, j);
    }
  }

  lemma InputComesFrom(f: Facts, code: seq<seq<Bundle>>, b: nat, line: nat, t: Tag) returns (a: nat)
    requires f.Correct(code) && b in f.g.blocks && line < LINES && t in f.inputRmb[b][line]
    ensures a in f.g.pred[b] && a < |f.rmb| && t in f.rmb[a][line]
  {
    assert t in Inflow(f.rmb, f.g.pred[b], line);
    a :| a in f.g.pred[b] && t in f.rmb[a][line];
  }

  lemma ForeignInputMisses(f: Facts, code: seq<seq<Bundle>>, b: nat, j: nat)
    requires f.Correct(code) && WellFormedCode(code) && b in f.g.blocks && j < |code[b]|
    requires code[b][j].BlkOffset() == 0 || j == 0
    requires forall c | c in f.g.blocks :: Reachable(f.g, c)
    requires !(f.inputRmb[b][code[b][j].Line()] <= {code[b][j].Tag()})
    ensures !HitsOnEveryRun(f.g, code, b, j)
  {
    var line := code[b][j].Line();
    var t :| t in f.inputRmb[b][line] && t != code[b][j].Tag();
    var a := InputComesFrom(f, code, b, line, t);
    ForeignTagMisses(f, code, b, j, a, t);
  }

  lemma NotOnEveryRun(g: Graph, code: seq<seq<Bundle>>, b: nat, j: nat, p: seq<nat>, i: nat)
    requires g.Valid() && |code| == |g.succ| && b < |code| && j < |code[b]|
    requires g.IsPath(p) && g.pred[p[0]] == [] && i < |p| && p[i] == b && MissAt(code, p, i, j)
    ensures !HitsOnEveryRun(g, code, b, j)
  {
  }

  ghost predicate Reachable(g: Graph, b: nat)
    requires g.Valid()
  {
    exists r: seq<nat> :: g.IsPath(r) && g.pred[r[0]] == [] && Last(r) == b
  }

  /** Another tag that reaches the block from a reachable block is in the cache on some run. */
  lemma ForeignTagMisses(f: Facts, code: seq<seq<Bundle>>, b: nat, j: nat, a: nat, t: Tag)
    requires f.Correct(code) && WellFormedCode(code) && b in f.g.blocks && j < |code[b]|
    requires code[b][j].BlkOffset() == 0 || j == 0
    requires forall c | c in f.g.blocks :: Reachable(f.g, c)
    requires a in f.g.pred[b] && t in f.rmb[a][code[b][j].Line()] && t != code[b][j].Tag()
    ensures !HitsOnEveryRun(f.g, code, b, j)
  {
    var r, w := RunCarrying(f, code, a, b, j, t);
    CarriedMisses(f, code, b, j, r, w, t);
    NotOnEveryRun(f.g, code, b, j, r + w[1..] + [b], |r + w[1..]|);
  }

  /** A run from an entry block over `a` to `b` on which the tag is brought to the end of `a`. */
  lemma RunCarrying(f: Facts, code: seq<seq<Bundle>>, a: nat, b: nat, j: nat, t: Tag) returns (r: seq<nat>, w: seq<nat>)
    requires f.Correct(code) && b in f.g.blocks && j < |code[b]|
    requires forall c | c in f.g.blocks :: Reachable(f.g, c)
    requires a in f.g.pred[b] && t in f.rmb[a][code[b][j].Line()]
    ensures f.g.IsPath(r) && f.g.pred[r[0]] == [] && f.g.IsPath(w) && Last(r) == w[0] && Last(r + w[1..]) == a
    ensures f.g.IsPath(r + w[1..] + [b])
    ensures t in f.refs[w[0]][code[b][j].Line()] && forall x | 0 < x < |w| :: f.refs[w[x]][code[b][j].Line()] == {}
  {
    var g := f.g;
    w :| MayVia(g, f.refs, a, code[b][j].Line(), t, w);
    assert w[0] in g.blocks;
    r :| g.IsPath(r) && g.pred[r[0]] == [] && Last(r) == w[0];
    PathsJoin(g, r, w);
    assert g.Edge(a, b);
    PathExtends(g, r + w[1..], b);
  }

  lemma CarriedMisses(f: Facts, code: seq<seq<Bundle>>, b: nat, j: nat, r: seq<nat>, w: seq<nat>, t: Tag)
    requires f.Correct(code) && WellFormedCode(code) && b in f.g.blocks && j < |code[b]|
    requires code[b][j].BlkOffset() == 0 || j == 0
    requires r != [] && f.g.IsPath(w) && r[|r| - 1] == w[0] && f.g.IsPath(r + w[1..] + [b])
    requires t in f.refs[w[0]][code[b][j].Line()] && t != code[b][j].Tag()
    requires forall x | 0 < x < |w| :: f.refs[w[x]][code[b][j].Line()] == {}
    ensures MissAt(code, r + w[1..] + [b], |r + w[1..]|, j)
  {
    var line := code[b][j].Line();
    var p, at := r + w[1..] + [b], |r| - 1;
    var k := |r + w[1..]|;
    assert p[at] == w[0];
    forall x | at < x < k
      ensures f.refs[p[x]][line] == {}
    {
      assert p[x] == w[x - at];
    }
    ForeignTagSurvives(f, code, p, at, k, line, t);
    DecidedOnEntry(code, p, k, j);
  }

  /** A way to a predecessor without the tag makes the bundle miss on some run. */
  lemma NotAccessedMisses(f: Facts, code: seq<seq<Bundle>>, b: nat, j: nat, a: nat)
    requires f.Correct(code) && WellFormedCode(code) && b in f.g.blocks && j < |code[b]|
    requires code[b][j].BlkOffset() == 0 || j == 0
    requires a in f.g.pred[b] && !AlwaysAccessed(f.g, f.refs, a, code[b][j].Line(), code[b][j].Tag())
    ensures !HitsOnEveryRun(f.g, code, b, j)
  {
    var u := code[b][j];
    var q :| AvoidsVia(f.g, f.refs, a, u.Line(), u.Tag(), q);
    assert f.g.Edge(a, b);
    AvoidedMisses(f, code, b, j, q);
    NotOnEveryRun(f.g, code, b, j, q + [b], |q|);
  }

  lemma EntryMisses(f: Facts, code: seq<seq<Bundle>>, b: nat, j: nat)
    requires f.Correct(code) && WellFormedCode(code) && b in f.g.blocks && j < |code[b]|
    requires (code[b][j].BlkOffset() == 0 || j == 0) && f.g.pred[b] == []
    ensures !HitsOnEveryRun(f.g, code, b, j)
  {
    assert InRange(code, [b]);
    DecidedOnEntry(code, [b], 0, j);
    NotOnEveryRun(f.g, code, b, j, [b], 0);
  }

  lemma AccessedHitsAlways(f: Facts, code: seq<seq<Bundle>>, b: nat, j: nat)
    requires f.Correct(code) && WellFormedCode(code) && b in f.g.blocks && j < |code[b]|
    requires f.g.pred[b] != [] && f.inputRmb[b][code[b][j].Line()] <= {code[b][j].Tag()}
    requires forall a | a in f.g.pred[b] :: AlwaysAccessed(f.g, f.refs, a, code[b][j].Line(), code[b][j].Tag())
    ensures HitsOnEveryRun(f.g, code, b, j)
  {
    forall p, i: nat | f.g.IsPath(p) && f.g.pred[p[0]] == [] && i < |p| && p[i] == b
      ensures !MissAt(code, p, i, j)
    {
      AccessedHits(f, code, p, i, j);
    }
  }

  /** On graphs whose blocks can all be reached: a first bundle of its line hits on every run exactly when its block
      has predecessors, no other tag reaches it, and the tag is accessed on every way to every predecessor. */
  lemma AlwaysHitExact(f: Facts, code: seq<seq<Bundle>>, b: nat, j: nat)
    requires f.Correct(code) && WellFormedCode(code) && b in f.g.blocks && j < |code[b]|
    requires code[b][j].BlkOffset() == 0 || j == 0
    requires forall c | c in f.g.blocks :: Reachable(f.g, c)
    ensures HitsOnEveryRun(f.g, code, b, j) <==>
            && f.g.pred[b] != [] && f.inputRmb[b][code[b][j].Line()] <= {code[b][j].Tag()}
            && forall a | a in f.g.pred[b] :: AlwaysAccessed(f.g, f.refs, a, code[b][j].Line(), code[b][j].Tag())
  {
    var g, u := f.g, code[b][j];
    if g.pred[b] == [] {
      EntryMisses(f, code, b, j);
    } else if !(f.inputRmb[b][u.Line()] <= {u.Tag()}) {
      ForeignInputMisses(f, code, b, j);
    } else {
      AccessDecides(f, code, b, j);
    }
  }

  /** The always-hits predicted outside headers, where a block starts a line, have a single reaching tag: they are right
      exactly when the must search was right about the predecessors. */
  lemma PredictedHitExact(f: Facts, code: seq<seq<Bundle>>, b: nat, j: nat, answers: Answers)
    requires f.Correct(code) && WellFormedCode(code) && b in f.g.blocks && j < |code[b]|
    requires code[b][j].BlkOffset() == 0 || j == 0
    requires f.Decide(code[b], b, j, answers) == Decision(AHit, false) && !f.table.IsHeader(b)
    ensures HitsOnEveryRun(f.g, code, b, j) <==>
            forall a | a in f.g.pred[b] :: AlwaysAccessed(f.g, f.refs, a, code[b][j].Line(), code[b][j].Tag())
  {
    var u := code[b][j];
    OneReference(code[b], j);
    assert u.Tag() in f.inputRmb[b][u.Line()] && |f.inputRmb[b][u.Line()]| == 1;
    SingletonIsAll(f.inputRmb[b][u.Line()], u.Tag());
    SingleTagHits(f, code, b, j);
  }

  // ---------------------------------------------------------------- edges

  /** Position `i` of the run is entered over the edge from `a` to `b`. */
  ghost predicate Takes(p: seq<nat>, i: nat, a: nat, b: nat) {
    0 < i < |p| && p[i - 1] == a && p[i] == b
  }

  /** Bundle `j` of block `b` hits whenever a run from an entry block comes to it from block `a`. */
  ghost predicate HitsAfter(g: Graph, code: seq<seq<Bundle>>, a: nat, b: nat, j: nat)
    requires g.Valid() && |code| == |g.succ| && b < |code| && j < |code[b]|
  {
    forall p, i: nat | g.IsPath(p) && g.pred[p[0]] == [] && Takes(p, i, a, b) :: !MissAt(code, p, i, j)
  }

  lemma NotAfter(g: Graph, code: seq<seq<Bundle>>, a: nat, b: nat, j: nat, p: seq<nat>, i: nat)
    requires g.Valid() && |code| == |g.succ| && b < |code| && j < |code[b]|
    requires g.IsPath(p) && g.pred[p[0]] == [] && Takes(p, i, a, b) && MissAt(code, p, i, j)
    ensures !HitsAfter(g, code, a, b, j)
  {
  }

  lemma AvoidedEdgeMisses(f: Facts, code: seq<seq<Bundle>>, a: nat, b: nat, j: nat)
    requires f.Correct(code) && WellFormedCode(code) && b in f.g.blocks && a in f.g.pred[b] && j < |code[b]|
    requires code[b][j].BlkOffset() == 0 || j == 0
    requires !AlwaysAccessed(f.g, f.refs, a, code[b][j].Line(), code[b][j].Tag())
    ensures !HitsAfter(f.g, code, a, b, j)
  {
    var q :| AvoidsVia(f.g, f.refs, a, code[b][j].Line(), code[b][j].Tag(), q);
    assert f.g.Edge(a, b);
    AvoidedMisses(f, code, b, j, q);
    NotAfter(f.g, code, a, b, j, q + [b], |q|);
  }

  /** An edge that is not charged for a bundle is rightly so exactly when the tag is accessed on every way to its start. */
  lemma UnchargedEdgeExact(f: Facts, code: seq<seq<Bundle>>, a: nat, b: nat, j: nat)
    requires f.Correct(code) && WellFormedCode(code) && b in f.g.blocks && a in f.g.pred[b] && j < |code[b]|
    requires (code[b][j].BlkOffset() == 0 || j == 0) && !f.Charged(a, code[b][j])
    ensures HitsAfter(f.g, code, a, b, j) <==> AlwaysAccessed(f.g, f.refs, a, code[b][j].Line(), code[b][j].Tag())
  {
    if AlwaysAccessed(f.g, f.refs, a, code[b][j].Line(), code[b][j].Tag()) {
      forall p, i: nat | f.g.IsPath(p) && f.g.pred[p[0]] == [] && Takes(p, i, a, b)
        ensures !MissAt(code, p, i, j)
      {
        UnchargedEdgeHits(f, code, p, i, j);
      }
    } else {
      AvoidedEdgeMisses(f, code, a, b, j);
    }
  }

  lemma ForeignEdgeMisses(f: Facts, code: seq<seq<Bundle>>, a: nat, b: nat, j: nat, t: Tag)
    requires f.Correct(code) && WellFormedCode(code) && b in f.g.blocks && a in f.g.pred[b] && j < |code[b]|
    requires (code[b][j].BlkOffset() == 0 || j == 0) && forall c | c in f.g.blocks :: Reachable(f.g, c)
    requires t in f.rmb[a][code[b][j].Line()] && t != code[b][j].Tag()
    ensures !HitsAfter(f.g, code, a, b, j)
  {
    var r, w := RunCarrying(f, code, a, b, j, t);
    CarriedMisses(f, code, b, j, r, w, t);
    var p := r + w[1..] + [b];
    assert Takes(p, |r + w[1..]|, a, b);
    NotAfter(f.g, code, a, b, j, p, |r + w[1..]|);
  }

  /** The claims that an edge's charge goes by are complete: a tag alone at the end of a block, and accessed on every way
      to it, is claimed. */
  lemma AccessedIsUncharged(f: Facts, code: seq<seq<Bundle>>, a: nat, u: Bundle)
    requires f.Correct(code) && WellFormedCode(code) && a in f.g.blocks
    requires f.rmb[a][u.Line()] == {u.Tag()} && AlwaysAccessed(f.g, f.refs, a, u.Line(), u.Tag())
    ensures !f.Charged(a, u)
  {
    var line := u.Line();
    if f.refs[a][line] != {} {
      OwnTagAccessed(f, code, a, line, u.Tag());
      var z :| 0 <= z < |code[a]| && code[a][z].Line() == line && code[a][z].Tag() == u.Tag();
      OneReference(code[a], z);
    }
    assert Must(f.g, f.refs, f.rmb, a, line, u.Tag());
    MustClaims(f.g, f.table, f.refs, f.rmb, a, line, f.must[a][line], u.Tag());
  }

  /** What a reachable block leaves behind when every way to it accesses the tag and no other tag can be there. */
  lemma LeftAlone(f: Facts, code: seq<seq<Bundle>>, a: nat, line: nat, t: Tag)
    requires f.Correct(code) && a in f.g.blocks && Reachable(f.g, a) && line < LINES
    ensures AlwaysAccessed(f.g, f.refs, a, line, t) && f.rmb[a][line] <= {t} ==> f.rmb[a][line] == {t}
  {
    var r: seq<nat> :| f.g.IsPath(r) && f.g.pred[r[0]] == [] && Last(r) == a;
    ColdRunIsJustified(f.g, code, f.refs, r, line);
    match RunPath(code, Cold(), r)[line] {
      case None => assert AvoidsVia(f.g, f.refs, a, line, t, r);
      case Some(v) => assert v in f.rmb[a][line];
    }
  }

  /** On graphs whose blocks can all be reached a bundle hits on every run over an edge exactly when the edge is not charged
      and the must search was right about its start: no charge is wasted, and without loops none is missing. */
  lemma ChargeExact(f: Facts, code: seq<seq<Bundle>>, a: nat, b: nat, j: nat)
    requires f.Correct(code) && WellFormedCode(code) && b in f.g.blocks && a in f.g.pred[b] && j < |code[b]|
    requires (code[b][j].BlkOffset() == 0 || j == 0) && forall c | c in f.g.blocks :: Reachable(f.g, c)
    ensures HitsAfter(f.g, code, a, b, j) <==>
              !f.Charged(a, code[b][j]) && AlwaysAccessed(f.g, f.refs, a, code[b][j].Line(), code[b][j].Tag())
    ensures LoopFree(f.g, f.table) ==> (HitsAfter(f.g, code, a, b, j) <==> !f.Charged(a, code[b][j]))
  {
    var u := code[b][j];
    if !f.Charged(a, u) {
      UnchargedEdgeExact(f, code, a, b, j);
    } else if t :| t in f.rmb[a][u.Line()] && t != u.Tag() {
      ForeignEdgeMisses(f, code, a, b, j, t);
    } else if AlwaysAccessed(f.g, f.refs, a, u.Line(), u.Tag()) {
      LeftAlone(f, code, a, u.Line(), u.Tag());
      AccessedIsUncharged(f, code, a, u);
    } else {
      AvoidedEdgeMisses(f, code, a, b, j);
    }
    if LoopFree(f.g, f.table) {
      NoFalseClaims(f, code);
      assert !FalseClaim(f, a, u.Line(), u.Tag());
    }
  }
}
