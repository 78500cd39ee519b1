/** `identify_loops`, second part: of loops with the same header only the first stays, and its body then is searched
    completely.  What is left is the forest of loops. */
module LoopMerge {
  import opened Graphs
  import opened Loops
  import opened Components
  import opened Tarjan
  import opened LoopBodies
  import opened LoopNesting
  import opened LoopForest
  import opened LoopSearch

  /** Loop `j` has the header of an earlier one. */
  ghost predicate Repeats(loops: seq<Loop>, j: nat)
    requires j < |loops|
  {
    exists i: nat :: i < j && loops[i].root == loops[j].root
  }

  /** The nearest loop around `id`, or itself, that is not in `gone`. */
  ghost function Up(loops: seq<Loop>, gone: set<nat>, id: nat): (u: nat)
    requires id < |loops| && CanGo(loops, gone)
    ensures u <= id && u !in gone
  {
    if id in gone then Up(loops, gone, loops[id].parent) else id
  }

  /** Only loops that repeat the header of their parent go. */
  ghost predicate CanGo(loops: seq<Loop>, gone: set<nat>) {
    forall d: nat | d in gone :: d < |loops| && Repeats(loops, d) && HeaderFromParent(loops, d)
  }

  ghost function ParentNow(loops: seq<Loop>, gone: set<nat>, j: nat): int
    requires j < |loops| && CanGo(loops, gone) && (loops[j].parent == UNDEF || 0 <= loops[j].parent < j)
  {
    if loops[j].parent == UNDEF then UNDEF else Up(loops, gone, loops[j].parent)
  }

  ghost predicate ParentsBefore(loops: seq<Loop>) {
    forall j: nat | j < |loops| :: loops[j].id == j && (loops[j].parent == UNDEF || 0 <= loops[j].parent < j)
  }

  /** `cur` is what is left of `loops` without those in `gone`, in order, with new parents. */
  ghost predicate Left(loops: seq<Loop>, gone: set<nat>, cur: seq<Loop>)
    requires ParentsBefore(loops) && CanGo(loops, gone)
  {
    && (forall q | 0 <= q < |cur| :: Entry(loops, gone, cur[q]))
    && (forall q, s | 0 <= q < s < |cur| :: cur[q].id < cur[s].id)
    && forall j: nat | j < |loops| && j !in gone :: HasId(cur, j)
  }

  ghost predicate Entry(loops: seq<Loop>, gone: set<nat>, l: Loop)
    requires ParentsBefore(loops) && CanGo(loops, gone)
  {
    0 <= l.id < |loops| && l.id !in gone && l == loops[l.id].(parent := ParentNow(loops, gone, l.id))
  }

  /** `search_loop_id` */
  predicate HasId(loops: seq<Loop>, id: int) {
    exists q | 0 <= q < |loops| :: loops[q].id == id
  }

  /** Nothing changes for loops before the one that goes. */
  lemma {:induction false} UpBefore(loops: seq<Loop>, gone: set<nat>, d: nat, id: nat)
    requires id < d < |loops| && CanGo(loops, gone) && CanGo(loops, gone + {d})
    ensures Up(loops, gone + {d}, id) == Up(loops, gone, id)
  {
    if id in gone {
      UpBefore(loops, gone, d, loops[id].parent);
    }
  }

  /** A loop below the one that goes moves up to that loop's parent. */
  lemma {:induction false} UpMoves(loops: seq<Loop>, gone: set<nat>, d: nat, id: nat)
    requires id < |loops| && d < |loops| && d !in gone && CanGo(loops, gone) && CanGo(loops, gone + {d})
    ensures Up(loops, gone + {d}, id) == if Up(loops, gone, id) == d then Up(loops, gone, loops[d].parent) else Up(loops, gone, id)
  {
    if id in gone {
      UpMoves(loops, gone, d, loops[id].parent);
    } else if id == d {
      UpBefore(loops, gone, d, loops[d].parent);
    }
  }

  /** The removal of loop `d` at position `q`: its children get its parent. */
  function RemoveAt(cur: seq<Loop>, q: nat): seq<Loop>
    requires q < |cur|
  {
    var moved := Reparent(cur, cur[q].id, cur[q].parent);
    moved[..q] + moved[q + 1..]
  }

  function Reparent(cur: seq<Loop>, from: int, to: int): seq<Loop> {
    seq(|cur|, i requires 0 <= i < |cur| => if cur[i].parent == from then cur[i].(parent := to) else cur[i])
  }

  lemma MovedParent(loops: seq<Loop>, gone: set<nat>, d: nat, j: nat)
    requires ParentsBefore(loops) && j < |loops| && d < |loops| && d !in gone && CanGo(loops, gone) && CanGo(loops, gone + {d})
    ensures ParentNow(loops, gone + {d}, j) ==
            if ParentNow(loops, gone, j) == d then ParentNow(loops, gone, d) else ParentNow(loops, gone, j)
  {
    if loops[j].parent != UNDEF {
      UpMoves(loops, gone, d, loops[j].parent);
    }
  }

  lemma RemovalLeaves(loops: seq<Loop>, gone: set<nat>, cur: seq<Loop>, q: nat, d: nat)
    requires ParentsBefore(loops) && CanGo(loops, gone) && Left(loops, gone, cur) && q < |cur| && cur[q].id == d
    requires Repeats(loops, d) && HeaderFromParent(loops, d)
    ensures CanGo(loops, gone + {d}) && Left(loops, gone + {d}, RemoveAt(cur, q))
  {
    var next, more := RemoveAt(cur, q), gone + {d};
    assert Entry(loops, gone, cur[q]);
    forall i | 0 <= i < |next|
      ensures Entry(loops, more, next[i])
    {
      var k := if i < q then i else i + 1;
      assert Entry(loops, gone, cur[k]) && cur[k].id != d;
      EntryMoves(loops, gone, d, cur[k], cur[q].parent);
    }
    RemovalKeepsIds(cur, q, next);
    forall j: nat | j < |loops| && j !in more
      ensures HasId(next, j)
    {
      assert HasId(cur, j);
    }
  }

  lemma EntryMoves(loops: seq<Loop>, gone: set<nat>, d: nat, l: Loop, up: int)
    requires ParentsBefore(loops) && CanGo(loops, gone) && CanGo(loops, gone + {d}) && d < |loops| && d !in gone
    requires Entry(loops, gone, l) && l.id != d && up == ParentNow(loops, gone, d)
    ensures Entry(loops, gone + {d}, if l.parent == d then l.(parent := up) else l)
  {
    MovedParent(loops, gone, d, l.id);
  }

  /** The other numbers stay, in order. */
  lemma RemovalKeepsIds(cur: seq<Loop>, q: nat, next: seq<Loop>)
    requires q < |cur| && next == RemoveAt(cur, q) && forall a, b | 0 <= a < b < |cur| :: cur[a].id < cur[b].id
    ensures forall a, b | 0 <= a < b < |next| :: next[a].id < next[b].id
    ensures forall j: nat | HasId(cur, j) && j != cur[q].id :: HasId(next, j)
  {
    forall j: nat | HasId(cur, j) && j != cur[q].id
      ensures HasId(next, j)
    {
      var s :| 0 <= s < |cur| && cur[s].id == j;
      assert next[if s < q then s else s - 1].id == j;
    }
  }

  ghost predicate Differ(cur: seq<Loop>, n: nat) {
    forall a: nat, b: nat | a < n && a < b < |cur| :: cur[a].root != cur[b].root
  }

  lemma RemovalKeepsRoots(cur: seq<Loop>, q: nat)
    requires q < |cur|
    ensures forall i | 0 <= i < |cur| - 1 ::
              var l := cur[if i < q then i else i + 1]; RemoveAt(cur, q)[i].root == l.root && RemoveAt(cur, q)[i].id == l.id
  {
  }

  /** The removed loop's parent is still in the list, so the walk up the recorded parents ends at once. */
  lemma ParentListed(loops: seq<Loop>, gone: set<nat>, cur: seq<Loop>, q: nat)
    requires ParentsBefore(loops) && CanGo(loops, gone) && Left(loops, gone, cur) && q < |cur| && HeaderFromParent(loops, cur[q].id)
    ensures HasId(cur, cur[q].parent)
  {
    assert cur[q].parent == Up(loops, gone, loops[cur[q].id].parent);
  }

  lemma LaterRepeats(loops: seq<Loop>, gone: set<nat>, cur: seq<Loop>, p: nat, q: nat)
    requires ParentsBefore(loops) && HeadersInherited(loops) && CanGo(loops, gone) && Left(loops, gone, cur)
    requires p < q < |cur| && cur[p].root == cur[q].root
    ensures Repeats(loops, cur[q].id) && HeaderFromParent(loops, cur[q].id)
  {
    var i: nat, j: nat := cur[p].id, cur[q].id;
    assert i < j && loops[i].root == loops[j].root;
  }

  /** Blocks outside all loops keep their number. */
  ghost predicate OnlyInLoops(loops: seq<Loop>, before: seq<int>, after: seq<int>)
    requires |before| == |after|
  {
    forall v: nat | v < |before| && (forall i: nat | i < |loops| :: v !in loops[i].nodes) :: after[v] == before[v]
  }

  lemma NothingGone(loops: seq<Loop>)
    requires ParentsBefore(loops)
    ensures CanGo(loops, {}) && Left(loops, {}, loops)
  {
    forall j: nat | j < |loops|
      ensures HasId(loops, j) && ParentNow(loops, {}, j) == loops[j].parent
    {
      assert loops[j].id == j;
    }
  }

  /** The loop that removes loops with the header of another.  After a removal it starts again from the first position,
      but goes on comparing with the loop it was at. */
  method RemoveSameHeaders(loops: seq<Loop>, loopId: seq<int>) returns (cur: seq<Loop>, loopId': seq<int>, ghost gone: set<nat>)
    requires ParentsBefore(loops) && HeadersInherited(loops)
    requires forall i, j | 0 <= i < |loops| && 0 <= j < |loops[i].nodes| :: loops[i].nodes[j] < |loopId|
    ensures CanGo(loops, gone) && Left(loops, gone, cur) && |loopId'| == |loopId|
    ensures forall j: nat | j < |loops| :: j in gone <==> Repeats(loops, j)
    ensures OnlyInLoops(loops, loopId, loopId')
  {
    cur, loopId', gone := loops, loopId, {};
    NothingGone(loops);
    var it: nat := 0;
    while it < |cur|
      invariant CanGo(loops, gone) && Left(loops, gone, cur) && it <= |cur| && Differ(cur, it)
      invariant |loopId'| == |loopId| && OnlyInLoops(loops, loopId, loopId')
      decreases |cur|, |cur| - it
    {
      cur, loopId', gone, it := CompareWithRest(loops, gone, cur, it, loopId, loopId');
      it := it + 1;
    }
    AllRepeatsGone(loops, gone, cur);
  }

  /** The inner loop: removes the loops that have the header of the one at position `at`. */
  method CompareWithRest(ghost loops: seq<Loop>, ghost gone0: set<nat>, cur0: seq<Loop>, at: nat, ghost start: seq<int>, loopId: seq<int>)
    returns (cur: seq<Loop>, loopId': seq<int>, ghost gone: set<nat>, it: nat)
    requires ParentsBefore(loops) && HeadersInherited(loops) && CanGo(loops, gone0) && Left(loops, gone0, cur0)
    requires at < |cur0| && Differ(cur0, at) && |start| == |loopId| && OnlyInLoops(loops, start, loopId)
    requires forall i, j | 0 <= i < |loops| && 0 <= j < |loops[i].nodes| :: loops[i].nodes[j] < |loopId|
    ensures CanGo(loops, gone) && Left(loops, gone, cur) && |loopId'| == |start| && OnlyInLoops(loops, start, loopId')
    ensures |cur| < |cur0| || (cur == cur0 && it == at)
    ensures it < |cur| && Differ(cur, it + 1)
  {
    cur, loopId', gone, it := cur0, loopId, gone0, at;
    var outer, inner: nat := cur[at], at + 1;
    while inner < |cur|
      invariant CanGo(loops, gone) && Left(loops, gone, cur) && |loopId'| == |start| && OnlyInLoops(loops, start, loopId')
      invariant |cur| < |cur0| || (cur == cur0 && it == at)
      invariant it <= at && it < inner && Compared(cur, at, outer, inner)
      decreases |cur|, |cur| - inner
    {
      if outer.root == cur[inner].root && outer.id != cur[inner].id {
        cur, loopId', gone := RemoveRepeat(loops, gone, cur, at, outer, inner, start, loopId');
        it, inner := 0, 1;
      } else {
        OneMoreCompared(loops, gone, cur, at, outer, inner);
        inner := inner + 1;
      }
    }
    AllCompared(cur, at, outer, it);
  }

  lemma OneMoreCompared(loops: seq<Loop>, gone: set<nat>, cur: seq<Loop>, p: nat, outer: Loop, inner: nat)
    requires ParentsBefore(loops) && CanGo(loops, gone) && Left(loops, gone, cur)
    requires Compared(cur, p, outer, inner) && inner < |cur| && (outer.root != cur[inner].root || outer.id == cur[inner].id)
    ensures Compared(cur, p, outer, inner + 1)
  {
    assert p < inner ==> cur[p].id < cur[inner].id;
  }

  lemma AllCompared(cur: seq<Loop>, p: nat, outer: Loop, it: nat)
    requires Compared(cur, p, outer, |cur|) && it <= p
    ensures it < |cur| && Differ(cur, it + 1)
  {
  }

  /** The loop at position `p` is compared with those up to `inner`; all before it differ from everything. */
  ghost predicate Compared(cur: seq<Loop>, p: nat, outer: Loop, inner: nat) {
    && p < |cur| && cur[p].id == outer.id && cur[p].root == outer.root && Differ(cur, p) && inner <= |cur|
    && forall b: nat | p < b < inner :: cur[b].root != outer.root
  }

  /** The removal of the loop at position `q`, which has the header of the one at `p`. */
  method RemoveRepeat(ghost loops: seq<Loop>, ghost gone: set<nat>, cur: seq<Loop>, ghost p: nat, outer: Loop, q: nat,
                      ghost start: seq<int>, loopId: seq<int>)
    returns (cur': seq<Loop>, loopId': seq<int>, ghost gone': set<nat>)
    requires ParentsBefore(loops) && HeadersInherited(loops) && CanGo(loops, gone) && Left(loops, gone, cur)
    requires Compared(cur, p, outer, q) && q < |cur| && cur[q].root == outer.root && cur[q].id != outer.id
    requires |start| == |loopId| && OnlyInLoops(loops, start, loopId)
    requires forall i, j | 0 <= i < |loops| && 0 <= j < |loops[i].nodes| :: loops[i].nodes[j] < |loopId|
    ensures CanGo(loops, gone') && Left(loops, gone', cur') && |cur'| < |cur| && Compared(cur', p, outer, 1)
    ensures |loopId'| == |start| && OnlyInLoops(loops, start, loopId')
  {
    assert p < q;
    assert Entry(loops, gone, cur[q]);
    ghost var d: nat := cur[q].id;
    LaterRepeats(loops, gone, cur, p, q);
    ParentListed(loops, gone, cur, q);
    RemovalLeaves(loops, gone, cur, q, d);
    ComparedAgain(cur, p, outer, q);
    cur', loopId' := RemoveLoop(cur, q, loopId);
    gone' := gone + {d};
    ChangedInLoop(loops, d, start, loopId, loopId');
  }

  lemma ComparedAgain(cur: seq<Loop>, p: nat, outer: Loop, q: nat)
    requires Compared(cur, p, outer, q) && p < q < |cur|
    ensures Compared(RemoveAt(cur, q), p, outer, 1)
  {
    RemovalKeepsRoots(cur, q);
  }

  lemma ChangedInLoop(loops: seq<Loop>, d: nat, start: seq<int>, before: seq<int>, after: seq<int>)
    requires d < |loops| && |start| == |before| == |after| && OnlyInLoops(loops, start, before)
    requires forall v: nat | v < |before| && v !in loops[d].nodes :: after[v] == before[v]
    ensures OnlyInLoops(loops, start, after)
  {
  }

  /** The loop at position `q` goes: its blocks and the loops in it pass to its parent, which is in the list. */
  method RemoveLoop(cur: seq<Loop>, q: nat, loopId: seq<int>) returns (cur': seq<Loop>, loopId': seq<int>)
    requires q < |cur| && HasId(cur, cur[q].parent) && forall j | 0 <= j < |cur[q].nodes| :: cur[q].nodes[j] < |loopId|
    ensures cur' == RemoveAt(cur, q) && |loopId'| == |loopId|
    ensures forall v: nat | v < |loopId| :: loopId'[v] == if v in cur[q].nodes then cur[q].parent else loopId[v]
  {
    var parent := cur[q].parent;
    loopId' := SetAll(cur[q].nodes, parent, loopId);
    cur' := cur;
    for i := 0 to |cur|
      invariant |cur'| == |cur|
      invariant forall k | 0 <= k < |cur| :: cur'[k] == if k < i then Reparent(cur, cur[q].id, parent)[k] else cur[k]
    {
      if cur'[i].parent == cur[q].id {
        cur' := cur'[i := cur'[i].(parent := parent)];
      }
    }
    assert cur' == Reparent(cur, cur[q].id, parent);
    cur' := cur'[..q] + cur'[q + 1..];
  }

  method SetAll(nodes: seq<nat>, id: int, loopId: seq<int>) returns (loopId': seq<int>)
    requires forall j | 0 <= j < |nodes| :: nodes[j] < |loopId|
    ensures |loopId'| == |loopId|
    ensures forall v: nat | v < |loopId| :: loopId'[v] == if v in nodes then id else loopId[v]
  {
    loopId' := loopId;
    for j := 0 to |nodes|
      invariant |loopId'| == |loopId|
      invariant forall v: nat | v < |loopId| :: loopId'[v] == if v in nodes[..j] then id else loopId[v]
    {
      loopId' := loopId'[nodes[j] := id];
      assert nodes[..j + 1] == nodes[..j] + [nodes[j]];
    }
    assert nodes[..|nodes|] == nodes;
  }

  /** The first loop with a header is not a repeat. */
  lemma {:induction false} FirstWithHeader(loops: seq<Loop>, j: nat) returns (i: nat)
    requires j < |loops|
    ensures i <= j && loops[i].root == loops[j].root && !Repeats(loops, i)
  {
    if Repeats(loops, j) {
      var k: nat :| k < j && loops[k].root == loops[j].root;
      i := FirstWithHeader(loops, k);
    } else {
      i := j;
    }
  }

  lemma AllRepeatsGone(loops: seq<Loop>, gone: set<nat>, cur: seq<Loop>)
    requires ParentsBefore(loops) && CanGo(loops, gone) && Left(loops, gone, cur) && Differ(cur, |cur|)
    ensures forall j: nat | j < |loops| :: j in gone <==> Repeats(loops, j)
  {
    forall j: nat | j < |loops| && Repeats(loops, j)
      ensures j in gone
    {
      var i := FirstWithHeader(loops, j);
      assert i < j;
      assert HasId(cur, i);
      var a: nat :| a < |cur| && cur[a].id == i;
      assert Entry(loops, gone, cur[a]);
      forall b: nat | b < |cur|
        ensures cur[b].id != j
      {
        assert Entry(loops, gone, cur[b]);
        assert a < b ==> cur[a].root != cur[b].root;
        assert b < a ==> cur[b].id < cur[a].id;
      }
      assert !HasId(cur, j);
    }
  }
}
