/** What the BrainF compiler has built so far, and what it means for code to stand for a piece of source. */
module BrainFBuild {
  import opened BrainFSource
  import opened BrainFCode

  /** The block that frees the tape and returns. */
  const END: nat := 1

  /** A point in the code and the register that holds the head there. */
  datatype Place = Place(block: nat, idx: nat, head: Reg)

  /** The insert point is the end of block `cur`; `places` says where the code for each symbol starts. */
  datatype Build = Build(blocks: seq<Block>, cur: nat, head: Reg, regs: Reg, places: map<nat, Place>)

  // ---------------------------------------------------------------- building steps

  function EmitStraight(s: Build, t: Token): Build
    requires s.cur < |s.blocks|
  {
    var code := CodeFor(t.sym, t.value, s.head, s.regs);
    var b := s.blocks[s.cur].(code := s.blocks[s.cur].code + code);
    var head := HeadAfter(t.sym, s.head, s.regs);
    Build(s.blocks[s.cur := b], s.cur, head, s.regs + 2, s.places[t.next := Place(s.cur, |b.code|, head)])
  }

  /** The test block gets half of its phi node; the insert point moves to the body. */
  function OpenLoop(s: Build, next: nat): Build
    requires s.cur < |s.blocks|
  {
    var test, body := |s.blocks|, |s.blocks| + 1;
    Build(s.blocks[s.cur := s.blocks[s.cur].(term := Br(test))] +
          [Block([Phi(s.regs, 2, [Incoming(s.head, s.cur)])], [], Open), EMPTY],
          body, s.regs, s.regs + 1, s.places[next := Place(body, 0, s.regs)])
  }

  /** The phi node is completed, the test written, and the insert point moves behind the loop. */
  function CloseLoop(s: Build, test: nat, body: nat, next: nat): Build
    requires s.cur < |s.blocks| && test < |s.blocks| && s.cur != test && |s.blocks[test].phis| == 1
  {
    var exit, phi, r := |s.blocks|, s.blocks[test].phis[0], s.regs;
    var tested := Block([phi.(incoming := phi.incoming + [Incoming(s.head, s.cur)])],
                        s.blocks[test].code + [Load(r, phi.dst), IsZero(r + 1, r)], CondBr(r + 1, exit, body));
    Build(s.blocks[s.cur := s.blocks[s.cur].(term := Br(test))][test := tested] +
          [Block([Phi(r + 2, 1, [Incoming(phi.dst, test)])], [], Open)],
          exit, r + 2, r + 3, s.places[next := Place(exit, 0, r + 2)])
  }

  function Finish(s: Build): Build
    requires s.cur < |s.blocks|
  {
    s.(blocks := s.blocks[s.cur := s.blocks[s.cur].(term := Br(END))])
  }

  // ---------------------------------------------------------------- code for a symbol

  /** A complete loop: source positions of its brackets, the test block with its two sides, and the registers. */
  datatype Test = Test(left: nat, right: nat, block: nat, phi: Reg, cell: Reg, cond: Reg,
                       h1: Reg, from1: nat, h2: Reg, from2: nat, body: nat, exit: nat, after: Reg)

  ghost predicate TestOk(src: string, blocks: seq<Block>, places: map<nat, Place>, t: Test) {
    && t.left < t.right < |src| && src[t.left] == '[' && src[t.right] == ']' && Closed(src, t.left + 1, t.right)
    && t.block < |blocks| && t.body < |blocks| && t.exit < |blocks|
    && t.from1 != t.from2 && t.phi < t.cell < t.cond
    && blocks[t.block] == Block([Phi(t.phi, 2, [Incoming(t.h1, t.from1), Incoming(t.h2, t.from2)])],
                                [Load(t.cell, t.phi), IsZero(t.cond, t.cell)], CondBr(t.cond, t.exit, t.body))
    && blocks[t.body].phis == [] && blocks[t.exit].phis == [Phi(t.after, 1, [Incoming(t.phi, t.block)])]
    && t.left + 1 in places && places[t.left + 1] == Place(t.body, 0, t.phi)
    && t.right + 1 in places && places[t.right + 1] == Place(t.exit, 0, t.after)
  }

  predicate HasCode(all: seq<Instr>, at: nat, code: seq<Instr>) {
    at + |code| <= |all| && all[at..at + |code|] == code
  }

  ghost predicate StraightAt(blocks: seq<Block>, places: map<nat, Place>, l: Place, t: Token, r: Reg)
    requires l.block < |blocks|
  {
    && l.head < r && HasCode(blocks[l.block].code, l.idx, CodeFor(t.sym, t.value, l.head, r))
    && t.next in places
    && places[t.next] == Place(l.block, l.idx + |CodeFor(t.sym, t.value, l.head, r)|, HeadAfter(t.sym, l.head, r))
  }

  /** The loop entered from the end of the block at `l`. */
  ghost predicate OpensTest(src: string, blocks: seq<Block>, places: map<nat, Place>, l: Place, t: Token, k: Test)
    requires l.block < |blocks|
  {
    TestOk(src, blocks, places, k) && k.left == t.next - 1 && blocks[l.block].term == Br(k.block) && k.h1 == l.head && k.from1 == l.block
  }

  /** The loop continued from the end of the block at `l`. */
  ghost predicate ClosesTest(src: string, blocks: seq<Block>, places: map<nat, Place>, l: Place, t: Token, k: Test)
    requires l.block < |blocks|
  {
    TestOk(src, blocks, places, k) && k.right == t.next - 1 && blocks[l.block].term == Br(k.block) && k.h2 == l.head && k.from2 == l.block
  }

  /** The code at the place of `p` stands for the symbol at `p` and leads to the place of the next one. */
  ghost predicate CodeAt(src: string, blocks: seq<Block>, places: map<nat, Place>, p: nat) {
    && p <= |src| && p in places && places[p].block < |blocks|
    && var t, l, b := TokenAt(src, p), places[p], blocks[places[p].block];
       if Straight(t.sym) then exists r: nat :: StraightAt(blocks, places, l, t, r)
       else
         && l.idx == |b.code|
         && if t.sym == SymLoop then exists k: Test :: OpensTest(src, blocks, places, l, t, k)
            else if t.sym == SymEndLoop then exists k: Test :: ClosesTest(src, blocks, places, l, t, k)
            else b.term == Br(END) && END < |blocks| && blocks[END] == Block([], [], Ret)
  }

  // ---------------------------------------------------------------- growth

  predicate Complete(phi: Phi) {
    |phi.incoming| == phi.reserved
  }

  /** Ended blocks are final, code is only appended, complete phi nodes stay. */
  ghost predicate BlockGrows(a: Block, b: Block) {
    && (a.term != Open ==> b == a)
    && a.code <= b.code
    && |a.phis| == |b.phis| && forall i | 0 <= i < |a.phis| && Complete(a.phis[i]) :: b.phis[i] == a.phis[i]
  }

  ghost predicate Grows(s: Build, t: Build) {
    && |s.blocks| <= |t.blocks|
    && (forall i {:trigger BlockGrows(s.blocks[i], t.blocks[i])} | 0 <= i < |s.blocks| :: BlockGrows(s.blocks[i], t.blocks[i]))
    && (forall k | k in s.places :: k in t.places && t.places[k] == s.places[k])
  }

  lemma GrowsTransitively(s: Build, t: Build, u: Build)
    requires Grows(s, t) && Grows(t, u)
    ensures Grows(s, u)
  {
    forall i | 0 <= i < |s.blocks|
      ensures BlockGrows(s.blocks[i], u.blocks[i])
    {
      BlockGrowsTransitively(s.blocks[i], t.blocks[i], u.blocks[i]);
    }
  }

  lemma BlockGrowsTransitively(a: Block, b: Block, c: Block)
    requires BlockGrows(a, b) && BlockGrows(b, c)
    ensures BlockGrows(a, c)
  {
  }

  lemma TestStays(src: string, s: Build, t: Build, k: Test)
    requires Grows(s, t) && TestOk(src, s.blocks, s.places, k)
    ensures TestOk(src, t.blocks, t.places, k)
  {
    assert BlockGrows(s.blocks[k.block], t.blocks[k.block]);
    assert BlockGrows(s.blocks[k.body], t.blocks[k.body]);
    assert BlockGrows(s.blocks[k.exit], t.blocks[k.exit]);
    assert Complete(s.blocks[k.exit].phis[0]);
  }

  lemma StraightStays(s: Build, t: Build, l: Place, tok: Token, r: Reg)
    requires Grows(s, t) && l.block < |s.blocks| && StraightAt(s.blocks, s.places, l, tok, r)
    ensures StraightAt(t.blocks, t.places, l, tok, r)
  {
    var a, b, code := s.blocks[l.block].code, t.blocks[l.block].code, CodeFor(tok.sym, tok.value, l.head, r);
    assert BlockGrows(s.blocks[l.block], t.blocks[l.block]);
    assert b[l.idx..l.idx + |code|] == a[l.idx..l.idx + |code|];
  }

  /** Code that stands for its symbol keeps doing so while more is built. */
  lemma CodeStays(src: string, s: Build, t: Build, p: nat)
    requires Grows(s, t) && CodeAt(src, s.blocks, s.places, p)
    ensures CodeAt(src, t.blocks, t.places, p)
  {
    var tok, l := TokenAt(src, p), s.places[p];
    assert BlockGrows(s.blocks[l.block], t.blocks[l.block]);
    if Straight(tok.sym) {
      var r: nat :| StraightAt(s.blocks, s.places, l, tok, r);
      StraightStays(s, t, l, tok, r);
    } else if tok.sym == SymLoop {
      var k: Test :| OpensTest(src, s.blocks, s.places, l, tok, k);
      TestStays(src, s, t, k);
      assert OpensTest(src, t.blocks, t.places, l, tok, k);
    } else if tok.sym == SymEndLoop {
      var k: Test :| ClosesTest(src, s.blocks, s.places, l, tok, k);
      TestStays(src, s, t, k);
      assert ClosesTest(src, t.blocks, t.places, l, tok, k);
    } else {
      assert BlockGrows(s.blocks[END], t.blocks[END]);
    }
  }

  // ---------------------------------------------------------------- progress of the compiler

  /** The insert point is where the symbol at `p` goes. */
  ghost predicate Ready(src: string, s: Build, p: nat) {
    && p <= |src| && s.cur < |s.blocks| && s.blocks[s.cur].term == Open
    && p in s.places && s.places[p] == Place(s.cur, |s.blocks[s.cur].code|, s.head)
    && s.head < s.regs && (forall k | k in s.places :: k <= p)
    && END < |s.blocks| && s.blocks[END] == Block([], [], Ret)
  }

  /** From `s0`, ready at `p0`, the compiler has come to `s`, ready at `p`: every symbol in between has its code,
      and blocks that existed before are untouched, except the one that had the insert point. */
  ghost predicate Through(src: string, s0: Build, p0: nat, s: Build, p: nat) {
    && Ready(src, s0, p0) && Ready(src, s, p) && Grows(s0, s) && s0.regs <= s.regs
    && (s.cur == s0.cur || s.cur >= |s0.blocks|)
    && (forall i {:trigger s.blocks[i], s0.blocks[i]} | 0 <= i < |s0.blocks| && i != s0.cur :: s.blocks[i] == s0.blocks[i])
    && (forall k {:trigger CodeAt(src, s.blocks, s.places, k)} | k in s.places ::
          (k in s0.places && k != p0) || k == p || CodeAt(src, s.blocks, s.places, k))
  }

  lemma NothingYet(src: string, s: Build, p: nat)
    requires Ready(src, s, p)
    ensures Through(src, s, p, s, p)
  {
  }

  /** Emitting a straight symbol is progress. */
  lemma StraightStep(src: string, s0: Build, p0: nat, s: Build, p: nat)
    requires Through(src, s0, p0, s, p) && Straight(TokenAt(src, p).sym)
    ensures Through(src, s0, p0, EmitStraight(s, TokenAt(src, p)), TokenAt(src, p).next)
  {
    var t := TokenAt(src, p);
    var s' := EmitStraight(s, t);
    StraightGrows(src, s, p);
    GrowsTransitively(s0, s, s');
    forall k | k in s'.places && !(k in s0.places && k != p0) && k != t.next
      ensures CodeAt(src, s'.blocks, s'.places, k)
    {
      if k != p {
        CodeStays(src, s, s', k);
      }
    }
  }

  lemma StraightGrows(src: string, s: Build, p: nat)
    requires Ready(src, s, p) && Straight(TokenAt(src, p).sym)
    ensures var s', t := EmitStraight(s, TokenAt(src, p)), TokenAt(src, p);
            Ready(src, s', t.next) && Grows(s, s') && CodeAt(src, s'.blocks, s'.places, p)
  {
    var t := TokenAt(src, p);
    var s' := EmitStraight(s, t);
    var code := CodeFor(t.sym, t.value, s.head, s.regs);
    var before := s.blocks[s.cur].code;
    assert (before + code)[|before|..|before| + |code|] == code;
    assert StraightAt(s'.blocks, s'.places, s.places[p], t, s.regs);
  }

  /** Opening a loop makes its body ready. */
  lemma OpenIsReady(src: string, s: Build, p: nat)
    requires Ready(src, s, p) && TokenAt(src, p).sym == SymLoop
    ensures Ready(src, OpenLoop(s, TokenAt(src, p).next), TokenAt(src, p).next)
    ensures Grows(s, OpenLoop(s, TokenAt(src, p).next))
  {
  }

  /** The loop as `CloseLoop` completes it. */
  function TestOf(inner: Build, i: nat, j: nat, from: Incoming, test: nat, phi: Reg): Test {
    Test(i, j, test, phi, inner.regs, inner.regs + 1, from.value, from.from, inner.head, inner.cur,
         test + 1, |inner.blocks|, inner.regs + 2)
  }

  /** The symbol at `p` opens a loop, whose body has been compiled up to the closing symbol at `at`. */
  ghost predicate LoopBody(src: string, s: Build, p: nat, inner: Build, at: nat) {
    && Ready(src, s, p) && TokenAt(src, p).sym == SymLoop
    && Through(src, OpenLoop(s, TokenAt(src, p).next), TokenAt(src, p).next, inner, at)
    && TokenAt(src, at).sym == SymEndLoop && Paired(src, TokenAt(src, p).next - 1, TokenAt(src, at).next - 1)
  }

  ghost predicate Paired(src: string, i: nat, j: nat) {
    i < j < |src| && src[i] == '[' && src[j] == ']' && Closed(src, i + 1, j)
  }

  /** `inner` has the half-finished test block `test`, entered from `from`, and its body begun. */
  ghost predicate HalfTest(inner: Build, i: nat, from: Incoming, test: nat, phi: Reg) {
    && inner.cur < |inner.blocks| && test + 2 <= |inner.blocks| && inner.cur != test && inner.cur != from.from && phi < inner.regs
    && from.from < test && inner.blocks[test] == Block([Phi(phi, 2, [from])], [], Open)
    && inner.blocks[from.from].term == Br(test) && inner.blocks[test + 1].phis == []
    && i + 1 in inner.places && inner.places[i + 1] == Place(test + 1, 0, phi)
  }

  /** While the body is compiled, the test block and the block before the loop stay as they are. */
  lemma BodyLeavesTest(src: string, s: Build, p: nat, inner: Build, at: nat)
    requires LoopBody(src, s, p, inner, at)
    ensures HalfTest(inner, TokenAt(src, p).next - 1, Incoming(s.head, s.cur), |s.blocks|, s.regs)
    ensures inner.blocks[s.cur] == s.blocks[s.cur].(term := Br(|s.blocks|))
  {
    var entered := OpenLoop(s, TokenAt(src, p).next);
    assert entered.blocks[s.cur] == s.blocks[s.cur].(term := Br(|s.blocks|));
    assert inner.blocks[|s.blocks|] == entered.blocks[|s.blocks|];
    assert BlockGrows(entered.blocks[|s.blocks| + 1], inner.blocks[|s.blocks| + 1]);
  }

  /** Closing a loop completes its test. */
  lemma TestCloses(src: string, inner: Build, i: nat, j: nat, from: Incoming, test: nat, phi: Reg)
    requires HalfTest(inner, i, from, test, phi) && Paired(src, i, j)
    ensures var after := CloseLoop(inner, test, test + 1, j + 1);
            TestOk(src, after.blocks, after.places, TestOf(inner, i, j, from, test, phi))
  {
    var after, r := CloseLoop(inner, test, test + 1, j + 1), inner.regs;
    assert [] + [Load(r, phi), IsZero(r + 1, r)] == [Load(r, phi), IsZero(r + 1, r)];
    assert [from] + [Incoming(inner.head, inner.cur)] == [from, Incoming(inner.head, inner.cur)];
  }

  /** Closing a loop makes the code behind it ready. */
  lemma CloseGrows(src: string, inner: Build, at: nat, i: nat, from: Incoming, test: nat, phi: Reg)
    requires Ready(src, inner, at) && HalfTest(inner, i, from, test, phi) && TokenAt(src, at).sym == SymEndLoop && END < test
    ensures var after := CloseLoop(inner, test, test + 1, TokenAt(src, at).next);
            && Grows(inner, after) && Ready(src, after, TokenAt(src, at).next)
            && after.blocks[from.from] == inner.blocks[from.from] && after.blocks[inner.cur] == inner.blocks[inner.cur].(term := Br(test))
  {
    var after := CloseLoop(inner, test, test + 1, TokenAt(src, at).next);
    forall n | 0 <= n < |inner.blocks|
      ensures BlockGrows(inner.blocks[n], after.blocks[n])
    {
    }
  }

  /** The jump into a closed loop is the code of its opening symbol. */
  lemma OpeningCoded(src: string, inner: Build, p: nat, l: Place, j: nat, test: nat, phi: Reg)
    requires p <= |src| && TokenAt(src, p).sym == SymLoop && Paired(src, TokenAt(src, p).next - 1, j)
    requires HalfTest(inner, TokenAt(src, p).next - 1, Incoming(l.head, l.block), test, phi)
    requires p in inner.places && p != j + 1 && inner.places[p] == l && |inner.blocks[l.block].code| == l.idx
    ensures var after := CloseLoop(inner, test, test + 1, j + 1); CodeAt(src, after.blocks, after.places, p)
  {
    var t, from := TokenAt(src, p), Incoming(l.head, l.block);
    var after := CloseLoop(inner, test, test + 1, j + 1);
    TestCloses(src, inner, t.next - 1, j, from, test, phi);
    assert after.blocks[l.block] == inner.blocks[l.block];
    assert OpensTest(src, after.blocks, after.places, l, t, TestOf(inner, t.next - 1, j, from, test, phi));
  }

  /** The jump back is the code of its closing symbol. */
  lemma ClosingCoded(src: string, inner: Build, at: nat, i: nat, from: Incoming, test: nat, phi: Reg)
    requires at <= |src| && TokenAt(src, at).sym == SymEndLoop && Paired(src, i, TokenAt(src, at).next - 1)
    requires HalfTest(inner, i, from, test, phi)
    requires at in inner.places && inner.places[at] == Place(inner.cur, |inner.blocks[inner.cur].code|, inner.head)
    ensures var after := CloseLoop(inner, test, test + 1, TokenAt(src, at).next); CodeAt(src, after.blocks, after.places, at)
  {
    var t := TokenAt(src, at);
    var after := CloseLoop(inner, test, test + 1, t.next);
    TestCloses(src, inner, i, t.next - 1, from, test, phi);
    assert after.blocks[inner.cur] == inner.blocks[inner.cur].(term := Br(test));
    assert ClosesTest(src, after.blocks, after.places, inner.places[at], t, TestOf(inner, i, t.next - 1, from, test, phi));
  }

  /** The state behind a compiled loop. */
  function Behind(src: string, s: Build, inner: Build, at: nat): Build
    requires inner.cur < |inner.blocks| && |s.blocks| < |inner.blocks| && inner.cur != |s.blocks|
    requires |inner.blocks[|s.blocks|].phis| == 1 && at <= |src|
  {
    CloseLoop(inner, |s.blocks|, |s.blocks| + 1, TokenAt(src, at).next)
  }

  /** What is needed to close the loop. */
  ghost predicate HalfLoop(src: string, s: Build, p: nat, inner: Build, at: nat) {
    && p < at <= |src| && TokenAt(src, p).sym == SymLoop && TokenAt(src, at).sym == SymEndLoop
    && Paired(src, TokenAt(src, p).next - 1, TokenAt(src, at).next - 1) && END < |s.blocks| && s.cur < |s.blocks|
    && HalfTest(inner, TokenAt(src, p).next - 1, Incoming(s.head, s.cur), |s.blocks|, s.regs)
    && p in inner.places && inner.places[p] == Place(s.cur, |inner.blocks[s.cur].code|, s.head)
    && at in inner.places && inner.places[at] == Place(inner.cur, |inner.blocks[inner.cur].code|, inner.head)
  }

  lemma LoopIsHalf(src: string, s: Build, p: nat, inner: Build, at: nat)
    requires LoopBody(src, s, p, inner, at)
    ensures HalfLoop(src, s, p, inner, at) && Ready(src, inner, at)
  {
    BodyLeavesTest(src, s, p, inner, at);
    assert p in OpenLoop(s, TokenAt(src, p).next).places;
  }

  lemma LoopGrows(src: string, s: Build, p: nat, inner: Build, at: nat)
    requires HalfLoop(src, s, p, inner, at) && Ready(src, inner, at)
    ensures Grows(inner, Behind(src, s, inner, at)) && Ready(src, Behind(src, s, inner, at), TokenAt(src, at).next)
  {
    CloseGrows(src, inner, at, TokenAt(src, p).next - 1, Incoming(s.head, s.cur), |s.blocks|, s.regs);
  }

  lemma LeftCoded(src: string, s: Build, p: nat, inner: Build, at: nat)
    requires HalfLoop(src, s, p, inner, at)
    ensures var after := Behind(src, s, inner, at); CodeAt(src, after.blocks, after.places, p)
  {
    var j := TokenAt(src, at).next - 1;
    assert Behind(src, s, inner, at) == CloseLoop(inner, |s.blocks|, |s.blocks| + 1, j + 1);
    OpeningCoded(src, inner, p, inner.places[p], j, |s.blocks|, s.regs);
  }

  lemma RightCoded(src: string, s: Build, p: nat, inner: Build, at: nat)
    requires HalfLoop(src, s, p, inner, at)
    ensures var after := Behind(src, s, inner, at); CodeAt(src, after.blocks, after.places, at)
  {
    var i := TokenAt(src, p).next - 1;
    assert Behind(src, s, inner, at) == CloseLoop(inner, |s.blocks|, |s.blocks| + 1, TokenAt(src, at).next);
    ClosingCoded(src, inner, at, i, Incoming(s.head, s.cur), |s.blocks|, s.regs);
  }

  /** A compiled loop is progress. */
  lemma LoopStep(src: string, s0: Build, p0: nat, s: Build, p: nat, inner: Build, at: nat)
    requires Through(src, s0, p0, s, p) && LoopBody(src, s, p, inner, at)
    ensures HalfLoop(src, s, p, inner, at)
    ensures Through(src, s0, p0, Behind(src, s, inner, at), TokenAt(src, at).next)
  {
    LoopIsHalf(src, s, p, inner, at);
    LoopGrows(src, s, p, inner, at);
    LeftCoded(src, s, p, inner, at);
    RightCoded(src, s, p, inner, at);
    OpenIsReady(src, s, p);
    var after := Behind(src, s, inner, at);
    GrowsTransitively(s, OpenLoop(s, TokenAt(src, p).next), inner);
    GrowsTransitively(s, inner, after);
    GrowsTransitively(s0, s, after);
    forall k | k in after.places && !(k in s0.places && k != p0) && k != TokenAt(src, at).next
      ensures CodeAt(src, after.blocks, after.places, k)
    {
      if k != p && k != at {
        LoopKeepsCode(src, s0, p0, s, p, inner, at, k);
        CodeStays(src, inner, after, k);
      }
    }
    LoopLeavesOthers(src, s0, p0, s, p, inner, at);
  }

  lemma LoopKeepsCode(src: string, s0: Build, p0: nat, s: Build, p: nat, inner: Build, at: nat, k: nat)
    requires Through(src, s0, p0, s, p) && LoopBody(src, s, p, inner, at)
    requires k in inner.places && !(k in s0.places && k != p0) && k != p && k != at
    ensures CodeAt(src, inner.blocks, inner.places, k)
  {
    if k in s.places {
      OpenIsReady(src, s, p);
      GrowsTransitively(s, OpenLoop(s, TokenAt(src, p).next), inner);
      CodeStays(src, s, inner, k);
    }
  }

  lemma LoopLeavesOthers(src: string, s0: Build, p0: nat, s: Build, p: nat, inner: Build, at: nat)
    requires Through(src, s0, p0, s, p) && LoopBody(src, s, p, inner, at) && HalfLoop(src, s, p, inner, at)
    ensures var after := Behind(src, s, inner, at);
            |s0.blocks| <= |after.blocks| && forall i | 0 <= i < |s0.blocks| && i != s0.cur :: after.blocks[i] == s0.blocks[i]
  {
    var entered := OpenLoop(s, TokenAt(src, p).next);
    forall i | 0 <= i < |s0.blocks| && i != s0.cur
      ensures inner.blocks[i] == s0.blocks[i] && i != inner.cur && i != |s.blocks|
    {
      assert s.blocks[i] == s0.blocks[i];
      assert i != s.cur;
      assert entered.blocks[i] == s.blocks[i];
      assert inner.blocks[i] == entered.blocks[i];
    }
  }

  /** Ending the program completes the code. */
  ghost predicate Compiled(src: string, blocks: seq<Block>, places: map<nat, Place>) {
    forall k {:trigger CodeAt(src, blocks, places, k)} | k in places :: CodeAt(src, blocks, places, k)
  }

  lemma FinishCompletes(src: string, s0: Build, s: Build, p: nat)
    requires Through(src, s0, 0, s, p) && TokenAt(src, p).sym == SymEof && forall k | k in s0.places :: k == 0
    ensures Compiled(src, Finish(s).blocks, s.places)
  {
    var done := Finish(s);
    assert Grows(s, done);
    assert CodeAt(src, done.blocks, done.places, p);
    forall k | k in s.places
      ensures CodeAt(src, done.blocks, done.places, k)
    {
      if k != p {
        CodeStays(src, s, done, k);
      }
    }
  }
}
