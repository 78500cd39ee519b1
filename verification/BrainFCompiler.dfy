/** The BrainF compiler: reads the source once, folds runs, and emits code at a moving insert point. */
module BrainFCompiler {
  import opened Options
  import opened BrainFSource
  import opened BrainFCode
  import opened BrainFBuild

  datatype Result = Ok | ExtraBracket | MissingBracket

  /** The loop `readloop` is compiling the body of: its test block and the block its body starts with. */
  datatype Frame = Frame(testbb: nat, oldbb: nat)

  /** The lookahead symbol `nextsym` of the reader: none, or the symbol at `q` already taken from the input. */
  predicate Pending(src: string, q: nat, nextsym: Symbol, nextvalue: int, pos: nat) {
    if nextsym == SymNone then pos == q <= |src|
    else if nextsym == SymEof then pos == q == |src|
    else q < |src| && pos == q + 1 && nextsym == SymbolOf(src[q]) && (Foldable(nextsym) ==> nextvalue == DirectionOf(src[q]))
  }

  predicate Foldable(sym: Symbol) {
    sym == SymMove || sym == SymChange
  }

  /** The current symbol stands for the source from `p` up to the lookahead. */
  predicate Current(src: string, p: nat, cursym: Symbol, curvalue: int, nextsym: Symbol, nextvalue: int, pos: nat) {
    && p <= |src| && TokenAt(src, p).sym == cursym
    && (Foldable(cursym) ==> TokenAt(src, p).value == curvalue)
    && Pending(src, TokenAt(src, p).next, nextsym, nextvalue, pos)
    && (!Foldable(cursym) ==> nextsym == SymNone)
  }

  /** The reader: from the lookahead symbol left by the last call to the next whole symbol, with its own lookahead. */
  method NextSymbol(src: string, pos0: nat, cursym0: Symbol, curvalue0: int, nextvalue0: int, ghost p: nat)
    returns (pos: nat, cursym: Symbol, curvalue: int, nextsym: Symbol, nextvalue: int)
    requires Pending(src, p, cursym0, curvalue0, pos0)
    ensures Current(src, p, cursym, curvalue, nextsym, nextvalue, pos)
  {
    pos, cursym, curvalue, nextsym, nextvalue := pos0, cursym0, curvalue0, SymNone, nextvalue0;
    var loop := cursym == SymNone || cursym == SymMove || cursym == SymChange;
    while loop
      invariant pos <= |src| && p <= |src|
      invariant loop ==> nextsym == SymNone && (cursym == SymNone || Foldable(cursym))
      invariant loop && cursym == SymNone ==> TokenAt(src, p) == TokenAt(src, pos)
      invariant loop && Foldable(cursym) ==> TokenAt(src, p) == Folded(src, cursym, curvalue, pos)
      invariant !loop ==> Current(src, p, cursym, curvalue, nextsym, nextvalue, pos)
      decreases |src| - pos, if loop then 1 else 0
    {
      if pos == |src| {
        if cursym == SymNone {
          cursym := SymEof;
        } else {
          nextsym := SymEof;
        }
        loop := false;
      } else {
        var c := src[pos];
        pos := pos + 1;
        var sym, direction := SymbolOf(c), DirectionOf(c);
        if sym == SymChange || sym == SymMove {
          if cursym == sym {
            curvalue := curvalue + direction;
          } else if cursym == SymNone {
            cursym, curvalue := sym, direction;
          } else {
            nextsym, nextvalue, loop := sym, direction, false;
          }
        } else if sym != SymNone {
          if cursym == SymNone {
            cursym := sym;
          } else {
            nextsym := sym;
          }
          loop := false;
        }
      }
    }
  }

  class Compiler {
    const src: string
    var pos: nat
    var blocks: seq<Block>
    var cur: nat
    var curhead: Reg
    var regs: Reg
    ghost var places: map<nat, Place>

    ghost function Now(): Build
      reads this
    {
      Build(blocks, cur, curhead, regs, places)
    }

    /** `header`: the tape is cleared, the head is put in its middle, and the block that ends the program exists. */
    constructor (src: string, mem: nat)
      ensures this.src == src && pos == 0 && Now() == Started(mem)
    {
      this.src, pos := src, 0;
      blocks, cur, curhead, regs := [Block([], [Gep(1, 0, mem / 2)], Open), Block([], [], Ret)], 0, 1, 2;
      places := map[0 := Place(0, 1, 1)];
    }

    method Emit(code: seq<Instr>)
      requires cur < |blocks|
      modifies this`blocks
      ensures blocks == old(blocks)[cur := old(blocks)[cur].(code := old(blocks)[cur].code + code)]
    {
      blocks := blocks[cur := blocks[cur].(code := blocks[cur].code + code)];
    }

    /** The straight symbols of the main switch. */
    method EmitSymbol(cursym: Symbol, curvalue: int, ghost t: Token)
      requires cur < |blocks| && Straight(cursym) && t.sym == cursym && (Foldable(cursym) ==> t.value == curvalue)
      modifies this
      ensures Now() == EmitStraight(old(Now()), t) && pos == old(pos)
    {
      var r := regs;
      if cursym == SymRead {
        Emit([GetChar(r), Trunc(r + 1, r), Store(r + 1, curhead)]);
      } else if cursym == SymWrite {
        Emit([Load(r, curhead), SExt(r + 1, r), PutChar(r + 1)]);
      } else if cursym == SymMove {
        Emit([Gep(r, curhead, curvalue)]);
        curhead := r;
      } else {
        Emit([Load(r, curhead), Add(r + 1, r, curvalue % 256), Store(r + 1, curhead)]);
      }
      regs := regs + 2;
      places := places[t.next := Place(cur, |blocks[cur].code|, curhead)];
    }

    /** `[`: branches to a new test block and starts the body in another one. */
    method BeginLoop() returns (frame: Frame)
      requires cur < |blocks|
      modifies this
      ensures Now() == OpenLoop(old(Now()), pos) && pos == old(pos)
      ensures frame == Frame(|old(blocks)|, |old(blocks)| + 1)
    {
      var testbb := |blocks|;
      blocks := blocks + [EMPTY];
      blocks := blocks[cur := blocks[cur].(term := Br(testbb))];
      var bb0 := cur;
      var bb1 := |blocks|;
      blocks := blocks + [EMPTY];
      cur := bb1;
      blocks := blocks[testbb := blocks[testbb].(phis := [Phi(regs, 2, [Incoming(curhead, bb0)])])];
      curhead, regs := regs, regs + 1;
      places := places[pos := Place(bb1, 0, curhead)];
      frame := Frame(testbb, bb1);
    }

    /** `]`: completes the phi node, writes the test, and goes on in a new block. */
    method EndLoop(frame: Frame)
      requires cur < |blocks| && frame.testbb < |blocks| && cur != frame.testbb && |blocks[frame.testbb].phis| == 1
      modifies this
      ensures Now() == CloseLoop(old(Now()), frame.testbb, frame.oldbb, pos) && pos == old(pos)
    {
      var testbb, phi, r := frame.testbb, blocks[frame.testbb].phis[0], regs;
      blocks := blocks[cur := blocks[cur].(term := Br(testbb))];
      blocks := blocks[testbb := blocks[testbb].(phis := [phi.(incoming := phi.incoming + [Incoming(curhead, cur)])])];
      blocks := blocks[testbb := blocks[testbb].(code := blocks[testbb].code + [Load(r, phi.dst), IsZero(r + 1, r)])];
      var bb0 := |blocks|;
      blocks := blocks[testbb := blocks[testbb].(term := CondBr(r + 1, bb0, frame.oldbb))];
      blocks := blocks + [Block([Phi(r + 2, 1, [Incoming(phi.dst, testbb)])], [], Open)];
      cur, curhead, regs := bb0, r + 2, r + 3;
      places := places[pos := Place(bb0, 0, curhead)];
    }

    /** `readloop`: compiles the source from here to the end of the loop, or to the end of the program. `inner`
        and `at` are the state and position at which the last symbol was met. */
    method ReadLoop(frame: Option<Frame>) returns (result: Result, ghost inner: Build, ghost at: nat)
      requires Ready(src, Now(), pos)
      requires frame.Some? ==> frame.value.oldbb == cur && HasTest(Now(), frame.value.testbb)
      modifies this
      ensures pos <= |src|
      ensures result == Ok ==> at <= |src| && Through(src, old(Now()), old(pos), inner, at) && pos == TokenAt(src, at).next
      ensures result == Ok && frame.None? ==>
                TokenAt(src, at).sym == SymEof && Now() == Finish(inner) && old(pos) <= pos && Closed(src, old(pos), pos)
      ensures result == Ok && frame.Some? ==>
                && TokenAt(src, at).sym == SymEndLoop && HasTest(inner, frame.value.testbb)
                && Now() == CloseLoop(inner, frame.value.testbb, frame.value.oldbb, pos)
                && old(pos) < pos && Closed(src, old(pos), pos - 1)
      ensures result == ExtraBracket ==> frame.None? && exists k :: old(pos) <= k <= |src| && Depth(src, old(pos), k) < 0
      ensures result == MissingBracket ==>
                old(pos) <= |src| && NeverNegative(src, old(pos), |src|) && (frame.Some? || Depth(src, old(pos), |src|) > 0)
      decreases |src| - pos, 0
    {
      ghost var s0, p0, p := Now(), pos, pos;
      var cursym, curvalue, nextsym, nextvalue := SymNone, 0, SymNone, 0;
      inner, at := s0, p0;
      NothingYet(src, s0, p0);
      while cursym != SymEof && cursym != SymEndLoop
        invariant p0 <= p <= pos <= |src| && Through(src, s0, p0, Now(), p) && Closed(src, p0, p)
        invariant if cursym == SymNone then p == pos && nextsym == SymNone
                  else Current(src, p, cursym, curvalue, nextsym, nextvalue, pos)
        decreases |src| - p, if cursym == SymNone then 1 else 0
      {
        ghost var t := TokenAt(src, p);
        if cursym == SymLoop {
          result := CompileLoop(s0, p0, p);
          if result != Ok {
            return result, inner, at;
          }
          p := pos;
        } else if cursym != SymNone {
          CompileSymbol(cursym, curvalue, s0, p0, p);
          p := t.next;
        }
        pos, cursym, curvalue, nextsym, nextvalue := NextSymbol(src, pos, nextsym, nextvalue, nextvalue, p);
      }
      inner, at := Now(), p;
      result := EndOfLoop(frame, cursym == SymEndLoop, s0, p0, p);
    }

    /** The straight symbol at `p`. */
    method CompileSymbol(cursym: Symbol, curvalue: int, ghost s0: Build, ghost p0: nat, ghost p: nat)
      requires p0 <= p <= |src| && Through(src, s0, p0, Now(), p) && Closed(src, p0, p)
      requires Straight(cursym) && TokenAt(src, p).sym == cursym && (Foldable(cursym) ==> TokenAt(src, p).value == curvalue)
      modifies this
      ensures Through(src, s0, p0, Now(), TokenAt(src, p).next) && Closed(src, p0, TokenAt(src, p).next) && pos == old(pos)
    {
      StraightStep(src, s0, p0, Now(), p);
      EmitSymbol(cursym, curvalue, TokenAt(src, p));
      StraightDepth(src, p0, p);
    }

    /** The loop that starts at the symbol at `p`. */
    method CompileLoop(ghost s0: Build, ghost p0: nat, ghost p: nat) returns (result: Result)
      requires p0 <= p < pos <= |src| && Through(src, s0, p0, Now(), p) && Closed(src, p0, p)
      requires TokenAt(src, p).sym == SymLoop && TokenAt(src, p).next == pos
      modifies this
      ensures pos <= |src| && result != ExtraBracket
      ensures result == Ok ==> Through(src, s0, p0, Now(), pos) && Closed(src, p0, pos) && old(pos) < pos
      ensures result == MissingBracket ==> NeverNegative(src, p0, |src|) && Depth(src, p0, |src|) > 0
      decreases |src| - pos, 1
    {
      ghost var before := Now();
      ghost var entered, q := OpenLoop(before, pos), pos;
      OpenIsReady(src, before, p);
      OpenHasTest(before, pos);
      var frame := BeginLoop();
      assert Now() == entered && pos == q;
      ghost var inner, at;
      result, inner, at := ReadLoop(Some(frame));
      LoopReturns(src, s0, p0, before, p, q, result, inner, at, Now(), pos);
    }

    /** The end of a loop body or of the program. */
    method EndOfLoop(frame: Option<Frame>, closing: bool, ghost s0: Build, ghost p0: nat, ghost p: nat) returns (result: Result)
      requires p0 <= p <= pos <= |src| && Through(src, s0, p0, Now(), p) && Closed(src, p0, p)
      requires TokenAt(src, p).sym == (if closing then SymEndLoop else SymEof) && TokenAt(src, p).next == pos
      requires frame.Some? ==> frame.value.oldbb == s0.cur && HasTest(s0, frame.value.testbb)
      modifies this
      ensures pos == old(pos)
      ensures result == Ok && frame.None? ==> !closing && Now() == Finish(old(Now())) && Closed(src, p0, pos)
      ensures result == Ok && frame.Some? ==>
                && closing && HasTest(old(Now()), frame.value.testbb)
                && Now() == CloseLoop(old(Now()), frame.value.testbb, frame.value.oldbb, pos)
                && p0 < pos && Closed(src, p0, pos - 1)
      ensures result == ExtraBracket ==> frame.None? && exists k :: p0 <= k <= |src| && Depth(src, p0, k) < 0
      ensures result == MissingBracket ==> frame.Some? && NeverNegative(src, p0, |src|)
    {
      TokenDepth(src, p);
      if closing {
        if frame.None? {
          ExtraFound(src, p0, p);
          return ExtraBracket;
        }
        ClosedJoins(src, p0, p, pos - 1);
        TestUntouched(src, s0, p0, Now(), p, frame.value.testbb);
        EndLoop(frame.value);
        return Ok;
      }
      ClosedJoins(src, p0, p, |src|);
      blocks := blocks[cur := blocks[cur].(term := Br(END))];
      result := if frame.Some? then MissingBracket else Ok;
    }

    /** `parse`: succeeds exactly on sources whose brackets are balanced, and then every symbol has its code. */
    method Parse(ghost mem: nat) returns (result: Result)
      requires pos == 0 && Now() == Started(mem)
      modifies this
      ensures result == Ok <==> Balanced(src)
      ensures result == ExtraBracket <==> !NeverNegative(src, 0, |src|)
      ensures result == Ok ==> Program(src, blocks, places, mem)
    {
      ghost var s0 := Now();
      ghost var inner, at;
      result, inner, at := ReadLoop(None);
      if result == Ok {
        FinishCompletes(src, s0, inner, at);
        assert BlockGrows(s0.blocks[0], inner.blocks[0]);
      }
    }
  }

  /** Every symbol has its code, and the code for the first one stands behind the set-up of the head. */
  ghost predicate Program(src: string, blocks: seq<Block>, places: map<nat, Place>, mem: nat) {
    && Compiled(src, blocks, places) && 0 in places && places[0] == Place(0, 1, 1)
    && blocks != [] && blocks[0].code != [] && blocks[0].code[0] == Gep(1, 0, mem / 2)
  }

  lemma StraightDepth(src: string, p0: nat, p: nat)
    requires p0 <= p <= |src| && Closed(src, p0, p) && Straight(TokenAt(src, p).sym)
    ensures Closed(src, p0, TokenAt(src, p).next)
  {
    TokenDepth(src, p);
    ClosedJoins(src, p0, p, TokenAt(src, p).next);
  }

  /** Block `testbb` is a test block waiting for the end of its loop. */
  ghost predicate HasTest(s: Build, testbb: nat) {
    testbb < |s.blocks| && testbb != s.cur && |s.blocks[testbb].phis| == 1
  }

  lemma OpenHasTest(s: Build, next: nat)
    requires s.cur < |s.blocks|
    ensures HasTest(OpenLoop(s, next), |s.blocks|) && OpenLoop(s, next).cur == |s.blocks| + 1
  {
  }

  lemma TestUntouched(src: string, s0: Build, p0: nat, s: Build, p: nat, testbb: nat)
    requires Through(src, s0, p0, s, p) && HasTest(s0, testbb)
    ensures HasTest(s, testbb)
  {
  }

  /** A loop that does not end leaves the rest of the source without a closing bracket. */
  lemma LoopFails(src: string, p0: nat, p: nat)
    requires p0 <= p <= |src| && Closed(src, p0, p) && TokenAt(src, p).sym == SymLoop && NeverNegative(src, TokenAt(src, p).next, |src|)
    ensures NeverNegative(src, p0, |src|) && Depth(src, p0, |src|) > 0
  {
    TokenDepth(src, p);
    var q := TokenAt(src, p).next;
    ClosedJoins(src, p0, p, q - 1);
    assert Depth(src, q - 1, q) == Depth(src, q - 1, q - 1) + 1;
    var i := q - 1;
    forall k | i <= k <= |src|
      ensures Depth(src, i, k) >= if k == i then 0 else 1
    {
      if k > i {
        DepthsAdd(src, i, q, k);
      }
    }
    ClosedJoins(src, p0, i, |src|);
  }

  lemma LoopCloses(src: string, p0: nat, p: nat, end: nat)
    requires p0 <= p <= |src| && Closed(src, p0, p) && TokenAt(src, p).sym == SymLoop
    requires TokenAt(src, p).next < end <= |src| && Closed(src, TokenAt(src, p).next, end - 1) && src[end - 1] == ']'
    ensures Closed(src, p0, end) && Paired(src, TokenAt(src, p).next - 1, end - 1)
  {
    TokenDepth(src, p);
    var q := TokenAt(src, p).next;
    ClosedJoins(src, p0, p, q - 1);
    PartnersMeet(src, q - 1, end - 1);
    ClosedJoins(src, p0, q - 1, end);
  }

  lemma LoopCompiled(src: string, s0: Build, p0: nat, s: Build, p: nat, inner: Build, at: nat)
    requires p0 <= p <= |src| && Through(src, s0, p0, s, p) && Closed(src, p0, p) && TokenAt(src, p).sym == SymLoop
    requires at <= |src| && Through(src, OpenLoop(s, TokenAt(src, p).next), TokenAt(src, p).next, inner, at)
    requires TokenAt(src, at).sym == SymEndLoop && TokenAt(src, p).next < TokenAt(src, at).next
    requires Closed(src, TokenAt(src, p).next, TokenAt(src, at).next - 1)
    ensures HalfLoop(src, s, p, inner, at)
    ensures Through(src, s0, p0, Behind(src, s, inner, at), TokenAt(src, at).next) && Closed(src, p0, TokenAt(src, at).next)
  {
    TokenDepth(src, at);
    LoopCloses(src, p0, p, TokenAt(src, at).next);
    LoopStep(src, s0, p0, s, p, inner, at);
  }

  /** What the caller of `ReadLoop` learns about its own progress. */
  lemma LoopReturns(src: string, s0: Build, p0: nat, s: Build, p: nat, q: nat, result: Result, inner: Build, at: nat, after: Build, end: nat)
    requires p0 <= p <= |src| && Through(src, s0, p0, s, p) && Closed(src, p0, p) && TokenAt(src, p).sym == SymLoop
    requires q == TokenAt(src, p).next && result != ExtraBracket
    requires result == Ok ==> at <= |src| && Through(src, OpenLoop(s, q), q, inner, at) && end == TokenAt(src, at).next
    requires result == Ok ==>
               && TokenAt(src, at).sym == SymEndLoop && HasTest(inner, |s.blocks|) && q < end && Closed(src, q, end - 1)
               && after == CloseLoop(inner, |s.blocks|, |s.blocks| + 1, end)
    requires result == MissingBracket ==> NeverNegative(src, q, |src|)
    ensures result == Ok ==> Through(src, s0, p0, after, end) && Closed(src, p0, end)
    ensures result == MissingBracket ==> NeverNegative(src, p0, |src|) && Depth(src, p0, |src|) > 0
  {
    if result == Ok {
      LoopCompiled(src, s0, p0, s, p, inner, at);
    } else {
      LoopFails(src, p0, p);
    }
  }

  lemma ExtraFound(src: string, p0: nat, p: nat)
    requires p0 <= p <= |src| && Closed(src, p0, p) && TokenAt(src, p).sym == SymEndLoop
    ensures Depth(src, p0, TokenAt(src, p).next) < 0
  {
    TokenDepth(src, p);
    ClosedJoins(src, p0, p, TokenAt(src, p).next - 1);
  }

  function Started(mem: nat): Build {
    Build([Block([], [Gep(1, 0, mem / 2)], Open), Block([], [], Ret)], 0, 1, 2, map[0 := Place(0, 1, 1)])
  }
}
