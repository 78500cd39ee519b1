/** The BrainF language: the one-character-at-a-time machine, bracket matching, and the symbols of the compiler. */
module BrainFSource {
  import opened Options

  // ---------------------------------------------------------------- the reference machine

  /** Cells hold 0..255; a cell never written holds 0. */
  type Tape = map<int, int>

  function Cell(tape: Tape, at: int): int {
    if at in tape then tape[at] else 0
  }

  /** What both machines share with the outside world, and the tape. */
  datatype World = World(tape: Tape, input: seq<nat>, output: seq<int>)

  datatype Source = Source(pc: nat, head: int, world: World)

  /** `getchar` as the language sees it: the next byte, 255 at the end of the input. */
  function Read(w: World, at: int): World {
    if w.input == [] then w.(tape := w.tape[at := 255])
    else w.(tape := w.tape[at := w.input[0] % 256], input := w.input[1..])
  }

  function Write(w: World, at: int): World {
    w.(output := w.output + [Cell(w.tape, at)])
  }

  function AddTo(w: World, at: int, v: int): World {
    w.(tape := w.tape[at := (Cell(w.tape, at) + v) % 256])
  }

  /** One character. A bracket without partner ends the run. */
  function Step(src: string, s: Source): Source
    requires s.pc < |src|
  {
    var next := s.(pc := s.pc + 1);
    match src[s.pc]
    case ',' => next.(world := Read(s.world, s.head))
    case '.' => next.(world := Write(s.world, s.head))
    case '-' => next.(world := AddTo(s.world, s.head, -1))
    case '+' => next.(world := AddTo(s.world, s.head, 1))
    case '<' => next.(head := s.head - 1)
    case '>' => next.(head := s.head + 1)
    case '[' =>
      if Cell(s.world.tape, s.head) != 0 then next
      else (match Forward(src, s.pc + 1, 0) case Some(j) => s.(pc := j + 1) case None => s.(pc := |src|))
    case ']' => (match Backward(src, s.pc, 0) case Some(i) => s.(pc := i) case None => s.(pc := |src|))
    case _ => next
  }

  predicate Halted(src: string, s: Source) {
    s.pc >= |src|
  }

  function Run(src: string, s: Source, n: nat): Source
    decreases n
  {
    if n == 0 || Halted(src, s) then s else Run(src, Step(src, s), n - 1)
  }

  lemma {:induction false} RunsAdd(src: string, s: Source, m: nat, n: nat)
    ensures Run(src, Run(src, s, m), n) == Run(src, s, m + n)
    decreases m
  {
    if m > 0 && !Halted(src, s) {
      RunsAdd(src, Step(src, s), m - 1, n);
    }
  }

  // ---------------------------------------------------------------- brackets

  /** The `]` that closes a `[` standing before `k`, when `d` inner loops are open at `k`. */
  function Forward(src: string, k: nat, d: nat): Option<nat>
    requires k <= |src|
    ensures Forward(src, k, d).Some? ==> k <= Forward(src, k, d).value < |src|
    decreases |src| - k
  {
    if k == |src| then None
    else if src[k] == '[' then Forward(src, k + 1, d + 1)
    else if src[k] == ']' then if d == 0 then Some(k) else Forward(src, k + 1, d - 1)
    else Forward(src, k + 1, d)
  }

  /** The `[` that opens a `]` standing at or after `k`, when `d` inner loops are open to the right of `k`. */
  function Backward(src: string, k: nat, d: nat): Option<nat>
    requires k <= |src|
    ensures Backward(src, k, d).Some? ==> Backward(src, k, d).value < k
  {
    if k == 0 then None
    else if src[k - 1] == ']' then Backward(src, k - 1, d + 1)
    else if src[k - 1] == '[' then if d == 0 then Some(k - 1) else Backward(src, k - 1, d - 1)
    else Backward(src, k - 1, d)
  }

  /** Opened minus closed brackets in `src[a..b]`. */
  function Depth(src: string, a: nat, b: nat): int
    requires a <= b <= |src|
  {
    if a == b then 0
    else Depth(src, a, b - 1) + if src[b - 1] == '[' then 1 else if src[b - 1] == ']' then -1 else 0
  }

  /** No bracket of `src[a..b]` closes one that stands before it. */
  ghost predicate NeverNegative(src: string, a: nat, b: nat)
    requires a <= b <= |src|
  {
    forall k | a <= k <= b :: Depth(src, a, k) >= 0
  }

  /** All brackets of `src[a..b]` have their partner there. */
  ghost predicate Closed(src: string, a: nat, b: nat)
    requires a <= b <= |src|
  {
    NeverNegative(src, a, b) && Depth(src, a, b) == 0
  }

  ghost predicate Balanced(src: string) {
    Closed(src, 0, |src|)
  }

  lemma {:induction false} DepthsAdd(src: string, a: nat, b: nat, c: nat)
    requires a <= b <= c <= |src|
    ensures Depth(src, a, c) == Depth(src, a, b) + Depth(src, b, c)
    decreases c
  {
    if b < c {
      DepthsAdd(src, a, b, c - 1);
    }
  }

  lemma ClosedJoins(src: string, a: nat, b: nat, c: nat)
    requires a <= b <= c <= |src| && Closed(src, a, b) && NeverNegative(src, b, c)
    ensures NeverNegative(src, a, c) && Depth(src, a, c) == Depth(src, b, c)
  {
    DepthsAdd(src, a, b, c);
    forall k | a <= k <= c
      ensures Depth(src, a, k) >= 0
    {
      if k > b {
        DepthsAdd(src, a, b, k);
      }
    }
  }

  /** A stretch whose inner brackets are closed is scanned over in both directions. */
  lemma {:induction false} ForwardOver(src: string, k: nat, b: nat, d: nat)
    requires k <= b < |src| && src[b] == ']' && d + Depth(src, k, b) == 0
    requires forall m | k <= m <= b :: d + Depth(src, k, m) >= 0
    ensures Forward(src, k, d) == Some(b)
    decreases b - k
  {
    if k < b {
      DepthsAdd(src, k, k + 1, b);
      assert Depth(src, k, k + 1) == Depth(src, k, k) + (if src[k] == '[' then 1 else if src[k] == ']' then -1 else 0);
      assert d + Depth(src, k, k + 1) >= 0;
      var next := k + 1;
      forall m | next <= m <= b
        ensures d + Depth(src, k, next) + Depth(src, next, m) >= 0
      {
        DepthsAdd(src, k, next, m);
      }
      ForwardOver(src, k + 1, b, d + Depth(src, k, k + 1));
    }
  }

  lemma {:induction false} BackwardOver(src: string, a: nat, k: nat, d: nat)
    requires 0 < a <= k <= |src| && src[a - 1] == '[' && Depth(src, a, k) == d
    requires NeverNegative(src, a, k)
    ensures Backward(src, k, d) == Some(a - 1)
    decreases k
  {
    if a < k {
      assert Depth(src, a, k - 1) >= 0;
      BackwardOver(src, a, k - 1, Depth(src, a, k - 1));
    }
  }

  /** The partners of a closed loop find each other. */
  lemma PartnersMeet(src: string, i: nat, j: nat)
    requires i < j < |src| && src[i] == '[' && src[j] == ']' && Closed(src, i + 1, j)
    ensures Forward(src, i + 1, 0) == Some(j) && Backward(src, j, 0) == Some(i)
    ensures Depth(src, i, j + 1) == 0 && NeverNegative(src, i, j + 1)
  {
    ForwardOver(src, i + 1, j, 0);
    BackwardOver(src, i + 1, j, 0);
    assert Depth(src, i, i + 1) == Depth(src, i, i) + 1;
    forall k | i <= k <= j
      ensures Depth(src, i, k) == if k == i then 0 else 1 + Depth(src, i + 1, k)
    {
      if k > i {
        DepthsAdd(src, i, i + 1, k);
      }
    }
  }

  // ---------------------------------------------------------------- symbols

  datatype Symbol = SymNone | SymRead | SymWrite | SymMove | SymChange | SymLoop | SymEndLoop | SymEof

  function SymbolOf(c: char): Symbol {
    match c
    case ',' => SymRead
    case '.' => SymWrite
    case '<' => SymMove
    case '>' => SymMove
    case '-' => SymChange
    case '+' => SymChange
    case '[' => SymLoop
    case ']' => SymEndLoop
    case _ => SymNone
  }

  function DirectionOf(c: char): int {
    if c == '-' || c == '<' then -1 else 1
  }

  /** A symbol, its folded value, and where the source continues after it. */
  datatype Token = Token(sym: Symbol, value: int, next: nat)

  /** The symbol at or after `p`. */
  function TokenAt(src: string, p: nat): (t: Token)
    requires p <= |src|
    ensures p <= t.next <= |src| && t.sym != SymNone && (t.sym != SymEof ==> p < t.next)
    ensures t.sym == SymEof ==> t.next == |src|
    decreases |src| - p
  {
    if p == |src| then Token(SymEof, 0, p)
    else
      var sym := SymbolOf(src[p]);
      if sym == SymNone then TokenAt(src, p + 1)
      else if sym == SymMove || sym == SymChange then Folded(src, sym, DirectionOf(src[p]), p + 1)
      else Token(sym, 0, p + 1)
  }

  /** A run of one symbol worth `value` so far, continued at `p`. */
  function Folded(src: string, sym: Symbol, value: int, p: nat): (t: Token)
    requires p <= |src|
    ensures p <= t.next <= |src| && t.sym == sym
    ensures value - (t.next - p) <= t.value <= value + (t.next - p)
    decreases |src| - p
  {
    if p == |src| then Token(sym, value, p)
    else if SymbolOf(src[p]) == SymNone then Folded(src, sym, value, p + 1)
    else if SymbolOf(src[p]) == sym then Folded(src, sym, value + DirectionOf(src[p]), p + 1)
    else Token(sym, value, p)
  }

  /** The reference machine over a run of moves: one move. */
  lemma {:induction false} FoldedMoves(src: string, value: int, p: nat, s: Source)
    requires p <= |src| && s.pc == p
    ensures var t := Folded(src, SymMove, value, p);
            Run(src, s, t.next - p) == s.(pc := t.next, head := s.head + t.value - value)
    decreases |src| - p
  {
    if p < Folded(src, SymMove, value, p).next {
      FoldedMoves(src, if SymbolOf(src[p]) == SymNone then value else value + DirectionOf(src[p]), p + 1, Step(src, s));
    }
  }

  /** The reference machine over a run of changes of a cell that has been written: one addition. */
  lemma {:induction false} FoldedChanges(src: string, value: int, p: nat, s: Source)
    requires p <= |src| && s.pc == p && s.head in s.world.tape && 0 <= s.world.tape[s.head] < 256
    ensures var t := Folded(src, SymChange, value, p);
            Run(src, s, t.next - p) == s.(pc := t.next, world := AddTo(s.world, s.head, t.value - value))
    decreases |src| - p
  {
    var t := Folded(src, SymChange, value, p);
    if p == t.next {
      assert s.world.tape[s.head := s.world.tape[s.head]] == s.world.tape;
    } else if SymbolOf(src[p]) == SymNone {
      FoldedChanges(src, value, p + 1, Step(src, s));
    } else {
      var v := DirectionOf(src[p]);
      FoldedChanges(src, value + v, p + 1, Step(src, s));
      AddsAdd(s.world, s.head, v, t.value - value - v);
    }
  }

  lemma AddsAdd(w: World, at: int, a: int, b: int)
    ensures AddTo(AddTo(w, at, a), at, b) == AddTo(w, at, a + b)
  {
    assert w.tape[at := (Cell(w.tape, at) + a) % 256][at := (Cell(w.tape, at) + a + b) % 256] ==
           w.tape[at := (Cell(w.tape, at) + a + b) % 256];
  }

  /** What a symbol does to the state, brackets excepted. */
  function Effect(sym: Symbol, value: int, next: nat, s: Source): Source {
    match sym
    case SymRead => s.(pc := next, world := Read(s.world, s.head))
    case SymWrite => s.(pc := next, world := Write(s.world, s.head))
    case SymMove => s.(pc := next, head := s.head + value)
    case SymChange => s.(pc := next, world := AddTo(s.world, s.head, value))
    case _ => s.(pc := next)
  }

  predicate Straight(sym: Symbol) {
    sym == SymRead || sym == SymWrite || sym == SymMove || sym == SymChange
  }

  predicate Bracket(sym: Symbol) {
    sym == SymLoop || sym == SymEndLoop
  }

  lemma RunStarts(src: string, s: Source, s': Source, n: nat, r: Source)
    requires s.pc < |src| && Step(src, s) == s' && Run(src, s', n) == r
    ensures Run(src, s, n + 1) == r
  {
  }

  lemma MoveStart(src: string, s: Source, v: int)
    requires s.pc < |src| && src[s.pc] == (if v < 0 then '<' else '>') && v in {-1, 1}
    ensures var t := Folded(src, SymMove, v, s.pc + 1); Run(src, s, t.next - s.pc) == s.(pc := t.next, head := s.head + t.value)
  {
    var s' := s.(pc := s.pc + 1, head := s.head + v);
    var t := Folded(src, SymMove, v, s.pc + 1);
    FoldedMoves(src, v, s.pc + 1, s');
    RunStarts(src, s, s', t.next - s.pc - 1, s.(pc := t.next, head := s.head + t.value));
  }

  lemma ChangeStart(src: string, s: Source, v: int)
    requires s.pc < |src| && src[s.pc] == (if v < 0 then '-' else '+') && v in {-1, 1}
    ensures var t := Folded(src, SymChange, v, s.pc + 1);
            Run(src, s, t.next - s.pc) == s.(pc := t.next, world := AddTo(s.world, s.head, t.value))
  {
    var s' := s.(pc := s.pc + 1, world := AddTo(s.world, s.head, v));
    var t := Folded(src, SymChange, v, s.pc + 1);
    FoldedChanges(src, v, s.pc + 1, s');
    AddsAdd(s.world, s.head, v, t.value - v);
    RunStarts(src, s, s', t.next - s.pc - 1, s.(pc := t.next, world := AddTo(s.world, s.head, t.value)));
  }

  /** The reference machine from `p` on: a straight symbol has its folded effect; a bracket or the end is reached
      with nothing changed. */
  lemma {:induction false} TokenRun(src: string, s: Source)
    requires s.pc <= |src|
    ensures var t := TokenAt(src, s.pc);
            && (Straight(t.sym) ==> Run(src, s, t.next - s.pc) == Effect(t.sym, t.value, t.next, s))
            && (Bracket(t.sym) ==> src[t.next - 1] == (if t.sym == SymLoop then '[' else ']') &&
                                   Run(src, s, t.next - 1 - s.pc) == s.(pc := t.next - 1))
            && (t.sym == SymEof ==> Run(src, s, |src| - s.pc) == s.(pc := |src|))
    decreases |src| - s.pc
  {
    if s.pc < |src| {
      var t, p := TokenAt(src, s.pc), s.pc;
      var s' := Step(src, s);
      var sym := SymbolOf(src[p]);
      if sym == SymNone {
        TokenRun(src, s');
      } else if sym == SymMove {
        MoveStart(src, s, DirectionOf(src[p]));
      } else if sym == SymChange {
        ChangeStart(src, s, DirectionOf(src[p]));
      } else if Straight(sym) {
        assert Run(src, s, 1) == Run(src, s', 0);
      }
    }
  }

  /** Skipping one symbol other than a bracket keeps the depth. */
  lemma {:induction false} TokenDepth(src: string, p: nat)
    requires p <= |src|
    ensures var t := TokenAt(src, p);
            && (!Bracket(t.sym) ==> Closed(src, p, t.next))
            && (Bracket(t.sym) ==> Closed(src, p, t.next - 1) && src[t.next - 1] == (if t.sym == SymLoop then '[' else ']'))
    decreases |src| - p
  {
    if p < |src| {
      var t := TokenAt(src, p);
      var sym := SymbolOf(src[p]);
      assert Depth(src, p, p) == 0;
      assert !Bracket(sym) ==> Depth(src, p, p + 1) == 0;
      if sym == SymNone {
        TokenDepth(src, p + 1);
        ClosedJoins(src, p, p + 1, if Bracket(t.sym) then t.next - 1 else t.next);
      } else if sym == SymMove || sym == SymChange {
        FoldedDepth(src, sym, DirectionOf(src[p]), p + 1);
        ClosedJoins(src, p, p + 1, t.next);
      }
    }
  }

  lemma {:induction false} FoldedDepth(src: string, sym: Symbol, value: int, p: nat)
    requires p <= |src| && (sym == SymMove || sym == SymChange)
    ensures Closed(src, p, Folded(src, sym, value, p).next)
    decreases |src| - p
  {
    var t := Folded(src, sym, value, p);
    assert Depth(src, p, p) == 0;
    if p < t.next {
      FoldedDepth(src, sym, if SymbolOf(src[p]) == SymNone then value else value + DirectionOf(src[p]), p + 1);
      assert Depth(src, p, p + 1) == 0;
      ClosedJoins(src, p, p + 1, t.next);
    }
  }
}
