/** The intermediate code the BrainF compiler emits, and the machine that runs it. */
module BrainFCode {
  import opened BrainFSource

  type Reg = nat

  datatype Instr =
    | GetChar(dst: Reg)
    | Trunc(dst: Reg, src: Reg)
    | Store(value: Reg, addr: Reg)
    | Load(dst: Reg, addr: Reg)
    | SExt(dst: Reg, src: Reg)
    | PutChar(src: Reg)
    | Gep(dst: Reg, base: Reg, offset: int)
    | Add(dst: Reg, src: Reg, imm: int)
    | IsZero(dst: Reg, src: Reg)

  datatype Incoming = Incoming(value: Reg, from: nat)

  /** `reserved` is the number of incoming edges the node is made for. */
  datatype Phi = Phi(dst: Reg, reserved: nat, incoming: seq<Incoming>)

  datatype Term = Open | Br(target: nat) | CondBr(cond: Reg, ifTrue: nat, ifFalse: nat) | Ret

  datatype Block = Block(phis: seq<Phi>, code: seq<Instr>, term: Term)

  const EMPTY: Block := Block([], [], Open)

  /** Pointers are positions on the tape, conditions are 0 or 1. */
  type Regs = map<Reg, int>

  function Value(regs: Regs, r: Reg): int {
    if r in regs then regs[r] else 0
  }

  datatype Machine = Machine(block: nat, idx: nat, regs: Regs, world: World, halted: bool)

  /** An i8 read as a signed number. */
  function Signed8(v: int): (r: int)
    ensures -128 <= r < 128 && (r - v) % 256 == 0
  {
    if v % 256 < 128 then v % 256 else v % 256 - 256
  }

  function Exec(i: Instr, m: Machine): Machine {
    var n := m.(idx := m.idx + 1);
    match i
    case GetChar(d) =>
      if m.world.input == [] then n.(regs := m.regs[d := -1])
      else n.(regs := m.regs[d := m.world.input[0] % 256], world := m.world.(input := m.world.input[1..]))
    case Trunc(d, s) => n.(regs := m.regs[d := Value(m.regs, s) % 256])
    case Store(v, a) => n.(world := m.world.(tape := m.world.tape[Value(m.regs, a) := Value(m.regs, v)]))
    case Load(d, a) => n.(regs := m.regs[d := Cell(m.world.tape, Value(m.regs, a))])
    case SExt(d, s) => n.(regs := m.regs[d := Signed8(Value(m.regs, s))])
    case PutChar(s) => n.(world := m.world.(output := m.world.output + [Value(m.regs, s) % 256]))
    case Gep(d, b, k) => n.(regs := m.regs[d := Value(m.regs, b) + k])
    case Add(d, s, k) => n.(regs := m.regs[d := (Value(m.regs, s) + k) % 256])
    case IsZero(d, s) => n.(regs := m.regs[d := if Value(m.regs, s) == 0 then 1 else 0])
  }

  function Pick(incoming: seq<Incoming>, from: nat, regs: Regs): int {
    if incoming == [] then 0
    else if incoming[0].from == from then Value(regs, incoming[0].value)
    else Pick(incoming[1..], from, regs)
  }

  /** All phi nodes of a block read the registers as they were before the jump. */
  function Merge(phis: seq<Phi>, from: nat, regs: Regs): Regs {
    if phis == [] then regs
    else Merge(phis[..|phis| - 1], from, regs)[Last(phis).dst := Pick(Last(phis).incoming, from, regs)]
  }

  function Last(phis: seq<Phi>): Phi
    requires phis != []
  {
    phis[|phis| - 1]
  }

  /** A jump to a block that does not exist stays put. */
  function Jump(blocks: seq<Block>, m: Machine, target: nat): Machine {
    if target < |blocks| then m.(block := target, idx := 0, regs := Merge(blocks[target].phis, m.block, m.regs)) else m
  }

  function MStep(blocks: seq<Block>, m: Machine): Machine {
    if m.halted || m.block >= |blocks| then m
    else
      var b := blocks[m.block];
      if m.idx < |b.code| then Exec(b.code[m.idx], m)
      else
        match b.term
        case Open => m
        case Br(t) => Jump(blocks, m, t)
        case CondBr(c, t, f) => Jump(blocks, m, if Value(m.regs, c) != 0 then t else f)
        case Ret => m.(halted := true)
  }

  function MRun(blocks: seq<Block>, m: Machine, n: nat): Machine
    decreases n
  {
    if n == 0 then m else MRun(blocks, MStep(blocks, m), n - 1)
  }

  lemma {:induction false} MRunsAdd(blocks: seq<Block>, m: Machine, a: nat, b: nat)
    ensures MRun(blocks, MRun(blocks, m, a), b) == MRun(blocks, m, a + b)
    decreases a
  {
    if a > 0 {
      MRunsAdd(blocks, MStep(blocks, m), a - 1, b);
    }
  }

  // ---------------------------------------------------------------- straight code

  /** The effect of instructions in sequence. */
  function ExecAll(code: seq<Instr>, m: Machine): Machine {
    if code == [] then m else ExecAll(code[1..], Exec(code[0], m))
  }

  /** Instructions that stand in the block where the machine is are executed in order. */
  lemma {:induction false} CodeRuns(blocks: seq<Block>, m: Machine, code: seq<Instr>)
    requires !m.halted && m.block < |blocks| && m.idx + |code| <= |blocks[m.block].code|
    requires blocks[m.block].code[m.idx..m.idx + |code|] == code
    ensures MRun(blocks, m, |code|) == ExecAll(code, m)
    ensures var e := ExecAll(code, m); e.block == m.block && e.idx == m.idx + |code| && !e.halted
    decreases |code|
  {
    if code != [] {
      var all := blocks[m.block].code;
      assert code[0] == all[m.idx..m.idx + |code|][0] == all[m.idx];
      assert code[1..] == all[m.idx..m.idx + |code|][1..] == all[m.idx + 1..m.idx + 1 + |code[1..]|];
      CodeRuns(blocks, Exec(code[0], m), code[1..]);
    }
  }

  /** The code the compiler emits for a straight symbol with the head in `h`, using registers from `r` on. */
  function CodeFor(sym: Symbol, value: int, h: Reg, r: Reg): seq<Instr> {
    match sym
    case SymRead => [GetChar(r), Trunc(r + 1, r), Store(r + 1, h)]
    case SymWrite => [Load(r, h), SExt(r + 1, r), PutChar(r + 1)]
    case SymMove => [Gep(r, h, value)]
    case SymChange => [Load(r, h), Add(r + 1, r, value % 256), Store(r + 1, h)]
    case _ => []
  }

  /** The register that holds the head afterwards. */
  function HeadAfter(sym: Symbol, h: Reg, r: Reg): Reg {
    if sym == SymMove then r else h
  }

  ghost predicate TapeOk(tape: Tape) {
    forall k | k in tape :: 0 <= tape[k] < 256
  }

  lemma ExecOne(a: Instr, code: seq<Instr>, m: Machine)
    ensures ExecAll([a] + code, m) == ExecAll(code, Exec(a, m))
  {
    assert ([a] + code)[1..] == code;
  }

  lemma ExecThree(a: Instr, b: Instr, c: Instr, m: Machine)
    ensures ExecAll([a, b, c], m) == Exec(c, Exec(b, Exec(a, m)))
  {
    ExecOne(a, [b, c], m);
    ExecOne(b, [c], Exec(a, m));
    ExecOne(c, [], Exec(b, Exec(a, m)));
    assert [a] + [b, c] == [a, b, c] && [b] + [c] == [b, c] && [c] + [] == [c];
  }

  /** The emitted code has the effect of the symbol, whatever the other registers hold. */
  lemma CodeMeansSymbol(sym: Symbol, value: int, next: nat, h: Reg, r: Reg, m: Machine, s: Source)
    requires Straight(sym) && h < r && m.world == s.world && Value(m.regs, h) == s.head && TapeOk(s.world.tape)
    ensures var e, t := ExecAll(CodeFor(sym, value, h, r), m), Effect(sym, value, next, s);
            e.world == t.world && Value(e.regs, HeadAfter(sym, h, r)) == t.head && TapeOk(t.world.tape)
  {
    match sym
    case SymMove =>
      ExecOne(Gep(r, h, value), [], m);
      assert [Gep(r, h, value)] + [] == [Gep(r, h, value)];
    case SymRead => ReadCode(h, r, m, s);
    case SymWrite => WriteCode(h, r, m, s);
    case SymChange => ChangeCode(value, h, r, m, s);
  }

  lemma ReadCode(h: Reg, r: Reg, m: Machine, s: Source)
    requires h < r && m.world == s.world && Value(m.regs, h) == s.head && TapeOk(s.world.tape)
    ensures var e := ExecAll([GetChar(r), Trunc(r + 1, r), Store(r + 1, h)], m);
            e.world == Read(s.world, s.head) && Value(e.regs, h) == s.head && TapeOk(e.world.tape)
  {
    ExecThree(GetChar(r), Trunc(r + 1, r), Store(r + 1, h), m);
    var m1 := Exec(GetChar(r), m);
    var m2 := Exec(Trunc(r + 1, r), m1);
    assert Value(m2.regs, r + 1) == if s.world.input == [] then 255 else s.world.input[0] % 256;
    assert Value(m2.regs, h) == s.head;
  }

  lemma WriteCode(h: Reg, r: Reg, m: Machine, s: Source)
    requires h < r && m.world == s.world && Value(m.regs, h) == s.head && TapeOk(s.world.tape)
    ensures var e := ExecAll([Load(r, h), SExt(r + 1, r), PutChar(r + 1)], m);
            e.world == Write(s.world, s.head) && Value(e.regs, h) == s.head && TapeOk(e.world.tape)
  {
    ExecThree(Load(r, h), SExt(r + 1, r), PutChar(r + 1), m);
    var v := Cell(s.world.tape, s.head);
    assert 0 <= v < 256;
    var m1 := Exec(Load(r, h), m);
    var m2 := Exec(SExt(r + 1, r), m1);
    assert Value(m2.regs, r + 1) == Signed8(v);
  }

  lemma ChangeCode(value: int, h: Reg, r: Reg, m: Machine, s: Source)
    requires h < r && m.world == s.world && Value(m.regs, h) == s.head && TapeOk(s.world.tape)
    ensures var e := ExecAll([Load(r, h), Add(r + 1, r, value % 256), Store(r + 1, h)], m);
            e.world == AddTo(s.world, s.head, value) && Value(e.regs, h) == s.head && TapeOk(e.world.tape)
  {
    ExecThree(Load(r, h), Add(r + 1, r, value % 256), Store(r + 1, h), m);
    var v := Cell(s.world.tape, s.head);
    var m1 := Exec(Load(r, h), m);
    var m2 := Exec(Add(r + 1, r, value % 256), m1);
    assert Value(m2.regs, r + 1) == (v + value % 256) % 256 == (v + value) % 256;
    assert Value(m2.regs, h) == s.head;
  }
}
