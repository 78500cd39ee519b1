/** The compiled program and the source do the same: same input consumed, output, tape, head and termination. */
module BrainFMeaning {
  import opened Options
  import opened BrainFSource
  import opened BrainFCode
  import opened BrainFBuild
  import opened BrainFCompiler

  /** The machine stands where the code for the symbol at `s.pc` starts, in the same world. */
  ghost predicate Match(blocks: seq<Block>, places: map<nat, Place>, s: Source, m: Machine) {
    && s.pc in places && !m.halted && m.block == places[s.pc].block && m.idx == places[s.pc].idx
    && Value(m.regs, places[s.pc].head) == s.head && m.world == s.world && TapeOk(s.world.tape)
  }

  /** The machine is about to test the cell for the loop `k`, and the source stands at its opening bracket. */
  ghost predicate AtTest(k: Test, s: Source, m: Machine) {
    && s.pc == k.left && !m.halted && m.block == k.block && m.idx == 0
    && Value(m.regs, k.phi) == s.head && m.world == s.world && TapeOk(s.world.tape)
  }

  /** The program has come to its end on both sides. */
  ghost predicate Ended(src: string, places: map<nat, Place>, s: Source, m: Machine) {
    && s.pc == |src| && m.halted && m.world == s.world
    && exists p :: EndsWith(src, places, p, m.regs, s.head)
  }

  ghost predicate EndsWith(src: string, places: map<nat, Place>, p: nat, regs: Regs, head: int) {
    p <= |src| && TokenAt(src, p).sym == SymEof && p in places && Value(regs, places[p].head) == head
  }

  // ---------------------------------------------------------------- one symbol

  lemma StraightMatches(src: string, blocks: seq<Block>, places: map<nat, Place>, s: Source, m: Machine) returns (k: nat, j: nat)
    requires Match(blocks, places, s, m) && CodeAt(src, blocks, places, s.pc) && Straight(TokenAt(src, s.pc).sym)
    ensures k >= 1 && j >= 1 && Match(blocks, places, Run(src, s, k), MRun(blocks, m, j))
  {
    var t, l := TokenAt(src, s.pc), places[s.pc];
    var r: nat :| StraightAt(blocks, places, l, t, r);
    var code := CodeFor(t.sym, t.value, l.head, r);
    TokenRun(src, s);
    CodeRuns(blocks, m, code);
    CodeMeansSymbol(t.sym, t.value, t.next, l.head, r, m, s);
    k, j := t.next - s.pc, |code|;
  }

  /** Testing the cell takes both sides into the loop or behind it. */
  lemma TestMatches(src: string, blocks: seq<Block>, places: map<nat, Place>, t: Test, s: Source, m: Machine)
    requires TestOk(src, blocks, places, t) && AtTest(t, s, m)
    ensures Match(blocks, places, Step(src, s), MRun(blocks, m, 3))
  {
    PartnersMeet(src, t.left, t.right);
    var m1, m2 := MStep(blocks, m), MStep(blocks, MStep(blocks, m));
    var cell := Cell(s.world.tape, s.head);
    assert m1.regs == m.regs[t.cell := cell] && m1.idx == 1 && m1.block == t.block;
    assert m2.regs == m1.regs[t.cond := if cell == 0 then 1 else 0] && m2.idx == 2 && m2.block == t.block;
    var m3 := MStep(blocks, m2);
    assert MRun(blocks, m, 3) == m3;
    if cell == 0 {
      LeaveTest(blocks, m2, t.exit, t.after, t.phi, t.block);
    } else {
      assert Merge(blocks[t.body].phis, t.block, m2.regs) == m2.regs;
    }
  }

  /** A single phi node takes its value from the edge the machine came along. */
  lemma LeaveTest(blocks: seq<Block>, m: Machine, target: nat, dst: Reg, value: Reg, from: nat)
    requires target < |blocks| && blocks[target].phis == [Phi(dst, 1, [Incoming(value, from)])] && m.block == from
    ensures Jump(blocks, m, target) == m.(block := target, idx := 0, regs := m.regs[dst := Value(m.regs, value)])
  {
    var phis := blocks[target].phis;
    assert phis[..|phis| - 1] == [];
    assert Merge(phis, from, m.regs) == Merge([], from, m.regs)[dst := Pick([Incoming(value, from)], from, m.regs)];
  }

  lemma EnterTest(src: string, blocks: seq<Block>, places: map<nat, Place>, t: Test, m: Machine, second: bool)
    requires TestOk(src, blocks, places, t) && m.block == if second then t.from2 else t.from1
    ensures Jump(blocks, m, t.block) ==
            m.(block := t.block, idx := 0, regs := m.regs[t.phi := Value(m.regs, if second then t.h2 else t.h1)])
  {
    var phis := blocks[t.block].phis;
    var incoming := phis[0].incoming;
    assert phis[..|phis| - 1] == [];
    assert incoming[1..] == [Incoming(t.h2, t.from2)];
    assert Pick(incoming[1..], t.from2, m.regs) == Value(m.regs, t.h2);
    assert Merge(phis, m.block, m.regs) == Merge([], m.block, m.regs)[t.phi := Pick(incoming, m.block, m.regs)];
  }

  lemma LoopMatches(src: string, blocks: seq<Block>, places: map<nat, Place>, s: Source, m: Machine) returns (k: nat, j: nat)
    requires Match(blocks, places, s, m) && CodeAt(src, blocks, places, s.pc) && TokenAt(src, s.pc).sym == SymLoop
    ensures k >= 1 && j >= 1 && Match(blocks, places, Run(src, s, k), MRun(blocks, m, j))
  {
    var t: Test :| OpensTest(src, blocks, places, places[s.pc], TokenAt(src, s.pc), t);
    JumpsIn(src, blocks, places, s, m, t);
    BracketRun(src, s);
    k, j := t.left - s.pc + 1, 4;
    TestFollows(src, blocks, places, t, s, k - 1, m);
  }

  lemma JumpsIn(src: string, blocks: seq<Block>, places: map<nat, Place>, s: Source, m: Machine, t: Test)
    requires s.pc <= |src| && Match(blocks, places, s, m) && places[s.pc].block < |blocks|
    requires OpensTest(src, blocks, places, places[s.pc], TokenAt(src, s.pc), t)
    requires places[s.pc].idx == |blocks[places[s.pc].block].code|
    ensures AtTest(t, s.(pc := t.left), MStep(blocks, m))
  {
    EnterTest(src, blocks, places, t, m, false);
  }

  lemma TestFollows(src: string, blocks: seq<Block>, places: map<nat, Place>, t: Test, s: Source, n: nat, m: Machine)
    requires TestOk(src, blocks, places, t) && AtTest(t, Run(src, s, n), MStep(blocks, m))
    ensures Match(blocks, places, Run(src, s, n + 1), MRun(blocks, m, 4))
  {
    TestMatches(src, blocks, places, t, Run(src, s, n), MStep(blocks, m));
    RunOneMore(src, s, n);
    MRunsAdd(blocks, m, 1, 3);
    assert MRun(blocks, m, 1) == MStep(blocks, m);
  }

  lemma RunOneMore(src: string, s: Source, n: nat)
    requires !Halted(src, Run(src, s, n))
    ensures Run(src, s, n + 1) == Step(src, Run(src, s, n))
  {
    RunsAdd(src, s, n, 1);
    assert Run(src, Run(src, s, n), 1) == Run(src, Step(src, Run(src, s, n)), 0);
  }

  lemma EndLoopMatches(src: string, blocks: seq<Block>, places: map<nat, Place>, s: Source, m: Machine) returns (k: nat, j: nat)
    requires Match(blocks, places, s, m) && CodeAt(src, blocks, places, s.pc) && TokenAt(src, s.pc).sym == SymEndLoop
    ensures k >= 1 && j >= 1 && Match(blocks, places, Run(src, s, k), MRun(blocks, m, j))
  {
    var t: Test :| ClosesTest(src, blocks, places, places[s.pc], TokenAt(src, s.pc), t);
    JumpsBack(src, blocks, places, s, m, t);
    GoesBack(src, s, t.left, t.right, t.right - s.pc);
    k, j := t.right - s.pc + 2, 4;
    TestFollows(src, blocks, places, t, s, k - 1, m);
  }

  lemma GoesBack(src: string, s: Source, i: nat, j: nat, n: nat)
    requires s.pc <= |src| && TokenAt(src, s.pc).sym == SymEndLoop && TokenAt(src, s.pc).next == j + 1 && n == j - s.pc
    requires Paired(src, i, j)
    ensures Run(src, s, n + 1) == s.(pc := i)
  {
    BracketRun(src, s);
    BackFrom(src, s, n, i, j);
  }

  lemma JumpsBack(src: string, blocks: seq<Block>, places: map<nat, Place>, s: Source, m: Machine, t: Test)
    requires s.pc <= |src| && Match(blocks, places, s, m) && places[s.pc].block < |blocks|
    requires ClosesTest(src, blocks, places, places[s.pc], TokenAt(src, s.pc), t)
    requires places[s.pc].idx == |blocks[places[s.pc].block].code|
    ensures AtTest(t, s.(pc := t.left), MStep(blocks, m))
  {
    EnterTest(src, blocks, places, t, m, true);
  }

  /** The reference machine goes back from a closing bracket to its partner. */
  lemma BackFrom(src: string, s: Source, n: nat, i: nat, j: nat)
    requires Paired(src, i, j) && Run(src, s, n) == s.(pc := j)
    ensures Run(src, s, n + 1) == s.(pc := i)
  {
    StepBack(src, s.(pc := j), i, j);
    RunThen(src, s, n, s.(pc := j), s.(pc := i));
  }

  lemma BracketRun(src: string, s: Source)
    requires s.pc <= |src| && Bracket(TokenAt(src, s.pc).sym)
    ensures Run(src, s, TokenAt(src, s.pc).next - 1 - s.pc) == s.(pc := TokenAt(src, s.pc).next - 1)
  {
    TokenRun(src, s);
  }

  lemma RunThen(src: string, s: Source, n: nat, s1: Source, s2: Source)
    requires Run(src, s, n) == s1 && s1.pc < |src| && Step(src, s1) == s2
    ensures Run(src, s, n + 1) == s2
  {
    RunOneMore(src, s, n);
  }

  lemma StepBack(src: string, s: Source, i: nat, j: nat)
    requires Paired(src, i, j) && s.pc == j
    ensures Step(src, s) == s.(pc := i)
  {
    PartnersMeet(src, i, j);
  }

  lemma EofEnds(src: string, blocks: seq<Block>, places: map<nat, Place>, s: Source, m: Machine) returns (k: nat)
    requires Match(blocks, places, s, m) && CodeAt(src, blocks, places, s.pc) && TokenAt(src, s.pc).sym == SymEof
    ensures k >= 1 && Ended(src, places, Run(src, s, k), MRun(blocks, m, 2))
  {
    TokenRun(src, s);
    k := |src| - s.pc + 1;
    RunsAdd(src, s, |src| - s.pc, 1);
    HaltedStays(src, s.(pc := |src|), 1);
    var m1 := MStep(blocks, m);
    assert m1 == m.(block := END, idx := 0);
    assert MRun(blocks, m, 2) == MStep(blocks, m1);
    assert EndsWith(src, places, s.pc, m.regs, s.head);
  }

  lemma HaltedStays(src: string, s: Source, n: nat)
    requires Halted(src, s)
    ensures Run(src, s, n) == s
  {
  }

  lemma {:induction false} StaysHalted(blocks: seq<Block>, m: Machine, n: nat)
    requires m.halted
    ensures MRun(blocks, m, n) == m
  {
    if n > 0 {
      StaysHalted(blocks, m, n - 1);
    }
  }

  // ---------------------------------------------------------------- whole runs

  ghost predicate Together(src: string, blocks: seq<Block>, places: map<nat, Place>, s: Source, m: Machine) {
    Match(blocks, places, s, m) || Ended(src, places, s, m)
  }

  /** From where they agree, both sides take at least one step to where they agree again. */
  lemma Advance(src: string, blocks: seq<Block>, places: map<nat, Place>, s: Source, m: Machine) returns (k: nat, j: nat)
    requires Compiled(src, blocks, places) && Together(src, blocks, places, s, m)
    ensures k >= 1 && j >= 1 && Together(src, blocks, places, Run(src, s, k), MRun(blocks, m, j))
  {
    if Ended(src, places, s, m) {
      k, j := 1, 1;
    } else {
      assert CodeAt(src, blocks, places, s.pc);
      var sym := TokenAt(src, s.pc).sym;
      if Straight(sym) {
        k, j := StraightMatches(src, blocks, places, s, m);
      } else if sym == SymLoop {
        k, j := LoopMatches(src, blocks, places, s, m);
      } else if sym == SymEndLoop {
        k, j := EndLoopMatches(src, blocks, places, s, m);
      } else {
        k := EofEnds(src, blocks, places, s, m);
        j := 2;
      }
    }
  }

  /** Both sides can be taken at least `n` steps further to a point where they agree. */
  lemma {:induction false} Lockstep(src: string, blocks: seq<Block>, places: map<nat, Place>, s: Source, m: Machine, n: nat)
    returns (k: nat, j: nat)
    requires Compiled(src, blocks, places) && Together(src, blocks, places, s, m)
    ensures k >= n && j >= n && Together(src, blocks, places, Run(src, s, k), MRun(blocks, m, j))
    decreases n
  {
    k, j := 0, 0;
    if n > 0 {
      var a, b := Advance(src, blocks, places, s, m);
      k, j := Lockstep(src, blocks, places, Run(src, s, a), MRun(blocks, m, b), n - 1);
      RunsAdd(src, s, a, k);
      MRunsAdd(blocks, m, b, j);
      k, j := a + k, b + j;
    }
  }

  /** All cells are zero at the start. */
  function StartSource(mem: nat, input: seq<nat>): (s: Source)
    ensures forall at: int :: Cell(s.world.tape, at) == 0
  {
    Source(0, mem / 2, World(map[], input, []))
  }

  function StartMachine(input: seq<nat>): (m: Machine)
    ensures forall at: int :: Cell(m.world.tape, at) == 0
  {
    Machine(0, 0, map[0 := 0], World(map[], input, []), false)
  }

  /** After the set-up instruction both sides agree; from there on they go in lockstep. */
  lemma FromTheStart(src: string, blocks: seq<Block>, places: map<nat, Place>, mem: nat, input: seq<nat>, n: nat) returns (k: nat, j: nat)
    requires Program(src, blocks, places, mem)
    ensures k >= n && j >= n && Together(src, blocks, places, Run(src, StartSource(mem, input), k), MRun(blocks, StartMachine(input), j))
  {
    var s, m := StartSource(mem, input), StartMachine(input);
    var m1 := MStep(blocks, m);
    assert m1.regs == m.regs[1 := mem / 2];
    assert Match(blocks, places, s, m1);
    k, j := Lockstep(src, blocks, places, s, m1, n);
    MRunsAdd(blocks, m, 1, j);
    assert MRun(blocks, m, 1) == m1;
    j := 1 + j;
  }

  /** A source that ends does so exactly when its compiled program ends, in the same world with the head in the
      same place. */
  lemma SameTermination(src: string, blocks: seq<Block>, places: map<nat, Place>, mem: nat, input: seq<nat>, n: nat)
    requires Program(src, blocks, places, mem)
    ensures Halted(src, Run(src, StartSource(mem, input), n)) ==>
              exists j: nat :: Ended(src, places, Run(src, StartSource(mem, input), n), MRun(blocks, StartMachine(input), j))
    ensures MRun(blocks, StartMachine(input), n).halted ==>
              exists k: nat :: Ended(src, places, Run(src, StartSource(mem, input), k), MRun(blocks, StartMachine(input), n))
  {
    var s, m := StartSource(mem, input), StartMachine(input);
    var k, j := FromTheStart(src, blocks, places, mem, input, n);
    if Halted(src, Run(src, s, n)) {
      RunsAdd(src, s, n, k - n);
      HaltedStays(src, Run(src, s, n), k - n);
      var i := SourceEnded(src, blocks, places, Run(src, s, k), MRun(blocks, m, j));
      MRunsAdd(blocks, m, j, i);
    }
    if MRun(blocks, m, n).halted {
      MRunsAdd(blocks, m, n, j - n);
      StaysHalted(blocks, MRun(blocks, m, n), j - n);
    }
  }

  /** Where the source has ended and both agree, the machine needs a few steps at most. */
  lemma SourceEnded(src: string, blocks: seq<Block>, places: map<nat, Place>, s: Source, m: Machine) returns (i: nat)
    requires Compiled(src, blocks, places) && Together(src, blocks, places, s, m) && Halted(src, s)
    ensures Ended(src, places, s, MRun(blocks, m, i))
  {
    i := 0;
    if Match(blocks, places, s, m) {
      assert CodeAt(src, blocks, places, s.pc);
      var k := EofEnds(src, blocks, places, s, m);
      HaltedStays(src, s, k);
      i := 2;
    }
  }

  lemma {:induction false} OutputGrows(src: string, s: Source, n: nat)
    ensures s.world.output <= Run(src, s, n).world.output
    decreases n
  {
    if n > 0 && !Halted(src, s) {
      OutputGrows(src, Step(src, s), n - 1);
    }
  }

  lemma {:induction false} MOutputGrows(blocks: seq<Block>, m: Machine, n: nat)
    ensures m.world.output <= MRun(blocks, m, n).world.output
    decreases n
  {
    if n > 0 {
      MOutputGrows(blocks, MStep(blocks, m), n - 1);
    }
  }

  /** Whether or not the program ends: whatever one side has written after any number of steps, the other side
      comes to write too. */
  lemma SameOutput(src: string, blocks: seq<Block>, places: map<nat, Place>, mem: nat, input: seq<nat>, n: nat)
    requires Program(src, blocks, places, mem)
    ensures exists j: nat :: Run(src, StartSource(mem, input), n).world.output <= MRun(blocks, StartMachine(input), j).world.output
    ensures exists k: nat :: MRun(blocks, StartMachine(input), n).world.output <= Run(src, StartSource(mem, input), k).world.output
  {
    var s, m := StartSource(mem, input), StartMachine(input);
    var k, j := FromTheStart(src, blocks, places, mem, input, n);
    OutputsSoFar(src, s, n, k);
    MOutputsSoFar(blocks, m, n, j);
    assert Run(src, s, k).world == MRun(blocks, m, j).world;
  }

  lemma OutputsSoFar(src: string, s: Source, n: nat, k: nat)
    requires n <= k
    ensures Run(src, s, n).world.output <= Run(src, s, k).world.output
  {
    RunsAdd(src, s, n, k - n);
    OutputGrows(src, Run(src, s, n), k - n);
  }

  lemma MOutputsSoFar(blocks: seq<Block>, m: Machine, n: nat, k: nat)
    requires n <= k
    ensures MRun(blocks, m, n).world.output <= MRun(blocks, m, k).world.output
  {
    MRunsAdd(blocks, m, n, k - n);
    MOutputGrows(blocks, MRun(blocks, m, n), k - n);
  }
}
