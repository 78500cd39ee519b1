/** Which slot of a bundle drives the program counter, and where linked calls lead. */
module ControlFlow {
  import opened Options
  import opened Relocation

  datatype Mux = RegisterTarget | BranchTarget

  datatype FlowType = Direct | IfTrue | IfFalse

  /** The control-flow fields of a slot.  The mux and the branch target are left as they are by other instructions. */
  datatype Control = Control(flow: bool, mux: Mux, kind: FlowType, btarg: Word)

  /** Bits 23 to 29, lowest first, of a call. */
  const ICALL: seq<bool> := [false, false, false, false, false, true, true]

  predicate IsCall(w: Word) {
    Op(w) == ICALL
  }

  /** `inst_parse`, as far as control flow is concerned.  Break, nop and the empty word have bit 29 clear. */
  function Decode(w: Word, before: Control): Control {
    if w[29] && w[28] && w[27] then Control(true, BranchTarget, if w[26] then IfFalse else IfTrue, Btarg(w))
    else if w[29] && w[28] then
      if !w[26] && !w[25] && !w[24] && !w[23] then Control(true, BranchTarget, Direct, Btarg(w)) // icall
      else if !w[26] && !w[25] && !w[24] && w[23] then Control(false, before.mux, Direct, Btarg(w)) // call
      else if !w[26] && !w[25] && w[24] && w[23] then Control(true, RegisterTarget, Direct, Btarg(w)) // goto
      else if !w[26] && !w[25] && w[24] && !w[23] then Control(true, BranchTarget, Direct, Btarg(w)) // igoto
      else if w[26] && w[25] && w[24] && !w[23] then Control(false, before.mux, Direct, Btarg(w)) // preld
      else Control(false, before.mux, Direct, before.btarg)
    else Control(false, before.mux, Direct, before.btarg)
  }

  /** `bcond_val`: the branch register that bits 23 to 25 of a word name. */
  function Condition(w: Word, preg: seq<bool>): bool
    requires |preg| == 8
  {
    NatBound(w[23..26]);
    assert Pow2(3) == 8;
    preg[ToNat(w[23..26])]
  }

  /** A bundle of `size` words at `pc`, padded with empty slots, and what the slots hold from before. */
  datatype Bundle = Bundle(pc: nat, size: nat, words: seq<Word>, before: seq<Control>) {
    predicate Valid() {
      0 < size <= 4 && |words| == |before| == 4
    }

    function Slot(i: nat): Control
      requires Valid() && i < 4
    {
      Decode(words[i], before[i])
    }

    /** The empty slots have program counter 0. */
    function SlotPc(i: nat): nat {
      if i < size then pc else 0
    }

    function TargetOf(i: nat): nat
      requires Valid() && i < 4
    {
      (SlotPc(i) + ToNat(Slot(i).btarg)) % WRAP
    }
  }

  /** What the program counter is taken from: the end of the bundle, a slot's branch target, or a register. */
  datatype Source = Behind | Target(slot: nat) | Register

  /** Only slot 0 decides, but a conditional branch not taken passes the decision to the conditions of slots 1 and 2. */
  function SourceOf(b: Bundle, preg: seq<bool>): (s: Source)
    requires b.Valid() && |preg| == 8
    ensures s.Target? ==> s.slot < 3
  {
    var c := b.Slot(0);
    if !c.flow then Behind
    else if c.mux == RegisterTarget then Register
    else match c.kind
      case Direct => Target(0)
      case IfTrue =>
        if Condition(b.words[0], preg) then Target(0)
        else if Condition(b.words[1], preg) then Target(1)
        else if Condition(b.words[2], preg) then Target(2)
        else Behind
      case IfFalse => if !Condition(b.words[0], preg) then Target(0) else Behind
  }

  /** The control-flow write back of a cycle; `register` is the value of the register that slot 0 names first. */
  method WriteBackPc(b: Bundle, preg: seq<bool>, register: nat) returns (pc: nat)
    requires b.Valid() && |preg| == 8
    ensures pc == match SourceOf(b, preg)
                  case Behind => (b.pc + b.size) % WRAP
                  case Target(i) => b.TargetOf(i)
                  case Register => register
  {
    pc := (b.pc + b.size) % WRAP;
    var slots: seq<Control> := [];
    for i := 0 to 4
      invariant |slots| == i && forall k | 0 <= k < i :: slots[k] == b.Slot(k)
    {
      slots := slots + [Decode(b.words[i], b.before[i])];
    }
    if slots[0].flow {
      match slots[0].mux {
        case BranchTarget =>
          match slots[0].kind {
            case Direct =>
              pc := (b.SlotPc(0) + ToNat(slots[0].btarg)) % WRAP;
            case IfTrue =>
              if Condition(b.words[0], preg) {
                pc := (b.SlotPc(0) + ToNat(slots[0].btarg)) % WRAP;
              } else {
                if Condition(b.words[1], preg) {
                  pc := (b.SlotPc(1) + ToNat(slots[1].btarg)) % WRAP;
                } else {
                  if Condition(b.words[2], preg) {
                    pc := (b.SlotPc(2) + ToNat(slots[2].btarg)) % WRAP;
                  }
                }
              }
            case IfFalse =>
              if !Condition(b.words[0], preg) {
                pc := (b.SlotPc(0) + ToNat(slots[0].btarg)) % WRAP;
              }
          }
        case RegisterTarget =>
          pc := register;
      }
    }
  }

  // ---------------------------------------------------------------- the decision, from the bits of the words

  function Bit(b: bool): nat {
    if b then 1 else 0
  }

  /** The number in bits 23 to 25, which names a branch register. */
  function Named(w: Word): (r: nat)
    ensures r < 8
  {
    Bit(w[23]) + 2 * Bit(w[24]) + 4 * Bit(w[25])
  }

  lemma ConditionIsNamed(w: Word, preg: seq<bool>)
    requires |preg| == 8
    ensures Condition(w, preg) == preg[Named(w)]
  {
    var bits := w[23..26];
    assert bits == [w[23], w[24], w[25]];
    assert bits[1..] == [w[24], w[25]] && bits[1..][1..] == [w[25]] && [w[25]][1..] == [];
    assert ToNat([w[25]]) == Bit(w[25]);
    assert ToNat(bits[1..]) == Bit(w[24]) + 2 * Bit(w[25]);
  }

  /** A conditional branch in slot 0: bits 29 to 27 set.  With bit 26 clear it is taken if the branch register it names is
      set, with bit 26 set if that is clear.  Not taken, the former asks slots 1 and 2 in turn, whatever they hold, and the
      latter goes on behind the bundle. */
  lemma ConditionalBranch(b: Bundle, preg: seq<bool>)
    requires b.Valid() && |preg| == 8 && b.words[0][29] && b.words[0][28] && b.words[0][27]
    ensures var w, s := b.words[0], SourceOf(b, preg);
            && (s == Target(0) <==> preg[Named(w)] != w[26])
            && (s == Target(1) <==> !w[26] && !preg[Named(w)] && preg[Named(b.words[1])])
            && (s == Target(2) <==> !w[26] && !preg[Named(w)] && !preg[Named(b.words[1])] && preg[Named(b.words[2])])
            && s != Register
  {
    ConditionIsNamed(b.words[0], preg);
    ConditionIsNamed(b.words[1], preg);
    ConditionIsNamed(b.words[2], preg);
  }

  /** Anything else in slot 0: with bits 29 and 28 set and 27 clear, operations 0 and 2 lead to the branch target, operation
      3 to the register, and all others behind the bundle, as all words with bit 29 or 28 clear. */
  lemma DirectOperation(b: Bundle, preg: seq<bool>)
    requires b.Valid() && |preg| == 8 && !(b.words[0][29] && b.words[0][28] && b.words[0][27])
    ensures var w, s := b.words[0], SourceOf(b, preg);
            var op := Named(w) + 8 * Bit(w[26]);
            && (s == Target(0) <==> w[29] && w[28] && op in {0, 2})
            && (s == Register <==> w[29] && w[28] && op == 3)
            && s in {Behind, Target(0), Register}
  {
    OperationBits(b.words[0]);
  }

  lemma OperationBits(w: Word)
    ensures var op := Named(w) + 8 * Bit(w[26]);
            && (op == 0 <==> !w[26] && !w[25] && !w[24] && !w[23]) && (op == 1 <==> !w[26] && !w[25] && !w[24] && w[23])
            && (op == 2 <==> !w[26] && !w[25] && w[24] && !w[23]) && (op == 3 <==> !w[26] && !w[25] && w[24] && w[23])
            && (op == 14 <==> w[26] && w[25] && w[24] && !w[23])
  {
  }

  /** The number in bits 0 to 22, read with its sign. */
  function Displacement(w: Word): int {
    ToNat(w[..22]) - if w[22] then 0x40_0000 else 0
  }

  /** A branch of slot 0 leads to the start of the bundle plus the signed displacement in its word; slot 1 or 2 from there
      too if the bundle has that slot, and from address 0 if it is empty. */
  lemma TargetIsDisplaced(b: Bundle, i: nat)
    requires b.Valid() && i < 4 && b.words[i][29] && b.words[i][28]
    requires b.words[i][27] || Named(b.words[i]) + 8 * Bit(b.words[i][26]) in {0, 1, 2, 3, 14}
    ensures b.TargetOf(i) == ((if i < b.size then b.pc else 0) + Displacement(b.words[i])) % WRAP
  {
    var w := b.words[i];
    OperationBits(w);
    assert b.Slot(i).btarg == Btarg(w);
    BtargIsSigned(w);
    AddSigned(b.SlotPc(i), ToNat(Btarg(w)), Displacement(w));
  }

  lemma BtargIsSigned(w: Word)
    ensures ToNat(Btarg(w)) == Displacement(w) + if w[22] then WRAP else 0
  {
    var high := seq(10, _ => w[22]);
    Pow2Values();
    NatSplits(w[..22], high);
    NatExtremes(high);
    assert AllAre(high, w[22]);
    NatBound(w[..22]);
  }

  lemma AddSigned(pc: nat, t: nat, d: int)
    requires t == d || t == d + WRAP
    ensures (pc + t) % WRAP == (pc + d) % WRAP
  {
    if t == d + WRAP {
      assert (pc + d + WRAP) % WRAP == (pc + d) % WRAP;
    }
  }

  // ---------------------------------------------------------------- linked calls

  /** The bundle after the linker has put the distance to byte address `value` into the call in slot `k`. */
  function LinkCall(b: Bundle, k: nat, value: nat): Bundle
    requires b.Valid() && k < b.size
  {
    b.(words := b.words[k := Fixed(R_PC23CALL, b.words[k], 4 * (b.pc + k), value, 0)])
  }

  /** Linking leaves the operation fields alone, so the call is still one, and the same slot drives the counter. */
  lemma LinkKeepsSource(b: Bundle, k: nat, value: nat, preg: seq<bool>)
    requires b.Valid() && k < b.size && |preg| == 8 && IsCall(b.words[k])
    ensures SourceOf(LinkCall(b, k, value), preg) == SourceOf(b, preg)
    ensures IsCall(LinkCall(b, k, value).words[k])
  {
    var w := b.words[k];
    var w2 := LinkCall(b, k, value).words[k];
    assert w2[23..] == w[23..];
    assert forall i | 23 <= i < 32 :: w2[i] == w[23..][i - 23] == w[i];
    assert w2[23..26] == w[23..26];
  }

  /** The counter is taken from a call only in slot 0, or from slot 1 or 2 behind a conditional branch in slot 0 that is
      not taken, if the call's own operation bits happen to name a branch register that is set. */
  lemma CallIsTaken(b: Bundle, k: nat, preg: seq<bool>)
    requires b.Valid() && k < b.size && |preg| == 8 && IsCall(b.words[k])
    ensures SourceOf(b, preg) == Target(k) <==>
              || k == 0
              || (k == 1 && UntakenBranch(b, preg) && preg[0])
              || (k == 2 && UntakenBranch(b, preg) && !Condition(b.words[1], preg) && preg[0])
  {
    var w := b.words[k];
    assert Op(w)[6] == w[29] && Op(w)[5] == w[28] && Op(w)[4] == w[27];
    assert Op(w)[3] == w[26] && Op(w)[2] == w[25] && Op(w)[1] == w[24] && Op(w)[0] == w[23];
    assert w[23..26] == [false, false, false];
    assert ToNat([false, false, false]) == 0 by {
      assert [false, false, false][1..] == [false, false] && [false, false][1..] == [false] && [false][1..] == [];
    }
    assert Condition(w, preg) == preg[0];
  }

  predicate UntakenBranch(b: Bundle, preg: seq<bool>)
    requires b.Valid() && |preg| == 8
  {
    b.Slot(0).flow && b.Slot(0).mux == BranchTarget && b.Slot(0).kind == IfTrue && !Condition(b.words[0], preg)
  }

  /** The target decoded from a linked call, added to the start of its bundle, is the address meant less the slot number
      if and only if the distance fits in 23 signed bits; in other slots than 0 it is never the address meant. */
  lemma LinkedTarget(b: Bundle, k: nat, value: nat)
    requires b.Valid() && k < b.size && IsCall(b.words[k]) && b.pc + k < 0x4000_0000 && value < WRAP
    ensures var at, d := LinkCall(b, k, value).TargetOf(k), value / 4 - (b.pc + k);
            && (at == (value / 4 - k) % WRAP <==> -0x40_0000 <= d < 0x40_0000)
            && (k > 0 ==> at != value / 4)
  {
    var d := value / 4 - (b.pc + k);
    var w := Call23(b.words[k], WordOf(d));
    assert LinkCall(b, k, value).words[k] == w;
    DecodedCall(b.words[k], WordOf(d), b.before[k]);
    CallLands(b.words[k], b.pc, d);
    assert b.pc + d == value / 4 - k;
    if k > 0 {
      LowBitsLand(b.words[k], d);
      NotOffBySlot(b.pc, ToNat(Btarg(w)), d, k);
    }
  }

  lemma DecodedCall(inst: Word, d: Word, c: Control)
    requires IsCall(inst)
    ensures Decode(Call23(inst, d), c) == Control(true, BranchTarget, Direct, Btarg(Call23(inst, d)))
  {
    var w := Call23(inst, d);
    assert forall i | 23 <= i < 30 :: w[i] == inst[i] == Op(inst)[i - 23];
  }

  lemma NotOffBySlot(pc: nat, t: nat, d: int, k: nat)
    requires t % 0x40_0000 == d % 0x40_0000 && 0 < k < 4
    ensures (pc + t) % WRAP != pc + d + k
  {
    assert (pc + t) % WRAP % 0x40_0000 == (pc + t) % 0x40_0000;
    assert (pc + t) % 0x40_0000 == (pc + t % 0x40_0000) % 0x40_0000 == (pc + d) % 0x40_0000;
    DifferentRests(pc + d, k);
  }

  lemma DifferentRests(x: int, k: nat)
    requires 0 < k < 4
    ensures (x + k) % 0x40_0000 != x % 0x40_0000
  {
  }

  /** A linked call takes the processor to its target if and only if it stands in slot 0 and the distance fits in 23
      signed bits. */
  lemma CallReachesTarget(b: Bundle, k: nat, value: nat, preg: seq<bool>)
    requires b.Valid() && k < b.size && |preg| == 8 && IsCall(b.words[k]) && b.pc + k < 0x4000_0000 && value < WRAP
    ensures var after := LinkCall(b, k, value);
            SourceOf(after, preg) == Target(k) && after.TargetOf(k) == value / 4 <==>
            k == 0 && -0x40_0000 <= value / 4 - b.pc < 0x40_0000
  {
    LinkKeepsSource(b, k, value, preg);
    LinkedTarget(b, k, value);
    if k == 0 {
      CallIsTaken(b, 0, preg);
      SmallAddress(value);
    }
  }

  lemma SmallAddress(value: nat)
    requires value < WRAP
    ensures (value / 4 - 0) % WRAP == value / 4
  {
  }

  /** In any other slot, the processor goes on behind the bundle, unless slot 0 holds a branch itself. */
  lemma CallElsewhereIsSkipped(b: Bundle, k: nat, value: nat, preg: seq<bool>)
    requires b.Valid() && 0 < k < b.size && |preg| == 8 && IsCall(b.words[k])
    ensures !b.Slot(0).flow ==> SourceOf(LinkCall(b, k, value), preg) == Behind
    ensures k == 3 ==> SourceOf(LinkCall(b, k, value), preg) != Target(k)
  {
    LinkKeepsSource(b, k, value, preg);
  }
}
