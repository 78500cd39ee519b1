/** Relocation by the linker and its reading by the processor: long immediates and call targets.

    A word is the list of its 32 bits, lowest first, so that masks and shifts are slices; sums and differences are
    taken on the numbers the bits stand for. */
module Relocation {
  import opened Options

  type Word = w: seq<bool> | |w| == 32 witness seq(32, _ => false)

  const WRAP: nat := 0x1_0000_0000

  // ---------------------------------------------------------------- bits and numbers

  function ToNat(bits: seq<bool>): nat {
    if bits == [] then 0 else (if bits[0] then 1 else 0) + 2 * ToNat(bits[1..])
  }

  function FromNat(v: nat, n: nat): (bits: seq<bool>)
    ensures |bits| == n
  {
    if n == 0 then [] else [v % 2 == 1] + FromNat(v / 2, n - 1)
  }

  /** A number as a 32-bit word; what does not fit is dropped. */
  function WordOf(v: int): Word {
    FromNat(v % WRAP, 32)
  }

  function Pow2(n: nat): nat {
    if n == 0 then 1 else 2 * Pow2(n - 1)
  }

  lemma {:induction false} FromToNat(bits: seq<bool>)
    ensures FromNat(ToNat(bits), |bits|) == bits
  {
    if bits != [] {
      FromToNat(bits[1..]);
      assert bits == [bits[0]] + bits[1..];
    }
  }

  lemma {:induction false} ToFromNat(v: nat, n: nat)
    requires v < Pow2(n)
    ensures ToNat(FromNat(v, n)) == v
  {
    if n > 0 {
      ToFromNat(v / 2, n - 1);
      var bits := FromNat(v, n);
      assert bits[1..] == FromNat(v / 2, n - 1);
    }
  }

  lemma {:induction false} NatBound(bits: seq<bool>)
    ensures ToNat(bits) < Pow2(|bits|)
  {
    if bits != [] {
      NatBound(bits[1..]);
    }
  }

  lemma {:induction false} NatSplits(low: seq<bool>, high: seq<bool>)
    ensures ToNat(low + high) == ToNat(low) + Pow2(|low|) * ToNat(high)
  {
    if low == [] {
      assert low + high == high;
    } else {
      NatSplits(low[1..], high);
      assert (low + high)[1..] == low[1..] + high;
      DoubleTimes(Pow2(|low| - 1), ToNat(high));
    }
  }

  lemma DoubleTimes(a: nat, b: nat)
    ensures 2 * (a * b) == (2 * a) * b
  {
  }

  predicate AllAre(bits: seq<bool>, b: bool) {
    forall i | 0 <= i < |bits| :: bits[i] == b
  }

  /** Bits all 0 are the least number, bits all 1 the greatest, and no others are. */
  lemma {:induction false} NatExtremes(bits: seq<bool>)
    ensures AllAre(bits, false) <==> ToNat(bits) == 0
    ensures AllAre(bits, true) <==> ToNat(bits) == Pow2(|bits|) - 1
  {
    if bits != [] {
      var rest := bits[1..];
      NatExtremes(rest);
      NatBound(rest);
      assert bits == [bits[0]] + rest;
      assert forall b: bool :: AllAre(bits, b) <==> bits[0] == b && AllAre(rest, b);
    }
  }

  lemma Pow2Values()
    ensures Pow2(10) == 1024 && Pow2(22) == 0x400000 && Pow2(32) == WRAP
  {
    assert Pow2(8) == 256;
    assert Pow2(16) == 256 * 256;
    assert Pow2(24) == 256 * 256 * 256;
  }

  // ---------------------------------------------------------------- the linker

  datatype Kind = R_32 | R_PC23GOTO | R_PC23CALL | R_IMM9 | R_IMM23 | R_PC23PRELOAD

  function Or(a: Word, b: Word): Word {
    seq(32, i requires 0 <= i < 32 => a[i] || b[i])
  }

  /** `(value & 0x1FF) << 12`: the low 9 bits in places 12 to 20. */
  function Low9(value: Word): Word {
    Zeros(12) + value[..9] + Zeros(11)
  }

  /** `(value & ~0x1FF) >> 9`: the high 23 bits in the low places. */
  function High23(value: Word): Word {
    value[9..] + Zeros(9)
  }

  function Zeros(n: nat): (z: seq<bool>)
    ensures |z| == n
  {
    seq(n, _ => false)
  }

  /** A call with the low 23 bits of the distance `d` in place of its own. */
  function Call23(inst: Word, d: Word): Word {
    d[..23] + inst[23..]
  }

  /** `(value >> 2) - (instr_addr >> 2)` */
  function Distance(instAddr: nat, value: nat): Word {
    WordOf(value / 4 - instAddr / 4)
  }

  /** `fixup`: overwrites one word of the image. */
  method Fixup(kind: Kind, image: array<Word>, at: nat, instAddr: nat, value: nat, addend: int)
    requires at < image.Length
    modifies image
    ensures image[..] == old(image[..])[at := Fixed(kind, old(image[at]), instAddr, value, addend)]
  {
    match kind {
      case R_32 =>
        var addr := (ToNat(image[at]) + value + addend) % WRAP;
        image[at] := WordOf(addr / 4);
      case R_PC23GOTO =>
      case R_PC23CALL =>
        image[at] := Call23(image[at], Distance(instAddr, value));
      case R_IMM9 =>
        var newInst := Or(image[at], Low9(WordOf(value + addend)));
        OrTwice(image[at], Low9(WordOf(value + addend)));
        image[at] := Or(image[at], newInst);
      case R_IMM23 =>
        var newInst := Or(image[at], High23(WordOf(value + addend)));
        OrTwice(image[at], High23(WordOf(value + addend)));
        image[at] := Or(image[at], newInst);
      case R_PC23PRELOAD =>
    }
  }

  lemma OrTwice(a: Word, b: Word)
    ensures Or(a, Or(a, b)) == Or(a, b)
  {
  }

  function Fixed(kind: Kind, inst: Word, instAddr: nat, value: nat, addend: int): Word {
    match kind
    case R_32 => WordOf((ToNat(inst) + value + addend) % WRAP / 4)
    case R_PC23GOTO => inst
    case R_PC23CALL => Call23(inst, Distance(instAddr, value))
    case R_IMM9 => Or(inst, Low9(WordOf(value + addend)))
    case R_IMM23 => Or(inst, High23(WordOf(value + addend)))
    case R_PC23PRELOAD => inst
  }

  // ---------------------------------------------------------------- immediates in the processor

  /** The operation field, bits 23 to 29. */
  function Op(w: Word): seq<bool> {
    w[23..30]
  }

  /** 0x2a and 0x2b, lowest bit first. */
  const IMML: seq<bool> := [false, true, false, true, false, true, false]
  const IMMR: seq<bool> := [true, true, false, true, false, true, false]

  /** The 9-bit immediate, extended by bit 20. */
  function Extended(w: Word): Word {
    w[12..21] + seq(23, _ => w[20])
  }

  /** `(ext << 9) | isrc2`: the immediate made of the extension word and the 9 bits of the instruction. */
  function Long(ext: Word, w: Word): Word {
    w[12..21] + ext[..23]
  }

  /** The immediate of slot `i`, or none where the processor stops: an extension on the wrong side, or from both. */
  function ImmOf(slots: seq<Word>, i: nat): Option<Word>
    requires |slots| == 4 && i < 4
  {
    var fromRight := i < 3 && Op(slots[i + 1]) == IMML;
    var fromLeft := i > 0 && Op(slots[i - 1]) == IMMR;
    if (i == 0 && Op(slots[0]) == IMML) || (i == 3 && Op(slots[3]) == IMMR) || (fromLeft && fromRight) then None
    else if fromRight then Some(Long(slots[i + 1], slots[i]))
    else if fromLeft then Some(Long(slots[i - 1], slots[i]))
    else Some(Extended(slots[i]))
  }

  /** `SolveImm` */
  method SolveImm(slots: seq<Word>) returns (imms: Option<seq<Word>>)
    requires |slots| == 4
    ensures imms.Some? <==> forall i | 0 <= i < 4 :: ImmOf(slots, i).Some?
    ensures imms.Some? ==> |imms.value| == 4 && forall i | 0 <= i < 4 :: ImmOf(slots, i) == Some(imms.value[i])
  {
    var imm: seq<Word> := [];
    for i := 0 to 4
      invariant |imm| == i && forall j | 0 <= j < i :: ImmOf(slots, j) == Some(imm[j])
    {
      if i == 0 {
        if Op(slots[0]) == IMML {
          assert ImmOf(slots, 0).None?;
          return None;
        }
        imm := imm + [if Op(slots[1]) == IMML then Long(slots[1], slots[0]) else Extended(slots[0])];
      } else if i < 3 {
        var control := false;
        var x := Extended(slots[i]);
        if Op(slots[i + 1]) == IMML {
          x, control := Long(slots[i + 1], slots[i]), true;
        }
        if Op(slots[i - 1]) == IMMR {
          if control {
            assert ImmOf(slots, i).None?;
            return None;
          }
          x := Long(slots[i - 1], slots[i]);
        }
        imm := imm + [x];
      } else {
        if Op(slots[3]) == IMMR {
          assert ImmOf(slots, 3).None?;
          return None;
        }
        imm := imm + [if Op(slots[2]) == IMMR then Long(slots[2], slots[3]) else Extended(slots[3])];
      }
    }
    imms := Some(imm);
  }

  /** The processor stops exactly if an extension to the left stands in the first slot, one to the right in the last, or two
      extensions are for the same slot between them. */
  lemma StopsExactly(slots: seq<Word>)
    requires |slots| == 4
    ensures (exists i | 0 <= i < 4 :: ImmOf(slots, i).None?) <==>
            || Op(slots[0]) == IMML || Op(slots[3]) == IMMR
            || (Op(slots[0]) == IMMR && Op(slots[2]) == IMML) || (Op(slots[1]) == IMMR && Op(slots[3]) == IMML)
  {
    assert ImmOf(slots, 0).None? <==> Op(slots[0]) == IMML;
    assert ImmOf(slots, 3).None? <==> Op(slots[3]) == IMMR;
    assert ImmOf(slots, 1).None? <==> Op(slots[0]) == IMMR && Op(slots[2]) == IMML;
    assert ImmOf(slots, 2).None? <==> Op(slots[1]) == IMMR && Op(slots[3]) == IMML;
  }

  // ---------------------------------------------------------------- long immediates

  /** The fixups add the bits of the value to the two fields and leave the operation fields alone. */
  lemma FieldsFixed(inst: Word, ext: Word, value: Word)
    ensures Long(Or(ext, High23(value)), Or(inst, Low9(value))) == Or(Long(ext, inst), value)
    ensures Op(Or(inst, Low9(value))) == Op(inst) && Op(Or(ext, High23(value))) == Op(ext)
  {
  }

  /** The slots of a bundle after linking: the 9 bits go to slot `i`, the 23 bits to the extension in slot `e`. */
  function Linked(slots: seq<Word>, i: nat, e: nat, value: nat, addend: int): seq<Word>
    requires |slots| == 4 && i < 4 && e < 4
  {
    slots[i := Fixed(R_IMM9, slots[i], 0, value, addend)][e := Fixed(R_IMM23, slots[e], 0, value, addend)]
  }

  /** Slot `e` extends the immediate of slot `i`. */
  predicate Extends(slots: seq<Word>, i: nat, e: nat)
    requires |slots| == 4
  {
    i < 4 && e < 4 && ((e == i + 1 && Op(slots[e]) == IMML) || (e + 1 == i && Op(slots[e]) == IMMR))
  }

  /** Linking a value into an extended immediate: the processor accepts the slot as before, and puts together exactly
      the bits of the value and those the fields held; so it reads the value itself if and only if the fields held no
      other bits. */
  lemma LinkedImmediate(slots: seq<Word>, i: nat, e: nat, value: nat, addend: int)
    requires |slots| == 4 && Extends(slots, i, e) && ImmOf(slots, i).Some?
    ensures var after, v := ImmOf(Linked(slots, i, e, value, addend), i), WordOf(value + addend);
            && after == Some(Or(ImmOf(slots, i).value, v))
            && (after == Some(v) <==> forall k | 0 <= k < 32 :: ImmOf(slots, i).value[k] ==> v[k])
  {
    var v := WordOf(value + addend);
    FieldsFixed(slots[i], slots[e], v);
    var after := Linked(slots, i, e, value, addend);
    SameChoice(slots, after, i, e);
    NoOtherBits(ImmOf(slots, i).value, v);
  }

  lemma NoOtherBits(a: Word, b: Word)
    ensures Or(a, b) == b <==> forall k | 0 <= k < 32 :: a[k] ==> b[k]
  {
    if Or(a, b) == b {
      forall k | 0 <= k < 32
        ensures a[k] ==> b[k]
      {
        assert Or(a, b)[k] == (a[k] || b[k]);
      }
    }
  }

  /** Which word extends slot `i` depends on the operation fields only. */
  lemma SameChoice(slots: seq<Word>, after: seq<Word>, i: nat, e: nat)
    requires |slots| == |after| == 4 && Extends(slots, i, e) && ImmOf(slots, i).Some?
    requires forall k | 0 <= k < 4 && k != i && k != e :: after[k] == slots[k]
    requires Op(after[i]) == Op(slots[i]) && Op(after[e]) == Op(slots[e])
    ensures ImmOf(slots, i) == Some(Long(slots[e], slots[i])) && ImmOf(after, i) == Some(Long(after[e], after[i]))
  {
  }

  /** With zeroed fields the value comes back, whatever it is. */
  lemma ZeroedFields(slots: seq<Word>, i: nat, e: nat, value: nat, addend: int)
    requires |slots| == 4 && Extends(slots, i, e) && ImmOf(slots, i).Some?
    requires AllAre(slots[i][12..21], false) && AllAre(slots[e][..23], false)
    ensures ImmOf(Linked(slots, i, e, value, addend), i) == Some(WordOf(value + addend))
  {
    LinkedImmediate(slots, i, e, value, addend);
    SameChoice(slots, slots, i, e);
    var before := Long(slots[e], slots[i]);
    forall k | 0 <= k < 32
      ensures !before[k]
    {
      assert before[k] == if k < 9 then slots[i][12..21][k] else slots[e][..23][k - 9];
    }
  }

  // ---------------------------------------------------------------- operations by number

  lemma BitsOfSeven(v: nat)
    requires v in {0x2a, 0x2b}
    ensures FromNat(v, 7) == if v == 0x2a then IMML else IMMR
  {
    var a, b := v / 2, v / 4;
    assert FromNat(v, 7) == [v % 2 == 1] + FromNat(a, 6);
    assert FromNat(a, 6) == [true] + FromNat(b, 5);
    assert FromNat(b, 5) == [false, true, false, true, false] by {
      assert b == 10;
      TenInFive(b);
    }
  }

  lemma TenInFive(b: nat)
    requires b == 10
    ensures FromNat(b, 5) == [false, true, false, true, false]
  {
    var c, d, e, z: nat := b / 2, b / 4, b / 8, b / 16;
    assert FromNat(z, 1) == [false];
    assert FromNat(e, 2) == [true] + FromNat(z, 1);
    assert FromNat(d, 3) == [false] + FromNat(e, 2);
    assert FromNat(c, 4) == [true] + FromNat(d, 3);
    assert FromNat(b, 5) == [false] + FromNat(c, 4);
  }

  /** The operation of a word is its number shifted down by 23 and masked with 0x7f; the two kinds of extension words are
      0x2a and 0x2b. */
  lemma OpIsNumber(w: Word)
    ensures ToNat(Op(w)) == ToNat(w) / 0x80_0000 % 128
    ensures Op(w) == IMML <==> ToNat(w) / 0x80_0000 % 128 == 0x2a
    ensures Op(w) == IMMR <==> ToNat(w) / 0x80_0000 % 128 == 0x2b
  {
    var op := Op(w);
    assert w == w[..23] + (op + w[30..]);
    NatSplits(w[..23], op + w[30..]);
    NatSplits(op, w[30..]);
    NatBound(w[..23]);
    NatBound(op);
    assert Pow2(7) == 128;
    Pow2Values();
    assert Pow2(23) == 2 * Pow2(22);
    ShiftedDown(ToNat(w), ToNat(w[..23]), ToNat(op), ToNat(w[30..]));
    FromToNat(op);
    BitsOfSeven(0x2a);
    BitsOfSeven(0x2b);
    ToFromNat(0x2a, 7);
    ToFromNat(0x2b, 7);
  }

  lemma ShiftedDown(w: nat, low: nat, op: nat, high: nat)
    requires w == low + 0x80_0000 * (op + 128 * high) && low < 0x80_0000 && op < 128
    ensures w / 0x80_0000 % 128 == op
  {
    RestOf(w, low, op + 128 * high, 0x80_0000);
    RestOf(op + 128 * high, op, high, 128);
  }

  // ---------------------------------------------------------------- short immediates

  /** The number of a 32-bit word read with its sign. */
  function Signed(v: int): int {
    if v % WRAP < 0x8000_0000 then v % WRAP else v % WRAP - WRAP
  }

  /** No slot extends the immediate of slot `i`. */
  predicate Unextended(slots: seq<Word>, i: nat)
    requires |slots| == 4
  {
    i < 4 && forall e | 0 <= e < 4 :: !Extends(slots, i, e)
  }

  /** Without an extension the immediate is the signed number of the slot's 9 bits: below 256 the number itself, and from
      256 on less 512. */
  lemma ShortImmediate(slots: seq<Word>, i: nat)
    requires |slots| == 4 && Unextended(slots, i) && ImmOf(slots, i).Some?
    ensures var v, x := ToNat(slots[i][12..21]), ImmOf(slots, i).value;
            v < 512 && ToNat(x) == if v < 256 then v else v + WRAP - 512
  {
    var w := slots[i];
    assert i < 3 ==> !Extends(slots, i, i + 1);
    assert i > 0 ==> !Extends(slots, i, i - 1);
    NineBits(w);
  }

  lemma NineBits(w: Word)
    ensures var v := ToNat(w[12..21]);
            && v < 512 && (w[20] <==> v >= 256)
            && ToNat(Extended(w)) == if v < 256 then v else v + WRAP - 512
  {
    var low := w[12..21];
    var high := seq(23, _ => w[20]);
    assert Pow2(9) == 512 && Pow2(8) == 256;
    NatBound(low);
    assert low == low[..8] + low[8..] && low[8..] == [w[20]];
    NatSplits(low[..8], low[8..]);
    NatBound(low[..8]);
    assert [w[20]][1..] == [];
    NatSplits(low, high);
    NatExtremes(high);
    assert AllAre(high, w[20]);
    Pow2Values();
    assert Pow2(23) == 2 * Pow2(22);
    assert !w[20] ==> !AllAre(high, true) || AllAre(high, false);
  }

  /** Round trip of a short immediate: the 9-bit fixup alone, on a field that is zero, is read back as the value if and
      only if that lies in -256..255. */
  lemma ShortRoundTrip(slots: seq<Word>, i: nat, value: nat, addend: int)
    requires |slots| == 4 && Unextended(slots, i) && ImmOf(slots, i).Some? && AllAre(slots[i][12..21], false)
    ensures var after := slots[i := Fixed(R_IMM9, slots[i], 0, value, addend)];
            ImmOf(after, i) == Some(WordOf(value + addend)) <==> -256 <= Signed(value + addend) < 256
  {
    var v := WordOf(value + addend);
    var w := Fixed(R_IMM9, slots[i], 0, value, addend);
    var after := slots[i := w];
    FieldTakesValue(slots[i], v);
    SameExtension(slots, after, i);
    ShortImmediate(after, i);
    NumberOfWord(value + addend);
    LowNine(v);
    SameNumber(ImmOf(after, i).value, value + addend);
    FitsInNine((value + addend) % WRAP, ToNat(v[..9]));
  }

  lemma FieldTakesValue(inst: Word, v: Word)
    requires AllAre(inst[12..21], false)
    ensures Or(inst, Low9(v))[12..21] == v[..9] && Op(Or(inst, Low9(v))) == Op(inst)
  {
    FieldsFixed(inst, inst, v);
    forall k | 0 <= k < 9
      ensures Or(inst, Low9(v))[12..21][k] == v[..9][k]
    {
      assert !inst[12..21][k];
    }
  }

  lemma NumberOfWord(d: int)
    ensures ToNat(WordOf(d)) == d % WRAP
  {
    Pow2Values();
    ToFromNat(d % WRAP, 32);
  }

  lemma FitsInNine(n: nat, low: nat)
    requires n < WRAP && low == n % 512
    ensures n == (if low < 256 then low else low + WRAP - 512) <==> n < 256 || n >= WRAP - 256
  {
  }

  lemma SameExtension(slots: seq<Word>, after: seq<Word>, i: nat)
    requires |slots| == |after| == 4 && Unextended(slots, i) && ImmOf(slots, i).Some?
    requires forall k | 0 <= k < 4 :: Op(after[k]) == Op(slots[k])
    ensures Unextended(after, i) && ImmOf(after, i).Some?
  {
    forall e | 0 <= e < 4
      ensures !Extends(after, i, e)
    {
      assert !Extends(slots, i, e);
    }
    assert i < 3 ==> !Extends(slots, i, i + 1);
    assert i > 0 ==> !Extends(slots, i, i - 1);
  }

  lemma LowNine(v: Word)
    ensures ToNat(v[..9]) == ToNat(v) % 512
  {
    assert v == v[..9] + v[9..];
    NatSplits(v[..9], v[9..]);
    NatBound(v[..9]);
    assert Pow2(9) == 512;
    RestOf(ToNat(v), ToNat(v[..9]), ToNat(v[9..]), 512);
  }

  lemma RestOf(v: nat, low: nat, high: nat, n: nat)
    requires n in {128, 512, 0x80_0000} && v == low + n * high && low < n
    ensures v % n == low && v / n == high
  {
    if n == 128 {
    } else if n == 512 {
    } else {
    }
  }

  // ---------------------------------------------------------------- addresses of data

  /** A linked address of data counts words: it is the word in which the byte address lies, counted as call targets are. */
  lemma LinkedAddress(inst: Word, instAddr: nat, value: nat, addend: int)
    ensures var at := ToNat(Fixed(R_32, inst, instAddr, value, addend));
            4 * at <= AddressedByte(inst, value, addend) < 4 * at + 4
    ensures AllAre(inst, false) && addend == 0 && value < WRAP ==>
              Fixed(R_32, inst, instAddr, value, addend) == WordOf(value / 4)
  {
    NumberOfWord(AddressedByte(inst, value, addend) / 4);
    Quarter(AddressedByte(inst, value, addend));
    if AllAre(inst, false) && addend == 0 && value < WRAP {
      NatExtremes(inst);
      assert AddressedByte(inst, value, addend) == value;
    }
  }

  function AddressedByte(inst: Word, value: nat, addend: int): (byte: nat)
    ensures byte < WRAP
  {
    (ToNat(inst) + value + addend) % WRAP
  }

  lemma Quarter(byte: nat)
    requires byte < WRAP
    ensures byte / 4 % WRAP == byte / 4 && 4 * (byte / 4) <= byte < 4 * (byte / 4) + 4
  {
  }

  // ---------------------------------------------------------------- calls

  /** The branch target the decoder takes from a call: 22 bits, extended by bit 22. */
  function Btarg(inst: Word): Word {
    inst[..22] + seq(10, _ => inst[22])
  }

  /** The decoder reads the linked distance exactly when its ten high bits are equal. */
  lemma BtargOfCall(inst: Word, d: Word)
    ensures Btarg(Call23(inst, d)) == d <==> AllAre(d[22..], d[22])
  {
    var b := Btarg(Call23(inst, d));
    if b == d {
      forall k | 0 <= k < 10
        ensures d[22..][k] == d[22]
      {
        assert b[22 + k] == d[22];
      }
    }
    if AllAre(d[22..], d[22]) {
      forall k | 0 <= k < 32
        ensures b[k] == d[k]
      {
        if k >= 22 {
          assert d[22..][k - 22] == d[22];
        }
      }
    }
  }

  /** Those words are the numbers of 23 signed bits. */
  lemma SignedRange(d: int)
    requires -0x8000_0000 <= d < 0x8000_0000
    ensures AllAre(WordOf(d)[22..], WordOf(d)[22]) <==> -0x40_0000 <= d < 0x40_0000
  {
    var w := WordOf(d);
    Pow2Values();
    ToFromNat(d % WRAP, 32);
    assert w == w[..22] + w[22..];
    NatSplits(w[..22], w[22..]);
    NatBound(w[..22]);
    NatBound(w[22..]);
    NatExtremes(w[22..]);
    assert w[22..][0] == w[22];
    assert AllAre(w[22..], w[22]) <==> AllAre(w[22..], false) || AllAre(w[22..], true);
    RangeOfParts(d, ToNat(w[..22]), ToNat(w[22..]));
  }

  lemma RangeOfParts(d: int, low: nat, high: nat)
    requires -0x8000_0000 <= d < 0x8000_0000 && low < 0x40_0000 && high < 1024 && d % WRAP == low + 0x40_0000 * high
    ensures high == 0 || high == 1023 <==> -0x40_0000 <= d < 0x40_0000
  {
    assert d % WRAP == if d < 0 then d + WRAP else d;
  }

  /** Added to a position, the linked distance leads on by that distance exactly when it fits in 23 signed bits. */
  lemma CallLands(inst: Word, from: nat, d: int)
    requires -0x8000_0000 <= d < 0x8000_0000
    ensures (from + ToNat(Btarg(Call23(inst, WordOf(d))))) % WRAP == (from + d) % WRAP <==> -0x40_0000 <= d < 0x40_0000
  {
    BtargOfCall(inst, WordOf(d));
    SignedRange(d);
    SameLanding(from, Btarg(Call23(inst, WordOf(d))), d);
  }

  /** In its low 22 bits the target is right in any case. */
  lemma LowBitsLand(inst: Word, d: int)
    ensures ToNat(Btarg(Call23(inst, WordOf(d)))) % 0x40_0000 == d % 0x40_0000
  {
    var b, w := Btarg(Call23(inst, WordOf(d))), WordOf(d);
    Pow2Values();
    assert b == b[..22] + b[22..] && w == w[..22] + w[22..] && b[..22] == w[..22];
    NatSplits(b[..22], b[22..]);
    NatSplits(w[..22], w[22..]);
    ToFromNat(d % WRAP, 32);
    LowRest(ToNat(w[..22]), ToNat(w[22..]), d);
    LowRest(ToNat(w[..22]), ToNat(b[22..]), ToNat(b));
  }

  lemma LowRest(low: nat, high: nat, d: int)
    requires d % WRAP == low + 0x40_0000 * high || d == low + 0x40_0000 * high
    ensures d % 0x40_0000 == low % 0x40_0000
  {
    RestOfRest(d);
    assert (low + 0x40_0000 * high) % 0x40_0000 == low % 0x40_0000;
  }

  lemma RestOfRest(d: int)
    ensures d % WRAP % 0x40_0000 == d % 0x40_0000
  {
  }

  lemma SameLanding(pc: nat, b: Word, d: int)
    ensures (pc + ToNat(b)) % WRAP == (pc + d) % WRAP <==> b == WordOf(d)
  {
    SameNumber(b, d);
    NatBound(b);
    Pow2Values();
    SameSum(pc, ToNat(b), d);
  }

  /** Words are equal when their numbers are. */
  lemma SameNumber(b: Word, d: int)
    ensures b == WordOf(d) <==> ToNat(b) == d % WRAP
  {
    Pow2Values();
    ToFromNat(d % WRAP, 32);
    FromToNat(b);
  }

  lemma SameSum(pc: nat, a: nat, d: int)
    requires a < WRAP
    ensures (pc + a) % WRAP == (pc + d) % WRAP <==> a == d % WRAP
  {
    assert (pc + d) % WRAP == (pc + d % WRAP) % WRAP;
    SameRest(pc, a, d % WRAP);
  }

  lemma SameRest(pc: nat, a: nat, b: nat)
    requires a < WRAP && b < WRAP
    ensures (pc + a) % WRAP == (pc + b) % WRAP <==> a == b
  {
  }
}
