/** The data memory of the simulated processor: words in a scratchpad, read and written in parts, compared with a
    little-endian array of bytes. */
module Memory {
  import opened Options

  const SPRAM_WORDS: nat := 2048
  const SPRAM_INI: nat := 0x40000000
  const SPRAM_END: nat := 0x40002000
  const CODE_END: nat := 0x3FFFFFFF

  datatype Access = WordAcc | HwordAcc | ByteAcc

  datatype Outcome = Ok | Misaligned | InvalidAddress | WrongSlot

  /** The scratchpad index and the byte offset of an address, as quotient and remainder. */
  function Index(addr: nat): nat {
    addr / 4 % SPRAM_WORDS
  }

  /** The masked index and offset of a 32-bit address recompose its position in the scratchpad. */
  lemma MaskedAddress(addr: bv32)
    requires 0x40000000 <= addr < 0x40002000
    ensures (addr >> 2) & 0x7FF < 0x800 && addr & 3 < 4
    ensures 0x40000000 + ((addr >> 2) & 0x7FF) * 4 + (addr & 3) == addr
  {
  }

  predicate InSpram(addr: nat) {
    SPRAM_INI <= addr < SPRAM_END
  }

  /** Half words at odd addresses are refused. */
  predicate Aligned(addr: nat, acc: Access) {
    acc == HwordAcc ==> addr % 2 == 0
  }

  /** Which 32-bit addresses lie in the scratchpad, by their high bits; and which below the code's end. */
  lemma AddressMap(addr: bv32)
    ensures InSpram(addr as nat) <==> addr >> 13 == 0x20000
    ensures addr as nat < CODE_END <==> addr >> 30 == 0 && addr != 0x3FFFFFFF
  {
    assert (0x40000000 <= addr < 0x40002000) <==> addr >> 13 == 0x20000;
    assert addr < 0x3FFFFFFF <==> addr >> 30 == 0 && addr != 0x3FFFFFFF;
  }

  // ---------------------------------------------------------------- bytes of a word

  function ByteOf(w: bv32, k: nat): bv32
    requires k < 4
  {
    if k == 0 then w & 0xFF else if k == 1 then (w >> 8) & 0xFF else if k == 2 then (w >> 16) & 0xFF else (w >> 24) & 0xFF
  }

  /** The half word at byte 0 or 2. */
  function HalfOf(w: bv32, k: nat): bv32
    requires k == 0 || k == 2
  {
    if k == 0 then w & 0xFFFF else (w >> 16) & 0xFFFF
  }

  /** The four bytes, lowest first. */
  function Join(b0: bv32, b1: bv32, b2: bv32, b3: bv32): bv32 {
    b0 | (b1 << 8) | (b2 << 16) | (b3 << 24)
  }

  lemma BytesMakeWord(w: bv32)
    ensures Join(ByteOf(w, 0), ByteOf(w, 1), ByteOf(w, 2), ByteOf(w, 3)) == w
  {
  }

  // A word with one byte replaced by the low byte of the data, for every place of the byte.

  function PutByte0(w: bv32, data: bv32): bv32 {
    (w & !(0xFF)) | ((data & 0xFF))
  }

  function PutByte1(w: bv32, data: bv32): bv32 {
    (w & !(0xFF << 8)) | ((data & 0xFF) << 8)
  }

  function PutByte2(w: bv32, data: bv32): bv32 {
    (w & !(0xFF << 16)) | ((data & 0xFF) << 16)
  }

  function PutByte3(w: bv32, data: bv32): bv32 {
    (w & !(0xFF << 24)) | ((data & 0xFF) << 24)
  }

  function PutByte(w: bv32, data: bv32, off: nat): bv32
    requires off < 4
  {
    if off == 0 then PutByte0(w, data)
    else if off == 1 then PutByte1(w, data)
    else if off == 2 then PutByte2(w, data)
    else PutByte3(w, data)
  }

  // The same for half words.

  function PutHalf0(w: bv32, data: bv32): bv32 {
    (w & !(0xFFFF)) | ((data & 0xFFFF))
  }

  function PutHalf2(w: bv32, data: bv32): bv32 {
    (w & !(0xFFFF << 16)) | ((data & 0xFFFF) << 16)
  }

  function PutHalf(w: bv32, data: bv32, off: nat): bv32
    requires off == 0 || off == 2
  {
    if off == 0 then PutHalf0(w, data) else PutHalf2(w, data)
  }

  lemma ByteAt0(w: bv32, data: bv32)
    ensures var r := PutByte0(w, data);
            ByteOf(r, 0) == ByteOf(data, 0) && ByteOf(r, 1) == ByteOf(w, 1) && ByteOf(r, 2) == ByteOf(w, 2) && ByteOf(r, 3) == ByteOf(w, 3)
  {
  }

  lemma ByteAt1(w: bv32, data: bv32)
    ensures var r := PutByte1(w, data);
            ByteOf(r, 0) == ByteOf(w, 0) && ByteOf(r, 1) == ByteOf(data, 0) && ByteOf(r, 2) == ByteOf(w, 2) && ByteOf(r, 3) == ByteOf(w, 3)
  {
  }

  lemma ByteAt2(w: bv32, data: bv32)
    ensures var r := PutByte2(w, data);
            ByteOf(r, 0) == ByteOf(w, 0) && ByteOf(r, 1) == ByteOf(w, 1) && ByteOf(r, 2) == ByteOf(data, 0) && ByteOf(r, 3) == ByteOf(w, 3)
  {
  }

  lemma ByteAt3(w: bv32, data: bv32)
    ensures var r := PutByte3(w, data);
            ByteOf(r, 0) == ByteOf(w, 0) && ByteOf(r, 1) == ByteOf(w, 1) && ByteOf(r, 2) == ByteOf(w, 2) && ByteOf(r, 3) == ByteOf(data, 0)
  {
  }

  lemma HalfAt0(w: bv32, data: bv32)
    ensures var r := PutHalf0(w, data);
            ByteOf(r, 0) == ByteOf(data, 0) && ByteOf(r, 1) == ByteOf(data, 1) && ByteOf(r, 2) == ByteOf(w, 2) && ByteOf(r, 3) == ByteOf(w, 3)
  {
  }

  lemma HalfAt2(w: bv32, data: bv32)
    ensures var r := PutHalf2(w, data);
            ByteOf(r, 0) == ByteOf(w, 0) && ByteOf(r, 1) == ByteOf(w, 1) && ByteOf(r, 2) == ByteOf(data, 0) && ByteOf(r, 3) == ByteOf(data, 1)
  {
  }

  /** Writing a byte in place changes that byte only. */
  lemma BytePut(w: bv32, data: bv32, off: nat)
    requires off < 4
    ensures var r := PutByte(w, data, off);
            && ByteOf(r, 0) == (if off == 0 then ByteOf(data, 0) else ByteOf(w, 0))
            && ByteOf(r, 1) == (if off == 1 then ByteOf(data, 0) else ByteOf(w, 1))
            && ByteOf(r, 2) == (if off == 2 then ByteOf(data, 0) else ByteOf(w, 2))
            && ByteOf(r, 3) == (if off == 3 then ByteOf(data, 0) else ByteOf(w, 3))
  {
    if off == 0 {
      ByteAt0(w, data);
    } else if off == 1 {
      ByteAt1(w, data);
    } else if off == 2 {
      ByteAt2(w, data);
    } else {
      ByteAt3(w, data);
    }
  }

  lemma HalfPut(w: bv32, data: bv32, off: nat)
    requires off == 0 || off == 2
    ensures var r := PutHalf(w, data, off);
            && ByteOf(r, 0) == (if off == 0 then ByteOf(data, 0) else ByteOf(w, 0))
            && ByteOf(r, 1) == (if off == 0 then ByteOf(data, 1) else ByteOf(w, 1))
            && ByteOf(r, 2) == (if off == 2 then ByteOf(data, 0) else ByteOf(w, 2))
            && ByteOf(r, 3) == (if off == 2 then ByteOf(data, 1) else ByteOf(w, 3))
  {
    if off == 0 {
      HalfAt0(w, data);
    } else {
      HalfAt2(w, data);
    }
  }

  lemma HalfGot(w: bv32)
    ensures HalfOf(w, 0) == ByteOf(w, 0) | (ByteOf(w, 1) << 8)
    ensures HalfOf(w, 2) == ByteOf(w, 2) | (ByteOf(w, 3) << 8)
  {
  }

  // ---------------------------------------------------------------- the byte array

  /** The bytes of the scratchpad in address order. */
  type Bytes = s: seq<bv32> | |s| == 4 * SPRAM_WORDS witness seq(4 * SPRAM_WORDS, _ => 0)

  function Position(addr: nat): nat
    requires InSpram(addr)
  {
    addr - SPRAM_INI
  }

  /** A store: the low bytes of the data, lowest address first; a word goes to the word the address lies in. */
  function Store(m: Bytes, addr: nat, acc: Access, data: bv32): Bytes
    requires InSpram(addr) && Aligned(addr, acc)
  {
    var a := Position(addr);
    match acc
    case ByteAcc => m[a := ByteOf(data, 0)]
    case HwordAcc => m[a := ByteOf(data, 0)][a + 1 := ByteOf(data, 1)]
    case WordAcc =>
      var w := a - a % 4;
      m[w := ByteOf(data, 0)][w + 1 := ByteOf(data, 1)][w + 2 := ByteOf(data, 2)][w + 3 := ByteOf(data, 3)]
  }

  function Extend8(b: bv32, sigext: bool): bv32 {
    if sigext && b & 0x80 != 0 then b | 0xFFFFFF00 else b
  }

  function Extend16(h: bv32, sigext: bool): bv32 {
    if sigext && h & 0x8000 != 0 then h | 0xFFFF0000 else h
  }

  function Load(m: Bytes, addr: nat, acc: Access, sigext: bool): bv32
    requires InSpram(addr) && Aligned(addr, acc)
  {
    var a := Position(addr);
    match acc
    case ByteAcc => Extend8(m[a], sigext)
    case HwordAcc => Extend16(m[a] | (m[a + 1] << 8), sigext)
    case WordAcc => var w := a - a % 4; Join(m[w], m[w + 1], m[w + 2], m[w + 3])
  }

  /** The extended values are the signed and the unsigned value of the part. */
  lemma ByteIsSigned(b: bv32)
    requires b < 0x100
    ensures Extend8(b, false) == b && Extend8(b, true) == if b < 0x80 then b else b + 0xFFFFFF00
  {
  }

  lemma HwordIsSigned(h: bv32)
    requires h < 0x10000
    ensures Extend16(h, false) == h && Extend16(h, true) == if h < 0x8000 then h else h + 0xFFFF0000
  {
  }

  // ---------------------------------------------------------------- the memory

  /** What one slot of a bundle asks of the memory. */
  datatype Request = Request(addr: nat, acc: Access, sigext: bool, wr: bool, rd: bool, data: bv32)

  class DataMemory {
    const rom: seq<bv32>
    const spram: array<bv32>

    constructor (rom: seq<bv32>)
      ensures this.rom == rom && spram.Length == SPRAM_WORDS && fresh(spram)
    {
      this.rom := rom;
      spram := new bv32[SPRAM_WORDS](_ => 0);
    }

    /** The scratchpad as bytes. */
    ghost function View(): (m: Bytes)
      requires spram.Length == SPRAM_WORDS
      reads spram
    {
      BytesOf(spram[..])
    }

    /** `mem_wr` */
    method MemWr(addr: nat, acc: Access, data: bv32) returns (outcome: Outcome, time: nat)
      requires spram.Length == SPRAM_WORDS
      modifies spram
      ensures outcome == if !InSpram(addr) then InvalidAddress else if !Aligned(addr, acc) then Misaligned else Ok
      ensures outcome == Ok ==> View() == Store(old(View()), addr, acc, data) && time == 2
      ensures outcome != Ok ==> spram[..] == old(spram[..])
    {
      time := 0;
      var off, i := addr % 4, Index(addr);
      AlignedByOffset(addr, acc);
      if InSpram(addr) {
        if acc == HwordAcc && (off == 1 || off == 3) {
          return Misaligned, time;
        }
        WordStored(spram[..], addr, acc, data);
        PutWord(i, Combined(spram[i], off, acc, data));
        return Ok, 2;
      }
      outcome := InvalidAddress;
    }

    /** `set_value` */
    method PutWord(i: nat, wr: bv32)
      requires i < spram.Length
      modifies spram
      ensures spram[..] == old(spram[..])[i := wr]
    {
      spram[i] := wr;
    }

    /** `mem_rd` */
    method MemRd(addr: nat, acc: Access, sigext: bool) returns (outcome: Outcome, data: bv32, time: nat)
      requires spram.Length == SPRAM_WORDS
      ensures outcome == if !Readable(rom, addr) then InvalidAddress else if !Aligned(addr, acc) then Misaligned else Ok
      ensures outcome == Ok ==> data == Answer(View(), rom, addr, acc, sigext) && time == if InSpram(addr) then 2 else 4
    {
      data, time := 0, 0;
      AlignedByOffset(addr, acc);
      if addr < CODE_END {
        if addr / 4 >= |rom| {
          return InvalidAddress, data, time;
        }
        data, time := rom[addr / 4], 4;
      } else if InSpram(addr) {
        AddressParts(addr);
        data, time := spram[Index(addr)], 2;
        if Aligned(addr, acc) {
          WordLoaded(spram[..], addr, acc, sigext);
        }
      } else {
        return InvalidAddress, data, time;
      }
      outcome, data := TakePart(data, addr % 4, acc, sigext);
    }

    /** The selection of the part in `mem_rd`. */
    method TakePart(w: bv32, off: nat, acc: Access, sigext: bool) returns (outcome: Outcome, data: bv32)
      requires off < 4
      ensures outcome == if acc == HwordAcc && off % 2 == 1 then Misaligned else Ok
      ensures outcome == Ok ==> data == Part(w, off, acc, sigext)
    {
      data := w;
      match acc {
        case WordAcc =>
        case HwordAcc =>
          if off == 1 || off == 3 {
            return Misaligned, data;
          }
          data := Extend16(HalfOf(w, off), sigext);
        case ByteAcc =>
          data := Extend8(ByteOf(w, off), sigext);
      }
      outcome := Ok;
    }

    /** `execute`: the requests of the four slots in order; a load in a slot sees the stores before it. */
    method Execute(slots: seq<Request>) returns (outcome: Outcome, results: seq<Option<bv32>>, time: nat)
      requires spram.Length == SPRAM_WORDS && |slots| == 4
      modifies spram
      ensures outcome == Ok <==> forall i | 0 <= i < 4 :: Served(rom, slots[i], i)
      ensures outcome == Ok ==> View() == After(old(View()), rom, slots, 4) && results == Answers(old(View()), rom, slots, 4)
      ensures outcome == Ok ==> time == Slowest(slots, 4)
    {
      results, time := [], 0;
      for i := 0 to 4
        invariant forall j | 0 <= j < i :: Served(rom, slots[j], j)
        invariant View() == After(old(View()), rom, slots, i) && results == Answers(old(View()), rom, slots, i)
        invariant time == Slowest(slots, i)
      {
        var t, result;
        ghost var before := View();
        outcome, result, t := ExecuteSlot(slots[i], i);
        if outcome != Ok {
          return;
        }
        OneSlotMore(old(View()), rom, slots, i, before, View(), result);
        time := if t > time then t else time;
        results := results + [result];
      }
      outcome := Ok;
    }

    /** The body of the loop: a store, then a load. */
    method ExecuteSlot(r: Request, i: nat) returns (outcome: Outcome, result: Option<bv32>, time: nat)
      requires spram.Length == SPRAM_WORDS
      modifies spram
      ensures outcome == Ok <==> Served(rom, r, i)
      ensures outcome == Ok ==> View() == Stored(old(View()), r)
      ensures outcome == Ok ==> result == if r.rd then Some(Answer(View(), rom, r.addr, r.acc, r.sigext)) else None
      ensures outcome == Ok ==> time == TimeFor(r)
    {
      outcome, result, time := Ok, None, 0;
      if r.wr {
        if i > 1 {
          return WrongSlot, None, 0;
        }
        outcome, time := MemWr(r.addr, r.acc, r.data);
        if outcome != Ok {
          return;
        }
      }
      if r.rd {
        if i > 1 {
          return WrongSlot, None, 0;
        }
        var data, t;
        outcome, data, t := MemRd(r.addr, r.acc, r.sigext);
        time := if t > time then t else time;
        result := Some(data);
      }
    }
  }

  /** A load from below the scratchpad. */
  predicate FromRom(r: Request) {
    r.rd && !InSpram(r.addr)
  }

  /** Four cycles for a load from the ROM, two for any other request. */
  function TimeFor(r: Request): nat {
    if FromRom(r) then 4 else if r.rd || r.wr then 2 else 0
  }

  function Slowest(slots: seq<Request>, n: nat): nat
    requires n <= |slots|
  {
    if n == 0 then 0
    else if TimeFor(slots[n - 1]) > Slowest(slots, n - 1) then TimeFor(slots[n - 1]) else Slowest(slots, n - 1)
  }

  lemma OneSlotMore(m: Bytes, rom: seq<bv32>, slots: seq<Request>, i: nat, before: Bytes, after: Bytes, result: Option<bv32>)
    requires i < |slots| && (forall j | 0 <= j <= i :: Served(rom, slots[j], j)) && Served(rom, slots[i], i)
    requires before == After(m, rom, slots, i) && after == Stored(before, slots[i])
    requires result == if slots[i].rd then Some(Answer(after, rom, slots[i].addr, slots[i].acc, slots[i].sigext)) else None
    ensures After(m, rom, slots, i + 1) == after
    ensures Answers(m, rom, slots, i + 1) == Answers(m, rom, slots, i) + [result]
    ensures Slowest(slots, i + 1) == if TimeFor(slots[i]) > Slowest(slots, i) then TimeFor(slots[i]) else Slowest(slots, i)
  {
  }

  /** The slowest request counts. */
  lemma {:induction false} SlowestCounts(slots: seq<Request>, n: nat)
    requires n <= |slots|
    ensures Slowest(slots, n) == 4 <==> exists i :: 0 <= i < n && FromRom(slots[i])
    ensures Slowest(slots, n) == 0 <==> forall i | 0 <= i < n :: !slots[i].rd && !slots[i].wr
    ensures Slowest(slots, n) in {0, 2, 4}
  {
    if n > 0 {
      SlowestCounts(slots, n - 1);
    }
  }

  predicate Readable(rom: seq<bv32>, addr: nat) {
    InSpram(addr) || (addr < CODE_END && addr / 4 < |rom|)
  }

  /** What a load returns: from the byte array in the scratchpad range, from the ROM word below. */
  function Answer(m: Bytes, rom: seq<bv32>, addr: nat, acc: Access, sigext: bool): bv32
    requires Readable(rom, addr) && Aligned(addr, acc)
  {
    if InSpram(addr) then Load(m, addr, acc, sigext) else Part(rom[addr / 4], addr % 4, acc, sigext)
  }

  /** A request the memory serves: none, or one in the first two slots with a good address. */
  predicate Served(rom: seq<bv32>, r: Request, slot: nat) {
    && (r.wr ==> slot <= 1 && InSpram(r.addr) && Aligned(r.addr, r.acc))
    && (r.rd ==> slot <= 1 && Readable(rom, r.addr) && Aligned(r.addr, r.acc))
  }

  /** Exactly the first two slots can use the memory; what they ask for must lie in the scratchpad to be stored, and there or
      in front of the end of the code and of the ROM to be loaded, half words at even addresses. */
  lemma ServedExactly(rom: seq<bv32>, addr: nat, acc: Access, sigext: bool, data: bv32, slot: nat)
    ensures var good := slot in {0, 1} && (acc == HwordAcc ==> addr % 2 == 0);
            && (Served(rom, Request(addr, acc, sigext, true, false, data), slot) <==> good && 0x40000000 <= addr < 0x40002000)
            && (Served(rom, Request(addr, acc, sigext, false, true, data), slot) <==>
                good && (0x40000000 <= addr < 0x40002000 || (addr < 0x3FFFFFFF && addr / 4 < |rom|)))
  {
  }

  function Stored(m: Bytes, r: Request): Bytes
    requires r.wr ==> InSpram(r.addr) && Aligned(r.addr, r.acc)
  {
    if r.wr then Store(m, r.addr, r.acc, r.data) else m
  }

  /** The bytes after the stores of the first `n` slots. */
  function After(m: Bytes, rom: seq<bv32>, slots: seq<Request>, n: nat): Bytes
    requires n <= |slots| && forall i | 0 <= i < n :: Served(rom, slots[i], i)
  {
    if n == 0 then m
    else
      assert Served(rom, slots[n - 1], n - 1);
      Stored(After(m, rom, slots, n - 1), slots[n - 1])
  }

  /** What the loads of the first `n` slots return. */
  function Answers(m: Bytes, rom: seq<bv32>, slots: seq<Request>, n: nat): seq<Option<bv32>>
    requires n <= |slots| && forall i | 0 <= i < n :: Served(rom, slots[i], i)
  {
    if n == 0 then []
    else
      var r := slots[n - 1];
      assert Served(rom, r, n - 1);
      Answers(m, rom, slots, n - 1) +
      [if r.rd then Some(Answer(After(m, rom, slots, n), rom, r.addr, r.acc, r.sigext)) else None]
  }

  /** What a partial access takes out of a word. */
  function Part(w: bv32, off: nat, acc: Access, sigext: bool): bv32
    requires off < 4 && (acc == HwordAcc ==> off == 0 || off == 2)
  {
    match acc
    case WordAcc => w
    case HwordAcc => Extend16(HalfOf(w, off), sigext)
    case ByteAcc => Extend8(ByteOf(w, off), sigext)
  }

  /** Words as bytes. */
  function BytesOf(words: seq<bv32>): (m: Bytes)
    requires |words| == SPRAM_WORDS
    ensures forall k | 0 <= k < |m| :: m[k] == ByteOf(words[k / 4], k % 4)
  {
    seq(4 * SPRAM_WORDS, k requires 0 <= k < 4 * SPRAM_WORDS => ByteOf(words[k / 4], k % 4))
  }

  lemma AddressParts(addr: nat)
    requires InSpram(addr)
    ensures Index(addr) < SPRAM_WORDS && Position(addr) == 4 * Index(addr) + addr % 4 && Position(addr) % 4 == addr % 4
  {
  }

  lemma ByteAt(words: seq<bv32>, i: nat, k: nat)
    requires |words| == SPRAM_WORDS && i < SPRAM_WORDS && k < 4
    ensures BytesOf(words)[4 * i + k] == ByteOf(words[i], k)
  {
    assert (4 * i + k) / 4 == i && (4 * i + k) % 4 == k;
  }

  /** Replacing a word replaces its four bytes. */
  lemma WordReplaced(words: seq<bv32>, i: nat, wr: bv32)
    requires |words| == SPRAM_WORDS && i < SPRAM_WORDS
    ensures BytesOf(words[i := wr]) == FourSet(BytesOf(words), 4 * i, ByteOf(wr, 0), ByteOf(wr, 1), ByteOf(wr, 2), ByteOf(wr, 3))
  {
    var after := BytesOf(words[i := wr]);
    forall k: nat | k < |after|
      ensures after[k] == if k / 4 == i then ByteOf(wr, k % 4) else BytesOf(words)[k]
    {
    }
  }

  /** The word written back. */
  function Combined(w: bv32, off: nat, acc: Access, data: bv32): bv32
    requires off < 4 && (acc == HwordAcc ==> off == 0 || off == 2)
  {
    match acc
    case WordAcc => data
    case HwordAcc => PutHalf(w, data, off)
    case ByteAcc => PutByte(w, data, off)
  }

  /** Writing the combined word stores the bytes. */
  lemma WordStored(words: seq<bv32>, addr: nat, acc: Access, data: bv32)
    requires |words| == SPRAM_WORDS && InSpram(addr) && Aligned(addr, acc)
    ensures Index(addr) < SPRAM_WORDS && (acc == HwordAcc ==> addr % 4 == 0 || addr % 4 == 2)
    ensures BytesOf(words[Index(addr) := Combined(words[Index(addr)], addr % 4, acc, data)]) ==
            Store(BytesOf(words), addr, acc, data)
  {
    AddressParts(addr);
    var i, off := Index(addr), addr % 4;
    assert Position(addr) == 4 * i + off;
    var wr := Combined(words[i], off, acc, data);
    WordReplaced(words, i, wr);
    if acc == ByteAcc {
      ByteStored(words, i, off, data);
    } else if acc == HwordAcc {
      HalfStored(words, i, off, data);
    }
  }

  lemma BytesAt(words: seq<bv32>, i: nat)
    requires |words| == SPRAM_WORDS && i < SPRAM_WORDS
    ensures var m := BytesOf(words);
            m[4 * i] == ByteOf(words[i], 0) && m[4 * i + 1] == ByteOf(words[i], 1) &&
            m[4 * i + 2] == ByteOf(words[i], 2) && m[4 * i + 3] == ByteOf(words[i], 3)
  {
    ByteAt(words, i, 0);
    ByteAt(words, i, 1);
    ByteAt(words, i, 2);
    ByteAt(words, i, 3);
  }

  /** Of the four bytes of the word, those not stored to are replaced by themselves. */
  lemma ByteStored(words: seq<bv32>, i: nat, off: nat, data: bv32)
    requires |words| == SPRAM_WORDS && i < SPRAM_WORDS && off < 4
    ensures var m, wr := BytesOf(words), PutByte(words[i], data, off);
            FourSet(m, 4 * i, ByteOf(wr, 0), ByteOf(wr, 1), ByteOf(wr, 2), ByteOf(wr, 3)) == m[4 * i + off := ByteOf(data, 0)]
  {
    var wr := PutByte(words[i], data, off);
    BytePut(words[i], data, off);
    OneByteStored(words, i, off, ByteOf(data, 0), wr);
  }

  lemma OneByteStored(words: seq<bv32>, i: nat, off: nat, byte: bv32, wr: bv32)
    requires |words| == SPRAM_WORDS && i < SPRAM_WORDS && off < 4
    requires forall k: nat | k < 4 :: ByteOf(wr, k) == if k == off then byte else ByteOf(words[i], k)
    ensures FourSet(BytesOf(words), 4 * i, ByteOf(wr, 0), ByteOf(wr, 1), ByteOf(wr, 2), ByteOf(wr, 3)) ==
            BytesOf(words)[4 * i + off := byte]
  {
    BytesAt(words, i);
    OneSet(BytesOf(words), 4 * i, off, byte, ByteOf(wr, 0), ByteOf(wr, 1), ByteOf(wr, 2), ByteOf(wr, 3));
  }

  lemma HalfStored(words: seq<bv32>, i: nat, off: nat, data: bv32)
    requires |words| == SPRAM_WORDS && i < SPRAM_WORDS && (off == 0 || off == 2)
    ensures var m, wr := BytesOf(words), PutHalf(words[i], data, off);
            FourSet(m, 4 * i, ByteOf(wr, 0), ByteOf(wr, 1), ByteOf(wr, 2), ByteOf(wr, 3)) ==
            m[4 * i + off := ByteOf(data, 0)][4 * i + off + 1 := ByteOf(data, 1)]
  {
    var wr := PutHalf(words[i], data, off);
    BytesAt(words, i);
    HalfPut(words[i], data, off);
    TwoSet(BytesOf(words), 4 * i, off, ByteOf(data, 0), ByteOf(data, 1), ByteOf(wr, 0), ByteOf(wr, 1), ByteOf(wr, 2), ByteOf(wr, 3));
  }

  function FourSet(m: Bytes, at: nat, b0: bv32, b1: bv32, b2: bv32, b3: bv32): Bytes
    requires at + 4 <= |m|
  {
    m[at := b0][at + 1 := b1][at + 2 := b2][at + 3 := b3]
  }

  lemma OneSet(m: Bytes, at: nat, off: nat, d: bv32, b0: bv32, b1: bv32, b2: bv32, b3: bv32)
    requires at + 4 <= |m| && off < 4 && b0 == (if off == 0 then d else m[at]) && b1 == (if off == 1 then d else m[at + 1])
    requires b2 == (if off == 2 then d else m[at + 2]) && b3 == if off == 3 then d else m[at + 3]
    ensures FourSet(m, at, b0, b1, b2, b3) == m[at + off := d]
  {
  }

  lemma TwoSet(m: Bytes, at: nat, off: nat, d0: bv32, d1: bv32, b0: bv32, b1: bv32, b2: bv32, b3: bv32)
    requires at + 4 <= |m| && (off == 0 || off == 2)
    requires b0 == (if off == 0 then d0 else m[at]) && b1 == if off == 0 then d1 else m[at + 1]
    requires b2 == (if off == 2 then d0 else m[at + 2]) && b3 == if off == 2 then d1 else m[at + 3]
    ensures FourSet(m, at, b0, b1, b2, b3) == m[at + off := d0][at + off + 1 := d1]
  {
  }

  /** The part taken out of a word is what the bytes give. */
  lemma WordLoaded(words: seq<bv32>, addr: nat, acc: Access, sigext: bool)
    requires |words| == SPRAM_WORDS && InSpram(addr) && Aligned(addr, acc)
    ensures Index(addr) < SPRAM_WORDS && (acc == HwordAcc ==> addr % 4 == 0 || addr % 4 == 2)
    ensures Part(words[Index(addr)], addr % 4, acc, sigext) == Load(BytesOf(words), addr, acc, sigext)
  {
    AddressParts(addr);
    EvenOffset(addr);
    match acc
    case ByteAcc => ByteLoad(words, addr, sigext);
    case HwordAcc => HalfLoad(words, addr, sigext);
    case WordAcc => WholeLoad(words, addr, sigext);
  }

  lemma EvenOffset(addr: nat)
    ensures addr % 2 == 0 ==> addr % 4 == 0 || addr % 4 == 2
  {
    OddRest(addr / 4, addr % 4, addr);
  }

  lemma AlignedByOffset(addr: nat, acc: Access)
    ensures Aligned(addr, acc) <==> !(acc == HwordAcc && (addr % 4 == 1 || addr % 4 == 3))
    ensures Aligned(addr, acc) <==> !(acc == HwordAcc && addr % 4 % 2 == 1)
  {
    OddRest(addr / 4, addr % 4, addr);
  }

  lemma OddRest(q: nat, r: nat, addr: nat)
    requires addr == 4 * q + r && r < 4
    ensures addr % 2 == 1 <==> r == 1 || r == 3
  {
    var half := if r < 2 then 2 * q else 2 * q + 1;
    OddIsOneMore(addr, half);
  }

  lemma OddIsOneMore(n: nat, half: nat)
    requires n == 2 * half || n == 2 * half + 1
    ensures n % 2 == 1 <==> n == 2 * half + 1
  {
  }

  lemma ByteLoad(words: seq<bv32>, addr: nat, sigext: bool)
    requires |words| == SPRAM_WORDS && InSpram(addr) && Index(addr) < SPRAM_WORDS
    ensures Load(BytesOf(words), addr, ByteAcc, sigext) == Part(words[Index(addr)], addr % 4, ByteAcc, sigext)
  {
    AddressParts(addr);
    ByteAt(words, Index(addr), addr % 4);
  }

  lemma HalfLoad(words: seq<bv32>, addr: nat, sigext: bool)
    requires |words| == SPRAM_WORDS && InSpram(addr) && Index(addr) < SPRAM_WORDS && (addr % 4 == 0 || addr % 4 == 2)
    ensures Load(BytesOf(words), addr, HwordAcc, sigext) == Part(words[Index(addr)], addr % 4, HwordAcc, sigext)
  {
    AddressParts(addr);
    HalfLoaded(words, Index(addr), addr % 4);
  }

  lemma WholeLoad(words: seq<bv32>, addr: nat, sigext: bool)
    requires |words| == SPRAM_WORDS && InSpram(addr) && Index(addr) < SPRAM_WORDS
    ensures Load(BytesOf(words), addr, WordAcc, sigext) == Part(words[Index(addr)], addr % 4, WordAcc, sigext)
  {
    AddressParts(addr);
    WholeLoaded(words, Index(addr));
  }

  lemma HalfLoaded(words: seq<bv32>, i: nat, off: nat)
    requires |words| == SPRAM_WORDS && i < SPRAM_WORDS && (off == 0 || off == 2)
    ensures HalfOf(words[i], off) == BytesOf(words)[4 * i + off] | (BytesOf(words)[4 * i + off + 1] << 8)
  {
    ByteAt(words, i, off);
    ByteAt(words, i, off + 1);
    HalfGot(words[i]);
  }

  lemma WholeLoaded(words: seq<bv32>, i: nat)
    requires |words| == SPRAM_WORDS && i < SPRAM_WORDS
    ensures var m := BytesOf(words); words[i] == Join(m[4 * i], m[4 * i + 1], m[4 * i + 2], m[4 * i + 3])
  {
    ByteAt(words, i, 0);
    ByteAt(words, i, 1);
    ByteAt(words, i, 2);
    ByteAt(words, i, 3);
    BytesMakeWord(words[i]);
  }
}
