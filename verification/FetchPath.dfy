/** The fetch path of the simulated processor: cache, fetch buffer and bundle decoding, compared with the ROM. */
module FetchPath {
  import opened Options
  import opened CacheState

  type Word = bv32

  const SLOTS: nat := 4

  /** The stop bit ends a bundle. */
  predicate Stop(w: Word) {
    w >> 31 != 0
  }

  /** That is bit 31. */
  lemma StopIsHighBit(w: Word)
    ensures Stop(w) <==> w >= 0x8000_0000
  {
  }

  /** The ROM is a whole number of cache lines. */
  ghost predicate RomOk(rom: seq<Word>) {
    |rom| % WORDS_PER_LINE == 0
  }

  function LineBase(address: nat): nat {
    address - address % 8
  }

  function LineEnd(address: nat): nat {
    LineBase(address) + WORDS_PER_LINE
  }

  /** The ROM words of the line an address lies in. */
  function LineWords(rom: seq<Word>, address: nat): (r: seq<Word>)
    requires |rom| % WORDS_PER_LINE == 0 && address < |rom|
    ensures |r| == WORDS_PER_LINE
  {
    rom[LineBase(address)..LineBase(address) + WORDS_PER_LINE]
  }

  // ---------------------------------------------------------------- the cache

  datatype Line = Line(valid: bool, tag: Tag, data: seq<Word>)

  class RomCache {
    const rom: seq<Word>
    var lines: seq<Line>

    /** The tags of the valid lines, as the analysis sees the cache. */
    ghost function Tags(): (c: seq<Option<Tag>>)
      reads this
      ensures |c| == |lines|
    {
      seq(|lines|, i requires 0 <= i < |lines| reads this => if lines[i].valid then Some(lines[i].tag) else None)
    }

    /** Every valid line holds the ROM words of its tag and index. */
    ghost predicate Valid()
      reads this
    {
      && |rom| % WORDS_PER_LINE == 0 && |lines| == LINES
      && forall i: nat | i < LINES :: lines[i].valid ==>
           lines[i].tag * 256 + i * 8 < |rom| && lines[i].data == LineWords(rom, lines[i].tag * 256 + i * 8)
    }

    constructor (rom: seq<Word>)
      requires RomOk(rom)
      ensures this.rom == rom && Valid() && Tags() == Cold()
    {
      this.rom := rom;
      lines := seq(LINES, _ => Line(false, 0, seq(WORDS_PER_LINE, _ => 0)));
    }

    /** `fetch` */
    method Fetch(pc: nat) returns (time: nat, data: seq<Word>)
      requires Valid() && pc < |rom|
      modifies this
      ensures Valid() && data == LineWords(rom, pc)
      ensures time == if old(Tags())[GetLine(pc)] == Some(GetTag(pc)) then 0 else PENALTY
      ensures Tags() == old(Tags())[GetLine(pc) := Some(GetTag(pc))]
    {
      var index, addrTag, base := GetLine(pc), GetTag(pc), LineBase(pc);
      AddressOfLine(pc);
      time := 0;
      if !lines[index].valid || addrTag != lines[index].tag {
        var copy := CopyLine(base);
        lines := lines[index := Line(true, addrTag, copy)];
        time := PENALTY;
      }
      data := lines[index].data;
    }

    /** The copying loop of `fetch`. */
    method CopyLine(base: nat) returns (copy: seq<Word>)
      requires base + WORDS_PER_LINE <= |rom|
      ensures copy == rom[base..base + WORDS_PER_LINE]
    {
      copy := [];
      for i := 0 to WORDS_PER_LINE
        invariant copy == rom[base..base + i]
      {
        copy := copy + [rom[base + i]];
      }
    }
  }

  /** Tag and line give back the base of the line, and a line begun in the ROM ends in it. */
  lemma AddressOfLine(pc: nat)
    ensures GetTag(pc) * 256 + GetLine(pc) * 8 == LineBase(pc)
    ensures forall n: nat :: n % WORDS_PER_LINE == 0 && pc < n ==> LineBase(pc) + WORDS_PER_LINE <= n
    ensures LineBase(LineBase(pc)) == LineBase(pc)
  {
    BaseIsMultiple(pc);
    TagAndLine(pc);
    BaseIsMultiple(8 * (pc / 8));
    forall n: nat | n % WORDS_PER_LINE == 0 && pc < n
      ensures LineBase(pc) + WORDS_PER_LINE <= n
    {
      NextMultiple(pc / 8, pc % 8, n / 8, pc, n);
    }
  }

  lemma BaseIsMultiple(pc: nat)
    ensures LineBase(pc) == 8 * (pc / 8)
    ensures pc % 8 == 0 ==> LineBase(pc) == pc
  {
  }

  lemma TagAndLine(pc: nat)
    ensures pc / 8 == GetTag(pc) * 32 + GetLine(pc)
  {
    assert pc / 256 == pc / 8 / 32;
  }

  lemma NextMultiple(q: nat, r: nat, m: nat, pc: nat, n: nat)
    requires pc == 8 * q + r && r < 8 && n == 8 * m && pc < n
    ensures 8 * q + 8 <= n
  {
  }

  // ---------------------------------------------------------------- bundles

  ghost predicate NoStops(code: seq<Word>, a: nat, b: nat) {
    b <= |code| && forall i | a <= i < b :: !Stop(code[i])
  }

  /** The size of the bundle at `pc`, scanned up to `at`, when its stop bit comes within the line and within four
      words. */
  function SizeFrom(rom: seq<Word>, pc: nat, at: nat): Option<nat>
    requires pc <= at <= pc + SLOTS
    decreases pc + SLOTS - at
  {
    if at == pc + SLOTS || at >= |rom| || at >= LineEnd(pc) then None
    else if Stop(rom[at]) then Some(at + 1 - pc)
    else SizeFrom(rom, pc, at + 1)
  }

  function BundleSize(rom: seq<Word>, pc: nat): Option<nat> {
    SizeFrom(rom, pc, pc)
  }

  lemma {:induction false} SizeMeans(rom: seq<Word>, pc: nat, at: nat)
    requires pc <= at <= pc + SLOTS && NoStops(rom, pc, at)
    ensures var r := SizeFrom(rom, pc, at);
            r.Some? ==> at < pc + r.value <= pc + SLOTS && pc + r.value <= |rom| && pc + r.value <= LineEnd(pc) &&
                        Stop(rom[pc + r.value - 1]) && NoStops(rom, pc, pc + r.value - 1)
    decreases pc + SLOTS - at
  {
    if at < pc + SLOTS && at < |rom| && at < LineEnd(pc) && !Stop(rom[at]) {
      SizeMeans(rom, pc, at + 1);
    }
  }

  datatype Slot = Slot(pc: nat, raw: Word, bundleSize: nat)

  /** The decoder stops the program when a bundle has more than four words, and reads past the buffer when no stop
      bit comes before its end. */
  datatype Decoded = Done(size: nat) | Abort | Overrun

  class Fetcher {
    const bufferSize: nat
    var bufferIndex: nat

    constructor (bufferSize: nat)
      ensures this.bufferSize == bufferSize && bufferIndex == 0
    {
      this.bufferSize, bufferIndex := bufferSize, 0;
    }

    /** `load_pc` */
    method LoadPc(pc: nat)
      modifies this
      ensures bufferIndex == pc % 8
    {
      bufferIndex := pc % 8;
    }

    /** `bundle_decode`: succeeds exactly on a bundle of at most four words that ends within the line. */
    method BundleDecode(slots: seq<Slot>, buffer: seq<Word>, pc: nat) returns (result: Decoded, slots': seq<Slot>)
      requires bufferIndex < |buffer| == bufferSize == WORDS_PER_LINE && |slots| == SLOTS
      modifies this
      ensures result.Done? <==> BundleSize(buffer, old(bufferIndex)).Some?
      ensures result.Done? ==> BundleSize(buffer, old(bufferIndex)) == Some(result.size)
      ensures result.Done? ==> bufferIndex == (old(bufferIndex) + result.size) % 8 && |slots'| == SLOTS
      ensures result.Done? ==> old(bufferIndex) + result.size <= |buffer| && result.size <= SLOTS
      ensures result.Done? ==> forall i | 0 <= i < SLOTS ::
                if i < result.size then slots'[i] == Slot(pc, buffer[old(bufferIndex) + i], result.size)
                else slots'[i].pc == 0 && slots'[i].raw == 0
      ensures !result.Done? ==> bufferIndex == old(bufferIndex)
    {
      var i, size := bufferIndex, 1;
      slots' := slots;
      while i < |buffer| && !Stop(buffer[i]) && size < bufferSize
        invariant bufferIndex <= i <= |buffer| && size == i - bufferIndex + 1 && size <= bufferSize
        invariant forall k | bufferIndex <= k < i :: !Stop(buffer[k])
        decreases |buffer| - i
      {
        size := size + 1;
        i := i + 1;
      }
      SizeOfBuffer(buffer, bufferIndex, i, size);
      if i == |buffer| {
        return Overrun, slots;
      }
      if size > 4 {
        return Abort, slots;
      }
      for k := 0 to SLOTS
        invariant |slots'| == SLOTS
        invariant forall j | 0 <= j < k ::
                    if j < size then slots'[j] == Slot(pc, buffer[bufferIndex + j], size) else slots'[j].pc == 0 && slots'[j].raw == 0
      {
        if k < size {
          slots' := slots'[k := Slot(pc, buffer[bufferIndex + k], size)];
        } else {
          slots' := slots'[k := Slot(0, 0, slots'[k].bundleSize)];
        }
      }
      bufferIndex := (bufferIndex + size) % 8;
      result := Done(size);
    }
  }

  /** What the scan for the stop bit finds. */
  lemma SizeOfBuffer(buffer: seq<Word>, at: nat, i: nat, size: nat)
    requires at <= i <= |buffer| == WORDS_PER_LINE && size == i - at + 1 && NoStops(buffer, at, i) && at < WORDS_PER_LINE
    requires i == |buffer| || Stop(buffer[i]) || size == WORDS_PER_LINE
    ensures BundleSize(buffer, at) == if i < |buffer| && size <= 4 then Some(size) else None
  {
    FirstLineEnd(at);
    ScanFrom(buffer, at, i, at);
  }

  lemma FirstLineEnd(at: nat)
    requires at < WORDS_PER_LINE
    ensures LineEnd(at) == 8
  {
  }

  lemma {:induction false} ScanFrom(buffer: seq<Word>, at: nat, i: nat, n: nat)
    requires at <= n <= i <= |buffer| == WORDS_PER_LINE && n <= at + SLOTS && NoStops(buffer, at, i) && LineEnd(at) == 8
    requires i == |buffer| || Stop(buffer[i]) || i - at + 1 == WORDS_PER_LINE
    ensures SizeFrom(buffer, at, n) == if i < |buffer| && i - at < SLOTS then Some(i - at + 1) else None
    decreases i - n
  {
    if n < i && n < at + SLOTS {
      ScanFrom(buffer, at, i, n + 1);
    }
  }

  /** The size found in the fetch buffer is the size found in the ROM. */
  lemma SizeInLine(rom: seq<Word>, pc: nat)
    requires RomOk(rom) && pc < |rom|
    ensures BundleSize(LineWords(rom, pc), pc % 8) == BundleSize(rom, pc)
    ensures pc % 8 < WORDS_PER_LINE && LineBase(pc) + pc % 8 == pc && LineEnd(pc) <= |rom|
  {
    AddressOfLine(pc);
    assert LineEnd(pc % 8) == 8;
    SizeInBuffer(LineWords(rom, pc), rom, pc % 8, LineBase(pc), pc % 8);
  }

  lemma {:induction false} SizeInBuffer(buffer: seq<Word>, rom: seq<Word>, i: nat, base: nat, at: nat)
    requires base + 8 <= |rom| && buffer == rom[base..base + 8] && i < 8 && i <= at <= i + SLOTS
    requires LineEnd(i) == 8 && LineEnd(base + i) == base + 8
    ensures SizeFrom(buffer, i, at) == SizeFrom(rom, base + i, base + at)
    decreases i + SLOTS - at
  {
    if at < i + SLOTS && at < 8 {
      SizeInBuffer(buffer, rom, i, base, at + 1);
    }
  }

  // ---------------------------------------------------------------- the processor

  /** The tag of the last address fetched on `line`. */
  function LastTag(fetched: seq<nat>, line: nat): Option<Tag> {
    if fetched == [] then None
    else if GetLine(fetched[|fetched| - 1]) == line then Some(GetTag(fetched[|fetched| - 1]))
    else LastTag(fetched[..|fetched| - 1], line)
  }

  /** The slots hold the ROM words of the bundle at `pc`, and nothing else. */
  ghost predicate SlotsHold(slots: seq<Slot>, rom: seq<Word>, pc: nat, size: nat) {
    && |slots| == SLOTS && size <= SLOTS && pc + size <= |rom|
    && forall i | 0 <= i < SLOTS ::
         if i < size then slots[i] == Slot(pc, rom[pc + i], size) else slots[i].pc == 0 && slots[i].raw == 0
  }

  class Cpu {
    const cache: RomCache
    const fetch: Fetcher
    var pc: nat
    var slots: seq<Slot>
    ghost var fetched: seq<nat>

    /** What holds between any two cycles. */
    ghost predicate Coherent()
      reads this, cache, fetch
    {
      && cache.Valid() && fetch.bufferSize == WORDS_PER_LINE && |slots| == SLOTS
      && fetch.bufferIndex == pc % 8
      && forall line | 0 <= line < LINES :: cache.Tags()[line] == LastTag(fetched, line)
    }

    constructor (rom: seq<Word>)
      requires RomOk(rom)
      ensures Coherent() && pc == 0 && fetched == [] && cache.rom == rom
      ensures fresh(cache) && fresh(fetch)
    {
      cache := new RomCache(rom);
      fetch := new Fetcher(WORDS_PER_LINE);
      pc, slots, fetched := 0, seq(SLOTS, _ => Slot(0, 0, 0)), [];
    }

    /** One cycle up to the control-flow write back; `target` is where the executed bundle branches to, if it does. */
    method Cycle(target: Option<nat>) returns (result: Decoded, time: nat)
      requires Coherent() && pc < |cache.rom|
      modifies this, cache, fetch
      ensures fetched == old(fetched) + [old(pc)]
      ensures time == if LastTag(old(fetched), GetLine(old(pc))) == Some(GetTag(old(pc))) then 0 else PENALTY
      ensures result.Done? <==> BundleSize(cache.rom, old(pc)).Some?
      ensures result.Done? ==> Coherent() && BundleSize(cache.rom, old(pc)) == Some(result.size)
      ensures result.Done? ==> SlotsHold(slots, cache.rom, old(pc), result.size)
      ensures result.Done? ==> pc == if target.Some? then target.value else old(pc) + result.size
    {
      var buffer;
      time, buffer := FetchLine();
      SizeInLine(cache.rom, pc);
      result := DecodeBundle(buffer);
      if result.Done? && target.Some? {
        pc := target.value;
        fetch.LoadPc(pc);
      }
    }

    /** The cache access of a cycle. */
    method FetchLine() returns (time: nat, buffer: seq<Word>)
      requires Coherent() && pc < |cache.rom|
      modifies this`fetched, cache
      ensures Coherent() && buffer == LineWords(cache.rom, pc) && fetched == old(fetched) + [pc]
      ensures time == if LastTag(old(fetched), GetLine(pc)) == Some(GetTag(pc)) then 0 else PENALTY
    {
      time, buffer := cache.Fetch(pc);
      fetched := fetched + [pc];
      forall line | 0 <= line < LINES
        ensures cache.Tags()[line] == LastTag(fetched, line)
      {
        LastTagGrows(old(fetched), pc, line);
      }
    }

    /** Decoding advances program counter and buffer index together. */
    method DecodeBundle(buffer: seq<Word>) returns (result: Decoded)
      requires Coherent() && pc < |cache.rom| && buffer == LineWords(cache.rom, pc)
      requires BundleSize(buffer, pc % 8) == BundleSize(cache.rom, pc)
      modifies this`pc, this`slots, fetch
      ensures result.Done? <==> BundleSize(cache.rom, old(pc)).Some?
      ensures result.Done? ==> Coherent() && BundleSize(cache.rom, old(pc)) == Some(result.size) && pc == old(pc) + result.size
      ensures result.Done? ==> SlotsHold(slots, cache.rom, old(pc), result.size)
    {
      result, slots := fetch.BundleDecode(slots, buffer, pc);
      if result.Done? {
        SlotsFromLine(slots, cache.rom, pc, result.size);
        IndexAdvances(pc, result.size);
        pc := pc + result.size;
      }
    }

    /** `CPU_run`, for as many cycles as there are entries in `targets`, the branches taken bundle by bundle; it ends
        early where the program counter leaves the ROM or a bundle cannot be decoded. */
    method Run(targets: seq<Option<nat>>) returns (cycles: nat, aborted: bool)
      requires Coherent()
      modifies this, cache, fetch
      ensures cycles <= |targets|
      ensures !aborted ==> Coherent() && pc == PcAfter(cache.rom, old(pc), targets, cycles)
      ensures !aborted ==> fetched == old(fetched) + Visited(cache.rom, old(pc), targets, cycles)
      ensures !aborted && cycles < |targets| ==> pc >= |cache.rom|
      ensures aborted ==> cycles < |targets| && !Fetchable(cache.rom, PcAfter(cache.rom, old(pc), targets, cycles))
    {
      cycles := 0;
      while cycles < |targets| && pc < |cache.rom|
        invariant cycles <= |targets| && Coherent() && pc == PcAfter(cache.rom, old(pc), targets, cycles)
        invariant fetched == old(fetched) + Visited(cache.rom, old(pc), targets, cycles)
      {
        var result, time := Cycle(targets[cycles]);
        if !result.Done? {
          return cycles, true;
        }
        cycles := cycles + 1;
      }
      aborted := false;
    }
  }

  lemma LastTagGrows(fetched: seq<nat>, pc: nat, line: nat)
    ensures LastTag(fetched + [pc], line) == if GetLine(pc) == line then Some(GetTag(pc)) else LastTag(fetched, line)
  {
    assert (fetched + [pc])[..|fetched|] == fetched;
  }

  lemma IndexAdvances(pc: nat, size: nat)
    ensures (pc % 8 + size) % 8 == (pc + size) % 8
  {
  }

  lemma SlotsFromLine(slots: seq<Slot>, rom: seq<Word>, pc: nat, size: nat)
    requires RomOk(rom) && pc < |rom| && |slots| == SLOTS && size <= SLOTS && pc % 8 + size <= 8
    requires forall i | 0 <= i < SLOTS ::
               if i < size then slots[i] == Slot(pc, LineWords(rom, pc)[pc % 8 + i], size) else slots[i].pc == 0 && slots[i].raw == 0
    ensures SlotsHold(slots, rom, pc, size)
  {
    SizeInLine(rom, pc);
    WordsOfLine(rom, LineBase(pc), pc % 8, size, slots, pc);
  }

  lemma WordsOfLine(rom: seq<Word>, base: nat, at: nat, size: nat, slots: seq<Slot>, pc: nat)
    requires base + 8 <= |rom| && at + size <= 8 && |slots| == SLOTS && size <= SLOTS && pc == base + at
    requires forall i | 0 <= i < SLOTS ::
               if i < size then slots[i] == Slot(pc, rom[base..base + 8][at + i], size) else slots[i].pc == 0 && slots[i].raw == 0
    ensures SlotsHold(slots, rom, pc, size)
  {
  }

  predicate Fetchable(rom: seq<Word>, pc: nat) {
    pc < |rom| && BundleSize(rom, pc).Some?
  }

  /** The program counter after `n` bundles. */
  function PcAfter(rom: seq<Word>, pc: nat, targets: seq<Option<nat>>, n: nat): nat
    requires n <= |targets|
  {
    if n == 0 then pc
    else
      var at := PcAfter(rom, pc, targets, n - 1);
      if targets[n - 1].Some? then targets[n - 1].value
      else match BundleSize(rom, at) case Some(size) => at + size case None => at
  }

  function Visited(rom: seq<Word>, pc: nat, targets: seq<Option<nat>>, n: nat): seq<nat>
    requires n <= |targets|
  {
    if n == 0 then [] else Visited(rom, pc, targets, n - 1) + [PcAfter(rom, pc, targets, n - 1)]
  }

  // ---------------------------------------------------------------- straight-line code

  /** A bundle as the analyser makes it: the words from its address up to a stop bit. */
  datatype CodeBundle = CodeBundle(address: nat, words: seq<Word>)

  /** The words `code[fi..end]` cut behind every stop bit. */
  ghost predicate IsBundling(code: seq<Word>, fi: nat, end: nat, bundles: seq<CodeBundle>) {
    && fi <= end <= |code| && (bundles == [] <==> fi == end)
    && (bundles != [] ==> bundles[0].address == fi && EndOf(bundles[|bundles| - 1]) == end)
    && (forall k | 0 <= k < |bundles| - 1 :: bundles[k + 1].address == EndOf(bundles[k]))
    && (forall k | 0 <= k < |bundles| :: BundleOk(code, bundles[k]))
    && (forall k | 0 <= k < |bundles| - 1 :: Stop(code[EndOf(bundles[k]) - 1]))
  }

  function EndOf(b: CodeBundle): nat {
    b.address + |b.words|
  }

  /** The words are those of the code, and only the last may have the stop bit. */
  ghost predicate BundleOk(code: seq<Word>, b: CodeBundle) {
    && b.words != [] && EndOf(b) <= |code| && b.words == code[b.address..EndOf(b)]
    && NoStops(code, b.address, EndOf(b) - 1)
  }

  /** `create_bundle_seq` */
  method CreateBundleSeq(code: seq<Word>, fi: nat, li: nat) returns (bundles: seq<CodeBundle>)
    requires fi <= li + 1 <= |code|
    ensures IsBundling(code, fi, li + 1, bundles)
  {
    bundles := [];
    var newBundle := true;
    for i := fi to li + 1
      invariant IsBundling(code, fi, i, bundles)
      invariant newBundle <==> bundles == [] || Stop(code[i - 1])
    {
      if newBundle {
        NewBundle(code, fi, i, bundles);
        bundles := bundles + [CodeBundle(i, [code[i]])];
      } else {
        LongerBundle(code, fi, i, bundles);
        var last := bundles[|bundles| - 1];
        bundles := bundles[|bundles| - 1 := CodeBundle(last.address, last.words + [code[i]])];
      }
      newBundle := Stop(code[i]);
    }
  }

  lemma NewBundle(code: seq<Word>, fi: nat, i: nat, bundles: seq<CodeBundle>)
    requires IsBundling(code, fi, i, bundles) && i < |code| && (bundles == [] || Stop(code[i - 1]))
    ensures IsBundling(code, fi, i + 1, bundles + [CodeBundle(i, [code[i]])])
  {
    var more := bundles + [CodeBundle(i, [code[i]])];
    assert BundleOk(code, CodeBundle(i, [code[i]]));
    forall k | 0 <= k < |more| - 1
      ensures more[k + 1].address == EndOf(more[k]) && Stop(code[EndOf(more[k]) - 1])
    {
      if k < |bundles| - 1 {
        assert bundles[k + 1].address == EndOf(bundles[k]);
      }
    }
  }

  lemma LongerBundle(code: seq<Word>, fi: nat, i: nat, bundles: seq<CodeBundle>)
    requires IsBundling(code, fi, i, bundles) && i < |code| && bundles != [] && !Stop(code[i - 1])
    ensures var last := bundles[|bundles| - 1];
            IsBundling(code, fi, i + 1, bundles[|bundles| - 1 := CodeBundle(last.address, last.words + [code[i]])])
  {
    var last := bundles[|bundles| - 1];
    var longer := CodeBundle(last.address, last.words + [code[i]]);
    assert BundleOk(code, last);
    assert code[last.address..i + 1] == code[last.address..i] + [code[i]];
    assert BundleOk(code, longer);
    var more := bundles[|bundles| - 1 := longer];
    forall k | 0 <= k < |more| - 1
      ensures more[k + 1].address == EndOf(more[k]) && Stop(code[EndOf(more[k]) - 1])
    {
      assert bundles[k + 1].address == EndOf(bundles[k]);
    }
  }

  /** The processor decodes a bundle of the analyser as such exactly when it has at most four words, ends within
      its cache line, and ends with a stop bit. */
  lemma DecodedAsMade(rom: seq<Word>, b: CodeBundle)
    requires BundleOk(rom, b)
    ensures BundleSize(rom, b.address) == Some(|b.words|) <==>
            |b.words| <= SLOTS && CacheState.Bundle(b.address, |b.words|).InsideLine() && Stop(rom[EndOf(b) - 1])
  {
    SizeMeans(rom, b.address, b.address);
    SameLine(b.address, EndOf(b) - 1);
    if |b.words| <= SLOTS && CacheState.Bundle(b.address, |b.words|).InsideLine() && Stop(rom[EndOf(b) - 1]) {
      SizeWithin(rom, b, b.address);
    }
  }

  lemma SameLine(a: nat, b: nat)
    requires a <= b
    ensures b < LineEnd(a) <==> a / 8 == b / 8
  {
  }

  lemma {:induction false} SizeWithin(rom: seq<Word>, b: CodeBundle, at: nat)
    requires BundleOk(rom, b) && b.address <= at < EndOf(b) && |b.words| <= SLOTS
    requires EndOf(b) <= LineEnd(b.address) && Stop(rom[EndOf(b) - 1])
    ensures SizeFrom(rom, b.address, at) == Some(|b.words|)
    decreases EndOf(b) - at
  {
    if at < EndOf(b) - 1 {
      SizeWithin(rom, b, at + 1);
    }
  }

  /** Every bundle can be decoded as it was made. */
  ghost predicate AllDecodable(rom: seq<Word>, bundles: seq<CodeBundle>) {
    forall k | 0 <= k < |bundles| :: BundleSize(rom, bundles[k].address) == Some(|bundles[k].words|)
  }

  /** Fetching straight on from the start of a block, the processor comes to each bundle of the analyser in turn. */
  lemma {:induction false} StraightLine(rom: seq<Word>, fi: nat, end: nat, bundles: seq<CodeBundle>, targets: seq<Option<nat>>, k: nat)
    requires IsBundling(rom, fi, end, bundles) && AllDecodable(rom, bundles) && k <= |bundles| <= |targets|
    requires forall i | 0 <= i < k :: targets[i] == None
    ensures PcAfter(rom, fi, targets, k) == if k < |bundles| then bundles[k].address else end
  {
    if k > 0 {
      StraightLine(rom, fi, end, bundles, targets, k - 1);
      NextBundle(rom, fi, end, bundles, k - 1);
    }
  }

  lemma NextBundle(rom: seq<Word>, fi: nat, end: nat, bundles: seq<CodeBundle>, k: nat)
    requires IsBundling(rom, fi, end, bundles) && AllDecodable(rom, bundles) && k < |bundles|
    ensures BundleSize(rom, bundles[k].address) == Some(|bundles[k].words|)
    ensures bundles[k].address + |bundles[k].words| == if k + 1 < |bundles| then bundles[k + 1].address else end
  {
  }

  /** The addresses it visits are exactly those of the bundles. */
  lemma {:induction false} VisitsBundles(rom: seq<Word>, fi: nat, end: nat, bundles: seq<CodeBundle>, targets: seq<Option<nat>>, k: nat)
    requires IsBundling(rom, fi, end, bundles) && AllDecodable(rom, bundles) && k <= |bundles| <= |targets|
    requires forall i | 0 <= i < k :: targets[i] == None
    ensures Visited(rom, fi, targets, k) == Addresses(AsBundles(bundles))[..k]
  {
    if k > 0 {
      VisitsBundles(rom, fi, end, bundles, targets, k - 1);
      StraightLine(rom, fi, end, bundles, targets, k - 1);
      OneMoreAddress(bundles, k - 1);
    }
  }

  lemma OneMoreAddress(bundles: seq<CodeBundle>, k: nat)
    requires k < |bundles|
    ensures Addresses(AsBundles(bundles))[..k + 1] == Addresses(AsBundles(bundles))[..k] + [bundles[k].address]
  {
  }

  // ---------------------------------------------------------------- the analyser's cache

  function AsBundle(b: CodeBundle): CacheState.Bundle {
    CacheState.Bundle(b.address, |b.words|)
  }

  /** The bundles of a block as the cache analysis sees them. */
  function AsBundles(bundles: seq<CodeBundle>): (r: seq<CacheState.Bundle>)
    ensures |r| == |bundles|
  {
    seq(|bundles|, i requires 0 <= i < |bundles| => AsBundle(bundles[i]))
  }

  /** The bundles the analyser makes are placed as its cache analysis requires. */
  lemma MadeWellPlaced(rom: seq<Word>, fi: nat, end: nat, bundles: seq<CodeBundle>)
    requires IsBundling(rom, fi, end, bundles) && AllDecodable(rom, bundles)
    ensures WellPlaced(AsBundles(bundles))
  {
    var us := AsBundles(bundles);
    forall j | 0 <= j < |us|
      ensures us[j].InsideLine()
    {
      assert BundleOk(rom, bundles[j]);
      DecodedAsMade(rom, bundles[j]);
    }
    forall j | 0 <= j < |us| - 1
      ensures us[j + 1].address == us[j].address + us[j].size
    {
      assert bundles[j + 1].address == EndOf(bundles[j]);
    }
  }

  /** The analyser's cache, fed with the bundles fetched, holds the tags of the processor's cache; so its hits are
      the processor's hits. */
  lemma {:induction false} SameCache(fetched: seq<nat>, c: CacheState.Cache, bundles: seq<CacheState.Bundle>, line: nat)
    requires line < LINES && c[line] == LastTag(fetched, line)
    ensures RunBundles(c, bundles)[line] == LastTag(fetched + Addresses(bundles), line)
  {
    if bundles == [] {
      assert fetched + Addresses(bundles) == fetched;
    } else {
      var rest, u := bundles[..|bundles| - 1], bundles[|bundles| - 1];
      SameCache(fetched, c, rest, line);
      var all := fetched + Addresses(bundles);
      assert all[..|all| - 1] == fetched + Addresses(rest);
      assert all[|all| - 1] == u.address;
    }
  }

  function Addresses(bundles: seq<CacheState.Bundle>): (r: seq<nat>)
    ensures |r| == |bundles|
  {
    seq(|bundles|, i requires 0 <= i < |bundles| => bundles[i].address)
  }
}
