/** Memory images as text: the printer of the analyser and the parser of the simulator. */
module Mif {
  import opened Options

  const ROM_WORDS: nat := 16384
  const SCRATCHPAD_WORDS: nat := 4096
  const SPRAM_WORDS: nat := 2048
  const WRAP: nat := 0x1_0000_0000

  type Word = w: nat | w < 0x1_0000_0000

  // ---------------------------------------------------------------- numbers as text

  function Digit(d: nat): char
    requires d < 16
  {
    "0123456789ABCDEF"[d]
  }

  /** Decimal without leading zeros. */
  function Decimal(v: nat): string {
    if v < 10 then [Digit(v)] else Decimal(v / 10) + [Digit(v % 10)]
  }

  /** `n` upper-case hexadecimal digits. */
  function Hex(v: nat, n: nat): string {
    if n == 0 then "" else Hex(v / 16, n - 1) + [Digit(v % 16)]
  }

  function DigitValue(c: char): int {
    if '0' <= c <= '9' then c as int - '0' as int
    else if 'A' <= c <= 'F' then c as int - 'A' as int + 10
    else if 'a' <= c <= 'f' then c as int - 'a' as int + 10
    else -1
  }

  predicate IsDigit(c: char, radix: nat) {
    0 <= DigitValue(c) < radix
  }

  /** The longest prefix of digits: its value, added to `v`, and what follows. */
  function Digits(s: string, radix: nat, v: nat): (r: (nat, string))
    ensures |r.1| <= |s|
  {
    if s == "" || !IsDigit(s[0], radix) then (v, s) else Digits(s[1..], radix, v * radix + DigitValue(s[0]))
  }

  lemma DigitIsDigit(d: nat)
    requires d < 16
    ensures DigitValue(Digit(d)) == d
  {
  }

  lemma {:induction false} DigitsJoin(s: string, t: string, radix: nat, v: nat)
    requires forall i | 0 <= i < |s| :: IsDigit(s[i], radix)
    ensures Digits(s, radix, v).1 == "" && Digits(s + t, radix, v) == Digits(t, radix, Digits(s, radix, v).0)
  {
    if s == "" {
      assert s + t == t;
    } else {
      DigitsJoin(s[1..], t, radix, v * radix + DigitValue(s[0]));
      assert (s + t)[1..] == s[1..] + t;
    }
  }

  predicate EndsDigits(t: string, radix: nat) {
    t == "" || !IsDigit(t[0], radix)
  }

  lemma AppendDigit(s: string, d: nat, t: string, radix: nat, v: nat)
    requires (forall i | 0 <= i < |s| :: IsDigit(s[i], radix)) && Digits(s, radix, 0) == (v, "")
    requires d < radix <= 16 && EndsDigits(t, radix)
    ensures Digits(s + [Digit(d)] + t, radix, 0) == (v * radix + d, t)
  {
    DigitIsDigit(d);
    DigitsJoin(s, [Digit(d)] + t, radix, 0);
    assert s + [Digit(d)] + t == s + ([Digit(d)] + t);
    assert ([Digit(d)] + t)[1..] == t;
  }

  /** Reading back a decimal number. */
  lemma {:induction false} DecimalBack(v: nat, t: string)
    requires EndsDigits(t, 10)
    ensures Digits(Decimal(v) + t, 10, 0) == (v, t)
    ensures Decimal(v) != "" && forall i | 0 <= i < |Decimal(v)| :: IsDigit(Decimal(v)[i], 10)
  {
    DigitIsDigit(v % 10);
    if v < 10 {
      AppendDigit("", v, t, 10, 0);
      assert "" + [Digit(v)] == [Digit(v)];
    } else {
      DecimalBack(v / 10, "");
      assert Decimal(v / 10) + "" == Decimal(v / 10);
      AppendDigit(Decimal(v / 10), v % 10, t, 10, v / 10);
    }
  }

  /** Reading back a hexadecimal number that fits. */
  lemma {:induction false} HexBack(v: nat, n: nat, t: string)
    requires EndsDigits(t, 16)
    ensures |Hex(v, n)| == n && forall i | 0 <= i < n :: IsDigit(Hex(v, n)[i], 16)
    ensures Digits(Hex(v, n) + t, 16, 0) == (v % Pow16(n), t)
  {
    if n == 0 {
      assert Hex(v, n) + t == t;
    } else {
      DigitIsDigit(v % 16);
      HexBack(v / 16, n - 1, "");
      assert Hex(v / 16, n - 1) + "" == Hex(v / 16, n - 1);
      AppendDigit(Hex(v / 16, n - 1), v % 16, t, 16, v / 16 % Pow16(n - 1));
      RestOfDigits(v, Pow16(n - 1));
    }
  }

  function Pow16(n: nat): nat
    ensures Pow16(n) > 0
  {
    if n == 0 then 1 else 16 * Pow16(n - 1)
  }

  lemma RestOfDigits(v: nat, m: nat)
    requires m > 0
    ensures v / 16 % m * 16 + v % 16 == v % (16 * m)
  {
    var q := v / 16 / m;
    assert v / 16 == q * m + v / 16 % m;
    assert v == 16 * (v / 16) + v % 16;
    var r := v / 16 % m * 16 + v % 16;
    assert v == q * (16 * m) + r by {
      assert 16 * (q * m) == q * (16 * m);
    }
    assert 0 <= r < 16 * m;
    Remainder(v, 16 * m, q, r);
  }

  lemma Remainder(v: nat, m: nat, q: nat, r: nat)
    requires m > 0 && v == q * m + r && r < m
    ensures v % m == r
  {
    var k := v / m;
    assert v == k * m + v % m;
    assert k < q ==> (k + 1) * m <= q * m;
    assert k > q ==> (q + 1) * m <= k * m;
  }

  // ---------------------------------------------------------------- the printer

  const WIDTH: string := "WIDTH = 32;"
  const ADDRESS: string := "ADDRESS_RADIX=UNS;"
  const DATA: string := "DATA_RADIX=HEX;"
  const CONTENT: string := "CONTENT BEGIN"

  function Line(s: string): string {
    s + "\n"
  }

  function DepthLine(depth: nat): string {
    "DEPTH = " + Decimal(depth) + ";"
  }

  function Header(depth: nat): string {
    Line(WIDTH) + Line(DepthLine(depth)) + Line("") + Line(ADDRESS) + Line(DATA) + Line("") + Line(CONTENT)
  }

  function DataLine(index: nat, w: Word): string {
    Decimal(index) + "\t:\t" + Hex(w, 8) + ";"
  }

  /** One line for every word, numbered from `index`. */
  function DataLines(index: nat, words: seq<Word>): string {
    if words == [] then ""
    else DataLines(index, words[..|words| - 1]) + Line(DataLine(index + |words| - 1, words[|words| - 1]))
  }

  function FillLine(total: nat, depth: int, fill: string): string
    requires depth > 0
  {
    "[" + Decimal(total) + ".." + Decimal(depth - 1) + "]\t:\t" + fill + ";"
  }

  function LastLines(total: nat, depth: int, fill: string): string
    requires depth > 0
  {
    Line(FillLine(total, depth, fill)) + Line("END;")
  }

  function Print(words: seq<Word>, depth: nat, fill: string): string
    requires depth > 0
  {
    Header(depth) + DataLines(0, words) + LastLines(|words|, depth, fill)
  }

  function Concat(sections: seq<seq<Word>>): seq<Word> {
    if sections == [] then [] else Concat(sections[..|sections| - 1]) + sections[|sections| - 1]
  }

  lemma {:induction false} LinesJoin(index: nat, a: seq<Word>, b: seq<Word>)
    ensures DataLines(index, a + b) == DataLines(index, a) + DataLines(index + |a|, b)
  {
    if b == [] {
      assert a + b == a;
    } else {
      var rest, line := b[..|b| - 1], Line(DataLine(index + |a| + |b| - 1, b[|b| - 1]));
      assert (a + b)[..|a + b| - 1] == a + rest;
      LinesJoin(index, a, rest);
      Associative(DataLines(index, a), DataLines(index + |a|, rest), line);
    }
  }

  lemma Associative(a: string, b: string, c: string)
    ensures (a + b) + c == a + (b + c)
  {
  }

  /** `write_section`: the index runs on through the sections. */
  method WriteSection(index: nat, text: string, buffer: seq<Word>) returns (index': nat, text': string)
    ensures index' == index + |buffer| && text' == text + DataLines(index, buffer)
  {
    index', text' := index, text;
    for i := 0 to |buffer|
      invariant index' == index + i && text' == text + DataLines(index, buffer[..i])
    {
      Associative(text, DataLines(index, buffer[..i]), Line(DataLine(index', buffer[i])));
      text' := text' + Line(DataLine(index', buffer[i]));
      index' := index' + 1;
      ghost var done := buffer[..i + 1];
      assert done[..|done| - 1] == buffer[..i];
    }
    assert buffer[..|buffer|] == buffer;
  }

  /** `dump_to_file`, with depth and fill; fails when the sections do not fit the ROM. */
  method Dump(sections: seq<seq<Word>>, depth: nat, fill: string) returns (text: Option<string>)
    requires depth > 0
    ensures text == if |Concat(sections)| > ROM_WORDS - 1 then None else Some(Print(Concat(sections), depth, fill))
  {
    var out := Header(depth);
    ghost var start := out;
    var total := 0;
    for i := 0 to |sections|
      invariant total == |Concat(sections[..i])| && out == start + DataLines(0, Concat(sections[..i]))
    {
      ConcatGrows(sections, i);
      MoreLines(start, Concat(sections[..i]), sections[i]);
      total, out := WriteSection(total, out, sections[i]);
    }
    assert sections[..|sections|] == sections;
    if total > ROM_WORDS - 1 {
      return None;
    }
    text := Some(out + LastLines(total, depth, fill));
  }

  lemma ConcatGrows(sections: seq<seq<Word>>, i: nat)
    requires i < |sections|
    ensures Concat(sections[..i + 1]) == Concat(sections[..i]) + sections[i]
  {
    var done := sections[..i + 1];
    assert done[..|done| - 1] == sections[..i] && done[|done| - 1] == sections[i];
  }

  lemma MoreLines(start: string, a: seq<Word>, b: seq<Word>)
    ensures start + DataLines(0, a + b) == start + DataLines(0, a) + DataLines(|a|, b)
  {
    LinesJoin(0, a, b);
    Associative(start, DataLines(0, a), DataLines(|a|, b));
  }

  // ---------------------------------------------------------------- the parser

  predicate Contains(line: string, pattern: string) {
    exists i: nat | i <= |line| :: MatchesAt(line, i, pattern)
  }

  predicate MatchesAt(line: string, i: nat, pattern: string) {
    i + |pattern| <= |line| && line[i..i + |pattern|] == pattern
  }

  /** `substr`; fails when it starts behind the end. */
  function Substr(s: string, pos: nat, n: nat): Option<string> {
    if pos > |s| then None else if pos + n <= |s| then Some(s[pos..pos + n]) else Some(s[pos..])
  }

  function SkipSpace(s: string): (r: string)
    ensures |r| <= |s|
  {
    if s != "" && (s[0] == ' ' || s[0] == '\t') then SkipSpace(s[1..]) else s
  }

  function Sign(s: string): (r: (int, string))
    ensures |r.1| <= |s|
  {
    if s != "" && s[0] == '-' then (-1, s[1..]) else if s != "" && s[0] == '+' then (1, s[1..]) else (1, s)
  }

  predicate HexPrefix(s: string) {
    |s| >= 3 && s[0] == '0' && (s[1] == 'x' || s[1] == 'X') && IsDigit(s[2], 16)
  }

  /** A number in the given radix, or none when there is no digit. */
  function Number(s: string, radix: nat): Option<(int, string)> {
    var signed := Sign(SkipSpace(s));
    var start := if radix == 16 && HexPrefix(signed.1) then signed.1[2..] else signed.1;
    var r := Digits(start, radix, 0);
    if start == "" || !IsDigit(start[0], radix) then None else Some((signed.0 * r.0, r.1))
  }

  /** `stoi` with base 0: hexadecimal after 0x, octal after 0, decimal otherwise. */
  function Stoi(s: string): Option<int> {
    var digits := Sign(SkipSpace(s)).1;
    var radix := if HexPrefix(digits) then 16 else if digits != "" && digits[0] == '0' then 8 else 10;
    match Number(s, radix)
    case Some(r) => Some(r.0)
    case None => None
  }

  /** `sscanf` with the format of a data line: both numbers, or none. */
  function Scan(line: string): Option<(int, int)> {
    match Number(line, 10)
    case None => None
    case Some(a) =>
      var rest := SkipSpace(a.1);
      if rest == "" || rest[0] != ':' then None
      else
        match Number(rest[1..], 16)
        case None => None
        case Some(d) => Some((a.0, d.0 % WRAP))
  }

  datatype State = State(i: nat, hexRadix: bool, content: bool, words: nat, memory: seq<Word>)

  /** What a line leads to: `Crash` stands for an exception or a write outside the array. */
  datatype Step = Continue(s: State) | Break | Fail | Crash

  /** The check of a header line: the number behind the keyword. */
  function HeaderLine(line: string, keyword: string, n: nat, expected: int): Step
  {
    if !Contains(line, keyword) then Fail
    else
      match Substr(line, 8, n)
      case None => Crash
      case Some(t) =>
        match Stoi(t)
        case None => Crash
        case Some(v) => if v == expected then Break else Fail
  }

  function LineStep(line: string, size: nat, s: State): Step {
    var next := s.(i := s.i + 1);
    var header := if s.i == 0 then HeaderLine(line, "WIDTH =", 3, 32)
                  else if s.i == 1 then HeaderLine(line, "DEPTH =", 5, size)
                  else Break;
    if header != Break then header
    else if line == "" then Continue(next)
    else if !s.hexRadix then
      if !Contains(line, "DATA_RADIX=") then Continue(next)
      else
        match Substr(line, 11, 3)
        case None => Crash
        case Some(radix) => if Contains(radix, "HEX") then Continue(next.(hexRadix := true)) else Fail
    else if !s.content then
      if Contains(line, "CONTENT BEGIN") then Continue(next.(content := true)) else Continue(next)
    else if Contains(line, "[") then Break
    else
      match Scan(line)
      case None => Fail
      case Some(r) =>
        if r.0 > size then Fail
        else if r.0 < 0 || r.0 >= |s.memory| then Crash
        else Continue(next.(memory := s.memory[r.0 := r.1], words := s.words + 1))
  }

  /** `getline`: up to the next line end. */
  function GetLine(text: string): (r: (string, string))
    ensures text != "" ==> |r.1| < |text|
  {
    if text == "" then ("", "")
    else if text[0] == '\n' then ("", text[1..])
    else var r := GetLine(text[1..]); ([text[0]] + r.0, r.1)
  }

  datatype Result = Parsed(memory: seq<Word>) | Rejected | Crashed

  /** The memory behind the words read is filled. */
  function Fill(s: State, size: nat, fill: Word): seq<Word>
    requires s.words <= |s.memory| == size
  {
    s.memory[..s.words] + seq(size - s.words, _ => fill)
  }

  function ParseLines(text: string, size: nat, fill: Word, s: State): Result
    requires |s.memory| == size
    decreases |text|
  {
    if text == "" then Finish(s, size, fill)
    else
      var l := GetLine(text);
      match LineStep(l.0, size, s)
      case Continue(next) => ParseLines(l.1, size, fill, next)
      case Break => Finish(s, size, fill)
      case Fail => Rejected
      case Crash => Crashed
  }

  /** After the loop: more words than memory leave nothing to fill. */
  function Finish(s: State, size: nat, fill: Word): Result
    requires |s.memory| == size
  {
    Parsed(if s.words <= size then Fill(s, size, fill) else s.memory)
  }

  /** `parse` */
  method Parse(text: string, memory: array<Word>, fill: Word) returns (result: Result)
    modifies memory
    ensures result == ParseLines(text, memory.Length, fill, State(0, false, false, 0, old(memory[..])))
    ensures result.Parsed? ==> result.memory == memory[..]
  {
    var rest, s := text, State(0, false, false, 0, memory[..]);
    ghost var start := s;
    while rest != ""
      invariant s.memory == memory[..]
      invariant ParseLines(text, memory.Length, fill, start) == ParseLines(rest, memory.Length, fill, s)
      decreases |rest|
    {
      var l := GetLine(rest);
      var step := ParseLine(l.0, memory, s);
      match step {
        case Fail => return Rejected;
        case Crash => return Crashed;
        case Break => break;
        case Continue(next) => s, rest := next, l.1;
      }
    }
    result := FillRest(memory, s.words, fill);
  }

  /** The body of the loop for one line. */
  method ParseLine(line: string, memory: array<Word>, s: State) returns (step: Step)
    requires s.memory == memory[..]
    modifies memory
    ensures step == LineStep(line, memory.Length, s)
    ensures memory[..] == if step.Continue? then step.s.memory else s.memory
  {
    var size := memory.Length;
    var next := s.(i := s.i + 1);
    if s.i == 0 || s.i == 1 {
      var header := if s.i == 0 then HeaderLine(line, "WIDTH =", 3, 32) else HeaderLine(line, "DEPTH =", 5, size);
      if header == Fail || header == Crash {
        return header;
      }
    }
    if line == "" {
      return Continue(next);
    }
    if !s.hexRadix {
      if !Contains(line, "DATA_RADIX=") {
        return Continue(next);
      }
      var radix := Substr(line, 11, 3);
      if radix == None {
        return Crash;
      }
      if !Contains(radix.value, "HEX") {
        return Fail;
      }
      return Continue(next.(hexRadix := true));
    }
    if !s.content {
      if Contains(line, "CONTENT BEGIN") {
        next := next.(content := true);
      }
      return Continue(next);
    }
    if Contains(line, "[") {
      return Break;
    }
    var r := Scan(line);
    if r == None || r.value.0 > size {
      return Fail;
    }
    if r.value.0 < 0 || r.value.0 >= size {
      return Crash;
    }
    memory[r.value.0] := r.value.1;
    step := Continue(next.(memory := s.memory[r.value.0 := r.value.1], words := s.words + 1));
  }

  /** The loop that fills the memory behind the words read. */
  method FillRest(memory: array<Word>, words: nat, fill: Word) returns (result: Result)
    modifies memory
    ensures forall s: State | s.words == words && s.memory == old(memory[..]) :: result == Finish(s, memory.Length, fill)
    ensures result == Parsed(memory[..])
  {
    var k := words;
    while k < memory.Length
      invariant k >= words && (words <= memory.Length ==> k <= memory.Length)
      invariant forall j | 0 <= j < memory.Length :: memory[j] == if words <= j < k then fill else old(memory[j])
    {
      memory[k] := fill;
      k := k + 1;
    }
    result := Parsed(memory[..]);
  }

  // ---------------------------------------------------------------- printing and parsing are inverse

  predicate OneLine(s: string) {
    '\n' !in s
  }

  lemma {:induction false} GetLineOf(line: string, rest: string)
    requires OneLine(line)
    ensures GetLine(Line(line) + rest) == (line, rest) && Line(line) + rest != ""
  {
    var text := Line(line) + rest;
    if line == "" {
      assert text[1..] == rest;
    } else {
      assert text[0] == line[0];
      assert text[1..] == Line(line[1..]) + rest;
      GetLineOf(line[1..], rest);
      assert line == [line[0]] + line[1..];
    }
  }

  /** Parsing goes on behind the first line. */
  lemma LineParsed(line: string, rest: string, size: nat, fill: Word, s: State)
    requires OneLine(line) && |s.memory| == size
    ensures ParseLines(Line(line) + rest, size, fill, s) ==
            match LineStep(line, size, s)
            case Continue(next) => ParseLines(rest, size, fill, next)
            case Break => Finish(s, size, fill)
            case Fail => Rejected
            case Crash => Crashed
  {
    GetLineOf(line, rest);
  }

  /** A line without the first character of a pattern does not contain it from there. */
  lemma NoMatch(line: string, i: nat, pattern: string)
    requires pattern != "" && i <= |line|
    ensures MatchesAt(line, i, pattern) ==> i + |pattern| <= |line| && line[i] == pattern[0] && (|pattern| > 1 ==> line[i + 1] == pattern[1])
  {
    if MatchesAt(line, i, pattern) {
      assert line[i..i + |pattern|][0] == line[i];
      assert |pattern| > 1 ==> line[i..i + |pattern|][1] == line[i + 1];
    }
  }

  lemma {:induction false} DecimalLength(v: nat, n: nat)
    requires n > 0 && v < Pow10(n)
    ensures 0 < |Decimal(v)| <= n && (v > 0 ==> Decimal(v)[0] != '0')
  {
    if v >= 10 {
      DecimalLength(v / 10, n - 1);
    }
  }

  function Pow10(n: nat): nat {
    if n == 0 then 1 else 10 * Pow10(n - 1)
  }

  /** A positive decimal number, cut behind its end, is read back by `stoi`. */
  lemma StoiBack(v: nat, t: string)
    requires v > 0 && EndsDigits(t, 16)
    ensures Stoi(Decimal(v) + t) == Some(v)
  {
    var s := Decimal(v) + t;
    DecimalBack(v, t);
    DecimalLength(v, v + 1) by {
      BelowPow10(v);
    }
    assert s[0] == Decimal(v)[0] && IsDigit(s[0], 10);
    assert SkipSpace(s) == s && Sign(s) == (1, s) && !HexPrefix(s);
  }

  lemma {:induction false} BelowPow10(v: nat)
    ensures v < Pow10(v + 1)
  {
    if v > 0 {
      BelowPow10(v - 1);
    }
  }

  function Started(memory: seq<Word>): State {
    State(0, false, false, 0, memory)
  }

  lemma WidthAccepted(size: nat, s: State)
    requires s.i == 0 && !s.hexRadix && !s.content
    ensures LineStep(WIDTH, size, s) == Continue(s.(i := 1))
  {
    assert MatchesAt(WIDTH, 0, "WIDTH =");
    assert WIDTH[8..11] == "32;";
    StoiBack(32, ";");
    assert Decimal(32) + ";" == "32;" by {
      assert Decimal(3) == "3";
      assert Decimal(32) == "32";
    }
    forall i: nat | i <= |WIDTH|
      ensures !MatchesAt(WIDTH, i, "DATA_RADIX=")
    {
      NoMatch(WIDTH, i, "DATA_RADIX=");
    }
  }

  /** The depth line is accepted exactly when the depth printed is the size expected. */
  lemma DepthAccepted(depth: nat, size: nat, s: State)
    requires s.i == 1 && !s.hexRadix && !s.content && 0 < depth < 100000
    ensures LineStep(DepthLine(depth), size, s) == if depth == size then Continue(s.(i := 2)) else Fail
  {
    var line, d := DepthLine(depth), Decimal(depth);
    assert Pow10(5) == 100000;
    DecimalLength(depth, 5);
    assert MatchesAt(line, 0, "DEPTH =");
    assert line == "DEPTH = " + (d + ";");
    var t := Substr(line, 8, 5).value;
    if |d| == 5 {
      assert t == d + "";
      StoiBack(depth, "");
    } else {
      assert t == d + ";";
      StoiBack(depth, ";");
    }
    forall i: nat | i <= |line|
      ensures !MatchesAt(line, i, "DATA_RADIX=")
    {
      NoMatch(line, i, "DATA_RADIX=");
      if i == 0 {
        assert line[1] == 'E';
      } else if i <= 3 {
        assert line[i] == "DEPTH = "[i];
      }
    }
  }

  lemma RadixLines(size: nat, s: State)
    requires s.i >= 2 && !s.hexRadix && !s.content
    ensures LineStep(ADDRESS, size, s) == Continue(s.(i := s.i + 1))
    ensures LineStep(DATA, size, s) == Continue(s.(i := s.i + 1, hexRadix := true))
  {
    forall i: nat | i <= |ADDRESS|
      ensures !MatchesAt(ADDRESS, i, "DATA_RADIX=")
    {
      NoMatch(ADDRESS, i, "DATA_RADIX=");
      if i <= 7 {
        assert !(ADDRESS[i] == 'D' && ADDRESS[i + 1] == 'A');
      }
    }
    assert MatchesAt(DATA, 0, "DATA_RADIX=");
    assert DATA[11..14] == "HEX";
    assert MatchesAt("HEX", 0, "HEX");
  }

  lemma ContentLine(size: nat, s: State)
    requires s.i >= 2 && s.hexRadix && !s.content
    ensures LineStep(CONTENT, size, s) == Continue(s.(i := s.i + 1, content := true))
  {
    assert MatchesAt(CONTENT, 0, "CONTENT BEGIN");
  }

  // Data lines.

  lemma NumberBack(digits: string, t: string, radix: nat, v: nat)
    requires digits != "" && IsDigit(digits[0], radix) && (radix == 10 || radix == 16)
    requires Digits(digits + t, radix, 0) == (v, t) && !HexPrefix(digits + t)
    ensures Number(digits + t, radix) == Some((v, t))
  {
    var s := digits + t;
    assert s[0] == digits[0];
    assert SkipSpace(s) == s && Sign(s) == (1, s);
  }

  lemma AddressScanned(index: nat, rest: string)
    requires rest != "" && rest[0] == '\t'
    ensures Number(Decimal(index) + rest, 10) == Some((index, rest))
  {
    DecimalBack(index, rest);
    NoHexPrefix(Decimal(index), rest, index);
    NumberBack(Decimal(index), rest, 10, index);
  }

  lemma TabSkipped(s: string)
    requires s != "" && s[0] != ' ' && s[0] != '\t'
    ensures SkipSpace("\t" + s) == s
  {
    assert ("\t" + s)[1..] == s;
  }

  lemma DataLineSplits(index: nat, w: Word, rest: string)
    requires rest == ":" + ("\t" + (Hex(w, 8) + ";"))
    ensures DataLine(index, w) == Decimal(index) + ("\t" + rest)
  {
  }

  /** A data line is scanned as its address and its word. */
  lemma DataLineScanned(index: nat, w: Word)
    ensures Scan(DataLine(index, w)) == Some((index, w))
  {
    var tail := "\t" + (Hex(w, 8) + ";");
    var rest := ":" + tail;
    DataLineSplits(index, w, rest);
    AddressScanned(index, "\t" + rest);
    TabSkipped(rest);
    assert rest[1..] == tail;
    WordScanned(w);
  }

  /** The fill line names, in decimal, the first address behind the words and the last of the image, and then the fill. */
  lemma FillLineRead(total: nat, depth: nat, fill: string)
    requires depth > 0
    ensures var line := FillLine(total, depth, fill);
            && line != "" && line[0] == '['
            && exists rest :: Digits(line[1..], 10, 0) == (total, ".." + rest) &&
                              Digits(rest, 10, 0) == (depth - 1, "]\t:\t" + fill + ";")
  {
    var tail := "]\t:\t" + fill + ";";
    var rest := Decimal(depth - 1) + tail;
    FillLineSplits(total, depth, fill, rest);
    assert tail[0] == ']';
    DecimalBack(total, ".." + rest);
    DecimalBack(depth - 1, tail);
  }

  lemma FillLineSplits(total: nat, depth: nat, fill: string, rest: string)
    requires depth > 0 && rest == Decimal(depth - 1) + ("]\t:\t" + fill + ";")
    ensures FillLine(total, depth, fill) == "[" + (Decimal(total) + (".." + rest))
  {
  }

  lemma HexWord(w: Word)
    ensures |Hex(w, 8)| == 8 && forall i | 0 <= i < 8 :: IsDigit(Hex(w, 8)[i], 16)
    ensures Digits(Hex(w, 8) + ";", 16, 0) == (w, ";")
  {
    EightDigits();
    HexFits(w, 8, ";");
  }

  lemma EightDigits()
    ensures Pow16(8) == WRAP
  {
    assert Pow16(2) == 256;
    assert Pow16(4) == 65536;
  }

  lemma HexFits(v: nat, n: nat, t: string)
    requires v < Pow16(n) && EndsDigits(t, 16)
    ensures |Hex(v, n)| == n && forall i | 0 <= i < n :: IsDigit(Hex(v, n)[i], 16)
    ensures Digits(Hex(v, n) + t, 16, 0) == (v, t)
  {
    HexBack(v, n, t);
    Remainder(v, Pow16(n), 0, v);
  }

  lemma WordScanned(w: Word)
    ensures Number("\t" + (Hex(w, 8) + ";"), 16) == Some((w, ";"))
  {
    HexWord(w);
    HexScanned(Hex(w, 8), w);
  }

  lemma HexScanned(hex: string, v: nat)
    requires |hex| == 8 && (forall i | 0 <= i < 8 :: IsDigit(hex[i], 16)) && Digits(hex + ";", 16, 0) == (v, ";")
    ensures Number("\t" + (hex + ";"), 16) == Some((v, ";"))
  {
    var s := hex + ";";
    assert s[0] == hex[0] && s[1] == hex[1];
    TabSkipped(s);
    NumberAfter("\t" + s, s, v);
  }

  lemma NumberAfter(text: string, s: string, v: nat)
    requires SkipSpace(text) == s && s != "" && IsDigit(s[0], 16) && !HexPrefix(s) && Digits(s, 16, 0) == (v, ";")
    ensures Number(text, 16) == Some((v, ";"))
  {
    assert Sign(s) == (1, s);
  }

  lemma NoHexPrefix(digits: string, t: string, v: nat)
    requires digits != "" && (forall i | 0 <= i < |digits| :: IsDigit(digits[i], 10)) && t != "" && t[0] == '\t'
    ensures !HexPrefix(digits + t)
  {
    var s := digits + t;
    if |digits| > 1 {
      assert s[1] == digits[1];
    } else {
      assert s[1] == t[0];
    }
  }

  /** No bracket, no line end in a data line. */
  lemma DataLinePlain(index: nat, w: Word)
    ensures OneLine(DataLine(index, w)) && !Contains(DataLine(index, w), "[") && DataLine(index, w) != ""
  {
    var line := DataLine(index, w);
    DecimalBack(index, "");
    HexBack(w, 8, "");
    forall i: nat | i < |line|
      ensures line[i] != '[' && line[i] != '\n'
    {
      var a, n := Decimal(index), |Decimal(index)|;
      assert line == a + ("\t:\t" + (Hex(w, 8) + ";"));
      if i < n {
        assert line[i] == a[i];
      } else if i < n + 3 {
        assert line[i] == "\t:\t"[i - n];
      } else if i < n + 11 {
        assert line[i] == Hex(w, 8)[i - n - 3];
      } else {
        assert line[i] == ';';
      }
    }
    forall i: nat | i <= |line|
      ensures !MatchesAt(line, i, "[")
    {
      NoMatch(line, i, "[");
    }
  }

  /** The state when `n` words have been read. */
  function ReadSoFar(words: seq<Word>, n: nat, memory: seq<Word>): State
    requires n <= |words| && n <= |memory|
  {
    State(7 + n, true, true, n, words[..n] + memory[n..])
  }

  lemma DataStep(words: seq<Word>, n: nat, memory: seq<Word>)
    requires n < |words| && n < |memory|
    ensures LineStep(DataLine(n, words[n]), |memory|, ReadSoFar(words, n, memory)) == Continue(ReadSoFar(words, n + 1, memory))
  {
    AddressChecked(n, words[n], ReadSoFar(words, n, memory));
    var before, after := ReadSoFar(words, n, memory).memory, ReadSoFar(words, n + 1, memory).memory;
    assert before[n := words[n]] == after;
  }

  /** Parsing the data lines stores the words in order. */
  lemma {:induction false} DataParsed(words: seq<Word>, n: nat, memory: seq<Word>, fill: Word, rest: string)
    requires n <= |words| <= |memory|
    ensures ParseLines(DataLines(n, words[n..]) + rest, |memory|, fill, ReadSoFar(words, n, memory)) ==
            ParseLines(rest, |memory|, fill, ReadSoFar(words, |words|, memory))
    decreases |words| - n
  {
    if n == |words| {
      assert DataLines(n, words[n..]) + rest == rest;
    } else {
      var line := Line(DataLine(n, words[n]));
      assert words[n..] == [words[n]] + words[n + 1..];
      LinesJoin(n, [words[n]], words[n + 1..]);
      OneDataLine(n, words[n]);
      Associative(line, DataLines(n + 1, words[n + 1..]), rest);
      DataLinePlain(n, words[n]);
      LineParsed(DataLine(n, words[n]), DataLines(n + 1, words[n + 1..]) + rest, |memory|, fill, ReadSoFar(words, n, memory));
      DataStep(words, n, memory);
      DataParsed(words, n + 1, memory, fill, rest);
    }
  }

  lemma OneDataLine(index: nat, w: Word)
    ensures DataLines(index, [w]) == Line(DataLine(index, w))
  {
    assert [w][..0] == [];
    assert "" + Line(DataLine(index, w)) == Line(DataLine(index, w));
  }

  // The whole file.

  /** The header leads the parser to the content, if and only if it expects the depth printed. */
  lemma HeaderParsed(depth: nat, rest: string, memory: seq<Word>, fill: Word)
    requires 0 < depth < 100000
    ensures ParseLines(Header(depth) + rest, |memory|, fill, Started(memory)) ==
            if depth == |memory| then ParseLines(rest, |memory|, fill, State(7, true, true, 0, memory)) else Rejected
  {
    var size, s := |memory|, Started(memory);
    var r6 := Line(CONTENT) + rest;
    var r5 := Line("") + r6;
    var r4 := Line(DATA) + r5;
    var r3 := Line(ADDRESS) + r4;
    var r2 := Line("") + r3;
    var r1 := Line(DepthLine(depth)) + r2;
    assert Header(depth) + rest == Line(WIDTH) + r1;
    LineParsed(WIDTH, r1, size, fill, s);
    WidthAccepted(size, s);
    DepthPlain(depth);
    LineParsed(DepthLine(depth), r2, size, fill, s.(i := 1));
    DepthAccepted(depth, size, s.(i := 1));
    if depth == size {
      RestOfHeader(r2, rest, memory, fill);
    }
  }

  lemma DepthPlain(depth: nat)
    ensures OneLine(DepthLine(depth))
  {
    DecimalBack(depth, "");
    var line := DepthLine(depth);
    forall i: nat | i < |line|
      ensures line[i] != '\n'
    {
      if 8 <= i < |line| - 1 {
        assert line[i] == Decimal(depth)[i - 8];
      }
    }
  }

  lemma RestOfHeader(text: string, rest: string, memory: seq<Word>, fill: Word)
    requires text == Line("") + (Line(ADDRESS) + (Line(DATA) + (Line("") + (Line(CONTENT) + rest))))
    ensures ParseLines(text, |memory|, fill, State(2, false, false, 0, memory)) ==
            ParseLines(rest, |memory|, fill, State(7, true, true, 0, memory))
  {
    var size, s := |memory|, State(2, false, false, 0, memory);
    var r6 := Line(CONTENT) + rest;
    var r5 := Line("") + r6;
    var r4 := Line(DATA) + r5;
    LineParsed("", Line(ADDRESS) + r4, size, fill, s);
    LineParsed(ADDRESS, r4, size, fill, s.(i := 3));
    RadixLines(size, s.(i := 3));
    LineParsed(DATA, r5, size, fill, s.(i := 4));
    RadixLines(size, s.(i := 4));
    LineParsed("", r6, size, fill, s.(i := 5, hexRadix := true));
    LineParsed(CONTENT, rest, size, fill, s.(i := 6, hexRadix := true));
    ContentLine(size, s.(i := 6, hexRadix := true));
  }

  lemma FillStops(total: nat, depth: nat, text: string, size: nat, s: State)
    requires depth > 0 && s.i >= 2 && s.hexRadix && s.content
    ensures LineStep(FillLine(total, depth, text), size, s) == Break
  {
    var line := FillLine(total, depth, text);
    assert line[0] == '[';
    assert MatchesAt(line, 0, "[");
  }

  lemma FillPlain(total: nat, depth: nat, text: string)
    requires depth > 0 && OneLine(text)
    ensures OneLine(FillLine(total, depth, text))
  {
    DecimalBack(total, "");
    DecimalBack(depth - 1, "");
    DecimalPlain(total);
    DecimalPlain(depth - 1);
  }

  lemma DecimalPlain(v: nat)
    ensures OneLine(Decimal(v))
  {
    DecimalBack(v, "");
  }

  /** What a data line does to memory, exactly: a word in range is stored, an address beyond the size is refused, and the
      size itself, which the test for the address lets pass, is written one past the end. */
  lemma AddressChecked(index: nat, w: Word, s: State)
    requires s.i >= 2 && s.hexRadix && s.content
    ensures LineStep(DataLine(index, w), |s.memory|, s) ==
            if index < |s.memory| then Continue(s.(i := s.i + 1, words := s.words + 1, memory := s.memory[index := w]))
            else if index == |s.memory| then Crash
            else Fail
  {
    DataLinePlain(index, w);
    DataLineScanned(index, w);
  }

  /** The line of one word, cut out of the text. */
  lemma LineCutOut(index: nat, words: seq<Word>, fit: seq<Word>, w: Word, over: seq<Word>, tail: seq<Word>, rest: string)
    requires words == fit + over && over == [w] + tail
    ensures var n := index + |fit|;
            DataLines(index, words) + rest == DataLines(index, fit) + (Line(DataLine(n, w)) + (DataLines(n + 1, tail) + rest))
  {
    var n := index + |fit|;
    LinesJoin(index, fit, over);
    FirstLine(n, w, tail);
    Regroup(DataLines(index, words), DataLines(index, fit), DataLines(n, over), Line(DataLine(n, w)), DataLines(n + 1, tail), rest);
  }

  lemma FirstLine(n: nat, w: Word, tail: seq<Word>)
    ensures DataLines(n, [w] + tail) == Line(DataLine(n, w)) + DataLines(n + 1, tail)
  {
    LinesJoin(n, [w], tail);
    OneDataLine(n, w);
  }

  lemma Regroup(text: string, a: string, b: string, line: string, c: string, rest: string)
    requires text == a + b && b == line + c
    ensures text + rest == a + (line + (c + rest))
  {
  }

  /** Words that do not fit the memory run into the address one past its end. */
  lemma TooManyCrash(words: seq<Word>, fit: seq<Word>, w: Word, tail: seq<Word>, memory: seq<Word>, fill: Word, rest: string)
    requires words == fit + ([w] + tail) && |fit| == |memory|
    ensures ParseLines(DataLines(0, words) + rest, |memory|, fill, State(7, true, true, 0, memory)) == Crashed
  {
    var n := |memory|;
    var later := DataLines(n + 1, tail) + rest;
    LineCutOut(0, words, fit, w, [w] + tail, tail, rest);
    FittingPart(fit, memory, fill, Line(DataLine(n, w)) + later);
    PastTheEnd(w, later, fill, ReadSoFar(fit, n, memory));
  }

  lemma FittingPart(fit: seq<Word>, memory: seq<Word>, fill: Word, rest: string)
    requires |fit| <= |memory|
    ensures ParseLines(DataLines(0, fit) + rest, |memory|, fill, State(7, true, true, 0, memory)) ==
            ParseLines(rest, |memory|, fill, ReadSoFar(fit, |fit|, memory))
  {
    assert fit[0..] == fit && fit[..0] + memory[0..] == memory;
    DataParsed(fit, 0, memory, fill, rest);
  }

  lemma PastTheEnd(w: Word, rest: string, fill: Word, s: State)
    requires s.i >= 2 && s.hexRadix && s.content
    ensures ParseLines(Line(DataLine(|s.memory|, w)) + rest, |s.memory|, fill, s) == Crashed
  {
    DataLinePlain(|s.memory|, w);
    LineParsed(DataLine(|s.memory|, w), rest, |s.memory|, fill, s);
    AddressChecked(|s.memory|, w, s);
  }

  /** Parsing what was printed, for images of any size: a file is refused unless the parser expects the depth printed;
      otherwise the words come back in order, then fill, and words beyond the memory are written past its end. */
  lemma PrintParse(words: seq<Word>, depth: nat, text: string, memory: seq<Word>, fill: Word)
    requires 0 < depth < 100000 && OneLine(text)
    ensures ParseLines(Print(words, depth, text), |memory|, fill, Started(memory)) ==
            if depth != |memory| then Rejected
            else if |words| <= |memory| then Parsed(words + seq(|memory| - |words|, _ => fill))
            else Crashed
  {
    var last := LastLines(|words|, depth, text);
    Associative(Header(depth), DataLines(0, words), last);
    HeaderParsed(depth, DataLines(0, words) + last, memory, fill);
    if depth == |memory| && |words| <= |memory| {
      FittingParsed(words, depth, text, memory, fill);
    } else if depth == |memory| {
      var n := |memory|;
      assert words == words[..n] + ([words[n]] + words[n + 1..]);
      TooManyCrash(words, words[..n], words[n], words[n + 1..], memory, fill, last);
    }
  }

  lemma FittingParsed(words: seq<Word>, depth: nat, text: string, memory: seq<Word>, fill: Word)
    requires 0 < depth == |memory| && |words| <= |memory| && OneLine(text)
    ensures ParseLines(DataLines(0, words) + LastLines(|words|, depth, text), |memory|, fill, State(7, true, true, 0, memory)) ==
            Parsed(words + seq(|memory| - |words|, _ => fill))
  {
    var last, s := LastLines(|words|, depth, text), ReadSoFar(words, |words|, memory);
    FittingPart(words, memory, fill, last);
    FillPlain(|words|, depth, text);
    LineParsed(FillLine(|words|, depth, text), Line("END;"), |memory|, fill, s);
    FillStops(|words|, depth, text, |memory|, s);
    assert s.memory[..s.words] == words;
  }

  /** A code image that fits comes back whole, whatever the memory held before. */
  lemma CodeRoundTrip(words: seq<Word>, memory: seq<Word>)
    requires |words| <= ROM_WORDS - 1 && |memory| == ROM_WORDS
    ensures ParseLines(Print(words, ROM_WORDS, "FFFFFFFF"), |memory|, 0xFFFFFFFF, Started(memory)) ==
            Parsed(words + seq(ROM_WORDS - |words|, _ => 0xFFFFFFFF))
  {
    PrintParse(words, ROM_WORDS, "FFFFFFFF", memory, 0xFFFFFFFF);
  }

  /** No data image is accepted, whatever its size: the depth printed is twice the number of words the simulator
      expects. */
  lemma DataImageRejected(words: seq<Word>, memory: seq<Word>)
    requires |memory| == SPRAM_WORDS
    ensures ParseLines(Print(words, SCRATCHPAD_WORDS, "00000000"), |memory|, 0, Started(memory)) == Rejected
  {
    PrintParse(words, SCRATCHPAD_WORDS, "00000000", memory, 0);
  }
}
