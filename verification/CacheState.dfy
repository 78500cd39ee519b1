/** Instruction-cache geometry, abstract cache states and the concrete direct-mapped cache.

    Addresses are word addresses.  The source extracts fields from a 32-bit address with masks and
    shifts; here the same fields are quotients and remainders, and `FieldsRecompose` ties the two. */
module CacheState {
  import opened Options

  const LINES: nat := 32
  const WORDS_PER_LINE: nat := 8
  const PENALTY: nat := 15

  type Tag = nat

  function GetTag(address: nat): Tag { address / 256 }

  function GetLine(address: nat): (line: nat)
    ensures line < LINES
  {
    address / 8 % 32
  }

  function GetBlkOffset(address: nat): (offset: nat)
    ensures offset < WORDS_PER_LINE
  {
    address % 8
  }

  function TagBits(address: bv32): bv32 { (address & (0xFFFFFFFF << 8)) >> 8 }

  function LineBits(address: bv32): bv32 {
    (address & ((0xFFFFFFFF << 3) & !(0xFFFFFFFF << 8))) >> 3
  }

  function OffsetBits(address: bv32): bv32 {
    (address & (0xFFFFFFFF & !(0xFFFFFFFF << 3)))
  }

  /** The masked fields are the digits of the address in the mixed radix that `GetTag`, `GetLine` and
      `GetBlkOffset` use. */
  lemma FieldsRecompose(address: bv32)
    ensures LineBits(address) < 32 && OffsetBits(address) < 8 && TagBits(address) < 0x1000000
    ensures TagBits(address) * 256 + LineBits(address) * 8 + OffsetBits(address) == address
  {
  }

  lemma FieldsAreDigits(tag: nat, line: nat, offset: nat)
    requires line < 32 && offset < 8
    ensures var address := tag * 256 + line * 8 + offset;
            GetTag(address) == tag && GetLine(address) == line && GetBlkOffset(address) == offset
  {
    var address := tag * 256 + line * 8 + offset;
    assert address / 8 == tag * 32 + line;
  }

  /** A bundle: the word address of its first instruction and its number of instructions. */
  datatype Bundle = Bundle(address: nat, size: nat) {
    function Tag(): Tag { GetTag(address) }
    function Line(): (line: nat)
      ensures line < LINES
    {
      GetLine(address)
    }
    /** The bundle does not cross the end of its cache line. */
    predicate InsideLine() { size > 0 && address / 8 == (address + size - 1) / 8 }
    function BlkOffset(): nat { GetBlkOffset(address) }
  }

  /** Consecutive bundles of a block follow each other in memory and no bundle crosses a cache line. */
  ghost predicate WellPlaced(bundles: seq<Bundle>) {
    && (forall j | 0 <= j < |bundles| :: bundles[j].InsideLine())
    && (forall j | 0 <= j < |bundles| - 1 :: bundles[j + 1].address == bundles[j].address + bundles[j].size)
  }

  lemma SameLineAsPrevious(bundles: seq<Bundle>, j: nat)
    requires WellPlaced(bundles) && 0 < j < |bundles| && bundles[j].BlkOffset() != 0
    ensures bundles[j].Tag() == bundles[j - 1].Tag() && bundles[j].Line() == bundles[j - 1].Line()
  {
    var u := bundles[j - 1];
    assert u.InsideLine();
    assert bundles[j - 1 + 1].address == u.address + u.size;
    assert (u.address + u.size) / 8 == (u.address + u.size - 1) / 8;
    TagOfLineNumber(u.address);
    TagOfLineNumber(u.address + u.size);
  }

  lemma TagOfLineNumber(address: nat)
    ensures GetTag(address) == address / 8 / 32
  {
  }

  // ---------------------------------------------------------------- abstract states

  /** An abstract cache state: the set of tags recorded for each line. */
  type CState = s: seq<set<Tag>> | |s| == LINES witness seq(LINES, _ => {})

  function EmptyState(): seq<set<Tag>> { seq(LINES, _ => {}) }

  /** The tags of `bundles` that fall on `line`. */
  ghost function References(bundles: seq<Bundle>, line: nat): set<Tag> {
    set u | u in bundles && u.Line() == line :: u.Tag()
  }

  /** `create_state`: records the reference of every bundle of a block. */
  method CreateState(bundles: seq<Bundle>) returns (state: CState)
    ensures forall l | 0 <= l < LINES :: state[l] == References(bundles, l)
  {
    state := EmptyState();
    for j := 0 to |bundles|
      invariant forall l | 0 <= l < LINES :: state[l] == References(bundles[..j], l)
    {
      ghost var before := state;
      var u := bundles[j];
      state := state[u.Line() := state[u.Line()] + {u.Tag()}];
      assert bundles[..j + 1] == bundles[..j] + [u];
      forall l | 0 <= l < LINES
        ensures state[l] == References(bundles[..j + 1], l)
      {
        assert References(bundles[..j + 1], l) ==
               References(bundles[..j], l) + (if u.Line() == l then {u.Tag()} else {});
      }
    }
    assert bundles[..|bundles|] == bundles;
  }

  /** `copy_cstate`: adds every tag of `source` to `dest` and reports whether one was new. */
  method CopyCState(source: CState, dest: CState) returns (result: CState, added: bool)
    ensures forall l | 0 <= l < LINES :: result[l] == dest[l] + source[l]
    ensures added <==> result != dest
  {
    result, added := dest, false;
    for i := 0 to LINES
      invariant forall l | 0 <= l < i :: result[l] == dest[l] + source[l]
      invariant forall l | i <= l < LINES :: result[l] == dest[l]
      invariant added <==> result != dest
    {
      var line, isNew := AddTags(source[i], result[i]);
      ghost var before := result;
      result := result[i := line];
      assert before[i] == dest[i];
      assert result != dest <==> added || isNew by {
        if isNew { assert result[i] != dest[i]; }
        else { assert result == before; }
      }
      added := added || isNew;
    }
  }

  /** Adds the tags of one line one at a time. */
  method AddTags(source: set<Tag>, dest: set<Tag>) returns (result: set<Tag>, added: bool)
    ensures result == dest + source
    ensures added <==> result != dest
  {
    result, added := dest, false;
    var rest := source;
    while rest != {}
      invariant rest <= source && result == dest + (source - rest)
      invariant added <==> result != dest
      decreases rest
    {
      var tag :| tag in rest;
      if tag !in result {
        added := true;
        assert tag !in dest;
      }
      result, rest := result + {tag}, rest - {tag};
    }
  }

  /** One line of a block's output: its own references if it has any, otherwise what it had and what flows in. */
  function OutputLine(source: set<Tag>, output: set<Tag>, inst: set<Tag>): set<Tag> {
    if inst == {} then output + source else inst
  }

  /** `make_output_cstate`.  A line the block references counts as changed only when it was still empty. */
  method MakeOutputCState(source: CState, output: CState, inst: CState) returns (result: CState, added: bool)
    ensures forall l | 0 <= l < LINES :: result[l] == OutputLine(source[l], output[l], inst[l])
    ensures added <==> exists l | 0 <= l < LINES ::
                         if inst[l] == {} then !(source[l] <= output[l]) else output[l] == {}
  {
    result, added := output, false;
    for i := 0 to LINES
      invariant forall l | 0 <= l < i :: result[l] == OutputLine(source[l], output[l], inst[l])
      invariant forall l | i <= l < LINES :: result[l] == output[l]
      invariant added <==> exists l | 0 <= l < i ::
                             if inst[l] == {} then !(source[l] <= output[l]) else output[l] == {}
    {
      if inst[i] == {} {
        var line, isNew := AddTags(source[i], result[i]);
        result := result[i := line];
        added := added || isNew;
      } else {
        if result[i] == {} {
          added := true;
        }
        var line, _ := AddTags(inst[i], {});
        result := result[i := line];
      }
    }
  }

  // ---------------------------------------------------------------- concrete cache


  /** The concrete direct-mapped cache: the valid tag of each line, if any. */
  type Cache = c: seq<Option<Tag>> | |c| == LINES witness seq(LINES, _ => None)

  /** All lines invalid. */
  function Cold(): Cache { seq(LINES, _ => None) }

  predicate Hits(c: Cache, u: Bundle) {
    c[u.Line()] == Some(u.Tag())
  }

  /** The cache after fetching a bundle: a miss replaces the line. */
  function Touch(c: Cache, u: Bundle): Cache {
    c[u.Line() := Some(u.Tag())]
  }

  function RunBundles(c: Cache, bundles: seq<Bundle>): Cache {
    if bundles == [] then c else Touch(RunBundles(c, bundles[..|bundles| - 1]), bundles[|bundles| - 1])
  }

  /** The number of misses while `bundles` are fetched in order. */
  function Misses(c: Cache, bundles: seq<Bundle>): nat {
    if bundles == [] then 0
    else
      var rest := bundles[..|bundles| - 1];
      Misses(c, rest) + if Hits(RunBundles(c, rest), bundles[|bundles| - 1]) then 0 else 1
  }

  /** A line not referenced keeps its content; a referenced line ends with one of the referenced tags. */
  lemma {:induction false} LineAfterBundles(c: Cache, bundles: seq<Bundle>, line: nat)
    requires line < LINES
    ensures var after := RunBundles(c, bundles)[line];
            if References(bundles, line) == {} then after == c[line]
            else after.Some? && after.value in References(bundles, line)
  {
    if bundles != [] {
      var rest, u := bundles[..|bundles| - 1], bundles[|bundles| - 1];
      LineAfterBundles(c, rest, line);
      assert bundles == rest + [u];
      assert References(bundles, line) == References(rest, line) + if u.Line() == line then {u.Tag()} else {};
    }
  }
}
