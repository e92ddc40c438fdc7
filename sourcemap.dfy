/**
 * The source-map writer (src/sourcemap.ts): the `mappings` string of a Source Map
 * Revision 3 file, built one mapping at a time.
 *
 * A mapping is written as a segment of Base64 VLQ numbers: the generated column,
 * the source index, the original line and the original column, each as the
 * difference from the previous mapping. A new generated line is marked by `;`
 * (one per line skipped), segments on one line are separated by `,`.
 *
 * Numbers pass through the 32-bit shifts of the source: `value << 1` and
 * `digit >>>= 5` work on the low 32 bits, so the digits written are those of the
 * folded value modulo 2^32. Within that range decoding gives the value back.
 */
module SourceMap {
  import opened Ast
  import opened Seqs

  /* ---------------- Base64 ---------------- */

  /**
   * `base64Encode`: the character for a digit value 0..63 in the alphabet of
   * section 4 of RFC 4648 (`A`-`Z`, `a`-`z`, `0`-`9`, `+`, `/`), by its range.
   */
  function Base64Encode(value: nat): (c: char)
    requires value < 64
    ensures c != ';' && c != ','
  {
    if value < 26 then ('A' as int + value) as char
    else if value < 52 then ('a' as int + value - 26) as char
    else if value < 62 then ('0' as int + value - 52) as char
    else if value == 62 then '+'
    else '/'
  }

  /** The value of a Base64 character, read by its range in the alphabet. */
  function Base64Decode(c: char): Option<nat> {
    if 'A' <= c <= 'Z' then Some(c as int - 'A' as int)
    else if 'a' <= c <= 'z' then Some(c as int - 'a' as int + 26)
    else if '0' <= c <= '9' then Some(c as int - '0' as int + 52)
    else if c == '+' then Some(62)
    else if c == '/' then Some(63)
    else None
  }

  /** Every digit value is written as a character that reads back as that value. */
  lemma Base64RoundTrip(value: nat)
    requires value < 64
    ensures Base64Decode(Base64Encode(value)) == Some(value)
  {
  }

  /* ---------------- Base64 VLQ ---------------- */

  const Two32: nat := 0x1_0000_0000

  /**
   * `value < 0 ? (-value << 1) | 1 : value << 1`, then read as unsigned by the
   * first `>>>`: the sign goes to the low bit and the result is taken modulo 2^32.
   */
  function Fold(value: int): (u: nat)
    ensures u < Two32
  {
    (if value < 0 then -value * 2 + 1 else value * 2) % Two32
  }

  /** The inverse of the sign folding: the low bit is the sign. */
  function Unfold(u: nat): int {
    if u % 2 == 1 then -(u / 2) else u / 2
  }

  /** Folding is undone by `Unfold` for every value whose folding fits in 32 bits. */
  lemma FoldRoundTrip(value: int)
    requires -0x8000_0000 < value < 0x8000_0000
    ensures Unfold(Fold(value)) == value
  {
  }

  /**
   * The Base64 VLQ text of an unsigned (already folded) value: its 5-bit groups,
   * least significant first, every group but the last with the continuation bit 32.
   */
  function VlqDigits(u: nat): (s: string)
    ensures |s| >= 1
  {
    if u < 32 then [Base64Encode(u)] else [Base64Encode(u % 32 + 32)] + VlqDigits(u / 32)
  }

  /** The text `vlqEncode(value)` returns. */
  function Vlq(value: int): (s: string)
    ensures |s| >= 1
  {
    VlqDigits(Fold(value))
  }

  /** `vlqEncode`: the do-while loop over 5-bit groups. */
  method VlqEncode(value: int) returns (vlq: string)
    ensures vlq == Vlq(value)
  {
    var digit := Fold(value);
    vlq := "";
    while true
      invariant vlq + VlqDigits(digit) == Vlq(value)
      decreases digit
    {
      var segment := digit % 32;
      var rest := digit / 32;
      if rest > 0 {
        segment := segment + 32;
      }
      vlq := vlq + [Base64Encode(segment)];
      if rest == 0 {
        assert VlqDigits(digit) == [Base64Encode(segment)];
        return;
      }
      assert VlqDigits(digit) == [Base64Encode(segment)] + VlqDigits(rest);
      digit := rest;
    }
  }

  /**
   * Reading one VLQ number from the front of `s`: the unsigned value and the
   * number of characters it took, or `None` when `s` does not start with one.
   */
  function DecodeOne(s: string): Option<(nat, nat)>
    ensures var r := DecodeOne(s); r.Some? ==> 1 <= r.value.1 <= |s|
  {
    if s == [] then None
    else
      var d := Base64Decode(s[0]);
      if d.None? then None
      else if d.value < 32 then Some((d.value, 1))
      else
        match DecodeOne(s[1..])
        case None => None
        case Some((high, n)) => Some((d.value - 32 + 32 * high, n + 1))
  }

  /** The VLQ digits of `u` read back as `u`, whatever follows them. */
  lemma {:induction false} DecodeDigits(u: nat, rest: string)
    ensures DecodeOne(VlqDigits(u) + rest) == Some((u, |VlqDigits(u)|))
    decreases u
  {
    var s := VlqDigits(u) + rest;
    if u < 32 {
      Base64RoundTrip(u);
      assert s[0] == Base64Encode(u);
    } else {
      Base64RoundTrip(u % 32 + 32);
      DecodeDigits(u / 32, rest);
      var c := Base64Encode(u % 32 + 32);
      Assoc([c], VlqDigits(u / 32), rest);
      ConsDrop(c, VlqDigits(u / 32) + rest);
    }
  }

  /** Reading a whole text of VLQ numbers, one after another. */
  function DecodeValues(s: string): Option<seq<int>>
    decreases |s|
  {
    if s == [] then Some([])
    else
      match DecodeOne(s)
      case None => None
      case Some((u, n)) =>
        match DecodeValues(s[n..])
        case None => None
        case Some(vs) => Some([Unfold(u)] + vs)
  }

  /** `vlqEncode` is undone by Base64 VLQ decoding, for values within the 32-bit shift range. */
  lemma VlqRoundTrip(value: int, rest: string)
    requires -0x8000_0000 < value < 0x8000_0000
    ensures DecodeOne(Vlq(value) + rest) == Some((Fold(value), |Vlq(value)|))
    ensures Unfold(Fold(value)) == value
  {
    DecodeDigits(Fold(value), rest);
    FoldRoundTrip(value);
  }

  /** The VLQ text of the numbers `values[i..]`, written one after another. */
  function RunFrom(values: seq<int>, i: nat): string
    requires i <= |values|
    decreases |values| - i
  {
    if i == |values| then "" else Vlq(values[i]) + RunFrom(values, i + 1)
  }

  /** A run of encoded numbers decodes to the numbers. */
  lemma {:induction false} DecodeRun(values: seq<int>, i: nat)
    requires i <= |values|
    requires forall j :: i <= j < |values| ==> -0x8000_0000 < values[j] < 0x8000_0000
    ensures DecodeValues(RunFrom(values, i)) == Some(values[i..])
    decreases |values| - i
  {
    if i < |values| {
      var rest := RunFrom(values, i + 1);
      VlqRoundTrip(values[i], rest);
      DecodeRun(values, i + 1);
      var s := RunFrom(values, i);
      AppendDrop(Vlq(values[i]), rest);
      assert values[i..] == [values[i]] + values[i + 1..];
    }
  }

  /** No VLQ character is a separator. */
  lemma {:induction false} DigitsHaveNoSeparator(u: nat)
    ensures forall i :: 0 <= i < |VlqDigits(u)| ==> VlqDigits(u)[i] != ';' && VlqDigits(u)[i] != ','
    decreases u
  {
    if u < 32 {
      Base64RoundTrip(u);
    } else {
      Base64RoundTrip(u % 32 + 32);
      DigitsHaveNoSeparator(u / 32);
      var c, t := Base64Encode(u % 32 + 32), VlqDigits(u / 32);
      forall i | 1 <= i < |[c] + t|
        ensures ([c] + t)[i] == t[i - 1]
      {
      }
    }
  }

  lemma {:induction false} RunHasNoSeparator(values: seq<int>, i: nat)
    requires i <= |values|
    ensures forall k :: 0 <= k < |RunFrom(values, i)| ==> RunFrom(values, i)[k] != ';' && RunFrom(values, i)[k] != ','
    decreases |values| - i
  {
    if i < |values| {
      RunHasNoSeparator(values, i + 1);
      DigitsHaveNoSeparator(Fold(values[i]));
      var a, b := Vlq(values[i]), RunFrom(values, i + 1);
      forall k | |a| <= k < |a + b|
        ensures (a + b)[k] == b[k - |a|]
      {
      }
    }
  }

  /* ---------------- the generator ---------------- */

  /** `';'.repeat(count)`. */
  function Semicolons(count: nat): (s: string)
    ensures |s| == count && forall i :: 0 <= i < count ==> s[i] == ';'
  {
    if count == 0 then "" else Semicolons(count - 1) + ";"
  }

  /** The closure variables of `sourceMapGenerator`. */
  datatype GenState = GenState(
    file: string,
    mappings: string,
    lastGeneratedLine: int,
    lastGeneratedColumn: int,
    lastOriginalLine: int,
    lastOriginalColumn: int,
    lastSourceIndex: int,
    lastNameIndex: int)

  /** The state right after `sourceMapGenerator(file)`. */
  function InitialGen(file: string): GenState {
    GenState(file, "", 1, 0, 0, 0, 0, 0)
  }

  /** One mapping: its generated and original positions, source and optional name. */
  datatype Mapping = Mapping(
    generatedLine: int, generatedColumn: int, originalLine: int, originalColumn: int,
    sourceIndex: int, nameIndex: Option<int>)

  /** What `addMapping` writes before the segment: `;`s for new lines, `,` between segments, or nothing. */
  function Separator(g: GenState, generatedLine: int): string {
    if generatedLine > g.lastGeneratedLine then Semicolons(generatedLine - g.lastGeneratedLine)
    else if |g.mappings| > 0 && g.mappings[|g.mappings| - 1] != ';' then ","
    else ""
  }

  /** The numbers of a segment: the deltas from the baselines (the column one after a line change). */
  function Deltas(g: GenState, m: Mapping): seq<int> {
    var column := if m.generatedLine > g.lastGeneratedLine then 0 else g.lastGeneratedColumn;
    [m.generatedColumn - column, m.sourceIndex - g.lastSourceIndex,
     m.originalLine - g.lastOriginalLine, m.originalColumn - g.lastOriginalColumn]
    + (if m.nameIndex.Some? then [m.nameIndex.value - g.lastNameIndex] else [])
  }

  /** The state after `addMapping(m)`. */
  function AddSpec(g: GenState, m: Mapping): GenState {
    GenState(
      g.file,
      g.mappings + Separator(g, m.generatedLine) + RunFrom(Deltas(g, m), 0),
      if m.generatedLine > g.lastGeneratedLine then m.generatedLine else g.lastGeneratedLine,
      m.generatedColumn, m.originalLine, m.originalColumn, m.sourceIndex,
      if m.nameIndex.Some? then m.nameIndex.value else g.lastNameIndex)
  }

  /**
   * `mappings` never has a `,` at the start or right after a `;` or another `,`:
   * every `,` separates two segments on one line.
   */
  ghost predicate CommasSeparate(s: string) {
    && (forall i :: 0 <= i < |s| && s[i] == ',' ==> 0 < i && s[i - 1] != ';' && s[i - 1] != ',')
    && (|s| > 0 ==> s[|s| - 1] != ',')
  }

  /** A line that advances by `k` appends exactly `k` semicolons and measures the column from 0. */
  lemma LineAdvance(g: GenState, m: Mapping)
    requires m.generatedLine > g.lastGeneratedLine
    ensures var k := m.generatedLine - g.lastGeneratedLine; var r := AddSpec(g, m);
      r.mappings == g.mappings + Semicolons(k) + RunFrom(Deltas(g, m), 0)
      && Deltas(g, m)[0] == m.generatedColumn
      && r.lastGeneratedLine == m.generatedLine
  {
  }

  /** On the same line, a `,` is written exactly when a segment precedes on that line. */
  lemma SameLine(g: GenState, m: Mapping)
    requires m.generatedLine <= g.lastGeneratedLine
    ensures var r := AddSpec(g, m); var before := |g.mappings| > 0 && g.mappings[|g.mappings| - 1] != ';';
      (before ==> r.mappings == g.mappings + "," + RunFrom(Deltas(g, m), 0))
      && (!before ==> r.mappings == g.mappings + RunFrom(Deltas(g, m), 0))
      && Deltas(g, m)[0] == m.generatedColumn - g.lastGeneratedColumn
  {
    var before := |g.mappings| > 0 && g.mappings[|g.mappings| - 1] != ';';
    if !before {
      assert Separator(g, m.generatedLine) == "";
      assert g.mappings + "" == g.mappings;
    }
  }

  /** `addMapping` keeps every `,` between two segments of one line. */
  lemma AddKeepsCommas(g: GenState, m: Mapping)
    requires CommasSeparate(g.mappings)
    ensures CommasSeparate(AddSpec(g, m).mappings)
  {
    var sep := Separator(g, m.generatedLine);
    var run := RunFrom(Deltas(g, m), 0);
    var a := g.mappings + sep;
    var s := a + run;
    RunHasNoSeparator(Deltas(g, m), 0);
    assert |run| >= 1;
    forall i | 0 <= i < |s| && s[i] == ','
      ensures 0 < i && s[i - 1] != ';' && s[i - 1] != ','
    {
      if i >= |a| {
        assert false;
      } else if i >= |g.mappings| {
        assert sep == "," && i == |g.mappings|;
      } else {
        assert s[i] == g.mappings[i] && s[i - 1] == g.mappings[i - 1];
      }
    }
    assert s[|s| - 1] == run[|run| - 1];
  }

  /** The segment written for a mapping reads back as its deltas when they are in range. */
  lemma SegmentDecodes(g: GenState, m: Mapping)
    requires var ds := Deltas(g, m); forall i :: 0 <= i < |ds| ==> -0x8000_0000 < ds[i] < 0x8000_0000
    ensures DecodeValues(RunFrom(Deltas(g, m), 0)) == Some(Deltas(g, m))
  {
    DecodeRun(Deltas(g, m), 0);
  }

  /** A run of four or five numbers, written out. */
  lemma RunOfSegment(ds: seq<int>)
    requires |ds| == 4 || |ds| == 5
    ensures RunFrom(ds, 0) == Vlq(ds[0]) + (Vlq(ds[1]) + (Vlq(ds[2]) + (Vlq(ds[3]) + (if |ds| == 5 then Vlq(ds[4]) else ""))))
  {
    var tail := if |ds| == 5 then Vlq(ds[4]) else "";
    assert RunFrom(ds, 4) == tail;
    assert RunFrom(ds, 3) == Vlq(ds[3]) + tail;
    assert RunFrom(ds, 2) == Vlq(ds[2]) + (Vlq(ds[3]) + tail);
    assert RunFrom(ds, 1) == Vlq(ds[1]) + (Vlq(ds[2]) + (Vlq(ds[3]) + tail));
  }

  /** The `vlqEncode` calls of `addMapping`, one per delta, the name delta only when there is a name. */
  method EncodeSegment(d0: int, d1: int, d2: int, d3: int, d4: Option<int>) returns (segment: string)
    ensures segment == RunFrom([d0, d1, d2, d3] + (if d4.Some? then [d4.value] else []), 0)
  {
    ghost var ds := [d0, d1, d2, d3] + (if d4.Some? then [d4.value] else []);
    var s0 := VlqEncode(d0);
    var s1 := VlqEncode(d1);
    var s2 := VlqEncode(d2);
    var s3 := VlqEncode(d3);
    var s4 := "";
    if d4.Some? {
      s4 := VlqEncode(d4.value);
    }
    RunOfSegment(ds);
    segment := s0 + (s1 + (s2 + (s3 + s4)));
  }

  /** The fields `toString` serialises. */
  datatype SourceMapFields = SourceMapFields(version: nat, file: string, sources: seq<string>, names: seq<string>, mappings: string)

  class Generator {
    const file: string
    var mappings: string
    var lastGeneratedLine: int
    var lastGeneratedColumn: int
    var lastOriginalLine: int
    var lastOriginalColumn: int
    var lastSourceIndex: int
    var lastNameIndex: int

    function State(): GenState
      reads this
    {
      GenState(file, mappings, lastGeneratedLine, lastGeneratedColumn, lastOriginalLine,
               lastOriginalColumn, lastSourceIndex, lastNameIndex)
    }

    ghost predicate Valid()
      reads this
    {
      CommasSeparate(mappings)
    }

    /** `sourceMapGenerator(sourceFile)`. */
    constructor (sourceFile: string)
      ensures State() == InitialGen(sourceFile) && Valid()
    {
      file := sourceFile;
      mappings := "";
      lastGeneratedLine := 1;
      lastGeneratedColumn := 0;
      lastOriginalLine := 0;
      lastOriginalColumn := 0;
      lastSourceIndex := 0;
      lastNameIndex := 0;
    }

    /** `addMapping`: the separator, then the deltas as VLQ, then the new baselines. */
    method AddMapping(generatedLine: int, generatedColumn: int, originalLine: int, originalColumn: int,
                      sourceIndex: int, nameIndex: Option<int>)
      requires Valid()
      modifies this
      ensures Valid()
      ensures State() == AddSpec(old(State()), Mapping(generatedLine, generatedColumn, originalLine,
                                                       originalColumn, sourceIndex, nameIndex))
    {
      ghost var g := State();
      ghost var m := Mapping(generatedLine, generatedColumn, originalLine, originalColumn, sourceIndex, nameIndex);
      if generatedLine > lastGeneratedLine {
        mappings := mappings + Semicolons(generatedLine - lastGeneratedLine);
        lastGeneratedLine := generatedLine;
        lastGeneratedColumn := 0;
      } else if |mappings| > 0 && mappings[|mappings| - 1] != ';' {
        mappings := mappings + ",";
      }
      assert mappings == g.mappings + Separator(g, generatedLine);
      var nameDelta := if nameIndex.Some? then Some(nameIndex.value - lastNameIndex) else None;
      var segment := EncodeSegment(generatedColumn - lastGeneratedColumn, sourceIndex - lastSourceIndex,
                                   originalLine - lastOriginalLine, originalColumn - lastOriginalColumn, nameDelta);
      if nameIndex.Some? {
        lastNameIndex := nameIndex.value;
      }
      mappings := mappings + segment;
      lastGeneratedColumn := generatedColumn;
      lastSourceIndex := sourceIndex;
      lastOriginalLine := originalLine;
      lastOriginalColumn := originalColumn;
      assert mappings == AddSpec(g, m).mappings;
      AddKeepsCommas(g, m);
    }

    /** `toString`: the fields of the version 3 source map. */
    method ToString() returns (r: SourceMapFields)
      ensures r == SourceMapFields(3, file, [file], [], mappings)
    {
      r := SourceMapFields(3, file, [file], [], mappings);
    }
  }
}
