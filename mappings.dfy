/**
  Tooling over the "mappings" string of a version 3 source map: lines are
  separated by ';', segments within a line by ',', and each segment is a
  Base64 VLQ list of integers.

  The scanning helpers and the rewriting of the first segment come from
  devtools/sourcemaps.go; parsing into lines and segments is written twice in
  the repository (devtools/sourcemaps.go and debugging/sourcemaps.go) with the
  same text, and is defined once here.
 */
module MappingsText {
  import opened Wrappers
  import opened GoStrings
  import Vlq

  predicate IsSeparator(c: char) {
    c == ';' || c == ','
  }

  // ---------------------------------------------------------------------
  // Scanning for segments.

  /** The least index at or after `from` that holds no separator, or -1. */
  function FirstNonSeparator(maps: string, from: nat): (r: int)
    decreases |maps| - from
    ensures r == -1 || (from <= r < |maps| && !IsSeparator(maps[r]))
    ensures forall k :: from <= k < |maps| && (r == -1 || k < r) ==> IsSeparator(maps[k])
  {
    if from >= |maps| then -1
    else if !IsSeparator(maps[from]) then from
    else FirstNonSeparator(maps, from + 1)
  }

  /** The least index at or after `from` that holds a separator, or the length. */
  function FirstSeparatorOrEnd(maps: string, from: nat): (r: nat)
    decreases |maps| - from
    ensures r == |maps| || (from <= r < |maps| && IsSeparator(maps[r]))
    ensures forall k :: from <= k < r && k < |maps| ==> !IsSeparator(maps[k])
  {
    if from >= |maps| then |maps|
    else if IsSeparator(maps[from]) then from
    else FirstSeparatorOrEnd(maps, from + 1)
  }

  /** nextNonSeparator */
  method NextNonSeparator(maps: string, startPos: nat) returns (r: int)
    ensures r == FirstNonSeparator(maps, startPos)
  {
    var n := |maps|;
    var i := startPos;
    while i < n
      invariant startPos <= i
      invariant FirstNonSeparator(maps, i) == FirstNonSeparator(maps, startPos)
      decreases n - i
    {
      var c := maps[i];
      if c != ';' && c != ',' {
        return i;
      }
      i := i + 1;
    }
    return -1;
  }

  /** nextSeparatorOrEOF */
  method NextSeparatorOrEOF(maps: string, startPos: nat) returns (r: nat)
    ensures r == FirstSeparatorOrEnd(maps, startPos)
  {
    var n := |maps|;
    var i := startPos;
    while i < n
      invariant startPos <= i
      invariant FirstSeparatorOrEnd(maps, i) == FirstSeparatorOrEnd(maps, startPos)
      decreases n - i
    {
      var c := maps[i];
      if c == ';' || c == ',' {
        return i;
      }
      i := i + 1;
    }
    return n;
  }

  /** The bounds of the first segment, or (-1, -1) when there is none. */
  function FirstVLQ(maps: string): (int, int) {
    var start := FirstNonSeparator(maps, 0);
    if start == -1 then (-1, -1) else (start, FirstSeparatorOrEnd(maps, start + 1) as int)
  }

  /** findFirstVLQ */
  method FindFirstVLQ(maps: string) returns (start: int, end: int)
    ensures (start, end) == FirstVLQ(maps)
  {
    start := NextNonSeparator(maps, 0);
    if start == -1 {
      return -1, -1;
    }
    end := NextSeparatorOrEOF(maps, start + 1);
  }

  /**
    The first segment is the first run of non-separators: everything before
    it is separators, it contains none, and it is followed by a separator or
    the end. There is none exactly when the text is all separators.
   */
  lemma FirstVLQBounds(maps: string)
    ensures FirstVLQ(maps).0 == -1 <==> FirstVLQ(maps).1 == -1
    ensures FirstVLQ(maps).0 == -1 <==> forall k :: 0 <= k < |maps| ==> IsSeparator(maps[k])
    ensures FirstVLQ(maps).0 != -1 ==>
      var (start, end) := FirstVLQ(maps);
      && 0 <= start < end <= |maps|
      && (forall k :: 0 <= k < start ==> IsSeparator(maps[k]))
      && (forall k :: start <= k < end ==> !IsSeparator(maps[k]))
      && (end == |maps| || IsSeparator(maps[end]))
  {
  }

  /** replaceFirstVLQ as a value: None where decoding the segment panics. */
  function ReplacedFirstVLQ(maps: string, replaceFn: seq<int> -> seq<int>): Option<string> {
    var (start, end) := FirstVLQ(maps);
    if start < 0 || end < 0 then Some(maps)
    else
      FirstVLQBounds(maps);
      match Vlq.Decoded(maps[start..end])
      case None => None
      case Some(values) => Some(maps[..start] + Vlq.Encoded(replaceFn(values)) + maps[end..])
  }

  /** replaceFirstVLQ: decodes the first segment, rewrites its values, encodes them back. */
  method ReplaceFirstVLQ(maps: string, replaceFn: seq<int> -> seq<int>) returns (r: Option<string>)
    ensures r == ReplacedFirstVLQ(maps, replaceFn)
  {
    var start, end := FindFirstVLQ(maps);
    if start < 0 || end < 0 {
      return Some(maps);
    }
    FirstVLQBounds(maps);
    var before := maps[..start];
    var after := maps[end..];
    var vlq := maps[start..end];
    var values := Vlq.Decode(vlq);
    if values.None? {
      return None;
    }
    var replacementValues := replaceFn(values.value);
    var replacementVlq := Vlq.Encode(replacementValues);
    return Some(before + replacementVlq + after);
  }

  /**
    Rewriting the first segment keeps every byte before and after it, and
    the new segment decodes to the rewritten values; without a segment the
    text is returned unchanged, and decoding fails exactly when the first
    segment holds a byte outside the alphabet.
   */
  lemma ReplaceFirstVLQKeepsRest(maps: string, replaceFn: seq<int> -> seq<int>)
    ensures FirstVLQ(maps).0 < 0 ==> ReplacedFirstVLQ(maps, replaceFn) == Some(maps)
    ensures FirstVLQ(maps).0 >= 0 ==>
      var (start, end) := FirstVLQ(maps);
      && end <= |maps|
      && (ReplacedFirstVLQ(maps, replaceFn).None? <==> Vlq.Decoded(maps[start..end]).None?)
      && (ReplacedFirstVLQ(maps, replaceFn).Some? ==>
            var r := ReplacedFirstVLQ(maps, replaceFn).value;
            var tail := |maps| - end;
            && start <= |r| - tail
            && r[..start] == maps[..start]
            && r[|r| - tail..] == maps[end..]
            && Vlq.Decoded(r[start..|r| - tail]) == Some(replaceFn(Vlq.Decoded(maps[start..end]).value)))
  {
    FirstVLQBounds(maps);
    var (start, end) := FirstVLQ(maps);
    if start >= 0 {
      var d := Vlq.Decoded(maps[start..end]);
      if d.Some? {
        var middle := Vlq.Encoded(replaceFn(d.value));
        var r := maps[..start] + middle + maps[end..];
        var tail := |maps| - end;
        assert r[..start] == maps[..start];
        assert r[|r| - tail..] == maps[end..];
        assert r[start..|r| - tail] == middle;
        Vlq.DecodeEncode(replaceFn(d.value));
      }
    }
  }

  // ---------------------------------------------------------------------
  // Parsing into lines and segments.

  /** A parsed line: nil for an empty line, else its decoded segments. */
  datatype ParsedLine = NoLine | Segments(segments: seq<seq<int>>)

  /** Decodes each piece; None where some Decode panics. */
  function DecodeAll(pieces: seq<string>): (r: Option<seq<seq<int>>>)
    ensures r.Some? ==> |r.value| == |pieces|
                        && forall i :: 0 <= i < |pieces| ==> Vlq.Decoded(pieces[i]) == Some(r.value[i])
    ensures r.None? <==> exists i :: 0 <= i < |pieces| && Vlq.Decoded(pieces[i]).None?
  {
    if pieces == [] then Some([])
    else
      match Vlq.Decoded(pieces[0])
      case None => None
      case Some(head) =>
        match DecodeAll(pieces[1..])
        case None =>
          var i :| 0 <= i < |pieces[1..]| && Vlq.Decoded(pieces[1..][i]).None?;
          assert pieces[i + 1] == pieces[1..][i];
          None
        case Some(tail) =>
          var r := [head] + tail;
          assert forall i :: 1 <= i < |pieces| ==> pieces[i] == pieces[1..][i - 1];
          Some(r)
  }

  /** parseLineString */
  function ParseLineString(lineString: string): Option<ParsedLine> {
    if lineString == "" then Some(NoLine)
    else
      match DecodeAll(Split(lineString, ","))
      case None => None
      case Some(segments) => Some(Segments(segments))
  }

  /** Parses each line; None where some Decode panics. */
  function ParseLines(lineStrings: seq<string>): (r: Option<seq<ParsedLine>>)
    ensures r.Some? ==> |r.value| == |lineStrings|
                        && forall i :: 0 <= i < |lineStrings| ==> ParseLineString(lineStrings[i]) == Some(r.value[i])
    ensures r.None? <==> exists i :: 0 <= i < |lineStrings| && ParseLineString(lineStrings[i]).None?
  {
    if lineStrings == [] then Some([])
    else
      match ParseLineString(lineStrings[0])
      case None => None
      case Some(head) =>
        match ParseLines(lineStrings[1..])
        case None =>
          var i :| 0 <= i < |lineStrings[1..]| && ParseLineString(lineStrings[1..][i]).None?;
          assert lineStrings[i + 1] == lineStrings[1..][i];
          None
        case Some(tail) =>
          assert forall i :: 1 <= i < |lineStrings| ==> lineStrings[i] == lineStrings[1..][i - 1];
          Some([head] + tail)
  }

  /** parseMappings */
  function ParseMappings(maps: string): Option<seq<ParsedLine>> {
    ParseLines(Split(maps, ";"))
  }

  /**
    parseMappings yields one entry per ';'-separated line, in order: nil for
    an empty line, otherwise one decoded segment per ','-separated piece.
   */
  lemma ParseMappingsShape(maps: string)
    requires ParseMappings(maps).Some?
    ensures |ParseMappings(maps).value| == CountChar(maps, ';') + 1
    ensures forall i :: 0 <= i < |ParseMappings(maps).value| ==>
      var line := Split(maps, ";")[i];
      var parsed := ParseMappings(maps).value[i];
      && (parsed == NoLine <==> line == "")
      && (parsed.Segments? ==>
            && |parsed.segments| == CountChar(line, ',') + 1
            && forall j :: 0 <= j < |parsed.segments| ==>
                 Vlq.Decoded(Split(line, ",")[j]) == Some(parsed.segments[j]))
  {
    SplitCharCount(maps, ';');
    var lines := Split(maps, ";");
    forall i | 0 <= i < |lines| && lines[i] != ""
      ensures |Split(lines[i], ",")| == CountChar(lines[i], ',') + 1
    {
      SplitCharCount(lines[i], ',');
    }
  }

  // ---------------------------------------------------------------------
  // Vectors.

  /** Adds one to the generated column of a segment. */
  function BumpColumn(values: seq<int>): seq<int> {
    if |values| >= 1 then [values[0] + 1] + values[1..] else values
  }

  /** Adds (+1, -1, +1, -1) to a four-field segment. */
  function UpAndDown(values: seq<int>): seq<int> {
    if |values| == 4 then [values[0] + 1, values[1] - 1, values[2] + 1, values[3] - 1] else values
  }

  lemma EncodedFour(a: int, b: int, c: int, d: int)
    ensures Vlq.Encoded([a, b, c, d])
         == Vlq.EncodedInteger(a) + (Vlq.EncodedInteger(b) + (Vlq.EncodedInteger(c) + Vlq.EncodedInteger(d)))
  {
    assert [d][1..] == [];
    assert Vlq.Encoded([d]) == Vlq.EncodedInteger(d) + "";
    assert [c, d][1..] == [d];
    assert Vlq.Encoded([c, d]) == Vlq.EncodedInteger(c) + Vlq.Encoded([d]);
    assert [b, c, d][1..] == [c, d];
    assert Vlq.Encoded([b, c, d]) == Vlq.EncodedInteger(b) + Vlq.Encoded([c, d]);
    assert [a, b, c, d][1..] == [b, c, d];
  }

  lemma SmallCodes()
    ensures Vlq.EncodedInteger(0) == "A" && Vlq.EncodedInteger(1) == "C"
    ensures Vlq.EncodedInteger(-1) == "D" && Vlq.EncodedInteger(5) == "K"
    ensures Vlq.EncodedInteger(12) == "Y" && Vlq.EncodedInteger(13) == "a"
  {
  }

  lemma FourCodes()
    ensures Vlq.Encoded([12, 1, 1, 0]) == "YCCA"
    ensures Vlq.Encoded([13, 1, 1, 0]) == "aCCA"
    ensures Vlq.Encoded([0, 0, 0, 0]) == "AAAA"
    ensures Vlq.Encoded([1, -1, 1, -1]) == "CDCD"
    ensures Vlq.Encoded([5, 0, 0, 5]) == "KAAK"
  {
    SmallCodes();
    EncodedFour(12, 1, 1, 0);
    EncodedFour(13, 1, 1, 0);
    EncodedFour(0, 0, 0, 0);
    EncodedFour(1, -1, 1, -1);
    EncodedFour(5, 0, 0, 5);
  }

  /** Rewriting a whole-text segment with known values. */
  lemma ReplaceWholeSegment(maps: string, values: seq<int>, replaceFn: seq<int> -> seq<int>)
    requires maps != [] && forall k :: 0 <= k < |maps| ==> !IsSeparator(maps[k])
    requires Vlq.Encoded(values) == maps
    ensures ReplacedFirstVLQ(maps, replaceFn) == Some(Vlq.Encoded(replaceFn(values)))
  {
    FirstVLQBounds(maps);
    assert FirstVLQ(maps) == (0, |maps|);
    assert maps[0..|maps|] == maps && maps[..0] == [] && maps[|maps|..] == [];
    Vlq.DecodeEncode(values);
    var middle := Vlq.Encoded(replaceFn(values));
    assert [] + middle + [] == middle;
  }

  /** "YCCA" with the generated column bumped gives "aCCA". */
  lemma ReplaceVectorBump()
    ensures ReplacedFirstVLQ("YCCA", BumpColumn) == Some("aCCA")
  {
    FourCodes();
    assert BumpColumn([12, 1, 1, 0]) == [13, 1, 1, 0];
    ReplaceWholeSegment("YCCA", [12, 1, 1, 0], BumpColumn);
  }

  /** "AAAA" moved by (+1, -1, +1, -1) gives "CDCD". */
  lemma ReplaceVectorUpAndDown()
    ensures ReplacedFirstVLQ("AAAA", UpAndDown) == Some("CDCD")
  {
    FourCodes();
    assert UpAndDown([0, 0, 0, 0]) == [1, -1, 1, -1];
    ReplaceWholeSegment("AAAA", [0, 0, 0, 0], UpAndDown);
  }

  /** A run of non-separators after nothing but separators, and ended by a separator or the end, is the first segment. */
  lemma FirstVLQAt(maps: string, start: nat, end: nat)
    requires start < end <= |maps|
    requires forall k :: 0 <= k < start ==> IsSeparator(maps[k])
    requires forall k :: start <= k < end ==> !IsSeparator(maps[k])
    requires end == |maps| || IsSeparator(maps[end])
    ensures FirstVLQ(maps) == (start, end)
  {
    FirstVLQBounds(maps);
    var first := FirstNonSeparator(maps, 0);
    assert !IsSeparator(maps[start]);
    assert first != -1;
    assert !IsSeparator(maps[first]);
    assert first == start;
    var last := FirstSeparatorOrEnd(maps, start + 1);
    assert last <= end;
    assert last == |maps| || IsSeparator(maps[last]);
    assert last == end;
  }

  /** findFirstVLQ: a segment after five empty lines. */
  lemma FindFirstAfterLines(maps: string)
    requires maps == ";;;;;AAAA"
    ensures FirstVLQ(maps) == (5, 9)
  {
    FirstVLQAt(maps, 5, 9);
  }

  /** findFirstVLQ: only the first of several segments is found. */
  lemma FindFirstOfSeveral(maps: string)
    requires maps == ";;AAAA;;;AZQA;bGAFA;"
    ensures FirstVLQ(maps) == (2, 6)
  {
    FirstVLQAt(maps, 2, 6);
  }

  /** findFirstVLQ: a text of separators only has no segment. */
  lemma FindFirstNone()
    ensures FirstVLQ(";;;;;;;;;;;;") == (-1, -1)
  {
  }

  /** findFirstVLQ: a segment at the very start. */
  lemma FindFirstAtStart(maps: string)
    requires maps == "AAAA;;;;;"
    ensures FirstVLQ(maps) == (0, 4)
  {
    FirstVLQAt(maps, 0, 4);
  }

  /** Four empty lines, two segments and four more empty lines split apart at the separator. */
  lemma SplitShape(sep: string, a: string, b: string)
    requires |sep| == 1 && sep[0] !in a && sep[0] !in b
    ensures Split(sep + (sep + (sep + (sep + (a + (sep + (b + (sep + (sep + (sep + sep))))))))), sep)
            == ["", "", "", "", a, b, "", "", "", ""]
  {
    var lines := ["", "", "", "", a, b, "", "", "", ""];
    JoinShape(sep, a, b);
    SplitJoinSeparator(lines, sep);
  }

  /** The joined text of the split vector. */
  lemma JoinShape(sep: string, a: string, b: string)
    ensures Join(["", "", "", "", a, b, "", "", "", ""], sep)
            == sep + (sep + (sep + (sep + (a + (sep + (b + (sep + (sep + (sep + sep)))))))))
  {
    var l4: seq<string> := ["", "", "", ""];
    JoinEmpties(sep, l4);
    var l5 := [b] + l4;
    var l6 := [a] + l5;
    var l7 := [""] + l6;
    var l8 := [""] + l7;
    var l9 := [""] + l8;
    var l10 := [""] + l9;
    JoinCons(b, l4, sep);
    JoinCons(a, l5, sep);
    JoinEmptyCons(l6, sep);
    JoinEmptyCons(l7, sep);
    JoinEmptyCons(l8, sep);
    JoinEmptyCons(l9, sep);
    assert l10 == ["", "", "", "", a, b, "", "", "", ""];
  }

  /** Four empty lines join to three separators. */
  lemma JoinEmpties(sep: string, l4: seq<string>)
    requires l4 == ["", "", "", ""]
    ensures Join(l4, sep) == sep + (sep + sep)
  {
    var l1: seq<string> := [""];
    var l2 := [""] + l1;
    var l3 := [""] + l2;
    assert Join(l1, sep) == "";
    JoinEmptyCons(l1, sep);
    assert Join(l2, sep) == sep;
    JoinEmptyCons(l2, sep);
    JoinEmptyCons(l3, sep);
    assert l4 == [""] + l3;
  }

  /** An empty first part leaves only the separator in front of the rest. */
  lemma JoinEmptyCons(rest: seq<string>, sep: string)
    requires |rest| >= 1
    ensures Join([""] + rest, sep) == sep + Join(rest, sep)
  {
    JoinCons("", rest, sep);
    assert "" + (sep + Join(rest, sep)) == sep + Join(rest, sep);
  }

  /** Joining a first part onto a non-empty rest puts the separator between them. */
  lemma JoinCons(p: string, rest: seq<string>, sep: string)
    requires |rest| >= 1
    ensures Join([p] + rest, sep) == p + (sep + Join(rest, sep))
  {
    assert ([p] + rest)[1..] == rest;
  }

  lemma ParseSegmentLine(line: string, values: seq<int>)
    requires ',' !in line && line != "" && Vlq.Encoded(values) == line
    ensures ParseLineString(line) == Some(Segments([values]))
  {
    SplitJoinSeparator([line], [',']);
    assert Split(line, ",") == [line];
    Vlq.DecodeEncode(values);
    assert [line][1..] == [] && [line][0] == line;
    assert DecodeAll([]) == Some([]);
    assert [values] + [] == [values];
    assert DecodeAll([line]) == Some([values]);
  }

  /** Parsing every line to its expected entry parses the whole list. */
  lemma ParseAllLines(lines: seq<string>, expected: seq<ParsedLine>)
    requires |lines| == |expected|
    requires forall i :: 0 <= i < |lines| ==> ParseLineString(lines[i]) == Some(expected[i])
    ensures ParseLines(lines) == Some(expected)
  {
    var r := ParseLines(lines);
    assert r.Some?;
    forall i | 0 <= i < |lines| ensures r.value[i] == expected[i] {
      assert Some(r.value[i]) == ParseLineString(lines[i]) == Some(expected[i]);
    }
    assert r.value == expected;
  }

  /** The two segment lines of the parse test decode to one segment each. */
  lemma VectorSegments(a: string, b: string)
    requires a == "AAAA" && b == "KAAK"
    ensures ParseLineString(a) == Some(Segments([[0, 0, 0, 0]]))
    ensures ParseLineString(b) == Some(Segments([[5, 0, 0, 5]]))
  {
    SmallCodes();
    EncodedFour(0, 0, 0, 0);
    EncodedFour(5, 0, 0, 5);
    ParseSegmentLine(a, [0, 0, 0, 0]);
    ParseSegmentLine(b, [5, 0, 0, 5]);
  }

  /** The lines of the parse test: four empty ones, "AAAA", "KAAK" and four more empty ones. */
  lemma ParseVectorLines(a: string, b: string)
    requires a == "AAAA" && b == "KAAK"
    ensures ParseLines(["", "", "", "", a, b, "", "", "", ""])
         == Some([NoLine, NoLine, NoLine, NoLine, Segments([[0, 0, 0, 0]]), Segments([[5, 0, 0, 5]]),
                  NoLine, NoLine, NoLine, NoLine])
  {
    var lines := ["", "", "", "", a, b, "", "", "", ""];
    var expected := [NoLine, NoLine, NoLine, NoLine, Segments([[0, 0, 0, 0]]), Segments([[5, 0, 0, 5]]),
                     NoLine, NoLine, NoLine, NoLine];
    VectorSegments(a, b);
    forall i | 0 <= i < |lines| ensures ParseLineString(lines[i]) == Some(expected[i]) {
      if i != 4 && i != 5 {
        assert lines[i] == "" && expected[i] == NoLine;
      }
    }
    ParseAllLines(lines, expected);
  }

  /**
    The parse test: ";;;;AAAA;KAAK;;;;", written as its pieces, parses to
    four nils, [0,0,0,0], [5,0,0,5] and four nils.
   */
  lemma ParseVector(sep: string, a: string, b: string)
    requires sep == ";" && a == "AAAA" && b == "KAAK"
    ensures ParseMappings(sep + (sep + (sep + (sep + (a + (sep + (b + (sep + (sep + (sep + sep))))))))))
         == Some([NoLine, NoLine, NoLine, NoLine, Segments([[0, 0, 0, 0]]), Segments([[5, 0, 0, 5]]),
                  NoLine, NoLine, NoLine, NoLine])
  {
    SplitShape(sep, a, b);
    ParseVectorLines(a, b);
  }
}
