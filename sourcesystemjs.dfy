/**
  Parsing of a SystemJS formatted file in source/systemjs.go: the leading
  comment block, the `System.register([...]` header, the trailing
  source-map line and the body between them. The file arrives as the lines
  a line scanner yields.
 */
module SourceSystemJS {
  import opened Wrappers
  import opened GoStrings
  import opened TextFiles

  /** The parts of a SystemJS formatted file. */
  datatype FileElements = FileElements(preamble: seq<string>, imports: seq<string>, body: seq<string>,
                                       sourceMappingURL: string, lineCount: nat, isSystemJS: bool)

  /**
    skipPreamble: the leading comment block and its length, found by the same
    scan as readFirstLineBeyondComments.
   */
  method SkipPreamble(lines: seq<string>) returns (preamble: seq<string>, n: nat)
    ensures n == PreambleLength(lines)
    ensures preamble == lines[..n]
  {
    var inBlockComment := false;
    n := 0;
    while n < |lines|
      invariant 0 <= n <= |lines|
      invariant inBlockComment == BlockOpenAfter(lines, n)
      invariant forall j :: 0 <= j < n ==> Skipped(lines, j)
    {
      var line := lines[n];
      if HasPrefix(line, "//") {
        n := n + 1;
        continue;
      }
      if HasPrefix(line, BlockOpener) {
        inBlockComment := true;
        n := n + 1;
        continue;
      }
      if inBlockComment {
        if Contains(line, BlockCloser) {
          inBlockComment := false;
        }
        n := n + 1;
        continue;
      }
      break;
    }
    PreambleLengthUnique(lines, n);
    preamble := lines[..n];
  }

  /** Two line comments are both skipped. */
  lemma SkipPreamblePrefixVector(lines: seq<string>)
    requires lines == ["// comment 1", "// comment 2"]
    ensures PreambleLength(lines) == 2
  {
    assert HasPrefix(lines[0], "//") && HasPrefix(lines[1], "//");
    PreambleLengthUnique(lines, 2);
  }

  /** A block comment over three lines is skipped up to the line that closes it. */
  lemma SkipPreambleBlockVector(lines: seq<string>)
    requires lines == [BlockOpener + " comment 1", " comment 2", " comment 3 " + BlockCloser + " ",
                       "blah blah something else"]
    ensures PreambleLength(lines) == 3
  {
    BlockClosingLine(lines, 0, 2);
    assert !Skipped(lines, 3) by {
      assert lines[3][0] == 'b';
    }
    PreambleLengthUnique(lines, 3);
  }

  /** A line comment after a closed block is skipped as well. */
  lemma SkipPreambleMixtureVector(lines: seq<string>)
    requires lines == [BlockOpener + " comment 1", " comment 2", " comment 3 " + BlockCloser + " ",
                       "// another rand comment 4", "blah blah something else"]
    ensures PreambleLength(lines) == 4
  {
    BlockClosingLine(lines, 0, 2);
    assert HasPrefix(lines[3], "//");
    assert !Skipped(lines, 4) by {
      assert lines[4][0] == 'b';
    }
    PreambleLengthUnique(lines, 4);
  }

  /** The vectors' block: opened on line a, plain line a + 1, closed on line b = a + 2. */
  lemma BlockClosingLine(lines: seq<string>, a: nat, b: nat)
    requires b == a + 2 && b < |lines|
    requires lines[a] == BlockOpener + " comment 1" && lines[a + 1] == " comment 2"
    requires lines[b] == " comment 3 " + BlockCloser + " "
    ensures Skipped(lines, a) && Skipped(lines, a + 1) && Skipped(lines, b)
    ensures !BlockOpenAfter(lines, b + 1)
  {
    assert HasPrefix(lines[a], BlockOpener);
    assert lines[a + 1][0] == ' ' && lines[b][0] == ' ';
    assert OccursAt(lines[b], BlockCloser, 11);
    assert !Contains(lines[a + 1], BlockCloser) by {
      var s := lines[a + 1];
      assert '*' !in s;
      forall i | 0 <= i <= |s| ensures !OccursAt(s, BlockCloser, i) {
        if i + 2 <= |s| {
          assert s[i..i + 2][0] == s[i];
        }
      }
    }
    BlockCloses(lines, a, b);
  }

  /**
    chooseBodyLines: the lines after the preamble, without the last line when
    it is the source-map line. Slicing up to the last line needs the preamble
    to stop before it.
   */
  function ChooseBodyLines(lines: seq<string>, numPreambleLines: nat, foundSourceMap: bool): (body: seq<string>)
    requires numPreambleLines <= |lines|
    requires foundSourceMap ==> numPreambleLines < |lines|
    ensures lines[..numPreambleLines] + body + (if foundSourceMap then [lines[|lines| - 1]] else []) == lines
  {
    if foundSourceMap then lines[numPreambleLines..|lines| - 1] else lines[numPreambleLines..]
  }

  const SourceMappingURLPrefix: string := "//# sourceMappingURL="

  /** parseSourceMappingURL: the URL after the prefix, and whether the line had it. */
  function ParseSourceMappingURL(line: string): (r: (string, bool))
    ensures r.1 <==> HasPrefix(line, SourceMappingURLPrefix)
    ensures r.1 ==> SourceMappingURLPrefix + r.0 == line
    ensures !r.1 ==> r.0 == ""
  {
    if HasPrefix(line, SourceMappingURLPrefix) then (line[|SourceMappingURLPrefix|..], true) else ("", false)
  }

  const RegisterPrefix: string := "System.register(["

  /** Every element with the character trimmed off both ends. */
  function TrimEach(parts: seq<string>, c: char): (r: seq<string>)
    ensures |r| == |parts|
    ensures forall i :: 0 <= i < |parts| ==> r[i] == Trim(parts[i], c)
  {
    seq(|parts|, i requires 0 <= i < |parts| => Trim(parts[i], c))
  }

  /**
    What ParseRegisterDependencies returns: the ", "-separated entries
    between the first '[' and the last ']' of a line that starts with
    RegisterPrefix, unquoted when asked, and whether the line is a register
    line at all.
   */
  function RegisterDependencies(line: string, trimQuotes: bool): (r: (seq<string>, bool))
    ensures !r.1 ==> r.0 == []
  {
    if !HasPrefix(line, RegisterPrefix) then ([], false)
    else
      var openPos := Index(line, "[");
      var closePos := LastIndex(line, "]");
      if openPos < 0 || closePos < 0 || openPos > closePos then ([], false)
      else if closePos == openPos + 1 then ([], true)
      else
        var dependencies := Split(line[openPos + 1..closePos], ", ");
        (if trimQuotes then TrimEach(dependencies, '"') else dependencies, true)
  }

  /** ParseRegisterDependencies, unquoting the split entries in place. */
  method ParseRegisterDependencies(line: string, trimQuotes: bool) returns (dependencies: seq<string>, ok: bool)
    ensures (dependencies, ok) == RegisterDependencies(line, trimQuotes)
  {
    if !HasPrefix(line, RegisterPrefix) {
      return [], false;
    }
    var openPos := Index(line, "[");
    var closePos := LastIndex(line, "]");
    if openPos < 0 || closePos < 0 || openPos > closePos {
      return [], false;
    }
    if closePos == openPos + 1 {
      return [], true;
    }
    dependencies := Split(line[openPos + 1..closePos], ", ");
    if trimQuotes {
      ghost var quoted := dependencies;
      var i := 0;
      while i < |dependencies|
        invariant 0 <= i <= |dependencies| == |quoted|
        invariant forall j :: 0 <= j < i ==> dependencies[j] == Trim(quoted[j], '"')
        invariant forall j :: i <= j < |dependencies| ==> dependencies[j] == quoted[j]
      {
        dependencies := dependencies[i := Trim(dependencies[i], '"')];
        i := i + 1;
      }
      assert dependencies == TrimEach(quoted, '"');
    }
    ok := true;
  }

  /** In a line with the register prefix the '[' is the prefix's own, and any ']' comes after it. */
  lemma RegisterBrackets(line: string)
    requires HasPrefix(line, RegisterPrefix)
    ensures Index(line, "[") == |RegisterPrefix| - 1
    ensures Contains(line, "]") ==> LastIndex(line, "]") >= |RegisterPrefix|
  {
    assert line[..|RegisterPrefix|] == RegisterPrefix;
    assert line[16..17] == "[";
    assert OccursAt(line, "[", 16);
    forall j | 0 <= j < 16 ensures !OccursAt(line, "[", j) {
      assert line[j] == RegisterPrefix[j];
    }
  }

  /** A line is a register line exactly when it has the prefix and a closing bracket. */
  lemma RegisterRecognised(line: string, trimQuotes: bool)
    ensures RegisterDependencies(line, trimQuotes).1 <==> HasPrefix(line, RegisterPrefix) && Contains(line, "]")
  {
    if HasPrefix(line, RegisterPrefix) {
      RegisterBrackets(line);
    }
  }

  /** `[]` directly after the prefix, with no later ']', is a register line without imports. */
  lemma RegisterNoImports(line: string, rest: string, trimQuotes: bool)
    requires ']' !in rest
    requires line == RegisterPrefix + "]" + rest
    ensures RegisterDependencies(line, trimQuotes) == ([], true)
  {
    assert HasPrefix(line, RegisterPrefix);
    assert OccursAt(line, "]", 17);
    RegisterBrackets(line);
    LastClosingAt(line, 17);
  }

  /** A ']' at `p` with none after it is the last one. */
  lemma LastClosingAt(line: string, p: nat)
    requires p < |line| && line[p] == ']' && ']' !in line[p + 1..]
    ensures LastIndex(line, "]") == p
  {
    assert line[p..p + 1] == "]";
    assert OccursAt(line, "]", p);
    forall j | p < j < |line| ensures line[j] != ']' {
      assert line[p + 1..][j - p - 1] == line[j];
    }
    forall j | j > p ensures !OccursAt(line, "]", j) {
      if j + 1 <= |line| {
        assert line[j..j + 1][0] == line[j];
      }
    }

  }

  /** With the last ']' beyond the prefix's '[', the entries are the split text between them. */
  lemma RegisterEntries(line: string, p: nat)
    requires HasPrefix(line, RegisterPrefix)
    requires p > |RegisterPrefix| && LastIndex(line, "]") == p
    ensures RegisterDependencies(line, false) == (Split(line[|RegisterPrefix|..p], ", "), true)
  {
    RegisterBrackets(line);
  }

  /** The entries of a register line written as prefix, entry text, ']' and a tail without ']'. */
  lemma RegisterLineEntries(line: string, entries: string, rest: string)
    requires line == RegisterPrefix + entries + "]" + rest
    requires entries != [] && ']' !in entries && ']' !in rest
    ensures RegisterDependencies(line, false) == (Split(entries, ", "), true)
  {
    var p := |RegisterPrefix| + |entries|;
    assert line[p + 1..] == rest;
    assert line[p] == ']';
    LastClosingAt(line, p);
    assert line[|RegisterPrefix|..p] == entries;
    RegisterEntries(line, p);
  }

  /** A join lacks a character that neither the parts nor the separator contain. */
  lemma {:induction false} JoinLacks(parts: seq<string>, sep: string, c: char)
    requires c !in sep
    requires forall k :: 0 <= k < |parts| ==> c !in parts[k]
    ensures c !in Join(parts, sep)
    decreases |parts|
  {
    if |parts| > 1 {
      JoinLacks(parts[1..], sep, c);
    }
  }

  /**
    A header written from entries free of ',' and ']' parses back to the same
    entries (an empty entry list needs its own line, see RegisterNoImports).
   */
  lemma RegisterRoundTrip(line: string, dependencies: seq<string>, rest: string)
    requires |dependencies| >= 1 && Join(dependencies, ", ") != ""
    requires forall k :: 0 <= k < |dependencies| ==> ',' !in dependencies[k] && ']' !in dependencies[k]
    requires ']' !in rest
    requires line == RegisterPrefix + Join(dependencies, ", ") + "]" + rest
    ensures RegisterDependencies(line, false) == (dependencies, true)
  {
    JoinedEntries(dependencies);
    RegisterLineEntries(line, Join(dependencies, ", "), rest);
  }

  /** Entries free of ',' and ']' joined by ", " split back into themselves and hold no ']'. */
  lemma JoinedEntries(dependencies: seq<string>)
    requires |dependencies| >= 1
    requires forall k :: 0 <= k < |dependencies| ==> ',' !in dependencies[k] && ']' !in dependencies[k]
    ensures Split(Join(dependencies, ", "), ", ") == dependencies
    ensures ']' !in Join(dependencies, ", ")
  {
    SplitJoinSeparator(dependencies, ", ");
    JoinLacks(dependencies, ", ", ']');
  }

  function Quote(name: string): string {
    "\"" + name + "\""
  }

  function QuoteEach(names: seq<string>): (r: seq<string>)
    ensures |r| == |names|
    ensures forall i :: 0 <= i < |names| ==> r[i] == Quote(names[i])
  {
    seq(|names|, i requires 0 <= i < |names| => Quote(names[i]))
  }

  /** Unquoting only trims the entries the plain parse yields. */
  lemma RegisterUnquoted(line: string)
    ensures RegisterDependencies(line, true)
         == (TrimEach(RegisterDependencies(line, false).0, '"'), RegisterDependencies(line, false).1)
  {
  }

  /** Quoted names free of ',' and ']' are themselves free of them, and their join is not empty. */
  lemma QuotedEntries(names: seq<string>)
    requires |names| >= 1
    requires forall k :: 0 <= k < |names| ==> ',' !in names[k] && ']' !in names[k]
    ensures forall k :: 0 <= k < |names| ==> ',' !in QuoteEach(names)[k] && ']' !in QuoteEach(names)[k]
    ensures Join(QuoteEach(names), ", ") != ""
  {
    var quoted := QuoteEach(names);
    forall k | 0 <= k < |quoted| ensures ',' !in quoted[k] && ']' !in quoted[k] {
      assert quoted[k] == ['"'] + names[k] + ['"'];
    }
    JoinStartsWith(quoted, ", ");
  }

  /**
    With trimQuotes set, a header of quoted names free of '"', ',' and ']'
    parses back to the bare names.
   */
  lemma RegisterQuotedRoundTrip(line: string, names: seq<string>, rest: string)
    requires |names| >= 1
    requires forall k :: 0 <= k < |names| ==> '"' !in names[k] && ',' !in names[k] && ']' !in names[k]
    requires ']' !in rest
    requires line == RegisterPrefix + Join(QuoteEach(names), ", ") + "]" + rest
    ensures RegisterDependencies(line, true) == (names, true)
  {
    var quoted := QuoteEach(names);
    QuotedEntries(names);
    RegisterRoundTrip(line, quoted, rest);
    RegisterUnquoted(line);
    var trimmed := TrimEach(quoted, '"');
    forall k | 0 <= k < |names| ensures trimmed[k] == names[k] {
      assert quoted[k] == ['"'] + names[k] + ['"'];
      TrimEnclosed(names[k], '"');
    }
    assert trimmed == names;
  }

  lemma JoinStartsWith(parts: seq<string>, sep: string)
    requires |parts| >= 1
    ensures |Join(parts, sep)| >= |parts[0]|
  {
    if |parts| > 1 {
      assert Join(parts, sep) == parts[0] + sep + Join(parts[1..], sep);
    }
  }

  /**
    ParseSystemJSFormattedFile of source/systemjs.go over the scanned lines.
    A non-empty file that is all preamble reads one line past the end: None.
   */
  function Elements(lines: seq<string>): (r: Option<FileElements>)
    ensures lines == [] ==> r == Some(FileElements([], [], [], "", 0, false))
    ensures lines != [] ==> (r.None? <==> PreambleLength(lines) == |lines|)
    ensures r.Some? ==> r.value.lineCount == |lines|
    ensures r.Some? && lines != [] ==>
      var n := PreambleLength(lines);
      var (url, found) := ParseSourceMappingURL(lines[|lines| - 1]);
      && r.value.preamble == lines[..n]
      && r.value.preamble + r.value.body + (if found then [lines[|lines| - 1]] else []) == lines
      && r.value.sourceMappingURL == url
      && (r.value.imports, r.value.isSystemJS) == RegisterDependencies(lines[n], false)
  {
    if |lines| == 0 then Some(FileElements([], [], [], "", 0, false))
    else
      var n := PreambleLength(lines);
      if n == |lines| then None
      else
        var (imports, foundRegister) := RegisterDependencies(lines[n], false);
        var (url, foundSourceMap) := ParseSourceMappingURL(lines[|lines| - 1]);
        Some(FileElements(lines[..n], imports, ChooseBodyLines(lines, n, foundSourceMap), url, |lines|, foundRegister))
  }

  method ParseSystemJSFormattedFile(lines: seq<string>) returns (r: Option<FileElements>)
    ensures r == Elements(lines)
  {
    var numLines := |lines|;
    if numLines == 0 {
      return Some(FileElements([], [], [], "", 0, false));
    }
    var preamble, numPreambleLines := SkipPreamble(lines);
    if numPreambleLines == numLines {
      return None;
    }
    var imports, foundRegister := ParseRegisterDependencies(lines[numPreambleLines], false);
    var sourceMapLine := lines[numLines - 1];
    var (sourceMappingURL, foundSourceMap) := ParseSourceMappingURL(sourceMapLine);
    var body := ChooseBodyLines(lines, numPreambleLines, foundSourceMap);
    r := Some(FileElements(preamble, imports, body, sourceMappingURL, numLines, foundRegister));
  }
}
