/**
  ParseJSFileContents of source/JSFileContents.go: a JavaScript file split
  into preamble, imports and body, with its register line rewritten to name
  the module in the bundle, or wrapped in a register call when it has none.
 */
module JSFileContents {
  import opened GoStrings
  import opened TextFiles
  import opened SourceSystemJS

  datatype JSFileContents = JSFileContents(preamble: seq<string>, imports: seq<string>, body: seq<string>,
                                           sourceMappingURL: string, lineCount: nat, isSystemJS: bool)

  /** The text after the module name in a bundle register line. */
  const RegisterCallback: string := ", function (exports_1, context_1) {"

  lemma CallbackLacksBracket()
    ensures ']' !in RegisterCallback
  {
    forall i | 0 <= i < |RegisterCallback| ensures RegisterCallback[i] != ']' {
    }
  }

  /** getRegisterLineForBundle */
  function RegisterLineForBundle(name: string, imports: seq<string>): string {
    "System.register(\"" + name + ".js\", [" + Join(imports, ", ") + "]" + RegisterCallback
  }

  /** The line that closes a wrapping register call. */
  const WrapperCloser: string := "});"

  /** The bundle register line with its module-name argument taken out. */
  function WithoutModuleName(line: string, name: string): string
    requires |line| >= 16 + |name| + 7
  {
    line[..16] + line[16 + |name| + 7..]
  }

  /** The bundle register line is the anonymous one with the quoted module name spliced in after its '('. */
  lemma BundleLineShape(line: string, name: string, joined: string)
    requires line == "System.register(\"" + name + ".js\", [" + joined + "]" + RegisterCallback
    ensures |line| >= 16 + |name| + 7 && line[16] == '"'
    ensures WithoutModuleName(line, name) == RegisterPrefix + joined + "]" + RegisterCallback
  {
    var head, mid, tail := "System.register(", "\"" + name + ".js\", ", "[" + joined + "]" + RegisterCallback;
    BundleLineParts(line, name, joined, head, mid, tail);
    ThreeParts(head, mid, tail);
    PrefixRegrouped(head, joined, RegisterCallback);
  }

  /** The bundle register line as the call's head, the quoted module name, and the anonymous line's tail. */
  lemma BundleLineParts(line: string, name: string, joined: string, head: string, mid: string, tail: string)
    requires line == "System.register(\"" + name + ".js\", [" + joined + "]" + RegisterCallback
    requires head == "System.register(" && mid == "\"" + name + ".js\", " && tail == "[" + joined + "]" + RegisterCallback
    ensures line == head + mid + tail
  {
  }

  /** The first and the last of three concatenated parts can be sliced back out. */
  lemma ThreeParts(a: string, b: string, c: string)
    ensures (a + b + c)[..|a|] == a && (a + b + c)[|a| + |b|..] == c
  {
  }

  /** The call's head followed by '[' is the register prefix. */
  lemma PrefixRegrouped(head: string, joined: string, callback: string)
    requires head == "System.register("
    ensures head + ("[" + joined + "]" + callback) == RegisterPrefix + joined + "]" + callback
  {
  }

  /**
    A bundle register line is a register line with the module name inserted
    as first argument: without it, the header parser reads back exactly the
    imports it was written from.
   */
  lemma BundleLineCarriesImports(line: string, name: string, imports: seq<string>)
    requires line == RegisterLineForBundle(name, imports)
    requires imports == [] || Join(imports, ", ") != ""
    requires forall k :: 0 <= k < |imports| ==> ',' !in imports[k] && ']' !in imports[k]
    ensures |line| >= 16 + |name| + 7
    ensures RegisterDependencies(WithoutModuleName(line, name), false) == (imports, true)
  {
    BundleLineShape(line, name, Join(imports, ", "));
    CallbackLacksBracket();
    AnonymousLineImports(WithoutModuleName(line, name), imports, RegisterCallback);
  }

  /**
    A register line without a module name, whose tail after ']' holds no
    other ']', reads back the imports it was written from.
   */
  lemma AnonymousLineImports(line: string, imports: seq<string>, callback: string)
    requires line == RegisterPrefix + Join(imports, ", ") + "]" + callback
    requires ']' !in callback
    requires imports == [] || Join(imports, ", ") != ""
    requires forall k :: 0 <= k < |imports| ==> ',' !in imports[k] && ']' !in imports[k]
    ensures RegisterDependencies(line, false) == (imports, true)
  {
    if imports == [] {
      AnonymousLineNoImports(line, callback);
    } else {
      RegisterRoundTrip(line, imports, callback);
    }
  }

  /** The same for an empty import list: "[]" is read as a register line without imports. */
  lemma AnonymousLineNoImports(line: string, callback: string)
    requires line == RegisterPrefix + Join([], ", ") + "]" + callback
    requires ']' !in callback
    ensures RegisterDependencies(line, false) == ([], true)
  {
    EmptyJoinDropped(RegisterPrefix, ", ", "]", callback);
    RegisterNoImports(line, callback, false);
  }

  /** An empty import list adds nothing to the line. */
  lemma EmptyJoinDropped(head: string, sep: string, close: string, tail: string)
    ensures head + Join([], sep) + close + tail == head + close + tail
  {
    assert head + Join([], sep) == head;
  }

  /** The bundle line itself is not read as a register line: its argument list does not open with '['. */
  lemma BundleLineNotRegister(name: string, imports: seq<string>)
    ensures !RegisterDependencies(RegisterLineForBundle(name, imports), false).1
  {
    var line := RegisterLineForBundle(name, imports);
    BundleLineShape(line, name, Join(imports, ", "));
    assert line[16] != RegisterPrefix[16];
  }

  /** The line a scan of `lines` stops at cannot be the source-map line: that one starts with "//". */
  lemma FirstCodeLineNotSourceMap(lines: seq<string>)
    requires PreambleLength(lines) < |lines|
    ensures !ParseSourceMappingURL(lines[PreambleLength(lines)]).1
  {
  }

  /**
    What ParseJSFileContents returns for the lines of a file: a found
    register line is replaced by the bundle one; a file that is all
    preamble, or has no register line, is wrapped in a register call.
   */
  function Contents(name: string, lines: seq<string>): JSFileContents {
    var n := PreambleLength(lines);
    if n == |lines| then
      JSFileContents([], [], [RegisterLineForBundle(name, [])] + lines + [WrapperCloser], "", |lines| + 2, false)
    else
      var (imports, foundRegister) := RegisterDependencies(lines[n], false);
      var (sourceMappingURL, foundSourceMap) := ParseSourceMappingURL(lines[|lines| - 1]);
      FirstCodeLineNotSourceMap(lines);
      var body := ChooseBodyLines(lines, n, foundSourceMap);
      assert body[0] == lines[n];
      if foundRegister then
        JSFileContents(lines[..n], imports, lines[..n] + [RegisterLineForBundle(name, imports)] + body[1..],
                       sourceMappingURL, |lines|, true)
      else
        JSFileContents(lines[..n], imports, lines[..n] + [RegisterLineForBundle(name, [])] + body + [WrapperCloser],
                       sourceMappingURL, |lines| + 2, false)
  }

  /**
    A register file keeps its line count and every line but the source-map
    line, with the register line replaced in place; any other file gains
    the bundle register line after its preamble and the closing line at the
    end, two lines more.
   */
  lemma ContentsShape(name: string, lines: seq<string>)
    ensures var r := Contents(name, lines);
      && r.lineCount == |lines| + (if r.isSystemJS then 0 else 2)
      && |r.preamble| <= |lines| && r.preamble == lines[..|r.preamble|]
      && (r.isSystemJS ==>
        && |r.preamble| < |r.body| && |lines| > 0
        && |r.body| == |lines| - (if ParseSourceMappingURL(lines[|lines| - 1]).1 then 1 else 0)
        && r.body[|r.preamble|] == RegisterLineForBundle(name, r.imports)
        && forall i :: 0 <= i < |r.body| && i != |r.preamble| ==> r.body[i] == lines[i])
      && (!r.isSystemJS ==>
        && r.imports == []
        && |r.body| >= |r.preamble| + 2
        && r.body[..|r.preamble|] == r.preamble
        && r.body[|r.preamble|] == RegisterLineForBundle(name, [])
        && r.body[|r.body| - 1] == WrapperCloser)
  {
    var n := PreambleLength(lines);
    if n < |lines| {
      FirstCodeLineNotSourceMap(lines);
      var foundSourceMap := ParseSourceMappingURL(lines[|lines| - 1]).1;
      var body := ChooseBodyLines(lines, n, foundSourceMap);
      if RegisterDependencies(lines[n], false).1 {
        RegisterShape(lines, n, foundSourceMap, RegisterLineForBundle(name, RegisterDependencies(lines[n], false).0));
      } else {
        WrappedShape(lines[..n], body, RegisterLineForBundle(name, []));
      }
    } else {
      WrappedShape([], lines, RegisterLineForBundle(name, []));
    }
  }

  /** The body of a register file: the lines of the file with the register line replaced and no source-map line. */
  lemma RegisterShape(lines: seq<string>, n: nat, foundSourceMap: bool, line: string)
    requires n < |lines| && (foundSourceMap ==> n < |lines| - 1)
    ensures var b := lines[..n] + [line] + ChooseBodyLines(lines, n, foundSourceMap)[1..];
            && |b| == |lines| - (if foundSourceMap then 1 else 0) && b[n] == line
            && forall i :: 0 <= i < |b| && i != n ==> b[i] == lines[i]
  {
    var body := ChooseBodyLines(lines, n, foundSourceMap);
    var b := lines[..n] + [line] + body[1..];
    forall i | 0 <= i < |b| && i != n
      ensures b[i] == lines[i]
    {
      if i > n {
        assert b[i] == body[1..][i - n - 1] == body[i - n];
        assert body[i - n] == lines[n..][i - n];
      }
    }
  }

  /** The body of a wrapped file: the preamble, the register line, the body and the closing line. */
  lemma WrappedShape(preamble: seq<string>, body: seq<string>, line: string)
    ensures var b := preamble + [line] + body + [WrapperCloser];
            && |b| == |preamble| + |body| + 2 && b[..|preamble|] == preamble
            && b[|preamble|] == line && b[|b| - 1] == WrapperCloser
  {
    var b := preamble + [line] + body + [WrapperCloser];
    assert b[..|preamble|] == preamble;
  }

  /** ParseJSFileContents: the text is split into lines, which ParseJSLines takes apart. */
  method ParseJSFileContents(name: string, fileContents: string) returns (r: JSFileContents)
    ensures r == Contents(name, StringToLines(fileContents))
  {
    var lines := SplitLines(fileContents);
    r := ParseJSLines(name, lines);
  }

  /** The rest of ParseJSFileContents: the body is built by appending, then the register line is replaced in place. */
  method ParseJSLines(name: string, lines: seq<string>) returns (r: JSFileContents)
    ensures r == Contents(name, lines)
  {
    var numLines := |lines|;
    var imports: seq<string> := [];
    var foundRegister := false;
    var sourceMappingURL := "";
    var foundSourceMap := false;
    var body: seq<string> := [];
    var preamble: seq<string> := [];
    if numLines > 0 {
      var numPreambleLines;
      preamble, numPreambleLines := SkipPreamble(lines);
      if numPreambleLines == numLines {
        body := preamble;
        preamble := [];
        sourceMappingURL := "";
        assert body == lines;
      } else {
        imports, foundRegister := ParseRegisterDependencies(lines[numPreambleLines], false);
        var sourceMapLine := lines[numLines - 1];
        sourceMappingURL, foundSourceMap := ParseSourceMappingURL(sourceMapLine).0, ParseSourceMappingURL(sourceMapLine).1;
        FirstCodeLineNotSourceMap(lines);
        body := ChooseBodyLines(lines, numPreambleLines, foundSourceMap);
        assert body[0] == lines[numPreambleLines];
      }
    }
    var bodyCopy := AssembleBody(name, preamble, imports, body, foundRegister);
    if !foundRegister {
      numLines := numLines + 2;
    }
    r := JSFileContents(preamble, imports, bodyCopy, sourceMappingURL, numLines, foundRegister);
  }

  /**
    The final body: with a register line, the preamble and body are copied
    and the register line overwritten in place; otherwise the bundle
    register line and the closing line are wrapped around the body.
   */
  method AssembleBody(name: string, preamble: seq<string>, imports: seq<string>, body: seq<string>,
                      foundRegister: bool) returns (bodyCopy: seq<string>)
    requires foundRegister ==> |body| >= 1
    ensures foundRegister ==> bodyCopy == preamble + [RegisterLineForBundle(name, imports)] + body[1..]
    ensures !foundRegister ==> bodyCopy == preamble + [RegisterLineForBundle(name, [])] + body + [WrapperCloser]
  {
    bodyCopy := preamble;
    if foundRegister {
      bodyCopy := bodyCopy + body;
      bodyCopy := bodyCopy[|preamble| := RegisterLineForBundle(name, imports)];
      assert bodyCopy == preamble + [RegisterLineForBundle(name, imports)] + body[1..];
    } else {
      bodyCopy := bodyCopy + [RegisterLineForBundle(name, [])];
      bodyCopy := bodyCopy + body;
      bodyCopy := bodyCopy + [WrapperCloser];
    }
  }

  /** The register line of every test vector below. */
  function TestRegisterLine(entries: string): string {
    RegisterPrefix + entries + "]" + RegisterCallback
  }

  /**
    A twenty-line module with three imports and a source-map line: the
    imports keep their quotes, the body loses the source-map line, and the
    line count is unchanged.
   */
  lemma ParseGoodVector(lines: seq<string>)
    requires |lines| == 20
    requires lines[0] == TestRegisterLine(Join(["\"tslib\"", "\"../../../math/katex/KatexFacade\"", "\"./FormulaInputRow\""], ", "))
    requires lines[19] == SourceMappingURLPrefix + "TouchFormulaInputRow.js.map"
    ensures Contents("abcd", lines).imports == ["\"tslib\"", "\"../../../math/katex/KatexFacade\"", "\"./FormulaInputRow\""]
    ensures |Contents("abcd", lines).body| == 19
    ensures Contents("abcd", lines).sourceMappingURL == "TouchFormulaInputRow.js.map"
    ensures Contents("abcd", lines).lineCount == 20
    ensures Contents("abcd", lines).isSystemJS
  {
    var imports := ["\"tslib\"", "\"../../../math/katex/KatexFacade\"", "\"./FormulaInputRow\""];
    FirstLineIsCode(lines);
    CallbackLacksBracket();
    assert Join(imports, ", ") != "";
    GoodImportsPlain(imports);
    RegisterRoundTrip(lines[0], imports, RegisterCallback);
  }

  /** The imports of the twenty-line module hold no ',' and no ']'. */
  lemma GoodImportsPlain(imports: seq<string>)
    requires imports == ["\"tslib\"", "\"../../../math/katex/KatexFacade\"", "\"./FormulaInputRow\""]
    ensures forall k :: 0 <= k < |imports| ==> ',' !in imports[k] && ']' !in imports[k]
  {
    forall k | 0 <= k < |imports|
      ensures ',' !in imports[k] && ']' !in imports[k]
    {
      var s := imports[k];
      forall i | 0 <= i < |s| ensures s[i] != ',' && s[i] != ']' {
      }
    }
  }

  /** A file whose first line is not a comment has no preamble. */
  lemma FirstLineIsCode(lines: seq<string>)
    requires |lines| > 0 && |lines[0]| > 0 && lines[0][0] != '/'
    ensures PreambleLength(lines) == 0
  {
    PreambleLengthUnique(lines, 0);
  }

  /** Markup without a register line is wrapped: two lines more in body and count. */
  lemma WrongFileTypeVector(lines: seq<string>)
    requires lines == ["<div>", "\tHello, world.", "</div>"]
    ensures Contents("abcd", lines).imports == []
    ensures |Contents("abcd", lines).body| == 5
    ensures Contents("abcd", lines).sourceMappingURL == ""
    ensures Contents("abcd", lines).lineCount == 5
    ensures !Contents("abcd", lines).isSystemJS
  {
    FirstLineIsCode(lines);
    assert !HasPrefix(lines[0], RegisterPrefix);
    assert !HasPrefix(lines[2], SourceMappingURLPrefix);
  }

  /** A source-map line is taken off before wrapping. */
  lemma SourceMapOnlyVector(lines: seq<string>)
    requires lines == ["<div>", "\tHello, world.", "</div>", SourceMappingURLPrefix + "blah.xml"]
    ensures Contents("abcd", lines).imports == []
    ensures |Contents("abcd", lines).body| == 5
    ensures Contents("abcd", lines).sourceMappingURL == "blah.xml"
    ensures Contents("abcd", lines).lineCount == 6
    ensures !Contents("abcd", lines).isSystemJS
  {
    FirstLineIsCode(lines);
    assert !HasPrefix(lines[0], RegisterPrefix);
  }

  /** A register line with one import and a closing line. */
  lemma RegisterOnlyVector(lines: seq<string>)
    requires lines == [TestRegisterLine("\"tslib\""), "}"]
    ensures |Contents("abcd", lines).imports| == 1
    ensures |Contents("abcd", lines).body| == 2
    ensures Contents("abcd", lines).sourceMappingURL == ""
    ensures Contents("abcd", lines).lineCount == 2
  {
    FirstLineIsCode(lines);
    CallbackLacksBracket();
    RegisterRoundTrip(lines[0], ["\"tslib\""], RegisterCallback);
    assert !HasPrefix(lines[1], SourceMappingURLPrefix);
  }

  /** `[]` gives no imports. */
  lemma RegisterNoImportsVector(lines: seq<string>)
    requires lines == [TestRegisterLine(""), "}"]
    ensures Contents("abcd", lines).imports == []
    ensures Contents("abcd", lines).isSystemJS
  {
    FirstLineIsCode(lines);
    CallbackLacksBracket();
    assert lines[0] == RegisterPrefix + "]" + RegisterCallback;
    RegisterNoImports(lines[0], RegisterCallback, false);
  }

  /** Brackets in the wrong order: not a register line. */
  lemma InvalidRegisterVector(lines: seq<string>)
    requires lines == ["System.register(][" + RegisterCallback, "}"]
    ensures !Contents("abcd", lines).isSystemJS
  {
    FirstLineIsCode(lines);
    assert lines[0][16] != RegisterPrefix[16];
  }

  /** No closing bracket: not a register line. */
  lemma InvalidRegisterUnclosedVector(lines: seq<string>)
    requires lines == [RegisterPrefix + RegisterCallback, "}"]
    ensures !Contents("abcd", lines).isSystemJS
  {
    FirstLineIsCode(lines);
    CallbackLacksBracket();
    PrefixLacksBracket();
    LacksBoth(RegisterPrefix, RegisterCallback, ']');
    UnclosedNotRegister(lines[0]);
  }

  lemma PrefixLacksBracket()
    ensures ']' !in RegisterPrefix
  {
    forall i | 0 <= i < |RegisterPrefix| ensures RegisterPrefix[i] != ']' {
    }
  }

  /** A character in neither part is not in their concatenation. */
  lemma LacksBoth(a: string, b: string, c: char)
    requires c !in a && c !in b
    ensures c !in a + b
  {
    forall i | 0 <= i < |a + b| ensures (a + b)[i] != c {
      if i >= |a| {
        assert (a + b)[i] == b[i - |a|];
      }
    }
  }

  /** A line without ']' is never a register line. */
  lemma UnclosedNotRegister(line: string)
    requires ']' !in line
    ensures !RegisterDependencies(line, false).1
  {
    RegisterRecognised(line, false);
    forall i | 0 <= i <= |line| ensures !OccursAt(line, "]", i) {
      if i + 1 <= |line| {
        assert line[i..i + 1][0] == line[i];
      }
    }
  }

  /** Leading line comments are skipped before the register line. */
  lemma RegisterAfterCommentsVector(lines: seq<string>)
    requires lines == ["// some comment goes here", "// another comment", TestRegisterLine("\"tslib\""), "}"]
    ensures Contents("abcd", lines).isSystemJS
  {
    assert HasPrefix(lines[0], "//") && HasPrefix(lines[1], "//");
    assert !BlockOpenAfter(lines, 1);
    assert !BlockOpenAfter(lines, 2);
    assert lines[2][0] == 'S';
    PreambleLengthUnique(lines, 2);
    CallbackLacksBracket();
    RegisterRoundTrip(lines[2], ["\"tslib\""], RegisterCallback);
  }
}
