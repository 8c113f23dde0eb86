/**
  The older parser of systemjs/systemjs.go: the register line is always the
  first line, there is no preamble, and dependencies are always unquoted.
  The header and source-map line parsers are the ones of SourceSystemJS,
  which this file repeats word for word (apart from the fixed unquoting).
 */
module SystemJS {
  import opened Wrappers
  import SourceSystemJS

  /** The parts of a file; the parser leaves the name empty. */
  datatype FileElements = FileElements(name: string, imports: seq<string>, body: seq<string>,
                                       sourceMappingURL: string, lineCount: nat, isSystemJS: bool)

  /** chooseBodyLines: every line, without the last when it is the source-map line. */
  function ChooseBodyLines(lines: seq<string>, foundSourceMap: bool): (body: seq<string>)
    requires foundSourceMap ==> |lines| > 0
    ensures body + (if foundSourceMap then [lines[|lines| - 1]] else []) == lines
  {
    if foundSourceMap then lines[..|lines| - 1] else lines
  }

  /**
    ParseSystemJSFormattedFile over the scanned lines. Reading lines[0] of
    an empty file is out of range: None.
   */
  function ParseSystemJSFormattedFile(lines: seq<string>): (r: Option<FileElements>)
    ensures r.None? <==> lines == []
    ensures r.Some? ==>
      var (url, found) := SourceSystemJS.ParseSourceMappingURL(lines[|lines| - 1]);
      && r.value.name == ""
      && r.value.lineCount == |lines|
      && (r.value.imports, r.value.isSystemJS) == SourceSystemJS.RegisterDependencies(lines[0], true)
      && r.value.sourceMappingURL == url
      && r.value.body + (if found then [lines[|lines| - 1]] else []) == lines
  {
    if lines == [] then None
    else
      var lastLineIndex := |lines| - 1;
      var (imports, foundRegister) := SourceSystemJS.RegisterDependencies(lines[0], true);
      var (sourceMappingURL, foundSourceMap) := SourceSystemJS.ParseSourceMappingURL(lines[lastLineIndex]);
      Some(FileElements("", imports, ChooseBodyLines(lines, foundSourceMap), sourceMappingURL,
                        lastLineIndex + 1, foundRegister))
  }

  /** A one-line file that is its own register line keeps that line as its body. */
  lemma RegisterLineKept(line: string)
    requires SourceSystemJS.RegisterDependencies(line, true).1
    ensures ParseSystemJSFormattedFile([line]).value.body == [line]
  {
    SourceSystemJS.RegisterRecognised(line, true);
    assert !SourceSystemJS.ParseSourceMappingURL(line).1 by {
      assert line[0] == SourceSystemJS.RegisterPrefix[0];
    }
  }
}
