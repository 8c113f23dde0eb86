/**
  Compiles the source maps of the files of a bundle into one version 3 source
  map (devtools/SourceMapBuilder.go). Parsing a file's source-map JSON, playing
  its mappings back and offsetting them by a running delta are supplied by the
  caller as functions: `parse`, `play` and `offset`.
 */
module SourceMapBuilding {
  import opened Wrappers
  import opened GoStrings
  import opened SourceMapping

  /** One added source map: the line count of its file, its path and its JSON text. */
  datatype SourceMapEntry = SourceMapEntry(fileLineCount: int, path: string, contents: string)

  /** The mappings text written so far and the running segment delta. */
  datatype Progress = Progress(text: string, delta: Segment)

  /** The delta after a file with playback `pb`: summed, then the file index forced to 1. */
  function NextDelta(delta: Segment, pb: MapPlayback): (r: Segment)
    ensures r.sourceFile == 1
    ensures r.generatedColumn == delta.generatedColumn + pb.segmentDelta.generatedColumn
    ensures r.sourceLine == delta.sourceLine + pb.segmentDelta.sourceLine
    ensures r.sourceColumn == delta.sourceColumn + pb.segmentDelta.sourceColumn
  {
    delta.Add(pb.segmentDelta).(sourceFile := 1)
  }

  /** The number of ';' written after a file's mappings (negative makes strings.Repeat panic). */
  function Separators(e: SourceMapEntry, pb: MapPlayback): int {
    1 + (e.fileLineCount - pb.lineCount)
  }

  /**
    One iteration of GenerateMappings. An entry whose JSON does not parse is
    skipped; a negative separator count is a panic (None).
   */
  function Advance<M>(p: Progress, e: SourceMapEntry, parse: string -> Option<M>,
                      play: M -> MapPlayback, offset: (M, Segment) -> string): Option<Progress>
  {
    match parse(e.contents)
    case None => Some(p)
    case Some(m) =>
      var pb := play(m);
      var n := Separators(e, pb);
      if n < 0 then None
      else Some(Progress(p.text + offset(m, p.delta) + Repeat(";", n), NextDelta(p.delta, pb)))
  }

  /** GenerateMappings over a list of entries, processed first to last. */
  function Generate<M>(sources: seq<SourceMapEntry>, parse: string -> Option<M>,
                       play: M -> MapPlayback, offset: (M, Segment) -> string): Option<Progress>
    decreases |sources|
  {
    if sources == [] then Some(Progress("", ZeroSegment))
    else
      match Generate(sources[..|sources| - 1], parse, play, offset)
      case None => None
      case Some(p) => Advance(p, sources[|sources| - 1], parse, play, offset)
  }

  /** The entry at `i` parses and asks for a negative number of separators. */
  predicate Panics<M>(e: SourceMapEntry, parse: string -> Option<M>, play: M -> MapPlayback) {
    parse(e.contents).Some? && Separators(e, play(parse(e.contents).value)) < 0
  }

  /** Generation fails exactly when some entry asks for a negative number of separators. */
  lemma {:induction false} GenerateFails<M>(sources: seq<SourceMapEntry>, parse: string -> Option<M>,
                                           play: M -> MapPlayback, offset: (M, Segment) -> string)
    ensures Generate(sources, parse, play, offset).None?
        <==> exists i :: 0 <= i < |sources| && Panics(sources[i], parse, play)
    decreases |sources|
  {
    if sources != [] {
      var front := sources[..|sources| - 1];
      GenerateFails(front, parse, play, offset);
      if exists i :: 0 <= i < |front| && Panics(front[i], parse, play) {
        var i :| 0 <= i < |front| && Panics(front[i], parse, play);
        assert sources[i] == front[i];
      }
      if exists i :: 0 <= i < |sources| && Panics(sources[i], parse, play) {
        var i :| 0 <= i < |sources| && Panics(sources[i], parse, play);
        if i < |front| {
          assert front[i] == sources[i];
        }
      }
    }
  }

  /** The delta starts at zero and, once some entry has been played, has file index 1. */
  lemma {:induction false} DeltaFileIndex<M>(sources: seq<SourceMapEntry>, parse: string -> Option<M>,
                                            play: M -> MapPlayback, offset: (M, Segment) -> string)
    requires Generate(sources, parse, play, offset).Some?
    ensures (forall i :: 0 <= i < |sources| ==> parse(sources[i].contents).None?)
            ==> Generate(sources, parse, play, offset).value == Progress("", ZeroSegment)
    ensures (exists i :: 0 <= i < |sources| && parse(sources[i].contents).Some?)
            ==> Generate(sources, parse, play, offset).value.delta.sourceFile == 1
    decreases |sources|
  {
    if sources != [] {
      var front := sources[..|sources| - 1];
      var last := sources[|sources| - 1];
      assert forall i :: 0 <= i < |front| ==> front[i] == sources[i];
      DeltaFileIndex(front, parse, play, offset);
      if exists i :: 0 <= i < |sources| && parse(sources[i].contents).Some? {
        if parse(last.contents).None? {
          var i :| 0 <= i < |sources| && parse(sources[i].contents).Some?;
          assert i < |front| && parse(front[i].contents).Some?;
        }
      }
    }
  }

  /** An entry whose JSON does not parse contributes no text and leaves the delta alone. */
  lemma SkipUnparsed<M>(sources: seq<SourceMapEntry>, e: SourceMapEntry, parse: string -> Option<M>,
                        play: M -> MapPlayback, offset: (M, Segment) -> string)
    requires parse(e.contents).None?
    ensures Generate(sources + [e], parse, play, offset) == Generate(sources, parse, play, offset)
  {
    assert (sources + [e])[..|sources|] == sources;
  }

  /**
    A parsed entry appends its offset mappings followed by exactly
    1 + (fileLineCount - playback line count) separators.
   */
  lemma AppendParsed<M>(sources: seq<SourceMapEntry>, e: SourceMapEntry, parse: string -> Option<M>,
                        play: M -> MapPlayback, offset: (M, Segment) -> string)
    requires Generate(sources, parse, play, offset).Some? && parse(e.contents).Some?
    requires !Panics(e, parse, play)
    ensures var p := Generate(sources, parse, play, offset).value;
            var m := parse(e.contents).value;
            var n := Separators(e, play(m));
            && n >= 0
            && Generate(sources + [e], parse, play, offset)
               == Some(Progress(p.text + offset(m, p.delta) + Repeat(";", n), NextDelta(p.delta, play(m))))
            && CountChar(Repeat(";", n), ';') == n
  {
    assert (sources + [e])[..|sources|] == sources;
    var m := parse(e.contents).value;
    RepeatCount(Separators(e, play(m)));
  }

  lemma {:induction false} RepeatCount(n: nat)
    ensures CountChar(Repeat(";", n), ';') == n
  {
    if n > 0 {
      RepeatCount(n - 1);
      CountCharAppend(";", Repeat(";", n - 1), ';');
    }
  }

  /** A path written as a JSON string. */
  function Quoted(path: string): string {
    "\"" + path + "\""
  }

  function QuotedPaths(sources: seq<SourceMapEntry>): (r: seq<string>)
    ensures |r| == |sources|
    ensures forall i :: 0 <= i < |sources| ==> r[i] == Quoted(sources[i].path)
  {
    if sources == [] then [] else [Quoted(sources[0].path)] + QuotedPaths(sources[1..])
  }

  /** The "sources" array body: every path quoted, in order, comma-separated. */
  function SourcesList(sources: seq<SourceMapEntry>): string {
    Join(QuotedPaths(sources), ",")
  }

  /** The complete source-map document. */
  function Envelope(filename: string, sources: seq<SourceMapEntry>, mappings: string): string {
    "{\"version\":3,\"file\":\"" + filename + ".js\",\"sources\":[" + SourcesList(sources)
      + "],\"mappings\":\"" + mappings + "\"}"
  }

  lemma {:induction false} JoinAppend(parts: seq<string>, x: string, sep: string)
    ensures Join(parts + [x], sep) == if parts == [] then x else Join(parts, sep) + sep + x
    decreases |parts|
  {
    if |parts| == 1 {
      assert (parts + [x])[1..] == [x];
    } else if |parts| > 1 {
      JoinAppend(parts[1..], x, sep);
      assert (parts + [x])[1..] == parts[1..] + [x];
    }
  }

  lemma QuotedLacks(path: string, c: char)
    requires c != '"' && c !in path
    ensures c !in Quoted(path)
  {
    var q := Quoted(path);
    forall k | 0 <= k < |q| ensures q[k] != c {
      if 0 < k < |q| - 1 {
        assert q[k] == path[k - 1];
      }
    }
  }

  /** Paths without commas or quotes can be read back from the sources array. */
  lemma SourcesListSplits(sources: seq<SourceMapEntry>)
    requires |sources| >= 1
    requires forall i :: 0 <= i < |sources| ==> ',' !in sources[i].path
    ensures Split(SourcesList(sources), ",") == QuotedPaths(sources)
  {
    var q := QuotedPaths(sources);
    forall k | 0 <= k < |q| ensures ',' !in q[k] {
      QuotedLacks(sources[k].path, ',');
    }
    SplitJoinSeparator(q, [',']);
  }

  class SourceMapBuilder {
    var filename: string
    var sources: seq<SourceMapEntry>

    /** NewSourceMapBuilder: no sources yet (the capacity only sizes the Go slice). */
    constructor (filename: string, capacity: int)
      requires capacity >= 0
      ensures this.filename == filename && sources == []
    {
      this.filename := filename;
      sources := [];
    }

    /** Appends exactly one entry at the end. */
    method AddSourceMap(fileLineCount: int, path: string, sourceMapContents: string)
      modifies this`sources
      ensures sources == old(sources) + [SourceMapEntry(fileLineCount, path, sourceMapContents)]
    {
      sources := sources + [SourceMapEntry(fileLineCount, path, sourceMapContents)];
    }

    /** The compiled mappings string; None where strings.Repeat would panic. */
    method GenerateMappings<M>(parse: string -> Option<M>, play: M -> MapPlayback,
                               offset: (M, Segment) -> string) returns (r: Option<string>)
      ensures r.None? <==> exists i :: 0 <= i < |sources| && Panics(sources[i], parse, play)
      ensures r.Some? ==> Generate(sources, parse, play, offset).Some?
                          && r.value == Generate(sources, parse, play, offset).value.text
    {
      var sb := "";
      var segmentDelta := ZeroSegment;
      var i := 0;
      while i < |sources|
        invariant 0 <= i <= |sources|
        invariant Generate(sources[..i], parse, play, offset) == Some(Progress(sb, segmentDelta))
      {
        var source := sources[i];
        assert sources[..i + 1][..i] == sources[..i];
        var smap := parse(source.contents);
        if smap.None? {
          i := i + 1;
          continue;
        }
        var pb := play(smap.value);
        var mappings := offset(smap.value, segmentDelta);
        var additionalSeparators := 1 + (source.fileLineCount - pb.lineCount);
        if additionalSeparators < 0 {
          assert Generate(sources[..i + 1], parse, play, offset).None?;
          GenerateFails(sources[..i + 1], parse, play, offset);
          var j :| 0 <= j < i + 1 && Panics(sources[..i + 1][j], parse, play);
          assert sources[j] == sources[..i + 1][j];
          GenerateFails(sources, parse, play, offset);
          return None;
        }
        segmentDelta := NextDelta(segmentDelta, pb);
        sb := sb + mappings + Repeat(";", additionalSeparators);
        i := i + 1;
      }
      assert sources[..i] == sources;
      GenerateFails(sources, parse, play, offset);
      r := Some(sb);
    }

    /** The body of the "sources" array, written path by path. */
    method WriteSources() returns (list: string)
      ensures list == SourcesList(sources)
    {
      list := "";
      var first := true;
      var i := 0;
      while i < |sources|
        invariant 0 <= i <= |sources|
        invariant first <==> i == 0
        invariant list == SourcesList(sources[..i])
      {
        assert QuotedPaths(sources[..i + 1]) == QuotedPaths(sources[..i]) + [Quoted(sources[i].path)];
        JoinAppend(QuotedPaths(sources[..i]), Quoted(sources[i].path), ",");
        if first {
          first := false;
        } else {
          list := list + ",";
        }
        list := list + ("\"" + sources[i].path + "\"");
        i := i + 1;
      }
      assert sources[..i] == sources;
    }

    /** The whole source-map document; None where GenerateMappings panics. */
    method String<M>(parse: string -> Option<M>, play: M -> MapPlayback,
                     offset: (M, Segment) -> string) returns (r: Option<string>)
      ensures r.None? <==> exists i :: 0 <= i < |sources| && Panics(sources[i], parse, play)
      ensures r.Some? ==> Generate(sources, parse, play, offset).Some?
                          && r.value == Envelope(filename, sources, Generate(sources, parse, play, offset).value.text)
    {
      var list := WriteSources();
      var mappings := GenerateMappings(parse, play, offset);
      if mappings.None? {
        return None;
      }
      r := Some("{\"version\":3,\"file\":\"" + filename + ".js\",\"sources\":[" + list
                + "],\"mappings\":\"" + mappings.value + "\"}");
    }
  }
}
