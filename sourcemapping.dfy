/**
  Segments, playbacks and the lazily loaded source-map configuration of one
  generated file (source/Mapping.go).
 */
module SourceMapping {
  import opened Wrappers

  /** A mapping between a source file, line and column and a generated column. */
  datatype Segment = Segment(generatedColumn: int, sourceFile: int, sourceLine: int, sourceColumn: int)
  {
    /** Prepares a segment for undoing another: zero column, same file, negated position. */
    function AdjustForSource(): Segment {
      Segment(0, sourceFile, -sourceLine, -sourceColumn)
    }

    /** Field-wise sum of two segments. */
    function Add(other: Segment): Segment {
      Segment(generatedColumn + other.generatedColumn, sourceFile + other.sourceFile,
              sourceLine + other.sourceLine, sourceColumn + other.sourceColumn)
    }
  }

  const ZeroSegment := Segment(0, 0, 0, 0)

  /** The line count and the accumulated segment delta of a played-back mappings string. */
  datatype MapPlayback = MapPlayback(lineCount: int, segmentDelta: Segment)

  /** The JSON structure of a version 3 source map. */
  datatype MapConfig = MapConfig(version: int, file: string, sourceRoot: string,
                                 sources: seq<string>, names: seq<string>, mappings: string)

  lemma AddCommutes(a: Segment, b: Segment)
    ensures a.Add(b) == b.Add(a)
  {
  }

  lemma AddAssociates(a: Segment, b: Segment, c: Segment)
    ensures a.Add(b).Add(c) == a.Add(b.Add(c))
  {
  }

  lemma AddZero(a: Segment)
    ensures a.Add(ZeroSegment) == a && ZeroSegment.Add(a) == a
  {
  }

  /** Adding a segment's source adjustment cancels its source position. */
  lemma AdjustCancelsSource(seg: Segment)
    ensures seg.Add(seg.AdjustForSource()).sourceLine == 0
    ensures seg.Add(seg.AdjustForSource()).sourceColumn == 0
    ensures seg.Add(seg.AdjustForSource()).generatedColumn == seg.generatedColumn
    ensures seg.Add(seg.AdjustForSource()).sourceFile == 2 * seg.sourceFile
  {
  }

  /**
    The configuration after one load attempt: an unreadable file or text that
    does not parse leaves the configuration as it was; parsed text replaces it
    (the JSON literal `null` parses to an absent configuration).
   */
  function Loaded(current: Option<MapConfig>, contents: Option<string>,
                  parse: string -> Option<Option<MapConfig>>): (r: Option<MapConfig>)
    ensures contents.None? ==> r == current
    ensures contents.Some? && parse(contents.value).None? ==> r == current
    ensures contents.Some? && parse(contents.value).Some? ==> r == parse(contents.value).value
  {
    match contents
    case None => current
    case Some(text) =>
      match parse(text)
      case None => current
      case Some(config) => config
  }

  /** A failed read or parse never makes a missing configuration appear. */
  lemma FailedLoadKeepsAbsent(contents: Option<string>, parse: string -> Option<Option<MapConfig>>)
    requires contents.None? || parse(contents.value).None?
    ensures Loaded(None, contents, parse) == None
  {
  }

  class Mapping {
    var sourceMappingURL: string
    var relativePath: string
    var filepath: string
    var config: Option<MapConfig>
    var playback: Option<MapPlayback>

    /** NewMapping: no configuration and no cached playback yet. */
    constructor (sourceMappingURL: string, relativePath: string, filepath: string)
      ensures this.sourceMappingURL == sourceMappingURL
      ensures this.relativePath == relativePath && this.filepath == filepath
      ensures config == None && playback == None
    {
      this.sourceMappingURL := sourceMappingURL;
      this.relativePath := relativePath;
      this.filepath := filepath;
      config := None;
      playback := None;
    }

    function Playback(): Option<MapPlayback>
      reads this
    {
      playback
    }

    /** Stores a playback; nothing else changes. */
    method CachePlayback(p: Option<MapPlayback>)
      modifies this`playback
      ensures Playback() == p
    {
      playback := p;
    }

    /** The mappings string of the configuration, or "" when none is loaded. */
    function Mappings(): (r: string)
      reads this
      ensures config.None? ==> r == ""
      ensures config.Some? ==> r == config.value.mappings
    {
      match config
      case None => ""
      case Some(c) => c.mappings
    }

    /**
      LoadConfig: `contents` is what reading `filepath` gave (None for a read
      error) and `parse` is the JSON decoder (None for invalid JSON).
     */
    method LoadConfig(contents: Option<string>, parse: string -> Option<Option<MapConfig>>)
      modifies this`config
      ensures config == Loaded(old(config), contents, parse)
    {
      if contents.None? {
        return;
      }
      var parsed := parse(contents.value);
      if parsed.None? {
        return;
      }
      config := parsed.value;
    }

    /** Loads the configuration only when none is present. */
    method EnsureLoaded(contents: Option<string>, parse: string -> Option<Option<MapConfig>>)
      modifies this`config
      ensures old(config).Some? ==> config == old(config)
      ensures old(config).None? ==> config == Loaded(None, contents, parse)
    {
      if config.None? {
        LoadConfig(contents, parse);
      }
    }
  }
}
