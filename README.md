# swarm bundler core in Dafny

A model of the sequential core of swarm, a bundler for SystemJS modules
written in Go. The bundler follows `System.register([...])` dependencies
from an entry file through a workspace and collects the files and their
dependency links. It rewrites each file's register line to carry the
module's name and stitches the files' source maps into one source map.
The model covers these parts:

- **Base64 VLQ codec.** Module `Vlq` models `bundle/VLQ.go`.
  `devtools/sourcemaps.go` repeats the same code, so one model serves both.
  The model covers the digit table, sign folding into the low bit,
  5-bit groups with a continuation bit, and the `Decode` and
  `encodeInteger` loops.
- **Mappings text.** Module `MappingsText` covers the separator scans,
  `findFirstVLQ` and `replaceFirstVLQ` of `devtools/sourcemaps.go`. It also
  covers `parseMappings` and `parseLineString`, which
  `devtools/sourcemaps.go` and `debugging/sourcemaps.go` both contain.
- **Segments and mappings.** Module `SourceMapping` models
  `source/Mapping.go`: segment arithmetic and the cached playback, plus the
  rule that a configuration is loaded only once.
- **Source map builder.** Module `SourceMapBuilding` models
  `devtools/SourceMapBuilder.go`. It keeps a running segment delta whose
  file index is forced to 1, and pads each file with `;` separators. It
  emits the version-3 JSON envelope.
- **Topological sort.** Module `IdGraph` models `source/IDGraph.go`. It
  keeps mirrored edge and reverse-edge maps and removes edges in place by
  swapping with the last entry. A LIFO stack of ready ids drives the sort.
  Ids that sit on a cycle come back as "remaining".
- **File set.** Module `FileSets` models `source/FileSet.go`: an index
  from id to file and a map of links. A file is inserted only if its id is
  absent. A link is refused if it refers to a file that is not indexed.
- **Import specifiers.** Module `Imports` models `source/Import.go` and
  `dep/Import.go`. It covers the classification of a specifier, its
  directory, file name and `#?` directive, and the removal of `#{...}`
  templates. It also covers `Path()` and the resolution of a relative
  import against a root-relative one.
- **Import queue.** Module `ImportQueues` models `dep/ImportQueue.go`: a
  FIFO queue with an index of the paths seen so far.
- **Dependency walk.** Module `DependencyWalker` models
  `dep/DependencyWalker.go`: a breadth-first walk over a disk that is given
  as a map from file path to first line. The walk returns each import it
  reached once. Each one ends a chain of returned imports from the entry,
  each resolving to the next. What each one resolves to is returned too.
- **Workspace.** Module `Workspaces` models `source/Workspace.go`:
  separator normalisation under the global `explicitSep`, root-prefix
  stripping, and the probe order of `ReadSourceFile`.
- **SystemJS parsing.**
  - Module `SourceSystemJS` models `source/systemjs.go`: the comment
    preamble, the register-header parser and the source-map URL line.
  - Module `SystemJS` models the older `systemjs/systemjs.go`.
  - Module `JSFileContents` models `source/JSFileContents.go`, which
    rewrites the register line for the bundle.
- **Go maps.** Module `GoMaps` models ranging over a Go map to list its
  values, as `dep/ImportQueue.go` and `source/FileSet.go` do.
- **Text helpers.**
  - Module `TextFiles` models `util/textfiles.go`, `io/fileutil.go` and
    `source/util.go`: byte-order-mark trimming, the first line beyond
    comments, and splitting into lines.
  - Module `UtilPath` models `RemoveExtension` from `util/path.go` and
    `io/fileutil.go`.
- **Small pieces.**
  - Module `EventChangesets` models `monitor/EventChangeset.go`.
  - Module `ScriptInjector` models `web/ScriptInjector.go`.
  - Module `BuildDescriptions` models `config/BuildDescription.go`.

Go's `strings` and `path` packages are modelled lexically in `GoStrings`
and `GoPath`. `path.Clean` there resolves `.` and `..` segments.
`SourceFiles` holds the plain `File` and `DependencyLink` records, and
`Wrappers` holds `Option`.

Where the source mutates an object, the model is a class with
`modifies`-framed methods. `FileSet`, `ImportQueue`, `IDGraph`,
`EventChangeset`, `SourceMapBuilder`, `Mapping` and the workspace
platform's global separator are modelled this way. Loops become `while`
loops, each proved against a specification function: `Decode`,
`encodeInteger`, the separator scans, `skipPreamble`,
`readFirstLineBeyondComments`, `StringToLines`, `ParseRegisterDependencies`,
`GenerateMappings`, `sortTopologically` and `followDependencyGraph`.

A panic in the source becomes `None`. Examples are `byteToInt` on a byte
outside the alphabet, `strings.Repeat` with a negative count in
`GenerateMappings`, and indexing past the last line in
`ParseSystemJSFormattedFile`. The fatal exit of `ToRootRelativeImport`
inside the walk becomes the out-parameter `stoppedAt`.

A line that starts with `/*` switches the comment scanners into block mode
even when the same line also holds `*/`. The model keeps that behaviour.

## Model

| member | source | states |
|---|---|---|
| Vlq.ByteToInt | bundle/VLQ.go:9-26 | a byte is accepted only as a character of the alphabet, and the digit returned is its position there (0..64) |
| Vlq.ByteToIntTable | bundle/VLQ.go:9-26 | an accepted byte is the alphabet character at the returned index, and byteToInt panics (None) exactly on bytes that are not among the 65 characters of the alphabet |
| Vlq.IntToByte | bundle/VLQ.go:28-34 | intToByte is defined on 0..64 and byteToInt reads back the digit it wrote |
| Vlq.IntToByteTable | bundle/VLQ.go:7-34 | intToByte(i) is the i-th character of the alphabet constant |
| Vlq.IntToByteInverse | bundle/VLQ.go:9-34 | intToByte(byteToInt(b)) == b for every accepted byte |
| Vlq.Alphabet | bundle/VLQ.go:7 | the alphabet constant has 65 characters: A–Z, a–z, 0–9, `+`, `/`, `=` in that order |
| Vlq.UnfoldFold | bundle/VLQ.go:53-60 | reading the sign from the low bit, as Decode does, undoes the folding of encodeInteger for every integer |
| Vlq.GroupChar | bundle/VLQ.go:90-97 | the character written for a group decodes to the group's 5 bits plus the continuation bit exactly when more groups follow, and is never `=` |
| Vlq.Decode | bundle/VLQ.go:37-69 | the loop yields exactly the decoding specified by DecodeFrom (None where byteToInt panics) |
| Vlq.EncodeInteger | bundle/VLQ.go:80-105 | the loop emits exactly the group digits of the folded integer |
| Vlq.Encode | bundle/VLQ.go:72-78 | the loop emits the concatenation of the integers' encodings in order |
| Vlq.EncodedAppend | bundle/VLQ.go:72-78 | Encode(xs ++ ys) == Encode(xs) + Encode(ys) |
| Vlq.DecodeDigits | bundle/VLQ.go:42-66 | decoding the digits of a folded value continues the accumulation (value, shift) and emits the unfolded result |
| Vlq.DecodeEncode | bundle/VLQ.go:37-105 | Decode(Encode(xs)) == xs for every list of integers, zero and negatives included |
| Vlq.EncodeDigitsShape | bundle/VLQ.go:80-105 | encodeInteger emits at least one character, every character but the last carries the continuation bit, and `=` never appears |
| Vlq.DecodeCount | bundle/VLQ.go:42-66 | Decode emits one integer per character without the continuation bit; trailing continuation characters contribute nothing |
| Vlq.DecodeFails | bundle/VLQ.go:42-43 | Decode panics exactly when some character is outside the alphabet |
| Vlq.EncodeVector | bundle/VLQ_test.go:59-66 | Encode([3, -439502, 0, 966, -41]) == "G9s6aAs8BzC" |
| Vlq.DecodeVector | bundle/VLQ_test.go:26-33 | Decode("G9s6aAs8BzC") == [3, -439502, 0, 966, -41] |
| Vlq.EncodeThree | bundle/VLQ.go:80-105 | encodeInteger(3) == "G" |
| Vlq.EncodeZero | bundle/VLQ.go:80-105 | encodeInteger(0) == "A" |
| Vlq.Encode966 | bundle/VLQ.go:80-105 | encodeInteger(966) == "s8B" |
| Vlq.EncodeMinus41 | bundle/VLQ.go:80-105 | encodeInteger(-41) == "zC" |
| Vlq.EncodeLargeNegative | bundle/VLQ.go:80-105 | encodeInteger(-439502) == "9s6a" |
| Vlq.EncodedFive | bundle/VLQ.go:72-78 | the encoding of five values is the concatenation of their five encodings |
| MappingsText.FirstNonSeparator | devtools/sourcemaps.go:37-46 | the least index ≥ startPos holding neither `;` nor `,`, or -1 when every later character is a separator |
| MappingsText.FirstSeparatorOrEnd | devtools/sourcemaps.go:48-57 | the least index ≥ startPos holding `;` or `,`, or len(maps) when there is none |
| MappingsText.NextNonSeparator | devtools/sourcemaps.go:37-46 | the scanning loop returns FirstNonSeparator |
| MappingsText.NextSeparatorOrEOF | devtools/sourcemaps.go:48-57 | the scanning loop returns FirstSeparatorOrEnd |
| MappingsText.FindFirstVLQ | devtools/sourcemaps.go:59-66 | returns the first segment's bounds as FirstVLQ specifies |
| MappingsText.FirstVLQBounds | devtools/sourcemaps.go:59-66 | (-1,-1) exactly when the text is all separators; otherwise start < end ≤ len, everything before start is a separator, nothing in [start, end) is, and end is the text's end or a separator |
| MappingsText.FirstVLQAt | devtools/sourcemaps.go:59-66 | conversely, any (start, end) with those properties is what findFirstVLQ returns |
| MappingsText.ReplaceFirstVLQ | devtools/sourcemaps.go:70-83 | the method returns ReplacedFirstVLQ: the text unchanged without a segment, else prefix + Encode(fn(Decode(segment))) + suffix |
| MappingsText.ReplaceFirstVLQKeepsRest | devtools/sourcemaps.go:70-83 | the text is returned unchanged when there is no segment; otherwise maps[:start] and maps[end:] are kept byte for byte and the middle decodes to fn of the old segment's values; it fails only where Decode panics |
| MappingsText.ReplaceWholeSegment | devtools/sourcemaps.go:70-83 | a text that is a single encoded segment is replaced by the encoding of fn of its values |
| MappingsText.ReplaceVectorBump | devtools/sourcemaps_test.go:164-196 | "YCCA" with the generated column bumped by one becomes "aCCA" |
| MappingsText.ReplaceVectorUpAndDown | devtools/sourcemaps_test.go:164-196 | "AAAA" with (+1,-1,+1,-1) becomes "CDCD" |
| MappingsText.FourCodes | devtools/sourcemaps_test.go:164-196 | the encodings of the segments used by the rewriting and parsing vectors |
| MappingsText.FindFirstAfterLines | devtools/sourcemaps_test.go:113 | findFirstVLQ(";;;;;AAAA") == (5, 9) |
| MappingsText.FindFirstOfSeveral | devtools/sourcemaps_test.go:114 | findFirstVLQ(";;AAAA;;;AZQA;bGAFA;") == (2, 6) |
| MappingsText.FindFirstNone | devtools/sourcemaps_test.go:115 | findFirstVLQ(";;;;;;;;;;;;") == (-1, -1) |
| MappingsText.FindFirstAtStart | devtools/sourcemaps_test.go:116 | findFirstVLQ("AAAA;;;;;") == (0, 4) |
| MappingsText.DecodeAll | debugging/sourcemaps.go:36-41 | one decoded segment per piece, in order, each the Decode of its piece; fails exactly when one piece fails |
| MappingsText.ParseLines | debugging/sourcemaps.go:23-30 | one parsed line per line string, in order; fails exactly when one line fails |
| MappingsText.ParseMappingsShape | debugging/sourcemaps.go:23-41 | parseMappings yields count(';')+1 lines; a line is nil exactly when its text is empty; a non-empty line has count(',')+1 segments, each the Decode of its piece |
| MappingsText.ParseSegmentLine | debugging/sourcemaps.go:32-42 | a non-empty line without `,` is one segment holding its decoded values |
| MappingsText.ParseAllLines | debugging/sourcemaps.go:23-30 | when every line string parses to the expected line, parseMappings' line list is exactly the expected list |
| MappingsText.SplitShape | debugging/sourcemaps.go:24 | splitting the test's mappings text on `;` gives four empty lines, the two segments, then four empty lines |
| MappingsText.ParseVector | debugging/sourcemaps_test.go:35-67 | ";;;;AAAA;KAAK;;;;" parses to 4 nils, [0,0,0,0], [5,0,0,5], then 4 nils |
| MappingsText.ParseVectorLines | debugging/sourcemaps_test.go:35-67 | the ten line strings of the vector parse to the expected lines |
| MappingsText.VectorSegments | debugging/sourcemaps_test.go:35-67 | "AAAA" and "KAAK" parse to the single segments [0,0,0,0] and [5,0,0,5] |
| SourceMapping.AddCommutes | source/Mapping.go:59-66 | Segment.Add is commutative |
| SourceMapping.AddAssociates | source/Mapping.go:59-66 | Segment.Add is associative |
| SourceMapping.AddZero | source/Mapping.go:59-66 | the zero segment is the identity of Add on both sides |
| SourceMapping.AdjustCancelsSource | source/Mapping.go:54-66 | seg.Add(seg.AdjustForSource()) has zero source line and column, keeps the generated column and doubles the source file |
| SourceMapping.Loaded | source/Mapping.go:118-131 | a failed read or a failed parse leaves the configuration as it was; a successful parse installs the parsed configuration |
| SourceMapping.FailedLoadKeepsAbsent | source/Mapping.go:118-131 | an absent configuration stays absent when reading or parsing fails |
| SourceMapping.Mapping.constructor | source/Mapping.go:89-91 | NewMapping keeps its three paths and starts with no configuration and no cached playback |
| SourceMapping.Mapping.CachePlayback | source/Mapping.go:26-28 | after CachePlayback(p), Playback() returns p and only the playback field may change |
| SourceMapping.Mapping.Mappings | source/Mapping.go:31-37 | "" when the configuration is absent, otherwise the configuration's mappings |
| SourceMapping.Mapping.LoadConfig | source/Mapping.go:118-131 | the configuration becomes Loaded(old configuration, read result, parse), and only it may change |
| SourceMapping.Mapping.EnsureLoaded | source/Mapping.go:104-108 | a present configuration is kept; an absent one is loaded once |
| SourceMapBuilding.NextDelta | devtools/SourceMapBuilder.go:65-66 | the new delta is the old one plus the playback delta, with the source file index set to exactly 1 |
| SourceMapBuilding.SourceMapBuilder.constructor | devtools/SourceMapBuilder.go:15-20 | a new builder keeps its file name and has no sources |
| SourceMapBuilding.SourceMapBuilder.AddSourceMap | devtools/SourceMapBuilder.go:23-30 | appends exactly one entry at the end and leaves earlier entries unchanged |
| SourceMapBuilding.SourceMapBuilder.GenerateMappings | devtools/SourceMapBuilder.go:53-73 | the loop fails exactly when some parsed source would need a negative separator count, and otherwise yields the text of Generate |
| SourceMapBuilding.GenerateFails | devtools/SourceMapBuilder.go:56-71 | generation panics exactly when some parsed source has 1 + fileLineCount − playbackLineCount < 0 |
| SourceMapBuilding.DeltaFileIndex | devtools/SourceMapBuilder.go:55-66 | with no parsed source the text is empty and the delta is the zero segment; after any parsed source the delta's file index is 1 |
| SourceMapBuilding.SkipUnparsed | devtools/SourceMapBuilder.go:57-61 | a source whose JSON fails to parse adds no text and leaves the delta unchanged |
| SourceMapBuilding.AppendParsed | devtools/SourceMapBuilder.go:63-70 | a parsed source appends its offset mappings and exactly 1 + (fileLineCount − playbackLineCount) `;`, then advances the delta |
| SourceMapBuilding.RepeatCount | devtools/SourceMapBuilder.go:69-70 | strings.Repeat(";", n) holds exactly n separators |
| SourceMapBuilding.QuotedPaths | devtools/SourceMapBuilder.go:38-45 | one quoted path per source, in insertion order |
| SourceMapBuilding.SourcesListSplits | devtools/SourceMapBuilder.go:37-45 | the sources list splits on `,` back into the quoted paths, so it has no trailing comma |
| SourceMapBuilding.SourceMapBuilder.WriteSources | devtools/SourceMapBuilder.go:37-45 | the loop writes the quoted paths joined by `,` |
| SourceMapBuilding.SourceMapBuilder.String | devtools/SourceMapBuilder.go:32-50 | the output is exactly `{"version":3,"file":"<filename>.js","sources":[…],"mappings":"<mappings>"}`, and it fails exactly when GenerateMappings fails |
| IdGraph.IndependentMembers | source/IDGraph.go:64-73 | the independent ids are exactly the input ids without outgoing edges, at most as many as the input, and distinct when the input is |
| IdGraph.PopPush | source/IDGraph.go:83-90 | the string stack is LIFO: pop after push returns the pushed value and the earlier stack |
| IdGraph.SwapRemoveMultiset | source/IDGraph.go:55-58 | removing by swapping with the last entry shortens the list by one and removes exactly one occurrence |
| IdGraph.AppendedMirrored | source/IDGraph.go:13-24 | adding id→d to edges and d→id to reverse edges keeps the maps mirrored |
| IdGraph.AddEdges | source/IDGraph.go:21-26 | adding one link's edges keeps the maps mirrored and appends the dependencies to the id's edge list |
| IdGraph.IDGraph.constructor | source/IDGraph.go:9-29 | newIDGraph gives each id exactly its link's dependencies, has an edge list only for ids with dependencies, and satisfies Valid, under which id occurs in reverseEdges[d] as often as d occurs in edges[id] |
| IdGraph.MakeHashset | source/IDGraph.go:96-102 | the hashset holds exactly the given ids |
| IdGraph.RemoveAll | source/IDGraph.go:104-108 | removeAll leaves exactly the members not in the given ids |
| IdGraph.SetToSeq | source/IDGraph.go:114-122 | ids() lists every member exactly once |
| IdGraph.IDGraph.IdentifyIndependentIDs | source/IDGraph.go:64-73 | the loop returns the independent ids in input order |
| IdGraph.IDGraph.RemoveDependentID | source/IDGraph.go:53-62 | removes the first occurrence of the target by swapping with the last entry if present, else changes nothing; exactly one occurrence leaves the multiset, and other ids' edges are untouched |
| IdGraph.IDGraph.SortTopologically | source/IDGraph.go:31-51 | sorted and remaining are distinct, disjoint and together are the ids; every sorted id follows all its dependencies; every remaining id depends on another remaining id; sorted ids' edges are all consumed |
| IdGraph.RemainingStuck | source/IDGraph.go:38-50 | when the stack runs empty, every id not emitted has a dependency that was not emitted either |
| IdGraph.EmitStep | source/IDGraph.go:39-40 | emitting an id whose dependencies were all emitted keeps the order topological |
| IdGraph.PopStep | source/IDGraph.go:39-47 | the popped id is a not-yet-emitted id all of whose dependencies were emitted, and its reverse edges are what remains to be released |
| IdGraph.ReadyStep | source/IDGraph.go:42-47 | a dependent is pushed exactly when its last edge has been removed |
| IdGraph.SortingStarts | source/IDGraph.go:32-35 | the initial stack, the dependents set and the empty output satisfy the sort's invariant |
| IdGraph.IDGraph.EmitNext | source/IDGraph.go:39-48 | one round of the loop keeps the sort's invariant and emits one more id |
| IdGraph.IDGraph.ReleaseDependents | source/IDGraph.go:42-48 | the inner loop removes the popped id from every dependent's edges and pushes those left with none |
| IdGraph.IDGraph.ReleaseOne | source/IDGraph.go:43-47 | one dependent's edge to the popped id is removed, and it becomes ready exactly when it has no edge left |
| IdGraph.ChainOrder | source/IDGraph_test.go:9-18 | with links a:[b,c], b:[c], c:[d], the only topological order of a, b, c, d is [d, c, b, a] |
| IdGraph.ChainNothingStuck | source/IDGraph_test.go:9-18 | that acyclic graph leaves nothing remaining |
| IdGraph.SortExample | source/IDGraph_test.go:9-18 | sorting the test's links gives [d, c, b, a] with nothing remaining |
| FileSets.Insert | source/FileSet.go:53-60 | inserting a file adds its id and keeps every existing entry |
| FileSets.FileSet.constructor | source/FileSet.go:12-18 | a new set has an empty index and no links |
| FileSets.FileSet.Add | source/FileSet.go:53-60 | inserts and returns true exactly when the id is absent; otherwise returns false and changes nothing; links are untouched; the links-are-indexed invariant is kept |
| FileSets.FileSet.AddLink | source/FileSet.go:63-78 | succeeds exactly when link.id and every dependency id are indexed; success sets links[link.id] to the dependencies, overwriting, and leaves other keys alone; failure changes nothing |
| FileSets.FileSet.Files | source/FileSet.go:42-50 | lists every indexed file exactly once, so its length is Count |
| FileSets.ReadableFiles | source/FileSet.go:24-32 | the files read for the imports, skipping those that cannot be read, never more than the imports |
| FileSets.ReadableStep | source/FileSet.go:24-32 | each import contributes its file when the workspace can read it and nothing otherwise |
| FileSets.NewFileSet | source/FileSet.go:21-39 | the index holds the readable files, the first file per id winning, and the links are the AddLink of each link in order |
| FileSets.IndexReadable | source/FileSet.go:24-32 | the first loop adds every readable file |
| FileSets.AddLinks | source/FileSet.go:34-36 | the second loop applies AddLink to each link, keeping the index |
| FileSets.InsertAllKeys | source/FileSet.go:24-32 | after the loop the indexed ids are the earlier ids plus the ids of the added files |
| FileSets.InsertAllFirstWins | source/FileSet.go:53-60 | when an id is added several times, the first file with that id stays indexed |
| FileSets.InsertAllWellKeyed | source/FileSet.go:58 | every file is indexed under its own id |
| FileSets.LinkAllIndexed | source/FileSet.go:63-78 | a sequence of AddLinks keeps every link key and dependency indexed |
| FileSets.DuplicateVector | source/FileSet_test.go:31-36 | adding the same id twice leaves one file |
| FileSets.AddDistinctVector | source/FileSet_test.go:38-53 | a link between three indexed files succeeds; links naming a missing file are refused, leaving one link |
| FileSets.ContainsVector | source/FileSet_test.go:18-29 | contains before and after Add, containsFile, Count == 1, nonEmpty and linkCount == 0 |
| Imports.TemplateClose | source/Import.go:21 | the first `}` at or after position k, provided no newline comes before it; -1 when there is none |
| Imports.NoTemplateKept | source/Import.go:41 | a specifier without `#{` is kept as it is |
| Imports.TemplateRemoved | source/Import.go:21-41 | a `#{...}` template, matched shortest, is removed and the text around it is kept |
| Imports.SplitDirective | source/Import.go:43-47 | the text splits into the part before the first `#?` and the directive that starts with it |
| Imports.DirectoryOf | source/Import.go:29 | path.Dir never returns the empty string |
| Imports.BuildersAgree | dep/Import.go:20-46 | without templates, dep's newImport builds the same import as source's NewImport |
| Imports.ExactlyOneKind | source/Import.go:25-27 | self-relative means a `./` prefix, parent-relative a `../` prefix, and exactly one of self-relative, parent-relative and rooted holds |
| Imports.DirectoryShape | source/Import.go:29-38 | solo exactly when rooted with directory "."; the directory is empty exactly for a solo import; a self-relative one gets `./` re-prefixed; otherwise the directory is path.Dir |
| Imports.DirectiveSplit | source/Import.go:43-49 | the directive is a suffix starting with `#?`, and the file name is the base of the text before it |
| Imports.ExtOfFilename | source/Import.go:55-57 | Ext() is a suffix of the file name |
| Imports.SoloPath | source/Import.go:60-65 | a bare name is solo and its Path() is the name |
| Imports.JoinedPath | source/Import.go:60-65 | "dir/name" with a clean directory round-trips through Path() |
| Imports.SelfRelativePath | source/Import.go:29-32 | "./dir/name" round-trips through Path() |
| Imports.DirectivePath | source/Import.go:43-49 | for "./f#?x" the directive is "#?x" and Path() is "./f" |
| Imports.SoloVector | source/Import_test.go:9-22 | "tslib" round-trips and is solo |
| Imports.RootRelativeVector | source/Import_test.go:9-22 | "some/root/relative/path.js" round-trips and is rooted |
| Imports.SelfRelativeVector | source/Import_test.go:9-22 | "./one/abc.ts" round-trips and is self-relative |
| Imports.ParentRelativeVector | source/Import_test.go:9-22 | "../one/abc.ts" round-trips and is parent-relative |
| Imports.DirectiveVector | source/Import_test.go:24-29 | the `#?` directive of the test's specifier is kept as the directive and left out of Path() |
| Imports.TemplateVector | source/Import.go:40-41 | the `#{…}` template of the test's parent-relative specifier is removed and the text around it is kept |
| Imports.ResolvedNotSelfRelative | source/Import.go:68-82 | resolving onto a rooted import (source and dep versions) never yields a self-relative import |
| Imports.RootedDirectoryClean | source/Import.go:29-38 | a rooted, non-solo import has a clean directory other than "." |
| Imports.SiblingResolution | source/Import.go:73-76 | "./f" resolved against a rooted import with directory d is d + "/" + f |
| ImportQueues.Paths | dep/ImportQueue.go:35-40 | the set of paths of a list of imports |
| ImportQueues.ImportQueue.constructor | dep/ImportQueue.go:9-14 | a new queue is empty and has seen nothing |
| ImportQueues.ImportQueue.Push | dep/ImportQueue.go:35-40 | an unseen path is appended and recorded; a seen one changes nothing; every queued path is seen and no two queued imports share a path |
| ImportQueues.ImportQueue.PushPath | dep/ImportQueue.go:28-32 | a seen path changes nothing; otherwise newImport(path) is pushed |
| ImportQueues.ImportQueue.Pop | dep/ImportQueue.go:42-50 | FIFO: removes and returns the front import; an empty queue returns (false, nil) and changes nothing; the seen index never shrinks |
| ImportQueues.ImportQueue.OutputImports | dep/ImportQueue.go:17-25 | each seen import exactly once, so the length is the number of seen paths, pops notwithstanding |
| GoMaps.Values | dep/ImportQueue.go:17-25 | the values of a map, one per key: every value of the map is listed and every listed value is one |
| ImportQueues.FifoVector | dep/ImportQueue.go:42-50 | two pushes pop in the order pushed |
| ImportQueues.SeenImportVector | dep/ImportQueue_test.go:10-15 | after pushPath of a plain file name such as "abcd", that name is seen (also after a pop) and any other path, such as "efgh", is not |
| ImportQueues.UniqueDependencyVector | dep/ImportQueue_test.go:17-23 | pushing "abcd" twice leaves one queued import |
| ImportQueues.OutputImportsVector | dep/ImportQueue_test.go:25-36 | three distinct pushes and a repeat output exactly the three imports |
| DependencyWalker.CandidatesSnoc | dep/DependencyWalker.go:82-90 | one more dependency adds its import exactly when it has no extension, at the end |
| DependencyWalker.CandidatesMembers | dep/DependencyWalker.go:82-90 | the imports kept are exactly those of the dependencies without an extension |
| DependencyWalker.KeepCandidates | dep/DependencyWalker.go:81-91 | the loop keeps exactly the extensionless dependencies, as imports, in order (Candidates, characterised by CandidatesMembers) |
| DependencyWalker.ReadDependencies | dep/DependencyWalker.go:72-94 | the loop returns the extensionless dependencies parsed from the file's first line beyond comments, as Dependencies specifies (CandidatesMembers characterises them) |
| DependencyWalker.LinkIDsMembers | dep/DependencyWalker.go:39-52 | the recorded ids are exactly the paths of the non-rooted dependencies |
| DependencyWalker.Resolved | dep/DependencyWalker.go:47-50 | exactly one resolved root-relative import per recorded dependency id |
| DependencyWalker.DepsSnoc | dep/DependencyWalker.go:40-52 | one more dependency adds its Path() to the ids and its resolution to the queue exactly when it is not rooted |
| DependencyWalker.ResolvedPathsSnoc | dep/DependencyWalker.go:40-52 | one more resolvable dependency adds the path it resolves to exactly when it is not rooted |
| DependencyWalker.QueuedRooted | dep/DependencyWalker.go:40-45 | one more rooted dependency is only tallied: no id recorded, nothing queued, and the loop state is kept |
| DependencyWalker.QueuedRelative | dep/DependencyWalker.go:46-51 | one more relative dependency, resolved and seen, keeps the loop state: its id recorded, its resolution seen, newly queued paths among those resolved to |
| DependencyWalker.FoundIsFindable | source/Workspace.go:71-88 | an import whose file is found has a path that names a file under the root, bare or with ".js" |
| DependencyWalker.OutcomeOf | dep/DependencyWalker.go:28-57 | following an import emits a link exactly when its file can be read |
| DependencyWalker.Follow | dep/DependencyWalker.go:28-57 | an unreadable import is skipped without a link and without queueing; a readable one emits exactly one link (even with no dependencies) and queues its relative dependencies; an unresolvable dependency is fatal |
| DependencyWalker.QueueDependencies | dep/DependencyWalker.go:40-53 | the dependency loop records LinkIDs, pushes every resolved dependency, and is fatal exactly when a relative dependency cannot be resolved |
| DependencyWalker.QueueDependency | dep/DependencyWalker.go:41-52 | one dependency is tallied, or resolved, pushed and recorded |
| DependencyWalker.PushResolved | dep/DependencyWalker.go:48-49 | pushing a resolved dependency leaves its path seen and only grows the seen index |
| DependencyWalker.TakeAndFollow | dep/DependencyWalker.go:59-63 | pops the front import and follows it |
| DependencyWalker.WalkStep | dep/DependencyWalker.go:59-63 | one round keeps the walk's invariant (every seen path reached from the entry included) and either finds one more file or shortens the queue |
| DependencyWalker.Walk | dep/DependencyWalker.go:59-63 | the loop runs until the queue is empty, each path followed once and reached from the entry, or stops at a fatal import |
| DependencyWalker.PartitionStep | dep/DependencyWalker.go:59-63 | popping the front import and queueing the newly seen paths keeps every seen path either still queued or already followed, never both |
| DependencyWalker.ChainGrows | dep/DependencyWalker.go:59-63 | a chain of followed paths from the entry stays one as the seen index and the followed paths grow |
| DependencyWalker.ChainExtends | dep/DependencyWalker.go:47-49 | a chain ending at a followed path extends by a seen path it resolves to |
| DependencyWalker.ReachedStep | dep/DependencyWalker.go:59-63 | following one import, which only queues paths it resolves to, keeps every seen path at the end of a chain from the entry |
| DependencyWalker.ChainOfImports | dep/ImportQueue.go:17-25 | a chain of seen paths gives a chain of the imports listed under them |
| DependencyWalker.ReachableImports | dep/DependencyWalker.go:59-69 | every listed import ends a chain of listed imports from the entry, each resolving to the next |
| DependencyWalker.ShapeStep | dep/DependencyWalker.go:59-63 | following the front import moves its path from queued to followed, adds its link exactly when found, and keeps the walk closed |
| DependencyWalker.WalkBookkeeping | dep/DependencyWalker.go:59-63 | following the front import keeps the walk invariant, reachability from the entry included |
| DependencyWalker.ShapeResult | dep/DependencyWalker.go:59-69 | once the queue is empty every listed import was followed and its resolved dependencies are listed; one link per readable import, with distinct ids |
| DependencyWalker.WalkResult | dep/DependencyWalker.go:59-69 | every returned import was followed and is reached from the entry through a chain of returned imports; its resolved dependencies are among the returned imports; one link per readable import, with distinct ids |
| DependencyWalker.FollowDependencyGraph | dep/DependencyWalker.go:19-70 | the entry, with `\` replaced by `/`, is returned; paths are distinct; every returned import is reached from the entry through a chain of returned imports, each resolving to the next; every returned import's relative dependencies are returned too; exactly one link per readable import, with distinct ids; a fatal resolution stops the walk |
| Workspaces.NormalisedSeparators | source/Workspace.go:29-35 | normalising to one separator leaves none of the other |
| Workspaces.NormalisedSuffix | source/Workspace.go:37-41 | with requireSuffix the result ends with the separator, appended at most once |
| Workspaces.NormalisedIdempotent | source/Workspace.go:29-48 | normalising twice is normalising once |
| Workspaces.Platform.constructor | source/Workspace.go:16 | explicitSep starts as the platform's separator |
| Workspaces.Platform.EmulateUnix | source/Workspace.go:18-20 | emulateUnix sets explicitSep to `/` |
| Workspaces.Platform.NormaliseFilepath | source/Workspace.go:29-48 | normalises with the current explicitSep and resets it to the platform separator, so emulation lasts one call |
| Workspaces.Platform.NewWorkspace | source/Workspace.go:23-27 | the root path is normalised and always ends with the separator |
| Workspaces.WindowsRootVectors | source/Workspace_test.go:9-16 | Windows and Unix spellings of a root both normalise to `c:\wf\lp\web\App\` |
| Workspaces.UnixRootVectors | source/Workspace_test.go:18-28 | under emulated Unix both spellings normalise to `/usr/wf/lp/web/App/` |
| Workspaces.EmulateUnixVector | source/Workspace_test.go:18-28 | emulation affects the next NewWorkspace only |
| Workspaces.RelativeToRoot | source/Workspace.go:91-96 | root + rest gives (rest with `\` replaced by `/`, true) |
| Workspaces.OutsideRoot | source/Workspace.go:98 | a path outside the root gives ("", false) |
| Workspaces.RelativeRoundTrip | source/Workspace.go:91-96 | for a path under the root without `\`, root + relative path is the path |
| Workspaces.RelativePathVector | source/Workspace_test.go:30-42 | the test's inside path gives "app/src/ep/app.js" and the outside one ("", false) |
| Workspaces.SourceFileFor | source/Workspace.go:71-88 | the bare path is probed before path + ".js"; the file's id is imp.Path() either way; absent exactly when neither exists |
| Workspaces.ReadSourceFile | source/Workspace.go:71-88 | the probing loop returns SourceFileFor |
| SourceSystemJS.SkipPreamble | source/systemjs.go:46-72 | returns (lines[:i], i) with i the preamble length |
| TextFiles.PreambleLength | source/systemjs.go:46-72 | 0 ≤ i ≤ len; every line before i is `//`, `/*` or inside an open block; line i, if any, is none of these |
| TextFiles.PreambleLengthUnique | source/systemjs.go:50-66 | any index with those properties is the preamble length |
| TextFiles.BlockCloses | source/systemjs.go:55-64 | a block opened by a `/*` line stays open until the first later line containing `*/`, which belongs to the preamble |
| SourceSystemJS.BlockClosingLine | source/systemjs_test.go:131-141 | the test's three-line block comment is skipped and closed |
| SourceSystemJS.SkipPreamblePrefixVector | source/systemjs_test.go:121-129 | two `//` lines form a preamble of 2 |
| SourceSystemJS.SkipPreambleBlockVector | source/systemjs_test.go:131-141 | the block comment forms a preamble of 3 |
| SourceSystemJS.SkipPreambleMixtureVector | source/systemjs_test.go:143-154 | block then line comment form a preamble of 4 |
| SourceSystemJS.ChooseBodyLines | source/systemjs.go:74-79 | preamble + body (+ the source-map line when found) is the whole file |
| SourceSystemJS.ParseSourceMappingURL | source/systemjs.go:81-89 | found exactly when the line starts with "//# sourceMappingURL=", and then the URL is the rest of the line; "" otherwise |
| SourceSystemJS.ParseRegisterDependencies | source/systemjs.go:94-118 | the method returns RegisterDependencies, trimming quotes in place when asked |
| SourceSystemJS.RegisterDependencies | source/systemjs.go:94-103 | a line that is not a register line yields no dependencies |
| SourceSystemJS.RegisterRecognised | source/systemjs.go:94-103 | a line is a register line exactly when it starts with "System.register([" and contains `]` |
| SourceSystemJS.RegisterNoImports | source/systemjs.go:105-107 | "[]" yields (nil, true) |
| SourceSystemJS.RegisterEntries | source/systemjs.go:109-110 | the dependencies are the text between `[` and the last `]` split on ", " |
| SourceSystemJS.RegisterRoundTrip | source/systemjs.go:94-118 | a header built by joining dependencies with ", " parses back to those dependencies |
| SourceSystemJS.RegisterUnquoted | source/systemjs.go:111-115 | with trimQuotes each dependency is strings.Trim(d, "\"") of the untrimmed one |
| SourceSystemJS.RegisterQuotedRoundTrip | source/systemjs.go:111-115 | a header of quoted names parses back to the bare names when quotes are trimmed |
| SourceSystemJS.TrimEach | source/systemjs.go:112-114 | each piece is trimmed, in place and in order |
| SourceSystemJS.Elements | source/systemjs.go:9-44 | no lines give empty elements; an all-preamble file panics (None); otherwise the preamble, the register line after it, the source-map line at the end and a lineCount equal to the number of lines |
| SourceSystemJS.ParseSystemJSFormattedFile | source/systemjs.go:9-44 | the method returns Elements |
| SystemJS.ChooseBodyLines | systemjs/systemjs.go:36-41 | drops the last line exactly when a source map was found |
| SystemJS.ParseSystemJSFormattedFile | systemjs/systemjs.go:9-34 | panics (None) exactly on no lines; the register line is lines[0], dependencies are always unquoted, lineCount is len(lines), and the name is empty |
| SystemJS.RegisterLineKept | systemjs/systemjs.go:17-24 | a one-line register file keeps that line as its body |
| JSFileContents.BundleLineShape | source/JSFileContents.go:81-84 | the bundle line is "System.register(\"<name>.js\", [" + imports + "], function (exports_1, context_1) {" |
| JSFileContents.BundleLineCarriesImports | source/JSFileContents.go:81-84 | without the module name, the bundle line parses back to the imports it was given |
| JSFileContents.AnonymousLineImports | source/JSFileContents.go:81-84 | an unnamed register line with joined imports parses back to those imports |
| JSFileContents.AnonymousLineNoImports | source/JSFileContents_test.go:9-13 | nil and empty imports both give a "[]" line that parses to no imports |
| JSFileContents.BundleLineNotRegister | source/JSFileContents.go:81-84 | a rewritten line is not itself recognised as an anonymous register line |
| JSFileContents.FirstCodeLineNotSourceMap | source/JSFileContents.go:47-53 | the first line after the preamble is never a source-map line |
| JSFileContents.ContentsShape | source/JSFileContents.go:29-78 | a register file keeps its lines and lineCount with line len(preamble) replaced by the bundle line; any other file, an all-preamble one included, is wrapped in the bundle line and "});" and its lineCount grows by 2 |
| JSFileContents.ParseJSFileContents | source/JSFileContents.go:29-78 | parses the lines of StringToLines as Contents |
| JSFileContents.ParseJSLines | source/JSFileContents.go:32-77 | the body is assembled as Contents specifies |
| JSFileContents.AssembleBody | source/JSFileContents.go:57-68 | register: preamble + [bundle line] + body[1:]; otherwise preamble + [bundle line] + body + ["});"] |
| JSFileContents.ParseGoodVector | source/systemjs_test.go:10-43 | the test's register file keeps its quoted imports, 19 body lines, its source-map URL, 20 lines, and is SystemJS |
| JSFileContents.WrongFileTypeVector | source/systemjs_test.go:45-57 | an HTML file is wrapped: 5 body lines, lineCount 5, not SystemJS |
| JSFileContents.SourceMapOnlyVector | source/systemjs_test.go:59-72 | a file with only a source-map line keeps the URL and is wrapped |
| JSFileContents.RegisterOnlyVector | source/systemjs_test.go:74-84 | a register line and "}" give one import and two lines |
| JSFileContents.RegisterNoImportsVector | source/systemjs_test.go:86-93 | "[]" gives no imports and is SystemJS |
| JSFileContents.InvalidRegisterVector | source/systemjs_test.go:95-101 | a malformed header is not SystemJS |
| JSFileContents.InvalidRegisterUnclosedVector | source/systemjs_test.go:103-109 | a header without `]` is not SystemJS |
| JSFileContents.RegisterAfterCommentsVector | source/systemjs_test.go:111-119 | leading `//` comments are skipped before the register line |
| TextFiles.TrimByteOrderMark | util/textfiles.go:21-30 | strips EF BB BF exactly when the text is longer than 3 and starts with them, else returns it unchanged |
| TextFiles.TrimAddedMark | util/textfiles.go:21-30 | the mark in front of non-empty text is removed |
| TextFiles.MarkAloneKept | util/textfiles.go:22 | the mark alone is kept |
| TextFiles.ReadFirstLineBeyondComments | util/textfiles.go:46-66 | the scanning loop returns the first line beyond the preamble, or "" when there is none |
| TextFiles.TrimCR | util/textfiles.go:73-78 | at most one trailing `\r` is removed |
| TextFiles.StringToLines | util/textfiles.go:69-82 | one piece per '\n'-separated segment, each without its trailing `\r` |
| TextFiles.SplitLines | source/util.go:11-24 | the loop fixes each piece as StringToLines specifies |
| TextFiles.LineCount | source/util.go:11-24 | count('\n') + 1 pieces |
| TextFiles.LinesLackNewline | source/util.go:12 | no piece contains '\n' |
| TextFiles.LinesJoin | source/util.go:12 | without '\r', joining the pieces with '\n' gives back the input |
| TextFiles.EmptyTextOneLine | source/util.go:12 | the empty string yields a single empty line |
| UtilPath.RemoveExtension | util/path.go:6-12 | RemoveExtension(p) + path.Ext(p) == p |
| UtilPath.NoExtensionKept | util/path.go:8-11 | the identity when path.Ext is "" |
| UtilPath.RemovedSuffixShape | util/path.go:7-9 | what is removed is a dot with no further dot or slash |
| UtilPath.RemoveExtensionVector | util/path_test.go:9-12 | "/some/path/name.js" becomes "/some/path/name" |
| UtilPath.DotInDirectoryIgnored | util/path.go:7 | a dot in a directory name does not count |
| EventChangesets.EventToString | monitor/EventChangeset.go:50-63 | one character, "?" exactly for events other than Create, Write, Remove and Rename |
| EventChangesets.KnownKindsDistinct | monitor/EventChangeset.go:50-63 | the four kinds get four different characters |
| EventChangesets.MakeEventKey | monitor/EventChangeset.go:41-43 | the key is the event's character, ":", then the path |
| EventChangesets.KeyInjective | monitor/EventChangeset.go:41-43 | two keys are equal exactly when the characters and the paths are |
| EventChangesets.CompositeIffTwoBits | monitor/EventChangeset.go:45-48 | (n-1)&n > 0 exactly when n has at least two set bits |
| EventChangesets.SingleBitNotComposite | monitor/EventChangeset.go:45-48 | a single flag is never composite |
| EventChangesets.TwoBitsComposite | monitor/EventChangeset.go:45-48 | two different flags together are composite |
| EventChangesets.CompositeVectors | monitor/EventChangeset_test.go:50-60 | 3, 17 and 2052 are composite; 0, 1, 2 and 2048 are not |
| EventChangesets.KindVectors | monitor/EventChangeset.go:21-23 | Create alone is accepted and Create together with Write is rejected as composite |
| EventChangesets.EventChangeset.constructor | monitor/EventChangeset.go:13-17 | a new changeset is empty |
| EventChangesets.EventChangeset.Add | monitor/EventChangeset.go:20-31 | returns true exactly when the event is not composite and its key is new, and then stores the event under its key; otherwise changes nothing |
| EventChangesets.EventChangeset.Count | monitor/EventChangeset.go:33-35 | the number of keys |
| EventChangesets.EventChangeset.NonEmpty | monitor/EventChangeset.go:37-39 | nonEmpty exactly when some key is stored |
| EventChangesets.StoredUnderOwnKey | monitor/EventChangeset.go:24-28 | an event with the same character and path as a stored one finds its key taken |
| EventChangesets.AddVector | monitor/EventChangeset_test.go:11-28 | a first Add succeeds, a duplicate and a composite are refused, one key remains |
| EventChangesets.EventKeyVector | monitor/EventChangeset_test.go:30-33 | makeEventKey(Create, "abcd") == "C:abcd" |
| ScriptInjector.ScriptOpen | web/ScriptInjector.go:19-25 | the opening tag is 22 characters for a module and 26 for plain javascript, so the two types never share a tag |
| ScriptInjector.WrapInlineJavascript | web/ScriptInjector.go:19-26 | `<script type="…">` + inline + `</script>`, the inline script recoverable from the middle |
| ScriptInjector.WrapInjective | web/ScriptInjector.go:19-26 | different scripts or types wrap differently |
| ScriptInjector.InjectInlineJavascript | web/ScriptInjector.go:8-17 | with the last "</body>" at p > 0 the output is html[:p] + wrapped + html[p:], its length grown by the wrapper; otherwise html + the fixed comment |
| ScriptInjector.InjectionRemovable | web/ScriptInjector.go:9-13 | cutting the wrapped script out gives back the page, and the script sits right before the closing tag |
| ScriptInjector.MissingBodyAppendsComment | web/ScriptInjector.go:16 | without "</body>" the page is kept and an HTML comment is appended |
| ScriptInjector.BodyAtStartVector | web/ScriptInjector.go:9-10 | a "</body>" only at position 0 also gets the comment |
| ScriptInjector.LastIndexAtJoin | web/ScriptInjector.go:9 | the script goes before the last "</body>", not the first |
| ScriptInjector.InjectVector | web/ScriptInjector_test.go:10-20 | the test page gets the wrapped script just before "</body></html>" |
| BuildDescriptions.NormaliseRelativePath | config/BuildDescription.go:68 | path.Join of base and name: clean, not starting with "./", empty only when both are |
| BuildDescriptions.Normalise | config/BuildDescription.go:67-91 | Name and Exclude are kept; each include becomes path.Join(base, include) in the same order; RelativePath is path.Join(base, name); the absolute path is filepath.Join(root, base, name) |
| BuildDescriptions.NormaliseModules | config/BuildDescription.go:58-64 | one normalised module per module, in order |
| BuildDescriptions.NormalisedPaths | config/BuildDescription.go:67-75 | every path produced is normalised |
| BuildDescriptions.NormaliseIdempotent | config/BuildDescription.go:67-91 | normalising a normalised module again with an empty base changes nothing |
| BuildDescriptions.NormaliseModulesNames | config/BuildDescription.go:58-64 | every module keeps its name |
| BuildDescriptions.JoinVector | config/BuildDescription_test.go:32-70 | path.Join("a", "./one") == "a/one" |

## Left out

- Reading files, `os.Stat`, JSON parsing (`parseSourceMapJSON`, `ParseSourceMapConfig`, `LoadBuildDescriptionFile` and `LoadBuildDescriptionString`), `PlayMappings` and `OffsetMappings` are parameters. A read is a value or None. A parse is a function to an optional result. PlayMappings and OffsetMappings are abstract functions, because they are not in these files.
- The bufio scanner that `source/systemjs.go` and `systemjs/systemjs.go` use to split text into lines is left out, as are `CountLines`. The parsers take the lines as input. `JSFileContents.ParseJSFileContents` uses `StringToLines`, as the source does.
- `filepath.Join` is OS-specific. `ReadSourceFile` and `Normalise` take it as a parameter. The walker joins by concatenation, because a workspace root always ends with its separator.
- Go's `int` is modelled as unbounded. The shifts of encodeInteger and Decode cannot overflow here.
- Map iteration order is not modelled. `Files`, `OutputImports` and `ids()` are stated up to order. The order of `newIDGraph`'s reverse edges comes from a parameter.
- The `NON-REL` tally and every `println`, `log.Printf` and `fmt.Println` are output only and are left out. A rooted dependency is still neither queued nor recorded.
- `log.Fatalf` cannot be modelled as an exit.
  - Imports.ToRootRelativeImport: the fatal cases are a precondition.
  - Imports.ToRootRelativeDepImport: the same; this version has no solo pass-through.
  - DependencyWalker.FollowDependencyGraph: the fatal case stops the walk, returns the import in `stoppedAt`, and returns no imports and no links.
- The notify package's event constants are not in these files. Create, Remove, Write and Rename are single bits 20–23. Only the fact that each is one distinct bit matters.
- EventChangesets.EventChangeset.Add: the model's `Event` record keeps the path and the event, in place of `NewEvent`'s struct, whose other fields are not in these files.
- IdGraph.IDGraph.SortTopologically: requires the ids to be distinct and every link endpoint to be among them, as in every call of the bundler. The source also runs on other inputs, but its result there is not specified.
- IdGraph.IDGraph.constructor: takes the links map's iteration order as a parameter, which must list each key once.
- SourceMapBuilding.SourceMapBuilder.constructor: requires a capacity ≥ 0, because `make` panics on a negative one. The capacity is not kept.
- Workspaces.RelativeRoundTrip: holds only for paths without `\`, because ToRelativePath rewrites `\` to `/`.
- TextFiles.TrimByteOrderMark and every other string operation: a `char` stands for one byte of a Go string, so the model reads the bytes EF BB BF as the characters U+00EF, U+00BB and U+00BF. In Vlq.Decode a `char` stands for one rune of the `range` loop, and `Vlq.ByteOf` takes it modulo 256 as `byte(b)` does (bundle/VLQ.go:42-43). Non-ASCII text is not modelled: byte offsets such as those of findFirstVLQ and slices such as `line[len(prefix):]` match Go only for ASCII text.
- `Workspace.ReadInterpolationValues`, `File`'s parsed elements, `FileElements` beyond the fields parsed here, and the CSS and string file contents are left out. So are `BuildFileSet` (a direct call of the walk and `NewFileSet`), `BundleLines` and `SourceMappingURL` (field getters).
- `Mapping.RelativePath` and `NewMappingForTesting` are plain field access and a test helper, and are left out.
- Some tests call `NewIDGraph`, `SortTopologically` and `newStringStack`, which these sources do not define. The model follows the functions these sources do define.
- The source-tree test of `TestOutputImports` pushes `source.NewImport` values. The model pushes its own import record.
- Some snapshot tests disagree with the code shown, for example `NewEmptyFileSet(createWorkspace())` and `NewFileSet(imports, links, ws)`. The model follows the code. In the same way, source/systemjs_test.go:45-57 expects a body of 3 lines and a lineCount of 3, and source/systemjs_test.go:59-72 a body of 3 and a lineCount of 4. source/JSFileContents.go:63-67 wraps a file without a register line in two more lines, which gives 5 and 5, and 5 and 6. The model follows JSFileContents.go.
- Two call sites in dep/DependencyWalker.go do not match the signatures in these sources. Line 80 calls `source.ParseRegisterDependencies(line)` with one argument, and the model reads it with trimQuotes = true. Line 85 calls an unqualified `NewImport`, and the model reads it as `source.NewImport`, which strips `#{…}` templates. The other readings would root every quoted dependency, so it would never be followed, and would keep the templates. The readings chosen are the ones under which the walk follows the dependencies that the register line lists.
- HTTP and websockets, browser scripts, file watching, orchestration, self-update, configuration loading, the terminal UI, `util/os.go` and `dep/topo.go` (entirely commented out) are left out.
