/**
  The set of files of a bundle (source/FileSet.go): an index of files by
  id, and the dependency links between indexed files. Files are added only
  once; a link is refused when it mentions a file outside the index.
 */
module FileSets {
  import opened Wrappers
  import opened Imports
  import opened SourceFiles
  import opened Workspaces
  import GoMaps

  /** Every link key and every linked id is indexed, and every file sits under its own id. */
  ghost predicate LinksIndexed(index: map<string, File>, links: map<string, seq<string>>) {
    && (forall id :: id in index ==> index[id].id == id)
    && (forall id :: id in links ==> id in index && forall d :: d in links[id] ==> d in index)
  }

  /** The index after adding `file`: unchanged when its id is taken. */
  function Insert(index: map<string, File>, file: File): (r: map<string, File>)
    ensures r.Keys == index.Keys + {file.id}
    ensures forall id :: id in index ==> r[id] == index[id]
  {
    if file.id in index then index else index[file.id := file]
  }

  /** The links after adding `link`: unchanged when any of its ids is not indexed. */
  function Link(index: map<string, File>, links: map<string, seq<string>>, link: DependencyLink): (r: map<string, seq<string>>)
  {
    if link.id in index && forall d :: d in link.dependencyIDs ==> d in index then
      links[link.id := link.dependencyIDs]
    else
      links
  }

  class FileSet {
    var index: map<string, File>
    var links: map<string, seq<string>>

    ghost predicate Valid()
      reads this
    {
      LinksIndexed(index, links)
    }

    /** NewEmptyFileSet */
    constructor ()
      ensures Valid()
      ensures index == map[] && links == map[]
    {
      index := map[];
      links := map[];
    }

    /** contains */
    predicate Contains(id: string)
      reads this
    {
      id in index
    }

    /** containsFile: by id only. */
    predicate ContainsFile(file: File)
      reads this
    {
      Contains(file.id)
    }

    /** Count */
    function Count(): nat
      reads this
    {
      |index|
    }

    /** linkCount */
    function LinkCount(): nat
      reads this
    {
      |links|
    }

    /** nonEmpty */
    predicate NonEmpty()
      reads this
    {
      Count() > 0
    }

    /** Add: inserts the file when its id is new and reports whether it did. */
    method Add(file: File) returns (added: bool)
      requires Valid()
      modifies this
      ensures Valid()
      ensures added <==> file.id !in old(index)
      ensures index == Insert(old(index), file)
      ensures !added ==> index == old(index)
      ensures links == old(links)
    {
      if Contains(file.id) {
        return false;
      }
      index := index[file.id := file];
      return true;
    }

    /**
      AddLink: records the link, replacing any earlier link of the same id,
      when the file and all its dependencies are indexed; otherwise refuses
      and changes nothing.
     */
    method AddLink(link: DependencyLink) returns (added: bool)
      requires Valid()
      modifies this
      ensures Valid()
      ensures added <==> link.id in index && forall d :: d in link.dependencyIDs ==> d in index
      ensures links == Link(index, old(links), link)
      ensures added ==> links == old(links)[link.id := link.dependencyIDs]
      ensures !added ==> links == old(links)
      ensures index == old(index)
    {
      if !Contains(link.id) {
        return false;
      }
      var i := 0;
      while i < |link.dependencyIDs|
        invariant 0 <= i <= |link.dependencyIDs|
        invariant forall j :: 0 <= j < i ==> link.dependencyIDs[j] in index
      {
        if !Contains(link.dependencyIDs[i]) {
          return false;
        }
        i := i + 1;
      }
      links := links[link.id := link.dependencyIDs];
      return true;
    }

    /** Files: every indexed file exactly once, in no particular order. */
    method Files() returns (result: seq<File>)
      requires Valid()
      ensures |result| == Count()
      ensures forall id :: id in index ==> index[id] in result
      ensures forall f :: f in result ==> f.id in index && index[f.id] == f
      ensures forall i, j :: 0 <= i < j < |result| ==> result[i].id != result[j].id
    {
      ghost var ids;
      result, ids := GoMaps.Values(index);
    }
  }

  /** The files the readable imports resolve to, in order; unreadable imports are skipped. */
  function ReadableFiles(imports: seq<Import>, ws: Workspace, present: string -> bool,
                         join: (string, string) -> string): (r: seq<File>)
    ensures |r| <= |imports|
  {
    if imports == [] then []
    else
      var last := imports[|imports| - 1];
      var earlier := ReadableFiles(imports[..|imports| - 1], ws, present, join);
      match SourceFileFor(ws, last, present, join)
      case Some(file) => earlier + [file]
      case None => earlier
  }

  /** The index after adding the files in order. */
  function InsertAll(index: map<string, File>, files: seq<File>): (r: map<string, File>)
  {
    if files == [] then index
    else Insert(InsertAll(index, files[..|files| - 1]), files[|files| - 1])
  }

  /** The links after adding the links in order. */
  function LinkAll(index: map<string, File>, links: map<string, seq<string>>, ls: seq<DependencyLink>): (r: map<string, seq<string>>)
  {
    if ls == [] then links
    else Link(index, LinkAll(index, links, ls[..|ls| - 1]), ls[|ls| - 1])
  }

  /** Adding one more file. */
  lemma InsertAllSnoc(index: map<string, File>, files: seq<File>, file: File)
    ensures InsertAll(index, files + [file]) == Insert(InsertAll(index, files), file)
  {
    assert (files + [file])[..|files|] == files;
  }

  /** Adding one more link. */
  lemma LinkAllSnoc(index: map<string, File>, links: map<string, seq<string>>, ls: seq<DependencyLink>, link: DependencyLink)
    ensures LinkAll(index, links, ls + [link]) == Link(index, LinkAll(index, links, ls), link)
  {
    assert (ls + [link])[..|ls|] == ls;
  }

  /** The ids of some files. */
  function Ids(files: seq<File>): (r: set<string>)
    ensures forall f :: f in files ==> f.id in r
    ensures forall id :: id in r ==> exists f :: f in files && f.id == id
  {
    set f | f in files :: f.id
  }

  /** The ids indexed after InsertAll are the earlier ones plus every added id. */
  lemma {:induction false} InsertAllKeys(index: map<string, File>, files: seq<File>)
    ensures InsertAll(index, files).Keys == index.Keys + Ids(files)
  {
    if files != [] {
      var init, last := files[..|files| - 1], files[|files| - 1];
      InsertAllKeys(index, init);
      assert files == init + [last];
      IdsSnoc(init, last);
      assert InsertAll(index, files) == Insert(InsertAll(index, init), last);
    }
  }

  /** The ids of one more file. */
  lemma IdsSnoc(files: seq<File>, file: File)
    ensures Ids(files + [file]) == Ids(files) + {file.id}
  {
  }

  /** The first file with a given id wins; later files with that id are ignored. */
  lemma {:induction false} InsertAllFirstWins(index: map<string, File>, files: seq<File>, k: nat)
    requires k < |files| && files[k].id !in index
    requires forall j :: 0 <= j < k ==> files[j].id != files[k].id
    ensures files[k].id in InsertAll(index, files)
    ensures InsertAll(index, files)[files[k].id] == files[k]
  {
    var init, last := files[..|files| - 1], files[|files| - 1];
    assert InsertAll(index, files) == Insert(InsertAll(index, init), last);
    if k < |files| - 1 {
      assert init[k] == files[k];
      InsertAllFirstWins(index, init, k);
    } else {
      InsertAllKeys(index, init);
      IdAbsent(init, last.id);
    }
  }

  /** An id that no file carries is not among their ids. */
  lemma IdAbsent(files: seq<File>, id: string)
    requires forall j :: 0 <= j < |files| ==> files[j].id != id
    ensures id !in Ids(files)
  {
    forall f | f in files
      ensures f.id != id
    {
      var j :| 0 <= j < |files| && files[j] == f;
    }
  }

  /** Files are always indexed under their own ids. */
  lemma {:induction false} InsertAllWellKeyed(index: map<string, File>, files: seq<File>)
    requires forall id :: id in index ==> index[id].id == id
    ensures forall id :: id in InsertAll(index, files) ==> InsertAll(index, files)[id].id == id
  {
    if files != [] {
      InsertAllWellKeyed(index, files[..|files| - 1]);
    }
  }

  /** Links only ever mention indexed ids. */
  lemma {:induction false} LinkAllIndexed(index: map<string, File>, links: map<string, seq<string>>, ls: seq<DependencyLink>)
    requires LinksIndexed(index, links)
    ensures LinksIndexed(index, LinkAll(index, links, ls))
  {
    if ls != [] {
      LinkAllIndexed(index, links, ls[..|ls| - 1]);
    }
  }

  /** The readable files of one more import. */
  lemma ReadableStep(imports: seq<Import>, i: nat, ws: Workspace, present: string -> bool,
                     join: (string, string) -> string)
    requires i < |imports|
    ensures var earlier := ReadableFiles(imports[..i], ws, present, join);
            ReadableFiles(imports[..i + 1], ws, present, join)
            == match SourceFileFor(ws, imports[i], present, join)
               case Some(file) => earlier + [file]
               case None => earlier
  {
    assert imports[..i + 1][..i] == imports[..i];
  }

  /**
    NewFileSet: indexes the file of every readable import (skipping the
    others), then adds every link, refusing those that dangle.
   */
  method NewFileSet(imports: seq<Import>, links: seq<DependencyLink>, ws: Workspace,
                    present: string -> bool, join: (string, string) -> string) returns (fs: FileSet)
    ensures fresh(fs) && fs.Valid()
    ensures fs.index == InsertAll(map[], ReadableFiles(imports, ws, present, join))
    ensures fs.links == LinkAll(fs.index, map[], links)
  {
    fs := new FileSet();
    IndexReadable(fs, imports, ws, present, join);
    AddLinks(fs, links);
  }

  /** The first loop of NewFileSet: the file of every readable import, in order. */
  method IndexReadable(fs: FileSet, imports: seq<Import>, ws: Workspace,
                       present: string -> bool, join: (string, string) -> string)
    requires fs.Valid() && fs.index == map[] && fs.links == map[]
    modifies fs
    ensures fs.Valid() && fs.links == map[]
    ensures fs.index == InsertAll(map[], ReadableFiles(imports, ws, present, join))
  {
    var i := 0;
    while i < |imports|
      invariant 0 <= i <= |imports|
      invariant fs.Valid() && fs.links == map[]
      invariant fs.index == InsertAll(map[], ReadableFiles(imports[..i], ws, present, join))
    {
      ghost var readable := ReadableFiles(imports[..i], ws, present, join);
      var file := ReadSourceFile(ws, imports[i], present, join);
      ReadableStep(imports, i, ws, present, join);
      if file.Some? {
        var added := fs.Add(file.value);
        InsertAllSnoc(map[], readable, file.value);
      }
      i := i + 1;
    }
    assert imports[..i] == imports;
  }

  /** The second loop of NewFileSet: every link in order, the dangling ones refused. */
  method AddLinks(fs: FileSet, links: seq<DependencyLink>)
    requires fs.Valid() && fs.links == map[]
    modifies fs
    ensures fs.Valid() && fs.index == old(fs.index)
    ensures fs.links == LinkAll(fs.index, map[], links)
  {
    var j := 0;
    while j < |links|
      invariant 0 <= j <= |links|
      invariant fs.Valid() && fs.index == old(fs.index)
      invariant fs.links == LinkAll(fs.index, map[], links[..j])
    {
      assert links[..j + 1] == links[..j] + [links[j]];
      LinkAllSnoc(fs.index, map[], links[..j], links[j]);
      var added := fs.AddLink(links[j]);
      j := j + 1;
    }
    assert links[..j] == links;
  }

  /** Adding the same id twice keeps one file. */
  method DuplicateVector() returns (count: nat)
    ensures count == 1
  {
    var fs := new FileSet();
    var added := fs.Add(File("abcd", "c:\\abcd"));
    added := fs.Add(File("abcd", "c:\\abcd"));
    count := fs.Count();
  }

  /**
    A link between indexed files is kept; a link naming an unindexed
    dependency or an unindexed file is refused (ids "abcd", "efgh", "ijkl"
    and the unknown "xyzw" in the original scenario).
   */
  method AddDistinctVector(a: string, e: string, i: string, x: string)
    returns (success: bool, danglingDependency: bool, danglingFile: bool, linkCount: nat)
    requires a != e && a != i && e != i && x !in {a, e, i}
    ensures success
    ensures !danglingDependency
    ensures !danglingFile
    ensures linkCount == 1
  {
    var fs := new FileSet();
    var added := fs.Add(File(a, "c:\\abcd"));
    added := fs.Add(File(e, "c:\\efgh"));
    added := fs.Add(File(i, "c:\\ijkl"));
    assert fs.index.Keys == {a, e, i};
    success := fs.AddLink(DependencyLink(a, [e, i]));
    var dangling := DependencyLink(e, [x]);
    assert dangling.dependencyIDs[0] !in fs.index;
    danglingDependency := fs.AddLink(dangling);
    danglingFile := fs.AddLink(DependencyLink(x, [e]));
    linkCount := fs.LinkCount();
  }

  /** A fresh set contains what was added, and nothing else. */
  method ContainsVector() returns (before: bool, after: bool, byFile: bool, other: bool, count: nat, nonEmpty: bool, linkCount: nat)
    ensures !before && after && byFile && !other && count == 1 && nonEmpty && linkCount == 0
  {
    var fs := new FileSet();
    var file := File("app/src/ConfigApp.js", "c:\\wf\\lp\\web\\App\\app\\src\\ConfigApp.js");
    before := fs.Contains(file.id);
    var added := fs.Add(file);
    after := fs.Contains(file.id);
    byFile := fs.ContainsFile(file);
    other := fs.Contains("aksdjfhzzaksjdfh");
    count := fs.Count();
    nonEmpty := fs.NonEmpty();
    linkCount := fs.LinkCount();
  }
}
