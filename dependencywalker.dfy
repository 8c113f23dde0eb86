/**
  The breadth-first walk of the dependency graph from an entry file
  (dep/DependencyWalker.go). Each import taken from the queue is looked up
  on disk; a readable file's first line names its dependencies, the
  relative ones are resolved against the file and queued, and one link per
  readable file records the dependencies as written.

  The disk is a finite map from absolute file path to what reading the
  file's first line gives: the line (already past any leading comments),
  or None when reading fails. filepath.Join(root, p) is root + p: the root
  of a workspace ends with its separator.
 */
module DependencyWalker {
  import opened Wrappers
  import opened GoStrings
  import opened GoPath
  import opened Imports
  import opened SourceFiles
  import opened Workspaces
  import opened ImportQueues
  import SourceSystemJS

  type Disk = map<string, Option<string>>

  /** os.Stat succeeds exactly for the files on disk. */
  function Present(disk: Disk): string -> bool {
    path => path in disk
  }

  /** filepath.Join of the root and a root-relative path. */
  function RootJoin(): (string, string) -> string {
    (root, path) => root + path
  }

  /** The file ReadSourceFile finds for an import. */
  function FileFor(ws: Workspace, disk: Disk, imp: Import): Option<File> {
    SourceFileFor(ws, imp, Present(disk), RootJoin())
  }

  /** io.ReadFirstLine: fails for a file that is not on disk or cannot be read. */
  function FirstLine(disk: Disk, filepath: string): Option<string> {
    if filepath in disk then disk[filepath] else None
  }

  /** The specifiers without an extension, as imports, in order. */
  function Candidates(paths: seq<string>): seq<Import> {
    if paths == [] then []
    else
      var last := paths[|paths| - 1];
      Candidates(paths[..|paths| - 1]) + (if Ext(last) == "" then [NewImport(last)] else [])
  }

  /** One more specifier adds its import exactly when it has no extension. */
  lemma CandidatesSnoc(paths: seq<string>, p: string)
    ensures Candidates(paths + [p]) == Candidates(paths) + (if Ext(p) == "" then [NewImport(p)] else [])
  {
    assert (paths + [p])[..|paths|] == paths;
  }

  /** An import is a candidate exactly when it is built from an extensionless specifier. */
  lemma {:induction false} CandidatesMembers(paths: seq<string>, imp: Import)
    ensures imp in Candidates(paths) <==> exists p :: p in paths && Ext(p) == "" && imp == NewImport(p)
  {
    if paths != [] {
      var init := paths[..|paths| - 1];
      var last := paths[|paths| - 1];
      CandidatesMembers(init, imp);
      assert paths == init + [last];
      if imp in Candidates(paths) && imp !in Candidates(init) {
        assert Ext(last) == "" && imp == NewImport(last);
      }
      if exists p :: p in paths && Ext(p) == "" && imp == NewImport(p) {
        var p :| p in paths && Ext(p) == "" && imp == NewImport(p);
        if p != last {
          assert p in init;
        }
      }
    }
  }

  /** The dependencies named by a first line: none when it could not be read or is not a register line. */
  function Dependencies(line: Option<string>): (r: seq<Import>)
  {
    match line
    case None => []
    case Some(l) =>
      var (dependencies, ok) := SourceSystemJS.RegisterDependencies(l, true);
      if ok then Candidates(dependencies) else []
  }

  /** readDependencies: reads the first line and keeps the extensionless dependencies. */
  method ReadDependencies(file: File, disk: Disk) returns (filteredDeps: seq<Import>)
    ensures filteredDeps == Dependencies(FirstLine(disk, file.filepath))
  {
    var line := FirstLine(disk, file.filepath);
    if line.None? {
      return [];
    }
    var dependencies, ok := SourceSystemJS.ParseRegisterDependencies(line.value, true);
    filteredDeps := [];
    if ok {
      filteredDeps := KeepCandidates(dependencies);
    }
  }

  /** The loop of readDependencies: keeps the extensionless dependencies, as imports, in order. */
  method KeepCandidates(dependencies: seq<string>) returns (filteredDeps: seq<Import>)
    ensures filteredDeps == Candidates(dependencies)
  {
    filteredDeps := [];
    var i := 0;
    while i < |dependencies|
      invariant 0 <= i <= |dependencies|
      invariant filteredDeps == Candidates(dependencies[..i])
    {
      assert dependencies[..i + 1] == dependencies[..i] + [dependencies[i]];
      CandidatesSnoc(dependencies[..i], dependencies[i]);
      if Ext(dependencies[i]) == "" {
        filteredDeps := filteredDeps + [NewImport(dependencies[i])];
      }
      i := i + 1;
    }
    assert dependencies[..i] == dependencies;
  }

  /** The dependencies of the file behind an import; none when there is no file. */
  function DepsOf(ws: Workspace, disk: Disk, imp: Import): seq<Import> {
    match FileFor(ws, disk, imp)
    case None => []
    case Some(file) => Dependencies(FirstLine(disk, file.filepath))
  }

  /** toRootRelativeImport does not stop the program for any relative dependency of `imp`. */
  predicate Resolvable(imp: Import, deps: seq<Import>) {
    forall d :: d in deps ==> d.isRooted || d.isSolo || imp.isRooted
  }

  /** The ids a link records: the paths of the non-rooted dependencies, as written. */
  function LinkIDs(deps: seq<Import>): seq<string> {
    if deps == [] then []
    else
      var last := deps[|deps| - 1];
      LinkIDs(deps[..|deps| - 1]) + (if last.isRooted then [] else [last.Path()])
  }

  /** The recorded ids are exactly the paths of the non-rooted dependencies. */
  lemma {:induction false} LinkIDsMembers(deps: seq<Import>)
    ensures forall d :: d in deps && !d.isRooted ==> d.Path() in LinkIDs(deps)
    ensures forall p :: p in LinkIDs(deps) ==> exists d :: d in deps && !d.isRooted && d.Path() == p
  {
    if deps != [] {
      var init := deps[..|deps| - 1];
      var last := deps[|deps| - 1];
      LinkIDsMembers(init);
      assert deps == init + [last];
      forall d | d in deps && !d.isRooted
        ensures d.Path() in LinkIDs(deps)
      {
        if d != last {
          assert d in init;
        }
      }
      forall p | p in LinkIDs(deps)
        ensures exists d :: d in deps && !d.isRooted && d.Path() == p
      {
        if p !in LinkIDs(init) {
          assert !last.isRooted && p == last.Path();
        } else {
          var d :| d in init && !d.isRooted && d.Path() == p;
          assert d in deps;
        }
      }
    }
  }

  /** The non-rooted dependencies resolved against `imp`: what the walk queues. */
  function Resolved(imp: Import, deps: seq<Import>): (r: seq<Import>)
    requires Resolvable(imp, deps)
    ensures |r| == |LinkIDs(deps)|
  {
    if deps == [] then []
    else
      var last := deps[|deps| - 1];
      Resolved(imp, deps[..|deps| - 1]) + (if last.isRooted then [] else [ToRootRelativeImport(imp, last)])
  }

  /** The paths the non-rooted dependencies of `imp` resolve to. */
  function ResolvedPaths(imp: Import, deps: seq<Import>): set<string>
    requires Resolvable(imp, deps)
  {
    set r | r in Resolved(imp, deps) :: r.Path()
  }

  /** The link emitted for a readable import. */
  function LinkOf(ws: Workspace, disk: Disk, imp: Import): DependencyLink {
    DependencyLink(imp.Path(), LinkIDs(DepsOf(ws, disk, imp)))
  }

  /** Every path whose file can be found on disk: the relative names of the files under the root, with or without ".js". */
  function Findable(ws: Workspace, disk: Disk): set<string> {
    (set k | k in disk && HasPrefix(k, ws.rootPath) :: k[|ws.rootPath|..])
    + (set k | k in disk && HasPrefix(k, ws.rootPath) && |k| >= |ws.rootPath| + 3 :: k[|ws.rootPath|..|k| - 3])
  }

  /** An import whose file is found has its path among the findable ones. */
  lemma FoundIsFindable(ws: Workspace, disk: Disk, imp: Import)
    requires FileFor(ws, disk, imp).Some?
    ensures imp.Path() in Findable(ws, disk)
  {
    var p := imp.Path();
    var root := ws.rootPath;
    if root + p in disk {
      assert (root + p)[|root|..] == p;
    } else {
      var k := root + (p + ".js");
      assert k in disk;
      assert k[|root|..|k| - 3] == p;
    }
  }

  /** Every import whose file is found has its path among the findable ones. */
  lemma FindableBound(ws: Workspace, disk: Disk)
    ensures forall imp :: FileFor(ws, disk, imp).Some? ==> imp.Path() in Findable(ws, disk)
  {
    forall imp | FileFor(ws, disk, imp).Some?
      ensures imp.Path() in Findable(ws, disk)
    {
      FoundIsFindable(ws, disk, imp);
    }
  }

  /** LinkIDs and Resolved grow by at most one entry per dependency. */
  lemma DepsSnoc(imp: Import, deps: seq<Import>, d: Import)
    ensures LinkIDs(deps + [d]) == LinkIDs(deps) + (if d.isRooted then [] else [d.Path()])
    ensures Resolvable(imp, deps + [d]) <==> Resolvable(imp, deps) && (d.isRooted || d.isSolo || imp.isRooted)
    ensures Resolvable(imp, deps + [d]) ==>
              Resolved(imp, deps + [d]) == Resolved(imp, deps) + (if d.isRooted then [] else [ToRootRelativeImport(imp, d)])
  {
    assert (deps + [d])[..|deps|] == deps;
  }

  /** The paths resolved to grow by the path of the one more dependency, when it is not rooted. */
  lemma ResolvedPathsSnoc(imp: Import, deps: seq<Import>, d: Import)
    requires Resolvable(imp, deps + [d])
    ensures Resolvable(imp, deps)
    ensures ResolvedPaths(imp, deps + [d])
            == ResolvedPaths(imp, deps) + (if d.isRooted then {} else {ToRootRelativeImport(imp, d).Path()})
  {
    DepsSnoc(imp, deps, d);
  }

  /** Paths of a sequence with one more import. */
  lemma PathsSnoc(imports: seq<Import>, x: Import)
    ensures Paths(imports + [x]) == Paths(imports) + {x.Path()}
  {
    var s := imports + [x];
    assert s[|imports|] == x;
    forall p | p in Paths(imports)
      ensures p in Paths(s)
    {
      var i :| 0 <= i < |imports| && imports[i].Path() == p;
      assert s[i] == imports[i];
    }
  }

  /** The seen index only gains entries. */
  ghost predicate Grown(before: map<string, Import>, after: map<string, Import>) {
    forall k :: k in before ==> k in after && after[k] == before[k]
  }

  /** The queue is the old queue plus `added`, and those are exactly the newly seen paths. */
  ghost predicate Appended(imports0: seq<Import>, seen0: map<string, Import>,
                           imports: seq<Import>, seen: map<string, Import>, added: seq<Import>) {
    imports == imports0 + added && Paths(added) == seen.Keys - seen0.Keys
  }

  /** Queues a resolved dependency: nothing changes when its path has been seen. */
  method PushResolved(queue: ImportQueue, r: Import, ghost imports0: seq<Import>, ghost seen0: map<string, Import>,
                      ghost added: seq<Import>) returns (ghost added': seq<Import>)
    requires queue.Valid() && Grown(seen0, queue.seenIndex)
    requires Appended(imports0, seen0, queue.imports, queue.seenIndex, added)
    modifies queue
    ensures queue.Valid()
    ensures Grown(old(queue.seenIndex), queue.seenIndex) && Grown(seen0, queue.seenIndex)
    ensures Appended(imports0, seen0, queue.imports, queue.seenIndex, added')
    ensures added' == added || added' == added + [r]
    ensures r.Path() in queue.seenIndex
  {
    queue.Push(r);
    if queue.imports == old(queue.imports) {
      added' := added;
    } else {
      PathsSnoc(added, r);
      added' := added + [r];
    }
  }

  /**
    What the loop of follow has done after the first `i` dependencies: all
    could be resolved, their ids are recorded, and what they resolve to is
    seen, having been appended to the queue when new.
   */
  ghost predicate QueuedSoFar(imp: Import, deps: seq<Import>, i: nat, dependencyIDs: seq<string>,
                              imports0: seq<Import>, seen0: map<string, Import>,
                              imports: seq<Import>, seen: map<string, Import>, added: seq<Import>) {
    && i <= |deps|
    && Resolvable(imp, deps[..i])
    && dependencyIDs == LinkIDs(deps[..i])
    && Grown(seen0, seen)
    && Appended(imports0, seen0, imports, seen, added)
    && Paths(added) <= ResolvedPaths(imp, deps[..i])
    && forall r :: r in Resolved(imp, deps[..i]) ==> r.Path() in seen
  }

  /** One more rooted dependency, only tallied, keeps what the loop of follow has done. */
  lemma QueuedRooted(imp: Import, deps: seq<Import>, i: nat, dependencyIDs: seq<string>,
                     imports0: seq<Import>, seen0: map<string, Import>,
                     imports: seq<Import>, seen: map<string, Import>, added: seq<Import>)
    requires i < |deps| && deps[i].isRooted
    requires QueuedSoFar(imp, deps, i, dependencyIDs, imports0, seen0, imports, seen, added)
    ensures QueuedSoFar(imp, deps, i + 1, dependencyIDs, imports0, seen0, imports, seen, added)
  {
    assert deps[..i + 1] == deps[..i] + [deps[i]];
    DepsSnoc(imp, deps[..i], deps[i]);
    ResolvedPathsSnoc(imp, deps[..i], deps[i]);
  }

  /** One more relative dependency, resolved and seen, keeps what the loop of follow has done. */
  lemma QueuedRelative(imp: Import, deps: seq<Import>, i: nat, dependencyIDs: seq<string>,
                       imports0: seq<Import>, seen0: map<string, Import>,
                       imports: seq<Import>, seen: map<string, Import>, added: seq<Import>,
                       imports': seq<Import>, seen': map<string, Import>, added': seq<Import>)
    requires i < |deps| && !deps[i].isRooted && (deps[i].isSolo || imp.isRooted)
    requires QueuedSoFar(imp, deps, i, dependencyIDs, imports0, seen0, imports, seen, added)
    requires Grown(seen, seen') && Grown(seen0, seen')
    requires Appended(imports0, seen0, imports', seen', added')
    requires added' == added || added' == added + [ToRootRelativeImport(imp, deps[i])]
    requires ToRootRelativeImport(imp, deps[i]).Path() in seen'
    ensures QueuedSoFar(imp, deps, i + 1, dependencyIDs + [deps[i].Path()], imports0, seen0, imports', seen', added')
  {
    var dep := deps[i];
    assert deps[..i + 1] == deps[..i] + [dep];
    DepsSnoc(imp, deps[..i], dep);
    ResolvedPathsSnoc(imp, deps[..i], dep);
    PathsSnoc(added, ToRootRelativeImport(imp, dep));
  }

  /**
    One turn of the loop of follow: a rooted dependency is only tallied; any
    other is resolved against the import and queued, and its id recorded.
    `fatal` is the program stopping in toRootRelativeImport.
   */
  method QueueDependency(queue: ImportQueue, imp: Import, deps: seq<Import>, i: nat, dependencyIDs: seq<string>,
                         ghost imports0: seq<Import>, ghost seen0: map<string, Import>, ghost added: seq<Import>)
    returns (dependencyIDs': seq<string>, fatal: bool, ghost added': seq<Import>)
    requires i < |deps| && queue.Valid()
    requires QueuedSoFar(imp, deps, i, dependencyIDs, imports0, seen0, queue.imports, queue.seenIndex, added)
    modifies queue
    ensures fatal ==> !Resolvable(imp, deps)
    ensures !fatal ==> queue.Valid()
    ensures !fatal ==> QueuedSoFar(imp, deps, i + 1, dependencyIDs', imports0, seen0, queue.imports, queue.seenIndex, added')
  {
    var dep := deps[i];
    ghost var queued, seen := queue.imports, queue.seenIndex;
    dependencyIDs', added' := dependencyIDs, added;
    if !dep.isRooted {
      if !(dep.isSolo || (imp.isRooted && !dep.isRooted)) {
        assert dep in deps;
        return dependencyIDs, true, added;
      }
      var depRootRelative := ToRootRelativeImport(imp, dep);
      added' := PushResolved(queue, depRootRelative, imports0, seen0, added);
      dependencyIDs' := dependencyIDs + [dep.Path()];
      QueuedRelative(imp, deps, i, dependencyIDs, imports0, seen0, queued, seen, added, queue.imports, queue.seenIndex, added');
    } else {
      QueuedRooted(imp, deps, i, dependencyIDs, imports0, seen0, queued, seen, added);
    }
    fatal := false;
  }

  /** The loop of follow over a file's dependencies; `fatal` is the program stopping in toRootRelativeImport. */
  method QueueDependencies(queue: ImportQueue, imp: Import, deps: seq<Import>)
    returns (dependencyIDs: seq<string>, fatal: bool)
    requires queue.Valid()
    modifies queue
    ensures fatal <==> !Resolvable(imp, deps)
    ensures !fatal ==> dependencyIDs == LinkIDs(deps)
    ensures !fatal ==> queue.Valid() && Grown(old(queue.seenIndex), queue.seenIndex)
    ensures !fatal ==> exists added: seq<Import> ::
              && Appended(old(queue.imports), old(queue.seenIndex), queue.imports, queue.seenIndex, added)
              && Paths(added) <= ResolvedPaths(imp, deps)
    ensures !fatal ==> forall r :: r in Resolved(imp, deps) ==> r.Path() in queue.seenIndex
  {
    dependencyIDs := [];
    ghost var added: seq<Import> := [];
    ghost var imports0 := queue.imports;
    ghost var seen0 := queue.seenIndex;
    assert Appended(imports0, seen0, queue.imports, queue.seenIndex, added);
    assert Paths(added) == {};
    var i := 0;
    while i < |deps|
      invariant queue.Valid()
      invariant QueuedSoFar(imp, deps, i, dependencyIDs, imports0, seen0, queue.imports, queue.seenIndex, added)
      decreases |deps| - i
    {
      dependencyIDs, fatal, added := QueueDependency(queue, imp, deps, i, dependencyIDs, imports0, seen0, added);
      if fatal {
        return;
      }
      i := i + 1;
    }
    assert deps[..i] == deps;
    fatal := false;
  }

  /**
    follow: looks up the import's file; a missing file is skipped and
    yields no link. Otherwise the file's dependencies are queued and one
    link recorded.
   */
  method Follow(queue: ImportQueue, ws: Workspace, disk: Disk, imp: Import)
    returns (link: Option<DependencyLink>, fatal: bool)
    requires queue.Valid()
    modifies queue
    ensures fatal <==> FileFor(ws, disk, imp).Some? && !Resolvable(imp, DepsOf(ws, disk, imp))
    ensures !fatal ==> link == (if FileFor(ws, disk, imp).Some? then Some(LinkOf(ws, disk, imp)) else None)
    ensures FileFor(ws, disk, imp).None? ==> queue.imports == old(queue.imports) && queue.seenIndex == old(queue.seenIndex)
    ensures !fatal ==> queue.Valid() && Grown(old(queue.seenIndex), queue.seenIndex)
    ensures !fatal ==> exists added: seq<Import> ::
              && Appended(old(queue.imports), old(queue.seenIndex), queue.imports, queue.seenIndex, added)
              && Paths(added) <= OutcomeOf(ws, disk, imp).targets
    ensures !fatal ==> forall r :: r in Resolved(imp, DepsOf(ws, disk, imp)) ==> r.Path() in queue.seenIndex
  {
    var file := ReadSourceFile(ws, imp, Present(disk), RootJoin());
    if file.None? {
      assert Appended(old(queue.imports), old(queue.seenIndex), queue.imports, queue.seenIndex, []);
      assert Paths([]) == {};
      return None, false;
    }
    var deps := ReadDependencies(file.value, disk);
    var dependencyIDs;
    dependencyIDs, fatal := QueueDependencies(queue, imp, deps);
    if fatal {
      return None, true;
    }
    link := Some(DependencyLink(imp.Path(), dependencyIDs));
  }

  /** Paths of a concatenation. */
  lemma PathsConcat(a: seq<Import>, b: seq<Import>)
    ensures Paths(a + b) == Paths(a) + Paths(b)
  {
    var s := a + b;
    forall p | p in Paths(a) ensures p in Paths(s) {
      var i :| 0 <= i < |a| && a[i].Path() == p;
      assert s[i] == a[i];
    }
    forall p | p in Paths(b) ensures p in Paths(s) {
      var i :| 0 <= i < |b| && b[i].Path() == p;
      assert s[|a| + i] == b[i];
    }
  }

  /** The queued paths and the followed paths split the seen paths between them. */
  ghost predicate Partition(queued: seq<Import>, followed: set<string>, seen: map<string, Import>) {
    Paths(queued) !! followed && Paths(queued) + followed == seen.Keys
  }

  /** Following the front import moves its path from the queue to the followed ones; the new paths join the queue. */
  lemma PartitionStep(queued: seq<Import>, followed: set<string>, seen: map<string, Import>,
                      seen': map<string, Import>, added: seq<Import>)
    requires |queued| > 0 && Partition(queued, followed, seen)
    requires forall j :: 0 < j < |queued| ==> queued[j].Path() != queued[0].Path()
    requires Grown(seen, seen') && Paths(added) == seen'.Keys - seen.Keys
    ensures Partition(queued[1..] + added, followed + {queued[0].Path()}, seen')
  {
    var k := queued[0].Path();
    var rest := Paths(queued[1..]);
    PathsConcat(queued[1..], added);
    PathsConcat([queued[0]], queued[1..]);
    assert queued == [queued[0]] + queued[1..];
    assert Paths([queued[0]]) == {k};
    assert Paths(queued) == {k} + rest;
    forall j | 0 <= j < |queued[1..]|
      ensures queued[1..][j].Path() != k
    {
      assert queued[1..][j] == queued[j + 1];
    }
    assert k !in rest;
    assert k in seen.Keys;
    assert Paths(added) !! seen.Keys;
  }

  /**
    What following an import amounts to: the link it emits (when its file
    is found), whether its relative dependencies can be resolved, and the
    paths they resolve to.
   */
  datatype Outcome = Outcome(link: Option<DependencyLink>, resolvable: bool, targets: set<string>)

  function OutcomeOf(ws: Workspace, disk: Disk, imp: Import): (o: Outcome)
    ensures o.link.Some? <==> FileFor(ws, disk, imp).Some?
  {
    var deps := DepsOf(ws, disk, imp);
    Outcome(if FileFor(ws, disk, imp).Some? then Some(LinkOf(ws, disk, imp)) else None,
            Resolvable(imp, deps),
            if Resolvable(imp, deps) then ResolvedPaths(imp, deps) else {})
  }

  /** Every followed import could be resolved, and everything it resolves to has been seen. */
  ghost predicate Closed(outcome: Import -> Outcome, followed: set<string>, seen: map<string, Import>)
    requires followed <= seen.Keys
  {
    forall k :: k in followed ==> outcome(seen[k]).resolvable && outcome(seen[k]).targets <= seen.Keys
  }

  /** One link per followed import whose file was found, each that import's link, ids distinct. */
  ghost predicate Linked(outcome: Import -> Outcome, links: seq<DependencyLink>, followed: set<string>,
                         found: set<string>, seen: map<string, Import>)
    requires followed <= seen.Keys
  {
    && found <= followed
    && (forall k :: k in followed ==> (k in found <==> outcome(seen[k]).link.Some?))
    && (forall i :: 0 <= i < |links| ==> links[i].id in found && outcome(seen[links[i].id]).link == Some(links[i]))
    && (forall k :: k in found ==> exists i :: 0 <= i < |links| && links[i].id == k)
    && (forall i, j :: 0 <= i < j < |links| ==> links[i].id != links[j].id)
  }

  /** Facts about followed imports survive the seen index growing. */
  lemma GrownKeeps(outcome: Import -> Outcome, links: seq<DependencyLink>, followed: set<string>,
                   found: set<string>, seen: map<string, Import>, seen': map<string, Import>)
    requires followed <= seen.Keys && Grown(seen, seen')
    requires Closed(outcome, followed, seen) && Linked(outcome, links, followed, found, seen)
    ensures Closed(outcome, followed, seen') && Linked(outcome, links, followed, found, seen')
  {
    assert forall k :: k in followed ==> seen'[k] == seen[k];
  }

  /** Following one more import keeps the walk closed. */
  lemma ClosedStep(outcome: Import -> Outcome, followed: set<string>, seen: map<string, Import>, k: string)
    requires followed <= seen.Keys && k in seen
    requires Closed(outcome, followed, seen)
    requires outcome(seen[k]).resolvable && outcome(seen[k]).targets <= seen.Keys
    ensures Closed(outcome, followed + {k}, seen)
  {
  }

  /** Following one more import adds its link exactly when its file is found. */
  lemma LinkedStep(outcome: Import -> Outcome, links: seq<DependencyLink>, followed: set<string>,
                   found: set<string>, seen: map<string, Import>, k: string)
    requires followed <= seen.Keys && k in seen && k !in followed
    requires Linked(outcome, links, followed, found, seen)
    requires outcome(seen[k]).link.Some? ==> outcome(seen[k]).link.value.id == k
    ensures var link := outcome(seen[k]).link;
            && (link.Some? ==> Linked(outcome, links + [link.value], followed + {k}, found + {k}, seen))
            && (link.None? ==> Linked(outcome, links, followed + {k}, found, seen))
  {
    var link := outcome(seen[k]).link;
    if link.Some? {
      var links' := links + [link.value];
      assert links'[|links|].id == k;
      forall j | j in found + {k}
        ensures exists i :: 0 <= i < |links'| && links'[i].id == j
      {
        if j == k {
          assert links'[|links|].id == j;
        } else {
          var i :| 0 <= i < |links| && links[i].id == j;
          assert links'[i].id == j;
        }
      }
    }
  }

  /**
    A chain of seen paths from the entry: each path but the last has been
    followed and resolves to the next one.
   */
  ghost predicate PathChain(outcome: Import -> Outcome, seen: map<string, Import>, followed: set<string>,
                            entry: Import, c: seq<string>) {
    && |c| > 0 && c[0] == entry.Path()
    && (forall i :: 0 <= i < |c| ==> c[i] in seen)
    && (forall i :: 0 <= i < |c| - 1 ==> c[i] in followed && c[i + 1] in outcome(seen[c[i]]).targets)
  }

  /** Every seen path ends a chain from the entry. */
  ghost predicate Reached(outcome: Import -> Outcome, entry: Import, followed: set<string>, seen: map<string, Import>) {
    forall k :: k in seen ==> exists c :: PathChain(outcome, seen, followed, entry, c) && c[|c| - 1] == k
  }

  /** A chain stays one as the seen index and the followed paths grow. */
  lemma ChainGrows(outcome: Import -> Outcome, seen: map<string, Import>, followed: set<string>,
                   seen': map<string, Import>, followed': set<string>, entry: Import, c: seq<string>)
    requires Grown(seen, seen') && followed <= followed'
    requires PathChain(outcome, seen, followed, entry, c)
    ensures PathChain(outcome, seen', followed', entry, c)
  {
    forall i | 0 <= i < |c| - 1
      ensures c[i] in followed' && c[i + 1] in outcome(seen'[c[i]]).targets
    {
      assert seen'[c[i]] == seen[c[i]];
    }
  }

  /** A chain ending at a followed path extends by any seen path that path resolves to. */
  lemma ChainExtends(outcome: Import -> Outcome, seen: map<string, Import>, followed: set<string>,
                     entry: Import, c: seq<string>, q: string)
    requires PathChain(outcome, seen, followed, entry, c)
    requires q in seen && c[|c| - 1] in followed && q in outcome(seen[c[|c| - 1]]).targets
    ensures PathChain(outcome, seen, followed, entry, c + [q])
  {
    var c' := c + [q];
    forall i | 0 <= i < |c'| - 1
      ensures c'[i] in followed && c'[i + 1] in outcome(seen[c'[i]]).targets
    {
      if i + 1 < |c| {
        assert c'[i] == c[i] && c'[i + 1] == c[i + 1];
      }
    }
  }

  /**
    Following the seen path `k` keeps every seen path reached, provided
    the paths it adds to the seen index are among those `k` resolves to.
   */
  lemma ReachedStep(outcome: Import -> Outcome, entry: Import, followed: set<string>, seen: map<string, Import>,
                    seen': map<string, Import>, k: string)
    requires k in seen && Grown(seen, seen') && Reached(outcome, entry, followed, seen)
    requires seen'.Keys - seen.Keys <= outcome(seen[k]).targets
    ensures Reached(outcome, entry, followed + {k}, seen')
  {
    var followed' := followed + {k};
    forall q | q in seen'
      ensures exists c :: PathChain(outcome, seen', followed', entry, c) && c[|c| - 1] == q
    {
      if q in seen {
        var c :| PathChain(outcome, seen, followed, entry, c) && c[|c| - 1] == q;
        ChainGrows(outcome, seen, followed, seen', followed', entry, c);
      } else {
        var c :| PathChain(outcome, seen, followed, entry, c) && c[|c| - 1] == k;
        ChainGrows(outcome, seen, followed, seen', followed', entry, c);
        ChainExtends(outcome, seen', followed', entry, c, q);
        assert (c + [q])[|c|] == q;
      }
    }
  }

  /**
    A chain of imports from the entry, all among `imports`, each resolving
    to the path of the next one.
   */
  ghost predicate ImportChain(outcome: Import -> Outcome, imports: seq<Import>, entry: Import, c: seq<Import>) {
    && |c| > 0 && c[0] == entry
    && (forall i :: 0 <= i < |c| ==> c[i] in imports)
    && (forall i :: 0 <= i < |c| - 1 ==> c[i + 1].Path() in outcome(c[i]).targets)
  }

  /** A chain of seen paths gives the chain of the imports seen under them. */
  lemma ChainOfImports(outcome: Import -> Outcome, seen: map<string, Import>, followed: set<string>,
                       entry: Import, imports: seq<Import>, c: seq<string>) returns (chain: seq<Import>)
    requires PathChain(outcome, seen, followed, entry, c)
    requires seen[entry.Path()] == entry
    requires forall k :: k in seen ==> seen[k].Path() == k && seen[k] in imports
    ensures ImportChain(outcome, imports, entry, chain) && chain[|chain| - 1] == seen[c[|c| - 1]]
  {
    chain := seq(|c|, i requires 0 <= i < |c| => seen[c[i]]);
    forall i | 0 <= i < |c| - 1
      ensures chain[i + 1].Path() in outcome(chain[i]).targets
    {
      assert chain[i + 1].Path() == c[i + 1];
    }
  }

  /** Every import listed for the seen index ends a chain of imports from the entry. */
  lemma ReachableImports(outcome: Import -> Outcome, seen: map<string, Import>, followed: set<string>,
                         entry: Import, imports: seq<Import>)
    requires Reached(outcome, entry, followed, seen)
    requires entry.Path() in seen && seen[entry.Path()] == entry
    requires forall k :: k in seen ==> seen[k].Path() == k && seen[k] in imports
    requires forall i :: 0 <= i < |imports| ==> imports[i].Path() in seen && seen[imports[i].Path()] == imports[i]
    ensures forall imp :: imp in imports ==> exists c :: ImportChain(outcome, imports, entry, c) && c[|c| - 1] == imp
  {
    forall imp | imp in imports
      ensures exists c :: ImportChain(outcome, imports, entry, c) && c[|c| - 1] == imp
    {
      var c :| PathChain(outcome, seen, followed, entry, c) && c[|c| - 1] == imp.Path();
      var chain := ChainOfImports(outcome, seen, followed, entry, imports, c);
    }
  }

  /** The shape of the walk's state between two imports taken from the queue. */
  ghost predicate WalkShape(outcome: Import -> Outcome, bound: set<string>, entry: Import, imports: seq<Import>,
                            seen: map<string, Import>, links: seq<DependencyLink>, followed: set<string>, found: set<string>) {
    && entry.Path() in seen && seen[entry.Path()] == entry
    && Partition(imports, followed, seen)
    && found <= bound
    && Closed(outcome, followed, seen)
    && Linked(outcome, links, followed, found, seen)
  }

  /** What the walk keeps true between two imports taken from the queue: its shape, and every seen path reached. */
  ghost predicate WalkInvariant(outcome: Import -> Outcome, bound: set<string>, entry: Import, imports: seq<Import>,
                                seen: map<string, Import>, links: seq<DependencyLink>, followed: set<string>, found: set<string>) {
    && WalkShape(outcome, bound, entry, imports, seen, links, followed, found)
    && Reached(outcome, entry, followed, seen)
  }

  /** The outcome of an import is what follow does with it. */
  lemma FollowOutcome(ws: Workspace, disk: Disk, imp: Import, seen: map<string, Import>)
    requires Resolvable(imp, DepsOf(ws, disk, imp))
    requires forall r :: r in Resolved(imp, DepsOf(ws, disk, imp)) ==> r.Path() in seen
    ensures OutcomeOf(ws, disk, imp).resolvable && OutcomeOf(ws, disk, imp).targets <= seen.Keys
    ensures OutcomeOf(ws, disk, imp).link.Some? ==> OutcomeOf(ws, disk, imp).link.value.id == imp.Path()
  {
  }

  /** Takes the front import off the queue and follows it. */
  method TakeAndFollow(queue: ImportQueue, ws: Workspace, disk: Disk, ghost outcome: Import -> Outcome, ghost bound: set<string>)
    returns (imp: Import, link: Option<DependencyLink>, stop: bool)
    requires queue.Valid() && queue.NonEmpty()
    requires outcome(queue.imports[0]) == OutcomeOf(ws, disk, queue.imports[0])
    requires FileFor(ws, disk, queue.imports[0]).Some? ==> queue.imports[0].Path() in bound
    modifies queue
    ensures imp == old(queue.imports)[0]
    ensures stop <==> !outcome(imp).resolvable
    ensures !stop ==> queue.Valid() && Grown(old(queue.seenIndex), queue.seenIndex)
    ensures !stop ==> exists added: seq<Import> ::
              && Appended(old(queue.imports)[1..], old(queue.seenIndex), queue.imports, queue.seenIndex, added)
              && Paths(added) <= outcome(imp).targets
    ensures !stop ==> link == outcome(imp).link && outcome(imp).targets <= queue.seenIndex.Keys
    ensures !stop && link.None? ==> queue.imports == old(queue.imports)[1..]
    ensures !stop && link.Some? ==> link.value.id == imp.Path() && imp.Path() in bound
  {
    var ok, next := queue.Pop();
    imp := next.value;
    link, stop := Follow(queue, ws, disk, imp);
    if !stop {
      FollowOutcome(ws, disk, imp, queue.seenIndex);
    }
  }

  /**
    Following the front import of the queue keeps the shape of the walk:
    its path moves from the queue to the followed ones, and its link, if
    any, joins the links.
   */
  lemma ShapeStep(outcome: Import -> Outcome, bound: set<string>, entry: Import, queued: seq<Import>,
                  seen: map<string, Import>, links: seq<DependencyLink>, followed: set<string>, found: set<string>,
                  imports': seq<Import>, seen': map<string, Import>, added: seq<Import>)
    requires |queued| > 0 && queued[0].Path() in seen && seen[queued[0].Path()] == queued[0]
    requires forall j :: 0 < j < |queued| ==> queued[j].Path() != queued[0].Path()
    requires WalkShape(outcome, bound, entry, queued, seen, links, followed, found)
    requires Grown(seen, seen') && Appended(queued[1..], seen, imports', seen', added)
    requires outcome(queued[0]).resolvable && outcome(queued[0]).targets <= seen'.Keys
    requires outcome(queued[0]).link.Some? ==> outcome(queued[0]).link.value.id == queued[0].Path() && queued[0].Path() in bound
    ensures var link := outcome(queued[0]).link;
            var k := queued[0].Path();
            WalkShape(outcome, bound, entry, imports', seen',
                      if link.Some? then links + [link.value] else links, followed + {k},
                      if link.Some? then found + {k} else found)
    ensures outcome(queued[0]).link.Some? ==> |bound - (found + {queued[0].Path()})| < |bound - found|
  {
    var k := queued[0].Path();
    PartitionStep(queued, followed, seen, seen', added);
    GrownKeeps(outcome, links, followed, found, seen, seen');
    assert k !in followed;
    ClosedStep(outcome, followed, seen', k);
    LinkedStep(outcome, links, followed, found, seen', k);
    if outcome(queued[0]).link.Some? {
      assert bound - (found + {k}) < bound - found;
    }
  }

  /** Following the front import of the queue keeps the walk invariant. */
  lemma WalkBookkeeping(outcome: Import -> Outcome, bound: set<string>, entry: Import, queued: seq<Import>,
                        seen: map<string, Import>, links: seq<DependencyLink>, followed: set<string>, found: set<string>,
                        imports': seq<Import>, seen': map<string, Import>)
    requires |queued| > 0 && queued[0].Path() in seen && seen[queued[0].Path()] == queued[0]
    requires forall j :: 0 < j < |queued| ==> queued[j].Path() != queued[0].Path()
    requires WalkInvariant(outcome, bound, entry, queued, seen, links, followed, found)
    requires Grown(seen, seen')
    requires exists added :: Appended(queued[1..], seen, imports', seen', added) && Paths(added) <= outcome(queued[0]).targets
    requires outcome(queued[0]).resolvable && outcome(queued[0]).targets <= seen'.Keys
    requires outcome(queued[0]).link.Some? ==> outcome(queued[0]).link.value.id == queued[0].Path() && queued[0].Path() in bound
    ensures var link := outcome(queued[0]).link;
            var k := queued[0].Path();
            WalkInvariant(outcome, bound, entry, imports', seen',
                          if link.Some? then links + [link.value] else links, followed + {k},
                          if link.Some? then found + {k} else found)
    ensures outcome(queued[0]).link.Some? ==> |bound - (found + {queued[0].Path()})| < |bound - found|
  {
    var k := queued[0].Path();
    var added :| Appended(queued[1..], seen, imports', seen', added) && Paths(added) <= outcome(queued[0]).targets;
    ShapeStep(outcome, bound, entry, queued, seen, links, followed, found, imports', seen', added);
    ReachedStep(outcome, entry, followed, seen, seen', k);
  }

  /** One round of the walk: the front import is taken from the queue and followed. */
  method WalkStep(queue: ImportQueue, ws: Workspace, disk: Disk, links: seq<DependencyLink>, ghost outcome: Import -> Outcome,
                  ghost bound: set<string>, ghost entry: Import, ghost followed: set<string>, ghost found: set<string>)
    returns (links': seq<DependencyLink>, stoppedAt: Option<Import>, ghost followed': set<string>, ghost found': set<string>)
    requires queue.Valid() && queue.NonEmpty()
    requires outcome(queue.imports[0]) == OutcomeOf(ws, disk, queue.imports[0])
    requires FileFor(ws, disk, queue.imports[0]).Some? ==> queue.imports[0].Path() in bound
    requires WalkInvariant(outcome, bound, entry, queue.imports, queue.seenIndex, links, followed, found)
    modifies queue
    ensures stoppedAt.Some? ==> !outcome(stoppedAt.value).resolvable
    ensures stoppedAt.None? ==> queue.Valid()
    ensures stoppedAt.None? ==>
              WalkInvariant(outcome, bound, entry, queue.imports, queue.seenIndex, links', followed', found')
    ensures stoppedAt.None? ==>
              || |bound - found'| < |bound - found|
              || (found' == found && |queue.imports| < old(|queue.imports|))
  {
    ghost var queued := queue.imports;
    ghost var seen := queue.seenIndex;
    var imp, link, stop := TakeAndFollow(queue, ws, disk, outcome, bound);
    if stop {
      return links, Some(imp), followed, found;
    }
    WalkBookkeeping(outcome, bound, entry, queued, seen, links, followed, found, queue.imports, queue.seenIndex);
    links', found' := links, found;
    if link.Some? {
      links', found' := links + [link.value], found + {imp.Path()};
    }
    followed' := followed + {imp.Path()};
    stoppedAt := None;
  }

  /** The walk starts with only the entry queued and seen, and nothing followed. */
  lemma WalkStart(outcome: Import -> Outcome, bound: set<string>, entry: Import)
    ensures WalkInvariant(outcome, bound, entry, [entry], map[entry.Path() := entry], [], {}, {})
  {
    PathsSnoc([], entry);
    assert PathChain(outcome, map[entry.Path() := entry], {}, entry, [entry.Path()]);
  }

  /** The loop of followDependencyGraph: follows imports until the queue is empty or the program stops. */
  method Walk(queue: ImportQueue, ws: Workspace, disk: Disk, ghost outcome: Import -> Outcome,
              ghost bound: set<string>, ghost entry: Import)
    returns (links: seq<DependencyLink>, stoppedAt: Option<Import>, ghost followed: set<string>, ghost found: set<string>)
    requires queue.Valid()
    requires forall imp {:trigger OutcomeOf(ws, disk, imp)} :: outcome(imp) == OutcomeOf(ws, disk, imp)
    requires forall imp {:trigger FileFor(ws, disk, imp)} :: FileFor(ws, disk, imp).Some? ==> imp.Path() in bound
    requires WalkInvariant(outcome, bound, entry, queue.imports, queue.seenIndex, [], {}, {})
    modifies queue
    ensures stoppedAt.Some? ==> !OutcomeOf(ws, disk, stoppedAt.value).resolvable
    ensures stoppedAt.None? ==> queue.Valid() && WalkInvariant(outcome, bound, entry, [], queue.seenIndex, links, followed, found)
  {
    links, followed, found := [], {}, {};
    while queue.NonEmpty()
      invariant queue.Valid()
      invariant WalkInvariant(outcome, bound, entry, queue.imports, queue.seenIndex, links, followed, found)
      decreases |bound - found|, |queue.imports|
    {
      assert outcome(queue.imports[0]) == OutcomeOf(ws, disk, queue.imports[0]);
      links, stoppedAt, followed, found := WalkStep(queue, ws, disk, links, outcome, bound, entry, followed, found);
      if stoppedAt.Some? {
        assert outcome(stoppedAt.value) == OutcomeOf(ws, disk, stoppedAt.value);
        return;
      }
    }
    stoppedAt := None;
  }

  /** What the shape of the walk gives once the queue is empty. */
  lemma ShapeResult(outcome: Import -> Outcome, bound: set<string>, entry: Import, seen: map<string, Import>,
                    links: seq<DependencyLink>, followed: set<string>, found: set<string>, imports: seq<Import>)
    requires WalkShape(outcome, bound, entry, [], seen, links, followed, found)
    requires forall k :: k in seen ==> seen[k].Path() == k
    requires forall k :: k in seen ==> seen[k] in imports
    requires forall i :: 0 <= i < |imports| ==> imports[i].Path() in seen && seen[imports[i].Path()] == imports[i]
    ensures entry in imports
    ensures forall imp :: imp in imports ==>
              outcome(imp).resolvable && forall t :: t in outcome(imp).targets ==> exists other :: other in imports && other.Path() == t
    ensures forall imp :: imp in imports ==> (outcome(imp).link.Some? <==> exists l :: l in links && l.id == imp.Path())
    ensures forall l :: l in links ==> exists imp :: imp in imports && outcome(imp).link == Some(l)
    ensures forall i, j :: 0 <= i < j < |links| ==> links[i].id != links[j].id
  {
    assert Paths([]) == {};
    assert followed == seen.Keys;
    forall imp | imp in imports
      ensures outcome(imp).resolvable && forall t :: t in outcome(imp).targets ==> exists other :: other in imports && other.Path() == t
      ensures outcome(imp).link.Some? <==> exists l :: l in links && l.id == imp.Path()
    {
      assert seen[imp.Path()] == imp;
      forall t | t in outcome(imp).targets
        ensures exists other :: other in imports && other.Path() == t
      {
        var other := seen[t];
        assert other in imports;
      }
      if outcome(imp).link.Some? {
        var j :| 0 <= j < |links| && links[j].id == imp.Path();
        assert links[j] in links;
      }
    }
    forall l | l in links
      ensures exists imp :: imp in imports && outcome(imp).link == Some(l)
    {
      var imp := seen[l.id];
      assert imp in imports;
    }
  }

  /** What the walk returns once the queue is empty. */
  lemma WalkResult(outcome: Import -> Outcome, bound: set<string>, entry: Import, seen: map<string, Import>,
                   links: seq<DependencyLink>, followed: set<string>, found: set<string>, imports: seq<Import>)
    requires WalkInvariant(outcome, bound, entry, [], seen, links, followed, found)
    requires forall k :: k in seen ==> seen[k].Path() == k
    requires forall k :: k in seen ==> seen[k] in imports
    requires forall i :: 0 <= i < |imports| ==> imports[i].Path() in seen && seen[imports[i].Path()] == imports[i]
    ensures entry in imports
    ensures forall imp :: imp in imports ==>
              outcome(imp).resolvable && forall t :: t in outcome(imp).targets ==> exists other :: other in imports && other.Path() == t
    ensures forall imp :: imp in imports ==> (outcome(imp).link.Some? <==> exists l :: l in links && l.id == imp.Path())
    ensures forall l :: l in links ==> exists imp :: imp in imports && outcome(imp).link == Some(l)
    ensures forall i, j :: 0 <= i < j < |links| ==> links[i].id != links[j].id
    ensures forall imp :: imp in imports ==> exists c :: ImportChain(outcome, imports, entry, c) && c[|c| - 1] == imp
  {
    ShapeResult(outcome, bound, entry, seen, links, followed, found, imports);
    ReachableImports(outcome, seen, followed, entry, imports);
  }

  /** What following does with each import, as one function. */
  ghost function Outcomes(ws: Workspace, disk: Disk): Import -> Outcome {
    imp => OutcomeOf(ws, disk, imp)
  }

  /**
    followDependencyGraph: walks breadth-first from the entry file (its '\\'
    turned into '/'), following each seen path once. Without `stoppedAt`
    the result lists every import seen, once each, including the entry;
    each is reached from the entry through a chain of imports among them;
    everything an import resolves to is among them; and there is one link
    per import whose file was found. `stoppedAt` is the import at which
    the program stopped in toRootRelativeImport; nothing is returned then.
   */
  method FollowDependencyGraph(ws: Workspace, disk: Disk, entryFileRelativePath: string)
    returns (imports: seq<Import>, links: seq<DependencyLink>, stoppedAt: Option<Import>)
    ensures stoppedAt.Some? ==> imports == [] && links == [] && !OutcomeOf(ws, disk, stoppedAt.value).resolvable
    ensures stoppedAt.None? ==> NewDepImport(ReplaceChar(entryFileRelativePath, '\\', '/')) in imports
    ensures forall i, j :: 0 <= i < j < |imports| ==> imports[i].Path() != imports[j].Path()
    ensures forall imp :: imp in imports ==>
              && OutcomeOf(ws, disk, imp).resolvable
              && forall t :: t in OutcomeOf(ws, disk, imp).targets ==> exists other :: other in imports && other.Path() == t
    ensures forall imp :: imp in imports ==> (OutcomeOf(ws, disk, imp).link.Some? <==> exists l :: l in links && l.id == imp.Path())
    ensures forall l :: l in links ==> exists imp :: imp in imports && OutcomeOf(ws, disk, imp).link == Some(l)
    ensures forall i, j :: 0 <= i < j < |links| ==> links[i].id != links[j].id
    ensures forall imp :: imp in imports ==>
              exists c :: ImportChain(Outcomes(ws, disk), imports, NewDepImport(ReplaceChar(entryFileRelativePath, '\\', '/')), c)
                          && c[|c| - 1] == imp
  {
    ghost var outcome := Outcomes(ws, disk);
    var queue := new ImportQueue();
    links := [];
    var entryPath := ReplaceChar(entryFileRelativePath, '\\', '/');
    queue.PushPath(entryPath);
    ghost var entry := NewDepImport(entryPath);
    ghost var bound := Findable(ws, disk);
    FindableBound(ws, disk);
    WalkStart(outcome, bound, entry);
    assert queue.imports == [entry] && queue.seenIndex == map[entry.Path() := entry];
    ghost var followed, found;
    links, stoppedAt, followed, found := Walk(queue, ws, disk, outcome, bound, entry);
    if stoppedAt.Some? {
      return [], [], stoppedAt;
    }
    imports := queue.OutputImports();
    WalkResult(outcome, bound, entry, queue.seenIndex, links, followed, found, imports);
    stoppedAt := None;
  }
}
