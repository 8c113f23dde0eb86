/**
  The queue of imports still to visit during the dependency walk
  (dep/ImportQueue.go): first in, first out, with an index of every import
  ever pushed, keyed by its path, so that no path is queued twice.
 */
module ImportQueues {
  import opened Wrappers
  import opened Imports
  import GoMaps

  /** The set of paths of a sequence of imports. */
  function Paths(imports: seq<Import>): (r: set<string>)
    ensures forall i :: 0 <= i < |imports| ==> imports[i].Path() in r
    ensures forall p :: p in r ==> exists i :: 0 <= i < |imports| && imports[i].Path() == p
  {
    set i | 0 <= i < |imports| :: imports[i].Path()
  }

  class ImportQueue {
    /** The imports still to visit, front first. */
    var imports: seq<Import>
    /** Every import ever pushed, under its path. */
    var seenIndex: map<string, Import>

    /**
      Every queued import is recorded under its path, no two queued imports
      share a path, and every record sits under its own path.
     */
    ghost predicate Valid()
      reads this
    {
      && (forall i :: 0 <= i < |imports| ==> imports[i].Path() in seenIndex && seenIndex[imports[i].Path()] == imports[i])
      && (forall i, j :: 0 <= i < j < |imports| ==> imports[i].Path() != imports[j].Path())
      && (forall k :: k in seenIndex ==> seenIndex[k].Path() == k)
    }

    /** newImportQueue: nothing queued, nothing seen. */
    constructor ()
      ensures Valid()
      ensures imports == [] && seenIndex == map[]
    {
      imports := [];
      seenIndex := map[];
    }

    /** seen */
    predicate Seen(p: string)
      reads this
    {
      p in seenIndex
    }

    /** count */
    function Count(): nat
      reads this
    {
      |imports|
    }

    /** nonEmpty */
    predicate NonEmpty()
      reads this
    {
      |imports| > 0
    }

    /**
      push: an import whose path is unseen is recorded and appended at the
      back; otherwise nothing changes.
     */
    method Push(imp: Import)
      requires Valid()
      modifies this
      ensures Valid()
      ensures old(Seen(imp.Path())) ==> imports == old(imports) && seenIndex == old(seenIndex)
      ensures !old(Seen(imp.Path())) ==>
                imports == old(imports) + [imp] && seenIndex == old(seenIndex)[imp.Path() := imp]
    {
      if !Seen(imp.Path()) {
        seenIndex := seenIndex[imp.Path() := imp];
        imports := imports + [imp];
      }
    }

    /**
      pushPath: a seen path changes nothing; otherwise newImport of the path
      is pushed, which again changes nothing when the import's own path
      (which can differ from the text pushed) is already seen.
     */
    method PushPath(importPath: string)
      requires Valid()
      modifies this
      ensures Valid()
      ensures var imp := NewDepImport(importPath);
              if old(Seen(importPath)) || old(Seen(imp.Path())) then
                imports == old(imports) && seenIndex == old(seenIndex)
              else
                imports == old(imports) + [imp] && seenIndex == old(seenIndex)[imp.Path() := imp]
    {
      if !Seen(importPath) {
        Push(NewDepImport(importPath));
      }
    }

    /**
      pop: removes and returns the front import; on an empty queue it
      reports failure and changes nothing. The seen index is never shrunk.
     */
    method Pop() returns (ok: bool, imp: Option<Import>)
      requires Valid()
      modifies this
      ensures Valid()
      ensures ok <==> old(|imports|) > 0
      ensures ok ==> imp == Some(old(imports)[0]) && imports == old(imports)[1..]
      ensures !ok ==> imp == None && imports == old(imports)
      ensures seenIndex == old(seenIndex)
    {
      if Count() > 0 {
        imp := Some(imports[0]);
        imports := imports[1..];
        return true, imp;
      }
      return false, None;
    }

    /**
      OutputImports: every import ever pushed, each exactly once, in no
      particular order (Go ranges over the map).
     */
    method OutputImports() returns (outputs: seq<Import>)
      requires Valid()
      ensures |outputs| == |seenIndex|
      ensures forall k :: k in seenIndex ==> seenIndex[k] in outputs
      ensures forall i :: 0 <= i < |outputs| ==> outputs[i].Path() in seenIndex && seenIndex[outputs[i].Path()] == outputs[i]
      ensures forall i, j :: 0 <= i < j < |outputs| ==> outputs[i].Path() != outputs[j].Path()
    {
      ghost var keys;
      outputs, keys := GoMaps.Values(seenIndex);
    }
  }

  /** The queue hands imports out in the order they were pushed. */
  method FifoVector(a: Import, b: Import) returns (first: Option<Import>, second: Option<Import>)
    requires a.Path() != b.Path()
    ensures first == Some(a) && second == Some(b)
  {
    var queue := new ImportQueue();
    queue.Push(a);
    queue.Push(b);
    var ok;
    ok, first := queue.Pop();
    ok, second := queue.Pop();
  }

  /**
    A pushed path stays seen after it is popped, and an unpushed one is not
    seen: for a plain file name such as "abcd" and another path such as "efgh".
   */
  method SeenImportVector(p: string, q: string) returns (seenBeforePop: bool, seenAfterPop: bool, seenOther: bool)
    requires p != "" && '/' !in p && '#' !in p && q != p
    ensures seenBeforePop && seenAfterPop && !seenOther
  {
    var queue := new ImportQueue();
    SoloPath(p);
    queue.PushPath(p);
    seenBeforePop := queue.Seen(p);
    var ok, front := queue.Pop();
    seenAfterPop := queue.Seen(p);
    seenOther := queue.Seen(q);
  }

  /** Pushing the same path twice queues it once. */
  method UniqueDependencyVector(p: string) returns (countAfterFirst: nat, countAfterSecond: nat)
    requires p == "abcd"
    ensures countAfterFirst == 1 && countAfterSecond == 1
  {
    var queue := new ImportQueue();
    SoloPath(p);
    queue.PushPath(p);
    countAfterFirst := queue.Count();
    queue.PushPath(p);
    countAfterSecond := queue.Count();
  }

  /** Three distinct imports, one pushed twice: each is output once. */
  method OutputImportsVector(a: Import, b: Import, c: Import) returns (outputs: seq<Import>)
    requires a.Path() != b.Path() && b.Path() != c.Path() && a.Path() != c.Path()
    ensures |outputs| == 3 && a in outputs && b in outputs && c in outputs
  {
    var queue := new ImportQueue();
    queue.Push(a);
    assert queue.seenIndex.Keys == {a.Path()};
    queue.Push(b);
    assert queue.seenIndex.Keys == {a.Path(), b.Path()};
    queue.Push(c);
    assert queue.seenIndex.Keys == {a.Path(), b.Path(), c.Path()};
    queue.Push(a);
    outputs := queue.OutputImports();
    ThreeKeys(queue.seenIndex, a.Path(), b.Path(), c.Path());
  }

  /** A map whose keys are three distinct values has three entries. */
  lemma ThreeKeys<K, V>(m: map<K, V>, x: K, y: K, z: K)
    requires m.Keys == {x, y, z} && x != y && y != z && x != z
    ensures |m| == 3
  {
    assert m.Keys == {x} + {y} + {z};
  }
}
