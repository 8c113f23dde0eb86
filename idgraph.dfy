/**
  The dependency graph used to order files (source/IDGraph.go): a map from
  each id to the ids it depends on, mirrored by a map from each id to the ids
  that depend on it, and a Kahn-style topological sort driven by a stack of
  ids whose dependencies have all been emitted.

  Go's map iteration order is not fixed: where the source ranges over a map,
  the model takes the order as a parameter (`order`) or chooses it freely, and
  the contracts say only what holds for every order.
 */
module IdGraph {

  /** A Go map lookup: a missing key reads as the nil (empty) slice. */
  function Lookup(m: map<string, seq<string>>, k: string): seq<string> {
    if k in m then m[k] else []
  }

  predicate Distinct(s: seq<string>) {
    forall i, j :: 0 <= i < j < |s| ==> s[i] != s[j]
  }

  /** The `add` closure of newIDGraph: append `to` to the slice under `from`. */
  function Appended(m: map<string, seq<string>>, from: string, to: string): map<string, seq<string>> {
    m[from := Lookup(m, from) + [to]]
  }

  /** `id` occurs in `rev[d]` exactly as often as `d` occurs in `fwd[id]`. */
  ghost predicate Mirrored(fwd: map<string, seq<string>>, rev: map<string, seq<string>>) {
    forall d, id {:trigger multiset(Lookup(fwd, id))[d]} ::
      multiset(Lookup(fwd, id))[d] == multiset(Lookup(rev, d))[id]
  }

  /** The ids with no dependencies, in input order (identifyIndependentIDs). */
  function Independent(edges: map<string, seq<string>>, ids: seq<string>): (r: seq<string>)
  {
    if ids == [] then []
    else (if Lookup(edges, ids[0]) == [] then [ids[0]] else []) + Independent(edges, ids[1..])
  }

  /** An id is independent exactly when it is one of the ids and has no dependencies. */
  lemma {:induction false} IndependentMembers(edges: map<string, seq<string>>, ids: seq<string>)
    ensures forall x :: x in Independent(edges, ids) <==> x in ids && Lookup(edges, x) == []
    ensures |Independent(edges, ids)| <= |ids|
    ensures Distinct(ids) ==> Distinct(Independent(edges, ids))
  {
    if ids != [] {
      IndependentMembers(edges, ids[1..]);
      assert ids == [ids[0]] + ids[1..];
      if Distinct(ids) {
        assert Distinct(ids[1..]);
        assert ids[0] !in ids[1..];
      }
    }
  }

  // ---------------------------------------------------------------------
  // stringStack: a slice used as a LIFO stack.

  function Push(s: seq<string>, value: string): seq<string> {
    s + [value]
  }

  function Pop(s: seq<string>): (seq<string>, string)
    requires |s| > 0
  {
    (s[..|s| - 1], s[|s| - 1])
  }

  /** Popping returns the value pushed last and the stack as it was before. */
  lemma PopPush(s: seq<string>, value: string)
    ensures Pop(Push(s, value)) == (s, value)
  {
  }

  // ---------------------------------------------------------------------
  // Removing one dependency by swapping in the last one.

  /** The slice after `dependencies[i] = dependencies[len-1]` and truncation by one. */
  function SwapRemove(s: seq<string>, i: nat): (r: seq<string>)
    requires i < |s|
  {
    s[i := s[|s| - 1]][..|s| - 1]
  }

  /** Swap-removal takes exactly one occurrence of `s[i]` out of the slice. */
  lemma SwapRemoveMultiset(s: seq<string>, i: nat)
    requires i < |s|
    ensures |SwapRemove(s, i)| == |s| - 1
    ensures multiset(SwapRemove(s, i)) == multiset(s) - multiset{s[i]}
  {
    var last := |s| - 1;
    if i == last {
      assert s == s[..last] + [s[last]];
    } else {
      assert s == s[..i] + [s[i]] + s[i + 1..last] + [s[last]];
      assert SwapRemove(s, i) == s[..i] + [s[last]] + s[i + 1..last];
    }
  }

  /** The first index of `x` in `s`. */
  function FirstIndex(s: seq<string>, x: string): (i: nat)
    requires x in s
    ensures i < |s| && s[i] == x && forall k :: 0 <= k < i ==> s[k] != x
  {
    if s[0] == x then 0 else 1 + FirstIndex(s[1..], x)
  }

  /** Appending `to` under `from` adds one `to` to the multiset under `from` and changes no other key. */
  lemma AppendedMultiset(m: map<string, seq<string>>, from: string, to: string, k: string)
    ensures multiset(Lookup(Appended(m, from, to), k))
            == multiset(Lookup(m, k)) + (if k == from then multiset{to} else multiset{})
  {
  }

  /** Adding an edge and its reverse together keeps the two maps mirrored. */
  lemma AppendedMirrored(fwd: map<string, seq<string>>, rev: map<string, seq<string>>, id: string, d: string)
    requires Mirrored(fwd, rev)
    ensures Mirrored(Appended(fwd, id, d), Appended(rev, d, id))
  {
    var fwd', rev' := Appended(fwd, id, d), Appended(rev, d, id);
    forall x, y ensures multiset(Lookup(fwd', y))[x] == multiset(Lookup(rev', x))[y] {
      AppendedMultiset(fwd, id, d, y);
      AppendedMultiset(rev, d, id, x);
    }
  }

  /** The inner loop of newIDGraph: one edge per dependency, each with its reverse. */
  method AddEdges(e: map<string, seq<string>>, r: map<string, seq<string>>, id: string, dependencyIDs: seq<string>)
    returns (e': map<string, seq<string>>, r': map<string, seq<string>>)
    requires Mirrored(e, r)
    ensures Mirrored(e', r')
    ensures e' == if dependencyIDs == [] then e else e[id := Lookup(e, id) + dependencyIDs]
  {
    e', r' := e, r;
    var j := 0;
    while j < |dependencyIDs|
      invariant 0 <= j <= |dependencyIDs|
      invariant Mirrored(e', r')
      invariant e' == if j == 0 then e else e[id := Lookup(e, id) + dependencyIDs[..j]]
    {
      var did := dependencyIDs[j];
      assert dependencyIDs[..j + 1] == dependencyIDs[..j] + [did];
      assert Lookup(e', id) == Lookup(e, id) + dependencyIDs[..j];
      assert (Lookup(e, id) + dependencyIDs[..j]) + [did] == Lookup(e, id) + dependencyIDs[..j + 1];
      AppendedMirrored(e', r', id, did);
      e' := Appended(e', id, did);
      r' := Appended(r', did, id);
      j := j + 1;
    }
    assert dependencyIDs[..j] == dependencyIDs;
  }

  /** makeHashset */
  method MakeHashset(ids: seq<string>) returns (hashset: set<string>)
    ensures forall y :: y in hashset <==> y in ids
  {
    hashset := {};
    var i := 0;
    while i < |ids|
      invariant 0 <= i <= |ids|
      invariant forall y :: y in hashset <==> y in ids[..i]
    {
      assert ids[..i + 1] == ids[..i] + [ids[i]];
      hashset := hashset + {ids[i]};
      i := i + 1;
    }
    assert ids[..i] == ids;
  }

  /** stringHashset.removeAll */
  method RemoveAll(hashset: set<string>, ids: seq<string>) returns (rest: set<string>)
    ensures forall y :: y in rest <==> y in hashset && y !in ids
  {
    rest := hashset;
    var i := 0;
    while i < |ids|
      invariant 0 <= i <= |ids|
      invariant forall y :: y in rest <==> y in hashset && y !in ids[..i]
    {
      assert ids[..i + 1] == ids[..i] + [ids[i]];
      rest := rest - {ids[i]};
      i := i + 1;
    }
    assert ids[..i] == ids;
  }

  /** stringHashset.ids: every member exactly once, in the map's (unspecified) order. */
  method SetToSeq(hashset: set<string>) returns (ids: seq<string>)
    ensures Distinct(ids) && forall y :: y in ids <==> y in hashset
  {
    ids := [];
    var rest := hashset;
    while rest != {}
      invariant Distinct(ids)
      invariant forall y :: y in hashset <==> y in ids || y in rest
      invariant forall y :: !(y in ids && y in rest)
      decreases |rest|
    {
      var y :| y in rest;
      ids := ids + [y];
      rest := rest - {y};
    }
  }

  /** Every id mentioned by an edge of `e` is in `idset`. */
  ghost predicate ClosedOver(e: map<string, seq<string>>, idset: set<string>) {
    && (forall y, d :: d in Lookup(e, y) ==> y in idset)
    && (forall y, d {:trigger d in Lookup(e, y)} :: d in Lookup(e, y) ==> d in idset)
  }

  /**
    How often each id still occurs among the dependencies of each id: as in
    `e0` for ids not yet emitted, never for emitted ones.
   */
  ghost predicate Counts(e: map<string, seq<string>>, e0: map<string, seq<string>>, popped: set<string>) {
    forall y, d {:trigger multiset(Lookup(e, y))[d]} ::
      multiset(Lookup(e, y))[d] == if d in popped then 0 else multiset(Lookup(e0, y))[d]
  }

  /** As Counts, while the dependents of the emitted id `x` still to be visited are `rest`. */
  ghost predicate Counting(e: map<string, seq<string>>, e0: map<string, seq<string>>, popped: set<string>,
                           x: string, rest: seq<string>) {
    forall y, d {:trigger multiset(Lookup(e, y))[d]} :: multiset(Lookup(e, y))[d]
      == if d == x then multiset(rest)[y] else if d in popped then 0 else multiset(Lookup(e0, y))[d]
  }

  /**
    The stack holds distinct, unemitted ids with no dependencies left; every
    other unemitted id still has some; emitted ids have none.
   */
  ghost predicate Ready(e: map<string, seq<string>>, stack: seq<string>, idset: set<string>, popped: set<string>) {
    && Distinct(stack)
    && (forall i :: 0 <= i < |stack| ==> stack[i] in idset && stack[i] !in popped && Lookup(e, stack[i]) == [])
    && (forall y :: y in idset && y !in popped && y !in stack ==> Lookup(e, y) != [])
    && (forall y :: y in popped ==> Lookup(e, y) == [])
  }

  /** Every id comes after all of its dependencies. */
  ghost predicate Topological(e0: map<string, seq<string>>, sorted: seq<string>) {
    forall i, d :: 0 <= i < |sorted| && d in Lookup(e0, sorted[i]) ==> d in sorted[..i]
  }

  /** The dependent being visited still depends on the emitted id. */
  lemma CountingHolds(e: map<string, seq<string>>, e0: map<string, seq<string>>, popped: set<string>,
                      x: string, rest: seq<string>, y: string)
    requires Counting(e, e0, popped, x, rest) && |rest| > 0 && rest[0] == y
    ensures x in Lookup(e, y)
  {
    assert rest == [y] + rest[1..];
    assert multiset(Lookup(e, y))[x] == multiset(rest)[y] > 0;
  }

  /** One visit of the inner loop keeps the counts in shape. */
  lemma CountingStep(e: map<string, seq<string>>, e': map<string, seq<string>>, e0: map<string, seq<string>>,
                     popped: set<string>, x: string, y: string, rest: seq<string>)
    requires Counting(e, e0, popped, x, [y] + rest)
    requires multiset(Lookup(e', y)) == multiset(Lookup(e, y)) - multiset{x}
    requires forall k :: k != y ==> Lookup(e', k) == Lookup(e, k)
    ensures Counting(e', e0, popped, x, rest)
  {
    forall k, d ensures multiset(Lookup(e', k))[d]
      == if d == x then multiset(rest)[k] else if d in popped then 0 else multiset(Lookup(e0, k))[d]
    {
      CountingAt(e, e', e0, popped, x, y, rest, k, d);
    }
  }

  lemma CountingAt(e: map<string, seq<string>>, e': map<string, seq<string>>, e0: map<string, seq<string>>,
                   popped: set<string>, x: string, y: string, rest: seq<string>, k: string, d: string)
    requires multiset(Lookup(e, k))[d]
      == if d == x then multiset([y] + rest)[k] else if d in popped then 0 else multiset(Lookup(e0, k))[d]
    requires k == y ==> multiset(Lookup(e', y)) == multiset(Lookup(e, y)) - multiset{x}
    requires k != y ==> Lookup(e', k) == Lookup(e, k)
    ensures multiset(Lookup(e', k))[d]
      == if d == x then multiset(rest)[k] else if d in popped then 0 else multiset(Lookup(e0, k))[d]
  {
    assert multiset([y] + rest) == multiset{y} + multiset(rest);
  }

  /** Removing a dependency keeps every edge among the ids. */
  lemma ClosedStep(e: map<string, seq<string>>, e': map<string, seq<string>>, idset: set<string>, y: string)
    requires ClosedOver(e, idset)
    requires multiset(Lookup(e', y)) <= multiset(Lookup(e, y))
    requires forall k :: k != y ==> Lookup(e', k) == Lookup(e, k)
    ensures ClosedOver(e', idset)
  {
    forall k, d | d in Lookup(e', k) ensures d in Lookup(e, k) {
      if k == y {
        assert d in multiset(Lookup(e', y));
      }
    }
  }

  /** One visit of the inner loop keeps the stack ready. */
  lemma ReadyStep(e: map<string, seq<string>>, e': map<string, seq<string>>, popped: set<string>,
                  x: string, y: string, idset: set<string>, stack: seq<string>)
    requires x in Lookup(e, y) && ClosedOver(e, idset)
    requires Ready(e, stack, idset, popped)
    requires forall k :: k != y ==> Lookup(e', k) == Lookup(e, k)
    ensures y in idset && y !in popped && y !in stack
    ensures Lookup(e', y) == [] ==> Ready(e', stack + [y], idset, popped)
    ensures Lookup(e', y) != [] ==> Ready(e', stack, idset, popped)
  {
    assert Lookup(e, y) != [];
    forall i | 0 <= i < |stack| ensures stack[i] != y {
    }
    if Lookup(e', y) == [] {
      var s := stack + [y];
      forall i, j | 0 <= i < j < |s| ensures s[i] != s[j] {
        if j == |stack| {
          assert s[i] == stack[i];
        }
      }
    }
  }

  /** Popping an id: its dependencies were all emitted, and the inner loop can start. */
  lemma PopStep(e: map<string, seq<string>>, e0: map<string, seq<string>>, rev: map<string, seq<string>>,
                popped: set<string>, stack: seq<string>, idset: set<string>)
    requires |stack| > 0 && Mirrored(e0, rev)
    requires Counts(e, e0, popped) && Ready(e, stack, idset, popped)
    ensures var x := stack[|stack| - 1];
            && x in idset && x !in popped
            && (forall d :: d in Lookup(e0, x) ==> d in popped)
            && Counting(e, e0, popped + {x}, x, Lookup(rev, x))
            && Ready(e, stack[..|stack| - 1], idset, popped + {x})
  {
    var x := stack[|stack| - 1];
    PopEmitted(e, e0, popped, x);
    PopCounting(e, e0, rev, popped, x);
    PopReady(e, popped, stack, idset);
  }

  /** An id without dependencies left had all of its dependencies emitted. */
  lemma PopEmitted(e: map<string, seq<string>>, e0: map<string, seq<string>>, popped: set<string>, x: string)
    requires Counts(e, e0, popped) && Lookup(e, x) == []
    ensures forall d :: d in Lookup(e0, x) ==> d in popped
  {
    forall d | d in Lookup(e0, x) ensures d in popped {
      assert multiset(Lookup(e, x))[d] == 0;
    }
  }

  /** Emitting `x` starts the visit of its dependents, read off the reverse edges. */
  lemma PopCounting(e: map<string, seq<string>>, e0: map<string, seq<string>>, rev: map<string, seq<string>>,
                    popped: set<string>, x: string)
    requires Mirrored(e0, rev) && Counts(e, e0, popped) && x !in popped
    ensures Counting(e, e0, popped + {x}, x, Lookup(rev, x))
  {
    forall y, d ensures multiset(Lookup(e, y))[d]
      == if d == x then multiset(Lookup(rev, x))[y] else if d in popped + {x} then 0 else multiset(Lookup(e0, y))[d]
    {
      if d == x {
        assert multiset(Lookup(e0, y))[x] == multiset(Lookup(rev, x))[y];
      }
    }
  }

  /** Removing the top of the stack keeps the rest of it ready, with the top emitted. */
  lemma PopReady(e: map<string, seq<string>>, popped: set<string>, stack: seq<string>, idset: set<string>)
    requires |stack| > 0 && Ready(e, stack, idset, popped)
    ensures var x := stack[|stack| - 1];
            x in idset && x !in popped && Ready(e, stack[..|stack| - 1], idset, popped + {x})
  {
    var x := stack[|stack| - 1];
    var s := stack[..|stack| - 1];
    forall y | y in idset && y !in popped + {x} && y !in s ensures Lookup(e, y) != [] {
      assert y !in stack;
    }
  }

  /** Appending an id whose dependencies were all emitted keeps the order topological. */
  lemma EmitStep(e0: map<string, seq<string>>, sorted: seq<string>, x: string)
    requires Topological(e0, sorted)
    requires forall d :: d in Lookup(e0, x) ==> d in sorted
    ensures Topological(e0, sorted + [x])
  {
    var s := sorted + [x];
    forall i, d | 0 <= i < |s| && d in Lookup(e0, s[i]) ensures d in s[..i] {
      if i < |sorted| {
        assert s[..i] == sorted[..i];
      } else {
        assert s[..i] == sorted;
      }
    }
  }

  /** Once all dependents of the emitted id are visited, the counts are back in shape. */
  lemma CountingDone(e: map<string, seq<string>>, e0: map<string, seq<string>>, popped: set<string>, x: string)
    requires x in popped && Counting(e, e0, popped, x, [])
    ensures Counts(e, e0, popped)
  {
    forall y, d ensures multiset(Lookup(e, y))[d] == if d in popped then 0 else multiset(Lookup(e0, y))[d] {
    }
  }

  /** Every id left over still depends on some id that is left over. */
  lemma RemainingStuck(e: map<string, seq<string>>, e0: map<string, seq<string>>, popped: set<string>,
                       idset: set<string>, remaining: seq<string>)
    requires Counts(e, e0, popped) && ClosedOver(e0, idset) && Ready(e, [], idset, popped)
    requires forall y :: y in remaining <==> y in idset && y !in popped
    ensures forall y :: y in remaining ==> exists d :: d in Lookup(e0, y) && d in remaining
  {
    forall y | y in remaining ensures exists d :: d in Lookup(e0, y) && d in remaining {
      var d := Lookup(e, y)[0];
      assert multiset(Lookup(e, y))[d] > 0;
      assert d !in popped;
      assert d in multiset(Lookup(e0, y));
      assert d in Lookup(e0, y);
    }
  }

  lemma DistinctAppend(s: seq<string>, x: string)
    requires Distinct(s) && x !in s
    ensures Distinct(s + [x])
  {
    forall i, j | 0 <= i < j < |s| + 1 ensures (s + [x])[i] != (s + [x])[j] {
      if j == |s| {
        assert (s + [x])[i] == s[i];
      }
    }
  }

  lemma DistinctNotBefore(s: seq<string>, i: nat)
    requires Distinct(s) && i < |s|
    ensures s[i] !in s[..i]
  {
    forall k | 0 <= k < i ensures s[..i][k] != s[i] {
    }
  }

  /** The non-empty dependency lists of the ids `ks`. */
  function Collected(links: map<string, seq<string>>, ks: seq<string>): (r: map<string, seq<string>>)
    requires forall k :: k in ks ==> k in links
    ensures forall k :: k in r <==> k in ks && links[k] != []
  {
    map k | k in ks && links[k] != [] :: links[k]
  }

  /** Adding the dependencies of one more id, not seen before, to the collected lists. */
  lemma CollectedStep(links: map<string, seq<string>>, order: seq<string>, i: nat, e: map<string, seq<string>>)
    requires i < |order| && (forall k :: k in order ==> k in links)
    requires order[i] !in order[..i] && e == Collected(links, order[..i])
    ensures var id := order[i];
            (if links[id] == [] then e else e[id := Lookup(e, id) + links[id]]) == Collected(links, order[..i + 1])
  {
    var id := order[i];
    assert order[..i + 1] == order[..i] + [id];
    assert Lookup(e, id) == [];
    assert [] + links[id] == links[id];
  }

  /** The invariant of the outer loop of sortTopologically. */
  ghost predicate Sorting(e: map<string, seq<string>>, e0: map<string, seq<string>>, rev: map<string, seq<string>>,
                          idset: set<string>, popped: set<string>, stack: seq<string>, dependents: set<string>,
                          sorted: seq<string>) {
    && popped <= idset
    && Counts(e, e0, popped) && ClosedOver(e, idset)
    && Ready(e, stack, idset, popped)
    && (forall y :: y in dependents <==> y in idset && y !in popped && y !in stack)
    && Distinct(sorted) && (forall y :: y in sorted <==> y in popped)
    && Topological(e0, sorted)
    && Mirrored(e0, rev) && ClosedOver(e0, idset)
  }

  /** The state before the outer loop of sortTopologically. */
  lemma SortingStarts(e: map<string, seq<string>>, rev: map<string, seq<string>>, ids: seq<string>, idset: set<string>,
                      stack: seq<string>, dependents: set<string>)
    requires Mirrored(e, rev) && Distinct(ids)
    requires forall y, d :: d in Lookup(e, y) ==> y in ids
    requires forall y, d {:trigger d in Lookup(e, y)} :: d in Lookup(e, y) ==> d in ids
    requires idset == set y | y in ids
    requires stack == Independent(e, ids)
    requires forall y :: y in dependents <==> y in ids && y !in stack
    ensures Sorting(e, e, rev, idset, {}, stack, dependents, [])
  {
    IndependentMembers(e, ids);
  }

  /** With the dependencies a:[b,c], b:[c], c:[d], none of a, b, c and d can be stuck. */
  lemma ChainNothingStuck(e0: map<string, seq<string>>, remaining: seq<string>)
    requires Lookup(e0, "a") == ["b", "c"] && Lookup(e0, "b") == ["c"]
    requires Lookup(e0, "c") == ["d"] && Lookup(e0, "d") == []
    requires forall y :: y in remaining ==> y in ["a", "b", "c", "d"]
    requires forall y :: y in remaining ==> exists d :: d in Lookup(e0, y) && d in remaining
    ensures remaining == []
  {
    assert "d" !in remaining;
    assert "c" !in remaining;
    assert "b" !in remaining;
    assert "a" !in remaining;
    forall y ensures multiset(remaining)[y] == 0 {
      assert y !in remaining;
    }
    assert multiset(remaining) == multiset{};
    assert |remaining| == |multiset(remaining)| == 0;
  }

  /** The dependencies a:[b,c], b:[c], c:[d] admit exactly one topological order of a, b, c and d. */
  lemma ChainOrder(e0: map<string, seq<string>>, sorted: seq<string>)
    requires Lookup(e0, "a") == ["b", "c"] && Lookup(e0, "b") == ["c"] && Lookup(e0, "c") == ["d"]
    requires Distinct(sorted)
    requires forall y :: y in sorted <==> y in ["a", "b", "c", "d"]
    requires Topological(e0, sorted)
    ensures sorted == ["d", "c", "b", "a"]
  {
    var pa, pb, pc, pd := PositionOf(sorted, "a"), PositionOf(sorted, "b"), PositionOf(sorted, "c"), PositionOf(sorted, "d");
    BeforeIn(sorted, pa, pb, "b");
    BeforeIn(sorted, pa, pc, "c");
    BeforeIn(sorted, pb, pc, "c");
    BeforeIn(sorted, pc, pd, "d");
    AtPosition(sorted, 0, pa, pb, pc, pd);
    AtPosition(sorted, 1, pa, pb, pc, pd);
    AtPosition(sorted, 2, pa, pb, pc, pd);
    AtPosition(sorted, 3, pa, pb, pc, pd);
    if |sorted| > 4 {
      AtPosition(sorted, 4, pa, pb, pc, pd);
    }
  }

  function PositionOf(s: seq<string>, x: string): (i: nat)
    requires x in s
    ensures i < |s| && s[i] == x
  {
    if s[0] == x then 0 else 1 + PositionOf(s[1..], x)
  }

  /** In a distinct order of a, b, c and d, every position is the position of one of them. */
  lemma AtPosition(s: seq<string>, i: nat, pa: nat, pb: nat, pc: nat, pd: nat)
    requires Distinct(s) && i < |s| && s[i] in ["a", "b", "c", "d"]
    requires pa < |s| && s[pa] == "a" && pb < |s| && s[pb] == "b"
    requires pc < |s| && s[pc] == "c" && pd < |s| && s[pd] == "d"
    ensures i == pa || i == pb || i == pc || i == pd
  {
  }

  /** In a distinct order, an id found before position `i` sits at its own position. */
  lemma BeforeIn(s: seq<string>, i: nat, j: nat, x: string)
    requires Distinct(s) && i < |s| && j < |s| && s[j] == x && x in s[..i]
    ensures j < i
  {
    var k :| 0 <= k < i && s[..i][k] == x;
    assert s[k] == s[j];
  }

  class IDGraph {
    var edges: map<string, seq<string>>
    var reverseEdges: map<string, seq<string>>

    ghost predicate Valid()
      reads this
    {
      Mirrored(edges, reverseEdges)
    }

    function Dependencies(id: string): seq<string>
      reads this
    {
      Lookup(edges, id)
    }

    /** Every id mentioned by an edge is one of `ids`. */
    ghost predicate Closed(ids: seq<string>)
      reads this
    {
      && (forall y, x :: x in Lookup(edges, y) ==> y in ids)
      && (forall y, x {:trigger x in Lookup(edges, y)} :: x in Lookup(edges, y) ==> x in ids)
    }

    /**
      newIDGraph. `order` is the order in which the Go map `links` happens to
      be ranged over; it decides only the order within reverseEdges slices.
     */
    constructor (links: map<string, seq<string>>, order: seq<string>)
      requires Distinct(order) && forall k :: k in order <==> k in links
      ensures Valid()
      ensures forall id :: Dependencies(id) == Lookup(links, id)
      ensures forall id :: id in edges <==> id in links && links[id] != []
    {
      var e: map<string, seq<string>> := map[];
      var r: map<string, seq<string>> := map[];
      var i := 0;
      while i < |order|
        invariant 0 <= i <= |order|
        invariant Mirrored(e, r)
        invariant e == Collected(links, order[..i])
      {
        var id := order[i];
        DistinctNotBefore(order, i);
        CollectedStep(links, order, i, e);
        e, r := AddEdges(e, r, id, links[id]);
        i := i + 1;
      }
      assert order[..i] == order;
      edges := e;
      reverseEdges := r;
    }

    /** identifyIndependentIDs: the ids with no dependencies, in input order. */
    method IdentifyIndependentIDs(ids: seq<string>) returns (independentIDs: seq<string>)
      ensures independentIDs == Independent(edges, ids)
    {
      independentIDs := [];
      var i := 0;
      while i < |ids|
        invariant 0 <= i <= |ids|
        invariant independentIDs + Independent(edges, ids[i..]) == Independent(edges, ids)
      {
        assert ids[i..][1..] == ids[i + 1..];
        if |Dependencies(ids[i])| == 0 {
          independentIDs := independentIDs + [ids[i]];
        }
        i := i + 1;
      }
    }

    /**
      removeDependentID: the first occurrence of targetID among the
      dependencies of dependentID is overwritten by the last dependency and
      the slice shortened by one; without an occurrence nothing changes.
     */
    method RemoveDependentID(dependentID: string, targetID: string)
      modifies this`edges
      ensures targetID in old(Dependencies(dependentID)) ==>
                edges == old(edges)[dependentID :=
                  SwapRemove(old(Dependencies(dependentID)), FirstIndex(old(Dependencies(dependentID)), targetID))]
      ensures targetID !in old(Dependencies(dependentID)) ==> edges == old(edges)
      ensures multiset(Dependencies(dependentID))
              == if targetID in old(Dependencies(dependentID))
                 then old(multiset(Dependencies(dependentID))) - multiset{targetID}
                 else old(multiset(Dependencies(dependentID)))
      ensures forall id :: id != dependentID ==> Dependencies(id) == old(Dependencies(id))
    {
      var dependencies := Dependencies(dependentID);
      var i := 0;
      while i < |dependencies|
        invariant 0 <= i <= |dependencies|
        invariant forall k :: 0 <= k < i ==> dependencies[k] != targetID
      {
        if dependencies[i] == targetID {
          assert FirstIndex(dependencies, targetID) == i;
          SwapRemoveMultiset(dependencies, i);
          edges := edges[dependentID := dependencies[i := dependencies[|dependencies| - 1]][..|dependencies| - 1]];
          return;
        }
        i := i + 1;
      }
    }

    /**
      The inner loop of sortTopologically: for every id that depends on the
      emitted `indieID`, remove one occurrence of `indieID` from its
      dependencies, and push it (and drop it from the dependents) once it has
      none left.
     */
    method ReleaseDependents(indieID: string, independentIDs: seq<string>, dependentIDs: set<string>,
                             ghost e0: map<string, seq<string>>, ghost idset: set<string>, ghost popped: set<string>)
      returns (stack: seq<string>, dependents: set<string>)
      requires indieID in popped
      requires Counting(edges, e0, popped, indieID, Lookup(reverseEdges, indieID))
      requires ClosedOver(edges, idset)
      requires Ready(edges, independentIDs, idset, popped)
      requires forall y :: y in dependentIDs <==> y in idset && y !in popped && y !in independentIDs
      modifies this`edges
      ensures Counting(edges, e0, popped, indieID, []) && ClosedOver(edges, idset)
      ensures Ready(edges, stack, idset, popped)
      ensures forall y :: y in dependents <==> y in idset && y !in popped && y !in stack
    {
      stack, dependents := independentIDs, dependentIDs;
      var release := Lookup(reverseEdges, indieID);
      var j := 0;
      while j < |release|
        invariant 0 <= j <= |release|
        invariant Counting(edges, e0, popped, indieID, release[j..]) && ClosedOver(edges, idset)
        invariant Ready(edges, stack, idset, popped)
        invariant forall y :: y in dependents <==> y in idset && y !in popped && y !in stack
      {
        assert release[j..] == [release[j]] + release[j + 1..];
        stack, dependents := ReleaseOne(indieID, release[j], release[j + 1..], stack, dependents, e0, idset, popped);
        j := j + 1;
      }
    }

    /** One visit of the inner loop of sortTopologically. */
    method ReleaseOne(indieID: string, dependentID: string, ghost rest: seq<string>,
                      stack: seq<string>, dependents: set<string>,
                      ghost e0: map<string, seq<string>>, ghost idset: set<string>, ghost popped: set<string>)
      returns (stack': seq<string>, dependents': set<string>)
      requires Counting(edges, e0, popped, indieID, [dependentID] + rest) && ClosedOver(edges, idset)
      requires Ready(edges, stack, idset, popped)
      requires forall y :: y in dependents <==> y in idset && y !in popped && y !in stack
      modifies this`edges
      ensures Counting(edges, e0, popped, indieID, rest) && ClosedOver(edges, idset)
      ensures Ready(edges, stack', idset, popped)
      ensures forall y :: y in dependents' <==> y in idset && y !in popped && y !in stack'
    {
      ghost var before := edges;
      CountingHolds(before, e0, popped, indieID, [dependentID] + rest, dependentID);
      RemoveDependentID(dependentID, indieID);
      CountingStep(before, edges, e0, popped, indieID, dependentID, rest);
      ClosedStep(before, edges, idset, dependentID);
      ReadyStep(before, edges, popped, indieID, dependentID, idset, stack);
      stack', dependents' := stack, dependents;
      if |Dependencies(dependentID)| == 0 {
        dependents' := dependents - {dependentID};
        stack' := Push(stack, dependentID);
      }
    }

    /** One round of the outer loop of sortTopologically: emit the top of the stack and release its dependents. */
    method EmitNext(independentIDs: seq<string>, dependentIDs: set<string>, sortedIDs: seq<string>,
                    ghost e0: map<string, seq<string>>, ghost idset: set<string>, ghost popped: set<string>)
      returns (stack: seq<string>, dependents: set<string>, sorted: seq<string>, ghost popped': set<string>)
      requires |independentIDs| > 0
      requires Sorting(edges, e0, reverseEdges, idset, popped, independentIDs, dependentIDs, sortedIDs)
      modifies this`edges
      ensures Sorting(edges, e0, reverseEdges, idset, popped', stack, dependents, sorted)
      ensures |idset - popped'| < |idset - popped|
    {
      var (rest, indieID) := Pop(independentIDs);
      PopStep(edges, e0, reverseEdges, popped, independentIDs, idset);
      EmitStep(e0, sortedIDs, indieID);
      DistinctAppend(sortedIDs, indieID);
      sorted := sortedIDs + [indieID];
      assert idset - (popped + {indieID}) < idset - popped;
      popped' := popped + {indieID};
      stack, dependents := ReleaseDependents(indieID, rest, dependentIDs, e0, idset, popped');
      CountingDone(edges, e0, popped', indieID);
    }

    /**
      sortTopologically. Returns the ids in an order in which every id comes
      after all of its dependencies, and the ids that never lost all their
      dependencies (those on a cycle or depending on one).
     */
    method SortTopologically(ids: seq<string>) returns (sortedIDs: seq<string>, remaining: seq<string>)
      requires Valid() && Distinct(ids) && Closed(ids)
      modifies this`edges
      ensures Distinct(sortedIDs) && Distinct(remaining)
      ensures forall y :: y in sortedIDs || y in remaining <==> y in ids
      ensures forall y :: !(y in sortedIDs && y in remaining)
      ensures Topological(old(edges), sortedIDs)
      ensures forall y :: y in remaining ==> exists d :: d in Lookup(old(edges), y) && d in remaining
      ensures forall y, d :: multiset(Lookup(edges, y))[d]
                == if d in sortedIDs then 0 else multiset(Lookup(old(edges), y))[d]
    {
      ghost var e0 := edges;
      ghost var idset := set y | y in ids;
      ghost var popped: set<string> := {};
      sortedIDs := [];
      var independentIDs := IdentifyIndependentIDs(ids);
      IndependentMembers(edges, ids);
      var dependentIDs := MakeHashset(ids);
      dependentIDs := RemoveAll(dependentIDs, independentIDs);
      SortingStarts(edges, reverseEdges, ids, idset, independentIDs, dependentIDs);
      while |independentIDs| > 0
        invariant Sorting(edges, e0, reverseEdges, idset, popped, independentIDs, dependentIDs, sortedIDs)
        decreases |idset - popped|
      {
        independentIDs, dependentIDs, sortedIDs, popped := EmitNext(independentIDs, dependentIDs, sortedIDs, e0, idset, popped);
      }
      remaining := SetToSeq(dependentIDs);
      RemainingStuck(edges, e0, popped, idset, remaining);
    }
  }

  /** The dependency chain a:[b,c], b:[c], c:[d] sorts to d, c, b, a. */
  method SortExample() returns (sorted: seq<string>, remaining: seq<string>)
    ensures sorted == ["d", "c", "b", "a"] && remaining == []
  {
    var links := map["a" := ["b", "c"], "b" := ["c"], "c" := ["d"]];
    var g := new IDGraph(links, ["a", "b", "c"]);
    ghost var e0 := g.edges;
    assert links["a"] == ["b", "c"] && links["b"] == ["c"] && links["c"] == ["d"] && "d" !in links;
    assert g.Dependencies("a") == ["b", "c"] && g.Dependencies("b") == ["c"];
    assert g.Dependencies("c") == ["d"] && g.Dependencies("d") == [];
    sorted, remaining := g.SortTopologically(["a", "b", "c", "d"]);
    ChainNothingStuck(e0, remaining);
    ChainOrder(e0, sorted);
  }
}
