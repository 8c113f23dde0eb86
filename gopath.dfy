/**
  The lexical part of Go's `path` package (slash-separated paths) used by
  import resolution and build descriptions: Clean, Dir, Base, Ext, Join.

  Clean is modelled as resolving the slash-separated elements of a path onto
  a stack: empty and "." elements vanish, ".." removes the previous real
  element, is dropped at the root of a rooted path, and is kept when a
  relative path has nothing left to remove.
 */
module GoPath {
  import opened GoStrings

  /** path.IsAbs */
  predicate IsAbs(p: string) {
    |p| > 0 && p[0] == '/'
  }

  /** One element of a clean path. */
  predicate IsElement(e: string) {
    e != "" && e != "." && '/' !in e
  }

  /**
    A stack of elements as Clean leaves it: real elements, ".." only as a
    leading run, and no ".." at all under a root.
   */
  predicate WellFormed(rooted: bool, st: seq<string>) {
    (forall i :: 0 <= i < |st| ==> IsElement(st[i]))
    && (forall i, j :: 0 <= i < j < |st| && st[j] == ".." ==> st[i] == "..")
    && (rooted ==> forall i :: 0 <= i < |st| ==> st[i] != "..")
  }

  /** Resolves one element onto the stack. */
  function Step(rooted: bool, st: seq<string>, e: string): seq<string> {
    if e == "" || e == "." then st
    else if e == ".." then
      if |st| > 0 && st[|st| - 1] != ".." then st[..|st| - 1]
      else if rooted then st
      else st + [".."]
    else st + [e]
  }

  /** Resolves a sequence of elements onto the stack, left to right. */
  function Resolve(rooted: bool, st: seq<string>, segs: seq<string>): seq<string>
    decreases |segs|
  {
    if segs == [] then st else Resolve(rooted, Step(rooted, st, segs[0]), segs[1..])
  }

  /** Writes a resolved stack back as a path. */
  function Render(rooted: bool, st: seq<string>): string {
    if rooted then "/" + Join(st, "/")
    else if st == [] then "."
    else Join(st, "/")
  }

  /** path.Clean */
  function Clean(p: string): string {
    if p == "" then "."
    else
      var rooted := p[0] == '/';
      Render(rooted, Resolve(rooted, [], Split(p, "/")))
  }

  /** path.Dir: everything up to the last slash, cleaned. */
  function Dir(p: string): string {
    Clean(p[..LastIndex(p, "/") + 1])
  }

  /** path.Base: the last element, ignoring trailing slashes. */
  function Base(p: string): (r: string)
    ensures r != ""
  {
    if p == "" then "."
    else
      var q := TrimRight(p, '/');
      var last := q[LastIndex(q, "/") + 1..];
      if last == "" then "/" else last
  }

  /** The extension search of path.Ext, scanning down from position `i`. */
  function ExtFrom(p: string, i: int): (r: string)
    requires i < |p|
    requires forall k :: 0 <= k < |p| && i < k ==> p[k] != '/' && p[k] != '.'
    decreases i + 1
    ensures HasSuffix(p, r)
    ensures r == "" || (r[0] == '.' && '/' !in r && '.' !in r[1..])
  {
    if i < 0 || p[i] == '/' then ""
    else if p[i] == '.' then
      assert p[i..][1..] == p[i + 1..];
      p[i..]
    else ExtFrom(p, i - 1)
  }

  /** path.Ext: the suffix from the last '.' of the final element, or "". */
  function Ext(p: string): string {
    ExtFrom(p, |p| - 1)
  }

  /** path.Join with two elements: empty elements are ignored, the rest cleaned. */
  function Join2(a: string, b: string): string {
    if a == "" && b == "" then ""
    else if a == "" then Clean(b)
    else Clean(a + "/" + b)
  }

  // ---------------------------------------------------------------------
  // Clean is idempotent.

  lemma StepWellFormed(rooted: bool, st: seq<string>, e: string)
    requires WellFormed(rooted, st) && '/' !in e
    ensures WellFormed(rooted, Step(rooted, st, e))
  {
  }

  lemma {:induction false} ResolveWellFormed(rooted: bool, st: seq<string>, segs: seq<string>)
    requires WellFormed(rooted, st)
    requires forall k :: 0 <= k < |segs| ==> '/' !in segs[k]
    ensures WellFormed(rooted, Resolve(rooted, st, segs))
    decreases |segs|
  {
    if segs != [] {
      StepWellFormed(rooted, st, segs[0]);
      ResolveWellFormed(rooted, Step(rooted, st, segs[0]), segs[1..]);
    }
  }

  /** Resolving elements that are already clean pushes them unchanged. */
  lemma {:induction false} ResolveClean(rooted: bool, st: seq<string>, segs: seq<string>)
    requires WellFormed(rooted, st + segs)
    ensures Resolve(rooted, st, segs) == st + segs
    decreases |segs|
  {
    if segs != [] {
      var all := st + segs;
      assert all[|st|] == segs[0];
      if segs[0] == ".." && |st| > 0 {
        assert all[|st| - 1] == st[|st| - 1];
      }
      assert Step(rooted, st, segs[0]) == st + [segs[0]];
      assert (st + [segs[0]]) + segs[1..] == all;
      ResolveClean(rooted, st + [segs[0]], segs[1..]);
    }
  }

  lemma JoinStartsWithFirst(parts: seq<string>, sep: string)
    requires |parts| >= 1
    ensures parts[0] <= Join(parts, sep)
  {
    if |parts| > 1 {
      assert Join(parts, sep) == parts[0] + (sep + Join(parts[1..], sep));
    }
  }

  lemma NoSlashPieces(s: string)
    ensures forall k :: 0 <= k < |Split(s, "/")| ==> '/' !in Split(s, "/")[k]
  {
    var pieces := Split(s, "/");
    SplitPiecesLackSeparator(s, "/");
    forall k, m | 0 <= k < |pieces| && 0 <= m < |pieces[k]| ensures pieces[k][m] != '/' {
      assert !OccursAt(pieces[k], "/", m);
      assert pieces[k][m..m + 1] == [pieces[k][m]];
    }
  }

  /** Clean of a path is the rendering of a well-formed stack with the same rootedness. */
  lemma CleanIsRendered(p: string) returns (rooted: bool, st: seq<string>)
    ensures WellFormed(rooted, st) && Clean(p) == Render(rooted, st)
    ensures p != "" ==> rooted == IsAbs(p)
    ensures p == "" ==> !rooted && st == []
  {
    if p == "" {
      rooted, st := false, [];
    } else {
      rooted := p[0] == '/';
      NoSlashPieces(p);
      ResolveWellFormed(rooted, [], Split(p, "/"));
      st := Resolve(rooted, [], Split(p, "/"));
    }
  }

  /** Rendering keeps track of rootedness. */
  lemma RenderIsAbs(rooted: bool, st: seq<string>)
    requires WellFormed(rooted, st)
    ensures IsAbs(Render(rooted, st)) == rooted
  {
    if !rooted && st != [] {
      JoinStartsWithFirst(st, "/");
      assert Render(rooted, st)[0] == st[0][0];
    }
  }

  /** A rooted stack renders as "/" followed by its elements, which Clean keeps. */
  lemma CleanRenderedRooted(st: seq<string>)
    requires WellFormed(true, st)
    ensures Clean(Render(true, st)) == Render(true, st)
  {
    var r := Render(true, st);
    RenderIsAbs(true, st);
    var parts := [""] + (if st == [] then [""] else st);
    assert Join(parts, "/") == r by {
      assert parts[1..] == (if st == [] then [""] else st);
    }
    SplitJoinSeparator(parts, ['/']);
    assert Resolve(true, [], parts) == Resolve(true, [], parts[1..]);
    if st == [] {
      assert Resolve(true, [], [""]) == [];
    } else {
      ResolveClean(true, [], st);
      assert [] + st == st;
    }
  }

  /** A relative stack renders as its elements, or as "." when empty, which Clean keeps. */
  lemma CleanRenderedRelative(st: seq<string>)
    requires WellFormed(false, st)
    ensures Clean(Render(false, st)) == Render(false, st)
  {
    RenderIsAbs(false, st);
    if st == [] {
      SplitJoinSeparator(["."], ['/']);
      assert Resolve(false, [], ["."]) == [];
    } else {
      SplitJoinSeparator(st, ['/']);
      ResolveClean(false, [], st);
      assert [] + st == st;
    }
  }

  /** Rendering a well-formed stack gives a path that Clean leaves alone. */
  lemma CleanRendered(rooted: bool, st: seq<string>)
    requires WellFormed(rooted, st)
    ensures Clean(Render(rooted, st)) == Render(rooted, st)
  {
    if rooted {
      CleanRenderedRooted(st);
    } else {
      CleanRenderedRelative(st);
    }
  }

  /** path.Clean is idempotent. */
  lemma CleanIdempotent(p: string)
    ensures Clean(Clean(p)) == Clean(p)
  {
    var rooted, st := CleanIsRendered(p);
    CleanRendered(rooted, st);
  }

  /** Clean keeps a path rooted exactly when it was rooted. */
  lemma CleanIsAbs(p: string)
    requires p != ""
    ensures IsAbs(Clean(p)) == IsAbs(p)
  {
    var rooted, st := CleanIsRendered(p);
    RenderIsAbs(rooted, st);
  }

  /** Clean never returns the empty path. */
  lemma CleanNonEmpty(p: string)
    ensures Clean(p) != ""
  {
    var rooted, st := CleanIsRendered(p);
    if !rooted && st != [] {
      JoinStartsWithFirst(st, "/");
    }
  }

  /** Dir always returns a clean path. */
  lemma DirIsClean(p: string)
    ensures Clean(Dir(p)) == Dir(p)
  {
    CleanIdempotent(p[..LastIndex(p, "/") + 1]);
  }

  // ---------------------------------------------------------------------
  // Facts about paths assembled from a directory and a file name.

  /** Index of a one-character separator, read character by character. */
  lemma CharIndex(s: string, c: char)
    ensures var i := Index(s, [c]);
            (forall j :: 0 <= j < |s| && (i < 0 || j < i) ==> s[j] != c)
            && (i >= 0 ==> i < |s| && s[i] == c)
  {
    var i := Index(s, [c]);
    forall j | 0 <= j < |s| && (i < 0 || j < i) ensures s[j] != c {
      assert !OccursAt(s, [c], j);
      assert s[j..j + 1] == [s[j]];
    }
    if i >= 0 {
      assert s[i..i + 1] == [c];
    }
  }

  /** The first position holding the separator character is its Index. */
  lemma CharIndexAt(t: string, c: char, k: nat)
    requires k < |t| && t[k] == c
    requires forall j :: 0 <= j < k ==> t[j] != c
    ensures Index(t, [c]) == k
  {
    assert t[k..k + 1] == [c];
    assert OccursAt(t, [c], k);
    forall j | 0 <= j < k ensures !OccursAt(t, [c], j) {
      assert t[j..j + 1] == [t[j]];
    }
  }

  /** Splitting at a separator character distributes over a concatenation around it. */
  lemma {:induction false} SplitConcat(a: string, b: string, c: char)
    ensures Split(a + [c] + b, [c]) == Split(a, [c]) + Split(b, [c])
    decreases |a|
  {
    var t := a + [c] + b;
    var i := Index(a, [c]);
    CharIndex(a, c);
    if i < 0 {
      CharIndexAt(t, c, |a|);
      assert t[..|a|] == a;
      assert t[|a| + 1..] == b;
    } else {
      CharIndexAt(t, c, i);
      assert t[..i] == a[..i];
      assert t[i + 1..] == a[i + 1..] + [c] + b;
      SplitConcat(a[i + 1..], b, c);
    }
  }

  /** A text without the separator character splits into itself alone. */
  lemma SplitWithout(s: string, c: char)
    requires c !in s
    ensures Split(s, [c]) == [s]
  {
    forall j | 0 <= j < |s| ensures !OccursAt(s, [c], j) {
      assert s[j..j + 1] == [s[j]];
    }
  }

  /** Resolving a concatenation resolves the first part, then the second. */
  lemma {:induction false} ResolveConcat(rooted: bool, st: seq<string>, s1: seq<string>, s2: seq<string>)
    ensures Resolve(rooted, st, s1 + s2) == Resolve(rooted, Resolve(rooted, st, s1), s2)
    decreases |s1|
  {
    if s1 != [] {
      assert (s1 + s2)[0] == s1[0];
      assert (s1 + s2)[1..] == s1[1..] + s2;
      ResolveConcat(rooted, Step(rooted, st, s1[0]), s1[1..], s2);
    } else {
      assert s1 + s2 == s2;
    }
  }

  /** Joining one more part appends the separator and the part. */
  lemma {:induction false} JoinAppend(parts: seq<string>, x: string, sep: string)
    requires |parts| >= 1
    ensures Join(parts + [x], sep) == Join(parts, sep) + sep + x
    decreases |parts|
  {
    var all := parts + [x];
    assert all[0] == parts[0];
    assert all[1..] == parts[1..] + [x];
    if |parts| > 1 {
      JoinAppend(parts[1..], x, sep);
    }
  }

  /** A trailing slash does not change the cleaned path. */
  lemma CleanTrailingSlash(d: string)
    requires d != ""
    ensures Clean(d + "/") == Clean(d)
  {
    var rooted := d[0] == '/';
    assert (d + "/")[0] == d[0];
    SplitConcat(d, "", '/');
    assert d + ['/'] + "" == d + "/";
    ResolveConcat(rooted, [], Split(d, "/"), [""]);
  }

  /** A leading "./" does not change the cleaned path of a relative path. */
  lemma CleanDotPrefix(x: string)
    requires x != "" && !IsAbs(x)
    ensures Clean("./" + x) == Clean(x)
  {
    SplitConcat(".", x, '/');
    assert "." + ['/'] + x == "./" + x;
    SplitWithout(".", '/');
    ResolveConcat(false, [], ["."], Split(x, "/"));
  }

  /** The last slash of d + "/" + f is the one in the middle when f has none. */
  lemma LastSlashOfJoin(d: string, f: string)
    requires '/' !in f
    ensures LastIndex(d + "/" + f, "/") == |d|
  {
    var p := d + "/" + f;
    assert OccursAt(p, "/", |d|);
    forall j | j > |d| ensures !OccursAt(p, "/", j) {
      if 0 <= j < |p| {
        assert p[j] == f[j - |d| - 1];
        assert p[j..j + 1] == [p[j]];
      }
    }
  }

  /** Dir of d + "/" + f is the cleaned d + "/". */
  lemma DirOfJoin(d: string, f: string)
    requires '/' !in f
    ensures Dir(d + "/" + f) == Clean(d + "/")
  {
    LastSlashOfJoin(d, f);
    assert (d + "/" + f)[..|d| + 1] == d + "/";
  }

  /** Base of d + "/" + f is f when f is a non-empty name without a slash. */
  lemma BaseOfJoin(d: string, f: string)
    requires f != "" && '/' !in f
    ensures Base(d + "/" + f) == f
  {
    var p := d + "/" + f;
    assert p[|p| - 1] == f[|f| - 1];
    assert TrimRight(p, '/') == p;
    LastSlashOfJoin(d, f);
    assert p[|d| + 1..] == f;
  }

  /** A name without a slash is its own Base, and its Dir is ".". */
  lemma BaseOfName(f: string)
    requires f != "" && '/' !in f
    ensures Base(f) == f && Dir(f) == "."
  {
    assert f[|f| - 1] in f;
    assert TrimRight(f, '/') == f;
    forall j ensures !OccursAt(f, "/", j) {
      if 0 <= j < |f| {
        assert f[j..j + 1] == [f[j]];
      }
    }
    assert LastIndex(f, "/") == -1;
    assert f[..0] == "";
  }

  /** A cleaned path never starts with "./". */
  lemma CleanNotSelfRelative(p: string)
    ensures !HasPrefix(Clean(p), "./")
  {
    var rooted, st := CleanIsRendered(p);
    var q := Clean(p);
    if rooted {
      assert q[0] == '/';
    } else if st == [] {
      assert q == ".";
    } else {
      JoinStartsWithFirst(st, "/");
      assert q[0] == st[0][0];
      if |st[0]| == 1 {
        assert st[0] == [st[0][0]];
      } else {
        assert q[1] == st[0][1];
        assert st[0][1] in st[0];
      }
    }
  }

  /**
    A name appended to a clean, relative, non-"." directory is kept: the
    joined path is already clean.
   */
  lemma CleanJoinName(d: string, f: string)
    requires Clean(d) == d && d != "." && !IsAbs(d)
    requires IsElement(f) && f != ".."
    ensures Clean(d + "/" + f) == d + "/" + f
  {
    CleanNonEmpty(d);
    var st := Resolve(false, [], Split(d, "/"));
    assert Render(false, st) == d;
    SplitConcat(d, f, '/');
    assert d + ['/'] + f == d + "/" + f;
    SplitWithout(f, '/');
    ResolveConcat(false, [], Split(d, "/"), [f]);
    JoinAppend(st, f, "/");
    assert Step(false, st, f) == st + [f];
    assert (d + "/" + f)[0] == d[0];
  }

  /** The elements of d + "/./" + f are those of d, then "." and f. */
  lemma SplitDotName(d: string, f: string)
    requires '/' !in f
    ensures Split(d + "/" + ("./" + f), "/") == Split(d, "/") + [".", f]
  {
    SplitConcat(d, "./" + f, '/');
    assert d + ['/'] + ("./" + f) == d + "/" + ("./" + f);
    SplitDotPrefix(f);
  }

  /** The elements of "./" + f are "." and f. */
  lemma SplitDotPrefix(f: string)
    requires '/' !in f
    ensures Split("./" + f, "/") == [".", f]
  {
    SplitConcat(".", f, '/');
    assert "." + ['/'] + f == "./" + f;
    SplitWithout(".", '/');
    SplitWithout(f, '/');
  }

  /** A "." element resolves to nothing. */
  lemma DotResolves(rooted: bool, st: seq<string>, f: string)
    ensures Resolve(rooted, st, [".", f]) == Resolve(rooted, st, [f])
  {
    assert [".", f][1..] == [f];
  }

  /** A "./" in the middle of a relative path is cleaned away. */
  lemma CleanDotMiddle(d: string, f: string)
    requires d != "" && !IsAbs(d) && '/' !in f
    ensures Clean(d + "/" + ("./" + f)) == Clean(d + "/" + f)
  {
    var p := d + "/" + ("./" + f);
    var q := d + "/" + f;
    SplitDotName(d, f);
    SplitConcat(d, f, '/');
    assert d + ['/'] + f == q;
    SplitWithout(f, '/');
    var segs := Split(d, "/");
    ResolveConcat(false, [], segs, [".", f]);
    ResolveConcat(false, [], segs, [f]);
    DotResolves(false, Resolve(false, [], segs), f);
    assert p[0] == d[0] && q[0] == d[0];
  }

  /** Joining a clean relative directory with "./" + name gives directory + "/" + name. */
  lemma JoinDotName(d: string, f: string)
    requires Clean(d) == d && d != "." && !IsAbs(d)
    requires IsElement(f) && f != ".."
    ensures Join2(d, "./" + f) == d + "/" + f
  {
    CleanNonEmpty(d);
    CleanDotMiddle(d, f);
    CleanJoinName(d, f);
  }
}
