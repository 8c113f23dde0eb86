/**
  Import specifiers (source/Import.go and dep/Import.go): classification of
  a specifier as self-relative, parent-relative or rooted, its directory and
  file name, a trailing "#?" directive, the path it stands for, and the
  resolution of a relative import against a root-relative one.

  The two files build the same record by the same steps; the source one
  first removes "#{...}" interpolation templates before the directive and
  the file name are taken. Both are one datatype and one builder here.
 */
module Imports {
  import opened GoStrings
  import opened GoPath

  /** An import of one file, possibly root-relative. */
  datatype Import = Import(filename: string, directory: string, directive: string,
                           isSelfRelative: bool, isParentRelative: bool, isRooted: bool, isSolo: bool)
  {
    /** Path() / path(): the file name alone for a solo import, else directory + "/" + file name. */
    function Path(): string {
      if isSolo then filename else directory + "/" + filename
    }

    /** The three kinds exclude each other, and only a rooted import is solo. */
    predicate Classified() {
      && (isRooted <==> !isSelfRelative && !isParentRelative)
      && !(isSelfRelative && isParentRelative)
      && (isSolo ==> isRooted)
    }

    /** Ext(): the extension of the file name. */
    function Ext(): string {
      GoPath.Ext(filename)
    }
  }

  // ---------------------------------------------------------------------
  // Interpolation templates: the regular expression #\{.*?\} of source/Import.go.

  /**
    The position of the '}' that closes a template whose body starts at `k`:
    the first '}' from `k` on, provided no newline comes before it ('.' does
    not match a newline), else -1.
   */
  function TemplateClose(s: string, k: nat): (r: int)
    decreases |s| - k
    ensures r == -1 || (k <= r < |s| && s[r] == '}')
    ensures r >= 0 ==> forall j :: k <= j < r ==> s[j] != '}' && s[j] != '\n'
  {
    if k >= |s| || s[k] == '\n' then -1
    else if s[k] == '}' then k
    else TemplateClose(s, k + 1)
  }

  /**
    ReplaceAllString with "": scanning left to right, a "#{" that has a
    closing '}' is removed up to and including the first such '}' (the
    shortest match); any other character is kept.
   */
  function StripTemplates(s: string): (r: string)
    decreases |s|
  {
    if s == [] then []
    else if HasPrefix(s, "#{") && TemplateClose(s, 2) >= 0 then StripTemplates(s[TemplateClose(s, 2) + 1..])
    else [s[0]] + StripTemplates(s[1..])
  }

  /** Text without any "#{" is left alone. */
  lemma {:induction false} NoTemplateKept(s: string)
    requires !Contains(s, "#{")
    ensures StripTemplates(s) == s
    decreases |s|
  {
    if s != [] {
      assert !OccursAt(s, "#{", 0);
      assert !Contains(s[1..], "#{") by {
        forall i | 0 <= i <= |s[1..]| ensures !OccursAt(s[1..], "#{", i) {
          assert !OccursAt(s, "#{", i + 1);
          if i + 2 <= |s[1..]| {
            assert s[1..][i..i + 2] == s[i + 1..i + 3];
          }
        }
      }
      NoTemplateKept(s[1..]);
    }
  }

  /**
    A template is removed up to its first '}', and only it: the text in
    front (free of '#') and the text after are kept.
   */
  lemma {:induction false} TemplateRemoved(a: string, t: string, b: string)
    requires '#' !in a && '}' !in t && '\n' !in t
    ensures StripTemplates(a + "#{" + t + "}" + b) == a + StripTemplates(b)
    decreases |a|
  {
    var s := a + "#{" + t + "}" + b;
    if a == [] {
      assert s == "#{" + t + "}" + b;
      TemplateAtStart(t, b);
    } else {
      assert s[1..] == a[1..] + "#{" + t + "}" + b;
      KeptChar(s);
      TemplateRemoved(a[1..], t, b);
      assert a == [a[0]] + a[1..];
    }
  }

  /** A template at the start is dropped whole. */
  lemma TemplateAtStart(t: string, b: string)
    requires '}' !in t && '\n' !in t
    ensures StripTemplates("#{" + t + "}" + b) == StripTemplates(b)
  {
    var s := "#{" + t + "}" + b;
    assert HasPrefix(s, "#{");
    TemplateCloseAt(s, t);
    assert s[|t| + 3..] == b;
  }

  /** A character other than '#' is kept. */
  lemma KeptChar(s: string)
    requires s != [] && s[0] != '#'
    ensures StripTemplates(s) == [s[0]] + StripTemplates(s[1..])
  {
  }

  lemma TemplateCloseAt(s: string, t: string)
    requires '}' !in t && '\n' !in t
    requires |s| >= |t| + 3 && s[2..|t| + 2] == t && s[|t| + 2] == '}'
    ensures TemplateClose(s, 2) == |t| + 2
  {
    var k := |t| + 2;
    while k > 2
      invariant 2 <= k <= |t| + 2
      invariant TemplateClose(s, k) == |t| + 2
    {
      assert s[k - 1] == t[k - 3];
      k := k - 1;
    }
  }

  // ---------------------------------------------------------------------
  // Building an import.

  /**
    The directory as computed from the specifier as written: its Dir, with
    "./" put back for a self-relative specifier whose Dir is not ".".
   */
  function DirectoryOf(importPath: string): (r: string)
    ensures r != ""
  {
    var dir := Dir(importPath);
    CleanNonEmpty(importPath[..LastIndex(importPath, "/") + 1]);
    if HasPrefix(importPath, "./") && dir != "." then "./" + dir else dir
  }

  /**
    The split at the first "#?": the text before it, and the directive from
    it on ("" when there is none).
   */
  function SplitDirective(cleaned: string): (r: (string, string))
    ensures r.0 + r.1 == cleaned
    ensures !Contains(r.0, "#?")
    ensures r.1 == "" || HasPrefix(r.1, "#?")
  {
    var directivePos := Index(cleaned, "#?");
    if directivePos >= 0 then
      var rest := cleaned[..directivePos];
      assert forall j :: 0 <= j <= |rest| ==> !OccursAt(rest, "#?", j) by {
        forall j | 0 <= j <= |rest| && OccursAt(rest, "#?", j) ensures false {
          assert cleaned[j..j + 2] == rest[j..j + 2];
          assert OccursAt(cleaned, "#?", j);
        }
      }
      (rest, cleaned[directivePos..])
    else
      (cleaned, "")
  }

  /**
    The steps shared by NewImport and newImport: classification and the
    directory come from the specifier as written, the directive and the file
    name from `cleaned` (the specifier after template removal, or the
    specifier itself).
   */
  function Build(importPath: string, cleaned: string): Import {
    var isSelfRelative := HasPrefix(importPath, "./");
    var isParentRelative := HasPrefix(importPath, "../");
    var isRooted := !isSelfRelative && !isParentRelative;
    var directory := DirectoryOf(importPath);
    var isSolo := isRooted && directory == ".";
    var (rest, directive) := SplitDirective(cleaned);
    Import(Base(rest), if isSolo then "" else directory, directive,
           isSelfRelative, isParentRelative, isRooted, isSolo)
  }

  /** NewImport of source/Import.go. */
  function NewImport(importPath: string): Import {
    Build(importPath, StripTemplates(importPath))
  }

  /** newImport of dep/Import.go: no template removal. */
  function NewDepImport(importPath: string): Import {
    Build(importPath, importPath)
  }

  /** Without "#{" in the specifier the two builders agree. */
  lemma BuildersAgree(p: string)
    requires !Contains(p, "#{")
    ensures NewImport(p) == NewDepImport(p)
  {
    NoTemplateKept(p);
  }

  /** Exactly one of the three kinds holds, decided by the "./" and "../" prefixes. */
  lemma ExactlyOneKind(p: string, cleaned: string)
    ensures var imp := Build(p, cleaned);
            && (imp.isSelfRelative <==> HasPrefix(p, "./"))
            && (imp.isParentRelative <==> HasPrefix(p, "../"))
            && imp.Classified()
  {
    if HasPrefix(p, "../") {
      assert p[1] == '.';
    }
  }

  /**
    The directory: empty exactly for a solo import, which is a rooted
    specifier whose Dir is "."; "./" put back in front of the Dir of a
    self-relative specifier unless it is "."; otherwise the Dir itself.
   */
  lemma DirectoryShape(p: string, cleaned: string)
    ensures var imp := Build(p, cleaned);
            && (imp.isSolo <==> imp.isRooted && Dir(p) == ".")
            && (imp.directory == "" <==> imp.isSolo)
            && (imp.isSelfRelative && Dir(p) != "." ==> imp.directory == "./" + Dir(p))
            && (!imp.isSolo && !(imp.isSelfRelative && Dir(p) != ".") ==> imp.directory == Dir(p))
  {
  }

  /**
    The directive is the text from the first "#?" of the cleaned specifier
    on; the file name is the Base of what precedes it.
   */
  lemma DirectiveSplit(p: string, cleaned: string)
    ensures var imp := Build(p, cleaned);
            var rest := cleaned[..|cleaned| - |imp.directive|];
            && HasSuffix(cleaned, imp.directive)
            && !Contains(rest, "#?") && imp.filename == Base(rest)
            && (imp.directive == "" || HasPrefix(imp.directive, "#?"))
  {
    var (rest, directive) := SplitDirective(cleaned);
    assert cleaned[..|cleaned| - |directive|] == rest;
  }

  /** Ext() is the extension of the file name, so a directive never contributes one. */
  lemma ExtOfFilename(imp: Import)
    ensures HasSuffix(imp.filename, imp.Ext())
  {
  }

  // ---------------------------------------------------------------------
  // Path() gives the specifier back.

  /** A specifier without '#' has no template and no directive. */
  lemma NoHashPlain(p: string)
    requires '#' !in p
    ensures StripTemplates(p) == p && Index(p, "#?") == -1
  {
    forall i | 0 <= i <= |p| ensures !OccursAt(p, "#{", i) && !OccursAt(p, "#?", i) {
      if i + 2 <= |p| {
        assert p[i..i + 2][0] == p[i];
      }
    }
    NoTemplateKept(p);
  }

  /** A bare name is a solo import whose path is the name. */
  lemma SoloPath(f: string)
    requires f != "" && '/' !in f && '#' !in f
    ensures NewImport(f) == NewDepImport(f)
    ensures NewImport(f).isSolo && NewImport(f).Path() == f
  {
    NoHashPlain(f);
    assert NewImport(f) == Build(f, f);
    BaseOfName(f);
    NameNotRelative(f);
    assert DirectoryOf(f) == ".";
    assert SplitDirective(f) == (f, "");
  }

  lemma NameNotRelative(f: string)
    requires '/' !in f
    ensures !HasPrefix(f, "./") && !HasPrefix(f, "../")
  {
    if |f| >= 2 {
      assert f[1] in f;
    }
    if |f| >= 3 {
      assert f[2] in f;
    }
  }

  /**
    A specifier d + "/" + f with a clean directory d (for example ".", "..",
    "../a" or "a/b") is not solo, and its path is the specifier itself.
   */
  lemma JoinedPath(p: string, d: string, f: string)
    requires p == d + "/" + f
    requires Clean(d) == d && f != "" && '/' !in f && '#' !in p
    ensures NewImport(p) == NewDepImport(p)
    ensures !NewImport(p).isSolo && NewImport(p).Path() == p
  {
    NoHashPlain(p);
    CleanNonEmpty(d);
    DirOfJoin(d, f);
    CleanTrailingSlash(d);
    BaseOfJoin(d, f);
    CleanNotSelfRelative(d);
    assert p[0] == d[0];
    if |d| >= 2 {
      assert p[1] == d[1];
    }
    if HasPrefix(p, "./") {
      assert d == ".";
    }
  }

  /** A specifier "./" + d + "/" + f keeps its "./" in the directory and in its path. */
  lemma SelfRelativePath(p: string, d: string, f: string)
    requires p == "./" + d + "/" + f
    requires Clean(d) == d && d != "." && !IsAbs(d)
    requires f != "" && '/' !in f && '#' !in p
    ensures NewImport(p) == NewDepImport(p)
    ensures NewImport(p).isSelfRelative && NewImport(p).Path() == p
  {
    assert p == ("./" + d) + "/" + f;
    NoHashPlain(p);
    CleanNonEmpty(d);
    DirOfJoin("./" + d, f);
    assert ("./" + d) + "/" == "./" + (d + "/");
    CleanDotPrefix(d + "/");
    CleanTrailingSlash(d);
    BaseOfJoin("./" + d, f);
  }

  /**
    A directive after a self-relative name is split off: it is the directive,
    and the path is the specifier without it.
   */
  lemma DirectivePath(p: string, f: string, x: string)
    requires f != "" && '/' !in f && '#' !in f && '/' !in x && '#' !in x
    requires p == "./" + f + "#?" + x
    ensures NewImport(p).directive == "#?" + x
    ensures NewImport(p).Path() == "./" + f && NewImport(p).isSelfRelative
  {
    DirectiveParts(f, x);
    DirectiveDirectory(p, f, x);
    BuildSelfRelative(p, p, "./" + f, "#?" + x);
    BaseOfJoin(".", f);
    DotSlash(f);
  }

  /** "." joined to a name by "/" is "./" + name. */
  lemma DotSlash(f: string)
    ensures "." + "/" + f == "./" + f
  {
  }

  /** The directory of "./" + f + "#?" + x is ".". */
  lemma DirectiveDirectory(p: string, f: string, x: string)
    requires '/' !in f && '/' !in x
    requires p == "./" + f + "#?" + x
    ensures HasPrefix(p, "./") && DirectoryOf(p) == "."
  {
    var n := f + "#?" + x;
    assert p == "./" + n;
    DotDirectory(n);
  }

  /** A self-relative specifier whose directory is "." keeps "." as its directory and is not solo. */
  lemma BuildSelfRelative(p: string, cleaned: string, rest: string, directive: string)
    requires HasPrefix(p, "./") && DirectoryOf(p) == "."
    requires SplitDirective(cleaned) == (rest, directive)
    ensures Build(p, cleaned) == Import(Base(rest), ".", directive, true, false, false, false)
  {
    assert p[1] == '/';
  }

  lemma DirectiveParts(f: string, x: string)
    requires '#' !in f && '#' !in x
    ensures var p := "./" + f + "#?" + x;
            StripTemplates(p) == p && SplitDirective(p) == ("./" + f, "#?" + x)
  {
    var p := "./" + f + "#?" + x;
    DirectiveText(f, x);
    NoTemplateKept(p);
    assert p[..2 + |f|] == "./" + f;
    assert p[2 + |f|..] == "#?" + x;
  }

  /** The fields of a built import, one by one. */
  lemma BuildFields(p: string, cleaned: string)
    ensures var imp := Build(p, cleaned);
            && imp.isSelfRelative == HasPrefix(p, "./")
            && imp.filename == Base(SplitDirective(cleaned).0)
            && imp.directive == SplitDirective(cleaned).1
            && (!imp.isSolo ==> imp.directory == DirectoryOf(p))
            && imp.isSolo == (imp.isRooted && DirectoryOf(p) == ".")
  {
  }

  /** In "./" + f + "#?" + x the only '#' is the one of the directive. */
  lemma DirectiveText(f: string, x: string)
    requires '#' !in f && '#' !in x
    ensures var p := "./" + f + "#?" + x;
            !Contains(p, "#{") && Index(p, "#?") == 2 + |f|
  {
    var p := "./" + f + "#?" + x;
    var k := 2 + |f|;
    assert p[k] == '#' && p[k + 1] == '?';
    forall j | 0 <= j < |p| && j != k ensures p[j] != '#' {
      if 2 <= j < k {
        assert p[j] == f[j - 2];
      } else if j > k + 1 {
        assert p[j] == x[j - k - 2];
      }
    }
    forall i | 0 <= i <= |p| ensures !OccursAt(p, "#{", i) && (i < k ==> !OccursAt(p, "#?", i)) {
      if i + 2 <= |p| {
        assert p[i..i + 2][0] == p[i] && p[i..i + 2][1] == p[i + 1];
      }
    }
    assert p[k..k + 2] == [p[k], p[k + 1]];
    assert OccursAt(p, "#?", k);
  }

  /** A specifier "./" + n with no further slash has the directory ".". */
  lemma DotDirectory(n: string)
    requires '/' !in n
    ensures DirectoryOf("./" + n) == "."
  {
    DirOfJoin(".", n);
    DotSlash(n);
    CleanTrailingSlash(".");
    CleanRendered(false, []);
  }

  // ---------------------------------------------------------------------
  // The specifiers of the Import tests.

  lemma SoloVector(p: string)
    requires p == "tslib"
    ensures NewImport(p).Path() == p && NewImport(p).isSolo
  {
    SoloPath(p);
  }

  lemma RootRelativeVector(p: string, d: string)
    requires d == "some/root/relative" && p == d + "/" + "path.js"
    ensures NewImport(p).Path() == p && NewImport(p).isRooted && !NewImport(p).isSolo
  {
    ThreeLevelsClean(d);
    JoinedPath(p, d, "path.js");
  }

  lemma ThreeLevelsClean(d: string)
    requires d == "some/root/relative"
    ensures Clean(d) == d
  {
    var a, b, c := "some", "root", "relative";
    CleanRendered(false, [a, b, c]);
    JoinThree(a, b, c);
    ThreeLevelsText(a, b, c, d);
  }

  lemma JoinThree(a: string, b: string, c: string)
    ensures Join([a, b, c], "/") == a + "/" + (b + "/" + c)
  {
    assert [a, b, c][1..] == [b, c];
    assert [b, c][1..] == [c];
    assert Join([c], "/") == c;
    assert Join([b, c], "/") == b + "/" + c;
  }

  lemma ThreeLevelsText(a: string, b: string, c: string, d: string)
    requires a == "some" && b == "root" && c == "relative" && d == "some/root/relative"
    ensures a + "/" + (b + "/" + c) == d
  {
  }

  lemma SelfRelativeVector(p: string, d: string, f: string)
    requires d == "one" && f == "abc.ts" && p == "./" + d + "/" + f
    ensures NewImport(p).Path() == p && NewImport(p).isSelfRelative
  {
    CleanRendered(false, [d]);
    assert Join([d], "/") == d;
    SelfRelativePath(p, d, f);
  }

  lemma ParentRelativeVector(p: string, d: string)
    requires d == "../one" && p == d + "/" + "abc.ts"
    ensures NewImport(p).Path() == p && NewImport(p).isParentRelative
  {
    var st := ["..", "one"];
    CleanRendered(false, st);
    assert Join(st, "/") == ".." + "/" + "one" == d;
    JoinedPath(p, d, "abc.ts");
  }

  lemma DirectiveVector(p: string, f: string, x: string)
    requires f == "search-results.mobile.html" && x == "Config|Config.MOBILE_RELEASE"
    requires p == "./" + f + "#?" + x
    ensures NewImport(p).Path() == "./" + f
    ensures NewImport(p).directive == "#?" + x
  {
    DirectivePath(p, f, x);
  }

  lemma TemplateVector(p: string, a: string, t: string, b: string)
    requires a == "../path/file" && t == "Config|Config.RELEASE" && b == ".html"
    requires p == a + "#{" + t + "}" + b
    ensures StripTemplates(p) == a + b
  {
    TemplateRemoved(a, t, b);
    NoHashPlain(b);
  }

  // ---------------------------------------------------------------------
  // Resolving a relative import against a root-relative one.

  /**
    ToRootRelativeImport of source/Import.go: a solo import is returned as
    it is; a non-rooted import is joined onto the directory of a rooted one.
    Every other combination ends the program (log.Fatalf).
   */
  function ToRootRelativeImport(base: Import, rel: Import): (r: Import)
    requires rel.isSolo || (base.isRooted && !rel.isRooted)
  {
    if rel.isSolo then rel else NewImport(Join2(base.directory, rel.Path()))
  }

  /**
    toRootRelativeImport of dep/Import.go: only a non-rooted import against
    a rooted one; there is no pass-through for solo imports.
   */
  function ToRootRelativeDepImport(base: Import, rel: Import): (r: Import)
    requires base.isRooted && !rel.isRooted
  {
    NewDepImport(Join2(base.directory, rel.Path()))
  }

  /** Join2 never yields a path starting with "./". */
  lemma JoinNotSelfRelative(a: string, b: string)
    ensures !HasPrefix(Join2(a, b), "./")
  {
    if a == "" && b != "" {
      CleanNotSelfRelative(b);
    } else if a != "" {
      CleanNotSelfRelative(a + "/" + b);
    }
  }

  /** A resolved import is never self-relative. */
  lemma ResolvedNotSelfRelative(base: Import, rel: Import)
    requires rel.Classified()
    requires rel.isSolo || (base.isRooted && !rel.isRooted)
    ensures !ToRootRelativeImport(base, rel).isSelfRelative
    ensures base.isRooted && !rel.isRooted ==> !ToRootRelativeDepImport(base, rel).isSelfRelative
  {
    var q := Join2(base.directory, rel.Path());
    JoinNotSelfRelative(base.directory, rel.Path());
    assert NewImport(q).isSelfRelative == HasPrefix(q, "./");
    assert NewDepImport(q).isSelfRelative == HasPrefix(q, "./");
  }

  /** The directory of a rooted, non-solo import is a clean path other than ".". */
  lemma RootedDirectoryClean(p: string)
    requires NewImport(p).isRooted && !NewImport(p).isSolo
    ensures Clean(NewImport(p).directory) == NewImport(p).directory
    ensures NewImport(p).directory != "."
  {
    DirIsClean(p);
  }

  /**
    A sibling import "./f" of a rooted import with a relative directory
    resolves to that directory + "/" + f, and its path is exactly that.
   */
  lemma SiblingResolution(base: Import, rp: string, f: string)
    requires base.isRooted && !base.isSolo
    requires Clean(base.directory) == base.directory && base.directory != "." && !IsAbs(base.directory)
    requires IsElement(f) && f != ".." && '#' !in f && '#' !in base.directory
    requires rp == "./" + f
    ensures NewImport(rp).isSelfRelative
    ensures ToRootRelativeImport(base, NewImport(rp)).Path() == base.directory + "/" + f
  {
    var d := base.directory;
    CleanRendered(false, []);
    DotSlash(f);
    JoinedPath(rp, ".", f);
    JoinDotName(d, f);
    JoinedPath(d + "/" + f, d, f);
  }
}
