/**
  The workspace of the source package (source/Workspace.go): a root
  directory whose path is normalised to the platform separator, root-prefix
  stripping, and the probe that finds the file behind an import.
 */
module Workspaces {
  import opened Wrappers
  import opened GoStrings
  import opened Imports
  import opened SourceFiles

  /** Workspace: the root path always ends with the separator it was normalised to. */
  datatype Workspace = Workspace(rootPath: string)

  /**
    normaliseFilepath for the separator `sep`: with '/', every '\' becomes
    '/'; with any other separator every '/' becomes '\'. With
    `requireSuffix` the separator is appended unless already last.
   */
  function Normalised(sep: char, filepath: string, requireSuffix: bool): (r: string)
  {
    var replaced := if sep == '/' then ReplaceChar(filepath, '\\', '/') else ReplaceChar(filepath, '/', '\\');
    if requireSuffix && !HasSuffix(replaced, [sep]) then replaced + [sep] else replaced
  }

  /** A normalised path holds no separator of the other kind. */
  lemma NormalisedSeparators(sep: char, filepath: string, requireSuffix: bool)
    requires sep == '/' || sep == '\\'
    ensures var r := Normalised(sep, filepath, requireSuffix);
            (sep == '/' ==> '\\' !in r) && (sep == '\\' ==> '/' !in r)
  {
    var r := Normalised(sep, filepath, requireSuffix);
    var replaced := if sep == '/' then ReplaceChar(filepath, '\\', '/') else ReplaceChar(filepath, '/', '\\');
    assert r == replaced || r == replaced + [sep];
    if sep == '/' {
      assert forall i :: 0 <= i < |replaced| ==> replaced[i] != '\\';
    } else {
      assert forall i :: 0 <= i < |replaced| ==> replaced[i] != '/';
    }
  }

  /** With `requireSuffix` the result ends with the separator, and is the input's replacement plus at most that separator. */
  lemma NormalisedSuffix(sep: char, filepath: string)
    ensures HasSuffix(Normalised(sep, filepath, true), [sep])
    ensures var replaced := Normalised(sep, filepath, false);
            Normalised(sep, filepath, true) in {replaced, replaced + [sep]}
  {
  }

  /** Normalising twice changes nothing more. */
  lemma NormalisedIdempotent(sep: char, filepath: string, requireSuffix: bool)
    requires sep == '/' || sep == '\\'
    ensures Normalised(sep, Normalised(sep, filepath, requireSuffix), requireSuffix)
            == Normalised(sep, filepath, requireSuffix)
  {
    var r := Normalised(sep, filepath, requireSuffix);
    NormalisedSeparators(sep, filepath, requireSuffix);
    var from := if sep == '/' then '\\' else '/';
    assert from !in r;
    assert ReplaceChar(r, from, sep) == r;
    if requireSuffix {
      NormalisedSuffix(sep, filepath);
    }
  }

  /**
    The platform: the operating system's separator, and the global that
    normaliseFilepath consults (emulateUnix overrides it for one call).
   */
  class Platform {
    const pathSeparator: char
    var explicitSep: char

    constructor (pathSeparator: char)
      ensures this.pathSeparator == pathSeparator && explicitSep == pathSeparator
    {
      this.pathSeparator := pathSeparator;
      explicitSep := pathSeparator;
    }

    /** emulateUnix */
    method EmulateUnix()
      modifies this
      ensures explicitSep == '/'
    {
      explicitSep := '/';
    }

    /**
      normaliseFilepath: normalises with the current global separator and
      then resets the global to the operating system's separator.
     */
    method NormaliseFilepath(filepath: string, requireSuffix: bool) returns (r: string)
      modifies this
      ensures r == Normalised(old(explicitSep), filepath, requireSuffix)
      ensures explicitSep == pathSeparator
    {
      var normalisedFilepath;
      if explicitSep == '/' {
        normalisedFilepath := ReplaceChar(filepath, '\\', '/');
      } else {
        normalisedFilepath := ReplaceChar(filepath, '/', '\\');
      }
      if requireSuffix {
        if !HasSuffix(normalisedFilepath, [explicitSep]) {
          normalisedFilepath := normalisedFilepath + [explicitSep];
        }
      }
      if explicitSep != pathSeparator {
        explicitSep := pathSeparator;
      }
      return normalisedFilepath;
    }

    /** NewWorkspace: the root path normalised, with a trailing separator. */
    method NewWorkspace(rootPath: string) returns (ws: Workspace)
      modifies this
      ensures ws.rootPath == Normalised(old(explicitSep), rootPath, true)
      ensures HasSuffix(ws.rootPath, [old(explicitSep)])
      ensures explicitSep == pathSeparator
    {
      ghost var sep := explicitSep;
      var normalised := NormaliseFilepath(rootPath, true);
      NormalisedSuffix(sep, rootPath);
      ws := Workspace(normalised);
    }
  }

  /** ReplaceChar characterised pointwise. */
  lemma ReplacedTo(s: string, from: char, to: char, t: string)
    requires |s| == |t|
    requires forall i :: 0 <= i < |s| ==> t[i] == (if s[i] == from then to else s[i])
    ensures ReplaceChar(s, from, to) == t
  {
  }

  /** On Windows, a root given with either separator ends in '\'. */
  lemma WindowsRootVectors(windows: string, unix: string, root: string)
    requires windows == "c:\\wf\\lp\\web\\App" && unix == "c:/wf/lp/web/App"
    requires root == windows + "\\"
    ensures Normalised('\\', windows, true) == root
    ensures Normalised('\\', unix, true) == root
  {
    ReplacedTo(windows, '/', '\\', windows);
    ReplacedTo(unix, '/', '\\', windows);
  }

  /** On Unix, a root given with either separator ends in '/'. */
  lemma UnixRootVectors(unix: string, windows: string, root: string)
    requires unix == "/usr/wf/lp/web/App" && windows == "\\usr\\wf\\lp\\web\\App\\"
    requires root == unix + "/"
    ensures Normalised('/', unix, true) == root
    ensures Normalised('/', windows, true) == root
  {
    ReplacedTo(unix, '\\', '/', unix);
    ReplacedTo(windows, '\\', '/', root);
  }

  /** emulateUnix affects the next normalisation only. */
  method EmulateUnixVector(unix: string, windows: string) returns (emulated: Workspace, fromWindows: Workspace, afterwards: Workspace)
    requires unix == "/usr/wf/lp/web/App" && windows == "\\usr\\wf\\lp\\web\\App\\"
    ensures emulated.rootPath == "/usr/wf/lp/web/App/"
    ensures fromWindows.rootPath == "/usr/wf/lp/web/App/"
    ensures afterwards.rootPath == Normalised('\\', unix, true)
  {
    UnixRootVectors(unix, windows, unix + "/");
    var platform := new Platform('\\');
    platform.EmulateUnix();
    emulated := platform.NewWorkspace(unix);
    platform.EmulateUnix();
    fromWindows := platform.NewWorkspace(windows);
    afterwards := platform.NewWorkspace(unix);
  }

  /**
    ToRelativePath: a path under the root loses the root and has every '\'
    turned into '/'; any other path gives ("", false).
   */
  function ToRelativePath(ws: Workspace, absoluteFilepath: string): (r: (string, bool))
  {
    if HasPrefix(absoluteFilepath, ws.rootPath) then
      (ReplaceChar(absoluteFilepath[|ws.rootPath|..], '\\', '/'), true)
    else
      ("", false)
  }

  /** The root-relative path is found exactly for paths under the root, and is the rest with '/' separators. */
  lemma RelativeToRoot(ws: Workspace, rest: string)
    ensures ToRelativePath(ws, ws.rootPath + rest) == (ReplaceChar(rest, '\\', '/'), true)
  {
    assert (ws.rootPath + rest)[|ws.rootPath|..] == rest;
  }

  /** A path outside the root is refused. */
  lemma OutsideRoot(ws: Workspace, absoluteFilepath: string)
    requires !HasPrefix(absoluteFilepath, ws.rootPath)
    ensures ToRelativePath(ws, absoluteFilepath) == ("", false)
  {
  }

  /** A relative path without '\' joined back onto the root gives the original path. */
  lemma RelativeRoundTrip(ws: Workspace, absoluteFilepath: string)
    requires ToRelativePath(ws, absoluteFilepath).1
    requires '\\' !in absoluteFilepath
    ensures ws.rootPath + ToRelativePath(ws, absoluteFilepath).0 == absoluteFilepath
  {
    var rest := absoluteFilepath[|ws.rootPath|..];
    AbsentFromSuffix(absoluteFilepath, |ws.rootPath|, '\\');
    ReplaceAbsent(rest, '\\', '/');
    PrefixAndRest(absoluteFilepath, ws.rootPath);
  }

  /** A character missing from a text is missing from each of its suffixes. */
  lemma AbsentFromSuffix(s: string, k: nat, c: char)
    requires k <= |s| && c !in s
    ensures c !in s[k..]
  {
    forall i | 0 <= i < |s[k..]| ensures s[k..][i] != c {
      assert s[k..][i] == s[k + i];
    }
  }

  /** Replacing a character that does not occur changes nothing. */
  lemma ReplaceAbsent(s: string, from: char, to: char)
    requires from !in s
    ensures ReplaceChar(s, from, to) == s
  {
    ReplacedTo(s, from, to, s);
  }

  /** A prefix followed by the rest of the text is the text. */
  lemma PrefixAndRest(s: string, p: string)
    requires HasPrefix(s, p)
    ensures p + s[|p|..] == s
  {
    assert p == s[..|p|];
  }

  /** The relative-path vectors of a Windows workspace. */
  lemma RelativePathVector(ws: Workspace, rest: string, inside: string, outside: string)
    requires ws.rootPath == "c:\\wf\\lp\\web\\App\\"
    requires rest == "app\\src\\ep\\app.js" && inside == ws.rootPath + rest
    requires outside == "c:\\wf\\home\\topo\\topo.js"
    ensures ToRelativePath(ws, inside) == ("app/src/ep/app.js", true)
    ensures ToRelativePath(ws, outside) == ("", false)
  {
    RelativeToRoot(ws, rest);
    ReplacedTo(rest, '\\', '/', "app/src/ep/app.js");
    assert outside[6] != ws.rootPath[6];
  }

  /** The extensions ReadSourceFile tries, in order. */
  const Probes: seq<string> := ["", ".js"]

  /**
    The file ReadSourceFile finds for `imp`: the bare path if it exists,
    else the path with ".js", else none. `present` stands for os.Stat
    succeeding and `join` for filepath.Join.
   */
  function SourceFileFor(ws: Workspace, imp: Import, present: string -> bool,
                         join: (string, string) -> string): (r: Option<File>)
    ensures r.Some? ==> r.value.id == imp.Path() && present(r.value.filepath)
    ensures r.None? <==> !present(join(ws.rootPath, imp.Path())) && !present(join(ws.rootPath, imp.Path() + ".js"))
    ensures present(join(ws.rootPath, imp.Path())) ==> r == Some(File(imp.Path(), join(ws.rootPath, imp.Path())))
  {
    var bare := join(ws.rootPath, imp.Path() + Probes[0]);
    var script := join(ws.rootPath, imp.Path() + Probes[1]);
    assert imp.Path() + Probes[0] == imp.Path();
    if present(bare) then Some(File(imp.Path(), bare))
    else if present(script) then Some(File(imp.Path(), script))
    else None
  }

  /** ReadSourceFile: probes the extensions in order and stops at the first file that exists. */
  method ReadSourceFile(ws: Workspace, imp: Import, present: string -> bool,
                        join: (string, string) -> string) returns (file: Option<File>)
    ensures file == SourceFileFor(ws, imp, present, join)
  {
    var found := false;
    var absoluteFilePath := "";
    var i := 0;
    while i < |Probes|
      invariant 0 <= i <= |Probes|
      invariant !found
      invariant forall j :: 0 <= j < i ==> !present(join(ws.rootPath, imp.Path() + Probes[j]))
    {
      absoluteFilePath := join(ws.rootPath, imp.Path() + Probes[i]);
      if present(absoluteFilePath) {
        found := true;
        break;
      }
      i := i + 1;
    }
    assert imp.Path() + Probes[0] == imp.Path();
    if found {
      return Some(File(imp.Path(), absoluteFilePath));
    }
    return None;
  }
}
