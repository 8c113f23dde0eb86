/** RemoveExtension of util/path.go and its identical copy in io/fileutil.go. */
module UtilPath {
  import opened GoStrings
  import opened GoPath

  /** The path without the extension path.Ext finds. */
  function RemoveExtension(relativePath: string): (r: string)
    ensures r + Ext(relativePath) == relativePath
  {
    var ext := Ext(relativePath);
    if ext != "" then
      assert HasSuffix(relativePath, ext);
      relativePath[..|relativePath| - |ext|]
    else
      relativePath
  }

  /** Without an extension the path is kept. */
  lemma NoExtensionKept(p: string)
    requires Ext(p) == ""
    ensures RemoveExtension(p) == p
  {
  }

  /** The removed part is the last dot of the final element and what follows it. */
  lemma RemovedSuffixShape(p: string)
    requires Ext(p) != ""
    ensures var ext := p[|RemoveExtension(p)|..];
            ext[0] == '.' && '/' !in ext && '.' !in ext[1..]
  {
    assert p[|RemoveExtension(p)|..] == Ext(p);
  }

  lemma RemoveExtensionVector(p: string)
    requires p == "/some/path/" + "name.js"
    ensures RemoveExtension(p) == "/some/path/" + "name"
  {
    assert p[15] == '.' && p[16] == 'j' && p[17] == 's';
    assert Ext(p) == ".js" by {
      assert ExtFrom(p, 17) == ExtFrom(p, 16) == ExtFrom(p, 15) == ".js";
    }
  }

  /** A dot in a directory name is not an extension. */
  lemma DotInDirectoryIgnored(p: string)
    requires p == "/a.b/" + "c"
    ensures RemoveExtension(p) == p
  {
    assert ExtFrom(p, 5) == ExtFrom(p, 4) == "";
  }
}
