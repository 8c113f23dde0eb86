/**
  The module list of a systemjs_build file (config/BuildDescription.go) and
  its normalisation: every module name and include is joined onto the
  build's base path and cleaned; the excludes are copied as they are.
  filepath.Join, which depends on the platform, is a parameter.
 */
module BuildDescriptions {
  import opened GoStrings
  import opened GoPath

  /** One module of the build file. */
  datatype ModuleDescription = ModuleDescription(name: string, includes: seq<string>, excludes: seq<string>)

  /** The whole build file. */
  datatype BuildDescription = BuildDescription(modules: seq<ModuleDescription>, base: string)

  /** A module with its paths made relative to the workspace root, and its file on disk. */
  datatype NormalisedModuleDescription =
    NormalisedModuleDescription(description: ModuleDescription, relativePath: string, absoluteFilepath: string)

  /** A path as normaliseRelativePath leaves it: clean (or empty), and never starting with "./". */
  predicate IsNormalised(p: string) {
    (p == "" || Clean(p) == p) && !HasPrefix(p, "./")
  }

  /** path.Join of two elements is empty only when both are, and otherwise clean and not self-relative. */
  lemma JoinNormalised(a: string, b: string)
    ensures IsNormalised(Join2(a, b))
    ensures Join2(a, b) == "" <==> a == "" && b == ""
  {
    if a != "" || b != "" {
      var p := if a == "" then b else a + "/" + b;
      assert Join2(a, b) == Clean(p);
      CleanIdempotent(p);
      CleanNotSelfRelative(p);
      CleanNonEmpty(p);
    }
  }

  /** normaliseRelativePath: path.Join of the base path and a module path. */
  function NormaliseRelativePath(basePath: string, moduleName: string): (r: string)
    ensures IsNormalised(r)
    ensures r == "" <==> basePath == "" && moduleName == ""
  {
    JoinNormalised(basePath, moduleName);
    Join2(basePath, moduleName)
  }

  /**
    ModuleDescription.Normalise: the name and the excludes are kept; each
    include, in order, and the name are joined onto the base path; the file
    is rootPath, basePath and name joined by the platform.
   */
  function Normalise(md: ModuleDescription, basePath: string, rootPath: string,
                     filepathJoin: seq<string> -> string): (r: NormalisedModuleDescription)
    ensures r.description.name == md.name && r.description.excludes == md.excludes
    ensures |r.description.includes| == |md.includes|
    ensures forall i :: 0 <= i < |md.includes| ==>
              r.description.includes[i] == NormaliseRelativePath(basePath, md.includes[i])
    ensures r.relativePath == NormaliseRelativePath(basePath, md.name)
    ensures r.absoluteFilepath == filepathJoin([rootPath, basePath, md.name])
  {
    var includes := seq(|md.includes|, i requires 0 <= i < |md.includes| =>
                          NormaliseRelativePath(basePath, md.includes[i]));
    NormalisedModuleDescription(ModuleDescription(md.name, includes, md.excludes),
                                NormaliseRelativePath(basePath, md.name),
                                filepathJoin([rootPath, basePath, md.name]))
  }

  /** NormaliseModules: one normalised module per module of the build, in the same order. */
  function NormaliseModules(build: BuildDescription, rootPath: string,
                            filepathJoin: seq<string> -> string): (r: seq<NormalisedModuleDescription>)
    ensures |r| == |build.modules|
    ensures forall i :: 0 <= i < |r| ==> r[i] == Normalise(build.modules[i], build.base, rootPath, filepathJoin)
  {
    seq(|build.modules|, i requires 0 <= i < |build.modules| =>
          Normalise(build.modules[i], build.base, rootPath, filepathJoin))
  }

  /** Every relative path and include of a normalised module is normalised. */
  lemma NormalisedPaths(md: ModuleDescription, basePath: string, rootPath: string,
                        filepathJoin: seq<string> -> string)
    ensures var r := Normalise(md, basePath, rootPath, filepathJoin);
            && IsNormalised(r.relativePath)
            && forall i :: 0 <= i < |r.description.includes| ==> IsNormalised(r.description.includes[i])
  {
  }

  /** A normalised path joined onto an empty base is unchanged. */
  lemma NormaliseRelativePathStable(p: string)
    requires IsNormalised(p)
    ensures NormaliseRelativePath("", p) == p
  {
  }

  /**
    Normalising again with an empty base changes nothing: the names,
    includes and excludes of a normalised module are already normal.
   */
  lemma NormaliseIdempotent(md: ModuleDescription, basePath: string, rootPath: string,
                            filepathJoin: seq<string> -> string)
    requires IsNormalised(md.name)
    ensures var once := Normalise(md, basePath, rootPath, filepathJoin).description;
            var twice := Normalise(once, "", rootPath, filepathJoin).description;
            twice == once
  {
    var once := Normalise(md, basePath, rootPath, filepathJoin).description;
    var twice := Normalise(once, "", rootPath, filepathJoin).description;
    forall i | 0 <= i < |once.includes|
      ensures twice.includes[i] == once.includes[i]
    {
      NormaliseRelativePathStable(once.includes[i]);
    }
  }

  /** The modules keep their names and their order. */
  lemma NormaliseModulesNames(build: BuildDescription, rootPath: string, filepathJoin: seq<string> -> string)
    ensures var r := NormaliseModules(build, rootPath, filepathJoin);
            forall i :: 0 <= i < |r| ==> r[i].description.name == build.modules[i].name
  {
  }

  /** A self-relative include "./one" under the base "a" becomes "a/one". */
  lemma JoinVector(base: string, name: string)
    requires base == "a" && name == "one"
    ensures NormaliseRelativePath(base, "./" + name) == "a/one"
  {
    CleanRendered(false, [base]);
    assert Render(false, [base]) == base;
    JoinDotName(base, name);
  }
}
