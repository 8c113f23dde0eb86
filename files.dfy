/**
  The plain records of the source package: a file known to the bundle, by
  its root-relative id and its absolute location (source/File.go), and the
  dependencies of one file, by id (source/DependencyLink.go).
 */
module SourceFiles {

  /** File; its parsed elements are filled in lazily elsewhere and not modelled. */
  datatype File = File(id: string, filepath: string)

  /** DependencyLink: the file `id` depends on the files `dependencyIDs`. */
  datatype DependencyLink = DependencyLink(id: string, dependencyIDs: seq<string>)
}
