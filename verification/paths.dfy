/**
 * What the engine sees of the operating system: the path functions of the
 * platform, left uninterpreted, and a file system reduced to a map from
 * absolute paths to files and directories, each with its birth time, a
 * directory also with its listing in the order the platform returns it.
 */
module Paths {

  /** `path.resolve`, `path.normalize`, `path.join` and `path.parse(p).base`, whatever the platform makes of them. */
  datatype PathOps = PathOps(
    resolve: string -> string,
    normalize: string -> string,
    join: (string, string) -> string,
    base: string -> string)

  datatype Node = File(birthtime: int) | Dir(birthtime: int, children: seq<string>)

  type FileSystem = map<string, Node>
}
