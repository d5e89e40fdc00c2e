/**
 * One backup entry of the configuration, after defaulting. The source field
 * is the one the engine reads, `from`: a single path, a list of paths, or
 * absent (a configuration that names its sources under another key).
 */
module Entries {

  datatype FromSpec = FromPath(path: string) | FromList(paths: seq<string>) | FromMissing

  datatype Entry = Entry(
    from: FromSpec,
    name: string,
    description: string,
    compression: string,
    subfolder: string,
    wildcard: string,   // the `match` field
    rename: string,
    keep: int,
    active: bool)
}
