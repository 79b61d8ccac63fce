/** Paths and the filesystem probes the core performs, as abstract inputs.
    A path is the sequence of its components below the filesystem root, so
    the root itself is `[]` and `Path::join` appends one component. */
module Fs {

  type Path = seq<string>

  /** `path.join(name)` for a single component. */
  function Join(p: Path, name: string): (r: Path)
    ensures |r| == |p| + 1 && r[..|p|] == p && r[|p|] == name
  {
    p + [name]
  }

  /** The outcome of `std::fs::read_to_string`. */
  datatype ReadResult =
    | Contents(text: string)
    | NotFound
    | OtherIoError(kind: string)

  /** What the core asks of the filesystem: `Path::exists`, `Path::is_dir`
      and `read_to_string`. The three are independent inputs. */
  datatype FileSystem = FileSystem(
    pathExists: Path -> bool,
    isDir: Path -> bool,
    read: Path -> ReadResult)
}
