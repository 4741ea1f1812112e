/**
  The directory tree the enumeration reads, as an input value instead of the
  live `/sys/devices/` hierarchy.
*/
module Sysfs {
  import opened Wrappers

  /** `/sys/devices/` and paths built from it with `filepath.Join`. */
  datatype Path = SysDevices | Join(dir: Path, name: string)

  /**
    A snapshot of the filesystem: the entry names of every directory that can be
    listed (in the name order `ioutil.ReadDir` returns), and the contents of every
    file that can be read. A path missing from `dirs` cannot be listed; one
    missing from `files` cannot be read.
  */
  datatype FileSystem = FileSystem(dirs: map<Path, seq<string>>, files: map<Path, string>)

  /** The error `ioutil.ReadDir` returns, identified by the path it could not list. */
  datatype ListError = ListError(path: Path)

  /** `ioutil.ReadDir`, keeping only the entry names. */
  function ReadDir(fs: FileSystem, p: Path): Option<seq<string>> {
    if p in fs.dirs then Some(fs.dirs[p]) else None
  }

  /** `ioutil.ReadFile`. */
  function ReadFile(fs: FileSystem, p: Path): Option<string> {
    if p in fs.files then Some(fs.files[p]) else None
  }
}
