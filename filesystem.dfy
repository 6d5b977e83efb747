/**
 * The operating system as the logger sees it: a finite map from path strings
 * to what `os.Stat` reports about them. Paths are compared as strings; the
 * model does not normalise them (the OS would treat "a//b" as "a/b").
 */
module FileSystem {

  import opened Wrappers

  /** What `os.Stat` reports: a directory or a regular file, and its size in bytes. */
  datatype FileInfo = FileInfo(isDir: bool, size: int)

  type Disk = map<string, FileInfo>

  /** `os.Stat(path)`: fails (None) exactly when nothing exists at `path`. */
  function Stat(disk: Disk, path: string): (r: Option<FileInfo>)
    ensures r.Some? <==> path in disk
    ensures r.Some? ==> r.value == disk[path]
  {
    if path in disk then Some(disk[path]) else None
  }

  /** `before` and `after` agree on everything that existed before: nothing removed or altered. */
  ghost predicate Keeps(before: Disk, after: Disk)
  {
    forall p :: p in before ==> p in after && after[p] == before[p]
  }

  /**
   * `os.MkdirAll(path, ...)` with its error ignored: creates the directory when
   * nothing is there; an existing directory, or a file in the way, is left as it is.
   * Parent directories are not tracked.
   */
  function MkdirAll(disk: Disk, path: string): (r: Disk)
    ensures Keeps(disk, r)
    ensures r.Keys == disk.Keys + {path}
    ensures path !in disk ==> r[path].isDir
  {
    if path in disk then disk else disk[path := FileInfo(true, 0)]
  }

  datatype Opened = Opened(ok: bool, disk: Disk)

  /**
   * `os.OpenFile(path, O_RDWR|O_APPEND|O_CREATE, ...)`. `osOk` stands for every
   * failure the model does not track (permissions, a missing parent directory,
   * a full disk); opening a directory for writing fails as well. On success a
   * missing file is created empty, and an existing one is kept as it is.
   */
  function OpenFile(disk: Disk, path: string, osOk: bool): (r: Opened)
    ensures r.ok <==> osOk && !(path in disk && disk[path].isDir)
    ensures Keeps(disk, r.disk)
    ensures r.disk.Keys == disk.Keys + (if r.ok then {path} else {})
    ensures r.ok ==> !r.disk[path].isDir
    ensures r.ok && path !in disk ==> r.disk[path].size == 0
  {
    var ok := osOk && !(path in disk && disk[path].isDir);
    Opened(ok, if ok && path !in disk then disk[path := FileInfo(false, 0)] else disk)
  }
}
