/**
 The file system as the server sees it: what `std::fs::metadata`, `is_symlink` and `File::open` report.
 It does not change while requests are served.
 */
module Files {
  import opened Wrappers
  import opened Paths
  import opened Conditionals

  /** `mtime` is in nanoseconds since the UNIX epoch. */
  datatype Metadata = Metadata(isDir: bool, len: nat, mtime: Option<nat>, blksize: nat)

  /** `data` is what reading a regular file yields; reading a directory fails. */
  datatype Node = Node(meta: Metadata, data: seq<bv8>)

  datatype OpenError = PermissionDenied | OtherError

  datatype FileSystem = FileSystem(
    nodes: map<Path, Node>,
    symlinks: set<Path>,
    openErrors: map<Path, OpenError>)
  {
    predicate Valid() {
      forall p :: p in nodes && !nodes[p].meta.isDir ==> nodes[p].meta.len == |nodes[p].data|
    }

    /** `try_metadata`. */
    function Meta(path: Path): (m: Option<Metadata>)
      ensures m.Some? <==> path in nodes
    {
      if path in nodes then Some(nodes[path].meta) else None
    }
  }

  const NANOS_PER_SEC: nat := 1_000_000_000

  /** The date for `Last-Modified`; a file dated at the epoch itself has none. */
  function LastModified(meta: Metadata): (d: Option<HttpDate>) {
    if meta.mtime.None? || meta.mtime.value == 0 then None else Some(meta.mtime.value / NANOS_PER_SEC)
  }
}
