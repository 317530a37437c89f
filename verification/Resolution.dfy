/**
 From a path to the file to serve: `.html` suffixes (src/fs/meta.rs), pre-compressed variants
 (src/compression_static.rs) and index files (`get_composed_file_metadata` of src/static_files.rs).
 Paths are compared by their components, as `Path` equality does.
 */
module Resolution {
  import opened Wrappers
  import opened Paths
  import opened Files
  import opened Negotiation

  // ---- Path operations

  /** `Path::file_name`: the last component, when it is a normal one. */
  function FileName(path: Path): (n: Option<string>) {
    if path != [] && path[|path| - 1].Normal? then Some(path[|path| - 1].name) else None
  }

  /** `Path::parent`. */
  function Parent(path: Path): (p: Option<Path>) {
    if path == [] || path[|path| - 1].RootDir? then None else Some(path[..|path| - 1])
  }

  /** `Path::with_file_name`. */
  function WithFileName(path: Path, name: string): (p: Path) {
    (if FileName(path).Some? then path[..|path| - 1] else path) + [Normal(name)]
  }

  /** A `PathBuf` that is changed in place. */
  class PathBuf {
    var path: Path

    constructor (path: Path)
      ensures this.path == path
    {
      this.path := path;
    }

    method Push(name: string)
      modifies this
      ensures path == old(path) + [Normal(name)]
    {
      path := path + [Normal(name)];
    }

    method Pop() returns (ok: bool)
      modifies this
      ensures ok == Parent(old(path)).Some?
      ensures path == if ok then Parent(old(path)).value else old(path)
    {
      ok := Parent(path).Some?;
      if ok {
        path := Parent(path).value;
      }
    }

    method SetFileName(name: string)
      modifies this
      ensures path == WithFileName(old(path), name)
    {
      if FileName(path).Some? {
        var _ := Pop();
      }
      Push(name);
    }
  }

  // ---- Pre-compressed variants

  function Extension(c: ContentCoding): (ext: Option<string>) {
    match c
    case GZIP => Some("gz")
    case DEFLATE => Some("gz")
    case BROTLI => Some("br")
    case ZSTD => Some("zst")
    case _ => None
  }

  /** The path of the variant of `path` for a coding. */
  function VariantPath(path: Path, c: ContentCoding): (p: Option<Path>) {
    if Extension(c).None? || FileName(path).None? then None
    else Some(WithFileName(path, FileName(path).value + "." + Extension(c).value))
  }

  /** There is a regular variant file for the coding. */
  predicate HasVariant(fs: FileSystem, path: Path, c: ContentCoding) {
    var v := VariantPath(path, c);
    v.Some? && v.value in fs.nodes && !fs.nodes[v.value].meta.isDir
  }

  /** The coding at `i` is the first with a regular variant file. */
  predicate FirstVariantAt(fs: FileSystem, path: Path, encodings: seq<ContentCoding>, i: nat) {
    && i < |encodings| && HasVariant(fs, path, encodings[i])
    && forall j :: 0 <= j < i ==> !HasVariant(fs, path, encodings[j])
  }

  datatype Variant = Variant(path: Path, meta: Metadata, coding: ContentCoding)

  function VariantFor(fs: FileSystem, path: Path, c: ContentCoding): (v: Variant)
    requires HasVariant(fs, path, c)
  {
    var p := VariantPath(path, c).value;
    Variant(p, fs.nodes[p].meta, c)
  }

  /** `precompressed_variant`: the earliest listed coding that has a regular variant file. */
  method PrecompressedVariant(fs: FileSystem, path: Path, encodings: seq<ContentCoding>) returns (v: Option<Variant>)
    ensures v.None? ==> forall i :: 0 <= i < |encodings| ==> !HasVariant(fs, path, encodings[i])
    ensures v.Some? ==>
      exists i: nat :: FirstVariantAt(fs, path, encodings, i) && v.value == VariantFor(fs, path, encodings[i])
  {
    for i := 0 to |encodings|
      invariant forall j :: 0 <= j < i ==> !HasVariant(fs, path, encodings[j])
    {
      var ext := Extension(encodings[i]);
      if ext.None? { continue; }
      var name := FileName(path);
      if name.None? { continue; }
      var p := WithFileName(path, name.value + "." + ext.value);
      var meta := fs.Meta(p);
      if meta.None? { continue; }
      if meta.value.isDir { continue; }
      assert FirstVariantAt(fs, path, encodings, i);
      return Some(Variant(p, meta.value, encodings[i]));
    }
    return None;
  }

  // ---- The specification: the first hit of an ordered list of candidates

  /** Something to look for: `path` is reported, `target` is what must exist and will be opened. */
  datatype Candidate = Candidate(path: Path, target: Path, coding: Option<ContentCoding>, isDir: bool)

  /** Variants must be regular files, anything else need only exist. */
  predicate Hit(fs: FileSystem, c: Candidate) {
    c.target in fs.nodes && (c.coding.Some? ==> !fs.nodes[c.target].meta.isDir)
  }

  function FirstHit(fs: FileSystem, cs: seq<Candidate>): (c: Option<Candidate>)
    ensures c.Some? ==> c.value in cs && Hit(fs, c.value)
    ensures c.None? ==> forall d :: d in cs ==> !Hit(fs, d)
  {
    if cs == [] then None else if Hit(fs, cs[0]) then Some(cs[0]) else FirstHit(fs, cs[1..])
  }

  /** Variants of `path`, in the order of preference. */
  function VariantCandidates(path: Path, encodings: seq<ContentCoding>): (cs: seq<Candidate>)
    ensures forall c :: c in cs ==> c.path == path && c.coding.Some? && !c.isDir && Some(c.target) == VariantPath(path, c.coding.value)
    ensures forall c :: c in cs ==> c.coding.value in encodings
    ensures forall e :: e in encodings && VariantPath(path, e).Some? ==> Candidate(path, VariantPath(path, e).value, Some(e), false) in cs
  {
    if encodings == [] then []
    else
      var v := VariantPath(path, encodings[0]);
      (if v.Some? then [Candidate(path, v.value, Some(encodings[0]), false)] else [])
      + VariantCandidates(path, encodings[1..])
  }

  /** The path suffixed with `.html`; a path without a file name has none. */
  function HtmlPath(path: Path): (p: Option<Path>) {
    if FileName(path).None? then None else Some(WithFileName(path, FileName(path).value + ".html"))
  }

  function HtmlCandidates(path: Path, isDir: bool): (cs: seq<Candidate>) {
    if HtmlPath(path).None? then [] else [Candidate(HtmlPath(path).value, HtmlPath(path).value, None, isDir)]
  }

  /** For each index name: its variants, the index itself, then `<dir>.html`. */
  function IndexCandidates(dir: Path, indexes: seq<string>, encodings: seq<ContentCoding>): (cs: seq<Candidate>) {
    if indexes == [] then []
    else OneIndex(dir, indexes[0], encodings) + IndexCandidates(dir, indexes[1..], encodings)
  }

  function OneIndex(dir: Path, index: string, encodings: seq<ContentCoding>): (cs: seq<Candidate>) {
    var p := dir + [Normal(index)];
    VariantCandidates(p, encodings) + [Candidate(p, p, None, true)] + HtmlCandidates(dir, true)
  }

  const DEFAULT_INDEX_FILES: seq<string> := ["index.html"]

  const NOT_FOUND: nat := 404
  const FORBIDDEN: nat := 403

  datatype FileMetadata = FileMetadata(
    path: Path,
    meta: Metadata,
    isDir: bool,
    variant: Option<(Path, ContentCoding)>)

  function Found(fs: FileSystem, c: Candidate): (m: FileMetadata)
    requires Hit(fs, c)
  {
    FileMetadata(c.path, fs.nodes[c.target].meta, c.isDir, if c.coding.Some? then Some((c.target, c.coding.value)) else None)
  }

  function IndexesOrDefault(indexFiles: seq<string>): (r: seq<string>)
    ensures r != []
  {
    if indexFiles == [] then DEFAULT_INDEX_FILES else indexFiles
  }

  /** What a path resolves to; `encodings` is empty when static compression is off. */
  function Resolve(fs: FileSystem, path: Path, encodings: seq<ContentCoding>, indexFiles: seq<string>, disableSymlinks: bool)
    : (r: Result<FileMetadata, nat>)
  {
    if disableSymlinks && path in fs.symlinks then Err(FORBIDDEN)
    else if path !in fs.nodes then
      var hit := FirstHit(fs, VariantCandidates(path, encodings) + HtmlCandidates(path, false));
      if hit.Some? then Ok(Found(fs, hit.value)) else Err(NOT_FOUND)
    else if !fs.nodes[path].meta.isDir then
      var hit := FirstHit(fs, VariantCandidates(path, encodings));
      Ok(if hit.Some? then Found(fs, hit.value) else FileMetadata(path, fs.nodes[path].meta, false, None))
    else
      var indexes := IndexesOrDefault(indexFiles);
      var hit := FirstHit(fs, IndexCandidates(path, indexes, encodings));
      Ok(if hit.Some? then Found(fs, hit.value)
         else FileMetadata(path + [Normal(indexes[|indexes| - 1])], fs.nodes[path].meta, true, None))
  }

  // ---- The code, which probes with one path buffer

  /** The variant search agrees with the candidates of the specification. */
  lemma {:induction false} VariantIsFirstHit(fs: FileSystem, path: Path, encodings: seq<ContentCoding>, i: nat)
    requires i <= |encodings|
    requires forall j :: 0 <= j < i ==> !HasVariant(fs, path, encodings[j])
    requires i < |encodings| ==> HasVariant(fs, path, encodings[i])
    ensures FirstHit(fs, VariantCandidates(path, encodings)) ==
      if i < |encodings|
      then Some(Candidate(path, VariantPath(path, encodings[i]).value, Some(encodings[i]), false))
      else None
  {
    if encodings != [] {
      var tail := VariantCandidates(path, encodings[1..]);
      if i > 0 {
        assert !HasVariant(fs, path, encodings[0]);
        VariantIsFirstHit(fs, path, encodings[1..], i - 1);
        if VariantPath(path, encodings[0]).Some? {
          assert VariantCandidates(path, encodings)[1..] == tail;
        } else {
          assert VariantCandidates(path, encodings) == tail;
        }
      }
    }
  }

  lemma {:induction false} FirstHitAppend(fs: FileSystem, a: seq<Candidate>, b: seq<Candidate>)
    ensures FirstHit(fs, a + b) == if FirstHit(fs, a).Some? then FirstHit(fs, a) else FirstHit(fs, b)
  {
    if a == [] {
      assert a + b == b;
    } else {
      FirstHitAppend(fs, a[1..], b);
      assert (a + b)[1..] == a[1..] + b;
    }
  }

  /** The variant search, stated against the candidate list. */
  method FindVariant(fs: FileSystem, path: Path, encodings: seq<ContentCoding>) returns (v: Option<Variant>)
    ensures var hit := FirstHit(fs, VariantCandidates(path, encodings));
      && (v.None? <==> hit.None?)
      && (v.Some? ==> Found(fs, hit.value) == FileMetadata(path, v.value.meta, false, Some((v.value.path, v.value.coding))))
  {
    v := PrecompressedVariant(fs, path, encodings);
    ghost var i: nat := |encodings|;
    if v.Some? {
      i :| FirstVariantAt(fs, path, encodings, i) && v.value == VariantFor(fs, path, encodings[i]);
    }
    VariantIsFirstHit(fs, path, encodings, i);
  }

  /** `try_metadata_with_html_suffix`: renames the buffer, and restores it when nothing is found. */
  method TryMetadataWithHtmlSuffix(fs: FileSystem, buf: PathBuf) returns (meta: Option<Metadata>)
    modifies buf
    ensures var hit := FirstHit(fs, HtmlCandidates(old(buf.path), true));
      && (meta.Some? <==> hit.Some?)
      && (meta.Some? ==> buf.path == hit.value.path && meta.value == fs.nodes[buf.path].meta)
    ensures meta.None? ==> buf.path == old(buf.path)
  {
    var name := FileName(buf.path);
    if name.Some? {
      buf.SetFileName(name.value + ".html");
      meta := fs.Meta(buf.path);
      if meta.Some? {
        return;
      }
      buf.SetFileName(name.value);
    }
    meta := None;
  }

  /** `get_composed_file_metadata` refines the specification and leaves the reported path in the buffer. */
  method GetComposedFileMetadata(fs: FileSystem, buf: PathBuf, encodings: seq<ContentCoding>, indexFiles: seq<string>, disableSymlinks: bool)
    returns (r: Result<FileMetadata, nat>)
    modifies buf
    ensures r == Resolve(fs, old(buf.path), encodings, indexFiles, disableSymlinks)
    ensures r.Ok? ==> buf.path == r.value.path
    ensures r.Err? ==> buf.path == old(buf.path)
  {
    if disableSymlinks && buf.path in fs.symlinks {
      return Err(FORBIDDEN);
    }
    var first := fs.Meta(buf.path);
    match first {
      case Some(meta) =>
        if meta.isDir {
          r := ComposeDirectory(fs, buf, meta, encodings, IndexesOrDefault(indexFiles));
        } else {
          var v := FindVariant(fs, buf.path, encodings);
          if v.Some? {
            return Ok(FileMetadata(buf.path, v.value.meta, false, Some((v.value.path, v.value.coding))));
          }
          return Ok(FileMetadata(buf.path, meta, false, None));
        }
      case None =>
        r := ComposeMissing(fs, buf, encodings);
    }
  }

  /** The branch for a path that does not exist. Its last variant check never succeeds. */
  method ComposeMissing(fs: FileSystem, buf: PathBuf, encodings: seq<ContentCoding>) returns (r: Result<FileMetadata, nat>)
    requires buf.path !in fs.nodes
    modifies buf
    ensures r == Resolve(fs, old(buf.path), encodings, [], false)
    ensures r.Ok? ==> buf.path == r.value.path
    ensures r.Err? ==> buf.path == old(buf.path)
  {
    ghost var path := buf.path;
    FirstHitAppend(fs, VariantCandidates(path, encodings), HtmlCandidates(path, false));
    var v := FindVariant(fs, buf.path, encodings);
    if v.Some? {
      return Ok(FileMetadata(buf.path, v.value.meta, false, Some((v.value.path, v.value.coding))));
    }
    var newMeta := TryMetadataWithHtmlSuffix(fs, buf);
    if newMeta.Some? {
      return Ok(FileMetadata(buf.path, newMeta.value, false, None));
    }
    v := FindVariant(fs, buf.path, encodings);
    if v.Some? {
      assert false;  // the buffer is back at the requested path, whose variants were tried above
    }
    return Err(NOT_FOUND);
  }

  /** The index loop: push an index, probe, pop, probe `<dir>.html`. */
  method ComposeDirectory(fs: FileSystem, buf: PathBuf, dirMeta: Metadata, encodings: seq<ContentCoding>, indexes: seq<string>)
    returns (r: Result<FileMetadata, nat>)
    requires buf.path in fs.nodes && fs.nodes[buf.path].meta == dirMeta && dirMeta.isDir && indexes != []
    modifies buf
    ensures r.Ok? && buf.path == r.value.path
    ensures var hit := FirstHit(fs, IndexCandidates(old(buf.path), indexes, encodings));
      r.value == if hit.Some? then Found(fs, hit.value)
                 else FileMetadata(old(buf.path) + [Normal(indexes[|indexes| - 1])], dirMeta, true, None)
  {
    var metadata := dirMeta;
    var indexFound := false;
    ghost var dir := buf.path;
    ghost var spec := FirstHit(fs, IndexCandidates(dir, indexes, encodings));
    for i := 0 to |indexes|
      invariant buf.path == dir && !indexFound && metadata == dirMeta
      invariant FirstHit(fs, IndexCandidates(dir, indexes[i..], encodings)) == spec
    {
      assert indexes[i..][1..] == indexes[i + 1..];
      IndexStep(fs, dir, indexes[i..], encodings);
      buf.Push(indexes[i]);
      var v := FindVariant(fs, buf.path, encodings);
      if v.Some? {
        return Ok(FileMetadata(buf.path, v.value.meta, false, Some((v.value.path, v.value.coding))));
      }
      var indexMeta := fs.Meta(buf.path);
      if indexMeta.Some? {
        metadata := indexMeta.value;
        indexFound := true;
        break;
      }
      var _ := buf.Pop();
      var newMeta := TryMetadataWithHtmlSuffix(fs, buf);
      if newMeta.Some? {
        metadata := newMeta.value;
        indexFound := true;
        break;
      }
    }
    if !indexFound {
      buf.Push(indexes[|indexes| - 1]);
    }
    return Ok(FileMetadata(buf.path, metadata, true, None));
  }

  /** The candidates of one index, in order. */
  lemma IndexStep(fs: FileSystem, dir: Path, indexes: seq<string>, encodings: seq<ContentCoding>)
    requires indexes != []
    ensures var p := dir + [Normal(indexes[0])];
      var v := FirstHit(fs, VariantCandidates(p, encodings));
      var h := FirstHit(fs, HtmlCandidates(dir, true));
      FirstHit(fs, IndexCandidates(dir, indexes, encodings)) ==
        if v.Some? then v
        else if p in fs.nodes then Some(Candidate(p, p, None, true))
        else if h.Some? then h
        else FirstHit(fs, IndexCandidates(dir, indexes[1..], encodings))
  {
    var p := dir + [Normal(indexes[0])];
    var vs, here, hs := VariantCandidates(p, encodings), [Candidate(p, p, None, true)], HtmlCandidates(dir, true);
    FirstHitAppend(fs, OneIndex(dir, indexes[0], encodings), IndexCandidates(dir, indexes[1..], encodings));
    FirstHitAppend(fs, vs + here, hs);
    FirstHitAppend(fs, vs, here);
  }

  // ---- What the resolution promises its callers

  /** The path `file_reply` opens. */
  function Opened(m: FileMetadata): (p: Path) {
    if m.variant.Some? then m.variant.value.0 else m.path
  }

  /** A directory none of whose index candidates exists. */
  predicate NoIndex(fs: FileSystem, path: Path, encodings: seq<ContentCoding>, indexFiles: seq<string>) {
    && path in fs.nodes && fs.nodes[path].meta.isDir
    && FirstHit(fs, IndexCandidates(path, IndexesOrDefault(indexFiles), encodings)).None?
  }

  lemma {:induction false} LastIndexIsCandidate(dir: Path, indexes: seq<string>, encodings: seq<ContentCoding>)
    requires indexes != []
    ensures var p := dir + [Normal(indexes[|indexes| - 1])];
      Candidate(p, p, None, true) in IndexCandidates(dir, indexes, encodings)
  {
    if |indexes| > 1 {
      LastIndexIsCandidate(dir, indexes[1..], encodings);
    } else {
      var p := dir + [Normal(indexes[0])];
      assert Candidate(p, p, None, true) in OneIndex(dir, indexes[0], encodings);
    }
  }

  /** A candidate reports the path it opens, or is a variant of the path it reports. */
  predicate WellFormed(c: Candidate, encodings: seq<ContentCoding>) {
    if c.coding.None? then c.path == c.target
    else !c.isDir && VariantPath(c.path, c.coding.value) == Some(c.target) && encodings != []
  }

  lemma {:induction false} IndexCandidatesWellFormed(dir: Path, indexes: seq<string>, encodings: seq<ContentCoding>, c: Candidate)
    requires c in IndexCandidates(dir, indexes, encodings)
    ensures WellFormed(c, encodings)
  {
    if c !in OneIndex(dir, indexes[0], encodings) {
      IndexCandidatesWellFormed(dir, indexes[1..], encodings, c);
    }
  }

  /**
   The metadata describes the path that will be opened, except for a directory without any index:
   there the reported path does not exist and the metadata is the directory's. Pre-compressed
   variants are regular files that belong to the reported path.
   */
  lemma MetadataCoherent(fs: FileSystem, path: Path, encodings: seq<ContentCoding>, indexFiles: seq<string>, disableSymlinks: bool)
    requires Resolve(fs, path, encodings, indexFiles, disableSymlinks).Ok?
    ensures var m := Resolve(fs, path, encodings, indexFiles, disableSymlinks).value;
      if NoIndex(fs, path, encodings, indexFiles)
      then m.variant.None? && m.path !in fs.nodes && m.isDir && m.meta == fs.nodes[path].meta
      else Opened(m) in fs.nodes && m.meta == fs.nodes[Opened(m)].meta
    ensures var m := Resolve(fs, path, encodings, indexFiles, disableSymlinks).value;
      m.variant.Some? ==>
        && !m.isDir && !m.meta.isDir && encodings != []
        && VariantPath(m.path, m.variant.value.1) == Some(m.variant.value.0)
  {
    if path in fs.nodes && fs.nodes[path].meta.isDir {
      var indexes := IndexesOrDefault(indexFiles);
      var hit := FirstHit(fs, IndexCandidates(path, indexes, encodings));
      if hit.Some? {
        IndexCandidatesWellFormed(path, indexes, encodings, hit.value);
      } else {
        LastIndexIsCandidate(path, indexes, encodings);
      }
    }
  }

  // ---- Which candidate of a directory is hit

  /** Nothing in `encodings` has a variant for the path. */
  predicate NoVariant(fs: FileSystem, path: Path, encodings: seq<ContentCoding>) {
    forall c :: c in encodings ==> !HasVariant(fs, path, c)
  }

  /** The first `i` index names, with their variants and `<dir>.html`, are missing. */
  predicate Skipped(fs: FileSystem, dir: Path, indexes: seq<string>, encodings: seq<ContentCoding>, i: nat)
    requires i <= |indexes|
  {
    && (forall j :: 0 <= j < i ==>
          dir + [Normal(indexes[j])] !in fs.nodes && NoVariant(fs, dir + [Normal(indexes[j])], encodings))
    && (i > 0 && HtmlPath(dir).Some? ==> HtmlPath(dir).value !in fs.nodes)
  }

  /** The variant candidates hit nothing exactly when there is no variant. */
  lemma VariantHit(fs: FileSystem, path: Path, encodings: seq<ContentCoding>)
    ensures var hit := FirstHit(fs, VariantCandidates(path, encodings));
      && (hit.None? <==> NoVariant(fs, path, encodings))
      && (hit.Some? ==> hit.value.coding.Some? && hit.value.coding.value in encodings
                        && HasVariant(fs, path, hit.value.coding.value)
                        && hit.value == Candidate(path, VariantPath(path, hit.value.coding.value).value, hit.value.coding, false))
  {
    var cs := VariantCandidates(path, encodings);
    if FirstHit(fs, cs).None? {
      forall c | c in encodings ensures !HasVariant(fs, path, c) {
        if VariantPath(path, c).Some? {
          assert !Hit(fs, Candidate(path, VariantPath(path, c).value, Some(c), false));
        }
      }
    }
  }

  /** Skipped index names can be left out of the search. */
  lemma {:induction false} SkipTo(fs: FileSystem, dir: Path, indexes: seq<string>, encodings: seq<ContentCoding>, i: nat)
    requires i <= |indexes| && Skipped(fs, dir, indexes, encodings, i)
    ensures FirstHit(fs, IndexCandidates(dir, indexes, encodings)) == FirstHit(fs, IndexCandidates(dir, indexes[i..], encodings))
  {
    if i > 0 {
      var p := dir + [Normal(indexes[0])];
      IndexStep(fs, dir, indexes, encodings);
      VariantHit(fs, p, encodings);
      assert forall j :: 0 <= j < i - 1 ==> indexes[1..][j] == indexes[j + 1];
      assert Skipped(fs, dir, indexes[1..], encodings, i - 1);
      SkipTo(fs, dir, indexes[1..], encodings, i - 1);
      assert indexes[1..][i - 1..] == indexes[i..];
    } else {
      assert indexes[0..] == indexes;
    }
  }

  /** A hit among the index candidates belongs to the first index name that is not skipped. */
  lemma {:induction false} HitAtIndex(fs: FileSystem, dir: Path, indexes: seq<string>, encodings: seq<ContentCoding>) returns (i: nat)
    requires FirstHit(fs, IndexCandidates(dir, indexes, encodings)).Some?
    ensures i < |indexes| && Skipped(fs, dir, indexes, encodings, i)
    ensures var hit, p := FirstHit(fs, IndexCandidates(dir, indexes, encodings)).value, dir + [Normal(indexes[i])];
      || hit == Candidate(p, p, None, true)
      || (hit.coding.Some? && hit.coding.value in encodings && HasVariant(fs, p, hit.coding.value)
          && hit == Candidate(p, VariantPath(p, hit.coding.value).value, hit.coding, false))
      || (p !in fs.nodes && HtmlPath(dir).Some? && i == 0
          && hit == Candidate(HtmlPath(dir).value, HtmlPath(dir).value, None, true))
  {
    if indexes != [] {
      var p := dir + [Normal(indexes[0])];
      IndexStep(fs, dir, indexes, encodings);
      VariantHit(fs, p, encodings);
      if FirstHit(fs, VariantCandidates(p, encodings)).Some? || p in fs.nodes || FirstHit(fs, HtmlCandidates(dir, true)).Some? {
        i := 0;
      } else {
        i := HitAtIndex(fs, dir, indexes[1..], encodings);
        assert HtmlPath(dir).Some? ==> !Hit(fs, Candidate(HtmlPath(dir).value, HtmlPath(dir).value, None, true));
        i := i + 1;
        assert forall j :: 1 <= j < i ==> indexes[j] == indexes[1..][j - 1];
      }
    }
  }

  /** `<dir>.html` wins over every index but the first: it is probed before the second one. */
  lemma HtmlBeatsSecondIndex(fs: FileSystem, dir: Path, encodings: seq<ContentCoding>, indexFiles: seq<string>, disableSymlinks: bool)
    requires dir in fs.nodes && fs.nodes[dir].meta.isDir && !(disableSymlinks && dir in fs.symlinks)
    requires indexFiles != [] && dir + [Normal(indexFiles[0])] !in fs.nodes
    requires NoVariant(fs, dir + [Normal(indexFiles[0])], encodings)
    requires HtmlPath(dir).Some? && HtmlPath(dir).value in fs.nodes
    ensures Resolve(fs, dir, encodings, indexFiles, disableSymlinks).value.path == HtmlPath(dir).value
  {
    IndexStep(fs, dir, indexFiles, encodings);
    VariantHit(fs, dir + [Normal(indexFiles[0])], encodings);
  }

  /** Adding a component, or a suffix to the last one, does not make a hidden path visible. */
  lemma HiddenExtends(path: Path, name: string)
    requires IsHidden(path)
    ensures IsHidden(path + [Normal(name)])
    ensures FileName(path).Some? ==> IsHidden(WithFileName(path, FileName(path).value + ".html"))
  {
    var i :| 0 <= i < |path| && path[i].Normal? && path[i].name != "" && path[i].name[0] == '.';
    assert (path + [Normal(name)])[i] == path[i];
    if FileName(path).Some? {
      var html := WithFileName(path, FileName(path).value + ".html");
      assert i < |path| - 1 ==> html[i] == path[i];
      assert html[|path| - 1].name == path[|path| - 1].name + ".html";
      assert html[i].Normal? && html[i].name[0] == '.';
    }
  }

  lemma {:induction false} IndexesOfHiddenAreHidden(dir: Path, indexes: seq<string>, encodings: seq<ContentCoding>, c: Candidate)
    requires IsHidden(dir) && c in IndexCandidates(dir, indexes, encodings)
    ensures IsHidden(c.path)
  {
    if c in OneIndex(dir, indexes[0], encodings) {
      HiddenExtends(dir, indexes[0]);
    } else {
      IndexesOfHiddenAreHidden(dir, indexes[1..], encodings, c);
    }
  }

  /** A hidden path only resolves to hidden paths. */
  lemma HiddenStaysHidden(fs: FileSystem, path: Path, encodings: seq<ContentCoding>, indexFiles: seq<string>, disableSymlinks: bool)
    requires IsHidden(path) && Resolve(fs, path, encodings, indexFiles, disableSymlinks).Ok?
    ensures IsHidden(Resolve(fs, path, encodings, indexFiles, disableSymlinks).value.path)
  {
    var indexes := IndexesOrDefault(indexFiles);
    HiddenExtends(path, indexes[|indexes| - 1]);
    if path in fs.nodes && fs.nodes[path].meta.isDir {
      var hit := FirstHit(fs, IndexCandidates(path, indexes, encodings));
      if hit.Some? {
        IndexesOfHiddenAreHidden(path, indexes, encodings, hit.value);
      }
    }
  }

  // ---- Symbolic links

  /** The path or one of its ancestors is a link. */
  ghost predicate ThroughLink(fs: FileSystem, path: Path) {
    exists k :: 0 <= k <= |path| && path[..k] in fs.symlinks
  }

  /** An ancestor of the path is a link. */
  ghost predicate BelowLink(fs: FileSystem, path: Path) {
    exists k :: 0 <= k < |path| && path[..k] in fs.symlinks
  }

  /** The candidates a path is resolved to, before the path itself. */
  function Candidates(fs: FileSystem, path: Path, encodings: seq<ContentCoding>, indexFiles: seq<string>): (cs: seq<Candidate>) {
    if path !in fs.nodes then VariantCandidates(path, encodings) + HtmlCandidates(path, false)
    else if !fs.nodes[path].meta.isDir then VariantCandidates(path, encodings)
    else IndexCandidates(path, IndexesOrDefault(indexFiles), encodings)
  }

  /** The opened file is the path itself, a sibling of it, or lies directly in it. */
  predicate Near(path: Path, file: Path) {
    || file == path
    || (path != [] && |file| == |path| && file[..|path| - 1] == path[..|path| - 1])
    || (|file| == |path| + 1 && file[..|path|] == path)
  }

  lemma {:induction false} CandidatesAreNear(dir: Path, indexes: seq<string>, encodings: seq<ContentCoding>, c: Candidate)
    requires c in IndexCandidates(dir, indexes, encodings)
    ensures Near(dir, c.target)
  {
    if c !in OneIndex(dir, indexes[0], encodings) {
      CandidatesAreNear(dir, indexes[1..], encodings, c);
    }
  }

  lemma LinksOfNearPath(fs: FileSystem, path: Path, file: Path)
    requires Near(path, file) && path !in fs.symlinks
    ensures ThroughLink(fs, file) <==> BelowLink(fs, path) || file in fs.symlinks
  {
    if ThroughLink(fs, file) && file !in fs.symlinks {
      var k :| 0 <= k <= |file| && file[..k] in fs.symlinks;
      assert file[..|file|] == file && path[..|path|] == path;
      assert k < |file|;
      assert k <= |path| && file[..k] == path[..k];
    }
    if BelowLink(fs, path) {
      var k :| 0 <= k < |path| && path[..k] in fs.symlinks;
      assert file[..k] == path[..k];
    }
    if file in fs.symlinks {
      assert file[..|file|] == file;
    }
  }

  /**
   With symbolic links disabled, exactly the requests whose own path is a link are refused. What is opened
   for the others is reached through a link exactly when an ancestor of the requested path is a link, or
   the first existing candidate is one: an index, a `.html` file or a variant.
   */
  lemma LinksRefusedExactly(fs: FileSystem, path: Path, encodings: seq<ContentCoding>, indexFiles: seq<string>)
    ensures Resolve(fs, path, encodings, indexFiles, true) == Err(FORBIDDEN) <==> path in fs.symlinks
    ensures var r := Resolve(fs, path, encodings, indexFiles, true);
      r.Ok? && !NoIndex(fs, path, encodings, indexFiles) ==>
        var hit := FirstHit(fs, Candidates(fs, path, encodings, indexFiles));
        (ThroughLink(fs, Opened(r.value)) <==> BelowLink(fs, path) || (hit.Some? && hit.value.target in fs.symlinks))
  {
    var r := Resolve(fs, path, encodings, indexFiles, true);
    var hit := FirstHit(fs, Candidates(fs, path, encodings, indexFiles));
    if r.Ok? && !NoIndex(fs, path, encodings, indexFiles) {
      if hit.Some? && path in fs.nodes && fs.nodes[path].meta.isDir {
        CandidatesAreNear(path, IndexesOrDefault(indexFiles), encodings, hit.value);
        IndexCandidatesWellFormed(path, IndexesOrDefault(indexFiles), encodings, hit.value);
      }
      LinksOfNearPath(fs, path, Opened(r.value));
    }
  }
}
