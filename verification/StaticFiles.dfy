/**
 The request handler for files (`handle` and `file_reply` of src/static_files.rs) with its cache lookup.
 */
module StaticFiles {
  import opened Wrappers
  import opened Text
  import opened Paths
  import opened Files
  import opened Conditionals
  import opened Negotiation
  import opened Resolution
  import opened Responses
  import opened MemCache
  import References
  import Listing
  import Links

  const NO_CONTENT: nat := 204
  const PERMANENT_REDIRECT: nat := 308
  const METHOD_NOT_ALLOWED: nat := 405
  const INTERNAL_SERVER_ERROR: nat := 500

  /** `maxFileSize` is None when the memory cache is off. */
  datatype Options = Options(
    maxFileSize: Option<nat>,
    indexFiles: seq<string>,
    dirListing: bool,
    redirectTrailingSlash: bool,
    compressionStatic: bool,
    ignoreHiddenFiles: bool,
    disableSymlinks: bool)

  /** Turns a request path, the two counts and the ordered entries into a listing page. */
  type Renderer = (string, nat, nat, seq<Listing.FileEntry>) -> string

  /**
   Everything that is fixed while requests are served. The roots are the directories that some Host header
   selects: the main one and those of the virtual hosts. The functions stand for code that is not modelled.
   */
  datatype Site = Site(
    fs: FileSystem,
    roots: set<string>,
    mime: Path -> string,
    readDir: Path -> Result<seq<Option<Listing.DirEntry>>, nat>,
    nameKey: Listing.FileEntry -> int,
    render: Renderer,
    weights: WeightParser,
    opts: Options)

  /**
   The base directory is part of the request, because the Host header selects it among the roots; so is the
   listing order, which the query may change.
   */
  datatype Request = Request(
    verb: Method,
    base: string,
    uriPath: string,
    order: nat,
    acceptEncoding: seq<string>,
    conditionals: ConditionalHeaders)

  /** A request that a client can bring to the file handler. */
  predicate Admissible(site: Site, req: Request) {
    !req.verb.OTHER? && req.base in site.roots && Links.IsUriPath(req.uriPath)
  }

  /**
   Every root is a directory, which starting the server demands (`get_valid_dirpath`). That index names are
   single components is an assumption of the model.
   */
  predicate Configured(site: Site) {
    && (forall root :: root in site.roots ==>
          Components(root) in site.fs.nodes && site.fs.nodes[Components(root)].meta.isDir)
    && forall i :: 0 <= i < |site.opts.indexFiles| ==> IsName(Normal(site.opts.indexFiles[i]))
  }

  /** `HeaderValue::from_str` accepts the text. */
  predicate IsHeaderText(s: string) {
    forall i :: 0 <= i < |s| ==> (' ' <= s[i] && s[i] as int != 127) || s[i] == '\t'
  }

  predicate CacheOn(site: Site) { site.opts.maxFileSize.Some? }

  /** `index.html` is added to the path for the cache. */
  predicate IndexAdded(site: Site, req: Request) {
    CacheOn(site) && site.opts.redirectTrailingSlash && EndsWith(req.uriPath, '/')
  }

  /** The path looked up in the cache and resolved on a miss. */
  function LookupPath(site: Site, req: Request): (p: Path) {
    Sanitized(req.base, req.uriPath) + if IndexAdded(site, req) then [Normal("index.html")] else []
  }

  function StaticEncodings(site: Site, req: Request): (e: seq<ContentCoding>) {
    if site.opts.compressionStatic then GetEncodings(req.acceptEncoding, site.weights) else []
  }

  function Resolved(site: Site, req: Request): (r: Result<FileMetadata, nat>) {
    Resolve(site.fs, LookupPath(site, req), StaticEncodings(site, req), site.opts.indexFiles, site.opts.disableSymlinks)
  }

  /** `file_reply`. */
  function FileReply(site: Site, req: Request, m: FileMetadata): (r: Result<Response, nat>) {
    var file := Opened(m);
    if file !in site.fs.nodes then Err(NOT_FOUND)
    else if file in site.fs.openErrors then
      Err(if site.fs.openErrors[file].PermissionDenied? then FORBIDDEN else INTERNAL_SERVER_ERROR)
    else Ok(DiskResponse(Node(m.meta, site.fs.nodes[file].data), m.path, site.mime(m.path), req.conditionals, site.opts.maxFileSize))
  }

  /** The directory that is listed for a missing index. */
  function ListedDir(path: Path): (dir: Path) {
    if Parent(path).Some? then Parent(path).value else path
  }

  /** The entries of a listing, in no particular order. */
  function ListedEntries(site: Site, req: Request, items: seq<Option<Listing.DirEntry>>): (r: seq<Listing.FileEntry>) {
    Listing.ShownAll(items, req.uriPath, site.opts.ignoreHiddenFiles, site.opts.disableSymlinks)
  }

  /** The page for the entries of a directory. */
  function ListingPage(site: Site, req: Request, entries: seq<Listing.FileEntry>): (r: Response) {
    var dirs := Listing.CountDirs(entries);
    var text := site.render(req.uriPath, dirs, |entries| - dirs, Listing.Ordered(entries, req.order, site.nameKey));
    Response(OK, NO_HEADERS.(contentType := Some("text/html"), contentLength := Some(|text|)),
             if req.verb.HEAD? then Empty else Page(text))
  }

  /** The listing of the directory a missing index was looked for in. */
  function ListingReply(site: Site, req: Request, path: Path): (r: Result<Response, nat>) {
    match site.readDir(ListedDir(path))
    case Err(status) => Err(status)
    case Ok(items) =>
      if None in items then Err(INTERNAL_SERVER_ERROR)
      else Ok(ListingPage(site, req, ListedEntries(site, req, items)))
  }

  /** `auto_index` with `read_dir_entries`. */
  method AutoIndex(site: Site, req: Request, path: Path) returns (r: Result<Response, nat>)
    ensures r == ListingReply(site, req, path)
  {
    var reader := site.readDir(ListedDir(path));
    if reader.Err? {
      return Err(reader.error);
    }
    var ok, dirs, files, entries :=
      Listing.ReadDirEntries(reader.value, req.uriPath, site.opts.ignoreHiddenFiles, site.opts.disableSymlinks);
    if !ok {
      return Err(INTERNAL_SERVER_ERROR);
    }
    var ordered := Listing.OrderEntries(entries, req.order, site.nameKey);
    var text := site.render(req.uriPath, dirs, files, ordered);
    var headers := NO_HEADERS.(contentType := Some("text/html"));
    headers := headers.(contentLength := Some(|text|));
    if req.verb.HEAD? {
      return Ok(Response(OK, headers, Empty));
    }
    return Ok(Response(OK, headers, Page(text)));
  }

  function RedirectReply(req: Request): (r: Result<Response, nat>) {
    if IsHeaderText(req.uriPath + "/")
    then Ok(Response(PERMANENT_REDIRECT, NO_HEADERS.(location := Some(req.uriPath + "/")), Empty))
    else Err(INTERNAL_SERVER_ERROR)
  }

  const OPTIONS_REPLY := Response(NO_CONTENT, NO_HEADERS.(allow := true, acceptRanges := true), Empty)

  /** The answer for a resolved path. */
  function Answer(site: Site, req: Request, m: FileMetadata): (r: Result<Response, nat>) {
    if site.opts.ignoreHiddenFiles && IsHidden(m.path) then Err(NOT_FOUND)
    else if m.isDir && site.opts.redirectTrailingSlash && !EndsWith(req.uriPath, '/') then RedirectReply(req)
    else if req.verb.OPTIONS? then Ok(OPTIONS_REPLY)
    else if m.isDir && site.opts.dirListing && m.path !in site.fs.nodes then ListingReply(site, req, m.path)
    else
      var reply := FileReply(site, req, m);
      if m.variant.Some? && reply.Ok? then
        Ok(reply.value.(headers := reply.value.headers.(contentLength := None, contentEncoding := [m.variant.value.1])))
      else reply
  }

  /** A request that misses the cache. It does not depend on the store. */
  function Miss(site: Site, req: Request): (r: Result<Response, nat>) {
    match Resolved(site, req)
    case Err(status) => Err(status)
    case Ok(m) => Answer(site, req, m)
  }

  predicate Hits(site: Site, store: Store, req: Request) {
    CacheOn(site) && LookupPath(site, req) in store
  }

  /** A request that finds its path in the store. */
  function HitReply(site: Site, store: Store, req: Request): (r: Result<Response, nat>)
    requires Hits(site, store, req)
  {
    Ok(MemResponse(store[LookupPath(site, req)], req.conditionals))
  }

  /** `handle`. */
  method Handle(site: Site, store: CacheStore, req: Request) returns (r: Result<Response, nat>)
    ensures r ==
      if req.verb.OTHER? then Err(METHOD_NOT_ALLOWED)
      else if Hits(site, store.entries, req) then HitReply(site, store.entries, req)
      else Miss(site, req)
    ensures store.entries == old(store.entries)
  {
    if req.verb.OTHER? {
      return Err(METHOD_NOT_ALLOWED);
    }
    var buf := StartBuffer(site, req);
    if site.opts.maxFileSize.Some? && buf.path in store.entries {
      var hit := MemResponseBody(store.entries[buf.path], req.conditionals);
      return Ok(hit);
    }
    var res := GetComposedFileMetadata(site.fs, buf, StaticEncodings(site, req), site.opts.indexFiles, site.opts.disableSymlinks);
    if res.Err? {
      return Err(res.error);
    }
    r := AnswerResolved(site, req, buf, res.value);
  }

  /** The path buffer at the start of `handle`. */
  method StartBuffer(site: Site, req: Request) returns (buf: PathBuf)
    ensures fresh(buf) && buf.path == LookupPath(site, req)
  {
    var raw := SanitizePath(req.base, req.uriPath);
    buf := new PathBuf(Components(raw));
    if site.opts.maxFileSize.Some? && site.opts.redirectTrailingSlash && EndsWith(req.uriPath, '/') {
      buf.Push("index.html");
    }
  }

  /** The rest of `handle`, after the metadata was found. */
  method AnswerResolved(site: Site, req: Request, buf: PathBuf, m: FileMetadata) returns (r: Result<Response, nat>)
    requires buf.path == m.path
    ensures r == Answer(site, req, m)
  {
    if site.opts.ignoreHiddenFiles && IsHidden(buf.path) {
      return Err(NOT_FOUND);
    }
    if m.isDir && site.opts.redirectTrailingSlash && !EndsWith(req.uriPath, '/') {
      return RedirectReply(req);
    }
    if req.verb.OPTIONS? {
      return Ok(OPTIONS_REPLY);
    }
    if m.isDir && site.opts.dirListing && buf.path !in site.fs.nodes {
      r := AutoIndex(site, req, buf.path);
      return;
    }
    var file := Opened(m);
    if file !in site.fs.nodes {
      return Err(NOT_FOUND);
    }
    if file in site.fs.openErrors {
      return Err(if site.fs.openErrors[file].PermissionDenied? then FORBIDDEN else INTERNAL_SERVER_ERROR);
    }
    var node := Node(m.meta, site.fs.nodes[file].data);
    var resp := ResponseBody(node, buf.path, site.mime(buf.path), req.conditionals, site.opts.maxFileSize);
    if m.variant.Some? {
      resp := resp.(headers := resp.headers.(contentLength := None));
      resp := resp.(headers := resp.headers.(contentEncoding := [m.variant.value.1]));
    }
    return Ok(resp);
  }

  // ---- Properties

  /** A streamed answer comes from an existing file whose metadata it was given, under a visible path. */
  lemma StreamedFrom(site: Site, req: Request)
    requires Miss(site, req).Ok? && Miss(site, req).value.body.Streamed?
    ensures Resolved(site, req).Ok?
    ensures var m := Resolved(site, req).value;
      && Opened(m) in site.fs.nodes && Opened(m) !in site.fs.openErrors
      && m.meta == site.fs.nodes[Opened(m)].meta
      && (site.opts.ignoreHiddenFiles ==> !IsHidden(m.path))
      && (m.variant.Some? ==> site.opts.compressionStatic && VariantPath(m.path, m.variant.value.1) == Some(Opened(m)))
      && var disk := DiskResponse(site.fs.nodes[Opened(m)], m.path, site.mime(m.path), req.conditionals, site.opts.maxFileSize);
         && Miss(site, req).value.body == disk.body
         && (Miss(site, req).value.headers.contentLength.Some? ==> Miss(site, req).value.headers.contentLength == disk.headers.contentLength)
  {
    MetadataCoherent(site.fs, LookupPath(site, req), StaticEncodings(site, req), site.opts.indexFiles, site.opts.disableSymlinks);
    var m := Resolved(site, req).value;
    assert FileReply(site, req, m).Ok?;
    assert Node(m.meta, site.fs.nodes[Opened(m)].data) == site.fs.nodes[Opened(m)];
  }

  /** A directory without an index never streams: it is redirected, described, listed or not found. */
  lemma NoIndexOutcome(site: Site, req: Request)
    requires Resolved(site, req).Ok?
    requires NoIndex(site.fs, LookupPath(site, req), StaticEncodings(site, req), site.opts.indexFiles)
    ensures var m := Resolved(site, req).value;
      Miss(site, req) in {Err(NOT_FOUND), RedirectReply(req), Ok(OPTIONS_REPLY), ListingReply(site, req, m.path)}
  {
    MetadataCoherent(site.fs, LookupPath(site, req), StaticEncodings(site, req), site.opts.indexFiles, site.opts.disableSymlinks);
  }

  /**
   Exactly when a miss streams a file: the path resolves, a directory has an index, the reported path is not
   ignored, a directory was asked for with its slash, the method is not OPTIONS, the file can be opened and
   the conditions leave a window. The listing option plays no part in it.
   */
  lemma StreamsExactly(site: Site, req: Request)
    ensures (Miss(site, req).Ok? && Miss(site, req).value.body.Streamed?) <==>
      && Resolved(site, req).Ok?
      && !NoIndex(site.fs, LookupPath(site, req), StaticEncodings(site, req), site.opts.indexFiles)
      && var m := Resolved(site, req).value;
        && !(site.opts.ignoreHiddenFiles && IsHidden(m.path))
        && !(m.isDir && site.opts.redirectTrailingSlash && !EndsWith(req.uriPath, '/'))
        && !req.verb.OPTIONS?
        && Opened(m) !in site.fs.openErrors
        && Serve(m.meta.len, site.mime(m.path), LastModified(m.meta), req.conditionals).window.Some?
  {
    if Resolved(site, req).Ok? {
      MetadataCoherent(site.fs, LookupPath(site, req), StaticEncodings(site, req), site.opts.indexFiles, site.opts.disableSymlinks);
      AnswerStreams(site, req, Resolved(site, req).value);
    }
  }

  /** The same for one resolved path. */
  lemma AnswerStreams(site: Site, req: Request, m: FileMetadata)
    requires m.variant.Some? ==> !m.isDir
    ensures (Answer(site, req, m).Ok? && Answer(site, req, m).value.body.Streamed?) <==>
      && Opened(m) in site.fs.nodes
      && !(site.opts.ignoreHiddenFiles && IsHidden(m.path))
      && !(m.isDir && site.opts.redirectTrailingSlash && !EndsWith(req.uriPath, '/'))
      && !req.verb.OPTIONS?
      && Opened(m) !in site.fs.openErrors
      && Serve(m.meta.len, site.mime(m.path), LastModified(m.meta), req.conditionals).window.Some?
  {
  }

  /** The answer for a regular file without a variant. */
  lemma AnswerForFile(site: Site, req: Request, key: Path)
    requires key in site.fs.nodes && !(site.opts.ignoreHiddenFiles && IsHidden(key))
    ensures Answer(site, req, FileMetadata(key, site.fs.nodes[key].meta, false, None)) ==
      if req.verb.OPTIONS? then Ok(OPTIONS_REPLY)
      else if key in site.fs.openErrors then
        Err(if site.fs.openErrors[key].PermissionDenied? then FORBIDDEN else INTERNAL_SERVER_ERROR)
      else Ok(DiskResponse(site.fs.nodes[key], key, site.mime(key), req.conditionals, site.opts.maxFileSize))
  {
    var node := site.fs.nodes[key];
    assert Node(node.meta, node.data) == node;
  }

  /** The answer for a variant says so, whatever its status. */
  lemma AnswerForVariant(site: Site, req: Request, m: FileMetadata)
    requires m.variant.Some? && !m.isDir && Answer(site, req, m).Ok?
    ensures Answer(site, req, m) == Ok(OPTIONS_REPLY) || Answer(site, req, m).value.headers.contentEncoding == [m.variant.value.1]
  {
  }

  /** A directory without an index is the one that is listed. */
  lemma NoIndexIsListed(site: Site, req: Request)
    requires Resolved(site, req).Ok?
    requires NoIndex(site.fs, LookupPath(site, req), StaticEncodings(site, req), site.opts.indexFiles)
    ensures ListedDir(Resolved(site, req).value.path) == LookupPath(site, req)
  {
    var dir, indexes := LookupPath(site, req), IndexesOrDefault(site.opts.indexFiles);
    assert Resolved(site, req).value.path == dir + [Normal(indexes[|indexes| - 1])];
  }

  lemma LookupLength(site: Site, req: Request)
    ensures IndexAdded(site, req) ==> |LookupPath(site, req)| == |Sanitized(req.base, req.uriPath)| + 1
    ensures !IndexAdded(site, req) ==> LookupPath(site, req) == Sanitized(req.base, req.uriPath)
  {
    assert Sanitized(req.base, req.uriPath) + [] == Sanitized(req.base, req.uriPath);
  }

  /**
   When a request is answered with the listing of a directory, following the link of an entry asks for that
   entry of the listed directory, exactly when the request path meets the condition of `LinkRoundTrip` and no
   index name was added to it for the cache.
   */
  lemma ServedLinksExactly(site: Site, req: Request, items: seq<Option<Listing.DirEntry>>, f: Listing.FileEntry)
    requires Resolved(site, req).Ok? && Miss(site, req) == ListingReply(site, req, Resolved(site, req).value.path)
    requires NoIndex(site.fs, LookupPath(site, req), StaticEncodings(site, req), site.opts.indexFiles)
    requires site.readDir(LookupPath(site, req)) == Ok(items) && None !in items
    requires forall e :: Some(e) in items ==> IsNormalName(e.name)
    requires f in ListedEntries(site, req, items)
    ensures Miss(site, req) == Ok(ListingPage(site, req, ListedEntries(site, req, items)))
    ensures (var target := References.ResolveReference(req.uriPath, f.uri);
      target.Some? && Sanitized(req.base, target.value) == LookupPath(site, req) + [Normal(f.name)])
       <==> && !References.HasScheme(References.LastSegment(req.uriPath))
            && References.ClimbsHarmlessly(Split(req.uriPath, '/'), [], TailComponents)
            && !IndexAdded(site, req)
  {
    NoIndexIsListed(site, req);
    Listing.ListedLinksWork(req.base, items, req.uriPath, site.opts.ignoreHiddenFiles, site.opts.disableSymlinks, f);
    LookupLength(site, req);
    if IndexAdded(site, req) {
      Listing.ListedIsShown(items, req.uriPath, site.opts.ignoreHiddenFiles, site.opts.disableSymlinks, f);
      Links.LinkNeverDeeper(req.base, req.uriPath, f.name, f.isDir);
    }
  }
}
