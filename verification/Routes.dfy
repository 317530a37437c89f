/**
 Which files requests are answered from, and under which names, as a condition on the file system.
 */
module Routes {
  import opened Wrappers
  import opened Text
  import opened Paths
  import opened Files
  import opened Conditionals
  import opened Negotiation
  import opened Resolution
  import opened StaticFiles
  import Links

  /** A client's request, on a miss, is answered with a stream of `src` under the name of `key`. */
  predicate AnsweredFrom(site: Site, req: Request, key: Path, src: Path) {
    && Admissible(site, req) && Miss(site, req).Ok? && Miss(site, req).value.body.Streamed?
    && Resolved(site, req).Ok? && Resolved(site, req).value.path == key && Opened(Resolved(site, req).value) == src
  }

  // ---- The routes

  function RootPaths(site: Site): (r: set<Path>) {
    set root | root in site.roots :: Components(root)
  }

  /** The path is one of the roots, or lies below one. */
  predicate InRoots(site: Site, path: Path) {
    exists root :: root in RootPaths(site) && Below(root, path)
  }

  /** A request can look the path up, and it is not refused as a link. */
  predicate Asked(site: Site, path: Path) {
    InRoots(site, path) && !(site.opts.disableSymlinks && path in site.fs.symlinks)
  }

  predicate AskedDirectory(site: Site, dir: Path) {
    Asked(site, dir) && dir in site.fs.nodes && site.fs.nodes[dir].meta.isDir
  }

  /**
   A directory that is answered as such. With redirects on that takes a trailing slash, and with the cache
   on a trailing slash has `index.html` added, so the directory itself must have that name.
   */
  predicate AnsweredDirectory(site: Site, dir: Path) {
    && AskedDirectory(site, dir)
    && (site.opts.redirectTrailingSlash && CacheOn(site) ==>
          dir != [] && dir[|dir| - 1] == Normal("index.html") && InRoots(site, dir[..|dir| - 1]))
  }

  function Indexes(site: Site): (r: seq<string>)
    ensures r != []
  {
    IndexesOrDefault(site.opts.indexFiles)
  }

  /** `key` is the i-th index of the directory, and nothing before it exists. */
  predicate IndexAt(site: Site, dir: Path, encodings: seq<ContentCoding>, i: nat, key: Path) {
    i < |Indexes(site)| && Skipped(site.fs, dir, Indexes(site), encodings, i) && key == dir + [Normal(Indexes(site)[i])]
  }

  predicate PlainFile(site: Site, key: Path) {
    Asked(site, key) && key in site.fs.nodes && !site.fs.nodes[key].meta.isDir
  }

  predicate HtmlOfMissing(site: Site, path: Path, key: Path) {
    Asked(site, path) && path !in site.fs.nodes && HtmlPath(path) == Some(key)
  }

  predicate IndexOf(site: Site, dir: Path, i: nat, key: Path) {
    AnsweredDirectory(site, dir) && IndexAt(site, dir, [], i, key)
  }

  predicate HtmlOfDirectory(site: Site, dir: Path, key: Path) {
    AnsweredDirectory(site, dir) && dir + [Normal(Indexes(site)[0])] !in site.fs.nodes && HtmlPath(dir) == Some(key)
  }

  predicate VariantOfFile(site: Site, key: Path, c: ContentCoding) {
    Asked(site, key) && (key in site.fs.nodes ==> !site.fs.nodes[key].meta.isDir) && HasVariant(site.fs, key, c)
  }

  predicate VariantOfIndex(site: Site, dir: Path, i: nat, key: Path, c: ContentCoding) {
    AskedDirectory(site, dir) && IndexAt(site, dir, [c], i, key) && HasVariant(site.fs, key, c)
  }

  /** The file is reached under its own name, or as an index or `.html` file of another path. */
  ghost predicate OwnRoute(site: Site, key: Path) {
    || PlainFile(site, key)
    || OtherName(site, key)
  }

  ghost predicate OtherName(site: Site, key: Path) {
    || (exists path :: HtmlOfMissing(site, path, key))
    || (exists dir, i: nat :: IndexOf(site, dir, i, key))
    || (exists dir :: HtmlOfDirectory(site, dir, key))
  }

  /** A variant is found for the file, or for it as an index. */
  ghost predicate VariantRoute(site: Site, key: Path, c: ContentCoding) {
    && site.opts.compressionStatic
    && (VariantOfFile(site, key, c) || exists dir, i: nat :: VariantOfIndex(site, dir, i, key, c))
  }

  /** The file exists, can be opened, and its name is not ignored. */
  predicate Servable(site: Site, key: Path, src: Path) {
    && src in site.fs.nodes && src !in site.fs.openErrors
    && !(site.opts.ignoreHiddenFiles && IsHidden(key))
  }

  ghost predicate Route(site: Site, key: Path, src: Path) {
    && Servable(site, key, src)
    && ((src == key && OwnRoute(site, key)) || exists c :: VariantPath(key, c) == Some(src) && VariantRoute(site, key, c))
  }

  // ---- Every answer has a route

  lemma LookupIsAsked(site: Site, req: Request)
    requires Admissible(site, req) && Resolved(site, req).Ok?
    ensures Asked(site, LookupPath(site, req))
  {
    LookupInRoots(site, req);
    NotRefused(site.fs, LookupPath(site, req), StaticEncodings(site, req), site.opts.indexFiles, site.opts.disableSymlinks);
  }

  lemma LookupInRoots(site: Site, req: Request)
    requires Admissible(site, req)
    ensures InRoots(site, LookupPath(site, req))
  {
    SanitizedInRoots(site, req);
    InRootsAdded(site, Sanitized(req.base, req.uriPath), if IndexAdded(site, req) then [Normal("index.html")] else []);
  }

  lemma InRootsAdded(site: Site, path: Path, added: Path)
    requires InRoots(site, path) && (added == [] || added == [Normal("index.html")])
    ensures InRoots(site, path + added)
  {
    if added == [] {
      WithoutLast(path, CurDir);
    } else {
      InRootsPush(site, path, "index.html");
    }
  }

  lemma NotRefused(fs: FileSystem, path: Path, encodings: seq<ContentCoding>, indexFiles: seq<string>, disableSymlinks: bool)
    requires Resolve(fs, path, encodings, indexFiles, disableSymlinks).Ok?
    ensures !(disableSymlinks && path in fs.symlinks)
  {
  }

  lemma SanitizedInRoots(site: Site, req: Request)
    requires Admissible(site, req)
    ensures InRoots(site, Sanitized(req.base, req.uriPath))
  {
    SanitizedIsBelow(req.base, req.uriPath);
    assert Components(req.base) in RootPaths(site);
  }

  lemma InRootsPush(site: Site, path: Path, name: string)
    requires InRoots(site, path) && IsName(Normal(name))
    ensures InRoots(site, path + [Normal(name)])
  {
    var root :| root in RootPaths(site) && Below(root, path);
    BelowPush(root, path, name);
  }

  /** With redirects and the cache on, a trailing slash looks up an `index.html`. */
  lemma SlashLooksUpIndex(site: Site, req: Request)
    requires Admissible(site, req) && EndsWith(req.uriPath, '/') && site.opts.redirectTrailingSlash && CacheOn(site)
    ensures var dir := LookupPath(site, req);
      dir != [] && dir[|dir| - 1] == Normal("index.html") && InRoots(site, dir[..|dir| - 1])
  {
    SanitizedInRoots(site, req);
    WithoutLast(Sanitized(req.base, req.uriPath), Normal("index.html"));
  }

  lemma WithoutLast(p: Path, c: Component)
    ensures p + [] == p
    ensures (p + [c])[|p + [c]| - 1] == c && (p + [c])[..|p + [c]| - 1] == p
  {
  }

  /** A hit for a directory, by the kind of candidate. */
  lemma DirectoryRoute(site: Site, req: Request)
    requires Resolved(site, req).Ok? && AnsweredFrom(site, req, Resolved(site, req).value.path, Opened(Resolved(site, req).value))
    requires LookupPath(site, req) in site.fs.nodes && site.fs.nodes[LookupPath(site, req)].meta.isDir
    ensures var m := Resolved(site, req).value;
      if m.variant.None? then OtherName(site, m.path)
      else VariantPath(m.path, m.variant.value.1) == Some(Opened(m)) && VariantRoute(site, m.path, m.variant.value.1)
  {
    var dir, encodings := LookupPath(site, req), StaticEncodings(site, req);
    var m := Resolved(site, req).value;
    StreamsExactly(site, req);
    LookupIsAsked(site, req);
    var i := HitAtIndex(site.fs, dir, Indexes(site), encodings);
    var hit := FirstHit(site.fs, IndexCandidates(dir, Indexes(site), encodings)).value;
    if hit.coding.Some? {
      SkippedForOne(site.fs, dir, Indexes(site), encodings, hit.coding.value, i);
      assert VariantOfIndex(site, dir, i, m.path, hit.coding.value);
    } else {
      if site.opts.redirectTrailingSlash && CacheOn(site) {
        SlashLooksUpIndex(site, req);
      }
      assert AnsweredDirectory(site, dir);
      if m.path == dir + [Normal(Indexes(site)[i])] {
        assert IndexOf(site, dir, i, m.path);
      } else {
        assert HtmlOfDirectory(site, dir, m.path);
      }
    }
  }

  lemma SkippedForOne(fs: FileSystem, dir: Path, indexes: seq<string>, encodings: seq<ContentCoding>, c: ContentCoding, i: nat)
    requires i <= |indexes| && Skipped(fs, dir, indexes, encodings, i) && c in encodings
    ensures Skipped(fs, dir, indexes, [c], i)
  {
  }

  /** A hit for a path that is no directory. */
  lemma FileRoute(site: Site, req: Request)
    requires Resolved(site, req).Ok? && AnsweredFrom(site, req, Resolved(site, req).value.path, Opened(Resolved(site, req).value))
    requires LookupPath(site, req) in site.fs.nodes ==> !site.fs.nodes[LookupPath(site, req)].meta.isDir
    ensures var m := Resolved(site, req).value;
      if m.variant.None? then OwnRoute(site, m.path)
      else VariantPath(m.path, m.variant.value.1) == Some(Opened(m)) && VariantRoute(site, m.path, m.variant.value.1)
  {
    var path, encodings := LookupPath(site, req), StaticEncodings(site, req);
    LookupIsAsked(site, req);
    VariantHit(site.fs, path, encodings);
    if path !in site.fs.nodes {
      FirstHitAppend(site.fs, VariantCandidates(path, encodings), HtmlCandidates(path, false));
      if FirstHit(site.fs, VariantCandidates(path, encodings)).None? {
        assert HtmlOfMissing(site, path, Resolved(site, req).value.path);
      }
    }
  }

  lemma AnswerHasRoute(site: Site, req: Request, key: Path, src: Path)
    requires AnsweredFrom(site, req, key, src)
    ensures Route(site, key, src)
  {
    StreamedFrom(site, req);
    var path := LookupPath(site, req);
    if path in site.fs.nodes && site.fs.nodes[path].meta.isDir {
      DirectoryRoute(site, req);
    } else {
      FileRoute(site, req);
    }
  }

  // ---- Every route has a request

  /** A plain GET for a path below a base, accepting the given encodings. */
  function PlainGet(base: string, uriPath: string, acceptEncoding: seq<string>): (r: Request) {
    Request(GET, base, uriPath, 0, acceptEncoding, NO_CONDITIONS)
  }

  /** A plain GET streams what its path resolves to, if that may be served. */
  lemma PlainGetStreams(site: Site, req: Request)
    requires Admissible(site, req) && req.verb.GET? && req.conditionals == NO_CONDITIONS && Resolved(site, req).Ok?
    requires var m := Resolved(site, req).value;
      && Servable(site, m.path, Opened(m)) && Opened(m) in site.fs.nodes
      && !(m.isDir && site.opts.redirectTrailingSlash && !EndsWith(req.uriPath, '/'))
    ensures AnsweredFrom(site, req, Resolved(site, req).value.path, Opened(Resolved(site, req).value))
  {
    StreamsExactly(site, req);
    MetadataCoherent(site.fs, LookupPath(site, req), StaticEncodings(site, req), site.opts.indexFiles, site.opts.disableSymlinks);
  }

  /** The request path asks for `path` below a root, without a separator at its end. */
  predicate AsksFor(site: Site, base: string, tail: string, path: Path) {
    base in site.roots && Links.IsUriPath(tail) && !EndsWith(tail, '/') && Sanitized(base, tail) == path
  }

  lemma BelowIsSanitized(base: string, root: Path, path: Path) returns (tail: string)
    requires Components(base) == root && Below(root, path)
    ensures Links.IsUriPath(tail) && !EndsWith(tail, '/') && Sanitized(base, tail) == path
  {
    var names := path[|root|..];
    assert root + names == path;
    Links.UriPathOfNames(base, names);
    tail := Links.UriPathOf(names);
  }

  /** Whatever lies in a root can be asked for. */
  lemma RequestPathFor(site: Site, path: Path) returns (base: string, tail: string)
    requires InRoots(site, path)
    ensures AsksFor(site, base, tail, path)
  {
    var root :| root in RootPaths(site) && Below(root, path);
    base :| base in site.roots && Components(base) == root;
    tail := BelowIsSanitized(base, root, path);
  }

  lemma LookupAsked(site: Site, base: string, tail: string, path: Path, acceptEncoding: seq<string>)
    requires AsksFor(site, base, tail, path)
    ensures LookupPath(site, PlainGet(base, tail, acceptEncoding)) == path
    ensures LookupPath(site, PlainGet(base, tail + "/", acceptEncoding)) == path + Added(site)
  {
    SlashAddsNothing(base, tail);
    WithoutLast(path, CurDir);
  }

  lemma NoEncodings(site: Site, base: string, uriPath: string)
    ensures StaticEncodings(site, PlainGet(base, uriPath, [])) == []
  {
  }

  lemma OneEncoding(site: Site, base: string, uriPath: string, c: ContentCoding)
    requires site.opts.compressionStatic && Extension(c).Some?
    ensures StaticEncodings(site, PlainGet(base, uriPath, [CodingText(c)])) == [c]
  {
    OneCoding(c, site.weights);
  }

  lemma PlainFileAnswered(site: Site, key: Path)
    requires PlainFile(site, key) && Servable(site, key, key)
    ensures exists req :: AnsweredFrom(site, req, key, key)
  {
    var base, tail := RequestPathFor(site, key);
    GetFile(site, base, tail, key);
  }

  /** A file that is asked for is answered from itself. */
  lemma GetFile(site: Site, base: string, tail: string, key: Path)
    requires AsksFor(site, base, tail, key) && PlainFile(site, key) && Servable(site, key, key)
    ensures AnsweredFrom(site, PlainGet(base, tail, []), key, key)
  {
    var req := PlainGet(base, tail, []);
    LookupAsked(site, base, tail, key, []);
    NoEncodings(site, base, tail);
    assert Resolved(site, req) == Ok(FileMetadata(key, site.fs.nodes[key].meta, false, None));
    PlainGetStreams(site, req);
  }

  lemma HtmlOfMissingAnswered(site: Site, path: Path, key: Path)
    requires HtmlOfMissing(site, path, key) && Servable(site, key, key)
    ensures exists req :: AnsweredFrom(site, req, key, key)
  {
    var base, tail := RequestPathFor(site, path);
    var req := PlainGet(base, tail, []);
    LookupAsked(site, base, tail, path, []);
    NoEncodings(site, base, tail);
    assert VariantCandidates(path, []) + HtmlCandidates(path, false) == HtmlCandidates(path, false);
    assert Resolved(site, req) == Ok(FileMetadata(key, site.fs.nodes[key].meta, false, None));
    PlainGetStreams(site, req);
  }

  /** What is looked up below a path asked for with a trailing slash. */
  function Added(site: Site): (p: Path) {
    if CacheOn(site) && site.opts.redirectTrailingSlash then [Normal("index.html")] else []
  }

  lemma LastBack(p: Path)
    requires p != []
    ensures p[..|p| - 1] + [p[|p| - 1]] == p
  {
  }

  /** A plain request that looks the directory up with a separator at its end. */
  predicate AsksForDirectory(site: Site, req: Request, dir: Path) {
    && Admissible(site, req) && req.verb.GET? && req.conditionals == NO_CONDITIONS && EndsWith(req.uriPath, '/')
    && LookupPath(site, req) == dir && StaticEncodings(site, req) == []
  }

  /** A directory that is answered as such can be asked for. */
  lemma DirectoryRequest(site: Site, dir: Path) returns (req: Request)
    requires AnsweredDirectory(site, dir)
    ensures AsksForDirectory(site, req, dir)
  {
    var parent := if Added(site) == [] then dir else dir[..|dir| - 1];
    if Added(site) == [] {
      WithoutLast(dir, CurDir);
    } else {
      LastBack(dir);
    }
    var base, tail := RequestPathFor(site, parent);
    GetDirectory(site, base, tail, parent);
    req := PlainGet(base, tail + "/", []);
  }

  lemma GetDirectory(site: Site, base: string, tail: string, path: Path)
    requires AsksFor(site, base, tail, path)
    ensures AsksForDirectory(site, PlainGet(base, tail + "/", []), path + Added(site))
  {
    LookupAsked(site, base, tail, path, []);
    NoEncodings(site, base, tail + "/");
  }

  lemma IndexAnswered(site: Site, dir: Path, i: nat, key: Path)
    requires IndexOf(site, dir, i, key) && Servable(site, key, key)
    ensures exists req :: AnsweredFrom(site, req, key, key)
  {
    var req := DirectoryRequest(site, dir);
    GetIndex(site, req, dir, i, key);
  }

  /** A directory that is asked for is answered from its first index. */
  lemma GetIndex(site: Site, req: Request, dir: Path, i: nat, key: Path)
    requires AsksForDirectory(site, req, dir) && IndexOf(site, dir, i, key) && Servable(site, key, key)
    ensures AnsweredFrom(site, req, key, key)
  {
    SkipTo(site.fs, dir, Indexes(site), [], i);
    IndexStep(site.fs, dir, Indexes(site)[i..], []);
    assert Resolved(site, req) == Ok(FileMetadata(key, site.fs.nodes[key].meta, true, None));
    PlainGetStreams(site, req);
  }

  lemma HtmlOfDirectoryAnswered(site: Site, dir: Path, key: Path)
    requires HtmlOfDirectory(site, dir, key) && Servable(site, key, key)
    ensures exists req :: AnsweredFrom(site, req, key, key)
  {
    var req := DirectoryRequest(site, dir);
    GetHtmlOfDirectory(site, req, dir, key);
  }

  /** A directory without its first index is answered from the `.html` file beside it. */
  lemma GetHtmlOfDirectory(site: Site, req: Request, dir: Path, key: Path)
    requires AsksForDirectory(site, req, dir) && HtmlOfDirectory(site, dir, key) && Servable(site, key, key)
    ensures AnsweredFrom(site, req, key, key)
  {
    IndexStep(site.fs, dir, Indexes(site), []);
    assert Resolved(site, req) == Ok(FileMetadata(key, site.fs.nodes[key].meta, true, None));
    PlainGetStreams(site, req);
  }

  lemma VariantOfFileAnswered(site: Site, key: Path, c: ContentCoding)
    requires site.opts.compressionStatic && VariantOfFile(site, key, c) && Servable(site, key, VariantPath(key, c).value)
    ensures exists req :: AnsweredFrom(site, req, key, VariantPath(key, c).value)
  {
    var base, tail := RequestPathFor(site, key);
    GetVariant(site, base, tail, key, c);
  }

  /** A file that is asked for with one coding is answered from its variant for it. */
  lemma GetVariant(site: Site, base: string, tail: string, key: Path, c: ContentCoding)
    requires AsksFor(site, base, tail, key) && site.opts.compressionStatic
    requires VariantOfFile(site, key, c) && Servable(site, key, VariantPath(key, c).value)
    ensures AnsweredFrom(site, PlainGet(base, tail, [CodingText(c)]), key, VariantPath(key, c).value)
  {
    var lines := [CodingText(c)];
    var req := PlainGet(base, tail, lines);
    LookupAsked(site, base, tail, key, lines);
    OneEncoding(site, base, tail, c);
    VariantHit(site.fs, key, [c]);
    FirstHitAppend(site.fs, VariantCandidates(key, [c]), HtmlCandidates(key, false));
    var src := VariantPath(key, c).value;
    assert Resolved(site, req) == Ok(FileMetadata(key, site.fs.nodes[src].meta, false, Some((src, c))));
    PlainGetStreams(site, req);
  }

  lemma VariantOfIndexAnswered(site: Site, dir: Path, i: nat, key: Path, c: ContentCoding)
    requires site.opts.compressionStatic && VariantOfIndex(site, dir, i, key, c) && Servable(site, key, VariantPath(key, c).value)
    ensures exists req :: AnsweredFrom(site, req, key, VariantPath(key, c).value)
  {
    var base, tail := RequestPathFor(site, dir);
    var lines := [CodingText(c)];
    var req := PlainGet(base, tail, lines);
    LookupAsked(site, base, tail, dir, lines);
    OneEncoding(site, base, tail, c);
    SkipTo(site.fs, dir, Indexes(site), [c], i);
    IndexStep(site.fs, dir, Indexes(site)[i..], [c]);
    VariantHit(site.fs, key, [c]);
    var src := VariantPath(key, c).value;
    assert Resolved(site, req) == Ok(FileMetadata(key, site.fs.nodes[src].meta, false, Some((src, c))));
    PlainGetStreams(site, req);
  }

  lemma OwnRouteAnswered(site: Site, key: Path)
    requires OwnRoute(site, key) && Servable(site, key, key)
    ensures exists req :: AnsweredFrom(site, req, key, key)
  {
    if PlainFile(site, key) {
      PlainFileAnswered(site, key);
    } else if path :| HtmlOfMissing(site, path, key) {
      HtmlOfMissingAnswered(site, path, key);
    } else if dir, i: nat :| IndexOf(site, dir, i, key) {
      IndexAnswered(site, dir, i, key);
    } else {
      var dir :| HtmlOfDirectory(site, dir, key);
      HtmlOfDirectoryAnswered(site, dir, key);
    }
  }

  lemma VariantRouteAnswered(site: Site, key: Path, c: ContentCoding)
    requires VariantRoute(site, key, c) && VariantPath(key, c).Some? && Servable(site, key, VariantPath(key, c).value)
    ensures exists req :: AnsweredFrom(site, req, key, VariantPath(key, c).value)
  {
    if VariantOfFile(site, key, c) {
      VariantOfFileAnswered(site, key, c);
    } else {
      var dir, i: nat :| VariantOfIndex(site, dir, i, key, c);
      VariantOfIndexAnswered(site, dir, i, key, c);
    }
  }

  /**
   Some request is answered from `src` under the name of `key` exactly when the file system offers a route:
   the file itself, an index, a `.html` file, or a variant of a file or index.
   */
  lemma AnsweredExactly(site: Site, key: Path, src: Path)
    ensures (exists req :: AnsweredFrom(site, req, key, src)) <==> Route(site, key, src)
  {
    if req :| AnsweredFrom(site, req, key, src) {
      AnswerHasRoute(site, req, key, src);
    }
    if Route(site, key, src) {
      if src == key && OwnRoute(site, key) {
        OwnRouteAnswered(site, key);
      } else {
        var c :| VariantPath(key, c) == Some(src) && VariantRoute(site, key, c);
        VariantRouteAnswered(site, key, c);
      }
    }
  }

  // ---- What lies outside the roots

  lemma HtmlPathBelow(base: Path, path: Path)
    requires Below(base, path) && path != base
    ensures HtmlPath(path).Some? && Below(base, HtmlPath(path).value)
  {
    var last := path[|path| - 1];
    assert last == path[|base|..][|path| - |base| - 1];
    var name := last.name + ".html";
    assert IsName(Normal(name)) by {
      assert name[|last.name|] == '.' && name[|last.name| + 1] == 'h';
    }
    var init := path[..|path| - 1];
    assert init[|base|..] == path[|base|..][..|path| - |base| - 1];
    assert Below(base, init);
    BelowPush(base, init, name);
  }

  /** A `.html` file outside the roots belongs to a root. */
  lemma HtmlOutside(site: Site, path: Path, key: Path)
    requires InRoots(site, path) && HtmlPath(path) == Some(key) && !InRoots(site, key)
    ensures path in RootPaths(site)
  {
    var root :| root in RootPaths(site) && Below(root, path);
    if path != root {
      HtmlPathBelow(root, path);
    }
  }

  lemma IndexInside(site: Site, dir: Path, i: nat)
    requires Configured(site) && InRoots(site, dir) && i < |Indexes(site)|
    ensures InRoots(site, dir + [Normal(Indexes(site)[i])])
  {
    assert IsName(Normal("index.html"));
    InRootsPush(site, dir, Indexes(site)[i]);
  }

  /** The `.html` file beside a root that has no first index. */
  predicate BesideRoot(site: Site, key: Path) {
    exists root :: root in RootPaths(site) && HtmlOfDirectory(site, root, key)
  }

  lemma OutsideIsBeside(site: Site, key: Path, src: Path)
    requires Configured(site) && !InRoots(site, key) && Route(site, key, src)
    ensures src == key && BesideRoot(site, key)
  {
    if c :| VariantRoute(site, key, c) {
      var dir, i: nat :| VariantOfIndex(site, dir, i, key, c);
      IndexInside(site, dir, i);
      assert false;
    }
    if path :| HtmlOfMissing(site, path, key) {
      HtmlOutside(site, path, key);
      assert false;
    }
    if dir, i: nat :| IndexOf(site, dir, i, key) {
      IndexInside(site, dir, i);
      assert false;
    }
    var dir :| HtmlOfDirectory(site, dir, key);
    HtmlOutside(site, dir, key);
  }

  /**
   Files outside the roots are served in exactly one case: `<root>.html`, for a root that is answered as a
   directory and has no first index.
   */
  lemma OutsideRootsExactly(site: Site, key: Path, src: Path)
    requires Configured(site) && !InRoots(site, key)
    ensures (exists req :: AnsweredFrom(site, req, key, src)) <==>
      src == key && Servable(site, key, key) && BesideRoot(site, key)
  {
    AnsweredExactly(site, key, src);
    if Route(site, key, src) {
      OutsideIsBeside(site, key, src);
    }
  }
}
