/**
 Concrete sites and requests at which a documented property fails.
 */
module Sites {
  import opened Wrappers
  import opened Text
  import opened Paths
  import opened Files
  import opened Conditionals
  import opened Negotiation
  import opened Resolution
  import opened Responses
  import opened StaticFiles
  import opened Routes
  import opened CacheRuns
  import opened Pipeline
  import Links
  import Listing
  import References

  /** A site with root `d`, a small cache, and everything else left at its plainest. */
  function ExampleSite(files: map<Path, Node>, symlinks: set<Path>, compressionStatic: bool, disableSymlinks: bool): (s: Site) {
    Site(FileSystem(files[DIR := Node(Metadata(true, 0, None, 0), [])], symlinks, map[]), {"d"},
         _ => "text/plain", _ => Ok([]), _ => 0, (_, _, _, _) => "", _ => None,
         Options(Some(10), [], false, false, compressionStatic, false, disableSymlinks))
  }

  function OneByteFile(b: bv8): (n: Node) {
    Node(Metadata(false, 1, None, 0), [b])
  }

  const DIR: Path := [Normal("d")]
  const PAGE: Path := [Normal("d"), Normal("a")]
  const PAGE_GZ: Path := [Normal("d"), Normal("a.gz")]
  const INDEX: Path := [Normal("d"), Normal("index.html")]
  const BESIDE: Path := [Normal("d.html")]

  lemma ExampleConfigured(files: map<Path, Node>, symlinks: set<Path>, compressionStatic: bool, disableSymlinks: bool)
    ensures Configured(ExampleSite(files, symlinks, compressionStatic, disableSymlinks))
  {
    NormalNameIsOneComponent("d");
  }

  /** What a plain name asks for below the root. */
  lemma NameAsked(site: Site, name: string)
    requires site.roots == {"d"} && IsName(Normal(name)) && Links.Encode(name) == name && Links.IsUriPath("/" + name)
    ensures AsksFor(site, "d", "/" + name, DIR + [Normal(name)]) && InRoots(site, DIR + [Normal(name)])
  {
    ExampleRoot(site);
    InRootsPush(site, DIR, name);
    TailOfName(name);
    assert EndsWith("/" + name, '/') == EndsWith(name, '/');
  }

  lemma ExampleRoot(site: Site)
    requires site.roots == {"d"}
    ensures Components("d") == DIR && RootPaths(site) == {DIR} && InRoots(site, DIR)
  {
    NormalNameIsOneComponent("d");
    assert DIR in RootPaths(site) && Below(DIR, DIR);
  }

  lemma TailOfName(name: string)
    requires IsName(Normal(name)) && Links.Encode(name) == name
    ensures TailComponents("/" + name) == [Normal(name)]
  {
    TailAtSlash("", name);
    assert "" + ['/'] + name == "/" + name;
    assert TailComponents("") == [];
    Links.EncodedNameIsOneComponent(name);
  }

  lemma {:induction false} PlainText(name: string)
    requires forall i :: 0 <= i < |name| ==> Links.IsUnreserved(name[i])
    ensures IsOctets(name) && Links.Encode(name) == name && Links.IsUriPath("/" + name)
  {
    if name != "" {
      PlainText(name[1..]);
      assert [name[0]] + name[1..] == name;
    }
  }

  lemma PlainNameAsked(site: Site, name: string, tail: string, path: Path)
    requires site.roots == {"d"} && IsNormalName(name) && forall i :: 0 <= i < |name| ==> Links.IsUnreserved(name[i])
    requires tail == "/" + name && path == DIR + [Normal(name)]
    ensures AsksFor(site, "d", tail, path) && InRoots(site, path)
  {
    PlainText(name);
    NameAsked(site, name);
  }

  lemma PageAsked(site: Site)
    requires site.roots == {"d"}
    ensures AsksFor(site, "d", "/a", PAGE) && InRoots(site, PAGE)
  {
    PlainNameAsked(site, "a", "/a", PAGE);
  }

  lemma IndexAsked(site: Site)
    requires site.roots == {"d"}
    ensures AsksFor(site, "d", "/index.html", INDEX)
  {
    PlainNameAsked(site, "index.html", "/index.html", INDEX);
  }

  lemma RootAsked(site: Site)
    requires site.roots == {"d"} && !site.opts.redirectTrailingSlash
    ensures InRoots(site, DIR) && AsksForDirectory(site, PlainGet("d", "/", []), DIR)
  {
    ExampleRoot(site);
    SlashAsked(site, "d");
    assert DIR + [] == DIR;
  }

  /** What `/` asks for. */
  lemma SlashAsked(site: Site, base: string)
    requires base in site.roots
    ensures AsksForDirectory(site, PlainGet(base, "/", []), Components(base) + Added(site))
  {
    TailOfRoot(base);
    SlashIsUriPath();
    NoEncodings(site, base, "/");
  }

  lemma SlashIsUriPath()
    ensures Links.IsUriPath("/") && EndsWith("/", '/')
  {
  }

  lemma TailOfRoot(base: string)
    ensures Sanitized(base, "/") == Components(base)
  {
    SlashAddsNothing(base, "");
    assert "" + "/" == "/" && TailComponents("") == [];
    assert Components(base) + [] == Components(base);
  }

  /** A root with a one-byte file and a pre-compressed variant, and static compression on. */
  function VariantSite(): (s: Site) {
    ExampleSite(map[PAGE := OneByteFile(1), PAGE_GZ := OneByteFile(2)], {}, true, false)
  }

  lemma DistinctExamplePaths()
    ensures PAGE != PAGE_GZ && DIR != PAGE && DIR != PAGE_GZ && DIR != INDEX && DIR != BESIDE
  {
    assert |PAGE[1].name| != |PAGE_GZ[1].name|;
    assert |DIR| != |PAGE| && |DIR| != |PAGE_GZ| && |DIR| != |INDEX|;
    assert |DIR[0].name| != |BESIDE[0].name|;
  }

  lemma VariantIsStorable()
    ensures var site := VariantSite();
      && site.fs.Valid() && Storable(site, PAGE_GZ) && Servable(site, PAGE, PAGE_GZ)
      && VariantPath(PAGE, GZIP) == Some(PAGE_GZ) && VariantOfFile(site, PAGE, GZIP)
      && site.fs.nodes[PAGE_GZ] == OneByteFile(2) && site.fs.nodes[PAGE] == OneByteFile(1)
  {
    VariantNodes();
    VariantOfPage();
    ByteIsStorable(VariantSite(), PAGE, PAGE_GZ, 2);
    PageAsked(VariantSite());
  }

  lemma VariantNodes()
    ensures var fs := VariantSite().fs;
      && fs.Valid() && PAGE in fs.nodes && PAGE_GZ in fs.nodes
      && fs.nodes[PAGE_GZ] == OneByteFile(2) && fs.nodes[PAGE] == OneByteFile(1)
  {
    DistinctExamplePaths();
  }

  lemma VariantOfPage()
    ensures VariantPath(PAGE, GZIP) == Some(PAGE_GZ)
  {
    assert "a" + "." + "gz" == "a.gz" && PAGE[..1] + [Normal("a.gz")] == PAGE_GZ;
  }

  lemma ByteIsStorable(site: Site, key: Path, src: Path, b: bv8)
    requires src in site.fs.nodes && site.fs.nodes[src] == OneByteFile(b) && src !in site.fs.openErrors
    requires site.opts.maxFileSize == Some(10) && !site.opts.ignoreHiddenFiles
    ensures Storable(site, src) && Servable(site, key, src)
  {
  }

  lemma VariantAnswered()
    ensures var site, req := VariantSite(), PlainGet("d", "/a", [CodingText(GZIP)]);
      Admissible(site, req) && AnsweredFrom(site, req, PAGE, PAGE_GZ)
  {
    VariantIsStorable();
    PageAsked(VariantSite());
    GetVariant(VariantSite(), "d", "/a", PAGE, GZIP);
  }

  /** After GET `/a` with gzip accepted, the variant's byte is in the store under the path of the original. */
  lemma VariantStoredAsOriginal()
    ensures var site, req := VariantSite(), PlainGet("d", "/a", [CodingText(GZIP)]);
      && Configured(site) && site.fs.Valid() && Admissible(site, req)
      && Run(site, FetchWhole(req, 1)).store == map[PAGE := Stored(OneByteFile(2), "text/plain")]
      && !AlwaysExact(site)
  {
    var site, req := VariantSite(), PlainGet("d", "/a", [CodingText(GZIP)]);
    ExampleConfigured(map[PAGE := OneByteFile(1), PAGE_GZ := OneByteFile(2)], {}, true, false);
    VariantIsStorable();
    VariantAnswered();
    AnswerIsStored(site, req, PAGE, PAGE_GZ);
    var store := Run(site, FetchWhole(req, 1)).store;
    OtherByte(site, PAGE, store[PAGE], 2, 1);
  }

  lemma OtherByte(site: Site, key: Path, f: MemFile, a: bv8, b: bv8)
    requires f.data == [a] && a != b && key in site.fs.nodes && site.fs.nodes[key].data == [b]
    ensures !ExactEntry(site, key, f)
  {
    assert f.data[0] != site.fs.nodes[key].data[0];
  }

  /** A root whose index is a link, with links disabled. */
  function LinkedIndexSite(): (s: Site) {
    ExampleSite(map[INDEX := OneByteFile(1)], {INDEX}, false, true)
  }

  lemma LinkedIndexIsStorable()
    ensures var site := LinkedIndexSite();
      && site.fs.Valid() && Servable(site, INDEX, INDEX) && Storable(site, INDEX) && IndexAt(site, DIR, [], 0, INDEX)
      && DIR in site.fs.nodes && site.fs.nodes[DIR].meta.isDir && DIR !in site.fs.symlinks
  {
    DistinctExamplePaths();
    assert DIR + [Normal("index.html")] == INDEX;
  }

  lemma LinkedIndexAnswered()
    ensures AnsweredFrom(LinkedIndexSite(), PlainGet("d", "/", []), INDEX, INDEX)
  {
    LinkedIndexIsStorable();
    RootAsked(LinkedIndexSite());
    GetIndex(LinkedIndexSite(), PlainGet("d", "/", []), DIR, 0, INDEX);
  }

  lemma LinkedIndexRefused()
    ensures var site, req := LinkedIndexSite(), PlainGet("d", "/index.html", []);
      Admissible(site, req) && LookupPath(site, req) == INDEX && Miss(site, req) == Err(FORBIDDEN)
  {
    IndexAsked(LinkedIndexSite());
    LinkIsRefused(LinkedIndexSite(), "d", "/index.html", INDEX);
  }

  lemma LinkIsRefused(site: Site, base: string, tail: string, path: Path)
    requires AsksFor(site, base, tail, path) && site.opts.disableSymlinks && path in site.fs.symlinks
    ensures var req := PlainGet(base, tail, []);
      Admissible(site, req) && LookupPath(site, req) == path && Miss(site, req) == Err(FORBIDDEN)
  {
    LookupAsked(site, base, tail, path, []);
    LinksRefusedExactly(site.fs, path, StaticEncodings(site, PlainGet(base, tail, [])), site.opts.indexFiles);
  }

  /** GET `/index.html` is refused by the disk, and served from the cache after GET `/`. */
  lemma RefusedLinkServedFromCache()
    ensures var site, first, req := LinkedIndexSite(), PlainGet("d", "/", []), PlainGet("d", "/index.html", []);
      && Configured(site) && site.fs.Valid() && Admissible(site, first) && Admissible(site, req)
      && Miss(site, req) == Err(FORBIDDEN)
      && Hits(site, Run(site, FetchWhole(first, 1)).store, req)
  {
    ExampleConfigured(map[INDEX := OneByteFile(1)], {INDEX}, false, true);
    LinkedIndexIsStorable();
    LinkedIndexAnswered();
    AnswerIsStored(LinkedIndexSite(), PlainGet("d", "/", []), INDEX, INDEX);
    LinkedIndexRefused();
  }

  /** A root without an index, beside a file named after it. */
  function BesideSite(): (s: Site) {
    ExampleSite(map[BESIDE := OneByteFile(1)], {}, false, false)
  }

  lemma BesideIsHtml()
    ensures var site := BesideSite();
      && HtmlPath(DIR) == Some(BESIDE) && Servable(site, BESIDE, BESIDE)
      && DIR in site.fs.nodes && site.fs.nodes[DIR].meta.isDir && DIR + [Normal(Indexes(site)[0])] !in site.fs.nodes
  {
    DistinctExamplePaths();
    assert "d" + ".html" == "d.html" && DIR[..0] + [Normal("d.html")] == BESIDE;
    assert |DIR + [Normal("index.html")]| == 2;
  }

  lemma BesideIsOutside()
    ensures !InRoots(BesideSite(), BESIDE)
  {
    NormalNameIsOneComponent("d");
    DistinctExamplePaths();
    assert RootPaths(BesideSite()) == {DIR};
  }

  /** GET `/` is answered from `d.html`, which lies beside the root. */
  lemma BesideRootServed()
    ensures var site, req := BesideSite(), PlainGet("d", "/", []);
      Configured(site) && !InRoots(site, BESIDE) && AnsweredFrom(site, req, BESIDE, BESIDE)
  {
    ExampleConfigured(map[BESIDE := OneByteFile(1)], {}, false, false);
    BesideIsOutside();
    BesideIsHtml();
    RootAsked(BesideSite());
    GetHtmlOfDirectory(BesideSite(), PlainGet("d", "/", []), DIR, BESIDE);
  }

  // ---- OPTIONS

  /** A root with one file. */
  function PageSite(): (s: Site) {
    ExampleSite(map[PAGE := OneByteFile(1)], {}, false, false)
  }

  lemma PageIsStorable()
    ensures var site := PageSite();
      site.fs.Valid() && Storable(site, PAGE) && Servable(site, PAGE, PAGE) && PlainFile(site, PAGE)
  {
    PageNodes();
    ByteIsStorable(PageSite(), PAGE, PAGE, 1);
    PageAsked(PageSite());
  }

  lemma PageNodes()
    ensures var fs := PageSite().fs; fs.Valid() && PAGE in fs.nodes && fs.nodes[PAGE] == OneByteFile(1)
  {
    DistinctExamplePaths();
  }

  lemma PageAnswered()
    ensures var site, req := PageSite(), PlainGet("d", "/a", []);
      LookupPath(site, req) == PAGE && AnsweredFrom(site, req, PAGE, PAGE)
  {
    PageIsStorable();
    PageAsked(PageSite());
    LookupAsked(PageSite(), "d", "/a", PAGE, []);
    GetFile(PageSite(), "d", "/a", PAGE);
  }

  /** After GET `/a`, OPTIONS `/a` is answered with the file, which an empty store would not do. */
  lemma OptionsAnsweredFromCache(outer: Outer)
    ensures var site, first := PageSite(), PlainGet("d", "/a", []);
      var req, store := first.(verb := OPTIONS), Run(site, FetchWhole(first, 1)).store;
      && Configured(site) && Admissible(site, first) && Admissible(site, req) && Hits(site, store, req)
      && View(Final(site, store, outer, req)) != View(Final(site, map[], outer, req))
  {
    var site, first := PageSite(), PlainGet("d", "/a", []);
    ExampleConfigured(map[PAGE := OneByteFile(1)], {}, false, false);
    PageIsStorable();
    PageAnswered();
    AnswerIsStored(site, first, PAGE, PAGE);
    CacheTransparentExactly(site, FetchWhole(first, 1), outer, first.(verb := OPTIONS));
  }

  // ---- A directory named like an index

  const ENTRY: Listing.DirEntry := Listing.DirEntry("a", Some(Listing.EntryMeta(Listing.IsFile, 1, None)), None)

  /** A root whose `index.html` is a directory, with the cache, redirects and listings on. */
  function IndexDirectorySite(): (s: Site) {
    var dir := Node(Metadata(true, 0, None, 0), []);
    Site(FileSystem(map[DIR := dir, INDEX := dir], {}, map[]), {"d"},
         _ => "text/plain", _ => Ok([Some(ENTRY)]), _ => 0, (_, _, _, _) => "", _ => None,
         Options(Some(10), [], true, true, false, false, false))
  }

  lemma IndexDirectoryConfigured()
    ensures Configured(IndexDirectorySite()) && Admissible(IndexDirectorySite(), PlainGet("d", "/", []))
  {
    ExampleRoot(IndexDirectorySite());
    SlashIsUriPath();
  }

  lemma SlashLooksUp(site: Site)
    requires site.roots == {"d"} && CacheOn(site) && site.opts.redirectTrailingSlash
    ensures LookupPath(site, PlainGet("d", "/", [])) == INDEX && StaticEncodings(site, PlainGet("d", "/", [])) == []
    ensures IndexAdded(site, PlainGet("d", "/", []))
  {
    ExampleRoot(site);
    SlashAsked(site, "d");
    SlashIsUriPath();
    assert DIR + [Normal("index.html")] == INDEX;
  }

  lemma IndexDirectoryHasNoIndex()
    ensures NoIndex(IndexDirectorySite().fs, INDEX, [], [])
  {
    var fs := IndexDirectorySite().fs;
    IndexStep(fs, INDEX, IndexesOrDefault([]), []);
    VariantHit(fs, INDEX + [Normal("index.html")], []);
    assert |INDEX + [Normal("index.html")]| == 3;
    var html := HtmlPath(INDEX).value;
    assert |html| == 2 && |html[1].name| > |INDEX[1].name|;
  }

  lemma IndexDirectoryMiss(site: Site, req: Request)
    requires NoIndex(site.fs, LookupPath(site, req), StaticEncodings(site, req), site.opts.indexFiles)
    requires !site.opts.disableSymlinks && !site.opts.ignoreHiddenFiles && site.opts.dirListing
    requires EndsWith(req.uriPath, '/') && req.verb.GET?
    ensures Resolved(site, req).Ok? && Miss(site, req) == ListingReply(site, req, Resolved(site, req).value.path)
  {
    MetadataCoherent(site.fs, LookupPath(site, req), StaticEncodings(site, req), site.opts.indexFiles, site.opts.disableSymlinks);
  }

  /** GET `/` lists the directory `d/index.html`, and the link of its entry does not ask for what is in there. */
  lemma IndexDirectoryListed()
    ensures var site, req := IndexDirectorySite(), PlainGet("d", "/", []);
      && Configured(site) && Admissible(site, req)
      && LookupPath(site, req) == INDEX && site.readDir(INDEX) == Ok([Some(ENTRY)])
      && Miss(site, req) == Ok(ListingPage(site, req, [LISTED]))
      && !LeadsTo(req, LISTED.uri, INDEX + [Normal(LISTED.name)])
  {
    IndexDirectoryConfigured();
    IndexDirectoryHasNoIndex();
    IndexDirectoryPage(IndexDirectorySite());
  }

  /** Following the link from the page of the request asks for the path. */
  predicate LeadsTo(req: Request, uri: string, path: Path) {
    var target := References.ResolveReference(req.uriPath, uri);
    target.Some? && Sanitized(req.base, target.value) == path
  }

  lemma IndexDirectoryPage(site: Site)
    requires site.roots == {"d"} && CacheOn(site) && site.opts.redirectTrailingSlash && site.opts.dirListing
    requires !site.opts.disableSymlinks && !site.opts.ignoreHiddenFiles
    requires NoIndex(site.fs, INDEX, [], site.opts.indexFiles) && site.readDir(INDEX) == Ok([Some(ENTRY)])
    ensures var req := PlainGet("d", "/", []);
      && LookupPath(site, req) == INDEX && Miss(site, req) == Ok(ListingPage(site, req, [LISTED]))
      && !LeadsTo(req, LISTED.uri, INDEX + [Normal(LISTED.name)])
  {
    var req := PlainGet("d", "/", []);
    SlashLooksUp(site);
    EntryIsListed(site, req);
    ListedInPage(site, req);
    AddedIndexBreaksLinks(site, req, [Some(ENTRY)], LISTED);
  }

  lemma ListedInPage(site: Site, req: Request)
    requires ListedEntries(site, req, [Some(ENTRY)]) == [LISTED]
    ensures LISTED in ListedEntries(site, req, [Some(ENTRY)])
    ensures None !in [Some(ENTRY)] && forall e :: Some(e) in [Some(ENTRY)] ==> IsNormalName(e.name)
  {
    assert [LISTED][0] == LISTED;
  }

  /** A listing of a directory that was only looked up for the cache has no link to its entries. */
  lemma AddedIndexBreaksLinks(site: Site, req: Request, items: seq<Option<Listing.DirEntry>>, f: Listing.FileEntry)
    requires NoIndex(site.fs, LookupPath(site, req), StaticEncodings(site, req), site.opts.indexFiles)
    requires !site.opts.disableSymlinks && !site.opts.ignoreHiddenFiles && site.opts.dirListing
    requires IndexAdded(site, req) && req.verb.GET?
    requires site.readDir(LookupPath(site, req)) == Ok(items) && None !in items
    requires forall e :: Some(e) in items ==> IsNormalName(e.name)
    requires f in ListedEntries(site, req, items)
    ensures Miss(site, req) == Ok(ListingPage(site, req, ListedEntries(site, req, items)))
    ensures !LeadsTo(req, f.uri, LookupPath(site, req) + [Normal(f.name)])
  {
    IndexDirectoryMiss(site, req);
    ServedLinksExactly(site, req, items, f);
  }

  const LISTED: Listing.FileEntry := Listing.FileEntry("a", None, Some(1), false, "a")

  lemma EntryIsListed(site: Site, req: Request)
    requires req.uriPath == "/"
    ensures ListedEntries(site, req, [Some(ENTRY)]) == [LISTED]
  {
    var hidden, links, items := site.opts.ignoreHiddenFiles, site.opts.disableSymlinks, [Some(ENTRY)];
    assert Links.Encode("a") == "a";
    assert "a" + "" == "a";
    assert Links.Link("/", "a", false) == "a";
    assert Listing.Shown(ENTRY, "/", hidden, links) == Some(LISTED);
    assert items[..0] == [] && Listing.ShownAll([], "/", hidden, links) == [];
    assert Listing.ShownAll(items, "/", hidden, links) == [] + [LISTED];
  }
}
