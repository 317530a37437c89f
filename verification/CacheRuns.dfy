/**
 Whole runs of the server over a fixed file system: requests, polls of the open bodies in any
 interleaving and with any short reads or read errors, evictions and closed connections.
 */
module CacheRuns {
  import opened Wrappers
  import opened Paths
  import opened Files
  import opened FileStreams
  import opened Conditionals
  import opened Resolution
  import opened Responses
  import opened MemCache
  import opened Negotiation
  import opened StaticFiles
  import opened Routes

  /** A response body on its way: as issued, as it is now, what was delivered, and whether it ended. */
  datatype Delivery = Delivery(resp: Response, body: Body, sent: seq<bv8>, ended: bool)

  datatype World = World(store: Store, open: map<nat, Delivery>)

  /**
   `OnMiss` is the rest of `handle` after the lookup found nothing; other events may have happened
   in between, so the store is not consulted again. `OnHit` is a lookup that succeeds.
   */
  datatype Event =
    | OnMiss(id: nat, req: Request)
    | OnHit(id: nat, req: Request)
    | OnPoll(id: nat, outcome: ReadOutcome)
    | OnEvict(key: Path)
    | OnClose(id: nat)

  function Start(w: World, id: nat, reply: Result<Response, nat>): (w': World) {
    if id in w.open || reply.Err? || !reply.value.body.Streamed? then w
    else w.(open := w.open[id := Delivery(reply.value, reply.value.body, [], false)])
  }

  /** Events that are not possible in a state leave it unchanged. */
  function Step(site: Site, w: World, e: Event): (w': World) {
    match e
    case OnMiss(id, req) => if !Admissible(site, req) then w else Start(w, id, Miss(site, req))
    case OnHit(id, req) =>
      if !Admissible(site, req) || !Hits(site, w.store, req) then w else Start(w, id, HitReply(site, w.store, req))
    case OnPoll(id, outcome) => if id in w.open then Advance(w, id, outcome) else w
    case OnEvict(key) => w.(store := w.store - {key})
    case OnClose(id) => w.(open := w.open - {id})
  }

  /** The delivery after one poll. */
  function AfterPoll(d: Delivery, store: Store, o: ReadOutcome): (d': Delivery)
    requires d.body.Streamed? && d.body.reader.Valid()
  {
    var (item, body, _) := PollBody(d.body, store, o);
    Delivery(d.resp, body, if item.Chunk? then d.sent + item.data else d.sent, item.Done?)
  }

  function Advance(w: World, id: nat, outcome: ReadOutcome): (w': World)
    requires id in w.open
  {
    var d := w.open[id];
    if d.ended || !d.body.Streamed? || !d.body.reader.Valid() then w
    else
      World(PollBody(d.body, w.store, outcome).2, w.open[id := AfterPoll(d, w.store, outcome)])
  }

  function Run(site: Site, events: seq<Event>): (w: World) {
    if events == [] then World(map[], map[])
    else Step(site, Run(site, events[..|events| - 1]), events[|events| - 1])
  }

  // ---- The invariant

  /** `src` is an existing file that some request is answered from under the name of `key`. */
  ghost predicate IsSource(site: Site, key: Path, src: Path) {
    && src in site.fs.nodes && src !in site.fs.openErrors
    && exists req :: AnsweredFrom(site, req, key, src)
  }

  /** A source is the file itself or, with static compression, one of its variants. */
  lemma SourceIsFileOrVariant(site: Site, key: Path, src: Path)
    requires IsSource(site, key, src)
    ensures src == key || (site.opts.compressionStatic && exists c :: VariantPath(key, c) == Some(src))
  {
    var req :| AnsweredFrom(site, req, key, src);
    StreamedFrom(site, req);
  }

  predicate Cacheable(site: Site, key: Path, node: Node) {
    && site.opts.maxFileSize.Some? && node.meta.len <= site.opts.maxFileSize.value
    && (site.opts.ignoreHiddenFiles ==> !IsHidden(key))
  }

  /** An entry is a whole, non-empty copy of `src`. */
  ghost predicate EntryFrom(site: Site, key: Path, f: MemFile, src: Path) {
    && IsSource(site, key, src)
    && IsCopy(f, site.fs.nodes[src], site.mime(key))
    && Cacheable(site, key, site.fs.nodes[src])
    && f.data != [] && f.bufSize == OptimalBufSize(site.fs.nodes[src].meta)
  }

  ghost predicate EntryOk(site: Site, key: Path, f: MemFile) {
    exists src :: EntryFrom(site, key, f, src)
  }

  /** An unfinished tee holds exactly what was delivered of a body over `src`. */
  ghost predicate TeeFrom(site: Site, d: Delivery, src: Path)
    requires d.body.Streamed? && d.body.tee.Some?
  {
    var tee, reader := d.body.tee.value, d.body.reader;
    && IsSource(site, tee.key, src)
    && var node := site.fs.nodes[src];
      && Cacheable(site, tee.key, node)
      && reader.data == node.data && reader.readable == !node.meta.isDir
      && tee.contentType == site.mime(tee.key) && tee.lastModified == LastModified(node.meta)
      && tee.capacity == node.meta.len && d.body.bufSize == OptimalBufSize(node.meta)
      && tee.buf == Some(d.sent)
  }

  /** What was delivered is the window's bytes up to the reader's position. */
  predicate Delivering(d: Delivery) {
    && d.resp.body.Streamed? && d.body.Streamed?
    && var first, reader := d.resp.body.reader, d.body.reader;
      && first.Valid() && reader == first.(pos := reader.pos) && reader.Valid() && first.pos <= reader.pos
      && (if reader.readable then d.sent == reader.data[first.pos..reader.pos] else d.sent == [])
      && (d.body.bufSize > 0 || reader.pos == reader.end)
      && (d.ended ==> reader.pos == reader.end)
      && (d.resp.headers.contentLength.Some? ==> d.resp.headers.contentLength.value == first.end - first.pos)
  }

  ghost predicate DeliveryOk(site: Site, d: Delivery) {
    && Delivering(d)
    && (d.body.tee.Some? && d.body.tee.value.buf.Some? ==> exists src :: TeeFrom(site, d, src))
  }

  ghost predicate Inv(site: Site, w: World) {
    && (forall key :: key in w.store ==> EntryOk(site, key, w.store[key]))
    && (forall id :: id in w.open ==> DeliveryOk(site, w.open[id]))
  }

  // ---- Every event keeps it

  lemma MissStartsOk(site: Site, req: Request)
    requires site.fs.Valid() && Admissible(site, req) && Miss(site, req).Ok? && Miss(site, req).value.body.Streamed?
    ensures DeliveryOk(site, Delivery(Miss(site, req).value, Miss(site, req).value.body, [], false))
  {
    StreamedFrom(site, req);
    var m := Resolved(site, req).value;
    var src := Opened(m);
    var node := site.fs.nodes[src];
    var resp := Miss(site, req).value;
    var d := Delivery(resp, resp.body, [], false);
    assert AnsweredFrom(site, req, m.path, src);
    DiskStartsOk(node, m.path, site.mime(m.path), req.conditionals, site.opts.maxFileSize, resp);
    if resp.body.tee.Some? {
      assert TeeFrom(site, d, src);
    }
  }

  lemma DiskStartsOk(node: Node, path: Path, contentType: string, c: ConditionalHeaders, maxFileSize: Option<nat>, resp: Response)
    requires !node.meta.isDir ==> node.meta.len == |node.data|
    requires var disk := DiskResponse(node, path, contentType, c, maxFileSize);
      && disk.body.Streamed? && resp.body == disk.body
      && (resp.headers.contentLength.Some? ==> resp.headers.contentLength == disk.headers.contentLength)
    ensures Delivering(Delivery(resp, resp.body, [], false))
  {
  }

  lemma HitStartsOk(site: Site, store: Store, req: Request)
    requires site.fs.Valid() && Hits(site, store, req) && HitReply(site, store, req).value.body.Streamed?
    requires EntryOk(site, LookupPath(site, req), store[LookupPath(site, req)])
    ensures var resp := HitReply(site, store, req).value;
      DeliveryOk(site, Delivery(resp, resp.body, [], false))
  {
    var key := LookupPath(site, req);
    var src :| EntryFrom(site, key, store[key], src);
    assert site.fs.nodes[src].meta.len > 0;
    CopyStartsOk(store[key], req.conditionals);
  }

  lemma CopyStartsOk(f: MemFile, c: ConditionalHeaders)
    requires f.bufSize > 0 && MemResponse(f, c).body.Streamed?
    ensures Delivering(Delivery(MemResponse(f, c), MemResponse(f, c).body, [], false))
    ensures MemResponse(f, c).body.tee.None?
  {
  }

  /** A poll keeps the delivery in order and inserts only complete copies. */
  lemma PollOk(site: Site, d: Delivery, store: Store, o: ReadOutcome)
    requires site.fs.Valid() && DeliveryOk(site, d) && !d.ended
    ensures DeliveryOk(site, AfterPoll(d, store, o))
    ensures var store' := PollBody(d.body, store, o).2;
      || store' == store
      || (d.body.tee.Some? && store' == store[d.body.tee.value.key := store'[d.body.tee.value.key]]
          && EntryOk(site, d.body.tee.value.key, store'[d.body.tee.value.key]))
  {
    PollDelivers(d, store, o);
    if d.body.tee.Some? && d.body.tee.value.buf.Some? {
      var src :| TeeFrom(site, d, src);
      PollTees(site, d, store, o, src);
    }
  }

  /** Bytes are delivered in order and without gaps. */
  lemma PollDelivers(d: Delivery, store: Store, o: ReadOutcome)
    requires Delivering(d) && !d.ended
    ensures Delivering(AfterPoll(d, store, o))
  {
    var (item, body, _) := PollBody(d.body, store, o);
    var first, pos, next := d.resp.body.reader, d.body.reader.pos, body.reader.pos;
    if item.Chunk? {
      assert first.data[first.pos..pos] + first.data[pos..next] == first.data[first.pos..next];
    }
  }

  /** The tee follows the delivery, and is stored only when it holds the whole file. */
  lemma PollTees(site: Site, d: Delivery, store: Store, o: ReadOutcome, src: Path)
    requires site.fs.Valid() && Delivering(d) && !d.ended
    requires d.body.tee.Some? && TeeFrom(site, d, src)
    ensures var d', store', key := AfterPoll(d, store, o), PollBody(d.body, store, o).2, d.body.tee.value.key;
      if d'.body.tee.Some? && d'.body.tee.value.buf.Some? then store' == store && TeeFrom(site, d', src)
      else key in store' && store' == store[key := store'[key]] && EntryFrom(site, key, store'[key], src)
  {
    var d', store', key := AfterPoll(d, store, o), PollBody(d.body, store, o).2, d.body.tee.value.key;
    if d'.body.tee.value.buf.None? {
      PollDelivers(d, store, o);
      WholeFileOnly(d.resp.body.reader, d'.body.reader.pos, |site.fs.nodes[src].data|);
    }
  }

  /** As many bytes as the file has, delivered from a window of it, are the whole file. */
  lemma WholeFileOnly(first: Reader, next: nat, len: nat)
    requires first.Valid() && first.readable && len == |first.data|
    requires first.pos <= next <= first.end && next - first.pos == len
    ensures first.pos == 0 && first.end == len && first.data[first.pos..next] == first.data
  {
  }

  lemma StartKeepsInv(site: Site, w: World, id: nat, reply: Result<Response, nat>)
    requires Inv(site, w)
    requires reply.Ok? && reply.value.body.Streamed? ==> DeliveryOk(site, Delivery(reply.value, reply.value.body, [], false))
    ensures Inv(site, Start(w, id, reply))
  {
  }

  lemma AdvanceKeepsInv(site: Site, w: World, id: nat, outcome: ReadOutcome)
    requires site.fs.Valid() && Inv(site, w) && id in w.open
    ensures Inv(site, Advance(w, id, outcome))
  {
    var d := w.open[id];
    if !d.ended {
      PollOk(site, d, w.store, outcome);
      PolledStoreOk(site, d, w.store, outcome);
      var next := AfterPoll(d, w.store, outcome);
      assert Advance(w, id, outcome) == World(PollBody(d.body, w.store, outcome).2, w.open[id := next]);
    }
  }

  /** The entries after a poll are those before it and at most one complete copy. */
  lemma PolledStoreOk(site: Site, d: Delivery, store: Store, o: ReadOutcome)
    requires site.fs.Valid() && DeliveryOk(site, d) && !d.ended
    requires forall key :: key in store ==> EntryOk(site, key, store[key])
    ensures var store' := PollBody(d.body, store, o).2;
      forall key :: key in store' ==> EntryOk(site, key, store'[key])
  {
    PollOk(site, d, store, o);
    var store' := PollBody(d.body, store, o).2;
    forall key | key in store' ensures EntryOk(site, key, store'[key]) {
      if d.body.tee.None? || key != d.body.tee.value.key {
        assert key in store && store'[key] == store[key];
      }
    }
  }

  lemma EvictKeepsInv(site: Site, w: World, key: Path)
    requires Inv(site, w)
    ensures Inv(site, w.(store := w.store - {key}))
  {
  }

  lemma CloseKeepsInv(site: Site, w: World, id: nat)
    requires Inv(site, w)
    ensures Inv(site, w.(open := w.open - {id}))
  {
  }

  lemma MissKeepsInv(site: Site, w: World, id: nat, req: Request)
    requires site.fs.Valid() && Inv(site, w)
    ensures Inv(site, Step(site, w, OnMiss(id, req)))
  {
    if Admissible(site, req) && Miss(site, req).Ok? && Miss(site, req).value.body.Streamed? {
      MissStartsOk(site, req);
      StartKeepsInv(site, w, id, Miss(site, req));
    }
  }

  lemma HitKeepsInv(site: Site, w: World, id: nat, req: Request)
    requires site.fs.Valid() && Inv(site, w)
    ensures Inv(site, Step(site, w, OnHit(id, req)))
  {
    if Admissible(site, req) && Hits(site, w.store, req) {
      if HitReply(site, w.store, req).value.body.Streamed? {
        HitStartsOk(site, w.store, req);
      }
      StartKeepsInv(site, w, id, HitReply(site, w.store, req));
    }
  }

  lemma StepKeepsInv(site: Site, w: World, e: Event)
    requires site.fs.Valid() && Inv(site, w)
    ensures Inv(site, Step(site, w, e))
  {
    match e {
      case OnMiss(id, req) => MissKeepsInv(site, w, id, req);
      case OnHit(id, req) => HitKeepsInv(site, w, id, req);
      case OnPoll(id, outcome) =>
        if id in w.open {
          AdvanceKeepsInv(site, w, id, outcome);
        }
      case OnEvict(key) => EvictKeepsInv(site, w, key);
      case OnClose(id) => CloseKeepsInv(site, w, id);
    }
  }

  /** The invariant holds in every reachable state. */
  lemma {:induction false} RunKeepsInv(site: Site, events: seq<Event>)
    requires site.fs.Valid()
    ensures Inv(site, Run(site, events))
  {
    if events != [] {
      var before := events[..|events| - 1];
      RunKeepsInv(site, before);
      StepKeepsInv(site, Run(site, before), events[|events| - 1]);
    }
  }

  // ---- Consequences for every run

  /** Every entry is a whole, non-empty, size-limited copy of its file or of a variant of it. */
  lemma EntriesAreWholeFiles(site: Site, events: seq<Event>, key: Path)
    requires site.fs.Valid() && key in Run(site, events).store
    ensures var f := Run(site, events).store[key];
      && f.data != [] && site.opts.maxFileSize.Some? && |f.data| <= site.opts.maxFileSize.value
      && exists src ::
          && src in site.fs.nodes && IsCopy(f, site.fs.nodes[src], site.mime(key))
          && (src == key || (site.opts.compressionStatic && exists c :: VariantPath(key, c) == Some(src)))
  {
    RunKeepsInv(site, events);
    var src :| EntryFrom(site, key, Run(site, events).store[key], src);
    SourceIsFileOrVariant(site, key, src);
  }

  /** Without static compression the cache never holds anything but the file itself. */
  lemma EntriesAreExact(site: Site, events: seq<Event>, key: Path)
    requires site.fs.Valid() && !site.opts.compressionStatic && key in Run(site, events).store
    ensures key in site.fs.nodes && key !in site.fs.openErrors
    ensures IsCopy(Run(site, events).store[key], site.fs.nodes[key], site.mime(key))
  {
    RunKeepsInv(site, events);
    var src :| EntryFrom(site, key, Run(site, events).store[key], src);
    SourceIsFileOrVariant(site, key, src);
  }

  /** With hidden files ignored, no reachable store can answer for a hidden path. */
  lemma HiddenNeverHit(site: Site, events: seq<Event>, req: Request)
    requires site.fs.Valid() && site.opts.ignoreHiddenFiles && Hits(site, Run(site, events).store, req)
    ensures !IsHidden(LookupPath(site, req))
  {
    RunKeepsInv(site, events);
    var key := LookupPath(site, req);
    var src :| EntryFrom(site, key, Run(site, events).store[key], src);
  }

  /** With hidden files ignored, a request for a hidden path is refused in every reachable state. */
  lemma HiddenAlwaysRefused(site: Site, events: seq<Event>, req: Request)
    requires site.fs.Valid() && site.opts.ignoreHiddenFiles && IsHidden(LookupPath(site, req))
    ensures !Hits(site, Run(site, events).store, req) && Miss(site, req).Err?
  {
    if Hits(site, Run(site, events).store, req) {
      HiddenNeverHit(site, events, req);
    }
    if Resolved(site, req).Ok? {
      HiddenStaysHidden(site.fs, LookupPath(site, req), StaticEncodings(site, req), site.opts.indexFiles, site.opts.disableSymlinks);
    }
  }

  /** A body over part of a file never changes the store, however it is polled. */
  lemma PartialNeverInserts(site: Site, events: seq<Event>, id: nat, o: ReadOutcome)
    requires site.fs.Valid() && id in Run(site, events).open
    requires var first := Run(site, events).open[id].resp.body;
      first.Streamed? && !(first.reader.pos == 0 && first.reader.end == |first.reader.data|)
    ensures Step(site, Run(site, events), OnPoll(id, o)).store == Run(site, events).store
  {
    RunKeepsInv(site, events);
    var w := Run(site, events);
    if !w.open[id].ended {
      PartialPollKeepsStore(site, w.open[id], w.store, o);
    }
  }

  lemma PartialPollKeepsStore(site: Site, d: Delivery, store: Store, o: ReadOutcome)
    requires site.fs.Valid() && DeliveryOk(site, d) && !d.ended
    requires var first := d.resp.body.reader; !(first.pos == 0 && first.end == |first.data|)
    ensures PollBody(d.body, store, o).2 == store
  {
    if d.body.tee.Some? && d.body.tee.value.buf.Some? {
      var src :| TeeFrom(site, d, src);
      TeeOfPartStaysOpen(site, d, store, o, src);
    }
  }

  /** A tee over part of a file is never full. */
  lemma TeeOfPartStaysOpen(site: Site, d: Delivery, store: Store, o: ReadOutcome, src: Path)
    requires site.fs.Valid() && Delivering(d) && !d.ended
    requires d.body.tee.Some? && TeeFrom(site, d, src)
    requires var first := d.resp.body.reader; !(first.pos == 0 && first.end == |first.data|)
    ensures PollBody(d.body, store, o).2 == store
  {
    var item := PollBody(d.body, store, o).0;
    if item.Chunk? {
      PollDelivers(d, store, o);
      var d' := AfterPoll(d, store, o);
      assert |d'.sent| == d'.body.reader.pos - d.resp.body.reader.pos;
      assert |d'.sent| < |d.body.reader.data|;
    }
  }

  /** What was delivered is a prefix of the window; a body that ended delivered all of it, as announced. */
  lemma DeliveredExactly(site: Site, events: seq<Event>, id: nat)
    requires site.fs.Valid() && id in Run(site, events).open
    requires Run(site, events).open[id].resp.body.Streamed? && Run(site, events).open[id].resp.body.reader.readable
    ensures var d := Run(site, events).open[id];
      && Drained(d.resp.body).Octets? && d.sent <= Drained(d.resp.body).data
      && (d.ended ==> d.sent == Drained(d.resp.body).data)
      && (d.ended && d.resp.headers.contentLength.Some? ==> |d.sent| == d.resp.headers.contentLength.value)
  {
    RunKeepsInv(site, events);
  }

  // ---- Static compression and the cache

  /** The entry is a copy of the file it is stored for. */
  predicate ExactEntry(site: Site, key: Path, f: MemFile) {
    key in site.fs.nodes && IsCopy(f, site.fs.nodes[key], site.mime(key))
  }

  /** A regular, non-empty file that is small enough for the cache. */
  predicate Storable(site: Site, src: Path) {
    && src in site.fs.nodes && !site.fs.nodes[src].meta.isDir
    && site.opts.maxFileSize.Some? && 0 < site.fs.nodes[src].meta.len <= site.opts.maxFileSize.value
  }

  predicate SameFile(site: Site, key: Path, src: Path) {
    && src in site.fs.nodes && key in site.fs.nodes && !site.fs.nodes[key].meta.isDir
    && site.fs.nodes[src].data == site.fs.nodes[key].data
    && LastModified(site.fs.nodes[src].meta) == LastModified(site.fs.nodes[key].meta)
  }

  /** The variant of `key` for a coding is served under its name, and small enough to be stored. */
  ghost predicate StorableVariant(site: Site, key: Path, c: ContentCoding) {
    && VariantRoute(site, key, c) && VariantPath(key, c).Some?
    && Servable(site, key, VariantPath(key, c).value) && Storable(site, VariantPath(key, c).value)
  }

  /** Every variant of the file that can be stored has the bytes and the date of its original. */
  ghost predicate VariantsMatch(site: Site, key: Path) {
    forall c :: StorableVariant(site, key, c) ==> SameFile(site, key, VariantPath(key, c).value)
  }

  ghost predicate AlwaysExact(site: Site) {
    forall events, key :: key in Run(site, events).store ==> ExactEntry(site, key, Run(site, events).store[key])
  }

  /** Some run stores an entry for the path. */
  ghost predicate EverCached(site: Site, key: Path) {
    exists events :: key in Run(site, events).store
  }

  /** A path is ever cached exactly when a storable file is served under its name. */
  lemma CachedExactly(site: Site, key: Path)
    requires site.fs.Valid()
    ensures EverCached(site, key) <==> exists src :: Route(site, key, src) && Storable(site, src)
  {
    if events :| key in Run(site, events).store {
      RunKeepsInv(site, events);
      var src :| EntryFrom(site, key, Run(site, events).store[key], src);
      AnsweredExactly(site, key, src);
      assert Storable(site, src);
    }
    if src :| Route(site, key, src) && Storable(site, src) {
      AnsweredExactly(site, key, src);
      var req :| AnsweredFrom(site, req, key, src);
      AnswerIsStored(site, req, key, src);
      assert key in Run(site, FetchWhole(req, site.fs.nodes[src].meta.len)).store;
    }
  }

  /** The only path outside the roots that is ever cached is `<root>.html`, where that is served. */
  lemma OutsideCachedExactly(site: Site, key: Path)
    requires site.fs.Valid() && Configured(site) && !InRoots(site, key)
    ensures EverCached(site, key) <==> Storable(site, key) && Servable(site, key, key) && BesideRoot(site, key)
  {
    CachedExactly(site, key);
    if src :| Route(site, key, src) && Storable(site, src) {
      OutsideIsBeside(site, key, src);
    }
    if BesideRoot(site, key) && Storable(site, key) && Servable(site, key, key) {
      OutsideRootsExactly(site, key, key);
      AnsweredExactly(site, key, key);
    }
  }

  /**
   The cache holds exact copies in every run if and only if every variant that can be stored has the bytes and
   the date of its original. Without static compression that is always so; with it, a variant that is served
   is stored under the original's path.
   */
  lemma CacheExactExactly(site: Site)
    requires site.fs.Valid()
    ensures AlwaysExact(site) <==> forall key :: VariantsMatch(site, key)
    ensures !site.opts.compressionStatic ==> AlwaysExact(site)
  {
    if forall key :: VariantsMatch(site, key) {
      forall events, key | key in Run(site, events).store ensures ExactEntry(site, key, Run(site, events).store[key]) {
        EntryMatches(site, events, key);
      }
    }
    if AlwaysExact(site) {
      forall key ensures VariantsMatch(site, key) {
        forall c | StorableVariant(site, key, c) ensures SameFile(site, key, VariantPath(key, c).value) {
          StoredVariantMatches(site, key, c);
        }
      }
    }
  }

  lemma EntryMatches(site: Site, events: seq<Event>, key: Path)
    requires site.fs.Valid() && VariantsMatch(site, key) && key in Run(site, events).store
    ensures ExactEntry(site, key, Run(site, events).store[key])
  {
    RunKeepsInv(site, events);
    var src :| EntryFrom(site, key, Run(site, events).store[key], src);
    AnsweredExactly(site, key, src);
    assert Storable(site, src);
    if src != key {
      var c :| VariantPath(key, c) == Some(src) && VariantRoute(site, key, c);
      assert StorableVariant(site, key, c);
    }
  }

  lemma StoredVariantMatches(site: Site, key: Path, c: ContentCoding)
    requires site.fs.Valid() && AlwaysExact(site) && StorableVariant(site, key, c)
    ensures SameFile(site, key, VariantPath(key, c).value)
  {
    var src := VariantPath(key, c).value;
    VariantRouteAnswered(site, key, c);
    var req :| AnsweredFrom(site, req, key, src);
    AnswerIsStored(site, req, key, src);
    var events := FetchWhole(req, site.fs.nodes[src].meta.len);
    assert ExactEntry(site, key, Run(site, events).store[key]);
  }

  /**
   A link that is refused when asked for is cached exactly when another path leads to it: it is an index or a
   `.html` file, or a variant is served for it as an index.
   */
  lemma RefusedLinkCachedExactly(site: Site, key: Path)
    requires site.fs.Valid() && site.opts.disableSymlinks && key in site.fs.symlinks
    ensures EverCached(site, key) <==>
      || (Storable(site, key) && Servable(site, key, key) && OtherName(site, key))
      || (exists c, dir, i: nat :: VariantOfIndex(site, dir, i, key, c) && StorableVariant(site, key, c))
  {
    CachedExactly(site, key);
    if src :| Route(site, key, src) && Storable(site, src) {
      if c :| VariantPath(key, c) == Some(src) && VariantRoute(site, key, c) {
        var dir, i: nat :| VariantOfIndex(site, dir, i, key, c);
        assert StorableVariant(site, key, c);
      }
    }
    if Storable(site, key) && Servable(site, key, key) && OtherName(site, key) {
      assert Route(site, key, key);
    }
    if c, dir, i: nat :| VariantOfIndex(site, dir, i, key, c) && StorableVariant(site, key, c) {
      assert Route(site, key, VariantPath(key, c).value);
    }
  }

  /** A plain GET for the same path. */
  function Plain(req: Request): (r: Request) {
    req.(verb := GET, conditionals := NO_CONDITIONS)
  }

  /** The request without conditions, and `n` polls that read one byte each. */
  function FetchWhole(req: Request, n: nat): (events: seq<Event>)
    ensures |events| == n + 1
  {
    if n == 0 then [OnMiss(0, Plain(req))] else FetchWhole(req, n - 1) + [OnPoll(0, Short(1))]
  }

  lemma RunAppend(site: Site, events: seq<Event>, e: Event)
    ensures Run(site, events + [e]) == Step(site, Run(site, events), e)
  {
    assert (events + [e])[..|events|] == events;
  }

  /** A body over the whole of `node` after `n` bytes, teed under `key`. */
  function Fetched(node: Node, key: Path, contentType: string, n: nat): (b: Body)
    requires n <= |node.data|
  {
    Streamed(Reader(node.data, true, n, |node.data|), OptimalBufSize(node.meta),
             Some(Tee(key, contentType, LastModified(node.meta), |node.data|, Some(node.data[..n]))))
  }

  function Stored(node: Node, contentType: string): (f: MemFile) {
    MemFile(node.data, OptimalBufSize(node.meta), contentType, LastModified(node.meta))
  }

  /** One more byte: the tee grows, and the last byte stores the file. */
  lemma FetchByte(node: Node, key: Path, contentType: string, n: nat, store: Store)
    requires !node.meta.isDir && node.meta.len == |node.data| && n < |node.data|
    ensures var next := PollBody(Fetched(node, key, contentType, n), store, Short(1));
      && next.0.Chunk?
      && (if n + 1 < |node.data| then next.1 == Fetched(node, key, contentType, n + 1) && next.2 == store
          else next.2 == store[key := Stored(node, contentType)])
  {
    var body := Fetched(node, key, contentType, n);
    assert ReadCount(body.reader, body.bufSize, 1) == 1;
    assert Poll(body.reader, body.bufSize, Short(1)).0.data == node.data[n..n + 1];
    assert node.data[..n] + node.data[n..n + 1] == node.data[..n + 1];
    if n + 1 == |node.data| {
      assert node.data[..n + 1] == node.data;
    }
  }

  /** A plain GET is answered from the same file, from its first byte to its last. */
  lemma PlainAnswer(site: Site, req: Request, key: Path, src: Path)
    requires site.fs.Valid() && AnsweredFrom(site, req, key, src) && Storable(site, src)
    ensures Miss(site, Plain(req)).Ok?
    ensures Miss(site, Plain(req)).value.body == Fetched(site.fs.nodes[src], key, site.mime(key), 0)
  {
    StreamedFrom(site, req);
    StreamsExactly(site, req);
    StreamsExactly(site, Plain(req));
    StreamedFrom(site, Plain(req));
    WholeDiskBody(site.fs.nodes[src], key, site.mime(key), site.opts.maxFileSize);
  }

  lemma WholeDiskBody(node: Node, key: Path, contentType: string, maxFileSize: Option<nat>)
    requires !node.meta.isDir && node.meta.len == |node.data| && maxFileSize.Some? && node.meta.len <= maxFileSize.value
    ensures DiskResponse(node, key, contentType, NO_CONDITIONS, maxFileSize).body == Fetched(node, key, contentType, 0)
  {
    assert node.data[..0] == [];
  }

  /** A world whose only body is `n` bytes into `node`, with nothing stored yet. */
  predicate Fetching(w: World, node: Node, key: Path, contentType: string, n: nat) {
    && n <= |node.data|
    && w.store == map[] && 0 in w.open && !w.open[0].ended
    && w.open[0].body == Fetched(node, key, contentType, n)
  }

  lemma FetchStarts(site: Site, req: Request, key: Path, src: Path)
    requires site.fs.Valid() && AnsweredFrom(site, req, key, src) && Storable(site, src)
    ensures Fetching(Run(site, FetchWhole(req, 0)), site.fs.nodes[src], key, site.mime(key), 0)
  {
    PlainAnswer(site, req, key, src);
    var e := OnMiss(0, Plain(req));
    assert FetchWhole(req, 0) == [] + [e];
    RunAppend(site, [], e);
    assert Run(site, []) == World(map[], map[]);
  }

  lemma FetchContinues(site: Site, w: World, node: Node, key: Path, contentType: string, n: nat)
    requires !node.meta.isDir && node.meta.len == |node.data| && n < |node.data|
    requires Fetching(w, node, key, contentType, n)
    ensures var w' := Step(site, w, OnPoll(0, Short(1)));
      if n + 1 < |node.data| then Fetching(w', node, key, contentType, n + 1)
      else w'.store == map[key := Stored(node, contentType)]
  {
    FetchByte(node, key, contentType, n, map[]);
  }

  /** `n` polls of body 0 that read one byte each. */
  function Polled(site: Site, w: World, n: nat): (w': World) {
    if n == 0 then w else Step(site, Polled(site, w, n - 1), OnPoll(0, Short(1)))
  }

  lemma {:induction false} FetchIsPolled(site: Site, req: Request, n: nat)
    ensures Run(site, FetchWhole(req, n)) == Polled(site, Run(site, FetchWhole(req, 0)), n)
  {
    if n > 0 {
      FetchIsPolled(site, req, n - 1);
      FetchStep(site, req, n);
    }
  }

  lemma FetchStep(site: Site, req: Request, n: nat)
    requires n > 0
    ensures Run(site, FetchWhole(req, n)) == Step(site, Run(site, FetchWhole(req, n - 1)), OnPoll(0, Short(1)))
  {
    RunAppend(site, FetchWhole(req, n - 1), OnPoll(0, Short(1)));
  }

  /** After `n` single-byte reads, short of the end, the tee holds the first `n` bytes and nothing is stored. */
  lemma {:induction false} PartlyFetched(site: Site, w: World, node: Node, key: Path, contentType: string, n: nat)
    requires !node.meta.isDir && node.meta.len == |node.data| && n < |node.data|
    requires Fetching(w, node, key, contentType, 0)
    ensures Fetching(Polled(site, w, n), node, key, contentType, n)
  {
    if n > 0 {
      PartlyFetched(site, w, node, key, contentType, n - 1);
      FetchContinues(site, Polled(site, w, n - 1), node, key, contentType, n - 1);
    }
  }

  /** Any storable answer ends up in the store under the path it was given for. */
  lemma AnswerIsStored(site: Site, req: Request, key: Path, src: Path)
    requires site.fs.Valid() && AnsweredFrom(site, req, key, src) && Storable(site, src)
    ensures var node := site.fs.nodes[src];
      Run(site, FetchWhole(req, node.meta.len)).store == map[key := Stored(node, site.mime(key))]
  {
    var node := site.fs.nodes[src];
    var n := node.meta.len - 1;
    FetchStarts(site, req, key, src);
    var w := Run(site, FetchWhole(req, 0));
    PartlyFetched(site, w, node, key, site.mime(key), n);
    FetchIsPolled(site, req, n + 1);
    FetchContinues(site, Polled(site, w, n), node, key, site.mime(key), n);
  }

  // ---- Hits and the disk

  /** What the disk would answer for a path that is in the store. */
  lemma MissOfCached(site: Site, events: seq<Event>, req: Request)
    requires site.fs.Valid() && VariantsMatch(site, LookupPath(site, req)) && Hits(site, Run(site, events).store, req)
    ensures var key := LookupPath(site, req);
      && ExactEntry(site, key, Run(site, events).store[key])
      && !(site.opts.ignoreHiddenFiles && IsHidden(key))
      && (if site.opts.disableSymlinks && key in site.fs.symlinks then Resolved(site, req) == Err(FORBIDDEN)
          else Resolved(site, req).Ok? && Resolved(site, req).value.path == key && !Resolved(site, req).value.isDir
               && (Resolved(site, req).value.variant.None? <==> NoVariant(site.fs, key, StaticEncodings(site, req)))
               && (Resolved(site, req).value.variant.None? ==> Resolved(site, req).value.meta == site.fs.nodes[key].meta))
  {
    var key := LookupPath(site, req);
    EntryMatches(site, events, key);
    if site.opts.ignoreHiddenFiles {
      HiddenNeverHit(site, events, req);
    }
    VariantHit(site.fs, key, StaticEncodings(site, req));
  }

  /** The request is answered from the disk as a plain file: no refused link, no open error, no variant. */
  predicate PlainOnDisk(site: Site, req: Request) {
    var key := LookupPath(site, req);
    && !(site.opts.disableSymlinks && key in site.fs.symlinks)
    && key !in site.fs.openErrors
    && NoVariant(site.fs, key, StaticEncodings(site, req))
  }

  /**
   Where the variants of a file match it, a hit in any reachable store answers as the disk would exactly when the
   request is not OPTIONS and the disk would answer with the plain file.
   */
  lemma HitAgreesExactly(site: Site, events: seq<Event>, req: Request)
    requires site.fs.Valid() && VariantsMatch(site, LookupPath(site, req)) && Hits(site, Run(site, events).store, req)
    ensures (Miss(site, req).Ok? && View(Miss(site, req).value) == View(HitReply(site, Run(site, events).store, req).value))
       <==> !req.verb.OPTIONS? && PlainOnDisk(site, req)
  {
    var store, key := Run(site, events).store, LookupPath(site, req);
    MissOfCached(site, events, req);
    HitIsPlain(store[key], req.conditionals);
    if Resolved(site, req).Ok? {
      var m := Resolved(site, req).value;
      if m.variant.None? {
        assert m == FileMetadata(key, site.fs.nodes[key].meta, false, None);
        AnswerForFile(site, req, key);
        CopyServedAlike(store[key], site.fs.nodes[key], key, site.mime(key), req.conditionals, site.opts.maxFileSize);
      } else if Answer(site, req, m).Ok? {
        AnswerForVariant(site, req, m);
      }
    }
  }

  /** A hit never names an encoding, and never has the status of an OPTIONS reply. */
  lemma HitIsPlain(f: MemFile, c: ConditionalHeaders)
    ensures MemResponse(f, c).headers.contentEncoding == []
    ensures MemResponse(f, c).status in {OK, PARTIAL_CONTENT, NOT_MODIFIED, PRECONDITION_FAILED, RANGE_NOT_SATISFIABLE}
  {
  }

  /** The statuses of a hit, and the disk answers it may stand in the way of. */
  lemma HitMissStatus(site: Site, events: seq<Event>, req: Request)
    requires site.fs.Valid() && VariantsMatch(site, LookupPath(site, req)) && Hits(site, Run(site, events).store, req)
    requires NoVariant(site.fs, LookupPath(site, req), StaticEncodings(site, req))
    ensures HitReply(site, Run(site, events).store, req).value.status in
      {OK, PARTIAL_CONTENT, NOT_MODIFIED, PRECONDITION_FAILED, RANGE_NOT_SATISFIABLE}
    ensures !(!req.verb.OPTIONS? && PlainOnDisk(site, req)) ==>
      Miss(site, req) in {Err(FORBIDDEN), Err(INTERNAL_SERVER_ERROR), Ok(OPTIONS_REPLY)}
  {
    var key := LookupPath(site, req);
    MissOfCached(site, events, req);
    HitIsPlain(Run(site, events).store[key], req.conditionals);
    if Resolved(site, req).Ok? {
      assert Resolved(site, req).value == FileMetadata(key, site.fs.nodes[key].meta, false, None);
      AnswerForFile(site, req, key);
    }
  }
}
