/**
 The stages around the file handler (`RequestHandler::handle` of src/handler.rs) as far as they touch
 Content-Length and Content-Encoding: early answers, error and fallback pages, dynamic compression
 (src/compression.rs). Custom headers are not configured.
 */
module Pipeline {
  import opened Wrappers
  import opened Conditionals
  import opened Negotiation
  import opened Responses
  import opened MemCache
  import opened StaticFiles
  import opened Resolution
  import opened CacheRuns

  /** Options and renderers of the outer handler. `isText` is the MIME test of the compressor. */
  datatype Outer = Outer(
    compression: bool,
    fallbackPage: string,
    errorText: nat -> string,
    isText: string -> bool)

  /** What a stage before the file handler may answer with. */
  datatype Early =
    | Endpoint(contentType: string, text: string)
    | Refused(status: nat)
    | Maintenance(status: nat, text: string)
    | Redirected(status: nat, location: string)

  function HtmlPage(verb: Method, status: nat, text: string): (r: Response) {
    Response(status,
             NO_HEADERS.(contentType := Some("text/html"), contentLength := Some(|text|), acceptRanges := true),
             if verb.HEAD? then Empty else Page(text))
  }

  function EarlyReply(outer: Outer, verb: Method, e: Early): (r: Response) {
    match e
    case Endpoint(contentType, text) =>
      Response(OK, NO_HEADERS.(contentType := Some(contentType)), if verb.HEAD? then Empty else Page(text))
    case Refused(status) => HtmlPage(verb, status, outer.errorText(status))
    case Maintenance(status, text) => HtmlPage(verb, status, text)
    case Redirected(status, location) => Response(status, NO_HEADERS.(location := Some(location)), Empty)
  }

  /** `fallback_page::post_process`. */
  function Fallback(outer: Outer, verb: Method, resp: Response): (r: Response) {
    if verb.GET? && resp.status == NOT_FOUND && outer.fallbackPage != "" then HtmlPage(verb, OK, outer.fallbackPage) else resp
  }

  /** The header work of the four encoders, which append to an existing encoding. */
  function Encoded(resp: Response, coding: ContentCoding): (r: Response) {
    resp.(headers := resp.headers.(contentLength := None, contentEncoding := resp.headers.contentEncoding + [coding]))
  }

  /** `auto`. */
  function Auto(outer: Outer, verb: Method, preferred: Option<ContentCoding>, resp: Response): (r: Response) {
    if verb.HEAD? || verb.OPTIONS? || preferred.None? then resp
    else if resp.headers.contentType.Some? && !outer.isText(resp.headers.contentType.value) then resp
    else Encoded(resp, preferred.value)
  }

  /** `compression::post_process`. */
  function Compress(outer: Outer, verb: Method, preferred: Option<ContentCoding>, resp: Response): (r: Response) {
    if !outer.compression || resp.headers.contentEncoding != [] then resp
    else Auto(outer, verb, preferred, resp.(headers := resp.headers.(vary := true)))
  }

  function Preferred(site: Site, req: Request): (c: Option<ContentCoding>) {
    var encodings := GetEncodings(req.acceptEncoding, site.weights);
    if encodings == [] then None else Some(encodings[0])
  }

  /** The file handler, its errors turned into pages. */
  function FileStage(site: Site, store: Store, outer: Outer, req: Request): (r: Response) {
    match (if Hits(site, store, req) then HitReply(site, store, req) else Miss(site, req))
    case Ok(resp) => resp
    case Err(status) => HtmlPage(req.verb, status, outer.errorText(status))
  }

  /** The response after every stage that follows the file handler. */
  function PostStages(site: Site, outer: Outer, req: Request, resp: Response): (r: Response) {
    var page := Fallback(outer, req.verb, resp);
    var varied := if site.opts.compressionStatic then page.(headers := page.headers.(vary := true)) else page;
    Compress(outer, req.verb, Preferred(site, req), varied)
  }

  /** `RequestHandler::handle`. */
  method HandleRequest(site: Site, store: CacheStore, outer: Outer, req: Request, early: Option<Early>)
    returns (resp: Response)
    ensures resp ==
      if req.verb.OTHER? then HtmlPage(req.verb, METHOD_NOT_ALLOWED, outer.errorText(METHOD_NOT_ALLOWED))
      else if early.Some? then EarlyReply(outer, req.verb, early.value)
      else PostStages(site, outer, req, FileStage(site, store.entries, outer, req))
    ensures NotBothAndOnce(resp)
    ensures resp.headers.contentEncoding != [] && (req.verb.HEAD? || req.verb.OPTIONS?) ==>
      site.opts.compressionStatic && early.None? && resp.headers.contentEncoding == FileStage(site, store.entries, outer, req).headers.contentEncoding
  {
    if req.verb.OTHER? {
      return HtmlPage(req.verb, METHOD_NOT_ALLOWED, outer.errorText(METHOD_NOT_ALLOWED));
    }
    if early.Some? {
      return EarlyReply(outer, req.verb, early.value);
    }
    var result := Handle(site, store, req);
    match result {
      case Ok(r) => resp := r;
      case Err(status) => resp := HtmlPage(req.verb, status, outer.errorText(status));
    }
    FileStageEncoding(site, store.entries, outer, req);
    resp := PostProcess(site, outer, req, resp);
  }

  /** The stages that follow the file handler. */
  method PostProcess(site: Site, outer: Outer, req: Request, reply: Response) returns (resp: Response)
    requires NotBothAndOnce(reply)
    ensures resp == PostStages(site, outer, req, reply) && NotBothAndOnce(resp)
    ensures resp.headers.contentEncoding != [] && (req.verb.HEAD? || req.verb.OPTIONS?) ==>
      resp.headers.contentEncoding == reply.headers.contentEncoding
  {
    resp := Fallback(outer, req.verb, reply);
    if site.opts.compressionStatic {
      resp := resp.(headers := resp.headers.(vary := true));
    }
    var preferred := GetPreferredEncoding(req.acceptEncoding, site.weights);
    resp := Compress(outer, req.verb, preferred, resp);
  }

  /** Never both headers, and at most one coding. */
  predicate NotBothAndOnce(resp: Response) {
    && (resp.headers.contentEncoding == [] || resp.headers.contentLength.None?)
    && |resp.headers.contentEncoding| <= 1
  }

  /** The file handler sets an encoding only for a pre-compressed variant, and then drops the length. */
  lemma FileStageEncoding(site: Site, store: Store, outer: Outer, req: Request)
    ensures var r := FileStage(site, store, outer, req);
      NotBothAndOnce(r) && (r.headers.contentEncoding != [] ==> site.opts.compressionStatic)
  {
    if !Hits(site, store, req) && Miss(site, req).Ok? {
      MetadataCoherent(site.fs, LookupPath(site, req), StaticEncodings(site, req), site.opts.indexFiles, site.opts.disableSymlinks);
      AnswerEncoding(site, req, Resolved(site, req).value);
    }
  }

  lemma AnswerEncoding(site: Site, req: Request, m: FileMetadata)
    requires Answer(site, req, m).Ok?
    ensures var r := Answer(site, req, m).value;
      NotBothAndOnce(r) && (r.headers.contentEncoding != [] ==> m.variant.Some?)
  {
  }

  // ---- The cache seen from outside

  /** The final response for a request that no early stage answers. */
  function Final(site: Site, store: Store, outer: Outer, req: Request): (r: Response) {
    PostStages(site, outer, req, FileStage(site, store, outer, req))
  }

  /** The later stages act on what the client sees, not on how the body is chunked or teed. */
  lemma PostStagesRespectView(site: Site, outer: Outer, req: Request, a: Response, b: Response)
    requires View(a) == View(b)
    ensures View(PostStages(site, outer, req, a)) == View(PostStages(site, outer, req, b))
  {
  }

  /** Later stages change the status only of a 404. */
  lemma PostStagesKeepStatus(site: Site, outer: Outer, req: Request, resp: Response)
    requires resp.status != NOT_FOUND
    ensures PostStages(site, outer, req, resp).status == resp.status
  {
  }

  /**
   On a site whose variants match, for every reachable store and every allowed request for which no variant would
   be chosen, the server answers as if the store were empty, except exactly for hits on OPTIONS requests and on
   files that the disk would refuse: links that are not followed and files that cannot be opened.
   */
  lemma CacheTransparentExactly(site: Site, events: seq<Event>, outer: Outer, req: Request)
    requires site.fs.Valid() && VariantsMatch(site, LookupPath(site, req)) && !req.verb.OTHER?
    requires NoVariant(site.fs, LookupPath(site, req), StaticEncodings(site, req))
    ensures var store := Run(site, events).store;
      View(Final(site, store, outer, req)) == View(Final(site, map[], outer, req)) <==>
      !(Hits(site, store, req) && (req.verb.OPTIONS? || !PlainOnDisk(site, req)))
  {
    var store := Run(site, events).store;
    if Hits(site, store, req) {
      HitAgreesExactly(site, events, req);
      HitMissStatus(site, events, req);
      var hit := HitReply(site, store, req).value;
      var cold := FileStage(site, map[], outer, req);
      PostStagesKeepStatus(site, outer, req, hit);
      if View(hit) == View(cold) {
        PostStagesRespectView(site, outer, req, hit, cold);
      } else {
        PostStagesKeepStatus(site, outer, req, cold);
      }
    }
  }
}
