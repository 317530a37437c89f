/**
 Responses for files: `response_body` of src/response.rs and its counterpart for cached files,
 `MemFile::response_body` of src/mem_cache/cache.rs.
 */
module Responses {
  import opened Wrappers
  import opened Paths
  import opened Files
  import opened FileStreams
  import opened Ranges
  import opened Conditionals
  import opened Negotiation

  const OK: nat := 200
  const PARTIAL_CONTENT: nat := 206
  const RANGE_NOT_SATISFIABLE: nat := 416

  /** `last` is inclusive; it is `first - 1` for an empty window. */
  datatype ContentRange = Satisfied(first: nat, last: int, complete: nat) | Unsatisfied(complete: nat)

  /** The headers that file responses set; `contentEncoding` lists the codings applied. */
  datatype Headers = Headers(
    contentLength: Option<nat>,
    contentType: Option<string>,
    acceptRanges: bool,
    lastModified: Option<HttpDate>,
    contentRange: Option<ContentRange>,
    contentEncoding: seq<ContentCoding>,
    location: Option<string>,
    allow: bool,
    vary: bool)

  const NO_HEADERS := Headers(None, None, false, None, None, [], None, false, false)

  /** `MemFileTempOpts` with the buffer the stream fills: `mem_buf` and its capacity. */
  datatype Tee = Tee(key: Path, contentType: string, lastModified: Option<HttpDate>, capacity: nat, buf: Option<seq<bv8>>)

  datatype Body = Empty | Page(text: string) | Streamed(reader: Reader, bufSize: nat, tee: Option<Tee>)

  datatype Response = Response(status: nat, headers: Headers, body: Body)

  /** A cached file. */
  datatype MemFile = MemFile(data: seq<bv8>, bufSize: nat, contentType: string, lastModified: Option<HttpDate>)

  // ---- What the client sees

  datatype Payload = Nothing | Text(text: string) | Octets(data: seq<bv8>) | Unreadable

  /** The bytes a fully drained body has delivered. */
  function Drained(body: Body): (p: Payload) {
    match body
    case Empty => Nothing
    case Page(text) => Text(text)
    case Streamed(reader, _, _) =>
      if reader.Valid() && reader.readable then Octets(reader.data[reader.pos..reader.end]) else Unreadable
  }

  datatype Seen = Seen(status: nat, headers: Headers, payload: Payload)

  function View(r: Response): (s: Seen) {
    Seen(r.status, r.headers, Drained(r.body))
  }

  // ---- Specification

  /** Status, headers and, when there is a body, its window. */
  datatype Head = Head(status: nat, headers: Headers, window: Option<Window>)

  function WindowHeaders(w: Window, len: nat, contentType: string, lastModified: Option<HttpDate>): (h: Headers)
    requires w.start <= w.end <= len
  {
    NO_HEADERS.(
      contentLength := Some(w.end - w.start),
      contentType := Some(contentType),
      acceptRanges := true,
      lastModified := lastModified,
      contentRange := if w == Window(0, len) then None else Some(Satisfied(w.start, w.end - 1, len)))
  }

  /** The response head for a file of the given length, type and date. */
  function Serve(len: nat, contentType: string, lastModified: Option<HttpDate>, c: ConditionalHeaders): (h: Head)
    ensures h.window.Some? ==> h.window.value.start <= h.window.value.end <= len
    ensures h.window.Some? <==> h.status == OK || h.status == PARTIAL_CONTENT
    ensures h.status in {OK, PARTIAL_CONTENT, NOT_MODIFIED, PRECONDITION_FAILED, RANGE_NOT_SATISFIABLE}
  {
    match Check(c, lastModified)
    case NoBody(status) => Head(status, NO_HEADERS, None)
    case WithBody(range) =>
      match BytesRange(range, len)
      case None => Head(RANGE_NOT_SATISFIABLE, NO_HEADERS.(contentRange := Some(Unsatisfied(len))), None)
      case Some(w) =>
        Head(if w == Window(0, len) then OK else PARTIAL_CONTENT, WindowHeaders(w, len, contentType, lastModified), Some(w))
  }

  /** The disk response; the body is teed into the cache when caching is on and the file is not too large. */
  function DiskResponse(node: Node, path: Path, contentType: string, c: ConditionalHeaders, maxFileSize: Option<nat>)
    : (r: Response)
  {
    var len := node.meta.len;
    var h := Serve(len, contentType, LastModified(node.meta), c);
    Response(h.status, h.headers,
             if h.window.None? then Empty
             else Streamed(Reader(node.data, !node.meta.isDir, h.window.value.start, h.window.value.end),
                           OptimalBufSize(node.meta),
                           if maxFileSize.Some? && len <= maxFileSize.value
                           then Some(Tee(path, contentType, LastModified(node.meta), len, Some([])))
                           else None))
  }

  /** The response of a cache hit. */
  function MemResponse(f: MemFile, c: ConditionalHeaders): (r: Response) {
    var h := Serve(|f.data|, f.contentType, f.lastModified, c);
    Response(h.status, h.headers,
             if h.window.None? then Empty
             else Streamed(Reader(f.data, true, h.window.value.start, h.window.value.end), f.bufSize, None))
  }

  // ---- The code

  /** `response_body`. */
  method ResponseBody(node: Node, path: Path, contentType: string, c: ConditionalHeaders, maxFileSize: Option<nat>)
    returns (resp: Response)
    ensures resp == DiskResponse(node, path, contentType, c, maxFileSize)
  {
    var len := node.meta.len;
    var modified := LastModified(node.meta);
    match Check(c, modified) {
      case NoBody(status) =>
        resp := Response(status, NO_HEADERS, Empty);
      case WithBody(range) =>
        var bufSize := OptimalBufSize(node.meta);
        var w := BytesRange(range, len);
        if w.None? {
          resp := Response(OK, NO_HEADERS, Empty);
          resp := resp.(status := RANGE_NOT_SATISFIABLE);
          resp := resp.(headers := resp.headers.(contentRange := Some(Unsatisfied(len))));
          return;
        }
        var start, end := w.value.start, w.value.end;
        var subLen := end - start;
        var reader := Reader(node.data, !node.meta.isDir, start, end);
        var tee := None;
        if maxFileSize.Some? && len <= maxFileSize.value {
          tee := Some(Tee(path, contentType, modified, len, Some([])));
        }
        resp := Response(OK, NO_HEADERS, Streamed(reader, bufSize, tee));
        if subLen != len {
          resp := resp.(status := PARTIAL_CONTENT);
          resp := resp.(headers := resp.headers.(contentRange := Some(Satisfied(start, end - 1, len))));
          len := subLen;
        }
        resp := resp.(headers := resp.headers.(contentLength := Some(len)));
        resp := resp.(headers := resp.headers.(contentType := Some(contentType)));
        resp := resp.(headers := resp.headers.(acceptRanges := true));
        if modified.Some? {
          resp := resp.(headers := resp.headers.(lastModified := modified));
        }
    }
  }

  /** `MemFile::response_body`. */
  method MemResponseBody(f: MemFile, c: ConditionalHeaders) returns (resp: Response)
    ensures resp == MemResponse(f, c)
  {
    match Check(c, f.lastModified) {
      case NoBody(status) =>
        resp := Response(status, NO_HEADERS, Empty);
      case WithBody(range) =>
        var len := |f.data|;
        var w := BytesRange(range, len);
        if w.None? {
          resp := Response(RANGE_NOT_SATISFIABLE, NO_HEADERS.(contentRange := Some(Unsatisfied(len))), Empty);
          return;
        }
        var start, end := w.value.start, w.value.end;
        var subLen := end - start;
        resp := Response(OK, NO_HEADERS, Streamed(Reader(f.data, true, start, end), f.bufSize, None));
        if subLen != len {
          resp := resp.(status := PARTIAL_CONTENT);
          resp := resp.(headers := resp.headers.(contentRange := Some(Satisfied(start, end - 1, len))));
          len := subLen;
        }
        resp := resp.(headers := resp.headers.(contentLength := Some(len)));
        resp := resp.(headers := resp.headers.(contentType := Some(f.contentType)));
        resp := resp.(headers := resp.headers.(acceptRanges := true));
        if f.lastModified.Some? {
          resp := resp.(headers := resp.headers.(lastModified := f.lastModified));
        }
    }
  }

  // ---- Properties

  /** A cached copy of a regular file. */
  predicate IsCopy(f: MemFile, node: Node, contentType: string) {
    && !node.meta.isDir
    && f.data == node.data
    && f.contentType == contentType
    && f.lastModified == LastModified(node.meta)
  }

  /** For all conditional and range headers, a copy is served like the file itself. */
  lemma CopyServedAlike(f: MemFile, node: Node, path: Path, contentType: string, c: ConditionalHeaders, maxFileSize: Option<nat>)
    requires node.meta.len == |node.data| && IsCopy(f, node, contentType)
    ensures View(MemResponse(f, c)) == View(DiskResponse(node, path, contentType, c, maxFileSize))
  {
  }

  /** Content-Length counts the drained bytes, and Content-Range locates them in the file. */
  lemma HeadersDescribeBody(node: Node, path: Path, contentType: string, c: ConditionalHeaders, maxFileSize: Option<nat>)
    requires !node.meta.isDir && node.meta.len == |node.data|
    ensures var r := DiskResponse(node, path, contentType, c, maxFileSize);
      && (r.status == OK ==> Drained(r.body) == Octets(node.data) && r.headers.contentRange.None?)
      && (r.status == PARTIAL_CONTENT ==>
            && r.headers.contentRange.Some? && r.headers.contentRange.value.Satisfied?
            && 0 <= r.headers.contentRange.value.first <= r.headers.contentRange.value.last + 1 <= |node.data|
            && r.headers.contentRange.value.complete == |node.data|
            && Drained(r.body) == Octets(node.data[r.headers.contentRange.value.first..r.headers.contentRange.value.last + 1]))
      && (Drained(r.body).Octets? ==> r.headers.contentLength == Some(|Drained(r.body).data|))
      && (!Drained(r.body).Octets? ==> Drained(r.body).Nothing? && r.headers.contentLength.None?)
  {
    assert node.data[0..|node.data|] == node.data;
  }

  /** The request for bytes `a..b`, as a client writes it. */
  function Piece(a: nat, b: nat): (c: ConditionalHeaders)
    requires a < b <= U64_MAX
  {
    ConditionalHeaders(None, None, None, Some([Spec(Included(a), Included(b - 1))]))
  }

  ghost predicate IsCutting(cuts: seq<nat>, len: nat) {
    && |cuts| >= 2 && cuts[0] == 0 && cuts[|cuts| - 1] == len
    && forall i, j :: 0 <= i < j < |cuts| ==> cuts[i] < cuts[j]
  }

  /** The bytes received for one piece. */
  function PieceBody(node: Node, path: Path, contentType: string, a: nat, b: nat): (r: seq<bv8>)
    requires a < b <= U64_MAX
  {
    var p := Drained(DiskResponse(node, path, contentType, Piece(a, b), None).body);
    if p.Octets? then p.data else []
  }

  /** One piece is served exactly, with its Content-Range unless it is the whole file. */
  lemma PieceServed(node: Node, path: Path, contentType: string, a: nat, b: nat)
    requires !node.meta.isDir && node.meta.len == |node.data| && a < b <= node.meta.len <= U64_MAX
    ensures PieceBody(node, path, contentType, a, b) == node.data[a..b]
    ensures DiskResponse(node, path, contentType, Piece(a, b), None).headers.contentRange
         == if b - a == |node.data| then None else Some(Satisfied(a, b - 1, |node.data|))
  {
    assert BytesRange(Piece(a, b).range, node.meta.len) == Some(Window(a, b));
  }

  /** The bodies of the first `k` pieces, one after the other. */
  ghost function Bodies(node: Node, path: Path, contentType: string, cuts: seq<nat>, k: nat): (r: seq<bv8>)
    requires IsCutting(cuts, node.meta.len) && node.meta.len <= U64_MAX && k < |cuts|
  {
    if k == 0 then []
    else
      CutsInside(cuts, node.meta.len, k);
      Bodies(node, path, contentType, cuts, k - 1) + PieceBody(node, path, contentType, cuts[k - 1], cuts[k])
  }

  lemma CutsInside(cuts: seq<nat>, len: nat, k: nat)
    requires IsCutting(cuts, len) && k < |cuts|
    ensures cuts[k] <= len && (k > 0 ==> cuts[k - 1] < cuts[k])
  {
    assert k < |cuts| - 1 ==> cuts[k] < cuts[|cuts| - 1];
  }

  lemma {:induction false} BodiesArePrefix(node: Node, path: Path, contentType: string, cuts: seq<nat>, k: nat)
    requires !node.meta.isDir && node.meta.len == |node.data| <= U64_MAX
    requires IsCutting(cuts, node.meta.len) && k < |cuts|
    ensures cuts[k] <= |node.data| && Bodies(node, path, contentType, cuts, k) == node.data[..cuts[k]]
  {
    CutsInside(cuts, node.meta.len, k);
    if k > 0 {
      BodiesArePrefix(node, path, contentType, cuts, k - 1);
      PieceServed(node, path, contentType, cuts[k - 1], cuts[k]);
      Adjacent(node.data, cuts[k - 1], cuts[k]);
    }
  }

  lemma Adjacent(data: seq<bv8>, a: nat, b: nat)
    requires a <= b <= |data|
    ensures data[..a] + data[a..b] == data[..b]
  {
  }

  /** Consecutive range requests for any cutting of the file rebuild it. */
  lemma Reassembly(node: Node, path: Path, contentType: string, cuts: seq<nat>)
    requires !node.meta.isDir && node.meta.len == |node.data| <= U64_MAX
    requires IsCutting(cuts, node.meta.len)
    ensures Bodies(node, path, contentType, cuts, |cuts| - 1) == node.data
  {
    BodiesArePrefix(node, path, contentType, cuts, |cuts| - 1);
    TakeAll(node.data);
  }

  lemma TakeAll(data: seq<bv8>)
    ensures data[..|data|] == data
  {
  }

  /**
   Echoing the Last-Modified of an earlier answer for an unchanged file (disk or cache): not modified
   for If-Modified-Since, never a failed precondition for If-Unmodified-Since, and If-Range has no effect.
   */
  lemma Revalidation(len: nat, contentType: string, lastModified: Option<HttpDate>, earlier: ConditionalHeaders, c: ConditionalHeaders)
    requires Serve(len, contentType, lastModified, earlier).headers.lastModified.Some?
    ensures var echo := Serve(len, contentType, lastModified, earlier).headers.lastModified;
      && (c.ifUnmodifiedSince.None? ==>
            Serve(len, contentType, lastModified, c.(ifModifiedSince := echo)).status == NOT_MODIFIED)
      && Serve(len, contentType, lastModified, c.(ifUnmodifiedSince := echo)).status != PRECONDITION_FAILED
      && Serve(len, contentType, lastModified, c.(ifUnmodifiedSince := echo, ifModifiedSince := echo)).status == NOT_MODIFIED
      && Serve(len, contentType, lastModified, c.(ifRange := Some(Date(echo.value))))
         == Serve(len, contentType, lastModified, c.(ifRange := None))
  {
  }
}
