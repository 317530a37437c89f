# Static Web Server: a verified model of the file-serving engine

This project models how Static Web Server turns a request into a path, a resolved file, a byte window,
a streamed body and possibly a cached copy, and proves what that engine keeps over whole runs.
`dafny verify dfyconfig.toml` checks all of it.

| module | what it models |
|---|---|
| `Text`, `Wrappers`, `Sorting` | splitting, options and results, the stable slice sort |
| `Paths` | percent decoding, path components and `sanitize_path`, on octets |
| `References` | how a client resolves a reference, and dot removal as a stack of segments |
| `Links` | percent encoding, request paths and the links of a listing |
| `Listing` | the entry loop, ordering, size formatting |
| `Negotiation` | quality values, combining of header lines, choice of content codings |
| `Ranges`, `Conditionals` | `Range` headers and the date-based conditional headers |
| `Files`, `FileStreams` | the fixed file system, chunked reading with short reads and errors |
| `Responses` | disk responses and responses from cached copies |
| `Resolution` | index files, `.html` suffixes and pre-compressed variants |
| `MemCache`, `StaticFiles` | the cache store, the teeing stream, the file handler |
| `Routes` | which files requests are answered from, as a condition on the roots and the file system |
| `CacheRuns` | runs: misses, hits, polls, evictions and closes in any interleaving |
| `Pipeline` | the stages around the file handler, and the cache seen from outside |
| `Sites` | concrete sites and requests at which a documented property fails |
| `Signals` | the graceful-shutdown wait as a step system |

## Main results

- **What is served and cached.** For every set of root directories, some client's request is answered from a file under
  a name exactly when the roots and the file system offer a route to it, and a path is ever cached exactly when such a
  route leads to a storable file (`Routes.AnsweredExactly`, `CacheRuns.CachedExactly`). Outside the roots that is
  exactly `<root>.html`, for a root without its first index (`Routes.OutsideRootsExactly`,
  `CacheRuns.OutsideCachedExactly`).
- **Cache content.** In every run each entry is a whole, non-empty copy of a file (`CacheRuns.EntriesAreWholeFiles`).
  All entries of all runs are copies of the files they are stored for if and only if every pre-compressed variant that
  can be stored has an original with the same bytes and date (`CacheRuns.CacheExactExactly`). Without static
  compression that always holds.
- **Cache transparency.** For a path whose own variants meet that condition, every reachable store and every request for
  which the disk would choose no variant, the final response is the one an empty store gives, except exactly for hits on
  OPTIONS requests and on files the disk would refuse (`Pipeline.CacheTransparentExactly`). The answers of the file
  handler are compared for all requests for such a path, also those that would get a variant
  (`CacheRuns.HitAgreesExactly`).
- **Resolution.** The loop over one path buffer refines "first hit of an ordered candidate list"
  (`Resolution.GetComposedFileMetadata`), and its metadata belongs to the file that will be opened
  (`Resolution.MetadataCoherent`).
- **Listing links.** A listed link leads back to its entry if and only if the request path's last segment cannot
  be read as a URI scheme, and every ".." in the request path climbs out of nothing or out of a segment that names
  nothing (`Links.LinkRoundTrip`). On the page served for a request the links lead into the listed directory exactly
  when, besides, no `index.html` was added to the path for the cache (`StaticFiles.ServedLinksExactly`).
- **Ranges and conditions.** Windows are what RFC 9110 selects, and for GET, HEAD and OPTIONS conditions are decided
  as it says, with the exact exceptions (`Ranges.RejectionIsJustified`, `Conditionals.FollowsRfc9110Exactly`).
- **Shutdown.** A wait ends only with a cause, and one cancel notification ends at most one of the waits that
  share the receiver (`Signals.WaitEndsOnlyWithCause`, `Signals.EachChangeEndsAtMostOneWait`).

## Where the code departs from its documentation or answers inconsistently

- docs/content/features/disable-symlinks.md says that any linked path component is refused. The code only looks at
  the requested path itself. What it opens for other paths is reached through a link exactly when an ancestor of the
  path is a link, or the first existing index, `.html` file or variant is one (`Resolution.LinksRefusedExactly`). Such a
  link can get into the cache and then be served for a direct request that the disk would refuse
  (`CacheRuns.RefusedLinkCachedExactly`, `Sites.RefusedLinkServedFromCache`).
- docs/content/features/virtual-hosting.md says that files are served from the selected root, and a comment at
  src/directory_listing.rs:80-84 relies on it. A root without its first index is answered from the `.html` file beside
  it (`Routes.OutsideRootsExactly`, `Sites.BesideRootServed`).
- OPTIONS is answered with the file when it is in the cache, and with 204 otherwise (`Sites.OptionsAnsweredFromCache`).
- With the cache and redirects on, a directory named `index.html` is listed for its parent, and the links of that page
  do not lead to its entries (`StaticFiles.ServedLinksExactly`, `Sites.IndexDirectoryListed`).
- With static compression, a variant's bytes are cached under the original's path
  (`Sites.VariantStoredAsOriginal`).
- `bytes_range` computes `b + 1`, which wraps in the release build. `a-18446744073709551615` is refused although it
  selects bytes (`Ranges.RejectionIsJustified`).
- The conditional check reads neither the method nor If-Match and If-None-Match. Ranges are followed on HEAD, dates are
  applied where an entity-tag condition overrides them, and an If-Range date may be later than the file's
  (`Conditionals.HeadRangeIsFollowed`, `Conditionals.DateBeatsTag`, `Conditionals.OtherDisagreements`).
- `<dir>.html` is probed after the first index, so it wins over the second (`Resolution.HtmlBeatsSecondIndex`).
- One Accept-Encoding line that is not visible ASCII hides all the others (`Negotiation.CombinedLinesExactly`,
  `Negotiation.BadLineHidesCoding`).
- Listing links break below a request path with a climbing ".." or a colon in its last segment
  (`Links.ClimbBreaksLinks`, `Links.ColonBreaksLinks`).

## Modelling choices

- Octet strings are `string`s of characters below 256. Paths of the file system are lists of components, which is
  how `Path` equality compares them. `sanitize_path` works on the octets themselves.
- The file system does not change during a run, and a regular file's length is the number of its bytes.
- `BytesMut::with_capacity(len)` has capacity exactly `len`. Index names are single normal components.
- MIME types, directory reading, listing pages, the ranking of lower-cased names, error texts, the text test of the
  compressor and the reading of a weight as a number are function-valued parameters. Dates are seconds; modification
  times are nanoseconds since the epoch.
- A site has a set of roots, those that some Host header selects. A request names one of them and has a path that starts
  with `/`. The asterisk form of a request target asks for nothing that `/*` does not.
- A scheme is recognised as by the regular expression in appendix B of RFC 3986, where anything but `:/?#` may precede
  the colon. The grammar of section 3.1 is narrower and does not allow `1` as a scheme, so what is said about links is
  for clients that split references by that expression.
- A read returns at least one byte unless nothing can be read, and a failed read consumes nothing.
- All compression features are compiled in, and the platform is Unix.

## Model

| member | source | states |
|---|---|---|
| Paths.PushAddsOneComponent | src/fs/path.rs:61-66 | pushing a normal name onto any buffer adds exactly that component |
| Paths.DecodeAtSlash | src/fs/path.rs:45-48 | percent decoding never joins text across a separator |
| Paths.TailComponentsAreNormalNames | src/fs/path.rs:56-77 | no empty, dot or separator-carrying name survives, also when the dots or separators were escaped |
| Paths.SanitizedIsBelow | src/fs/path.rs:51-79 | no request path leaves its base: only plain names are added to it |
| Paths.SanitizePath | src/fs/path.rs:51-79 | the result extends the base text and has the base's components followed by exactly the tail's normal ones, in order |
| References.ClimbsLoseNothing | src/directory_listing.rs:263-279 | the segments that survive dot removal name what all of them name exactly when every ".." pops nothing or a segment that names nothing; otherwise names are lost |
| References.DotsAsStack | src/directory_listing.rs:263-279 | dot removal by section 5.2.4 of RFC 3986 names what the stack of segments names, for every input |
| References.EntryAfterDots | src/directory_listing.rs:263-279 | an entry below a request path is still named after dot removal exactly when the climbs of the request path are harmless |
| References.NoClimbIsHarmless | src/directory_listing.rs:263-279 | request paths without ".." are harmless |
| Links.UriPathOfNames | src/fs/path.rs:45-66 | every list of names below a base is what some request path, without a separator at its end, asks for |
| Links.DecodeEncode | src/directory_listing.rs:25-29 | decoding an encoded entry name gives the name back, for all octets |
| Links.EncodedNameIsSegment | src/directory_listing.rs:261-261 | an encoded entry name is one segment that is not a dot segment |
| Links.MergedLinkRoundTrip | src/directory_listing.rs:261-283 | for every request path and entry the link merged by section 5.2.3 of RFC 3986 names the entry below the listed directory |
| Links.LinkRoundTrip | src/directory_listing.rs:261-283 | with scheme detection and dot removal the link works exactly when the last request segment is not scheme-like and every climb is harmless |
| Links.ClimbBreaksLinks | src/directory_listing.rs:270-279 | below `/x/../y` no link works |
| Links.ColonBreaksLinks | src/directory_listing.rs:270-279 | below `/a:b` no link works |
| Listing.BuildUri | src/directory_listing.rs:261-283 | the link extended in place is the specified one |
| Listing.ShowEntry | src/directory_listing.rs:198-293 | an entry is skipped or shown with its kind, size and link |
| Listing.ReadDirEntries | src/directory_listing.rs:192-295 | the loop fails exactly on an unreadable entry, and otherwise lists exactly what may be shown and counts it |
| Listing.ListedLinksWork | src/directory_listing.rs:196-295 | every listed entry is one of the directory, never a hidden one when those are ignored, and its link works exactly under the condition of `Links.LinkRoundTrip` |
| Listing.SortFileEntries | src/directory_listing.rs:486-530 | the slice becomes the ordered listing, and the header codes select the same key in another order |
| Listing.OrderedIsReordering | src/directory_listing.rs:492-523 | ordering is a permutation, ascending for even and descending for odd codes |
| Listing.FormatFileSize | src/directory_listing.rs:533-552 | the unit is the largest the size reaches, and the shifted value is the exact quotient, so less than 1024^(k-1) bytes are lost |
| Negotiation.CodingRoundTrip | src/headers_ext/content_coding.rs:24-63 | a coding written into a header is read back as itself |
| Negotiation.TryFrom | src/headers_ext/quality_value.rs:47-65 | the last readable weight of an entry wins, 1000 by default |
| Negotiation.PreferencesAreStableAndDescending | src/headers_ext/quality_value.rs:32-80 | preferences are the one quality-descending, stable reordering of the entries |
| Negotiation.TryFromValues | src/headers_ext/quality_value.rs:82-106 | several header lines become one value joined by a comma and a space |
| Negotiation.CombinedLinesExactly | src/headers_ext/quality_value.rs:69-106 | joining lines keeps their preferences exactly when all or none of them are visible ASCII |
| Negotiation.BadLineHidesCoding | src/headers_ext/quality_value.rs:69-106 | one line with an octet above ASCII takes away the coding of another line |
| Negotiation.Available | src/compression.rs:340-343 | exactly the supported codings are kept |
| Negotiation.OneCoding | src/compression.rs:336-346 | accepting one supported coding by name offers exactly that coding |
| Negotiation.GetPreferredEncoding | src/compression.rs:321-332 | the preferred encoding is the head of the accepted encodings |
| Ranges.BytesRange | src/response.rs:156-217 | windows lie inside the file, and no header means the whole file |
| Ranges.AcceptedWindowIsSelection | src/response.rs:163-210 | an accepted window is exactly the set of positions the first parsed spec selects |
| Ranges.RejectedExactly | src/response.rs:163-216 | a header is refused exactly when nothing parsed, the successor wraps, or nothing is selected and it does not start at the end |
| Ranges.RejectionIsJustified | src/response.rs:170-177 | a refused spec selects nothing, except exactly for the wrapping successor |
| Ranges.EmptyWindowExactly | src/response.rs:199-208 | an accepted empty window occurs exactly for a == len < b |
| Conditionals.FollowsRfc9110Exactly | src/conditional_headers.rs:40-86 | for every method the file handler admits, every entity-tag condition and every date the decision agrees with section 13.2.2 of RFC 9110 exactly outside the named cases |
| Conditionals.HeadRangeIsFollowed | src/conditional_headers.rs:76-85 | HEAD with a range is answered with the range, which the RFC ignores |
| Conditionals.DateBeatsTag | src/conditional_headers.rs:59-74 | If-Modified-Since gives 304 although If-None-Match overrides it |
| Conditionals.OtherDisagreements | src/conditional_headers.rs:40-86 | one request for each other named case |
| FileStreams.OptimalBufSize | src/fs/stream.rs:49-64 | the buffer is zero only for empty files, never larger than the file, and smaller only from 4096 on |
| FileStreams.Poll | src/fs/stream.rs:33-46 | a poll yields the next non-empty bytes of the window, the end only at the end, and errors consume nothing |
| FileStreams.FileStream.PollNext | src/fs/stream.rs:33-46 | the stream object follows the specified poll |
| FileStreams.Drain | src/fs/stream.rs:33-46 | draining ends and yields exactly the window under every short-read schedule |
| Responses.Serve | src/response.rs:42-149 | there is a window exactly for 200 and 206, and only five statuses occur |
| Responses.ResponseBody | src/response.rs:32-150 | the disk response has the specified head, window, buffer and tee |
| Responses.MemResponseBody | src/mem_cache/cache.rs:187-254 | the cache response has the specified head and window over the cached bytes |
| Responses.CopyServedAlike | src/mem_cache/cache.rs:187-254 | for all conditional and range headers a copy is served like the file |
| Responses.HeadersDescribeBody | src/response.rs:111-138 | Content-Length counts the drained bytes, and Content-Range locates them |
| Responses.PieceServed | src/response.rs:163-197 | one a-b request yields exactly its bytes and range |
| Responses.Reassembly | src/response.rs:111-128 | the pieces of any cutting of a file rebuild it |
| Responses.Revalidation | src/conditional_headers.rs:40-86 | echoing Last-Modified gives 304, never 412, and leaves a range request unchanged |
| Resolution.PrecompressedVariant | src/compression_static.rs:57-127 | the variant is the earliest listed coding with a regular variant file |
| Resolution.TryMetadataWithHtmlSuffix | src/fs/meta.rs:49-74 | a hit leaves the suffixed path in the buffer, a failed probe restores it |
| Resolution.ComposeMissing | src/static_files.rs:358-427 | missing paths: variants, then `.html`; the last variant check never succeeds |
| Resolution.ComposeDirectory | src/static_files.rs:271-329 | the index loop finds the first hit among variants, index and `<dir>.html` per index name |
| Resolution.GetComposedFileMetadata | src/static_files.rs:251-429 | the result is the first hit of the candidate list; the buffer ends at the reported path, or unchanged on errors |
| Resolution.MetadataCoherent | src/static_files.rs:278-356 | the metadata describes the file that will be opened, except for a directory without index, whose reported path does not exist |
| Resolution.HtmlBeatsSecondIndex | src/static_files.rs:313-321 | when neither the first index nor a variant of it exists, `<dir>.html` wins over all later indexes |
| Resolution.HiddenStaysHidden | src/static_files.rs:137-140 | a hidden path only resolves to hidden paths |
| Resolution.LinksRefusedExactly | src/static_files.rs:260-267 | exactly requested links are refused, and what is opened for other paths is reached through a link exactly when an ancestor or the first existing candidate is one |
| MemCache.PollBody | src/mem_cache/stream.rs:22-70 | polling follows the plain stream, and only a chunk of a teed body changes the store |
| MemCache.MemCacheFileStream.PollNext | src/mem_cache/stream.rs:22-70 | the stream object and the shared store follow the specified poll |
| StaticFiles.Handle | src/static_files.rs:94-246 | the answer is 405, the hit or the miss answer, and the store is only read |
| StaticFiles.AutoIndex | src/directory_listing.rs:79-138 | the listing page is rendered from the counted, ordered entries of the listed directory; read errors are answered |
| StaticFiles.StreamsExactly | src/static_files.rs:137-245 | exactly when a miss streams: resolved, with an index, visible, slash given, not OPTIONS, openable and with a window |
| StaticFiles.StreamedFrom | src/static_files.rs:204-245 | a streamed answer comes from an openable file with its own metadata, under a path that is not ignored |
| StaticFiles.NoIndexIsListed | src/directory_listing.rs:85-88 | the directory listed for a missing index is the one that was looked up |
| StaticFiles.ServedLinksExactly | src/static_files.rs:185-202 | the links on the page served for a request lead to the entries of the directory that was read exactly under the condition of `Links.LinkRoundTrip` and without an added index |
| StaticFiles.NoIndexOutcome | src/static_files.rs:144-202 | a directory without index is redirected, described, listed or not found |
| CacheRuns.RunKeepsInv | src/mem_cache/stream.rs:22-70 | every event keeps the invariant on entries and open bodies |
| CacheRuns.EntriesAreWholeFiles | src/response.rs:74-104 | every entry of every run is a whole, non-empty, size-limited copy of its file or a variant |
| CacheRuns.EntriesAreExact | src/mem_cache/stream.rs:36-62 | without static compression every entry is a copy of its own file |
| Routes.AnsweredExactly | src/static_files.rs:251-475 | some request below a root is answered from a file under a name exactly when roots and files offer a route: itself, an index, `.html`, or a variant |
| Routes.OutsideRootsExactly | src/static_files.rs:313-321 | outside the roots exactly `<root>.html` is served, for a root without its first index |
| CacheRuns.CachedExactly | src/mem_cache/stream.rs:36-62 | some run caches a path exactly when a storable file has a route to its name |
| CacheRuns.OutsideCachedExactly | src/static_files.rs:313-321 | the only path outside the roots that is ever cached is such a `<root>.html` |
| CacheRuns.CacheExactExactly | src/static_files.rs:205-214 | entries are exact in all runs if and only if every storable variant that is served matches its original |
| CacheRuns.RefusedLinkCachedExactly | src/static_files.rs:260-321 | a refused link is ever cached exactly when it is reached as an index or `.html` file, or a variant is for it as an index |
| Sites.VariantStoredAsOriginal | src/static_files.rs:205-214 | after GET `/a` the byte of `a.gz` is stored under the path of `a` |
| Sites.RefusedLinkServedFromCache | src/static_files.rs:115-121 | GET `/index.html` is refused by the disk and served from the cache after GET `/` |
| Sites.BesideRootServed | src/static_files.rs:313-321 | GET `/` for root `d` is answered from `d.html` |
| Sites.OptionsAnsweredFromCache | src/static_files.rs:115-121 | after GET `/a`, OPTIONS `/a` is answered differently than with an empty store |
| Sites.IndexDirectoryListed | src/static_files.rs:111-113 | GET `/` lists the directory `index.html`, and the link of its entry does not lead there |
| CacheRuns.PartialNeverInserts | src/mem_cache/stream.rs:40-42 | a body over part of a file never changes the store |
| CacheRuns.DeliveredExactly | src/fs/stream.rs:33-46 | in every run a body delivers its window in order, completely when it ends, with the announced length |
| CacheRuns.HiddenNeverHit | src/static_files.rs:107-140 | with hidden files ignored no reachable store answers for a hidden path |
| CacheRuns.HiddenAlwaysRefused | src/static_files.rs:107-140 | with hidden files ignored a hidden path is refused in every reachable state |
| CacheRuns.HitAgreesExactly | src/static_files.rs:115-121 | where the variants of the path match it, a reachable hit is seen like the disk answer exactly when the request is not OPTIONS and the disk has no refused link, open error or variant for it |
| Pipeline.HandleRequest | src/handler.rs:210-344 | the stages in order; never both Content-Encoding and Content-Length, at most one coding, no dynamic coding for HEAD and OPTIONS |
| Pipeline.FileStageEncoding | src/static_files.rs:205-234 | the file handler encodes only variants, and then drops the length |
| Pipeline.CacheTransparentExactly | src/static_files.rs:106-122 | where the variants of the path match it and none is chosen, the final response equals that of an empty store, with the exact exceptions |
| Signals.WaitEndsOnlyWithCause | src/signals.rs:29-68 | a wait ends only after its termination signal, a watch change or drop, or without receiver the end of its signal stream |
| Signals.DelegatedAtMostOnce | src/signals.rs:63-68 | shutdown is delegated at most once per server, after its message was received and for a cause |
| Signals.ReceiverIsExclusive | src/signals.rs:55-61 | at most one cancel task uses the shared receiver |
| Signals.EachChangeEndsAtMostOneWait | src/server.rs:434-444 | while the sender lives, k changes end at most k waits of servers that got no termination signal |
| Signals.TerminationCompletes | src/signals.rs:37-68 | from any reachable state a caught termination signal lets the server delegate its shutdown, whoever holds the lock |

## Left out

- TLS, sockets, Hyper and Tokio services, Windows, logging and metrics: input, output and foreign libraries.
- Pipeline.CacheTransparentExactly: says nothing of hits where the disk would choose a variant, because whether
  compressing the hit gives the variant's bytes depends on the compressors; `CacheRuns.HitAgreesExactly` covers them
  before that stage.
- Selection of a virtual host by its name: a request may name any of the roots.
- Settings, redirects, rewrites, CORS, basic authentication, maintenance and health: their answers are the parameter
  `early` of `Pipeline.HandleRequest`, since only their two length and encoding headers matter here.
- Custom, security and cache-control headers: they set headers that are not modelled.
- The compressors and the reading of q-values as floating-point numbers: only their header effect and order matter.
- Admission, expiry and eviction policy of the cache: modelled as eviction of any entry at any time. The cache
  permit is dropped as soon as it is acquired, so any number of misses for one path may run at once.
- Path text in cache keys: keys are component lists, so two spellings of one path are one key.
- Non-UTF-8 names: treated like other names.
- Signals: the tasks are steps over values and not objects, because their interleaving is the point. Sleeping
  for the grace period is one step, and that every task eventually runs is not stated.
- Listing.FormatFileSize: returns the shifted value and the unit; rounding the quotient to two decimals is not modelled.
- Parsing of header text into range specs and dates: the headers crate does it, and the model starts from its results.
