/**
 `ConditionalHeaders::check` (src/conditional_headers.rs), against the RFC. Dates are HTTP dates, in seconds.
 */
module Conditionals {
  import opened Wrappers
  import opened Ranges

  type HttpDate = nat

  datatype IfRange = Date(since: HttpDate) | EntityTag(tag: string)

  datatype ConditionalHeaders = ConditionalHeaders(
    ifModifiedSince: Option<HttpDate>,
    ifUnmodifiedSince: Option<HttpDate>,
    ifRange: Option<IfRange>,
    range: Option<Range>)

  datatype ConditionalBody = NoBody(status: nat) | WithBody(range: Option<Range>)

  const NOT_MODIFIED: nat := 304
  const PRECONDITION_FAILED: nat := 412

  /** `IfRange::is_modified` without an entity tag on our side. */
  predicate IfRangeModified(ifRange: IfRange, lastModified: Option<HttpDate>) {
    match ifRange
    case Date(since) => lastModified.None? || since < lastModified.value
    case EntityTag(_) => true
  }

  function Check(c: ConditionalHeaders, lastModified: Option<HttpDate>): (r: ConditionalBody) {
    if c.ifUnmodifiedSince.Some? && (lastModified.None? || c.ifUnmodifiedSince.value < lastModified.value) then
      NoBody(PRECONDITION_FAILED)
    else if c.ifModifiedSince.Some? && lastModified.Some? && lastModified.value <= c.ifModifiedSince.value then
      NoBody(NOT_MODIFIED)
    else if c.ifRange.Some? && IfRangeModified(c.ifRange.value, lastModified) then
      WithBody(None)
    else
      WithBody(c.range)
  }

  // ---- Section 13.2.2 of RFC 9110, for files without entity tags

  datatype Method = GET | HEAD | OPTIONS | OTHER

  /** The value of If-Match or If-None-Match. */
  datatype TagCondition = AnyTag | Tags(tags: seq<string>)

  /**
   All that section 13.2.2 looks at. The server reads only `dates`. `strongDate` says whether an If-Range
   date is a strong validator in the sense of section 8.8.2.2.
   */
  datatype Preconditions = Preconditions(
    verb: Method,
    ifMatch: Option<TagCondition>,
    ifNoneMatch: Option<TagCondition>,
    strongDate: bool,
    dates: ConditionalHeaders)

  datatype Verdict = Ignored | Holds | Fails

  /** Section 13.1.1: the file exists, and has no entity tag that could match strongly. */
  function IfMatch(p: Preconditions): Verdict {
    match p.ifMatch
    case None => Ignored
    case Some(AnyTag) => Holds
    case Some(Tags(_)) => Fails
  }

  /** Section 13.1.4, and step 2: ignored without a modification date or with an If-Match. */
  function IfUnmodifiedSince(p: Preconditions, lastModified: Option<HttpDate>): Verdict {
    if p.ifMatch.Some? || p.dates.ifUnmodifiedSince.None? || lastModified.None? then Ignored
    else if lastModified.value <= p.dates.ifUnmodifiedSince.value then Holds else Fails
  }

  /** Section 13.1.2: "*" fails because the file exists; listed tags match no entity tag. */
  function IfNoneMatch(p: Preconditions): Verdict {
    match p.ifNoneMatch
    case None => Ignored
    case Some(AnyTag) => Fails
    case Some(Tags(_)) => Holds
  }

  /** Section 13.1.3, and step 4: ignored without a modification date or with an If-None-Match. */
  function IfModifiedSince(p: Preconditions, lastModified: Option<HttpDate>): Verdict {
    if p.ifNoneMatch.Some? || p.dates.ifModifiedSince.None? || lastModified.None? then Ignored
    else if lastModified.value <= p.dates.ifModifiedSince.value then Fails else Holds
  }

  /** Section 13.1.5: a strong date holds only when it matches exactly; there are no entity tags here. */
  function IfRangeVerdict(p: Preconditions, lastModified: Option<HttpDate>): Verdict {
    match p.dates.ifRange
    case None => Ignored
    case Some(EntityTag(_)) => Fails
    case Some(Date(since)) => if p.strongDate && lastModified == Some(since) then Holds else Fails
  }

  /**
   The decision of the RFC. Conditions do not apply to OPTIONS (section 13.2.1), and Range is ignored on
   methods other than GET (section 14.2).
   */
  function Rfc9110(p: Preconditions, lastModified: Option<HttpDate>): (r: ConditionalBody) {
    if p.verb.OPTIONS? then WithBody(None)
    else if IfMatch(p).Fails? || IfUnmodifiedSince(p, lastModified).Fails? then NoBody(PRECONDITION_FAILED)
    else if IfNoneMatch(p).Fails? || IfModifiedSince(p, lastModified).Fails? then NoBody(NOT_MODIFIED)
    else if !p.verb.GET? || IfRangeVerdict(p, lastModified).Fails? then WithBody(None)
    else WithBody(p.dates.range)
  }

  // ---- Where the server and the RFC part

  /** The server's 412: an If-Unmodified-Since before the file's date, or on a file without one. */
  predicate TooNew(c: ConditionalHeaders, lastModified: Option<HttpDate>) {
    c.ifUnmodifiedSince.Some? && (lastModified.None? || c.ifUnmodifiedSince.value < lastModified.value)
  }

  /** The server's 304: an If-Modified-Since not before the file's date. */
  predicate Unchanged(c: ConditionalHeaders, lastModified: Option<HttpDate>) {
    c.ifModifiedSince.Some? && lastModified.Some? && lastModified.value <= c.ifModifiedSince.value
  }

  /** The server follows the Range header. */
  predicate RangeFollowed(c: ConditionalHeaders, lastModified: Option<HttpDate>) {
    c.range.Some? && (c.ifRange.Some? ==> !IfRangeModified(c.ifRange.value, lastModified))
  }

  /** Conditions or ranges applied to OPTIONS. */
  predicate AppliedToOptions(p: Preconditions, lastModified: Option<HttpDate>) {
    p.verb.OPTIONS? && (TooNew(p.dates, lastModified) || Unchanged(p.dates, lastModified) || RangeFollowed(p.dates, lastModified))
  }

  /** An If-Match that fails is not noticed. */
  predicate TagPreconditionMissed(p: Preconditions, lastModified: Option<HttpDate>) {
    !p.verb.OPTIONS? && IfMatch(p).Fails? && !TooNew(p.dates, lastModified)
  }

  /** An If-Unmodified-Since is applied although an If-Match overrides it, or the file has no date. */
  predicate DatePreconditionMisapplied(p: Preconditions, lastModified: Option<HttpDate>) {
    !p.verb.OPTIONS? && !IfMatch(p).Fails? && TooNew(p.dates, lastModified) && (p.ifMatch.Some? || lastModified.None?)
  }

  /** Neither side answers 412. */
  predicate PreconditionsPass(p: Preconditions, lastModified: Option<HttpDate>) {
    !p.verb.OPTIONS? && !IfMatch(p).Fails? && !TooNew(p.dates, lastModified)
  }

  /** An If-None-Match of "*" is not noticed. */
  predicate NotModifiedMissed(p: Preconditions, lastModified: Option<HttpDate>) {
    PreconditionsPass(p, lastModified) && IfNoneMatch(p).Fails? && !Unchanged(p.dates, lastModified)
  }

  /** An If-Modified-Since is applied although an If-None-Match overrides it. */
  predicate DateOverriddenByTag(p: Preconditions, lastModified: Option<HttpDate>) {
    PreconditionsPass(p, lastModified) && IfNoneMatch(p).Holds? && Unchanged(p.dates, lastModified)
  }

  /** A range is followed on HEAD, or after an If-Range date that is weak or later than the file's. */
  predicate RangeMisapplied(p: Preconditions, lastModified: Option<HttpDate>) {
    && PreconditionsPass(p, lastModified) && !IfNoneMatch(p).Fails? && !Unchanged(p.dates, lastModified)
    && RangeFollowed(p.dates, lastModified)
    && (p.verb.HEAD? || (p.dates.ifRange.Some? && !(p.strongDate && lastModified == Some(p.dates.ifRange.value.since))))
  }

  /** For every request the handler lets through, the check follows the RFC exactly outside the named cases. */
  lemma FollowsRfc9110Exactly(p: Preconditions, lastModified: Option<HttpDate>)
    requires !p.verb.OTHER?
    ensures Check(p.dates, lastModified) == Rfc9110(p, lastModified) <==>
      && !AppliedToOptions(p, lastModified)
      && !TagPreconditionMissed(p, lastModified) && !DatePreconditionMisapplied(p, lastModified)
      && !NotModifiedMissed(p, lastModified) && !DateOverriddenByTag(p, lastModified)
      && !RangeMisapplied(p, lastModified)
  {
  }

  const NO_CONDITIONS := ConditionalHeaders(None, None, None, None)
  const FIRST_TWO: Option<Range> := Some([Spec(Included(0), Included(1))])

  /** HEAD with a range and nothing else: the server answers the range, the RFC ignores it. */
  lemma HeadRangeIsFollowed(lastModified: Option<HttpDate>)
    ensures var p := Preconditions(HEAD, None, None, true, NO_CONDITIONS.(range := FIRST_TWO));
      Check(p.dates, lastModified) == WithBody(FIRST_TWO) && Rfc9110(p, lastModified) == WithBody(None)
  {
  }

  /** If-None-Match with tags and a date not before the file's: the server answers 304, the RFC sends the file. */
  lemma DateBeatsTag(verb: Method, tags: seq<string>, lastModified: HttpDate, since: HttpDate)
    requires (verb.GET? || verb.HEAD?) && lastModified <= since
    ensures var p := Preconditions(verb, None, Some(Tags(tags)), true, NO_CONDITIONS.(ifModifiedSince := Some(since)));
      Check(p.dates, Some(lastModified)) == NoBody(NOT_MODIFIED) && Rfc9110(p, Some(lastModified)) == WithBody(None)
  {
  }

  /** A concrete request for each of the other cases: the server's answer, then the RFC's. */
  lemma OtherDisagreements()
    ensures var options := Preconditions(OPTIONS, None, None, true, NO_CONDITIONS.(ifModifiedSince := Some(5)));
      Check(options.dates, Some(5)) == NoBody(NOT_MODIFIED) && Rfc9110(options, Some(5)) == WithBody(None)
    ensures var tagged := Preconditions(GET, Some(Tags(["x"])), None, true, NO_CONDITIONS);
      Check(tagged.dates, Some(5)) == WithBody(None) && Rfc9110(tagged, Some(5)) == NoBody(PRECONDITION_FAILED)
    ensures var overridden := Preconditions(GET, Some(AnyTag), None, true, NO_CONDITIONS.(ifUnmodifiedSince := Some(1)));
      Check(overridden.dates, Some(5)) == NoBody(PRECONDITION_FAILED) && Rfc9110(overridden, Some(5)) == WithBody(None)
    ensures var undated := Preconditions(GET, None, None, true, NO_CONDITIONS.(ifUnmodifiedSince := Some(1)));
      Check(undated.dates, None) == NoBody(PRECONDITION_FAILED) && Rfc9110(undated, None) == WithBody(None)
    ensures var any := Preconditions(GET, None, Some(AnyTag), true, NO_CONDITIONS);
      Check(any.dates, Some(5)) == WithBody(None) && Rfc9110(any, Some(5)) == NoBody(NOT_MODIFIED)
    ensures var late := Preconditions(GET, None, None, true, NO_CONDITIONS.(ifRange := Some(Date(6)), range := FIRST_TWO));
      Check(late.dates, Some(5)) == WithBody(FIRST_TWO) && Rfc9110(late, Some(5)) == WithBody(None)
  {
  }
}
