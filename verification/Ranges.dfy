/**
 `bytes_range` (src/response.rs): a parsed `Range` header against a file length.
 */
module Ranges {
  import opened Wrappers

  const U64_MAX: nat := 0xFFFF_FFFF_FFFF_FFFF

  type u64 = n: nat | n <= U64_MAX

  datatype Bound = Unbounded | Included(n: u64)

  datatype Spec = Spec(start: Bound, end: Bound)

  /** The specs of a `Range` header that parsed, in order. */
  type Range = seq<Spec>

  /** Half-open byte positions `start..end`. */
  datatype Window = Window(start: nat, end: nat)

  /** `b + 1` of the release build, which wraps. */
  function WrappingSucc(b: u64): (r: u64) {
    if b == U64_MAX then 0 else b + 1
  }

  /** The window of one spec, or None for `BadRangeError`. */
  function SpecWindow(spec: Spec, maxLen: nat): (w: Option<Window>) {
    match (spec.start, spec.end)
    case (Included(a), Included(b)) =>
      if a > b then None else Clamp(a, if b == maxLen then b else WrappingSucc(b), maxLen)
    case (Included(a), Unbounded) => Clamp(a, maxLen, maxLen)
    case (Unbounded, Included(b)) => Clamp(if b > maxLen then 0 else maxLen - b, maxLen, maxLen)
    case (Unbounded, Unbounded) => Clamp(0, maxLen, maxLen)
  }

  function Clamp(start: nat, end: nat, maxLen: nat): (w: Option<Window>) {
    if start < end && end <= maxLen then Some(Window(start, end))
    else if start < end && start <= maxLen then Some(Window(start, maxLen))
    else None
  }

  function BytesRange(range: Option<Range>, maxLen: nat): (w: Option<Window>)
    ensures w.Some? ==> w.value.start <= w.value.end <= maxLen
    ensures range.None? ==> w == Some(Window(0, maxLen))
  {
    if range.None? then Some(Window(0, maxLen))
    else if range.value == [] then None
    else SpecWindow(range.value[0], maxLen)
  }

  // ---- What a spec means (section 14.1.2 of RFC 9110)

  /** Position `p` of a file of length `len` is selected by the spec. */
  predicate Selects(spec: Spec, len: nat, p: nat) {
    p < len &&
    match (spec.start, spec.end)
    case (Included(a), Included(b)) => a <= p <= b
    case (Included(a), Unbounded) => a <= p
    case (Unbounded, Included(n)) => len <= p + n
    case (Unbounded, Unbounded) => true
  }

  ghost predicate SelectsNothing(spec: Spec, len: nat) {
    forall p :: !Selects(spec, len, p)
  }

  /** `a-b` with the largest `b`, whose successor wraps to zero. */
  predicate Wraps(spec: Spec, len: nat) {
    spec.start.Included? && spec.end.Included? && spec.end.n == U64_MAX && len != U64_MAX
  }

  /** `a-b` that starts exactly at the end of the file and ends beyond it. */
  predicate StartsAtEnd(spec: Spec, len: nat) {
    spec.start.Included? && spec.end.Included? && spec.start.n == len < spec.end.n
  }

  lemma Witness(spec: Spec, len: nat, p: nat)
    requires Selects(spec, len, p)
    ensures !SelectsNothing(spec, len)
  {
  }

  /** An accepted window is exactly what the first parsed spec selects. */
  lemma AcceptedWindowIsSelection(range: Range, len: nat)
    requires range != [] && BytesRange(Some(range), len).Some?
    ensures var w := BytesRange(Some(range), len).value;
      forall p: nat :: w.start <= p < w.end <==> Selects(range[0], len, p)
  {
  }

  /** Exactly when a range is refused: nothing parsed, nothing selected and not starting at the end, or a wrap. */
  lemma RejectedExactly(range: Range, len: nat)
    ensures BytesRange(Some(range), len).None? <==>
      (range == [] || Wraps(range[0], len) || (SelectsNothing(range[0], len) && !StartsAtEnd(range[0], len)))
  {
    if range != [] && BytesRange(Some(range), len).Some? {
      var w := BytesRange(Some(range), len).value;
      AcceptedWindowIsSelection(range, len);
      if w.start < w.end {
        Witness(range[0], len, w.start);
      }
    }
  }

  /**
   A refused header selects no byte of the file, with one exception: `a-18446744073709551615`
   with `a` inside the file is refused although it selects the tail of the file.
   */
  lemma RejectionIsJustified(range: Range, len: nat)
    requires range != [] && BytesRange(Some(range), len).None?
    ensures SelectsNothing(range[0], len) <==> !(Wraps(range[0], len) && range[0].start.n < len)
  {
    if Wraps(range[0], len) && range[0].start.n < len {
      Witness(range[0], len, range[0].start.n);
    }
  }

  /** An accepted window is empty only for `a-b` with `a == len < b`. */
  lemma EmptyWindowExactly(range: Range, len: nat)
    requires range != []
    ensures (BytesRange(Some(range), len).Some? && BytesRange(Some(range), len).value.start == BytesRange(Some(range), len).value.end)
       <==> StartsAtEnd(range[0], len) && !Wraps(range[0], len)
  {
  }
}
