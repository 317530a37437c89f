/**
 Quality values and content codings (src/headers_ext/quality_value.rs, src/headers_ext/content_coding.rs,
 the selection functions of src/compression.rs).
 */
module Negotiation {
  import opened Wrappers
  import opened Text
  import Sorting

  datatype ContentCoding = BROTLI | COMPRESS | DEFLATE | GZIP | IDENTITY | ZSTD

  /** `ContentCoding::from`: unknown names count as identity. */
  function CodingFrom(s: string): (c: ContentCoding) {
    if s == "br" || s == "BROTLI" then BROTLI
    else if s == "compress" || s == "COMPRESS" then COMPRESS
    else if s == "deflate" || s == "DEFLATE" then DEFLATE
    else if s == "gzip" || s == "GZIP" then GZIP
    else if s == "zstd" || s == "ZSTD" then ZSTD
    else IDENTITY
  }

  /** `ContentCoding::as_str`. */
  function CodingText(c: ContentCoding): (s: string) {
    match c
    case BROTLI => "br"
    case COMPRESS => "compress"
    case DEFLATE => "deflate"
    case GZIP => "gzip"
    case IDENTITY => "identity"
    case ZSTD => "zstd"
  }

  /** A coding written into a header is read back as itself. */
  lemma CodingRoundTrip(c: ContentCoding)
    ensures CodingFrom(CodingText(c)) == c
  {
  }

  /** `AVAILABLE_ENCODINGS` with every compression feature enabled. */
  predicate IsAvailable(c: ContentCoding) {
    c.DEFLATE? || c.GZIP? || c.BROTLI? || c.ZSTD?
  }

  // ---- One entry

  datatype QualityMeta = QualityMeta(data: string, quality: nat)

  /** The text of a weight as thousandths in a `u16`, or None when it is not a number. */
  type WeightParser = string -> Option<nat>

  predicate IsSpace(c: char) { c == ' ' || c == '\t' }

  function TrimStart(s: string): (r: string) {
    if s != [] && IsSpace(s[0]) then TrimStart(s[1..]) else s
  }

  function TrimEnd(s: string): (r: string) {
    if s != [] && IsSpace(s[|s| - 1]) then TrimEnd(s[..|s| - 1]) else s
  }

  function Trim(s: string): (r: string) { TrimEnd(TrimStart(s)) }

  function PartQuality(part: string, parse: WeightParser): (q: Option<nat>) {
    var p := TrimStart(part);
    if "q=" <= p then parse(Trim(p[2..])) else None
  }

  /** The last part that carries a readable weight decides. */
  function LastQuality(parts: seq<string>, parse: WeightParser, quality: nat): (q: nat) {
    if parts == [] then quality
    else if PartQuality(parts[|parts| - 1], parse).Some? then PartQuality(parts[|parts| - 1], parse).value
    else LastQuality(parts[..|parts| - 1], parse, quality)
  }

  const DEFAULT_QUALITY: nat := 1000

  function Entry(val: string, parse: WeightParser): (e: QualityMeta) {
    var parts := Split(val, ';');
    QualityMeta(Trim(parts[0]), LastQuality(parts, parse, DEFAULT_QUALITY))
  }

  /** `QualityMeta::try_from`, whose loop overwrites the quality. */
  method TryFrom(val: string, parse: WeightParser) returns (e: QualityMeta)
    ensures e == Entry(val, parse)
  {
    var parts := Split(val, ';');
    var data := Trim(parts[0]);
    var quality := DEFAULT_QUALITY;
    for i := 0 to |parts|
      invariant quality == LastQuality(parts[..i], parse, DEFAULT_QUALITY)
    {
      var part := TrimStart(parts[i]);
      assert parts[..i + 1][..i] == parts[..i];
      if "q=" <= part {
        var parsed := parse(Trim(part[2..]));
        if parsed.Some? {
          quality := parsed.value;
        }
      }
    }
    assert parts[..|parts|] == parts;
    e := QualityMeta(data, quality);
  }

  // ---- A header value

  /** `HeaderValue::to_str` succeeds. */
  predicate IsVisible(s: string) {
    forall i :: 0 <= i < |s| ==> ' ' <= s[i] <= '~' || s[i] == '\t'
  }

  function Entries(vals: seq<string>, parse: WeightParser): (r: seq<QualityMeta>)
    ensures |r| == |vals|
  {
    if vals == [] then [] else [Entry(vals[0], parse)] + Entries(vals[1..], parse)
  }

  /** The parsed entries of a value, unsorted. */
  function Items(value: string, parse: WeightParser): (r: seq<QualityMeta>) {
    if IsVisible(value) then Entries(Split(value, ','), parse) else []
  }

  /** `Ord for QualityMeta`: higher quality first. */
  function Rank(e: QualityMeta): int { -(e.quality as int) }

  /** `QualityValue::iter`, with the qualities still attached. */
  function Preferences(value: string, parse: WeightParser): (r: seq<QualityMeta>) {
    Sorting.Sort(Items(value, parse), Rank)
  }

  /**
   The preferences are the one reordering of the parsed entries that puts higher qualities first and
   keeps entries of equal quality in their order.
   */
  lemma PreferencesAreStableAndDescending(value: string, parse: WeightParser)
    ensures multiset(Preferences(value, parse)) == multiset(Items(value, parse))
    ensures forall i, j :: 0 <= i < j < |Preferences(value, parse)| ==>
      Preferences(value, parse)[i].quality >= Preferences(value, parse)[j].quality
    ensures forall t :: t == Preferences(value, parse) <==>
      Sorting.Sorted(t, Rank) && Sorting.SameClasses(t, Items(value, parse), Rank)
  {
    var items := Items(value, parse);
    Sorting.SortCorrect(items, Rank);
    var p := Preferences(value, parse);
    forall i, j | 0 <= i < j < |p| ensures p[i].quality >= p[j].quality {
      assert Rank(p[i]) <= Rank(p[j]);
    }
    forall t ensures t == p <==> Sorting.Sorted(t, Rank) && Sorting.SameClasses(t, items, Rank) {
      Sorting.SortIsTheStableSort(items, t, Rank);
    }
  }

  // ---- Several header lines

  function Join(lines: seq<string>): (r: string) {
    if lines == [] then ""
    else if |lines| == 1 then lines[0]
    else Join(lines[..|lines| - 1]) + ", " + lines[|lines| - 1]
  }

  /** `QualityValue::try_from_values`. */
  method TryFromValues(lines: seq<string>) returns (value: string)
    ensures value == Join(lines)
  {
    if lines == [] {
      return "";
    }
    if |lines| == 1 {
      return lines[0];
    }
    value := lines[0];
    for i := 1 to |lines|
      invariant value == Join(lines[..i])
    {
      assert lines[..i + 1][..i] == lines[..i];
      value := value + ", ";
      value := value + lines[i];
    }
    assert lines[..|lines|] == lines;
  }

  /** The entries of each line, one line after the other. */
  function LineItems(lines: seq<string>, parse: WeightParser): (r: seq<QualityMeta>) {
    if lines == [] then []
    else LineItems(lines[..|lines| - 1], parse) + Items(lines[|lines| - 1], parse)
  }

  lemma EntriesConcat(e: QualityMeta, a: seq<QualityMeta>, b: seq<QualityMeta>)
    ensures [e] + (a + b) == [e] + a + b
  {
  }

  lemma {:induction false} EntriesAppend(a: seq<string>, b: seq<string>, parse: WeightParser)
    ensures Entries(a + b, parse) == Entries(a, parse) + Entries(b, parse)
  {
    if a == [] {
      assert a + b == b;
    } else {
      EntriesAppend(a[1..], b, parse);
      assert (a + b)[0] == a[0] && (a + b)[1..] == a[1..] + b;
      EntriesConcat(Entry(a[0], parse), Entries(a[1..], parse), Entries(b, parse));
    }
  }

  lemma SplitAfterSpace(s: string, d: char)
    requires d != ' '
    ensures Split([' '] + s, d) == [[' '] + Split(s, d)[0]] + Split(s, d)[1..]
  {
    assert ([' '] + s)[1..] == s;
  }

  lemma PartAfterSpace(part: string, parse: WeightParser)
    ensures PartQuality([' '] + part, parse) == PartQuality(part, parse)
    ensures Trim([' '] + part) == Trim(part)
  {
    assert ([' '] + part)[1..] == part;
    assert TrimStart([' '] + part) == TrimStart(part);
  }

  lemma {:induction false} QualityAfterSpace(parts: seq<string>, parse: WeightParser, quality: nat)
    requires parts != []
    ensures LastQuality([[' '] + parts[0]] + parts[1..], parse, quality) == LastQuality(parts, parse, quality)
  {
    var spaced := [[' '] + parts[0]] + parts[1..];
    if |parts| == 1 {
      PartAfterSpace(parts[0], parse);
      assert spaced[..0] == parts[..0];
    } else {
      QualityAfterSpace(parts[..|parts| - 1], parse, quality);
      assert spaced[..|parts| - 1] == [[' '] + parts[0]] + parts[..|parts| - 1][1..];
    }
  }

  /** The space written before a joined line does not change its first entry. */
  lemma EntryAfterSpace(val: string, parse: WeightParser)
    ensures Entry([' '] + val, parse) == Entry(val, parse)
  {
    SplitAfterSpace(val, ';');
    var parts := Split(val, ';');
    QualityAfterSpace(parts, parse, DEFAULT_QUALITY);
    PartAfterSpace(parts[0], parse);
  }

  lemma JoinedPair(a: string, b: string, parse: WeightParser)
    ensures Entries(Split(a + ", " + b, ','), parse)
         == Entries(Split(a, ','), parse) + Entries(Split(b, ','), parse)
  {
    assert a + ", " + b == a + [','] + ([' '] + b);
    SplitAtDelimiter(a, ',', [' '] + b);
    SplitAfterSpace(b, ',');
    var bs := Split(b, ',');
    EntriesAppend(Split(a, ','), [[' '] + bs[0]] + bs[1..], parse);
    EntryAfterSpace(bs[0], parse);
    assert ([[' '] + bs[0]] + bs[1..])[1..] == bs[1..];
  }

  predicate AllVisible(lines: seq<string>) {
    forall i :: 0 <= i < |lines| ==> IsVisible(lines[i])
  }

  predicate NoneVisible(lines: seq<string>) {
    forall i :: 0 <= i < |lines| ==> !IsVisible(lines[i])
  }

  lemma VisiblePair(a: string, b: string)
    ensures IsVisible(a + ", " + b) <==> IsVisible(a) && IsVisible(b)
  {
    var s := a + ", " + b;
    assert forall i :: 0 <= i < |a| ==> s[i] == a[i];
    assert forall i :: 0 <= i < |b| ==> s[|a| + 2 + i] == b[i];
    if IsVisible(s) {
      forall i | 0 <= i < |b| ensures ' ' <= b[i] <= '~' || b[i] == '\t' {
        assert s[|a| + 2 + i] == b[i];
      }
    }
  }

  lemma {:induction false} JoinVisible(lines: seq<string>)
    requires lines != []
    ensures IsVisible(Join(lines)) <==> AllVisible(lines)
  {
    if |lines| > 1 {
      var init, last := lines[..|lines| - 1], lines[|lines| - 1];
      JoinVisible(init);
      VisiblePair(Join(init), last);
      assert lines == init + [last];
    }
  }

  lemma {:induction false} JoinedEntries(lines: seq<string>, parse: WeightParser)
    requires lines != [] && AllVisible(lines)
    ensures Items(Join(lines), parse) == LineItems(lines, parse)
  {
    JoinVisible(lines);
    var init, last := lines[..|lines| - 1], lines[|lines| - 1];
    if |lines| == 1 {
      assert LineItems(init, parse) == [];
    } else {
      JoinedEntries(init, parse);
      JoinVisible(init);
      JoinedPair(Join(init), last, parse);
    }
  }

  lemma {:induction false} LineItemsEmpty(lines: seq<string>, parse: WeightParser)
    ensures LineItems(lines, parse) == [] <==> NoneVisible(lines)
  {
    if lines != [] {
      var init, last := lines[..|lines| - 1], lines[|lines| - 1];
      LineItemsEmpty(init, parse);
      assert lines == init + [last];
    }
  }

  /**
   Field-line combining (section 5.3 of RFC 9110): the joined value has the preferences of its lines
   exactly when all lines are visible ASCII, or none is. One bad line hides all the good ones.
   */
  lemma CombinedLinesExactly(lines: seq<string>, parse: WeightParser)
    requires lines != []
    ensures Preferences(Join(lines), parse) == Sorting.Sort(LineItems(lines, parse), Rank)
       <==> AllVisible(lines) || NoneVisible(lines)
  {
    JoinVisible(lines);
    LineItemsEmpty(lines, parse);
    Sorting.SortCorrect(LineItems(lines, parse), Rank);
    if AllVisible(lines) {
      JoinedEntries(lines, parse);
    } else if !NoneVisible(lines) {
      assert Preferences(Join(lines), parse) == [];
      assert |multiset(LineItems(lines, parse))| > 0;
    }
  }

  // ---- Selection

  function Codings(prefs: seq<QualityMeta>): (r: seq<ContentCoding>)
    ensures |r| == |prefs|
    ensures forall i :: 0 <= i < |r| ==> r[i] == CodingFrom(prefs[i].data)
  {
    if prefs == [] then [] else [CodingFrom(prefs[0].data)] + Codings(prefs[1..])
  }

  function Available(codings: seq<ContentCoding>): (r: seq<ContentCoding>)
    ensures forall c :: c in r ==> IsAvailable(c) && c in codings
    ensures forall c :: c in codings && IsAvailable(c) ==> c in r
  {
    if codings == [] then []
    else (if IsAvailable(codings[0]) then [codings[0]] else []) + Available(codings[1..])
  }

  /** `AcceptEncoding::sorted_encodings`; a request without the header has no lines. */
  function SortedEncodings(lines: seq<string>, parse: WeightParser): (r: seq<ContentCoding>) {
    if lines == [] then [] else Codings(Preferences(Join(lines), parse))
  }

  /** `get_encodings`. */
  function GetEncodings(lines: seq<string>, parse: WeightParser): (r: seq<ContentCoding>) {
    Available(SortedEncodings(lines, parse))
  }

  /** `get_preferred_encoding`: its early-returning search finds the head of `get_encodings`. */
  method GetPreferredEncoding(lines: seq<string>, parse: WeightParser) returns (r: Option<ContentCoding>)
    ensures r == if GetEncodings(lines, parse) == [] then None else Some(GetEncodings(lines, parse)[0])
  {
    var sorted := SortedEncodings(lines, parse);
    for i := 0 to |sorted|
      invariant Available(sorted) == Available(sorted[i..])
    {
      assert sorted[i..][1..] == sorted[i + 1..];
      if IsAvailable(sorted[i]) {
        return Some(sorted[i]);
      }
    }
    return None;
  }

  lemma CodingTextIsPlain(c: ContentCoding)
    ensures var t := CodingText(c);
      ',' !in t && ';' !in t && IsVisible(t) && TrimStart(t) == t && Trim(t) == t && !("q=" <= t)
  {
    LettersArePlain(CodingText(c));
  }

  lemma LettersArePlain(t: string)
    requires forall i :: 0 <= i < |t| ==> 'a' <= t[i] <= 'z'
    ensures ',' !in t && ';' !in t && IsVisible(t) && TrimStart(t) == t && Trim(t) == t && !("q=" <= t)
  {
    assert "q="[1] == '=';
    assert |t| >= 2 ==> t[1] != "q="[1];
  }

  /** A request that accepts one supported coding, by its name alone, is offered exactly that. */
  lemma OneCoding(c: ContentCoding, parse: WeightParser)
    requires IsAvailable(c)
    ensures GetEncodings([CodingText(c)], parse) == [c]
  {
    var t := CodingText(c);
    CodingTextIsPlain(c);
    CodingRoundTrip(c);
    SplitWithoutDelimiter(t, ',');
    SplitWithoutDelimiter(t, ';');
    assert [t][..0] == [];
    assert LastQuality([t], parse, DEFAULT_QUALITY) == DEFAULT_QUALITY;
    assert [t][1..] == [];
    assert Items(t, parse) == [Entry(t, parse)];
    assert Preferences(t, parse) == [Entry(t, parse)] by {
      assert [Entry(t, parse)][1..] == [] && Sorting.Sort([], Rank) == [];
    }
    assert Join([t]) == t;
    assert Codings([Entry(t, parse)]) == [c];
    assert Available([c]) == [c];
  }

  /** A second line with one octet above ASCII takes the coding of the first line away. */
  lemma BadLineHidesCoding(c: ContentCoding, parse: WeightParser)
    requires IsAvailable(c)
    ensures GetEncodings([CodingText(c)], parse) == [c]
    ensures GetEncodings([CodingText(c), "\U{C8}"], parse) == []
  {
    var lines := [CodingText(c), "\U{C8}"];
    OneCoding(c, parse);
    JoinVisible(lines);
    assert !IsVisible(lines[1]) by { assert lines[1][0] > '~'; }
    assert Preferences(Join(lines), parse) == [];
  }
}
