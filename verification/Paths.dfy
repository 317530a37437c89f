/**
 Path sanitising (src/fs/path.rs), over the octets of Unix paths.
 */
module Paths {
  import opened Text

  /** `std::path::Component` on Unix, where there are no prefixes. */
  datatype Component = RootDir | CurDir | ParentDir | Normal(name: string)

  type Path = seq<Component>

  /** One segment that names an entry: not empty, not a dot segment, no separator. */
  predicate IsNormalName(seg: string) {
    seg != "" && seg != "." && seg != ".." && '/' !in seg
  }

  /** What a segment after the first contributes: empty and "." segments vanish. */
  function Segment(seg: string): (c: Path) {
    if seg == "" || seg == "." then []
    else if seg == ".." then [ParentDir]
    else [Normal(seg)]
  }

  function Segments(segs: seq<string>): (c: Path) {
    if segs == [] then [] else Segment(segs[0]) + Segments(segs[1..])
  }

  /** The component of a first segment, where "." is kept. */
  function FirstSegment(seg: string): (c: Path) {
    if seg == "." then [CurDir] else Segment(seg)
  }

  function Root(raw: string): (c: Path) {
    if raw != [] && raw[0] == '/' then [RootDir] else []
  }

  /** `Path::components`: a leading '/' is the root, a leading "." is kept. */
  function Components(raw: string): (c: Path) {
    var segs := Split(raw, '/');
    Root(raw) + FirstSegment(segs[0]) + Segments(segs[1..])
  }

  /** `PathBuf::push` of a relative path: a separator is added only when one is missing. */
  function Push(raw: string, name: string): (r: string) {
    if raw == [] || raw[|raw| - 1] == '/' then raw + name else raw + ['/'] + name
  }

  lemma {:induction false} SegmentsAppend(a: seq<string>, b: seq<string>)
    ensures Segments(a + b) == Segments(a) + Segments(b)
  {
    if a == [] {
      assert a + b == b;
    } else {
      var head, rest := Segment(a[0]), Segments(a[1..]);
      assert a + b == [a[0]] + (a[1..] + b);
      SegmentsAppend(a[1..], b);
      assert head + (rest + Segments(b)) == head + rest + Segments(b);
    }
  }

  /** The components of a path that goes on behind a separator. */
  function Stem(stem: string): (c: Path) {
    var segs := Split(stem, '/');
    Root(stem + ['/']) + FirstSegment(segs[0]) + Segments(segs[1..])
  }

  /** Text behind a separator only adds the components of its segments. */
  lemma ComponentsAtSlash(stem: string, tail: string)
    ensures Components(stem + ['/'] + tail) == Stem(stem) + Segments(Split(tail, '/'))
  {
    var raw := stem + ['/'] + tail;
    var segs, tails := Split(stem, '/'), Split(tail, '/');
    SplitAtDelimiter(stem, '/', tail);
    assert (segs + tails)[0] == segs[0] && (segs + tails)[1..] == segs[1..] + tails;
    SegmentsAppend(segs[1..], tails);
    assert Root(raw) == Root(stem + ['/']);
    Associative(Root(raw) + FirstSegment(segs[0]), Segments(segs[1..]), Segments(tails));
  }

  lemma Associative(a: Path, b: Path, c: Path)
    ensures a + b + c == a + (b + c)
  {
  }

  /** A buffer is the stem of what it will be extended to, with or without its last separator. */
  lemma ComponentsOfStem(raw: string)
    requires raw != []
    ensures Components(raw) == Stem(if raw[|raw| - 1] == '/' then raw[..|raw| - 1] else raw)
  {
    if raw[|raw| - 1] == '/' {
      var stem := raw[..|raw| - 1];
      assert raw == stem + ['/'] + [];
      ComponentsAtSlash(stem, []);
      assert Segments([[]]) == [];
    } else {
      assert Root(raw + ['/']) == Root(raw);
    }
  }

  lemma NameIsOneSegment(name: string)
    requires IsNormalName(name)
    ensures Segments(Split(name, '/')) == [Normal(name)]
  {
    SplitWithoutDelimiter(name, '/');
    assert Segments([name]) == [Normal(name)];
  }

  /** `Path::new(&comp).components().all(Normal)` is true of every normal component on Unix. */
  lemma NormalNameIsOneComponent(name: string)
    requires IsNormalName(name)
    ensures Components(name) == [Normal(name)]
  {
    SplitWithoutDelimiter(name, '/');
  }

  /** A push is a separator and the name, behind the buffer without its own last separator. */
  lemma PushIsSlash(raw: string, name: string)
    requires raw != []
    ensures Push(raw, name) == (if raw[|raw| - 1] == '/' then raw[..|raw| - 1] else raw) + ['/'] + name
  {
  }

  /** Pushing one normal name adds exactly one component, whatever octets the buffer holds. */
  lemma PushAddsOneComponent(raw: string, name: string)
    requires IsNormalName(name)
    ensures Components(Push(raw, name)) == Components(raw) + [Normal(name)]
  {
    if raw == [] {
      NormalNameIsOneComponent(name);
      assert Push(raw, name) == name && Components("") == [];
    } else {
      PushIsSlash(raw, name);
      ComponentsAtSlash(if raw[|raw| - 1] == '/' then raw[..|raw| - 1] else raw, name);
      ComponentsOfStem(raw);
      NameIsOneSegment(name);
    }
  }

  // ---- Percent decoding

  predicate IsHexDigit(c: char) {
    '0' <= c <= '9' || 'a' <= c <= 'f' || 'A' <= c <= 'F'
  }

  function HexValue(c: char): (v: nat)
    requires IsHexDigit(c)
    ensures v < 16
  {
    if '0' <= c <= '9' then c as int - '0' as int
    else if 'a' <= c <= 'f' then c as int - 'a' as int + 10
    else c as int - 'A' as int + 10
  }

  predicate StartsWithEscape(s: string) {
    |s| >= 3 && s[0] == '%' && IsHexDigit(s[1]) && IsHexDigit(s[2])
  }

  /** How much of a non-empty text the next decoded octet takes. */
  function Width(s: string): (w: nat)
    requires s != []
    ensures 1 <= w <= |s|
  {
    if StartsWithEscape(s) then 3 else 1
  }

  function NextOctet(s: string): (c: char)
    requires s != []
  {
    if StartsWithEscape(s) then (HexValue(s[1]) * 16 + HexValue(s[2])) as char else s[0]
  }

  /** `percent_decode_str`: malformed escapes stay as they are. */
  function Decode(s: string): (r: string) {
    if s == [] then [] else [NextOctet(s)] + Decode(s[Width(s)..])
  }

  /** A separator ends an escape that is not complete before it. */
  lemma EscapeBeforeSlash(a: string, b: string)
    requires a != []
    ensures var s := a + ['/'] + b;
      Width(s) == Width(a) && NextOctet(s) == NextOctet(a) && s[Width(s)..] == a[Width(a)..] + ['/'] + b
  {
    var s := a + ['/'] + b;
    assert s[|a|] == '/';
    assert StartsWithEscape(s) == StartsWithEscape(a);
  }

  /** A separator is never part of an escape, so decoding splits there. */
  lemma {:induction false} DecodeAtSlash(a: string, b: string)
    ensures Decode(a + ['/'] + b) == Decode(a) + ['/'] + Decode(b)
  {
    var s := a + ['/'] + b;
    if a == [] {
      assert NextOctet(s) == '/' && s[Width(s)..] == b;
    } else {
      var rest := a[Width(a)..];
      EscapeBeforeSlash(a, b);
      DecodeAtSlash(rest, b);
      var head := [NextOctet(a)];
      assert head + (Decode(rest) + ['/'] + Decode(b)) == head + Decode(rest) + ['/'] + Decode(b);
    }
  }

  /** `trim_start_matches('/')`. */
  function TrimSlashes(s: string): (r: string) {
    if s != [] && s[0] == '/' then TrimSlashes(s[1..]) else s
  }

  // ---- Sanitising

  /** The normal components of a path, in order. */
  function Normals(c: Path): (r: Path) {
    if c == [] then [] else (if c[0].Normal? then [c[0]] else []) + Normals(c[1..])
  }

  lemma {:induction false} NormalsAppend(a: Path, b: Path)
    ensures Normals(a + b) == Normals(a) + Normals(b)
  {
    if a == [] {
      assert a + b == b;
    } else {
      var head, rest := if a[0].Normal? then [a[0]] else [], Normals(a[1..]);
      NormalsAppend(a[1..], b);
      assert a + b == [a[0]] + (a[1..] + b);
      assert head + (rest + Normals(b)) == head + rest + Normals(b);
    }
  }

  /** The components a request tail may add below the base directory. */
  function TailComponents(tail: string): (r: Path) {
    Normals(Segments(Split(Decode(tail), '/')))
  }

  lemma TailAtSlash(a: string, b: string)
    ensures TailComponents(a + ['/'] + b) == TailComponents(a) + TailComponents(b)
  {
    DecodeAtSlash(a, b);
    SplitAtDelimiter(Decode(a), '/', Decode(b));
    SegmentsAppend(Split(Decode(a), '/'), Split(Decode(b), '/'));
    NormalsAppend(Segments(Split(Decode(a), '/')), Segments(Split(Decode(b), '/')));
  }

  /** Leading separators of the tail add nothing. */
  lemma {:induction false} TrimmingKeepsTail(tail: string)
    ensures TailComponents(TrimSlashes(tail)) == TailComponents(tail)
  {
    if tail != [] && tail[0] == '/' {
      TrimmingKeepsTail(tail[1..]);
      assert tail == [] + ['/'] + tail[1..];
      TailAtSlash([], tail[1..]);
    }
  }

  /** The normal components of a raw path are those of its segments: root and leading "." do not count. */
  lemma NormalsOfComponents(raw: string)
    ensures Normals(Components(raw)) == Normals(Segments(Split(raw, '/')))
  {
    var segs := Split(raw, '/');
    var root, first := Root(raw), FirstSegment(segs[0]);
    NormalsAppend(root + first, Segments(segs[1..]));
    NormalsAppend(root, first);
    NormalsAppend(Segment(segs[0]), Segments(segs[1..]));
    assert Normals(root) == [];
    assert Normals(first) == Normals(Segment(segs[0]));
  }

  lemma {:induction false} SegmentsAreNormalNames(segs: seq<string>)
    requires forall seg :: seg in segs ==> '/' !in seg
    ensures forall c :: c in Normals(Segments(segs)) ==> c.Normal? && IsNormalName(c.name)
  {
    if segs != [] {
      SegmentsAreNormalNames(segs[1..]);
      NormalsAppend(Segment(segs[0]), Segments(segs[1..]));
    }
  }

  /** Every component a tail adds is one plain name, also when the dots or separators were escaped. */
  lemma TailComponentsAreNormalNames(tail: string)
    ensures forall c :: c in TailComponents(tail) ==> c.Normal? && IsNormalName(c.name)
  {
    PiecesAvoidDelimiter(Decode(tail), '/');
    SegmentsAreNormalNames(Split(Decode(tail), '/'));
  }

  predicate AllNormal(c: Path) {
    forall i :: 0 <= i < |c| ==> c[i].Normal?
  }

  lemma {:induction false} NormalsContain(c: Path, i: nat)
    requires i < |c| && c[i].Normal?
    ensures c[i] in Normals(c)
  {
    if i > 0 {
      NormalsContain(c[1..], i - 1);
    }
  }

  lemma NormalsOfPrefix(c: Path, i: nat)
    requires i < |c|
    ensures Normals(c[..i + 1]) == Normals(c[..i]) + (if c[i].Normal? then [c[i]] else [])
  {
    assert c[..i + 1] == c[..i] + [c[i]];
    NormalsAppend(c[..i], [c[i]]);
  }

  /** One push of the loop in `sanitize_path`, whose guard always holds. */
  lemma PushStep(full: string, base: string, c: Path, i: nat)
    requires i < |c| && c[i].Normal? && IsNormalName(c[i].name)
    requires Components(full) == Components(base) + Normals(c[..i])
    ensures AllNormal(Components(c[i].name))
    ensures Components(Push(full, c[i].name)) == Components(base) + Normals(c[..i + 1])
  {
    NormalNameIsOneComponent(c[i].name);
    PushAddsOneComponent(full, c[i].name);
    NormalsOfPrefix(c, i);
    Associative(Components(base), Normals(c[..i]), [c[i]]);
  }

  /** What `sanitize_path` returns, as components. */
  function Sanitized(base: string, tail: string): (r: Path) {
    Components(base) + TailComponents(tail)
  }

  /** `sanitize_path`: the result stays below `base` and adds exactly the tail's normal components. */
  method SanitizePath(base: string, tail: string) returns (full: string)
    ensures base <= full
    ensures Components(full) == Sanitized(base, tail)
  {
    var decoded := Decode(TrimSlashes(tail));
    var components := Components(decoded);
    assert Normals(components) == TailComponents(tail) by {
      TrimmingKeepsTail(tail);
      NormalsOfComponents(decoded);
    }
    TailComponentsAreNormalNames(tail);
    full := PushNormals(base, components);
  }

  /** The loop of `sanitize_path`. */
  method PushNormals(base: string, components: Path) returns (full: string)
    requires forall c :: c in Normals(components) ==> c.Normal? && IsNormalName(c.name)
    ensures base <= full
    ensures Components(full) == Components(base) + Normals(components)
  {
    full := base;
    for i := 0 to |components|
      invariant base <= full
      invariant Components(full) == Components(base) + Normals(components[..i])
    {
      NormalsOfPrefix(components, i);
      match components[i] {
        case Normal(name) =>
          NormalsContain(components, i);
          PushStep(full, base, components, i);
          if AllNormal(Components(name)) {
            full := Push(full, name);
          }
        case _ =>
      }
    }
    assert components[..|components|] == components;
  }

  /** `PathExt::is_hidden`: some normal component starts with a dot. */
  predicate IsHidden(path: Path) {
    exists i :: 0 <= i < |path| && path[i].Normal? && path[i].name != "" && path[i].name[0] == '.'
  }

  // ---- Paths below a base directory

  predicate IsOctets(s: string) {
    forall i :: 0 <= i < |s| ==> s[i] as int < 256
  }

  /** A component that a request can ask for. */
  predicate IsName(c: Component) {
    c.Normal? && IsNormalName(c.name) && IsOctets(c.name)
  }

  predicate AllNames(path: Path) {
    forall i :: 0 <= i < |path| ==> IsName(path[i])
  }

  /** The path is the base, or goes on from it by names. */
  predicate Below(base: Path, path: Path) {
    base <= path && AllNames(path[|base|..])
  }

  lemma BelowItself(base: Path, names: Path)
    requires AllNames(names)
    ensures Below(base, base + names)
  {
    assert (base + names)[|base|..] == names;
  }

  lemma BelowPush(base: Path, path: Path, name: string)
    requires Below(base, path) && IsName(Normal(name))
    ensures Below(base, path + [Normal(name)])
  {
    assert (path + [Normal(name)])[|base|..] == path[|base|..] + [Normal(name)];
  }

  lemma {:induction false} DecodeOctets(s: string)
    requires IsOctets(s)
    ensures IsOctets(Decode(s))
  {
    if s != [] {
      DecodeOctets(s[Width(s)..]);
    }
  }

  lemma {:induction false} SplitOctets(s: string, d: char)
    requires IsOctets(s)
    ensures forall piece :: piece in Split(s, d) ==> IsOctets(piece)
  {
    if s != [] {
      SplitOctets(s[1..], d);
      var rest := Split(s[1..], d);
      assert rest[0] in rest;
      assert IsOctets([s[0]] + rest[0]);
      assert IsOctets("");
    }
  }

  lemma {:induction false} SegmentsOctets(segs: seq<string>)
    requires forall seg :: seg in segs ==> IsOctets(seg)
    ensures forall c :: c in Normals(Segments(segs)) ==> c.Normal? && IsOctets(c.name)
  {
    if segs != [] {
      SegmentsOctets(segs[1..]);
      NormalsAppend(Segment(segs[0]), Segments(segs[1..]));
    }
  }

  lemma TailComponentsAreNames(tail: string)
    requires IsOctets(tail)
    ensures AllNames(TailComponents(tail))
  {
    TailComponentsAreNormalNames(tail);
    DecodeOctets(tail);
    SplitOctets(Decode(tail), '/');
    SegmentsOctets(Split(Decode(tail), '/'));
    forall i | 0 <= i < |TailComponents(tail)| ensures IsName(TailComponents(tail)[i]) {
      assert TailComponents(tail)[i] in TailComponents(tail);
    }
  }

  /** No request leaves its base directory. */
  lemma SanitizedIsBelow(base: string, tail: string)
    requires IsOctets(tail)
    ensures Below(Components(base), Sanitized(base, tail))
  {
    TailComponentsAreNames(tail);
    BelowItself(Components(base), TailComponents(tail));
  }

  /** A last separator adds nothing. */
  lemma SlashAddsNothing(base: string, tail: string)
    ensures Sanitized(base, tail + "/") == Sanitized(base, tail)
  {
    assert tail + "/" == tail + ['/'] + "";
    TailAtSlash(tail, "");
    assert TailComponents("") == [];
    assert TailComponents(tail) + [] == TailComponents(tail);
  }
}
