/**
 How a client resolves a reference found on a page (sections 5.2.2 to 5.2.4 of RFC 3986), and what dot
 removal does to the names in a path.
 */
module References {
  import opened Wrappers
  import opened Text
  import opened Paths

  /** The text up to and including the last '/'. */
  function Directory(s: string): (r: string)
    ensures r <= s
    ensures r == "" || EndsWith(r, '/')
    ensures '/' !in s[|r|..]
  {
    if s == [] || s[|s| - 1] == '/' then s else Directory(s[..|s| - 1])
  }

  /** The text after the last '/'. */
  function LastSegment(s: string): (r: string) {
    s[|Directory(s)|..]
  }

  /** A reference starting with a scheme, by the expression of appendix B of RFC 3986. */
  predicate HasScheme(ref: string) {
    exists i :: 1 <= i < |ref| && ref[i] == ':' && forall j :: 0 <= j < i ==> ref[j] !in ":/?#"
  }

  /** Section 5.2.3 of RFC 3986, for a base with an authority. */
  function Merge(base: string, ref: string): (r: string) {
    if base == "" then ['/'] + ref else Directory(base) + ref
  }

  function Until(s: string): (r: string)
    ensures r <= s && '/' !in r
    ensures |r| < |s| ==> s[|r|] == '/'
  {
    if s == [] || s[0] == '/' then [] else [s[0]] + Until(s[1..])
  }

  function StripLead(s: string): (r: string) {
    if s != [] && s[0] == '/' then s[1..] else s
  }

  /** Drops the last segment and its preceding '/'. */
  function DropLast(output: string): (r: string) {
    var d := Directory(output);
    if d == "" then "" else d[..|d| - 1]
  }

  /** One round of section 5.2.4 of RFC 3986 on its input and output buffers; the comments name the rules. */
  function RemoveDot(input: string, output: string): (r: (string, string))
    requires input != []
    ensures |r.0| < |input|
  {
    var body := StripLead(input);
    var seg := Until(body);
    var rest := body[|seg|..];
    if |body| == |input| then
      if seg == "." || seg == ".." then (if rest == [] then [] else rest[1..], output)  // A, D
      else (rest, output + seg)  // E
    else if seg == "." then (if rest == [] then "/" else rest, output)  // B
    else if seg == ".." then (if rest == [] then "/" else rest, DropLast(output))  // C
    else (rest, output + ['/'] + seg)  // E
  }

  function RemoveDots(input: string, output: string): (r: string)
    decreases |input|
  {
    if input == [] then output
    else
      var next := RemoveDot(input, output);
      RemoveDots(next.0, next.1)
  }

  /**
   Section 5.2.2 of RFC 3986 for a reference without query and fragment; None when the reference
   names another scheme or authority.
   */
  function ResolveReference(base: string, ref: string): (r: Option<string>) {
    if HasScheme(ref) || "//" <= ref then None
    else if ref == "" then Some(base)
    else if ref[0] == '/' then Some(RemoveDots(ref, ""))
    else Some(RemoveDots(Merge(base, ref), ""))
  }

  // ---- Dot removal on segments: a stack that ".." pops

  /** What a path text names. */
  type Naming = string -> Path

  /** Separators split what is named, and dot segments name nothing. */
  ghost predicate IsNaming(f: Naming) {
    f("") == [] && f(".") == [] && f("..") == [] && forall a, b :: f(a + ['/'] + b) == f(a) + f(b)
  }

  lemma NamesAtSlash(f: Naming, a: string, b: string)
    requires IsNaming(f)
    ensures f(a + ['/'] + b) == f(a) + f(b)
  {
  }

  function Names(segs: seq<string>, f: Naming): (r: Path) {
    if segs == [] then [] else Names(segs[..|segs| - 1], f) + f(segs[|segs| - 1])
  }

  /** The stack after a segment of the input was taken. */
  function Take(seg: string, stack: seq<string>): (r: seq<string>) {
    if seg == "." then stack
    else if seg == ".." then if stack == [] then [] else stack[..|stack| - 1]
    else stack + [seg]
  }

  /** The segments left after dot removal. */
  function Survivors(segs: seq<string>, stack: seq<string>): (r: seq<string>) {
    if segs == [] then stack else Survivors(segs[1..], Take(segs[0], stack))
  }

  /** Every ".." pops nothing, or a segment that names nothing. */
  predicate ClimbsHarmlessly(segs: seq<string>, stack: seq<string>, f: Naming) {
    segs != [] ==>
      && (segs[0] == ".." && stack != [] ==> f(stack[|stack| - 1]) == [])
      && ClimbsHarmlessly(segs[1..], Take(segs[0], stack), f)
  }

  lemma NamesPush(stack: seq<string>, seg: string, f: Naming)
    ensures Names(stack + [seg], f) == Names(stack, f) + f(seg)
  {
    assert (stack + [seg])[..|stack|] == stack;
  }

  lemma {:induction false} NamesAppend(a: seq<string>, b: seq<string>, f: Naming)
    ensures Names(a + b, f) == Names(a, f) + Names(b, f)
  {
    if b == [] {
      assert a + b == a;
    } else {
      var init, last := b[..|b| - 1], b[|b| - 1];
      NamesAppend(a, init, f);
      assert a + b == (a + init) + [last];
      NamesPush(a + init, last, f);
      Associative(Names(a, f), Names(init, f), f(last));
    }
  }

  lemma NamesOne(seg: string, f: Naming)
    ensures Names([seg], f) == f(seg)
  {
    NamesPush([], seg, f);
    assert [] + [seg] == [seg];
  }

  lemma NamesCons(segs: seq<string>, f: Naming)
    requires segs != []
    ensures Names(segs, f) == f(segs[0]) + Names(segs[1..], f)
  {
    NamesAppend([segs[0]], segs[1..], f);
    assert [segs[0]] + segs[1..] == segs;
    NamesOne(segs[0], f);
  }

  /** Taking a segment adds its names, except that a ".." takes the names of the segment it pops. */
  lemma TakeNames(seg: string, stack: seq<string>, f: Naming)
    requires IsNaming(f)
    ensures Names(Take(seg, stack), f) + (if seg == ".." && stack != [] then f(stack[|stack| - 1]) else [])
         == Names(stack, f) + f(seg)
  {
    if seg != "." && seg != ".." {
      NamesPush(stack, seg, f);
    }
  }

  /** Survivors name no more than all segments, and name the same exactly when every climb is harmless. */
  lemma {:induction false} ClimbsLoseNothing(segs: seq<string>, stack: seq<string>, f: Naming)
    requires IsNaming(f)
    ensures |Names(Survivors(segs, stack), f)| <= |Names(stack, f)| + |Names(segs, f)|
    ensures Names(Survivors(segs, stack), f) == Names(stack, f) + Names(segs, f) <==> ClimbsHarmlessly(segs, stack, f)
    ensures !ClimbsHarmlessly(segs, stack, f) ==> |Names(Survivors(segs, stack), f)| < |Names(stack, f)| + |Names(segs, f)|
  {
    if segs != [] {
      var seg, rest := segs[0], segs[1..];
      NamesCons(segs, f);
      TakeNames(seg, stack, f);
      var taken := Take(seg, stack);
      ClimbsLoseNothing(rest, taken, f);
      OneTaken(Names(Survivors(rest, taken), f), Names(taken, f),
               if seg == ".." && stack != [] then f(stack[|stack| - 1]) else [],
               Names(stack, f), f(seg), Names(rest, f), ClimbsHarmlessly(rest, taken, f));
    }
  }

  /** What one taken segment means for the names that are left. */
  lemma OneTaken(left: Path, taken: Path, popped: Path, stack: Path, seg: Path, rest: Path, harmless: bool)
    requires taken + popped == stack + seg
    requires |left| <= |taken| + |rest| && (left == taken + rest <==> harmless) && (!harmless ==> |left| < |taken| + |rest|)
    ensures |left| <= |stack| + |seg + rest|
    ensures left == stack + (seg + rest) <==> popped == [] && harmless
    ensures !(popped == [] && harmless) ==> |left| < |stack| + |seg + rest|
  {
    assert |taken| + |popped| == |stack| + |seg|;
    Associative(stack, seg, rest);
    if popped == [] {
      assert taken + popped == taken;
    }
  }

  /** A last segment that is no dot segment survives. */
  lemma {:induction false} SurvivorsAppend(segs: seq<string>, last: string, stack: seq<string>)
    requires last != "." && last != ".."
    ensures Survivors(segs + [last], stack) == Survivors(segs, stack) + [last]
  {
    if segs == [] {
      assert segs + [last] == [last];
      assert [last][1..] == [];
    } else {
      assert (segs + [last])[1..] == segs[1..] + [last];
      SurvivorsAppend(segs[1..], last, Take(segs[0], stack));
    }
  }

  /** An empty segment at the bottom of the stack, as a doubled '/' leaves it, changes no name. */
  lemma {:induction false} EmptyBottom(segs: seq<string>, stack: seq<string>, f: Naming)
    requires IsNaming(f)
    ensures Names(Survivors(segs, [""] + stack), f) == Names(Survivors(segs, stack), f)
  {
    if segs == [] {
      NamesAppend([""], stack, f);
      NamesOne("", f);
    } else {
      var seg := segs[0];
      if seg == ".." && stack == [] {
        assert Take(seg, [""] + stack) == Take(seg, stack);
      } else {
        assert Take(seg, [""] + stack) == [""] + Take(seg, stack);
        EmptyBottom(segs[1..], Take(seg, stack), f);
      }
    }
  }

  // ---- The buffers of section 5.2.4 as that stack

  /** The output buffer that holds a stack; its first segment may have come without a '/'. */
  function OutputText(stack: seq<string>, lead: bool): (r: string) {
    if stack == [] then ""
    else OutputText(stack[..|stack| - 1], lead) + (if |stack| == 1 && !lead then "" else "/") + stack[|stack| - 1]
  }

  predicate StackOk(stack: seq<string>) {
    forall s :: s in stack ==> '/' !in s
  }

  lemma {:induction false} NamesOfOutput(stack: seq<string>, lead: bool, f: Naming)
    requires IsNaming(f)
    ensures f(OutputText(stack, lead)) == Names(stack, f)
  {
    if stack != [] {
      var init, last := stack[..|stack| - 1], stack[|stack| - 1];
      NamesOfOutput(init, lead, f);
      if |stack| == 1 && !lead {
        assert OutputText(stack, lead) == last;
      } else {
        assert OutputText(stack, lead) == OutputText(init, lead) + ['/'] + last;
        NamesAtSlash(f, OutputText(init, lead), last);
      }
    }
  }

  lemma {:induction false} DirectoryOfSegment(dir: string, seg: string)
    requires (dir == "" || EndsWith(dir, '/')) && '/' !in seg
    ensures Directory(dir + seg) == dir
  {
    if seg == [] {
      assert dir + seg == dir;
    } else {
      var n := |seg| - 1;
      assert (dir + seg)[..|dir + seg| - 1] == dir + seg[..n];
      DirectoryOfSegment(dir, seg[..n]);
    }
  }

  /** Removing the last segment of the output pops the stack. */
  lemma DropLastPops(stack: seq<string>, lead: bool)
    requires StackOk(stack)
    ensures DropLast(OutputText(stack, lead)) == OutputText(Take("..", stack), lead)
  {
    if stack != [] {
      var init, last := stack[..|stack| - 1], stack[|stack| - 1];
      var before := OutputText(init, lead);
      assert last in stack;
      if |stack| == 1 && !lead {
        assert OutputText(stack, lead) == "" + last;
        DirectoryOfSegment("", last);
      } else {
        assert OutputText(stack, lead) == (before + "/") + last;
        DirectoryOfSegment(before + "/", last);
        assert (before + "/")[..|before|] == before;
      }
    }
  }

  /** Moving a segment to the output pushes it; only the very first may come without a '/'. */
  lemma PushedText(stack: seq<string>, lead: bool, seg: string, slash: bool)
    requires !slash ==> stack == []
    ensures OutputText(stack + [seg], if stack == [] then slash else lead)
         == OutputText(stack, lead) + (if slash then "/" else "") + seg
  {
    assert (stack + [seg])[..|stack|] == stack;
  }

  /** The segments still in the input buffer. */
  function Pending(input: string): (segs: seq<string>) {
    if input == "" then [] else Split(StripLead(input), '/')
  }

  lemma {:induction false} FirstPiece(s: string)
    ensures Split(s, '/') == [Until(s)] + (if |Until(s)| < |s| then Split(s[|Until(s)| + 1..], '/') else [])
  {
    if s != [] && s[0] != '/' {
      FirstPiece(s[1..]);
      assert s[1..][|Until(s[1..])|..] == s[|Until(s)|..];
      if |Until(s)| < |s| {
        assert s[1..][|Until(s[1..])| + 1..] == s[|Until(s)| + 1..];
      }
    }
  }

  /** One round looks at the first pending segment. */
  lemma PendingStep(input: string)
    requires input != ""
    ensures var body := StripLead(input);
      var rest := body[|Until(body)|..];
      && Pending(input) == [Until(body)] + Pending(rest)
      && (rest != [] ==> rest[0] == '/' && Pending(rest) == Split(rest[1..], '/'))
  {
    var body := StripLead(input);
    FirstPiece(body);
    var rest := body[|Until(body)|..];
    if rest != [] {
      assert rest[1..] == body[|Until(body)| + 1..];
    }
  }

  /** Splitting the whole text only adds empty segments at the front. */
  lemma PendingOrSplit(s: string, f: Naming)
    requires IsNaming(f)
    ensures Names(Survivors(Split(s, '/'), []), f) == Names(Survivors(Pending(s), []), f)
  {
    if s == "" {
      NamesOne("", f);
      assert Survivors([""], []) == [""] by { assert [""][1..] == [] && [] + [""] == [""]; }
    } else if s[0] == '/' {
      var segs := Pending(s);
      assert Split(s, '/') == [""] + segs && ([""] + segs)[1..] == segs;
      assert Take("", []) == [""] + [] by { assert [] + [""] == [""]; }
      EmptyBottom(segs, [], f);
    }
  }

  /** What is left of "/" names what the stack names. */
  lemma SlashNamesNothing(stack: seq<string>, f: Naming)
    requires IsNaming(f)
    ensures Names(Survivors(Pending("/"), stack), f) == Names(stack, f)
  {
    assert StripLead("/") == "";
    assert Pending("/") == [""] && [""][1..] == [];
    NamesPush(stack, "", f);
  }

  /** Dot removal on the buffers is the stack on the segments, for every input. */
  lemma {:induction false} DotsAsStack(input: string, stack: seq<string>, lead: bool, f: Naming)
    requires IsNaming(f) && StackOk(stack)
    requires input == "" || input[0] == '/' || stack == []
    ensures f(RemoveDots(input, OutputText(stack, lead))) == Names(Survivors(Pending(input), stack), f)
    decreases |input|
  {
    if input == "" {
      NamesOfOutput(stack, lead, f);
    } else {
      var body := StripLead(input);
      var seg := Until(body);
      var rest := body[|seg|..];
      PendingStep(input);
      assert Survivors(Pending(input), stack) == Survivors(Pending(rest), Take(seg, stack)) by {
        assert ([seg] + Pending(rest))[1..] == Pending(rest);
      }
      var next := RemoveDot(input, OutputText(stack, lead));
      if seg != "." && seg != ".." {
        var slash := |body| < |input|;
        PushedText(stack, lead, seg, slash);
        assert next == (rest, OutputText(stack + [seg], if stack == [] then slash else lead)) by {
          assert OutputText(stack, lead) + "/" == OutputText(stack, lead) + ['/'];
          assert OutputText(stack, lead) + "" == OutputText(stack, lead);
        }
        DotsAsStack(rest, stack + [seg], if stack == [] then slash else lead, f);
      } else if |body| == |input| {
        DotsAsStack(next.0, [], lead, f);
        if rest != [] {
          PendingOrSplit(rest[1..], f);
        }
      } else {
        DropLastPops(stack, lead);
        DotsAsStack(next.0, Take(seg, stack), lead, f);
        if rest == [] {
          SlashNamesNothing(Take(seg, stack), f);
        }
      }
    }
  }

  /** The first segment of a text and the rest, in what the text names. */
  lemma NamesOfFirst(s: string, f: Naming)
    requires IsNaming(f)
    ensures f(s) == f(Until(s)) + (if |Until(s)| < |s| then f(s[|Until(s)| + 1..]) else [])
  {
    var u := Until(s);
    if |u| < |s| {
      assert s == u + ['/'] + s[|u| + 1..];
      NamesAtSlash(f, u, s[|u| + 1..]);
    } else {
      assert s == u;
    }
  }

  /** The same for its segments. */
  lemma SegmentNamesOfFirst(s: string, f: Naming)
    ensures Names(Split(s, '/'), f) == f(Until(s)) + (if |Until(s)| < |s| then Names(Split(s[|Until(s)| + 1..], '/'), f) else [])
  {
    FirstPiece(s);
    NamesOne(Until(s), f);
    NamesAppend([Until(s)], if |Until(s)| < |s| then Split(s[|Until(s)| + 1..], '/') else [], f);
  }

  lemma {:induction false} NamesOfSplit(s: string, f: Naming)
    requires IsNaming(f)
    ensures f(s) == Names(Split(s, '/'), f)
    decreases |s|
  {
    NamesOfFirst(s, f);
    SegmentNamesOfFirst(s, f);
    if |Until(s)| < |s| {
      NamesOfSplit(s[|Until(s)| + 1..], f);
    }
  }

  /** What a path names after dot removal. */
  lemma NamesAfterDots(s: string, f: Naming)
    requires IsNaming(f)
    ensures f(RemoveDots(s, "")) == Names(Survivors(Split(s, '/'), []), f)
  {
    DotsAsStack(s, [], true, f);
    PendingOrSplit(s, f);
  }

  /** Without ".." there is nothing to climb. */
  lemma {:induction false} NoClimbIsHarmless(segs: seq<string>, stack: seq<string>, f: Naming)
    requires ".." !in segs
    ensures ClimbsHarmlessly(segs, stack, f)
  {
    if segs != [] {
      NoClimbIsHarmless(segs[1..], Take(segs[0], stack), f);
    }
  }

  /** A trailing empty segment climbs nowhere. */
  lemma {:induction false} EmptyLast(segs: seq<string>, stack: seq<string>, f: Naming)
    ensures ClimbsHarmlessly(segs + [""], stack, f) <==> ClimbsHarmlessly(segs, stack, f)
  {
    if segs == [] {
      assert segs + [""] == [""] && [""][1..] == [];
    } else {
      assert (segs + [""])[0] == segs[0] && (segs + [""])[1..] == segs[1..] + [""];
      EmptyLast(segs[1..], Take(segs[0], stack), f);
    }
  }

  /** The request path with its trailing slash. */
  function AsDirectory(requestPath: string): (r: string)
    ensures EndsWith(r, '/')
  {
    if EndsWith(requestPath, '/') then requestPath else requestPath + "/"
  }

  /** The directories of a request path: its segments without the one behind the last '/'. */
  function Dirs(requestPath: string): (r: seq<string>) {
    var segs := Split(AsDirectory(requestPath), '/');
    segs[..|segs| - 1]
  }

  /** The request path without its last '/'. */
  lemma DirsOfStem(stem: string)
    ensures Dirs(stem + ['/']) == Split(stem, '/')
  {
    SplitAtDelimiter(stem, '/', "");
    assert stem + ['/'] + "" == stem + ['/'];
    var segs := Split(stem, '/');
    assert (segs + [""])[..|segs|] == segs;
  }

  lemma DirsSplit(requestPath: string, tail: string)
    ensures Split(AsDirectory(requestPath) + tail, '/') == Dirs(requestPath) + Split(tail, '/')
  {
    var dir := AsDirectory(requestPath);
    var stem := dir[..|dir| - 1];
    assert dir == stem + ['/'];
    DirsOfStem(stem);
    assert Dirs(requestPath) == Dirs(dir);
    SplitAtDelimiter(stem, '/', tail);
  }

  lemma PathSplit(requestPath: string)
    ensures Split(requestPath, '/') == if EndsWith(requestPath, '/') then Dirs(requestPath) + [""] else Dirs(requestPath)
  {
    DirsSplit(requestPath, "");
    assert AsDirectory(requestPath) + "" == AsDirectory(requestPath);
    if !EndsWith(requestPath, '/') {
      assert requestPath + "/" == requestPath + ['/'] + "";
      SplitAtDelimiter(requestPath, '/', "");
    }
  }

  /** The directories name what the request path names, and climb as it does. */
  lemma DirsOfPath(requestPath: string, f: Naming)
    requires IsNaming(f)
    ensures Names(Dirs(requestPath), f) == f(requestPath)
    ensures ClimbsHarmlessly(Dirs(requestPath), [], f) <==> ClimbsHarmlessly(Split(requestPath, '/'), [], f)
  {
    var dirs := Dirs(requestPath);
    PathSplit(requestPath);
    NamesOfSplit(requestPath, f);
    NamesPush(dirs, "", f);
    EmptyLast(dirs, [], f);
  }

  /**
   An entry below a request path still names the entry below the same directory after dot removal,
   exactly when every climb in the request path is harmless.
   */
  lemma EntryAfterDots(requestPath: string, seg: string, slash: bool, f: Naming)
    requires IsNaming(f) && IsNormalName(seg)
    ensures f(RemoveDots(AsDirectory(requestPath) + (seg + (if slash then "/" else "")), "")) == f(requestPath) + f(seg)
       <==> ClimbsHarmlessly(Split(requestPath, '/'), [], f)
  {
    var dirs, tail := Dirs(requestPath), seg + (if slash then "/" else "");
    var left := Survivors(dirs, []);
    DirsOfPath(requestPath, f);
    DirsSplit(requestPath, tail);
    NamesAfterDots(AsDirectory(requestPath) + tail, f);
    EntrySurvives(dirs, seg, slash, f);
    ClimbsLoseNothing(dirs, [], f);
    assert [] + Names(dirs, f) == Names(dirs, f);
    if Names(left, f) + f(seg) == f(requestPath) + f(seg) {
      assert |Names(left, f)| == |f(requestPath)|;
      assert Names(left, f) == (Names(left, f) + f(seg))[..|Names(left, f)|];
      assert f(requestPath) == (f(requestPath) + f(seg))[..|f(requestPath)|];
    }
  }

  /** Dot removal never adds names. */
  lemma EntryNeverLonger(requestPath: string, seg: string, slash: bool, f: Naming)
    requires IsNaming(f) && IsNormalName(seg)
    ensures |f(RemoveDots(AsDirectory(requestPath) + (seg + (if slash then "/" else "")), ""))| <= |f(requestPath)| + |f(seg)|
  {
    var dirs, tail := Dirs(requestPath), seg + (if slash then "/" else "");
    DirsOfPath(requestPath, f);
    DirsSplit(requestPath, tail);
    NamesAfterDots(AsDirectory(requestPath) + tail, f);
    EntrySurvives(dirs, seg, slash, f);
    ClimbsLoseNothing(dirs, [], f);
  }

  lemma EntrySurvives(dirs: seq<string>, seg: string, slash: bool, f: Naming)
    requires IsNaming(f) && IsNormalName(seg)
    ensures Names(Survivors(dirs + Split(seg + (if slash then "/" else ""), '/'), []), f)
         == Names(Survivors(dirs, []), f) + f(seg)
  {
    var left := Survivors(dirs, []);
    SplitWithoutDelimiter(seg, '/');
    SurvivorsAppend(dirs, seg, []);
    NamesPush(left, seg, f);
    if slash {
      SplitAtDelimiter(seg, '/', "");
      assert seg + "/" == seg + ['/'] + "";
      assert dirs + ([seg] + [""]) == dirs + [seg] + [""];
      SurvivorsAppend(dirs + [seg], "", []);
      NamesPush(left + [seg], "", f);
    } else {
      assert seg + "" == seg;
    }
  }

  /** The segments of a path with one climb. */
  lemma SegmentsOfClimb()
    ensures Split("/x/../y", '/') == ["", "x", ".."] + Split("y", '/')
  {
    ThreeSegmentsOff("", "x", "..", "y");
    assert "" + ['/'] + ("x" + ['/'] + (".." + ['/'] + "y")) == "/x/../y";
  }

  lemma ThreeSegmentsOff(a: string, b: string, c: string, rest: string)
    requires '/' !in a && '/' !in b && '/' !in c
    ensures Split(a + ['/'] + (b + ['/'] + (c + ['/'] + rest)), '/') == [a, b, c] + Split(rest, '/')
  {
    FirstSegmentOff(c, rest);
    FirstSegmentOff(b, c + ['/'] + rest);
    FirstSegmentOff(a, b + ['/'] + (c + ['/'] + rest));
  }

  lemma FirstSegmentOff(seg: string, rest: string)
    requires '/' !in seg
    ensures Split(seg + ['/'] + rest, '/') == [seg] + Split(rest, '/')
  {
    SplitAtDelimiter(seg, '/', rest);
    SplitWithoutDelimiter(seg, '/');
  }

  /** One climb out of a named directory is not harmless. */
  lemma ClimbOutOfX(rest: seq<string>, f: Naming)
    requires f("x") != []
    ensures !ClimbsHarmlessly(["", "x", ".."] + rest, [], f)
  {
    var segs := ["", "x", ".."] + rest;
    assert segs[1..] == ["x", ".."] + rest && segs[1..][1..] == [".."] + rest;
    assert Take("", []) == [""] && Take("x", [""]) == ["", "x"];
    assert !ClimbsHarmlessly([".."] + rest, ["", "x"], f);
  }
}
