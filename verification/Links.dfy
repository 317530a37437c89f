/**
 The links of a directory listing (src/directory_listing.rs) and what a client that follows them asks for next.
 */
module Links {
  import opened Wrappers
  import opened Text
  import opened Paths
  import opened References

  // ---- Percent encoding

  /** A name as the file system gives it. */
  type OctetString = s: string | IsOctets(s)

  /** Complement of `PERCENT_ENCODE_SET`. */
  predicate IsUnreserved(c: char) {
    '0' <= c <= '9' || 'a' <= c <= 'z' || 'A' <= c <= 'Z' || c == '_' || c == '-' || c == '.' || c == '~'
  }

  function HexDigit(v: nat): (c: char)
    requires v < 16
    ensures IsHexDigit(c) && HexValue(c) == v && IsUnreserved(c)
  {
    if v < 10 then ('0' as int + v) as char else ('A' as int + v - 10) as char
  }

  /** `percent_encode`. */
  function Encode(name: string): (r: string)
    requires IsOctets(name)
  {
    if name == [] then []
    else
      var v := name[0] as int;
      (if IsUnreserved(name[0]) then [name[0]] else ['%', HexDigit(v / 16), HexDigit(v % 16)])
      + Encode(name[1..])
  }

  lemma {:induction false} DecodeEncode(name: string)
    requires IsOctets(name)
    ensures Decode(Encode(name)) == name
  {
    if name != [] {
      DecodeEncode(name[1..]);
      var e := Encode(name);
      assert NextOctet(e) == name[0];
      assert e[Width(e)..] == Encode(name[1..]);
      assert name == [name[0]] + name[1..];
    }
  }

  lemma {:induction false} EncodeAlphabet(name: string)
    requires IsOctets(name)
    ensures forall c :: c in Encode(name) ==> IsUnreserved(c) || c == '%'
  {
    if name != [] {
      EncodeAlphabet(name[1..]);
    }
  }

  /** An encoded entry name is one path segment that is not a dot segment. */
  lemma EncodedNameIsSegment(name: string)
    requires IsOctets(name) && IsNormalName(name)
    ensures IsNormalName(Encode(name))
  {
    DecodeEncode(name);
    EncodeAlphabet(name);
    assert Decode(".") == ".";
    assert Decode("..") == "..";
  }

  lemma EncodedNameIsOneComponent(name: string)
    requires IsOctets(name) && IsNormalName(name)
    ensures TailComponents(Encode(name)) == [Normal(name)]
  {
    DecodeEncode(name);
    SplitWithoutDelimiter(name, '/');
    assert Segments([name]) == [Normal(name)];
    assert Normals([Normal(name)]) == [Normal(name)];
  }

  // ---- Request paths

  /** The encoded names, each behind a separator. */
  function EncodedNames(names: Path): (r: string)
    requires AllNames(names)
  {
    if names == [] then "" else EncodedNames(names[..|names| - 1]) + ['/'] + Encode(names[|names| - 1].name)
  }

  /** A request path for the names below a base that does not end in a separator. */
  function UriPathOf(names: Path): (r: string)
    requires AllNames(names)
  {
    if names == [] then "/." else EncodedNames(names)
  }

  lemma {:induction false} EncodedNamesNameThem(names: Path)
    requires AllNames(names)
    ensures TailComponents(EncodedNames(names)) == names
  {
    if names == [] {
      assert TailComponents("") == [];
    } else {
      var init, last := names[..|names| - 1], names[|names| - 1];
      EncodedNamesNameThem(init);
      TailAtSlash(EncodedNames(init), Encode(last.name));
      EncodedNameIsOneComponent(last.name);
      assert init + [last] == names;
    }
  }

  /** What the URI grammar allows in the path of a request. */
  predicate IsUriPath(s: string) {
    && s != "" && s[0] == '/'
    && forall i :: 0 <= i < |s| ==> ' ' < s[i] && s[i] as int < 256 && s[i] != '?' && s[i] != '#'
  }

  lemma {:induction false} EncodedNamesAreUriPath(names: Path)
    requires AllNames(names) && names != []
    ensures IsUriPath(EncodedNames(names))
  {
    var init, last := names[..|names| - 1], names[|names| - 1];
    if init != [] {
      EncodedNamesAreUriPath(init);
    }
    EncodedNameGoesOn(EncodedNames(init), last.name);
  }

  lemma EncodedNameGoesOn(front: string, name: string)
    requires IsOctets(name) && (front == "" || IsUriPath(front))
    ensures IsUriPath(front + ['/'] + Encode(name))
  {
    EncodeAlphabet(name);
    var e := Encode(name);
    forall i | 0 <= i < |e| ensures ' ' < e[i] && e[i] as int < 256 && e[i] != '?' && e[i] != '#' {
      assert e[i] in e;
    }
  }

  /** All names below a base can be asked for, with or without a separator at the end. */
  lemma UriPathOfNames(base: string, names: Path)
    requires AllNames(names)
    ensures IsUriPath(UriPathOf(names)) && !EndsWith(UriPathOf(names), '/')
    ensures Sanitized(base, UriPathOf(names)) == Components(base) + names
  {
    if names == [] {
      TailAtSlash("", ".");
      assert "" + ['/'] + "." == "/.";
      assert Decode(".") == "." && TailComponents("") == [];
      SplitWithoutDelimiter(".", '/');
    } else {
      EncodedNamesNameThem(names);
      EncodedNamesAreUriPath(names);
      EncodedNameIsSegment(names[|names| - 1].name);
    }
  }

  // ---- Links

  /** `name_encoded`, with the '/' that marks a directory entry. */
  function EntryRef(name: string, isDir: bool): (r: string)
    requires IsOctets(name)
  {
    Encode(name) + (if isDir then "/" else "")
  }

  /** The `uri` of a listed entry. */
  function Link(requestPath: string, name: string, isDir: bool): (uri: string)
    requires IsOctets(name)
  {
    if !EndsWith(requestPath, '/') && requestPath != ""
    then LastSegment(requestPath) + ['/'] + EntryRef(name, isDir)
    else EntryRef(name, isDir)
  }

  lemma LinkMerges(requestPath: string, name: string, isDir: bool)
    requires IsOctets(name)
    ensures Merge(requestPath, Link(requestPath, name, isDir)) == AsDirectory(requestPath) + EntryRef(name, isDir)
  {
    var d := Directory(requestPath);
    if requestPath != "" && !EndsWith(requestPath, '/') {
      assert d + LastSegment(requestPath) == requestPath;
    } else if requestPath != "" {
      assert d == requestPath;
    }
  }

  /** A trailing separator adds nothing. */
  lemma TrailingSlashKeepsTail(s: string)
    ensures TailComponents(s + "/") == TailComponents(s)
  {
    assert s + "/" == s + ['/'] + "";
    TailAtSlash(s, "");
    assert TailComponents("") == [];
  }

  lemma EntryRefIsOneComponent(name: string, isDir: bool)
    requires IsOctets(name) && IsNormalName(name)
    ensures TailComponents(EntryRef(name, isDir)) == [Normal(name)]
  {
    EncodedNameIsOneComponent(name);
    TrailingSlashKeepsTail(Encode(name));
    assert Encode(name) + "" == Encode(name);
  }

  /** An entry below a directory path adds one component. */
  lemma EntryBelowDirectory(dir: string, name: string, isDir: bool)
    requires IsOctets(name) && IsNormalName(name)
    requires dir == "" || EndsWith(dir, '/')
    ensures TailComponents(dir + EntryRef(name, isDir)) == TailComponents(dir) + [Normal(name)]
  {
    EntryRefIsOneComponent(name, isDir);
    var ref := EntryRef(name, isDir);
    if dir == "" {
      assert dir + ref == ref;
      assert TailComponents("") == [];
    } else {
      var stem := dir[..|dir| - 1];
      assert dir == stem + "/";
      assert dir + ref == stem + ['/'] + ref;
      TrailingSlashKeepsTail(stem);
      TailAtSlash(stem, ref);
    }
  }

  lemma AsDirectoryKeepsTail(requestPath: string)
    ensures TailComponents(AsDirectory(requestPath)) == TailComponents(requestPath)
  {
    TrailingSlashKeepsTail(requestPath);
  }

  /**
   Merging alone: for every request path and every entry name, the merged link names the entry
   inside the listed directory.
   */
  lemma MergedLinkRoundTrip(root: string, requestPath: string, name: string, isDir: bool)
    requires IsOctets(name) && IsNormalName(name)
    ensures Sanitized(root, Merge(requestPath, Link(requestPath, name, isDir)))
         == Sanitized(root, requestPath) + [Normal(name)]
  {
    LinkMerges(requestPath, name, isDir);
    EntryBelowDirectory(AsDirectory(requestPath), name, isDir);
    AsDirectoryKeepsTail(requestPath);
  }

  /** An encoded name holds none of the characters that end a scheme or a path. */
  lemma EntryRefHasNoScheme(name: string, isDir: bool)
    requires IsOctets(name) && IsNormalName(name)
    ensures ':' !in EntryRef(name, isDir)
    ensures EntryRef(name, isDir) != "" && EntryRef(name, isDir)[0] != '/'
  {
    EncodeAlphabet(name);
    EncodedNameIsSegment(name);
  }

  /** A link carries a scheme exactly when the last segment of the request path looks like one. */
  lemma LinkScheme(requestPath: string, name: string, isDir: bool)
    requires IsOctets(name) && IsNormalName(name)
    ensures HasScheme(Link(requestPath, name, isDir)) <==> HasScheme(LastSegment(requestPath))
    ensures Link(requestPath, name, isDir) != "" && Link(requestPath, name, isDir)[0] != '/'
  {
    EntryRefHasNoScheme(name, isDir);
    var link, last := Link(requestPath, name, isDir), LastSegment(requestPath);
    if requestPath == "" || EndsWith(requestPath, '/') {
      assert last == "";
    } else {
      assert link[|last|] == '/';
      assert forall j :: 0 <= j < |last| ==> link[j] == last[j];
      if HasScheme(link) {
        var i :| 1 <= i < |link| && link[i] == ':' && forall j :: 0 <= j < i ==> link[j] !in ":/?#";
        assert i < |last|;
        assert last[i] == ':';
      }
      if HasScheme(last) {
        var i :| 1 <= i < |last| && last[i] == ':' && forall j :: 0 <= j < i ==> last[j] !in ":/?#";
        assert link[i] == ':';
      }
    }
  }

  /** The listed link, resolved and requested, reaches the entry inside the listed directory. */
  predicate LinkReachesEntry(root: string, requestPath: string, name: string, isDir: bool)
    requires IsOctets(name)
  {
    var target := ResolveReference(requestPath, Link(requestPath, name, isDir));
    target.Some? && Sanitized(root, target.value) == Sanitized(root, requestPath) + [Normal(name)]
  }

  /** What tails name is a naming in the sense of dot removal. */
  lemma TailsAreNaming()
    ensures IsNaming(TailComponents)
  {
    assert Decode(".") == "." && Decode("..") == "..";
    SplitWithoutDelimiter(".", '/');
    SplitWithoutDelimiter("..", '/');
    assert Segments(["."]) == [] && Segments([".."]) == [ParentDir];
    assert Normals([ParentDir]) == [];
    forall a: string, b: string ensures TailComponents(a + ['/'] + b) == TailComponents(a) + TailComponents(b) {
      TailAtSlash(a, b);
    }
  }

  /**
   For every root, request path and entry: the link works exactly when the request path's last
   segment cannot be read as a scheme, and every ".." in it climbs out of nothing or out of a
   segment that names nothing. Neither condition depends on the entry.
   */
  lemma LinkRoundTrip(root: string, requestPath: string, name: string, isDir: bool)
    requires IsOctets(name) && IsNormalName(name)
    ensures LinkReachesEntry(root, requestPath, name, isDir)
       <==> !HasScheme(LastSegment(requestPath)) && ClimbsHarmlessly(Split(requestPath, '/'), [], TailComponents)
  {
    LinkTarget(requestPath, name, isDir);
    EncodedNameIsSegment(name);
    EncodedNameIsOneComponent(name);
    TailsAreNaming();
    EntryAfterDots(requestPath, Encode(name), isDir, TailComponents);
    var target := RemoveDots(AsDirectory(requestPath) + EntryRef(name, isDir), "");
    SameSuffix(Components(root), TailComponents(target), TailComponents(requestPath), [Normal(name)]);
  }

  /** A followed link never asks for anything deeper than the entries of the request path. */
  lemma LinkNeverDeeper(root: string, requestPath: string, name: string, isDir: bool)
    requires IsOctets(name) && IsNormalName(name)
    ensures var target := ResolveReference(requestPath, Link(requestPath, name, isDir));
      target.Some? ==> |Sanitized(root, target.value)| <= |Sanitized(root, requestPath)| + 1
  {
    LinkTarget(requestPath, name, isDir);
    EncodedNameIsSegment(name);
    EncodedNameIsOneComponent(name);
    TailsAreNaming();
    EntryNeverLonger(requestPath, Encode(name), isDir, TailComponents);
  }

  /** What the client asks for when it follows a link. */
  lemma LinkTarget(requestPath: string, name: string, isDir: bool)
    requires IsOctets(name) && IsNormalName(name)
    ensures ResolveReference(requestPath, Link(requestPath, name, isDir)) ==
      if HasScheme(LastSegment(requestPath)) then None
      else Some(RemoveDots(AsDirectory(requestPath) + EntryRef(name, isDir), ""))
  {
    LinkScheme(requestPath, name, isDir);
    LinkMerges(requestPath, name, isDir);
  }

  lemma SameSuffix(prefix: Path, a: Path, b: Path, c: Path)
    ensures prefix + a == prefix + b + c <==> a == b + c
  {
    Associative(prefix, b, c);
    if prefix + a == prefix + (b + c) {
      assert a == (prefix + a)[|prefix|..];
      assert b + c == (prefix + (b + c))[|prefix|..];
    }
  }

  lemma PlainName(name: string)
    requires IsNormalName(name) && Decode(name) == name
    ensures TailComponents(name) == [Normal(name)]
  {
    SplitWithoutDelimiter(name, '/');
    assert Segments([name]) == [Normal(name)];
    assert Normals([Normal(name)]) == [Normal(name)];
  }

  /** A ".." that leaves a named directory breaks every link of the listing. */
  lemma ClimbBreaksLinks(root: string, name: string, isDir: bool)
    requires IsOctets(name) && IsNormalName(name)
    ensures !LinkReachesEntry(root, "/x/../y", name, isDir)
  {
    LinkRoundTrip(root, "/x/../y", name, isDir);
    PlainName("x");
    SegmentsOfClimb();
    ClimbOutOfX(Split("y", '/'), TailComponents);
  }

  /** A last segment with a colon is taken for a scheme, and breaks every link of the listing. */
  lemma ColonBreaksLinks(root: string, name: string, isDir: bool)
    requires IsOctets(name) && IsNormalName(name)
    ensures !LinkReachesEntry(root, "/a:b", name, isDir)
  {
    LinkRoundTrip(root, "/a:b", name, isDir);
    ColonIsScheme();
  }

  lemma ColonIsScheme()
    ensures HasScheme(LastSegment("/a:b"))
  {
    DirectoryOfSegment("/", "a:b");
    assert "/" + "a:b" == "/a:b";
    var last := LastSegment("/a:b");
    assert last == "a:b";
    assert last[1] == ':' && last[0] == 'a';
  }
}
