/**
 Directory listing (src/directory_listing.rs): which entries are shown, in which order and with which sizes.
 */
module Listing {
  import opened Wrappers
  import opened Text
  import opened Paths
  import opened References
  import opened Links
  import Sorting

  // ---- Entries

  datatype Kind = IsDir | IsFile | IsSymlink | IsOther

  /** An entry as read: its own metadata, and the size and kind of what a symbolic link resolves to. */
  datatype DirEntry = DirEntry(name: OctetString, meta: Option<EntryMeta>, target: Option<EntryMeta>)

  datatype EntryMeta = EntryMeta(kind: Kind, len: nat, mtime: Option<nat>)

  datatype FileEntry = FileEntry(name: OctetString, mtime: Option<nat>, size: Option<nat>, isDir: bool, uri: string)

  /** The kind shown for an entry; symbolic links count as what they resolve to. */
  function ShownMeta(e: DirEntry, disableSymlinks: bool): (m: Option<EntryMeta>) {
    match e.meta
    case None => None
    case Some(meta) =>
      match meta.kind
      case IsDir => Some(meta)
      case IsFile => Some(meta)
      case IsSymlink => if disableSymlinks then None else e.target
      case IsOther => None
  }

  predicate IsDotName(name: string) { name != "" && name[0] == '.' }

  /** What is listed for an entry, if anything. */
  function Shown(e: DirEntry, requestPath: string, ignoreHidden: bool, disableSymlinks: bool): (r: Option<FileEntry>)
  {
    var m := ShownMeta(e, disableSymlinks);
    if m.None? || (ignoreHidden && IsDotName(e.name)) then None
    else
      var isDir := m.value.kind.IsDir?;
      Some(FileEntry(e.name, e.meta.value.mtime, if isDir then None else Some(m.value.len), isDir, Link(requestPath, e.name, isDir)))
  }

  /** All that is listed; None is an entry the directory reader fails on. */
  function ShownAll(items: seq<Option<DirEntry>>, requestPath: string, ignoreHidden: bool, disableSymlinks: bool): (r: seq<FileEntry>) {
    if items == [] then []
    else
      var last := items[|items| - 1];
      var shown := if last.None? then None else Shown(last.value, requestPath, ignoreHidden, disableSymlinks);
      ShownAll(items[..|items| - 1], requestPath, ignoreHidden, disableSymlinks) + (if shown.Some? then [shown.value] else [])
  }

  function CountDirs(fs: seq<FileEntry>): (n: nat)
    ensures n <= |fs|
  {
    if fs == [] then 0 else CountDirs(fs[..|fs| - 1]) + (if fs[|fs| - 1].isDir then 1 else 0)
  }

  /** The entry loop of `read_dir_entries`, with its two counters; a failing entry ends it with an error. */
  method ReadDirEntries(items: seq<Option<DirEntry>>, requestPath: string, ignoreHidden: bool, disableSymlinks: bool)
    returns (ok: bool, dirsCount: nat, filesCount: nat, entries: seq<FileEntry>)
    ensures ok <==> None !in items
    ensures ok ==> entries == ShownAll(items, requestPath, ignoreHidden, disableSymlinks)
    ensures ok ==> dirsCount == CountDirs(entries) && dirsCount + filesCount == |entries|
  {
    dirsCount, filesCount, entries := 0, 0, [];
    for i := 0 to |items|
      invariant forall j :: 0 <= j < i ==> items[j].Some?
      invariant entries == ShownAll(items[..i], requestPath, ignoreHidden, disableSymlinks)
      invariant dirsCount == CountDirs(entries) && dirsCount + filesCount == |entries|
    {
      if items[i].None? {
        return false, dirsCount, filesCount, entries;
      }
      var shown := ShowEntry(items[i].value, requestPath, ignoreHidden, disableSymlinks);
      NextShown(items, i, requestPath, ignoreHidden, disableSymlinks, shown);
      dirsCount, filesCount, entries := AddEntry(dirsCount, filesCount, entries, shown);
    }
    assert items[..|items|] == items;
    ok := true;
  }

  /** Appends an entry that is shown, and counts it. */
  method AddEntry(dirs: nat, files: nat, entries: seq<FileEntry>, shown: Option<FileEntry>)
    returns (dirs': nat, files': nat, entries': seq<FileEntry>)
    requires dirs == CountDirs(entries) && dirs + files == |entries|
    ensures entries' == entries + (if shown.Some? then [shown.value] else [])
    ensures dirs' == CountDirs(entries') && dirs' + files' == |entries'|
  {
    dirs', files', entries' := dirs, files, entries;
    if shown.Some? {
      CountNext(entries, shown.value);
      entries' := entries + [shown.value];
      if shown.value.isDir {
        dirs' := dirs + 1;
      } else {
        files' := files + 1;
      }
    }
  }

  lemma CountNext(entries: seq<FileEntry>, f: FileEntry)
    ensures CountDirs(entries + [f]) == CountDirs(entries) + (if f.isDir then 1 else 0)
  {
    assert (entries + [f])[..|entries|] == entries;
  }

  lemma NextShown(items: seq<Option<DirEntry>>, i: nat, requestPath: string, ignoreHidden: bool, disableSymlinks: bool, shown: Option<FileEntry>)
    requires i < |items| && items[i].Some? && shown == Shown(items[i].value, requestPath, ignoreHidden, disableSymlinks)
    ensures ShownAll(items[..i + 1], requestPath, ignoreHidden, disableSymlinks)
         == ShownAll(items[..i], requestPath, ignoreHidden, disableSymlinks) + (if shown.Some? then [shown.value] else [])
  {
    assert items[..i + 1][..i] == items[..i];
  }

  /** One entry of the loop: skipped, or shown with its type, size and link. */
  method ShowEntry(e: DirEntry, requestPath: string, ignoreHidden: bool, disableSymlinks: bool) returns (r: Option<FileEntry>)
    ensures r == Shown(e, requestPath, ignoreHidden, disableSymlinks)
  {
    if e.meta.None? || (ignoreHidden && IsDotName(e.name)) {
      return None;
    }
    var meta := e.meta.value;
    if meta.kind.IsSymlink? && !disableSymlinks {
      if e.target.None? {
        return None;
      }
      meta := e.target.value;
    } else if !meta.kind.IsDir? && !meta.kind.IsFile? {
      return None;
    }
    var isDir := meta.kind.IsDir?;
    var uri := BuildUri(requestPath, e.name, isDir);
    return Some(FileEntry(e.name, e.meta.value.mtime, if isDir then None else Some(meta.len), isDir, uri));
  }

  /** The link of an entry, extended in place. */
  method BuildUri(requestPath: string, name: string, isDir: bool) returns (uri: string)
    requires IsOctets(name)
    ensures uri == Link(requestPath, name, isDir)
  {
    uri := Encode(name);
    if !EndsWith(requestPath, '/') && requestPath != "" {
      uri := LastSegment(requestPath) + ['/'] + uri;
    }
    if isDir {
      uri := uri + "/";
    }
  }

  /**
   Every listed entry is one of the directory, with a name that may be shown, and its link leads to it exactly
   under the condition on the request path that `LinkRoundTrip` names.
   */
  lemma ListedLinksWork(root: string, items: seq<Option<DirEntry>>, requestPath: string, ignoreHidden: bool, disableSymlinks: bool, f: FileEntry)
    requires forall e :: Some(e) in items ==> IsNormalName(e.name)
    requires f in ShownAll(items, requestPath, ignoreHidden, disableSymlinks)
    ensures exists e :: Some(e) in items && e.name == f.name
    ensures ignoreHidden ==> !IsDotName(f.name)
    ensures (var target := ResolveReference(requestPath, f.uri);
      target.Some? && Sanitized(root, target.value) == Sanitized(root, requestPath) + [Normal(f.name)])
       <==> !HasScheme(LastSegment(requestPath)) && ClimbsHarmlessly(Split(requestPath, '/'), [], TailComponents)
  {
    ListedIsShown(items, requestPath, ignoreHidden, disableSymlinks, f);
    LinkRoundTrip(root, requestPath, f.name, f.isDir);
  }

  lemma {:induction false} ListedIsShown(items: seq<Option<DirEntry>>, requestPath: string, ignoreHidden: bool, disableSymlinks: bool, f: FileEntry)
    requires f in ShownAll(items, requestPath, ignoreHidden, disableSymlinks)
    ensures exists e :: Some(e) in items && e.name == f.name
    ensures ignoreHidden ==> !IsDotName(f.name)
    ensures f.uri == Link(requestPath, f.name, f.isDir)
  {
    var init, last := items[..|items| - 1], items[|items| - 1];
    if f in ShownAll(init, requestPath, ignoreHidden, disableSymlinks) {
      ListedIsShown(init, requestPath, ignoreHidden, disableSymlinks, f);
    } else {
      assert last in items && last.value.name == f.name;
    }
  }

  // ---- Order

  function Reverse<T>(s: seq<T>): (r: seq<T>)
    ensures |r| == |s|
    ensures forall i :: 0 <= i < |s| ==> r[i] == s[|s| - 1 - i]
  {
    seq(|s|, i requires 0 <= i < |s| => s[|s| - 1 - i])
  }

  /** `None` sorts before every value. */
  function OptionKey(o: Option<nat>): int {
    if o.None? then -1 else o.value
  }

  function MtimeKey(f: FileEntry): int { OptionKey(f.mtime) }

  function SizeKey(f: FileEntry): int { OptionKey(f.size) }

  /** The key of an order code, or None for an unsorted listing. `nameKey` ranks lower-cased names. */
  function OrderKey(code: nat, nameKey: FileEntry -> int): (k: Option<FileEntry -> int>) {
    if code == 0 || code == 1 then Some(nameKey)
    else if code == 2 || code == 3 then Some(MtimeKey)
    else if code == 4 || code == 5 then Some(SizeKey)
    else None
  }

  function Ordered(files: seq<FileEntry>, code: nat, nameKey: FileEntry -> int): (r: seq<FileEntry>) {
    match OrderKey(code, nameKey)
    case None => files
    case Some(key) =>
      var sorted := Sorting.Sort(files, key);
      if code % 2 == 1 then Reverse(sorted) else sorted
  }

  /** Sorting a listing only reorders it: ascending for even codes, descending for odd ones. */
  lemma OrderedIsReordering(files: seq<FileEntry>, code: nat, nameKey: FileEntry -> int)
    ensures multiset(Ordered(files, code, nameKey)) == multiset(files)
    ensures OrderKey(code, nameKey).Some? ==>
      forall i, j :: 0 <= i < j < |Ordered(files, code, nameKey)| ==>
        var key := OrderKey(code, nameKey).value;
        var a, b := key(Ordered(files, code, nameKey)[i]), key(Ordered(files, code, nameKey)[j]);
        if code % 2 == 1 then a >= b else a <= b
  {
    if OrderKey(code, nameKey).Some? {
      Sorting.SortCorrect(files, OrderKey(code, nameKey).value);
      ReversePermutes(Sorting.Sort(files, OrderKey(code, nameKey).value));
    }
  }

  lemma {:induction false} ReversePermutes<T>(s: seq<T>)
    ensures multiset(Reverse(s)) == multiset(s)
  {
    if s != [] {
      ReversePermutes(s[1..]);
      assert Reverse(s) == Reverse(s[1..]) + [s[0]];
      assert s == [s[0]] + s[1..];
    }
  }

  /** The slice sort of the standard library. */
  method SortEntries(files: array<FileEntry>, key: FileEntry -> int)
    modifies files
    ensures files[..] == Sorting.Sort(old(files[..]), key)
  {
    var sorted := Sorting.Sort(files[..], key);
    Sorting.SortCorrect(files[..], key);
    assert |multiset(sorted)| == |multiset(files[..])|;
    for i := 0 to files.Length
      invariant files[..i] == sorted[..i]
    {
      files[i] := sorted[i];
    }
    assert files[..files.Length] == files[..];
  }

  /** The slice reversal of the standard library: two ends that meet in the middle. */
  method ReverseEntries(files: array<FileEntry>)
    modifies files
    ensures files[..] == Reverse(old(files[..]))
  {
    var lo, hi := 0, files.Length;
    ghost var was := files[..];
    ghost var goal := Reverse(was);
    while lo + 1 < hi
      invariant lo <= hi && lo + hi == files.Length
      invariant forall k {:trigger files[k]} :: 0 <= k < lo ==> files[k] == goal[k]
      invariant forall k {:trigger files[k]} :: lo <= k < hi ==> files[k] == was[k]
      invariant forall k {:trigger files[k]} :: hi <= k < files.Length ==> files[k] == goal[k]
    {
      hi := hi - 1;
      files[lo], files[hi] := files[hi], files[lo];
      lo := lo + 1;
    }
  }

  /** Orders a list of entries as a slice. */
  method OrderEntries(entries: seq<FileEntry>, code: nat, nameKey: FileEntry -> int) returns (ordered: seq<FileEntry>)
    ensures ordered == Ordered(entries, code, nameKey)
  {
    var slots := new FileEntry[|entries|](i requires 0 <= i < |entries| => entries[i]);
    assert slots[..] == entries;
    var _, _, _ := SortFileEntries(slots, code, nameKey);
    ordered := slots[..];
  }

  /** `sort_file_entries`: reorders in place and returns the codes behind the three column headers. */
  method SortFileEntries(files: array<FileEntry>, code: nat, nameKey: FileEntry -> int)
    returns (name: nat, lastModified: nat, size: nat)
    modifies files
    ensures files[..] == Ordered(old(files[..]), code, nameKey)
    ensures name != code && OrderKey(name, nameKey) == Some(nameKey)
    ensures lastModified != code && OrderKey(lastModified, nameKey) == Some(MtimeKey)
    ensures size != code && OrderKey(size, nameKey) == Some(SizeKey)
  {
    name, lastModified, size := 0, 2, 4;
    if code == 0 || code == 1 {
      SortEntries(files, nameKey);
      if code == 1 { ReverseEntries(files); } else { name := 1; }
    } else if code == 2 || code == 3 {
      SortEntries(files, MtimeKey);
      if code == 3 { ReverseEntries(files); } else { lastModified := 3; }
    } else if code == 4 || code == 5 {
      SortEntries(files, SizeKey);
      if code == 5 { ReverseEntries(files); } else { size := 5; }
    }
  }

  // ---- Sizes

  const UNITS: seq<string> := ["B", "KiB", "MiB", "GiB", "TiB", "PiB"]

  /** The bytes of one unit: 1024 to the power of its index. */
  function UnitBytes(unit: nat): (p: nat)
    requires unit < |UNITS|
    ensures unit > 0 ==> p == 1024 * UnitBytes(unit - 1)
  {
    if unit == 0 then 1
    else if unit == 1 then 1024
    else if unit == 2 then 1024 * 1024
    else if unit == 3 then 1024 * 1024 * 1024
    else if unit == 4 then 1024 * 1024 * 1024 * 1024
    else 1024 * 1024 * 1024 * 1024 * 1024
  }

  /** `q` is the whole number of times `p` goes into `size`. */
  predicate IsQuotient(q: nat, size: nat, p: nat) {
    0 <= size - q * p < p
  }

  lemma ShiftOnce(size: nat, shifted: nat, unit: nat)
    requires 1 <= unit < |UNITS| - 1 && IsQuotient(shifted, size, UnitBytes(unit - 1))
    ensures IsQuotient(shifted / 1024, size, UnitBytes(unit))
  {
    if unit == 1 {
    } else if unit == 2 {
    } else if unit == 3 {
    } else {
    }
  }

  /**
   `format_file_size`: the number shown is `shifted / 1024` in the unit (or `shifted` bytes). The unit is
   the largest the size reaches, and the shifted value is the exact whole quotient, so less than one
   1024th of the unit is lost before the final division.
   */
  method FormatFileSize(size: nat) returns (shifted: nat, unit: nat)
    ensures unit < |UNITS|
    ensures size < 1024 ==> unit == 0 && shifted == size
    ensures size >= 1024 ==>
      && unit > 0 && UnitBytes(unit) <= size && (unit < |UNITS| - 1 ==> size < UnitBytes(unit + 1))
      && IsQuotient(shifted, size, UnitBytes(unit - 1))
  {
    shifted := size;
    if shifted < 1024 {
      return shifted, 0;
    }
    unit := 1;
    while unit < |UNITS| - 1
      invariant 1 <= unit <= |UNITS| - 1
      invariant IsQuotient(shifted, size, UnitBytes(unit - 1)) && shifted >= 1024
    {
      if shifted < 1024 * 1024 {
        break;
      }
      ShiftOnce(size, shifted, unit);
      shifted := shifted / 1024;
      unit := unit + 1;
    }
    UnitReached(size, shifted, unit);
  }

  lemma UnitReached(size: nat, shifted: nat, unit: nat)
    requires 1 <= unit < |UNITS| && IsQuotient(shifted, size, UnitBytes(unit - 1)) && shifted >= 1024
    ensures UnitBytes(unit) <= size
    ensures unit < |UNITS| - 1 && shifted < 1024 * 1024 ==> size < UnitBytes(unit + 1)
  {
    if unit == 1 {
    } else if unit == 2 {
    } else if unit == 3 {
    } else if unit == 4 {
    } else {
    }
  }
}
