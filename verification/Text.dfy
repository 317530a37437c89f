/**
 Splitting and joining of text. Paths are split on '/', header values on ',' and ';'.
 Octet strings (file names, URIs, header values) are `string`s whose characters are below 256.
 */
module Text {

  /** The pieces of `s` between occurrences of `d`; like `str::split`, never empty. */
  function Split(s: string, d: char): (r: seq<string>)
    ensures |r| >= 1
  {
    if s == [] then [[]] else Extend(s[0], d, Split(s[1..], d))
  }

  /** One more character in front of a split. */
  function Extend(c: char, d: char, rest: seq<string>): (r: seq<string>)
    requires |rest| >= 1
    ensures |r| >= 1
  {
    if c == d then [[]] + rest else [[c] + rest[0]] + rest[1..]
  }

  lemma ExtendFirst(c: char, d: char, rest: seq<string>, tail: seq<string>)
    requires |rest| >= 1
    ensures Extend(c, d, rest + tail) == Extend(c, d, rest) + tail
  {
    if c != d {
      assert (rest + tail)[1..] == rest[1..] + tail;
    }
  }

  /** Splitting distributes over a delimiter. */
  lemma {:induction false} SplitAtDelimiter(a: string, d: char, b: string)
    ensures Split(a + [d] + b, d) == Split(a, d) + Split(b, d)
  {
    var s := a + [d] + b;
    if a == [] {
      assert s[0] == d && s[1..] == b;
    } else {
      SplitAtDelimiter(a[1..], d, b);
      assert s[0] == a[0] && s[1..] == a[1..] + [d] + b;
      ExtendFirst(a[0], d, Split(a[1..], d), Split(b, d));
    }
  }

  lemma {:induction false} SplitWithoutDelimiter(s: string, d: char)
    requires d !in s
    ensures Split(s, d) == [s]
  {
    if s != [] {
      SplitWithoutDelimiter(s[1..], d);
      assert [s[0]] + s[1..] == s;
    }
  }

  /** No piece contains the delimiter. */
  lemma {:induction false} PiecesAvoidDelimiter(s: string, d: char)
    ensures forall piece :: piece in Split(s, d) ==> d !in piece
  {
    if s != [] {
      PiecesAvoidDelimiter(s[1..], d);
    }
  }

  /** The flattening of a list of lists. */
  function Flatten<T>(xss: seq<seq<T>>): (r: seq<T>) {
    if xss == [] then [] else xss[0] + Flatten(xss[1..])
  }

  lemma {:induction false} FlattenAppend<T>(xss: seq<seq<T>>, yss: seq<seq<T>>)
    ensures Flatten(xss + yss) == Flatten(xss) + Flatten(yss)
  {
    if xss == [] {
      assert xss + yss == yss;
    } else {
      var head, rest := xss[0], Flatten(xss[1..]);
      FlattenAppend(xss[1..], yss);
      assert xss + yss == [head] + (xss[1..] + yss);
      assert head + (rest + Flatten(yss)) == head + rest + Flatten(yss);
    }
  }

  predicate EndsWith(s: string, c: char) {
    s != [] && s[|s| - 1] == c
  }
}
