/**
 Streaming of a byte window in chunks (src/fs/stream.rs).
 */
module FileStreams {
  import opened Text
  import opened Files

  const DEFAULT_READ_BUF_SIZE: nat := 4_096

  function Max(a: nat, b: nat): nat { if a < b then b else a }
  function Min(a: nat, b: nat): nat { if a < b then a else b }

  /** Zero only for an empty file. */
  function OptimalBufSize(meta: Metadata): (size: nat)
    ensures size <= meta.len
    ensures size == 0 <==> meta.len == 0
    ensures size < meta.len ==> size >= DEFAULT_READ_BUF_SIZE
  {
    Min(Max(meta.blksize, DEFAULT_READ_BUF_SIZE), meta.len)
  }

  /** A file or an in-memory cursor at position `pos`, limited by `take` to positions below `end`. */
  datatype Reader = Reader(data: seq<bv8>, readable: bool, pos: nat, end: nat) {
    predicate Valid() {
      pos <= end && (readable ==> end <= |data|)
    }
  }

  /** What the operating system does with one read call: a (possibly short) read, or an error. */
  datatype ReadOutcome = Short(n: nat) | Failure

  datatype Item = Done | Chunk(data: seq<bv8>) | Error

  /** Number of bytes read: at least one unless nothing can be read, at most what fits. */
  function ReadCount(r: Reader, bufSize: nat, n: nat): (k: nat)
    requires r.Valid()
    ensures k <= bufSize && k <= r.end - r.pos
    ensures k == 0 <==> bufSize == 0 || r.pos == r.end
  {
    var room := Min(bufSize, r.end - r.pos);
    if room == 0 then 0 else Max(1, Min(n, room))
  }

  /** One `poll_next`: the item and the advanced reader. A failed read consumes nothing. */
  function Poll(r: Reader, bufSize: nat, o: ReadOutcome): (next: (Item, Reader))
    requires r.Valid()
    ensures next.1.Valid() && next.1 == r.(pos := next.1.pos) && r.pos <= next.1.pos
    ensures next.0.Chunk? ==> r.readable && next.0.data == r.data[r.pos..next.1.pos] && 0 < |next.0.data| <= bufSize
    ensures !next.0.Chunk? ==> next.1 == r
    ensures next.0.Done? && bufSize > 0 ==> r.pos == r.end
  {
    match o
    case Failure => (Error, r)
    case Short(n) =>
      var k := ReadCount(r, bufSize, n);
      if k == 0 then (Done, r)
      else if !r.readable then (Error, r)
      else (Chunk(r.data[r.pos..r.pos + k]), r.(pos := r.pos + k))
  }

  class FileStream {
    var reader: Reader
    const bufSize: nat

    constructor (reader: Reader, bufSize: nat)
      ensures this.reader == reader && this.bufSize == bufSize
    {
      this.reader := reader;
      this.bufSize := bufSize;
    }

    method PollNext(o: ReadOutcome) returns (item: Item)
      requires reader.Valid()
      modifies this
      ensures (item, reader) == Poll(old(reader), bufSize, o)
    {
      match o
      case Failure =>
        item := Error;
      case Short(n) =>
        var k := ReadCount(reader, bufSize, n);
        if k == 0 {
          item := Done;
        } else if !reader.readable {
          item := Error;
        } else {
          item := Chunk(reader.data[reader.pos..reader.pos + k]);
          reader := reader.(pos := reader.pos + k);
        }
    }
  }

  /** Draining under any short-read schedule ends and yields exactly the window. */
  method Drain(s: FileStream, schedule: nat -> nat) returns (chunks: seq<seq<bv8>>)
    requires s.reader.Valid() && s.reader.readable
    requires s.bufSize > 0 || s.reader.pos == s.reader.end
    modifies s
    ensures Flatten(chunks) == old(s.reader.data[s.reader.pos..s.reader.end])
    ensures forall c :: c in chunks ==> 0 < |c| <= s.bufSize
    ensures |chunks| <= old(s.reader.end - s.reader.pos)
  {
    chunks := [];
    ghost var start := s.reader.pos;
    ghost var all := s.reader.data;
    while true
      invariant s.reader.Valid() && s.reader.readable && s.reader.data == all
      invariant s.reader.end == old(s.reader.end) && start <= s.reader.pos
      invariant s.bufSize > 0 || s.reader.pos == s.reader.end
      invariant Flatten(chunks) == all[start..s.reader.pos]
      invariant forall c :: c in chunks ==> 0 < |c| <= s.bufSize
      invariant |chunks| <= s.reader.pos - start
      decreases s.reader.end - s.reader.pos
    {
      ghost var before := s.reader.pos;
      var item := s.PollNext(Short(schedule(|chunks|)));
      if item.Done? {
        return;
      }
      FlattenAppend(chunks, [item.data]);
      assert Flatten([item.data]) == item.data;
      assert all[start..before] + all[before..s.reader.pos] == all[start..s.reader.pos];
      chunks := chunks + [item.data];
    }
  }
}
