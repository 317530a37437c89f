/**
 The in-memory cache store and the stream that fills it (src/mem_cache/stream.rs).
 */
module MemCache {
  import opened Wrappers
  import opened Paths
  import opened FileStreams
  import opened Responses

  type Store = map<Path, MemFile>

  /** One `poll_next` on a body: the item, the body afterwards and the store afterwards. */
  function PollBody(body: Body, store: Store, o: ReadOutcome): (r: (Item, Body, Store))
    requires body.Streamed? && body.reader.Valid()
    ensures r.1.Streamed? && r.1.reader.Valid() && r.1.bufSize == body.bufSize
    ensures (r.0, r.1.reader) == Poll(body.reader, body.bufSize, o)
    ensures r.2 != store ==> body.tee.Some? && r.0.Chunk?
  {
    var (item, reader) := Poll(body.reader, body.bufSize, o);
    if item.Chunk? && body.tee.Some? && body.tee.value.buf.Some? then
      var tee := body.tee.value;
      var filled := tee.buf.value + item.data;
      if |filled| == tee.capacity
      then (item,
            body.(reader := reader, tee := Some(tee.(buf := None))),
            store[tee.key := MemFile(filled, body.bufSize, tee.contentType, tee.lastModified)])
      else (item, body.(reader := reader, tee := Some(tee.(buf := Some(filled)))), store)
    else (item, body.(reader := reader), store)
  }

  /** `CACHE_STORE`, shared by all streams. */
  class CacheStore {
    var entries: Store

    constructor ()
      ensures entries == map[]
    {
      entries := map[];
    }

    method Put(key: Path, file: MemFile)
      modifies this
      ensures entries == old(entries)[key := file]
    {
      entries := entries[key := file];
    }
  }

  class MemCacheFileStream {
    var reader: Reader
    const bufSize: nat
    var tee: Option<Tee>

    constructor (reader: Reader, bufSize: nat, tee: Option<Tee>)
      ensures this.reader == reader && this.bufSize == bufSize && this.tee == tee
    {
      this.reader := reader;
      this.bufSize := bufSize;
      this.tee := tee;
    }

    function Body(): (b: Body)
      reads this
    {
      Streamed(reader, bufSize, tee)
    }

    method PollNext(store: CacheStore, o: ReadOutcome) returns (item: Item)
      requires reader.Valid()
      modifies this, store
      ensures (item, Body(), store.entries) == PollBody(old(Body()), old(store.entries), o)
    {
      match o {
        case Failure =>
          item := Error;
        case Short(n) =>
          var k := ReadCount(reader, bufSize, n);
          if k == 0 {
            item := Done;
          } else if !reader.readable {
            item := Error;
          } else {
            var chunk := reader.data[reader.pos..reader.pos + k];
            reader := reader.(pos := reader.pos + k);
            if tee.Some? && tee.value.buf.Some? {
              tee := Some(tee.value.(buf := Some(tee.value.buf.value + chunk)));
              if |tee.value.buf.value| == tee.value.capacity {
                var data := tee.value.buf.value;
                tee := Some(tee.value.(buf := None));
                store.Put(tee.value.key, MemFile(data, bufSize, tee.value.contentType, tee.value.lastModified));
              }
            }
            item := Chunk(chunk);
          }
      }
    }
  }
}
