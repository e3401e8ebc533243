/** The download pass at work (client/src/syncer.rs, `check_download_once`). */
module Downloader {
  import opened Octets
  import opened Paths
  import opened Log
  import opened Journals
  import opened Servers
  import opened Registries
  import opened Disks
  import opened Chunking
  import opened Chunkers
  import opened Multipart
  import opened Framing
  import opened Upload
  import opened Syncer
  import opened Forms
  import D = Download

  /** The pieces a body arrives in. */
  type Recut = Bytes -> seq<Bytes>

  ghost predicate IsRecut(recut: Recut) {
    forall body :: Concat(recut(body)) == body
  }

  /** The wire between server and client: the server's boundary and reads, the network's cuts. */
  datatype Wire = Wire(boundary: Text, reading: FileReads, recut: Recut)

  function Arriving(wire: Wire, pieces: seq<Bytes>): seq<Bytes> {
    wire.recut(Concat(pieces))
  }

  lemma WarmedKeys(w: Tree, h: Digest, io: Reads, cache: Blobs, path: Path)
    requires IsDigest(h)
    ensures cache.Keys <= CacheAfter(cache, w, h, path, io).Keys
  {
    if Eligible(path) && path in w.files {
      CachedKeys(cache, h, Chunks(path, w.files[path].content, io), HashSize(path));
    }
  }

  lemma WarmedIntact(t: Tree, h: Digest, io: Reads, known: set<Hashed>, cache: Blobs, path: Path)
    requires IsDigest(h) && AllInPlay(known, t, io)
    ensures StaysIntact(h, known, cache, CacheAfter(cache, t, h, path, io))
  {
    if Eligible(path) && path in t.files {
      CachedIntact(h, known, cache, Chunks(path, t.files[path].content, io), HashSize(path));
    }
  }

  /** The ids of a file that `check_chunk` does not find join the queue. */
  method AskFor(cache: InMemoryCache, chunkIds: Text, queue: seq<Text>) returns (q: seq<Text>)
    ensures q == queue + NonLocalChunks(cache.chunks, chunkIds)
  {
    var ids, i := IdList(chunkIds), 0;
    q := queue;
    assert ids[0..] == ids;
    while i < |ids|
      invariant 0 <= i <= |ids|
      invariant q + Missing(cache.chunks, ids[i..]) == queue + Missing(cache.chunks, ids)
    {
      assert ids[i..][1..] == ids[i + 1..];
      if !IsPresent(cache.chunks, ids[i]) {
        assert q + ([ids[i]] + Missing(cache.chunks, ids[i + 1..])) == q + [ids[i]] + Missing(cache.chunks, ids[i + 1..]);
        q := q + [ids[i]];
      }
      i := i + 1;
    }
    assert q + [] == q;
  }

  lemma StockedMore(cache: Blobs, cache1: Blobs, queue: seq<Text>, queue1: seq<Text>, listing: seq<Record>, n: nat)
    requires n < |listing| && D.Stocked(cache, queue, listing, n)
    requires cache.Keys <= cache1.Keys && queue <= queue1
    requires !listing[n].value.deleted ==> D.Covered(cache1, queue1, listing[n].value.chunkIds)
    ensures D.Stocked(cache1, queue1, listing, n + 1)
  {
    forall i | 0 <= i < n && !listing[i].value.deleted
      ensures D.Covered(cache1, queue1, listing[i].value.chunkIds)
    {
      assert D.Covered(cache, queue, listing[i].value.chunkIds);
    }
  }

  /** The cache and the queue after the chunks of one more file were looked up. */
  lemma AskedMore(cache0: Blobs, cache: Blobs, queue: seq<Text>, listing: seq<Record>, n: nat)
    requires n < |listing| && !listing[n].value.deleted
    requires D.Asked(cache0, queue, listing) && cache0.Keys <= cache.Keys
    ensures var queue1 := queue + NonLocalChunks(cache, listing[n].value.chunkIds);
            D.Asked(cache0, queue1, listing) && D.Covered(cache, queue1, listing[n].value.chunkIds)
  {
    assert listing[n] in listing;
    MissingMeaning(cache, IdList(listing[n].value.chunkIds));
  }

  /** The first loop so far: `c` is the cache, `queue` what is to be fetched. */
  ghost predicate Collected(t: Tree, h: Digest, io: Reads, known: set<Hashed>, c0: Blobs, c: Blobs, queue: seq<Text>,
                            listing: seq<Record>, n: nat)
    requires IsDigest(h) && n <= |listing|
  {
    c0.Keys <= c.Keys && D.Asked(c0, queue, listing) && D.Stocked(c, queue, listing, n) &&
    (AllInPlay(known, t, io) ==> StaysIntact(h, known, c0, c))
  }

  lemma WarmedUp(t: Tree, h: Digest, io: Reads, known: set<Hashed>, c0: Blobs, c: Blobs, queue: seq<Text>,
                 listing: seq<Record>, n: nat, path: Path)
    requires IsDigest(h) && n <= |listing| && Collected(t, h, io, known, c0, c, queue, listing, n)
    ensures Collected(t, h, io, known, c0, CacheAfter(c, t, h, path, io), queue, listing, n)
  {
    var c1 := CacheAfter(c, t, h, path, io);
    WarmedKeys(t, h, io, c, path);
    if AllInPlay(known, t, io) {
      WarmedIntact(t, h, io, known, c, path);
    }
    forall i | 0 <= i < n && !listing[i].value.deleted
      ensures D.Covered(c1, queue, listing[i].value.chunkIds)
    {
      assert D.Covered(c, queue, listing[i].value.chunkIds);
    }
  }

  lemma RecordAsked(t: Tree, h: Digest, io: Reads, known: set<Hashed>, c0: Blobs, c: Blobs, queue: seq<Text>,
                 listing: seq<Record>, n: nat)
    requires IsDigest(h) && n < |listing| && Collected(t, h, io, known, c0, c, queue, listing, n)
    ensures listing[n].value.deleted ==> Collected(t, h, io, known, c0, c, queue, listing, n + 1)
    ensures !listing[n].value.deleted ==>
              Collected(t, h, io, known, c0, c, queue + NonLocalChunks(c, listing[n].value.chunkIds), listing, n + 1)
  {
    if listing[n].value.deleted {
      StockedMore(c, c, queue, queue, listing, n);
    } else {
      AskedMore(c0, c, queue, listing, n);
      StockedMore(c, c, queue, queue + NonLocalChunks(c, listing[n].value.chunkIds), listing, n);
    }
  }

  /** The cache and the queue while needed chunks are collected. */
  datatype Collecting = Collecting(cache: Blobs, queue: seq<Text>)

  /** One record: its old file warms the cache up, and of its chunks those not in the cache are queued. */
  function CollectOne(t: Tree, h: Digest, io: Reads, c: Collecting, d: Record): Collecting
    requires IsDigest(h)
  {
    if d.value.deleted then c
    else
      var cache := if Exists(t, d.path) then CacheAfter(c.cache, t, h, d.path, io) else c.cache;
      Collecting(cache, c.queue + NonLocalChunks(cache, d.value.chunkIds))
  }

  function CollectFirst(t: Tree, h: Digest, io: Reads, cache: Blobs, listing: seq<Record>, n: nat): Collecting
    requires IsDigest(h) && n <= |listing|
  {
    if n == 0 then Collecting(cache, []) else CollectOne(t, h, io, CollectFirst(t, h, io, cache, listing, n - 1), listing[n - 1])
  }

  /** What the pass asks the server for. A chunk that is named twice is asked for twice. */
  function AskedFor(t: Tree, h: Digest, io: Reads, cache: Blobs, listing: seq<Record>): seq<Text>
    requires IsDigest(h)
  {
    CollectFirst(t, h, io, cache, listing, |listing|).queue
  }

  /** The old file of a live record has a chunk with this id. */
  ghost predicate Warms(t: Tree, h: Digest, io: Reads, d: Record, id: Text)
    requires IsDigest(h)
  {
    !d.value.deleted && d.path in t.files && Eligible(d.path) && id in Ids(h, d.path, t.files[d.path].content, io)
  }

  /** So do the old files of one of the first `n` records. */
  ghost predicate WarmedBy(t: Tree, h: Digest, io: Reads, listing: seq<Record>, n: nat, id: Text)
    requires IsDigest(h) && n <= |listing|
  {
    exists j | 0 <= j < n :: Warms(t, h, io, listing[j], id)
  }

  /** The record names a chunk that is neither in the cache nor in an old file up to its own. */
  ghost predicate Lacks(t: Tree, h: Digest, io: Reads, cache: Blobs, listing: seq<Record>, i: nat, id: Text)
    requires IsDigest(h) && i < |listing|
  {
    !listing[i].value.deleted && id in IdList(listing[i].value.chunkIds) && id != [] && id !in cache &&
    !WarmedBy(t, h, io, listing, i + 1, id)
  }

  lemma {:induction false} WarmedOneMore(t: Tree, h: Digest, io: Reads, listing: seq<Record>, n: nat, id: Text)
    requires IsDigest(h) && n < |listing|
    ensures WarmedBy(t, h, io, listing, n + 1, id) <==> WarmedBy(t, h, io, listing, n, id) || Warms(t, h, io, listing[n], id)
  {
  }

  ghost predicate LackedBy(t: Tree, h: Digest, io: Reads, cache: Blobs, listing: seq<Record>, n: nat, id: Text)
    requires IsDigest(h) && n <= |listing|
  {
    exists i | 0 <= i < n :: Lacks(t, h, io, cache, listing, i, id)
  }

  lemma {:induction false} LackedOneMore(t: Tree, h: Digest, io: Reads, cache: Blobs, listing: seq<Record>, n: nat, id: Text)
    requires IsDigest(h) && n < |listing|
    ensures LackedBy(t, h, io, cache, listing, n + 1, id) <==>
            LackedBy(t, h, io, cache, listing, n, id) || Lacks(t, h, io, cache, listing, n, id)
  {
  }

  lemma {:induction false} CollectOneExact(t: Tree, h: Digest, io: Reads, c: Collecting, d: Record, id: Text)
    requires IsDigest(h)
    ensures var c1 := CollectOne(t, h, io, c, d);
            (id in c1.cache <==> id in c.cache || Warms(t, h, io, d, id)) &&
            (id in c1.queue <==>
             id in c.queue || (!d.value.deleted && id in IdList(d.value.chunkIds) && id != [] && id !in c1.cache))
  {
    if !d.value.deleted {
      MissingMeaning(CollectOne(t, h, io, c, d).cache, IdList(d.value.chunkIds));
      if d.path in t.files && Eligible(d.path) {
        CachedExactly(h, c.cache, Chunks(d.path, t.files[d.path].content, io), HashSize(d.path), id);
      }
    }
  }

  lemma {:induction false} NoneBefore(t: Tree, h: Digest, io: Reads, cache: Blobs, listing: seq<Record>, id: Text)
    requires IsDigest(h)
    ensures !WarmedBy(t, h, io, listing, 0, id) && !LackedBy(t, h, io, cache, listing, 0, id)
  {
  }

  lemma {:induction false} CollectedExact(t: Tree, h: Digest, io: Reads, cache: Blobs, listing: seq<Record>, n: nat, id: Text)
    requires IsDigest(h) && n <= |listing|
    ensures var c := CollectFirst(t, h, io, cache, listing, n);
            (id in c.cache <==> id in cache || WarmedBy(t, h, io, listing, n, id)) &&
            (id in c.queue <==> LackedBy(t, h, io, cache, listing, n, id))
  {
    hide CollectOne, Warms, WarmedBy, LackedBy;
    NoneBefore(t, h, io, cache, listing, id);
    if n > 0 {
      CollectedExact(t, h, io, cache, listing, n - 1, id);
      CollectOneExact(t, h, io, CollectFirst(t, h, io, cache, listing, n - 1), listing[n - 1], id);
      WarmedOneMore(t, h, io, listing, n - 1, id);
      LackedOneMore(t, h, io, cache, listing, n - 1, id);
    }
  }

  /**
   A pass asks for exactly the chunks that some listed live file names and that are neither in the cache nor in
   the old file of that path, or of a live path listed before it.
   */
  lemma {:induction false} AskedExact(t: Tree, h: Digest, io: Reads, cache: Blobs, listing: seq<Record>, id: Text)
    requires IsDigest(h)
    ensures id in AskedFor(t, h, io, cache, listing) <==>
            exists i | 0 <= i < |listing| :: Lacks(t, h, io, cache, listing, i, id)
  {
    hide Lacks;
    CollectedExact(t, h, io, cache, listing, |listing|, id);
  }

  /** The old file of the path has all that the record names and the cache lacks. */
  ghost predicate OldFileSuffices(t: Tree, h: Digest, io: Reads, cache: Blobs, d: Record)
    requires IsDigest(h)
  {
    forall id | id in IdList(d.value.chunkIds) && id != [] && id !in cache :: Warms(t, h, io, d, id)
  }

  /** Files that are as recorded, or only lost or repeated chunks, are not downloaded again. */
  lemma {:induction false} NothingAsked(t: Tree, h: Digest, io: Reads, cache: Blobs, listing: seq<Record>)
    requires IsDigest(h) && forall d | d in listing && !d.value.deleted :: OldFileSuffices(t, h, io, cache, d)
    ensures AskedFor(t, h, io, cache, listing) == []
  {
    forall i, id | 0 <= i < |listing|
      ensures !Lacks(t, h, io, cache, listing, i, id)
    {
      assert listing[i] in listing;
    }
    forall id
      ensures id !in AskedFor(t, h, io, cache, listing)
    {
      AskedExact(t, h, io, cache, listing, id);
    }
    HeadIsMember(AskedFor(t, h, io, cache, listing));
  }

  /** In particular a file that already has the recorded content. */
  lemma {:induction false} UnchangedNotAsked(t: Tree, h: Digest, io: Reads, cache: Blobs, d: Record)
    requires IsDigest(h) && d.path in t.files && Eligible(d.path)
    requires d.value == Version(ChunkIds(h, d.path, t.files[d.path].content, io), false)
    ensures AskedFor(t, h, io, cache, [d]) == []
  {
    ChunkIdsDecode(h, d.path, t.files[d.path].content, io);
    NothingAsked(t, h, io, cache, [d]);
  }

  lemma CollectedOne(t: Tree, h: Digest, io: Reads, known: set<Hashed>, c0: Blobs, c: Collecting, listing: seq<Record>, n: nat)
    requires IsDigest(h) && n < |listing| && Collected(t, h, io, known, c0, c.cache, c.queue, listing, n)
    ensures var c1 := CollectOne(t, h, io, c, listing[n]);
            Collected(t, h, io, known, c0, c1.cache, c1.queue, listing, n + 1)
  {
    if !listing[n].value.deleted && Exists(t, listing[n].path) {
      WarmedUp(t, h, io, known, c0, c.cache, c.queue, listing, n, listing[n].path);
      RecordAsked(t, h, io, known, c0, CacheAfter(c.cache, t, h, listing[n].path, io), c.queue, listing, n);
    } else {
      RecordAsked(t, h, io, known, c0, c.cache, c.queue, listing, n);
    }
  }

  lemma CollectedNothing(t: Tree, h: Digest, io: Reads, known: set<Hashed>, c0: Blobs, c: Blobs, queue: seq<Text>,
                         listing: seq<Record>, n: nat)
    requires IsDigest(h) && n <= |listing| && ((c == c0 && queue == []) || Collected(t, h, io, known, c0, c, queue, listing, n))
    ensures Collected(t, h, io, known, c0, c, [], listing, 0)
  {
  }

  /** One turn of the first loop. */
  method CollectRecord(chunker: Chunker, d: Record, queue: seq<Text>) returns (r: Result<seq<Text>>)
    requires chunker.Valid()
    modifies chunker.cache
    ensures r.Ok? <==> D.WarmableOne(chunker.disk.Snapshot(), d)
    ensures r.Ok? ==> Collecting(chunker.cache.chunks, r.value) ==
                      CollectOne(chunker.disk.Snapshot(), chunker.digest, chunker.io, Collecting(old(chunker.cache.chunks), queue), d)
    ensures r.Err? ==> chunker.cache.chunks == old(chunker.cache.chunks) && (r.error == IoError || r.error == UnlistedFileFormat)
  {
    if d.value.deleted {
      return Ok(queue);
    }
    if Exists(chunker.disk.Snapshot(), d.path) {
      var warmed := chunker.Hashify(d.path);
      if warmed.Err? {
        return Err(warmed.error);
      }
    }
    var q := AskFor(chunker.cache, d.value.chunkIds, queue);
    return Ok(q);
  }

  /** The first loop: the old files warm the cache up, and what is then missing is queued. */
  method CollectNeeded(chunker: Chunker, listing: seq<Record>, ghost known: set<Hashed>) returns (r: Result<seq<Text>>)
    requires chunker.Valid()
    modifies chunker.cache
    ensures r.Ok? <==> D.Warmable(chunker.disk.Snapshot(), listing)
    ensures r.Err? ==> r.error == IoError || r.error == UnlistedFileFormat
    ensures r.Ok? ==> Collected(chunker.disk.Snapshot(), chunker.digest, chunker.io, known,
                                old(chunker.cache.chunks), chunker.cache.chunks, r.value, listing, |listing|)
    ensures r.Err? ==> Collected(chunker.disk.Snapshot(), chunker.digest, chunker.io, known,
                                 old(chunker.cache.chunks), chunker.cache.chunks, [], listing, 0)
    ensures r.Ok? ==> Collecting(chunker.cache.chunks, r.value) ==
                      CollectFirst(chunker.disk.Snapshot(), chunker.digest, chunker.io, old(chunker.cache.chunks), listing, |listing|)
    ensures r.Ok? ==> r.value == AskedFor(chunker.disk.Snapshot(), chunker.digest, chunker.io, old(chunker.cache.chunks), listing)
  {
    hide Collected, CollectOne, D.Warmable, D.WarmableOne, D.WarmablePrefix;
    ghost var t, h, io, c0 := chunker.disk.Snapshot(), chunker.digest, chunker.io, chunker.cache.chunks;
    var queue, i := [], 0;
    D.WarmableExact(t, listing);
    CollectedNothing(t, h, io, known, c0, c0, [], listing, 0);
    while i < |listing|
      invariant 0 <= i <= D.WarmablePrefix(t, listing)
      invariant Collected(t, h, io, known, c0, chunker.cache.chunks, queue, listing, i)
      invariant Collecting(chunker.cache.chunks, queue) == CollectFirst(t, h, io, c0, listing, i)
    {
      D.WarmableMeaning(t, listing, i);
      CollectedOne(t, h, io, known, c0, Collecting(chunker.cache.chunks, queue), listing, i);
      CollectedNothing(t, h, io, known, c0, chunker.cache.chunks, queue, listing, i);
      var more := CollectRecord(chunker, listing[i], queue);
      if more.Err? {
        return more;
      }
      queue, i := more.value, i + 1;
    }
    return Ok(queue);
  }

  /** A chunk's name, hexadecimal as it is, fits a header line. */
  lemma HexCarriable(boundary: Text, id: Text)
    requires AllHex(id) && id != []
    ensures Carriable(boundary, id)
  {
    AsciiIsUtf8(id);
    forall i: nat
      ensures !Multipart.At(id, COLON_SPACE, i) && !Multipart.At(id, Delimiter(boundary), i)
    {
      if Multipart.At(id, COLON_SPACE, i) {
        Straddling(id, COLON_SPACE, i, i);
      }
      if Multipart.At(id, Delimiter(boundary), i) {
        TwoDashes(id, boundary, i);
      }
    }
  }

  /** The server's boundary, drawn at random, occurs in none of these chunks. */
  ghost predicate Unmarked(store: Blobs, ids: seq<Text>, boundary: Text) {
    forall id | id in ids && id in store :: Absent(store[id], Delimiter(boundary))
  }

  lemma {:induction false} ServedFramable(h: Digest, known: set<Hashed>, store: Blobs, ids: seq<Text>, boundary: Text)
    requires IsDigest(h) && forall id | id in ids :: Intact(h, known, store, id)
    requires boundary != [] && Alphanumeric(boundary) && Unmarked(store, ids, boundary)
    ensures Framable(boundary, Served(store, ids))
  {
    ServedMembers(store, ids);
    forall p | p in Served(store, ids)
      ensures Carriable(boundary, p.0) && Absent(p.1, Delimiter(boundary))
    {
      assert Intact(h, known, store, p.0);
      HexCarriable(boundary, p.0);
    }
  }

  /** The chunks that arrive go into the cache. */
  method SaveChunks(cache: InMemoryCache, items: seq<Part>)
    modifies cache
    ensures old(cache.chunks).Keys <= cache.chunks.Keys
    ensures (forall p | p in items :: p.0 != []) ==> cache.chunks == PutAll(old(cache.chunks), items)
  {
    var i := 0;
    ghost var named := forall p | p in items :: p.0 != [];
    while i < |items|
      invariant 0 <= i <= |items|
      invariant old(cache.chunks).Keys <= cache.chunks.Keys
      invariant named ==> cache.chunks == PutAll(old(cache.chunks), items[..i])
    {
      assert items[..i + 1] == items[..i] + [items[i]];
      PutAllAppend(old(cache.chunks), items[..i], [items[i]]);
      assert items[i] in items;
      cache.Set(items[i].0, items[i].1);
      i := i + 1;
    }
    assert items[..i] == items;
  }

  /**
   The batch download. A form over the limit is answered 413. When nothing else stands in its way, the
   server's chunks join the cache.
   */
  method FetchChunks(cache: InMemoryCache, store: ChunkStore, queue: seq<Text>, wire: Wire) returns (r: Result<()>)
    requires IsRecut(wire.recut)
    modifies cache
    ensures old(cache.chunks).Keys <= cache.chunks.Keys
    ensures !DownloadFits(queue) ==> r.Err? && cache.chunks == old(cache.chunks)
    ensures DownloadFits(queue) && (forall id | id in queue :: id != [] && id in store.chunks) &&
            Framable(wire.boundary, Served(store.chunks, queue)) ==>
              r.Ok? && cache.chunks == PutAll(old(cache.chunks), Served(store.chunks, queue))
    ensures queue != [] && DownloadFits(queue) && (forall id | id in queue :: id in store.chunks) ==>
              var read := Drain(Body(wire.boundary, Served(store.chunks, queue)), Delimiter(wire.boundary));
              (r.Ok? <==> read.fault.None?) &&
              ((forall p | p in read.items :: p.0 != []) ==> cache.chunks == PutAll(old(cache.chunks), read.items))
    ensures r.Err? ==> r.error == BatchDownloadError || r.error == Unknown
  {
    if queue == [] {
      return Ok(());
    }
    var form := DownloadForm(queue);
    if |form| > FORM_LIMIT {
      return Err(Unknown);
    }
    RequestedBack(queue);
    var pieces, complete := IntoResponse(store.chunks, RequestedChunks(form), wire.boundary, wire.reading);
    var items, fault := DownloadBatch(Arriving(wire, pieces), Delimiter(wire.boundary));
    ServedMembers(store.chunks, queue);
    if complete && Framable(wire.boundary, Served(store.chunks, queue)) {
      BodyReads(wire.boundary, Served(store.chunks, queue));
    }
    SaveChunks(cache, items);
    // A fault is in the body and stops the reader; a body cut short by the server is an error of the network.
    return if fault.Some? then Err(BatchDownloadError) else if !complete then Err(Unknown) else Ok(());
  }

  /** Every live record of the listing has its chunks at hand. */
  ghost predicate AllStocked(blobs: Blobs, listing: seq<Record>) {
    forall d | d in listing && !d.value.deleted :: AllPresent(blobs, d.value.chunkIds)
  }

  lemma {:induction false} PutAllIntact(h: Digest, known: set<Hashed>, cache: Blobs, parts: seq<Part>)
    requires IsDigest(h) && forall p | p in parts :: Names(h, known, p.0, p.1)
    ensures StaysIntact(h, known, cache, PutAll(cache, parts))
    decreases parts
  {
    if parts != [] {
      var cache1 := if parts[0].0 == [] then cache else cache[parts[0].0 := parts[0].1];
      assert StaysIntact(h, known, cache, cache1);
      PutAllIntact(h, known, cache1, parts[1..]);
    }
  }

  lemma {:induction false} FetchedIntact(h: Digest, known: set<Hashed>, cache: Blobs, store: Blobs, queue: seq<Text>)
    requires IsDigest(h) && forall id | id in queue :: Intact(h, known, store, id)
    ensures StaysIntact(h, known, cache, PutAll(cache, Served(store, queue)))
  {
    ServedMembers(store, queue);
    forall p | p in Served(store, queue)
      ensures Names(h, known, p.0, p.1)
    {
      assert Intact(h, known, store, p.0);
    }
    PutAllIntact(h, known, cache, Served(store, queue));
  }

  /** With what was fetched the cache has every chunk the listing names. */
  lemma {:induction false} FetchedStocks(cache: Blobs, store: Blobs, queue: seq<Text>, listing: seq<Record>)
    requires D.Stocked(cache, queue, listing, |listing|)
    requires forall id | id in queue :: id != [] && id in store
    ensures AllStocked(PutAll(cache, Served(store, queue)), listing)
  {
    ServedMembers(store, queue);
    PutAllKeys(cache, Served(store, queue));
    forall d | d in listing && !d.value.deleted
      ensures AllPresent(PutAll(cache, Served(store, queue)), d.value.chunkIds)
    {
      var i :| 0 <= i < |listing| && listing[i] == d;
      assert D.Covered(cache, queue, listing[i].value.chunkIds);
    }
  }

  /** What is asked for is on the server. */
  lemma AskedInStore(cache: Blobs, queue: seq<Text>, listing: seq<Record>, rows: seq<Record>, store: Blobs)
    requires D.Asked(cache, queue, listing) && Referential(rows, store) && forall d | d in listing :: d in rows
    ensures forall id | id in queue :: id != [] && id in store
  {
    forall id | id in queue
      ensures id != [] && id in store
    {
      var d :| d in listing && !d.value.deleted && id in IdList(d.value.chunkIds);
      assert AllPresent(store, d.value.chunkIds);
    }
  }

  /** What is asked for is whole on the server, if all that the listing names is. */
  lemma AskedIntact(h: Digest, known: set<Hashed>, cache: Blobs, queue: seq<Text>, listing: seq<Record>, store: Blobs)
    requires IsDigest(h) && D.Asked(cache, queue, listing) && D.AllIntact(h, known, store, listing)
    ensures forall id | id in queue :: Intact(h, known, store, id)
  {
    forall id | id in queue
      ensures Intact(h, known, store, id)
    {
      var d :| d in listing && !d.value.deleted && id in IdList(d.value.chunkIds);
      assert IntactAll(h, known, store, d.value.chunkIds);
    }
  }

  /** Stores that have a file's chunks under their hashes hold the same file. */
  lemma SameContent(h: Digest, known: set<Hashed>, a: Blobs, b: Blobs, chunkIds: Text)
    requires IsDigest(h) && CollisionFree(h, known) && IntactAll(h, known, a, chunkIds) && IntactAll(h, known, b, chunkIds)
    requires AllPresent(a, chunkIds) && AllPresent(b, chunkIds)
    ensures D.ContentOf(a, chunkIds) == D.ContentOf(b, chunkIds)
  {
    forall id | id in IdList(chunkIds) && id != []
      ensures id in a && id in b && a[id] == b[id]
    {
      assert IsPresent(a, id) && IsPresent(b, id);
      IntactAgree(h, known, a, b, id);
    }
    AssembleAgree(a, b, IdList(chunkIds));
  }

  /** One turn of the last loop: the path is deleted or written, and its row recorded. */
  method LandRecord(client: Client, d: Record, ghost k: D.Shelf, i: nat, now: Time) returns (r: Result<()>)
    requires client.Valid() && k.ns == client.ns && k.blobs == client.chunker.cache.chunks && now == D.TimeAt(k, i)
    modifies client.registry, client.chunker.disk
    ensures client.Valid()
    ensures r.Ok? <==> D.CanLand(old(client.chunker.disk.Snapshot()), d) && (d.value.deleted || AllPresent(k.blobs, d.value.chunkIds))
    ensures r.Ok? ==> D.Landing(client.registry.rows, client.chunker.disk.Snapshot()) ==
                      D.LandOne(k, D.Landing(old(client.registry.rows), old(client.chunker.disk.Snapshot())), d, D.TimeAt(k, i))
    ensures r.Err? && (d.value.deleted || AllPresent(k.blobs, d.value.chunkIds)) ==>
              r.error == IoError &&
              D.Landing(client.registry.rows, client.chunker.disk.Snapshot()) ==
              D.StuckAt(k, D.Landing(old(client.registry.rows), old(client.chunker.disk.Snapshot())), d, D.TimeAt(k, i))
  {
    if d.value.deleted {
      var form := Form(Some(d.id), d.path, true, Meta(0, Truncate(now)), client.ns);
      InsertIncreasing(client.registry.rows, client.ns, d.path, Local(form.jid, form.deleted, form.meta));
      assert Inserted(client.registry.rows, [form]) == InsertForm(client.registry.rows, form);
      client.registry.Delete([form]);
      if Exists(client.chunker.disk.Snapshot(), d.path) {
        var removed := client.chunker.Delete(d.path);
        if removed.Err? {
          return Err(removed.error);
        }
      }
    } else {
      var saved := client.chunker.Save(d.path, IdList(d.value.chunkIds), now);
      if saved.Err? {
        return Err(saved.error);
      }
      var file := client.chunker.disk.files[d.path];
      var form := Form(Some(d.id), d.path, false, Meta(|file.content|, Truncate(file.mtime)), client.ns);
      InsertIncreasing(client.registry.rows, client.ns, d.path, Local(form.jid, form.deleted, form.meta));
      assert Inserted(client.registry.rows, [form]) == InsertForm(client.registry.rows, form);
      client.registry.Create([form]);
    }
    return Ok(());
  }

  /** The first `n` records can land with the chunks at hand. */
  ghost predicate Landable(k: D.Shelf, l: D.Landing, listing: seq<Record>, n: nat)
    requires n <= |listing|
  {
    n > 0 ==>
      Landable(k, l, listing, n - 1) && D.CanLand(D.LandFirst(k, l, listing, n - 1).tree, listing[n - 1]) &&
      (listing[n - 1].value.deleted || AllPresent(k.blobs, listing[n - 1].value.chunkIds))
  }

  lemma {:induction false} LandableMeaning(k: D.Shelf, l: D.Landing, listing: seq<Record>, n: nat)
    requires n <= |listing|
    ensures Landable(k, l, listing, n) <==> D.Lands(k, l, listing, n) && AllStocked(k.blobs, listing[..n])
  {
    if n > 0 {
      LandableMeaning(k, l, listing, n - 1);
      assert listing[..n] == listing[..n - 1] + [listing[n - 1]];
    }
  }

  lemma {:induction false} LandableShorter(k: D.Shelf, l: D.Landing, listing: seq<Record>, n: nat, m: nat)
    requires m <= n <= |listing| && Landable(k, l, listing, n)
    ensures Landable(k, l, listing, m)
  {
    if m < n {
      LandableShorter(k, l, listing, n - 1, m);
    }
  }

  lemma {:induction false} NotFurther(k: D.Shelf, l: D.Landing, listing: seq<Record>, m: nat)
    requires m <= |listing| && !Landable(k, l, listing, m)
    ensures !Landable(k, l, listing, |listing|)
  {
    if Landable(k, l, listing, |listing|) {
      LandableShorter(k, l, listing, |listing|, m);
    }
  }

  /** One turn of the last loop, in terms of the whole listing. */
  method LandNext(client: Client, listing: seq<Record>, i: nat, clock: D.Clock,
                  ghost k: D.Shelf, ghost l0: D.Landing, ghost l: D.Landing)
    returns (r: Result<()>, ghost l1: D.Landing)
    requires client.Valid() && k == D.Shelf(client.ns, client.chunker.cache.chunks, clock)
    requires i < |listing| && Landable(k, l0, listing, i)
    requires D.Landing(client.registry.rows, client.chunker.disk.Snapshot()) == l == D.LandFirst(k, l0, listing, i)
    modifies client.registry, client.chunker.disk
    ensures client.Valid()
    ensures r.Ok? <==> Landable(k, l0, listing, i + 1)
    ensures r.Ok? ==> D.Landing(client.registry.rows, client.chunker.disk.Snapshot()) == l1 == D.LandFirst(k, l0, listing, i + 1)
    ensures r.Err? && AllStocked(k.blobs, listing) ==>
              r.error == IoError && D.FailsAt(k, l0, listing, i) &&
              D.Landing(client.registry.rows, client.chunker.disk.Snapshot()) == D.StuckAt(k, l, listing[i], D.TimeAt(k, i))
  {
    assert listing[i] in listing;
    LandableMeaning(k, l0, listing, i);
    r := LandRecord(client, listing[i], k, i, clock(i));
    l1 := D.Landing(client.registry.rows, client.chunker.disk.Snapshot());
  }

  /** The pass stopped at the first record the disk stood in the way of. */
  ghost predicate Stopped(k: D.Shelf, l0: D.Landing, l: D.Landing, listing: seq<Record>) {
    exists n: nat | n < |listing| ::
      D.FailsAt(k, l0, listing, n) && l == D.StuckAt(k, D.LandFirst(k, l0, listing, n), listing[n], D.TimeAt(k, n))
  }

  /** The last loop. */
  method LandAll(client: Client, listing: seq<Record>, clock: D.Clock, ghost k: D.Shelf, ghost l0: D.Landing)
    returns (r: Result<()>)
    requires client.Valid() && k == D.Shelf(client.ns, client.chunker.cache.chunks, clock)
    requires l0 == D.Landing(client.registry.rows, client.chunker.disk.Snapshot())
    modifies client.registry, client.chunker.disk
    ensures client.Valid()
    ensures r.Ok? <==> Landable(k, l0, listing, |listing|)
    ensures r.Ok? ==> D.Landing(client.registry.rows, client.chunker.disk.Snapshot()) == D.LandFirst(k, l0, listing, |listing|)
    ensures r.Err? && AllStocked(k.blobs, listing) ==>
              r.error == IoError && Stopped(k, l0, D.Landing(client.registry.rows, client.chunker.disk.Snapshot()), listing)
  {
    hide D.LandOne, D.StuckAt, D.FailsAt, AllStocked;
    var i := 0;
    ghost var l := l0;
    while i < |listing|
      invariant 0 <= i <= |listing| && client.Valid()
      invariant k == D.Shelf(client.ns, client.chunker.cache.chunks, clock)
      invariant Landable(k, l0, listing, i)
      invariant D.Landing(client.registry.rows, client.chunker.disk.Snapshot()) == l == D.LandFirst(k, l0, listing, i)
    {
      var landed;
      landed, l := LandNext(client, listing, i, clock, k, l0, l);
      if landed.Err? {
        NotFurther(k, l0, listing, i + 1);
        return landed;
      }
      i := i + 1;
    }
    return Ok(());
  }

  /**
   What the outcome of a pass rests on: no collisions; what the listed files are made of is whole, in the cache
   and on the server; and the boundary occurs in no chunk that is asked for.
   */
  ghost predicate Trusted(h: Digest, io: Reads, known: set<Hashed>, t: Tree, cache: Blobs, store: Blobs, listing: seq<Record>,
                          boundary: Text)
    requires IsDigest(h)
  {
    CollisionFree(h, known) && AllInPlay(known, t, io) &&
    D.AllIntact(h, known, cache, listing) && D.AllIntact(h, known, store, listing) &&
    boundary != [] && Alphanumeric(boundary) && Unmarked(store, AskedFor(t, h, io, cache, listing), boundary)
  }

  /**
   The pass succeeds exactly when the server takes the form that asks for the chunks and the disk has room
   for every listed path, and then all have landed. If the form is too long nothing lands. If there is no
   room for a path, the pass stops before the first such.
   */
  ghost predicate Downloaded(k: D.Shelf, l0: D.Landing, l: D.Landing, listing: seq<Record>, asked: seq<Text>, ok: bool) {
    if !D.Warmable(l0.tree, listing) || !DownloadFits(asked) then !ok && l == l0
    else if D.Lands(k, l0, listing, |listing|) then ok && l == D.LandFirst(k, l0, listing, |listing|)
    else !ok && Stopped(k, l0, l, listing)
  }

  /** Landing from a cache that has all the chunks is landing from the server's store. */
  lemma {:induction false} CacheIsStore(h: Digest, known: set<Hashed>, ns: int, clock: D.Clock, cache: Blobs,
                                        store: Blobs,
                     l0: D.Landing, listing: seq<Record>)
    requires IsDigest(h) && CollisionFree(h, known) && D.AllIntact(h, known, cache, listing) && D.AllIntact(h, known, store, listing)
    requires AllStocked(cache, listing) && AllStocked(store, listing)
    ensures var k, kS, n := D.Shelf(ns, cache, clock), D.Shelf(ns, store, clock), |listing|;
            D.LandFirst(k, l0, listing, n) == D.LandFirst(kS, l0, listing, n) &&
            (Landable(k, l0, listing, n) <==> D.Lands(kS, l0, listing, n))
    ensures forall l :: Stopped(D.Shelf(ns, cache, clock), l0, l, listing) ==> Stopped(D.Shelf(ns, store, clock), l0, l, listing)
  {
    var k, kS, n := D.Shelf(ns, cache, clock), D.Shelf(ns, store, clock), |listing|;
    forall i | 0 <= i < n && !listing[i].value.deleted
      ensures D.ContentOf(cache, listing[i].value.chunkIds) == D.ContentOf(store, listing[i].value.chunkIds)
    {
      assert listing[i] in listing;
      SameContent(h, known, cache, store, listing[i].value.chunkIds);
    }
    D.LandAgree(k, kS, l0, listing, n);
    D.LandsAgree(k, kS, l0, listing, n);
    LandableMeaning(k, l0, listing, n);
    assert listing[..n] == listing;
    forall l | Stopped(k, l0, l, listing)
      ensures Stopped(kS, l0, l, listing)
    {
      var m: nat :| m < n && D.FailsAt(k, l0, listing, m) &&
                    l == D.StuckAt(k, D.LandFirst(k, l0, listing, m), listing[m], D.TimeAt(k, m));
      SameStop(k, kS, l0, listing, m);
    }
  }

  /**
   When a pass succeeds, in terms of the disk, the listing and what is asked for: if nothing stands in the way of
   any record; and on a disk without empty folders exactly if there is room for each.
   */
  ghost predicate Succeeds(t: Tree, listing: seq<Record>, asked: seq<Text>, ok: bool) {
    (D.OldKnown(t, listing) && DownloadFits(asked) && D.Roomy(t, listing) ==> ok) &&
    (ok ==> D.OldKnown(t, listing) && DownloadFits(asked)) &&
    (NoEmptyFolders(t) ==>
       (ok <==> D.OldKnown(t, listing) && DownloadFits(asked) && forall i | 0 <= i < |listing| :: D.Room(t, listing, i)))
  }

  lemma {:induction false} DownloadedExact(k: D.Shelf, l0: D.Landing, l: D.Landing, listing: seq<Record>, asked: seq<Text>, ok: bool)
    requires Increasing(l0.rows) && WellFormed(l0.tree) && Downloaded(k, l0, l, listing, asked, ok)
    requires forall i, j | 0 <= i < j < |listing| :: listing[i].path != listing[j].path
    ensures Succeeds(l0.tree, listing, asked, ok)
  {
    hide D.OldKnown, D.Warmable, D.Roomy, D.Room, DownloadFits, D.LandFirst;
    D.OldKnownExact(l0.tree, listing);
    if D.Roomy(l0.tree, listing) {
      D.RoomyLands(k, l0, listing, |listing|);
    }
    if NoEmptyFolders(l0.tree) {
      D.LandsExact(k, l0, listing, |listing|);
    }
  }

  lemma {:induction false} ListingSucceeds(k: D.Shelf, l0: D.Landing, journal: seq<Record>, user: int,
                                           listing: seq<Record>, asked: seq<Text>)
    requires Increasing(journal) && Lists(listing, Newer(journal, user, Watermark(l0.rows, k.ns)))
    requires Increasing(l0.rows) && WellFormed(l0.tree)
    ensures forall l, ok | Downloaded(k, l0, l, listing, asked, ok) :: Succeeds(l0.tree, listing, asked, ok)
  {
    hide Downloaded, Succeeds;
    ListingPathsDistinct(journal, user, Watermark(l0.rows, k.ns), listing);
    forall l, ok | Downloaded(k, l0, l, listing, asked, ok)
      ensures Succeeds(l0.tree, listing, asked, ok)
    {
      DownloadedExact(k, l0, l, listing, asked, ok);
    }
  }

  lemma {:induction false} SameStop(a: D.Shelf, b: D.Shelf, l0: D.Landing, listing: seq<Record>, m: nat)
    requires a.ns == b.ns && a.clock == b.clock && D.FailsAt(a, l0, listing, m)
    requires forall i | 0 <= i < |listing| && !listing[i].value.deleted ::
               D.ContentOf(a.blobs, listing[i].value.chunkIds) == D.ContentOf(b.blobs, listing[i].value.chunkIds)
    ensures D.FailsAt(b, l0, listing, m)
    ensures var time := D.TimeAt(a, m);
            D.StuckAt(a, D.LandFirst(a, l0, listing, m), listing[m], time) ==
            D.StuckAt(b, D.LandFirst(b, l0, listing, m), listing[m], D.TimeAt(b, m))
  {
    D.LandAgree(a, b, l0, listing, m);
    D.LandsAgree(a, b, l0, listing, m);
  }

  lemma RecordsStocked(rows: seq<Record>, store: Blobs, listing: seq<Record>)
    requires Referential(rows, store) && forall d | d in listing :: d in rows
    ensures AllStocked(store, listing)
  {
  }

  /** The fetch, when all is trusted: the cache has every chunk the listing names, under its hash. */
  method Stock(client: Client, server: Server, listing: seq<Record>, queue: seq<Text>, wire: Wire,
               ghost known: set<Hashed>, ghost c0: Blobs) returns (r: Result<()>)
    requires client.Valid() && server.Valid() && IsRecut(wire.recut)
    requires forall d | d in listing :: d in server.journal.rows
    requires Collected(client.chunker.disk.Snapshot(), client.chunker.digest, client.chunker.io, known,
                       c0, client.chunker.cache.chunks, queue, listing, |listing|)
    requires queue == AskedFor(client.chunker.disk.Snapshot(), client.chunker.digest, client.chunker.io, c0, listing)
    modifies client.chunker.cache
    ensures r.Err? ==> r.error == BatchDownloadError || r.error == Unknown
    ensures Trusted(client.chunker.digest, client.chunker.io, known, client.chunker.disk.Snapshot(), c0,
                    server.store.chunks, listing, wire.boundary) ==>
              (r.Ok? <==> DownloadFits(queue)) && (r.Ok? ==> AllStocked(client.chunker.cache.chunks, listing)) &&
              StaysIntact(client.chunker.digest, known, c0, client.chunker.cache.chunks)
  {
    ghost var h, store, c1 := client.chunker.digest, server.store.chunks, client.chunker.cache.chunks;
    AskedInStore(c0, queue, listing, server.journal.rows, store);
    if Trusted(h, client.chunker.io, known, client.chunker.disk.Snapshot(), c0, store, listing, wire.boundary) {
      AskedIntact(h, known, c0, queue, listing, store);
      ServedFramable(h, known, store, queue, wire.boundary);
      FetchedIntact(h, known, c1, store, queue);
      FetchedStocks(c1, store, queue, listing);
    }
    r := FetchChunks(client.chunker.cache, server.store, queue, wire);
  }

  /**
   `check_download_once`. When all is trusted, the pass fails only where the disk stands in its way or the
   server refuses the form; when it succeeds, registry and disk are as if every listed record had been
   applied from the server's own store. A chunk is never missing from the cache.
   */
  method CheckDownloadOnce(client: Client, server: Server, wire: Wire, clock: D.Clock, ghost known: set<Hashed>)
    returns (r: Result<bool>, ghost listing: seq<Record>)
    requires client.Valid() && server.Valid() && IsRecut(wire.recut)
    modifies client.registry, client.chunker.cache, client.chunker.disk
    ensures client.Valid()
    ensures Lists(listing, Newer(server.journal.rows, client.user, Watermark(old(client.registry.rows), client.ns)))
    ensures r.Ok? ==> r.value == (listing != [])
    ensures Trusted(client.chunker.digest, client.chunker.io, known, old(client.chunker.disk.Snapshot()),
                    old(client.chunker.cache.chunks), server.store.chunks, listing, wire.boundary) ==>
              StaysIntact(client.chunker.digest, known, old(client.chunker.cache.chunks), client.chunker.cache.chunks) &&
              Downloaded(D.Shelf(client.ns, server.store.chunks, clock),
                         D.Landing(old(client.registry.rows), old(client.chunker.disk.Snapshot())),
                         D.Landing(client.registry.rows, client.chunker.disk.Snapshot()), listing,
                         AskedFor(old(client.chunker.disk.Snapshot()), client.chunker.digest, client.chunker.io,
                                  old(client.chunker.cache.chunks), listing), r.Ok?) &&
              (r.Err? ==> r.error != GetFromCacheError)
    ensures Trusted(client.chunker.digest, client.chunker.io, known, old(client.chunker.disk.Snapshot()),
                    old(client.chunker.cache.chunks), server.store.chunks, listing, wire.boundary) ==>
              Succeeds(old(client.chunker.disk.Snapshot()), listing,
                       AskedFor(old(client.chunker.disk.Snapshot()), client.chunker.digest, client.chunker.io,
                                old(client.chunker.cache.chunks), listing), r.Ok?)
  {
    hide Succeeds, D.LandFirst, D.Lands, AskedFor;
    ghost var h, store, c0 := client.chunker.digest, server.store.chunks, client.chunker.cache.chunks;
    ghost var l0 := D.Landing(client.registry.rows, client.chunker.disk.Snapshot());
    var latestLocal := Watermark(client.registry.rows, client.ns);
    var toDownload := server.journal.List(client.user, latestLocal);
    listing := toDownload;
    ListingSucceeds(D.Shelf(client.ns, store, clock), l0, server.journal.rows, client.user, listing,
                    AskedFor(l0.tree, h, client.chunker.io, c0, listing));
    RecordsStocked(server.journal.rows, store, listing);
    var needed := CollectNeeded(client.chunker, toDownload, known);
    if needed.Err? {
      return Err(needed.error), listing;
    }
    var fetched := Stock(client, server, toDownload, needed.value, wire, known, c0);
    if fetched.Err? {
      return Err(fetched.error), listing;
    }
    ghost var c2 := client.chunker.cache.chunks;
    if Trusted(h, client.chunker.io, known, l0.tree, c0, store, listing, wire.boundary) {
      D.StaysAllIntact(h, known, c0, c2, listing);
      CacheIsStore(h, known, client.ns, clock, c2, store, l0, listing);
    }
    var landed := LandAll(client, toDownload, clock, D.Shelf(client.ns, c2, clock), l0);
    if landed.Err? {
      return Err(landed.error), listing;
    }
    return Ok(toDownload != []), listing;
  }
}
