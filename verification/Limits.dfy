/** What the server's limits mean for files: which can be committed, sent and fetched, and which cannot. */
module Limits {
  import opened Octets
  import opened Paths
  import opened Log
  import opened Journals
  import opened Servers
  import opened Registries
  import opened Disks
  import opened Chunking
  import opened Indexers
  import opened Forms
  import opened Batches
  import opened Upload
  import opened Downloader
  import D = Download
  import UploadRuns

  lemma {:induction false} HashesPlain(h: Digest, chunks: seq<Bytes>, size: nat)
    requires IsDigest(h) && size <= 64
    ensures forall id | id in HashAll(h, chunks, size) :: |id| == size && AllPlain(id)
  {
    forall id | id in HashAll(h, chunks, size)
      ensures |id| == size && AllPlain(id)
    {
      var i :| 0 <= i < |chunks| && HashAll(h, chunks, size)[i] == id;
      assert AllHex(Hash(h, chunks[i], size));
    }
  }

  /**
   A file's commit form is as long as its path and the number of its chunks make it: 13 bytes for a line,
   35 for a block.
   */
  lemma FileFormLength(h: Digest, path: Path, content: Bytes, io: Reads)
    requires IsDigest(h) && content != []
    ensures |CommitForm(path, false, ChunkIds(h, path, content, io))| ==
            27 + (HashSize(path) + 3) * |Chunks(path, content, io)| + |Encoded(Slashed(path))|
  {
    ChunksLossless(path, content, io);
    CommitFormLength(path, false, ChunkIds(h, path, content, io));
    HashesPlain(h, Chunks(path, content, io), HashSize(path));
    JoinedLength(Ids(h, path, content, io), HashSize(path));
  }

  /** A text file can be committed if and only if it has not too many lines. */
  lemma {:induction false} TextFits(h: Digest, path: Path, content: Bytes, io: Reads)
    requires IsDigest(h) && IsText(path) && content != []
    ensures CommitFits(path, false, ChunkIds(h, path, content, io)) <==>
            13 * |Lines(content)| + |Encoded(Slashed(path))| <= 1_048_549
  {
    FileFormLength(h, path, content, io);
  }

  function Newlines(n: nat): Bytes {
    seq(n, _ => LF)
  }

  lemma {:induction false} NewlinesLines(n: nat)
    ensures |Lines(Newlines(n))| == n
    ensures forall line | line in Lines(Newlines(n)) :: line == [LF]
  {
    if n > 0 {
      NewlinesLines(n - 1);
      assert LineLength(Newlines(n)) == 1;
      assert Newlines(n)[1..] == Newlines(n - 1);
      assert Newlines(n)[..1] == [LF];
    }
  }

  /** A disk with one file on it, which the registry does not know yet. */
  function OneFile(p: Path, content: Bytes, mtime: Time): Tree {
    Tree(map[p := File(content, mtime)], {[]})
  }

  /** A file of 80,658 lines, were they empty, stops every upload run. */
  lemma LongFileBlocks(h: Digest, io: Reads, store: Blobs, user: int, ns: int, stat: Stat, stem: Name, n: nat, mtime: Time)
    requires IsDigest(h) && stem != [] && DOT !in stem && n >= 80_658
    ensures var t := OneFile(Markdown(stem), Newlines(n), mtime);
            WellFormed(t) && UploadRuns.Blocked([], Setting(t, h, io, store, user, ns), stat)
  {
    var p := Markdown(stem);
    var w := Setting(OneFile(p, Newlines(n), mtime), h, io, store, user, ns);
    MarkdownSeen(stem);
    NewlinesLines(n);
    TextFits(h, p, Newlines(n), io);
    assert p in Scan(w.tree, stat);
    assert UploadRuns.Intended(w, stat, p) == Version(ChunkIds(h, p, Newlines(n), io), false);
    assert Pending([], ns, Scan(w.tree, stat), p) && UploadRuns.Unofferable(w, stat, p);
  }

  /** And so does a folder with the name of a recipe. */
  lemma FolderBlocks(h: Digest, io: Reads, store: Blobs, user: int, ns: int, stat: Stat, stem: Name)
    requires IsDigest(h) && stem != [] && DOT !in stem
    ensures var t := Tree(map[], {[], Markdown(stem)});
            WellFormed(t) && UploadRuns.Blocked([], Setting(t, h, io, store, user, ns), stat)
  {
    var p := Markdown(stem);
    var w := Setting(Tree(map[], {[], p}), h, io, store, user, ns);
    MarkdownSeen(stem);
    assert p in Scan(w.tree, stat);
    assert Pending([], ns, Scan(w.tree, stat), p) && UploadRuns.Unofferable(w, stat, p);
  }

  lemma {:induction false} NoneThere(store: Blobs, ids: seq<Text>)
    requires forall id | id in ids :: !IsPresent(store, id)
    ensures Missing(store, ids) == ids
  {
    if ids != [] {
      NoneThere(store, ids[1..]);
      assert ids[0] in ids && ids == [ids[0]] + ids[1..];
    }
  }

  /** What a client asks for whose cache is empty and whose disk does not have the file. */
  lemma FreshAsks(h: Digest, io: Reads, t: Tree, d: Record, path: Path, content: Bytes)
    requires IsDigest(h) && content != [] && d.path == path && !Exists(t, path)
    requires d.value == Version(ChunkIds(h, path, content, io), false)
    ensures AskedFor(t, h, io, map[], [d]) == Ids(h, path, content, io)
  {
    ChunkIdsDecode(h, path, content, io);
    HashesPlain(h, Chunks(path, content, io), HashSize(path));
    NoneThere(map[], Ids(h, path, content, io));
    assert CollectFirst(t, h, io, map[], [d], 0) == Collecting(map[], []);
    assert [] + Ids(h, path, content, io) == Ids(h, path, content, io);
  }

  /** All the ids of a file of empty lines are the same. */
  lemma NewlineIds(h: Digest, io: Reads, path: Path, n: nat)
    requires IsDigest(h) && IsText(path)
    ensures |Ids(h, path, Newlines(n), io)| == n
    ensures forall id | id in Ids(h, path, Newlines(n), io) :: id == Hash(h, [LF], TEXT_HASH_SIZE)
  {
    NewlinesLines(n);
    var chunks, ids := Lines(Newlines(n)), Ids(h, path, Newlines(n), io);
    forall id | id in ids
      ensures id == Hash(h, [LF], TEXT_HASH_SIZE)
    {
      var i :| 0 <= i < |ids| && ids[i] == id;
      assert chunks[i] in chunks;
    }
  }

  /**
   There are files that are committed and never fetched: one of 38,837 to 80,000 empty lines fits a commit
   form, and is accepted by a server that has the chunk of an empty line; it does not fit the download form of
   a client that has none of its chunks. Its pass fails, and nothing of it lands.
   */
  lemma CommittedNotFetched(h: Digest, io: Reads, stem: Name, n: nat, t: Tree, id: nat, user: int,
                            journal: seq<Record>, store: Blobs, k: D.Shelf, l0: D.Landing, l: D.Landing, ok: bool)
    requires IsDigest(h) && stem != [] && DOT !in stem && |Encoded(Slashed(Markdown(stem)))| <= 1_000
    requires 38_837 <= n <= 80_000 && !Exists(t, Markdown(stem)) && Hash(h, [LF], TEXT_HASH_SIZE) in store
    ensures var v := Version(ChunkIds(h, Markdown(stem), Newlines(n), io), false);
            var listing := [Row(id, user, Markdown(stem), v)];
            CommitFits(Markdown(stem), false, v.chunkIds) &&
            CommitStep(journal, store, user, Markdown(stem), v).answer.Success? &&
            !DownloadFits(AskedFor(t, h, io, map[], listing)) &&
            (Downloaded(k, l0, l, listing, AskedFor(t, h, io, map[], listing), ok) ==> !ok && l == l0)
  {
    var p, content := Markdown(stem), Newlines(n);
    MarkdownSeen(stem);
    NewlinesLines(n);
    TextFits(h, p, content, io);
    FreshAsks(h, io, t, Row(id, user, p, Version(ChunkIds(h, p, content, io), false)), p, content);
    HashesPlain(h, Chunks(p, content, io), HashSize(p));
    NewlineIds(h, io, p, n);
    ChunkIdsDecode(h, p, content, io);
    CommitRefusal(journal, store, user, p, Version(ChunkIds(h, p, content, io), false));
    DownloadFormBounds(Ids(h, p, content, io));
  }

  lemma {:induction false} FilledSmall(parts: seq<Part>)
    requires Payload(parts) <= MAX_UPLOAD_SIZE
    ensures Filled(parts) == Queue([parts], Payload(parts))
  {
    if parts != [] {
      var n := |parts| - 1;
      FilledSmall(parts[..n]);
      assert parts == parts[..n] + [parts[n]];
    }
  }

  lemma {:induction false} TotalSnoc(parts: seq<Part>, p: Part)
    ensures Total(parts + [p]) == Total(parts) + |p.1|
  {
    if parts == [] {
      assert parts + [p] == [p];
    } else {
      assert (parts + [p])[1..] == parts[1..] + [p];
      TotalSnoc(parts[1..], p);
    }
  }

  lemma {:induction false} PayloadIsTotal(parts: seq<Part>)
    ensures Payload(parts) == Total(parts)
  {
    if parts != [] {
      var n := |parts| - 1;
      PayloadIsTotal(parts[..n]);
      TotalSnoc(parts[..n], parts[n]);
      assert parts == parts[..n] + [parts[n]];
    }
  }

  lemma {:induction false} EvenTotal(parts: seq<Part>, data: nat)
    requires forall p | p in parts :: |p.1| == data
    ensures Total(parts) == data * |parts|
  {
    if parts != [] {
      EvenTotal(parts[1..], data);
      OneMoreTimes(data, |parts|);
    }
  }

  ghost predicate DistinctIds(parts: seq<Part>) {
    forall i, j | 0 <= i < |parts| && 0 <= j < |parts| && parts[i].0 == parts[j].0 :: i == j
  }

  lemma {:induction false} EvenBatch(parts: seq<Part>, data: nat)
    requires data * |parts| <= MAX_UPLOAD_SIZE && forall p | p in parts :: |p.1| == data
    ensures Filled(parts).batches == [parts]
  {
    PayloadIsTotal(parts);
    EvenTotal(parts, data);
    FilledSmall(parts);
  }

  lemma {:induction false} ManyLinesLong(parts: seq<Part>)
    requires 29_290 <= |parts| && forall p | p in parts :: |p.0| == 10 && |p.1| == 20
    ensures DelimitedLength(parts) > DATA_FORM_LIMIT
  {
    SmallPartsLength(parts, 10, 20);
  }

  /**
   The client's limit counts payload only, the server's cap counts all. From 29,290 to 150,000 new lines of
   twenty bytes make one batch, and on a network that cuts nothing the server still does not take it whole.
   */
  lemma {:induction false} ManyLinesOverCap(parts: seq<Part>, net: Network)
    requires 29_290 <= |parts| <= 150_000 && forall p | p in parts :: |p.0| == 10 && |p.1| == 20
    requires DistinctIds(parts) && Reliable(net)
    ensures Filled(parts).batches == [parts] && !Gets([parts], net)
  {
    EvenBatch(parts, 20);
    ManyLinesLong(parts);
    SentOnceGets([parts], net);
    assert [parts][0] == parts;
  }

  /** Where a cut falls in a batch of equally long parts. */
  lemma {:induction false} CutAfterEven(batch: seq<Part>, left: nat, before: nat, size: nat, k: nat)
    requires forall p | p in batch :: PartLength(p) == size
    requires k <= |batch| && left >= size * k + BOUNDARY_LENGTH + 2
    ensures CutAfter(batch, left, before) == CutAfter(batch[k..], left - size * k, before + k)
    decreases k
  {
    hide CutAfter;
    if k == 0 {
      assert batch[0..] == batch;
    } else {
      OneMoreTimes(size, k);
      CutAfterOne(batch, left, before, size);
      assert batch[1..][k - 1..] == batch[k..];
      CutAfterEven(batch[1..], left - size, before + 1, size, k - 1);
    }
  }

  lemma CutAfterOne(batch: seq<Part>, left: nat, before: nat, size: nat)
    requires batch != [] && forall p | p in batch :: PartLength(p) == size
    requires left >= size + BOUNDARY_LENGTH + 2
    ensures CutAfter(batch, left, before) == CutAfter(batch[1..], left - size, before + 1)
    ensures forall p | p in batch[1..] :: PartLength(p) == size
  {
    assert batch[0] in batch && batch == [batch[0]] + batch[1..];
  }

  /** Lines that are equal are sent as often as they occur. */
  ghost predicate Repeats(parts: seq<Part>, id: nat, data: nat) {
    |parts| > 0 && |parts[0].0| == id && |parts[0].1| == data && forall p | p in parts :: p == parts[0]
  }

  /**
   From 29,290 to 150,000 equal new lines of twenty bytes also make one batch over the cap. It is cut in a
   header, the server answers with success, and has what it needs.
   */
  lemma {:induction false} EqualLinesGet(parts: seq<Part>, net: Network)
    requires 29_290 <= |parts| <= 150_000 && Repeats(parts, 10, 20) && Reliable(net)
    ensures Filled(parts).batches == [parts] && EndOf(net, 0, parts) == CutInHeader(29_289) && Gets([parts], net)
  {
    EvenBatch(parts, 20);
    ManyLinesLong(parts);
    CutAfterEven(parts, DATA_FORM_LIMIT, 0, 179, 29_289);
    assert parts[29_289] in parts;
    assert Arrived(parts, EndOf(net, 0, parts))[0] == parts[0];
    assert [parts][0] == parts;
    assert Brought([parts], net, 0, parts[0].0);
  }

  /** More than 32,767 equal new empty lines are cut inside one of them, and with it the server loses them all. */
  lemma {:induction false} EqualLinesLost(store: Blobs, parts: seq<Part>, net: Network)
    requires 32_768 <= |parts| <= MAX_UPLOAD_SIZE && Repeats(parts, 10, 1) && Reliable(net) && parts[0].0 !in store
    ensures Filled(parts).batches == [parts] && SendAll(store, [parts], net) == Sent(store, false)
  {
    EvenBatch(parts, 1);
    SmallPartsLength(parts, 10, 1);
    CutAfterEven(parts, DATA_FORM_LIMIT, 0, 160, 32_767);
    assert parts[32_767] in parts;
    var end := EndOf(net, 0, parts);
    assert end == CutInField(32_767) && Aborted(parts, end) == Some(parts[0].0);
    var stored := PutAll(store, Arrived(parts, end));
    assert forall p | p in Arrived(parts, end) :: p in parts;
    PutAllSame(store, Arrived(parts, end), parts[0]);
    assert stored - {parts[0].0} == store;
    assert SendFirst(store, [parts], net, 0) == Sent(store, true) && [parts][0] == parts;
  }

  lemma {:induction false} PutAllSame(store: Blobs, parts: seq<Part>, part: Part)
    requires forall p | p in parts :: p == part
    ensures PutAll(store, parts) == store || PutAll(store, parts) == store[part.0 := part.1]
    decreases parts
  {
    if parts != [] {
      assert parts[0] in parts && forall p | p in parts[1..] :: p in parts;
      PutAllSame(if part.0 == [] then store else store[part.0 := part.1], parts[1..], part);
    }
  }

  lemma {:induction false} CachedSame(h: Digest, cache: Blobs, chunks: seq<Bytes>, size: nat, chunk: Bytes)
    requires IsDigest(h) && size <= 64 && forall c | c in chunks :: c == chunk
    requires chunks != [] || (Hash(h, chunk, size) in cache && cache[Hash(h, chunk, size)] == chunk)
    ensures var cached := Cached(cache, h, chunks, size);
            Hash(h, chunk, size) in cached && cached[Hash(h, chunk, size)] == chunk
    decreases chunks
  {
    if chunks != [] {
      assert chunks[0] in chunks && forall c | c in chunks[1..] :: c in chunks;
      CachedSame(h, cache[Hash(h, chunks[0], size) := chunks[0]], chunks[1..], size, chunk);
    }
  }

  /** What a pass wants for a file of empty lines, when the server has none: one and the same chunk for each line. */
  lemma NewlinesWanted(w: Setting, s: Progress, f: FileRecord, n: nat)
    requires IsDigest(w.h) && !f.value.deleted && IsText(f.path) && Eligible(f.path) && f.path in w.tree.files
    requires w.tree.files[f.path].content == Newlines(n) && n > 0 && Hash(w.h, [LF], TEXT_HASH_SIZE) !in w.store
    ensures var s1 := UploadOne(w, s, f);
            s1.rows == s.rows && s1.journal == s.journal && !s1.all && |s1.wanted| == |s.wanted| + n && s.wanted <= s1.wanted &&
            forall i | |s.wanted| <= i < |s1.wanted| :: s1.wanted[i] == (Hash(w.h, [LF], TEXT_HASH_SIZE), [LF])
  {
    var id, content, cache := Hash(w.h, [LF], TEXT_HASH_SIZE), Newlines(n), WarmedFor(w, s.cache, f);
    var ids := Ids(w.h, f.path, content, w.io);
    NewlineIds(w.h, w.io, f.path, n);
    NewlinesLines(n);
    CachedSame(w.h, s.cache, Chunks(f.path, content, w.io), TEXT_HASH_SIZE, [LF]);
    ChunkIdsDecode(w.h, f.path, content, w.io);
    NoneThere(w.store, ids);
    CommitRefusal(s.journal, w.store, w.user, f.path, Offered(w, f));
    FetchedParts(cache, ids);
    forall i | 0 <= i < n
      ensures Fetched(cache, ids)[i] == (id, [LF])
    {
      assert ids[i] in ids;
    }
  }

  /**
   A file of at least 32,768 empty lines can be offered, and yet a client that has nothing else to send never
   gets it to a server that has no empty line: its run fails on the best of networks, and leaves the store and
   both tables as they were, for the next run to begin the same way.
   */
  lemma EmptyLinesNeverSent(w: Setting, s0: Progress, f: FileRecord, n: nat, first: Network, second: Network)
    requires Begun(w, s0) && UpdatedLocally(s0.rows, w.ns) == [f] && !f.value.deleted
    requires IsText(f.path) && Eligible(f.path) && f.path in w.tree.files && w.tree.files[f.path].content == Newlines(n)
    requires n >= 32_768 && 13 * n + |Encoded(Slashed(f.path))| <= 1_048_549
    requires Hash(w.h, [LF], TEXT_HASH_SIZE) !in w.store && Reliable(first)
    ensures Uploadable(w, s0.rows)
    ensures var o := UploadRuns.Twice(w, s0, first, second);
            !o.ok && o.store == w.store && o.end.rows == s0.rows && o.end.journal == s0.journal
  {
    var toUpload := [f];
    NewlinesLines(n);
    TextFits(w.h, f.path, Newlines(n), w.io);
    NewlinesWanted(w, s0, f, n);
    assert OfferablePrefix(w, toUpload) == 1 by {
      assert toUpload[1..] == [];
    }
    assert UploadFirst(w, s0, toUpload, 0) == s0;
    var wanted := Pass(w, s0).wanted;
    assert wanted == UploadOne(w, s0, f).wanted;
    EqualLinesLost(w.store, wanted, first);
  }

  lemma {:induction false} BatchPayload(batch: seq<Part>, before: nat)
    requires (Closed(batch) || Payload(batch) <= MAX_UPLOAD_SIZE) && forall p | p in batch :: |p.1| <= before
    ensures Payload(batch) <= MAX_UPLOAD_SIZE + before
  {
    if Closed(batch) {
      assert batch[|batch| - 1] in batch;
    }
  }

  lemma {:induction false} OneModestFits(batch: seq<Part>)
    requires (Closed(batch) || Payload(batch) <= MAX_UPLOAD_SIZE) && |batch| <= 6_500
    requires forall p | p in batch :: |p.0| <= BINARY_HASH_SIZE && |p.1| <= BINARY_CHUNK_SIZE
    ensures DelimitedLength(batch) <= DATA_FORM_LIMIT
  {
    BatchPayload(batch, BINARY_CHUNK_SIZE);
    PayloadIsTotal(batch);
    FewPartsLength(batch);
  }

  lemma {:induction false} FilledBatch(parts: seq<Part>, i: nat)
    requires i < |Filled(parts).batches|
    ensures var batch := Filled(parts).batches[i];
            (Closed(batch) || Payload(batch) <= MAX_UPLOAD_SIZE) && forall p | p in batch :: p in parts
  {
    FilledHolds(parts);
    var batches := Filled(parts).batches;
    forall p | p in batches[i]
      ensures p in parts
    {
      ConcatExact(batches, p);
    }
    assert i < |batches| - 1 ==> batches[..|batches| - 1][i] == batches[i];
  }

  /** Batches of at most 6,500 chunks, none above 1 MiB, are always within the cap. */
  lemma {:induction false} ModestBatchesFit(parts: seq<Part>)
    requires forall p | p in parts :: |p.0| <= BINARY_HASH_SIZE && |p.1| <= BINARY_CHUNK_SIZE
    requires forall i | 0 <= i < |Filled(parts).batches| :: |Filled(parts).batches[i]| <= 6_500
    ensures AllFit(Filled(parts).batches)
  {
    forall i | 0 <= i < |Filled(parts).batches|
      ensures DelimitedLength(Filled(parts).batches[i]) <= DATA_FORM_LIMIT
    {
      FilledBatch(parts, i);
      OneModestFits(Filled(parts).batches[i]);
    }
  }
}
