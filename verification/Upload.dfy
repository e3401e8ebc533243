/** The upload pass as a function of the states it meets (client/src/syncer.rs, `check_upload_once`). */
module Upload {
  import opened Octets
  import opened Paths
  import opened Log
  import opened Journals
  import opened Servers
  import opened Registries
  import opened Disks
  import opened Chunking
  import opened Chunkers
  import opened Forms

  const MAX_UPLOAD_SIZE: nat := 3_000_000

  function Payload(batch: seq<Part>): nat {
    if batch == [] then 0 else Payload(batch[..|batch| - 1]) + |batch[|batch| - 1].1|
  }

  /** The batches being filled, and the payload of the last one. */
  datatype Queue = Queue(batches: seq<seq<Part>>, size: nat)

  const EMPTY_QUEUE := Queue([[]], 0)

  /** `last.push(..)`, with a new batch begun once the limit is passed. */
  function Push(q: Queue, part: Part): Queue
    requires q.batches != []
  {
    var n := |q.batches| - 1;
    var filled := q.batches[n := q.batches[n] + [part]];
    if q.size + |part.1| > MAX_UPLOAD_SIZE then Queue(filled + [[]], 0)
    else Queue(filled, q.size + |part.1|)
  }

  /** A batch that was closed: over the limit of three million bytes, but not without its last chunk. */
  ghost predicate Closed(batch: seq<Part>) {
    batch != [] && Payload(batch) > 3_000_000 && Payload(batch[..|batch| - 1]) <= 3_000_000
  }

  ghost predicate AllClosed(batches: seq<seq<Part>>) {
    forall i | 0 <= i < |batches| :: Closed(batches[i])
  }

  /** The batches hold the parts in order; all but the last are closed, and the last is within the limit. */
  ghost predicate Holds(q: Queue, parts: seq<Part>) {
    q.batches != [] && Concat(q.batches) == parts &&
    q.size == Payload(q.batches[|q.batches| - 1]) <= 3_000_000 &&
    AllClosed(q.batches[..|q.batches| - 1])
  }

  lemma {:induction false} OpenHolds(before: seq<seq<Part>>, last: seq<Part>, parts: seq<Part>)
    requires AllClosed(before) && Concat(before + [last]) == parts && Payload(last) <= MAX_UPLOAD_SIZE
    ensures Holds(Queue(before + [last], Payload(last)), parts)
  {
    var batches := before + [last];
    assert batches[|batches| - 1] == last && batches[..|batches| - 1] == before;
  }

  lemma {:induction false} ClosedHolds(before: seq<seq<Part>>, last: seq<Part>, parts: seq<Part>)
    requires AllClosed(before) && Closed(last) && Concat(before + [last]) == parts
    ensures Holds(Queue(before + [last] + [[]], 0), parts)
  {
    ConcatSnoc(before + [last], []);
    OneMoreClosed(before, last);
    OpenHolds(before + [last], [], parts);
  }

  lemma OneMoreClosed(before: seq<seq<Part>>, last: seq<Part>)
    requires AllClosed(before) && Closed(last)
    ensures AllClosed(before + [last])
  {
  }

  lemma LastReplaced<T>(s: seq<T>, x: T)
    requires s != []
    ensures s[|s| - 1 := x] == s[..|s| - 1] + [x]
  {
  }

  lemma LastDropped<T>(s: seq<T>, x: T)
    ensures (s + [x])[..|s|] == s
  {
  }

  /** Pushing a chunk loses none, reorders none, and keeps the size bounds. */
  lemma PushHolds(q: Queue, parts: seq<Part>, part: Part)
    requires Holds(q, parts)
    ensures Holds(Push(q, part), parts + [part])
  {
    var n := |q.batches| - 1;
    var last, before := q.batches[n] + [part], q.batches[..n];
    assert q.batches == before + [q.batches[n]];
    LastGrows(before, q.batches[n], part);
    LastReplaced(q.batches, last);
    LastDropped(q.batches[n], part);
    if q.size + |part.1| > MAX_UPLOAD_SIZE {
      ClosedHolds(before, last, parts + [part]);
    } else {
      OpenHolds(before, last, parts + [part]);
    }
  }

  lemma {:induction false} LastGrows(before: seq<seq<Part>>, batch: seq<Part>, part: Part)
    ensures Concat(before + [batch + [part]]) == Concat(before + [batch]) + [part]
  {
    ConcatSnoc(before, batch);
    ConcatSnoc(before, batch + [part]);
  }

  /** The queue after the parts have been pushed, one by one. */
  function Filled(parts: seq<Part>): (q: Queue)
    ensures q.batches != []
  {
    if parts == [] then EMPTY_QUEUE else Push(Filled(parts[..|parts| - 1]), parts[|parts| - 1])
  }

  lemma {:induction false} FilledHolds(parts: seq<Part>)
    ensures Holds(Filled(parts), parts)
  {
    if parts != [] {
      var n := |parts| - 1;
      FilledHolds(parts[..n]);
      PushHolds(Filled(parts[..n]), parts[..n], parts[n]);
      assert parts[..n] + [parts[n]] == parts;
    }
  }

  /** What an upload pass looks at and does not change. */
  datatype Setting = Setting(tree: Tree, h: Digest, io: Reads, store: Blobs, user: int, ns: int)

  /** Whether `hashify` would succeed, or is not needed. */
  predicate Hashable(w: Setting, f: FileRecord) {
    f.value.deleted || (Eligible(f.path) && f.path in w.tree.files)
  }

  /** What the client asks the server to record for a row. */
  function Offered(w: Setting, f: FileRecord): Version
    requires IsDigest(w.h)
  {
    if f.value.deleted || f.path !in w.tree.files then Version([], f.value.deleted)
    else Version(ChunkIds(w.h, f.path, w.tree.files[f.path].content, w.io), false)
  }

  /** The server accepts: it has every chunk of the offer. */
  ghost predicate Accepted(w: Setting, f: FileRecord)
    requires IsDigest(w.h)
  {
    AllPresent(w.store, Offered(w, f).chunkIds)
  }

  /** `hashify` would succeed, and the commit form is one the server takes. */
  predicate Offerable(w: Setting, f: FileRecord)
    requires IsDigest(w.h)
  {
    Hashable(w, f) && CommitFits(f.path, f.value.deleted, Offered(w, f).chunkIds)
  }

  datatype Progress = Progress(rows: seq<FileRecord>, cache: Blobs, journal: seq<Record>, wanted: seq<Part>, all: bool)

  /** The chunks read back from the cache for the ids the server asked for. */
  function Fetched(cache: Blobs, ids: seq<Text>): seq<Part> {
    if ids == [] then [] else Fetched(cache, ids[..|ids| - 1]) + [Fetch(cache, ids[|ids| - 1])]
  }

  function Fetch(cache: Blobs, id: Text): Part {
    (id, if id != [] && id in cache then cache[id] else [])
  }

  function WarmedFor(w: Setting, cache: Blobs, f: FileRecord): Blobs
    requires IsDigest(w.h)
  {
    if f.value.deleted then cache else CacheAfter(cache, w.tree, w.h, f.path, w.io)
  }

  /** One row offered to the server. */
  function UploadOne(w: Setting, s: Progress, f: FileRecord): Progress
    requires IsDigest(w.h)
  {
    var cache := WarmedFor(w, s.cache, f);
    var c := CommitStep(s.journal, w.store, w.user, f.path, Offered(w, f));
    match c.answer
    case Success(jid) => s.(cache := cache, journal := c.rows, rows := JidSet(s.rows, f.id, jid))
    case NeedChunks(ids) => s.(cache := cache, wanted := s.wanted + Fetched(cache, IdList(ids)), all := false)
  }

  function UploadFirst(w: Setting, s: Progress, toUpload: seq<FileRecord>, n: nat): Progress
    requires IsDigest(w.h) && n <= |toUpload|
  {
    if n == 0 then s else UploadOne(w, UploadFirst(w, s, toUpload, n - 1), toUpload[n - 1])
  }

  /** Rows that `updated_locally` gives: the newest of their path, awaiting a jid. */
  ghost predicate Awaiting(rows: seq<FileRecord>, ns: int, toUpload: seq<FileRecord>) {
    (forall i | 0 <= i < |toUpload| ::
       toUpload[i].path in View(rows, ns) && View(rows, ns)[toUpload[i].path] == toUpload[i] && toUpload[i].value.jid.None?) &&
    (forall i, j | 0 <= i < j < |toUpload| :: toUpload[i].path != toUpload[j].path)
  }

  /** The row is committed: the journal's newest record of the path is the offer, and the row bears its id. */
  ghost predicate Settled(w: Setting, s: Progress, f: FileRecord)
    requires IsDigest(w.h)
  {
    f.path in View(s.journal, w.user) && View(s.journal, w.user)[f.path].value == Offered(w, f) &&
    f.path in View(s.rows, w.ns) && View(s.rows, w.ns)[f.path] == WithJid(f, View(s.journal, w.user)[f.path].id)
  }

  /** The row waits: unchanged, with every chunk the server lacks on its way. */
  ghost predicate Waiting(w: Setting, s: Progress, f: FileRecord)
    requires IsDigest(w.h)
  {
    f.path in View(s.rows, w.ns) && View(s.rows, w.ns)[f.path] == f &&
    forall id | id in IdList(Offered(w, f).chunkIds) && !IsPresent(w.store, id) :: exists p | p in s.wanted :: p.0 == id
  }

  /** What becomes of a row depends only on what the store held when the pass began. */
  ghost predicate Fate(w: Setting, s: Progress, f: FileRecord)
    requires IsDigest(w.h)
  {
    if Accepted(w, f) then Settled(w, s, f) else Waiting(w, s, f)
  }

  /** The path of none of the first `n` rows. */
  predicate OtherPath(toUpload: seq<FileRecord>, n: nat, p: Path)
    requires n <= |toUpload|
  {
    forall i | 0 <= i < n :: toUpload[i].path != p
  }

  /** The two views differ at most at the paths of the first `n` rows. */
  ghost predicate KeptElsewhere<V(!new)>(m0: map<Path, Row<V>>, m: map<Path, Row<V>>, toUpload: seq<FileRecord>, n: nat)
    requires n <= |toUpload|
  {
    forall p | OtherPath(toUpload, n, p) :: (p in m <==> p in m0) && (p in m ==> m[p] == m0[p])
  }

  /** After `n` rows, each has met its fate; nothing else in either table moved. */
  ghost predicate UploadedTo(w: Setting, s0: Progress, s: Progress, toUpload: seq<FileRecord>, n: nat)
    requires IsDigest(w.h) && n <= |toUpload|
  {
    (forall i | 0 <= i < n :: Fate(w, s, toUpload[i])) &&
    KeptElsewhere(View(s0.rows, w.ns), View(s.rows, w.ns), toUpload, n) &&
    KeptElsewhere(View(s0.journal, w.user), View(s.journal, w.user), toUpload, n) &&
    (s.all <==> s0.all && forall i | 0 <= i < n :: Accepted(w, toUpload[i]))
  }

  /** The tables stay tables, and what is wanted is missing from the store. */
  ghost predicate Sane(w: Setting, s0: Progress, s: Progress) {
    Increasing(s.rows) && Evolves(s0.rows, s.rows) && |s.rows| == |s0.rows| &&
    Increasing(s.journal) && s0.journal <= s.journal && Referential(s.journal, w.store) &&
    (forall u | u != w.user :: View(s.journal, u) == View(s0.journal, u)) &&
    s0.cache.Keys <= s.cache.Keys &&
    (forall p | p in s.wanted :: p.0 != [] && p.0 !in w.store && p.0 in s.cache)
  }

  lemma {:induction false} FetchedParts(cache: Blobs, ids: seq<Text>)
    ensures |Fetched(cache, ids)| == |ids|
    ensures forall i | 0 <= i < |ids| :: Fetched(cache, ids)[i] == Fetch(cache, ids[i])
  {
    if ids != [] {
      FetchedParts(cache, ids[..|ids| - 1]);
    }
  }

  /** `hashify` leaves every chunk it names in the cache, so reading a requested one back cannot fail. */
  lemma {:induction false} CachedKeys(cache: Blobs, h: Digest, chunks: seq<Bytes>, size: nat)
    requires IsDigest(h) && size <= 64
    ensures cache.Keys <= Cached(cache, h, chunks, size).Keys
    ensures forall id | id in HashAll(h, chunks, size) :: id in Cached(cache, h, chunks, size)
    decreases chunks
  {
    if chunks != [] {
      CachedKeys(cache[Hash(h, chunks[0], size) := chunks[0]], h, chunks[1..], size);
      assert HashAll(h, chunks, size) == [Hash(h, chunks[0], size)] + HashAll(h, chunks[1..], size);
    }
  }

  lemma OfferInCache(w: Setting, cache: Blobs, f: FileRecord)
    requires IsDigest(w.h) && Hashable(w, f)
    ensures cache.Keys <= WarmedFor(w, cache, f).Keys
    ensures forall id | id in IdList(Offered(w, f).chunkIds) && id != [] :: id in WarmedFor(w, cache, f)
  {
    if !f.value.deleted {
      var content := w.tree.files[f.path].content;
      ChunkIdsDecode(w.h, f.path, content, w.io);
      CachedKeys(cache, w.h, Chunks(f.path, content, w.io), HashSize(f.path));
    }
  }

  lemma {:induction false} NewestById(rows: seq<FileRecord>, ns: int, f: FileRecord)
    requires Increasing(rows) && f.path in View(rows, ns) && View(rows, ns)[f.path] == f
    ensures forall r | r in rows && r.id == f.id :: r == f
    ensures forall p | p in View(rows, ns) && View(rows, ns)[p].id == f.id :: p == f.path
  {
    ViewMeaning(rows, ns);
    forall r | r in rows && r.id == f.id
      ensures r == f
    {
      UniqueIds(rows, r, f);
    }
  }

  /** Setting the jid of the newest row of a path shows there and nowhere else. */
  lemma {:induction false} JidShows(rows: seq<FileRecord>, ns: int, f: FileRecord, jid: nat)
    requires Increasing(rows) && f.path in View(rows, ns) && View(rows, ns)[f.path] == f
    ensures View(JidSet(rows, f.id, jid), ns) == View(rows, ns)[f.path := WithJid(f, jid)]
  {
    ViewJidSet(rows, f.id, jid, ns);
    NewestById(rows, ns, f);
  }

  lemma JidEvolves(rows0: seq<FileRecord>, rows: seq<FileRecord>, f: FileRecord, jid: nat)
    requires Increasing(rows)
    requires Evolves(rows0, rows) && f.value.jid.None? && forall r | r in rows && r.id == f.id :: r == f
    ensures Evolves(rows0, JidSet(rows, f.id, jid)) && Increasing(JidSet(rows, f.id, jid))
  {
    var rows1 := JidSet(rows, f.id, jid);
    forall i | 0 <= i < |rows0|
      ensures rows1[i] == rows0[i] ||
              (rows0[i].value.jid.None? && rows1[i].value.jid.Some? && rows1[i] == WithJid(rows0[i], rows1[i].value.jid.value))
    {
      assert rows[i] in rows;
    }
  }

  /** The next row is still as the pass found it. */
  lemma NextUntouched(w: Setting, s0: Progress, s: Progress, toUpload: seq<FileRecord>, n: nat)
    requires IsDigest(w.h) && n < |toUpload|
    requires Awaiting(s0.rows, w.ns, toUpload) && UploadedTo(w, s0, s, toUpload, n)
    ensures toUpload[n].path in View(s.rows, w.ns) && View(s.rows, w.ns)[toUpload[n].path] == toUpload[n]
  {
    assert OtherPath(toUpload, n, toUpload[n].path);
  }

  lemma FateKept(w: Setting, s: Progress, s1: Progress, f: FileRecord)
    requires IsDigest(w.h) && Fate(w, s, f) && s.wanted <= s1.wanted
    requires f.path in View(s.rows, w.ns) ==>
               f.path in View(s1.rows, w.ns) && View(s1.rows, w.ns)[f.path] == View(s.rows, w.ns)[f.path]
    requires f.path in View(s.journal, w.user) ==>
               f.path in View(s1.journal, w.user) && View(s1.journal, w.user)[f.path] == View(s.journal, w.user)[f.path]
    ensures Fate(w, s1, f)
  {
    if !Accepted(w, f) {
      forall id | id in IdList(Offered(w, f).chunkIds) && !IsPresent(w.store, id)
        ensures exists p | p in s1.wanted :: p.0 == id
      {
        var p :| p in s.wanted && p.0 == id;
        assert p in s1.wanted;
      }
    }
  }

  /** At most the entry of `p` is another. */
  ghost predicate Moved<V(!new)>(m: map<Path, Row<V>>, m1: map<Path, Row<V>>, p: Path) {
    m1 == m || (p in m1 && m1 == m[p := m1[p]])
  }

  lemma KeptMore<V(!new)>(m0: map<Path, Row<V>>, m: map<Path, Row<V>>, m1: map<Path, Row<V>>,
                          toUpload: seq<FileRecord>, n: nat)
    requires n < |toUpload| && KeptElsewhere(m0, m, toUpload, n) && Moved(m, m1, toUpload[n].path)
    ensures KeptElsewhere(m0, m1, toUpload, n + 1)
  {
    forall p | OtherPath(toUpload, n + 1, p)
      ensures (p in m1 <==> p in m0) && (p in m1 ==> m1[p] == m0[p])
    {
      assert OtherPath(toUpload, n, p) && p != toUpload[n].path;
    }
  }

  /** Rows of other paths keep the fates they have met. */
  lemma {:induction false} FatesKept(w: Setting, s: Progress, s1: Progress, toUpload: seq<FileRecord>, n: nat)
    requires IsDigest(w.h) && n < |toUpload| && s.wanted <= s1.wanted
    requires forall i, j | 0 <= i < j < |toUpload| :: toUpload[i].path != toUpload[j].path
    requires forall i | 0 <= i < n :: Fate(w, s, toUpload[i])
    requires Moved(View(s.rows, w.ns), View(s1.rows, w.ns), toUpload[n].path)
    requires Moved(View(s.journal, w.user), View(s1.journal, w.user), toUpload[n].path)
    ensures forall i | 0 <= i < n :: Fate(w, s1, toUpload[i])
  {
    forall i | 0 <= i < n
      ensures Fate(w, s1, toUpload[i])
    {
      assert toUpload[i].path != toUpload[n].path;
      FateKept(w, s, s1, toUpload[i]);
    }
  }

  /** Both tables may move at the row's own path; then the row's fate is all there is to show. */
  lemma OneMore(w: Setting, s0: Progress, s: Progress, s1: Progress, toUpload: seq<FileRecord>, n: nat)
    requires IsDigest(w.h) && n < |toUpload|
    requires Awaiting(s0.rows, w.ns, toUpload) && UploadedTo(w, s0, s, toUpload, n)
    requires Moved(View(s.rows, w.ns), View(s1.rows, w.ns), toUpload[n].path)
    requires Moved(View(s.journal, w.user), View(s1.journal, w.user), toUpload[n].path)
    requires s.wanted <= s1.wanted && s1.all == (s.all && Accepted(w, toUpload[n])) && Fate(w, s1, toUpload[n])
    ensures UploadedTo(w, s0, s1, toUpload, n + 1)
  {
    KeptMore(View(s0.rows, w.ns), View(s.rows, w.ns), View(s1.rows, w.ns), toUpload, n);
    KeptMore(View(s0.journal, w.user), View(s.journal, w.user), View(s1.journal, w.user), toUpload, n);
    FatesKept(w, s, s1, toUpload, n);
  }

  lemma AcceptedOne(w: Setting, s0: Progress, s: Progress, toUpload: seq<FileRecord>, n: nat)
    requires IsDigest(w.h) && n < |toUpload| && Accepted(w, toUpload[n]) && Hashable(w, toUpload[n])
    requires Awaiting(s0.rows, w.ns, toUpload) && Sane(w, s0, s) && UploadedTo(w, s0, s, toUpload, n)
    ensures var s1 := UploadOne(w, s, toUpload[n]);
            Sane(w, s0, s1) && UploadedTo(w, s0, s1, toUpload, n + 1)
  {
    var f := toUpload[n];
    NextUntouched(w, s0, s, toUpload, n);
    AcceptedSane(w, s0, s, f);
    CommitRefusal(s.journal, w.store, w.user, f.path, Offered(w, f));
    CommitEffect(s.journal, w.store, w.user, f.path, Offered(w, f));
    JidShows(s.rows, w.ns, f, CommitStep(s.journal, w.store, w.user, f.path, Offered(w, f)).answer.jid);
    OneMore(w, s0, s, UploadOne(w, s, f), toUpload, n);
  }

  lemma AcceptedSane(w: Setting, s0: Progress, s: Progress, f: FileRecord)
    requires IsDigest(w.h) && Accepted(w, f) && Hashable(w, f) && Sane(w, s0, s)
    requires f.path in View(s.rows, w.ns) && View(s.rows, w.ns)[f.path] == f && f.value.jid.None?
    ensures Sane(w, s0, UploadOne(w, s, f))
  {
    var offer := Offered(w, f);
    CommitRefusal(s.journal, w.store, w.user, f.path, offer);
    CommitEffect(s.journal, w.store, w.user, f.path, offer);
    CommitKeeps(s.journal, w.store, w.user, f.path, offer);
    var c := CommitStep(s.journal, w.store, w.user, f.path, offer);
    NewestById(s.rows, w.ns, f);
    JidEvolves(s0.rows, s.rows, f, c.answer.jid);
    OfferInCache(w, s.cache, f);
  }

  lemma {:induction false} FetchedIds(cache: Blobs, ids: seq<Text>)
    ensures forall p | p in Fetched(cache, ids) :: p.0 in ids
    ensures forall id | id in ids :: exists p | p in Fetched(cache, ids) :: p.0 == id
  {
    FetchedParts(cache, ids);
    var parts := Fetched(cache, ids);
    forall id | id in ids
      ensures exists p | p in parts :: p.0 == id
    {
      var i :| 0 <= i < |ids| && ids[i] == id;
      assert parts[i] in parts;
    }
  }

  /** The ids a refusal asks for: those of the offer that the store lacks, all of them in the cache. */
  lemma RefusalAsks(w: Setting, s: Progress, f: FileRecord)
    requires IsDigest(w.h) && !Accepted(w, f) && Hashable(w, f)
    ensures var c := CommitStep(s.journal, w.store, w.user, f.path, Offered(w, f));
            c.answer.NeedChunks? &&
            (forall id :: id in IdList(c.answer.ids) <==> id in IdList(Offered(w, f).chunkIds) && !IsPresent(w.store, id)) &&
            forall id | id in IdList(c.answer.ids) :: id != [] && id !in w.store && id in WarmedFor(w, s.cache, f)
  {
    CommitRefusal(s.journal, w.store, w.user, f.path, Offered(w, f));
    MissingMeaning(w.store, IdList(Offered(w, f).chunkIds));
    OfferInCache(w, s.cache, f);
  }

  /** What a refusal adds to the wanted chunks. */
  lemma RefusalWants(w: Setting, s: Progress, f: FileRecord)
    requires IsDigest(w.h) && !Accepted(w, f) && Hashable(w, f)
    ensures s.wanted <= UploadOne(w, s, f).wanted
    ensures forall p | p in UploadOne(w, s, f).wanted && p !in s.wanted ::
              p.0 != [] && p.0 !in w.store && p.0 in WarmedFor(w, s.cache, f)
    ensures forall id | id in IdList(Offered(w, f).chunkIds) && !IsPresent(w.store, id) ::
              exists p | p in UploadOne(w, s, f).wanted :: p.0 == id
  {
    RefusalAsks(w, s, f);
    var ids := IdList(CommitStep(s.journal, w.store, w.user, f.path, Offered(w, f)).answer.ids);
    var more := Fetched(WarmedFor(w, s.cache, f), ids);
    FetchedIds(WarmedFor(w, s.cache, f), ids);
    forall id | id in ids
      ensures exists p | p in s.wanted + more :: p.0 == id
    {
      var p :| p in more && p.0 == id;
      assert p in s.wanted + more;
    }
  }

  lemma RefusedOne(w: Setting, s0: Progress, s: Progress, toUpload: seq<FileRecord>, n: nat)
    requires IsDigest(w.h) && n < |toUpload| && !Accepted(w, toUpload[n]) && Hashable(w, toUpload[n])
    requires Awaiting(s0.rows, w.ns, toUpload) && Sane(w, s0, s) && UploadedTo(w, s0, s, toUpload, n)
    ensures var s1 := UploadOne(w, s, toUpload[n]);
            Sane(w, s0, s1) && UploadedTo(w, s0, s1, toUpload, n + 1)
  {
    NextUntouched(w, s0, s, toUpload, n);
    RefusalAsks(w, s, toUpload[n]);
    RefusalWants(w, s, toUpload[n]);
    OfferInCache(w, s.cache, toUpload[n]);
    OneMore(w, s0, s, UploadOne(w, s, toUpload[n]), toUpload, n);
  }

  lemma OneUploaded(w: Setting, s0: Progress, s: Progress, toUpload: seq<FileRecord>, n: nat)
    requires IsDigest(w.h) && n < |toUpload| && Hashable(w, toUpload[n])
    requires Awaiting(s0.rows, w.ns, toUpload) && Sane(w, s0, s) && UploadedTo(w, s0, s, toUpload, n)
    ensures var s1 := UploadOne(w, s, toUpload[n]);
            Sane(w, s0, s1) && UploadedTo(w, s0, s1, toUpload, n + 1)
  {
    if Accepted(w, toUpload[n]) {
      AcceptedOne(w, s0, s, toUpload, n);
    } else {
      RefusedOne(w, s0, s, toUpload, n);
    }
  }

  /** A chunk the server asks for has just been put in the cache by `hashify`. */
  lemma WantedInCache(w: Setting, s: Progress, f: FileRecord)
    requires IsDigest(w.h) && Hashable(w, f)
    ensures var c := CommitStep(s.journal, w.store, w.user, f.path, Offered(w, f));
            c.answer.NeedChunks? ==> forall id | id in IdList(c.answer.ids) :: IsPresent(WarmedFor(w, s.cache, f), id)
  {
    CommitRefusal(s.journal, w.store, w.user, f.path, Offered(w, f));
    OfferInCache(w, s.cache, f);
  }

  /** At every step up to the `n`-th row the tables stay sane and the rows so far have met their fates. */
  ghost predicate OnCourse(w: Setting, s0: Progress, toUpload: seq<FileRecord>, n: nat)
    requires IsDigest(w.h) && n <= |toUpload|
  {
    (n > 0 ==> OnCourse(w, s0, toUpload, n - 1)) &&
    Sane(w, s0, UploadFirst(w, s0, toUpload, n)) && UploadedTo(w, s0, UploadFirst(w, s0, toUpload, n), toUpload, n)
  }

  lemma {:induction false} CourseBegins(w: Setting, s0: Progress, toUpload: seq<FileRecord>)
    requires IsDigest(w.h) && Increasing(s0.rows) && Increasing(s0.journal) && Referential(s0.journal, w.store)
    requires s0.wanted == []
    ensures OnCourse(w, s0, toUpload, 0)
  {
  }

  lemma CourseGoesOn(w: Setting, s0: Progress, toUpload: seq<FileRecord>, n: nat)
    requires IsDigest(w.h) && n < |toUpload| && Hashable(w, toUpload[n]) && Awaiting(s0.rows, w.ns, toUpload)
    requires OnCourse(w, s0, toUpload, n)
    ensures OnCourse(w, s0, toUpload, n + 1)
  {
    OneUploaded(w, s0, UploadFirst(w, s0, toUpload, n), toUpload, n);
  }

  /** Rows that can be hashed go through one by one. */
  lemma {:induction false} UploadReaches(w: Setting, s0: Progress, toUpload: seq<FileRecord>, n: nat)
    requires IsDigest(w.h) && Increasing(s0.rows) && Increasing(s0.journal) && Referential(s0.journal, w.store)
    requires s0.wanted == [] && Awaiting(s0.rows, w.ns, toUpload)
    requires n <= |toUpload| && forall i | 0 <= i < n :: Hashable(w, toUpload[i])
    ensures OnCourse(w, s0, toUpload, n)
  {
    if n == 0 {
      CourseBegins(w, s0, toUpload);
    } else {
      UploadReaches(w, s0, toUpload, n - 1);
      CourseGoesOn(w, s0, toUpload, n - 1);
    }
  }

  /** How many rows an upload pass gets through before one cannot be offered. */
  function OfferablePrefix(w: Setting, toUpload: seq<FileRecord>): (n: nat)
    requires IsDigest(w.h)
    ensures n <= |toUpload|
  {
    if toUpload == [] || !Offerable(w, toUpload[0]) then 0 else 1 + OfferablePrefix(w, toUpload[1..])
  }

  lemma {:induction false} PrefixMeaning(w: Setting, toUpload: seq<FileRecord>, n: nat)
    requires IsDigest(w.h) && n < |toUpload| && n <= OfferablePrefix(w, toUpload)
    ensures Offerable(w, toUpload[n]) <==> n < OfferablePrefix(w, toUpload)
  {
    if n > 0 {
      PrefixMeaning(w, toUpload[1..], n - 1);
    }
  }

  lemma UpdatedLocallyAwaits(rows: seq<FileRecord>, ns: int)
    requires Increasing(rows)
    ensures Awaiting(rows, ns, UpdatedLocally(rows, ns))
  {
    UpdatedLocallyShape(rows, ns);
    var toUpload := UpdatedLocally(rows, ns);
    forall i | 0 <= i < |toUpload|
      ensures toUpload[i].path in View(rows, ns) && View(rows, ns)[toUpload[i].path] == toUpload[i] && toUpload[i].value.jid.None?
    {
      QueriesAreView(rows, ns, toUpload[i]);
      assert toUpload[i] in toUpload;
    }
  }

  /** Everything that awaits a jid can be offered. */
  ghost predicate Uploadable(w: Setting, rows: seq<FileRecord>)
    requires IsDigest(w.h)
  {
    forall f | f in UpdatedLocally(rows, w.ns) :: Offerable(w, f)
  }

  /** What a pass may start from. */
  ghost predicate Begun(w: Setting, s: Progress) {
    IsDigest(w.h) && Increasing(s.rows) && Increasing(s.journal) && Referential(s.journal, w.store) &&
    s.wanted == [] && s.all
  }

  /** The state a whole pass ends in, its chunks not yet sent. The row it stops at has been hashed, if it could be. */
  function Pass(w: Setting, s: Progress): Progress
    requires IsDigest(w.h)
  {
    var toUpload := UpdatedLocally(s.rows, w.ns);
    StoppedAt(w, UploadFirst(w, s, toUpload, OfferablePrefix(w, toUpload)), toUpload)
  }

  function StoppedAt(w: Setting, s: Progress, toUpload: seq<FileRecord>): Progress
    requires IsDigest(w.h)
  {
    var n := OfferablePrefix(w, toUpload);
    if n < |toUpload| then s.(cache := WarmedFor(w, s.cache, toUpload[n])) else s
  }

  lemma {:induction false} UploadablePrefix(w: Setting, rows: seq<FileRecord>)
    requires IsDigest(w.h)
    ensures var toUpload := UpdatedLocally(rows, w.ns); Uploadable(w, rows) <==> OfferablePrefix(w, toUpload) == |toUpload|
  {
    var toUpload := UpdatedLocally(rows, w.ns);
    var n := OfferablePrefix(w, toUpload);
    if n < |toUpload| {
      PrefixMeaning(w, toUpload, n);
      assert toUpload[n] in toUpload;
    } else {
      forall f | f in toUpload
        ensures Offerable(w, f)
      {
        var i :| 0 <= i < |toUpload| && toUpload[i] == f;
        PrefixMeaning(w, toUpload, i);
      }
    }
  }

  /** A pass stays on course, up to the first row that cannot be hashed. */
  lemma {:induction false} PassOnCourse(w: Setting, s: Progress)
    requires Begun(w, s)
    ensures var toUpload := UpdatedLocally(s.rows, w.ns); OnCourse(w, s, toUpload, OfferablePrefix(w, toUpload))
  {
    var toUpload := UpdatedLocally(s.rows, w.ns);
    UpdatedLocallyAwaits(s.rows, w.ns);
    forall i | 0 <= i < OfferablePrefix(w, toUpload)
      ensures Hashable(w, toUpload[i])
    {
      PrefixMeaning(w, toUpload, i);
    }
    UploadReaches(w, s, toUpload, OfferablePrefix(w, toUpload));
  }

  /** The tables after a pass, and what it wants, are those after the rows that could be offered. */
  lemma {:induction false} PassTables(w: Setting, s: Progress)
    requires IsDigest(w.h)
    ensures var toUpload := UpdatedLocally(s.rows, w.ns);
            Pass(w, s).(cache := map[]) == UploadFirst(w, s, toUpload, OfferablePrefix(w, toUpload)).(cache := map[])
  {
  }

  lemma StoppedSane(w: Setting, s0: Progress, s: Progress, toUpload: seq<FileRecord>)
    requires IsDigest(w.h) && Sane(w, s0, s)
    ensures Sane(w, s0, StoppedAt(w, s, toUpload))
  {
    var n := OfferablePrefix(w, toUpload);
    if n < |toUpload| {
      var f := toUpload[n];
      if !f.value.deleted && Eligible(f.path) && f.path in w.tree.files {
        CachedKeys(s.cache, w.h, Chunks(f.path, w.tree.files[f.path].content, w.io), HashSize(f.path));
      }
    }
  }

  lemma SameTables(w: Setting, s0: Progress, s: Progress, s1: Progress, toUpload: seq<FileRecord>, n: nat)
    requires IsDigest(w.h) && n <= |toUpload| && UploadedTo(w, s0, s, toUpload, n)
    requires s1.(cache := map[]) == s.(cache := map[])
    ensures UploadedTo(w, s0, s1, toUpload, n)
  {
    forall i | 0 <= i < n
      ensures Fate(w, s1, toUpload[i])
    {
      assert Fate(w, s, toUpload[i]);
    }
  }

  /** What a pass comes to: each row it could offer has met its fate, and nothing else in either table moved. */
  lemma {:induction false} PassDone(w: Setting, s: Progress)
    requires Begun(w, s)
    ensures Sane(w, s, Pass(w, s))
    ensures var toUpload := UpdatedLocally(s.rows, w.ns);
            UploadedTo(w, s, Pass(w, s), toUpload, OfferablePrefix(w, toUpload))
  {
    var toUpload := UpdatedLocally(s.rows, w.ns);
    var n := OfferablePrefix(w, toUpload);
    PassOnCourse(w, s);
    StoppedSane(w, s, UploadFirst(w, s, toUpload, n), toUpload);
    PassTables(w, s);
    SameTables(w, s, UploadFirst(w, s, toUpload, n), Pass(w, s), toUpload, n);
  }

  /** A pass that can offer every row. */
  lemma {:induction false} WholePass(w: Setting, s: Progress)
    requires Begun(w, s) && Uploadable(w, s.rows)
    ensures var toUpload := UpdatedLocally(s.rows, w.ns);
            Sane(w, s, Pass(w, s)) && UploadedTo(w, s, Pass(w, s), toUpload, |toUpload|) &&
            Pass(w, s) == UploadFirst(w, s, toUpload, |toUpload|)
  {
    PassDone(w, s);
    UploadablePrefix(w, s.rows);
  }

  lemma {:induction false} KeptThere<V(!new)>(m0: map<Path, Row<V>>, m: map<Path, Row<V>>,
                                              toUpload: seq<FileRecord>, n: nat, p: Path)
    requires n <= |toUpload| && KeptElsewhere(m0, m, toUpload, n) && OtherPath(toUpload, n, p)
    ensures (p in m <==> p in m0) && (p in m ==> m[p] == m0[p])
  {
  }

  /** The journal moves only at the paths of rows that awaited a jid. */
  lemma PassKeepsOthers(w: Setting, s0: Progress, p: Path)
    requires Begun(w, s0)
    requires forall f | f in UpdatedLocally(s0.rows, w.ns) :: f.path != p
    ensures var m0, m := View(s0.journal, w.user), View(Pass(w, s0).journal, w.user);
            (p in m <==> p in m0) && (p in m ==> m[p] == m0[p])
  {
    var toUpload := UpdatedLocally(s0.rows, w.ns);
    var n := OfferablePrefix(w, toUpload);
    PassDone(w, s0);
    forall i | 0 <= i < n
      ensures toUpload[i].path != p
    {
      assert toUpload[i] in toUpload;
    }
    KeptThere(View(s0.journal, w.user), View(Pass(w, s0).journal, w.user), toUpload, n, p);
  }

  ghost predicate SameLive(rows0: seq<FileRecord>, rows: seq<FileRecord>, ns: int, p: Path) {
    (p in Live(rows, ns) <==> p in Live(rows0, ns)) && (p in Live(rows, ns) ==> Live(rows, ns)[p] == Live(rows0, ns)[p])
  }

  lemma CourseKeepsLive(w: Setting, s0: Progress, s: Progress, toUpload: seq<FileRecord>, n: nat, p: Path)
    requires IsDigest(w.h) && n <= |toUpload| && Awaiting(s0.rows, w.ns, toUpload) && UploadedTo(w, s0, s, toUpload, n)
    ensures SameLive(s0.rows, s.rows, w.ns, p)
  {
    if i :| 0 <= i < n && toUpload[i].path == p {
      assert Fate(w, s, toUpload[i]);
    } else {
      assert OtherPath(toUpload, n, p);
    }
  }

  /** An upload gives jids and nothing else, so it leaves the indexer's view of the registry alone. */
  lemma PassKeepsLive(w: Setting, s: Progress)
    requires Begun(w, s)
    ensures Live(Pass(w, s).rows, w.ns) == Live(s.rows, w.ns)
  {
    UpdatedLocallyAwaits(s.rows, w.ns);
    PassDone(w, s);
    EndKeepsLive(w, s, Pass(w, s), UpdatedLocally(s.rows, w.ns), OfferablePrefix(w, UpdatedLocally(s.rows, w.ns)));
  }

  lemma EndKeepsLive(w: Setting, s: Progress, end: Progress, toUpload: seq<FileRecord>, n: nat)
    requires IsDigest(w.h) && n <= |toUpload| && Awaiting(s.rows, w.ns, toUpload) && UploadedTo(w, s, end, toUpload, n)
    ensures Live(end.rows, w.ns) == Live(s.rows, w.ns)
  {
    forall p
      ensures SameLive(s.rows, end.rows, w.ns, p)
    {
      CourseKeepsLive(w, s, end, toUpload, n, p);
    }
    SameEverywhere(s.rows, end.rows, w.ns);
  }

  lemma SameEverywhere(rows0: seq<FileRecord>, rows: seq<FileRecord>, ns: int)
    requires forall p :: SameLive(rows0, rows, ns, p)
    ensures Live(rows, ns) == Live(rows0, ns)
  {
    forall p
      ensures p in Live(rows, ns) <==> p in Live(rows0, ns)
      ensures p in Live(rows, ns) ==> Live(rows, ns)[p] == Live(rows0, ns)[p]
    {
      assert SameLive(rows0, rows, ns, p);
    }
  }

  /** The files of known format are cut into chunks in play. */
  ghost predicate AllInPlay(known: set<Hashed>, t: Tree, io: Reads) {
    forall p | p in t.files && Eligible(p) :: InPlay(known, p, t.files[p].content, io)
  }

  /** The cache, and the chunks to send, are content-addressed. */
  ghost predicate Filed(h: Digest, known: set<Hashed>, s: Progress)
    requires IsDigest(h)
  {
    Addressed(h, known, s.cache) && forall p | p in s.wanted :: Names(h, known, p.0, p.1)
  }

  lemma WarmedForAddressed(w: Setting, known: set<Hashed>, cache: Blobs, f: FileRecord)
    requires IsDigest(w.h) && Addressed(w.h, known, cache) && AllInPlay(known, w.tree, w.io)
    ensures Addressed(w.h, known, WarmedFor(w, cache, f))
  {
    if !f.value.deleted && Eligible(f.path) && f.path in w.tree.files {
      CachedAddressed(w.h, known, cache, Chunks(f.path, w.tree.files[f.path].content, w.io), HashSize(f.path));
    }
  }

  lemma {:induction false} FetchedNamed(h: Digest, known: set<Hashed>, cache: Blobs, ids: seq<Text>)
    requires IsDigest(h) && Addressed(h, known, cache)
    requires forall id | id in ids :: id != [] && IsPresent(cache, id)
    ensures forall p | p in Fetched(cache, ids) :: Names(h, known, p.0, p.1)
  {
    FetchedParts(cache, ids);
    forall p | p in Fetched(cache, ids)
      ensures Names(h, known, p.0, p.1)
    {
      var i :| 0 <= i < |ids| && Fetched(cache, ids)[i] == p;
      assert ids[i] in ids;
    }
  }

  lemma OneKeepsFiled(w: Setting, known: set<Hashed>, s: Progress, f: FileRecord)
    requires IsDigest(w.h) && Filed(w.h, known, s) && AllInPlay(known, w.tree, w.io) && Hashable(w, f)
    ensures Filed(w.h, known, UploadOne(w, s, f))
  {
    WarmedForAddressed(w, known, s.cache, f);
    var c := CommitStep(s.journal, w.store, w.user, f.path, Offered(w, f));
    if c.answer.NeedChunks? {
      WantedInCache(w, s, f);
      CommitRefusal(s.journal, w.store, w.user, f.path, Offered(w, f));
      FetchedNamed(w.h, known, WarmedFor(w, s.cache, f), IdList(c.answer.ids));
    }
  }

  ghost predicate FiledOnCourse(w: Setting, known: set<Hashed>, s: Progress, toUpload: seq<FileRecord>, n: nat)
    requires IsDigest(w.h) && n <= |toUpload|
  {
    (n > 0 ==> FiledOnCourse(w, known, s, toUpload, n - 1)) && Filed(w.h, known, UploadFirst(w, s, toUpload, n))
  }

  lemma {:induction false} UploadKeepsFiled(w: Setting, known: set<Hashed>, s: Progress,
                                            toUpload: seq<FileRecord>, n: nat)
    requires IsDigest(w.h) && Filed(w.h, known, s) && AllInPlay(known, w.tree, w.io)
    requires n <= |toUpload| && forall i | 0 <= i < n :: Hashable(w, toUpload[i])
    ensures FiledOnCourse(w, known, s, toUpload, n)
  {
    if n > 0 {
      UploadKeepsFiled(w, known, s, toUpload, n - 1);
      OneKeepsFiled(w, known, UploadFirst(w, s, toUpload, n - 1), toUpload[n - 1]);
    }
  }

  /** A pass keeps the cache content-addressed, and what it sends is too. */
  lemma PassKeepsFiled(w: Setting, known: set<Hashed>, s: Progress)
    requires IsDigest(w.h) && Filed(w.h, known, s) && AllInPlay(known, w.tree, w.io)
    ensures Filed(w.h, known, Pass(w, s))
  {
    var toUpload := UpdatedLocally(s.rows, w.ns);
    forall i | 0 <= i < OfferablePrefix(w, toUpload)
      ensures Hashable(w, toUpload[i])
    {
      PrefixMeaning(w, toUpload, i);
    }
    var n := OfferablePrefix(w, toUpload);
    UploadKeepsFiled(w, known, s, toUpload, n);
    if n < |toUpload| {
      WarmedForAddressed(w, known, UploadFirst(w, s, toUpload, n).cache, toUpload[n]);
    }
  }
}
