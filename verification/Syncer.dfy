/** The upload pass at work (client/src/syncer.rs, `check_upload_once`). */
module Syncer {
  import opened Octets
  import opened Log
  import opened Journals
  import opened Servers
  import opened Registries
  import opened Chunking
  import opened Chunkers
  import opened Batches
  import opened Upload
  import Forms
  import ListCodec

  /** A pass and the requests after it: the state reached, the store, and whether all went well. */
  datatype Outcome = Outcome(end: Progress, store: Blobs, ok: bool)

  /** When a row could not be offered nothing is sent, not even what the rows before it want. */
  ghost function PassAndSend(w: Setting, s: Progress, net: Network): Outcome
    requires IsDigest(w.h)
  {
    var end := Pass(w, s);
    if !Uploadable(w, s.rows) then Outcome(end, w.store, false)
    else
      var sent := SendAll(w.store, Filled(end.wanted).batches, net);
      Outcome(end, sent.store, sent.ok)
  }

  lemma {:induction false} WantedIsNew(w: Setting, s0: Progress, s: Progress, batches: seq<seq<Part>>)
    requires Sane(w, s0, s) && Concat(batches) == s.wanted
    ensures OnlyNew(w.store, batches)
  {
    forall i, p | 0 <= i < |batches| && p in batches[i]
      ensures p.0 !in w.store
    {
      ConcatExact(batches, p);
    }
  }

  lemma WantedSent(w: Setting, s0: Progress, s: Progress, net: Network)
    requires Sane(w, s0, s)
    ensures var sent := SendAll(w.store, Filled(s.wanted).batches, net);
            w.store.Keys <= sent.store.Keys && Stems(w.store, sent.store, s.wanted)
  {
    FilledHolds(s.wanted);
    var batches := Filled(s.wanted).batches;
    WantedIsNew(w, s0, s, batches);
    SendKeeps(w.store, batches, net, |batches|);
  }

  /** Whatever the network does, chunks the server had stay, and it gets only what the pass wanted. */
  lemma PassAndSendKeeps(w: Setting, s: Progress, net: Network)
    requires Begun(w, s)
    ensures var o := PassAndSend(w, s, net);
            w.store.Keys <= o.store.Keys && Stems(w.store, o.store, o.end.wanted) && o.end == Pass(w, s)
  {
    PassDone(w, s);
    WantedSent(w, s, Pass(w, s), net);
  }

  /** The batches, one request each, until one fails. */
  method UploadBatches(store: ChunkStore, batches: seq<seq<Part>>, net: Network) returns (r: Result<()>)
    modifies store
    ensures Sent(store.chunks, r.Ok?) == SendAll(old(store.chunks), batches, net)
    ensures Lost(batches, net) ==> r.Err?
    ensures r.Err? ==> r.error == Unknown
  {
    hide Lost, Uploaded;
    if Lost(batches, net) {
      LostFails(store.chunks, batches, net);
    }
    var i := 0;
    while i < |batches|
      invariant 0 <= i <= |batches|
      invariant Sent(store.chunks, true) == SendFirst(old(store.chunks), batches, net, i)
    {
      if batches[i] != [] {
        var ok := store.UploadChunks(batches[i], EndOf(net, i, batches[i]));
        if !ok || !net(i).Whole? {
          FailureFinal(old(store.chunks), batches, net, i + 1, |batches|);
          return Err(Unknown);
        }
      }
      i := i + 1;
    }
    return Ok(());
  }

  lemma {:induction false} FilledOne(cache: Blobs, ids: seq<Text>, i: nat, parts: seq<Part>)
    requires i < |ids|
    ensures Push(Filled(parts + Fetched(cache, ids[..i])), Fetch(cache, ids[i])) == Filled(parts + Fetched(cache, ids[..i + 1]))
  {
    var before, all := parts + Fetched(cache, ids[..i]), parts + Fetched(cache, ids[..i + 1]);
    assert ids[..i + 1][..i] == ids[..i];
    assert all == before + [Fetch(cache, ids[i])];
    assert all[..|all| - 1] == before;
  }

  /** The first `i` ids were in the cache, and their chunks have joined the queue. */
  ghost predicate Queued(cache: Blobs, parts: seq<Part>, ids: seq<Text>, i: nat, q: Queue)
    requires i <= |ids|
  {
    (forall id | id in ids[..i] :: IsPresent(cache, id)) && q == Filled(parts + Fetched(cache, ids[..i]))
  }

  lemma {:induction false} NoneQueued(cache: Blobs, parts: seq<Part>, ids: seq<Text>)
    ensures Queued(cache, parts, ids, 0, Filled(parts))
  {
    assert parts + [] == parts;
  }

  lemma {:induction false} OneQueued(cache: Blobs, parts: seq<Part>, ids: seq<Text>, i: nat, q: Queue)
    requires i < |ids| && Queued(cache, parts, ids, i, q) && IsPresent(cache, ids[i]) && q.batches != []
    ensures Queued(cache, parts, ids, i + 1, Push(q, Fetch(cache, ids[i])))
  {
    hide Filled, Push, Fetched;
    FilledOne(cache, ids, i, parts);
    assert ids[..i + 1] == ids[..i] + [ids[i]];
  }

  lemma {:induction false} AllQueued(cache: Blobs, parts: seq<Part>, ids: seq<Text>, q: Queue)
    requires Queued(cache, parts, ids, |ids|, q)
    ensures (forall id | id in ids :: IsPresent(cache, id)) && q == Filled(parts + Fetched(cache, ids))
  {
    assert ids[..|ids|] == ids;
  }

  class Client {
    const registry: Registry
    const chunker: Chunker
    const user: int
    const ns: int

    constructor (registry: Registry, chunker: Chunker, user: int, ns: int)
      ensures this.registry == registry && this.chunker == chunker && this.user == user && this.ns == ns
    {
      this.registry := registry;
      this.chunker := chunker;
      this.user := user;
      this.ns := ns;
    }

    ghost predicate Valid()
      reads registry, chunker.disk
    {
      Increasing(registry.rows) && chunker.Valid()
    }

    function UploadSetting(server: Server): Setting
      reads chunker.disk, server.store
    {
      Setting(chunker.disk.Snapshot(), chunker.digest, chunker.io, server.store.chunks, user, ns)
    }

    /** The state an upload pass has reached. */
    ghost predicate At(server: Server, s: Progress)
      reads registry, chunker.cache, server.journal
    {
      registry.rows == s.rows && chunker.cache.chunks == s.cache && server.journal.rows == s.journal
    }

    ghost function Start(server: Server): Progress
      reads registry, chunker.cache, server.journal
    {
      Progress(registry.rows, chunker.cache.chunks, server.journal.rows, [], true)
    }

    /** The requested chunks are read back from the cache and join the queue. */
    method QueueChunks(queue: Queue, ids: seq<Text>, ghost parts: seq<Part>) returns (r: Result<Queue>)
      requires queue == Filled(parts)
      ensures r.Ok? <==> forall id | id in ids :: IsPresent(chunker.cache.chunks, id)
      ensures r.Ok? ==> r.value == Filled(parts + Fetched(chunker.cache.chunks, ids))
      ensures r.Err? ==> r.error == GetFromCacheError
    {
      hide Queued;
      var q, i := queue, 0;
      NoneQueued(chunker.cache.chunks, parts, ids);
      while i < |ids|
        invariant 0 <= i <= |ids| && q.batches != []
        invariant Queued(chunker.cache.chunks, parts, ids, i, q)
      {
        var data := chunker.cache.Get(ids[i]);
        if data.Err? {
          assert ids[i] in ids;
          return Err(data.error);
        }
        OneQueued(chunker.cache.chunks, parts, ids, i, q);
        q := Push(q, (ids[i], data.value));
        i := i + 1;
      }
      AllQueued(chunker.cache.chunks, parts, ids, q);
      return Ok(q);
    }

    /** The chunk ids a row is offered with. */
    method OfferIds(f: FileRecord, ghost w: Setting) returns (r: Result<Text>)
      requires chunker.Valid() && w.tree == chunker.disk.Snapshot() && w.h == chunker.digest && w.io == chunker.io
      modifies chunker.cache
      ensures r.Ok? <==> Hashable(w, f)
      ensures r.Ok? ==> r.value == Offered(w, f).chunkIds
      ensures r.Err? ==> r.error != GetFromCacheError
      ensures chunker.cache.chunks == WarmedFor(w, old(chunker.cache.chunks), f)
    {
      var chunkIds := [[]];
      if !f.value.deleted {
        var hashes := chunker.Hashify(f.path);
        if hashes.Err? {
          return Err(hashes.error);
        }
        chunkIds := hashes.value;
      }
      return Ok(ListCodec.Join(chunkIds, COMMA));
    }

    /** One turn of the upload loop; `s` is the state it starts from. */
    method OfferOne(server: Server, f: FileRecord, queue: Queue, ghost w: Setting, ghost s: Progress)
      returns (r: Result<(Queue, bool)>)
      requires chunker.Valid() && server.Valid() && w == UploadSetting(server)
      requires At(server, s) && queue == Filled(s.wanted)
      modifies registry, chunker.cache, server.journal
      ensures server.Valid()
      ensures r.Ok? <==> Offerable(w, f)
      ensures r.Ok? ==> var s1 := UploadOne(w, s, f);
                        At(server, s1) && r.value.0 == Filled(s1.wanted) && (s1.all <==> s.all && r.value.1)
      ensures r.Err? ==> At(server, s.(cache := WarmedFor(w, s.cache, f))) && r.error != GetFromCacheError
    {
      hide Forms.CommitFits, Hashable, WarmedFor;
      var chunkIds := OfferIds(f, w);
      if chunkIds.Err? {
        return Err(chunkIds.error);
      }
      WantedInCache(w, s, f);
      var answer := server.PostCommit(user, f.path, Version(chunkIds.value, f.value.deleted));
      match answer
      case None =>
        // 413, like any other status the client does not know.
        return Err(Unknown);
      case Some(Success(jid)) =>
        registry.UpdateJid(f, jid);
        return Ok((queue, true));
      case Some(NeedChunks(ids)) =>
        var queued := QueueChunks(queue, IdList(ids), s.wanted);
        return match queued case Ok(q) => Ok((q, false)) case Err(e) => Err(e);
    }

    /** One turn of the upload loop. */
    method OfferNext(server: Server, toUpload: seq<FileRecord>, i: nat, queue: Queue,
                     ghost w: Setting, ghost s0: Progress, ghost s: Progress)
      returns (r: Result<(Queue, bool)>, ghost s1: Progress)
      requires chunker.Valid() && server.Valid() && w == UploadSetting(server)
      requires i < |toUpload| && i <= OfferablePrefix(w, toUpload)
      requires s == UploadFirst(w, s0, toUpload, i) && At(server, s) && queue == Filled(s.wanted)
      modifies registry, chunker.cache, server.journal
      ensures chunker.Valid() && server.Valid() && w == UploadSetting(server)
      ensures r.Ok? <==> i < OfferablePrefix(w, toUpload)
      ensures r.Ok? ==> s1 == UploadFirst(w, s0, toUpload, i + 1)
      ensures r.Err? ==> s1 == StoppedAt(w, UploadFirst(w, s0, toUpload, OfferablePrefix(w, toUpload)), toUpload)
      ensures At(server, s1)
      ensures r.Ok? ==> r.value.0 == Filled(s1.wanted) && (s1.all <==> s.all && r.value.1)
      ensures r.Err? ==> r.error != GetFromCacheError
    {
      PrefixMeaning(w, toUpload, i);
      r := OfferOne(server, toUpload[i], queue, w, s);
      s1 := if r.Ok? then UploadFirst(w, s0, toUpload, i + 1) else StoppedAt(w, s, toUpload);
    }

    /** The loop over the rows; `stopped` is the error of the row that could not be offered. */
    method OfferAll(server: Server, toUpload: seq<FileRecord>, ghost w: Setting, ghost s0: Progress)
      returns (queue: Queue, allCommitted: bool, stopped: Option<SyncError>, ghost s: Progress)
      requires chunker.Valid() && server.Valid() && w == UploadSetting(server) && s0 == Start(server)
      modifies registry, chunker.cache, server.journal
      ensures server.Valid()
      ensures At(server, s)
      ensures stopped.Some? ==> OfferablePrefix(w, toUpload) < |toUpload| &&
                                s == StoppedAt(w, UploadFirst(w, s0, toUpload, OfferablePrefix(w, toUpload)), toUpload)
      ensures stopped.None? ==> OfferablePrefix(w, toUpload) == |toUpload| && s == UploadFirst(w, s0, toUpload, |toUpload|) &&
                                queue == Filled(s.wanted) && allCommitted == s.all
      ensures stopped.Some? ==> stopped.value != GetFromCacheError
    {
      hide UploadOne, StoppedAt, OfferablePrefix, Offerable;
      queue, allCommitted, stopped, s := EMPTY_QUEUE, true, None, s0;
      var i := 0;
      while i < |toUpload|
        invariant 0 <= i <= OfferablePrefix(w, toUpload)
        invariant w == UploadSetting(server) && server.Valid() && At(server, s)
        invariant queue == Filled(s.wanted) && allCommitted == s.all
        invariant s == UploadFirst(w, s0, toUpload, i)
      {
        var offered;
        offered, s := OfferNext(server, toUpload, i, queue, w, s0, s);
        if offered.Err? {
          return queue, allCommitted, Some(offered.error), s;
        }
        queue, allCommitted := offered.value.0, allCommitted && offered.value.1;
        i := i + 1;
      }
    }

    /**
     `check_upload_once`. Row by row it does what `UploadOne` says, up to the first row that cannot be
     offered; if there is none the wanted chunks go out, batch by batch, whatever becomes of them.
     */
    method CheckUploadOnce(server: Server, net: Network) returns (r: Result<bool>)
      requires Valid() && server.Valid()
      modifies registry, chunker.cache, server.journal, server.store
      ensures Valid() && server.Valid()
      ensures var o := PassAndSend(old(UploadSetting(server)), old(Start(server)), net);
              At(server, o.end) && server.store.chunks == o.store && r.Ok? == o.ok && (r.Ok? ==> r.value == o.end.all)
      ensures !Uploadable(old(UploadSetting(server)), old(registry.rows)) ==>
                r.Err? && server.store.chunks == old(server.store.chunks)
      ensures Lost(Filled(Pass(old(UploadSetting(server)), old(Start(server))).wanted).batches, net) ==> r.Err?
      ensures r.Err? ==> r.error != GetFromCacheError
    {
      var toUpload := UpdatedLocally(registry.rows, ns);
      ghost var w, s0 := UploadSetting(server), Start(server);
      PassDone(w, s0);
      UploadablePrefix(w, s0.rows);
      var queue, allCommitted, stopped, s := OfferAll(server, toUpload, w, s0);
      if stopped.Some? {
        return Err(stopped.value);
      }
      r := Send(server, queue, allCommitted, net, s0, s);
    }

    /** The second half of an upload pass. */
    method Send(server: Server, queue: Queue, allCommitted: bool, net: Network, ghost s0: Progress, ghost s: Progress)
      returns (r: Result<bool>)
      requires server.Valid() && queue == Filled(s.wanted) && Sane(UploadSetting(server), s0, s)
      modifies server.store
      ensures server.Valid()
      ensures Sent(server.store.chunks, r.Ok?) == SendAll(old(server.store.chunks), queue.batches, net)
      ensures Lost(queue.batches, net) ==> r.Err?
      ensures if r.Ok? then r.value == allCommitted else r.error == Unknown
    {
      WantedSent(UploadSetting(server), s0, s, net);
      var sent := UploadBatches(server.store, queue.batches, net);
      KeysKeepReferential(server.journal.rows, old(server.store.chunks), server.store.chunks);
      return match sent case Ok(_) => Ok(allCommitted) case Err(e) => Err(e);
    }
  }
}
