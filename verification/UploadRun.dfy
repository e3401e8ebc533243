/** `run_upload_once` (client/src/lib.rs): index, upload, and upload again if the server wanted chunks. */
module UploadRuns {
  import opened Octets
  import opened Paths
  import opened Log
  import opened Journals
  import opened Servers
  import opened Registries
  import opened Chunking
  import opened Chunkers
  import opened Indexers
  import opened Forms
  import opened Batches
  import opened Upload
  import opened Convergence
  import opened Syncer

  /** What the disk says the newest version of a path should be. */
  function Intended(w: Setting, stat: Stat, p: Path): Version
    requires IsDigest(w.h)
  {
    if p in Scan(w.tree, stat) && p in w.tree.files then Version(ChunkIds(w.h, p, w.tree.files[p].content, w.io), false)
    else Version([], true)
  }

  /** The path cannot be offered: a folder is taken for its file, or the form would be over the server's limit. */
  ghost predicate Unofferable(w: Setting, stat: Stat, p: Path)
    requires IsDigest(w.h)
  {
    (p in Scan(w.tree, stat) && p !in w.tree.files) ||
    !CommitFits(p, Intended(w, stat, p).deleted, Intended(w, stat, p).chunkIds)
  }

  /** Such a path waits to be uploaded. */
  ghost predicate Blocked(rows: seq<FileRecord>, w: Setting, stat: Stat)
    requires IsDigest(w.h)
  {
    exists p | Pending(rows, w.ns, Scan(w.tree, stat), p) :: Unofferable(w, stat, p)
  }

  /** The registry after the indexer, path by path. */
  ghost predicate IndexedFrom(rows: seq<FileRecord>, rows1: seq<FileRecord>, w: Setting, stat: Stat) {
    Increasing(rows) && Increasing(rows1) && forall p :: PathIndexed(rows, rows1, w.ns, Scan(w.tree, stat), p)
  }

  lemma RowOfferable(rows: seq<FileRecord>, rows1: seq<FileRecord>, w: Setting, stat: Stat, f: FileRecord)
    requires IsDigest(w.h) && IndexedFrom(rows, rows1, w, stat) && f in UpdatedLocally(rows1, w.ns)
    ensures Pending(rows, w.ns, Scan(w.tree, stat), f.path)
    ensures f.path in w.tree.files || f.value.deleted ==> Offered(w, f) == Intended(w, stat, f.path)
    ensures Offerable(w, f) <==> !Unofferable(w, stat, f.path)
  {
    PendingRows(rows, rows1, w.ns, Scan(w.tree, stat), f.path);
  }

  /** Every pending path can be offered if and only if nothing blocks the way. */
  lemma BlockedExact(rows: seq<FileRecord>, rows1: seq<FileRecord>, w: Setting, stat: Stat)
    requires IsDigest(w.h) && IndexedFrom(rows, rows1, w, stat)
    ensures Uploadable(w, rows1) <==> !Blocked(rows, w, stat)
  {
    forall f | f in UpdatedLocally(rows1, w.ns)
      ensures Pending(rows, w.ns, Scan(w.tree, stat), f.path) && (Offerable(w, f) <==> !Unofferable(w, stat, f.path))
    {
      RowOfferable(rows, rows1, w, stat, f);
    }
    if p :| Pending(rows, w.ns, Scan(w.tree, stat), p) && Unofferable(w, stat, p) {
      PendingRows(rows, rows1, w.ns, Scan(w.tree, stat), p);
      var f :| f in UpdatedLocally(rows1, w.ns) && f.path == p;
      assert !Offerable(w, f);
    }
  }

  /** What the server's journal says about a path once the client is done. */
  ghost predicate PathUploaded(rows: seq<FileRecord>, w: Setting, stat: Stat, before: seq<Record>, after: seq<Record>, p: Path)
    requires IsDigest(w.h)
  {
    if Pending(rows, w.ns, Scan(w.tree, stat), p) then
      p in View(after, w.user) && View(after, w.user)[p].value == Intended(w, stat, p)
    else
      (p in View(after, w.user) <==> p in View(before, w.user)) &&
      (p in View(after, w.user) ==> View(after, w.user)[p] == View(before, w.user)[p])
  }

  lemma RunPublishes(rows: seq<FileRecord>, w: Setting, stat: Stat, s0: Progress, store: Blobs, p: Path)
    requires Begun(w, s0) && IndexedFrom(rows, s0.rows, w, stat) && Uploadable(w, s0.rows)
    requires Supplied(w, Pass(w, s0), store)
    ensures PathUploaded(rows, w, stat, s0.journal, TwoPasses(w, s0, store).journal, p)
  {
    PendingRows(rows, s0.rows, w.ns, Scan(w.tree, stat), p);
    if Pending(rows, w.ns, Scan(w.tree, stat), p) {
      var f :| f in UpdatedLocally(s0.rows, w.ns) && f.path == p;
      RowOfferable(rows, s0.rows, w, stat, f);
      TwoPassesPublish(w, s0, store, f);
    } else {
      TwoPassesKeepOthers(w, s0, store, p);
    }
  }

  /** Everything a run that settles comes to. */
  ghost predicate AllUploaded(rows: seq<FileRecord>, w: Setting, stat: Stat, before: seq<Record>,
                              rows1: seq<FileRecord>, after: seq<Record>)
    requires IsDigest(w.h)
  {
    UpdatedLocally(rows1, w.ns) == [] && forall p :: PathUploaded(rows, w, stat, before, after, p)
  }

  lemma RunConverges(rows: seq<FileRecord>, w: Setting, stat: Stat, s0: Progress, store: Blobs)
    requires Begun(w, s0) && IndexedFrom(rows, s0.rows, w, stat) && Uploadable(w, s0.rows)
    requires Supplied(w, Pass(w, s0), store)
    ensures var end := TwoPasses(w, s0, store); AllUploaded(rows, w, stat, s0.journal, end.rows, end.journal)
  {
    TwoPassesSettle(w, s0, store);
    forall p
      ensures PathUploaded(rows, w, stat, s0.journal, TwoPasses(w, s0, store).journal, p)
    {
      RunPublishes(rows, w, stat, s0, store, p);
    }
  }

  /** Two calls of `check_upload_once`, the second only after a refusal. */
  ghost function Twice(w: Setting, s: Progress, first: Network, second: Network): Outcome
    requires IsDigest(w.h)
  {
    var o := PassAndSend(w, s, first);
    if !o.ok || o.end.all then o else PassAndSend(On(w, o.store), Again(o.end), second)
  }

  /** The batches of the first pass get through. */
  ghost predicate Through(w: Setting, s: Progress, net: Network)
    requires IsDigest(w.h)
  {
    Gets(Filled(Pass(w, s).wanted).batches, net)
  }

  /** That says when no request fails and the server then has what the pass wanted. */
  lemma ThroughExact(w: Setting, s0: Progress, net: Network)
    requires Begun(w, s0)
    ensures var sent := SendAll(w.store, Filled(Pass(w, s0).wanted).batches, net);
            Through(w, s0, net) <==> sent.ok && Supplied(w, Pass(w, s0), sent.store)
  {
    PassDone(w, s0);
    WantedThrough(w, s0, Pass(w, s0), net);
  }

  lemma WantedThrough(w: Setting, s0: Progress, s: Progress, net: Network)
    requires Sane(w, s0, s)
    ensures var sent := SendAll(w.store, Filled(s.wanted).batches, net);
            Gets(Filled(s.wanted).batches, net) <==> sent.ok && Supplied(w, s, sent.store)
  {
    var batches := Filled(s.wanted).batches;
    FilledHolds(s.wanted);
    WantedIsNew(w, s0, s, batches);
    WantedSent(w, s0, s, net);
    AllThere(batches, SendAll(w.store, batches, net).store);
    forall i: nat, p: Part | 0 <= i < |batches| && p in batches[i]
      ensures p.0 != []
    {
      ConcatExact(batches, p);
    }
    SendExact(w.store, batches, net);
  }

  lemma {:induction false} AllThere(batches: seq<seq<Part>>, store: Blobs)
    ensures (forall i | 0 <= i < |batches| :: forall p | p in batches[i] :: p.0 in store) <==>
            forall p | p in Concat(batches) :: p.0 in store
  {
    forall p
      ensures p in Concat(batches) <==> exists i | 0 <= i < |batches| :: p in batches[i]
    {
      ConcatExact(batches, p);
    }
  }

  lemma NothingSent(store: Blobs, net: Network)
    ensures SendAll(store, Filled([]).batches, net) == Sent(store, true)
  {
    assert Filled([]).batches == [[]];
    assert SendFirst(store, [[]], net, 1) == Sent(store, true);
  }

  /**
   Two calls settle everything if and only if every row can be offered and what the first call sends gets
   through; then they are the two specified passes.
   */
  lemma TwiceSettles(w: Setting, s0: Progress, first: Network, second: Network)
    requires Begun(w, s0)
    ensures var o := Twice(w, s0, first, second);
            o.ok && UpdatedLocally(o.end.rows, w.ns) == [] <==> Uploadable(w, s0.rows) && Through(w, s0, first)
    ensures Uploadable(w, s0.rows) && Through(w, s0, first) ==>
              Twice(w, s0, first, second).end == TwoPasses(w, s0, PassAndSend(w, s0, first).store)
    ensures !Uploadable(w, s0.rows) ==> !Twice(w, s0, first, second).ok
  {
    if Uploadable(w, s0.rows) {
      var o := PassAndSend(w, s0, first);
      PassAndSendKeeps(w, s0, first);
      ThroughExact(w, s0, first);
      TwoPassesSettle(w, s0, o.store);
      AcceptedPass(w, s0);
      if o.ok && !o.end.all {
        SecondBegins(w, s0, o.store);
        NothingSent(o.store, second);
      }
    }
  }

  /**
   Every request of the passes made is answered with success: those of the first, and those of the second if
   the first was refused something.
   */
  ghost predicate Answered(w: Setting, s0: Progress, first: Network, second: Network)
    requires IsDigest(w.h)
  {
    var o := PassAndSend(w, s0, first);
    AllAnswered(Filled(o.end.wanted).batches, first) &&
    (o.end.all || AllAnswered(Filled(Pass(On(w, o.store), Again(o.end)).wanted).batches, second))
  }

  /** That, and that every row can be offered, makes two calls succeed, whether or not rows still wait. */
  lemma {:induction false} TwiceAnswered(w: Setting, s0: Progress, first: Network, second: Network)
    requires Begun(w, s0)
    ensures Twice(w, s0, first, second).ok <==> Uploadable(w, s0.rows) && Answered(w, s0, first, second)
  {
    hide Pass, Filled, AllAnswered, Uploadable;
    var o := PassAndSend(w, s0, first);
    PassAndSendKeeps(w, s0, first);
    if Uploadable(w, s0.rows) {
      AnsweredExact(w.store, Filled(o.end.wanted).batches, first);
      SecondBegins(w, s0, o.store);
      AnsweredExact(o.store, Filled(Pass(On(w, o.store), Again(o.end)).wanted).batches, second);
    }
  }

  /** On a network that cuts nothing, batches within the server's cap get through. */
  lemma ReliableThrough(w: Setting, s0: Progress, net: Network)
    requires Begun(w, s0) && Reliable(net) && AllFit(Filled(Pass(w, s0).wanted).batches)
    ensures Through(w, s0, net)
  {
    FittingGets(Filled(Pass(w, s0).wanted).batches, net);
  }

  /** The cache is content-addressed, and the files' chunks are among those in play. */
  ghost predicate Shelved(w: Setting, known: set<Hashed>, cache: Blobs)
    requires IsDigest(w.h)
  {
    Addressed(w.h, known, cache) && AllInPlay(known, w.tree, w.io)
  }

  lemma PassShelved(w: Setting, known: set<Hashed>, s0: Progress, net: Network)
    requires Begun(w, s0) && Shelved(w, known, s0.cache)
    ensures var o := PassAndSend(w, s0, net);
            Shelved(w, known, o.end.cache) && StaysIntact(w.h, known, w.store, o.store)
  {
    PassAndSendKeeps(w, s0, net);
    PassKeepsFiled(w, known, s0);
    var store := PassAndSend(w, s0, net).store;
    forall id | Intact(w.h, known, w.store, id)
      ensures Intact(w.h, known, store, id)
    {
      if id in store {
        assert Stem(w.store, id, store[id], Pass(w, s0).wanted);
      }
    }
  }

  /** What a pass keeps, whatever becomes of it. */
  lemma OnePassKeeps(w: Setting, s0: Progress, net: Network, known: set<Hashed>)
    requires Begun(w, s0)
    ensures var o := PassAndSend(w, s0, net);
            Live(o.end.rows, w.ns) == Live(s0.rows, w.ns) &&
            (Shelved(w, known, s0.cache) ==> Shelved(w, known, o.end.cache) && StaysIntact(w.h, known, w.store, o.store))
  {
    PassKeepsLive(w, s0);
    PassAndSendKeeps(w, s0, net);
    if Shelved(w, known, s0.cache) {
      PassShelved(w, known, s0, net);
    }
  }

  /** One upload pass, and another if the server was missing something. */
  method UploadTwice(client: Client, server: Server, first: Network, second: Network, ghost known: set<Hashed>)
    returns (r: Result<()>)
    requires client.Valid() && server.Valid()
    modifies client.registry, client.chunker.cache, server.journal, server.store
    ensures client.Valid() && server.Valid()
    ensures var o := Twice(old(client.UploadSetting(server)), old(client.Start(server)), first, second);
            client.At(server, o.end) && server.store.chunks == o.store && r.Ok? == o.ok
    ensures Live(client.registry.rows, client.ns) == Live(old(client.registry.rows), client.ns)
    ensures Shelved(old(client.UploadSetting(server)), known, old(client.chunker.cache.chunks)) ==>
              Shelved(client.UploadSetting(server), known, client.chunker.cache.chunks) &&
              StaysIntact(client.chunker.digest, known, old(server.store.chunks), server.store.chunks)
    ensures r.Err? ==> r.error != GetFromCacheError
  {
    ghost var w, s0 := client.UploadSetting(server), client.Start(server);
    OnePassKeeps(w, s0, first, known);
    var done := client.CheckUploadOnce(server, first);
    if done.Err? {
      return Err(done.error);
    }
    if !done.value {
      ghost var w1, s1 := client.UploadSetting(server), client.Start(server);
      assert w1 == On(w, PassAndSend(w, s0, first).store) && s1 == Again(PassAndSend(w, s0, first).end);
      OnePassKeeps(w1, s1, second, known);
      done := client.CheckUploadOnce(server, second);
      if done.Err? {
        return Err(done.error);
      }
    }
    return Ok(());
  }

  /**
   The run. It succeeds if and only if nothing blocks the way and every request it makes is answered with
   success, even if rows still wait. It leaves nothing to upload if and only if nothing blocks the way and what the first pass sends
   gets through; then the journal's newest record of every path that was pending says what the disk says,
   and other paths keep theirs. On a network that cuts nothing, and with batches within the server's cap,
   it succeeds exactly when nothing blocks the way, and that is then all. However it ends, registry and
   disk agree, no chunk a record names is missing from the server, the cache stays content-addressed, and
   every chunk the server had whole stays so.
   */
  method RunUploadOnce(client: Client, server: Server, stat: Stat, first: Network, second: Network, ghost known: set<Hashed>)
    returns (r: Result<()>, ghost s0: Progress)
    requires client.Valid() && server.Valid()
    modifies client.registry, client.chunker.cache, server.journal, server.store
    ensures client.Valid() && server.Valid()
    ensures InSync(client.registry.rows, client.ns, client.chunker.disk.Snapshot(), stat)
    ensures Shelved(old(client.UploadSetting(server)), known, old(client.chunker.cache.chunks)) ==>
              Shelved(client.UploadSetting(server), known, client.chunker.cache.chunks) &&
              StaysIntact(client.chunker.digest, known, old(server.store.chunks), server.store.chunks)
    ensures r.Err? ==> r.error != GetFromCacheError
    ensures s0.(rows := []) == old(client.Start(server)).(rows := []) &&
            Indexed(old(client.registry.rows), s0.rows, client.ns, client.chunker.disk.Snapshot(), stat)
    ensures var w := old(client.UploadSetting(server));
            var settled := r.Ok? && UpdatedLocally(client.registry.rows, client.ns) == [];
            (settled <==> !Blocked(old(client.registry.rows), w, stat) && Through(w, s0, first)) &&
            (settled ==> AllUploaded(old(client.registry.rows), w, stat, old(server.journal.rows),
                                     client.registry.rows, server.journal.rows)) &&
            (Reliable(first) && AllFit(Filled(Pass(w, s0).wanted).batches) ==>
               (r.Ok? <==> settled) && (r.Ok? <==> !Blocked(old(client.registry.rows), w, stat))) &&
            (r.Ok? <==> !Blocked(old(client.registry.rows), w, stat) && Answered(w, s0, first, second)) &&
            (Blocked(old(client.registry.rows), w, stat) ==> server.store.chunks == old(server.store.chunks))
  {
    ghost var rows := client.registry.rows;
    var _ := CheckIndexOnce(client.registry, client.chunker.disk, stat, client.ns);
    ghost var w := client.UploadSetting(server);
    s0 := client.Start(server);
    RunOutcome(rows, w, stat, s0, first, second);
    r := UploadTwice(client, server, first, second, known);
  }

  /** What a run comes to, from the registry the indexer leaves. */
  lemma RunOutcome(rows: seq<FileRecord>, w: Setting, stat: Stat, s0: Progress, first: Network, second: Network)
    requires Begun(w, s0) && Increasing(rows) && Indexed(rows, s0.rows, w.ns, w.tree, stat)
    ensures var o := Twice(w, s0, first, second);
            var settled := o.ok && UpdatedLocally(o.end.rows, w.ns) == [];
            (settled <==> !Blocked(rows, w, stat) && Through(w, s0, first)) &&
            (settled ==> AllUploaded(rows, w, stat, s0.journal, o.end.rows, o.end.journal)) &&
            (Reliable(first) && AllFit(Filled(Pass(w, s0).wanted).batches) ==>
               (o.ok <==> settled) && (o.ok <==> !Blocked(rows, w, stat))) &&
            (o.ok <==> !Blocked(rows, w, stat) && Answered(w, s0, first, second)) &&
            (Blocked(rows, w, stat) ==> o.store == w.store)
  {
    IndexedPathwise(rows, s0.rows, w.ns, w.tree, stat);
    BlockedExact(rows, s0.rows, w, stat);
    TwiceSettles(w, s0, first, second);
    TwiceAnswered(w, s0, first, second);
    ThroughExact(w, s0, first);
    if Reliable(first) && AllFit(Filled(Pass(w, s0).wanted).batches) {
      ReliableThrough(w, s0, first);
    }
    if Uploadable(w, s0.rows) && Through(w, s0, first) {
      RunConverges(rows, w, stat, s0, PassAndSend(w, s0, first).store);
    }
  }
}
