/** One upload pass after another (client/src/lib.rs, `run_upload_once`): when do two of them settle everything? */
module Convergence {
  import opened Octets
  import opened Paths
  import opened Log
  import opened Journals
  import opened Servers
  import opened Registries
  import opened Chunking
  import opened Upload

  /** With every row settled nothing awaits a jid any more. */
  lemma NothingAwaits(w: Setting, s0: Progress, s: Progress, toUpload: seq<FileRecord>)
    requires IsDigest(w.h) && Increasing(s0.rows) && toUpload == UpdatedLocally(s0.rows, w.ns)
    requires Increasing(s.rows) && UploadedTo(w, s0, s, toUpload, |toUpload|)
    requires forall f | f in toUpload :: Accepted(w, f)
    ensures UpdatedLocally(s.rows, w.ns) == []
  {
    HeadIsMember(UpdatedLocally(s.rows, w.ns));
    forall r
      ensures r !in UpdatedLocally(s.rows, w.ns)
    {
      QueriesAreView(s.rows, w.ns, r);
      if r in UpdatedLocally(s.rows, w.ns) {
        SettledRow(w, s0, s, toUpload, r.path);
      }
    }
  }

  lemma SettledRow(w: Setting, s0: Progress, s: Progress, toUpload: seq<FileRecord>, p: Path)
    requires IsDigest(w.h) && Increasing(s0.rows) && toUpload == UpdatedLocally(s0.rows, w.ns)
    requires UploadedTo(w, s0, s, toUpload, |toUpload|) && forall f | f in toUpload :: Accepted(w, f)
    requires p in View(s.rows, w.ns)
    ensures View(s.rows, w.ns)[p].value.jid.Some?
  {
    if i :| 0 <= i < |toUpload| && toUpload[i].path == p {
      assert toUpload[i] in toUpload && Fate(w, s, toUpload[i]);
    } else {
      assert OtherPath(toUpload, |toUpload|, p);
      ViewMeaning(s0.rows, w.ns);
      QueriesAreView(s0.rows, w.ns, View(s0.rows, w.ns)[p]);
    }
  }

  /** A row that was refused still awaits its jid. */
  lemma RefusedAwaits(w: Setting, s0: Progress, s: Progress, toUpload: seq<FileRecord>, f: FileRecord)
    requires IsDigest(w.h) && Increasing(s0.rows) && toUpload == UpdatedLocally(s0.rows, w.ns)
    requires Increasing(s.rows) && UploadedTo(w, s0, s, toUpload, |toUpload|)
    requires f in toUpload && !Accepted(w, f)
    ensures f in UpdatedLocally(s.rows, w.ns)
  {
    var i :| 0 <= i < |toUpload| && toUpload[i] == f;
    assert Fate(w, s, toUpload[i]);
    QueriesAreView(s0.rows, w.ns, f);
    QueriesAreView(s.rows, w.ns, f);
  }

  /** The server with another store. */
  function On(w: Setting, store: Blobs): Setting {
    w.(store := store)
  }

  /** Where a second pass begins. */
  function Again(s: Progress): Progress {
    Progress(s.rows, s.cache, s.journal, [], true)
  }

  /** The store has kept what it had, and has got all that the pass wanted. */
  ghost predicate Supplied(w: Setting, s: Progress, store: Blobs) {
    w.store.Keys <= store.Keys && forall p | p in s.wanted :: p.0 in store
  }

  /** What a second pass finds: exactly the rows refused before, and a server that now has their chunks. */
  lemma SecondPassAccepted(w: Setting, s0: Progress, s: Progress, toUpload: seq<FileRecord>, f: FileRecord, store: Blobs)
    requires IsDigest(w.h) && Increasing(s0.rows) && toUpload == UpdatedLocally(s0.rows, w.ns)
    requires Increasing(s.rows) && UploadedTo(w, s0, s, toUpload, |toUpload|)
    requires f in UpdatedLocally(s.rows, w.ns)
    ensures f in toUpload && !Accepted(w, f)
    ensures Supplied(w, s, store) ==> Accepted(On(w, store), f)
  {
    QueriesAreView(s.rows, w.ns, f);
    if i :| 0 <= i < |toUpload| && toUpload[i].path == f.path {
      assert toUpload[i] in toUpload && Fate(w, s, toUpload[i]);
      if Supplied(w, s, store) {
        SuppliedPresent(w, s, toUpload[i], store);
      }
    } else {
      assert OtherPath(toUpload, |toUpload|, f.path);
      QueriesAreView(s0.rows, w.ns, f);
    }
  }

  lemma SuppliedPresent(w: Setting, s: Progress, f: FileRecord, store: Blobs)
    requires IsDigest(w.h) && (Accepted(w, f) || Waiting(w, s, f)) && Supplied(w, s, store)
    ensures Accepted(On(w, store), f)
  {
    forall id | id in IdList(Offered(w, f).chunkIds)
      ensures IsPresent(store, id)
    {
      if !IsPresent(w.store, id) {
        var p :| p in s.wanted && p.0 == id;
      }
    }
  }

  /** One of the first `n` rows was refused, and names the chunk. */
  ghost predicate NamedByRefused(w: Setting, toUpload: seq<FileRecord>, n: nat, id: Text)
    requires IsDigest(w.h) && n <= |toUpload|
  {
    exists i | 0 <= i < n :: !Accepted(w, toUpload[i]) && id in IdList(Offered(w, toUpload[i]).chunkIds)
  }

  lemma NamedByLast(w: Setting, toUpload: seq<FileRecord>, n: nat, id: Text)
    requires IsDigest(w.h) && n < |toUpload|
    requires NamedByRefused(w, toUpload, n, id) ||
             (!Accepted(w, toUpload[n]) && id in IdList(Offered(w, toUpload[n]).chunkIds))
    ensures NamedByRefused(w, toUpload, n + 1, id)
  {
  }

  /** Whatever is wanted is named by a row that was refused. */
  lemma {:induction false} WantedNamed(w: Setting, s0: Progress, toUpload: seq<FileRecord>, n: nat, p: Part)
    requires IsDigest(w.h) && n <= |toUpload| && forall i | 0 <= i < n :: Hashable(w, toUpload[i])
    requires p in UploadFirst(w, s0, toUpload, n).wanted && p !in s0.wanted
    ensures NamedByRefused(w, toUpload, n, p.0)
  {
    hide UploadOne, NamedByRefused, Hashable;
    var s := UploadFirst(w, s0, toUpload, n - 1);
    if p in s.wanted {
      WantedNamed(w, s0, toUpload, n - 1, p);
    } else {
      OneWantedNamed(w, s, toUpload[n - 1], p);
    }
    NamedByLast(w, toUpload, n - 1, p.0);
  }

  lemma {:induction false} NothingWanted(w: Setting, s0: Progress, toUpload: seq<FileRecord>, n: nat)
    requires IsDigest(w.h) && n <= |toUpload| && forall i | 0 <= i < n :: Accepted(w, toUpload[i])
    ensures UploadFirst(w, s0, toUpload, n).wanted == s0.wanted
  {
    hide UploadOne, Accepted;
    if n > 0 {
      NothingWanted(w, s0, toUpload, n - 1);
      NoneWanted(w, UploadFirst(w, s0, toUpload, n - 1), toUpload[n - 1]);
    }
  }

  lemma {:induction false} NoneWanted(w: Setting, s: Progress, f: FileRecord)
    requires IsDigest(w.h) && Accepted(w, f)
    ensures UploadOne(w, s, f).wanted == s.wanted
  {
    CommitRefusal(s.journal, w.store, w.user, f.path, Offered(w, f));
  }

  lemma OneWantedNamed(w: Setting, s: Progress, f: FileRecord, p: Part)
    requires IsDigest(w.h) && Hashable(w, f) && p in UploadOne(w, s, f).wanted && p !in s.wanted
    ensures !Accepted(w, f) && p.0 in IdList(Offered(w, f).chunkIds)
  {
    CommitRefusal(s.journal, w.store, w.user, f.path, Offered(w, f));
    RefusalAsks(w, s, f);
    FetchedIds(WarmedFor(w, s.cache, f), IdList(CommitStep(s.journal, w.store, w.user, f.path, Offered(w, f)).answer.ids));
  }

  /** The journal's newest record of the row's path is what the client has. */
  ghost predicate Published(w: Setting, journal: seq<Record>, f: FileRecord)
    requires IsDigest(w.h)
  {
    f.path in View(journal, w.user) && View(journal, w.user)[f.path].value == Offered(w, f)
  }

  /** A row published by the first pass is left alone by the second. */
  lemma PublishedAfterTwo(w: Setting, s0: Progress, s: Progress, store: Blobs, s2: Progress,
                          toUpload: seq<FileRecord>, toUpload2: seq<FileRecord>, f: FileRecord)
    requires IsDigest(w.h) && Increasing(s0.rows) && toUpload == UpdatedLocally(s0.rows, w.ns)
    requires Increasing(s.rows) && UploadedTo(w, s0, s, toUpload, |toUpload|) && Supplied(w, s, store)
    requires toUpload2 == UpdatedLocally(s.rows, w.ns)
    requires UploadedTo(On(w, store), Again(s), s2, toUpload2, |toUpload2|)
    requires f in toUpload
    ensures Published(w, s2.journal, f)
  {
    var i :| 0 <= i < |toUpload| && toUpload[i] == f;
    assert Fate(w, s, f);
    QueriesAreView(s.rows, w.ns, f);
    if Accepted(w, f) {
      forall k | 0 <= k < |toUpload2|
        ensures toUpload2[k].path != f.path
      {
        assert toUpload2[k] in toUpload2;
        QueriesAreView(s.rows, w.ns, toUpload2[k]);
      }
      assert OtherPath(toUpload2, |toUpload2|, f.path);
    } else {
      RefusedAwaits(w, s0, s, toUpload, f);
      var k :| 0 <= k < |toUpload2| && toUpload2[k] == f;
      SecondPassAccepted(w, s0, s, toUpload, f, store);
      assert Fate(On(w, store), s2, toUpload2[k]);
    }
  }

  /** Two passes, the second against the store that the first left; it follows only a refusal. */
  function TwoPasses(w: Setting, s: Progress, store: Blobs): Progress
    requires IsDigest(w.h)
  {
    var first := Pass(w, s);
    if first.all then first else Pass(On(w, store), Again(first))
  }

  /** A second pass may start where the first ended, and has only rows of the first before it. */
  lemma SecondBegins(w: Setting, s0: Progress, store: Blobs)
    requires Begun(w, s0) && Uploadable(w, s0.rows) && w.store.Keys <= store.Keys
    ensures var s := Pass(w, s0);
            Begun(On(w, store), Again(s)) && Uploadable(On(w, store), s.rows) &&
            (forall f | f in UpdatedLocally(s.rows, w.ns) :: f in UpdatedLocally(s0.rows, w.ns)) &&
            (Supplied(w, s, store) ==> forall f | f in UpdatedLocally(s.rows, w.ns) :: Accepted(On(w, store), f))
  {
    WholePass(w, s0);
    KeysKeepReferential(Pass(w, s0).journal, w.store, store);
    SecondRows(w, s0, Pass(w, s0), UpdatedLocally(s0.rows, w.ns), store);
  }

  lemma {:induction false} SecondRows(w: Setting, s0: Progress, s: Progress, toUpload: seq<FileRecord>, store: Blobs)
    requires IsDigest(w.h) && Increasing(s0.rows) && toUpload == UpdatedLocally(s0.rows, w.ns)
    requires Increasing(s.rows) && UploadedTo(w, s0, s, toUpload, |toUpload|)
    ensures forall f | f in UpdatedLocally(s.rows, w.ns) :: f in toUpload
    ensures Supplied(w, s, store) ==> forall f | f in UpdatedLocally(s.rows, w.ns) :: Accepted(On(w, store), f)
  {
    forall f | f in UpdatedLocally(s.rows, w.ns)
      ensures f in toUpload
      ensures Supplied(w, s, store) ==> Accepted(On(w, store), f)
    {
      SecondPassAccepted(w, s0, s, toUpload, f, store);
    }
  }

  lemma AllMeansAccepted(w: Setting, s0: Progress, s: Progress, toUpload: seq<FileRecord>)
    requires IsDigest(w.h) && UploadedTo(w, s0, s, toUpload, |toUpload|) && s0.all
    ensures s.all <==> forall f | f in toUpload :: Accepted(w, f)
  {
  }

  /** A pass that is refused nothing wants nothing and leaves nothing to do; one that is refused something does. */
  lemma AcceptedPass(w: Setting, s0: Progress)
    requires Begun(w, s0) && Uploadable(w, s0.rows)
    ensures Pass(w, s0).all <==> forall f | f in UpdatedLocally(s0.rows, w.ns) :: Accepted(w, f)
    ensures Pass(w, s0).all <==> UpdatedLocally(Pass(w, s0).rows, w.ns) == []
    ensures Pass(w, s0).all ==> Pass(w, s0).wanted == []
  {
    var toUpload, s := UpdatedLocally(s0.rows, w.ns), Pass(w, s0);
    WholePass(w, s0);
    AllMeansAccepted(w, s0, s, toUpload);
    if s.all {
      NothingAwaits(w, s0, s, toUpload);
      NothingWanted(w, s0, toUpload, |toUpload|);
    } else {
      var f :| f in toUpload && !Accepted(w, f);
      RefusedAwaits(w, s0, s, toUpload, f);
    }
  }

  /** A chunk that did not get through is named by a row that a second pass finds, and is refused for. */
  lemma UnsuppliedRefused(w: Setting, s0: Progress, store: Blobs, p: Part)
    requires Begun(w, s0) && Uploadable(w, s0.rows)
    requires p in Pass(w, s0).wanted && p.0 !in store
    ensures exists f | f in UpdatedLocally(Pass(w, s0).rows, w.ns) :: !Accepted(On(w, store), f)
  {
    var toUpload, s := UpdatedLocally(s0.rows, w.ns), Pass(w, s0);
    WholePass(w, s0);
    forall i | 0 <= i < |toUpload|
      ensures Hashable(w, toUpload[i])
    {
      assert toUpload[i] in toUpload;
    }
    WantedNamed(w, s0, toUpload, |toUpload|, p);
    var i: nat :| 0 <= i < |toUpload| && !Accepted(w, toUpload[i]) && p.0 in IdList(Offered(w, toUpload[i]).chunkIds);
    RefusedAwaits(w, s0, s, toUpload, toUpload[i]);
    assert !IsPresent(store, p.0);
  }

  /**
   Two passes settle everything if and only if what the first was refused for is on the server by the
   time of the second. A first pass that is refused nothing settles everything alone.
   */
  lemma TwoPassesSettle(w: Setting, s0: Progress, store: Blobs)
    requires Begun(w, s0) && Uploadable(w, s0.rows) && w.store.Keys <= store.Keys
    ensures UpdatedLocally(TwoPasses(w, s0, store).rows, w.ns) == [] <==> Supplied(w, Pass(w, s0), store)
    ensures TwoPasses(w, s0, store).all <==> Supplied(w, Pass(w, s0), store)
    ensures TwoPasses(w, s0, store).all ==> TwoPasses(w, s0, store).wanted == []
  {
    var s := Pass(w, s0);
    AcceptedPass(w, s0);
    if !s.all {
      SecondBegins(w, s0, store);
      AcceptedPass(On(w, store), Again(s));
      if p :| p in s.wanted && p.0 !in store {
        UnsuppliedRefused(w, s0, store, p);
      }
    }
  }

  lemma PublishedAfterOne(w: Setting, s0: Progress, f: FileRecord)
    requires Begun(w, s0) && Uploadable(w, s0.rows) && f in UpdatedLocally(s0.rows, w.ns)
    ensures Pass(w, s0).all ==> Published(w, Pass(w, s0).journal, f)
  {
    var toUpload, s := UpdatedLocally(s0.rows, w.ns), Pass(w, s0);
    WholePass(w, s0);
    AcceptedPass(w, s0);
    var i :| 0 <= i < |toUpload| && toUpload[i] == f;
    assert Fate(w, s, toUpload[i]);
  }

  /** And every row that awaited a jid is then the newest record of its path in the journal. */
  lemma TwoPassesPublish(w: Setting, s0: Progress, store: Blobs, f: FileRecord)
    requires Begun(w, s0) && Uploadable(w, s0.rows) && f in UpdatedLocally(s0.rows, w.ns)
    requires Supplied(w, Pass(w, s0), store)
    ensures Published(w, TwoPasses(w, s0, store).journal, f)
  {
    var toUpload, s := UpdatedLocally(s0.rows, w.ns), Pass(w, s0);
    if s.all {
      PublishedAfterOne(w, s0, f);
    } else {
      WholePass(w, s0);
      SecondBegins(w, s0, store);
      WholePass(On(w, store), Again(s));
      PublishedAfterTwo(w, s0, s, store, TwoPasses(w, s0, store), toUpload, UpdatedLocally(s.rows, w.ns), f);
    }
  }

  lemma TwoPassesKeepOthers(w: Setting, s0: Progress, store: Blobs, p: Path)
    requires Begun(w, s0) && Uploadable(w, s0.rows) && w.store.Keys <= store.Keys
    requires forall f | f in UpdatedLocally(s0.rows, w.ns) :: f.path != p
    ensures var m0, m := View(s0.journal, w.user), View(TwoPasses(w, s0, store).journal, w.user);
            (p in m <==> p in m0) && (p in m ==> m[p] == m0[p])
  {
    PassKeepsOthers(w, s0, p);
    if !Pass(w, s0).all {
      SecondBegins(w, s0, store);
      PassKeepsOthers(On(w, store), Again(Pass(w, s0)), p);
    }
  }

  /** A row that stops a pass stops every later one too, for as long as its file stays as it is. */
  lemma StoppedForGood(w: Setting, s0: Progress, store: Blobs)
    requires Begun(w, s0) && !Uploadable(w, s0.rows)
    ensures !Uploadable(On(w, store), Pass(w, s0).rows)
  {
    var toUpload, s := UpdatedLocally(s0.rows, w.ns), Pass(w, s0);
    var n := OfferablePrefix(w, toUpload);
    PassDone(w, s0);
    UploadablePrefix(w, s0.rows);
    PrefixMeaning(w, toUpload, n);
    UpdatedLocallyAwaits(s0.rows, w.ns);
    NextUntouched(w, s0, s, toUpload, n);
    QueriesAreView(s.rows, w.ns, toUpload[n]);
    assert toUpload[n] in UpdatedLocally(s.rows, w.ns) && !Offerable(On(w, store), toUpload[n]);
  }
}
