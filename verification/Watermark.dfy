/**
 The only thing a client remembers of the server's journal is its highest jid. When is that enough to
 miss nothing? (client/src/syncer.rs, client/src/registry.rs, server/src/metadata/db.rs)
 */
module Watermarks {
  import opened Octets
  import opened Paths
  import opened Log
  import opened Journals
  import opened Servers
  import opened Registries
  import opened Disks
  import opened Chunking
  import D = Download
  import U = Upload

  /** The largest jid among a path's rows. */
  function HighestJid(t: seq<FileRecord>, ns: int, p: Path): Option<nat> {
    if t == [] then None
    else
      var r, before := t[|t| - 1], HighestJid(t[..|t| - 1], ns, p);
      if r.owner == ns && r.path == p && r.value.jid.Some? && (before.None? || before.value <= r.value.jid.value) then r.value.jid
      else before
  }

  ghost predicate HasJid(t: seq<FileRecord>, ns: int, p: Path, j: nat) {
    exists r | r in t :: r.owner == ns && r.path == p && r.value.jid == Some(j)
  }

  lemma {:induction false} HighestJidMeaning(t: seq<FileRecord>, ns: int, p: Path)
    ensures HighestJid(t, ns, p).Some? ==> HasJid(t, ns, p, HighestJid(t, ns, p).value)
    ensures forall j: nat | HasJid(t, ns, p, j) :: HighestJid(t, ns, p).Some? && j <= HighestJid(t, ns, p).value
  {
    if t != [] {
      var n := |t| - 1;
      HighestJidMeaning(t[..n], ns, p);
      assert t == t[..n] + [t[n]];
      assert forall j: nat | HasJid(t[..n], ns, p, j) :: HasJid(t, ns, p, j);
      forall j: nat | HasJid(t, ns, p, j)
        ensures HasJid(t[..n], ns, p, j) || (t[n].owner == ns && t[n].path == p && t[n].value.jid == Some(j))
      {
      }
      assert t[n] in t;
    }
  }

  /** Every jid in the registry is the id of a record of that path in the journal. */
  ghost predicate Rooted(journal: seq<Record>, user: int, rows: seq<FileRecord>, ns: int) {
    forall r | r in rows && r.owner == ns && r.value.jid.Some? :: RecordOf(journal, user, r.path, r.value.jid.value)
  }

  ghost predicate RecordOf(journal: seq<Record>, user: int, p: Path, j: nat) {
    exists g | g in journal :: g.id == j && g.owner == user && g.path == p
  }

  /** The newest record of a path, when the watermark has reached it, is in the registry. */
  ghost predicate Recorded(journal: seq<Record>, user: int, rows: seq<FileRecord>, ns: int, p: Path) {
    p in View(journal, user) && View(journal, user)[p].id <= Watermark(rows, ns) ==>
      HasJid(rows, ns, p, View(journal, user)[p].id)
  }

  /** Below the watermark nothing is missed. */
  ghost predicate Sound(journal: seq<Record>, user: int, rows: seq<FileRecord>, ns: int) {
    forall p :: Recorded(journal, user, rows, ns, p)
  }

  /** The server knows of nothing above the watermark. */
  ghost predicate CaughtUp(journal: seq<Record>, user: int, rows: seq<FileRecord>, ns: int) {
    forall p | p in View(journal, user) :: View(journal, user)[p].id <= Watermark(rows, ns)
  }

  lemma WatermarkMeaning(rows: seq<FileRecord>, ns: int)
    ensures forall p: Path, j: nat | HasJid(rows, ns, p, j) :: j <= Watermark(rows, ns)
    ensures Watermark(rows, ns) > 0 ==> exists p :: HasJid(rows, ns, p, Watermark(rows, ns))
  {
    LatestJidMeaning(rows, ns);
    if Watermark(rows, ns) > 0 {
      var r :| r in rows && r.owner == ns && r.value.jid == LatestJid(rows, ns);
      assert HasJid(rows, ns, r.path, Watermark(rows, ns));
    }
  }

  /** No jid of a path is above the id of its newest record, so a recorded newest id is the highest jid. */
  lemma {:induction false} RootedBelow(journal: seq<Record>, user: int, rows: seq<FileRecord>, ns: int, p: Path, j: nat)
    requires Increasing(journal) && Rooted(journal, user, rows, ns) && HasJid(rows, ns, p, j)
    ensures p in View(journal, user) && 0 < j <= View(journal, user)[p].id && j <= LastId(journal)
  {
    var r :| r in rows && r.owner == ns && r.path == p && r.value.jid == Some(j);
    var g :| g in journal && g.id == j && g.owner == user && g.path == p;
    ViewMeaning(journal, user);
    LastIdIsMax(journal);
  }

  /** The watermark never runs ahead of the journal. */
  lemma WatermarkInJournal(journal: seq<Record>, user: int, rows: seq<FileRecord>, ns: int)
    requires Increasing(journal) && Rooted(journal, user, rows, ns)
    ensures Watermark(rows, ns) <= LastId(journal)
  {
    WatermarkMeaning(rows, ns);
    if Watermark(rows, ns) > 0 {
      var p :| HasJid(rows, ns, p, Watermark(rows, ns));
      RootedBelow(journal, user, rows, ns, p, Watermark(rows, ns));
    }
  }

  /** The newest record of a path, when the watermark has reached it, has the path's highest jid. */
  ghost predicate Topmost(journal: seq<Record>, user: int, rows: seq<FileRecord>, ns: int, p: Path) {
    p in View(journal, user) && View(journal, user)[p].id <= Watermark(rows, ns) ==>
      HighestJid(rows, ns, p) == Some(View(journal, user)[p].id)
  }

  /**
   What soundness says to a reader: a path whose newest record is not above the watermark has exactly
   that record's id as its highest jid.
   */
  lemma {:induction false} SoundIsExact(journal: seq<Record>, user: int, rows: seq<FileRecord>, ns: int)
    requires Increasing(journal) && Rooted(journal, user, rows, ns)
    ensures Sound(journal, user, rows, ns) <==> forall p :: Topmost(journal, user, rows, ns, p)
  {
    forall p
      ensures Recorded(journal, user, rows, ns, p) <==> Topmost(journal, user, rows, ns, p)
    {
      if p in View(journal, user) {
        RecordedIsHighest(journal, user, rows, ns, p);
      }
    }
  }

  lemma {:induction false} RecordedIsHighest(journal: seq<Record>, user: int, rows: seq<FileRecord>, ns: int, p: Path)
    requires Increasing(journal) && Rooted(journal, user, rows, ns) && p in View(journal, user)
    ensures HasJid(rows, ns, p, View(journal, user)[p].id) <==> HighestJid(rows, ns, p) == Some(View(journal, user)[p].id)
  {
    HighestJidMeaning(rows, ns, p);
    if HighestJid(rows, ns, p).Some? {
      RootedBelow(journal, user, rows, ns, p, HighestJid(rows, ns, p).value);
    }
  }

  /** Records appended to the journal leave those before alone. */
  lemma {:induction false} GrownView(journal: seq<Record>, journal1: seq<Record>, user: int, p: Path)
    requires journal <= journal1 && Increasing(journal1)
    requires p in View(journal1, user) && View(journal1, user)[p].id <= LastId(journal)
    ensures p in View(journal, user) && View(journal, user)[p] == View(journal1, user)[p]
  {
    ViewMeaning(journal1, user);
    var g := View(journal1, user)[p];
    var i :| 0 <= i < |journal1| && journal1[i] == g;
    assert journal1[i].id > 0;
    if i < |journal| {
      assert journal[i] == g;
    }
    assert g in journal;
    OldNewest(journal, journal1, user, g);
  }

  lemma {:induction false} OldNewest(journal: seq<Record>, journal1: seq<Record>, user: int, g: Record)
    requires journal <= journal1 && Increasing(journal1) && g in journal && IsNewest(journal1, user, g)
    ensures g.path in View(journal, user) && View(journal, user)[g.path] == g
  {
    assert Increasing(journal);
    ViewMeaning(journal, user);
    var v := View(journal, user)[g.path];
    assert v in journal1;
    UniqueIds(journal, v, g);
  }

  /** Peers committing keeps the client's watermark sound. */
  lemma PeersKeepSound(journal: seq<Record>, journal1: seq<Record>, user: int, rows: seq<FileRecord>, ns: int)
    requires journal <= journal1 && Increasing(journal1)
    requires Rooted(journal, user, rows, ns) && Sound(journal, user, rows, ns)
    ensures Rooted(journal1, user, rows, ns) && Sound(journal1, user, rows, ns)
  {
    assert Increasing(journal);
    WatermarkInJournal(journal, user, rows, ns);
    RootedGrows(journal, journal1, user, rows, ns);
    forall p
      ensures Recorded(journal1, user, rows, ns, p)
    {
      assert Recorded(journal, user, rows, ns, p);
      if p in View(journal1, user) && View(journal1, user)[p].id <= Watermark(rows, ns) {
        GrownView(journal, journal1, user, p);
      }
    }
  }

  lemma RootedGrows(journal: seq<Record>, journal1: seq<Record>, user: int, rows: seq<FileRecord>, ns: int)
    requires journal <= journal1 && Rooted(journal, user, rows, ns)
    ensures Rooted(journal1, user, rows, ns)
  {
    forall r | r in rows && r.owner == ns && r.value.jid.Some?
      ensures RecordOf(journal1, user, r.path, r.value.jid.value)
    {
      var g :| g in journal && g.id == r.value.jid.value && g.owner == user && g.path == r.path;
      assert g in journal1;
    }
  }

  /** The jids after the first `n` listed records have landed. */
  lemma LoggedJids(ns: int, rows0: seq<FileRecord>, rows: seq<FileRecord>, listing: seq<Record>, n: nat, p: Path, j: nat)
    requires n <= |listing| && D.Logged(ns, rows0, rows, listing, n)
    ensures HasJid(rows, ns, p, j) <==>
            HasJid(rows0, ns, p, j) || exists i | 0 <= i < n :: listing[i].path == p && listing[i].id == j
  {
    if HasJid(rows, ns, p, j) {
      var r :| r in rows && r.owner == ns && r.path == p && r.value.jid == Some(j);
      var x :| 0 <= x < |rows| && rows[x] == r;
      if x < |rows0| {
        assert rows0[x] == r && r in rows0;
      } else {
        var i := x - |rows0|;
        assert rows[|rows0| + i] == r;
        assert listing[i].path == p && listing[i].id == j;
      }
    }
    if i :| 0 <= i < n && listing[i].path == p && listing[i].id == j {
      assert rows[|rows0| + i] in rows;
    }
    if HasJid(rows0, ns, p, j) {
      var r :| r in rows0 && r.owner == ns && r.path == p && r.value.jid == Some(j);
      assert r in rows;
    }
  }

  lemma LoggedWatermark(ns: int, rows0: seq<FileRecord>, rows: seq<FileRecord>, listing: seq<Record>, n: nat)
    requires n <= |listing| && D.Logged(ns, rows0, rows, listing, n)
    ensures Watermark(rows0, ns) <= Watermark(rows, ns)
    ensures forall i | 0 <= i < n :: listing[i].id <= Watermark(rows, ns)
    ensures Watermark(rows, ns) == Watermark(rows0, ns) || exists i | 0 <= i < n :: listing[i].id == Watermark(rows, ns)
  {
    WatermarkMeaning(rows0, ns);
    WatermarkMeaning(rows, ns);
    var w0, w := Watermark(rows0, ns), Watermark(rows, ns);
    if w0 > 0 {
      var p :| HasJid(rows0, ns, p, w0);
      LoggedJids(ns, rows0, rows, listing, n, p, w0);
    }
    forall i | 0 <= i < n
      ensures listing[i].id <= w
    {
      LoggedJids(ns, rows0, rows, listing, n, listing[i].path, listing[i].id);
    }
    if w > 0 {
      var p :| HasJid(rows, ns, p, w);
      LoggedJids(ns, rows0, rows, listing, n, p, w);
    }
  }

  /** A listing as the server gives it to the client. */
  ghost predicate Listed(journal: seq<Record>, user: int, rows0: seq<FileRecord>, ns: int, listing: seq<Record>) {
    Increasing(journal) && Lists(listing, Newer(journal, user, Watermark(rows0, ns)))
  }

  lemma {:induction false} ListedMeaning(journal: seq<Record>, user: int, rows0: seq<FileRecord>, ns: int,
                                         listing: seq<Record>, i: nat)
    requires Listed(journal, user, rows0, ns, listing) && i < |listing|
    ensures var d := listing[i];
            d in journal && d.owner == user && d.id > Watermark(rows0, ns) &&
            d.path in View(journal, user) && View(journal, user)[d.path] == d
  {
    assert listing[i] in listing;
    NewerIsView(journal, user, Watermark(rows0, ns), listing[i]);
    ViewMeaning(journal, user);
  }

  lemma ListedFinds(journal: seq<Record>, user: int, rows0: seq<FileRecord>, ns: int, listing: seq<Record>, p: Path)
    returns (i: nat)
    requires Listed(journal, user, rows0, ns, listing)
    requires p in View(journal, user) && View(journal, user)[p].id > Watermark(rows0, ns)
    ensures i < |listing| && listing[i] == View(journal, user)[p] && listing[i].path == p
  {
    ViewMeaning(journal, user);
    NewerIsView(journal, user, Watermark(rows0, ns), View(journal, user)[p]);
    i :| 0 <= i < |listing| && listing[i] == View(journal, user)[p];
  }

  lemma LandingKeepsRooted(journal: seq<Record>, user: int, rows0: seq<FileRecord>, rows: seq<FileRecord>, ns: int,
                           listing: seq<Record>, n: nat)
    requires Listed(journal, user, rows0, ns, listing) && Rooted(journal, user, rows0, ns)
    requires n <= |listing| && D.Logged(ns, rows0, rows, listing, n)
    ensures Rooted(journal, user, rows, ns)
  {
    forall r | r in rows && r.owner == ns && r.value.jid.Some?
      ensures RecordOf(journal, user, r.path, r.value.jid.value)
    {
      var j := r.value.jid.value;
      assert HasJid(rows, ns, r.path, j);
      LoggedJids(ns, rows0, rows, listing, n, r.path, j);
      if i :| 0 <= i < n && listing[i].path == r.path && listing[i].id == j {
        ListedMeaning(journal, user, rows0, ns, listing, i);
      } else {
        var q :| q in rows0 && q.owner == ns && q.path == r.path && q.value.jid == Some(j);
      }
    }
  }

  /** All that have landed are older than all that have not. */
  ghost predicate OldestFirst(listing: seq<Record>, n: nat)
    requires n <= |listing|
  {
    forall i, j | 0 <= i < n <= j < |listing| :: listing[i].id < listing[j].id
  }

  lemma LaggardBreaksSound(journal: seq<Record>, user: int, rows0: seq<FileRecord>, rows: seq<FileRecord>, ns: int,
                           listing: seq<Record>, n: nat, i: nat, j: nat)
    requires Listed(journal, user, rows0, ns, listing)
    requires n <= |listing| && D.Logged(ns, rows0, rows, listing, n)
    requires i < n <= j < |listing| && listing[i].id >= listing[j].id
    ensures !Recorded(journal, user, rows, ns, listing[j].path)
  {
    var d := listing[j];
    ListedMeaning(journal, user, rows0, ns, listing, j);
    LoggedWatermark(ns, rows0, rows, listing, n);
    LoggedJids(ns, rows0, rows, listing, n, d.path, d.id);
    WatermarkMeaning(rows0, ns);
    ListingPathsDistinct(journal, user, Watermark(rows0, ns), listing);
  }

  lemma LandedRecorded(journal: seq<Record>, user: int, rows0: seq<FileRecord>, rows: seq<FileRecord>, ns: int,
                       listing: seq<Record>, n: nat, p: Path)
    requires Listed(journal, user, rows0, ns, listing) && Recorded(journal, user, rows0, ns, p)
    requires n <= |listing| && D.Logged(ns, rows0, rows, listing, n) && OldestFirst(listing, n)
    ensures Recorded(journal, user, rows, ns, p)
  {
    LoggedWatermark(ns, rows0, rows, listing, n);
    if p in View(journal, user) && View(journal, user)[p].id <= Watermark(rows, ns) {
      var g := View(journal, user)[p];
      LoggedJids(ns, rows0, rows, listing, n, p, g.id);
      if g.id > Watermark(rows0, ns) {
        var j := ListedFinds(journal, user, rows0, ns, listing, p);
        assert j < n;
      }
    }
  }

  /**
   A download pass that stops after `n` records leaves the watermark sound exactly when every record
   still to come is newer than every one that landed. The server's answer is in no order, so a pass
   that fails halfway may skip records for good.
   */
  lemma PartialPassExact(journal: seq<Record>, user: int, rows0: seq<FileRecord>, rows: seq<FileRecord>, ns: int,
                         listing: seq<Record>, n: nat)
    requires Listed(journal, user, rows0, ns, listing)
    requires Rooted(journal, user, rows0, ns) && Sound(journal, user, rows0, ns)
    requires n <= |listing| && D.Logged(ns, rows0, rows, listing, n)
    ensures Rooted(journal, user, rows, ns)
    ensures Sound(journal, user, rows, ns) <==> OldestFirst(listing, n)
  {
    LandingKeepsRooted(journal, user, rows0, rows, ns, listing, n);
    if OldestFirst(listing, n) {
      forall p
        ensures Recorded(journal, user, rows, ns, p)
      {
        LandedRecorded(journal, user, rows0, rows, ns, listing, n, p);
      }
    } else {
      var i, j :| 0 <= i < n <= j < |listing| && listing[i].id >= listing[j].id;
      LaggardBreaksSound(journal, user, rows0, rows, ns, listing, n, i, j);
    }
  }

  /** A completed pass keeps the watermark sound, and has every path's newest record. */
  lemma PassKeepsSound(journal: seq<Record>, user: int, rows0: seq<FileRecord>, rows: seq<FileRecord>, ns: int, listing: seq<Record>)
    requires Listed(journal, user, rows0, ns, listing)
    requires Rooted(journal, user, rows0, ns) && Sound(journal, user, rows0, ns)
    requires D.Logged(ns, rows0, rows, listing, |listing|)
    ensures Rooted(journal, user, rows, ns) && Sound(journal, user, rows, ns) && CaughtUp(journal, user, rows, ns)
  {
    PartialPassExact(journal, user, rows0, rows, ns, listing, |listing|);
    LoggedWatermark(ns, rows0, rows, listing, |listing|);
    forall p | p in View(journal, user)
      ensures View(journal, user)[p].id <= Watermark(rows, ns)
    {
      if View(journal, user)[p].id > Watermark(rows0, ns) {
        var i := ListedFinds(journal, user, rows0, ns, listing, p);
      }
    }
  }

  /** The jids after an own commit. */
  lemma CommitJids(rows: seq<FileRecord>, ns: int, f: FileRecord, j: nat, p: Path, x: nat)
    requires Increasing(rows) && f in rows && f.owner == ns && f.value.jid.None?
    ensures HasJid(JidSet(rows, f.id, j), ns, p, x) <==> HasJid(rows, ns, p, x) || (p == f.path && x == j)
  {
    var rows1 := JidSet(rows, f.id, j);
    forall i | 0 <= i < |rows|
      ensures rows1[i] == if rows[i] == f then WithJid(f, j) else rows[i]
    {
      if rows[i].id == f.id {
        UniqueIds(rows, rows[i], f);
      }
    }
    if HasJid(rows, ns, p, x) {
      var r :| r in rows && r.owner == ns && r.path == p && r.value.jid == Some(x);
      var i :| 0 <= i < |rows| && rows[i] == r;
      assert rows1[i] in rows1;
    }
    var i :| 0 <= i < |rows| && rows[i] == f;
    assert rows1[i] in rows1;
  }

  lemma CommitWatermark(rows: seq<FileRecord>, ns: int, f: FileRecord, j: nat)
    requires Increasing(rows) && f in rows && f.owner == ns && f.value.jid.None?
    ensures var w := Watermark(rows, ns);
            Watermark(JidSet(rows, f.id, j), ns) == if w < j then j else w
  {
    var rows1 := JidSet(rows, f.id, j);
    var w, w1 := Watermark(rows, ns), Watermark(rows1, ns);
    WatermarkMeaning(rows, ns);
    WatermarkMeaning(rows1, ns);
    CommitJids(rows, ns, f, j, f.path, j);
    if w > 0 {
      var p :| HasJid(rows, ns, p, w);
      CommitJids(rows, ns, f, j, p, w);
    }
    if w1 > 0 {
      var p :| HasJid(rows1, ns, p, w1);
      CommitJids(rows, ns, f, j, p, w1);
    }
  }

  /** Nothing unlisted, of any other path, is older than the commit. */
  ghost predicate NothingBetween(journal: seq<Record>, user: int, rows: seq<FileRecord>, ns: int, p: Path, j: nat) {
    forall q | q in View(journal, user) && q != p :: !(Watermark(rows, ns) < View(journal, user)[q].id <= j)
  }

  /** An own commit: the path's newest record in the journal is `j`, and the row bears it. */
  ghost predicate OwnCommit(journal: seq<Record>, journal1: seq<Record>, user: int, rows: seq<FileRecord>, ns: int,
                            f: FileRecord, j: nat) {
    Increasing(journal) && Increasing(journal1) && journal <= journal1 && Increasing(rows) &&
    f in rows && f.owner == ns && f.value.jid.None? &&
    f.path in View(journal1, user) && View(journal1, user)[f.path].id == j &&
    View(journal1, user) == View(journal, user)[f.path := View(journal1, user)[f.path]]
  }

  lemma CommitIsOwn(journal: seq<Record>, store: Blobs, user: int, rows: seq<FileRecord>, ns: int, f: FileRecord, v: Version)
    requires Increasing(journal) && Increasing(rows) && f in rows && f.owner == ns && f.value.jid.None?
    ensures var c := CommitStep(journal, store, user, f.path, v);
            c.answer.Success? ==> OwnCommit(journal, c.rows, user, rows, ns, f, c.answer.jid)
  {
    CommitEffect(journal, store, user, f.path, v);
  }

  lemma OwnCommitRooted(journal: seq<Record>, journal1: seq<Record>, user: int, rows: seq<FileRecord>, ns: int,
                        f: FileRecord, j: nat)
    requires OwnCommit(journal, journal1, user, rows, ns, f, j) && Rooted(journal, user, rows, ns)
    ensures Rooted(journal1, user, JidSet(rows, f.id, j), ns)
  {
    var rows1 := JidSet(rows, f.id, j);
    RootedGrows(journal, journal1, user, rows, ns);
    forall r | r in rows1 && r.owner == ns && r.value.jid.Some?
      ensures RecordOf(journal1, user, r.path, r.value.jid.value)
    {
      var x := r.value.jid.value;
      assert HasJid(rows1, ns, r.path, x);
      CommitJids(rows, ns, f, j, r.path, x);
      if HasJid(rows, ns, r.path, x) {
        var q :| q in rows && q.owner == ns && q.path == r.path && q.value.jid == Some(x);
      } else {
        ViewMeaning(journal1, user);
      }
    }
  }

  lemma {:induction false} OwnCommitRecorded(journal: seq<Record>, journal1: seq<Record>, user: int,
                                             rows: seq<FileRecord>, ns: int,
                          f: FileRecord, j: nat, q: Path)
    requires OwnCommit(journal, journal1, user, rows, ns, f, j)
    requires Rooted(journal, user, rows, ns) && Recorded(journal, user, rows, ns, q)
    ensures Recorded(journal1, user, JidSet(rows, f.id, j), ns, q) <==>
            q == f.path || q !in View(journal, user) || !(Watermark(rows, ns) < View(journal, user)[q].id <= j)
  {
    CommitWatermark(rows, ns, f, j);
    if q in View(journal1, user) {
      var x := View(journal1, user)[q].id;
      CommitJids(rows, ns, f, j, q, x);
      WatermarkMeaning(rows, ns);
    }
  }

  /**
   An own upload keeps the watermark sound exactly when the client has not yet to hear of a record, of
   another path, that is older than its own: such a record would never be listed again.
   */
  lemma OwnCommitExact(journal: seq<Record>, journal1: seq<Record>, user: int, rows: seq<FileRecord>, ns: int,
                       f: FileRecord, j: nat)
    requires OwnCommit(journal, journal1, user, rows, ns, f, j)
    requires Rooted(journal, user, rows, ns) && Sound(journal, user, rows, ns)
    ensures Rooted(journal1, user, JidSet(rows, f.id, j), ns)
    ensures Sound(journal1, user, JidSet(rows, f.id, j), ns) <==> NothingBetween(journal, user, rows, ns, f.path, j)
  {
    OwnCommitRooted(journal, journal1, user, rows, ns, f, j);
    forall q
      ensures Recorded(journal1, user, JidSet(rows, f.id, j), ns, q) <==>
              q == f.path || q !in View(journal, user) || !(Watermark(rows, ns) < View(journal, user)[q].id <= j)
    {
      assert Recorded(journal, user, rows, ns, q);
      OwnCommitRecorded(journal, journal1, user, rows, ns, f, j, q);
    }
  }

  /** A client that was caught up stays sound and caught up when it commits. */
  lemma CaughtUpCommits(journal: seq<Record>, journal1: seq<Record>, user: int, rows: seq<FileRecord>, ns: int,
                        f: FileRecord, j: nat)
    requires OwnCommit(journal, journal1, user, rows, ns, f, j)
    requires Rooted(journal, user, rows, ns) && Sound(journal, user, rows, ns) && CaughtUp(journal, user, rows, ns)
    ensures var rows1 := JidSet(rows, f.id, j);
            Rooted(journal1, user, rows1, ns) && Sound(journal1, user, rows1, ns) && CaughtUp(journal1, user, rows1, ns)
  {
    OwnCommitExact(journal, journal1, user, rows, ns, f, j);
    CommitWatermark(rows, ns, f, j);
  }

  /** Sound, and nothing unlisted. */
  ghost predicate Abreast(user: int, ns: int, journal: seq<Record>, rows: seq<FileRecord>) {
    Rooted(journal, user, rows, ns) && Sound(journal, user, rows, ns) && CaughtUp(journal, user, rows, ns)
  }

  lemma OneKeepsAbreast(w: U.Setting, s: U.Progress, f: FileRecord)
    requires IsDigest(w.h) && Increasing(s.journal) && Increasing(s.rows)
    requires f in s.rows && f.owner == w.ns && f.value.jid.None?
    requires Abreast(w.user, w.ns, s.journal, s.rows)
    ensures var s1 := U.UploadOne(w, s, f); Abreast(w.user, w.ns, s1.journal, s1.rows)
  {
    var v := U.Offered(w, f);
    var c := CommitStep(s.journal, w.store, w.user, f.path, v);
    if c.answer.Success? {
      CommitIsOwn(s.journal, w.store, w.user, s.rows, w.ns, f, v);
      CaughtUpCommits(s.journal, c.rows, w.user, s.rows, w.ns, f, c.answer.jid);
    }
  }

  ghost predicate AbreastOnCourse(w: U.Setting, s: U.Progress, toUpload: seq<FileRecord>, n: nat)
    requires IsDigest(w.h) && n <= |toUpload|
  {
    (n > 0 ==> AbreastOnCourse(w, s, toUpload, n - 1)) &&
    Abreast(w.user, w.ns, U.UploadFirst(w, s, toUpload, n).journal, U.UploadFirst(w, s, toUpload, n).rows)
  }

  lemma NextRow(w: U.Setting, s0: U.Progress, s: U.Progress, toUpload: seq<FileRecord>, n: nat)
    requires IsDigest(w.h) && n < |toUpload| && U.Awaiting(s0.rows, w.ns, toUpload)
    requires U.Sane(w, s0, s) && U.UploadedTo(w, s0, s, toUpload, n)
    ensures Increasing(s.journal) && Increasing(s.rows)
    ensures toUpload[n] in s.rows && toUpload[n].owner == w.ns && toUpload[n].value.jid.None?
  {
    U.NextUntouched(w, s0, s, toUpload, n);
    ViewMeaning(s.rows, w.ns);
  }

  lemma {:induction false} UploadsKeepAbreast(w: U.Setting, s: U.Progress, toUpload: seq<FileRecord>, n: nat)
    requires U.Begun(w, s) && U.Awaiting(s.rows, w.ns, toUpload) && n <= |toUpload| && U.OnCourse(w, s, toUpload, n)
    requires Abreast(w.user, w.ns, s.journal, s.rows)
    ensures AbreastOnCourse(w, s, toUpload, n)
  {
    if n > 0 {
      UploadsKeepAbreast(w, s, toUpload, n - 1);
      NextRow(w, s, U.UploadFirst(w, s, toUpload, n - 1), toUpload, n - 1);
      OneKeepsAbreast(w, U.UploadFirst(w, s, toUpload, n - 1), toUpload[n - 1]);
    }
  }

  /** A whole upload pass, begun caught up and with no peer in between, misses nothing and stays caught up. */
  lemma UploadPassKeepsSound(w: U.Setting, s: U.Progress)
    requires U.Begun(w, s) && Abreast(w.user, w.ns, s.journal, s.rows)
    ensures Abreast(w.user, w.ns, U.Pass(w, s).journal, U.Pass(w, s).rows)
  {
    var toUpload := UpdatedLocally(s.rows, w.ns);
    U.UpdatedLocallyAwaits(s.rows, w.ns);
    U.PassOnCourse(w, s);
    UploadsKeepAbreast(w, s, toUpload, U.OfferablePrefix(w, toUpload));
    U.PassTables(w, s);
  }

  /**
   A record at or below the watermark that the registry lacks stays unlisted through everything the
   client does, until its path gets another record.
   */
  lemma {:induction false} SkippedForever(journal: seq<Record>, journal1: seq<Record>, user: int,
                                          rows: seq<FileRecord>, rows1: seq<FileRecord>,
                       ns: int, p: Path)
    requires Increasing(journal1) && Evolves(rows, rows1)
    requires p in View(journal, user) && !Recorded(journal, user, rows, ns, p)
    requires p in View(journal1, user) && View(journal1, user)[p] == View(journal, user)[p]
    ensures forall d | d in Newer(journal1, user, Watermark(rows1, ns)) :: d.path != p
  {
    EvolvesWatermark(rows, rows1, ns);
    forall d | d in Newer(journal1, user, Watermark(rows1, ns))
      ensures d.path != p
    {
      NewerIsView(journal1, user, Watermark(rows1, ns), d);
    }
  }

  /** That does happen: a peer records `p`, the client has not listed it, and commits its own `q`. */
  lemma UploadMaySkip(user: int, ns: int, p: Path, q: Path, v: Version, meta: Meta)
    requires p != q && v.chunkIds == []
    ensures var journal := Insert([], user, p, v);
            var f := Row(1, ns, q, Local(None, false, meta));
            var c := CommitStep(journal, map[], user, q, Version([], false));
            c.answer == Success(2) && Sound(journal, user, [f], ns) && Rooted(journal, user, [f], ns) &&
            !Recorded(c.rows, user, JidSet([f], 1, 2), ns, p)
  {
    var journal: seq<Record> := Insert([], user, p, v);
    var f := Row(1, ns, q, Local(None, false, meta));
    NonLocalEmpty(map[], []);
    LatestIsView(journal, user, q);
    CommitIsOwn(journal, map[], user, [f], ns, f, Version([], false));
    WatermarkMeaning([f], ns);
    assert journal[..0] == [];
    ViewMeaning(journal, user);
    assert forall o, x :: !HasJid([f], ns, o, x);
    assert Sound(journal, user, [f], ns) by {
      assert Watermark([f], ns) == 0;
      assert forall o | o in View(journal, user) :: View(journal, user)[o].id == 1;
    }
    OwnCommitRecorded(journal, CommitStep(journal, map[], user, q, Version([], false)).rows, user, [f], ns, f, 2, p);
  }

  /** A row of each path of a two-record journal is in a listing from the start, in either order. */
  lemma {:induction false} BothListed(user: int, ns: int, p: Path, q: Path, v: Version)
    requires p != q
    ensures var g, d := Row(1, user, p, v), Row(2, user, q, v);
            View([g, d], user) == map[p := g, q := d] && Listed([g, d], user, [], ns, [d, g])
  {
    var g, d := Row(1, user, p, v), Row(2, user, q, v);
    var journal := [g, d];
    assert journal[..1] == [g] && [g][..0] == [];
    assert View([g], user) == map[p := g];
    assert View(journal, user) == map[p := g, q := d];
    forall r
      ensures r in [d, g] <==> r in Newer(journal, user, 0)
    {
      NewerIsView(journal, user, 0, r);
    }
  }

  /** A file `a` on the disk lets a file `c` land. */
  lemma {:induction false} OtherLands(k: D.Shelf, a: Name, c: Name, own: File, d: Record)
    requires a != c && d.path == [c] && !d.value.deleted
    ensures var t := Tree(map[[a] := own], {[]});
            WellFormed(t) && D.CanLand(t, d) && [a] in D.LandedTree(k, t, d, D.TimeAt(k, 0)).files
  {
    var t := Tree(map[[a] := own], {[]});
    assert Parent([c]) == [] && [a] != [c];
    assert WellFormed(t) && D.CanLand(t, d);
  }

  /** And stops one below a folder `a`. */
  lemma {:induction false} OwnFileInTheWay(k: D.Shelf, a: Name, b: Name, c: Name, own: File, d: Record, e: Record)
    requires a != c && d.path == [c] && e.path == [a, b] && !d.value.deleted && !e.value.deleted
    ensures var l0 := D.Landing([], Tree(map[[a] := own], {[]}));
            WellFormed(l0.tree) && D.Warmable(l0.tree, [d, e]) && D.FailsAt(k, l0, [d, e], 1) &&
            D.Logged(k.ns, [], D.LandFirst(k, l0, [d, e], 1).rows, [d, e], 1)
  {
    var listing := [d, e];
    var l0 := D.Landing([], Tree(map[[a] := own], {[]}));
    OtherLands(k, a, c, own, d);
    NotYetThere(a, b, c, own, d, e);
    FirstLands(k, l0, listing);
    BelowFile(D.LandFirst(k, l0, listing, 1).tree, a, b, e);
  }

  lemma {:induction false} FirstLands(k: D.Shelf, l0: D.Landing, listing: seq<Record>)
    requires Increasing(l0.rows) && WellFormed(l0.tree) && |listing| == 2 && listing[0].path != listing[1].path
    requires D.CanLand(l0.tree, listing[0])
    ensures D.Lands(k, l0, listing, 1) && D.Logged(k.ns, l0.rows, D.LandFirst(k, l0, listing, 1).rows, listing, 1)
    ensures D.LandFirst(k, l0, listing, 1).tree == D.LandedTree(k, l0.tree, listing[0], D.TimeAt(k, 0))
  {
    assert D.LandFirst(k, l0, listing, 0) == l0 && D.Lands(k, l0, listing, 0);
    D.LandingReaches(k, l0, listing, 1);
  }

  lemma {:induction false} NotYetThere(a: Name, b: Name, c: Name, own: File, d: Record, e: Record)
    requires a != c && d.path == [c] && e.path == [a, b]
    ensures D.Warmable(Tree(map[[a] := own], {[]}), [d, e])
  {
  }

  lemma {:induction false} BelowFile(t: Tree, a: Name, b: Name, e: Record)
    requires [a] in t.files && e.path == [a, b] && !e.value.deleted
    ensures !D.CanLand(t, e)
  {
    assert Parent([a, b]) == [a] && [a][..1] == [a];
  }

  /**
   A failing pass does skip records: a peer has recorded a file below a folder `a`, and after it a file `c`.
   The client, which has a file `a` of its own, is given the newer record first. It lands; the older cannot;
   and from then on it is below the watermark.
   */
  lemma {:induction false} PartialPassMaySkip(user: int, k: D.Shelf, a: Name, b: Name, c: Name, own: File)
    requires a != c
    ensures var journal := [Row(1, user, [a, b], Version([], false)), Row(2, user, [c], Version([], false))];
            var listing, l0 := [journal[1], journal[0]], D.Landing([], Tree(map[[a] := own], {[]}));
            WellFormed(l0.tree) && Listed(journal, user, [], k.ns, listing) && D.Warmable(l0.tree, listing) &&
            D.FailsAt(k, l0, listing, 1) && !Recorded(journal, user, D.LandFirst(k, l0, listing, 1).rows, k.ns, [a, b])
  {
    var v := Version([], false);
    var journal := [Row(1, user, [a, b], v), Row(2, user, [c], v)];
    var listing, l0 := [journal[1], journal[0]], D.Landing([], Tree(map[[a] := own], {[]}));
    BothListed(user, k.ns, [a, b], [c], v);
    OwnFileInTheWay(k, a, b, c, own, listing[0], listing[1]);
    LaggardBreaksSound(journal, user, [], D.LandFirst(k, l0, listing, 1).rows, k.ns, listing, 1, 0, 1);
  }
}
