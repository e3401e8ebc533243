/** What a completed download pass leaves behind, and what a client holds over whole runs. */
module Replicas {
  import opened Octets
  import opened Paths
  import opened Log
  import opened Journals
  import opened Servers
  import opened Registries
  import opened Disks
  import opened Chunking
  import opened Indexers
  import opened Download
  import opened Watermarks
  import Downloader
  import ListCodec
  import U = Upload

  /** A folder with this path would be taken for a file by the indexer. */
  predicate LooksLikeFile(e: Path) {
    e != [] && Scannable(e) && !DotName(FileName(e))
  }

  /** No folder looks like a file. */
  ghost predicate Plain(t: Tree) {
    forall e | e in t.dirs :: !LooksLikeFile(e)
  }

  /** The indexer sees a file of this path, and no folder above it. */
  ghost predicate Quiet(p: Path) {
    Scannable(p) && forall i | 0 <= i < |p| :: !LooksLikeFile(p[..i])
  }

  ghost predicate InSyncAt(l: Landing, ns: int, stat: Stat, p: Path) {
    (p in Live(l.rows, ns) <==> p in Scan(l.tree, stat)) &&
    (p in Scan(l.tree, stat) ==> Live(l.rows, ns)[p] == Scan(l.tree, stat)[p])
  }

  lemma InSyncPathwise(l: Landing, ns: int, stat: Stat)
    ensures InSync(l.rows, ns, l.tree, stat) <==> forall p :: InSyncAt(l, ns, stat, p)
  {
    if forall p :: InSyncAt(l, ns, stat, p) {
      forall p
        ensures p in Live(l.rows, ns) <==> p in Scan(l.tree, stat)
        ensures p in Scan(l.tree, stat) ==> Live(l.rows, ns)[p] == Scan(l.tree, stat)[p]
      {
        assert InSyncAt(l, ns, stat, p);
      }
    }
  }

  lemma PlainScan(t: Tree, stat: Stat, p: Path)
    requires Plain(t)
    ensures p in Scan(t, stat) <==> p in t.files && Scannable(p)
    ensures p in Scan(t, stat) ==> Scan(t, stat)[p] == Meta(|t.files[p].content|, Truncate(t.files[p].mtime))
  {
  }

  /** All listed live paths are quiet. */
  ghost predicate AllQuiet(listing: seq<Record>) {
    forall i | 0 <= i < |listing| && !listing[i].value.deleted :: Quiet(listing[i].path)
  }

  lemma PlainAfter(l0: Landing, l: Landing, listing: seq<Record>)
    requires Plain(l0.tree) && FoldersFrom(l0, l, listing, |listing|) && AllQuiet(listing)
    ensures Plain(l.tree)
  {
    forall e | e in l.tree.dirs
      ensures !LooksLikeFile(e)
    {
      if e !in l0.tree.dirs {
        var i :| 0 <= i < |listing| && !listing[i].value.deleted && e < listing[i].path;
        assert Quiet(listing[i].path);
        assert e == listing[i].path[..|e|];
      }
    }
  }

  /** Where a pass starts in sync: the registry is the scan, and no folder is in the scan. */
  ghost predicate Calm(l: Landing, ns: int, stat: Stat) {
    WellFormed(l.tree) && Plain(l.tree) && InSync(l.rows, ns, l.tree, stat)
  }

  /** A pass that has landed the whole listing. */
  ghost predicate Done(k: Shelf, l0: Landing, l: Landing, listing: seq<Record>) {
    Kept(k.ns, l0, l) && LandedTo(k, l0, l, listing, |listing|) && FoldersFrom(l0, l, listing, |listing|)
  }

  lemma {:induction false} LiveAt(l: Landing, ns: int, p: Path)
    ensures p in Live(l.rows, ns) <==> p in View(l.rows, ns) && !View(l.rows, ns)[p].value.deleted
    ensures p in Live(l.rows, ns) ==> Live(l.rows, ns)[p] == View(l.rows, ns)[p].value.meta
  {
  }

  lemma ListedInSync(k: Shelf, l: Landing, d: Record, stat: Stat)
    requires Shown(k, l, d) && Plain(l.tree) && (!d.value.deleted ==> Scannable(d.path))
    ensures InSyncAt(l, k.ns, stat, d.path)
  {
    LiveAt(l, k.ns, d.path);
    PlainScan(l.tree, stat, d.path);
  }

  lemma SameInSync(ns: int, l0: Landing, l: Landing, stat: Stat, p: Path)
    requires Plain(l0.tree) && Plain(l.tree) && Untouched(ns, l0, l, p)
    ensures InSyncAt(l, ns, stat, p) <==> InSyncAt(l0, ns, stat, p)
  {
    LiveAt(l0, ns, p);
    LiveAt(l, ns, p);
    PlainScan(l0.tree, stat, p);
    PlainScan(l.tree, stat, p);
  }

  lemma QuietStaysInSync(k: Shelf, l0: Landing, l: Landing, listing: seq<Record>, stat: Stat)
    requires Calm(l0, k.ns, stat) && Done(k, l0, l, listing) && AllQuiet(listing)
    ensures Plain(l.tree) && InSync(l.rows, k.ns, l.tree, stat)
  {
    PlainAfter(l0, l, listing);
    InSyncPathwise(l0, k.ns, stat);
    forall p
      ensures InSyncAt(l, k.ns, stat, p)
    {
      if i :| 0 <= i < |listing| && listing[i].path == p {
        ListedInSync(k, l, listing[i], stat);
      } else {
        assert Unlisted(listing, |listing|, p);
        SameInSync(k.ns, l0, l, stat, p);
      }
    }
    InSyncPathwise(l, k.ns, stat);
  }

  /** A folder that looks like a file is in the scan, and not in the registry. */
  lemma FolderOutOfSync(k: Shelf, l0: Landing, l: Landing, listing: seq<Record>, stat: Stat, e: Path)
    requires Calm(l0, k.ns, stat) && Done(k, l0, l, listing)
    requires e in l.tree.dirs && LooksLikeFile(e)
    ensures !InSyncAt(l, k.ns, stat, e)
  {
    LiveAt(l, k.ns, e);
    assert e in Scan(l.tree, stat);
    if i :| 0 <= i < |listing| && listing[i].path == e {
      assert Shown(k, l, listing[i]);
    } else {
      assert Unlisted(listing, |listing|, e);
      assert Untouched(k.ns, l0, l, e);
      LiveAt(l0, k.ns, e);
      PlainScan(l0.tree, stat, e);
    }
  }

  lemma NoiseOutOfSync(k: Shelf, l0: Landing, l: Landing, listing: seq<Record>, stat: Stat, i: nat)
    requires Calm(l0, k.ns, stat) && Done(k, l0, l, listing)
    requires i < |listing| && !listing[i].value.deleted && !Quiet(listing[i].path)
    ensures exists p :: !InSyncAt(l, k.ns, stat, p)
  {
    var p := listing[i].path;
    assert Shown(k, l, listing[i]);
    if Scannable(p) {
      var m :| 0 <= m < |p| && LooksLikeFile(p[..m]);
      UpwardInDirs(l.tree, Parent(p));
      UpwardIsAbove(p, p[..m]);
      FolderOutOfSync(k, l0, l, listing, stat, p[..m]);
    } else {
      LiveAt(l, k.ns, p);
      assert !InSyncAt(l, k.ns, stat, p);
    }
  }

  /**
   A download never looks like a local change, exactly as long as what comes down is where the indexer
   looks: a completed pass keeps registry and disk in sync if and only if every live path it was given
   has a known format, lies in no hidden folder, and lies in no folder that is named like a file.
   */
  lemma {:induction false} DownloadKeepsInSync(k: Shelf, l0: Landing, listing: seq<Record>, stat: Stat)
    requires Increasing(l0.rows) && Calm(l0, k.ns, stat)
    requires forall i, j | 0 <= i < j < |listing| :: listing[i].path != listing[j].path
    requires Lands(k, l0, listing, |listing|)
    ensures var l := LandFirst(k, l0, listing, |listing|);
            InSync(l.rows, k.ns, l.tree, stat) <==> AllQuiet(listing)
  {
    var l := LandFirst(k, l0, listing, |listing|);
    LandingReaches(k, l0, listing, |listing|);
    if AllQuiet(listing) {
      QuietStaysInSync(k, l0, l, listing, stat);
    } else {
      var i :| 0 <= i < |listing| && !listing[i].value.deleted && !Quiet(listing[i].path);
      NoiseOutOfSync(k, l0, l, listing, stat, i);
      InSyncPathwise(l, k.ns, stat);
    }
  }

  /** An empty client is given an empty file that lies in a folder named like a recipe. */
  lemma {:induction false} NestedLands(k: Shelf, user: int, outer: Name, inner: Name)
    requires outer != [] && DOT !in outer && inner != [] && DOT !in inner
    ensures var p, l0 := Markdown(outer) + Markdown(inner), Landing([], Tree(map[], {[]}));
            var listing := [Row(1, user, p, Version([], false))];
            WellFormed(l0.tree) && Plain(l0.tree) && Lands(k, l0, listing, 1) && Done(k, l0, LandFirst(k, l0, listing, 1), listing)
  {
    var p, l0 := Markdown(outer) + Markdown(inner), Landing([], Tree(map[], {[]}));
    var listing := [Row(1, user, p, Version([], false))];
    assert LandFirst(k, l0, listing, 0) == l0 && CanLand(l0.tree, listing[0]);
    LandingReaches(k, l0, listing, 1);
  }

  /**
   That does happen: a client that scans such a disk records the file, and one that is in sync and downloads it
   takes the folder, in its next indexer pass, for a new file, which it can never upload.
   */
  lemma {:induction false} DownloadLooksLikeEdit(k: Shelf, stat: Stat, user: int, outer: Name, inner: Name,
                                                 toRemove: seq<Form>, toAdd: seq<Form>)
    requires outer != [] && DOT !in outer && inner != [] && DOT !in inner
    requires var p := Markdown(outer) + Markdown(inner);
             var l := LandFirst(k, Landing([], Tree(map[], {[]})), [Row(1, user, p, Version([], false))], 1);
             Compared(l.rows, k.ns, l.tree, stat, toRemove, toAdd)
    ensures var e, p, l0 := Markdown(outer), Markdown(outer) + Markdown(inner), Landing([], Tree(map[], {[]}));
            var l := LandFirst(k, l0, [Row(1, user, p, Version([], false))], 1);
            var rows1 := Inserted(Inserted(l.rows, toRemove), toAdd);
            Calm(l0, k.ns, stat) && p in Scan(l.tree, stat) && e !in l.tree.files &&
            e in View(rows1, k.ns) && !View(rows1, k.ns)[e].value.deleted && View(rows1, k.ns)[e].value.jid == None
  {
    var e, p, l0 := Markdown(outer), Markdown(outer) + Markdown(inner), Landing([], Tree(map[], {[]}));
    var listing := [Row(1, user, p, Version([], false))];
    var l := LandFirst(k, l0, listing, 1);
    NestedLands(k, user, outer, inner);
    NestedSeen(outer, inner);
    MarkdownSeen(outer);
    assert Shown(k, l, listing[0]);
    assert Parent(p) in l.tree.dirs;
    FolderRecorded(k, l0, l, listing, stat, e, toRemove, toAdd);
  }

  lemma {:induction false} FolderRecorded(k: Shelf, l0: Landing, l: Landing, listing: seq<Record>, stat: Stat, e: Path,
                       toRemove: seq<Form>, toAdd: seq<Form>)
    requires l0.rows == [] && l0.tree == Tree(map[], {[]}) && Increasing(l.rows) && Done(k, l0, l, listing)
    requires e in l.tree.dirs && LooksLikeFile(e) && Compared(l.rows, k.ns, l.tree, stat, toRemove, toAdd)
    ensures var rows1 := Inserted(Inserted(l.rows, toRemove), toAdd);
            Calm(l0, k.ns, stat) && e !in l.tree.files &&
            e in View(rows1, k.ns) && !View(rows1, k.ns)[e].value.deleted && View(rows1, k.ns)[e].value.jid == None
  {
    EmptyCalm(l0, k.ns, stat);
    FolderOutOfSync(k, l0, l, listing, stat, e);
    FolderScanned(l.tree, stat, e);
    AdditionRecorded(l.rows, k.ns, l.tree, stat, toRemove, toAdd, e);
  }

  lemma {:induction false} EmptyCalm(l: Landing, ns: int, stat: Stat)
    requires l.rows == [] && l.tree == Tree(map[], {[]})
    ensures Calm(l, ns, stat)
  {
    assert Live([], ns) == Scan(l.tree, stat);
  }

  lemma {:induction false} FolderScanned(t: Tree, stat: Stat, e: Path)
    requires WellFormed(t) && e in t.dirs && LooksLikeFile(e)
    ensures e in Scan(t, stat) && e !in t.files
  {
  }

  /** What the indexer sees and the registry does not have gets a row that awaits a jid. */
  lemma {:induction false} AdditionRecorded(rows: seq<FileRecord>, ns: int, t: Tree, stat: Stat,
                                            toRemove: seq<Form>, toAdd: seq<Form>, p: Path)
    requires Increasing(rows) && Compared(rows, ns, t, stat, toRemove, toAdd)
    requires p in Scan(t, stat) && !(p in Live(rows, ns) && Live(rows, ns)[p] == Scan(t, stat)[p])
    ensures var rows1 := Inserted(Inserted(rows, toRemove), toAdd);
            p in View(rows1, ns) && !View(rows1, ns)[p].value.deleted && View(rows1, ns)[p].value.jid == None
  {
    IndexConverges(rows, ns, t, stat, toRemove, toAdd);
    assert PathIndexed(rows, Inserted(Inserted(rows, toRemove), toAdd), ns, Scan(t, stat), p);
  }

  lemma {:induction false} PendingAt(l: Landing, ns: int, stat: Stat, p: Path)
    ensures Pending(l.rows, ns, Scan(l.tree, stat), p) <==>
            !InSyncAt(l, ns, stat, p) || (p in View(l.rows, ns) && View(l.rows, ns)[p].value.jid.None?)
  {
  }

  /**
   What a completed pass does to local changes that were waiting to be uploaded: they still wait afterwards if
   and only if the pass did not list their path. What it did list it has overwritten, as `Shown` says.
   */
  lemma {:induction false} PendingSurvives(k: Shelf, l0: Landing, listing: seq<Record>, stat: Stat, p: Path)
    requires Increasing(l0.rows) && WellFormed(l0.tree) && Plain(l0.tree) && AllQuiet(listing)
    requires forall i, j | 0 <= i < j < |listing| :: listing[i].path != listing[j].path
    requires Lands(k, l0, listing, |listing|)
    ensures var l := LandFirst(k, l0, listing, |listing|);
            Pending(l.rows, k.ns, Scan(l.tree, stat), p) <==>
            Pending(l0.rows, k.ns, Scan(l0.tree, stat), p) && Unlisted(listing, |listing|, p)
  {
    var l := LandFirst(k, l0, listing, |listing|);
    LandingReaches(k, l0, listing, |listing|);
    PlainAfter(l0, l, listing);
    PendingAt(l0, k.ns, stat, p);
    PendingAt(l, k.ns, stat, p);
    if i :| 0 <= i < |listing| && listing[i].path == p {
      ListedInSync(k, l, listing[i], stat);
    } else {
      assert Untouched(k.ns, l0, l, p);
      SameInSync(k.ns, l0, l, stat, p);
    }
  }

  lemma {:induction false} OneFileLands(k: Shelf, user: int, stem: Name, own: File)
    requires stem != [] && DOT !in stem
    ensures var p := Markdown(stem);
            var l0, listing := Landing([], Tree(map[p := own], {[]})), [Row(1, user, p, Version([], false))];
            WellFormed(l0.tree) && Plain(l0.tree) && AllQuiet(listing) && Lands(k, l0, listing, 1) &&
            Shown(k, LandFirst(k, l0, listing, 1), listing[0])
  {
    var p := Markdown(stem);
    var l0, listing := Landing([], Tree(map[p := own], {[]})), [Row(1, user, p, Version([], false))];
    MarkdownSeen(stem);
    assert LandFirst(k, l0, listing, 0) == l0 && CanLand(l0.tree, listing[0]);
    LandingReaches(k, l0, listing, 1);
  }

  /** A file that a client has not uploaded yet is lost when a peer has recorded an empty one of the same name. */
  lemma {:induction false} EditOverwritten(k: Shelf, stat: Stat, user: int, stem: Name, own: File)
    requires stem != [] && DOT !in stem
    ensures var p := Markdown(stem);
            var l0, listing := Landing([], Tree(map[p := own], {[]})), [Row(1, user, p, Version([], false))];
            var l := LandFirst(k, l0, listing, 1);
            Lands(k, l0, listing, 1) && Pending(l0.rows, k.ns, Scan(l0.tree, stat), p) &&
            !Pending(l.rows, k.ns, Scan(l.tree, stat), p) && p in l.tree.files && l.tree.files[p].content == []
  {
    var p := Markdown(stem);
    var l0, listing := Landing([], Tree(map[p := own], {[]})), [Row(1, user, p, Version([], false))];
    OneFileLands(k, user, stem, own);
    PendingSurvives(k, l0, listing, stat, p);
    assert !Unlisted(listing, 1, p) && ContentOf(k.blobs, []) == [] by {
      assert listing[0].path == p;
      EmptyContent(k.blobs);
    }
    MarkdownSeen(stem);
    assert p in Scan(l0.tree, stat);
  }

  lemma {:induction false} EmptyContent(blobs: Blobs)
    ensures ContentOf(blobs, []) == []
  {
    var ids: seq<Text> := [[]];
    ListCodec.SplitPiece([], COMMA);
    assert IdList([]) == ids;
    assert Assemble(blobs, ids[1..]) == [];
    assert Assemble(blobs, ids) == [];
  }

  /** The disk holds what the record says. */
  ghost predicate Held(store: Blobs, t: Tree, d: Record) {
    if d.value.deleted then d.path !in t.files
    else d.path in t.files && t.files[d.path].content == ContentOf(store, d.value.chunkIds)
  }

  /** A client, the journal it syncs with, and the chunks behind it. */
  datatype Replica = Replica(journal: seq<Record>, store: Blobs, land: Landing)

  /** Who the client is, and the chunks in play. */
  datatype Side = Side(h: Digest, known: set<Hashed>, user: int, ns: int)

  /**
   What happens to a client: others commit and upload; it completes a download pass, or breaks one off before
   its `n`-th record, for which a tombstone may already be in the registry; its indexer runs; its user edits
   files; it offers one of its own rows, or makes a whole upload pass.
   */
  datatype Step =
    | Others(journal: seq<Record>, store: Blobs)
    | Pass(listing: seq<Record>, clock: Clock)
    | Partial(listing: seq<Record>, clock: Clock, n: nat, stuck: bool)
    | Index(stat: Stat, toRemove: seq<Form>, toAdd: seq<Form>)
    | Edit(tree: Tree)
    | Offer(row: FileRecord, cache: Blobs, io: Reads)
    | Upload(cache: Blobs, io: Reads)

  function UploadSetting(c: Side, r: Replica, io: Reads): U.Setting {
    U.Setting(r.land.tree, c.h, io, r.store, c.user, c.ns)
  }

  function UploadStart(r: Replica, cache: Blobs): U.Progress {
    U.Progress(r.land.rows, cache, r.journal, [], true)
  }

  /** A whole upload pass is a step only of a client that is caught up; any other is row by row. */
  ghost predicate Enabled(c: Side, r: Replica, s: Step)
    requires IsDigest(c.h)
  {
    match s
    case Others(journal, _) => r.journal <= journal && Increasing(journal)
    case Pass(listing, clock) =>
      Listed(r.journal, c.user, r.land.rows, c.ns, listing) &&
      Lands(Shelf(c.ns, r.store, clock), r.land, listing, |listing|)
    case Partial(listing, clock, n, stuck) =>
      Listed(r.journal, c.user, r.land.rows, c.ns, listing) && n <= |listing| && (stuck ==> n < |listing|) &&
      Lands(Shelf(c.ns, r.store, clock), r.land, listing, n)
    case Index(stat, toRemove, toAdd) => Compared(r.land.rows, c.ns, r.land.tree, stat, toRemove, toAdd)
    case Edit(tree) => WellFormed(tree)
    case Offer(row, _, _) => row in UpdatedLocally(r.land.rows, c.ns)
    case Upload(_, _) => Referential(r.journal, r.store) && CaughtUp(r.journal, c.user, r.land.rows, c.ns)
  }

  /** Where a pass that breaks off leaves things: the row of a tombstone is written before its file is deleted. */
  ghost function BrokenOff(c: Side, r: Replica, listing: seq<Record>, clock: Clock, n: nat, stuck: bool): Landing
    requires n <= |listing| && (stuck ==> n < |listing|)
  {
    var k := Shelf(c.ns, r.store, clock);
    var l := LandFirst(k, r.land, listing, n);
    if stuck then StuckAt(k, l, listing[n], TimeAt(k, n)) else l
  }

  /** How many records of the listing are in the registry then. */
  function Noted(listing: seq<Record>, n: nat, stuck: bool): (m: nat)
    requires n <= |listing| && (stuck ==> n < |listing|)
    ensures n <= m <= |listing|
  {
    if stuck && listing[n].value.deleted then n + 1 else n
  }

  ghost function Next(c: Side, r: Replica, s: Step): Replica
    requires IsDigest(c.h) && Enabled(c, r, s)
  {
    match s
    case Others(journal, store) => Replica(journal, store, r.land)
    case Pass(listing, clock) => r.(land := LandFirst(Shelf(c.ns, r.store, clock), r.land, listing, |listing|))
    case Partial(listing, clock, n, stuck) => r.(land := BrokenOff(c, r, listing, clock, n, stuck))
    case Index(_, toRemove, toAdd) =>
      r.(land := Landing(Inserted(Inserted(r.land.rows, toRemove), toAdd), r.land.tree))
    case Edit(tree) => r.(land := Landing(r.land.rows, tree))
    case Offer(row, cache, io) =>
      var end := U.UploadOne(UploadSetting(c, r, io), UploadStart(r, cache), row);
      Replica(end.journal, r.store, Landing(end.rows, r.land.tree))
    case Upload(cache, io) =>
      var end := U.Pass(UploadSetting(c, r, io), UploadStart(r, cache));
      Replica(end.journal, r.store, Landing(end.rows, r.land.tree))
  }

  /** The tables are tables, the tree is one, and every jid in the registry is that of a record. */
  ghost predicate Grounded(c: Side, r: Replica) {
    Increasing(r.journal) && Increasing(r.land.rows) && WellFormed(r.land.tree) && Rooted(r.journal, c.user, r.land.rows, c.ns)
  }

  /** And below the watermark nothing is missed. */
  ghost predicate Tracked(c: Side, r: Replica) {
    Grounded(c, r) && Sound(r.journal, c.user, r.land.rows, c.ns)
  }

  /**
   The step skips nothing: what a broken-off pass has noted is older than all it has not, and between the
   watermark and an own record there is no other path's.
   */
  ghost predicate Lossless(c: Side, r: Replica, s: Step)
    requires IsDigest(c.h) && Enabled(c, r, s)
  {
    match s
    case Partial(listing, _, n, stuck) => OldestFirst(listing, Noted(listing, n, stuck))
    case Offer(row, _, io) =>
      var answer := CommitStep(r.journal, r.store, c.user, row.path, U.Offered(UploadSetting(c, r, io), row)).answer;
      answer.Success? ==> NothingBetween(r.journal, c.user, r.land.rows, c.ns, row.path, answer.jid)
    case _ => true
  }

  lemma PassKeepsTracked(c: Side, r: Replica, listing: seq<Record>, clock: Clock)
    requires IsDigest(c.h) && Tracked(c, r) && Enabled(c, r, Pass(listing, clock))
    ensures var r1 := Next(c, r, Pass(listing, clock));
            Tracked(c, r1) && CaughtUp(r.journal, c.user, r1.land.rows, c.ns) &&
            LandedTo(Shelf(c.ns, r.store, clock), r.land, r1.land, listing, |listing|)
  {
    var r1 := Next(c, r, Pass(listing, clock));
    ListingPathsDistinct(r.journal, c.user, Watermark(r.land.rows, c.ns), listing);
    LandingReaches(Shelf(c.ns, r.store, clock), r.land, listing, |listing|);
    PassKeepsSound(r.journal, c.user, r.land.rows, r1.land.rows, c.ns, listing);
  }

  /** Rows without a jid change no jid. */
  lemma {:induction false} JidlessRows(rows: seq<FileRecord>, forms: seq<Form>, ns: int)
    requires forall f | f in forms :: f.jid.None?
    ensures forall p, j: nat :: HasJid(Inserted(rows, forms), ns, p, j) <==> HasJid(rows, ns, p, j)
    decreases forms
  {
    if forms != [] {
      var rows1 := InsertForm(rows, forms[0]);
      JidlessRows(rows1, forms[1..], ns);
      var last := rows1[|rows|];
      assert last.value.jid.None?;
      forall p, j: nat
        ensures HasJid(rows1, ns, p, j) <==> HasJid(rows, ns, p, j)
      {
        OneJidless(rows, last, ns, p, j);
      }
    }
  }

  lemma OneJidless(rows: seq<FileRecord>, last: FileRecord, ns: int, p: Path, j: nat)
    requires last.value.jid.None?
    ensures HasJid(rows + [last], ns, p, j) <==> HasJid(rows, ns, p, j)
  {
    assert forall r :: r in rows + [last] <==> r in rows || r == last;
  }

  lemma SameJids(journal: seq<Record>, user: int, rows: seq<FileRecord>, rows1: seq<FileRecord>, ns: int)
    requires forall p, j: nat :: HasJid(rows1, ns, p, j) <==> HasJid(rows, ns, p, j)
    ensures Watermark(rows1, ns) == Watermark(rows, ns)
    ensures Rooted(journal, user, rows, ns) ==> Rooted(journal, user, rows1, ns)
    ensures Sound(journal, user, rows, ns) ==> Sound(journal, user, rows1, ns)
  {
    SameWatermark(rows, rows1, ns);
    if Rooted(journal, user, rows, ns) {
      SameRooted(journal, user, rows, rows1, ns);
    }
    forall p
      ensures Recorded(journal, user, rows1, ns, p) <==> Recorded(journal, user, rows, ns, p)
    {
    }
  }

  lemma SameWatermark(rows: seq<FileRecord>, rows1: seq<FileRecord>, ns: int)
    requires forall p, j: nat :: HasJid(rows1, ns, p, j) <==> HasJid(rows, ns, p, j)
    ensures Watermark(rows1, ns) == Watermark(rows, ns)
  {
    WatermarkMeaning(rows, ns);
    WatermarkMeaning(rows1, ns);
    if Watermark(rows, ns) > 0 {
      var p :| HasJid(rows, ns, p, Watermark(rows, ns));
    }
    if Watermark(rows1, ns) > 0 {
      var p :| HasJid(rows1, ns, p, Watermark(rows1, ns));
    }
  }

  lemma SameRooted(journal: seq<Record>, user: int, rows: seq<FileRecord>, rows1: seq<FileRecord>, ns: int)
    requires forall p, j: nat | HasJid(rows1, ns, p, j) :: HasJid(rows, ns, p, j)
    requires Rooted(journal, user, rows, ns)
    ensures Rooted(journal, user, rows1, ns)
  {
    forall r | r in rows1 && r.owner == ns && r.value.jid.Some?
      ensures RecordOf(journal, user, r.path, r.value.jid.value)
    {
      assert HasJid(rows1, ns, r.path, r.value.jid.value);
      var q :| q in rows && q.owner == ns && q.path == r.path && q.value.jid == Some(r.value.jid.value);
    }
  }

  lemma IndexKeepsTracked(c: Side, r: Replica, s: Step)
    requires IsDigest(c.h) && s.Index? && Tracked(c, r) && Enabled(c, r, s)
    ensures Tracked(c, Next(c, r, s)) && Watermark(Next(c, r, s).land.rows, c.ns) == Watermark(r.land.rows, c.ns)
  {
    var rows, removed := r.land.rows, Inserted(r.land.rows, s.toRemove);
    ComparedMeaning(rows, c.ns, r.land.tree, s.stat, s.toRemove, s.toAdd);
    InsertedIncreasing(rows, s.toRemove);
    InsertedIncreasing(removed, s.toAdd);
    JidlessRows(rows, s.toRemove, c.ns);
    JidlessRows(removed, s.toAdd, c.ns);
    SameJids(r.journal, c.user, rows, Next(c, r, s).land.rows, c.ns);
  }

  lemma UploadKeepsTracked(c: Side, r: Replica, s: Step)
    requires IsDigest(c.h) && s.Upload? && Tracked(c, r) && Enabled(c, r, s)
    ensures Tracked(c, Next(c, r, s)) && r.journal <= Next(c, r, s).journal
  {
    var w, s0 := UploadSetting(c, r, s.io), UploadStart(r, s.cache);
    UploadPassKeepsSound(w, s0);
    U.PassDone(w, s0);
  }

  /** What a broken-off pass leaves. */
  lemma PartialLogged(c: Side, r: Replica, s: Step)
    requires IsDigest(c.h) && s.Partial? && Grounded(c, r) && Enabled(c, r, s)
    ensures var k, l1 := Shelf(c.ns, r.store, s.clock), BrokenOff(c, r, s.listing, s.clock, s.n, s.stuck);
            var l := LandFirst(k, r.land, s.listing, s.n);
            Increasing(l1.rows) && WellFormed(l1.tree) && l1.tree == l.tree && LandedTo(k, r.land, l, s.listing, s.n) &&
            Logged(c.ns, r.land.rows, l1.rows, s.listing, Noted(s.listing, s.n, s.stuck))
  {
    var k := Shelf(c.ns, r.store, s.clock);
    var l := LandFirst(k, r.land, s.listing, s.n);
    ListingPathsDistinct(r.journal, c.user, Watermark(r.land.rows, c.ns), s.listing);
    LandingReaches(k, r.land, s.listing, s.n);
    if s.stuck {
      StuckLogged(k, r.land, l, s.listing, s.n);
    }
  }

  lemma {:induction false} StuckLogged(k: Shelf, l0: Landing, l: Landing, listing: seq<Record>, n: nat)
    requires n < |listing| && Increasing(l.rows) && Logged(k.ns, l0.rows, l.rows, listing, n)
    ensures var l1 := StuckAt(k, l, listing[n], TimeAt(k, n));
            Increasing(l1.rows) && l1.tree == l.tree && Logged(k.ns, l0.rows, l1.rows, listing, Noted(listing, n, true))
  {
    OneMoreLogged(k, l0, l, listing, n, TimeAt(k, n));
    RowLands(k, l.rows, listing[n], TimeAt(k, n), k.ns);
  }

  lemma PartialTracked(c: Side, r: Replica, s: Step)
    requires IsDigest(c.h) && s.Partial? && Tracked(c, r) && Enabled(c, r, s)
    ensures Grounded(c, Next(c, r, s)) && (Tracked(c, Next(c, r, s)) <==> Lossless(c, r, s))
  {
    PartialLogged(c, r, s);
    PartialPassExact(r.journal, c.user, r.land.rows, Next(c, r, s).land.rows, c.ns, s.listing, Noted(s.listing, s.n, s.stuck));
  }

  lemma OfferTracked(c: Side, r: Replica, s: Step)
    requires IsDigest(c.h) && s.Offer? && Tracked(c, r) && Enabled(c, r, s)
    ensures Grounded(c, Next(c, r, s)) && (Tracked(c, Next(c, r, s)) <==> Lossless(c, r, s))
  {
    var v := U.Offered(UploadSetting(c, r, s.io), s.row);
    var done := CommitStep(r.journal, r.store, c.user, s.row.path, v);
    QueriesAreView(r.land.rows, c.ns, s.row);
    ViewMeaning(r.land.rows, c.ns);
    if done.answer.Success? {
      CommitIsOwn(r.journal, r.store, c.user, r.land.rows, c.ns, s.row, v);
      OwnCommitExact(r.journal, done.rows, c.user, r.land.rows, c.ns, s.row, done.answer.jid);
      U.NewestById(r.land.rows, c.ns, s.row);
      U.JidEvolves(r.land.rows, r.land.rows, s.row, done.answer.jid);
    }
  }

  /** Every step keeps the client on track if and only if it is lossless. */
  lemma StepTracked(c: Side, r: Replica, s: Step)
    requires IsDigest(c.h) && Tracked(c, r) && Enabled(c, r, s)
    ensures Grounded(c, Next(c, r, s)) && (Tracked(c, Next(c, r, s)) <==> Lossless(c, r, s))
  {
    match s {
      case Others(journal, _) => PeersKeepSound(r.journal, journal, c.user, r.land.rows, c.ns);
      case Pass(listing, clock) => PassKeepsTracked(c, r, listing, clock);
      case Partial(_, _, _, _) => PartialTracked(c, r, s);
      case Index(_, _, _) => IndexKeepsTracked(c, r, s);
      case Edit(_) =>
      case Offer(_, _, _) => OfferTracked(c, r, s);
      case Upload(_, _) => UploadKeepsTracked(c, r, s);
    }
  }

  ghost predicate AllEnabled(c: Side, r: Replica, steps: seq<Step>)
    requires IsDigest(c.h)
    decreases steps
  {
    steps == [] || (Enabled(c, r, steps[0]) && AllEnabled(c, Next(c, r, steps[0]), steps[1..]))
  }

  ghost predicate AllLossless(c: Side, r: Replica, steps: seq<Step>)
    requires IsDigest(c.h) && AllEnabled(c, r, steps)
    decreases steps
  {
    steps == [] || (Lossless(c, r, steps[0]) && AllLossless(c, Next(c, r, steps[0]), steps[1..]))
  }

  /** The watermark has reached the newest record of the path. */
  ghost predicate Reached(c: Side, r: Replica, p: Path) {
    p in View(r.journal, c.user) && View(r.journal, c.user)[p].id <= Watermark(r.land.rows, c.ns)
  }

  /** A path whose newest record the watermark has reached has just that record's id as its highest jid. */
  ghost predicate NothingMissed(c: Side, r: Replica) {
    forall p :: Topmost(r.journal, c.user, r.land.rows, c.ns, p)
  }

  lemma SoundMeans(c: Side, r: Replica)
    requires Grounded(c, r)
    ensures NothingMissed(c, r) <==> Tracked(c, r)
  {
    SoundIsExact(r.journal, c.user, r.land.rows, c.ns);
  }

  /** So at every moment of the run. */
  ghost predicate NothingMissedThroughout(c: Side, r: Replica, steps: seq<Step>)
    requires IsDigest(c.h) && AllEnabled(c, r, steps)
    decreases steps
  {
    NothingMissed(c, r) && (steps != [] ==> NothingMissedThroughout(c, Next(c, r, steps[0]), steps[1..]))
  }

  /**
   Over whole runs, whatever others commit, whatever the indexer records and the user edits, whatever the client
   uploads and wherever its download passes break off, no update is ever skipped if and only if every broken-off
   pass and every own commit is lossless.
   */
  lemma {:induction false} ReplicaMissesNothing(c: Side, r: Replica, steps: seq<Step>)
    requires IsDigest(c.h) && Tracked(c, r) && AllEnabled(c, r, steps)
    ensures NothingMissedThroughout(c, r, steps) <==> AllLossless(c, r, steps)
    decreases steps
  {
    SoundMeans(c, r);
    if steps != [] {
      var r1 := Next(c, r, steps[0]);
      StepTracked(c, r, steps[0]);
      if Lossless(c, r, steps[0]) {
        ReplicaMissesNothing(c, r1, steps[1..]);
      } else {
        SoundMeans(c, r1);
        assert !NothingMissedThroughout(c, r1, steps[1..]);
      }
    }
  }

  /** The path is on the disk as its newest record says, if the watermark has reached that record. */
  ghost predicate Mirrored(c: Side, r: Replica, p: Path) {
    Reached(c, r, p) ==> Held(r.store, r.land.tree, View(r.journal, c.user)[p])
  }

  /** The journal's chunks are in the store, under their hashes; others may be there only in part. */
  ghost predicate Stored(c: Side, journal: seq<Record>, store: Blobs)
    requires IsDigest(c.h)
  {
    Referential(journal, store) && AllIntact(c.h, c.known, store, journal)
  }

  /** Up to the watermark the disk has the user's files. What else lies on it is nobody's business. */
  ghost predicate Faithful(c: Side, r: Replica)
    requires IsDigest(c.h)
  {
    Tracked(c, r) && Stored(c, r.journal, r.store) && forall p :: Mirrored(c, r, p)
  }

  /**
   Steps of a client that only downloads and leaves the files it has got alone: others keep the store in
   order, passes that break off have noted the oldest records and are stopped by the disk, if by a tombstone, and
   edits stay off the paths the watermark has reached.
   */
  ghost predicate Undisturbed(c: Side, r: Replica, s: Step)
    requires IsDigest(c.h) && Enabled(c, r, s)
  {
    match s
    case Others(journal, store) => Stored(c, journal, store)
    case Pass(_, _) => true
    case Index(_, _, _) => true
    case Partial(listing, clock, n, stuck) =>
      Lossless(c, r, s) && (stuck ==> FailsAt(Shelf(c.ns, r.store, clock), r.land, listing, n))
    case Edit(tree) => forall p | Reached(c, r, p) :: SameFileAt(r.land.tree, tree, p)
    case Offer(_, _, _) => false
    case Upload(_, _) => false
  }

  predicate SameFileAt(t: Tree, t1: Tree, p: Path) {
    (p in t1.files <==> p in t.files) && (p in t1.files ==> t1.files[p].content == t.files[p].content)
  }

  /** Any chunk stores that both have what the journal names hold the same files. */
  lemma HeldOn(c: Side, journal: seq<Record>, store: Blobs, store1: Blobs, t: Tree, d: Record)
    requires IsDigest(c.h) && CollisionFree(c.h, c.known) && d in journal
    requires Stored(c, journal, store) && Stored(c, journal, store1)
    ensures Held(store, t, d) <==> Held(store1, t, d)
  {
    assert AllPresent(store, d.value.chunkIds) && AllPresent(store1, d.value.chunkIds);
    if !d.value.deleted {
      Downloader.SameContent(c.h, c.known, store, store1, d.value.chunkIds);
    }
  }

  lemma OlderStored(c: Side, journal: seq<Record>, journal1: seq<Record>, store: Blobs)
    requires IsDigest(c.h) && journal <= journal1 && Stored(c, journal1, store)
    ensures Stored(c, journal, store)
  {
    assert forall d | d in journal :: d in journal1;
  }

  lemma OthersMirrored(c: Side, r: Replica, journal: seq<Record>, store: Blobs, p: Path)
    requires IsDigest(c.h) && CollisionFree(c.h, c.known) && Faithful(c, r) && Mirrored(c, r, p)
    requires Enabled(c, r, Others(journal, store)) && Undisturbed(c, r, Others(journal, store))
    ensures Mirrored(c, Replica(journal, store, r.land), p)
  {
    WatermarkInJournal(r.journal, c.user, r.land.rows, c.ns);
    if Reached(c, Replica(journal, store, r.land), p) {
      GrownView(r.journal, journal, c.user, p);
      ViewMeaning(r.journal, c.user);
      OlderStored(c, r.journal, journal, store);
      HeldOn(c, r.journal, r.store, store, r.land.tree, View(r.journal, c.user)[p]);
    }
  }

  lemma OthersKeepFaithful(c: Side, r: Replica, journal: seq<Record>, store: Blobs)
    requires IsDigest(c.h) && CollisionFree(c.h, c.known) && Faithful(c, r)
    requires Enabled(c, r, Others(journal, store)) && Undisturbed(c, r, Others(journal, store))
    ensures Faithful(c, Replica(journal, store, r.land))
  {
    StepTracked(c, r, Others(journal, store));
    forall p
      ensures Mirrored(c, Replica(journal, store, r.land), p)
    {
      assert Mirrored(c, r, p);
      OthersMirrored(c, r, journal, store, p);
    }
  }

  /** After a completed pass a path of the journal is on the disk as its newest record says. */
  lemma PassMirrored(c: Side, r: Replica, listing: seq<Record>, l: Landing, k: Shelf, p: Path)
    requires k.ns == c.ns && k.blobs == r.store
    requires Listed(r.journal, c.user, r.land.rows, c.ns, listing) && LandedTo(k, r.land, l, listing, |listing|)
    requires Mirrored(c, r, p) && p in View(r.journal, c.user)
    ensures Held(r.store, l.tree, View(r.journal, c.user)[p])
  {
    var d := View(r.journal, c.user)[p];
    ViewMeaning(r.journal, c.user);
    if d.id > Watermark(r.land.rows, c.ns) {
      var i := ListedFinds(r.journal, c.user, r.land.rows, c.ns, listing, p);
      assert Shown(k, l, listing[i]);
    } else {
      ListedIsNewer(c, r, listing, p);
      assert Unlisted(listing, |listing|, p);
      assert Untouched(c.ns, r.land, l, p);
    }
  }

  lemma PassStrange(c: Side, r: Replica, listing: seq<Record>, l: Landing, k: Shelf, p: Path)
    requires k.ns == c.ns && Listed(r.journal, c.user, r.land.rows, c.ns, listing)
    requires LandedTo(k, r.land, l, listing, |listing|) && p !in View(r.journal, c.user)
    ensures SameFileAt(r.land.tree, l.tree, p)
  {
    if i :| 0 <= i < |listing| && listing[i].path == p {
      ListedMeaning(r.journal, c.user, r.land.rows, c.ns, listing, i);
    } else {
      assert Unlisted(listing, |listing|, p);
      assert Untouched(c.ns, r.land, l, p);
    }
  }

  /** All of the user's files are on the disk, and files that are none of them are as they were. */
  ghost predicate Current(c: Side, r: Replica, r1: Replica) {
    (forall p | p in View(r1.journal, c.user) :: Held(r1.store, r1.land.tree, View(r1.journal, c.user)[p])) &&
    (forall p | p !in View(r1.journal, c.user) :: SameFileAt(r.land.tree, r1.land.tree, p))
  }

  lemma PassKeepsFaithful(c: Side, r: Replica, listing: seq<Record>, clock: Clock)
    requires IsDigest(c.h) && Faithful(c, r) && Enabled(c, r, Pass(listing, clock))
    ensures Faithful(c, Next(c, r, Pass(listing, clock))) && Current(c, r, Next(c, r, Pass(listing, clock)))
  {
    var k, r1 := Shelf(c.ns, r.store, clock), Next(c, r, Pass(listing, clock));
    PassKeepsTracked(c, r, listing, clock);
    forall p
      ensures p in View(r.journal, c.user) ==> Held(r.store, r1.land.tree, View(r.journal, c.user)[p])
      ensures p !in View(r.journal, c.user) ==> SameFileAt(r.land.tree, r1.land.tree, p)
    {
      assert Mirrored(c, r, p);
      if p in View(r.journal, c.user) {
        PassMirrored(c, r, listing, r1.land, k, p);
      } else {
        PassStrange(c, r, listing, r1.land, k, p);
      }
    }
  }

  /** A record noted by a pass that breaks off is on the disk. */
  lemma NotedHeld(c: Side, r: Replica, s: Step, i: nat)
    requires IsDigest(c.h) && s.Partial? && Faithful(c, r) && Enabled(c, r, s) && Undisturbed(c, r, s)
    requires i < Noted(s.listing, s.n, s.stuck)
    ensures Held(r.store, Next(c, r, s).land.tree, s.listing[i])
  {
    PartialLogged(c, r, s);
    var k := Shelf(c.ns, r.store, s.clock);
    if i < s.n {
      ShownHeld(k, LandFirst(k, r.land, s.listing, s.n), s.listing[i]);
    } else {
      StuckHeld(r.store, LandFirst(k, r.land, s.listing, s.n).tree, s.listing[i]);
    }
  }

  lemma {:induction false} ShownHeld(k: Shelf, l: Landing, d: Record)
    requires Shown(k, l, d)
    ensures Held(k.blobs, l.tree, d)
  {
  }

  lemma {:induction false} StuckHeld(store: Blobs, t: Tree, d: Record)
    requires d.value.deleted && !CanLand(t, d)
    ensures Held(store, t, d)
  {
  }

  /** One that was reached before, too. */
  lemma ReachedHeld(c: Side, r: Replica, s: Step, p: Path)
    requires IsDigest(c.h) && s.Partial? && Faithful(c, r) && Enabled(c, r, s) && Reached(c, r, p)
    ensures Held(r.store, Next(c, r, s).land.tree, View(r.journal, c.user)[p])
  {
    var k := Shelf(c.ns, r.store, s.clock);
    PartialLogged(c, r, s);
    ListedIsNewer(c, r, s.listing, p);
    ViewMeaning(r.journal, c.user);
    assert Mirrored(c, r, p) && Unlisted(s.listing, s.n, p);
    assert Untouched(c.ns, r.land, LandFirst(k, r.land, s.listing, s.n), p);
  }

  lemma PartialMirrored(c: Side, r: Replica, s: Step, p: Path)
    requires IsDigest(c.h) && s.Partial? && Faithful(c, r) && Enabled(c, r, s) && Undisturbed(c, r, s)
    ensures Mirrored(c, Next(c, r, s), p)
  {
    var m := Noted(s.listing, s.n, s.stuck);
    PartialLogged(c, r, s);
    LoggedWatermark(c.ns, r.land.rows, Next(c, r, s).land.rows, s.listing, m);
    if Reached(c, Next(c, r, s), p) {
      if Reached(c, r, p) {
        ReachedHeld(c, r, s, p);
      } else {
        var i := ListedFinds(r.journal, c.user, r.land.rows, c.ns, s.listing, p);
        assert i < m;
        NotedHeld(c, r, s, i);
      }
    }
  }

  lemma ListedIsNewer(c: Side, r: Replica, listing: seq<Record>, p: Path)
    requires Listed(r.journal, c.user, r.land.rows, c.ns, listing) && Reached(c, r, p)
    ensures forall i | 0 <= i < |listing| :: listing[i].path != p
  {
    forall i | 0 <= i < |listing|
      ensures listing[i].path != p
    {
      ListedMeaning(r.journal, c.user, r.land.rows, c.ns, listing, i);
    }
  }

  lemma PartialKeepsFaithful(c: Side, r: Replica, s: Step)
    requires IsDigest(c.h) && s.Partial? && Faithful(c, r) && Enabled(c, r, s) && Undisturbed(c, r, s)
    ensures Faithful(c, Next(c, r, s))
  {
    StepTracked(c, r, s);
    forall p
      ensures Mirrored(c, Next(c, r, s), p)
    {
      PartialMirrored(c, r, s, p);
    }
  }

  lemma IndexKeepsFaithful(c: Side, r: Replica, s: Step)
    requires IsDigest(c.h) && s.Index? && Faithful(c, r) && Enabled(c, r, s)
    ensures Faithful(c, Next(c, r, s))
  {
    IndexKeepsTracked(c, r, s);
    forall p
      ensures Mirrored(c, Next(c, r, s), p)
    {
      assert Mirrored(c, r, p);
    }
  }

  lemma EditKeepsFaithful(c: Side, r: Replica, s: Step)
    requires IsDigest(c.h) && s.Edit? && Faithful(c, r) && Enabled(c, r, s) && Undisturbed(c, r, s)
    ensures Faithful(c, Next(c, r, s))
  {
    ViewMeaning(r.journal, c.user);
    forall p
      ensures Mirrored(c, Next(c, r, s), p)
    {
      assert Mirrored(c, r, p);
      if Reached(c, Next(c, r, s), p) {
        assert Reached(c, r, p) && SameFileAt(r.land.tree, s.tree, p);
      }
    }
  }

  lemma OneStep(c: Side, r: Replica, s: Step)
    requires IsDigest(c.h) && CollisionFree(c.h, c.known) && Faithful(c, r) && Enabled(c, r, s) && Undisturbed(c, r, s)
    ensures Faithful(c, Next(c, r, s))
    ensures s.Pass? ==> Current(c, r, Next(c, r, s))
  {
    match s {
      case Others(journal, store) => OthersKeepFaithful(c, r, journal, store);
      case Pass(listing, clock) => PassKeepsFaithful(c, r, listing, clock);
      case Partial(_, _, _, _) => PartialKeepsFaithful(c, r, s);
      case Index(_, _, _) => IndexKeepsFaithful(c, r, s);
      case Edit(_) => EditKeepsFaithful(c, r, s);
    }
  }

  ghost predicate AllUndisturbed(c: Side, r: Replica, steps: seq<Step>)
    requires IsDigest(c.h) && AllEnabled(c, r, steps)
    decreases steps
  {
    steps == [] || (Undisturbed(c, r, steps[0]) && AllUndisturbed(c, Next(c, r, steps[0]), steps[1..]))
  }

  /** Below the watermark the disk has the user's files at every moment of the run, and all of them after each pass. */
  ghost predicate FaithfulThroughout(c: Side, r: Replica, steps: seq<Step>)
    requires IsDigest(c.h) && AllEnabled(c, r, steps)
    decreases steps
  {
    Faithful(c, r) &&
    (steps != [] ==>
       (steps[0].Pass? ==> Current(c, r, Next(c, r, steps[0]))) &&
       FaithfulThroughout(c, Next(c, r, steps[0]), steps[1..]))
  }

  /**
   Over whole runs, others committing and uploading as they please between its passes, some of which the disk
   stops halfway, and its indexer running, a client that only downloads has the user's files below the watermark
   at every moment, and all of them after each completed pass. Files of its own, at other paths, are left alone.
   */
  lemma {:induction false} ReplicaRuns(c: Side, r: Replica, steps: seq<Step>)
    requires IsDigest(c.h) && CollisionFree(c.h, c.known) && Faithful(c, r)
    requires AllEnabled(c, r, steps) && AllUndisturbed(c, r, steps)
    ensures FaithfulThroughout(c, r, steps)
    decreases steps
  {
    if steps != [] {
      OneStep(c, r, steps[0]);
      ReplicaRuns(c, Next(c, r, steps[0]), steps[1..]);
    }
  }

  /** A new client is faithful to any journal, whatever lies on its disk. */
  lemma NewReplica(c: Side, journal: seq<Record>, store: Blobs, t: Tree)
    requires IsDigest(c.h) && Increasing(journal) && Stored(c, journal, store) && WellFormed(t)
    ensures Faithful(c, Replica(journal, store, Landing([], t)))
  {
    ViewMeaning(journal, c.user);
    LastIdIsMax(journal);
  }
}
