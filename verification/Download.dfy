/** A download pass as a function of the states it meets (client/src/syncer.rs, `check_download_once`). */
module Download {
  import opened Octets
  import opened Paths
  import opened Log
  import opened Journals
  import opened Servers
  import opened Registries
  import opened Disks
  import opened Chunking

  /** What a download pass moves: the registry and the disk. */
  datatype Landing = Landing(rows: seq<FileRecord>, tree: Tree)

  /** The disk's clock: when the file of the `i`-th listed record is written. */
  type Clock = nat -> Time

  /** What it moves them by: the namespace, the chunks at hand, the clock. */
  datatype Shelf = Shelf(ns: int, blobs: Blobs, clock: Clock)

  function TimeAt(k: Shelf, i: nat): Time {
    k.clock(i)
  }

  /** The file a record describes, if its chunks are at hand. */
  ghost function ContentOf(blobs: Blobs, chunkIds: Text): Bytes {
    if AllPresent(blobs, chunkIds) then Assemble(blobs, IdList(chunkIds)) else []
  }

  /** The disk lets the record through: its file can be written, or there is no folder to be deleted as a file. */
  predicate CanLand(t: Tree, d: Record) {
    if d.value.deleted then Exists(t, d.path) ==> d.path in t.files else CanWrite(t, d.path)
  }

  /** `build_delete_form` and `build_file_record`. */
  ghost function LandedForm(k: Shelf, d: Record, time: Time): Form {
    var size := if d.value.deleted then 0 else |ContentOf(k.blobs, d.value.chunkIds)|;
    Form(Some(d.id), d.path, d.value.deleted, Meta(size, Truncate(time)), k.ns)
  }

  ghost function LandedTree(k: Shelf, t: Tree, d: Record, time: Time): Tree {
    if d.path == [] then t
    else if d.value.deleted then if d.path in t.files then Removed(t, d.path) else t
    else Written(t, d.path, File(ContentOf(k.blobs, d.value.chunkIds), time))
  }

  ghost function LandOne(k: Shelf, l: Landing, d: Record, time: Time): Landing {
    Landing(InsertForm(l.rows, LandedForm(k, d, time)), LandedTree(k, l.tree, d, time))
  }

  ghost function LandFirst(k: Shelf, l: Landing, listing: seq<Record>, n: nat): Landing
    requires n <= |listing|
  {
    if n == 0 then l else LandOne(k, LandFirst(k, l, listing, n - 1), listing[n - 1], TimeAt(k, n - 1))
  }

  /** The disk lets the first `n` records through, each as those before it leave the disk. */
  ghost predicate Lands(k: Shelf, l: Landing, listing: seq<Record>, n: nat)
    requires n <= |listing|
  {
    n > 0 ==> Lands(k, l, listing, n - 1) && CanLand(LandFirst(k, l, listing, n - 1).tree, listing[n - 1])
  }

  /** The path is as the record says, on the disk and in the registry. */
  ghost predicate Shown(k: Shelf, l: Landing, d: Record) {
    d.path in View(l.rows, k.ns) && View(l.rows, k.ns)[d.path].value.jid == Some(d.id) &&
    View(l.rows, k.ns)[d.path].value.deleted == d.value.deleted &&
    if d.value.deleted then d.path !in l.tree.files && View(l.rows, k.ns)[d.path].value.meta.size == 0
    else
      d.path in l.tree.files && l.tree.files[d.path].content == ContentOf(k.blobs, d.value.chunkIds) &&
      View(l.rows, k.ns)[d.path].value.meta == Meta(|l.tree.files[d.path].content|, Truncate(l.tree.files[d.path].mtime))
  }

  predicate Unlisted(listing: seq<Record>, n: nat, p: Path)
    requires n <= |listing|
  {
    forall i | 0 <= i < n :: listing[i].path != p
  }

  /** The path is as it was. */
  ghost predicate Untouched(ns: int, l0: Landing, l: Landing, p: Path) {
    (p in View(l.rows, ns) <==> p in View(l0.rows, ns)) &&
    (p in View(l.rows, ns) ==> View(l.rows, ns)[p] == View(l0.rows, ns)[p]) &&
    (p in l.tree.files <==> p in l0.tree.files) &&
    (p in l.tree.files ==> l.tree.files[p] == l0.tree.files[p])
  }

  /** After `n` records: each shows, other paths are untouched. */
  ghost predicate LandedTo(k: Shelf, l0: Landing, l: Landing, listing: seq<Record>, n: nat)
    requires n <= |listing|
  {
    (forall i | 0 <= i < n :: Shown(k, l, listing[i])) &&
    (forall p | Unlisted(listing, n, p) :: Untouched(k.ns, l0, l, p))
  }

  /** The tables and the tree stay well formed, without empty folders, and other namespaces keep their view. */
  ghost predicate Kept(ns: int, l0: Landing, l: Landing) {
    Increasing(l.rows) && WellFormed(l.tree) && (NoEmptyFolders(l0.tree) ==> NoEmptyFolders(l.tree)) &&
    forall o | o != ns :: View(l.rows, o) == View(l0.rows, o)
  }

  /** The registry gains a row for each record, in order, under the record's id. */
  ghost predicate Logged(ns: int, rows0: seq<FileRecord>, rows: seq<FileRecord>, listing: seq<Record>, n: nat)
    requires n <= |listing|
  {
    rows0 <= rows && |rows| == |rows0| + n &&
    forall x | |rows0| <= x < |rows| ::
      rows[x].owner == ns && rows[x].path == listing[x - |rows0|].path && rows[x].value.jid == Some(listing[x - |rows0|].id)
  }

  /** New folders lie above a file that was written. */
  ghost predicate FoldersFrom(l0: Landing, l: Landing, listing: seq<Record>, n: nat)
    requires n <= |listing|
  {
    forall e | e in l.tree.dirs :: e in l0.tree.dirs || exists i | 0 <= i < n :: !listing[i].value.deleted && e < listing[i].path
  }

  lemma TreeLands(k: Shelf, t: Tree, d: Record, time: Time)
    requires WellFormed(t) && CanLand(t, d)
    ensures var t1 := LandedTree(k, t, d, time);
            WellFormed(t1) && (NoEmptyFolders(t) ==> NoEmptyFolders(t1)) &&
            (forall e | e in t1.dirs :: e in t.dirs || (!d.value.deleted && e < d.path)) &&
            (forall p | p != d.path :: (p in t1.files <==> p in t.files) && (p in t1.files ==> t1.files[p] == t.files[p])) &&
            if d.value.deleted then d.path !in t1.files
            else d.path in t1.files && t1.files[d.path] == File(ContentOf(k.blobs, d.value.chunkIds), time)
  {
    if !d.value.deleted {
      WrittenKeepsTree(t, d.path, File(ContentOf(k.blobs, d.value.chunkIds), time));
      forall e | e in Upward(Parent(d.path))
        ensures e < d.path
      {
        UpwardIsAbove(d.path, e);
      }
    } else if d.path in t.files {
      RemovedKeepsTree(t, d.path);
    }
  }

  lemma {:induction false} RowLands(k: Shelf, rows: seq<FileRecord>, d: Record, time: Time, o: int)
    requires Increasing(rows)
    ensures var f, rows1 := LandedForm(k, d, time), InsertForm(rows, LandedForm(k, d, time));
            Increasing(rows1) &&
            View(rows1, o) ==
            if o == k.ns then
              View(rows, o)[d.path := Row(LastId(rows) + 1, k.ns, d.path, Local(f.jid, f.deleted, f.meta))]
            else View(rows, o)
  {
    var f := LandedForm(k, d, time);
    InsertIncreasing(rows, k.ns, d.path, Local(f.jid, f.deleted, f.meta));
    ViewInsert(rows, k.ns, d.path, Local(f.jid, f.deleted, f.meta), o);
  }

  /** One record shows where it lands, and nowhere else. */
  lemma OneShows(k: Shelf, l: Landing, d: Record, time: Time)
    requires Increasing(l.rows) && WellFormed(l.tree) && CanLand(l.tree, d)
    ensures Shown(k, LandOne(k, l, d, time), d)
    ensures View(LandOne(k, l, d, time).rows, k.ns)[d.path].value.meta.modifiedAt == Time(time.sec, 0)
  {
    TreeLands(k, l.tree, d, time);
    RowLands(k, l.rows, d, time, k.ns);
  }

  lemma OneElsewhere(k: Shelf, l: Landing, d: Record, time: Time, p: Path)
    requires Increasing(l.rows) && WellFormed(l.tree) && CanLand(l.tree, d) && p != d.path
    ensures Untouched(k.ns, l, LandOne(k, l, d, time), p)
  {
    TreeLands(k, l.tree, d, time);
    RowLands(k, l.rows, d, time, k.ns);
  }

  lemma OneKeeps(k: Shelf, l0: Landing, l: Landing, d: Record, time: Time)
    requires Kept(k.ns, l0, l) && CanLand(l.tree, d)
    ensures Kept(k.ns, l0, LandOne(k, l, d, time))
  {
    hide LandedTree, LandedForm, InsertForm, CanLand;
    TreeLands(k, l.tree, d, time);
    OtherNamespaces(k, l.rows, d, time);
  }

  lemma {:induction false} OtherNamespaces(k: Shelf, rows: seq<FileRecord>, d: Record, time: Time)
    requires Increasing(rows)
    ensures var rows1 := InsertForm(rows, LandedForm(k, d, time));
            Increasing(rows1) && forall o | o != k.ns :: View(rows1, o) == View(rows, o)
  {
    RowLands(k, rows, d, time, k.ns);
    forall o | o != k.ns
      ensures View(InsertForm(rows, LandedForm(k, d, time)), o) == View(rows, o)
    {
      RowLands(k, rows, d, time, o);
    }
  }

  lemma ShownElsewhere(k: Shelf, l: Landing, l1: Landing, d: Record)
    requires Shown(k, l, d) && Untouched(k.ns, l, l1, d.path)
    ensures Shown(k, l1, d)
  {
  }

  lemma UntouchedTwice(ns: int, l0: Landing, l: Landing, l1: Landing, p: Path)
    requires Untouched(ns, l0, l, p) && Untouched(ns, l, l1, p)
    ensures Untouched(ns, l0, l1, p)
  {
  }

  lemma OneMoreLanded(k: Shelf, l0: Landing, l: Landing, listing: seq<Record>, n: nat, time: Time)
    requires n < |listing| && LandedTo(k, l0, l, listing, n) && Unlisted(listing, n, listing[n].path)
    requires Increasing(l.rows) && WellFormed(l.tree) && CanLand(l.tree, listing[n])
    ensures LandedTo(k, l0, LandOne(k, l, listing[n], time), listing, n + 1)
  {
    var l1 := LandOne(k, l, listing[n], time);
    OneShows(k, l, listing[n], time);
    forall i | 0 <= i < n
      ensures Shown(k, l1, listing[i])
    {
      OneElsewhere(k, l, listing[n], time, listing[i].path);
      ShownElsewhere(k, l, l1, listing[i]);
    }
    forall p | Unlisted(listing, n + 1, p)
      ensures Untouched(k.ns, l0, l1, p)
    {
      assert Unlisted(listing, n, p) && p != listing[n].path;
      OneElsewhere(k, l, listing[n], time, p);
      UntouchedTwice(k.ns, l0, l, l1, p);
    }
  }

  lemma OneMoreLogged(k: Shelf, l0: Landing, l: Landing, listing: seq<Record>, n: nat, time: Time)
    requires n < |listing| && Logged(k.ns, l0.rows, l.rows, listing, n)
    ensures Logged(k.ns, l0.rows, LandOne(k, l, listing[n], time).rows, listing, n + 1)
  {
    var f, rows1 := LandedForm(k, listing[n], time), LandOne(k, l, listing[n], time).rows;
    assert rows1 == l.rows + [Row(LastId(l.rows) + 1, f.namespace, f.path, Local(f.jid, f.deleted, f.meta))];
    assert forall x | 0 <= x < |l.rows| :: rows1[x] == l.rows[x];
  }

  lemma OneMoreFolders(k: Shelf, l0: Landing, l: Landing, listing: seq<Record>, n: nat, time: Time)
    requires n < |listing| && FoldersFrom(l0, l, listing, n) && WellFormed(l.tree) && CanLand(l.tree, listing[n])
    ensures FoldersFrom(l0, LandOne(k, l, listing[n], time), listing, n + 1)
  {
    TreeLands(k, l.tree, listing[n], time);
    var l1 := LandOne(k, l, listing[n], time);
    forall e | e in l1.tree.dirs && e !in l0.tree.dirs
      ensures exists i | 0 <= i < n + 1 :: !listing[i].value.deleted && e < listing[i].path
    {
      if e !in l.tree.dirs {
        assert !listing[n].value.deleted && e < listing[n].path;
      }
    }
  }

  /** All that holds of every state up to the `n`-th record. */
  ghost predicate OnCourse(k: Shelf, l0: Landing, listing: seq<Record>, n: nat)
    requires n <= |listing|
  {
    var l := LandFirst(k, l0, listing, n);
    (n > 0 ==> OnCourse(k, l0, listing, n - 1)) &&
    Kept(k.ns, l0, l) && LandedTo(k, l0, l, listing, n) &&
    Logged(k.ns, l0.rows, l.rows, listing, n) && FoldersFrom(l0, l, listing, n)
  }

  lemma {:induction false} CourseBegins(k: Shelf, l0: Landing, listing: seq<Record>)
    requires Increasing(l0.rows) && WellFormed(l0.tree)
    ensures OnCourse(k, l0, listing, 0)
  {
  }

  lemma CourseGoesOn(k: Shelf, l0: Landing, listing: seq<Record>, n: nat)
    requires n < |listing| && OnCourse(k, l0, listing, n) && Unlisted(listing, n, listing[n].path)
    requires CanLand(LandFirst(k, l0, listing, n).tree, listing[n])
    ensures OnCourse(k, l0, listing, n + 1)
  {
    var l, time := LandFirst(k, l0, listing, n), TimeAt(k, n);
    OneKeeps(k, l0, l, listing[n], time);
    OneMoreLanded(k, l0, l, listing, n, time);
    OneMoreLogged(k, l0, l, listing, n, time);
    OneMoreFolders(k, l0, l, listing, n, time);
  }

  /** Records of distinct paths that the disk lets through land one by one. */
  lemma {:induction false} LandingReaches(k: Shelf, l0: Landing, listing: seq<Record>, n: nat)
    requires Increasing(l0.rows) && WellFormed(l0.tree)
    requires forall i, j | 0 <= i < j < |listing| :: listing[i].path != listing[j].path
    requires n <= |listing| && Lands(k, l0, listing, n)
    ensures OnCourse(k, l0, listing, n)
  {
    if n == 0 {
      CourseBegins(k, l0, listing);
    } else {
      LandingReaches(k, l0, listing, n - 1);
      CourseGoesOn(k, l0, listing, n - 1);
    }
  }

  /**
   A completed pass: each listed live path holds exactly the listed chunks, each listed tombstone's path
   holds no file, the registry says so under the record's id, and every other path is untouched.
   */
  lemma {:induction false} PassMaterialises(k: Shelf, l0: Landing, listing: seq<Record>)
    requires Increasing(l0.rows) && WellFormed(l0.tree)
    requires forall i, j | 0 <= i < j < |listing| :: listing[i].path != listing[j].path
    requires Lands(k, l0, listing, |listing|)
    ensures var l := LandFirst(k, l0, listing, |listing|);
            (forall i | 0 <= i < |listing| :: Shown(k, l, listing[i])) &&
            (forall p | Unlisted(listing, |listing|, p) :: Untouched(k.ns, l0, l, p)) &&
            Kept(k.ns, l0, l)
  {
    LandingReaches(k, l0, listing, |listing|);
  }

  /** A record lands unless a folder has its path or, when there is a file to write, a file lies above it. */
  lemma {:induction false} CanLandExact(t: Tree, d: Record)
    requires WellFormed(t)
    ensures CanLand(t, d) <==> d.path !in t.dirs && (d.value.deleted || forall q | q in t.files :: !(q < d.path))
  {
    CanWriteExact(t, d.path);
  }

  /** In particular a tombstone of a path that never was on the disk. */
  lemma {:induction false} TombstoneOfNothing(t: Tree, d: Record)
    requires WellFormed(t) && d.value.deleted && !Exists(t, d.path)
    ensures CanLand(t, d)
  {
    CanLandExact(t, d);
  }

  /** Where files are after the first `n` records: where a live one of them is, and otherwise as before. */
  ghost predicate HasFile(t: Tree, listing: seq<Record>, n: nat, p: Path)
    requires n <= |listing|
  {
    if Unlisted(listing, n, p) then p in t.files
    else exists i | 0 <= i < n :: listing[i].path == p && !listing[i].value.deleted
  }

  lemma {:induction false} FilesAfter(k: Shelf, l0: Landing, l: Landing, listing: seq<Record>, n: nat, p: Path)
    requires n <= |listing| && LandedTo(k, l0, l, listing, n)
    requires forall i, j | 0 <= i < j < |listing| :: listing[i].path != listing[j].path
    ensures p in l.tree.files <==> HasFile(l0.tree, listing, n, p)
  {
    if Unlisted(listing, n, p) {
      assert Untouched(k.ns, l0, l, p);
    } else {
      var i :| 0 <= i < n && listing[i].path == p;
      assert Shown(k, l, listing[i]);
    }
  }

  /** There is room for the `i`-th record: no file is below its path then, nor above it if it is live. */
  ghost predicate Room(t: Tree, listing: seq<Record>, i: nat)
    requires i < |listing|
  {
    listing[i].path != [] &&
    forall q | HasFile(t, listing, i, q) :: !(listing[i].path < q) && (q < listing[i].path ==> listing[i].value.deleted)
  }

  lemma {:induction false} RoomExact(k: Shelf, l0: Landing, l: Landing, listing: seq<Record>, i: nat)
    requires i < |listing| && LandedTo(k, l0, l, listing, i) && WellFormed(l.tree) && NoEmptyFolders(l.tree)
    requires forall i, j | 0 <= i < j < |listing| :: listing[i].path != listing[j].path
    ensures CanLand(l.tree, listing[i]) <==> Room(l0.tree, listing, i)
  {
    CanLandExact(l.tree, listing[i]);
    FoldersFollowFiles(l.tree, listing[i].path);
    forall q
      ensures q in l.tree.files <==> HasFile(l0.tree, listing, i, q)
    {
      FilesAfter(k, l0, l, listing, i, q);
    }
  }

  lemma {:induction false} NextRoomExact(k: Shelf, l0: Landing, listing: seq<Record>, n: nat)
    requires Increasing(l0.rows) && WellFormed(l0.tree) && NoEmptyFolders(l0.tree) && n < |listing| && Lands(k, l0, listing, n)
    requires forall i, j | 0 <= i < j < |listing| :: listing[i].path != listing[j].path
    ensures CanLand(LandFirst(k, l0, listing, n).tree, listing[n]) <==> Room(l0.tree, listing, n)
  {
    hide Room, CanLand;
    LandingReaches(k, l0, listing, n);
    RoomExact(k, l0, LandFirst(k, l0, listing, n), listing, n);
  }

  /**
   On a disk without empty folders the records land exactly if there is room for each of them, given what those
   before it leave.
   */
  lemma {:induction false} LandsExact(k: Shelf, l0: Landing, listing: seq<Record>, n: nat)
    requires Increasing(l0.rows) && WellFormed(l0.tree) && NoEmptyFolders(l0.tree) && n <= |listing|
    requires forall i, j | 0 <= i < j < |listing| :: listing[i].path != listing[j].path
    ensures Lands(k, l0, listing, n) <==> forall i | 0 <= i < n :: Room(l0.tree, listing, i)
  {
    hide Room, CanLand, LandFirst;
    if n > 0 {
      LandsExact(k, l0, listing, n - 1);
      if Lands(k, l0, listing, n - 1) {
        NextRoomExact(k, l0, listing, n - 1);
      }
    }
  }

  /** Nothing stands in the way of any record, in whatever order they come, and whatever folders are empty. */
  ghost predicate Roomy(t: Tree, listing: seq<Record>) {
    (forall d | d in listing :: d.path !in t.dirs) &&
    (forall d, q | d in listing && !d.value.deleted && q in t.files :: !(q < d.path)) &&
    (forall c, d | c in listing && d in listing && !d.value.deleted :: !(c.path < d.path))
  }

  lemma {:induction false} RoomyStays(k: Shelf, l0: Landing, l: Landing, listing: seq<Record>, n: nat)
    requires n < |listing| && LandedTo(k, l0, l, listing, n) && FoldersFrom(l0, l, listing, n) && WellFormed(l.tree)
    requires Roomy(l0.tree, listing)
    requires forall i, j | 0 <= i < j < |listing| :: listing[i].path != listing[j].path
    ensures CanLand(l.tree, listing[n])
  {
    var d := listing[n];
    assert d in listing;
    CanLandExact(l.tree, d);
    forall i | 0 <= i < n && !listing[i].value.deleted
      ensures !(d.path < listing[i].path)
    {
      assert listing[i] in listing;
    }
    forall q | q in l.tree.files && !d.value.deleted
      ensures !(q < d.path)
    {
      FilesAfter(k, l0, l, listing, n, q);
      if !Unlisted(listing, n, q) {
        var i :| 0 <= i < n && listing[i].path == q;
        assert listing[i] in listing;
      }
    }
  }

  lemma {:induction false} RoomyLands(k: Shelf, l0: Landing, listing: seq<Record>, n: nat)
    requires Increasing(l0.rows) && WellFormed(l0.tree) && n <= |listing| && Roomy(l0.tree, listing)
    requires forall i, j | 0 <= i < j < |listing| :: listing[i].path != listing[j].path
    ensures Lands(k, l0, listing, n)
  {
    if n > 0 {
      RoomyLands(k, l0, listing, n - 1);
      LandingReaches(k, l0, listing, n - 1);
      RoomyStays(k, l0, LandFirst(k, l0, listing, n - 1), listing, n - 1);
    }
  }

  /** The disk stands in the way of the `n`-th record, and of none before. */
  ghost predicate FailsAt(k: Shelf, l: Landing, listing: seq<Record>, n: nat) {
    n < |listing| && Lands(k, l, listing, n) && !CanLand(LandFirst(k, l, listing, n).tree, listing[n])
  }

  /** Where that leaves the pass: a tombstone is in the registry before its file is found to be a folder. */
  ghost function StuckAt(k: Shelf, l: Landing, d: Record, time: Time): Landing {
    if d.value.deleted then Landing(InsertForm(l.rows, LandedForm(k, d, time)), l.tree) else l
  }

  /** Two shelves with the same contents for the listed files land the same. */
  lemma {:induction false} LandAgree(a: Shelf, b: Shelf, l: Landing, listing: seq<Record>, n: nat)
    requires n <= |listing| && a.ns == b.ns && a.clock == b.clock
    requires forall i | 0 <= i < n && !listing[i].value.deleted ::
               ContentOf(a.blobs, listing[i].value.chunkIds) == ContentOf(b.blobs, listing[i].value.chunkIds)
    ensures LandFirst(a, l, listing, n) == LandFirst(b, l, listing, n)
  {
    if n > 0 {
      LandAgree(a, b, l, listing, n - 1);
    }
  }

  lemma {:induction false} LandsAgree(a: Shelf, b: Shelf, l: Landing, listing: seq<Record>, n: nat)
    requires n <= |listing| && a.ns == b.ns && a.clock == b.clock
    requires forall i | 0 <= i < n && !listing[i].value.deleted ::
               ContentOf(a.blobs, listing[i].value.chunkIds) == ContentOf(b.blobs, listing[i].value.chunkIds)
    ensures Lands(a, l, listing, n) <==> Lands(b, l, listing, n)
  {
    if n > 0 {
      LandsAgree(a, b, l, listing, n - 1);
      LandAgree(a, b, l, listing, n - 1);
    }
  }

  /** `chunker.hashify` succeeds on the old files of the listed paths. */
  predicate WarmableOne(t: Tree, d: Record) {
    d.value.deleted || !Exists(t, d.path) || (Eligible(d.path) && d.path in t.files)
  }

  function WarmablePrefix(t: Tree, listing: seq<Record>): (n: nat)
    ensures n <= |listing|
  {
    if listing == [] || !WarmableOne(t, listing[0]) then 0 else 1 + WarmablePrefix(t, listing[1..])
  }

  lemma {:induction false} WarmableMeaning(t: Tree, listing: seq<Record>, n: nat)
    requires n < |listing| && n <= WarmablePrefix(t, listing)
    ensures WarmableOne(t, listing[n]) <==> n < WarmablePrefix(t, listing)
  {
    if n > 0 {
      WarmableMeaning(t, listing[1..], n - 1);
    }
  }

  /** No listed path that is to be written is taken by a folder, or by a file of unknown format. */
  ghost predicate Warmable(t: Tree, listing: seq<Record>) {
    forall d | d in listing :: WarmableOne(t, d)
  }

  /** The old files of the paths to be written are files, and of a known format. */
  ghost predicate OldKnown(t: Tree, listing: seq<Record>) {
    forall d | d in listing && !d.value.deleted :: d.path !in t.dirs && (d.path in t.files ==> Eligible(d.path))
  }

  lemma {:induction false} OldKnownExact(t: Tree, listing: seq<Record>)
    requires WellFormed(t)
    ensures Warmable(t, listing) <==> OldKnown(t, listing)
  {
    forall d | d in listing
      ensures WarmableOne(t, d) <==>
              d.value.deleted || (d.path !in t.dirs && (d.path in t.files ==> Eligible(d.path)))
    {
    }
  }

  lemma {:induction false} WarmableExact(t: Tree, listing: seq<Record>)
    ensures Warmable(t, listing) <==> WarmablePrefix(t, listing) == |listing|
  {
    var n := WarmablePrefix(t, listing);
    if n < |listing| {
      WarmableMeaning(t, listing, n);
      assert listing[n] in listing;
    } else {
      forall d | d in listing
        ensures WarmableOne(t, d)
      {
        var i :| 0 <= i < |listing| && listing[i] == d;
        WarmableMeaning(t, listing, i);
      }
    }
  }

  /** What live records name is filed under its own hash, wherever it is. */
  ghost predicate AllIntact(h: Digest, known: set<Hashed>, blobs: Blobs, records: seq<Record>)
    requires IsDigest(h)
  {
    forall d | d in records && !d.value.deleted :: IntactAll(h, known, blobs, d.value.chunkIds)
  }

  lemma StaysAllIntact(h: Digest, known: set<Hashed>, blobs: Blobs, blobs1: Blobs, records: seq<Record>)
    requires IsDigest(h) && AllIntact(h, known, blobs, records) && StaysIntact(h, known, blobs, blobs1)
    ensures AllIntact(h, known, blobs1, records)
  {
    forall d, id | d in records && !d.value.deleted && id in IdList(d.value.chunkIds)
      ensures Intact(h, known, blobs1, id)
    {
      assert IntactAll(h, known, blobs, d.value.chunkIds);
      assert Intact(h, known, blobs, id);
    }
  }

  /** A live record of the listing names the chunk. */
  ghost predicate Named(listing: seq<Record>, id: Text) {
    exists d | d in listing :: !d.value.deleted && id in IdList(d.value.chunkIds)
  }

  /** Of the chunks the first `n` records name, none is neither in the cache nor asked for. */
  ghost predicate Stocked(cache: Blobs, queue: seq<Text>, listing: seq<Record>, n: nat)
    requires n <= |listing|
  {
    forall i | 0 <= i < n && !listing[i].value.deleted :: Covered(cache, queue, listing[i].value.chunkIds)
  }

  ghost predicate Covered(cache: Blobs, queue: seq<Text>, chunkIds: Text) {
    forall id | id in IdList(chunkIds) :: IsPresent(cache, id) || id in queue
  }

  /** What is asked for is named, and was not in the cache. */
  ghost predicate Asked(cache0: Blobs, queue: seq<Text>, listing: seq<Record>) {
    forall id | id in queue :: id != [] && id !in cache0 && Named(listing, id)
  }
}
