/** The comparison of the registry with the disk (client/src/indexer.rs). */
module Indexers {
  import opened Octets
  import opened Paths
  import opened Log
  import opened Registries
  import opened Disks

  /** What the operating system reports about folders while the disk is walked. */
  type Stat = Path -> Meta

  /**
   The walk prunes hidden folders and keeps every entry whose name has a known format. It does not ask
   whether the entry is a file, so a folder named like a recipe is kept too.
   */
  predicate Seen(t: Tree, p: Path) {
    Scannable(p) && (p in t.files || (p in t.dirs && p != [] && !DotName(FileName(p))))
  }

  function MetaOf(t: Tree, stat: Stat, p: Path): Meta {
    var m := if p in t.files then Meta(|t.files[p].content|, t.files[p].mtime) else stat(p);
    m.(modifiedAt := Truncate(m.modifiedAt))
  }

  /** The disk as the indexer sees it. */
  function Scan(t: Tree, stat: Stat): map<Path, Meta> {
    map p | p in t.files.Keys + t.dirs && Seen(t, p) :: MetaOf(t, stat, p)
  }

  /** The walk goes into the root, and into every folder it meets whose name does not begin with a dot. */
  ghost predicate Entered(t: Tree, d: Path)
    decreases |d|
  {
    d == [] || (d in t.dirs && !DotName(FileName(d)) && Entered(t, Parent(d)))
  }

  /** An entry of a folder the walk goes into. */
  ghost predicate Met(t: Tree, p: Path) {
    p != [] && Exists(t, p) && Entered(t, Parent(p))
  }

  /** It comes up unless it is a folder the walk does not go into. */
  ghost predicate Walked(t: Tree, p: Path) {
    Met(t, p) && !(p in t.dirs && DotName(FileName(p)))
  }

  lemma {:induction false} EnteredExact(t: Tree, d: Path)
    requires WellFormed(t) && d in t.dirs
    ensures Entered(t, d) <==> forall i | 0 <= i < |d| :: !DotName(d[i])
    decreases |d|
  {
    if d != [] {
      EnteredExact(t, Parent(d));
      assert forall i | 0 <= i < |d| - 1 :: Parent(d)[i] == d[i];
    }
  }

  /** What the indexer sees is what a walk comes upon, and has a known format. A file's own name may begin with a dot. */
  lemma {:induction false} ScanIsWalk(t: Tree, stat: Stat, p: Path)
    requires WellFormed(t)
    ensures p in Scan(t, stat) <==> Walked(t, p) && Eligible(p)
    ensures p in Scan(t, stat) ==>
              var meta := if p in t.files then Meta(|t.files[p].content|, t.files[p].mtime) else stat(p);
              Scan(t, stat)[p] == Meta(meta.size, Time(meta.modifiedAt.sec, 0))
  {
    if p != [] && Exists(t, p) {
      EnteredExact(t, Parent(p));
      assert forall i | 0 <= i < |p| - 1 :: Parent(p)[i] == p[i];
    }
  }

  /** The three dotfiles are seen wherever no folder above them is hidden. */
  lemma {:induction false} DotfilesSeen(t: Tree, stat: Stat, d: Path, n: Name)
    requires WellFormed(t) && NamedText(n) && d + [n] in t.files
    ensures d + [n] in Scan(t, stat) <==> forall i | 0 <= i < |d| :: !DotName(d[i])
  {
    var p := d + [n];
    assert Parent(p) == d && FileName(p) == n;
    EnteredExact(t, d);
    ScanIsWalk(t, stat, p);
    NamedTextHasNoExtension(n);
    FormatWithoutExtension(p);
  }

  function DiskForm(t: Tree, stat: Stat, ns: int, p: Path): Form {
    Form(None, p, false, MetaOf(t, stat, p), ns)
  }

  function TombstoneForm(r: FileRecord, ns: int): Form {
    Form(None, r.path, true, r.value.meta, ns)
  }

  /** `impl PartialEq<CreateForm> for FileRecord`. */
  predicate SameFile(r: FileRecord, f: Form) {
    r.path == f.path && r.value.meta == f.meta
  }

  /** Both sides of the comparison, keyed by path. */
  ghost predicate Keyed(fromDb: map<Path, FileRecord>, fromFs: map<Path, Form>) {
    (forall p | p in fromDb :: fromDb[p].path == p) && (forall p | p in fromFs :: fromFs[p].path == p)
  }

  ghost function ToRemove(fromDb: map<Path, FileRecord>, fromFs: map<Path, Form>, ns: int): set<Form> {
    set p | p in fromDb && p !in fromFs :: TombstoneForm(fromDb[p], ns)
  }

  ghost function ToAdd(fromDb: map<Path, FileRecord>, fromFs: map<Path, Form>): set<Form> {
    set p | p in fromFs && !(p in fromDb && SameFile(fromDb[p], fromFs[p])) :: fromFs[p]
  }

  /** The order of both answers is that of two hash maps, so any. */
  method CompareRecords(fromDb: map<Path, FileRecord>, fromFs: map<Path, Form>, ns: int)
    returns (toRemove: seq<Form>, toAdd: seq<Form>)
    requires Keyed(fromDb, fromFs)
    ensures forall f :: f in toRemove <==> f in ToRemove(fromDb, fromFs, ns)
    ensures forall f :: f in toAdd <==> f in ToAdd(fromDb, fromFs)
    ensures DistinctPaths(toRemove) && DistinctPaths(toAdd)
  {
    toRemove, toAdd := [], [];
    var left := fromDb.Keys;
    while left != {}
      invariant left <= fromDb.Keys
      invariant forall f | f in toRemove ::
                  f.path in fromDb && f.path !in left && f.path !in fromFs && f == TombstoneForm(fromDb[f.path], ns)
      invariant forall p | p in fromDb && p !in left && p !in fromFs :: TombstoneForm(fromDb[p], ns) in toRemove
      invariant forall f | f in toAdd ::
                  f.path in fromDb && f.path !in left && f.path in fromFs && f == fromFs[f.path] &&
                  !SameFile(fromDb[f.path], f)
      invariant forall p | p in fromDb && p !in left && p in fromFs && !SameFile(fromDb[p], fromFs[p]) :: fromFs[p] in toAdd
      invariant DistinctPaths(toRemove) && DistinctPaths(toAdd)
      decreases left
    {
      var p :| p in left;
      left := left - {p};
      if p in fromFs {
        if !SameFile(fromDb[p], fromFs[p]) {
          DistinctSnoc(toAdd, fromFs[p]);
          toAdd := toAdd + [fromFs[p]];
        }
      } else {
        DistinctSnoc(toRemove, TombstoneForm(fromDb[p], ns));
        toRemove := toRemove + [TombstoneForm(fromDb[p], ns)];
      }
    }
    left := fromFs.Keys;
    while left != {}
      invariant left <= fromFs.Keys
      invariant forall f | f in toAdd :: f in ToAdd(fromDb, fromFs) && (f.path in fromDb || f.path !in left)
      invariant forall p | p in fromFs && p in fromDb && !SameFile(fromDb[p], fromFs[p]) :: fromFs[p] in toAdd
      invariant forall p | p in fromFs && p !in fromDb && p !in left :: fromFs[p] in toAdd
      invariant DistinctPaths(toAdd)
      decreases left
    {
      var p :| p in left;
      left := left - {p};
      if p !in fromDb {
        DistinctSnoc(toAdd, fromFs[p]);
        toAdd := toAdd + [fromFs[p]];
      }
    }
  }

  lemma DistinctSnoc(forms: seq<Form>, f: Form)
    requires DistinctPaths(forms) && forall g | g in forms :: g.path != f.path
    ensures DistinctPaths(forms + [f])
  {
    assert forall i | 0 <= i < |forms| :: forms[i] in forms;
  }

  /** The live rows of the table, keyed by path. */
  function LiveRows(t: seq<FileRecord>, ns: int): map<Path, FileRecord> {
    map p | p in View(t, ns) && !View(t, ns)[p].value.deleted :: View(t, ns)[p]
  }

  function DiskForms(t: Tree, stat: Stat, ns: int): map<Path, Form> {
    map p | p in Scan(t, stat) :: DiskForm(t, stat, ns, p)
  }

  /** The registry's live view and the disk scan are the same. */
  ghost predicate InSync(rows: seq<FileRecord>, ns: int, t: Tree, stat: Stat) {
    Live(rows, ns) == Scan(t, stat)
  }

  /** `rows1` is the registry after the indexer has seen the disk. */
  ghost predicate Indexed(rows: seq<FileRecord>, rows1: seq<FileRecord>, ns: int, t: Tree, stat: Stat) {
    exists toRemove: seq<Form>, toAdd: seq<Form> ::
      Compared(rows, ns, t, stat, toRemove, toAdd) && rows1 == Inserted(Inserted(rows, toRemove), toAdd)
  }

  ghost predicate Compared(rows: seq<FileRecord>, ns: int, t: Tree, stat: Stat, toRemove: seq<Form>, toAdd: seq<Form>) {
    (forall f :: f in toRemove <==> f in ToRemove(LiveRows(rows, ns), DiskForms(t, stat, ns), ns)) &&
    (forall f :: f in toAdd <==> f in ToAdd(LiveRows(rows, ns), DiskForms(t, stat, ns))) &&
    DistinctPaths(toRemove) && DistinctPaths(toAdd)
  }

  lemma RowsKeyed(rows: seq<FileRecord>, ns: int, t: Tree, stat: Stat)
    requires Increasing(rows)
    ensures Keyed(LiveRows(rows, ns), DiskForms(t, stat, ns))
    ensures forall p :: p in DiskForms(t, stat, ns) <==> p in Scan(t, stat)
    ensures forall p | p in Scan(t, stat) :: DiskForms(t, stat, ns)[p].meta == Scan(t, stat)[p]
  {
    ViewMeaning(rows, ns);
  }

  /** What a comparison finds, in terms of the two views. */
  lemma ComparedMeaning(rows: seq<FileRecord>, ns: int, t: Tree, stat: Stat, toRemove: seq<Form>, toAdd: seq<Form>)
    requires Increasing(rows) && Compared(rows, ns, t, stat, toRemove, toAdd)
    ensures forall f | f in toRemove ::
              f.path in Live(rows, ns) && f.path !in Scan(t, stat) && f == Form(None, f.path, true, Live(rows, ns)[f.path], ns)
    ensures forall f | f in toAdd ::
              f.path in Scan(t, stat) && !(f.path in Live(rows, ns) && Live(rows, ns)[f.path] == Scan(t, stat)[f.path]) &&
              f == Form(None, f.path, false, Scan(t, stat)[f.path], ns)
    ensures forall p | p in Live(rows, ns) && p !in Scan(t, stat) :: exists f | f in toRemove :: f.path == p
    ensures forall p | p in Scan(t, stat) && !(p in Live(rows, ns) && Live(rows, ns)[p] == Scan(t, stat)[p]) ::
              exists f | f in toAdd :: f.path == p
  {
    RowsKeyed(rows, ns, t, stat);
    var db, fs := LiveRows(rows, ns), DiskForms(t, stat, ns);
    forall p | p in Live(rows, ns) && p !in Scan(t, stat)
      ensures exists f | f in toRemove :: f.path == p
    {
      assert TombstoneForm(db[p], ns) in ToRemove(db, fs, ns);
    }
    forall p | p in Scan(t, stat) && !(p in Live(rows, ns) && Live(rows, ns)[p] == Scan(t, stat)[p])
      ensures exists f | f in toAdd :: f.path == p
    {
      assert fs[p] in ToAdd(db, fs);
    }
  }

  /** What the newest row of a path becomes: kept, tombstoned, or replaced by what is on the disk. */
  ghost predicate PathIndexed(rows: seq<FileRecord>, rows1: seq<FileRecord>, ns: int, scan: map<Path, Meta>, p: Path) {
    var live := Live(rows, ns);
    if p in scan && !(p in live && live[p] == scan[p]) then
      p in View(rows1, ns) && View(rows1, ns)[p].value == Local(None, false, scan[p])
    else if p in live && p !in scan then
      p in View(rows1, ns) && View(rows1, ns)[p].value == Local(None, true, live[p])
    else
      (p in View(rows1, ns) <==> p in View(rows, ns)) && (p in View(rows, ns) ==> View(rows1, ns)[p] == View(rows, ns)[p])
  }

  lemma {:induction false} IndexedPaths(rows: seq<FileRecord>, ns: int, t: Tree, stat: Stat,
                                        toRemove: seq<Form>, toAdd: seq<Form>, p: Path)
    requires Increasing(rows) && Compared(rows, ns, t, stat, toRemove, toAdd)
    ensures PathIndexed(rows, Inserted(Inserted(rows, toRemove), toAdd), ns, Scan(t, stat), p)
  {
    ComparedMeaning(rows, ns, t, stat, toRemove, toAdd);
    InsertedView(rows, toRemove, ns);
    InsertedView(Inserted(rows, toRemove), toAdd, ns);
  }

  /** From paths to the whole view. */
  lemma PathsIndexedInSync(rows: seq<FileRecord>, rows1: seq<FileRecord>, ns: int, t: Tree, stat: Stat)
    requires forall p :: PathIndexed(rows, rows1, ns, Scan(t, stat), p)
    ensures InSync(rows1, ns, t, stat)
  {
    var scan := Scan(t, stat);
    forall p
      ensures p in Live(rows1, ns) <==> p in scan
      ensures p in scan ==> Live(rows1, ns)[p] == scan[p]
    {
      assert PathIndexed(rows, rows1, ns, scan, p);
    }
  }

  lemma IndexedPathwise(rows: seq<FileRecord>, rows1: seq<FileRecord>, ns: int, t: Tree, stat: Stat)
    requires Increasing(rows) && Indexed(rows, rows1, ns, t, stat)
    ensures forall p :: PathIndexed(rows, rows1, ns, Scan(t, stat), p)
  {
    var toRemove: seq<Form>, toAdd: seq<Form> :|
      Compared(rows, ns, t, stat, toRemove, toAdd) && rows1 == Inserted(Inserted(rows, toRemove), toAdd);
    forall p
      ensures PathIndexed(rows, rows1, ns, Scan(t, stat), p)
    {
      IndexedPaths(rows, ns, t, stat, toRemove, toAdd, p);
    }
  }

  /** The registry and the disk differ at `p`, or its newest row awaits a jid. */
  predicate Pending(rows: seq<FileRecord>, ns: int, scan: map<Path, Meta>, p: Path) {
    var live := Live(rows, ns);
    (p in scan && !(p in live && live[p] == scan[p])) || (p in live && p !in scan) ||
    (p in View(rows, ns) && View(rows, ns)[p].value.jid.None?)
  }

  /** After an indexer pass the pending paths are those with a row to upload, which says whether the file is there. */
  lemma PendingRows(rows: seq<FileRecord>, rows1: seq<FileRecord>, ns: int, scan: map<Path, Meta>, p: Path)
    requires Increasing(rows) && Increasing(rows1) && PathIndexed(rows, rows1, ns, scan, p)
    ensures Pending(rows, ns, scan, p) <==> exists f | f in UpdatedLocally(rows1, ns) :: f.path == p
    ensures forall f | f in UpdatedLocally(rows1, ns) && f.path == p :: f.value.deleted <==> p !in scan
  {
    ViewMeaning(rows, ns);
    ViewMeaning(rows1, ns);
    if p in View(rows1, ns) {
      QueriesAreView(rows1, ns, View(rows1, ns)[p]);
    }
    forall f | f in UpdatedLocally(rows1, ns) && f.path == p
      ensures f == View(rows1, ns)[p] && p in View(rows1, ns)
    {
      QueriesAreView(rows1, ns, f);
    }
  }

  lemma NothingToRecord(rows: seq<FileRecord>, ns: int, t: Tree, stat: Stat, toRemove: seq<Form>, toAdd: seq<Form>)
    requires Increasing(rows) && Compared(rows, ns, t, stat, toRemove, toAdd)
    ensures toRemove == [] && toAdd == [] <==> InSync(rows, ns, t, stat)
  {
    ComparedMeaning(rows, ns, t, stat, toRemove, toAdd);
    if InSync(rows, ns, t, stat) {
      assert forall f :: f !in toRemove && f !in toAdd;
      HeadIsMember(toRemove);
      HeadIsMember(toAdd);
    }
  }

  /**
   One indexer pass. Whatever the registry held, it then agrees with the disk; only paths that
   differed got a row, and that row awaits a jid. Nothing is appended exactly when nothing differed.
   */
  lemma {:induction false} IndexConverges(rows: seq<FileRecord>, ns: int, t: Tree, stat: Stat,
                                          toRemove: seq<Form>, toAdd: seq<Form>)
    requires Increasing(rows) && Compared(rows, ns, t, stat, toRemove, toAdd)
    ensures var rows1 := Inserted(Inserted(rows, toRemove), toAdd);
            Increasing(rows1) && rows <= rows1 && InSync(rows1, ns, t, stat) &&
            forall p :: PathIndexed(rows, rows1, ns, Scan(t, stat), p)
    ensures toRemove == [] && toAdd == [] <==> InSync(rows, ns, t, stat)
  {
    var rows1 := Inserted(Inserted(rows, toRemove), toAdd);
    InsertedIncreasing(rows, toRemove);
    InsertedIncreasing(Inserted(rows, toRemove), toAdd);
    forall p
      ensures PathIndexed(rows, rows1, ns, Scan(t, stat), p)
    {
      IndexedPaths(rows, ns, t, stat, toRemove, toAdd, p);
    }
    PathsIndexedInSync(rows, rows1, ns, t, stat);
    NothingToRecord(rows, ns, t, stat, toRemove, toAdd);
  }

  /** An indexer pass of one namespace leaves the view of every other alone. */
  lemma {:induction false} IndexLeavesOthers(rows: seq<FileRecord>, ns: int, t: Tree, stat: Stat,
                                             toRemove: seq<Form>, toAdd: seq<Form>, o: int)
    requires Increasing(rows) && Compared(rows, ns, t, stat, toRemove, toAdd) && o != ns
    ensures View(Inserted(Inserted(rows, toRemove), toAdd), o) == View(rows, o)
  {
    ComparedMeaning(rows, ns, t, stat, toRemove, toAdd);
    InsertedView(rows, toRemove, ns);
    InsertedView(Inserted(rows, toRemove), toAdd, ns);
  }

  /**
   An edit goes unseen exactly when it keeps the size and stays within the second the file was last
   recorded in.
   */
  lemma EditSeen(rows: seq<FileRecord>, ns: int, t: Tree, stat: Stat, p: Path, f: File)
    requires InSync(rows, ns, t, stat) && p in t.files && Scannable(p)
    ensures var t1 := t.(files := t.files[p := f]);
            InSync(rows, ns, t1, stat) <==>
            |f.content| == |t.files[p].content| && f.mtime.sec == t.files[p].mtime.sec
  {
    var t1 := t.(files := t.files[p := f]);
    assert Scan(t, stat)[p] == Meta(|t.files[p].content|, Truncate(t.files[p].mtime));
    assert Scan(t1, stat)[p] == Meta(|f.content|, Truncate(f.mtime));
    if Scan(t, stat)[p] == Scan(t1, stat)[p] {
      forall q
        ensures q in Scan(t1, stat) <==> q in Scan(t, stat)
        ensures q in Scan(t, stat) ==> Scan(t1, stat)[q] == Scan(t, stat)[q]
      {
        assert t1.files.Keys == t.files.Keys;
      }
      assert Scan(t1, stat) == Scan(t, stat);
    }
  }

  /** So an edit can be missed for good: here one byte is changed for another within the second. */
  lemma EditMissed(ns: int, stat: Stat, stem: Name, sec: int, before: nat, after: nat)
    requires stem != [] && DOT !in stem
    ensures var p := Markdown(stem);
            var rows := [Row(1, ns, p, Local(Some(1), false, Meta(1, Time(sec, 0))))];
            var t := Tree(map[p := File([97], Time(sec, before))], {[]});
            var t1 := t.(files := t.files[p := File([98], Time(sec, after))]);
            InSync(rows, ns, t, stat) && t1.files[p].content != t.files[p].content && InSync(rows, ns, t1, stat) &&
            UpdatedLocally(rows, ns) == []
  {
    var p := Markdown(stem);
    var rows := [Row(1, ns, p, Local(Some(1), false, Meta(1, Time(sec, 0))))];
    var t := Tree(map[p := File([97], Time(sec, before))], {[]});
    MarkdownSeen(stem);
    assert rows[..0] == [];
    assert View(rows, ns) == map[p := rows[0]];
    HeadIsMember(UpdatedLocally(rows, ns));
    assert forall q | q in Scan(t, stat) :: q == p;
    assert Live(rows, ns) == Scan(t, stat);
    EditSeen(rows, ns, t, stat, p, File([98], Time(sec, after)));
  }

  /** `get_file_records_from_registry`. */
  method RecordsFromRegistry(registry: Registry, ns: int) returns (records: map<Path, FileRecord>)
    requires Increasing(registry.rows)
    ensures records == LiveRows(registry.rows, ns)
  {
    records := map[];
    var found, i := NonDeleted(registry.rows, ns), 0;
    while i < |found|
      invariant 0 <= i <= |found|
      invariant forall p | p in records :: records[p] in found && records[p].path == p
      invariant forall j | 0 <= j < i :: found[j].path in records
    {
      records := records[found[i].path := found[i]];
      i := i + 1;
    }
    AllFound(registry.rows, ns, records);
  }

  /** `records` holds the rows of the query, keyed by path. */
  ghost predicate Keeps(found: seq<FileRecord>, records: map<Path, FileRecord>) {
    (forall p | p in records :: records[p] in found && records[p].path == p) &&
    (forall r | r in found :: r.path in records)
  }

  lemma FoundAt(rows: seq<FileRecord>, ns: int, records: map<Path, FileRecord>, p: Path)
    requires Increasing(rows) && Keeps(NonDeleted(rows, ns), records)
    ensures p in records <==> p in LiveRows(rows, ns)
    ensures p in records ==> records[p] == LiveRows(rows, ns)[p]
  {
    if p in records {
      QueriesAreView(rows, ns, records[p]);
    }
    if p in View(rows, ns) {
      ViewMeaning(rows, ns);
      QueriesAreView(rows, ns, View(rows, ns)[p]);
    }
  }

  lemma AllFound(rows: seq<FileRecord>, ns: int, records: map<Path, FileRecord>)
    requires Increasing(rows) && Keeps(NonDeleted(rows, ns), records)
    ensures records == LiveRows(rows, ns)
  {
    forall p
      ensures p in records <==> p in LiveRows(rows, ns)
      ensures p in records ==> records[p] == LiveRows(rows, ns)[p]
    {
      FoundAt(rows, ns, records, p);
    }
  }

  function Children(t: Tree, d: Path): set<Path> {
    set p | p in t.files.Keys + t.dirs && p != [] && Parent(p) == d
  }

  /** The walk so far: `done` are the entries that have come up or been passed over, `left` those to come next. */
  ghost predicate Underway(t: Tree, left: set<Path>, done: set<Path>) {
    left !! done &&
    (forall p | p in left + done :: Met(t, p) && (Parent(p) == [] || Parent(p) in done)) &&
    (forall p | Met(t, p) && (Parent(p) == [] || Parent(p) in done) :: p in left + done)
  }

  lemma {:induction false} WalkBegins(t: Tree)
    ensures Underway(t, Children(t, []), {})
  {
  }

  lemma {:induction false} WalkGoesOn(t: Tree, left: set<Path>, done: set<Path>, p: Path)
    requires WellFormed(t) && Underway(t, left, done) && p in left && p != []
    ensures var more := if p in t.dirs && !DotName(FileName(p)) then Children(t, p) else {};
            Underway(t, left - {p} + more, done + {p})
  {
    var more := if p in t.dirs && !DotName(FileName(p)) then Children(t, p) else {};
    forall q | Met(t, q) && Parent(q) == p
      ensures q in more
    {
      assert Entered(t, p);
    }
  }

  lemma {:induction false} WalkEnds(t: Tree, done: set<Path>, p: Path)
    requires Underway(t, {}, done)
    ensures p in done <==> Met(t, p)
    decreases |p|
  {
    if Met(t, p) && Parent(p) != [] {
      WalkEnds(t, done, Parent(p));
      assert Met(t, Parent(p));
    }
  }

  /** `get_file_records_from_disk`: the walk, in any order. */
  method RecordsFromDisk(disk: Disk, stat: Stat, ns: int) returns (records: map<Path, Form>)
    requires WellFormed(disk.Snapshot())
    ensures records == DiskForms(disk.Snapshot(), stat, ns)
    ensures forall p :: p in records <==> Walked(disk.Snapshot(), p) && Eligible(p)
  {
    records := map[];
    var t := disk.Snapshot();
    var left := Children(t, []);
    ghost var done := {};
    WalkBegins(t);
    while left != {}
      invariant Underway(t, left, done) && done <= t.files.Keys + t.dirs
      invariant forall p :: p in records <==> p in done && Walked(t, p) && Eligible(p)
      invariant forall p | p in records :: records[p] == DiskForm(t, stat, ns, p)
      decreases t.files.Keys + t.dirs - done
    {
      var p :| p in left;
      assert Met(t, p) && p in t.files.Keys + t.dirs - done;
      WalkGoesOn(t, left, done, p);
      left, done := left - {p}, done + {p};
      if !(p in t.dirs && DotName(FileName(p))) {
        if Eligible(p) {
          records := records[p := DiskForm(t, stat, ns, p)];
        }
        if p in t.dirs {
          left := left + Children(t, p);
        }
      }
    }
    forall p
      ensures p in records <==> Walked(t, p) && Eligible(p)
      ensures p in records <==> p in Scan(t, stat)
    {
      WalkEnds(t, done, p);
      ScanIsWalk(t, stat, p);
    }
  }

  /** `check_index_once`; the result says whether anything was recorded. */
  method CheckIndexOnce(registry: Registry, disk: Disk, stat: Stat, ns: int) returns (changed: bool)
    requires Increasing(registry.rows) && WellFormed(disk.Snapshot())
    modifies registry
    ensures Increasing(registry.rows)
    ensures Indexed(old(registry.rows), registry.rows, ns, disk.Snapshot(), stat)
    ensures InSync(registry.rows, ns, disk.Snapshot(), stat)
    ensures changed <==> !InSync(old(registry.rows), ns, disk.Snapshot(), stat)
    ensures !changed ==> registry.rows == old(registry.rows)
  {
    var fromDb := RecordsFromRegistry(registry, ns);
    var fromFs := RecordsFromDisk(disk, stat, ns);
    RowsKeyed(registry.rows, ns, disk.Snapshot(), stat);
    var toRemove, toAdd := CompareRecords(fromDb, fromFs, ns);
    assert Compared(registry.rows, ns, disk.Snapshot(), stat, toRemove, toAdd);
    IndexConverges(registry.rows, ns, disk.Snapshot(), stat, toRemove, toAdd);
    if toRemove != [] || toAdd != [] {
      if toRemove != [] {
        registry.Delete(toRemove);
      }
      if toAdd != [] {
        registry.Create(toAdd);
      }
      assert registry.rows == Inserted(Inserted(old(registry.rows), toRemove), toAdd);
      changed := true;
    } else {
      changed := false;
    }
  }
}
