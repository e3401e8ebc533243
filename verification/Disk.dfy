/** The storage directory: files, folders, and the clean-up of empty ones (client/src/chunker.rs). */
module Disks {
  import opened Octets
  import opened Paths
  import opened Registries

  datatype File = File(content: Bytes, mtime: Time)

  /** Folders are given by path too; `[]` is the storage root. */
  datatype Tree = Tree(files: map<Path, File>, dirs: set<Path>)

  ghost predicate WellFormed(t: Tree) {
    [] in t.dirs &&
    (forall d | d in t.dirs && d != [] :: Parent(d) in t.dirs) &&
    (forall p | p in t.files :: p != [] && Parent(p) in t.dirs && p !in t.dirs)
  }

  predicate HasChild(t: Tree, d: Path) {
    (exists p | p in t.files :: p != [] && Parent(p) == d) ||
    (exists e | e in t.dirs :: e != [] && Parent(e) == d)
  }

  ghost predicate NoEmptyFolders(t: Tree) {
    forall d | d in t.dirs && d != [] :: HasChild(t, d)
  }

  predicate Exists(t: Tree, p: Path) {
    p in t.files || p in t.dirs
  }

  /** `p` and every folder above it. */
  function Upward(p: Path): set<Path> {
    set k | 0 <= k <= |p| :: p[..k]
  }

  /** `create_dir_all` succeeds unless a file is in the way. */
  predicate CanCreateDirs(t: Tree, d: Path) {
    forall k | 0 <= k <= |d| :: d[..k] !in t.files
  }

  /** `create_dir_all` of the parent and `File::create` both succeed. */
  predicate CanWrite(t: Tree, p: Path) {
    p != [] && CanCreateDirs(t, Parent(p)) && p !in t.dirs
  }

  function Written(t: Tree, p: Path, f: File): Tree
    requires p != []
  {
    Tree(t.files[p := f], t.dirs + Upward(Parent(p)))
  }

  /** `remove_dir` on `d` and then on its parents, until one is not empty or the root is reached. */
  function Pruned(t: Tree, d: Path): Tree
    decreases |d|
  {
    if d == [] || d !in t.dirs || HasChild(t, d) then t
    else Pruned(t.(dirs := t.dirs - {d}), Parent(d))
  }

  function Removed(t: Tree, p: Path): Tree
    requires p != []
  {
    Pruned(t.(files := t.files - {p}), Parent(p))
  }

  lemma {:induction false} UpwardInDirs(t: Tree, d: Path)
    requires WellFormed(t) && d in t.dirs
    ensures Upward(d) <= t.dirs
  {
    if d != [] {
      UpwardInDirs(t, Parent(d));
      forall k | 0 <= k <= |d|
        ensures d[..k] in t.dirs
      {
        if k < |d| {
          assert d[..k] == Parent(d)[..k];
          assert d[..k] in Upward(Parent(d));
        } else {
          assert d[..k] == d;
        }
      }
    }
  }

  function FoldersBelow(t: Tree, d: Path): set<Path> {
    set e | e in t.dirs && d < e
  }

  lemma FewerBelow(t: Tree, d: Path, e: Path)
    requires e in t.dirs && e != [] && Parent(e) == d
    ensures |FoldersBelow(t, e)| < |FoldersBelow(t, d)|
  {
    assert d < e;
    assert e in FoldersBelow(t, d) && e !in FoldersBelow(t, e);
    forall x | x in FoldersBelow(t, e)
      ensures x in FoldersBelow(t, d)
    {
      assert d < x;
    }
    ProperSubset(FoldersBelow(t, e), FoldersBelow(t, d));
  }

  /** Without empty folders, below every folder lies a file. */
  lemma {:induction false} FileBelow(t: Tree, d: Path) returns (p: Path)
    requires WellFormed(t) && NoEmptyFolders(t) && d in t.dirs && d != []
    ensures p in t.files && d < p
    decreases |FoldersBelow(t, d)|
  {
    if q :| q in t.files && q != [] && Parent(q) == d {
      p := q;
    } else {
      var e :| e in t.dirs && e != [] && Parent(e) == d;
      FewerBelow(t, d, e);
      p := FileBelow(t, e);
    }
  }

  lemma ProperSubset<T>(a: set<T>, b: set<T>)
    requires a < b
    ensures |a| < |b|
  {
    assert b == a + (b - a);
  }

  /**
   A tree without empty folders has no folders to spare: they are exactly the root and the folders
   above its files.
   */
  lemma FoldersFollowFiles(t: Tree, d: Path)
    requires WellFormed(t)
    ensures NoEmptyFolders(t) ==> (d in t.dirs <==> d == [] || exists p | p in t.files :: d < p)
  {
    if NoEmptyFolders(t) {
      if d in t.dirs && d != [] {
        var p := FileBelow(t, d);
      }
      if p :| p in t.files && d < p {
        UpwardInDirs(t, Parent(p));
        assert d == Parent(p)[..|d|];
      }
    }
  }

  /** A file can be written where there is no folder, and no file in the place of a folder above. */
  lemma {:induction false} CanWriteExact(t: Tree, p: Path)
    requires WellFormed(t)
    ensures CanWrite(t, p) <==> p !in t.dirs && forall q | q in t.files :: !(q < p)
  {
    if p != [] {
      var up := Parent(p);
      if k :| 0 <= k <= |up| && up[..k] in t.files {
        assert up[..k] < p;
      }
      if q :| q in t.files && q < p {
        assert q == up[..|q|];
      }
    }
  }

  /** Saving keeps the tree closed under parents and adds no empty folder. */
  lemma WrittenKeepsTree(t: Tree, p: Path, f: File)
    requires WellFormed(t) && CanWrite(t, p)
    ensures WellFormed(Written(t, p, f))
    ensures NoEmptyFolders(t) ==> NoEmptyFolders(Written(t, p, f))
  {
    var u := Written(t, p, f);
    var up := Parent(p);
    assert up == up[..|up|] && up in Upward(up);
    forall d | d in u.dirs && d != []
      ensures Parent(d) in u.dirs
      ensures NoEmptyFolders(t) ==> HasChild(u, d)
    {
      if d in t.dirs {
        assert Parent(d) in t.dirs;
        if NoEmptyFolders(t) {
          assert HasChild(t, d);
        }
      } else {
        var k :| 0 <= k <= |up| && d == up[..k];
        assert Parent(d) == up[..k - 1] && up[..k - 1] in Upward(up);
        if k < |up| {
          assert Parent(up[..k + 1]) == d && up[..k + 1] in Upward(up);
        }
      }
    }
  }

  /** Every folder off the walk's way, `d` upward, still has something in it. */
  ghost predicate FilledOffTheWay(t: Tree, d: Path) {
    forall e | e in t.dirs && e != [] && e !in Upward(d) :: HasChild(t, e)
  }

  lemma {:induction false} PrunedKeepsTree(t: Tree, d: Path)
    requires WellFormed(t) && d in t.dirs
    ensures WellFormed(Pruned(t, d)) && Pruned(t, d).files == t.files && Pruned(t, d).dirs <= t.dirs
    ensures t.dirs - Pruned(t, d).dirs <= Upward(d)
    ensures FilledOffTheWay(t, d) ==> NoEmptyFolders(Pruned(t, d))
    decreases |d|
  {
    assert d == d[..|d|];
    if d == [] {
      assert Upward(d) == {[]};
    } else if HasChild(t, d) {
      if FilledOffTheWay(t, d) {
        UpwardInDirs(t, d);
        forall e | e in t.dirs && e != []
          ensures HasChild(t, e)
        {
          if e in Upward(d) && e != d {
            var k :| 0 <= k <= |d| && e == d[..k];
            assert Parent(d[..k + 1]) == e && d[..k + 1] in Upward(d);
          }
        }
      }
    } else {
      var u := t.(dirs := t.dirs - {d});
      var up := Parent(d);
      UpwardInDirs(t, d);
      forall e | e in Upward(d)
        ensures e == d || e in Upward(up)
      {
        var k :| 0 <= k <= |d| && e == d[..k];
        assert k < |d| ==> e == up[..k];
      }
      forall e | e in Upward(up)
        ensures e in Upward(d)
      {
        var k :| 0 <= k <= |up| && e == up[..k];
        assert e == d[..k];
      }
      assert WellFormed(u);
      if FilledOffTheWay(t, d) {
        forall e | e in u.dirs && e != [] && e !in Upward(up)
          ensures HasChild(u, e)
        {
          assert e !in Upward(d) && HasChild(t, e);
          if x :| x in t.dirs && x != [] && Parent(x) == e {
            assert x != d by {
              assert up == up[..|up|] && up in Upward(up);
            }
          }
        }
      }
      PrunedKeepsTree(u, up);
    }
  }

  /**
   Deleting a file keeps the tree closed under parents, leaves no empty folder, touches no other file,
   and removes folders only above the file, never the root.
   */
  lemma RemovedKeepsTree(t: Tree, p: Path)
    requires WellFormed(t) && p in t.files
    ensures WellFormed(Removed(t, p))
    ensures Removed(t, p).files == t.files - {p} && Removed(t, p).dirs <= t.dirs
    ensures forall d | d in t.dirs && d !in Removed(t, p).dirs :: d < p && d != []
    ensures NoEmptyFolders(t) ==> NoEmptyFolders(Removed(t, p))
  {
    var u := t.(files := t.files - {p});
    var up := Parent(p);
    assert up == up[..|up|] && up in Upward(up);
    if NoEmptyFolders(t) {
      RemovalEmptiesParentOnly(t, p);
    }
    PrunedKeepsTree(u, up);
    forall d | d in t.dirs && d !in Pruned(u, up).dirs
      ensures d < p && d != []
    {
      assert d in u.dirs - Pruned(u, up).dirs;
      UpwardIsAbove(p, d);
    }
  }

  /** Nothing lies below the folder but what lies on the way from it to `d`. */
  ghost predicate OnlyTowards(t: Tree, e: Path, d: Path) {
    forall q | Exists(t, q) && e < q :: q in t.dirs && q <= d
  }

  lemma {:induction false} ChildTowards(t: Tree, e: Path, q: Path)
    requires WellFormed(t) && Exists(t, q) && e < q
    ensures HasChild(t, e)
    decreases |q|
  {
    if Parent(q) != e {
      assert Parent(q) in t.dirs && e <= Parent(q);
      ChildTowards(t, e, Parent(q));
    }
  }

  lemma {:induction false} PrunedExact(t: Tree, d: Path, e: Path)
    requires WellFormed(t) && d in t.dirs && e in t.dirs
    ensures e in Pruned(t, d).dirs <==> e == [] || !(e <= d) || !OnlyTowards(t, e, d)
    decreases |d|
  {
    PrunedKeepsTree(t, d);
    if d != [] && HasChild(t, d) {
      if e <= d {
        ChildKeeps(t, d, e);
      }
    } else if d != [] {
      var u := t.(dirs := t.dirs - {d});
      NoChildBelow(t, d);
      LeafGone(t, d);
      if e == d {
        PrunedKeepsTree(u, Parent(d));
      } else {
        LeafPruned(t, d, e);
        PrunedExact(u, Parent(d), e);
      }
    }
  }

  lemma {:induction false} ChildKeeps(t: Tree, d: Path, e: Path)
    requires WellFormed(t) && d in t.dirs && HasChild(t, d) && e in t.dirs && e <= d
    ensures !OnlyTowards(t, e, d)
  {
    if p :| p in t.files && p != [] && Parent(p) == d {
      assert Exists(t, p) && e < p;
    } else {
      var p :| p in t.dirs && p != [] && Parent(p) == d;
      assert Exists(t, p) && e < p;
    }
  }

  lemma {:induction false} NoChildBelow(t: Tree, d: Path)
    requires WellFormed(t) && !HasChild(t, d)
    ensures OnlyTowards(t, d, d)
  {
    forall q | Exists(t, q)
      ensures !(d < q)
    {
      if d < q {
        ChildTowards(t, d, q);
      }
    }
  }

  lemma {:induction false} LeafGone(t: Tree, d: Path)
    requires WellFormed(t) && d in t.dirs && d != [] && !HasChild(t, d)
    ensures WellFormed(t.(dirs := t.dirs - {d}))
  {
  }

  lemma {:induction false} LeafPruned(t: Tree, d: Path, e: Path)
    requires WellFormed(t) && d in t.dirs && d != [] && !HasChild(t, d) && e in t.dirs && e != d
    ensures var u := t.(dirs := t.dirs - {d});
            (e <= d <==> e <= Parent(d)) && (e <= d ==> (OnlyTowards(t, e, d) <==> OnlyTowards(u, e, Parent(d))))
  {
    var u := t.(dirs := t.dirs - {d});
    if OnlyTowards(t, e, d) {
      forall q | Exists(u, q) && e < q
        ensures q in u.dirs && q <= Parent(d)
      {
        assert Exists(t, q) && q <= d && q != d;
        assert q == Parent(d)[..|q|];
      }
    }
    if OnlyTowards(u, e, Parent(d)) {
      forall q | Exists(t, q) && e < q
        ensures q in t.dirs && q <= d
      {
        assert q == d || Exists(u, q);
      }
    }
  }

  /** Just the folders go that the file was all there was below, and the root never does. */
  lemma {:induction false} RemovedExact(t: Tree, p: Path, e: Path)
    requires WellFormed(t) && p in t.files && e in t.dirs
    ensures e in Removed(t, p).dirs <==>
            e == [] || !(e < p) || exists q | Exists(t, q) && q != p && e < q :: !(q in t.dirs && q < p)
  {
    var u := t.(files := t.files - {p});
    PrunedExact(u, Parent(p), e);
    forall q | Exists(t, q)
      ensures q <= Parent(p) <==> q < p
      ensures q != p <==> Exists(u, q)
    {
    }
  }

  lemma UpwardIsAbove(p: Path, d: Path)
    requires p != []
    ensures d in Upward(Parent(p)) <==> d < p
  {
    if d in Upward(Parent(p)) {
      var k :| 0 <= k <= |Parent(p)| && d == Parent(p)[..k];
      assert d == p[..k];
    }
    if d < p {
      assert d == Parent(p)[..|d|];
    }
  }

  lemma RemovalEmptiesParentOnly(t: Tree, p: Path)
    requires WellFormed(t) && NoEmptyFolders(t) && p in t.files
    ensures FilledOffTheWay(t.(files := t.files - {p}), Parent(p))
  {
    var u := t.(files := t.files - {p});
    assert Parent(p) == Parent(p)[..|Parent(p)|] && Parent(p) in Upward(Parent(p));
    forall e | e in u.dirs && e != [] && e !in Upward(Parent(p))
      ensures HasChild(u, e)
    {
      assert HasChild(t, e);
      if q :| q in t.files && q != [] && Parent(q) == e {
        assert q in u.files;
      }
    }
  }

  datatype TreeOp = Save(path: Path, file: File) | Delete(path: Path)

  /** The tree after a `save` or a `delete`; an operation that fails outright changes nothing. */
  function Applied(t: Tree, op: TreeOp): Tree {
    match op
    case Save(p, f) => if CanWrite(t, p) then Written(t, p, f) else t
    case Delete(p) => if p in t.files && p != [] then Removed(t, p) else t
  }

  function AllApplied(t: Tree, ops: seq<TreeOp>): Tree
    decreases ops
  {
    if ops == [] then t else AllApplied(Applied(t, ops[0]), ops[1..])
  }

  /** Over any run of saves and deletes no folder is ever left without a file below it. */
  lemma {:induction false} NoGhostFolders(t: Tree, ops: seq<TreeOp>)
    requires WellFormed(t) && NoEmptyFolders(t)
    ensures WellFormed(AllApplied(t, ops)) && NoEmptyFolders(AllApplied(t, ops))
    ensures forall d :: d in AllApplied(t, ops).dirs <==> d == [] || exists p | p in AllApplied(t, ops).files :: d < p
    decreases ops
  {
    if ops != [] {
      match ops[0] {
        case Save(p, f) => if CanWrite(t, p) { WrittenKeepsTree(t, p, f); }
        case Delete(p) => if p in t.files && p != [] { RemovedKeepsTree(t, p); }
      }
      NoGhostFolders(Applied(t, ops[0]), ops[1..]);
    } else {
      forall d
        ensures d in t.dirs <==> d == [] || exists p | p in t.files :: d < p
      {
        FoldersFollowFiles(t, d);
      }
    }
  }

  /** The storage directory as the operating system keeps it. */
  class Disk {
    var files: map<Path, File>
    var dirs: set<Path>

    constructor ()
      ensures Snapshot() == Tree(map[], {[]})
    {
      files, dirs := map[], {[]};
    }

    function Snapshot(): Tree
      reads this
    {
      Tree(files, dirs)
    }

    method CreateDirAll(d: Path) returns (ok: bool)
      modifies this`dirs
      ensures ok == CanCreateDirs(old(Snapshot()), d)
      ensures dirs == if ok then old(dirs) + Upward(d) else old(dirs)
    {
      ok := CanCreateDirs(Snapshot(), d);
      if ok {
        dirs := dirs + Upward(d);
      }
    }

    /** `remove_dir`: only an empty folder can go. */
    method RemoveDir(d: Path) returns (ok: bool)
      modifies this`dirs
      ensures ok == (d in old(dirs) && !HasChild(old(Snapshot()), d))
      ensures dirs == if ok then old(dirs) - {d} else old(dirs)
    {
      ok := d in dirs && !HasChild(Snapshot(), d);
      if ok {
        dirs := dirs - {d};
      }
    }
  }
}
