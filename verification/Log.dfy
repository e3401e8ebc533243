/**
 A table that is only ever appended to, with ids that grow: the shape of both `file_records` tables,
 the server's journal (owned per user) and the client's registry (owned per namespace).
 Both read it through "the row with max(id) of each path".
 */
module Log {
  import opened Paths

  datatype Row<V> = Row(id: nat, owner: int, path: Path, value: V)

  /** Ids start at one and grow. */
  ghost predicate Increasing<V(!new)>(t: seq<Row<V>>) {
    (forall i | 0 <= i < |t| :: t[i].id > 0) &&
    (forall i, j | 0 <= i < j < |t| :: t[i].id < t[j].id)
  }

  function LastId<V(!new)>(t: seq<Row<V>>): nat {
    if t == [] then 0 else t[|t| - 1].id
  }

  /** An `INTEGER PRIMARY KEY` is assigned one more than the largest id present. */
  function Insert<V(!new)>(t: seq<Row<V>>, owner: int, path: Path, value: V): seq<Row<V>> {
    t + [Row(LastId(t) + 1, owner, path, value)]
  }

  /** `SELECT max(id) WHERE owner = .. GROUP BY path`. */
  function MaxIds<V(==,!new)>(t: seq<Row<V>>, owner: int): set<nat> {
    set r | r in t && IsNewest(t, owner, r) :: r.id
  }

  predicate IsNewest<V(==,!new)>(t: seq<Row<V>>, owner: int, r: Row<V>) {
    r.owner == owner && forall s | s in t && s.owner == owner && s.path == r.path :: s.id <= r.id
  }

  /** `WHERE id IN (SELECT max(id) ..)`. The outer query does not filter on the owner again. */
  ghost predicate Selected<V(!new)>(t: seq<Row<V>>, owner: int, r: Row<V>) {
    r in t && r.id in MaxIds(t, owner)
  }

  /** `SELECT .. WHERE id > after AND id IN (SELECT max(id) ..)`, which comes back in no set order. */
  ghost function Newer<V(!new)>(t: seq<Row<V>>, owner: int, after: nat): set<Row<V>> {
    set r | r in t && r.id > after && r.id in MaxIds(t, owner)
  }

  /** The independent reading: a map updated row by row. */
  function View<V(!new)>(t: seq<Row<V>>, owner: int): map<Path, Row<V>> {
    if t == [] then map[]
    else
      var before := View(t[..|t| - 1], owner);
      var r := t[|t| - 1];
      if r.owner == owner then before[r.path := r] else before
  }

  /** The rows with an id of at most `j`. */
  function UpTo<V(!new)>(t: seq<Row<V>>, j: nat): seq<Row<V>> {
    if t == [] then []
    else
      var before := UpTo(t[..|t| - 1], j);
      if t[|t| - 1].id <= j then before + [t[|t| - 1]] else before
  }

  /** Rows written over a view, in the order they come. */
  function Overlay<V(!new)>(m: map<Path, Row<V>>, rows: seq<Row<V>>): map<Path, Row<V>>
    decreases rows
  {
    if rows == [] then m
    else Overlay(m[rows[0].path := rows[0]], rows[1..])
  }

  /** `rows` lists `s`, each element once, in some order. */
  ghost predicate Lists<T(!new)>(rows: seq<T>, s: set<T>) {
    (forall r :: r in rows <==> r in s) &&
    (forall i, j | 0 <= i < j < |rows| :: rows[i] != rows[j])
  }

  lemma LastIdIsMax<V(!new)>(t: seq<Row<V>>)
    requires Increasing(t)
    ensures forall r | r in t :: 0 < r.id <= LastId(t)
  {
  }

  lemma UniqueIds<V(!new)>(t: seq<Row<V>>, a: Row<V>, b: Row<V>)
    requires Increasing(t) && a in t && b in t && a.id == b.id
    ensures a == b
  {
    var i :| 0 <= i < |t| && t[i] == a;
    var j :| 0 <= j < |t| && t[j] == b;
    assert !(i < j) && !(j < i);
  }

  lemma InsertIncreasing<V(!new)>(t: seq<Row<V>>, owner: int, path: Path, value: V)
    requires Increasing(t)
    ensures Increasing(Insert(t, owner, path, value))
    ensures LastId(Insert(t, owner, path, value)) == LastId(t) + 1
  {
  }

  lemma {:induction false} ViewInsert<V(!new)>(t: seq<Row<V>>, owner: int, path: Path, value: V, who: int)
    ensures View(Insert(t, owner, path, value), who) ==
            if owner == who then View(t, who)[path := Row(LastId(t) + 1, owner, path, value)] else View(t, who)
  {
    var u := Insert(t, owner, path, value);
    assert u[..|u| - 1] == t;
  }

  /** For each path the owner's row with the largest id. */
  ghost predicate HoldsNewest<V(!new)>(t: seq<Row<V>>, owner: int, m: map<Path, Row<V>>) {
    (forall p | p in m :: m[p] in t && m[p].path == p && IsNewest(t, owner, m[p])) &&
    (forall r | r in t && r.owner == owner :: r.path in m)
  }

  lemma {:induction false} NewestSnoc<V(!new)>(t: seq<Row<V>>, owner: int, m: map<Path, Row<V>>, r: Row<V>)
    requires HoldsNewest(t, owner, m) && forall s | s in t :: s.id < r.id
    ensures HoldsNewest(t + [r], owner, if r.owner == owner then m[r.path := r] else m)
  {
    var t1, m1 := t + [r], if r.owner == owner then m[r.path := r] else m;
    forall p | p in m1
      ensures m1[p] in t1 && m1[p].path == p && IsNewest(t1, owner, m1[p])
    {
      if p in m {
        assert m[p] in t && IsNewest(t, owner, m[p]);
      }
    }
  }

  lemma {:induction false} LastIsLargest<V(!new)>(t: seq<Row<V>>)
    requires Increasing(t) && t != []
    ensures Increasing(t[..|t| - 1]) && forall s | s in t[..|t| - 1] :: s.id < t[|t| - 1].id
  {
  }

  /** The row-by-row map holds, for each path, the owner's row with the largest id. */
  lemma {:induction false} ViewMeaning<V(!new)>(t: seq<Row<V>>, owner: int)
    requires Increasing(t)
    ensures forall p | p in View(t, owner) ::
              View(t, owner)[p] in t && View(t, owner)[p].path == p && IsNewest(t, owner, View(t, owner)[p])
    ensures forall r | r in t && r.owner == owner :: r.path in View(t, owner)
  {
    if t != [] {
      var n := |t| - 1;
      LastIsLargest(t);
      ViewMeaning(t[..n], owner);
      NewestSnoc(t[..n], owner, View(t[..n], owner), t[n]);
      assert t == t[..n] + [t[n]];
    }
  }

  /** `id IN (SELECT max(id) .. GROUP BY path)` picks exactly the rows of the map. */
  lemma {:induction false} SelectedIsView<V(!new)>(t: seq<Row<V>>, owner: int, r: Row<V>)
    requires Increasing(t)
    ensures Selected(t, owner, r) <==> r.path in View(t, owner) && View(t, owner)[r.path] == r
  {
    ViewMeaning(t, owner);
    if Selected(t, owner, r) {
      var s :| s in t && IsNewest(t, owner, s) && s.id == r.id;
      UniqueIds(t, r, s);
      var v := View(t, owner)[r.path];
      assert v.id <= r.id && r.id <= v.id;
      UniqueIds(t, r, v);
    }
  }

  /** `Newer` in terms of the map. */
  lemma {:induction false} NewerIsView<V(!new)>(t: seq<Row<V>>, owner: int, after: nat, r: Row<V>)
    requires Increasing(t)
    ensures r in Newer(t, owner, after) <==> r.path in View(t, owner) && View(t, owner)[r.path] == r && r.id > after
  {
    SelectedIsView(t, owner, r);
  }

  /** A listing never names a path twice. */
  lemma ListingPathsDistinct<V(!new)>(t: seq<Row<V>>, owner: int, after: nat, rows: seq<Row<V>>)
    requires Increasing(t) && Lists(rows, Newer(t, owner, after))
    ensures forall i, j | 0 <= i < j < |rows| :: rows[i].path != rows[j].path
  {
    forall i, j | 0 <= i < j < |rows| ensures rows[i].path != rows[j].path {
      NewerIsView(t, owner, after, rows[i]);
      NewerIsView(t, owner, after, rows[j]);
      assert rows[i] in rows && rows[j] in rows;
    }
  }

  lemma {:induction false} UpToMeaning<V(!new)>(t: seq<Row<V>>, j: nat)
    requires Increasing(t)
    ensures Increasing(UpTo(t, j))
    ensures forall r :: r in UpTo(t, j) <==> r in t && r.id <= j
  {
    if t != [] {
      var n := |t| - 1;
      UpToMeaning(t[..n], j);
      assert t == t[..n] + [t[n]];
      var before := UpTo(t[..n], j);
      assert forall i | 0 <= i < |before| :: before[i] in before;
    }
  }

  lemma {:induction false} OverlayMeaning<V(!new)>(m: map<Path, Row<V>>, rows: seq<Row<V>>)
    requires forall i, j | 0 <= i < j < |rows| :: rows[i].path != rows[j].path
    ensures forall r | r in rows :: r.path in Overlay(m, rows) && Overlay(m, rows)[r.path] == r
    ensures forall p | p in Overlay(m, rows) ::
              (p in m && Overlay(m, rows)[p] == m[p]) ||
              (Overlay(m, rows)[p] in rows && Overlay(m, rows)[p].path == p)
    ensures forall p | p in m && (forall r | r in rows :: r.path != p) ::
              p in Overlay(m, rows) && Overlay(m, rows)[p] == m[p]
    decreases rows
  {
    if rows != [] {
      var m1, rest := m[rows[0].path := rows[0]], rows[1..];
      OverlayMeaning(m1, rest);
      assert rows == [rows[0]] + rest;
      assert forall r | r in rest :: r.path != rows[0].path;
    }
  }

  /** Where a path's newest row is after `j`, the listing has it; where not, the older view has. */
  lemma {:induction false} DeltaAt<V(!new)>(t: seq<Row<V>>, owner: int, j: nat, rows: seq<Row<V>>, p: Path)
    requires Increasing(t) && Lists(rows, Newer(t, owner, j)) && p in View(t, owner)
    ensures var base, now := View(UpTo(t, j), owner), View(t, owner)[p];
            if now.id > j then now in rows && now.path == p
            else p in base && base[p] == now && forall r | r in rows :: r.path != p
  {
    var now := View(t, owner)[p];
    ViewMeaning(t, owner);
    NewerIsView(t, owner, j, now);
    if now.id <= j {
      UpToMeaning(t, j);
      ViewMeaning(UpTo(t, j), owner);
      assert now in UpTo(t, j);
      UniqueIds(t, View(UpTo(t, j), owner)[p], now);
      forall r | r in rows
        ensures r.path != p
      {
        NewerIsView(t, owner, j, r);
      }
    }
  }

  lemma {:induction false} DeltaPaths<V(!new)>(t: seq<Row<V>>, owner: int, j: nat, rows: seq<Row<V>>)
    requires Increasing(t) && Lists(rows, Newer(t, owner, j))
    ensures forall p | p in View(UpTo(t, j), owner) :: p in View(t, owner)
    ensures forall r | r in rows :: r.path in View(t, owner)
  {
    UpToMeaning(t, j);
    ViewMeaning(UpTo(t, j), owner);
    ViewMeaning(t, owner);
    forall r | r in rows
      ensures r.path in View(t, owner)
    {
      NewerIsView(t, owner, j, r);
    }
  }

  lemma {:induction false} DeltaOverlay<V(!new)>(t: seq<Row<V>>, owner: int, j: nat, rows: seq<Row<V>>, p: Path)
    requires Increasing(t)
    requires Lists(rows, Newer(t, owner, j))
    ensures var all, now := Overlay(View(UpTo(t, j), owner), rows), View(t, owner);
            (p in all <==> p in now) && (p in now ==> all[p] == now[p])
  {
    hide Overlay, View, UpTo, Newer;
    ListingPathsDistinct(t, owner, j, rows);
    OverlayMeaning(View(UpTo(t, j), owner), rows);
    DeltaPaths(t, owner, j, rows);
    if p in View(t, owner) {
      DeltaAt(t, owner, j, rows, p);
    }
  }

  /**
   What a client misses after `j` is exactly the listing after `j`: laid over the view of the rows up
   to `j`, in whatever order it arrives, it gives the view of the whole table.
   */
  lemma {:induction false} DeltaComposition<V(!new)>(t: seq<Row<V>>, owner: int, j: nat, rows: seq<Row<V>>)
    requires Increasing(t)
    requires Lists(rows, Newer(t, owner, j))
    ensures Overlay(View(UpTo(t, j), owner), rows) == View(t, owner)
  {
    var all, now := Overlay(View(UpTo(t, j), owner), rows), View(t, owner);
    forall p
      ensures p in all <==> p in now
      ensures p in now ==> all[p] == now[p]
    {
      DeltaOverlay(t, owner, j, rows, p);
    }
  }
}
