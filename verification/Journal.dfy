/** The server's `file_records` table and the queries on it (server/src/metadata/db.rs). */
module Journals {
  import opened Octets
  import opened Paths
  import opened Log

  /** What a record says about its path. */
  datatype Version = Version(chunkIds: Text, deleted: bool)

  type Record = Row<Version>

  /** `WHERE user_id = .. AND path = .. ORDER BY id DESC LIMIT 1`. */
  function LatestForPath(t: seq<Record>, user: int, path: Path): Option<Record> {
    if t == [] then None
    else if t[|t| - 1].owner == user && t[|t| - 1].path == path then Some(t[|t| - 1])
    else LatestForPath(t[..|t| - 1], user, path)
  }

  lemma {:induction false} LatestIsView(t: seq<Record>, user: int, path: Path)
    ensures LatestForPath(t, user, path) ==
            if path in View(t, user) then Some(View(t, user)[path]) else None
  {
    if t != [] {
      LatestIsView(t[..|t| - 1], user, path);
    }
  }

  /** `SELECT count(*) WHERE id IN (SELECT max(id) ..) AND NOT deleted` is positive. */
  ghost predicate HasFiles(t: seq<Record>, user: int) {
    exists r :: Selected(t, user, r) && !r.value.deleted
  }

  /** The user has files exactly when some path's newest record is live. */
  lemma {:induction false} HasFilesMeaning(t: seq<Record>, user: int)
    requires Increasing(t)
    ensures HasFiles(t, user) <==> exists p | p in View(t, user) :: !View(t, user)[p].value.deleted
  {
    if HasFiles(t, user) {
      var r :| Selected(t, user, r) && !r.value.deleted;
      SelectedIsView(t, user, r);
      assert r.path in View(t, user);
    }
    if p :| p in View(t, user) && !View(t, user)[p].value.deleted {
      ViewMeaning(t, user);
      SelectedIsView(t, user, View(t, user)[p]);
    }
  }

  /** What the user's files are, ids forgotten. */
  function Contents(t: seq<Record>, user: int): map<Path, Version> {
    map p | p in View(t, user) :: View(t, user)[p].value
  }

  /** No path of a user is recorded twice in a row with the same version. */
  ghost predicate NoRepeat(t: seq<Record>) {
    forall i, j | 0 <= i < j < |t| && Adjacent(t, i, j) :: t[i].value != t[j].value
  }

  /** `j` is the next row after `i` for the same user and path. */
  ghost predicate Adjacent(t: seq<Record>, i: nat, j: nat)
    requires i < j < |t|
  {
    t[i].owner == t[j].owner && t[i].path == t[j].path &&
    forall k | i < k < j :: t[k].owner != t[j].owner || t[k].path != t[j].path
  }

  /** Appending keeps `NoRepeat` exactly when the version differs from the newest one recorded. */
  lemma InsertNoRepeat(t: seq<Record>, user: int, path: Path, v: Version)
    requires Increasing(t) && NoRepeat(t)
    ensures NoRepeat(Insert(t, user, path, v)) <==> !(path in Contents(t, user) && Contents(t, user)[path] == v)
  {
    var u := Insert(t, user, path, v);
    ViewMeaning(t, user);
    forall i, j | 0 <= i < j < |t|
      ensures Adjacent(t, i, j) <==> Adjacent(u, i, j)
    {
      assert forall k | 0 <= k < |t| :: u[k] == t[k];
    }
    if path in View(t, user) {
      var i :| 0 <= i < |t| && t[i] == View(t, user)[path];
      forall k | i < k < |t|
        ensures t[k].owner != user || t[k].path != path
      {
        assert t[k] in t && t[i].id < t[k].id;
      }
      assert Adjacent(u, i, |t|);
      if u[i].value != v {
        forall h | 0 <= h < |t| && Adjacent(u, h, |t|)
          ensures u[h].value != v
        {
          assert !(h < i) && !(i < h);
        }
      }
    }
  }

  /** The `file_records` table of the metadata database. */
  class Journal {
    var rows: seq<Record>

    constructor ()
      ensures rows == []
    {
      rows := [];
    }

    method InsertNewRecord(user: int, path: Path, v: Version) returns (id: nat)
      modifies this
      ensures rows == Insert(old(rows), user, path, v)
      ensures id == LastId(rows)
    {
      rows := Insert(rows, user, path, v);
      id := LastId(rows);
    }

    /** The order of the answer is left open, as the query has no ORDER BY. */
    method List(user: int, jid: nat) returns (listing: seq<Record>)
      requires Increasing(rows)
      ensures Lists(listing, Newer(rows, user, jid))
    {
      var ids := MaxIds(rows, user);
      var wanted := (r: Record) => r.id > jid && r.id in ids;
      FilterDistinct(rows, wanted);
      listing := Filter(rows, wanted);
    }
  }

  lemma {:induction false} FilterDistinct<T(!new)>(s: seq<T>, keep: T -> bool)
    requires forall i, j | 0 <= i < j < |s| :: s[i] != s[j]
    ensures forall i, j | 0 <= i < j < |Filter(s, keep)| :: Filter(s, keep)[i] != Filter(s, keep)[j]
  {
    if s != [] {
      FilterDistinct(s[1..], keep);
      var rest := Filter(s[1..], keep);
      assert s[0] !in s[1..];
      assert forall i | 0 <= i < |rest| :: rest[i] in rest;
    }
  }
}
