/** The client's `file_records` table (client/src/registry.rs, client/src/models.rs). */
module Registries {
  import opened Octets
  import opened Paths
  import opened Log

  /** A point in time, to the nanosecond. */
  datatype Time = Time(sec: int, nanos: nat)

  /** `truncate_to_seconds`. */
  function Truncate(t: Time): Time {
    t.(nanos := 0)
  }

  /** What the indexer compares: everything else about a file goes unseen. */
  datatype Meta = Meta(size: nat, modifiedAt: Time)

  datatype Local = Local(jid: Option<nat>, deleted: bool, meta: Meta)

  type FileRecord = Row<Local>

  /** A row to insert: the source's `CreateForm` and `DeleteForm`, which have the same fields. */
  datatype Form = Form(jid: Option<nat>, path: Path, deleted: bool, meta: Meta, namespace: int)

  function InsertForm(t: seq<FileRecord>, f: Form): seq<FileRecord> {
    Insert(t, f.namespace, f.path, Local(f.jid, f.deleted, f.meta))
  }

  /** The table after `create`, or after `delete`, which inserts too. */
  function Inserted(t: seq<FileRecord>, forms: seq<Form>): seq<FileRecord>
    decreases forms
  {
    if forms == [] then t else Inserted(InsertForm(t, forms[0]), forms[1..])
  }

  function WithJid(r: FileRecord, jid: nat): FileRecord {
    r.(value := r.value.(jid := Some(jid)))
  }

  /** The table after `UPDATE .. SET jid WHERE id = ..`. */
  function JidSet(t: seq<FileRecord>, id: nat, jid: nat): (u: seq<FileRecord>)
    ensures |u| == |t|
    ensures forall i | 0 <= i < |t| :: u[i] == if t[i].id == id then WithJid(t[i], jid) else t[i]
  {
    seq(|t|, i requires 0 <= i < |t| => if t[i].id == id then WithJid(t[i], jid) else t[i])
  }

  /** `WHERE NOT deleted AND id IN (SELECT max(id) ..) ORDER BY id`. */
  function NonDeleted(t: seq<FileRecord>, ns: int): seq<FileRecord> {
    var ids := MaxIds(t, ns);
    Filter(t, (r: FileRecord) => !r.value.deleted && r.id in ids)
  }

  /** `WHERE jid IS NULL AND id IN (SELECT max(id) ..) ORDER BY id`. */
  function UpdatedLocally(t: seq<FileRecord>, ns: int): seq<FileRecord> {
    var ids := MaxIds(t, ns);
    Filter(t, (r: FileRecord) => r.value.jid.None? && r.id in ids)
  }

  /** `WHERE jid IS NOT NULL AND namespace_id = .. ORDER BY jid DESC LIMIT 1`. */
  function LatestJid(t: seq<FileRecord>, ns: int): Option<nat> {
    if t == [] then None
    else
      var r, before := t[|t| - 1], LatestJid(t[..|t| - 1], ns);
      if r.owner == ns && r.value.jid.Some? && (before.None? || before.value <= r.value.jid.value) then r.value.jid
      else before
  }

  /** `latest_jid(..).unwrap_or(0)`. */
  function Watermark(t: seq<FileRecord>, ns: int): nat {
    match LatestJid(t, ns)
    case None => 0
    case Some(j) => j
  }

  /** The live files as the indexer sees them in the table. */
  function Live(t: seq<FileRecord>, ns: int): map<Path, Meta> {
    map p | p in View(t, ns) && !View(t, ns)[p].value.deleted :: View(t, ns)[p].value.meta
  }

  /** The two queries answer with the rows of the map that are live, or that await a jid. */
  lemma {:induction false} QueriesAreView(t: seq<FileRecord>, ns: int, r: FileRecord)
    requires Increasing(t)
    ensures r in NonDeleted(t, ns) <==> r.path in View(t, ns) && View(t, ns)[r.path] == r && !r.value.deleted
    ensures r in UpdatedLocally(t, ns) <==> r.path in View(t, ns) && View(t, ns)[r.path] == r && r.value.jid.None?
  {
    SelectedIsView(t, ns, r);
    ViewMeaning(t, ns);
  }

  lemma {:induction false} FilterKeepsOrder(t: seq<FileRecord>, keep: FileRecord -> bool)
    requires Increasing(t)
    ensures Increasing(Filter(t, keep))
  {
    if t != [] {
      FilterKeepsOrder(t[1..], keep);
      forall r | r in t[1..]
        ensures t[0].id < r.id
      {
        var i :| 0 <= i < |t[1..]| && t[1..][i] == r;
      }
      IncreasingCons(t[0], Filter(t[1..], keep));
    }
  }

  lemma IncreasingCons(r: FileRecord, t: seq<FileRecord>)
    requires Increasing(t) && r.id > 0 && forall s | s in t :: r.id < s.id
    ensures Increasing([r] + t)
  {
    assert forall i | 0 <= i < |t| :: t[i] in t;
  }

  /** The rows to upload: one per path, oldest first. */
  lemma UpdatedLocallyShape(t: seq<FileRecord>, ns: int)
    requires Increasing(t)
    ensures var u := UpdatedLocally(t, ns);
            Increasing(u) &&
            (forall i | 0 <= i < |u| :: u[i] in t && u[i].owner == ns && u[i].value.jid.None?) &&
            (forall i, j | 0 <= i < j < |u| :: u[i].path != u[j].path)
  {
    var ids := MaxIds(t, ns);
    FilterKeepsOrder(t, (r: FileRecord) => r.value.jid.None? && r.id in ids);
    var u := UpdatedLocally(t, ns);
    ViewMeaning(t, ns);
    forall i | 0 <= i < |u|
      ensures u[i] in t && u[i].owner == ns && u[i].value.jid.None?
      ensures View(t, ns)[u[i].path] == u[i]
    {
      assert u[i] in u;
      QueriesAreView(t, ns, u[i]);
    }
  }

  /** `latest_jid` is the largest jid of the namespace. */
  lemma {:induction false} LatestJidMeaning(t: seq<FileRecord>, ns: int)
    ensures forall r | r in t && r.owner == ns && r.value.jid.Some? ::
              LatestJid(t, ns).Some? && r.value.jid.value <= LatestJid(t, ns).value
    ensures LatestJid(t, ns).Some? ==> exists r | r in t :: r.owner == ns && r.value.jid == LatestJid(t, ns)
  {
    if t != [] {
      var n := |t| - 1;
      LatestJidMeaning(t[..n], ns);
      assert t == t[..n] + [t[n]];
      assert t[n] in t;
    }
  }

  lemma {:induction false} InsertedIncreasing(t: seq<FileRecord>, forms: seq<Form>)
    requires Increasing(t)
    ensures Increasing(Inserted(t, forms)) && t <= Inserted(t, forms)
    decreases forms
  {
    if forms != [] {
      InsertedIncreasing(InsertForm(t, forms[0]), forms[1..]);
    }
  }

  ghost predicate DistinctPaths(forms: seq<Form>) {
    forall i, j | 0 <= i < j < |forms| :: forms[i].path != forms[j].path
  }

  lemma {:induction false} OneInserted(t: seq<FileRecord>, f: Form)
    ensures var row := Row(LastId(t) + 1, f.namespace, f.path, Local(f.jid, f.deleted, f.meta));
            forall o :: View(InsertForm(t, f), o) == if o == f.namespace then View(t, o)[f.path := row] else View(t, o)
  {
    forall o
      ensures View(InsertForm(t, f), o) ==
              if o == f.namespace then View(t, o)[f.path := Row(LastId(t) + 1, f.namespace, f.path, Local(f.jid, f.deleted, f.meta))]
              else View(t, o)
    {
      ViewInsert(t, f.namespace, f.path, Local(f.jid, f.deleted, f.meta), o);
    }
  }

  /** Each form shows as the newest row of its path; other paths, and other namespaces, keep theirs. */
  lemma {:induction false} InsertedView(t: seq<FileRecord>, forms: seq<Form>, ns: int)
    requires DistinctPaths(forms) && forall f | f in forms :: f.namespace == ns
    ensures forall f | f in forms ::
              f.path in View(Inserted(t, forms), ns) &&
              View(Inserted(t, forms), ns)[f.path].value == Local(f.jid, f.deleted, f.meta)
    ensures forall p | (forall f | f in forms :: f.path != p) ::
              (p in View(Inserted(t, forms), ns) <==> p in View(t, ns)) &&
              (p in View(t, ns) ==> View(Inserted(t, forms), ns)[p] == View(t, ns)[p])
    ensures forall o | o != ns :: View(Inserted(t, forms), o) == View(t, o)
    decreases forms
  {
    if forms != [] {
      var f, rest := forms[0], forms[1..];
      assert Inserted(t, forms) == Inserted(InsertForm(t, f), rest);
      hide Inserted, InsertForm, View;
      InsertedView(InsertForm(t, f), rest, ns);
      assert forms == [f] + rest;
      assert forall g | g in rest :: g.path != f.path;
      OneInserted(t, f);
    }
  }

  /** A jid goes to one row, and shows in the view where that row is the newest. */
  lemma {:induction false} ViewJidSet(t: seq<FileRecord>, id: nat, jid: nat, ns: int)
    ensures View(JidSet(t, id, jid), ns) ==
            map p | p in View(t, ns) ::
              if View(t, ns)[p].id == id then WithJid(View(t, ns)[p], jid) else View(t, ns)[p]
  {
    if t != [] {
      var n := |t| - 1;
      assert JidSet(t, id, jid)[..n] == JidSet(t[..n], id, jid);
      ViewJidSet(t[..n], id, jid, ns);
    }
  }

  /** A change of the table: an insert in some namespace, or a jid for a row. */
  datatype Change =
    | Add(namespace: int, path: Path, value: Local)
    | SetJid(id: nat, jid: nat)

  function Changed(t: seq<FileRecord>, c: Change): seq<FileRecord> {
    match c
    case Add(ns, path, value) => Insert(t, ns, path, value)
    case SetJid(id, jid) => JidSet(t, id, jid)
  }

  /** The upload pass sets the jid of a row that `updated_locally` gave it, so of one without a jid. */
  ghost predicate Allowed(t: seq<FileRecord>, c: Change) {
    c.SetJid? ==> forall r | r in t && r.id == c.id :: r.value.jid.None?
  }

  function AllChanged(t: seq<FileRecord>, cs: seq<Change>): seq<FileRecord>
    decreases cs
  {
    if cs == [] then t else AllChanged(Changed(t, cs[0]), cs[1..])
  }

  ghost predicate AllAllowed(t: seq<FileRecord>, cs: seq<Change>)
    decreases cs
  {
    cs == [] || (Allowed(t, cs[0]) && AllAllowed(Changed(t, cs[0]), cs[1..]))
  }

  /** The simple map the table stands for in one namespace, updated change by change. */
  function ViewChanged(m: map<Path, FileRecord>, ns: int, c: Change, id: nat): map<Path, FileRecord> {
    match c
    case Add(owner, path, value) => if owner == ns then m[path := Row(id, ns, path, value)] else m
    case SetJid(i, jid) => map p | p in m :: if m[p].id == i then WithJid(m[p], jid) else m[p]
  }

  /** Rows are only added; a row changes only by getting a jid it did not have. */
  ghost predicate Evolves(t: seq<FileRecord>, u: seq<FileRecord>) {
    |t| <= |u| &&
    forall i | 0 <= i < |t| ::
      u[i] == t[i] || (t[i].value.jid.None? && u[i].value.jid.Some? && u[i] == WithJid(t[i], u[i].value.jid.value))
  }

  /** One change acts on the map as on the table, and on no other namespace's map unless it is theirs. */
  lemma {:induction false} ChangeRefines(t: seq<FileRecord>, c: Change, ns: int)
    requires Increasing(t)
    ensures Increasing(Changed(t, c))
    ensures View(Changed(t, c), ns) == ViewChanged(View(t, ns), ns, c, LastId(t) + 1)
    ensures c.Add? && c.namespace != ns ==> View(Changed(t, c), ns) == View(t, ns)
    ensures Allowed(t, c) ==> Evolves(t, Changed(t, c))
  {
    ChangeEvolves(t, c);
    hide Increasing, Evolves, Allowed;
    match c
    case Add(owner, path, value) => ViewInsert(t, owner, path, value, ns);
    case SetJid(id, jid) => ViewJidSet(t, id, jid, ns);
  }

  lemma {:induction false} ChangeEvolves(t: seq<FileRecord>, c: Change)
    requires Increasing(t)
    ensures Increasing(Changed(t, c))
    ensures Allowed(t, c) ==> Evolves(t, Changed(t, c))
  {
    if c.SetJid? && Allowed(t, c) {
      assert forall i | 0 <= i < |t| && t[i].id == c.id :: t[i] in t;
    }
  }

  /** Over any run of changes: rows stay, a jid once set is never overwritten, and the watermark never falls. */
  lemma {:induction false} RegistryRuns(t: seq<FileRecord>, cs: seq<Change>, ns: int)
    requires Increasing(t) && AllAllowed(t, cs)
    ensures Increasing(AllChanged(t, cs))
    ensures Evolves(t, AllChanged(t, cs))
    ensures Watermark(t, ns) <= Watermark(AllChanged(t, cs), ns)
    decreases cs
  {
    if cs != [] {
      ChangeRefines(t, cs[0], ns);
      RegistryRuns(Changed(t, cs[0]), cs[1..], ns);
    }
    EvolvesWatermark(t, AllChanged(t, cs), ns);
  }

  lemma EvolvesWatermark(t: seq<FileRecord>, u: seq<FileRecord>, ns: int)
    requires Evolves(t, u)
    ensures Watermark(t, ns) <= Watermark(u, ns)
  {
    LatestJidMeaning(t, ns);
    LatestJidMeaning(u, ns);
    if LatestJid(t, ns).Some? {
      var r :| r in t && r.owner == ns && r.value.jid == LatestJid(t, ns);
      var i :| 0 <= i < |t| && t[i] == r;
      assert u[i] in u && u[i].value.jid == r.value.jid;
    }
  }

  /** The client's metadata database. */
  class Registry {
    var rows: seq<FileRecord>

    constructor ()
      ensures rows == []
    {
      rows := [];
    }

    method Create(forms: seq<Form>)
      modifies this
      ensures rows == Inserted(old(rows), forms)
    {
      rows := Inserted(rows, forms);
    }

    /** Marks as deleted by inserting tombstones. */
    method Delete(forms: seq<Form>)
      modifies this
      ensures rows == Inserted(old(rows), forms)
    {
      rows := Inserted(rows, forms);
    }

    method UpdateJid(record: FileRecord, jid: nat)
      modifies this
      ensures rows == JidSet(old(rows), record.id, jid)
    {
      rows := JidSet(rows, record.id, jid);
    }
  }
}
