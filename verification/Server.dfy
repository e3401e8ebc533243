/** The chunk store and `commit` (server/src/chunk_id.rs, chunks/mod.rs, metadata/mod.rs, metadata/request.rs). */
module Servers {
  import opened Octets
  import opened Paths
  import opened Log
  import opened Journals
  import opened Forms
  import ListCodec

  type Blobs = map<Text, Bytes>

  type Part = (Text, Bytes)

  datatype CommitResult = Success(jid: nat) | NeedChunks(ids: Text)

  /** `split(',')` on a `chunk_ids` field. */
  function IdList(chunkIds: Text): seq<Text> {
    ListCodec.Split(chunkIds, COMMA)
  }

  /** The empty id stands for no bytes at all and is never missing. */
  predicate IsPresent(store: Blobs, id: Text) {
    id == [] || id in store
  }

  function Missing(store: Blobs, ids: seq<Text>): seq<Text> {
    if ids == [] then [] else (if IsPresent(store, ids[0]) then [] else [ids[0]]) + Missing(store, ids[1..])
  }

  function NonLocalChunks(store: Blobs, chunkIds: Text): seq<Text> {
    Missing(store, IdList(chunkIds))
  }

  lemma {:induction false} MissingMeaning(store: Blobs, ids: seq<Text>)
    ensures forall id :: id in Missing(store, ids) <==> id in ids && !IsPresent(store, id)
  {
    if ids != [] {
      MissingMeaning(store, ids[1..]);
      assert ids == [ids[0]] + ids[1..];
    }
  }

  /** Id by id, in order, each as often as it is named. */
  lemma {:induction false} MissingParts(store: Blobs, a: seq<Text>, id: Text, b: seq<Text>)
    ensures Missing(store, a + [id] + b) ==
            Missing(store, a) + (if id == [] || id in store then [] else [id]) + Missing(store, b)
  {
    if a == [] {
      assert ([] + [id] + b)[1..] == b;
    } else {
      assert (a + [id] + b)[1..] == a[1..] + [id] + b;
      MissingParts(store, a[1..], id, b);
    }
  }

  ghost predicate AllPresent(store: Blobs, chunkIds: Text) {
    forall id | id in IdList(chunkIds) :: IsPresent(store, id)
  }

  datatype Committed = Committed(rows: seq<Record>, answer: CommitResult)

  /** `commit` run with nothing in between: presence check, dedup read, insert. */
  function CommitStep(rows: seq<Record>, store: Blobs, user: int, path: Path, v: Version): Committed {
    var missing := NonLocalChunks(store, v.chunkIds);
    if missing != [] then Committed(rows, NeedChunks(ListCodec.Join(missing, COMMA)))
    else
      match LatestForPath(rows, user, path)
      case Some(r) =>
        if r.value == v then Committed(rows, Success(r.id))
        else Committed(Insert(rows, user, path, v), Success(LastId(rows) + 1))
      case None => Committed(Insert(rows, user, path, v), Success(LastId(rows) + 1))
  }

  /** Every chunk a record names is in the store. */
  ghost predicate Referential(rows: seq<Record>, store: Blobs) {
    forall r | r in rows :: AllPresent(store, r.value.chunkIds)
  }

  lemma KeysKeepReferential(rows: seq<Record>, store0: Blobs, store: Blobs)
    requires Referential(rows, store0) && store0.Keys <= store.Keys
    ensures Referential(rows, store)
  {
    forall r | r in rows
      ensures AllPresent(store, r.value.chunkIds)
    {
      forall id | id in IdList(r.value.chunkIds)
        ensures IsPresent(store, id)
      {
        assert IsPresent(store0, id);
      }
    }
  }

  lemma NonLocalEmpty(store: Blobs, chunkIds: Text)
    ensures NonLocalChunks(store, chunkIds) == [] <==> AllPresent(store, chunkIds)
  {
    MissingMeaning(store, IdList(chunkIds));
    HeadIsMember(NonLocalChunks(store, chunkIds));
  }

  /**
   A commit is refused exactly when it names a chunk the store lacks. It then records nothing, and the
   text it answers with reads back as the missing ids, in order, none of them empty.
   */
  lemma CommitRefusal(rows: seq<Record>, store: Blobs, user: int, path: Path, v: Version)
    ensures CommitStep(rows, store, user, path, v).answer.NeedChunks? <==> !AllPresent(store, v.chunkIds)
    ensures var c := CommitStep(rows, store, user, path, v);
            c.answer.NeedChunks? ==>
              c.rows == rows && IdList(c.answer.ids) == NonLocalChunks(store, v.chunkIds) &&
              forall id | id in IdList(c.answer.ids) :: id != [] && id in IdList(v.chunkIds) && id !in store
  {
    NonLocalEmpty(store, v.chunkIds);
    MissingMeaning(store, IdList(v.chunkIds));
    var missing := NonLocalChunks(store, v.chunkIds);
    if missing != [] {
      ListCodec.SplitIsFree(v.chunkIds, COMMA);
      ListCodec.SplitAfterJoin(missing, COMMA);
    }
  }

  /** A tombstone, or an empty file, names no chunk and is never refused. */
  lemma EmptyNeverRefused(rows: seq<Record>, store: Blobs, user: int, path: Path, deleted: bool)
    ensures CommitStep(rows, store, user, path, Version([], deleted)).answer.Success?
  {
    CommitRefusal(rows, store, user, path, Version([], deleted));
  }

  /**
   An accepted commit makes the answered id the newest record of the path, with the committed version,
   whether it was inserted or found; nothing else in any user's view moves.
   */
  lemma {:induction false} CommitEffect(rows: seq<Record>, store: Blobs, user: int, path: Path, v: Version)
    requires Increasing(rows)
    ensures var c := CommitStep(rows, store, user, path, v);
            c.answer.Success? ==>
              View(c.rows, user) == View(rows, user)[path := Row(c.answer.jid, user, path, v)] &&
              forall u | u != user :: View(c.rows, u) == View(rows, u)
    ensures var c := CommitStep(rows, store, user, path, v);
            Increasing(c.rows) && rows <= c.rows && LastId(c.rows) >= LastId(rows) &&
            (c.answer.Success? ==> c.answer.jid <= LastId(c.rows))
    ensures var c := CommitStep(rows, store, user, path, v);
            c.answer.Success? && c.rows != rows ==>
              c.rows == Insert(rows, user, path, v) && c.answer.jid == LastId(rows) + 1
  {
    var c := CommitStep(rows, store, user, path, v);
    LatestIsView(rows, user, path);
    InsertIncreasing(rows, user, path, v);
    ViewMeaning(rows, user);
    LastIdIsMax(rows);
    forall u
      ensures View(Insert(rows, user, path, v), u) ==
              if user == u then View(rows, u)[path := Row(LastId(rows) + 1, user, path, v)] else View(rows, u)
    {
      ViewInsert(rows, user, path, v, u);
    }
    if c.answer.Success? && c.rows == rows {
      assert View(rows, user) == View(rows, user)[path := Row(c.answer.jid, user, path, v)];
    }
  }

  /** Committing the same thing again answers with the same id and changes nothing. */
  lemma CommitIdempotent(rows: seq<Record>, store: Blobs, user: int, path: Path, v: Version)
    requires Increasing(rows)
    ensures var c := CommitStep(rows, store, user, path, v);
            CommitStep(c.rows, store, user, path, v) == c
  {
    var c := CommitStep(rows, store, user, path, v);
    CommitEffect(rows, store, user, path, v);
    LatestIsView(c.rows, user, path);
  }

  /** Commits keep every record resolvable and never record a path twice in a row with one version. */
  lemma CommitKeeps(rows: seq<Record>, store: Blobs, user: int, path: Path, v: Version)
    requires Increasing(rows)
    ensures Referential(rows, store) ==> Referential(CommitStep(rows, store, user, path, v).rows, store)
    ensures NoRepeat(rows) ==> NoRepeat(CommitStep(rows, store, user, path, v).rows)
  {
    NonLocalEmpty(store, v.chunkIds);
    LatestIsView(rows, user, path);
    if NoRepeat(rows) {
      InsertNoRepeat(rows, user, path, v);
    }
  }

  /** A chunk upload's body: whole, or cut inside a field's header or inside a field's bytes. */
  datatype BodyEnd = Whole | CutInHeader(before: nat) | CutInField(before: nat)

  /** The store after the named parts are written; a part with the empty id is skipped. */
  function PutAll(store: Blobs, parts: seq<Part>): Blobs
    decreases parts
  {
    if parts == [] then store
    else PutAll(if parts[0].0 == [] then store else store[parts[0].0 := parts[0].1], parts[1..])
  }

  function Arrived(parts: seq<Part>, end: BodyEnd): seq<Part> {
    match end
    case Whole => parts
    case CutInHeader(n) => if n <= |parts| then parts[..n] else parts
    case CutInField(n) => if n <= |parts| then parts[..n] else parts
  }

  /** The id whose half-written file is removed again, if there is one. */
  function Aborted(parts: seq<Part>, end: BodyEnd): Option<Text> {
    if end.CutInField? && end.before < |parts| && parts[end.before].0 != [] then Some(parts[end.before].0) else None
  }

  /** The store after `upload_chunks`. */
  function Uploaded(store: Blobs, parts: seq<Part>, end: BodyEnd): Blobs {
    var stored := PutAll(store, Arrived(parts, end));
    match Aborted(parts, end)
    case Some(id) => stored - {id}
    case None => stored
  }

  lemma {:induction false} PutAllKeys(store: Blobs, parts: seq<Part>)
    ensures PutAll(store, parts).Keys == store.Keys + (set p | p in parts && p.0 != [] :: p.0)
    decreases parts
  {
    if parts != [] {
      var s1 := if parts[0].0 == [] then store else store[parts[0].0 := parts[0].1];
      PutAllKeys(s1, parts[1..]);
      assert parts == [parts[0]] + parts[1..];
      assert (set p | p in parts && p.0 != [] :: p.0) ==
             (if parts[0].0 == [] then {} else {parts[0].0}) + (set p | p in parts[1..] && p.0 != [] :: p.0);
    }
  }

  lemma {:induction false} PutAllAppend(store: Blobs, a: seq<Part>, b: seq<Part>)
    ensures PutAll(store, a + b) == PutAll(PutAll(store, a), b)
    decreases a
  {
    if a == [] {
      assert a + b == b;
    } else {
      assert (a + b)[1..] == a[1..] + b;
      PutAllAppend(if a[0].0 == [] then store else store[a[0].0 := a[0].1], a[1..], b);
    }
  }

  /** A value that every entry and every part carries is carried by the result. */
  lemma {:induction false} PutAllValues(store: Blobs, parts: seq<Part>, ok: (Text, Bytes) -> bool)
    requires forall id | id in store :: ok(id, store[id])
    requires forall p | p in parts :: ok(p.0, p.1)
    ensures forall id | id in PutAll(store, parts) :: ok(id, PutAll(store, parts)[id])
    decreases parts
  {
    if parts != [] {
      PutAllValues(if parts[0].0 == [] then store else store[parts[0].0 := parts[0].1], parts[1..], ok);
    }
  }

  /** A chunk leaves the store only when its own upload is cut short. */
  lemma UploadedKeys(store: Blobs, parts: seq<Part>, end: BodyEnd)
    ensures forall id | id in store && Aborted(parts, end) != Some(id) :: id in Uploaded(store, parts, end)
    ensures Aborted(parts, end).Some? ==> Aborted(parts, end).value !in Uploaded(store, parts, end)
    ensures end.Whole? ==> forall p | p in parts && p.0 != [] :: p.0 in Uploaded(store, parts, end)
  {
    PutAllKeys(store, Arrived(parts, end));
  }

  /**
   An upload keeps every record resolvable exactly when the chunk it aborts, if any, is not one that
   a record already names: a re-upload of a stored chunk that breaks off deletes the stored copy.
   */
  lemma UploadKeepsReferential(rows: seq<Record>, store: Blobs, parts: seq<Part>, end: BodyEnd)
    requires Referential(rows, store)
    ensures Referential(rows, Uploaded(store, parts, end)) <==>
            match Aborted(parts, end)
            case None => true
            case Some(id) => forall r | r in rows :: id !in IdList(r.value.chunkIds)
  {
    UploadedKeys(store, parts, end);
    if Aborted(parts, end).Some? && Referential(rows, Uploaded(store, parts, end)) {
      var id := Aborted(parts, end).value;
      forall r | r in rows
        ensures id !in IdList(r.value.chunkIds)
      {
        assert AllPresent(Uploaded(store, parts, end), r.value.chunkIds);
      }
    }
  }

  /** The directory of uploaded chunks. */
  class ChunkStore {
    var chunks: Blobs

    constructor ()
      ensures chunks == map[]
    {
      chunks := map[];
    }

    /** `upload_chunks`; the result says whether the request is answered with success. */
    method UploadChunks(parts: seq<Part>, end: BodyEnd) returns (ok: bool)
      modifies this
      ensures chunks == Uploaded(old(chunks), parts, end)
      ensures ok == Aborted(parts, end).None?
    {
      var i, stop := 0, |Arrived(parts, end)|;
      assert Arrived(parts, end) == parts[..stop];
      while i < stop
        invariant 0 <= i <= stop <= |parts|
        invariant chunks == PutAll(old(chunks), parts[..i])
      {
        assert parts[..i + 1] == parts[..i] + [parts[i]];
        PutAllAppend(old(chunks), parts[..i], [parts[i]]);
        if parts[i].0 != [] {
          chunks := chunks[parts[i].0 := parts[i].1];
        }
        i := i + 1;
      }
      ok := true;
      if end.CutInField? && i < |parts| && parts[i].0 != [] {
        // The field's file was created anew; what arrived of it is removed and the handler panics.
        chunks := chunks - {parts[i].0};
        ok := false;
      }
    }
  }

  /** The metadata routes over the two stores. */
  class Server {
    const journal: Journal
    const store: ChunkStore

    constructor ()
      ensures fresh(journal) && fresh(store)
      ensures journal.rows == [] && store.chunks == map[]
    {
      journal := new Journal();
      store := new ChunkStore();
    }

    ghost predicate Valid()
      reads journal, store
    {
      Increasing(journal.rows) && Referential(journal.rows, store.chunks)
    }

    /** The handler of `commit`. */
    method Commit(user: int, path: Path, v: Version) returns (r: CommitResult)
      requires Valid()
      modifies journal
      ensures Valid()
      ensures Committed(journal.rows, r) == CommitStep(old(journal.rows), store.chunks, user, path, v)
    {
      CommitKeeps(journal.rows, store.chunks, user, path, v);
      CommitEffect(journal.rows, store.chunks, user, path, v);
      hide Increasing, Referential, View, LatestForPath, NonLocalChunks, ListCodec.Join;
      var toBeUploaded := NonLocalChunks(store.chunks, v.chunkIds);
      if toBeUploaded == [] {
        var existing := LatestForPath(journal.rows, user, path);
        if existing.Some? && existing.value.value == v {
          return Success(existing.value.id);
        }
        var id := journal.InsertNewRecord(user, path, v);
        return Success(id);
      } else {
        return NeedChunks(ListCodec.Join(toBeUploaded, COMMA));
      }
    }

    /** `POST /metadata/commit`: a form over the limit never reaches the handler, and gets no result. */
    method PostCommit(user: int, path: Path, v: Version) returns (r: Option<CommitResult>)
      requires Valid()
      modifies journal
      ensures Valid()
      ensures r.Some? <==> CommitFits(path, v.deleted, v.chunkIds)
      ensures r.Some? ==>
                Committed(journal.rows, r.value) == CommitStep(old(journal.rows), store.chunks, user, path, v)
      ensures r.None? ==> journal.rows == old(journal.rows)
    {
      if |CommitForm(path, v.deleted, v.chunkIds)| > FORM_LIMIT {
        return None;
      }
      var answer := Commit(user, path, v);
      return Some(answer);
    }
  }
}
