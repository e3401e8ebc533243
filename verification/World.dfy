/** All clients and the server together: what every step keeps, and what arrives where. */
module Worlds {
  import opened Octets
  import opened Paths
  import opened Log
  import opened Journals
  import opened Servers
  import opened Registries
  import opened Disks
  import opened Chunking
  import opened Framing
  import opened Indexers
  import opened Upload
  import opened Linearization
  import opened Repeats
  import opened Watermarks
  import D = Download
  import Downloader
  import ListCodec
  import Replicas
  import UploadRuns

  /**
   The journal, the chunk store, which of its files are still being written, every client's cache, and where
   each commit stands.
   */
  datatype World = World(journal: seq<Record>, store: Blobs, torn: set<Text>, caches: seq<Blobs>, phases: map<nat, Phase>)

  /**
   Chunks go to the server one by one, each by and by, and a commit takes its database steps one by one. A
   chunk's file is there, for a commit or a download to find, from its first byte on.
   */
  datatype Move =
    | Hashify(client: nat, path: Path, content: Bytes, io: Reads)
    | Begin(client: nat, id: Text, n: nat)
    | Store(client: nat, id: Text)
    | BreakOff(client: nat, id: Text)
    | Commit(step: Event)
    | Fetch(client: nat, ids: seq<Text>)

  function ServerOf(x: World): State {
    State(x.journal, x.store, x.phases)
  }

  /**
   A client can hash any file in play, send what its cache has or break off in the middle of it, and fetch
   what it likes; any of the requests can take its next step.
   */
  ghost predicate Possible(known: set<Hashed>, reqs: seq<Request>, x: World, m: Move) {
    match m
    case Hashify(c, path, content, io) => c < |x.caches| && InPlay(known, path, content, io)
    case Begin(c, id, n) => c < |x.caches| && id in x.caches[c] && n < |x.caches[c][id]|
    case Store(c, id) => c < |x.caches| && id in x.caches[c]
    case BreakOff(c, id) => c < |x.caches| && id in x.caches[c] && id != []
    case Commit(e) => !e.Put? && !e.Abort? && Enabled(reqs, ServerOf(x), e)
    case Fetch(c, _) => c < |x.caches|
  }

  ghost function Moved(h: Digest, known: set<Hashed>, reqs: seq<Request>, x: World, m: Move): World
    requires IsDigest(h) && Possible(known, reqs, x, m)
  {
    match m
    case Hashify(c, path, content, io) => x.(caches := x.caches[c := Warmed(x.caches[c], h, path, content, io)])
    case Begin(c, id, n) => x.(store := x.store[id := x.caches[c][id][..n]], torn := x.torn + {id})
    case Store(c, id) => x.(store := x.store[id := x.caches[c][id]], torn := x.torn - {id})
    case BreakOff(_, id) => x.(store := x.store - {id}, torn := x.torn - {id})
    case Commit(e) => var s := Linearization.Next(reqs, ServerOf(x), e); x.(journal := s.rows, phases := s.phases)
    case Fetch(c, ids) => x.(caches := x.caches[c := PutAll(x.caches[c], Served(x.store, ids))])
  }

  /** An upload breaks off only inside a chunk that no record names and no commit under way has found. */
  ghost predicate CarefulMove(reqs: seq<Request>, x: World, m: Move) {
    m.BreakOff? ==> Careful(reqs, ServerOf(x), Abort(m.id))
  }

  /** An insert is of something new. */
  ghost predicate FreshMove(reqs: seq<Request>, x: World, m: Move) {
    m.Commit? && m.step.Insertion? && m.step.k < |reqs| ==> !Stale(x.journal, reqs[m.step.k])
  }

  /** A download finds none of its chunks half-written. */
  ghost predicate WholeMove(h: Digest, known: set<Hashed>, x: World, m: Move)
    requires IsDigest(h)
  {
    m.Fetch? ==> forall p | p in Served(x.store, m.ids) :: Names(h, known, p.0, p.1)
  }

  /** The journal is a table, and every cache is content-addressed, and so is the store but for files being written. */
  ghost predicate Orderly(h: Digest, known: set<Hashed>, x: World)
    requires IsDigest(h)
  {
    Increasing(x.journal) && ([] !in x.store) &&
    (forall id | id in x.store && id !in x.torn :: Names(h, known, id, x.store[id])) &&
    forall i | 0 <= i < |x.caches| :: Addressed(h, known, x.caches[i])
  }

  /** What is fetched is in the cache as it was in the store. */
  lemma {:induction false} FetchedAsStored(cache: Blobs, parts: seq<Part>, store: Blobs)
    requires forall p | p in parts :: p.0 != [] && p.0 in store && p.1 == store[p.0]
    ensures forall p | p in parts :: p.0 in PutAll(cache, parts) && PutAll(cache, parts)[p.0] == store[p.0]
    ensures forall id | id in PutAll(cache, parts) ::
              (id in cache && PutAll(cache, parts)[id] == cache[id]) || (id, PutAll(cache, parts)[id]) in parts
    decreases parts
  {
    if parts != [] {
      var rest, cache1 := parts[1..], cache[parts[0].0 := parts[0].1];
      FetchedAsStored(cache1, rest, store);
      assert parts == [parts[0]] + rest;
      PutAllKeys(cache1, rest);
    }
  }

  lemma {:induction false} FetchOrderly(h: Digest, known: set<Hashed>, cache: Blobs, store: Blobs, ids: seq<Text>)
    requires IsDigest(h) && Addressed(h, known, cache) && [] !in store
    ensures Addressed(h, known, PutAll(cache, Served(store, ids))) <==>
            forall p | p in Served(store, ids) :: Names(h, known, p.0, p.1)
  {
    ServedMembers(store, ids);
    FetchedAsStored(cache, Served(store, ids), store);
  }

  lemma MoveOrderly(h: Digest, known: set<Hashed>, reqs: seq<Request>, x: World, m: Move)
    requires IsDigest(h) && Orderly(h, known, x) && Possible(known, reqs, x, m)
    ensures var y := Moved(h, known, reqs, x, m);
            (Orderly(h, known, y) <==> WholeMove(h, known, x, m)) && |y.caches| == |x.caches| && x.journal <= y.journal
  {
    match m
    case Hashify(c, path, content, io) =>
      CachedAddressed(h, known, x.caches[c], Chunks(path, content, io), HashSize(path));
    case Begin(c, id, _) => assert Names(h, known, id, x.caches[c][id]);
    case Store(c, id) => assert Names(h, known, id, x.caches[c][id]);
    case BreakOff(_, _) =>
    case Commit(e) => EventIncreasing(reqs, ServerOf(x), e);
    case Fetch(c, ids) =>
      FetchOrderly(h, known, x.caches[c], x.store, ids);
      assert Moved(h, known, reqs, x, m).caches[c] == PutAll(x.caches[c], Served(x.store, ids));
  }

  /** What the server sees of a move: an event, or nothing. */
  lemma ServerMoves(h: Digest, known: set<Hashed>, reqs: seq<Request>, x: World, m: Move)
    requires IsDigest(h) && Orderly(h, known, x) && Possible(known, reqs, x, m)
    ensures var s, s1 := ServerOf(x), ServerOf(Moved(h, known, reqs, x, m));
            match m
            case Hashify(_, _, _, _) => s1 == s
            case Begin(c, id, n) =>
              Enabled(reqs, s, Put(id, x.caches[c][id][..n])) && s1 == Linearization.Next(reqs, s, Put(id, x.caches[c][id][..n]))
            case Store(c, id) => Enabled(reqs, s, Put(id, x.caches[c][id])) && s1 == Linearization.Next(reqs, s, Put(id, x.caches[c][id]))
            case BreakOff(_, id) => Enabled(reqs, s, Abort(id)) && s1 == Linearization.Next(reqs, s, Abort(id))
            case Commit(e) => s1 == Linearization.Next(reqs, s, e)
            case Fetch(_, _) => s1 == s
  {
    if m.Store? || m.Begin? {
      assert Names(h, known, m.id, x.caches[m.client][m.id]);
    }
  }

  /**
   What each step keeps, and exactly when. It keeps caches and store content-addressed if and only if it does
   not fetch a chunk that is only half-written. It keeps the server backed, with every record's chunks present
   now and after any commit under way, if and only if it is careful. It keeps the journal free of repeats if
   and only if it is fresh.
   */
  lemma OneMove(h: Digest, known: set<Hashed>, reqs: seq<Request>, x: World, m: Move)
    requires IsDigest(h) && Orderly(h, known, x) && Possible(known, reqs, x, m)
    ensures var y := Moved(h, known, reqs, x, m);
            (Orderly(h, known, y) <==> WholeMove(h, known, x, m)) && |y.caches| == |x.caches| && x.journal <= y.journal &&
            (Backed(reqs, ServerOf(x)) ==> (Backed(reqs, ServerOf(y)) <==> CarefulMove(reqs, x, m))) &&
            (NoRepeat(y.journal) <==> NoRepeat(x.journal) && FreshMove(reqs, x, m))
  {
    MoveOrderly(h, known, reqs, x, m);
    ServerMoves(h, known, reqs, x, m);
    var s := ServerOf(x);
    if Backed(reqs, s) {
      match m
      case Begin(c, id, n) => EventBacked(reqs, s, Put(id, x.caches[c][id][..n]));
      case Store(c, id) => EventBacked(reqs, s, Put(id, x.caches[c][id]));
      case BreakOff(_, id) => EventBacked(reqs, s, Abort(id));
      case Commit(e) => EventBacked(reqs, s, e);
      case Hashify(_, _, _, _) =>
      case Fetch(_, _) =>
    }
    if m.Commit? {
      EventNoRepeat(reqs, s, m.step);
    }
  }

  ghost predicate AllPossible(h: Digest, known: set<Hashed>, reqs: seq<Request>, x: World, moves: seq<Move>)
    requires IsDigest(h)
    decreases moves
  {
    moves == [] ||
    (Possible(known, reqs, x, moves[0]) && AllPossible(h, known, reqs, Moved(h, known, reqs, x, moves[0]), moves[1..]))
  }

  ghost predicate AllCarefulMoves(h: Digest, known: set<Hashed>, reqs: seq<Request>, x: World, moves: seq<Move>)
    requires IsDigest(h) && AllPossible(h, known, reqs, x, moves)
    decreases moves
  {
    moves == [] ||
    (CarefulMove(reqs, x, moves[0]) && AllCarefulMoves(h, known, reqs, Moved(h, known, reqs, x, moves[0]), moves[1..]))
  }

  ghost predicate AllFreshMoves(h: Digest, known: set<Hashed>, reqs: seq<Request>, x: World, moves: seq<Move>)
    requires IsDigest(h) && AllPossible(h, known, reqs, x, moves)
    decreases moves
  {
    moves == [] ||
    (FreshMove(reqs, x, moves[0]) && AllFreshMoves(h, known, reqs, Moved(h, known, reqs, x, moves[0]), moves[1..]))
  }

  ghost function AllMoved(h: Digest, known: set<Hashed>, reqs: seq<Request>, x: World, moves: seq<Move>): World
    requires IsDigest(h) && AllPossible(h, known, reqs, x, moves)
    decreases moves
  {
    if moves == [] then x else AllMoved(h, known, reqs, Moved(h, known, reqs, x, moves[0]), moves[1..])
  }

  ghost predicate AllWholeMoves(h: Digest, known: set<Hashed>, reqs: seq<Request>, x: World, moves: seq<Move>)
    requires IsDigest(h) && AllPossible(h, known, reqs, x, moves)
    decreases moves
  {
    moves == [] ||
    (WholeMove(h, known, x, moves[0]) && AllWholeMoves(h, known, reqs, Moved(h, known, reqs, x, moves[0]), moves[1..]))
  }

  /** Caches and store are content-addressed at every moment of the run. */
  ghost predicate OrderlyThroughout(h: Digest, known: set<Hashed>, reqs: seq<Request>, x: World, moves: seq<Move>)
    requires IsDigest(h) && AllPossible(h, known, reqs, x, moves)
    decreases moves
  {
    Orderly(h, known, x) &&
    (moves != [] ==> OrderlyThroughout(h, known, reqs, Moved(h, known, reqs, x, moves[0]), moves[1..]))
  }

  /** The server is backed at every moment of the run. */
  ghost predicate BackedThroughout(h: Digest, known: set<Hashed>, reqs: seq<Request>, x: World, moves: seq<Move>)
    requires IsDigest(h) && AllPossible(h, known, reqs, x, moves)
    decreases moves
  {
    Backed(reqs, ServerOf(x)) &&
    (moves != [] ==> BackedThroughout(h, known, reqs, Moved(h, known, reqs, x, moves[0]), moves[1..]))
  }

  /**
   Over any run of any number of clients and commits, caches and store are content-addressed at every moment
   if and only if no download finds a chunk half-written. If so, the server is backed at every moment if and
   only if no upload breaks off inside a chunk that a record names or a commit under way has found, and the
   journal does not repeat itself if and only if every insert was of something new.
   */
  lemma {:induction false} WorldRuns(h: Digest, known: set<Hashed>, reqs: seq<Request>, x: World, moves: seq<Move>)
    requires IsDigest(h) && Orderly(h, known, x) && AllPossible(h, known, reqs, x, moves)
    ensures OrderlyThroughout(h, known, reqs, x, moves) <==> AllWholeMoves(h, known, reqs, x, moves)
    ensures AllWholeMoves(h, known, reqs, x, moves) && Backed(reqs, ServerOf(x)) ==>
              (BackedThroughout(h, known, reqs, x, moves) <==> AllCarefulMoves(h, known, reqs, x, moves))
    ensures AllWholeMoves(h, known, reqs, x, moves) ==>
              (NoRepeat(AllMoved(h, known, reqs, x, moves).journal) <==>
               NoRepeat(x.journal) && AllFreshMoves(h, known, reqs, x, moves))
    decreases moves
  {
    if moves != [] {
      OneMove(h, known, reqs, x, moves[0]);
      if WholeMove(h, known, x, moves[0]) {
        WorldRuns(h, known, reqs, Moved(h, known, reqs, x, moves[0]), moves[1..]);
      } else {
        assert !OrderlyThroughout(h, known, reqs, Moved(h, known, reqs, x, moves[0]), moves[1..]);
      }
    }
  }

  /** What is being written is in the store, and not whole. */
  ghost predicate Unfinished(h: Digest, known: set<Hashed>, x: World)
    requires IsDigest(h)
  {
    forall id | id in x.torn :: id in x.store && !Names(h, known, id, x.store[id])
  }

  /** Part of a chunk is not a chunk of the same name. */
  lemma PartUnnamed(h: Digest, known: set<Hashed>, id: Text, data: Bytes, n: nat)
    requires IsDigest(h) && CollisionFree(h, known) && Names(h, known, id, data) && n < |data|
    ensures !Names(h, known, id, data[..n])
  {
  }

  lemma MoveUnfinished(h: Digest, known: set<Hashed>, reqs: seq<Request>, x: World, m: Move)
    requires IsDigest(h) && CollisionFree(h, known) && Orderly(h, known, x) && Possible(known, reqs, x, m) && Unfinished(h, known, x)
    ensures Unfinished(h, known, Moved(h, known, reqs, x, m))
    ensures WholeMove(h, known, x, m) <==> (m.Fetch? ==> forall p | p in Served(x.store, m.ids) :: p.0 !in x.torn)
  {
    if m.Begin? {
      PartUnnamed(h, known, m.id, x.caches[m.client][m.id], m.n);
    }
    if m.Fetch? {
      ServedMembers(x.store, m.ids);
    }
  }

  predicate Ends(m: Move, id: Text) {
    (m.Store? || m.BreakOff?) && m.id == id
  }

  /** Of what has happened so far, the chunk's last `Begin` has been followed by no end. */
  ghost predicate Open(past: seq<Move>, id: Text) {
    exists j | 0 <= j < |past| :: past[j].Begin? && past[j].id == id && NotEnded(past, j, id)
  }

  predicate NotEnded(past: seq<Move>, j: nat, id: Text) {
    forall k | j < k < |past| :: !Ends(past[k], id)
  }

  lemma OpenSnoc(past: seq<Move>, m: Move, id: Text)
    ensures Open(past + [m], id) <==> (m.Begin? && m.id == id) || (Open(past, id) && !Ends(m, id))
  {
    var now := past + [m];
    assert now[|past|] == m;
    if Open(now, id) {
      var j :| 0 <= j < |now| && now[j].Begin? && now[j].id == id && NotEnded(now, j, id);
      if j < |past| {
        assert forall k | j < k < |past| :: past[k] == now[k];
        assert NotEnded(past, j, id);
      }
    }
    if m.Begin? && m.id == id {
      assert NotEnded(now, |past|, id);
    } else if Open(past, id) && !Ends(m, id) {
      var j :| 0 <= j < |past| && past[j].Begin? && past[j].id == id && NotEnded(past, j, id);
      assert NotEnded(now, j, id);
    }
  }

  /** No download is answered with a chunk between a `Begin` and the end of what it began. */
  ghost predicate NoneOpen(h: Digest, known: set<Hashed>, reqs: seq<Request>, x: World, past: seq<Move>, moves: seq<Move>)
    requires IsDigest(h) && AllPossible(h, known, reqs, x, moves)
    decreases moves
  {
    moves == [] ||
    ((moves[0].Fetch? ==> forall p | p in Served(x.store, moves[0].ids) :: !Open(past, p.0)) &&
     NoneOpen(h, known, reqs, Moved(h, known, reqs, x, moves[0]), past + [moves[0]], moves[1..]))
  }

  /**
   In terms of what has happened: a run in which nothing was being written at first keeps caches and store
   content-addressed if and only if no download is answered with a chunk that an upload has begun and neither
   finished nor broken off.
   */
  lemma {:induction false} OpenRuns(h: Digest, known: set<Hashed>, reqs: seq<Request>, x: World,
                                    past: seq<Move>, moves: seq<Move>)
    requires IsDigest(h) && CollisionFree(h, known) && Orderly(h, known, x) && AllPossible(h, known, reqs, x, moves)
    requires Unfinished(h, known, x) && forall id :: id in x.torn <==> Open(past, id)
    ensures OrderlyThroughout(h, known, reqs, x, moves) <==> NoneOpen(h, known, reqs, x, past, moves)
    decreases moves
  {
    if moves != [] {
      var m, y := moves[0], Moved(h, known, reqs, x, moves[0]);
      MoveOrderly(h, known, reqs, x, m);
      MoveUnfinished(h, known, reqs, x, m);
      forall id
        ensures id in y.torn <==> Open(past + [m], id)
      {
        OpenSnoc(past, m, id);
      }
      if WholeMove(h, known, x, m) {
        OpenRuns(h, known, reqs, y, past + [m], moves[1..]);
      } else {
        assert !OrderlyThroughout(h, known, reqs, y, moves[1..]);
      }
    }
  }

  /** What the theorems about downloads ask of the store holds exactly while no recorded file is being written anew. */
  lemma StoredExact(c: Replicas.Side, x: World)
    requires IsDigest(c.h) && Orderly(c.h, c.known, x) && Unfinished(c.h, c.known, x) && Referential(x.journal, x.store)
    ensures Replicas.Stored(c, x.journal, x.store) <==>
            forall d, id | d in x.journal && !d.value.deleted && id in IdList(d.value.chunkIds) :: id !in x.torn
  {
    if Replicas.Stored(c, x.journal, x.store) {
      forall d, id | d in x.journal && !d.value.deleted && id in IdList(d.value.chunkIds)
        ensures id !in x.torn
      {
        assert IntactAll(c.h, c.known, x.store, d.value.chunkIds);
        assert Intact(c.h, c.known, x.store, id);
      }
    }
  }

  /** The moves of one upload: a chunk after the other, and perhaps one that is broken off. */
  function UploadMoves(c: nat, ids: seq<Text>, broken: Option<Text>): seq<Move> {
    if ids == [] then match broken case None => [] case Some(id) => [BreakOff(c, id)]
    else [Store(c, ids[0])] + UploadMoves(c, ids[1..], broken)
  }

  lemma {:induction false} OneFetched(cache: Blobs, ids: seq<Text>)
    requires ids != []
    ensures Fetched(cache, ids) == [Upload.Fetch(cache, ids[0])] + Fetched(cache, ids[1..])
  {
    FetchedParts(cache, ids);
    FetchedParts(cache, ids[1..]);
  }

  lemma {:induction false} MovesStore(h: Digest, known: set<Hashed>, reqs: seq<Request>, x: World, c: nat,
                                      ids: seq<Text>, broken: Option<Text>)
    requires IsDigest(h) && c < |x.caches| && forall id | id in ids :: id != [] && id in x.caches[c]
    requires broken.Some? ==> broken.value != [] && broken.value in x.caches[c]
    ensures AllPossible(h, known, reqs, x, UploadMoves(c, ids, broken))
    ensures var store := PutAll(x.store, Fetched(x.caches[c], ids));
            var y := AllMoved(h, known, reqs, x, UploadMoves(c, ids, broken));
            y == x.(store := match broken case None => store case Some(id) => store - {id}, torn := y.torn) && y.torn <= x.torn
    decreases ids
  {
    if ids != [] {
      var y, moves := Moved(h, known, reqs, x, Store(c, ids[0])), UploadMoves(c, ids[1..], broken);
      assert ids[0] in ids && forall id | id in ids[1..] :: id in ids;
      OneFetched(x.caches[c], ids);
      assert Fetched(x.caches[c], ids)[1..] == Fetched(x.caches[c], ids[1..]);
      MovesStore(h, known, reqs, y, c, ids[1..], broken);
      assert UploadMoves(c, ids, broken)[1..] == moves;
    } else if broken.Some? {
      var m := BreakOff(c, broken.value);
      assert [m][1..] == [];
      assert AllPossible(h, known, reqs, Moved(h, known, reqs, x, m), []);
    }
  }

  /** How many of an upload's chunks arrive whole. */
  function ArrivedCount(ids: seq<Text>, end: BodyEnd): (n: nat)
    ensures n <= |ids|
  {
    if end.Whole? || end.before > |ids| then |ids| else end.before
  }

  /** An upload request, when nothing comes in between, is a run of such moves, wherever it is cut. */
  lemma {:induction false} UploadIsMoves(h: Digest, known: set<Hashed>, reqs: seq<Request>, x: World, c: nat,
                                         ids: seq<Text>, end: BodyEnd)
    requires IsDigest(h) && c < |x.caches| && forall id | id in ids :: id != [] && id in x.caches[c]
    ensures var parts := Fetched(x.caches[c], ids);
            var moves := UploadMoves(c, ids[..ArrivedCount(ids, end)], Aborted(parts, end));
            AllPossible(h, known, reqs, x, moves) &&
            var y := AllMoved(h, known, reqs, x, moves);
            y == x.(store := Servers.Uploaded(x.store, parts, end), torn := y.torn) && y.torn <= x.torn
  {
    var parts := Fetched(x.caches[c], ids);
    var n := ArrivedCount(ids, end);
    FetchedParts(x.caches[c], ids);
    FetchedParts(x.caches[c], ids[..n]);
    assert Fetched(x.caches[c], ids[..n]) == Arrived(parts, end);
    assert forall id | id in ids[..n] :: id in ids;
    if Aborted(parts, end).Some? {
      assert parts[end.before].0 == ids[end.before];
    }
    MovesStore(h, known, reqs, x, c, ids[..n], Aborted(parts, end));
  }

  /** A re-upload that breaks off does take a chunk away that a record names. */
  lemma CarelessUpload(h: Digest, known: set<Hashed>, data: Bytes, user: int, path: Path)
    requires IsDigest(h) && (data, TEXT_HASH_SIZE) in known
    ensures var id := Hash(h, data, TEXT_HASH_SIZE);
            var x := World(Insert([], user, path, Version(id, false)), map[id := data], {}, [map[id := data]], map[]);
            Orderly(h, known, x) && Backed([], ServerOf(x)) && Possible(known, [], x, BreakOff(0, id)) &&
            !Referential(x.journal, Moved(h, known, [], x, BreakOff(0, id)).store)
  {
    var id := Hash(h, data, TEXT_HASH_SIZE);
    var x := World(Insert([], user, path, Version(id, false)), map[id := data], {}, [map[id := data]], map[]);
    assert COMMA !in id;
    ListCodec.SplitPiece(id, COMMA);
    assert IdList(id) == [id];
    assert x.journal[0] in x.journal;
    assert id in IdList(x.journal[0].value.chunkIds) && !IsPresent(x.store - {id}, id);
  }

  /**
   A download can find a chunk half-written: a client has begun to send one, a commit that names it is already
   accepted, and another client fetches what there is, and files it under the whole chunk's name.
   */
  lemma TornFetch(h: Digest, known: set<Hashed>, data: Bytes, user: int, path: Path)
    requires IsDigest(h) && CollisionFree(h, known) && (data, TEXT_HASH_SIZE) in known && data != []
    requires forall d | (d, TEXT_HASH_SIZE) in known || (d, BINARY_HASH_SIZE) in known :: d != []
    ensures var id := Hash(h, data, TEXT_HASH_SIZE);
            var x := World([], map[], {}, [map[id := data], map[]], map[]);
            var reqs := [Request(user, path, Version(id, false))];
            var begun := Moved(h, known, reqs, x, Begin(0, id, 0));
            Orderly(h, known, x) && Possible(known, reqs, x, Begin(0, id, 0)) && Orderly(h, known, begun) &&
            CommitStep(begun.journal, begun.store, user, path, reqs[0].v).answer.Success? &&
            Possible(known, reqs, begun, Fetch(1, [id])) && !Orderly(h, known, Moved(h, known, reqs, begun, Fetch(1, [id])))
  {
    var id := Hash(h, data, TEXT_HASH_SIZE);
    var x := World([], map[], {}, [map[id := data], map[]], map[]);
    var reqs := [Request(user, path, Version(id, false))];
    assert Names(h, known, id, data);
    MoveOrderly(h, known, reqs, x, Begin(0, id, 0));
    var begun := Moved(h, known, reqs, x, Begin(0, id, 0));
    assert COMMA !in id;
    ListCodec.SplitPiece(id, COMMA);
    CommitRefusal([], begun.store, user, path, reqs[0].v);
    MoveOrderly(h, known, reqs, begun, Fetch(1, [id]));
    assert Served(begun.store, [id])[0] == (id, []);
    assert (id, []) in Served(begun.store, [id]);
  }

  /** The reader has the writer's file, or no file where the writer has none. */
  ghost predicate Arrives(w: Setting, stat: Stat, t: Tree, p: Path) {
    if p in Scan(w.tree, stat) && p in w.tree.files then
      p in t.files && t.files[p].content == w.tree.files[p].content
    else p !in t.files
  }

  /** What a record of the writer's file stands for, on any disk that holds what the record says. */
  lemma FileArrives(w: Setting, stat: Stat, known: set<Hashed>, store: Blobs, t: Tree, d: Record)
    requires IsDigest(w.h) && CollisionFree(w.h, known) && AllInPlay(known, w.tree, w.io)
    requires IntactAll(w.h, known, store, d.value.chunkIds) && AllPresent(store, d.value.chunkIds)
    requires d.value == UploadRuns.Intended(w, stat, d.path) && Replicas.Held(store, t, d)
    ensures Arrives(w, stat, t, d.path)
  {
    var p := d.path;
    if p in Scan(w.tree, stat) && p in w.tree.files {
      assert InPlay(known, p, w.tree.files[p].content, w.io);
      ContentPreserved(w.h, known, p, w.tree.files[p].content, w.io, store);
    }
  }

  /** What `CheckDownloadOnce` says of a pass that succeeds: afterwards every path of the journal is as it says. */
  lemma DownloadedHolds(c: Replicas.Side, r: Replicas.Replica, k: D.Shelf, l: D.Landing, listing: seq<Record>,
                        asked: seq<Text>, p: Path)
    requires Increasing(r.land.rows) && WellFormed(r.land.tree) && k.ns == c.ns && k.blobs == r.store
    requires Listed(r.journal, c.user, r.land.rows, c.ns, listing)
    requires Downloader.Downloaded(k, r.land, l, listing, asked, true)
    requires p in View(r.journal, c.user) && Replicas.Mirrored(c, r, p)
    ensures Replicas.Held(r.store, l.tree, View(r.journal, c.user)[p])
  {
    ListingPathsDistinct(r.journal, c.user, Watermark(r.land.rows, c.ns), listing);
    D.PassMaterialises(k, r.land, listing);
    Replicas.PassMirrored(c, r, listing, l, k, p);
  }

  /**
   End to end: after a writer's run and a reader's pass that succeeds, every file the writer had to upload is
   on the reader's disk byte for byte, the empty file included, and every file it had deleted is gone. This
   asks nothing of the reader's other files; only, should it have had the path's record already, that it has
   left that file alone.
   */
  lemma {:induction false} WriterToReader(w: Setting, stat: Stat, known: set<Hashed>, rows: seq<FileRecord>,
                                          before: seq<Record>, after: seq<Record>,
                       c: Replicas.Side, r: Replicas.Replica, k: D.Shelf, l: D.Landing, listing: seq<Record>,
                       asked: seq<Text>, p: Path)
    requires IsDigest(w.h) && c.user == w.user && CollisionFree(w.h, known) && AllInPlay(known, w.tree, w.io)
    requires UploadRuns.PathUploaded(rows, w, stat, before, after, p) && Pending(rows, w.ns, Scan(w.tree, stat), p)
    requires Referential(r.journal, r.store)
    requires Increasing(r.land.rows) && WellFormed(r.land.tree) && k.ns == c.ns && k.blobs == r.store
    requires Listed(r.journal, c.user, r.land.rows, c.ns, listing)
    requires Downloader.Downloaded(k, r.land, l, listing, asked, true)
    requires p in View(r.journal, c.user) && View(r.journal, c.user)[p].value == View(after, c.user)[p].value
    requires IntactAll(w.h, known, r.store, View(r.journal, c.user)[p].value.chunkIds)
    requires Replicas.Mirrored(c, r, p)
    ensures Arrives(w, stat, l.tree, p)
  {
    DownloadedHolds(c, r, k, l, listing, asked, p);
    ViewMeaning(r.journal, c.user);
    var d := View(r.journal, c.user)[p];
    assert AllPresent(r.store, d.value.chunkIds);
    FileArrives(w, stat, known, r.store, l.tree, d);
  }
}
