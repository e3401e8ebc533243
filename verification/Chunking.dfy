/** How a file is cut into chunks, and how chunks are named by their hash (client/src/chunker.rs). */
module Chunking {
  import opened Octets
  import opened Paths
  import opened Servers
  import ListCodec

  const BINARY_CHUNK_SIZE: nat := 1_024 * 1_024
  const BINARY_HASH_SIZE: nat := 32
  const TEXT_HASH_SIZE: nat := 10

  /** The length of the first line, its newline included. */
  function LineLength(s: Bytes): (n: nat)
    requires s != []
    ensures 1 <= n <= |s|
    ensures LF !in s[..n - 1]
    ensures s[n - 1] == LF || n == |s|
  {
    if s[0] == LF || |s| == 1 then 1 else
      var n := LineLength(s[1..]);
      assert s[..n] == [s[0]] + s[1..][..n - 1];
      1 + n
  }

  /** What successive `read_until(b'\n')` calls return. */
  function Lines(s: Bytes): seq<Bytes> {
    if s == [] then [] else [s[..LineLength(s)]] + Lines(s[LineLength(s)..])
  }

  predicate IsLine(p: Bytes) {
    p != [] && LF !in p[..|p| - 1]
  }

  predicate Ended(p: Bytes) {
    p != [] && p[|p| - 1] == LF
  }

  /** A newline can only end a piece, and only the last piece may go without one. */
  ghost predicate LineCut(parts: seq<Bytes>) {
    forall i | 0 <= i < |parts| :: IsLine(parts[i]) && (i < |parts| - 1 ==> Ended(parts[i]))
  }

  lemma LineCutAppend(a: seq<Bytes>, b: seq<Bytes>)
    ensures LineCut(a + b) <==> LineCut(a) && LineCut(b) && (a != [] && b != [] ==> Ended(a[|a| - 1]))
  {
    var c := a + b;
    if LineCut(c) {
      assert forall i | 0 <= i < |a| :: a[i] == c[i];
      assert forall i | 0 <= i < |b| :: b[i] == c[|a| + i];
    }
  }

  lemma {:induction false} FirstLineCut(s: Bytes)
    requires s != []
    ensures var n := LineLength(s); IsLine(s[..n]) && (n < |s| ==> Ended(s[..n]))
  {
    assert s[..LineLength(s)][..LineLength(s) - 1] == s[..LineLength(s) - 1];
  }

  lemma {:induction false} LinesCut(s: Bytes)
    ensures LineCut(Lines(s))
    ensures Concat(Lines(s)) == s
  {
    if s != [] {
      var n := LineLength(s);
      LinesCut(s[n..]);
      FirstLineCut(s);
      LineCutAppend([s[..n]], Lines(s[n..]));
      assert s == s[..n] + s[n..];
    }
  }

  /** There is no other way to cut a file like that. */
  lemma {:induction false} LinesUnique(parts: seq<Bytes>)
    requires LineCut(parts)
    ensures Lines(Concat(parts)) == parts
  {
    if parts != [] {
      var s, p, rest := Concat(parts), parts[0], Concat(parts[1..]);
      assert parts == [p] + parts[1..];
      LineCutAppend([p], parts[1..]);
      LinesUnique(parts[1..]);
      LineLengthUnique(p, rest);
      assert s[|p|..] == rest;
    }
  }

  lemma {:induction false} LineLengthUnique(p: Bytes, rest: Bytes)
    requires IsLine(p) && (rest != [] ==> Ended(p))
    ensures LineLength(p + rest) == |p|
  {
    var s := p + rest;
    var n := LineLength(s);
    assert forall i | 0 <= i < n - 1 :: s[i] in s[..n - 1] && s[i] != LF;
    assert forall i | 0 <= i < |p| - 1 :: p[i] in p[..|p| - 1] && s[i] != LF;
    assert s[|p| - 1] == p[|p| - 1];
  }

  /**
   Lines of two files end to end are the lines of each, exactly when the join does not merge two
   lines: the first file is empty or ends in a newline, or the second is empty.
   */
  lemma {:induction false} LinesHomomorphism(a: Bytes, b: Bytes)
    ensures Lines(a + b) == Lines(a) + Lines(b) <==> a == [] || Ended(a) || b == []
  {
    LinesCut(a);
    LinesCut(b);
    LinesCut(a + b);
    LastLine(a);
    var parts := Lines(a) + Lines(b);
    LineCutAppend(Lines(a), Lines(b));
    if LineCut(parts) {
      ConcatAppend(Lines(a), Lines(b));
      LinesUnique(parts);
    }
  }

  lemma {:induction false} LastLine(a: Bytes)
    ensures a != [] ==> Lines(a) != [] && (Ended(Lines(a)[|Lines(a)| - 1]) <==> Ended(a))
  {
    if a != [] {
      LastLine(a[LineLength(a)..]);
    }
  }

  /** How many bytes the operating system would yield, for each file and offset. */
  type Reads = (Path, nat) -> nat

  /** One `read` into the 1 MiB buffer: at least a byte, at most the buffer or what is left. */
  function ReadSize(path: Path, pos: nat, io: Reads, left: nat): (n: nat)
    requires left > 0
    ensures 1 <= n <= left && n <= BINARY_CHUNK_SIZE
  {
    var wanted := io(path, pos);
    var most := if left < BINARY_CHUNK_SIZE then left else BINARY_CHUNK_SIZE;
    if wanted == 0 then 1 else if wanted > most then most else wanted
  }

  /** What successive reads return while `s`, which starts at offset `pos`, is left of a file. */
  function Blocks(path: Path, s: Bytes, io: Reads, pos: nat): seq<Bytes>
    decreases |s|
  {
    if s == [] then []
    else
      var n := ReadSize(path, pos, io, |s|);
      [s[..n]] + Blocks(path, s[n..], io, pos + n)
  }

  /** However short the reads, nothing is lost and no chunk outgrows the buffer. */
  lemma {:induction false} BlocksLossless(path: Path, s: Bytes, io: Reads, pos: nat)
    ensures Concat(Blocks(path, s, io, pos)) == s
    ensures forall c | c in Blocks(path, s, io, pos) :: 1 <= |c| <= 1_048_576
    decreases |s|
  {
    if s != [] {
      var n := ReadSize(path, pos, io, |s|);
      BlocksLossless(path, s[n..], io, pos + n);
      assert s == s[..n] + s[n..];
    }
  }

  ghost predicate AllFull(blocks: seq<Bytes>) {
    forall i | 0 <= i < |blocks| - 1 :: |blocks[i]| == 1_048_576
  }

  lemma {:induction false} FullFirst(block: Bytes, rest: seq<Bytes>)
    requires AllFull(rest) && (rest != [] ==> |block| == 1_048_576)
    ensures AllFull([block] + rest)
  {
    forall i | 0 <= i < |rest|
      ensures |([block] + rest)[i]| == 1_048_576
    {
      assert i > 0 ==> ([block] + rest)[i] == rest[i - 1];
    }
  }

  /** The blocks of full reads: 1 MiB each but for the last. */
  lemma {:induction false} FullBlocks(path: Path, s: Bytes, io: Reads, pos: nat)
    requires forall at: nat :: io(path, at) >= 1_048_576
    ensures AllFull(Blocks(path, s, io, pos))
    decreases |s|
  {
    if s != [] {
      var n := ReadSize(path, pos, io, |s|);
      FullBlocks(path, s[n..], io, pos + n);
      assert io(path, pos) >= 1_048_576;
      FullFirst(s[..n], Blocks(path, s[n..], io, pos + n));
    }
  }

  function Chunks(path: Path, content: Bytes, io: Reads): seq<Bytes> {
    if IsText(path) then Lines(content) else Blocks(path, content, io, 0)
  }

  lemma ChunksLossless(path: Path, content: Bytes, io: Reads)
    ensures Concat(Chunks(path, content, io)) == content
    ensures forall c | c in Chunks(path, content, io) :: c != []
  {
    LinesCut(content);
    BlocksLossless(path, content, io, 0);
  }

  /** The whole hexadecimal hash of a chunk. */
  type Digest = Bytes -> Text

  predicate IsHex(b: byte) {
    48 <= b <= 57 || 97 <= b <= 102
  }

  predicate AllHex(t: Text) {
    forall i | 0 <= i < |t| :: IsHex(t[i])
  }

  ghost predicate IsDigest(h: Digest) {
    forall b :: |h(b)| == 64 && AllHex(h(b))
  }

  function Hash(h: Digest, data: Bytes, size: nat): (id: Text)
    requires IsDigest(h) && size <= 64
    ensures |id| == size && AllHex(id)
  {
    h(data)[..size]
  }

  function HashSize(path: Path): (n: nat)
    ensures n == TEXT_HASH_SIZE || n == BINARY_HASH_SIZE
  {
    if IsText(path) then TEXT_HASH_SIZE else BINARY_HASH_SIZE
  }

  function HashAll(h: Digest, chunks: seq<Bytes>, size: nat): (ids: seq<Text>)
    requires IsDigest(h) && size <= 64
    ensures |ids| == |chunks|
    ensures forall i | 0 <= i < |ids| :: ids[i] == Hash(h, chunks[i], size)
  {
    if chunks == [] then [] else [Hash(h, chunks[0], size)] + HashAll(h, chunks[1..], size)
  }

  /** The cache after each chunk is stored under its hash. */
  function Cached(cache: Blobs, h: Digest, chunks: seq<Bytes>, size: nat): Blobs
    requires IsDigest(h) && size <= 64
    decreases chunks
  {
    if chunks == [] then cache
    else Cached(cache[Hash(h, chunks[0], size) := chunks[0]], h, chunks[1..], size)
  }

  /** What `hashify` answers for a file of known format. */
  function Ids(h: Digest, path: Path, content: Bytes, io: Reads): seq<Text>
    requires IsDigest(h)
  {
    HashAll(h, Chunks(path, content, io), HashSize(path))
  }

  /** What `hashify` leaves in the cache. */
  function Warmed(cache: Blobs, h: Digest, path: Path, content: Bytes, io: Reads): Blobs
    requires IsDigest(h)
  {
    Cached(cache, h, Chunks(path, content, io), HashSize(path))
  }

  /** The text sent to the server. */
  function ChunkIds(h: Digest, path: Path, content: Bytes, io: Reads): Text
    requires IsDigest(h)
  {
    ListCodec.Join(Ids(h, path, content, io), COMMA)
  }

  /** The chunks ids stand for, end to end; the empty id stands for nothing. */
  function Assemble(blobs: Blobs, ids: seq<Text>): Bytes
    requires forall id | id in ids :: IsPresent(blobs, id)
  {
    if ids == [] then []
    else
      assert IsPresent(blobs, ids[0]);
      (if ids[0] == [] then [] else blobs[ids[0]]) + Assemble(blobs, ids[1..])
  }

  /** A chunk as hashed in some client: its bytes, and how many digits of the hash name it. */
  type Hashed = (Bytes, nat)

  /** Among the chunks in play, equally long hashes are equal only for equal chunks. */
  ghost predicate CollisionFree(h: Digest, known: set<Hashed>)
    requires IsDigest(h)
  {
    forall a, b | a in known && b in known && a.1 == b.1 && a.1 <= 64 ::
      Hash(h, a.0, a.1) == Hash(h, b.0, b.1) ==> a.0 == b.0
  }

  ghost predicate Names(h: Digest, known: set<Hashed>, id: Text, data: Bytes)
    requires IsDigest(h)
  {
    ((data, TEXT_HASH_SIZE) in known && id == Hash(h, data, TEXT_HASH_SIZE)) ||
    ((data, BINARY_HASH_SIZE) in known && id == Hash(h, data, BINARY_HASH_SIZE))
  }

  /** Every blob is filed under its own hash. */
  ghost predicate Addressed(h: Digest, known: set<Hashed>, blobs: Blobs)
    requires IsDigest(h)
  {
    forall id | id in blobs :: Names(h, known, id, blobs[id])
  }

  /** The blob with this id, if there is one, is filed under its own hash. */
  ghost predicate Intact(h: Digest, known: set<Hashed>, blobs: Blobs, id: Text)
    requires IsDigest(h)
  {
    id in blobs ==> Names(h, known, id, blobs[id])
  }

  /** So are all blobs with the ids of the list. */
  ghost predicate IntactAll(h: Digest, known: set<Hashed>, blobs: Blobs, chunkIds: Text)
    requires IsDigest(h)
  {
    forall id | id in IdList(chunkIds) :: Intact(h, known, blobs, id)
  }

  /** No id that was filed under its own hash no longer is. */
  ghost predicate StaysIntact(h: Digest, known: set<Hashed>, blobs: Blobs, blobs1: Blobs)
    requires IsDigest(h)
  {
    forall id | Intact(h, known, blobs, id) :: Intact(h, known, blobs1, id)
  }

  lemma StaysAddressed(h: Digest, known: set<Hashed>, blobs: Blobs, blobs1: Blobs)
    requires IsDigest(h) && Addressed(h, known, blobs) && StaysIntact(h, known, blobs, blobs1)
    ensures Addressed(h, known, blobs1)
  {
    forall id | id in blobs1
      ensures Names(h, known, id, blobs1[id])
    {
      assert Intact(h, known, blobs, id);
      assert Intact(h, known, blobs1, id);
    }
  }

  /** The chunks of this file are among those in play. */
  ghost predicate InPlay(known: set<Hashed>, path: Path, content: Bytes, io: Reads) {
    forall c | c in Chunks(path, content, io) :: (c, HashSize(path)) in known
  }

  /** Caching chunks adds their hashes, and nothing else. */
  lemma {:induction false} CachedExactly(h: Digest, cache: Blobs, chunks: seq<Bytes>, size: nat, id: Text)
    requires IsDigest(h) && size <= 64
    ensures id in Cached(cache, h, chunks, size) <==> id in cache || id in HashAll(h, chunks, size)
    decreases chunks
  {
    if chunks != [] {
      CachedExactly(h, cache[Hash(h, chunks[0], size) := chunks[0]], chunks[1..], size, id);
      assert HashAll(h, chunks, size) == [Hash(h, chunks[0], size)] + HashAll(h, chunks[1..], size);
    }
  }

  /** Two stores agree on an id that both have filed under its own hash. */
  lemma IntactAgree(h: Digest, known: set<Hashed>, a: Blobs, b: Blobs, id: Text)
    requires IsDigest(h) && CollisionFree(h, known)
    requires Intact(h, known, a, id) && Intact(h, known, b, id)
    requires id in a && id in b
    ensures a[id] == b[id]
  {
  }

  lemma {:induction false} CachedIntact(h: Digest, known: set<Hashed>, cache: Blobs, chunks: seq<Bytes>, size: nat)
    requires IsDigest(h) && (size == TEXT_HASH_SIZE || size == BINARY_HASH_SIZE)
    requires forall c | c in chunks :: (c, size) in known
    ensures StaysIntact(h, known, cache, Cached(cache, h, chunks, size))
    decreases chunks
  {
    if chunks != [] {
      var c1 := cache[Hash(h, chunks[0], size) := chunks[0]];
      assert StaysIntact(h, known, cache, c1);
      CachedIntact(h, known, c1, chunks[1..], size);
    }
  }

  lemma {:induction false} CachedAddressed(h: Digest, known: set<Hashed>, cache: Blobs, chunks: seq<Bytes>, size: nat)
    requires IsDigest(h) && (size == TEXT_HASH_SIZE || size == BINARY_HASH_SIZE)
    requires Addressed(h, known, cache) && forall c | c in chunks :: (c, size) in known
    ensures Addressed(h, known, Cached(cache, h, chunks, size))
  {
    CachedIntact(h, known, cache, chunks, size);
    StaysAddressed(h, known, cache, Cached(cache, h, chunks, size));
  }

  /** Stored chunks stay, and, without collisions, are found under their hash. */
  lemma {:induction false} CachedHolds(h: Digest, known: set<Hashed>, cache: Blobs, chunks: seq<Bytes>, size: nat)
    requires IsDigest(h) && size <= 64 && CollisionFree(h, known)
    requires forall c | c in chunks :: (c, size) in known
    ensures cache.Keys <= Cached(cache, h, chunks, size).Keys
    ensures forall c | c in chunks ::
              Hash(h, c, size) in Cached(cache, h, chunks, size) && Cached(cache, h, chunks, size)[Hash(h, c, size)] == c
    ensures forall id | id in cache && (forall c | c in chunks :: Hash(h, c, size) != id) ::
              Cached(cache, h, chunks, size)[id] == cache[id]
    decreases chunks
  {
    if chunks != [] {
      var c1, rest := cache[Hash(h, chunks[0], size) := chunks[0]], chunks[1..];
      CachedHolds(h, known, c1, rest, size);
      assert chunks == [chunks[0]] + rest;
      if x :| x in rest && Hash(h, x, size) == Hash(h, chunks[0], size) {
        assert (x, size) in known && (chunks[0], size) in known;
      } else {
        assert Cached(c1, h, rest, size)[Hash(h, chunks[0], size)] == chunks[0];
      }
    }
  }

  lemma {:induction false} AssembleHashed(h: Digest, blobs: Blobs, chunks: seq<Bytes>, size: nat)
    requires IsDigest(h) && 0 < size <= 64
    requires forall c | c in chunks :: Hash(h, c, size) in blobs && blobs[Hash(h, c, size)] == c
    ensures forall id | id in HashAll(h, chunks, size) :: IsPresent(blobs, id)
    ensures Assemble(blobs, HashAll(h, chunks, size)) == Concat(chunks)
  {
    if chunks != [] {
      AssembleHashed(h, blobs, chunks[1..], size);
      assert HashAll(h, chunks, size)[1..] == HashAll(h, chunks[1..], size);
    }
  }

  /** Two stores that agree on the ids put together the same bytes. */
  lemma {:induction false} AssembleAgree(a: Blobs, b: Blobs, ids: seq<Text>)
    requires forall id | id in ids && id != [] :: id in a && id in b && a[id] == b[id]
    ensures Assemble(a, ids) == Assemble(b, ids)
  {
    if ids != [] {
      AssembleAgree(a, b, ids[1..]);
    }
  }

  lemma {:induction false} HashesCommaFree(h: Digest, chunks: seq<Bytes>, size: nat)
    requires IsDigest(h) && size <= 64
    ensures ListCodec.Free(HashAll(h, chunks, size), COMMA)
  {
    forall i | 0 <= i < |chunks|
      ensures COMMA !in HashAll(h, chunks, size)[i]
    {
      assert AllHex(Hash(h, chunks[i], size));
    }
  }

  /** The ids survive the wire text; the empty list comes back as one empty id, which names nothing. */
  lemma ChunkIdsDecode(h: Digest, path: Path, content: Bytes, io: Reads)
    requires IsDigest(h)
    ensures IdList(ChunkIds(h, path, content, io)) ==
            if content == [] then [[]] else Ids(h, path, content, io)
  {
    ChunksLossless(path, content, io);
    HashesCommaFree(h, Chunks(path, content, io), HashSize(path));
    ListCodec.SplitJoinExact(Ids(h, path, content, io), COMMA);
    if content == [] {
      assert Chunks(path, content, io) == [];
    }
  }

  /**
   From file to wire text to file: any store that has the ids, and chunks under their hashes there, puts the
   very bytes of the file together again, the empty file included.
   */
  lemma {:induction false} ContentPreserved(h: Digest, known: set<Hashed>, path: Path, content: Bytes,
                                            io: Reads, blobs: Blobs)
    requires IsDigest(h) && CollisionFree(h, known)
    requires InPlay(known, path, content, io) && IntactAll(h, known, blobs, ChunkIds(h, path, content, io))
    requires AllPresent(blobs, ChunkIds(h, path, content, io))
    ensures Assemble(blobs, IdList(ChunkIds(h, path, content, io))) == content
  {
    var chunks, size := Chunks(path, content, io), HashSize(path);
    ChunkIdsDecode(h, path, content, io);
    ChunksLossless(path, content, io);
    if content != [] {
      forall c | c in chunks
        ensures Hash(h, c, size) in blobs && blobs[Hash(h, c, size)] == c
      {
        var i :| 0 <= i < |chunks| && chunks[i] == c;
        var id := HashAll(h, chunks, size)[i];
        assert id in IdList(ChunkIds(h, path, content, io)) && Intact(h, known, blobs, id);
      }
      AssembleHashed(h, blobs, chunks, size);
    }
  }
}
