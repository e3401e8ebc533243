/** `Chunker` and its cache, at work on the storage directory (client/src/chunker.rs). */
module Chunkers {
  import opened Octets
  import opened Paths
  import opened Registries
  import opened Servers
  import opened Disks
  import opened Chunking

  datatype SyncError = IoError | GetFromCacheError | UnlistedFileFormat | BatchDownloadError | Unknown

  datatype Result<+T> = Ok(value: T) | Err(error: SyncError)

  /** What `hashify` answers. */
  function Hashified(t: Tree, h: Digest, path: Path, io: Reads): Result<seq<Text>>
    requires IsDigest(h)
  {
    if !Eligible(path) then Err(UnlistedFileFormat)
    else if path !in t.files then Err(IoError)
    else Ok(Ids(h, path, t.files[path].content, io))
  }

  /** In terms of the name: lines or blocks as its extension says, whatever other dots there are in it. */
  lemma {:induction false} HashifiedByName(t: Tree, h: Digest, path: Path, io: Reads, stem: Name, e: Text)
    requires IsDigest(h) && path != [] && FileName(path) == stem + [DOT] + e && stem != [] && DOT !in e
    ensures var r := Hashified(t, h, path, io);
            if !TextExtension(e) && !BinaryExtension(e) then r == Err(UnlistedFileFormat)
            else if path !in t.files then r == Err(IoError)
            else
              var content := t.files[path].content;
              r == Ok(if TextExtension(e) then HashAll(h, Lines(content), 10) else HashAll(h, Blocks(path, content, io, 0), 32)) &&
              forall i | 0 <= i < |r.value| ::
                r.value[i] == if TextExtension(e) then h(Lines(content)[i])[..10] else h(Blocks(path, content, io, 0)[i])[..32]
  {
    hide IsText, IsBinary, TextExtension, BinaryExtension;
    FormatByExtension(path, stem, e);
  }

  /** A name without an extension is text if it is one of three, and otherwise of no known format. */
  lemma {:induction false} HashifiedWithoutExtension(t: Tree, h: Digest, path: Path, io: Reads)
    requires IsDigest(h) && path != []
    requires DOT !in FileName(path) || (FileName(path)[0] == DOT && DOT !in FileName(path)[1..])
    ensures var r := Hashified(t, h, path, io);
            if !NamedText(FileName(path)) then r == Err(UnlistedFileFormat)
            else if path !in t.files then r == Err(IoError)
            else r == Ok(HashAll(h, Lines(t.files[path].content), 10))
  {
    hide IsText, IsBinary, NamedText;
    FormatWithoutExtension(path);
  }

  /** What `hashify` leaves in the cache. */
  function CacheAfter(cache: Blobs, t: Tree, h: Digest, path: Path, io: Reads): Blobs
    requires IsDigest(h)
  {
    if Eligible(path) && path in t.files then Warmed(cache, h, path, t.files[path].content, io) else cache
  }

  /** The in-memory cache, taken not to evict. */
  class InMemoryCache {
    var chunks: Blobs

    constructor ()
      ensures chunks == map[]
    {
      chunks := map[];
    }

    function Get(id: Text): (r: Result<Bytes>)
      reads this
      ensures r.Ok? <==> IsPresent(chunks, id)
      ensures r.Ok? && id != [] ==> r.value == chunks[id]
    {
      if id == [] then Ok([]) else if id in chunks then Ok(chunks[id]) else Err(GetFromCacheError)
    }

    method Set(id: Text, content: Bytes)
      modifies this
      ensures chunks == old(chunks)[id := content]
    {
      chunks := chunks[id := content];
    }
  }

  /** A hashify loop with `rest` still to come has answered and cached what comes before it. */
  ghost predicate Halfway(h: Digest, size: nat, cache0: Blobs, all: seq<Bytes>,
                          cache: Blobs, hashes: seq<Text>, rest: seq<Bytes>)
    requires IsDigest(h) && size <= 64
  {
    hashes + HashAll(h, rest, size) == HashAll(h, all, size) &&
    Cached(cache, h, rest, size) == Cached(cache0, h, all, size)
  }

  lemma OneChunk(h: Digest, size: nat, cache0: Blobs, all: seq<Bytes>,
                 cache: Blobs, hashes: seq<Text>, rest: seq<Bytes>)
    requires IsDigest(h) && size <= 64 && rest != []
    requires Halfway(h, size, cache0, all, cache, hashes, rest)
    ensures var id := Hash(h, rest[0], size);
            Halfway(h, size, cache0, all, cache[id := rest[0]], hashes + [id], rest[1..])
  {
    var id := Hash(h, rest[0], size);
    assert hashes + [id] + HashAll(h, rest[1..], size) == hashes + HashAll(h, rest, size);
  }

  lemma OneBlock(h: Digest, cache0: Blobs, all: seq<Bytes>, cache: Blobs, hashes: seq<Text>,
                 path: Path, unread: Bytes, io: Reads, pos: nat)
    requires IsDigest(h) && unread != []
    requires Halfway(h, BINARY_HASH_SIZE, cache0, all, cache, hashes, Blocks(path, unread, io, pos))
    ensures var n := ReadSize(path, pos, io, |unread|);
            var id := Hash(h, unread[..n], BINARY_HASH_SIZE);
            Halfway(h, BINARY_HASH_SIZE, cache0, all, cache[id := unread[..n]], hashes + [id],
                    Blocks(path, unread[n..], io, pos + n))
  {
    OneChunk(h, BINARY_HASH_SIZE, cache0, all, cache, hashes, Blocks(path, unread, io, pos));
  }

  lemma {:induction false} AllChunks(h: Digest, size: nat, cache0: Blobs, all: seq<Bytes>, cache: Blobs,
                                     hashes: seq<Text>)
    requires IsDigest(h) && size <= 64
    requires Halfway(h, size, cache0, all, cache, hashes, [])
    ensures hashes == HashAll(h, all, size) && cache == Cached(cache0, h, all, size)
  {
    assert hashes + HashAll(h, [], size) == hashes;
  }

  class Chunker {
    const cache: InMemoryCache
    const disk: Disk
    const digest: Digest
    const io: Reads

    constructor (disk: Disk, digest: Digest, io: Reads)
      ensures this.disk == disk && this.digest == digest && this.io == io
      ensures fresh(cache) && cache.chunks == map[]
    {
      this.cache := new InMemoryCache();
      this.disk := disk;
      this.digest := digest;
      this.io := io;
    }

    ghost predicate Valid()
      reads disk
    {
      IsDigest(digest) && WellFormed(disk.Snapshot())
    }

    method HashifyText(path: Path) returns (r: Result<seq<Text>>)
      requires Valid()
      modifies cache
      ensures path !in disk.files ==> r == Err(IoError) && cache.chunks == old(cache.chunks)
      ensures path in disk.files ==>
                r == Ok(HashAll(digest, Lines(disk.files[path].content), TEXT_HASH_SIZE)) &&
                cache.chunks == Cached(old(cache.chunks), digest, Lines(disk.files[path].content), TEXT_HASH_SIZE)
    {
      if path !in disk.files {
        return Err(IoError);
      }
      var unread, hashes := disk.files[path].content, [];
      ghost var lines := Lines(unread);
      while unread != []
        invariant Halfway(digest, TEXT_HASH_SIZE, old(cache.chunks), lines, cache.chunks, hashes, Lines(unread))
        decreases |unread|
      {
        var data := unread[..LineLength(unread)];
        var hash := Hash(digest, data, TEXT_HASH_SIZE);
        OneChunk(digest, TEXT_HASH_SIZE, old(cache.chunks), lines, cache.chunks, hashes, Lines(unread));
        cache.Set(hash, data);
        hashes := hashes + [hash];
        unread := unread[LineLength(unread)..];
      }
      AllChunks(digest, TEXT_HASH_SIZE, old(cache.chunks), lines, cache.chunks, hashes);
      return Ok(hashes);
    }

    method HashifyBinary(path: Path) returns (r: Result<seq<Text>>)
      requires Valid()
      modifies cache
      ensures path !in disk.files ==> r == Err(IoError) && cache.chunks == old(cache.chunks)
      ensures path in disk.files ==>
                var blocks := Blocks(path, disk.files[path].content, io, 0);
                r == Ok(HashAll(digest, blocks, BINARY_HASH_SIZE)) &&
                cache.chunks == Cached(old(cache.chunks), digest, blocks, BINARY_HASH_SIZE)
    {
      if path !in disk.files {
        return Err(IoError);
      }
      var unread, pos, hashes := disk.files[path].content, 0, [];
      ghost var blocks := Blocks(path, unread, io, 0);
      while unread != []
        invariant Halfway(digest, BINARY_HASH_SIZE, old(cache.chunks), blocks,
                          cache.chunks, hashes, Blocks(path, unread, io, pos))
        decreases |unread|
      {
        var bytesRead := ReadSize(path, pos, io, |unread|);
        var data := unread[..bytesRead];
        var hash := Hash(digest, data, BINARY_HASH_SIZE);
        OneBlock(digest, old(cache.chunks), blocks, cache.chunks, hashes, path, unread, io, pos);
        cache.Set(hash, data);
        hashes := hashes + [hash];
        unread, pos := unread[bytesRead..], pos + bytesRead;
      }
      AllChunks(digest, BINARY_HASH_SIZE, old(cache.chunks), blocks, cache.chunks, hashes);
      return Ok(hashes);
    }

    method Hashify(path: Path) returns (r: Result<seq<Text>>)
      requires Valid()
      modifies cache
      ensures r == Hashified(disk.Snapshot(), digest, path, io)
      ensures cache.chunks == CacheAfter(old(cache.chunks), disk.Snapshot(), digest, path, io)
    {
      if IsText(path) {
        r := HashifyText(path);
      } else if IsBinary(path) {
        r := HashifyBinary(path);
      } else {
        r := Err(UnlistedFileFormat);
      }
    }

    /** `create_dir_all` and `File::create`. */
    method CreateFile(path: Path, now: Time) returns (ok: bool)
      requires Valid()
      modifies disk
      ensures Valid()
      ensures ok == CanWrite(old(disk.Snapshot()), path)
      ensures disk.Snapshot() ==
              if ok then Written(old(disk.Snapshot()), path, File([], now)) else old(disk.Snapshot())
    {
      ghost var before := disk.Snapshot();
      if path == [] {
        return false;
      }
      var created := disk.CreateDirAll(Parent(path));
      if !created {
        return false;
      }
      if path in disk.dirs {
        if path !in before.dirs {
          InUpward(Parent(path), path);
        }
        UpwardInDirs(before, Parent(path));
        assert disk.dirs == before.dirs;
        return false;
      }
      WrittenKeepsTree(before, path, File([], now));
      disk.files := disk.files[path := File([], now)];
      return true;
    }

    /** Puts bytes into a file that is open. */
    method Fill(path: Path, file: File, ghost before: Tree)
      requires Valid() && CanWrite(before, path) && WellFormed(before)
      requires exists f :: disk.Snapshot() == Written(before, path, f)
      modifies disk`files
      ensures Valid()
      ensures disk.Snapshot() == Written(before, path, file)
    {
      WrittenKeepsTree(before, path, file);
      disk.files := disk.files[path := file];
    }

    /**
     Writes the cached chunks to `path`. When a chunk is missing the file is left holding some part of
     what came before it; nothing else on the disk moves.
     */
    method Save(path: Path, hashes: seq<Text>, now: Time) returns (r: Result<()>)
      requires Valid()
      modifies disk
      ensures Valid()
      ensures var before := old(disk.Snapshot());
              if !CanWrite(before, path) then r == Err(IoError) && disk.Snapshot() == before
              else if forall id | id in hashes :: IsPresent(cache.chunks, id) then
                r == Ok(()) && disk.Snapshot() == Written(before, path, File(Assemble(cache.chunks, hashes), now))
              else
                r == Err(GetFromCacheError) && exists f :: disk.Snapshot() == Written(before, path, f)
    {
      ghost var before := disk.Snapshot();
      var created := CreateFile(path, now);
      if !created {
        return Err(IoError);
      }
      var i, written := 0, [];
      while i < |hashes|
        invariant 0 <= i <= |hashes|
        invariant Valid() && disk.Snapshot() == Written(before, path, File([], now))
        invariant forall id | id in hashes[..i] :: IsPresent(cache.chunks, id)
        invariant written == Assemble(cache.chunks, hashes[..i])
      {
        var chunk := cache.Get(hashes[i]);
        if chunk.Err? {
          // How much the buffered writer has handed on by then is up to it.
          var n :| 0 <= n <= |written|;
          Fill(path, File(written[..n], now), before);
          assert hashes[i] in hashes;
          return Err(GetFromCacheError);
        }
        assert hashes[..i + 1] == hashes[..i] + [hashes[i]];
        AssembleAppend(cache.chunks, hashes[..i], [hashes[i]]);
        written := written + chunk.value;
        i := i + 1;
      }
      assert hashes[..i] == hashes;
      Fill(path, File(written, now), before);
      return Ok(());
    }

    /** Removes a file and the folders this leaves empty; fails only when there is no such file. */
    method Delete(path: Path) returns (r: Result<()>)
      requires Valid()
      modifies disk
      ensures Valid()
      ensures r == if path in old(disk.files) then Ok(()) else Err(IoError)
      ensures disk.Snapshot() == if r.Ok? then Removed(old(disk.Snapshot()), path) else old(disk.Snapshot())
    {
      if path !in disk.files {
        return Err(IoError);
      }
      RemovedKeepsTree(disk.Snapshot(), path);
      disk.files := disk.files - {path};
      var dir := Parent(path);
      while dir != []
        invariant Pruned(disk.Snapshot(), dir) == Removed(old(disk.Snapshot()), path)
        decreases |dir|
      {
        var removed := disk.RemoveDir(dir);
        if !removed {
          break;
        }
        dir := Parent(dir);
      }
      return Ok(());
    }
  }

  lemma InUpward(d: Path, p: Path)
    ensures p in Upward(d) ==> |p| <= |d|
  {
  }

  lemma {:induction false} AssembleAppend(blobs: Blobs, a: seq<Text>, b: seq<Text>)
    requires forall id | id in a :: IsPresent(blobs, id)
    requires forall id | id in b :: IsPresent(blobs, id)
    ensures Assemble(blobs, a + b) == Assemble(blobs, a) + Assemble(blobs, b)
  {
    if a == [] {
      assert a + b == b;
    } else {
      assert (a + b)[1..] == a[1..] + b;
      assert IsPresent(blobs, a[0]);
      AssembleAppend(blobs, a[1..], b);
    }
  }
}
