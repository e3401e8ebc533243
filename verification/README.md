# Cooklang Sync, verified

Cooklang Sync keeps the recipe folders of several devices alike. A server holds an append-only
journal of file versions and a store of chunks named by their hash. Each client holds an append-only
registry of its own files, a chunk cache, and the folder itself. A client uploads by offering the chunk
ids of a file (`commit`), sending what the server lacks, and offering again. It downloads by asking for
the newest record of each path above the highest journal id it has seen (`list`), fetching the chunks
it lacks, and writing the files.

This project models that system in Dafny 4.11 and proves what it is for: that what is committed is what
arrives, that no record is missed, and when exactly that fails. `dafny verify dfyconfig.toml` checks all of it.

## How the model is laid out

| file | what it models |
|---|---|
| `Octets.dfy`, `ListCodec.dfy`, `Paths.dfy`, `Forms.dfy` | bytes, `join`/`split`, paths and file formats, URL-encoded forms and their limit |
| `Log.dfy` | the shape both tables share: rows with growing ids, read through "max(id) per path" |
| `Journal.dfy`, `Server.dfy`, `Linearization.dfy`, `Repeats.dfy` | the server's journal, `commit`, the chunk store, and commits and uploads that interleave |
| `Registry.dfy`, `Indexer.dfy` | the client's table, and its comparison with the disk |
| `Disk.dfy`, `Chunking.dfy`, `Chunker.dfy` | the folder and its clean-up, cutting files into chunks, the cache, `hashify`, `save`, `delete` |
| `Multipart.dfy`, `Framing.dfy`, `Headers.dfy`, `CappedStream.dfy` | the client's body reader, the server's body printer, what a header block says, the upload cap |
| `Upload.dfy`, `TwoPass.dfy` | an upload pass as a function, and one after another |
| `Batch.dfy`, `Syncer.dfy`, `UploadRun.dfy` | the batches under way, an upload pass at work, and `run_upload_once` |
| `Download.dfy`, `Downloader.dfy` | a download pass, as a function and at work |
| `Limits.dfy` | which files the server's limits let through |
| `Watermark.dfy`, `Replica.dfy`, `World.dfy` | what holds over whole runs, and end to end |

What the source changes in place is a class here (`Journal`, `ChunkStore`, `Registry`, `InMemoryCache`,
`Disk`), its loops are loops, and each method is proved against a function of the values it starts from.
What is then proved about runs is proved about those functions: `Upload.Pass` and `Download.LandFirst`
are the meaning of one upload and one download pass, and `Syncer.Client.CheckUploadOnce` and
`Downloader.CheckDownloadOnce` are the loops that have it. No proof rests on automatic induction.

## What is assumed

- The hash is any function to 64 hexadecimal digits. Where content is claimed to survive, the hashes of
  the chunks in play (a set `known`, as large as one likes) are assumed not to collide at the length
  they are cut to.
- The cache does not evict.
- What the environment decides is a parameter: how much each read of a file or socket yields, how the
  network cuts a body, where an upload breaks off, the disk's clock, what the system reports about
  folders, the boundary the server draws.
- Where the server's cap cuts a batch short, its multipart parser is taken to follow section 5.1.1 of
  RFC 2046: a field's header ends with its blank line, its content once the next delimiter has come.
- Where a download pass is claimed to succeed, that boundary occurs in no chunk it asks for (`FramingExact`
  says what happens otherwise), and no chunk that the listed files name is half-written. Other chunks may be
  at any stage: `StoredExact`, `TornFetch`.
- A record is visible to others as soon as its id is taken, so that ids become visible in their order. SQLite
  has one writer at a time and sees to that. The PostgreSQL backend does not: there a smaller id can be
  committed after a larger one has been listed, and the claims about watermarks do not cover it.
- The operating system removes a folder if and only if it is empty.

## What turned out not to hold

For each of these there is a lemma with the exact condition, and one with an input that shows it.

- **The watermark of a client that also uploads can skip records.** An own commit sets the highest jid,
  past any peer's record that was not listed yet. `OwnCommitExact` has the exact condition,
  `UploadMaySkip` an example, `SkippedForever` the consequence. docs/Architecture.md describes this step
  as advancing the local journal to the new version.
- **A download pass that fails halfway can skip records too**, because the server's answer is in no
  order: `PartialPassExact`, `PartialPassMaySkip`. Over whole runs these two are all that can: `ReplicaMissesNothing`.
- **A download overwrites local changes that wait to be uploaded**, and they are then never uploaded. Those
  of paths that the pass does not list survive it, and only those: `PendingSurvives`, `EditOverwritten`.
- **An upload that breaks off inside a chunk the server already had deletes that chunk.** Records that name
  it cannot be resolved any more, and neither can those that commits under way are about to insert:
  `EventBacked`, `RunBacked`, `CarelessUpload`, `AbortUnderCommit`.
- **A chunk that is still being written counts as present.** A download that finds it files part of it under
  the whole chunk's name: `OneMove`, `OpenRuns`, `TornFetch`.
- **Concurrent equal commits can both be recorded**, although the dedup read is there to prevent it:
  `ConcurrentRepeatsExact`, `ConcurrentCommitsMayRepeat`. The files are still those of a serial order.
- **A file of many lines stops uploads.** Its commit form is over 1 MiB and refused, in every run, and no row
  after it is ever offered: `TextFits`, `BlockedExact`, `LongFileBlocks`, `StoppedForGood`.
- **A file can be recorded and never fetched.** Its lines cost twice as much in a download form:
  `CheckDownloadOnce`, `DownloadFormBounds`, `CommittedNotFetched`. The queue of chunks to fetch is not
  deduplicated, so many short files together do the same.
- **A batch within the client's limit can be over the server's cap**, since the client counts payload only.
  It is then cut short. A cut in a part's header the server answers with success, and all is well if each
  chunk behind the cut came before it or in another batch, since equal lines are sent as often as they occur;
  a cut in a chunk fails the request and deletes the chunk, what came of it before included: `CapExact`,
  `SendExact`, `ManyLinesOverCap`, `EqualLinesGet`, `EqualLinesLost`.
- **A file within all limits may never get to the server**: from 32,768 empty lines on, if the server has none,
  every run fails and leaves all as it was: `ThroughExact`, `EmptyLinesNeverSent`.
- **An edit that keeps size and second is never uploaded**: `EditSeen`, `EditMissed`. A comment at
  client/src/indexer.rs:229-230 says that in practice this does not happen.
- **A folder named like a recipe stops uploads**: the indexer records it as a file, and hashing it fails
  in every pass: `BlockedExact`, `FolderBlocks`.
- **A download can look like a local change**: a file that comes down into a hidden folder, or with an
  unknown format, is taken for deleted by the next indexer pass, and a folder named like a file for a new
  file. The last a client of this version can bring about: `DownloadKeepsInSync`, `DownloadLooksLikeEdit`.
- **A chunk that holds the boundary breaks the batch it is served in.** The reader yields it cut short, or
  panics if fewer than two bytes come before the boundary: `FramingExact`, `StrayExact`, `BodyPanics`.

## Model

| member | source | states |
|---|---|---|
| `ListCodec.SplitJoinExact` | client/src/syncer.rs:210-218 | `join(",")` then `split(',')` gives the list back if and only if it is not empty and no piece holds a comma; the empty list comes back as one empty piece |
| `ListCodec.JoinAfterSplit` | server/src/metadata/request.rs:14-22 | splitting any text and joining it again loses nothing |
| `Paths.SlashedInjective` | client/src/indexer.rs:195-200 | the slashed form in which a path is recorded and sent tells apart any two paths whose names are non-empty and hold no slash |
| `Paths.ExtensionAfterLastDot` | client/src/chunker.rs:247-256 | a name's extension is what follows its last dot, however many dots come before |
| `Paths.NoExtension` | client/src/chunker.rs:247-256 | a name without a dot, or with none but a leading one, has no extension |
| `Paths.NameHasExtension` | client/src/chunker.rs:247-256 | every other name has one: it is some stem, a dot and what follows |
| `Paths.FormatByExtension` | client/src/chunker.rs:247-285 | a name with an extension is text if and only if that is `cook`, `conf`, `yaml`, `yml`, `md`, `menu`, `jinja` or `j2`, and binary if and only if it is `jpg`, `jpeg` or `png`, in letters of either case |
| `Paths.FormatWithoutExtension` | client/src/chunker.rs:257-268 | a name without one is text if and only if it is one of the three dotfiles, and never binary |
| `Paths.DottedRecipe` | client/src/chunker.rs:257-285 | a recipe with dots in its name is text |
| `Paths.LoudPhoto` | client/src/chunker.rs:247-251 | a photo with its extension in capitals is binary |
| `Forms.EncodedReads` | client/src/remote.rs:261-271 | what a form encodes is decoded again, and holds none of the separators |
| `Forms.RequestedBack` | server/src/chunks/mod.rs:225-235 | the server reads out of a download form exactly the ids the client asked for, in order |
| `Forms.CommitFormReads` | client/src/remote.rs:261-265 | a commit form, split at its ampersands and decoded, says `true` or `false`, the chunk ids and the path |
| `Forms.EncodedOne` | client/src/remote.rs:261-271 | letters, digits and `*-._` stand for themselves in a form, a space is a plus, any other byte takes three |
| `Forms.EscapeReads` | server/src/chunks/mod.rs:225-235 | an escape is read with hexadecimal letters in either case |
| `Forms.DownloadFitsExact` | server/src/chunks/mod.rs:259-262 | with ids of one length a download form passes if and only if that length and 17 bytes more, for each id, come to no more than 1 MiB and a byte |
| `Forms.DownloadFormBounds` | server/src/chunks/mod.rs:259-262 | a download form of hashes passes for certain up to 21,399 ids, and is refused for certain from 38,837 on |
| `Log.SelectedIsView` | server/src/metadata/db.rs:106-119 | `id IN (SELECT max(id) .. GROUP BY path)` selects a row if and only if a map updated row by row holds it |
| `Log.ViewInsert` | server/src/metadata/db.rs:66-71 | an inserted row becomes the newest of its path for its owner, and moves nothing else |
| `Log.NewerIsView` | server/src/metadata/db.rs:106-119 | a listing after `j` holds exactly the rows of that map with an id above `j` |
| `Log.ListingPathsDistinct` | server/src/metadata/db.rs:106-119 | a listing names no path twice |
| `Log.DeltaComposition` | server/src/metadata/db.rs:106-119 | for every `j` and every order of the answer, the listing after `j` laid over the view of the rows up to `j` is the view of the whole table |
| `Journals.LatestIsView` | server/src/metadata/db.rs:75-87 | the dedup read finds exactly the newest record of a user's path |
| `Journals.HasFilesMeaning` | server/src/metadata/db.rs:89-104 | `has_files` is true if and only if the newest record of some path is live |
| `Journals.InsertNoRepeat` | server/src/metadata/mod.rs:77-103 | an insert keeps the journal free of immediate repeats if and only if the version differs from the newest one recorded |
| `Journals.Journal.List` | server/src/metadata/db.rs:106-119 | the answer lists, in no set order, each newest record above the jid once |
| `Servers.MissingMeaning` | server/src/metadata/request.rs:14-22 | the missing chunks are exactly the named ids, the empty one aside, that the store lacks |
| `Servers.MissingParts` | server/src/metadata/request.rs:14-22 | they are named in order, each as often as the request names it |
| `Servers.CommitRefusal` | server/src/metadata/mod.rs:71-119 | a commit is refused if and only if it names a chunk the store lacks; it then records nothing, and its answer reads back as the missing ids, none of them empty |
| `Servers.EmptyNeverRefused` | server/src/chunk_id.rs:33-39 | a tombstone or an empty file is never asked for chunks |
| `Servers.CommitEffect` | server/src/metadata/mod.rs:73-107 | an accepted commit makes the answered id the path's newest record with the committed version, found or inserted; no other path and no other user moves |
| `Servers.CommitIdempotent` | server/src/metadata/mod.rs:77-101 | committing the same thing again gives the same id and changes nothing |
| `Servers.CommitKeeps` | server/src/metadata/mod.rs:71-107 | commits keep every record's chunks present and the journal free of repeats |
| `Servers.Server.Commit` | server/src/metadata/mod.rs:65-120 | the step-by-step handler is the specified commit, and keeps the server valid |
| `Servers.Server.PostCommit` | server/src/metadata/mod.rs:176-182 | a commit whose form is within the limit is answered as specified; a longer one gets no result and changes nothing |
| `Servers.UploadedKeys` | server/src/chunks/mod.rs:152-198 | an upload takes a chunk out of the store only by breaking off inside that chunk; a whole upload leaves every part in it |
| `Servers.UploadKeepsReferential` | server/src/chunks/mod.rs:180-190 | as long as no record is added, an upload keeps every record resolvable if and only if it does not break off inside a chunk that a record names |
| `Servers.ChunkStore.UploadChunks` | server/src/chunks/mod.rs:152-198 | the loop over the fields stores what arrived whole, skips the empty id, and removes the chunk it broke off in |
| `Linearization.BackedMeaning` | server/src/metadata/mod.rs:71-103 | being backed means that no record names a chunk the server lacks, and that none will if any one commit under way just goes on |
| `Linearization.EventBacked` | server/src/metadata/mod.rs:71-103 | an event keeps the server backed if and only if it does not remove a chunk that a record names or that a commit under way has found |
| `Linearization.RunBacked` | server/src/metadata/mod.rs:71-103 | the same for every moment of every interleaving of commits, uploads and uploads that break off |
| `Linearization.AbortUnderCommit` | server/src/chunks/mod.rs:180-190 | an upload that breaks off between a commit's check and its insert does leave a record of a missing chunk, though no record named the chunk |
| `Linearization.ConcurrentCommitsLinearize` | server/src/metadata/mod.rs:71-119 | every interleaving of many commits' checks, dedup reads and inserts, and of chunk uploads, ends in the files and answers of a serial order that has each answered request once, at a step of its own, unless an upload breaks off inside a chunk that a commit under way has found; a success bears the id of a record of that user, path and version |
| `Linearization.PointsRespectTime` | server/src/metadata/mod.rs:82-107 | that serial order respects real time: what was answered earlier comes earlier |
| `Repeats.RunNoRepeat` | server/src/metadata/mod.rs:77-103 | over any interleaving the journal stays free of immediate repeats if and only if no insert is of what is already the newest record of its path |
| `Repeats.ConcurrentRepeatsExact` | server/src/metadata/mod.rs:82-103 | in terms of events: if and only if, between no request's dedup read and its insert, an equal request inserts with no other version of the path inserted after it |
| `Repeats.ConcurrentCommitsMayRepeat` | server/src/metadata/mod.rs:77-103 | two equal commits whose reads both precede the inserts are both recorded |
| `Registries.QueriesAreView` | client/src/registry.rs:34-74 | `non_deleted` and `updated_locally` answer with exactly the live rows, and the rows awaiting a jid, of a map updated row by row |
| `Registries.UpdatedLocallyShape` | client/src/registry.rs:55-74 | `updated_locally` gives one row a path, oldest first |
| `Registries.LatestJidMeaning` | client/src/registry.rs:76-90 | `latest_jid` is the largest jid of the namespace |
| `Registries.InsertedView` | client/src/registry.rs:13-32 | each inserted form becomes its path's newest row; other paths and other namespaces keep theirs |
| `Registries.ViewJidSet` | client/src/registry.rs:19-26 | a jid goes to the row of that id, and shows only where that row is the newest of its path |
| `Registries.ChangeRefines` | client/src/registry.rs:13-32 | every change of the table is the same change of a simple map, and touches no other namespace |
| `Registries.RegistryRuns` | client/src/registry.rs:13-90 | over any run of changes rows stay, a jid once set is never overwritten, and `latest_jid` never decreases |
| `Disks.FoldersFollowFiles` | client/src/chunker.rs:155-179 | in a tree without empty folders the folders are exactly the root and those above a file |
| `Disks.CanWriteExact` | client/src/chunker.rs:115-125 | a file can be written if and only if no folder has its path and no file lies above it |
| `Disks.WrittenKeepsTree` | client/src/chunker.rs:115-125 | saving keeps the tree closed under parents and adds no empty folder |
| `Disks.RemovedKeepsTree` | client/src/chunker.rs:147-182 | deleting a file touches no other, leaves no empty folder, and removes folders only above it, never the root |
| `Disks.RemovedExact` | client/src/chunker.rs:147-182 | in any tree, deleting a file removes exactly those folders above it, the root aside, below which there was nothing but the file and the folders on the way to it |
| `Disks.NoGhostFolders` | client/src/chunker.rs:115-182 | over any run of saves and deletes there is a folder if and only if it is the root or a file lies below it |
| `Chunking.LinesCut` | client/src/chunker.rs:71-95 | line chunks concatenate to the file, are never empty, and hold a newline only as their last byte |
| `Chunking.LinesUnique` | client/src/chunker.rs:71-95 | there is no other way to cut a file so |
| `Chunking.LinesHomomorphism` | client/src/chunker.rs:71-95 | the chunks of two files end to end are those of each if and only if the first is empty or ends in a newline, or the second is empty |
| `Chunking.BlocksLossless` | client/src/chunker.rs:45-69 | however short the reads, binary chunks concatenate to the file, none empty and none above 1 MiB |
| `Chunking.FullBlocks` | client/src/chunker.rs:45-69 | when reads are not short, all chunks but the last are of 1,048,576 bytes |
| `Chunking.ChunkIdsDecode` | client/src/chunker.rs:222-231 | a file's ids survive the wire text; those of the empty file come back as one empty id |
| `Chunking.CachedHolds` | client/src/chunker.rs:85-87 | hashing keeps what the cache has and leaves every chunk under its hash |
| `Chunking.CachedExactly` | client/src/chunker.rs:85-87 | and adds no other id |
| `Chunking.ContentPreserved` | client/src/chunker.rs:71-145 | any store that has a file's ids, and chunks under their hashes there, puts its very bytes together again, the empty file included |
| `Chunkers.Chunker.HashifyText` | client/src/chunker.rs:71-95 | the reading loop answers with the hashes of the lines and caches each line |
| `Chunkers.Chunker.HashifyBinary` | client/src/chunker.rs:45-69 | the reading loop answers with the hashes of the blocks read and caches each block |
| `Chunkers.Chunker.Hashify` | client/src/chunker.rs:32-43 | text, binary, unknown format and missing file are told apart, in the cache too |
| `Chunkers.HashifiedByName` | client/src/chunker.rs:32-43 | what `hashify` answers in terms of the name: 10-digit hashes of the lines, or 32-digit hashes of the blocks, as the extension says; an error if the file is missing or the extension is no listed one |
| `Chunkers.HashifiedWithoutExtension` | client/src/chunker.rs:32-43 | the same for a name without an extension |
| `Chunkers.Chunker.Save` | client/src/chunker.rs:115-145 | the file becomes the chunks end to end; a missing chunk is an error that leaves the rest of the disk alone |
| `Chunkers.Chunker.Delete` | client/src/chunker.rs:147-182 | the upward walk removes the file and the folders this empties, as specified, and ends |
| `Chunkers.InMemoryCache.Get` | client/src/chunker.rs:222-231 | the empty id is always found and is no bytes; any other is found if and only if it was set |
| `Indexers.ScanIsWalk` | client/src/indexer.rs:117-143 | the indexer sees an entry if and only if a walk from the root comes upon it that goes into no folder with a leading dot, the root aside, and its format is known; what it notes is the size and the time to the second |
| `Indexers.DotfilesSeen` | client/src/indexer.rs:363-373 | the three dotfiles are seen wherever no folder above them is hidden |
| `Indexers.CompareRecords` | client/src/indexer.rs:160-193 | the two loops find a tombstone for each recorded path the disk lacks and a row for each path that differs, each path once |
| `Indexers.IndexConverges` | client/src/indexer.rs:80-107 | after a pass registry and disk agree; only paths that differed got a row, which awaits a jid; nothing is recorded if and only if nothing differed |
| `Indexers.IndexLeavesOthers` | client/src/indexer.rs:80-107 | a pass leaves the view of every other namespace alone |
| `Indexers.EditSeen` | client/src/indexer.rs:219-233 | an edit goes unseen if and only if it keeps the size and the second |
| `Indexers.EditMissed` | client/src/indexer.rs:219-233 | an edit of one byte within the second leaves nothing to upload |
| `Indexers.RecordsFromRegistry` | client/src/indexer.rs:145-158 | the loop over the query's rows gives the registry's live view |
| `Indexers.RecordsFromDisk` | client/src/indexer.rs:126-143 | the walk, in any order, yields exactly the entries it comes upon whose format is known, and ends |
| `Indexers.CheckIndexOnce` | client/src/indexer.rs:80-107 | registry and disk agree afterwards; the answer is false, and the registry the same, if and only if they agreed before |
| `Indexers.PendingRows` | client/src/indexer.rs:160-193 | after a pass a path has a row to upload if and only if registry and disk differed there or its newest row had no jid; the row is a tombstone if and only if the disk lacks the path |
| `Multipart.FindMeaning` | client/src/remote.rs:393-402 | the search finds the first occurrence |
| `Multipart.ExtractExtended` | client/src/remote.rs:353-366 | more bytes at the end of the buffer do not change a part that was complete |
| `Multipart.DrainExtended` | client/src/remote.rs:331-342 | emptying the buffer now and again when more has come takes out what emptying it once at the end does |
| `Multipart.DownloadBatch` | client/src/remote.rs:326-342 | however the network cuts a body, of whatever bytes, the buffer loop yields what parsing the whole at once yields, and ends |
| `Headers.ValidUtf8Exact` | client/src/remote.rs:370-372 | the header block is accepted if and only if it is the UTF-8 form of some sequence of Unicode scalar values |
| `Headers.TrimExact` | client/src/remote.rs:381 | trimming takes Unicode white space off both ends, and nothing else |
| `Headers.HeaderIdRead` | client/src/remote.rs:373-382 | whatever other lines there are, the id is what stands on the first line with `X-Chunk-ID:`, trimmed |
| `Headers.HeaderIdCut` | client/src/remote.rs:376 | up to a second colon and blank on that line, if there is one |
| `Headers.NoIdRead` | client/src/remote.rs:373-380 | without such a line there is no id |
| `Framing.IntoResponse` | server/src/chunks/response.rs:38-63 | the pieces sent concatenate to the framed body, however the files are read; a missing chunk ends the stream before its section |
| `Framing.ServedExact` | server/src/chunks/response.rs:38-63 | what is served are the chunks up to the first that is missing, in order |
| `Framing.NoStrayDelimiter` | server/src/chunks/response.rs:46-55 | between two delimiters of a body nothing looks like a delimiter |
| `Framing.FramingRoundTrip` | client/src/remote.rs:326-390 | the client's reader takes out of a body exactly the chunks the server put in, ids and bytes, in order |
| `Framing.FramingExact` | client/src/remote.rs:326-390 | with ids a header line can carry, a body is read back if and only if no content holds the delimiter |
| `Framing.StrayExact` | client/src/remote.rs:353-390 | if a content holds the delimiter, all before it is read, and of it what precedes the delimiter, less two bytes; with fewer than two the reader panics |
| `Framing.BodyPanics` | client/src/remote.rs:385 | the same for a body as it is sent: a chunk that begins with the delimiter makes its reader panic |
| `Framing.BodyReads` | server/src/chunks/response.rs:43-60 | the round trip for a body as it is sent, first and last line break included |
| `CappedStreams.CappedDataStream` | server/src/chunks/mod.rs:75-104 | whatever the frames, the output is the first `limit` bytes, the difference never underflows, and an error passes only if it comes before the limit |
| `Batches.BatchBodyLength` | client/src/remote.rs:109-142 | how long a batch's body is: 149 bytes a part besides its name and content, and 66 at the end |
| `Batches.ConfirmedExact` | server/src/chunks/mod.rs:161-194 | a request not cut on its way succeeds unless its body is over 5,242,880 bytes and that offset lies inside a part, after its header and before the delimiter that ends it |
| `Batches.CapExact` | server/src/chunks/mod.rs:161-194 | on a network that cuts nothing a batch arrives with all its parts if and only if its body up to the last delimiter is within 5 MiB |
| `Batches.EarlierExact` | server/src/chunks/mod.rs:161-194 | where the network and the cap would both cut, the earlier cut decides what arrives and which chunk is lost |
| `Batches.LostFails` | client/src/remote.rs:138-145 | if a body breaks off on its way, wherever, the sending fails |
| `Batches.ReliableExact` | client/src/syncer.rs:242-246 | on a network that cuts nothing the requests succeed if and only if for no batch over the cap the cap falls inside a part, whether or not all arrives |
| `Batches.SendKeeps` | client/src/syncer.rs:242-246 | whatever becomes of the requests, chunks the store had stay and nothing unsent gets in |
| `Batches.SendExact` | client/src/syncer.rs:242-246 | new chunks, however often each is sent, over any network: all requests succeed and all chunks arrive if and only if no request is lost or cut inside a chunk, and each chunk comes before the cut in one of the batches that hold it |
| `Batches.SentOnceGets` | server/src/chunks/mod.rs:161-194 | if no chunk is sent twice and the network cuts nothing, that takes every batch to be within the cap |
| `Upload.PushHolds` | client/src/syncer.rs:226-237 | pushing a chunk loses and reorders none; every batch but the last is over the limit, and within it without its last chunk |
| `Upload.FilledHolds` | client/src/syncer.rs:198-237 | so the queue flattens to exactly the chunks pushed, in order |
| `Upload.RefusalAsks` | client/src/syncer.rs:222-229 | what a refusal asks for is exactly what the offer names and the store lacks, and all of it is in the cache |
| `Upload.OneUploaded` | client/src/syncer.rs:203-239 | one turn of the loop: an accepted row bears the id of the path's newest journal record, a refused one is untouched and all its missing chunks are wanted; nothing else moves |
| `Upload.PassOnCourse` | client/src/syncer.rs:203-239 | the same for every row of a pass, at every step of it |
| `Upload.PassDone` | client/src/syncer.rs:203-239 | what a whole pass comes to: each row it could offer has met its fate, up to the first it could not, and nothing else in either table moved |
| `Convergence.SecondPassAccepted` | client/src/lib.rs:150-164 | what a second pass finds was refused by the first, and is accepted if the store has got what was wanted |
| `Convergence.TwoPassesSettle` | client/src/lib.rs:150-164 | after two passes nothing awaits a jid if and only if all the first one wanted was in the store by the second |
| `Convergence.TwoPassesPublish` | client/src/lib.rs:150-164 | every row that awaited a jid is then the journal's newest record of its path, with the file's ids |
| `Convergence.StoppedForGood` | client/src/syncer.rs:203-215 | a row that stops a pass stops every later one, as long as its file stays as it is |
| `Upload.PassKeepsLive` | client/src/syncer.rs:218-221 | an upload leaves the indexer's view of the registry alone |
| `Upload.PassKeepsFiled` | client/src/syncer.rs:203-239 | a pass keeps the cache content-addressed, and so is what it sends |
| `Syncer.UploadBatches` | client/src/syncer.rs:242-246 | the requests go out in order until one fails, and leave the store that the batches, the network and the cap determine; if a body breaks off on its way the client has an error |
| `Syncer.Client.QueueChunks` | client/src/syncer.rs:227-238 | the inner loop reads every id back from the cache and queues it, or fails if and only if one is missing |
| `Syncer.Client.OfferOne` | client/src/syncer.rs:203-239 | one turn of the loop is the specified one; it fails if and only if the row cannot be hashed or its form is over the limit, never for a chunk missing from the cache |
| `Syncer.Client.OfferAll` | client/src/syncer.rs:203-239 | the loop over the rows is the specified pass, queue included, and stops at the first row that cannot be offered |
| `Syncer.Client.CheckUploadOnce` | client/src/syncer.rs:187-249 | a pass does what the specification says up to the first row that cannot be offered; only if there is none the chunks go out, and otherwise it fails and the store stays; it succeeds exactly when no request fails, fails when a body breaks off on its way, and answers whether all was accepted; the server stays valid whatever the network does |
| `UploadRuns.BlockedExact` | client/src/lib.rs:148-164 | all pending rows can be offered if and only if no folder named like a file waits among them, and no file whose form is over the limit |
| `UploadRuns.RunConverges` | client/src/lib.rs:150-164 | once what was wanted is in the store, the journal's newest record of every pending path says what the disk says, every other path keeps its record, and nothing awaits a jid |
| `UploadRuns.TwiceSettles` | client/src/lib.rs:150-164 | two calls leave nothing awaiting a jid if and only if every row can be offered and the first call's batches get through, in the sense of `SendExact` |
| `UploadRuns.ThroughExact` | client/src/syncer.rs:242-246 | that is when no request of the first call fails and the server then has every chunk it was asked to take |
| `UploadRuns.TwiceAnswered` | client/src/lib.rs:148-166 | two calls succeed if and only if every row can be offered and every request they make is answered with success, whether or not rows still wait |
| `UploadRuns.ReliableThrough` | client/src/syncer.rs:242-246 | they do get through on a network that cuts nothing, if every batch is within the server's cap |
| `UploadRuns.UploadTwice` | client/src/lib.rs:150-164 | the two calls come to exactly the specified outcome, whatever the network does; the indexer's view of the registry stays |
| `UploadRuns.RunUploadOnce` | client/src/lib.rs:131-167 | the run succeeds if and only if nothing blocks the way and every request it makes is answered with success; it settles everything, and has then converged, if and only if nothing blocks the way and the first pass's batches get through; if something blocks the way the store stays; on a network that cuts nothing, with batches within the cap, it succeeds if and only if nothing blocks the way; in any case registry and disk agree, no record's chunk is missing, and chunks the server had whole stay whole |
| `Limits.TextFits` | server/src/metadata/mod.rs:182 | a text file's commit is within the limit if and only if 13 bytes a line and its path fit into what the form leaves for them |
| `Limits.LongFileBlocks` | client/src/remote.rs:261-287 | a file of 80,658 empty lines stops every upload run |
| `Limits.FolderBlocks` | client/src/indexer.rs:117-143 | so does a folder with the name of a recipe |
| `Limits.CommittedNotFetched` | client/src/remote.rs:297-304 | a file of 38,837 to 80,000 empty lines is accepted by a server that has the chunk of an empty line, and a client that has none of it can never fetch it |
| `Limits.ManyLinesOverCap` | client/src/syncer.rs:225-237 | 29,290 to 150,000 distinct new lines of twenty bytes are one batch, and do not all get through on a network that cuts nothing |
| `Limits.EqualLinesGet` | server/src/chunks/mod.rs:161-194 | as many equal ones are one batch too, cut after 29,289 parts, and do get through |
| `Limits.EqualLinesLost` | server/src/chunks/mod.rs:180-190 | from 32,768 equal one-byte lines on the cut falls inside one of them: the request fails, and the store is as if nothing had been sent |
| `Limits.EmptyLinesNeverSent` | client/src/lib.rs:148-164 | so a client with such a file, which its commit form has room for up to 80,000 lines and more, fails in every run and leaves store, journal and registry as they were |
| `Limits.ModestBatchesFit` | client/src/syncer.rs:225-237 | batches of at most 6,500 chunks of at most 1 MiB are within the cap |
| `Download.TreeLands` | client/src/syncer.rs:303-331 | one record changes its own path only, and new folders lie above it |
| `Download.CanLandExact` | client/src/syncer.rs:313-331 | a record lands if and only if no folder has its path and, when there is a file to write, no file lies above it |
| `Download.TombstoneOfNothing` | client/src/syncer.rs:317-319 | so does the tombstone of a path that never was on the disk |
| `Download.LandsExact` | client/src/syncer.rs:303-332 | on a disk without empty folders a listing lands if and only if for each record, given the files that those before it leave, none is below its path, nor above it if it is live |
| `Download.RoomyLands` | client/src/syncer.rs:303-332 | on any disk it lands, in whatever order, if no listed path is a folder, no file lies above a live one, and no listed path lies above a live one |
| `Download.OldKnownExact` | client/src/syncer.rs:270-279 | the old files can be hashed if and only if no live path is a folder, and those that are files have a known format |
| `Download.PassMaterialises` | client/src/syncer.rs:303-332 | after a completed pass each listed live path holds exactly the listed chunks, each tombstone's path no file, the registry says so under the record's id, and every other path is untouched |
| `Download.LandingReaches` | client/src/syncer.rs:303-332 | the same after every record of the pass, with one registry row a record, in order |
| `Downloader.CollectNeeded` | client/src/syncer.rs:270-293 | after the warm-up cache and queue are as specified: each chunk a live record names is in the cache or queued, nothing is queued that was in the cache; it fails if and only if an old file cannot be hashed |
| `Downloader.AskedExact` | client/src/syncer.rs:277-288 | a pass asks for a chunk if and only if some listed live file names it, it is not in the cache, and it is in the old file neither of that path nor of a live path listed before |
| `Downloader.NothingAsked` | client/src/syncer.rs:277-288 | files whose new chunks are all in the cache or in their old file cost no download |
| `Downloader.UnchangedNotAsked` | client/src/syncer.rs:277-288 | nor does a file that already has the recorded content, whatever the cache has |
| `Downloader.ServedFramable` | server/src/chunks/response.rs:43-60 | chunks that lie under their hash always fit the framing, whatever else the store holds |
| `Downloader.FetchChunks` | client/src/syncer.rs:295-311 | the batch download, through form, printer, network and reader, puts exactly the server's chunks into the cache; whatever the chunks hold, it puts there what the reader takes out of the body, and fails exactly at a fault of the reader; with a form over the limit it fails and the cache stays |
| `Downloader.LandRecord` | client/src/syncer.rs:308-331 | one turn of the last loop lands the record, or fails if and only if the disk is in the way, as `CanLandExact` says, or a chunk is missing |
| `Downloader.SaveChunks` | client/src/syncer.rs:300-310 | the loop files each chunk that arrives under its id |
| `Downloader.LandAll` | client/src/syncer.rs:303-332 | the last loop lands every record, or stops at the first that cannot land and leaves the rest alone |
| `Downloader.CheckDownloadOnce` | client/src/syncer.rs:251-335 | if what the listed files name is whole, a pass succeeds if the form that asks for the chunks is within the limit, old files have known formats and nothing on the disk or in the listing is in the way; on a disk without empty folders exactly if there is room for each record; then registry and disk are as if every listed record had been applied from the server's own store; otherwise it stops at the first path without room, or before anything has landed; a chunk is never missing; no cached chunk that was whole is spoilt |
| `Watermarks.SoundIsExact` | client/src/registry.rs:76-90 | the soundness of the watermark says exactly that a path whose newest record is not above it has that record's id as its highest jid |
| `Watermarks.PeersKeepSound` | client/src/syncer.rs:262-263 | others committing keeps it sound |
| `Watermarks.PassKeepsSound` | client/src/syncer.rs:251-335 | a completed pass keeps it sound and leaves nothing unlisted |
| `Watermarks.PartialPassExact` | server/src/metadata/db.rs:114-118 | a pass that stops after some records keeps it sound if and only if all that have landed are older than all that have not |
| `Watermarks.PartialPassMaySkip` | client/src/syncer.rs:308-332 | a pass that is given the newer record first, and cannot land the older one, does skip it |
| `Watermarks.OwnCommitExact` | client/src/syncer.rs:218-221 | an own upload keeps it sound if and only if no record of another path, above the watermark, is older than the upload's |
| `Watermarks.UploadPassKeepsSound` | client/src/syncer.rs:203-221 | a whole upload pass begun caught up, with no peer in between, keeps it sound and caught up |
| `Watermarks.SkippedForever` | client/src/syncer.rs:262-263 | a record skipped once is in no later listing, until its path gets another |
| `Watermarks.UploadMaySkip` | client/src/syncer.rs:218-221 | a client that uploads before it has listed a peer's record does skip it |
| `Replicas.DownloadKeepsInSync` | client/src/syncer.rs:337-366 | a completed pass keeps registry and disk in sync if and only if every live path it was given has a known format, lies in no hidden folder and in no folder named like a file |
| `Replicas.DownloadLooksLikeEdit` | client/src/indexer.rs:117-143 | a client in sync is given a file below a folder named like a recipe, which any client with such a disk records; its next indexer pass takes the folder for a new file to upload, which it is not |
| `Replicas.PendingSurvives` | client/src/syncer.rs:303-332 | local changes that wait to be uploaded still wait after a completed pass if and only if the pass did not list their path |
| `Replicas.EditOverwritten` | client/src/syncer.rs:315-322 | a new file that has not been uploaded is gone when a peer has recorded an empty one of its name |
| `Replicas.ReplicaRuns` | client/src/lib.rs:207-229 | over any interleaving of others' commits and uploads that leave recorded chunks whole, completed passes, passes that the disk stops with only the oldest records landed, indexer passes and edits of other files, the disk of a client that only downloads has the user's files up to the watermark at every moment, and all of them after each completed pass, which leaves all other files alone |
| `Replicas.ReplicaMissesNothing` | client/src/syncer.rs:251-335 | over any interleaving of others' commits, completed passes, passes broken off anywhere, indexer passes, any edits, own commits row by row, and whole upload passes begun caught up: at every moment each path whose newest record the watermark has reached has just that id as its highest jid, if and only if each broken-off pass has noted older records than it has left, and no own commit passes over a record of another path |
| `Replicas.NewReplica` | client/src/lib.rs:97-126 | a client with an empty registry begins so, whatever lies on its disk and in the journal |
| `Worlds.OneMove` | server/src/metadata/mod.rs:65-120 | each hash, upload step, commit step or download keeps all stores content-addressed if and only if it does not fetch a half-written chunk, keeps every record's chunks present, those of commits under way included, if and only if it is not an upload breaking off inside one of them, and keeps the journal free of repeats if and only if it does not insert one |
| `Worlds.WorldRuns` | server/src/metadata/mod.rs:65-120 | the same at every moment of any run of any number of clients and commits |
| `Worlds.OpenRuns` | server/src/chunks/mod.rs:164-194 | in terms of what has happened: caches and store stay content-addressed if and only if no download is answered with a chunk that an upload has begun and neither finished nor broken off |
| `Worlds.StoredExact` | server/src/chunks/mod.rs:176-193 | what the theorems about downloads ask of the store holds if and only if no recorded file's chunk is being written anew |
| `Worlds.UploadIsMoves` | server/src/chunks/mod.rs:164-194 | an upload request that nothing comes in between of is a run of such steps, wherever it is cut |
| `Worlds.TornFetch` | server/src/chunks/mod.rs:178-193 | a commit can be accepted, and a client can fetch and keep, a chunk of which nothing has been written yet |
| `Worlds.CarelessUpload` | server/src/chunks/mod.rs:180-190 | such an upload does take a recorded chunk away |
| `Worlds.FileArrives` | client/src/chunker.rs:115-145 | a disk that holds what the writer's record says, from any store that has its chunks under their hashes, holds the writer's very file, or none where the writer has none |
| `Worlds.DownloadedHolds` | client/src/syncer.rs:268-332 | after a pass that succeeds a path of the journal is on the disk as its newest record says, if it was so before or its record is new |
| `Worlds.WriterToReader` | client/src/chunker.rs:71-145 | from a writer's disk over commit, list and a pass that succeeds to a reader's disk every pending file arrives byte for byte, the empty one too, and every deleted file goes, whatever else lies on the reader's disk and whichever other chunks are half-written |

## Left out

- HTTP, authentication and entitlements, the long poll and its notifications, the file watcher, status listeners, cancellation, connection pools and migrations: no property of their own here.
- The loops that run passes for ever (`download_loop`, `upload_loop`, the indexer's `run`) and their timing: the passes are modelled, and runs as sequences of them.
- SHA-256, quick_cache's eviction and the weights it uses: replaced by the assumptions above.
- The byte format of an uploaded batch, whose parser is a library that is not part of this model: a batch is the list of its parts, and `BodyEnd` says where it is cut short. The batch's length in bytes is modelled, and so is where the cap cuts it.
- The layout of chunk files in the upload directory: a chunk is a map entry.
- Symbolic links, a storage root whose own name has a known extension, and paths with empty or `..` names: paths are lists of names below the root.
- Journal and registry ids are unbounded numbers, each one more than the largest: 32-bit overflow and the gaps of PostgreSQL sequences are not modelled.
- Input and output errors other than a missing file and a folder or file in the way, and answers that are lost once a request has arrived whole: a pass then ends early, and what it has committed so far is committed (`Servers.CommitIdempotent` says that doing it again is harmless).
- File sizes and times are unbounded; a file keeps the time it was written, and concurrent local edits during a pass are not modelled.
- `CreateForm` and `DeleteForm` have the same fields and are one type, `Form`.
- Chunkers.Chunker.Save: how much of a file is on the disk when a chunk turns out to be missing is left open, because it depends on the writer's buffer.
- Linearization.ConcurrentCommitsLinearize: answers are matched up to the id of a success, because a serial server may have found the record that an interleaved one inserts.
- Linearization.ConcurrentCommitsLinearize: a run in which an upload breaks off inside a chunk that a commit under way has found is not claimed to have a serial order.
- Replicas.ReplicaMissesNothing: a whole upload pass is one step only of a client that is caught up; any other is a row of own commits, with other steps in between as they come.
- Replicas.ReplicaRuns: edits of files that the client has downloaded, own uploads, and passes that break off with newer records landed than left are steps of `Replicas.ReplicaMissesNothing` only.
- Worlds.WriterToReader: says nothing of a path that someone else records between the writer's run and the reader's pass.
- Worlds.OneMove: two uploads of one chunk at the same time are steps that alternate; what both write into one file is not modelled byte by byte.
