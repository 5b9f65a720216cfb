# tgdcfs: a model of the byte pipelines and their protocols

tgdcfs keeps files as messages in chat channels. Between a client and a channel a file passes an
encryption layer, a disk cache, block caches, uploaders that work in parallel, and mirrors in other
channels. This project models those parts in Dafny and proves that each of them does, under every
interleaving and every failure the code allows for, what its simple description says: the reader
gets exactly the slice asked for, the budget is never exceeded, every mirror holds the same bytes.

Concurrent code is modelled as a state machine whose steps are the stretches of code between two
awaits; a run is any sequence of enabled steps, so a theorem about runs is about every schedule.
Code that updates an object in place is a class, and its methods are proved to be steps of the
machine (`CacheObject`, `MultiSourceObject`, `Tee`, `Uploader`, `PrefetchingChain`, `Broker`, `StatEpochs`) or
against a specification of their own. Everything outside the process (stores, disks, clocks,
other tasks, the chunks a stream arrives in) is an argument, quantified over.

| files | component |
|---|---|
| `Cipher`, `Header`, `EncryptedStream`, `UploadParts`, `DecryptingRepository`, `Authenticity` | encryption: chunk cipher, file header, encrypting upload, the upload of its parts, range translation and decrypting stream, what a read vouches for |
| `CacheBlocks`, `CacheEviction`, `CacheMachine`, `CacheBudget`, `CacheContents`, `CacheObject`, `CacheRecovery`, `CacheProgress` | the local cache: block arithmetic, LRU eviction, the step machine, its budget, its agreement with the versions, the object whose methods are its steps, crash and reload, what stagings and fills leave behind |
| `RangeMap`, `Failover`, `MultiSource`, `MultiSourceSafety`, `MultiSourceProgress`, `MultiSourceObject` | reading a version: byte ranges onto parts, failover between layouts, the multi-source scheduler |
| `PrefetchingChain`, `ChunkCache`, `BlockDownload` | downloads: the prefetching chain, the block cache, the block-cached download |
| `Tee`, `TeeUpload`, `Uploader`, `UploaderFailures`, `DiscordUpload`, `CachedUpload`, `Mirror` | uploads and replication |
| `Broker` | batching of message lookups |
| `SftpHandles` | random access over streams and spools |
| `DirectoryTree`, `FileRefs`, `Directory` | the directory tree, as a value and as objects |
| `StatEpochs` | listing stats |
| `Arith`, `Bytes`, `Sums`, `Tiling` | products and quotients, byte strings, sums, cutting into parts |

## What turned out not to hold

Each of these is a lemma or method with a concrete run or input, beside the exact condition under
which the promise does hold.

- An encrypted upload over a buffer, opened once per part, seals the buffer from its first byte again
  in a later part. It is right for every plaintext of its size if and only if no part is opened in
  the middle of the plaintext (`UploadParts.ReopenIff`), that is, in the parts the Telegram store
  cuts, if and only if the last chunk has been begun within the first part (`PartitionSafeIff`). With
  the store's part size and the default chunk size that fails for every size above 31987 chunks,
  2 096 300 032 bytes (`RewindRepeats`).
- A block-cached download does not notice a backend stream that ends early: it goes on with the next
  run and ends normally (`BlockDownload.EndsShort`). The output is the range asked for if and only if
  every run got enough bytes (`CachedDownload`).
- A multi-source read can wait forever: a piece sent back for the one store left is stranded when
  other pieces bench that store (`MultiSourceProgress.StrandedPiece`, `BlockedIff`).
- A read that fails over between layouts can fail with every byte delivered, exactly when a layout
  fails after the last one (`Failover.FailsWithEverything`, `StreamLayouts`).
- The part uploader saves a part under the wrong index when a read of the source fails: another
  worker reads on before the failure arrives (`UploaderFailures.FailedReadMisplaces`). It does not if and
  only if the failed read left the source where the next part begins
  (`UploaderFailures.FailedReadSafeIff`). The upload as a whole then raises.
- A Discord upload cancelled again while it cleans up never returns the slots of tasks that had not
  run (`DiscordUpload.SecondCancelLeaks`, `SlotsConserved`).
- A broker whose collector task is cancelled before its first step never answers again
  (`Broker.CollectorLost`, `LostIff`).
- A move of a file during a write leaves a stale listing stat that nothing drops
  (`StatEpochs.UnsafeMoveGoesStale`, `SafeMoveIff`).
- An SFTP read after the download stream raised reports the end of the file where it broke
  (`SftpHandles.ShortAfterError`, `ReadHandle.Read`); an empty write beyond the end makes the
  announced size wrong (`SftpHandles.EmptyWriteAnnounced`, `AnnouncedIff`).
- A ref inserted in front of another of its name is behind it in the index
  (`FileRefs.InsertedInFront`, `FileRefList.Insert`). Removing a ref takes the first equal one out of
  the list but the ref itself out of the index (`FileRefs.RemovedTwin`, `FileRefList.Remove`).
- A mirror of the source's own backend is taken to hold every part as it is; a part above its limit
  cannot be uploaded again, so without a copy by the server it gets none (`Mirror.SucceedsIff`).
- Chunk sizes above 16 MiB are written and then refused by the parser
  (`Header.OversizedChunkIsWrittenButRefused`); a staging of zero bytes stays marked as being
  written (`CacheRecovery.EmptyStagingStaysWriting`); `_partition` of zero bytes is one full part
  (`CachedUpload.PartitionIff`).

## Model

| member | source | states |
|---|---|---|
| `Cipher.DecryptIffEncrypt` | tgdcfs/crypto/cipher.py:85-123 | decryption accepts exactly the blobs encryption produces at that index, and gives the plaintext back |
| `Cipher.NonceInjective` | tgdcfs/crypto/cipher.py:85-96 | two chunk indexes never share a nonce |
| `Cipher.ReorderedChunkRejected` | tgdcfs/crypto/cipher.py:98-118 | a chunk moved to another position is refused, whatever it holds |
| `Cipher.EncryptFromLength` | tgdcfs/crypto/cipher.py:126-139 | the declared ciphertext size is the number of bytes the sealed chunks occupy |
| `Cipher.EncryptFromConcat` | tgdcfs/crypto/cipher.py:149-157 | whole chunks occupy whole strides, so a chunk begins at its computed ciphertext offset |
| `Cipher.SomeSuiteIsLawful` | tgdcfs/crypto/cipher.py:85-123 | the laws assumed of the primitives can be met |
| `Header.ParseSerialize` | tgdcfs/crypto/header.py:104-155 | writing and parsing a header gives it back if and only if the parser accepts its fields |
| `Header.OversizedChunkIsWrittenButRefused` | tgdcfs/crypto/header.py:146-148 | 17 MiB chunks: a header that is written and then refused |
| `Header.VerifiedIffSerialized` | tgdcfs/crypto/header.py:122-170 | bytes that parse and verify are exactly the serialization of what was parsed |
| `EncryptedStream.EncryptingFileMessage.Wrap` | tgdcfs/crypto/stream.py:57-97 | the declared upload size is what the message will emit when the source delivers what it declared |
| `EncryptedStream.PlainSource.Open` | tgdcfs/reqres.py:295-296 | a buffer starts again from its first byte, other messages stay where they are |
| `EncryptedStream.EncryptingFileMessage.Open` | tgdcfs/crypto/stream.py:106-112 | the header comes once; what is still to be emitted is unchanged unless the wrapped message rewinds, and then goes on with its first byte |
| `EncryptedStream.EncryptingFileMessage.ReadPlaintextChunk` | tgdcfs/crypto/stream.py:146-168 | the next crypto-chunk, whole unless the plaintext ends in it, over short inner reads |
| `EncryptedStream.EncryptingFileMessage.Read` | tgdcfs/crypto/stream.py:117-144 | each read continues the encrypted file exactly where the last stopped and is short only at its end |
| `UploadParts.DrawnPosition` | tgdcfs/crypto/stream.py:125-144 | the bytes emitted tell how much plaintext has been sealed: a chunk is sealed only when a byte of it is asked for |
| `UploadParts.Drain` | tgdcfs/backends/telegram/store.py:470-484 | any schedule of parts and read lengths emits one and the same file over a message that does not rewind, and over one that does the encryption of the plaintext started again at every part |
| `UploadParts.ReopenIff` | tgdcfs/reqres.py:274-301 | over a message that rewinds the upload is right for every plaintext of its size if and only if no part is opened in its middle |
| `UploadParts.SafeUpload` | tgdcfs/backends/telegram/uploader.py:154-155 | a safe schedule seals the plaintext as it is |
| `UploadParts.PartitionSafeIff` | tgdcfs/backends/telegram/store.py:366-371 | in the parts the store cuts, however each is read, the upload is safe if and only if the last chunk has been begun within the first part |
| `UploadParts.RewindRepeats` | tgdcfs/backends/telegram/store.py:415-424 | at the store's part size and the default chunk size every upload of more than 31987 chunks from a buffer spoils some plaintext of its size |
| `DecryptingRepository.PlaintextSizeInverts` | tgdcfs/crypto/repository.py:358-376 | the size translation inverts the declared upload size for every plaintext size |
| `DecryptingRepository.StoredSizeIffTail` | tgdcfs/crypto/repository.py:364-376 | exactly which stored sizes belong to some encrypted file, and which the translation accepts |
| `DecryptingRepository.DecryptingStream` | tgdcfs/crypto/repository.py:379-456 | however the ciphertext arrives in pieces, the stream yields what decrypting it at once would and fails exactly when that does, after the same bytes |
| `DecryptingRepository.DecryptFull` | tgdcfs/crypto/repository.py:434-447 | the inner loop over full chunks keeps the outcome of the whole unchanged |
| `DecryptingRepository.DecryptAllOfEncrypted` | tgdcfs/crypto/repository.py:411-425 | decrypting a window of sealed chunks gives the requested part of the window |
| `DecryptingRepository.ReadOfStored` | tgdcfs/crypto/repository.py:216-278 | for every plaintext, chunk size, begin and end, reading through the range translation gives exactly the requested plaintext range |
| `DecryptingRepository.LegacyIffNoMagic` | tgdcfs/crypto/repository.py:312-343 | a file is passed through unchanged exactly when it does not begin with the magic |
| `DecryptingRepository.HeaderCache.Put` | tgdcfs/crypto/repository.py:85-92 | the header cache stays within its capacity, keeps present entries and evicts the oldest |
| `DecryptingRepository.EncryptingRepository.DetectVersion` | tgdcfs/crypto/repository.py:293-355 | detection answers what the stored bytes say, cached or not, and remembers the answer exactly when it is not an error |
| `DecryptingRepository.EncryptingRepository.Get` | tgdcfs/crypto/repository.py:183-278 | a read streams exactly what the direct description of the range read says, whatever was read before |
| `DecryptingRepository.UploadThenGet` | tgdcfs/crypto/repository.py:119-139 | end to end: upload by any schedule of parts, download any range, get exactly that range of what was sealed, which is the plaintext unless the source rewinds and a part is opened in its middle |
| `Authenticity.Opened` | tgdcfs/crypto/repository.py:418-456 | for any ciphertext at all the stream yields the stretch asked for of the chunks sealed, at their own indexes, at its front; it ends well only when everything is accounted for or found, and fails only at a blob that is no sealing of anything at its place, after the bytes before it |
| `Authenticity.ReadChunksIff` | tgdcfs/crypto/repository.py:229-278 | a range is read if and only if every chunk it touches was sealed at its place, and the answer is then exactly the bytes asked for of what was sealed |
| `Authenticity.DetectedIff` | tgdcfs/crypto/repository.py:331-355 | a file is taken for an encrypted one if and only if it begins with a header of this key, byte for byte |
| `Authenticity.ReadIsAuthentic` | tgdcfs/crypto/repository.py:183-278 | whatever has become of the stored bytes, an encrypted read that succeeds has an authentic header, authentic chunks and no byte missing |
| `CacheBlocks.CompleteWeighsSize` | tgdcfs/core/local_cache.py:142-151 | the block lengths of a complete entry add up to the size |
| `CacheBlocks.HasRangeIffBytes` | tgdcfs/core/local_cache.py:156-162 | a range is present if and only if every byte of it lies in a present block |
| `CacheBlocks.MissingRuns` | tgdcfs/core/local_cache.py:164-190 | the runs are whole blocks, in order, apart, and cover exactly the absent bytes of the touched blocks |
| `CacheEviction.LocalCache.UsedBytes` | tgdcfs/core/local_cache.py:570-571 | the loop computes the order-independent sum of all charges |
| `CacheEviction.LocalCache.LruOrder` | tgdcfs/core/local_cache.py:617-626 | exactly the entries that are neither pinned, nor being written, nor being filled, nor the kept one, the oldest last |
| `CacheEviction.LocalCache.MakeRoom` | tgdcfs/core/local_cache.py:647-701 | no entry pinned, being written, being filled or kept is touched; evicts oldest first, stops at the first fit, succeeds if and only if those entries leave room under both limits |
| `CacheMachine.EntriesInUseStay` | tgdcfs/core/local_cache.py:134-136 | admitting or filling an entry never costs one in use |
| `CacheRecovery.PinnedStays` | tgdcfs/core/local_cache.py:956-975 | over every run a pinned entry stays, with its pins, until some step names it |
| `CacheRecovery.PinsAreSet` | tgdcfs/core/local_cache.py:956-967 | a pin or an access is recorded on the entry named and nowhere else |
| `CacheObject.VersionCache.OpenStaging` | tgdcfs/core/local_cache.py:763-796 | whatever happens is one step of the machine; a writer is opened if and only if the cache is on, the size is allowed, room can be made around what may not go, and the disk takes the files |
| `CacheObject.VersionCache.Reserve` | tgdcfs/core/local_cache.py:890-922 | the same for an entry that is charged block by block |
| `CacheObject.VersionCache.ClaimBlocks` | tgdcfs/core/local_cache.py:833-861 | one step; the room for the missing blocks is claimed if and only if the stretch completes blocks of a readable entry and room can be made for them, never at the expense of that entry |
| `CacheObject.AddedBytes` | tgdcfs/core/local_cache.py:856-856 | the sum over the blocks is the weight of those that are missing |
| `CacheObject.VersionCache.BlocksWritten` | tgdcfs/core/local_cache.py:874-876 | landing a fill is the machine's step: the claim turns into present blocks if the entry is still the same |
| `CacheObject.VersionCache.BlocksFailed` | tgdcfs/core/local_cache.py:866-873 | a failed write is the machine's step: whatever entry has that id is dropped |
| `CacheBudget.LandCharge` | tgdcfs/core/local_cache.py:853-876 | a claim that turns into present blocks never charges more |
| `CacheBudget.ResumeCharge` | tgdcfs/core/local_cache.py:246-269 | a staged entry that stops being charged whole never charges more |
| `CacheBudget.StepKeepsBudget` | tgdcfs/core/local_cache.py:763-796 | every step keeps the ledger of charges and claims and both limits |
| `CacheBudget.RunKeepsBudget` | tgdcfs/core/local_cache.py:833-922 | byte budget and file limit hold over every interleaving of stagings, fills, failures, removals, pins and sweeps |
| `CacheContents.StepKeepsInv` | tgdcfs/core/local_cache.py:813-876 | every step keeps marked blocks equal to the version's bytes, in memory and on disk |
| `CacheContents.PrefixSafe` | tgdcfs/core/local_cache.py:798-831 | a stop between any two disk operations leaves a disk that can be trusted |
| `CacheContents.RunKeepsInv` | tgdcfs/core/local_cache.py:207-295 | the same over whole runs |
| `CacheContents.ReachableAgrees` | tgdcfs/core/local_cache.py:428-436 | in every state reached from an empty directory each present block holds exactly that version's bytes |
| `CacheRecovery.RunIsUndisturbed` | tgdcfs/core/local_cache.py:924-942 | a run in which an entry is not dropped keeps what was present of it |
| `CacheRecovery.ReadStream` | tgdcfs/core/local_cache.py:924-942 | a read during which the entry is not dropped returns exactly the requested slice, chunk by chunk, while the cache changes |
| `CacheRecovery.CloseIsExact` | tgdcfs/core/local_cache.py:283-295 | a close leaves everything as it is after a failure or a whole write, and otherwise drops exactly its entry and files |
| `CacheRecovery.ClosedIsKeptIffWhole` | tgdcfs/core/local_cache.py:283-295 | a staging that did not fail and is still the cached one is kept by its close if and only if all of it was written; what is kept is complete |
| `CacheRecovery.EmptyStagingStaysWriting` | tgdcfs/core/local_cache.py:287-290 | a staging of zero bytes stays marked as being written, and so never evicted, in every run that follows for as long as it is in the cache |
| `CacheRecovery.CrashKeepsFileCount` | tgdcfs/core/local_cache.py:798-811 | at every point of a step there are no more map files than `max_files` |
| `CacheRecovery.CrashThenLoad` | tgdcfs/core/local_cache.py:450-512 | a crash after any disk operation, then `load` from any index, gives a cache that agrees with the versions and is within budget |
| `CacheRecovery.CleanRestart` | tgdcfs/core/local_cache.py:450-512 | a restart brings back exactly the entries not being written, with the marks of their map files, their age, their pins and their files |
| `CacheRecovery.CrashSparesOthers` | tgdcfs/core/local_cache.py:480-512 | a crash during a step costs no entry but those the step drops |
| `CacheProgress.StagingIsKept` | tgdcfs/core/local_cache.py:233-295 | a version staged whole, in writes of any sizes, is complete, on disk byte for byte, and there again after a restart |
| `CacheProgress.FillIsKept` | tgdcfs/core/local_cache.py:833-876 | a fill that goes well leaves exactly the whole blocks of its stretch marked besides what was there, their bytes on disk, its claim given back |
| `CacheProgress.FailureDrops` | tgdcfs/core/local_cache.py:866-873 | a failed write drops exactly the entry of that id and its files |
| `CacheProgress.ChargedIsBytes` | tgdcfs/core/local_cache.py:142-151 | an entry is charged the number of its present bytes and claims, or its whole size while staged |
| `CacheProgress.BytesWithinBudget` | tgdcfs/core/local_cache.py:570-571 | over every run the bytes in present blocks of all entries together are within the budget |
| `RangeMap.MapRange` | tgdcfs/core/repository/impl/file_content/__init__.py:249-300 | the part ranges follow one another without gap from the first byte to the last one asked for; errors exactly for ranges that are not there |
| `RangeMap.CoveredBytes` | tgdcfs/core/repository/impl/file_content/__init__.py:293-300 | reading the mapped ranges in order reads exactly that stretch of the version, for every layout |
| `RangeMap.FullLengthIsExact` | tgdcfs/core/multisource.py:132-138 | answers that are prefixes and together long enough are exact: the length check suffices |
| `Failover.LayoutStream` | tgdcfs/core/repository/impl/file_content/__init__.py:404-418 | one layout over the prefetching chain delivers exactly the range, in every run of the chain |
| `Failover.StreamLayouts` | tgdcfs/core/repository/impl/file_content/__init__.py:536-556 | however layouts fail, the output is a prefix; a normal end has all of it; failure only when every layout was tried and failed; failure with every byte delivered exactly when a layout failed after the last one |
| `Failover.FailsWithEverything` | tgdcfs/core/repository/impl/file_content/__init__.py:276-279 | one byte, delivered, and the stream fails |
| `MultiSource.InsertSorts` | tgdcfs/core/multisource.py:184-185 | a piece sent back keeps the list sorted and everything in it |
| `MultiSourceSafety.StepKeepsInv` | tgdcfs/core/multisource.py:108-193 | every step of workers and consumer keeps the scheduler's invariant |
| `MultiSourceSafety.RunKeepsInv` | tgdcfs/core/multisource.py:140-220 | the same over whole runs |
| `MultiSourceSafety.OnePlace` | tgdcfs/core/multisource.py:96-100 | in every reachable state that has not failed each piece is in exactly one place, once |
| `MultiSourceSafety.OutputIsPrefix` | tgdcfs/core/multisource.py:197-220 | the output is always the first pieces of the range, in order, and at the end the range |
| `MultiSourceSafety.WindowBounds` | tgdcfs/core/multisource.py:108-117 | results plus pieces in flight never exceed the window |
| `MultiSourceSafety.FetchesAreBounded` | tgdcfs/core/multisource.py:160-189 | no store is asked twice for a piece, and at most pieces times stores fetches complete |
| `MultiSourceSafety.FatalOnlyWithoutStores` | tgdcfs/core/multisource.py:167-182 | the read fails only when every store has failed that piece or several fetches in a row |
| `MultiSourceSafety.LogIsTheReturns` | tgdcfs/core/multisource.py:160-193 | the log the statements speak of is what the stores answered |
| `MultiSourceSafety.ReturnDecides` | tgdcfs/core/multisource.py:160-193 | a delivered piece is there for the consumer; a failed one goes back unless every store has failed it or several fetches in a row, and the read fails if and only if so |
| `MultiSourceSafety.FatalEndsOutput` | tgdcfs/core/multisource.py:204-216 | once the read has failed nothing more is claimed or delivered, and it can raise |
| `MultiSourceSafety.GiveUpIsDead` | tgdcfs/core/multisource.py:209-213 | the consumer's own error is unreachable |
| `MultiSourceSafety.RunsAreBounded` | tgdcfs/core/multisource.py:140-220 | every run is over after two steps per possible fetch, one per piece, worker and place in the window, and the end |
| `MultiSourceProgress.BlockedIff` | tgdcfs/core/multisource.py:142-157 | a read can go on unless nothing is in flight, the piece due is missing and no piece in the window has a store left |
| `MultiSourceProgress.AtRestIs` | tgdcfs/core/multisource.py:204-220 | a read that has come to rest has raised or been closed, has delivered the whole range, or is blocked with no store left for the pieces in the window |
| `MultiSourceProgress.BlockedStays` | tgdcfs/core/multisource.py:206-214 | once blocked, blocked for good |
| `MultiSourceProgress.Progress` | tgdcfs/core/multisource.py:142-157 | while every pending piece has a store left the read goes on |
| `MultiSourceProgress.StrandedPiece` | tgdcfs/core/multisource.py:167-185 | a reachable state that waits forever |
| `MultiSourceObject.MultiSourceRead.constructor` | tgdcfs/core/multisource.py:73-104 | the pieces are the parts of the range; the object starts in the machine's first state |
| `MultiSourceObject.MultiSourceRead.Claim` | tgdcfs/core/multisource.py:108-117 | takes the first piece inside the window its store has not tried, and none exactly when there is none |
| `MultiSourceObject.MultiSourceRead.FetchFailed` | tgdcfs/core/multisource.py:160-189 | a failed fetch is the machine's step: tried, counted, benched, sent back or fatal |
| `MultiSourceObject.MultiSourceRead.FetchDelivered` | tgdcfs/core/multisource.py:190-193 | a delivered piece is the machine's step |
| `MultiSourceObject.MultiSourceRead.Emit` | tgdcfs/core/multisource.py:215-220 | the consumer yields exactly the piece that is due |
| `MultiSourceObject.Remaining` | tgdcfs/core/multisource.py:173-178 | no view is left if and only if every store has tried the piece or is benched |
| `MultiSourceObject.Fetch` | tgdcfs/core/multisource.py:119-138 | a fetch that is accepted is exactly the piece; a store that answers in full is never turned down |
| `PrefetchingChain.StepKeepsInv` | tgdcfs/utils/prefetching_chain.py:73-97 | every step of pumps and consumer keeps queues, window and output right |
| `PrefetchingChain.RefinesConcatenation` | tgdcfs/utils/prefetching_chain.py:65-97 | output is a prefix of the concatenation; an error is the first failed source's, after all bytes before it; a normal end delivered everything |
| `PrefetchingChain.NeverStuck` | tgdcfs/utils/prefetching_chain.py:73-88 | running sources are exactly those from the current to the last started, at most the concurrency; a waiting consumer or its pump can move |
| `PrefetchingChain.RunsAreBounded` | tgdcfs/utils/prefetching_chain.py:73-97 | every chain comes to its end within three steps an item |
| `PrefetchingChain.AtRestIs` | tgdcfs/utils/prefetching_chain.py:84-97 | a chain that can go no further was closed, raised, or delivered everything |
| `PrefetchingChain.ChainDelivers` | tgdcfs/utils/prefetching_chain.py:25-39 | sources that carry wanted bytes come out as exactly those bytes |
| `PrefetchingChain.SplitDownload` | tgdcfs/backends/telegram/store.py:615-644 | a split download is the exact inclusive byte range |
| `PrefetchingChain.Generator.StartWindow` | tgdcfs/utils/prefetching_chain.py:73-83 | the loop starts exactly the next sources up to the concurrency |
| `PrefetchingChain.Generator.Put` | tgdcfs/utils/prefetching_chain.py:35-39 | a pump's put is the machine's step |
| `PrefetchingChain.Generator.Take` | tgdcfs/utils/prefetching_chain.py:88-97 | the consumer's get is the machine's step |
| `Tiling.Split` | tgdcfs/backends/telegram/store.py:578-584 | the pieces of an inclusive range are its parts, each with the right bounds |
| `Tiling.PartsWhole` | tgdcfs/backends/base.py:140-151 | parts join to the whole, all full but the last |
| `Tiling.PlanPartsAreParts` | tgdcfs/backends/base.py:147-151 | the planned sizes are the sizes of the parts |
| `ChunkCache.TrimSpec` | tgdcfs/utils/chunk_cache.py:75-77 | eviction keeps exactly the longest run of newest blocks that fits |
| `ChunkCache.TrimKeepsLast` | tgdcfs/utils/chunk_cache.py:61-77 | the block just put is never the one evicted |
| `ChunkCache.PutSpec` | tgdcfs/utils/chunk_cache.py:61-77 | a put keeps the budget, stores the block if it fits at all, and adds nothing else |
| `ChunkCache.Cache.Get` | tgdcfs/utils/chunk_cache.py:43-51 | a hit returns the block and makes it newest; the contents stay the same |
| `ChunkCache.Cache.Store` | tgdcfs/utils/chunk_cache.py:61-77 | the loop does what the specification of a put says, running total included |
| `ChunkCache.Cache.Invalidate` | tgdcfs/utils/chunk_cache.py:79-91 | drops every block of one message and nothing else |
| `BlockDownload.BlockRange` | tgdcfs/utils/chunk_cache.py:122-136 | the computed blocks exist and cover the range |
| `BlockDownload.SliceReaches` | tgdcfs/backends/telegram/store.py:718-726 | the slice of a block, or of its beginning, continues the output exactly as far as the block goes |
| `BlockDownload.FetchBlocks` | tgdcfs/backends/telegram/store.py:653-680 | a stream in any chunks is cut back into the right blocks, marked complete exactly when whole, and they reach exactly as far as the stream did |
| `BlockDownload.FetchRun` | tgdcfs/backends/telegram/store.py:709-716 | a run of missing blocks is stored when complete and extends the output exactly as far as the backend's stream went |
| `BlockDownload.KeepBlock` | tgdcfs/backends/telegram/store.py:712-713 | a complete block is put, an incomplete one is not, and the cache stays within its budget and consistent, which is all it relies on other tasks to do |
| `BlockDownload.RunEnd` | tgdcfs/backends/telegram/store.py:702-707 | a run ends right before the next cached block |
| `BlockDownload.CachedDownload` | tgdcfs/backends/telegram/store.py:682-716 | for every consistent cache, whatever other tasks do to it at each wait and however short the backend's streams are, the cache stays consistent and the output is the plain slice if and only if every run got enough bytes; always when streams are whole; a block that stays cached is never fetched |
| `BlockDownload.EndsShort` | tgdcfs/backends/telegram/store.py:709-716 | two bytes asked for, none sent, and the download ends normally |
| `Tee.BufferedBound` | tgdcfs/core/tee.py:66-85 | a branch buffers no more than the larger of its capacity and its largest chunk |
| `Tee.TeeBranch.Feed` | tgdcfs/core/tee.py:66-85 | waits exactly when full, otherwise appends the chunk |
| `Tee.TeeBranch.Finish` | tgdcfs/core/tee.py:87-92 | only marks the end |
| `Tee.TeeBranch.Detach` | tgdcfs/core/tee.py:94-101 | empties the branch and detaches it |
| `Tee.TeeBranch.Next` | tgdcfs/core/tee.py:103-115 | takes the oldest chunk, waits, raises or ends in exactly the right states |
| `TeeUpload.StepKeepsInv` | tgdcfs/core/tee.py:154-231 | every step of producer, mirrors, collect and abort keeps the invariant |
| `TeeUpload.BranchIsFifo` | tgdcfs/core/tee.py:154-166 | taken off plus queued is what the primary has read, for every branch at every moment |
| `TeeUpload.CleanEndIsComplete` | tgdcfs/core/tee.py:160-166 | a mirror that saw the end has every byte the primary read, then and for the rest of the run |
| `TeeUpload.RunningMirrorIsServed` | tgdcfs/core/tee.py:154-215 | unless the upload is aborted a mirror that still runs is attached, is told the end, and can then move until it ends with every byte the primary read |
| `TeeUpload.ProducerIsServed` | tgdcfs/core/tee.py:199-206 | a waiting producer waits for a branch whose own mirror can move; a detached branch never holds it up |
| `TeeUpload.ConsumerIsServed` | tgdcfs/core/tee.py:103-115 | a waiting mirror waits for a primary that can move |
| `TeeUpload.NoDeadlock` | tgdcfs/core/tee.py:66-115 | never are the producer and all live mirrors waiting at once |
| `TeeUpload.RunsAreBounded` | tgdcfs/core/tee.py:154-231 | every upload comes to its end, producer, collect, abort and mirrors, within steps its size and mirrors give |
| `Uploader.NeverNothingToRead` | tgdcfs/backends/telegram/uploader.py:135-141 | the `_done_reading` exit is unreachable |
| `Uploader.StepKeepsInv` | tgdcfs/backends/telegram/uploader.py:138-181 | every step keeps lock order equal to part order and every index accounted for |
| `Uploader.SavedIsPart` | tgdcfs/backends/telegram/uploader.py:138-147 | as long as every failed read left the source where the next part begins, what is saved under index i is bytes i*c to min((i+1)*c, size), and no index is saved twice |
| `Uploader.FailedReadIff` | tgdcfs/backends/telegram/uploader.py:139-144 | after a failed read the source stands at the next part if and only if the read left it there |
| `UploaderFailures.FailedReadSafeIff` | tgdcfs/backends/telegram/uploader.py:138-147 | a failed read is harmless over every source of that length and every continuation if and only if it left the source at the next part |
| `UploaderFailures.MisplacedLater` | tgdcfs/backends/telegram/uploader.py:139-146 | otherwise, with an index left and a worker for it, some source of that length has a part saved wrong |
| `Uploader.ReturnedMeansComplete` | tgdcfs/backends/telegram/uploader.py:154-199 | an uncancelled normal return has saved every index once, with the right bytes |
| `Uploader.SaveEndsIn` | tgdcfs/backends/telegram/uploader.py:83-132 | a saved part is recorded under its index; a failed save is tried again with the same bytes until the last attempt allowed has failed |
| `Uploader.DiesOnlyBy` | tgdcfs/backends/telegram/uploader.py:113-132 | a worker dies only of a failed read or the last failed attempt, and the upload raises only where one died |
| `Uploader.LeavesOnlyBy` | tgdcfs/backends/telegram/uploader.py:160-176 | a worker leaves as cancelled only when it found the upload so, and otherwise with no index left |
| `Uploader.CountsBytesRead` | tgdcfs/backends/telegram/uploader.py:138-144 | while no read has failed every read asks for exactly its part |
| `Uploader.GoesOn` | tgdcfs/backends/telegram/uploader.py:161-196 | an upload that is not over can go on without a failure or a cancellation |
| `Uploader.RunsAreBounded` | tgdcfs/backends/telegram/uploader.py:154-199 | every run ends within the steps its parts, attempts and workers allow |
| `UploaderFailures.FailedReadMisplaces` | tgdcfs/backends/telegram/uploader.py:139-146 | a run in which a failed read makes another worker save a part under the wrong index |
| `Uploader.FileUploader.constructor` | tgdcfs/backends/telegram/uploader.py:50-80 | the queue holds every index in order |
| `Uploader.FileUploader.TakePart` | tgdcfs/backends/telegram/uploader.py:168-176 | taking an index and queueing at the lock are one step |
| `Uploader.FileUploader.SizeToRead` | tgdcfs/backends/telegram/uploader.py:142-142 | the holder of the lock always has bytes to read |
| `Uploader.FileUploader.ReadDone` | tgdcfs/backends/telegram/uploader.py:142-144 | the bytes read are the part the worker holds whenever the source stood where it begins |
| `CachedUpload.PartitionIff` | tgdcfs/backends/telegram/store.py:366-371 | the generator agrees with the planner exactly for positive sizes |
| `CachedUpload.PartMessageIsPart` | tgdcfs/backends/telegram/store.py:448-459 | the message for part i covers exactly part i of the version |
| `CachedUpload.FileMessageFromCache.Part` | tgdcfs/core/local_cache.py:408-412 | an independent message over a stretch of this one |
| `CachedUpload.FileMessageFromCache.Read` | tgdcfs/core/local_cache.py:414-425 | the next bytes of the message's own stretch, never beyond it |
| `DiscordUpload.ReadPart` | tgdcfs/backends/discord/store.py:313-323 | the next bytes up to the limit, however the message hands them out |
| `DiscordUpload.StepSlots` | tgdcfs/backends/discord/store.py:332-343 | every step keeps each slot held accounted to a read or a task |
| `DiscordUpload.StepCut` | tgdcfs/backends/discord/store.py:361-387 | every step keeps the parts equal to the first parts of the content |
| `DiscordUpload.SlotsConserved` | tgdcfs/backends/discord/store.py:345-397 | on every exit each slot acquired was released exactly once, but for a second cancellation, which loses exactly those of tasks never run |
| `DiscordUpload.SlotsNeverOverdrawn` | tgdcfs/backends/discord/store.py:367-375 | never more slots are released than acquired |
| `DiscordUpload.UploadTiles` | tgdcfs/backends/discord/store.py:360-388 | an upload that returns has sent every part; they join to the content in order and have the planned sizes, none above the limit |
| `DiscordUpload.FailedSendRaises` | tgdcfs/backends/discord/store.py:388-397 | after a failed send the upload never returns |
| `DiscordUpload.GoesOn` | tgdcfs/backends/discord/store.py:362-388 | as long as nothing fails it goes on, to its return |
| `DiscordUpload.RunsAreBounded` | tgdcfs/backends/discord/store.py:345-397 | every upload comes to its end, with all its tasks, within steps its size gives |
| `DiscordUpload.SecondCancelLeaks` | tgdcfs/backends/discord/store.py:389-395 | a run that loses a slot |
| `Mirror.FitsAligned` | tgdcfs/core/mirror.py:311-320 | aligned exactly for the same backend or when every part fits one message |
| `Mirror.PartSizes` | tgdcfs/core/mirror.py:322-329 | the sizes of the source's messages; an error exactly when one is gone or the lookup fails |
| `Mirror.ReuploadOne` | tgdcfs/core/mirror.py:376-410 | one message holding exactly the part, from the source or the local copy; success exactly when it can be read, is sent, and is one message |
| `Mirror.OneMessageIff` | tgdcfs/core/mirror.py:405-410 | a store that keeps to its limit sends a part as one message if and only if it fits |
| `Mirror.CopyTo` | tgdcfs/core/mirror.py:331-374 | one id per source part, each message holding that part; success if and only if the server makes the copy (unless told to upload again) or every part goes up again as one message (unless told to forward) |
| `Mirror.Replicate` | tgdcfs/core/mirror.py:412-465 | the replica's messages join to the whole version and have the recorded sizes; success if and only if the content can be read and its upload succeeds |
| `Mirror.MirrorGroup.MirrorParts` | tgdcfs/core/mirror.py:143-184 | under any failures every recorded store holds the version, aligned or as a replica but not both, and nothing that was there changed; a wanted store is recorded if and only if the sizes were known by its turn and its copy came about, with `strict` an error if and only if one did not |
| `Mirror.SucceedsIff` | tgdcfs/core/mirror.py:311-374 | when nothing fails a copy comes about whatever the server copy says, except in forward mode without one and for a part above the limit of a store of the same backend |
| `Broker.MessagesMap` | tgdcfs/backends/telegram/broker.py:112-114 | the map holds exactly the messages sent, by id |
| `Broker.PickIsAligned` | tgdcfs/backends/telegram/broker.py:116-120 | an answer is aligned with the ids asked for |
| `Broker.StepKeepsInv` | tgdcfs/backends/telegram/broker.py:35-93 | every step keeps each waiting request queued or in the batch, and a queue never without a collector |
| `Broker.StepKeepsAnswers` | tgdcfs/backends/telegram/broker.py:112-137 | every step keeps each answer aligned with what a bot sent for its batch |
| `Broker.AnswersAreAligned` | tgdcfs/backends/telegram/broker.py:112-121 | in every run each answer is what a bot sent for the one batch that held the request, `None` exactly where it sent none |
| `Broker.AnswerReachesBatch` | tgdcfs/backends/telegram/broker.py:112-121 | at an answer exactly the requests of the batch that wait are answered, each with what it asked for, and no other future changes |
| `Broker.FailedOnlyBy` | tgdcfs/backends/telegram/broker.py:82-137 | a request fails exactly where every bot failed its batch or the collector died, and is cancelled only by its caller |
| `Broker.AskedThenAnswered` | tgdcfs/backends/telegram/broker.py:35-47 | whoever asks waits, and if ever answered gets what a bot sent for the very ids asked for |
| `Broker.SettledStays` | tgdcfs/backends/telegram/broker.py:117-120 | a future once settled keeps its value for the rest of the run |
| `Broker.NeverStranded` | tgdcfs/backends/telegram/broker.py:60-93 | a waiting request is with a live collector that can move, or the collector was cancelled before its first step |
| `Broker.DeathFailsAll` | tgdcfs/backends/telegram/broker.py:82-93 | a dying collector fails exactly the requests that still wait |
| `Broker.SettledWithin` | tgdcfs/backends/telegram/broker.py:60-93 | whatever else happens a request is settled by the fourth step the collector takes after it was made |
| `Broker.LostStays` | tgdcfs/backends/telegram/broker.py:43-47 | after that no request is ever answered |
| `Broker.LostIff` | tgdcfs/backends/telegram/broker.py:43-47 | a collector is lost exactly when one was cancelled before its first step, and then no request waiting or made later is ever answered |
| `Broker.CollectorLost` | tgdcfs/backends/telegram/broker.py:45-47 | a run that ends there |
| `Broker.MessageBroker.GetMessages` | tgdcfs/backends/telegram/broker.py:40-47 | a request joins the queue and a collector is started if there is none |
| `Broker.MessageBroker.TakeBatch` | tgdcfs/backends/telegram/broker.py:71-72 | the whole queue becomes the batch |
| `Broker.MessageBroker.BatchIds` | tgdcfs/backends/telegram/broker.py:99-99 | a bot is asked for exactly the ids of the requests of the batch |
| `Broker.MessageBroker.AskBots` | tgdcfs/backends/telegram/broker.py:103-130 | the first bot that answers is the one used, and all have been asked when none does |
| `Broker.MessageBroker.ProcessRequests` | tgdcfs/backends/telegram/broker.py:112-121 | the loop answers exactly the waiting requests of the batch, each aligned with its ids |
| `Broker.MessageBroker.Retire` | tgdcfs/backends/telegram/broker.py:75-81 | the collector retires exactly when the queue is empty |
| `SftpHandles.ReadHandle.Read` | tgdcfs/app/sftp/handles.py:75-91 | exactly when a read fails, and exactly when it returns content[offset..min(offset+size, n)): staying on the stream or opening another |
| `SftpHandles.ReadMany` | tgdcfs/app/sftp/handles.py:75-91 | over streams that do not fail any sequence of reads at any offsets returns content[offset..min(offset+size, n)) |
| `SftpHandles.ReadHandle.Consume` | tgdcfs/app/sftp/handles.py:114-124 | the next bytes at the position, an error exactly when a failing stream runs out first |
| `SftpHandles.ReadHandle.Position` | tgdcfs/app/sftp/handles.py:80-89 | reopening or reading over a gap arrives at the offset, and exactly when it does not |
| `SftpHandles.ShortAfterError` | tgdcfs/app/sftp/handles.py:126-132 | a read after a stream error that reports the end of the file early |
| `SftpHandles.LastWriteWins` | tgdcfs/app/sftp/handles.py:198-202 | every byte of the committed file is that of the last write covering it, zero if none does |
| `SftpHandles.AnnouncedIff` | tgdcfs/app/sftp/handles.py:201-201 | the announced size is right exactly when no empty write lies beyond the end |
| `SftpHandles.EmptyWriteAnnounced` | tgdcfs/app/sftp/handles.py:198-202 | an empty write at offset 5: five bytes announced, none sent |
| `SftpHandles.WriteHandle.Write` | tgdcfs/app/sftp/handles.py:170-174 | a write is laid over the ones before it; a closed handle refuses it |
| `SftpHandles.WriteHandle.IterSpool` | tgdcfs/app/sftp/handles.py:204-214 | the stream carries exactly the overlay of the writes |
| `SftpHandles.WriteHandle.Close` | tgdcfs/app/sftp/handles.py:176-188 | commits the overlay once, and only if something was written |
| `SftpHandles.AbortedCommitsNothing` | tgdcfs/app/sftp/handles.py:190-196 | after an abort, whatever was written, no write is taken and no close commits |
| `DirectoryTree.MoveKeepsTree` | tgdcfs/core/model/directory.py:374-404 | a move keeps the tree well formed: no cycles, parents and children agree, sibling names unique |
| `DirectoryTree.MoveReprefixes` | tgdcfs/core/model/directory.py:374-404 | the same directories and file refs; exactly the paths below the moved directory change, by their prefix |
| `DirectoryTree.MoveIntoSelfIsCircular` | tgdcfs/core/model/directory.py:391-392 | the check against moving into itself is needed: without it no tree is left |
| `DirectoryTree.CreateKeepsTree` | tgdcfs/core/model/directory.py:251-267 | a new directory keeps the tree well formed and everything else in it |
| `DirectoryTree.CreatedPath` | tgdcfs/core/model/directory.py:263-265 | the new directory lies where it was asked for |
| `DirectoryTree.DeleteKeepsTree` | tgdcfs/core/model/directory.py:406-409 | deleting removes exactly the subtree; everything else keeps path and files |
| `DirectoryTree.PathsAreUnique` | tgdcfs/core/model/directory.py:416-424 | no two directories have the same path |
| `Directory.TGFSDirectory.FindDirs` | tgdcfs/core/model/directory.py:273-277 | finds exactly the children of that name |
| `Directory.TGFSDirectory.IsAncestorOf` | tgdcfs/core/model/directory.py:365-372 | the walk up the parents decides whether the other lies below |
| `Directory.TGFSDirectory.AbsolutePath` | tgdcfs/core/model/directory.py:416-424 | the recursion over the objects is the path in the tree |
| `Directory.TGFSDirectory.CreateDir` | tgdcfs/core/model/directory.py:251-267 | succeeds exactly for a valid free name; the objects are the grown tree |
| `Directory.TGFSDirectory.MoveTo` | tgdcfs/core/model/directory.py:374-404 | each refusal exactly in its case, otherwise the objects are the moved tree |
| `Directory.TGFSDirectory.Delete` | tgdcfs/core/model/directory.py:406-414 | the objects are the tree without the subtree; the root is emptied |
| `Directory.TGFSDirectory.CreateFileRef` | tgdcfs/core/model/directory.py:309-331 | refused exactly when the name is taken |
| `Directory.TGFSDirectory.RelocateFileRef` | tgdcfs/core/model/directory.py:337-363 | the file stands under its new name with descriptor, copies, stat and epoch, and the first ref equal to it is gone from its old place; refused exactly when the name is taken or no ref is equal, and then nothing changed; both indexes stay equal to a scan exactly when that ref is the one given and not listed again |
| `FileRefs.RelocateKeepsCopies` | tgdcfs/core/model/directory.py:60-73 | relocating keeps the known copies exactly when none was filed under the old store's own key |
| `FileRefs.RelocateNeedsCopy` | tgdcfs/core/model/directory.py:60-73 | a ref changes its store if and only if the new primary has a copy under a real message id, and what it records otherwise |
| `FileRefs.RelocateRoundTrip` | tgdcfs/core/model/directory.py:60-73 | promoting a mirror and back gives the descriptor back |
| `FileRefs.FileRef.Relocate` | tgdcfs/core/model/directory.py:60-73 | the assignments do what the value-level relocation says |
| `FileRefs.FileRefList.Find` | tgdcfs/core/model/directory.py:114-116 | the index answers what a scan of the list would |
| `FileRefs.FileRefList.Append` | tgdcfs/core/model/directory.py:120-122 | appending keeps the index equal to a scan, also for a name already there |
| `FileRefs.FileRefList.Insert` | tgdcfs/core/model/directory.py:128-130 | inserting does exactly when no other ref of that name lies at or after the place |
| `FileRefs.InsertedInFront` | tgdcfs/core/model/directory.py:128-130 | two refs of one name whose index order is not their list order |
| `FileRefs.FileRefList.Remove` | tgdcfs/core/model/directory.py:132-134 | the first equal ref leaves the list, an error exactly when there is none; the index stays equal to a scan exactly when that is the given object and it is not in the list again |
| `FileRefs.RemovedTwin` | tgdcfs/core/model/directory.py:132-134 | two equal refs: the list keeps the one the index loses |
| `FileRefs.FileRefList.RemoveAt` | tgdcfs/core/model/directory.py:136-139 | popping keeps the index equal to a scan exactly when the list does not hold the ref again |
| `FileRefs.FileRefList.Reindex` | tgdcfs/core/model/directory.py:109-112 | rebuilding makes the index equal to a scan |
| `StatEpochs.StepKeepsInv` | tgdcfs/core/api/stat.py:106-147 | every step of reads and writes, and every safe move, keeps stored stats current or about to be dropped |
| `StatEpochs.StatsNeverStale` | tgdcfs/core/api/file.py:365-396 | over every interleaving with safe moves a stored stat is the current descriptor's unless a committed write has its invalidate pending |
| `StatEpochs.QuietMoveIsSafe` | tgdcfs/core/api/file.py:321-335 | a move while no write of the file is in progress is safe |
| `StatEpochs.SafeMoveIff` | tgdcfs/core/model/directory.py:354-357 | from every state a move is safe if and only if nothing that can follow it leaves the stat stale |
| `StatEpochs.UnsafeMoveGoesStale` | tgdcfs/core/api/file.py:321-335 | the schedule by which an unsafe move ends in a stale stat |
| `StatEpochs.InvalidateMisses` | tgdcfs/core/api/stat.py:136-147 | the pending invalidate of the old ref does not repair it |
| `StatEpochs.StoredIff` | tgdcfs/core/api/stat.py:106-115 | a stat is stored exactly at the end of a complete read of the ref in the tree with no invalidate since it began, and goes only by an invalidate |
| `StatEpochs.WriteDropsStat` | tgdcfs/core/api/file.py:365-396 | a write that runs through changes the descriptor and leaves no stat |
| `StatEpochs.InvalidateStat` | tgdcfs/core/api/stat.py:143-146 | the ref loses its stat and enters a new epoch |
| `StatEpochs.StoreStat` | tgdcfs/core/api/stat.py:112-113 | a stat is stored only for a complete read in the same epoch of a ref still in the tree |

## Left out

- Cryptography: AES-GCM, HMAC and key derivation are functions with the laws of a deterministic AEAD; their strength, the random salt and name encryption are not modelled.
- Chunk indexes at or above 2^64 cannot be written as a nonce; files are taken to be smaller.
- Negative `begin` in an encrypted read is not modelled: the callers pass offsets from parsed ranges.
- Closing the wrapped message between parts, which closes a file opened by path, is not modelled.
- Local cache: one block size across restarts, deletions that succeed, fills and staged writes that carry the version's own bytes; `sweep` is any set of removals and pin changes; the index read at a restart may be any; the free-disk probe is arbitrary, which is why exactness of eviction is stated with it off.
- CacheRecovery.ReadStream: states nothing for a read during which the entry is dropped and reserved again, because the code checks presence once and reopens the file per chunk.
- CachedUpload.FileMessageFromCache.Read: covers messages made by `part`, whose `_offset` is 0; the bound at tgdcfs/core/local_cache.py:416 does not include `_offset`, so reuse across sequential parts is not covered.
- CacheEviction.LocalCache.MakeRoom: does not state which entries a disk probe makes it evict beyond the budget's need.
- Multi-source read: piece sizes below 1, which the configuration excludes, are not modelled; store keys are compared as they are.
- TeeUpload.CleanEndIsComplete: takes the message to deliver no more bytes than it announced; the code would feed on after announcing the end.
- Uploader: duplicate deliveries of a part whose answer was lost, progress reporting and the delays between attempts are not modelled; the source hands out exactly the bytes asked for.
- SFTP: streams without empty chunks, which the code takes for the end; `seek` and the spool's move from memory to disk are not modelled.
- Mirror: reading failures leave no stray messages in the model where they might in a store; filling the cache while replicating, mirrored descriptors and pinned metadata, and `copy_into_primary` are not modelled. Stores have distinct keys; what a store splits is judged by its own part limit.
- Discord: retries, the choice of bot, author and message caches are not modelled.
- Broker: the message cache in front of it and the choice of bots are not modelled.
- Directory dates, serialization, the GitHub-backed directory and name validation of file refs (the code has none) are not modelled. Refs in one list are compared by name and descriptor: their directory is the same.
- Stats: loading and flushing stored stats (`load_stats`, `flush`, `_mark`) and removal of a file are not modelled; a stat is identified with the descriptor state it was read from.
- The replication queue is not modelled; nothing is claimed about writes that arrive while their path is processed.
- Configuration, authentication, WebDAV, the web frontend, Telegram and Discord clients and scripts are not modelled.
