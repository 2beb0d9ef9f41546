# ShardSeal, modelled and verified

ShardSeal is a single-node object store with an S3 interface. This project models its storage engine,
its repair machinery, its multipart uploads and its request signing in Dafny, and proves what they
promise. `dafny verify dfyconfig.toml` checks everything. Each file holds one module.

**Listing and pagination.** `FileTree` is the directory tree under `objects/` and what Put and Delete do
to it; `Listing` is the recursive walk behind List; `ListReference` says what a listing should contain
and when the walk computes it; `Pagination` sorts, cuts and continues. The walk skips subtrees and the
handler pages by tokens; both are proved against set comprehensions over keys.

**Sealed shards and self-healing.** `ShardCodec` is the file format; `Manifests` the manifest records and
a disk that may fail at any write and remembers every state a crash could leave; `SealedStore` the sealed
Put, Get and Head; `Scrubber` and `Rewriter` the two other readers of the format. `SelfHealing`
interleaves scanning objects with repairing them; `ScrubPass` is the pass as it runs, with its walk over
the tree, its job channel and its workers, and shows that it ends with every object readable.

**Repair queue and workers.** `RepairQueue` is the bounded queue, `WorkerPool` the queue with N consumer
loops, producers, pause, cancel and close as interleaved steps with a program counter per worker.

**Buckets and multipart uploads.** `LocalFS` is the plain-mode store, `MetadataStore` the metadata store,
`MultipartModel` the state of both with its invariant, `S3Server` the handlers, each proved to be one
step of that state machine, and `MultipartGC` the collection of stale uploads.

**Request handling.** `CanonicalRequest` prints the SigV4 canonical request and reads it back, with
`HeaderValues` for the normalisation of header values and `Runes` for Go's reading of UTF-8; `ByteRange`
parses and serves ranges; `CappedCopy` is the size cap on single PUTs.

`Strings`, `Encoding`, `Streams` and `Sorting` hold what the others share: Go's string functions,
little-endian and hexadecimal encodings, file readers, and sorting with its freedom on ties.

Hashes (sha256, md5, crc32c) are uninterpreted functions passed as parameters; the one result that needs
collision-freedom states it as a hypothesis. Strings hold one `char` per byte. `LocalFS` and `Disk` may
fail at any operation; clauses that speak of a `reliable` or working disk say what holds when none does.

## Where the code falls short of the obvious claim

Each item names the lemma that exhibits it or gives the exact condition.

- The magic is eleven bytes, so the manifest's header CRC is the CRC divided by 256
  (`ShardCodec.LastFourHeaderBytes`); the layout comment in the source says twelve.
- The header decoder accepts header sizes below 27, which the encoder never writes
  (`ShardCodec.ReencodingAcceptedHeader`).
- A failed overwrite of a sealed object can lose the old object: which endings do is stated exactly
  (`SealedStore.OverwriteLosesOld`).
- A header that announces 2^63 bytes or more makes the section reader run to the end of the file: a shard
  of the empty payload can pass every check and a verified Get hands out bytes that were never hashed.
  Tampering is detected exactly for non-empty payloads (`SealedStore.OpenEndedShardIsServed`,
  `SealedStore.VerifiedGet`, `SealedStore.TamperingIsDetected`).
- With a delimiter, sealed objects whose own directory rolls up are not listed
  (`ListReference.DelimitedKeysExact`, `ListReference.SealedObjectHidden`), and directories
  without a matching object show as prefixes (`ListReference.MixedPrefixesExact`).
- Deleting a bucket discards a plain object stored under the key `.multipart`
  (`LocalFS.VacantListsNothing`).
- A body of exactly the maximal size is refused unless its reader reports the end together with the last
  bytes (`CappedCopy.CopyAll`).
- A suffix range on an empty object is accepted as (0, -1), and a last position past the end is refused
  instead of clamped (`ByteRange.EmptyObjectSuffix`, `ByteRange.RangePastEndRefused`).
- A part sent under a foreign bucket or key is accepted (`MultipartModel.ForeignPartBreaksInv`), and a
  DELETE may name the staging bucket and take a staged part away (`MultipartModel.DeleteUnderStaging`).
- The sizes of listed parts are summed in an int64 that can wrap (`S3Server.SizeCheck`).
- Collecting an upload also removes the parts of younger uploads whose key continues its key and id
  (`MultipartGC.GCKeepsInv`).
- The canonical query string is ambiguous for keys that differ only by case
  (`CanonicalRequest.OneTextIffCaseDistinct`).
- The path is taken in its escaped form and escaped once more, so every percent sign in it prints as %25
  (`CanonicalRequest.UnchangedIffKept`).
- Only the first value of a signed header is signed, and bytes that are no UTF-8 are not told apart
  (`CanonicalRequest.LaterValuesUnsigned`, `CanonicalRequest.InvalidValuesUnsigned`).
- A Close between a producer's test of `closed` and its send makes the send panic
  (`WorkerPool.ClosePanicsIffSending`).
- On reads and scrubs, the branch for a short payload is dead: a footer behind the payload has been read
  by then. The models carry `assert false` there.

## Model

| member | source | states |
|---|---|---|
| `ShardCodec.EncodeShardHeader` | pkg/erasure/rs.go:125-161 | produces the header bytes of the format, or refuses a header size below 27; size 0 becomes 28 |
| `ShardCodec.DecodeShardHeader` | pkg/erasure/rs.go:164-208 | reads the header at the reader's position field by field, with every error case; what it accepts and recovers is stated by the lemmas below |
| `ShardCodec.EncodeShardFooter` | pkg/erasure/rs.go:211-221 | content hash followed by its CRC |
| `ShardCodec.DecodeShardFooter` | pkg/erasure/rs.go:224-241 | reads and checks the footer at the reader's position, with every error case |
| `ShardCodec.HeaderRoundTrip` | pkg/erasure/rs.go:125-208 | encoding succeeds exactly for size 0 or at least 27, the encoded length is the header size, and decoding gives the header back whatever follows it |
| `ShardCodec.HeaderFromFixed` | pkg/erasure/rs.go:164-208 | the 27 fixed bytes alone decide what is decoded, for any announced size and any bytes behind them |
| `ShardCodec.AcceptedHeaderIsCanonical` | pkg/erasure/rs.go:164-208 | the first 27 bytes of any accepted header are the encoding of the decoded value: no second spelling |
| `ShardCodec.ReencodingAcceptedHeader` | pkg/erasure/rs.go:125-208 | re-encoding an accepted header reproduces its fixed bytes exactly when its size field is at least 27; the decoder accepts smaller ones too |
| `ShardCodec.FooterRoundTrip` | pkg/erasure/rs.go:211-241 | an encoded footer decodes to its hash, whatever follows |
| `ShardCodec.AcceptedFooterIsCanonical` | pkg/erasure/rs.go:224-241 | the 36 bytes of any accepted footer are the encoding of its hash |
| `ShardCodec.HeaderLayout` | pkg/erasure/rs.go:125-161 | an encoded header byte by byte: the text ShardSealv1, version and size as two-byte and payload length as eight-byte little-endian numbers, the CRC of these 23 bytes, zeros up to the size |
| `ShardCodec.WhyRefused` | pkg/erasure/rs.go:164-241 | the exact reason for which bytes are refused as a header or a footer |
| `ShardCodec.FooterLayout` | pkg/erasure/rs.go:211-221 | an encoded footer byte by byte: the 32 hash bytes and the four bytes of their CRC |
| `ShardCodec.LastFourHeaderBytes` | pkg/storage/localfs.go:326-334 | the number stored as the manifest's header CRC is the CRC divided by 256, because byte 27 of the header is padding |
| `Manifests.Disk.SaveManifest` | pkg/storage/manifest.go:118-175 | fills in a missing version, refuses an invalid record, otherwise replaces the manifest atomically or not at all; if only the directory sync fails the new manifest is in place although an error is returned; on a working disk a valid record is saved |
| `Manifests.SavedManifestLoads` | pkg/storage/manifest.go:71-88 | saving and loading check the same things: a saved record loads back unchanged, and a record SaveManifest would refuse does not load |
| `Manifests.ValidManifests` | pkg/storage/manifest.go:71-88 | what a record must be to be saved or loaded, field by field |
| `Manifests.NewManifestValid` | pkg/storage/manifest.go:92-103 | a new single-shard manifest is valid exactly when bucket and key are named and the size is not negative |
| `Manifests.ShardPathInjective` | pkg/storage/localfs.go:336-338 | objects of different names never share a shard file |
| `SealedStore.SealedFS.Put` | pkg/storage/localfs.go:222-361 | at every intermediate disk state only this object's shard and then manifest may differ from before, with exactly the bytes of the new shard and manifest; success leaves both in place; a failure says which of the possible endings it left: nothing done, rolled back, or stuck, the last two under the old or the new manifest; a failing reader changes nothing durable; on a working disk a whole body under a named object is stored |
| `SealedStore.SealedFS.WriteSealed` | pkg/storage/localfs.go:242-314 | the temporary file ends up as header, payload, footer; nothing durable changes while it is written |
| `SealedStore.SealedFS.Publish` | pkg/storage/localfs.go:316-352 | rename, then manifest, then on failure the shard is taken away again if that works; the ending is named, and every state on the way stays in the frame of the Put |
| `SealedStore.PutNeverTorn` | pkg/storage/localfs.go:316-352 | in every state a Put can pass through, a verified Get answers with the old object, the complete new payload, or an error |
| `SealedStore.AbsentStaysAbsentOrNew` | pkg/storage/localfs.go:316-352 | for a key that was not readable before, those states show an error or the complete new payload |
| `SealedStore.OverwriteLosesOld` | pkg/storage/localfs.go:347-351 | in a state of a Put a readable object is lost exactly when the rollback has taken its shard away, whichever manifest is left, or when the new shard stands under an old manifest with another hash; with nothing durable changed it reads as before |
| `SealedStore.ReadReplaced` | pkg/storage/localfs.go:316-352 | with the new shard in place: under the new manifest the new object is read; under the old one the new payload exactly when its hash is on record there, else the integrity error |
| `SealedStore.ReadWithoutShard` | pkg/storage/localfs.go:347-351 | with the shard taken away the object cannot be opened, also when only the directory sync failed and the new manifest is left |
| `SealedStore.EndedInFrame` | pkg/storage/localfs.go:316-352 | every ending of a Put is one of those states |
| `SealedStore.ReadYourWrite` | pkg/storage/localfs.go:222-484 | a Get after a successful Put returns payload, size and ETag, verified or not |
| `SealedStore.PutManifestRecords` | pkg/storage/localfs.go:326-345 | the manifest of a Put records the payload's length and both hashes, the shard's path and its two checksums |
| `SealedStore.HeadYourWrite` | pkg/storage/localfs.go:512-585 | Head after a successful Put answers the payload's length and md5, the size and ETag that Get reports too |
| `SealedStore.SealedFS.Get` | pkg/storage/localfs.go:363-510 | answers as the read specification says on arbitrary shard bytes, with wrapping int64 arithmetic and sections of negative length, and hands the shard to repair exactly on header and integrity failures |
| `SealedStore.SealedFS.Head` | pkg/storage/localfs.go:512-585 | answers from the manifest after the light check, and hands the shard to repair exactly on integrity failures |
| `SealedStore.HeadOfSealed` | pkg/storage/localfs.go:512-585 | the size and ETag on record; with verification exactly when the light check passes, hence whenever a verified Get succeeds |
| `SealedStore.LightCheckIff` | pkg/storage/localfs.go:540-570 | the light check accepts exactly the files whose header and footer are in order and whose footer carries the manifest's hash |
| `SealedStore.WhyReadsFail` | pkg/storage/localfs.go:363-585 | the exact reason of every failing verified Get and Head |
| `SealedStore.UnverifiedGet` | pkg/storage/localfs.go:363-510 | without verification a Get needs a readable header and nothing else |
| `SealedStore.ReadPlain` | pkg/storage/localfs.go:363-585 | without a readable manifest that lists a shard, Get and Head answer from the plain file of that name, or not found |
| `SealedStore.VerifiedIffIntact` | pkg/storage/localfs.go:375-472 | the chain of checks accepts exactly the byte strings that consist of a matching header, payload and footer for the manifest's hash; the header is then unique |
| `SealedStore.FreshShardIntact` | pkg/storage/localfs.go:250-305 | what a Put writes is intact for its payload's hash, and its payload section is the payload |
| `SealedStore.VerifiedGet` | pkg/storage/localfs.go:367-484 | a verified Get of a sealed object succeeds exactly when the shard is intact; the bytes returned are those whose hash was compared with the manifest's exactly when the header announces less than 2^63 bytes or nothing follows the header |
| `SealedStore.OpenEndedShardIsServed` | pkg/storage/localfs.go:474-483 | the failing case: a file whose header announces 2^64 - 36 bytes passes every check of an empty object, and a verified Get returns whatever stands behind it |
| `SealedStore.TamperingIsDetected` | pkg/storage/localfs.go:391-476 | if no other payload has the same hash: every replacement of the shard file yields the original payload or an error exactly when the payload is not empty |
| `SealedStore.SectionMatchesCopy` | pkg/storage/localfs.go:439-476 | the section reader delivers the bytes that were hashed exactly when the length is not negative or the file ends there |
| `Scrubber.SealedScrubber.VerifyShard` | pkg/repair/scrubber.go:405-482 | a shard fails exactly when it is missing, its header does not decode, or a check fails, with or without payload hashing |
| `Scrubber.SealedScrubber.VisitShards` | pkg/repair/scrubber.go:403-483 | each failing shard is counted and submitted exactly once and in order |
| `Scrubber.SealedScrubber.VerifyObject` | pkg/repair/scrubber.go:397-490 | an object with a usable manifest and at least one shard is counted as scanned; failure is reported exactly when the manifest is unusable or a shard failed |
| `Scrubber.ScrubAgreesWithGet` | pkg/repair/scrubber.go:397-490 | for a single-shard object the payload-verifying scrub is clean exactly when a verified Get succeeds, exactly when the shard is intact; otherwise it submits exactly that shard |
| `Scrubber.LightScrubIsWeaker` | pkg/repair/scrubber.go:456-481 | without payload hashing the scrub never reports more |
| `Scrubber.ShardFailsIff` | pkg/repair/scrubber.go:405-482 | a shard fails exactly when it is missing or not intact, or without payload hashing does not pass the light check |
| `Scrubber.EachFailingOnce` | pkg/repair/scrubber.go:403-483 | whatever number of shards a manifest lists, each failing one is submitted once, in order, and nothing else is |
| `Scrubber.ScrubSingle` | pkg/repair/scrubber.go:403-483 | a single-shard object submits one item or none |
| `Scrubber.JobOfManifestPath` | pkg/repair/scrubber.go:345-366 | the producer derives from an object's manifest path that object's bucket and key |
| `Rewriter.RepairableIff` | pkg/repair/rewriter.go:42-138 | what is repairable: a loadable single-shard manifest the item does not contradict, a positive length, and a file of at least the needed size whose bytes behind the header hash to the recorded hash |
| `Rewriter.PlannedRewrite` | pkg/repair/rewriter.go:61-151 | what is written: the recorded number of bytes behind the default header, with length, hash and checksums refreshed in the manifest and nothing else changed |
| `Rewriter.RefusalReasons` | pkg/repair/rewriter.go:42-138 | which of skipped, unsupported, unreadable, truncated or mismatch a refusal is, case by case |
| `Rewriter.BuildShard` | pkg/repair/rewriter.go:95-152 | the temporary file becomes a fresh shard of the payload only if the payload bytes are complete and hash to the manifest's hash; otherwise the error says why; nothing durable changes |
| `Rewriter.ReplaceFiles` | pkg/repair/rewriter.go:153-173 | rename, sync, manifest: every state is one of nothing replaced, shard replaced, both replaced |
| `Rewriter.RewriteShard` | pkg/repair/rewriter.go:90-174 | success leaves exactly the fresh shard and the refreshed manifest; a refusal leaves both files untouched |
| `Rewriter.Repair` | pkg/repair/rewriter.go:41-175 | on arbitrary disk contents: all or nothing up to a disk fault, and each state on the way is one of the three stages; a refusal is the one the plan names; on a working disk a planned repair succeeds |
| `Rewriter.RepairedShardIsFresh` | pkg/repair/rewriter.go:110-152 | a repaired shard is bit for bit what a fresh sealed Put of that payload writes, and reads back verified |
| `Rewriter.CrashAfterRename` | pkg/repair/rewriter.go:153-173 | a crash between the rename and the manifest leaves the object readable with its payload |
| `Rewriter.RepairIdempotent` | pkg/repair/rewriter.go:41-175 | a second repair is possible and changes nothing |
| `Rewriter.ReadFreshShard` | pkg/repair/rewriter.go:160-173 | a fresh shard is readable through any manifest that carries its payload's hash |
| `Rewriter.EmptyPayloadNotRepairable` | pkg/repair/rewriter.go:69-75 | an object whose manifest announces no payload is refused whatever its shard holds |
| `ScrubPass.EachManifestOnce` | pkg/repair/scrubber.go:316-395 | for any tree, disk, number of workers and interleaving with repairs, no manifest is verified twice, and when the pass is over each has been verified exactly once and nothing else was |
| `ScrubPass.PassHeals` | pkg/repair/scrubber.go:316-490 | a pass over a healable disk ends with exactly the damaged objects submitted, once each, every object readable with its payload, and nothing for the next scrub to find |
| `ScrubPass.StepKeepsPlaces` | pkg/repair/scrubber.go:326-387 | every step of the walk, the channel and the workers keeps each job in exactly one place: not reached, being sent, buffered, held, or verified |
| `ScrubPass.EnterDirectory` | pkg/repair/scrubber.go:333-344 | entering a directory uncovers the directory and nothing else, so the walk meets every file once |
| `ScrubPass.JobAtManifest` | pkg/repair/scrubber.go:342-370 | a manifest file below a bucket yields the job of the object whose directory it is in; one directly in a bucket yields none |
| `ScrubPass.JobsDiffer` | pkg/repair/scrubber.go:348-366 | different files never yield the same job |
| `ScrubPass.Progress` | pkg/repair/scrubber.go:326-387 | a pass with a worker is never stuck before it is over |
| `ScrubPass.PassEnds` | pkg/repair/scrubber.go:316-395 | with its repairs it takes at most five steps per node of the tree, one per worker, and one more |
| `SelfHealing.HealingConverges` | pkg/repair/scrubber.go:397-490 | the same in terms of objects scanned and items repaired in any order: only the damaged objects are submitted, once each, everything reads back, the next scrub is clean |
| `SelfHealing.DamageAroundPayload` | pkg/repair/rewriter.go:76-138 | while the payload bytes of a non-empty object are in place, any damage to header and footer leaves it recoverable |
| `SelfHealing.RunKeepsInv` | pkg/repair/scrubber.go:316-490 | over every run each object is untouched, waiting, or repaired, and never queued twice |
| `SelfHealing.OnlyOwnFiles` | pkg/repair/rewriter.go:41-175 | what reading, scrubbing and repairing do to an object depends on its own shard and manifest only |
| `SelfHealing.StepUsesWork` | pkg/repair/scrubber.go:376-387 | every step uses up work |
| `SelfHealing.HealingProgress` | pkg/repair/scrubber.go:376-387 | until all objects are scanned and all items repaired some step is possible |
| `SelfHealing.RunLength` | pkg/repair/scrubber.go:376-387 | that takes at most two steps per stored object |
| `RepairQueue.MemQueue.constructor` | pkg/repair/queue.go:71-76 | an empty open queue; a negative capacity becomes 0 |
| `RepairQueue.MemQueue.Enqueue` | pkg/repair/queue.go:78-88 | an accepted item goes to the end and fits the capacity; refusals change nothing; first in, first out is kept |
| `RepairQueue.MemQueue.Dequeue` | pkg/repair/queue.go:90-100 | the oldest accepted item not yet handed out leaves; a closed queue is drained before it reports closed; select may prefer either ready case |
| `RepairQueue.MemQueue.Len` | pkg/repair/queue.go:102-104 | how many of the items ever accepted have not been handed out, at most the capacity |
| `RepairQueue.MemQueue.Close` | pkg/repair/queue.go:106-116 | closing keeps what is buffered and can be repeated |
| `WorkerPool.Conservation` | pkg/repair/worker.go:157-216 | in every interleaving: dequeues happen in acceptance order; accepted = buffered + held + finished, item by item; counters and the inflight gauge add up; the buffer keeps to its capacity |
| `WorkerPool.StepKeepsInv` | pkg/repair/worker.go:157-216 | every step of a worker, producer, pause, cancel or close keeps the invariant |
| `WorkerPool.RunKeepsInv` | pkg/repair/worker.go:157-216 | so does every run |
| `WorkerPool.ClosedAcceptsNothing` | pkg/repair/queue.go:78-116 | after Close nothing more is accepted and nothing accepted is lost |
| `WorkerPool.GracefulDrain` | pkg/repair/worker.go:183-199 | without a cancel, workers exit only when the queue is closed and everything accepted has been taken and finished |
| `WorkerPool.WorkerServes` | pkg/repair/worker.go:157-216 | a worker that is neither cancelled nor paused can, by steps of its own, take the oldest item and finish it with any outcome, which raises that outcome's counter and no other |
| `WorkerPool.WorkerDrains` | pkg/repair/worker.go:157-216 | and so empty the queue in order, finishing everything in it |
| `WorkerPool.ResumedWorkerServes` | pkg/repair/worker.go:129-181 | after Pause and Resume it serves the queue as if neither had happened |
| `WorkerPool.ClosedWorkerStops` | pkg/repair/worker.go:183-199 | on a closed queue it can finish what is left and then stop without a cancel |
| `WorkerPool.OfferAccepted` | pkg/repair/queue.go:78-88 | an offered item is accepted behind the others while there is room, turned away once the queue is closed, gone when its producer gives up |
| `WorkerPool.OfferHandedOver` | pkg/repair/queue.go:78-100 | with an empty queue of any capacity an offered item can go straight to a receiving worker |
| `WorkerPool.PauseBound` | pkg/repair/worker.go:129-181 | after Pause, until a Resume, at most as many items are dequeued as workers were already waiting in Dequeue, so at most one each |
| `WorkerPool.StopBound` | pkg/repair/worker.go:107-126 | after the cancel each worker takes at most one more item and makes at most six more steps |
| `WorkerPool.CancelledRun` | pkg/repair/worker.go:157-216 | the measures behind that bound, along every run |
| `WorkerPool.CancelledWorkerMoves` | pkg/repair/worker.go:157-216 | a cancelled worker that has not exited always has a step of its own that brings it closer to exit |
| `WorkerPool.ExclusiveCloseNeverPanics` | pkg/repair/queue.go:78-116 | if no Close falls between a producer's test and its send, no send panics |
| `WorkerPool.ClosePanicsIffSending` | pkg/repair/queue.go:78-114 | from any pool a Close can lead to a panic exactly when some producer is between its test of closed and its send |
| `WorkerPool.SenderPanics` | pkg/repair/queue.go:78-88 | every such producer can be the one that panics |
| `WorkerPool.ClosedAndOutsideNeverPanics` | pkg/repair/queue.go:78-88 | with the queue closed and no producer sending no run panics |
| `ByteRange.AcceptedRange` | pkg/api/s3/server.go:316-340 | an accepted range satisfies 0 <= start <= end < total exactly when total is positive; otherwise it is (0, total - 1) |
| `ByteRange.EmptyObjectSuffix` | pkg/api/s3/server.go:325-331 | a suffix range on an empty object is accepted as (0, -1) |
| `ByteRange.PrintedRange` | pkg/api/s3/server.go:316-340 | a printed range parses back to itself when it lies inside the object and is refused otherwise |
| `ByteRange.RangePastEndRefused` | pkg/api/s3/server.go:337-339 | a last position past the end is refused, where section 14.1.2 of RFC 9110 clamps it |
| `ByteRange.OpenRange` | pkg/api/s3/server.go:332-336 | an open range runs to the last byte, or is refused when it starts past it |
| `ByteRange.SuffixRange` | pkg/api/s3/server.go:325-331 | a suffix range gives the last min(n, total) bytes; one of no bytes, or of more than an int64 holds, is refused |
| `ByteRange.NoRange` | pkg/api/s3/server.go:316-324 | without the unit, or with a single number, there is no range |
| `ByteRange.FirstRangeOnly` | pkg/api/s3/server.go:320-322 | of several ranges only the first is looked at |
| `ByteRange.BlankIgnored` | pkg/api/s3/server.go:322 | a blank in front of a range is ignored |
| `ByteRange.SectionReader.CopyN` | pkg/storage/localfs.go:150-160 | reading a section yields the next bytes of the section, which a negative size opens to the end of the file |
| `ByteRange.ServeRange` | pkg/api/s3/server.go:259-278 | 416 exactly when the parser refuses, otherwise the announced length and the bytes of that range of the section; a suffix range on an empty object answers (0, -1) with no bytes |
| `ByteRange.RangeOfPayload` | pkg/api/s3/server.go:267-278 | over an intact sealed file the ranged body is payload[start..end+1], of the announced length |
| `CappedCopy.BodyReader.Read` | pkg/api/s3/server.go:80-84 | the assumption on request bodies: any chunking, the end reported with or after the last bytes, no break on a steady connection |
| `CappedCopy.CapReader.Read` | pkg/api/s3/server.go:71-88 | never passes the cap, and reports too large only when the cap is reached |
| `CappedCopy.CopyAll` | pkg/api/s3/server.go:71-88 | for every chunking: never more than the cap is delivered, success delivers the whole body, and too large is reported exactly when the body exceeds the cap, or equals it and its end is not reported with its last bytes; on a steady connection there is no other ending |
| `FileTree.MkdirsKeeps` | pkg/storage/localfs.go:172-176 | MkdirAll adds directories and no file, and leaves at most the new directory empty |
| `FileTree.PutKeepsTree` | pkg/storage/localfs.go:166-220 | a successful plain Put changes exactly one file and leaves no empty directory |
| `FileTree.DeleteKeepsTree` | pkg/storage/localfs.go:605-623 | a Delete removes exactly one file and leaves no empty directory |
| `FileTree.PruneRestores` | pkg/storage/localfs.go:972-990 | climbing from the only empty directory restores the no-empty-directory invariant and removes no file |
| `FileTree.PruneOnlyAncestors` | pkg/storage/localfs.go:972-990 | the climb removes only empty directories above the deleted file, strictly below the bucket |
| `FileTree.RunKeepsTree` | pkg/storage/localfs.go:162-220 | over every run of successful Puts and Deletes no directory below a bucket is empty, and the files are what a plain map would hold |
| `FileTree.FileBelow` | pkg/storage/localfs.go:972-990 | below every directory there is then a file |
| `FileTree.KeyInjective` | pkg/storage/localfs.go:992-1005 | a path is determined by its bucket and key |
| `Listing.Walk.WalkDir` | pkg/storage/localfs.go:632-815 | the recursive walk collects exactly what the visited nodes contribute, each prefix once, skipping rolled-up directories |
| `Listing.Walk.VisitChild` | pkg/storage/localfs.go:639-708 | one node, and everything below it unless it rolls up |
| `Listing.Walk.JudgeDir` | pkg/storage/localfs.go:658-706 | when a directory is a common prefix |
| `Listing.Walk.JudgeFile` | pkg/storage/localfs.go:717-797 | when a file is an object, a prefix, or nothing, in the order of the filters |
| `Listing.RollMeaning` | pkg/storage/localfs.go:688-693 | a name rolls up exactly when the delimiter occurs behind the query's prefix, and then to the shortest part of it that ends with an occurrence |
| `Listing.Walk.Record` | pkg/storage/localfs.go:695-702 | a prefix is appended the first time it is seen and only past the start |
| `Listing.ReadDir` | pkg/storage/localfs.go:639-651 | directory entries in ascending order, each once |
| `Listing.SkipSound` | pkg/storage/localfs.go:691-705 | below a rolled-up directory nothing is listed and every prefix is the directory's own |
| `Listing.RollStable` | pkg/storage/localfs.go:688-693 | everything below a rolled-up name rolls up to the same prefix |
| `ListReference.PlainListingExact` | pkg/storage/localfs.go:632-815 | for every plain bucket without empty directories and every query, the walk yields exactly the reference: matching keys without a delimiter after the prefix, and the distinct rolled-up prefixes, each past the start |
| `ListReference.PrefixHasKey` | pkg/storage/localfs.go:671-705 | no phantom prefixes: behind every prefix there is an object that rolls up to it |
| `ListReference.UndelimitedListingExact` | pkg/storage/localfs.go:632-815 | without a delimiter the walk is exact on every tree, sealed objects included |
| `ListReference.KeysAreFiles` | pkg/storage/localfs.go:707-799 | the objects of a bucket over its files alone: plain files under clean keys outside the staging area, and directories with a shard and a readable manifest |
| `ListReference.ListedIsReported` | pkg/storage/localfs.go:742-796 | a listed plain object has the size and md5 of its bytes, a sealed one the size and ETag its manifest records |
| `ListReference.PlainFileListed` | pkg/storage/localfs.go:671-799 | a plain object is listed under its key exactly when that has the prefix, no delimiter behind it, and comes past the start |
| `ListReference.PutIsListed` | pkg/storage/localfs.go:625-904 | what was put is listed, with the size and md5 that Put answered |
| `ListReference.DelimitedKeysExact` | pkg/storage/localfs.go:682-705 | with a delimiter it lists all matching keys exactly when no sealed object's own directory is rolled up first |
| `ListReference.MixedPrefixesExact` | pkg/storage/localfs.go:671-705 | on every tree the walk misses no prefix, and reports no other exactly when every node that rolls up does so to a prefix some object's key starts with |
| `ListReference.SealedObjectHidden` | pkg/storage/localfs.go:682-705 | under delimiter "/" every sealed object with a slash-free key is missing and shows as a prefix of its own name |
| `ListReference.ObjKeyInjective` | pkg/storage/localfs.go:731-739 | two files of a bucket never stand for the same key |
| `ListReference.KeysAndPrefixesDisjoint` | pkg/storage/localfs.go:746-761 | no key is also a common prefix |
| `ListReference.StartAfterFilters` | pkg/storage/localfs.go:753-766 | starting later drops exactly the entries that do not come later |
| `Pagination.ListBucket` | pkg/storage/localfs.go:625-904 | objects and prefixes are those of the first maxKeys entries of the merged order, truncated exactly when there are more, and every object has the size and ETag of its file or manifest |
| `Pagination.SortAndCut` | pkg/storage/localfs.go:811-900 | sorting and cutting two disjoint lists is cutting their ordered union |
| `Pagination.Cut` | pkg/storage/localfs.go:880-899 | dropping everything from the first excluded entry on leaves exactly the first maxKeys entries |
| `Pagination.NextToken` | pkg/api/s3/server.go:574-589 | the token is the last entry of the page, object or prefix |
| `Pagination.Continue` | pkg/api/s3/server.go:539-589 | listing again from any entry gives exactly the entries behind it |
| `Pagination.FollowPartitions` | pkg/api/s3/server.go:574-589 | following tokens terminates, repeats nothing, omits nothing, with full pages but the last |
| `Pagination.TokensPartition` | pkg/api/s3/server.go:539-589 | on an unchanging tree the pages of a listing partition it, in order, in the stated number of pages |
| `Pagination.PageCountIsCeiling` | pkg/api/s3/server.go:539-589 | that number is ceil(n / maxKeys) for n > 0 entries |
| `LocalFS.LocalFS.MkdirAll` | pkg/storage/localfs.go:172-176 | adds missing ancestors, fails on a file in the way, changes no file |
| `LocalFS.LocalFS.Put` | pkg/storage/localfs.go:166-220 | success replaces exactly this object's bytes and returns their md5 and length; any failure leaves all files as they were |
| `LocalFS.LocalFS.Get` | pkg/storage/localfs.go:486-510 | the stored bytes and their md5, or the error cases |
| `LocalFS.LocalFS.Head` | pkg/storage/localfs.go:567-585 | size and md5 of a stored object, which a working disk always finds; nothing for an absent one |
| `LocalFS.LocalFS.Remove` | pkg/storage/localfs.go:611-618 | removes a file or an empty directory and nothing else |
| `LocalFS.LocalFS.RemoveEmptyParents` | pkg/storage/localfs.go:972-990 | terminates, never reaches the bucket, removes only empty directories on the way up, and all of them on a working disk |
| `LocalFS.LocalFS.Delete` | pkg/storage/localfs.go:587-623 | plain and sealed: which files go (of a sealed object the one its manifest names, and the manifest), that nothing else changes, and that no empty directory is left on a working disk when the shard stands beside its manifest |
| `LocalFS.LocalFS.DeleteSealed` | pkg/storage/localfs.go:590-603 | the named shard and the manifest go, failures ignored, then the emptied directories |
| `LocalFS.DeleteSealedKeepsTree` | pkg/storage/localfs.go:590-603 | a sealed Delete removes exactly its two files and, with the shard beside the manifest, leaves no empty directory |
| `LocalFS.LocalFS.List` | pkg/storage/localfs.go:625-904 | one page of the bucket, with the size and ETag of every object as its file or manifest has them; a missing bucket lists as empty |
| `LocalFS.LocalFS.IsBucketEmpty` | pkg/storage/localfs.go:906-953 | the stack search terminates and answers true exactly when every regular file is under .multipart |
| `LocalFS.FirstStack` | pkg/storage/localfs.go:918-926 | the first stack covers the bucket without its .multipart directory |
| `LocalFS.PopPush` | pkg/storage/localfs.go:927-950 | replacing a directory by its children uncovers only the directory |
| `LocalFS.LocalFS.RemoveBucket` | pkg/storage/localfs.go:955-970 | removes the bucket's tree only when it is vacant, otherwise changes nothing |
| `LocalFS.VacantListsNothing` | pkg/storage/localfs.go:918-926 | a vacant bucket holds no listable object exactly when no plain file is itself named .multipart |
| `MetadataStore.MemoryStore.constructor` | pkg/metadata/store.go:73-79 | an empty store |
| `MetadataStore.MemoryStore.CreateBucket` | pkg/metadata/store.go:93-102 | adds a bucket or reports that it exists |
| `MetadataStore.MemoryStore.DeleteBucket` | pkg/metadata/store.go:112-121 | removes a bucket or reports that it is missing |
| `MetadataStore.MemoryStore.InitiateMultipartUpload` | pkg/metadata/store.go:123-136 | a new upload without parts under its id |
| `MetadataStore.MemoryStore.PutPart` | pkg/metadata/store.go:149-164 | the latest part of a number wins; other uploads stay |
| `MetadataStore.MemoryStore.CompleteMultipartUpload` | pkg/metadata/store.go:166-178 | removes and returns the upload |
| `MetadataStore.MemoryStore.AbortMultipartUpload` | pkg/metadata/store.go:180-191 | removes the upload |
| `MetadataStore.MemoryStore.ListMultipartUploads` | pkg/metadata/store.go:193-215 | the active uploads of a bucket, or all, each once, oldest first |
| `MetadataStore.MemoryStore.ActiveMultipartCount` | pkg/metadata/store.go:217-228 | how many active uploads a bucket has |
| `MultipartModel.StagedPathIsPartKey` | pkg/api/s3/server.go:664-668 | the part key the handlers build leads to the staged path |
| `MultipartModel.StagedPathInjective` | pkg/api/s3/server.go:664-668 | bucket, key, upload and part number can be read off a staged path: no two parts share a file |
| `MultipartModel.StepKeepsInv` | pkg/api/s3/server.go:378-869 | every operation keeps: uploads and objects lie in existing buckets, and staged files and recorded parts correspond one to one with matching size and ETag |
| `MultipartModel.RunKeepsInv` | pkg/api/s3/server.go:378-869 | so does every run of operations |
| `MultipartModel.EmptyWorldInv` | pkg/metadata/store.go:73-79 | an empty store satisfies it |
| `MultipartModel.StagedIffRecorded` | pkg/api/s3/server.go:664-682 | of an active upload exactly the recorded parts are staged |
| `MultipartModel.ForeignPartBreaksInv` | pkg/api/s3/server.go:658-668 | a part sent under another bucket or key than its upload's own always destroys the correspondence: the handler does not compare them |
| `MultipartModel.DeleteUnderStaging` | pkg/api/s3/server.go:296-301 | a DELETE below the staging bucket keeps the stores consistent exactly when nothing is staged at its path |
| `MultipartModel.StagedThroughCount` | pkg/api/s3/server.go:767-779 | if parts 1..N can all be opened, N being how many are recorded, the recorded numbers are exactly 1..N |
| `MultipartModel.CompleteLeavesNothing` | pkg/api/s3/server.go:790-826 | after completion no staged part and no upload of that id is left, and the object is the concatenation of the latest parts in order |
| `MultipartModel.PartInPlace` | pkg/api/s3/server.go:766-798 | in the assembled object part i stands right behind the parts before it |
| `S3Server.IsValidBucketName` | pkg/api/s3/server.go:471-485 | the accepted bucket names, which never include the staging bucket |
| `S3Server.Server.CreateBucket` | pkg/api/s3/server.go:414-431 | which of refused name, existing bucket and success, exactly; success is one CreateBucket step, an error changes nothing; a consistent state stays consistent |
| `S3Server.Server.DeleteBucket` | pkg/api/s3/server.go:378-412 | refused exactly while uploads are active or an object is stored, otherwise done on a working disk; discards no listable object unless a plain file is named .multipart, and is one DeleteBucket step; an error changes nothing; consistency is kept |
| `S3Server.Server.PutObject` | pkg/api/s3/server.go:209-238 | on a working disk and a steady connection, where the file can be put, a body below the cap (or equal to it, with its end reported in time) is stored and answered with its md5, and any other is too large; success stores exactly the body; every refusal leaves both stores unchanged; consistency is kept |
| `S3Server.Server.DeleteObject` | pkg/api/s3/server.go:296-301 | removes exactly that path, in any bucket; an error changes nothing; a consistent state stays consistent exactly unless a staged part was removed |
| `S3Server.Server.InitiateMultipartUpload` | pkg/api/s3/server.go:622-646 | succeeds exactly for an existing bucket; success is one Initiate step; consistency is kept |
| `S3Server.Server.UploadPart` | pkg/api/s3/server.go:648-682 | stages the bytes and records size and md5 together, or changes nothing; on a working disk it succeeds for a part number from 1 to 10000 of an active upload where the file can be put; under the upload's own name it is one UploadPart step and keeps consistency |
| `S3Server.CheckParts` | pkg/api/s3/server.go:723-763 | accepted exactly when every listed part exists with its ETag and, if the int64 sum of their sizes reaches the minimum, every part but the highest-numbered reaches it; otherwise which error |
| `S3Server.AcceptableMeaning` | pkg/api/s3/server.go:723-763 | each listed part is on record with the listed ETag, and where the size rule applies only a part with the highest listed number is below the minimum |
| `S3Server.SizeCheck` | pkg/api/s3/server.go:740-762 | for sums below 2^63 the size rule means what it says; a sum between 2^63 and 2^64 wraps and escapes it |
| `S3Server.TotalSizeAdds` | pkg/api/s3/server.go:735-741 | the sum counts every listed part, repetitions included |
| `S3Server.TrimQuotesMeaning` | pkg/api/s3/server.go:728 | quotes and nothing else come off both ends, until none is left there |
| `S3Server.QuotedETag` | pkg/api/s3/server.go:728 | an ETag counts the same with its quotes and without |
| `S3Server.Server.GatherParts` | pkg/api/s3/server.go:766-781 | opens parts 1..N in order, or fails; on a working disk it fails only when one is missing |
| `S3Server.Server.Assemble` | pkg/api/s3/server.go:766-798 | the object becomes the concatenation of ALL uploaded parts 1..N, whatever the request listed, or no file changes |
| `S3Server.FinalETag` | pkg/api/s3/server.go:800-817 | md5 over the decoded part ETags in part order, with the part count |
| `S3Server.ETagOfParts` | pkg/api/s3/server.go:800-817 | these are the md5 digests of the staged parts |
| `S3Server.Server.CleanParts` | pkg/api/s3/server.go:819-823 | on a working disk exactly the staged parts 1..N go, otherwise at most those |
| `S3Server.Server.CompleteMultipartUpload` | pkg/api/s3/server.go:703-842 | success under the upload's own name means parts 1..N without gaps and, on a working disk, is one Complete step that keeps consistency; it succeeds whenever the request is acceptable, there is no gap, the name is free and the disk works; every error leaves both stores unchanged |
| `S3Server.Server.CompleteChecked` | pkg/api/s3/server.go:765-829 | assembly, ETag and clean-up, or nothing; with all parts staged and the name free it succeeds on a working disk |
| `S3Server.Server.FinishUpload` | pkg/api/s3/server.go:800-829 | the ETag, the clean-up of the staged parts, and the upload forgotten |
| `S3Server.CompleteIsApply` | pkg/api/s3/server.go:766-829 | assemble, clean up, forget is what completing an upload means |
| `S3Server.Server.AbortMultipartUpload` | pkg/api/s3/server.go:844-868 | succeeds exactly for an active upload; on a working disk it is one Abort step that keeps consistency, otherwise at most its staged parts are gone |
| `S3Server.Server.ListObjectsV2` | pkg/api/s3/server.go:516-612 | one page of the listing from the token, or failing that from start-after, with a positive max-keys or 1000, every object with the size and ETag of its file or manifest, and the token of its last entry when truncated |
| `S3Server.MaxKeysMeaning` | pkg/api/s3/server.go:529-537 | a positive decimal number is the page size; an empty, zero, negative or malformed one means 1000 |
| `S3Server.TokenAfter` | pkg/api/s3/server.go:573-589 | the token is the last entry of a truncated page and empty otherwise |
| `MultipartGC.ListedIsPage` | pkg/admin/gc.go:57-64 | a staging listing without delimiter is the first 1000 keys ahead under the prefix |
| `MultipartGC.DeletePage` | pkg/admin/gc.go:65-72 | the listed parts go one by one; the count is exactly the number of files removed |
| `MultipartGC.SweepOnce` | pkg/admin/gc.go:56-77 | each turn strictly shrinks what is ahead, deleted or not |
| `MultipartGC.Sweep` | pkg/admin/gc.go:54-77 | terminates even if every deletion fails; removes only files under the prefix, as many as it counts, and all of them on a working disk |
| `MultipartGC.RunMultipartGC` | pkg/admin/gc.go:39-84 | an upload is forgotten exactly when at least the threshold has passed since it was initiated, and otherwise unchanged; exactly the staged files under the forgotten ones' prefixes go on a working disk, never others; scanned, aborted and deleted are exact |
| `MultipartGC.CollectedByAge` | pkg/admin/gc.go:50-52 | with an upload every older one is collected, and with a positive threshold none initiated now |
| `MultipartGC.YoungKeepsParts` | pkg/admin/gc.go:50-77 | an upload that is not old enough keeps its record and every staged part, unless it is nested under one that is |
| `MultipartGC.PrefixCovers` | pkg/admin/gc.go:53-54 | the prefix of an upload covers its own parts, those of uploads whose key continues "<key>/<id>/", and no others |
| `MultipartGC.PartSwept` | pkg/admin/gc.go:53-77 | which staged parts a pass removes |
| `MultipartGC.GCKeepsInv` | pkg/admin/gc.go:39-84 | a pass keeps the invariant of both stores, younger uploads whole, exactly when no younger upload with parts is nested under a collected one |
| `MultipartGC.GCRemovesParts` | pkg/admin/gc.go:54-77 | every part of every collected upload goes and no user object does |
| `CanonicalRequest.UriEncode` | pkg/security/sigv4/verify.go:404-421 | computes the encoding that EncodeOne and EncodeConcat determine byte by byte |
| `CanonicalRequest.UriEncodePath` | pkg/security/sigv4/verify.go:423-447 | encodes a path, keeping slashes; an empty path is "/" |
| `CanonicalRequest.EncodeRoundTrip` | pkg/security/sigv4/verify.go:404-421 | percent-decoding undoes it for every byte string, so it is injective |
| `CanonicalRequest.EncodedChars` | pkg/security/sigv4/verify.go:404-421 | its output has only the unreserved characters of section 2.3 of RFC 3986, percent signs, and slashes where they are kept |
| `CanonicalRequest.EncodeOne` | pkg/security/sigv4/verify.go:404-421 | an unreserved byte stands for itself, any other becomes a percent sign and the two upper-case hexadecimal digits of its value |
| `CanonicalRequest.EncodeConcat` | pkg/security/sigv4/verify.go:404-421 | bytes are encoded one by one |
| `CanonicalRequest.EncodedEscapes` | pkg/security/sigv4/verify.go:404-421 | every percent sign of an encoded text has two upper-case hexadecimal digits behind it |
| `CanonicalRequest.UnchangedIffKept` | pkg/security/sigv4/verify.go:281-291 | a text is printed unchanged exactly when every byte of it stands for itself, so an escaped path is escaped again |
| `HeaderValues.TrimSpaces` | pkg/security/sigv4/verify.go:492-509 | computes the normalised value: trimmed, read as UTF-8 with U+FFFD for bytes that are none, runs of blanks collapsed |
| `HeaderValues.NormalizeIsWords` | pkg/security/sigv4/verify.go:492-509 | a normalised value is the words it reads as, with single spaces between them |
| `HeaderValues.SameWords` | pkg/security/sigv4/verify.go:492-509 | two values normalise alike exactly when they read as the same words |
| `HeaderValues.SameWordsIfValid` | pkg/security/sigv4/verify.go:492-509 | in valid UTF-8, exactly when they have the same words |
| `HeaderValues.InvalidBytesUnsigned` | pkg/security/sigv4/verify.go:497-506 | a value and its reading normalise alike, and have the same words exactly when the trimmed value is valid UTF-8 |
| `Runes.EncodeDecoded` | pkg/security/sigv4/verify.go:497-506 | reading a character and writing it back restores valid bytes, and leaves U+FFFD for one byte that is not |
| `Runes.KeptIffValid` | pkg/security/sigv4/verify.go:497-506 | a text read and written back is unchanged exactly when it is valid UTF-8 |
| `HeaderValues.NormalizedLacksNewline` | pkg/security/sigv4/verify.go:492-509 | a normalised value holds no line break |
| `CanonicalRequest.CanonicalQueryString` | pkg/security/sigv4/verify.go:319-339 | the text of the signed pairs in a possible sort order of the keys, whatever order the map yields and however case is folded |
| `CanonicalRequest.CountInQuery` | pkg/security/sigv4/verify.go:331-337 | every signed pair is printed as often as it occurs, and no other |
| `CanonicalRequest.QueryDetermines` | pkg/security/sigv4/verify.go:319-339 | equal query texts come from the same keys with the same multisets of values |
| `CanonicalRequest.DifferentQueriesDiffer` | pkg/security/sigv4/verify.go:319-339 | queries that differ in a parameter other than the signature of a presigned URL have different texts |
| `CanonicalRequest.QueryDetermined` | pkg/security/sigv4/verify.go:319-339 | the same pairs give the same text in whatever order they came, when no two signed keys differ only by case |
| `CanonicalRequest.OneTextIffCaseDistinct` | pkg/security/sigv4/verify.go:329 | for every lower-casing function the query text is well defined exactly when no two signed keys have the same lower case |
| `CanonicalRequest.SignatureNotSigned` | pkg/security/sigv4/verify.go:323-326 | adding or changing X-Amz-Signature does not change what a presigned URL signs |
| `CanonicalRequest.CanonicalHeadersAndList` | pkg/security/sigv4/verify.go:341-402 | the present headers among the listed ones, once each, in ascending order, with their first values normalised, whatever the order, case and repetitions of the list |
| `CanonicalRequest.HostIsTheRequests` | pkg/security/sigv4/verify.go:352-364 | the host that is signed is the request's own, and failing that the Host header |
| `CanonicalRequest.NamedHeader` | pkg/security/sigv4/verify.go:365-372 | a header is found under its canonical name in whatever case its name is listed |
| `CanonicalRequest.HeadersFromText` | pkg/security/sigv4/verify.go:375-385 | the header block determines the headers and where it ends |
| `CanonicalRequest.BuildCanonicalRequest` | pkg/security/sigv4/verify.go:281-317 | refused exactly when no listed header is present, otherwise the canonical text of the request |
| `CanonicalRequest.SmallText` | pkg/security/sigv4/verify.go:303-316 | the whole text of a request with two values of a parameter and two headers, piece by piece |
| `CanonicalRequest.FieldsFromText` | pkg/security/sigv4/verify.go:303-316 | equal texts are equal field by field, whatever the payload hash field holds |
| `CanonicalRequest.CanonicalDetermines` | pkg/security/sigv4/verify.go:281-386 | equal canonical requests have the same method, path with leading slash, multiset of signed query pairs, names and normalised first values of signed headers, and payload hash |
| `CanonicalRequest.CanonicalDeterminesValues` | pkg/security/sigv4/verify.go:281-386 | when every signed header has one value, in UTF-8, they have the same words in every signed header |
| `CanonicalRequest.LaterValuesUnsigned` | pkg/security/sigv4/verify.go:360-370 | every request has the canonical request of the one with all but first values dropped; the two agree on all values of the signed headers exactly when none has more than one |
| `CanonicalRequest.AddedValuesUnsigned` | pkg/security/sigv4/verify.go:360-370 | the failing pair: values added behind the first change nothing |
| `CanonicalRequest.InvalidValuesUnsigned` | pkg/security/sigv4/verify.go:492-509 | every request has the canonical request of the one with its values as they are read; the two have the same words in all signed headers exactly when all values are valid UTF-8 |
| `CanonicalRequest.CanonicalDetermined` | pkg/security/sigv4/verify.go:281-386 | the same signed request gives the same text, however parameters and signed headers were ordered, when no two signed keys differ only by case |

## Left out

- HTTP routing, response headers, XML and JSON: requests and responses are datatypes, a manifest file is a record or garbage.
- Clocks and modification times: `now` and upload ids are parameters, LastModified is not part of any result.
- The insides of sha256, md5, crc32c and HMAC, and what fsync does: rename is one atomic step.
- Keys that filepath.Clean would change, and keys whose last component is `data.ss1` or `object.meta`: the plain store and the handlers take clean keys only; leftover temporary files are not in the tree.
- LocalFS.LocalFS.Delete: a manifest's shard path is taken to lie below `objects/`.
- LocalFS.LocalFS.List: read errors inside the walk fail the whole listing; which files they hit is not modelled.
- SealedStore.SealedFS.Put: payloads are shorter than 2^63 - 28 bytes, so that file offsets fit the program's integers; shard and manifest are kept in maps by path and by object, and the directories around them appear only in `LocalFS`.
- CanonicalRequest.BuildCanonicalRequest: Unicode's case tables are parameters, of which only idempotence and leaving line breaks and colons in place are used; the escaped path and the decoded query are given.
- Verifying signatures beyond the canonical request: credential scopes, key derivation and time windows are short straight-line code.
- Worker and scrubber start and stop flags, tickers and back-off delays: steps happen in any order; starting a second time is not modelled.
- ScrubPass.PassHeals: one data directory, single-shard objects stored under their own paths, no writer beside the scrub and the repairs, no cancellation and no read error in the walk; the repair queue takes every item. Repairs replace files under their names, so the tree's names stay fixed during a pass.
- Concurrent Put and Repair of one object, which can lose updates: crash points of sequential operations only.
- Repair priorities, which the queue ignores; placeholders `NoopCodec` and `NoopScrubber`; erasure coding over several shards, which does not exist yet.
- OIDC, RBAC, tracing, metrics and configuration.
