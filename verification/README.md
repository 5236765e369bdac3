# A verified model of Kage

Kage is a message broker that speaks the Kafka wire protocol and keeps every partition in an
append-only, length-framed log. This project models its four connected cores in Dafny and proves
what they keep over whole runs.

* **The log engine.** `RecordLog` says what a framed log is; `SparseIndex`, `Segments`, `Partitions`
  and `Cleaner` are the index, the segment with its write buffer, the partition that rolls over from
  segment to segment, and the retention cleaner that works without the lock. `IndexLookups` and
  `PartitionReads` say which lookups and reads they serve, `FilledSegments` when segments are left.
  `Names`, `Directories`, `Broker` and `PartitionCreation` cover file and directory names, the discovery
  of partitions and their creation by competing connections.
* **The produce and fetch path.** `RecordBatches` is the batch check and the in-place rewriting of
  base offsets; `ProduceHandler` and `FetchHandler` store batches and serve them through a byte
  budget; `SharedDisk` says when the partitions they work on are really apart on disk; `Encoder` and
  `FetchResponse` write the response frame, and `FetchService` goes from a request's bytes to it.
* **Consumer offsets.** `OffsetRecords` is the stored format, `OffsetHandlers` the commit, fetch and
  load operations, `CommitProtocol` the interleavings of connections that append under one lock and
  cache under another, `ProducedCommits` a batch that is also a commit.
* **The request side of the wire.** `Wire` and `Requests` read and lay out every request the broker
  accepts; `WireLimits` says what becomes of their counts; `Decoder` is the cursor on the connection and
  the connection loop.

`Bytes`, `Seqs`, `Outcomes` and `Messages` hold what all of these share.

An object whose methods update its fields is a class, and each of its methods is proved equal to a
function on the object's state; the properties are then lemmas about those functions and about
runs of them. The handlers are besides held to what a client is owed, in terms of the request, the
answer and the records of each partition alone (`FetchHandler.RequestServed`,
`ProduceHandler.RequestProduced`, `OffsetHandlers.RequestCommitted`). Machines with several threads (`Cleaner`, `PartitionCreation`, `CommitProtocol`) are step
relations, and their theorems hold in every state of every interleaving. Integers are unbounded, and every
conversion of the source that drops bits is written out. Topic names are byte strings, as Go keeps them.
A file is a byte sequence. The checksum is a parameter, so the statements hold for any 32-bit checksum.
A Go panic is an outcome of its own.

Where a property does not hold on every input, the model keeps the code as it is and states exactly
when it holds, or what holds in its place:

* The comment on `CleanOldSegments` says the active segment is never touched. It is safe in every
  interleaving if and only if the cutoff is taken less than the retention after the active base was
  read (`Cleaner.SafeIffTimely`).
* The comment on `PartitionStore.Append` says it returns an absolute offset. It returns one counted from
  the start of the segment, so the partition-wide position is the segment's base plus that offset
  (`Partitions.AppendKeepsChain`).
* A partition leaves a segment when a record does not fit, also for a record that fits no segment, which
  is then refused. So segments are left only when full if and only if no such record is offered
  (`FilledSegments.FilledIffNoOversize`).
* A partition reopened after a rollover serves its first segment only
  (`Partitions.ReopenServesFirstSegment`), so a restart keeps a committed offset if and only if no
  later segment sets it otherwise (`OffsetHandlers.RestartLoads`, `OffsetHandlers.RolloverForgets`).
* A commit is appended and cached under two locks, and a produce request may name the offsets topic.
  A restart reads at most 2^31 - 1 bytes, and a topic such as "/__consumer_offsets" has a store of its
  own over the same file. The cache is the replay of the log in every quiescent state of every run if and
  only if commits of one key do not overlap, no produced batch reads as a commit, no restart has more to
  load than it reads and no other store writes to the file (`CommitProtocol.AgreesIffOrderly`). Among
  canonical keys there is no such other store (`SharedDisk.CommitOnDisk`).
* A key is joined to the root as a path and the path is cleaned, so topics "/b" and "b" are two
  partitions in one directory. Keys without empty, "." or ".." components are kept apart
  (`Directories.AloneIffCanonical`), and a batch leaves another partition as it was if and only if their
  directories differ (`SharedDisk.UntouchedIff`).
* A window on a log is readable until the segment is closed, which a rollover does
  (`Segments.WindowStable`, `PartitionReads.WindowReadable`).
* A fetch adds the four bytes of a record header to its cap in 32 bits, so a cap above 2^31 - 5 is an
  error (`FetchHandler.ServedIff`).
* The batch check slices past its own header when the length field is below 9
  (`RecordBatches.PanicsIff`).
* A record of 4 GiB or more does not read back, since its length field keeps 32 bits
  (`Segments.OffsetReadsBack`).
* An index entry keeps 32 bits of its position, so lookups are right up to 2^32 and no further
  (`IndexLookups.ServedIffBelow`).
* Well-formed requests are those in the layouts written in `internal/protocol/messages.go`. The version
  table at lines 972 to 985 of that file advertises more: Metadata 8 and 9, Fetch 0 to 3, ListOffsets 0,
  OffsetCommit 0 and 1 and JoinGroup 0 have other layouts in the Kafka protocol, and nothing is claimed
  about a client that uses those.
* Names that do not survive the trip through a directory name are characterised by
  `Names.NameRoundTrip` and `Broker.ListedIff`.

## Model

| member | source | states |
|---|---|---|
| `Bytes.GetPut` | internal/protocol/encoder.go:18-38 | reading back a big-endian integer of any width gives the value written, for every value that fits |
| `RecordLog.FrameAt` | internal/storage/segment.go:40-50 | record i lies exactly between its start and the next start, behind the records before it |
| `RecordLog.StartStable` | internal/storage/segment.go:121-150 | later records never move earlier ones |
| `RecordLog.RecordAtStart` | internal/storage/segment.go:178-202 | in any log, whatever follows it, the record at a start reads back if and only if its length fits 32 bits |
| `RecordLog.ScanFromBoundary` | internal/storage/index.go:148-155 | a forward scan from a record boundary at or before the target, behind records that fit their length fields, ends as the scan from zero does |
| `RecordLog.ScanFinds` | internal/storage/index.go:148-155 | a scan from zero finds a record at the target if and only if one starts there, and finds that one |
| `SparseIndex.EntriesRoundTrip` | internal/storage/index.go:87-115 | an index file written entry by entry loads as exactly those entries |
| `SparseIndex.DecodeAppend` | internal/storage/index.go:126-146 | appending one encoded entry to a whole index file appends one entry to what it loads |
| `SparseIndex.ReopenIndex` | internal/storage/index.go:188-207 | a clean close and reopen keeps every entry |
| `SparseIndex.FloorIs` | internal/storage/index.go:148-155 | the floor of a target is the entry at or before it whose successor lies beyond it |
| `SparseIndex.Index.constructor` | internal/storage/index.go:65-83 | opening loads the entries of the file and counts no bytes yet |
| `SparseIndex.Index.MaybeAppend` | internal/storage/index.go:126-146 | the file goes on being the encoded entries, entries stay sorted under growing offsets, the byte count stays below 4096, and no more than one entry is kept for each 4096 bytes counted |
| `SparseIndex.Index.Lookup` | internal/storage/index.go:156-179 | the bisection returns the last entry at or before the target on sorted entries, and never one beyond it on any entries |
| `Segments.Segment.constructor` | internal/storage/segment.go:83-116 | a segment opens over the bytes of its two files; its limit is the configured one, and 1 GiB for zero or less |
| `Segments.Segment.Append` | internal/storage/segment.go:121-150 | a payload is accepted if and only if it and its four bytes of header still fit under the limit; then it is the next record and its offset the end of the log before, and otherwise nothing changes |
| `Segments.Segment.ReadAt` | internal/storage/segment.go:178-202 | the read at a record's start returns that record if and only if its length fits 32 bits; buffered bytes become visible |
| `Segments.Segment.Read` | internal/storage/segment.go:226-251 | below 2^63 a window is granted if and only if it is not empty and lies in the log; then its bytes in the file are the log's, and the segment holds the records it held |
| `Segments.Segment.Flush` | internal/storage/segment.go:154-168 | both buffers reach their files and nothing else changes |
| `Segments.Segment.Close` | internal/storage/segment.go:267-281 | the two files end up with every byte written |
| `Segments.AppendHolds` | internal/storage/segment.go:121-150 | an accepted append keeps the segment's invariant: its bytes are the frames of its records under a sound index |
| `Segments.RunHolds` | internal/storage/segment.go:83-281 | any sequence of appends, flushes, spills, reads, closes and reopens leaves the records held before plus those accepted, in order |
| `Segments.SegmentRuns` | internal/storage/segment.go:83-281 | every run on a new segment leaves file and buffer holding exactly the accepted payloads |
| `Segments.OffsetReadsBack` | internal/storage/segment.go:121-202 | an offset once returned reads back its payload after any later run if and only if the payload is below 4 GiB |
| `Segments.WindowStable` | internal/storage/segment.go:204-251 | a window handed out shows the bytes it was granted after any later operations if and only if the segment was not closed |
| `Segments.NeverPassesMax` | internal/storage/segment.go:121-150 | a segment that began within its limit never passes it in any run |
| `Segments.ReopenHolds` | internal/storage/segment.go:83-116 | a clean close and reopen keeps the records, the invariant and the index entries |
| `IndexLookups.IndexRefinesScan` | internal/storage/index.go:126-179 | at any segment size, a lookup whose floor entry lies at 2^32 or before finds a record exactly when a scan of the whole log does, and the same one |
| `IndexLookups.LookupsServed` | internal/storage/index.go:126-179 | so every target up to 2^32 is served, and every target at all in a segment of at most 4 GiB |
| `IndexLookups.NotServed` | internal/storage/segment.go:141-147 | a segment of three records below 2^31 bytes whose last, at 2^32 + 1, its own index entry does not find |
| `IndexLookups.ServedIffBelow` | internal/storage/segment.go:141-147 | every segment serves every lookup below a limit if and only if the limit is at most 2^32 + 1 |
| `IndexLookups.IndexDensity` | internal/storage/index.go:13-16 | in every run of a new segment 4096 bytes of log stand behind each entry, hence at most 262144 entries at 1 GiB |
| `IndexLookups.SessionRun` | internal/storage/index.go:126-146 | until a reopen, the index of a segment begun empty holds exactly the records its session selects |
| `IndexLookups.SessionGaps` | internal/storage/index.go:13-16 | the records a session selects lie fewer than 4096 bytes apart, from the end of one to the start of the next |
| `IndexLookups.SessionIndex` | internal/storage/index.go:13-146 | in every run of a new segment without a reopen each entry is the start of an accepted record, fewer than 4096 bytes lie between indexed records, and the byte count is the distance to the end of the log |
| `Partitions.PartitionStore.constructor` | internal/storage/store.go:60-71 | a partition opens its segment at base 0 |
| `Partitions.PartitionStore.Append` | internal/storage/store.go:75-90 | one rollover at most, then the record is offered once more; offset and base follow from the sizes: the end of the segment when the record fits it, the start of the next one when it fits that, and no offset when it is larger than a segment |
| `Partitions.PartitionStore.Rollover` | internal/storage/store.go:94-106 | the active segment is closed on disk and the next one opened at the summed size |
| `Partitions.PartitionStore.Read` | internal/storage/store.go:114-134 | below 2^63 a read is granted if and only if it starts in the active log and asks for bytes; it shows the log from there up to the cap or the end, and the chain is what it was |
| `Partitions.PartitionStore.Close` | internal/storage/store.go:151-155 | the closed segment's files hold every byte |
| `Partitions.AppendKeepsChain` | internal/storage/store.go:75-106 | however an append ends, the segments tile the partition and hold what they held plus the record if accepted; base plus offset is the bytes accepted before |
| `Partitions.RefusedIffOversize` | internal/storage/store.go:75-90 | a record is refused if and only if it is larger than a whole empty segment |
| `Partitions.AppendPlace` | internal/storage/store.go:75-106 | where an append puts its record, from the sizes and the limit alone |
| `FilledSegments.SessionsFill` | internal/storage/store.go:75-106 | in every session of a new partition without an oversize record, no segment is left while the record it was left for still fits it |
| `FilledSegments.OversizeRollsEarly` | internal/storage/store.go:75-106 | a run in which a record larger than a segment leaves a segment that had room |
| `FilledSegments.FilledIffNoOversize` | internal/storage/store.go:75-106 | segments are left only when full in every run under a limit if and only if no record larger than a segment is offered |
| `Partitions.RunKeepsChain` | internal/storage/store.go:75-106 | the chain invariant holds after any sequence of appends, flushes and reads, and the chain grows by the accepted records |
| `Partitions.PartitionRuns` | internal/storage/store.go:60-106 | in any session on an empty directory the segments tile from 0, the active base is the closed total, and the records are the accepted ones in order |
| `Partitions.ReopenServesFirstSegment` | internal/storage/store.go:60-71 | a reopen serves the first segment, which is everything if and only if later segments are empty |
| `Partitions.PartReadServes` | internal/storage/store.go:114-134 | for offsets below 2^63 a read serves exactly the bytes there are up to the cap, or the right error |
| `PartitionReads.WindowReadable` | internal/storage/store.go:75-134 | a window read outside the lock shows the bytes it was granted after any further operations if and only if none of them rolls the partition over |
| `PartitionReads.AcknowledgedStaysServed` | internal/server/handler.go:308-397 | a batch acknowledged by a partition comes back at its offset after any operations that do not roll the partition over |
| `PartitionReads.RolloverHides` | internal/storage/store.go:75-134 | after an append that rolls over, a fetch at an old offset is served bytes of the new record if and only if the offset lies within it, and nothing otherwise |
| `Cleaner.Directory.CleanOldSegments` | internal/storage/store.go:164-214 | one sweep removes exactly the listed logs that are not the active one and no younger than the cutoff, each with the index of its own stem, leaves every other file, and counts the logs |
| `Cleaner.SweepIs` | internal/storage/store.go:178-212 | the sweep of any listing, file by file: a name is gone if and only if it is a doomed log or the index beside one |
| `Cleaner.SweptSegments` | internal/storage/store.go:178-212 | segment by segment: log and index go together, exactly when the segment is closed, listed and expired |
| `Cleaner.StatDecides` | internal/storage/store.go:180-194 | a cleaner call condemns a listed file if and only if it is a log other than the one it saw active and no younger than its cutoff |
| `Cleaner.RemovalsTake` | internal/storage/store.go:196-211 | the two removals take the condemned log and the index of its stem, and nothing else |
| `Cleaner.StepKeeps` | internal/storage/store.go:164-214 | every step of any cleaner call, append or rollover keeps the invariant that protects the active files |
| `Cleaner.ActiveNeverRemoved` | internal/storage/store.go:157-214 | in every interleaving of any number of cleaner calls, the active segment keeps both files when each cutoff follows its snapshot within the retention |
| `Cleaner.LateRun` | internal/storage/store.go:164-173 | a concrete schedule with a late cutoff in which the active log is removed |
| `Cleaner.SafeIffTimely` | internal/storage/store.go:157-214 | every interleaving is safe if and only if the delay between snapshot and cutoff stays below the retention |
| `Names.PaddedInjective` | internal/storage/segment.go:88-88 | two base offsets never share a file stem |
| `Names.FileNames` | internal/storage/store.go:170-204 | logs and indexes of different segments differ in name, and a log's stem names its own index |
| `Names.PaddedWidth` | internal/storage/segment.go:83-96 | every base offset below 2^64 is printed in twenty digits |
| `Names.MatchIsShape` | internal/storage/broker_store.go:15-17 | splitting at the last hyphen finds exactly the two groups of the pattern, which are unique |
| `Names.NameRoundTrip` | internal/storage/broker_store.go:40-79 | the printed name reads back as its topic and partition if and only if the topic is not empty, has no newline, and the number is not negative |
| `Names.KeysInjective` | internal/storage/broker_store.go:40-42 | distinct well-named partitions have distinct keys |
| `Broker.BrokerStore.constructor` | internal/storage/broker_store.go:52-95 | the scan opens every directory whose name reads as a partition, under its key |
| `Broker.BrokerStore.GetOrCreatePartition` | internal/storage/broker_store.go:99-130 | a new key gets a store in the directory its cleaned path names, with all directories above it; a known key changes nothing; among plain partitions a new store never finds a directory and the stores stay exactly those created |
| `Broker.BrokerStore.Topics` | internal/storage/broker_store.go:133-152 | the listing holds exactly the created partitions, each once |
| `Broker.DiscoveryFinds` | internal/storage/broker_store.go:62-92 | a scan of the root, in any order, among files and directories that are no partitions, finds exactly the created partitions in their directories |
| `Broker.ReopenRestores` | internal/storage/broker_store.go:52-95 | a reopen over the same directories restores the same stores and the same listing |
| `Broker.ListedIff` | internal/storage/broker_store.go:133-152 | a partition is listed under its own name if and only if its topic is not empty and has neither newline nor slash, and its number is not negative |
| `Broker.NewIsAbsent` | internal/storage/broker_store.go:114-127 | the directory of a plain partition that is not open is not there, among plain partitions |
| `Directories.OwnDirIff` | internal/storage/broker_store.go:45-47 | a partition is kept in the directory its key spells below the root if and only if no component of the key is empty, "." or ".." |
| `Directories.DirsApart` | internal/storage/broker_store.go:45-47 | two canonical keys never share a directory |
| `Directories.AloneIffCanonical` | internal/storage/broker_store.go:40-47 | a partition kept below the root shares its directory with no other canonical key if and only if its own key is canonical |
| `Directories.SlashShares` | internal/storage/broker_store.go:40-47 | a topic with a slash put before it is another key kept in the same directory |
| `Directories.DotsShare` | internal/storage/broker_store.go:40-47 | so is a key behind "./", or behind a component and the ".." that takes it back |
| `SharedDisk.UntouchedIff` | internal/storage/broker_store.go:99-130 | a batch accepted for one key and flushed leaves another open partition as it was if and only if their directories differ |
| `SharedDisk.SharedOffsetMisreads` | internal/storage/broker_store.go:99-130 | once another key of the same directory has flushed its records, the offset a store acknowledges for its next record reads back the other key's first record |
| `SharedDisk.SlashTouches` | internal/server/handler.go:176-190 | a batch for a topic with a slash before it changes the partition of the topic without |
| `PartitionCreation.StepKeeps` | internal/storage/broker_store.go:99-130 | every step of the double-checked creation keeps the locking invariant and never changes a published entry |
| `PartitionCreation.NeverOpenedTwice` | internal/storage/broker_store.go:99-130 | in no interleaving of any number of callers are two stores opened for one key |
| `PartitionCreation.OneStorePerKey` | internal/storage/broker_store.go:99-130 | any two successful calls for a key, at any two moments, return the same store, opened for that key |
| `PartitionCreation.PublishedForGood` | internal/storage/broker_store.go:99-130 | a published entry is never changed or withdrawn |
| `PartitionCreation.EndedCallsAnswer` | internal/storage/broker_store.go:99-130 | a call ends with the store of its key, unless opening failed |
| `PartitionCreation.OpenerAnswers` | internal/storage/broker_store.go:113-130 | the call that opened a store returns that store |
| `RecordBatches.ValidateIgnoresBaseOffset` | internal/protocol/record_batch.go:56-85 | the verdict and the record count do not depend on bytes 0 to 7 |
| `RecordBatches.PatchBaseOffsets` | internal/server/handler.go:371-391 | the in-place loop stays in bounds, ends, and turns any payload into its patched form with 64-bit wrap-around |
| `RecordBatches.PatchTouchesOnlyBases` | internal/server/handler.go:371-391 | on any payload whatever, no byte outside the base offset fields reached is changed |
| `RecordBatches.PatchBatches` | internal/server/handler.go:371-391 | a row of complete batches is rebased one by one, whatever follows it |
| `RecordBatches.RebasedAt` | internal/server/handler.go:354-391 | batch i then sends a client to the fetch offset plus 4 plus the lengths of batches 0 to i, modulo 2^64, for any signed delta, with its bytes from 8 on unchanged |
| `FetchHandler.Handler.HandleFetch` | internal/server/handler.go:239-411 | every topic and partition is answered in its place, from the log of that partition: the high watermark is its size, bytes come back if and only if offset, budget and cap allow it, the record asked for comes first, rebased, and the budget left is what the answers before did not use |
| `FetchHandler.HandledServes` | internal/server/handler.go:245-411 | the loops answer a request as the logs it was sent to require |
| `FetchHandler.Handler.FetchPartition` | internal/server/handler.go:257-397 | one partition: creation on demand, the answer, the flush behind a granted read and the budget spent |
| `FetchHandler.ServeSegment` | internal/server/handler.go:275-397 | the branches over one log, with the size taken before the read and perhaps outdated by it, compute the answer and tell whether the log was read |
| `FetchHandler.BudgetConserved` | internal/server/handler.go:245-397 | over any request and any stores, what remains plus what was served is the budget, and no more than the budget is served |
| `FetchHandler.BudgetUnderInterference` | internal/server/handler.go:245-397 | the same whatever other connections append or roll over between taking a size and reading, at every partition of the request |
| `FetchHandler.SplitServes` | internal/server/handler.go:275-397 | while the segment stays active, appends between the two steps leave the record asked for at the front of the answer |
| `FetchHandler.AnswerBound` | internal/server/handler.go:294-397 | each answer stays within its own limit and the budget, and announces exactly its bytes, however the cap wraps |
| `FetchHandler.ServedIff` | internal/server/handler.go:277-349 | something is served if and only if the offset is a header before the watermark and the cap is in 1 to 2^31 - 5; and exactly which empty answers are errors |
| `FetchHandler.ServeAny` | internal/server/handler.go:308-397 | a fetch at a record with any cap serves the rebased batch first, or its first bytes unchanged when the cap is too small |
| `FetchHandler.ServeConcatenated` | internal/server/handler.go:349-397 | a record of several batches comes back with each batch rebased in its place |
| `FetchHandler.ServedBatch` | internal/server/handler.go:294-397 | the first batch differs from the stored one in bytes 0 to 7 only, validates alike, and sends the client to the next record's start |
| `FetchHandler.ProducedBatchComesBack` | internal/server/handler.go:294-397 | a batch that validates, appended to a segment, comes back at its offset after any later run of the segment |
| `FetchHandler.ClientVisitsEveryRecord` | internal/server/handler.go:351-391 | a client that starts at 0 and moves on after the first batch of each answer visits every record in order and ends at the high watermark, for any fetch size with room for each record |
| `ProduceHandler.Producer.HandleProduce` | internal/server/handler.go:136-230 | every partition is answered in its place: 2 if and only if the batch is corrupt, 0 if and only if it is sound, its partition opens and it fits a segment; each partition then holds, after what it held, the batches it acknowledged, in request order, each where its answer says; a panic happens if and only if a batch of magic 2 has a length field below 9; no answer for acks 0 |
| `ProduceHandler.AcknowledgedIffStored` | internal/server/handler.go:159-217 | for the partition the key opens: no error is answered if and only if the batch is empty or valid, the partition opens and the batch fits an empty segment; then it is the next record, and otherwise the records are what they were |
| `RecordBatches.ValidIffPasses` | internal/protocol/record_batch.go:56-85 | the check lets a batch through if and only if it has 61 bytes, magic 2, a length field that fits it, and the checksum of bytes 21 to the end that field gives |
| `ProduceHandler.ChecksumDecides` | internal/server/handler.go:157-217 | a batch of the right shape carrying any sum is acknowledged if and only if the sum is the checksum of the bytes it covers, its partition opens and it fits; then it is stored, and with another sum the answer is 2 and -1 and nothing is stored |
| `ProduceHandler.AcknowledgedAgree` | internal/server/handler.go:157-174 | two acknowledged batches that agree up to byte 21 cover bytes with the same checksum |
| `ProduceHandler.HandledProduces` | internal/server/handler.go:146-217 | the loops leave in every partition exactly what they acknowledge to it, in order |
| `ProduceHandler.ProducedIsServed` | internal/server/handler.go:146-411 | a produce request, then a fetch request, over any topic lists: the offset acknowledged for a batch returns that batch of that partition first, rebased, while it is in the active segment and within the budget |
| `SharedDisk.ProduceOnDisk` | internal/server/handler.go:159-217 | for canonical keys a produced batch does to the files on disk what it does to the map of partitions, and is acknowledged alike |
| `SharedDisk.ProduceAllOnDisk` | internal/server/handler.go:146-217 | so does any row of them, and each is acknowledged as over the map |
| `SharedDisk.ProduceFromEmpty` | internal/server/handler.go:146-217 | in particular from an empty disk on |
| `SharedDisk.FetchOnDisk` | internal/server/handler.go:257-397 | and a fetch is answered from the disk as it is from the map |
| `SharedDisk.FetchAllOnDisk` | internal/server/handler.go:245-397 | over a whole fetch request every answer, the partitions and the budget are those of the map |
| `SharedDisk.CommitOnDisk` | internal/server/handler.go:523-552 | among canonical keys a commit does to the disk and the cache what it does to the map's offsets partition, and a load of the disk is a load of that partition |
| `ProduceHandler.ProduceThenFetch` | internal/server/handler.go:136-397 | produce then fetch at the acknowledged offset, across a rollover too: the batch comes back equal but for bytes 0 to 7, validates alike, and its cursor is the new high watermark |
| `Encoder.Encoder.WriteString` | internal/protocol/encoder.go:40-43 | a string goes out behind the low 16 bits of its length |
| `Encoder.Encoder.WriteNullableString` | internal/protocol/encoder.go:47-53 | null goes out as length -1, anything else as a string |
| `Encoder.Encoder.FullMessage` | internal/protocol/encoder.go:63-70 | the two copies build the buffer behind its own length |
| `Encoder.FullMessageBack` | internal/protocol/encoder.go:63-70 | a framed message below 2^31 bytes reads back whole and leaves what follows |
| `FetchResponse.PredictSize` | internal/protocol/messages.go:504-517 | the nested 32-bit sums equal the predicted size taken modulo 2^32 |
| `FetchResponse.PredictedExact` | internal/protocol/messages.go:500-562 | for any nesting, the size predicted before writing is the number of bytes written behind the prefix |
| `FetchResponse.PredictedOff` | internal/protocol/messages.go:500-562 | with every other reader of the response exact, the frame is as long as predicted if and only if this reader yields its announced size |
| `FetchResponse.AnnouncedIff` | internal/protocol/messages.go:519-527 | the prefix a client reads counts the bytes behind it if and only if they are fewer than 2^31 |
| `FetchResponse.WriteFetchResponse` | internal/protocol/messages.go:500-562 | the writer emits the length, the header and each topic with its batches in place |
| `FetchResponse.ResponseRoundTrip` | internal/protocol/messages.go:474-562 | decoding the frame in its documented layout returns the response and ends where the frame ends |
| `FetchResponse.HandledFrame` | internal/server/handler.go:257-414 | whatever the fetch handler answers reads back from its frame, and its announced size is right below 2^31 bytes |
| `FetchService.ServeFetch` | internal/server/handler.go:239-416 | from the bytes of any well-formed fetch request on the connection to a frame from which a client reads its correlation id and, for each partition it asked for, what the log of that partition has to answer, the cursor left at the next request |
| `OffsetRecords.DecodeIsLayout` | internal/server/handler.go:688-747 | decoding yields a commit if and only if the record has the stored layout of that commit |
| `OffsetRecords.RecordRoundTrip` | internal/server/handler.go:688-765 | a commit reads back from its own record if and only if both names are below 65536 bytes |
| `OffsetRecords.KeysApart` | internal/server/handler.go:752-765 | distinct keys are stored differently |
| `OffsetRecords.EncodeOffsetKey` | internal/server/handler.go:752-765 | the buffer filled field by field holds the key's layout |
| `OffsetRecords.EncodeOffsetRecord` | internal/server/handler.go:955-966 | the buffer holds key and value, each behind its 32-bit length |
| `OffsetRecords.DecodeOffsetRecord` | internal/server/handler.go:688-747 | the cursor stays in bounds on every byte string and the result is the decoding |
| `OffsetRecords.DecodeOffsetKey` | internal/server/handler.go:714-740 | the key cursor stays in bounds on every byte string and the result is the decoding |
| `OffsetRecords.HydrateLog` | internal/server/handler.go:649-678 | the byte-level load of a whole log is the fold over its records, malformed ones skipped |
| `OffsetRecords.HydrateWindow` | internal/server/handler.go:649-678 | the load of a cut-off log replays the whole records before the cut, and fails if and only if the cut leaves a header without its body |
| `OffsetRecords.ReplayCommits` | internal/server/handler.go:655-678 | the replay of commit records is the last-writer-wins fold of the commits |
| `OffsetHandlers.OffsetManager.HandleOffsetCommit` | internal/server/handler.go:490-571 | every partition is answered in its place, 0 if and only if the offsets partition opens and its record fits a segment; each key of the group then has the last offset answered with 0, every other key what it had, and the partition the records of those commits after its own, in request order |
| `OffsetHandlers.OffsetManager.HandleOffsetFetch` | internal/server/handler.go:578-621 | every topic and partition is answered in its place with the offset cached for the group, the topic and the partition, and -1 when there is none |
| `OffsetHandlers.HandledCommits` | internal/server/handler.go:500-563 | the loops leave in cache and partition exactly the commits they answer with 0 |
| `OffsetHandlers.CommitThenFetch` | internal/server/handler.go:490-621 | a commit request, then a fetch request of that group: a partition answered with 0 and not committed again later in the request is answered with its offset |
| `OffsetHandlers.CommitLeavesOthers` | internal/server/handler.go:490-621 | a partition the request does not name, or asked for by another group, is answered as before |
| `OffsetHandlers.OffsetManager.LoadOffsetsCache` | internal/server/handler.go:626-682 | the load folds the records of a log of at most 2^31 - 1 bytes into the cache, and of a longer one those that end within as many; it fails when it has the header of a record and not its end, and leaves the partition flushed and otherwise as it was |
| `OffsetHandlers.CommitsKeepAgreement` | internal/server/handler.go:506-552 | after any row of commits, stored in place, stored after rollovers, refused or without an open partition, the cache is the replay of all the partition's records |
| `OffsetHandlers.ProduceAgreesIff` | internal/server/handler.go:176-190 | a batch produced to the offsets partition keeps that agreement if and only if it is refused or means nothing to a replay |
| `ProducedCommits.AmbiguousIsValid` | internal/protocol/record_batch.go:56-85 | for every 32-bit checksum some batch passes the check and also decodes as a commit |
| `OffsetHandlers.LoadIsReplay` | internal/server/handler.go:633-678 | up to 2^31 - 1 bytes the load restores the replay of every record |
| `OffsetHandlers.LoadIsPrefix` | internal/server/handler.go:639-678 | beyond that it replays exactly the records that end in the window, and fails if and only if the next header does too |
| `OffsetHandlers.RestartLoads` | internal/server/handler.go:626-682 | a restart loads the replay of the first segment, and a key keeps its cached offset through it if and only if no later segment sets it, or the last to do so sets what the first left |
| `OffsetHandlers.RolloverForgets` | internal/storage/store.go:60-106 | a first commit of a key that rolls the partition over is in the cache and not in the cache the next restart loads |
| `CommitProtocol.EveryCachedOffsetWasAppended` | internal/server/handler.go:534-552 | in every interleaving with producers, spills and restarts in which no other store writes to the file, every cached offset was appended for that same key |
| `CommitProtocol.AppendedIffAlone` | internal/server/handler.go:534-682 | every run caches only what was appended if and only if no other store may write to the file |
| `CommitProtocol.QuiescentCacheIsReplay` | internal/server/handler.go:506-682 | while commits of one key never overlap, no produced batch reads as a new commit, no restart has more to load than it reads and no other store writes to the file, the cache of every quiescent state is the last-writer-wins replay of the log, and a clean restart restores it exactly |
| `CommitProtocol.AgreesIffOrderly` | internal/server/handler.go:506-552 | every run agrees in its quiescent states if and only if none of four things is allowed: overlapping commits of one key, produced batches that read as commits, restarts of logs beyond 2^31 - 1 bytes, writes to the file by another store |
| `CommitProtocol.CrossedDisagrees` | internal/server/handler.go:534-552 | a run of four steps in which two commits of one key cross, and the first offset stays cached |
| `CommitProtocol.SpokenRun` | internal/server/handler.go:176-190 | a run of one produce request after which the replay holds a key the cache lacks |
| `CommitProtocol.LongDisagrees` | internal/server/handler.go:639-650 | a run of four steps after whose restart a commit behind the bytes read is missing from the cache |
| `CommitProtocol.MixedDisagrees` | internal/storage/broker_store.go:45-47 | a run of five steps in which another store's empty batch lands inside a spilled commit, which the next restart does not find |
| `CommitProtocol.RestartLoadsReplay` | internal/server/handler.go:626-682 | a clean restart loads the replay of the log from the segment's bytes |
| `Wire.StringBack` | internal/protocol/decoder.go:57-64 | a string below 32768 bytes reads back and leaves what follows |
| `Wire.TopicsBack` | internal/protocol/messages.go:217-270 | nested topics and partitions read back when each partition does |
| `Requests.RequestBack` | internal/protocol/messages.go:86-151 | any well-formed request, whatever its size field, reads back and leaves exactly what follows, whatever transactional id it carried |
| `Requests.StreamAligned` | internal/server/handler.go:56-113 | a stream of well-formed requests is recovered in order and leaves exactly the bytes behind the last |
| `Requests.RequestStable` | internal/protocol/decoder.go:42-64 | a request once read is not changed by bytes that arrive later |
| `Requests.TruncationFails` | internal/protocol/messages.go:193-274 | every strict prefix of a well-formed request is an error, neither a request nor a panic |
| `Decoder.Decoder.ReadStr` | internal/protocol/decoder.go:57-64 | the cursor moves past exactly the string it returns |
| `Decoder.Decoder.ParseProduceRequest` | internal/protocol/messages.go:193-274 | the parser's value and cursor are those of the layout, for every version and every byte string |
| `Decoder.Decoder.ParseFetchRequest` | internal/protocol/messages.go:370-445 | the parser's value and cursor are those of the layout; a negative count panics |
| `Decoder.Decoder.ParseListOffsetsRequest` | internal/protocol/messages.go:859-910 | the parser's value and cursor are those of the layout; a count outside 0 to 1024 is an error |
| `Decoder.Decoder.ParseOffsetCommitRequest` | internal/protocol/messages.go:605-673 | the parser's value and cursor are those of the layout |
| `Decoder.Decoder.ParseOffsetFetchRequest` | internal/protocol/messages.go:741-776 | the parser's value and cursor are those of the layout |
| `Decoder.Decoder.ParseMetadataRequest` | internal/protocol/messages.go:127-151 | the parser's value and cursor are those of the layout, with the flag of version 4 discarded |
| `Decoder.Decoder.ParseJoinGroupRequest` | internal/protocol/messages.go:1077-1129 | the parser's value and cursor are those of the layout |
| `Decoder.Decoder.ParseSyncGroupRequest` | internal/protocol/messages.go:1271-1313 | the parser's value and cursor are those of the layout |
| `Decoder.Decoder.Dispatch` | internal/server/handler.go:84-113 | any well-formed body of an api key and version is returned with the cursor where it ends, and a key other than the twelve served is an error |
| `WireLimits.CountedBack` | internal/protocol/messages.go:217-240 | an array is read back if and only if it has at most 1024 elements where the parser checks the count, and always where it does not |
| `WireLimits.PartCountFails` | internal/protocol/messages.go:232-240 | the partition count of a topic is treated as the topic count is: outside 0..1024 an error where it is checked, and a panic when negative where it is not |
| `WireLimits.CheckedRequests` | internal/protocol/messages.go:217-223 | produce and list-offsets requests with a topic count outside 0..1024 are errors |
| `WireLimits.UncheckedRequests` | internal/protocol/messages.go:396-401 | fetch, metadata, offset and group requests with a negative count panic |
| `Decoder.Decoder.ParseRequest` | internal/protocol/messages.go:86-118 | any well-formed request is returned as it was sent with the cursor where it ends, and reading one always consumes bytes |
| `Decoder.Decoder.Handle` | internal/server/handler.go:49-82 | the loop takes requests back to back until one cannot be read, without using their sizes, and ends |
| `Decoder.HandleRecovers` | internal/server/handler.go:49-113 | the loop recovers every request of a well-formed stream and stops at what follows |

## Left out

- The arithmetic of CRC32C: it is a parameter of the batch check.
- Real files, fsync, I/O errors and write errors on a connection: a file is a byte sequence and a flush moves the buffer to it. How much a full write buffer spills is arbitrary.
- A crash in the middle of a write: the broker has no recovery scan.
- What a client makes of the bytes behind the first record of a longer fetch window: only the first record's header is stripped, so only the first record's batches are characterised. Reads from closed segments are not supported by the broker.
- Partitions reopened after a rollover and then appended to: new bases can then fall inside old segments. The model stops at what such a reopen serves.
- The handlers for api versions, metadata, list offsets, coordinator lookup, join, sync, heartbeat and leave: fixed answers or plain assembly.
- The response encoders other than the fetch frame: they would repeat the nested-array argument of the fetch frame.
- Logging, metrics, HTTP serving, configuration and start-up.
- Memory exhaustion from very large counts and lengths.
- The handlers keep each partition as a value in a map, not as a shared object. That one key has one object is `PartitionCreation`; that one directory has one key, for canonical keys, is `SharedDisk`.
- Symbolic links below the root, and a root given as a relative path: the root is an absolute path.
- Commits after a rollover of the offsets partition are not in the interleavings of `CommitProtocol`; `OffsetHandlers` covers them one request at a time.
- ProduceHandler.Producer.HandleProduce: says nothing about the partitions after a panic, since it ends the process.
- Decoder.Decoder.Handle: says nothing about the cursor after the request that could not be read, since the connection is closed.
- Partitions.PartitionStore.Rollover: bases are unbounded, without the wrap of a 64-bit sum.
- Cleaner.Directory.CleanOldSegments: takes a listing without repeated names, as a directory listing is.
- FetchHandler.Handler.FetchPartition: takes the size and reads the segment in one step, where the source locks twice; what survives interference in between is BudgetUnderInterference and SplitServes.
- Requests.RequestBack: for the layouts of `internal/protocol/messages.go`, not for every version the broker advertises.
- FetchHandler.ClientVisitsEveryRecord: the client uses only the first batch of each answer.
- FilledSegments.FilledIffNoOversize: for limits of 8 bytes and more; under a smaller one no segment takes a second record.
- ProduceHandler.ProducedIsServed: for a batch still in the active segment, which is the only one the broker serves.
- OffsetHandlers.RestartLoads: for a first segment of at most 2^31 - 1 bytes; a longer one is under LoadIsPrefix.
- FetchHandler.ProducedBatchComesBack: for a batch as long as its own length field says; longer records are under ServeConcatenated.
