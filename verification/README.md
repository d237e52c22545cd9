# Rudurru storage engine

A Dafny model of Rudurru's storage engine: an etcd-style multi-version key-value store made of an
append-only log file, an ordered map derived from it, and several fast paths that have to agree with
the log. The model covers the bytes on disk, every operation of the store, the reads, and the two
protocols that run beside writers (watch creation and log compaction).

`dafny verify dfyconfig.toml` checks everything.

## How it is organised

* Bytes on disk: `Varint`, `Crc32c`, `KvCodec`, `KvParse`, `Scanner`, `Wal`, `LegacyWal`.
* Order and ranges: `Bytes`, `Ranges`, `OrderedKeys`.
* State machine as functions: `KeyMap` (how a write changes the map, and replay), `StoreSpec` and
  `TxnSpec` (each operation from state to state), `TxnReplies` (the reply tree of a transaction).
* State machine as the source has it: `Store`, a class with the source's fields whose methods update
  them in place. Each method is proved equal to its function, and `Store.Perform` ties any operation
  on the object to a step of a run. `Requests` says what those functions do in the requests' own terms.
* Theorems about runs: `Commits`, `Sends`, `Runs`, `TxnTheorems`, `Recovery`, `History`.
* Reads: `HistoricalRead`, `Sorting`, `Reads`, `CompactedReads`. Protocols: `Watch`, `WatchAdmission`,
  `WatchStreams`, `Compaction`.
  The migration tool: `Migration`.

The central idea is that every operation is a batch of *commits* at one revision: append a record,
replay it on the map, send each watcher the event that a later replay of the log would rebuild. From
that follow recovery, exactly-once watching, historical reads and compaction. A log is a sequence of
records; the file is their serialization, possibly followed by a torn write, or a snapshot and the
rest of the log once it was compacted. Revisions are unbounded
naturals; the 16-, 32- and 64-bit fields they are written to are modelled where they truncate
(`Wal.Fits` collects the bounds within which a record reads back exactly).

## Where the code departs from its intent

Each of these is stated with the exact condition under which the code is right; most come with an
input on which it is not.

* The `u16` offset in a record header wraps for long keys (`Wal.AccessorBoundIsExact`,
  `Wal.WideKeyLosesRevision`).
* `range_end == key ++ 0x00` is read as a prefix although the interval sent holds one key
  (`Ranges.ResolveRangeMeaning`).
* A torn tail is skipped on open but not cut off, so later appends continue it and are read back only
  if the bytes up to the length it announces happen to pass the checks
  (`Wal.AppendAfterTornIsLost`, `Wal.ShortTornBorrowsHeader`).
* A historical read can miss an earlier lifetime of a recreated key or return a value from the
  future, and does not filter tombstones, nor anything once one key has changed since
  (`HistoricalRead.ExactWithoutStale`, `ExactWithStale`, `EarlierLifetimeMissed`,
  `DeletedKeyResurrected`, `FilterIgnored`). After a file compaction it returns newer values
  (`CompactedReads.ReadAfterCompactionIsExact`, `CompactedReadIsNewer`).
* The second phase of watch replay ignores the start revision, and both phases send the previous
  value to watchers that did not ask for it (`WatchAdmission.StartBoundIsExact`, `EarlyEventArrives`,
  `ReplayIgnoresPrevKvFlag`, `ReplayShowsPreviousValue`). A watch from a compacted revision is
  admitted and sent what is left (`WatchStreams.CompactedWatchIsExact`, `CompactionHidesDelete`), and
  a compaction that swaps in a shorter file under a pending watch hides what was written meanwhile
  (`WatchStreams.CompactionUnderWatch`, `SwapLosesPut`).
* A range delete that matches nothing uses up a revision that a restart gives out again
  (`Runs.DeleteClockAgreement`); a compacted log can forget the clock, creation revisions, versions
  and tombstones (`Compaction.SnapshotClockAgreement`, `RestoredExactly`). Creation revision and
  version then also change inside the blob at the next compaction, and in delete events
  (`Compaction.SecondCompactionIsExact`, `BlobChangesUnderSecondCompaction`,
  `WatchStreams.DueBytesAreExact`, `WatchedDeleteDiffers`).
* With `keys_only`, sorting by a field sorts by key (`Reads.KeysOnlySortIsExact`,
  `KeysOnlySortGoesWrong`).
* A record at revision 0 is lost in migration (`Migration.MigrationIsExact`, `UndatedIsLost`).

An error in the middle of a transaction leaves its earlier writes applied, as
tests/conformance/known-deviations.txt:5-8 says; the model does the same.

## Model

| member | source | states |
|---|---|---|
| Varint.MinimalRoundTrip | src/storage/wal.rs:61-92 | the standard decoder reads the minimal encoding of any 64-bit value back, whatever follows it |
| Varint.OverlongRoundTrip | src/storage/wal.rs:15-57 | a value written in `n` groups, padded with continuation bytes, decodes to itself and to its width, for every `n` that can hold it |
| Varint.FieldRoundTrip | src/storage/wal.rs:75-92 | the standard decoder reads an overlong field of up to ten bytes to the value that was written |
| Varint.FixedU32RoundTrip | src/storage/wal.rs:15-36 | the five-byte decoder undoes the five-byte encoder on every `u32` |
| Varint.FixedU64RoundTrip | src/storage/wal.rs:39-57 | the ten-byte decoder undoes the ten-byte encoder on every `u64` |
| Varint.EncodeOverlongU32 | src/storage/wal.rs:15-23 | the unrolled encoder writes exactly the five padded base-128 groups |
| Varint.EncodeOverlongU64 | src/storage/wal.rs:39-47 | the loop encoder writes exactly the ten padded base-128 groups |
| Varint.EncodeVarint | src/storage/wal.rs:61-73 | the loop writes the minimal groups, at most ten bytes |
| Varint.DecodeOverlongU32 | src/storage/wal.rs:25-37 | accumulates groups in a register, dropping what is shifted out; `None` on short input |
| Varint.DecodeOverlongU64 | src/storage/wal.rs:49-59 | the same for ten groups |
| Varint.DecodeVarint | src/storage/wal.rs:75-95 | value and width of the first terminated group string; `None` when unterminated or too long |
| Crc32c.ComputeChecksum | src/bin/waldoctor.rs:48-61 | the bitwise nested loops compute the CRC32C fold of the bytes |
| Crc32c.AppendLaw | src/storage/wal.rs:538-544 | checksumming piece by piece with `crc32c_append` is checksumming the concatenation (CRC32C, section 12.1 of RFC 3720) |
| Crc32c.CheckValue | src/bin/waldoctor.rs:48-61 | the checksum of the digits 1 to 9 is the published check value 0xE3069283 |
| KvCodec.EncodedExample | src/storage/wal.rs:97-136 | the bytes of one message, field by field |
| Wal.AccessorBoundIsExact | src/storage/wal.rs:117-121 | the revision accessor returns every 64-bit revision if and only if the position of the field is below 65536; past that it reads bytes before the field |
| KvCodec.ReadKeyRoundTrip | src/storage/wal.rs:138-150 | the key accessor recovers the encoded key |
| KvCodec.ReadModRevisionRoundTrip | src/storage/wal.rs:152-158 | the revision accessor recovers the encoded revision at the real position |
| KvCodec.PatchPositionIsModRevPosition | src/storage/state.rs:88-104 | the hard-coded offset arithmetic finds the field the encoder wrote, for every key length and every width of `create_revision` |
| KvCodec.PatchEqualsReencode | src/storage/state.rs:113-118 | patching `mod_revision` in place is byte for byte the encoding with the new revision |
| KvCodec.ModRevisionFieldOffset | src/storage/state.rs:88-104 | the masked bytes and the walk over the varint return that position |
| KvCodec.OverwriteTen | src/storage/state.rs:116 | the ten bytes are replaced and every other byte of the buffer stays |
| KvCodec.WithModRevision | src/storage/state.rs:113-118 | copy and overwrite return the re-encoded blob |
| KvParse.ParseRoundTrip | src/storage/store.rs:98-118 | one front-to-back pass over an encoded blob recovers key, both revisions, version and value |
| KvParse.ParseKv | src/storage/store.rs:28-118 | the cursor walk returns what the reader specification returns, on every input, `None` included |
| KvParse.KvCursor.SkipBytes | src/storage/store.rs:30-34 | moves past `n` bytes, or reports that there are fewer |
| KvParse.KvCursor.TakeBytes | src/storage/store.rs:36-42 | returns the next `n` bytes and moves past them, or fails |
| KvParse.KvCursor.ReadVarint | src/storage/store.rs:44-62 | reads the next varint and moves past it, or fails |
| KvParse.DecodeRoundTrip | src/storage/apply.rs:134 | the tag-driven decoder used by replay recovers all six fields, overlong varints included |
| Wal.PiecewiseCrc | src/storage/wal.rs:186-213 | the checksum a new record carries is the checksum of the bytes serialized before it |
| Wal.FrameLayout | src/storage/wal.rs:216-226 | flags, little-endian offsets and length, blob and checksum of what precedes it, each at its position |
| Wal.NewLayout | src/storage/wal.rs:186-213 | which offsets a new record carries |
| Wal.DeserializeSerialized | src/storage/wal.rs:216-294 | deserializing a serialized record, whatever follows, returns it and its length |
| Wal.ScanKvFile | src/storage/wal.rs:378-421 | the read loop returns the scan of the bytes from the offset, including records before a failure |
| Wal.ScanRecovers | src/storage/wal.rs:378-421 | scanning any serialized records followed by nothing or by any strict prefix of a record yields exactly those records and the offset where they end |
| Wal.CountWalRecords | src/storage/wal.rs:548-562 | walking header lengths alone counts the complete frames, without reading a checksum |
| Wal.CountAgreesWithScan | src/storage/wal.rs:548-562 | on such a file the count is the number of records scanned |
| Wal.AccessorsExact | src/storage/wal.rs:297-305 | within the `u16` bound the record accessors return the key and revision that were logged |
| Wal.WideKeyLosesRevision | src/storage/wal.rs:119 | a key past that bound: a concrete record whose accessor reads another revision |
| Wal.ScanPast | src/storage/wal.rs:378-421 | a scan gets past the complete records if and only if a whole record with a matching checksum starts there, and fails there if and only if a whole header announces an impossible length |
| Wal.AppendAfterTornIsLost | src/storage/wal.rs:346-354 | opening does not cut a torn write off: once it holds a whole header, what is appended later stays unread if and only if the file has not grown to the announced length or the bytes up to there fail the checks |
| Wal.ShortTornBorrowsHeader | src/storage/wal.rs:346-354 | a torn part shorter than a header takes the rest of it from the record appended next; the length they announce together decides in the same way, and the scan fails if it is impossible |
| Wal.OneTornByte | src/storage/wal.rs:346-354 | after one torn byte that length is made of the offset and the length of the next record |
| Wal.FileFromOffset | src/storage/wal.rs:378-421 | reading from the byte length of a log prefix sees exactly the records after it |
| Wal.FilePrefix | src/storage/wal.rs:378-421 | any byte prefix of the file at least as long as an earlier file is some whole later records and a torn one |
| Ranges.PrefixEnd | src/storage/store.rs:322-333 | the pop-and-increment loop returns the least key above every key with the prefix, or none for all-0xFF prefixes |
| Ranges.PrefixIsInterval | src/storage/store.rs:320-333 | `starts_with(p)` is membership in `[p, prefix_end(p))`, for every prefix |
| Ranges.ResolveRangeMeaning | src/storage/mod.rs:17-56 | the resolved bound selects the half-open interval that was sent for every key except when `range_end` is a non-empty `key` followed by 0x00, and exactly then it does not |
| Ranges.BoundIntervalExact | src/storage/store.rs:335-343 | a key lies in the interval of a bound if and only if it matches the bound |
| Ranges.OverlapIsExact | src/storage/store.rs:345-361 | two bounds are reported overlapping if and only if some key matches both |
| OrderedKeys.BoundsCover | src/storage/mod.rs:97-113 | every matching key lies within the iterator bounds, and only a prefix scan can meet others |
| OrderedKeys.PrefixBreak | src/storage/store.rs:861-866 | after the first key without the prefix no later key has it |
| OrderedKeys.ScanRange | src/storage/store.rs:839-866 | the bounded scan with early break visits exactly the matching keys, in order |
| KeyMap.LivePutIsReplay | src/storage/apply.rs:10-52 | applying a put live and replaying the record it logged give the same entry, blob and count |
| KeyMap.LiveDeleteIsReplay | src/storage/apply.rs:54-85 | the same for a delete |
| KeyMap.ApplyKeepsMemOk | src/storage/apply.rs:18-62 | every logged record keeps `0 < create <= mod`, tombstone order, blob equal to the encoding of the fields, and the live-key count |
| KeyMap.VersionCountsPuts | src/storage/apply.rs:25-26 | a key is live exactly when it was put since its last delete, and `version` counts those puts |
| Commits.PutIsCommit | src/storage/apply.rs:34-48 | a live put is: append a record, replay it, and send the event a log replay would rebuild |
| Commits.DeleteEventIsRecordEvent | src/storage/apply.rs:63-82 | the delete event sent live, made by patching, carries the bytes of the logged record and the previous blob |
| Commits.DeleteEventIsExact | src/storage/apply.rs:63-82 | in any state, restored ones included, the delete event sent live is the one replay rebuilds if and only if the blob still says of creation revision and version what the entry says |
| Commits.DeletesAreCommits | src/storage/store.rs:577-616 | logging a batch of deletes and then applying them is committing them one by one |
| Commits.PutAtIsBatch | src/storage/store.rs:441-517 | `put_at` is a batch of legal commits at its revision |
| Commits.DeleteRangeAtIsBatch | src/storage/store.rs:523-623 | `delete_range_at` is a batch of legal commits at its revision |
| Commits.DeleteKeysForLeaseIsBatch | src/storage/apply.rs:87-123 | a lease's keys go in one batch at one new revision, and no revision is used when there are none |
| Recovery.RebuildFromFile | src/storage/store.rs:629-647 | the replay loop of `open` computes the fold of the scanned records and the highest revision |
| Recovery.ApplyWalIsApplyRecord | src/storage/apply.rs:128-138 | replaying the framed bytes of a record is replaying the record |
| Recovery.RecoverFile | src/storage/store.rs:629-647 | scanning and replaying a file, torn tail included, gives the fold of its log |
| Recovery.ReopenOwnsLeases | src/storage/store.rs:654-681 | after reopening, every live key's lease exists |
| Recovery.ReopenedIdsAreFresh | src/storage/store.rs:661-665 | ids handed out after reopening do not collide with restored leases |
| Runs.StepIsGood | src/storage/store.rs:1247-1505 | every operation keeps the store invariant, only appends records at fresh revisions, and never lowers the compaction mark |
| Runs.RunKeepsInv | src/storage/store.rs:1247-1505 | the invariant holds in every state of every run, restarts included |
| Runs.RecoveryEqualsLive | src/storage/store.rs:629-647 | after any run, reading the file back rebuilds the identical key map, tombstones, `rebirth` and blobs included, and a clock above every logged revision |
| Runs.EveryStepAppends | src/storage/store.rs:1247-1505 | in any state at all, every operation appends records issued at fresh revisions, their replay is the new key map, and each watcher is sent one event for each |
| Sends.DeletesAreSent | src/storage/store.rs:577-616 | in any state, deletes of different live keys are logged and sent one by one, each with the fields and blob of its entry |
| Runs.DeleteClockAgreement | src/storage/store.rs:1257-1265 | after a range delete the reopened clock equals the live one if and only if some live key matched |
| Runs.BookkeepingHolds | src/storage/apply.rs:18-62 | in every run: live-key count, `0 < create <= mod < next_rev`, `mod <= delete < next_rev`, version as a count, `compact_rev` at most the current revision |
| Runs.DropLeaseKeys | src/storage/apply.rs:87-123 | dropping a lease tombstones exactly its live keys, all at one revision, and touches no other entry |
| Runs.DropLeaseLeavesNone | src/storage/background.rs:51-69 | after revoke or expiry no live key is on the lease |
| TxnTheorems.OneRevisionPerTxn | src/storage/store.rs:1267-1390 | in any state, a transaction, nested ones included, moves the clock by at most one; every new record and changed entry carries that revision, all else is untouched, and a read at any earlier revision is unaffected |
| TxnTheorems.BranchCheckIsExact | src/storage/store.rs:278-312 | once keys are given, a branch is rejected if and only if some key is written by two of its operations |
| TxnTheorems.FlatCheckIsExact | src/storage/store.rs:278-312 | a flat branch is accepted exactly when its keys are given and its writes touch pairwise disjoint keys; a missing key is reported before an overlap |
| TxnTheorems.CheckOpsIsPointwise | src/storage/store.rs:278-303 | operations pass one by one: puts, deletes and reads with a key, nested transactions with both branches accepted |
| TxnTheorems.WritesSwap | src/storage/store.rs:1318-1390 | two writes on disjoint keys give the same map, and succeed or fail alike, in either order |
| Requests.TxnBranchMeaning | src/storage/store.rs:1279-1282 | an accepted transaction runs its success branch and answers true exactly when every guard holds, none included; otherwise the failure branch, and false |
| Requests.NestedBranchMeaning | src/storage/store.rs:1357-1381 | a nested transaction chooses by its own guards in the state it finds and replies which branch ran; one level deep at most |
| Requests.TxnAccepted | src/storage/store.rs:273-276 | a transaction passes validation exactly when both its branches do |
| Requests.ReplyMeaning | src/storage/store.rs:1328-1356 | what each operation of a transaction is answered with |
| Requests.TxnRefused | src/storage/store.rs:1273 | a transaction that does not pass validation changes nothing |
| Requests.CompareMeaning | src/storage/mod.rs:162-232 | a guard compares what the log shows of the key, the puts since its last delete, the first and last of them, with what it expects; a deleted key shows 0 and no value |
| TxnTheorems.AcceptedBranchCommutes | src/storage/store.rs:1318-1390 | in any state that counts its live keys, any reordering of an accepted flat branch is accepted, succeeds exactly when it does, and leaves the same key map, count and clock |
| TxnReplies.PatchedIsDirect | src/storage/store.rs:365-385 | setting historical reads aside and patching the answers in yields the reply tree that answering each read in place would give, at every nesting depth |
| TxnReplies.FillIn | src/storage/store.rs:1298-1305 | runs the deferred reads in order, each on the store as it is then; fails if and only if one of them fails, otherwise returns the tree with their answers in place |
| TxnReplies.TxnReadsKeyed | src/storage/store.rs:1330-1341 | every read inside a transaction that succeeds finds blobs that carry their keys, so it answers as a read of that state does |
| History.SnapshotStable | src/storage/store.rs:936-1245 | records above `t` do not change the snapshot at `t` |
| History.EntryTellsHistory | src/storage/store.rs:924-935 | what the current entry of a key says about the snapshot at any past revision |
| History.EntryAt | src/storage/store.rs:924-935 | an entry not changed after `t` was the same at `t`, and one deleted after `t` was alive with the same fields |
| HistoricalRead.PhaseOne | src/storage/store.rs:949-1048 | the map scan sorts the keys of the range into direct, stale and absent by their entry |
| HistoricalRead.ScanWalRange | src/storage/mod.rs:119-160 | the log scan folds the records of the range up to the revision; fails when the scan fails |
| HistoricalRead.PhaseThree | src/storage/store.rs:1134-1200 | the merge loops: direct values win, then the log, then the value a stale key has when it is looked up, each under its own lock |
| HistoricalRead.RangeHistorical | src/storage/store.rs:936-1200 | the three phases with the early return; fails if and only if something is stale and the scan fails |
| HistoricalRead.WalScanReadsSnapshot | src/storage/mod.rs:119-160 | scanning the file, torn tail included, reads the snapshot of the range |
| HistoricalRead.ExactWithoutStale | src/storage/store.rs:1060-1108 | for any filters, without stale keys the read is right if and only if no key in range existed and passed at `t` that the map takes for absent or whose newest entry does not pass, and no key deleted after `t` escapes the filters |
| HistoricalRead.MergeIsUnfiltered | src/storage/store.rs:1134-1200 | with stale keys the result has every key that existed at `t`, filters or not, and nothing else if and only if no stale key absent at `t` is alive when looked up |
| HistoricalRead.ExactWithStale | src/storage/store.rs:1134-1200 | for any filters, with stale keys the read is right if and only if that holds and every key in range passed the filters at `t` |
| HistoricalRead.HistoricalReadIsExact | src/storage/store.rs:936-1245 | both together, on the bytes of the file as the scan finds it and the map as each lookup finds it |
| HistoricalRead.FilterIgnored | src/storage/store.rs:1184-1200 | a@1, b@2, b@3, read at 2 with a lower bound of 2 on `mod_revision`: `a` is returned |
| HistoricalRead.HistoricalReadRefinesLog | src/storage/store.rs:936-1245 | when every key in range was never recreated or had begun its current lifetime by `t`, the read returns exactly the fold of the records at or below `t`, whatever was appended or torn meanwhile |
| HistoricalRead.ExpectedIsStable | src/storage/store.rs:936-1245 | the right answer never changes as later writes are appended |
| HistoricalRead.EarlierLifetimeMissed | src/storage/store.rs:1024-1032 | create, delete, recreate, update: a read at the first revision returns nothing although the key existed |
| HistoricalRead.DeletedKeyResurrected | src/storage/store.rs:1164-1180 | create, delete, recreate: a read at the delete's revision returns the value written afterwards |
| Sorting.TopKIsFaithful | src/storage/store.rs:217-224 | whatever selection and sort return within their contracts, the selected part is the first `limit` of the full sort |
| Sorting.OrderedMeaning | src/storage/store.rs:147-234 | the ordered result is a permutation, ordered by the target field and then by key, in either direction |
| Requests.SortMeaning | src/storage/store.rs:186-206 | one message comes before another exactly when its version, creation revision, modification revision or value is smaller, larger for a descending sort, with the key as tiebreak |
| Sorting.KeySortShortcut | src/storage/store.rs:154-162 | on a key-ordered result, doing nothing and reversing are the full sorts by key |
| Sorting.MoveOut | src/storage/store.rs:226-234 | moving the blobs out by index returns each once, although every slot is emptied when taken |
| Sorting.SortEntries | src/storage/store.rs:217-224 | with or without the selection step: items in order, none left out that belongs before one of them, of the stated number |
| Sorting.SortKvs | src/storage/store.rs:147-234 | on any blobs, some sorted choice of at least `limit` of them; on ascending keys, the first of the one full sort |
| Reads.Respond | src/storage/store.rs:894-921 | the first `limit` of the full sort, `count` the full total, `more` exactly when `limit > 0` and `count > limit` |
| Requests.ResponseMeaning | src/storage/store.rs:894-921 | how many entries a response has, from where, and when there are more |
| Requests.CurrentSelects | src/storage/store.rs:861-883 | a read of the current state selects a key exactly when it is live, in range, and within each of the four revision bounds that is positive |
| Requests.PastSelects | src/storage/store.rs:1003-1022 | and a right read of the past does so by the entry at that revision |
| Requests.ReadRefusals | src/storage/store.rs:737-764 | a read is refused exactly for an empty key, a revision after the clock, one before the compaction mark, or a log that cannot be scanned |
| Reads.KeysOnlySortsByKey | src/storage/store.rs:885-891 | with `keys_only` any sort is a sort by key, because the fields are gone before sorting |
| Reads.KeysOnlySortIsExact | src/storage/store.rs:885-906 | for each field and either direction, a `keys_only` result has the key order of the full result if and only if the entries, in key order, are already in field order |
| Reads.KeysOnlySortGoesWrong | src/storage/store.rs:885-906 | two keys, the smaller one modified later: the two orders differ |
| Reads.CollectRange | src/storage/store.rs:839-892 | the scan with break and filters lists exactly the live matching entries that pass the filters, in key order |
| Reads.RangeCurrent | src/storage/store.rs:779-921 | point lookup and bounded scan both return the response for exactly those entries |
| Reads.RangeAt | src/storage/store.rs:936-1245 | the historical read sorted, counted and cut the same way; its only failure is the log scan |
| Reads.ServeRange | src/storage/store.rs:733-773 | the checks in order, then one of the two reads |
| Reads.CurrentReadsLog | src/storage/store.rs:779-921 | a read of the current state returns the entries of the whole log in the range that pass the filters |
| Reads.CurrentKeyed | src/storage/store.rs:98-118 | stored blobs carry the key they are filed under, in any state replayed from a log |
| Reads.ReadAtHeadIsCurrent | src/storage/store.rs:936-1245 | a historical read at the newest revision is the current read, filters included |
| Reads.ReadsRefineLog | src/storage/store.rs:733-773 | every accepted request, filters included, is answered with the sorted, limited listing of the entries at its revision that pass, whatever is written between the revision check, the map scan, the log scan and the merge, exactly under the conditions above |
| Reads.ReadsAreStable | src/storage/store.rs:1294-1305 | a read of a past revision answered rightly twice is answered the same twice, so a transaction can set it aside |
| CompactedReads.ReadAfterCompactionIsExact | src/storage/store.rs:1164-1180 | after a file compaction in the same process, a read of an earlier revision is right if and only if no key in range has changed since |
| CompactedReads.CompactedReadIsNewer | src/storage/store.rs:1164-1180 | put, put, compact, read at the first revision: the second value is returned |
| Watch.ShouldSendEvent | src/server/watch.rs:71-81 | an event is withheld exactly when it is a put and filter 0 is listed, or a delete and filter 1 is |
| WatchStreams.ChannelMeaning | src/server/watch.rs:71-81 | what a watcher holds is in its range and from its start on; with filter 0 no put, with filter 1 no delete; and every other such event, replayed or sent, is there |
| Watch.SendToAll | src/server/watch.rs:516-525 | an event is appended to exactly the contexts whose range, start and filters admit it |
| Watch.RunPhaseOne | src/server/watch.rs:482-529 | the unlocked scan with its running map of previous values |
| Watch.RunPhaseTwo | src/server/watch.rs:531-577 | the locked scan from the checkpoint offset, with no start filter |
| Watch.PrevMapIsLive | src/server/watch.rs:503-508 | the map of previous values is always the live blobs of the log so far |
| Watch.PhaseOneOnAnyView | src/server/watch.rs:482-529 | on any prefix of the file that reaches the checkpoint offset, torn record included, phase 1 sends exactly the wanted events up to the checkpoint |
| Watch.PhaseTwoOnFile | src/server/watch.rs:531-577 | phase 2 sends exactly the matching events after it |
| Watch.SendsNotify | src/storage/watcher.rs:20-57 | in any state, live notification sends a watcher exactly the wanted events of what is sent, in order |
| Watch.WatchExactlyOnce | src/server/watch.rs:338-591 | in any coherent state, compacted and restarted ones included, for every interleaving with operations and with other watches coming and going, a watcher starting at most one past the checkpoint holds exactly the wanted events of the file up to registration and of what is sent afterwards, each once and in order |
| Watch.WatchExactlyOnceOnDisk | src/server/watch.rs:338-591 | the same in every state a store reaches by any operations, compactions and restarts |
| WatchStreams.SentLikeLogged | src/storage/apply.rs:63-82 | what is sent live has the revision, kind, key and previous value of what is logged |
| WatchStreams.DueBytesAreExact | src/storage/apply.rs:63-82 | in any such state, what a watcher received since registration is the logged stream byte for byte if and only if every delete it wanted found a current blob |
| WatchStreams.WatchedDeleteDiffers | src/storage/apply.rs:63-82 | put, put, compact, restart, watch, delete: the event received is not the one logged |
| WatchStreams.CompactedWatchIsExact | src/server/watch.rs:482-529 | a watcher gets of a compacted file what the whole log would have given it if and only if each record it wants of the compacted part created its key and is the last to write it there, and these come in key order |
| WatchStreams.StartAboveSurvives | src/server/watch.rs:482-529 | every start above the compacted revisions meets that condition |
| WatchStreams.CompactionHidesDelete | src/server/watch.rs:482-529 | put, delete, compact, watch from revision 1: neither event is sent |
| Watch.WatchFromTheBeginning | src/server/watch.rs:338-591 | a watcher created on an empty store holds exactly the wanted events of whatever follows |
| WatchStreams.PrevKvWatcherSeesOneStream | src/server/watch.rs:503-515 | for a `prev_kv` watcher on a store with the invariant, replayed and live events are the wanted events of the log, byte for byte |
| WatchAdmission.DefaultStartIsSafe | src/server/watch.rs:42-48 | a start that is given is kept; without one a watch starts after everything logged, before everything later, and never past a later checkpoint plus one |
| WatchAdmission.AdmissionMeaning | src/server/watch.rs:366-422 | a watch is refused exactly if its start lies before the compaction mark or more than ten thousand revisions past the clock |
| WatchAdmission.StartBoundIsExact | src/server/watch.rs:567-575 | for any records after the checkpoint and any view, replay is exact if and only if none of those that range and filters let through lies below the start |
| WatchAdmission.EarlyStartIsAdmitted | src/server/watch.rs:362-420 | a start from two past the checkpoint up to the allowed gap is admitted |
| WatchAdmission.EarlyEventArrives | src/server/watch.rs:567-575 | on an empty store, a watch from revision 2 receives the put at revision 1 |
| WatchAdmission.ReplayIgnoresPrevKvFlag | src/server/watch.rs:509-515 | without `prev_kv`, what is replayed of a log equals what live notification would send if and only if every wanted record found its key absent |
| WatchAdmission.ReplayShowsPreviousValue | src/server/watch.rs:509-515 | a key put twice: the replayed second event shows the first value |
| WatchAdmission.SwapHidesCatchUp | src/server/watch.rs:538-539 | after a swap to a file no longer than the checkpoint offset the contexts keep what phase 1 gave them, so replay is exact if and only if a context wants nothing written since |
| WatchStreams.CompactionUnderWatch | src/server/watch.rs:538-539 | the same for the file a compaction between checkpoint and registration makes |
| WatchStreams.SwapLosesPut | src/server/watch.rs:538-539 | put, put, checkpoint, put, compact: the third put is missed |
| WatchAdmission.FreshIsExact | src/server/watch.rs:448-458 | the contexts that stay have distinct ids, none registered before, and no new id is lost |
| WatchAdmission.RejectDuplicates | src/server/watch.rs:445-476 | swap-removing the rejected indices from the last leaves exactly the fresh contexts |
| Compaction.TakeSnapshot | src/storage/store.rs:1601-1621 | the loop writes one record per live key, in key order, with the fields of its entry |
| Compaction.ReplaySnapshot | src/storage/store.rs:1601-1621 | in any state, replaying a snapshot restores each live key's value, lease and `mod_revision` and the count, and exactly which fields change |
| Compaction.RestoredExactly | src/storage/apply.rs:25-26 | a live key gets its exact entry back if and only if it was written once, in its only lifetime |
| Compaction.ApplyAlike | src/storage/apply.rs:10-85 | replaying the same record keeps two states with the same live data so, and the same blobs |
| Compaction.SwapOnBytes | src/storage/store.rs:1653-1683 | copying the tail bytes after the snapshot writes exactly the records of the new file |
| Compaction.CompactionPreservesData | src/storage/store.rs:1589-1697 | in every state of every run, with compactions, writes between their phases and restarts interleaved in any way, the file, a pending snapshot with the tail, and every record ever written all replay to the live keys with their value, lease and `mod_revision` and to the count |
| Compaction.CompactionPreservesBlobs | src/storage/store.rs:1589-1697 | until a restart on a compacted file the blobs survive any number of compactions too |
| Compaction.CompactionBlobIsExact | src/storage/store.rs:1605-1619 | in every state of every run, compacting and restarting keeps a live key's blob if and only if the blob says of creation revision and version what the entry says |
| Compaction.SecondCompactionIsExact | src/storage/store.rs:1605-1619 | the first compaction keeps every blob; the second, after a restart, keeps it if and only if the key had been written once in its life |
| Compaction.BlobChangesUnderSecondCompaction | src/storage/store.rs:1605-1619 | put, put, compact, restart, compact: the blob changes |
| Compaction.DiskRunKeepsInv | src/storage/store.rs:1653-1683 | in every state of every run, restarts included, the file is a snapshot of the state after a prefix of the log, and the rest of it; the map is the replay of the log, whose revisions lie below the clock |
| Compaction.LeaseOwnership | src/storage/store.rs:400-437 | in every state of every run with compactions and restarts, each live key's non-zero lease exists |
| Compaction.CountInEveryRun | src/storage/apply.rs:35-37 | and the live-key count is right |
| Compaction.ReopenAfterCompaction | src/storage/store.rs:629-647 | the bytes of that file, torn tail included, start a store with that data |
| Compaction.ReplayAlike | src/storage/apply.rs:128-138 | the agreement survives all later appends |
| Compaction.SnapshotClockAgreement | src/storage/store.rs:647 | a store reopened on a fresh snapshot continues at the live revision if and only if some live key was written at the current revision |
| LegacyWal.OldLayout | src/storage/wal.rs:437-460 | magic number, revision, lengths, flags and payload at their positions |
| LegacyWal.OldFlags | src/storage/wal.rs:437-470 | the flags are bits, 1 for a delete and 4 for a lease |
| LegacyWal.OldRoundTrip | src/storage/wal.rs:436-534 | an old record reads back as itself, whatever follows, if and only if its flags and its lease agree |
| LegacyWal.OldScanRecovers | src/bin/wal_migrate.rs:7-26 | reading an old log, cut off anywhere in its last record, recovers every complete record |
| LegacyWal.ReadOldRecords | src/bin/wal_migrate.rs:7-26 | the read loop stops at the first error and returns the records before it |
| Migration.OldPutMeaning | src/bin/wal_migrate.rs:75-99 | an old put stands for its value, revision and lease |
| Migration.OldDeleteMeaning | src/bin/wal_migrate.rs:49-74 | an old delete stands for a tombstone of a live key, and nothing otherwise |
| Migration.MigrationKeepsMeaning | src/bin/wal_migrate.rs:28-103 | the new log replays to the key map the old records stand for, blobs, tombstones, `rebirth` and count included |
| Migration.MigrationIsExact | src/bin/wal_migrate.rs:28-103 | the new log opens to the meaning of the old one at every point of it if and only if no record at revision 0 does anything |
| Migration.Migrate | src/bin/wal_migrate.rs:28-103 | one record per old record, same key, revision and kind, with that meaning |
| Migration.MigrateFile | src/bin/wal_migrate.rs:28-103 | opening the file written starts the store from the key map that the complete records of the old file stand for |
| Migration.UndatedIsLost | src/storage/store.rs:636-640 | any other record at revision 0, which no store allocates, changes something that opening the new log leaves out |
| Store.StoreState.constructor | src/storage/state.rs:170-182 | an empty file, an empty map, and a clock that will give out revision 1 first |
| Store.StoreState.Open | src/storage/store.rs:629-701 | opening a file of records, with or without a torn write at its end, gives the reopened state of its log, and leaves the torn bytes in place |
| Store.StoreState.NotifyWatchers | src/storage/watcher.rs:20-57 | each watcher that wants the event gets it appended, others are unchanged |
| Store.StoreState.CancelWatcher | src/storage/watcher.rs:14-18 | drops exactly the watchers with the id and says whether there were any |
| Store.StoreState.RegisterWatcher | src/storage/watcher.rs:8-12 | adds the watcher and nothing else |
| Store.StoreState.AppendKvBatch | src/storage/wal.rs:356-366 | the file gains exactly the serialized records |
| Store.StoreState.Apply | src/storage/apply.rs:10-52 | key map, count, channels and returned previous entry as specified, with the blob encoded or given |
| Store.StoreState.ApplyDelete | src/storage/apply.rs:54-85 | the same for a delete; a missing or dead key changes nothing |
| Store.StoreState.PutAt | src/storage/store.rs:441-521 | log, map, channels, response and errors as specified |
| Store.StoreState.DeleteRangeAt | src/storage/store.rs:523-623 | log batch, tombstones, channels and response as specified |
| Requests.PutMeaning | src/storage/store.rs:441-521 | in any state, when a put is accepted; that it leaves the requested value and lease, or the kept ones, at a new revision, with creation revision, version and rebirth mark; that it logs them with their flags; that no other key changes; and that it answers with the old live blob exactly if asked |
| Requests.PutErrors | src/storage/store.rs:400-437 | which error a refused put answers with |
| Requests.PutBlobDecodes | src/storage/store.rs:441-521 | the blob logged, stored and sent decodes to that entry |
| Requests.DeleteRangeMeaning | src/storage/store.rs:523-623 | in any state, exactly the live keys of the range become tombstones at one revision, each logged with the fields of its entry, and the answer has their number and, if asked, their blobs |
| Requests.DeletedInOrder | src/storage/store.rs:530-573 | the keys deleted, in ascending order |
| Requests.CompactMeaning | src/storage/store.rs:1393-1414 | a compaction is accepted exactly between the mark and the clock, and then moves the mark there and nothing else |
| Requests.GrantMeaning | src/storage/store.rs:1428-1465 | when a grant is accepted, the id it gives, and a deadline its ttl, at least two seconds, from now |
| Requests.KeepAliveMeaning | src/storage/store.rs:1488-1509 | a renewal sets the deadline to the lease's ttl from now |
| Requests.RevokeMeaning | src/storage/store.rs:1467-1486 | a revocation removes the lease and tombstones exactly its live keys at one revision |
| Requests.ExpireMeaning | src/storage/background.rs:51-69 | an expiry turn removes exactly the leases whose deadline has come, tombstones exactly their live keys, and changes nothing else |
| Requests.LeaseLivesItsTtl | src/storage/background.rs:51-69 | a granted lease that is not renewed is dropped exactly from its ttl on |
| Requests.RestoredMeaning | src/storage/store.rs:654-681 | after a restart exactly the leases of live keys exist, each for an hour, the clock stands one past the last logged revision, nothing is compacted, and no watch is left |
| Store.StoreState.Put | src/storage/store.rs:1247-1255 | validation first, then one new revision |
| Store.StoreState.ValidatePut | src/storage/store.rs:400-437 | the errors in their order |
| Store.StoreState.DeleteRange | src/storage/store.rs:1257-1265 | one new revision even when nothing matches |
| Store.StoreState.Compact | src/storage/store.rs:1393-1414 | rejects future and already compacted revisions, otherwise only raises the mark |
| Store.StoreState.LeaseGrant | src/storage/store.rs:1428-1465 | ttl bounds, id allocation, duplicate rejection |
| Store.StoreState.LeaseRevoke | src/storage/store.rs:1467-1486 | removes the lease and deletes its keys at one revision |
| Store.StoreState.LeaseKeepAlive | src/storage/store.rs:1488-1509 | renews an existing lease only |
| Store.StoreState.DeleteKeysForLease | src/storage/apply.rs:87-123 | all live keys of the lease at one new revision |
| Store.StoreState.Expire | src/storage/background.rs:51-69 | every expired lease, each at its own revision |
| Store.StoreState.ApplyTxnOps | src/storage/store.rs:1318-1390 | operations in order at one lazily allocated revision, with the reads of the current state run in their turn, those of a past one set aside, and earlier writes kept on an error |
| Store.StoreState.Txn | src/storage/store.rs:1267-1296 | validation, branch choice and application as specified |
| Store.CheckTxnBranch | src/storage/store.rs:278-312 | the loops return the first key error in operation order, nested branches included, then the overlap error |
| Store.RunTxn | src/storage/store.rs:1267-1312 | the whole transaction answers with the tree of running each operation in turn and each read at its place, the reads set aside being run afterwards; it fails if and only if an operation or one of them does |
| Store.Perform | src/storage/store.rs:1247-1505 | any operation on the object is a step of the specified store: it keeps the invariant of all runs, the key map is the fold of the log, and the file is the log unless it was opened on a torn one |

## Left out

- gRPC handlers, tracing, metrics, authentication, cluster and maintenance services: plumbing or constants around the store.
- Threads, locks, channels and timers: a section under a lock is one atomic step, a channel is the sequence of events sent down it, and the time is an input of lease operations and expiry.
- File errors, fsync and rename: appends succeed, and a crash is a strict prefix of the last record at the end of the file. The error answers for failed writes are not modelled.
- The insides of the ordered map, of `select_nth_unstable_by` and `sort_unstable_by`, and of the CRC table code: iteration in key order, contracts that any implementation may meet, and the bitwise form.
- Unknown fields of a `KeyValue` message: the replay decoder knows the six fields of the message and rejects others.
- Response headers, progress notifications and the created and cancelled watch responses.
- Wrap-around of the 64-bit clock, and of the 32-bit index in sorting: `Store` methods that patch a blob require the revision to fit in 64 bits.
- Explicit ranges with a start above the end: the ordered map refuses them by panicking, so scans require `OrderedKeys.Scannable`.
- Several compactions between one pair of phases: one compaction is pending at a time, as the single background task runs them.
- Lease time-to-live and lease listing, database size and store hash: read-only loops with easy contracts.
- SQLite migration, benchmarks, and the log verification and recovery tools: they repeat simpler folds.
- Watch.WatchExactlyOnce: with no file swap between checkpoint and registration; what a swap does is stated separately.
- WatchAdmission.SwapHidesCatchUp: not for a swap to a file longer than the checkpoint offset, where the scan starts wherever the offset falls in the new bytes.
- Compaction.CompactionPreservesData: a restart finds a file without a torn write; what follows a torn one is `Wal.AppendAfterTornIsLost`.
- TxnTheorems.AcceptedBranchCommutes: for branches of puts and range deletes, since duplicate keys are checked per nesting level and a nested transaction may write a key its parent writes.
- Compaction.TakeSnapshot: the phases act on the state and the log as values, not on the `Store` object.
- Watch.RunPhaseOne: the watch contexts and the map of previous values are values handed from phase to phase, not fields of an object.
