# Verified model of rar-rs

This project models the parts of rar-rs whose behaviour is hardest to see from one
function body, and proves what they promise: the RAR5 volume writer with its
finalization, its journaled installation and its volume budget, the RAR 1.5, 2.x and
3.x ciphers and key derivation, CRC-32, the vint codec, calendar conversions, the
wildcard matcher, switch normalization, progress aggregation and catalog identities.

`dafny verify dfyconfig.toml` checks everything.

## How it is built

One module per component, and one concept per module:

* `Vint`, `Blocks`, `QuickOpen`, `Locator` hold the RAR5 byte formats with their writers and
  readers, `Services` the reader of a service header, its name and its extra area. Each
  header is also spelled out number by number, so that a change made to writer and reader
  alike does not go unnoticed. Bytes are integers from 0 to 255, 64-bit words natural
  numbers below 2^64, and an or of disjoint bits is a sum. The block checksum is any
  function to four bytes.
* `VolumeLayout` says which bytes a finished volume consists of, as a function of the members
  put into it, and what a reader finds in them. `VolumeWriter` is the archive object that
  writes such volumes step by step, with a fault possible at every file operation, and
  `ArchiveWriter` the facade over it. `Lifecycle` is the state machine of its flags, over
  every sequence of steps and outcomes; each method of the writer is proved to make a step
  of it. `Journal` is the multi-file commit and its recovery, where any operation can fail
  or find the process killed, and one whose result the source ignores can fail unnoticed;
  `JournalOutcome` says what such a commit keeps of the old and the new set, and
  `JournalLosses` exactly which set comes out. `VolumeBudget` compares the room reserved in a
  volume with what is written; `Filling` is a volume as a function of the parts offered to
  it; `MemberSplit` writes a member whole or in chunks across volumes, all of that making;
  and `VolumeOverflow` has the concrete volumes where reserve and records part.
* `Crc32`, `Rar15`, `Rar20`, `Rar30Cbc`, `Rar30Kdf` work on machine words (`bv32`, `bv16`,
  `bv8`); `Chaining` is block chaining over any splitting of a buffer into calls; `Password`
  is the password clamp over well-formed UTF-8. `Rar20Table` is the initial substitution
  table of rar20.rs, and `Rar20Known` a block, a key update and some exchanges of that cipher
  worked out.
* `CivilTime`, `Selector`, `Switches`, `Progress`, `Catalog` model one source file each.

Objects whose methods change fields are classes, buffers changed in place are arrays, and
each loop of the source is a loop here, proved against a function on values. SHA-1 and AES
are parameters: SHA-1 any function to 20 bytes, AES any pair of mutually inverse block
functions. The parity of a recovery record is any function of the protected bytes and the
percentage; only its length is computed, in `VolumeBudget`.

## Where the code does not do what it says

* `mask_match` accepts a trailing `*` only when it takes a character, so `a*` rejects `a`
  (`Selector.TrailingStarRejects`). Masks mean the documented glob exactly when no `*` follows
  another kind of character (`Selector.MaskIsGlobExactly`).
* `merge_default_switches` drops overridden defaults token by token: a default with a separate
  value loses the switch and keeps the value (`Switches.StrayValueStays`,
  `Switches.OverrideIsWholeExactly`).
* A RAR 1.5 password is a C string except when the bytes behind its zero byte make the whole
  ill-formed UTF-8 (`Rar15.PasswordIsCString`; for such a password, `Rar15.TailMatters`).
* `close` guards against a second finalization, but a roll to the next volume that fails in
  its trailing records does not set the guard: closing or dropping the archive then writes
  them again and installs the result (`Lifecycle.RollThenDropRepeats`). The public writer
  aborts on every error and is not affected (`Lifecycle.FacadeIsSafe`).
* `commit_files` promises the complete new set or the untouched old one, and to roll back on
  every failure. With no ignored failure, it reports a failure with the new set in place if
  and only if everything up to the marker works and writing or flushing the marker fails
  (`JournalOutcome.FailsWithNewSetExactly`); when the marker was not even written, the next
  recovery puts the old set back (`JournalLosses.UnmarkedFails`). Failures it ignores can lose
  a set: a journal that stays behind without its marker (`JournalLosses.KeptJournalLoses`), a
  parked file that does not come back (`JournalLosses.KeptAsideLoses`), a stale marker that
  stays (`JournalLosses.StaleMarkerLoses`, `JournalLosses.StaleMarkerLosesInstalling`).
  `JournalLosses.OutcomeExactly` decides it for every fate of every operation, by the first
  step that does not work and by what the ignored ones miss; without a stale marker a kill
  loses nothing (`JournalLosses.KilledIsWhole`). With no ignored failure the promise holds, up
  to a kill at any operation, in the sense that recovery brings out one of the two sets
  (`JournalOutcome.CommitWhole`, `JournalOutcome.RecoveryWhole`).
* `data_budget` assumes that the reserve grows with the data. The parity's length does not
  (`VolumeBudget.ParityShrinks`), so the budgets that fit need not be a prefix
  (`VolumeBudget.BudgetsNotAPrefix`) and the search can settle for less than the largest
  (`VolumeOverflow.SearchMisses`). It finds the largest exactly when no probe misleads it
  (`VolumeBudget.BudgetedLargestExactly`): always without a recovery record, and with one
  when all prefixes in question have as many data shards (`VolumeBudget.BudgetedLargest`).
* For the same reason a volume with both records can exceed its size
  (`VolumeOverflow.SizeIsExceeded`); exactly when is `VolumeBudget.WithinSizeExactly`. Without a
  recovery record and the automatic quick-open rule every volume keeps it
  (`Filling.FilledKeepsSize`, and for a whole set `MemberSplit.SetWithin`).
* The automatic quick-open rule keys on the run announced before the size of the chunk is
  known. A volume can get a record without holding a run above the threshold
  (`VolumeOverflow.ShortChunkEarns`), exactly as `Filling.AutoRecord` says of every volume the
  writer makes. It can also get one that nobody reserved room for, after members that were
  tested without it, and exceed its size (`VolumeOverflow.RecordExceeds`, exactly when in
  `VolumeBudget.LateRunExceeds`).
* With the catalog tokens exhausted an edit still rewrites the archive, fails afterwards, and
  leaves old IDs resolving into the new catalog (`Catalog.ExhaustedEditMisresolves`).

## Model

| member | source | states |
|---|---|---|
| `VolumeLayout.LocatorReads` | crates/rar/src/archive/create.rs:563-649 | a finished volume starts with the signature; its main header, of type 1, gives the volume's flags and number and, in one locator record that says which are there, offsets that, added to the base, are where the quick-open and recovery records really start; 0 for a record that is absent or an offset its field cannot hold |
| `VolumeLayout.QuickOpenReads` | crates/rar/src/archive/create.rs:528-556 | the quick-open record exists exactly when wanted; at its place stands a service header that may be skipped, named "QO", and the payload it announces decodes to exactly the member headers of that volume, in order, each found again in the file at its positive distance |
| `VolumeLayout.RecoveryReads` | crates/rar/src/archive/create.rs:490-523 | at its place stands a service header named "RR" that carries the percentage, and its parity is that of the very bytes in front of it in the finished file, the patched header included |
| `VolumeLayout.EndBlockReads` | crates/rar/src/archive/create.rs:759-764 | a finished volume ends with a block of type 5 whose flag says whether another volume follows |
| `VolumeLayout.RecordThere` | crates/rar/src/archive/create.rs:318-366 | a volume has a quick-open record exactly when its writer always makes one, or makes one for runs over 4096 bytes and such a run was announced |
| `VolumeLayout.PercentReads` | crates/rar/src/format/rar5/headers/parse.rs:797-830 | the percentage in the subdata of a recovery record is read back |
| `Services.ServiceReadsBack` | crates/rar/src/format/rar5/headers/parse.rs:771-891 | every field of a service header reads back as meant, the name and the extra area among them |
| `VolumeLayout.FinishedParts` | crates/rar/src/archive/create.rs:175-200 | signature, patched header, members, records and end block stand one behind the other, and patching moved nothing |
| `VolumeLayout.CatalogInPlace` | crates/rar/src/archive/ctx.rs:233-243 | every cached header is in the file where the cache says, before the record, so the subtraction of positions never fails |
| `VolumeLayout.LongRunEarns` | crates/rar/src/archive/create.rs:344-366 | under the automatic rule a volume holding a run over 4096 bytes gets its record |
| `Filling.AutoRecord` | crates/rar/src/format/rar5/write/emit.rs:376-395 | of every volume filled part by part: under the automatic rule its record and the runs it holds disagree if and only if some part had more than 4096 bytes of its member left and as much room, and every part was taken short, each size being that of the fit test or of the chunk budgets |
| `Filling.MadeRecord` | crates/rar/src/archive/create.rs:344-366 | so of every volume of the writer's making |
| `Filling.NextPartDisagrees` | crates/rar/src/format/rar5/write/emit.rs:376-395 | the same for one more part in such a volume, by member left, room left and size taken |
| `Filling.NoMoreThanAnnounced` | crates/rar/src/format/rar5/write/emit.rs:376-395 | no more of a part is taken than was announced |
| `Filling.TakenKeepsSize` | crates/rar/src/format/rar5/write/emit.rs:138-176 | whatever a volume holds, a part it takes keeps it within its size when there is no recovery record |
| `Filling.FilledKeepsSize` | crates/rar/src/format/rar5/write/emit.rs:138-176 | without recovery record and automatic rule every filled volume that holds anything keeps its size |
| `Filling.EmptyWithin` | crates/rar/src/format/rar5/write/emit.rs:396-409 | a volume left empty is no longer than one with members and a larger number |
| `VolumeLayout.CachedInPlace` | crates/rar/src/archive/ctx.rs:233-243 | cached positions point at the cached bytes and end before the end of the items |
| `VolumeWriter.RarArchive.constructor` | crates/rar/src/archive/mod.rs:167-206 | the state before anything is opened |
| `VolumeWriter.RarArchive.OpenWrite` | crates/rar/src/archive/create.rs:37-86 | opening stages one file that holds signature and main header and nothing else, or fails with nothing installed |
| `VolumeWriter.RarArchive.MarkQuickOpenData` | crates/rar/src/archive/create.rs:356-366 | the flag records exactly whether an announced run is above the threshold |
| `VolumeWriter.RarArchive.RecordQuickOpenEntry` | crates/rar/src/archive/ctx.rs:233-243 | the header is cached with the current position, if quick-open is on |
| `VolumeWriter.RarArchive.Emit` | crates/rar/src/format/rar5/write/emit.rs:102-111 | a successful emission appends exactly header and data and keeps cache, flag and byte count those of the file; whatever happens, no flag of the life cycle changes |
| `VolumeWriter.RarArchive.WriteQuickOpenRecord` | crates/rar/src/archive/create.rs:528-556 | the record appended is the encoding of all cached headers with their distances back |
| `VolumeWriter.RarArchive.PatchMainHeaderLocator` | crates/rar/src/archive/create.rs:563-649 | reading the header back, patching and rewriting it leaves everything else in the file as it was |
| `VolumeWriter.RarArchive.WriteRecoveryRecord` | crates/rar/src/archive/create.rs:490-523 | appends the parity of the file as it is at that moment |
| `VolumeWriter.RarArchive.FinishVolume` | crates/rar/src/archive/create.rs:175-200 | turns the open file into the finished volume of what was put into it, and counts as one begin of its trailing records |
| `VolumeWriter.RarArchive.StartNextVolume` | crates/rar/src/archive/engine.rs:92-150 | leaves a finished volume that announces another behind, starts an empty one with the next number, an empty cache and a cleared flag, and makes the life-cycle step of its outcome |
| `VolumeWriter.RarArchive.FinishWriting` | crates/rar/src/archive/create.rs:145-163 | finalization is marked as attempted and writes trailing records at most once |
| `VolumeWriter.RarArchive.CommitPending` | crates/rar/src/archive/create.rs:371-468 | installs all staged files together or none, and keeps them pending after every error |
| `VolumeWriter.RarArchive.Close` | crates/rar/src/archive/create.rs:116-139 | makes exactly the life-cycle step of its outcome; what is installed ends with a finished last volume |
| `VolumeWriter.RarArchive.Abort` | crates/rar/src/archive/mod.rs:303-325 | the archive is dead: no stream, nothing pending, staged files gone |
| `VolumeWriter.RarArchive.Drop` | crates/rar/src/archive/mod.rs:941-956 | closes unless that was attempted, leaves nothing pending, and installs nothing when nothing was pending |
| `VolumeWriter.HeaderReadBack` | crates/rar/src/archive/create.rs:606-649 | what the patch reads back is the header that was written, its size takes one byte, and the patched header has the same length |
| `ArchiveWriter.WholeSetReads` | crates/rar/src/archive/create.rs:165-200 | every volume of an installed set reads back: its flags and number, the places of its records, its own headers out of the record named "QO", the parity of its own prefix and the percentage out of the one named "RR", and a next-volume flag on all but the last |
| `ArchiveWriter.ArchiveWriter.AddFile` | crates/rar/src/archive/writer.rs:886-898 | an added file's payload is in the archive, behind what was there, over as many volumes as it takes, all within their size when there is neither recovery record nor automatic rule; or the archive is given up and nothing is installed |
| `ArchiveWriter.ArchiveWriter.Finish` | crates/rar/src/archive/writer.rs:875-884 | whatever reaches the final paths is a whole set of exactly what was added, in volumes of the writer's making, and, with neither recovery record nor automatic rule, no file larger than asked for; even when an error is reported |
| `ArchiveWriter.ArchiveWriter.Drop` | crates/rar/src/archive/writer.rs:911-917 | a writer dropped unfinished installs nothing and leaves nothing pending |
| `Lifecycle.InstalledAtMostOnce` | crates/rar/src/archive/create.rs:116-139 | over every run with any failures the staged set is installed at most once |
| `Lifecycle.InstalledOnlyWhenFinished` | crates/rar/src/archive/create.rs:126-138 | a step installs only as a close past its trailing records, with no earlier attempt |
| `Lifecycle.AbortIsFinal` | crates/rar/src/archive/mod.rs:303-325 | after an abort no later step of any kind writes trailing records or installs |
| `Lifecycle.DeadStaysDead` | crates/rar/src/archive/mod.rs:303-325 | an archive without stream and pending files stays so over every run |
| `Lifecycle.DropIsFinal` | crates/rar/src/archive/mod.rs:941-956 | over every run before and behind it, nothing is written, installed or left staged after a drop, however its close ends, and the set was installed at most once in all |
| `Lifecycle.TrailingOnceExactly` | crates/rar/src/archive/create.rs:116-163 | no volume gets trailing records twice if and only if no step begins them after a roll or close that failed in them, unless an abort came between |
| `Lifecycle.RollThenDropRepeats` | crates/rar/src/archive/engine.rs:92-107 | a failed roll followed by a drop writes trailing records twice and installs the result |
| `Lifecycle.FacadeIsSafe` | crates/rar/src/archive/writer.rs:875-917 | behind the facade trailing records are never written twice, the set is installed at most once, exactly once when finish reports success, and nothing stays staged |
| `Journal.Directory.CommitFiles` | crates/rar/src/fs/atomic/set.rs:214-373 | the method does, operation for operation, what the commit on values does, whichever operations fail, are ignored, or find the process killed; the backups go only when the marker is written and flushed |
| `Journal.Directory.Recover` | crates/rar/src/fs/atomic/set.rs:96-212 | the same for recovery, operation for operation; what it leaves, file by file, is `JournalOutcome.RecoveryLeaves` |
| `Journal.Directory.Rollback` | crates/rar/src/fs/atomic/set.rs:289-309 | installed files taken back, last first, then parked ones, each return that fails left as it is, then the journal forgotten |
| `Journal.Directory.ParkAll` | crates/rar/src/fs/atomic/set.rs:320-326 | files are parked in order up to the first that fails |
| `Journal.Directory.InstallAll` | crates/rar/src/fs/atomic/set.rs:328-346 | files are installed in order; the first failure, or that of the flush, rolls back exactly those installed |
| `Journal.Directory.CleanUp` | crates/rar/src/fs/atomic/set.rs:362-372 | backups, journal and marker are removed in that order, whatever of it fails |
| `JournalOutcome.CommitOutcome` | crates/rar/src/fs/atomic/set.rs:214-373 | whatever fails, is ignored or is killed, a commit loses no file: every old one is parked or in place, or the new set is in place, always so on success; which set comes out after recovery is decided by journal, marker and what is left aside, if and only if |
| `JournalOutcome.CommitWhole` | crates/rar/src/fs/atomic/set.rs:214-230 | when no ignored operation fails: success leaves the complete new set and nothing else; failure leaves the old set with its staged files, or the new set with the journal that still decides; from wherever it ends or is killed recovery makes one of the two sets |
| `JournalOutcome.RecoveryWhole` | crates/rar/src/fs/atomic/set.rs:96-112 | when no ignored operation fails, recovery killed any number of times does not change which set comes out, and run to its end brings it out |
| `JournalOutcome.RecoveryLeaves` | crates/rar/src/fs/atomic/set.rs:166-211 | what a recovery leaves that runs to its end with every failure noticed: with the marker, nothing parked of the commit and all else untouched; without it every parked file is final again, no other file of the new set is, nothing of the commit is staged or parked, and all else is untouched; without a journal nothing changes |
| `JournalOutcome.RecoveryLosesNothing` | crates/rar/src/fs/atomic/set.rs:96-212 | whatever of it fails, recovery keeps every old file, or the new set when the marker is there |
| `JournalOutcome.OutcomeBefore` | crates/rar/src/fs/atomic/set.rs:167-206 | before the marker the old set comes out exactly when the journal tells of it uncontradicted, or everything is back already |
| `JournalOutcome.OutcomeAfter` | crates/rar/src/fs/atomic/set.rs:167-206 | after the marker the new set comes out exactly unless a journal without marker is left and going back would change something |
| `JournalOutcome.FailsWithNewSetExactly` | crates/rar/src/fs/atomic/set.rs:348-361 | when no ignored operation fails, a failure is reported with the new set in place if and only if every step before the marker works and writing or flushing the marker fails |
| `JournalLosses.UnmarkedFails` | crates/rar/src/fs/atomic/set.rs:353-361 | a run in which the marker alone fails: the new set is in place, and the old one comes back on recovery |
| `JournalLosses.OutcomeExactly` | crates/rar/src/fs/atomic/set.rs:214-373 | for every fate of every operation, by the number of steps behind the journal that work: the old set comes out without a journal; a failure while moving brings it out if and only if what the rollback misses is harmless, or the journal stays and no stale marker contradicts it; a kill while moving does unless a stale marker stays and the steps done changed something, and brings the new set out under one exactly when the others would change nothing; a marker that is not written leaves the old set, or the new one under a stale marker; behind it the new set comes out, but for the failures of `DoneLosesExactly` |
| `JournalLosses.DoneLosesExactly` | crates/rar/src/fs/atomic/set.rs:362-372 | a commit that reports success loses the new set if and only if removing the journal fails unnoticed, removing the marker works, and a file is new or a backup that stayed differs |
| `JournalLosses.FailedLosesExactly` | crates/rar/src/fs/atomic/set.rs:289-346 | a commit that fails while moving files, stale marker or not, its rollback killed or not, leaves the old set if and only if what it could not take back or return happens to be replaced by equal files |
| `JournalLosses.RollbackLosesExactly` | crates/rar/src/fs/atomic/set.rs:289-309 | the same condition for a rollback from any such directory |
| `JournalLosses.RollbackCut` | crates/rar/src/fs/atomic/set.rs:289-309 | a killed rollback leaves what it leaves when nothing works from there on |
| `JournalLosses.KilledLosesExactly` | crates/rar/src/fs/atomic/set.rs:281-346 | killed at any park, installation or the flush: the old set comes out without a stale marker; under one exactly when the steps done changed nothing, and the new set exactly when the others would not |
| `JournalLosses.MarkedLosesExactly` | crates/rar/src/fs/atomic/set.rs:348-372 | behind the flush the new set is in place; killed or failing at the marker, the old one comes out unless a stale marker stands, and later the new one unless success was reported |
| `JournalLosses.KilledIsWhole` | crates/rar/src/fs/atomic/set.rs:214-373 | without a stale marker a killed process loses neither set, whatever ignored operations fail |
| `JournalLosses.KeptJournalLoses` | crates/rar/src/fs/atomic/set.rs:362-372 | a run that reports success, after which recovery leaves neither set |
| `JournalLosses.KeptAsideLoses` | crates/rar/src/fs/atomic/set.rs:289-324 | a run whose rollback misses a parked file: neither set comes out |
| `JournalLosses.StaleMarkerLoses` | crates/rar/src/fs/atomic/set.rs:281-326 | a run killed while parking under a stale marker: the next process drops the parked file for good |
| `JournalLosses.StaleMarkerLosesInstalling` | crates/rar/src/fs/atomic/set.rs:281-338 | a run killed at the second installation under a stale marker: neither set comes out |
| `JournalOutcome.InstallKeeps` | crates/rar/src/fs/atomic/set.rs:328-338 | moving a staged file over a parked or new name loses nothing of the old set |
| `JournalOutcome.ParkKeeps` | crates/rar/src/fs/atomic/set.rs:320-326 | moving a file aside loses nothing of the old set |
| `JournalOutcome.TakeBackKeeps` | crates/rar/src/fs/atomic/set.rs:292-294 | taking an installed file back, or failing to, loses nothing |
| `JournalOutcome.ReturnKeeps` | crates/rar/src/fs/atomic/set.rs:295-303 | returning a parked file, failing to, or failing after the file in its way is gone, loses nothing |
| `JournalOutcome.RemoveNewKeeps` | crates/rar/src/fs/atomic/set.rs:186-192 | removing an installed file in recovery loses nothing of the old set |
| `MemberSplit.WriteSplitMember` | crates/rar/src/format/rar5/write/emit.rs:321-484 | a member written across volumes adds exactly its chunks, none empty, in order, and together they are its payload; every volume it leaves was filled up, its chunk the largest that fits where the search can find it; every volume stays of the writer's making; without recovery records every volume it fills keeps its size, and the ones left without a chunk are named; the loop always ends |
| `MemberSplit.WriteFileEntry` | crates/rar/src/format/rar5/write/emit.rs:86-209 | a member, whole where it fits and in chunks where not, empty ones included, adds exactly its payload, in volumes of the writer's making, all within their size when there is neither recovery record nor automatic rule |
| `MemberSplit.OfferWhole` | crates/rar/src/format/rar5/write/emit.rs:102-179 | the run is announced, then the member is taken exactly when the fit test passes, or no volume size is set |
| `MemberSplit.SetWithin` | crates/rar/src/format/rar5/write/emit.rs:86-209 | in a set of such volumes, numbered in order and the last not empty, all keep their size, even those left empty |
| `MemberSplit.WriteEmptyMember` | crates/rar/src/format/rar5/write/emit.rs:238-280 | an empty member adds one header, in the open volume or the next, or is refused |
| `MemberSplit.PlanChunk` | crates/rar/src/format/rar5/write/emit.rs:321-395 | the run announced is what is left of member or volume, and the size chosen is the largest of `VolumeBudget.ChunkLargest` |
| `MemberSplit.ChooseSize` | crates/rar/src/format/rar5/write/emit.rs:380-395 | the two searched budgets give that size |
| `VolumeBudget.ChunkLargest` | crates/rar/src/format/rar5/write/emit.rs:384-395 | where no recovery record or no boundary between shard counts misleads the search: the whole rest if it fits behind a last header; if it fits only behind a middle one, the most that fits behind a last one; else the most that fits behind a middle one, and no larger number does |
| `VolumeBudget.BudgetedMost` | crates/rar/src/format/rar5/write/emit.rs:60-84 | there a number of bytes fits behind a header exactly when it is no larger than the budget |
| `Filling.ChunkFull` | crates/rar/src/format/rar5/write/emit.rs:376-395 | so is every chunk of a volume filled part by part |
| `MemberSplit.PlannedPart` | crates/rar/src/format/rar5/write/emit.rs:331-400 | the plan is exactly what `Filling` says of the part, and its header no longer than estimated |
| `MemberSplit.ChunkKeepsSize` | crates/rar/src/format/rar5/write/emit.rs:359-395 | a chunk chosen so, behind headers no longer than estimated, keeps the volume within its size when there is no recovery record |
| `MemberSplit.ChunksHold` | crates/rar/src/format/rar5/write/emit.rs:352-470 | chunks covering a payload hold it byte for byte |
| `MemberSplit.ChunkFlags` | crates/rar/src/format/rar5/write/emit.rs:412-420 | only the first chunk gets a first header and only the last a last one |
| `MemberSplit.Roll` | crates/rar/src/archive/engine.rs:92-150 | rolling changes nothing in what the set holds |
| `VolumeBudget.WithinSizeExactly` | crates/rar/src/format/rar5/write/emit.rs:138-167 | a member that passed the fit test makes its volume too large if and only if both records are written and the recovery record over what is really there exceeds the one reserved by more than the unused reserve and the slack of the test; a boundary between shard counts then lies between the two lengths |
| `VolumeBudget.ChunkWithinSizeExactly` | crates/rar/src/format/rar5/write/emit.rs:359-395 | the same for a chunk budgeted behind an estimated header |
| `VolumeBudget.RecordLengthIs` | crates/rar/src/archive/create.rs:528-556 | the quick-open record is as long as the places and lengths of the cached headers say |
| `VolumeOverflow.SizeExceeded` | crates/rar/src/format/rar5/write/emit.rs:38-48 | every member of 50 and 15202 bytes in such a set passes the test and exceeds the size, as the record takes a byte less than reserved and the parity then 54 more |
| `VolumeOverflow.SizeIsExceeded` | crates/rar/src/format/rar5/write/emit.rs:138-167 | with a concrete member and configuration, whatever the checksum function, the test passes for 16554 bytes and the volume takes 16607 |
| `VolumeBudget.LateRunExceeds` | crates/rar/src/format/rar5/write/emit.rs:376-418 | a run announced for a volume without a record, whose data goes elsewhere, makes the volume exceed its size if and only if the record of its headers, and the recovery record behind it, take more than the room left |
| `VolumeOverflow.RecordExceeds` | crates/rar/src/format/rar5/write/emit.rs:138-167 | a 9130-byte volume takes five members one after the other and earns no record; then 4100 bytes are left, a long member is offered of which nothing fits, and the finished volume is larger than 9130 bytes |
| `VolumeOverflow.ShortChunkEarns` | crates/rar/src/format/rar5/write/emit.rs:376-395 | a fresh volume with 4100 bytes left is offered 10000: 4100 are announced and 3964 taken, and it gets a record without holding a run over 4096 |
| `VolumeBudget.QuickOpenWithin` | crates/rar/src/archive/create.rs:318-342 | the quick-open record never takes more than was reserved for it |
| `VolumeBudget.DataBudget` | crates/rar/src/format/rar5/write/emit.rs:60-84 | the loop is the bisection on values |
| `VolumeBudget.BudgetedFits` | crates/rar/src/format/rar5/write/emit.rs:52-84 | the budget found fits, or is 0, and never exceeds the room |
| `VolumeBudget.SearchLargestExactly` | crates/rar/src/format/rar5/write/emit.rs:55-59 | the bisection finds the largest budget that fits if and only if no probe says no below one that fits |
| `VolumeBudget.BudgetedLargestExactly` | crates/rar/src/format/rar5/write/emit.rs:52-84 | so the writer's budget is the largest if and only if the whole rest fits or no probe misleads it |
| `VolumeBudget.BudgetedLargest` | crates/rar/src/format/rar5/write/emit.rs:52-59 | it is the largest without a recovery record, and whenever all prefixes in question have as many data shards, as behind 200 KiB |
| `VolumeBudget.BudgetsNotAPrefix` | crates/rar/src/format/rar5/write/emit.rs:50-59 | with a recovery record the budgets that fit are no prefix: one byte more can fit where one less does not |
| `VolumeOverflow.SearchMisses` | crates/rar/src/format/rar5/write/emit.rs:60-84 | in a fresh 2860-byte volume with 3 percent recovery and no quick-open record 1974 bytes fit behind a 50-byte header and the search returns less than 1915 |
| `VolumeBudget.ParityShrinks` | crates/rar/src/recovery/rar50/plan.rs:52-91 | one more protected byte can make the parity shorter |
| `VolumeBudget.ParityGrowsWithin` | crates/rar/src/recovery/rar50/plan.rs:52-91 | with as many data shards a longer prefix never has a shorter parity |
| `VolumeBudget.ParityGeometry` | crates/rar/src/recovery/rar50/plan.rs:52-91 | the parity's length in inequalities: as few kilobyte shards as hold the prefix, up to 200; of these the percentage, rounded down, are recovery shards, at least one of a short prefix and all of them from 100 percent on; each shard an even, smallest share of the prefix and a header for every 64 kilobytes of it |
| `VolumeBudget.FinishedLength` | crates/rar/src/archive/create.rs:284-304 | the reserve for a recovery record is the length it really takes over that prefix |
| `Locator.PatchedIsBuilt` | crates/rar/src/format/rar5/headers/locator.rs:160-192 | patching a fresh header gives the header built with the final offsets: same length, only fields and checksum differ |
| `Locator.PatchLocatorFields` | crates/rar/src/format/rar5/headers/locator.rs:160-192 | the in-place patch is that function of the header's bytes, and says whether a field was patched |
| `Locator.PatchField` | crates/rar/src/format/rar5/headers/locator.rs:169-182 | one field is overwritten at its own width |
| `Locator.PlaceholderWidth` | crates/rar/src/format/rar5/headers/locator.rs:196-205 | the width is that of the placeholder, none when it runs out of the header or past ten bytes |
| `Locator.HeaderReads` | crates/rar/src/format/rar5/headers/parse.rs:1159-1186 | a reader of the framed header gets number, extra area, quick-open and recovery offset as stored |
| `Locator.RecordSpelled` | crates/rar/src/format/rar5/headers/locator.rs:48-86 | a locator record number by number: its size, type 1, bit 1 for the quick-open and bit 2 for the recovery field, and the fields in that order |
| `Locator.StoredFits` | crates/rar/src/format/rar5/headers/locator.rs:174-180 | a stored offset always fits its field, and is the real one whenever that fits |
| `QuickOpen.CatalogRoundTrip` | crates/rar/src/format/rar5/headers/quick_open.rs:37-125 | what the writer encodes the reader decodes, all of it or an error when there are too many entries |
| `QuickOpen.EntrySpelled` | crates/rar/src/format/rar5/headers/quick_open.rs:37-53 | an entry number by number: 0, the distance, the header's length, the header |
| `QuickOpen.DecodePayload` | crates/rar/src/format/rar5/headers/quick_open.rs:76-125 | the decoding loop, errors included, is the recursive decoder |
| `QuickOpen.AcceptedIsChecked` | crates/rar/src/format/rar5/headers/quick_open.rs:85-121 | an accepted entry's header lies inside what its matching checksum covers |
| `QuickOpen.EntryFits` | crates/rar/src/format/rar5/headers/quick_open.rs:54-68 | an entry never exceeds the bound computed from the volume size |
| `QuickOpen.EntryBoundReached` | crates/rar/src/format/rar5/headers/quick_open.rs:54-68 | and an entry for a header a whole volume back takes it up |
| `Blocks.FramedReads` | crates/rar/src/format/rar5/headers/serialize.rs:21-31 | a framed block reads back wherever it stands |
| `Blocks.ReadIsChecked` | crates/rar/src/format/rar5/headers/parse.rs:188-256 | whatever block is read bears a right checksum over its size and body, and the body is neither empty nor over two megabytes |
| `Blocks.ServiceReads` | crates/rar/src/format/rar5/headers/serialize.rs:437-467 | a service header announces exactly its data's length, and the data starts right behind it |
| `Blocks.EndReads` | crates/rar/src/format/rar5/headers/serialize.rs:259-275 | an end block takes eight bytes and reads back with its flag |
| `Blocks.MainParses` | crates/rar/src/format/rar5/headers/serialize.rs:108-142 | flags, volume number and extra area of a main header read back as serialized |
| `Blocks.FrameStamped` | crates/rar/src/format/rar5/headers/serialize.rs:21-31 | a frame starts with the checksum of all that follows it, lowest byte first |
| `Blocks.FrameSpelled` | crates/rar/src/format/rar5/headers/serialize.rs:21-31 | behind it come the size of the body and the body |
| `Blocks.ServiceSpelled` | crates/rar/src/format/rar5/headers/serialize.rs:437-467 | a service header number by number: 3, the flags 6, or 7 and the size of the extra area, then data size, 0, data size, 0, 0, host, length of the name, the name and the extra area |
| `Blocks.MainSpelled` | crates/rar/src/format/rar5/headers/serialize.rs:108-142 | a main header number by number: 1, the flags 4, or 5 and the size of the extra area, then the archive flags, of a numbered volume with both volume bits and the number, and the extra area |
| `Blocks.EndSpelled` | crates/rar/src/format/rar5/headers/serialize.rs:259-275 | an end block number by number: 5, 4 and its flags |
| `Blocks.VintFixed` | crates/rar/src/format/rar5/headers/serialize.rs:512-524 | the padded encoding |
| `Blocks.VintAtLeast` | crates/rar/src/format/rar5/headers/serialize.rs:39-48 | widening byte by byte gives the padded encoding of the same value |
| `Blocks.AtLeastDecodes` | crates/rar/src/format/rar5/headers/serialize.rs:33-48 | a widened vint decodes to the same value |
| `Rar20.CipherRoundTrip` | crates/rar/src/crypto/rar20.rs:60-78 | decryption undoes encryption under any aligned splitting of either side into calls, and both ends hold the same key words |
| `Rar20.KeysFollow` | crates/rar/src/crypto/rar20.rs:107-120 | each block is encrypted under the key words that absorbed all ciphertext blocks in front of it |
| `Rar20Known.KeyWordsAbsorb` | crates/rar/src/crypto/rar20.rs:162-169 | each key word absorbs every fourth byte of a ciphertext block, through the CRC table |
| `Rar20Known.KnownKeys` | crates/rar/src/crypto/rar20.rs:162-169 | the initial key words after four bytes |
| `Rar20Known.KnownBlock` | crates/rar/src/crypto/rar20.rs:107-160 | the ciphertext of "0123456789abcdef" under the initial table and key, round by round |
| `Rar20Known.KnownExchange` | crates/rar/src/crypto/rar20.rs:82-97 | the one exchange the bytes of "gi" make, in any table |
| `Rar20Known.KnownExchanges` | crates/rar/src/crypto/rar20.rs:82-97 | the exchanges of a second pass over "cabj", at distances that grow with place and count |
| `Rar20Known.KnownLastByte` | crates/rar/src/crypto/rar20.rs:85-95 | a last byte without partner is paired with a zero, and the counter wraps around |
| `Rar20Known.KnownPasses` | crates/rar/src/crypto/rar20.rs:82-97 | the first two passes over "b-", in order |
| `Rar20.BackwardUndoesForward` | crates/rar/src/crypto/rar20.rs:107-136 | the reversed rounds invert the forward rounds, for any number of them |
| `Rar20.RoundUndoesItself` | crates/rar/src/crypto/rar20.rs:147-153 | one round is undone by itself with the halves exchanged |
| `Rar20.DecryptUndoesEncrypt` | crates/rar/src/crypto/rar20.rs:107-136 | one block decrypts to what was encrypted |
| `Rar20.ShufflePermutes` | crates/rar/src/crypto/rar20.rs:80-97 | shuffling by any password keeps the table a permutation of the bytes |
| `Rar20.InitialSubstIsPermutation` | crates/rar/src/crypto/rar20.rs:80-82 | the initial table is a permutation |
| `Rar20.SubstitutedInjective` | crates/rar/src/crypto/rar20.rs:155-160 | substitution through a permutation is one-to-one on words |
| `Rar20.SubstitutedOnto` | crates/rar/src/crypto/rar20.rs:155-160 | and reaches every word |
| `Rar20.Rar20Cipher.constructor` | crates/rar/src/crypto/rar20.rs:51-58 | a new cipher holds the table and key the password determines |
| `Rar20.Rar20Cipher.SetKey` | crates/rar/src/crypto/rar20.rs:80-105 | shuffled table and key after the padded password's blocks |
| `Rar20.Rar20Cipher.ShuffleTable` | crates/rar/src/crypto/rar20.rs:82-97 | the nested loops are the shuffle, and every pass ends |
| `Rar20.Rar20Cipher.ExchangeUntil` | crates/rar/src/crypto/rar20.rs:88-95 | the wrapping byte counter reaches its end in at most 255 exchanges |
| `Rar20.Rar20Cipher.EncryptInPlace` | crates/rar/src/crypto/rar20.rs:70-78 | the buffer is encrypted in place, block after block, or refused unchanged when not aligned |
| `Rar20.Rar20Cipher.DecryptInPlace` | crates/rar/src/crypto/rar20.rs:60-68 | the same for decryption |
| `Rar20.Rar20Cipher.EncryptBlock` | crates/rar/src/crypto/rar20.rs:107-120 | one block in place, the key advanced by its ciphertext |
| `Rar20.Rar20Cipher.DecryptBlock` | crates/rar/src/crypto/rar20.rs:122-136 | one block in place, the key advanced by the ciphertext it had |
| `Rar20.Rar20Cipher.UpdateKeys` | crates/rar/src/crypto/rar20.rs:162-169 | all four key words absorb the block |
| `Chaining.ChunkedRoundTrip` | crates/rar/src/crypto/rar20.rs:60-78 | for any block chaining whose steps invert, the round trip holds under any pair of aligned splittings |
| `Chaining.CallsAreOneRun` | crates/rar/src/crypto/rar30.rs:47-65 | consecutive calls do what one call on the joined data does |
| `Chaining.BlockByBlock` | crates/rar/src/crypto/rar30.rs:47-65 | each block of the output is what one step makes of that block of the input in the state the blocks in front leave |
| `Rar15.CryptedTwice` | crates/rar/src/crypto/rar15.rs:33-37 | the keystream is its own inverse |
| `Rar15.SkipThenCrypt` | crates/rar/src/crypto/rar15.rs:39-46 | skipping yields exactly the suffix of crypting everything |
| `Rar15.KnownKey` | crates/rar/src/crypto/rar15.rs:13-31 | the key words of "password" |
| `Rar15.KnownStream` | crates/rar/src/crypto/rar15.rs:48-58 | "hello world" under "password" is the ciphertext the repository's own test gives |
| `Rar15.PasswordIsCString` | crates/rar/src/crypto/rar15.rs:13-31 | exactly when the bytes behind a zero byte do not matter |
| `Rar15.TailMatters` | crates/rar/src/crypto/rar15.rs:13-31 | 127 two-byte characters, a zero and a byte that is no UTF-8: the byte behind the zero changes the password |
| `Rar15.Rar15Cipher.constructor` | crates/rar/src/crypto/rar15.rs:13-31 | the key words of the clamped password up to its zero byte |
| `Rar15.Rar15Cipher.NextMask` | crates/rar/src/crypto/rar15.rs:48-58 | one keystream byte and the advanced key |
| `Rar15.Rar15Cipher.CryptInPlace` | crates/rar/src/crypto/rar15.rs:33-37 | the buffer xored with the keystream |
| `Rar15.Rar15Cipher.Skip` | crates/rar/src/crypto/rar15.rs:42-46 | the key advanced by that many bytes |
| `Rar30Cbc.CipherRoundTrip` | crates/rar/src/crypto/rar30.rs:47-85 | CBC decryption undoes encryption under any aligned chunking of either side, with any block permutation |
| `Rar30Cbc.CbcChains` | crates/rar/src/crypto/rar30.rs:67-75 | each ciphertext block encrypts its plaintext block xored with the ciphertext block in front of it, the first one with the IV; the last one is the IV carried on |
| `Rar30Cbc.Rar30Cipher.EncryptInPlace` | crates/rar/src/crypto/rar30.rs:57-65 | the buffer is encrypted in place, chained across calls, or refused when not aligned |
| `Rar30Cbc.Rar30Cipher.DecryptInPlace` | crates/rar/src/crypto/rar30.rs:47-55 | the same for decryption |
| `Rar30Kdf.SlowEqualsFast` | crates/rar/src/crypto/rar30.rs:98-106 | below 64 bytes of material both derivations give the same key and IV, for any hash |
| `Rar30Kdf.AsciiMaterial` | crates/rar/src/crypto/rar30.rs:87-96 | of an ASCII password up to 127 characters every character is hashed with a zero behind it, and then the salt |
| `Rar30Kdf.Utf16Spells` | crates/rar/src/crypto/rar30.rs:91-93 | every character is hashed in little-endian UTF-16, as the scalar it is in UTF-8: one unit that is no surrogate, or a high and a low one |
| `Rar30Kdf.RoundByRound` | crates/rar/src/crypto/rar30.rs:162-171 | the fast hash input is, round after round, the material and the round's number in three bytes, lowest first |
| `Rar30Kdf.KeyIvTaken` | crates/rar/src/crypto/rar30.rs:132-146 | the IV is the last digest byte after rounds 1, 16385, 32769 and so on, the key the first four words of the digest after all 262144, lowest byte first |
| `Rar30Kdf.ExpandedIs` | crates/rar/src/crypto/rar30.rs:149-160 | a rewritten block is the last sixteen words of its own SHA-1 message schedule, lowest byte of each first |
| `Rar30Kdf.RewriteFollowsStream` | crates/rar/src/crypto/rar30.rs:117-131 | the slices rewritten are exactly the stream-aligned blocks wholly inside an update that start after its first byte |
| `Rar30Kdf.OutsideStays` | crates/rar/src/crypto/rar30.rs:117-131 | every other byte of the buffer stays |
| `Rar30Kdf.PositionNeverWraps` | crates/rar/src/crypto/mod.rs:53-63 | for clamped passwords the 32-bit position never wraps in all rounds |
| `Rar30Kdf.RewriteBlocks` | crates/rar/src/crypto/rar30.rs:117-131 | the inner loop ends and rewrites exactly those slices, inside the material |
| `Rar30Kdf.UpdatePasswordData` | crates/rar/src/crypto/rar30.rs:149-160 | a block is replaced by its own late schedule words |
| `Rar30Kdf.DeriveSlow` | crates/rar/src/crypto/rar30.rs:108-147 | all rounds of the slow derivation, key and IV |
| `Rar30Kdf.DeriveFast` | crates/rar/src/crypto/rar30.rs:162-185 | all rounds of the fast derivation |
| `Rar30Kdf.DeriveKeyIv` | crates/rar/src/crypto/rar30.rs:87-106 | on either path the outcome is that of the slow derivation; ill-formed passwords are refused |
| `Password.ClampKeepsPrefix` | crates/rar/src/crypto/mod.rs:53-63 | the clamp is the first 127 characters of a well-formed password and the first 127 bytes of any other, all of it when there are no more; idempotent |
| `Password.CharEncodes` | crates/rar/src/crypto/mod.rs:53-63 | every character of a password is the UTF-8 encoding of a Unicode scalar |
| `Password.EncodedIsChar` | crates/rar/src/crypto/mod.rs:53-63 | and every such encoding is a character |
| `Crc32.Crc32Raw` | crates/rar/src/crc32.rs:17-24 | the table loop equals the bit-serial reflected CRC on every input |
| `Crc32.CheckValue` | crates/rar/src/crc32.rs:10-24 | the standard check value, of "123456789" |
| `Crc32.PasswordValue` | crates/rar/src/crc32.rs:17-24 | the raw value of "password" that the repository's own test gives |
| `Crc32.KnownEntries` | crates/rar/src/crc32.rs:26-47 | the three table entries that test names |
| `Crc32.BurstDetected` | crates/rar/src/crc32.rs:17-47 | equal-length inputs that differ only inside four consecutive bytes never share a checksum |
| `Crc32.BuildTable` | crates/rar/src/crc32.rs:32-47 | every entry is eight bit steps of its index |
| `Crc32.StepInjective` | crates/rar/src/crc32.rs:38-45 | a bit step loses nothing |
| `Crc32.SerialSplits` | crates/rar/src/crc32.rs:17-24 | the checksum of a concatenation continues from that of its head |
| `CivilTime.DaysFromCivilCounts` | crates/rar/src/time.rs:19-27 | the closed form counts the days of a plain leap-year calendar from 1970-01-01 |
| `CivilTime.CivilFromDaysIsRight` | crates/rar/src/time.rs:30-41 | every day number, negative ones too, gives a valid date with that day number |
| `CivilTime.CivilRoundTrip` | crates/rar/src/time.rs:19-41 | every valid date comes back |
| `CivilTime.DaysGrow` | crates/rar/src/time.rs:19-27 | later dates have larger day numbers |
| `CivilTime.DatesGrow` | crates/rar/src/time.rs:30-41 | larger day numbers give later dates |
| `CivilTime.SnapToMinute` | crates/rar/src/time.rs:50-57 | a whole minute, at most half a minute away |
| `CivilTime.SnapAbsorbsWobble` | crates/rar/src/time.rs:42-57 | a whole-minute offset sampled less than half a minute off snaps to itself |
| `CivilTime.ClampedRoundTrip` | crates/rar/src/time.rs:137-146 | exactly when the clamped conversions undo each other |
| `Vint.RoundTrip` | crates/rar/src/vint.rs:8-99 | decoding an encoding, anywhere in any data, gives the value back and takes its bytes, ten at most |
| `Vint.EncodedSums` | crates/rar/src/vint.rs:8-22 | an encoding adds up to its value, seven bits a byte, the lowest first, and exactly the bytes in front of the last have their top bit set |
| `Vint.DecodeSums` | crates/rar/src/vint.rs:61-86 | exactly what a decoder answers: the sum in 64 bits up to the first byte without top bit if that is one of ten, else that the vint is too long or the data ended |
| `Vint.EncodingIsShortest` | crates/rar/src/vint.rs:8-22 | no shorter byte string decodes to the value |
| `Vint.FixedRoundTrip` | crates/rar/src/vint.rs:61-86 | zero-padded wider forms up to ten bytes decode to the same value |
| `Vint.Encode` | crates/rar/src/vint.rs:8-22 | the encoding loop gives the bytes of `Vint.EncodedSums` |
| `Vint.EncodedSize` | crates/rar/src/vint.rs:89-99 | the size of the encoding |
| `Vint.DecodeFromSlice` | crates/rar/src/vint.rs:61-86 | the slice decoder, end of data and overlong forms included |
| `Vint.Reader.ReadVint` | crates/rar/src/vint.rs:38-58 | the reader decodes what the slice decoder does, on every input |
| `Vint.SizeBound` | crates/rar/src/vint.rs:89-99 | values below 128^k take at most k bytes |
| `Vint.SizeIsNeeded` | crates/rar/src/vint.rs:89-99 | and no fewer than they need |
| `Vint.ScanLocal` | crates/rar/src/vint.rs:61-86 | nothing but its own bytes decides what a vint decodes to |
| `Selector.MaskMatch` | crates/rar-cli/src/selector.rs:19-49 | the rolling arrays accept exactly the names that can be cut along the mask |
| `Selector.NextRow` | crates/rar-cli/src/selector.rs:33-46 | one row of the recurrence |
| `Selector.ReachIsMatch` | crates/rar-cli/src/selector.rs:31-48 | the recurrence reaches the end exactly when a cut exists |
| `Selector.MatchesAreGlobs` | crates/rar-cli/src/selector.rs:15-49 | every accepted name matches the documented glob |
| `Selector.TrailingStarRejects` | crates/rar-cli/src/selector.rs:37-37 | `a*` rejects `a`, which the glob accepts |
| `Selector.MaskIsGlobExactly` | crates/rar-cli/src/selector.rs:19-49 | a mask accepts exactly its glob if and only if its stars all lead |
| `Selector.NameMatches` | crates/rar-cli/src/selector.rs:60-76 | what a selector selects: mask on path or basename, equal name, or a directory above |
| `Selector.PlainSelects` | crates/rar-cli/src/selector.rs:60-76 | where case counts, a selector that is no mask selects exactly the member of that name and what lies under the directory of that name |
| `Selector.MaskSelects` | crates/rar-cli/src/selector.rs:66-74 | a mask is held against the whole path, and one without a slash also against what follows the last slash |
| `Selector.CharEqIs` | crates/rar-cli/src/selector.rs:22-28 | letters are equal in either case on Windows, and no other characters are |
| `Selector.UnderDirIs` | crates/rar-cli/src/selector.rs:90-106 | a member is under a directory exactly when its path continues it with a separator |
| `Switches.DedupeDefaults` | crates/rar-cli/src/common.rs:69-95 | the loop over spans and marks keeps exactly the groups no later group of their key replaces |
| `Switches.DedupedKeepsLast` | crates/rar-cli/src/common.rs:65-95 | a subsequence with exactly the last occurrence of every single-value key, its value with it, all repeatable switches and stray tokens; idempotent |
| `Switches.GroupsAre` | crates/rar-cli/src/common.rs:73-88 | a single-value option and its separate value are one group, unless it comes last, and every other token is one of its own |
| `Switches.SingleKeyIs` | crates/rar-cli/src/common.rs:8-24 | the single-value options are the long ones, alone or with a value attached, but for nine that may repeat |
| `Switches.TakesValueIs` | crates/rar-cli/src/common.rs:175-196 | a token is followed by its value exactly when it is such an option without a value attached |
| `Switches.CommandIndex` | crates/rar-cli/src/common.rs:175-196 | finds the one token that is neither switch nor value, none behind a bare `--` |
| `Switches.CommandUnique` | crates/rar-cli/src/common.rs:175-196 | there is at most one such token |
| `Switches.ReorderSwitches` | crates/rar-cli/src/common.rs:217-258 | arguments stay unless a known subcommand follows switches; then they are permuted and sorted out as in `Switches.ReorderSorts` |
| `Switches.ReorderKeeps` | crates/rar-cli/src/common.rs:202-258 | reordering permutes, keeps the same command, order and values attached, and is idempotent |
| `Switches.ReorderSorts` | crates/rar-cli/src/common.rs:217-258 | in terms of the arguments alone: in front of the subcommand stand exactly the switches that are a root option, alone or with a value attached, behind it those that are not, each in its order and with its separate value, then the rest untouched |
| `Switches.BelongsExactly` | crates/rar-cli/src/common.rs:242-248 | a switch belongs to the root exactly when it is one of its options, alone or with a value attached |
| `Switches.MergeDefaultSwitches` | crates/rar-cli/src/common.rs:34-63 | the kept defaults go right behind the subcommand, or in front of everything |
| `Switches.SuppressedIs` | crates/rar-cli/src/common.rs:39-52 | a default is overridden exactly by a command-line argument for the same option, when that may not repeat |
| `Switches.OverrideIsWholeExactly` | crates/rar-cli/src/common.rs:39-52 | overriding drops whole switches if and only if it tears none from its value |
| `Switches.StrayValueStays` | crates/rar-cli/src/common.rs:45-51 | an overridden default leaves its separate value behind |
| `Progress.ProgressTracker.constructor` | crates/rar/src/write_progress.rs:96-103 | nothing reported, nothing shown |
| `Progress.ProgressTracker.Report` | crates/rar/src/write_progress.rs:111-142 | the committed figure stays the saturated sum of every member's highest report, and the callback hears exactly of the reports that add to it |
| `Progress.ProgressTracker.SetTotal` | crates/rar/src/write_progress.rs:105-109 | a new total, nothing else |
| `Progress.OrderDoesNotMatter` | crates/rar/src/write_progress.rs:77-87 | the sum depends on which reports were made, not on their interleaving |
| `Progress.HighestIsHighest` | crates/rar/src/write_progress.rs:120-125 | the highest report of a member |
| `Catalog.TokenSource.Allocate` | crates/rar/src/archive/reader.rs:20-28 | a token never handed out before, until exhaustion, then always an error |
| `Catalog.ResolveExactly` | crates/rar/src/archive/reader.rs:132-149 | an ID resolves to a member at its offset, and is stale exactly for another catalog or a missing offset |
| `Catalog.ResolveAfterReorder` | crates/rar/src/archive/reader.rs:125-149 | with distinct offsets an ID finds its own member after any reordering |
| `Catalog.UniqueEntryIsUnique` | crates/rar/src/archive/reader.rs:491-501 | a name gives an ID exactly when one member bears it, and the ID resolves back to it; the error counts the others |
| `Catalog.IdsStayScoped` | crates/rar/src/archive/reader.rs:117-149 | over every run an ID resolves only in the archive that issued it, under its token, at its offset |
| `Catalog.EditRenewsToken` | crates/rar/src/archive/editor.rs:337-344 | a successful edit leaves a token never used before; a failed one changes nothing before the disk; the catalog changes without a new token exactly at exhaustion |
| `Catalog.EditEndsIds` | crates/rar/src/archive/editor.rs:255-346 | after a successful edit no older ID ever resolves again |
| `Catalog.RunSound` | crates/rar/src/archive/engine.rs:215-220 | over every run the archives' tokens differ and only new ones appear |
| `Catalog.ExhaustedForever` | crates/rar/src/archive/reader.rs:22-28 | once exhausted, no archive opens and no token changes |
| `Catalog.ExhaustedEditMisresolves` | crates/rar/src/archive/editor.rs:337-344 | at exhaustion an old ID resolves to another member of the edited archive |
| `Catalog.GatheredInCatalog` | crates/rar/src/archive/editor.rs:283-336 | a plan is carried out only if every member it names is resolved, inside the catalog |
| `Catalog.GatheredExactly` | crates/rar/src/archive/editor.rs:283-336 | a plan is carried out only if every operation is right by itself and comment and recovery are set once; what is then deleted, altered and set is exactly what the operations say |
| `Catalog.EditSucceedsExactly` | crates/rar/src/archive/transaction/edit.rs:18-130 | an edit succeeds if and only if the plan is permitted, the rewrite commits, the new archive, unless emptied, can be scanned, and tokens are left; a permitted plan names members of the catalog, keeps within the percentage, alters nothing it deletes, is more than deletes only of an archive that is not locked, and combines with emptying the archive nothing else |
| `Catalog.RefusedAs` | crates/rar/src/archive/transaction/edit.rs:18-130 | any other plan over the catalog's members is refused with its reason, a locked archive as locked, and nothing changes |
| `Catalog.Archive.OpenRead` | crates/rar/src/format/shared/extract/open.rs:13-22 | opening replaces the catalog and then renews the token |
| `Catalog.Archive.EnsureFullCatalog` | crates/rar/src/format/rar5/extract/open.rs:422-427 | a rescan replaces a quick-open catalog under its own token, and only such a one |
| `Catalog.Archive.Apply` | crates/rar/src/archive/editor.rs:270-346 | the plan is resolved before anything is written, and the token renewed after |

## Left out

- Header encryption (`-hp`): the volume writer is modelled with plain headers; an encrypted archive carries no usable quick-open record.
- RAR4 and RAR 1.3 finalization and edits, appending, solid state and `.rev` files: only the shared life cycle; building `.rev` files is one operation that can fail.
- Codecs, file headers, file times and owner records: a member is a non-empty header and its data, made elsewhere.
- MemberSplit.WriteSplitMember: the bytes of chunk headers, their checksums and extra records are functions given as parameters, bound only by the estimates the source makes of their lengths; with a recovery record a chunk can exceed the size, exactly as `VolumeBudget.ChunkWithinSizeExactly` says.
- File systems: a file is a sequence of bytes, a failing write leaves any prefix of its bytes, the staged file reads back as written, names of staged, parked and final files differ; power loss without completed renames is not modelled.
- Journal.Directory.CommitFiles: explicit parks and malformed journal records are not modelled.
- VolumeWriter.RarArchive.CommitPending: an installation that fails leaves the earlier set; the failures that lose one are in `JournalLosses` alone.
- VolumeWriter.RarArchive.StartNextVolume: the volume counter is taken not to overflow 64 bits, also while a member is added over several volumes.
- VolumeWriter.RarArchive.Emit: the writer's byte count is not cut at 64 bits.
- VolumeBudget.DataBudget: sizes are unbounded, so the source's overflow errors in the recovery plan do not arise.
- Locator.PatchedIsBuilt: for headers without other extra records, as the volume writer makes them.
- Catalog.Archive.Apply: RAR5 only; what the edited archive contains is the result of a scan given as a parameter.
- CivilTime.DaysFromCivilCounts: unbounded integers; the bounds of 64-bit years are not modelled.
- Rar20, Rar15, Rar30Kdf: zeroization of keys.
- Selector.NameMatches: case folding is ASCII's, as in the source; `select_entries` would only add easy members.
- Switch spelling tables, configuration files, clap parsing: the command tree is three sets of names.
- `drop_undeclared` and `switches_after_external_command`: further passes over the reordered arguments.
- Clock reads and time-zone lookup: the local offset is a parameter.
