# A verified model of the localtables storage format

This project models, in Dafny, the single-file columnar store of the
`localtables` repository and proves what its design relies on. The model
follows the source's own shape: an object whose methods change its fields is a
class whose methods are proved against a specification on values, loops are
loops with invariants, and pure code is functions and lemmas.

To verify everything: `dafny verify --resource-limit 2000000 dfyconfig.toml`.

## How it is organised

**The file and its commits.** `Layout` has extents, manifests, meta pages and the
frames they are stored in. A disk (`Disk`) is what a read returns, what is on the
medium, and the writes not yet synced; after a crash each byte is its old value or
that of any pending write, independently. A cell of the file records which frame it is
a piece of, so a page torn between two frames decodes as neither: that is the
assumption made of the checksum, and the only one. `Allocator` is the extent
allocator. `Store` is the commit protocol as steps: begin, write a segment or delete
vector, drop a segment, retire what was rewritten, store a schema, append the
manifest, sync, overwrite the older meta slot, sync, release a snapshot, crash and
reopen. `StoreProof` shows that each step keeps the invariant, `StoreRuns` states what
follows for whole runs, `Creation` what is left of a table whose creation was cut
short, `SchemaRuns` and `Retire` say exactly when a schema stored ahead and a
retirement keep it (`DoubleFree` is a run where one does not), and `TableFile` is the
imperative code refining those steps. `Snapshot` is the registry of snapshots, and
`Readers` the handle that ties reader references, the registry and the pins of the
protocol together.

**The log and the writer.** `Frame` and `WalFile` are the log's bytes, `Wal` the pair
of logs, `Memtable` the rows in memory. `Durability` is the writer as steps over
logical records; `DurabilityProof` and `DurabilityRuns` carry its invariant and its
main theorem. `Requests` says what a deletion, an update and an insert mean for the
rows of the table. `Writer` is the writer itself, proved to take those steps, and
`FlushLoss` says what a crash inside a flush may cost. `RowGroups`, `Maintenance` and
`Discard` are row groups, compaction and dropping whole segments; `DeleteRange` keeps
delete vectors inside their segments. The writer records every durable moment it
passes, so what a crash inside a flush or a write reopens to is part of its contracts.

**All of it together.** `History` joins writes, flushes, compactions and drops into
one theorem over everything that is committed, and `HistoryCases` has the histories in
which it fails. `Register` shows that the file is a register holding one table, read
from its bytes; `Handle` and `HandleRuns` put the file, the logs and the writer
together into one handle, and prove durability for it on the bytes of its files.

**Keys and clustering.** `ByteOrder` and `ValueCodec` are the order-preserving
codec; `ZOrder` and `Cluster` the interleaved keys and the reordering of rows.

**Pruning.** `ZoneMap`, `Bits`, `Bloom`, `Trigram`, `Like`, `LikeEscape` and `Pruning`
go from the stored bounds and filters to the decision to skip a segment.

**Segments.** `Segment` and `Columns` write chunks and read row ranges back;
`ReadRanges` reads a segment under a page selection and a delete mask. `Evolve`
and `EvolveRuns` are schema changes, `SchemaRaces` what may land while one waits.
`Runs` and `Sequences` hold what several parts use: an invariant every step keeps holds
throughout a run, and sums of sequences.

## What the proofs found

The code meets each of these only under the condition stated, and each
condition is proved to be exact.

- A flush rotates the logs before it commits
  (`crates/localtables-format/src/columnar/table/write.rs:234`), and rotation empties the inactive log. If that
  log still holds records above the checkpoint, because an earlier flush was
  interrupted between the two, a crash loses them: `InterruptedFlushKeepsRecordsIff`
  for the records, `InterruptedFlushIsHarmlessIff` for the rows (deleted rows come back
  as well), with the losing run in `TwoInterruptedFlushesLoseARow` and
  `LostAlthoughAcknowledged`.
- A deletion that names a segment twice computes both delete vectors from the state
  before either, and the second replaces the first
  (`crates/localtables-format/src/columnar/table/write.rs:488-535`): `DeletionIsCompleteIff`,
  `RepeatedSegmentLosesADeletion`.
- `write_schema` appends at the end of the file while `allocate` grows from the
  manifest's recorded length (`crates/localtables-format/src/table_file.rs:219-224`, `crates/localtables-format/src/table_file.rs:337`), so a
  rewriting schema change can store a segment over its own schema. `AllocationKeepsIff`
  is the exact test step by step, `RewriteSafeIff` the condition for a whole rewrite,
  known before its first write: the schema fits before the next segment boundary, or
  best fit over the free list takes all the new sizes in turn. `RewriteOverwritesSchema`
  is a run from creation in which the schema in force is overwritten and committed.
- A compaction, and a rewriting schema change, free the extents of the entries they read
  under a snapshot, once for each name they were given
  (`crates/localtables-format/src/columnar/table/maintain.rs:160-173`, `crates/localtables-format/src/columnar/table/evolve.rs:246-258`). A segment
  named twice, already rewritten by another run, or given a new delete vector by a flush
  in between is freed twice, and the allocator hands the same bytes out twice:
  `Retiring.StepKeepsIff` and `Retiring.RunKeepsIff` have the exact condition,
  `CompactingTwiceLosesASegment` a run from creation in which a committed segment is lost.
- A rewriting schema change passes over fully deleted segments and leaves their
  entries under the old shapes, where compaction cannot open them
  (`crates/localtables-format/src/columnar/table/evolve.rs:132-164`, `crates/localtables-format/src/columnar/table/maintain.rs:182-194`):
  `ReadableAfterRewriteIff`, `DropLeavesUnreadable`.
- By its documentation `cast_column` fails as a whole when the new type has no
  counterpart for a stored value, and never puts a null in its place
  (`crates/localtables-format/src/columnar/table/evolve.rs:102-103`). The code casts with Arrow's default
  options (`crates/localtables-format/src/columnar/table/evolve.rs:279`), under which such a value becomes null,
  and the change fails only where the new batch refuses the null. `CastKeepsPromiseIff`
  is the exact condition, `CastCommitsNull` a value lost. The model follows the code.
- LIKE patterns are split without an escape character
  (`crates/localtables-format/src/columnar/trigram.rs:158-163`). In a dialect where backslash escapes, pruning
  can drop a segment with a match: `EscapedRequirementIff` says exactly for which
  patterns it may not, and `EscapedPatternOverclaims` is one for which it does.
- `delete_segments` forgets the delete vectors of the segments it is given, and that
  they were still to be stored, before it returns early because none of their rows is
  live (`crates/localtables-format/src/columnar/table/write.rs:199-209`). The deleted rows are there again in
  that process, and the next flush moves the checkpoint past the logged deletion
  without storing its vector, so the deletion is lost for good:
  `DropIsCompleteIff`, with the runs in `DroppingNothingLosesADeletion` and
  `ForgettingBringsBack`.
- Compaction compares delete counts to see whether a deletion came between its read and
  its commit (`crates/localtables-format/src/columnar/table/maintain.rs:128-142`), but not whether the segment is
  still in the table. A second compaction that read the same segment under the same
  commit writes its rows again, and so does one that is given a segment twice:
  `CompactRun` and `RowsArePromisedIff` have the exact condition, `SecondRunDuplicates`
  a history from creation.
- A schema change reads its sources before it locks the writer, and then looks only at
  whether the memtable is empty (`crates/localtables-format/src/columnar/table/evolve.rs:138-151`). A deletion of
  stored rows in between comes back with a drop or a cast, and a row written and flushed
  in between cannot be read afterwards: `ChangeIsExactIff`, `DeletionComesBack`,
  `FlushedRowIsLost`.
- A page selection on a segment without pages reads no rows, whatever it keeps:
  `SelectionNeedsPages`. Only the public `read_segment_pages` can be asked for this; the
  repository's own scan selects no pages of a segment that has none.

## Model

| member | source | states |
|---|---|---|
| `StoreRuns.CrashSafety` | crates/localtables-format/src/table_file.rs:586-634 | In every run of builds, schema changes, retirements, commits, reader pins and crashes in which each step met its condition (no allocation ran into a schema stored past the recorded end, and what was retired was named once and still current), whatever subset of the unsynced bytes a crash keeps, opening finds the last acknowledged commit or the one whose meta page was in flight, and every byte that commit needs is the byte it was sealed with |
| `StoreRuns.AcknowledgedNeverLost` | crates/localtables-format/src/table_file.rs:367-409 | Across any stretch of a run, crashes included, the acknowledged txn never goes back, and equal txns mean the same commit |
| `StoreRuns.LosingNewestSlotRecoversPrevious` | crates/localtables-format/src/table_file.rs:586-634 | At every moment of every such run, losing the newest meta page alone makes opening return exactly the commit before, with all its bytes still in place |
| `StoreRuns.PinnedBytesNeverChange` | crates/localtables-format/src/table_file.rs:289-340 | While a snapshot stays pinned in such a run, over any number of other commits, allocations and releases, no byte it needs ever changes |
| `StoreRuns.EveryByteHasOneOwner` | crates/localtables-format/src/table_file.rs:289-340 | At every moment of such a run, segment data, delete vectors, the current and the fallback manifest, the schema and the free list own each byte at most once, inside the data region and before the end the manifest records (while building, or in a schema stored past it) |
| `StoreRuns.MinActiveMonotone` | crates/localtables-format/src/snapshot.rs:137-145 | Over the protocol's steps the reuse horizon never decreases and never exceeds the committed txn; that releases leave the current commit pinned is what Readers.Table proves of the references |
| `StoreRuns.SealedHoldsWhatWasWritten` | crates/localtables-format/src/table_file.rs:343-360 | When a manifest is appended, every range written for it holds the bytes written, and every range kept from the commit before holds what it held |
| `StoreRuns.CreatedInv` | crates/localtables-format/src/table_file.rs:64-160 | The file creation leaves (both manifests and both slots seeded) satisfies the invariant every run starts from |
| `Creations.UnsyncedCreationNeverOpens` | crates/localtables-format/src/table_file.rs:64-130 | The power failing before creation's first sync leaves a file in which no commit is found |
| `Creations.CreationOpensEmptyOrNot` | crates/localtables-format/src/table_file.rs:130-160 | The power failing while the two meta pages are written leaves a file in which no commit is found iff neither page came through, and else the empty table of the newer page that did, under the schema it was created with |
| `StoreRuns.SealedHoldsTheSchema` | crates/localtables-format/src/table_file.rs:219-224 | A commit that changes the schema names a range holding the whole of the schema stored for it |
| `SchemaRuns.AllocationKeepsIff` | crates/localtables-format/src/table_file.rs:289-360 | Of the steps that retire nothing: the invariant is kept iff the allocation takes a free extent or grows the file to a place off the schema; one that does not gives a byte of the schema a second owner and overwrites it |
| `Retiring.StepKeepsIff` | crates/localtables-format/src/columnar/table/maintain.rs:160-173 | Any step keeps the invariant iff its allocation stays off the schema, and what a compaction or a schema change retires is named once and still is the entry, same data and same stored vector, in the manifest being built; else some byte gets two owners in that manifest |
| `Retiring.RunKeepsIff` | crates/localtables-format/src/columnar/table/maintain.rs:160-173 | Over a whole run from creation the invariant holds throughout iff every step met that condition, iff no byte ever has two owners |
| `Retiring.TrackedKeeps` | crates/localtables-format/src/columnar/table/maintain.rs:104-173 | Along such a run every range of every entry any reader has pinned is, in the manifest being built, still that entry's or already free, whatever the steps between; this is what makes the condition exact |
| `Retiring.UncontendedIsSafe` | crates/localtables-format/src/columnar/table/maintain.rs:104-173 | Retiring distinct entries of the commit the build started from, with nothing but new segments in between, always meets the condition |
| `Retiring.StoredMeanwhileIsLost` | crates/localtables-format/src/columnar/table/maintain.rs:160-173 | A delete vector first stored for a segment after it was read is freed by nobody when the segment is retired: its bytes have no owner afterwards |
| `DoubleFrees.CompactingTwiceLosesASegment` | crates/localtables-format/src/columnar/table/maintain.rs:160-173 | A run from creation in which one compaction names its segment twice: one extent is freed twice, two later segments are stored on it, and the commit reads the second one's bytes for both |
| `SchemaRuns.RewriteSafeIff` | crates/localtables-format/src/columnar/table/evolve.rs:132-164 | A drop or cast whose schema was stored right behind the recorded end, as after a commit, keeps all its new segments off it, in any number and sizes, iff the schema fits before the next segment boundary or best fit over the free list at the start takes those sizes one after the other; both are known before the first write |
| `SchemaRuns.CommitEndsFile` | crates/localtables-format/src/table_file.rs:493-520 | A commit leaves the recorded end at the end of the file, where the next schema goes |
| `SchemaRuns.CoveredIsSafe` | crates/localtables-format/src/table_file.rs:289-340 | A build that stored no schema, or whose recorded end covers it, always passes the test |
| `SchemaRuns.PlainRunsAreSafe` | crates/localtables-format/src/columnar/table/evolve.rs:31-70 | Runs of flushes, dropped segments, added and renamed columns meet every condition throughout, so all of the above holds of them outright |
| `SchemaRuns.RewriteOverwritesSchema` | crates/localtables-format/src/columnar/table/evolve.rs:132-164 | A run from creation, through one flush, to a committed drop or cast whose schema in force begins with a byte of the rewritten segment |
| `StoreProof.RecoversAcknowledgedOrInFlight` | crates/localtables-format/src/table_file.rs:586-634 | What opening a crashed file returns: commit, slot and the extent the losing slot names, in each phase of a commit |
| `StoreProof.StepKeeps` | crates/localtables-format/src/table_file.rs:367-409 | Each step (allocation and write, delete vector, drop, retirement, schema, append, sync, flip, release, crash) keeps the invariant when it meets its condition |
| `Allocator.Allocate` | crates/localtables-format/src/table_file.rs:289-340 | The loop returns the tightest fitting free range no reader can still need, or the aligned end of the file, at the requested alignment and length, with both remainders returned to the free list |
| `Allocator.AllocatedOwners` | crates/localtables-format/src/table_file.rs:289-340 | Conservation: every byte handed out is taken from the free list byte for byte, or lies past the old end, and no live owner changes |
| `Allocator.AllocatedAvoids` | crates/localtables-format/src/table_file.rs:289-340 | Quarantine: a byte a snapshot at some txn needs is neither handed out nor exposed while the horizon is at most one past that txn |
| `Allocator.FreeAvoids` | crates/localtables-format/src/layout/manifest.rs:115-122 | Freeing under the next txn exposes nothing to readers of earlier ones |
| `Layout.OverlapsIffShareAByte` | crates/localtables-format/src/layout/mod.rs:79-81 | The overlap test of two non-empty extents holds iff some byte is in both |
| `Layout.AlignUp` | crates/localtables-format/src/layout/mod.rs:95-98 | The multiple of the alignment in [value, value + align) |
| `Layout.LayoutSeparates` | crates/localtables-format/src/layout/manifest.rs:115-122 | One owner for each byte means that any two distinct ranges of a manifest are disjoint |
| `Layout.TornPageReadsOldNewOrNothing` | crates/localtables-format/src/table_file.rs:543-569 | A page holding any mixture of old and new bytes reads as the old page, as the new one, or not at all |
| `TableFiles.TableFile.Open` | crates/localtables-format/src/table_file.rs:163-204 | Opening after any crash succeeds and lands in the protocol state that recovery predicts |
| `TableFiles.FindCommitted` | crates/localtables-format/src/table_file.rs:586-634 | The loop over the slots, newest first, returns what the specification of recovery says |
| `TableFiles.TableFile.WriteAllocated` | crates/localtables-format/src/table_file.rs:343-360 | The bytes land on a freshly allocated extent, and no other byte of the file changes |
| `TableFiles.TableFile.WriteSegment` | crates/localtables-format/src/columnar/table/write.rs:318-354 | Storing a segment is one protocol step; it keeps the file valid iff the extent stays off a schema just stored, and then a crash anywhere in it still opens to the commit before |
| `TableFiles.TableFile.WriteDeletes` | crates/localtables-format/src/columnar/table/write.rs:257-285 | Storing a delete vector and freeing the one it replaces is one protocol step, with the same condition and the same guarantee |
| `TableFiles.TableFile.WriteSchema` | crates/localtables-format/src/table_file.rs:219-224 | A schema goes where the file ends, nothing is freed for it, and a crash on the way opens to the commit before |
| `TableFiles.TableFile.RetireSegment` | crates/localtables-format/src/columnar/table/write.rs:185-203 | Dropping a segment frees its data and its delete vector as the manifest being built has them, as of this commit |
| `TableFiles.TableFile.RetireSources` | crates/localtables-format/src/columnar/table/maintain.rs:160-173 | Retiring what a rewrite read under an older commit drops the named entries and frees what that commit says of them, once for each name; the file stays valid iff each is named once and still current |
| `TableFiles.TableFile.WriteManifest` | crates/localtables-format/src/table_file.rs:493-520 | The manifest is appended at the aligned end of the file, recording the length that includes it, or nothing is written |
| `TableFiles.TableFile.Commit` | crates/localtables-format/src/table_file.rs:367-409 | On success the new commit is current and the old one is the fallback; at every disk state on the way a crash opens to the commit before or to this one |
| `TableFiles.CommitPublishes` | crates/localtables-format/src/table_file.rs:367-409 | What a commit publishes: next txn, the other slot, the built manifest with the overwritten slot's manifest freed, the old commit as fallback, and opening reads exactly that back |
| `Registers.BuildShows` | crates/localtables-format/src/columnar/table/write.rs:236-286 | Reading the manifest being built from the file's bytes gives a table; each step of a build does to that table what it is for (one more segment with the rows of its bytes, one new delete vector, an entry or all retired entries gone) and to every other segment nothing |
| `Registers.AppendShows` | crates/localtables-format/src/table_file.rs:493-520 | What is sealed shows exactly the table that was built |
| `Registers.CrashShows` | crates/localtables-format/src/table_file.rs:586-634 | Whatever a crash leaves decodes, rows and delete vectors and all, as the table of the commit before, or as that of the commit whose meta page was in flight |
| `Snapshots.SnapshotRegistry.Publish` | crates/localtables-format/src/snapshot.rs:119-130 | Publishing tracks the new snapshot and forgets only ones nobody holds |
| `Snapshots.SnapshotRegistry.Release` | crates/localtables-format/src/snapshot.rs:119-145 | Dropping the last reference releases the snapshot, and dropping any other releases nothing |
| `Snapshots.SnapshotRegistry.MinActiveTxn` | crates/localtables-format/src/snapshot.rs:137-145 | The fold returns the least txn of the held snapshots |
| `Snapshots.RegistryGivesMinActive` | crates/localtables-format/src/snapshot.rs:137-145 | A registry that tracks the pinned commits, one of them the current, answers with the horizon the protocol needs, at most the committed txn |
| `Readers.RegisteredTracks` | crates/localtables-format/src/snapshot.rs:119-145 | A registry that follows exactly the referenced snapshots tracks the commits they read |
| `Readers.Table.constructor` | crates/localtables-format/src/columnar/table/mod.rs:195-208 | A new handle publishes its file's commit and holds the only reference to that snapshot |
| `Readers.Table.Snapshot` | crates/localtables-format/src/columnar/table/mod.rs:236-245 | A reader gets a reference of its own to the current snapshot, which reads the newest commit |
| `Readers.Table.MinActive` | crates/localtables-format/src/columnar/table/mod.rs:257-260 | The answer is the least txn anyone still reads and at most the newest commit's, and the answers over any sequence of calls never go down |
| `Readers.Table.Begin` | crates/localtables-format/src/columnar/table/write.rs:236-240 | A build starts behind the registry's answer, which is the horizon the protocol step asks for |
| `Readers.Table.Drop` | crates/localtables-format/src/snapshot.rs:26-27 | A reader lets go of a reference it holds: nothing is unpinned, or one commit is, by the protocol's release step and so never the newest |
| `Readers.Table.Publish` | crates/localtables-format/src/columnar/table/write.rs:369-376 | A write publishes a new snapshot of the same commit; pins and references of readers stay |
| `Readers.Table.Commit` | crates/localtables-format/src/columnar/table/write.rs:362-376 | A commit is published as the current snapshot, and the one before is unpinned iff no reader holds it |
| `Readers.Table.ReaderFindsItsBytes` | crates/localtables-format/src/columnar/table/mod.rs:236-245 | After any sequence of these calls a reader finds every byte its snapshot's commit needs as it was sealed |
| `Frames.RoundTrip` | crates/localtables-format/src/layout/frame.rs:37-109 | A frame decodes to its payload under its own tag, for every checksum function |
| `Frames.PeekEncoded` | crates/localtables-format/src/layout/frame.rs:56-81 | A frame's header gives the payload length and checksum whatever follows it and however much of the payload is missing |
| `WalFiles.Log.CutRecovers` | crates/localtables-format/src/wal/file.rs:216-273 | Cut a log at any byte: the records recovered are exactly those that fit whole before the cut |
| `WalFiles.Log.CutKeepsWholeRecords` | crates/localtables-format/src/wal/file.rs:216-273 | ... and the file is shortened to exactly their bytes |
| `WalFiles.Log.WholeIsLargest` | crates/localtables-format/src/wal/file.rs:216-273 | "Fit whole" is the largest number of records whose frames lie before the cut |
| `WalFiles.Log.AppendAfterRecovery` | crates/localtables-format/src/wal/file.rs:157-178 | Appending after such a recovery and recovering again returns the survivors followed by the new records |
| `WalFiles.RecordLogReads` | crates/localtables-format/src/wal/file.rs:292-295 | The frame format is a log the above applies to, for every checksum and every serializer with an inverse |
| `WalFiles.WalFile.AppendGroup` | crates/localtables-format/src/wal/file.rs:157-178 | A group is appended behind what the log holds, record by record |
| `WalFiles.WalFile.Recover` | crates/localtables-format/src/wal/file.rs:216-273 | The loop returns the records of the log's readable prefix, cuts the file there, and reports whether it cut |
| `Wal.RecoveredInOrder` | crates/localtables-format/src/wal/mod.rs:162-179 | Reading two logs and sorting by lsn gives back the order of writing |
| `Wal.WalPair.Rotate` | crates/localtables-format/src/wal/mod.rs:144-151 | Rotation starts the other log empty at a higher generation and retires the one in use |
| `Wal.WalPair.Recover` | crates/localtables-format/src/wal/mod.rs:162-179 | Both logs are read and merged, and appends continue in the newest |
| `Memtables.Memtable.InsertAt` | crates/localtables-format/src/columnar/memtable.rs:114-123 | A batch at unused numbers adds its rows, in order, at consecutive numbers; an empty one takes none |
| `Memtables.Memtable.Insert` | crates/localtables-format/src/columnar/memtable.rs:91-107 | A batch is added behind the live rows, coalescing first when there are too many chunks, at the number returned |
| `Memtables.Memtable.Delete` | crates/localtables-format/src/columnar/memtable.rs:126-131 | Exactly the live rows with the named numbers go, and the count is how many that were |
| `Memtables.Memtable.LiveSeqnos` | crates/localtables-format/src/columnar/memtable.rs:143-154 | The i-th number returned names the i-th row a scan returns |
| `Memtables.Memtable.Batches` | crates/localtables-format/src/columnar/memtable.rs:160-189 | The batches joined are the live rows in order, and none is empty |
| `Memtables.Memtable.Coalesce` | crates/localtables-format/src/columnar/memtable.rs:194-228 | The live rows stay, in order, in one chunk without tombstones, and every number is new |
| `Memtables.Memtable.Freeze` | crates/localtables-format/src/columnar/memtable.rs:235-250 | All live rows come out in order, the memtable is empty, and numbering continues |
| `Memtables.Memtable.LiveRows` | crates/localtables-format/src/columnar/memtable.rs:77-79 | The count of rows a scan would return, from totals and tombstones alone |
| `Memtables.LiveCount` | crates/localtables-format/src/columnar/memtable.rs:77-79 | Live rows plus tombstones are the rows held |
| `Memtables.LiveIncrease` | crates/localtables-format/src/columnar/memtable.rs:114-123 | Live rows carry strictly increasing numbers, all below the next one |
| `DurabilityRuns.RowsAreTheAcknowledged` | crates/localtables-format/src/columnar/table/write.rs:223-292 | The core: in every run of writes, flushes, compactions that read the state they replace, segment drops and crashes, if no crash falls between rotation and commit of a flush that began with needed records in the inactive log, the table holds exactly the rows of a reference history computed from the requests alone, which never crashes and has no log; a write cut short counts for the records that reached the log |
| `Histories.RowsArePromised` | crates/localtables-format/src/columnar/table/write.rs:185-292 | Durability over everything the write path commits: also runs that read under any pin the process took before, whatever was committed since, and drops of segments with nothing live. As long as each event meets its condition (a crash as above; a run reads no segment with a live row that has left the table or was named before; a drop that commits nothing names only segments that never had a row) the table, and a reopen at any idle moment, show exactly the rows acknowledged |
| `Histories.RowsArePromisedIff` | crates/localtables-format/src/columnar/table/maintain.rs:104-177 | The conditions on runs and drops are exact: the first one that misses its own leaves other rows than those acknowledged |
| `Histories.OnlyRequestsPromise` | crates/localtables-format/src/columnar/table/maintain.rs:104-177 | What is acknowledged does not change by a run or a drop of nothing live, safe or not |
| `Histories.SafeHistoriesAreSound` | crates/localtables-format/src/columnar/table/maintain.rs:117-142 | What a run relies on when it compares delete counts holds of every pin the process still has: a segment still in the table has kept its rows, and its vector has only grown |
| `HandleRuns.BytesShowTheAcknowledged` | crates/localtables-format/src/columnar/table/write.rs:223-292 | One handle on its three files, as bytes. In every run of appends, rotations, builds, commits, truncations, readers letting go and power losses in which each step met its condition: whatever moment of whatever operation the power fails at, whichever unsynced bytes of the table file are left, and wherever the log being appended is cut, opening finds a commit, and decoding its segments and delete vectors and replaying the logs over it gives exactly the rows acknowledged, and those of the records whole in the log |
| `HandleRuns.PowerLossKeepsTheRows` | crates/localtables-format/src/columnar/table/write.rs:223-292 | With nothing being appended and no drop in hand, exactly the rows acknowledged: a flush or a compaction may be lost or kept as a whole |
| `HandleRuns.HandleRefines` | crates/localtables-format/src/columnar/table/write.rs:223-292 | Every run of the handle on its bytes is a run of the writer's protocol, so all that is proved of those holds of it |
| `HandleRuns.FlushBuilds` | crates/localtables-format/src/columnar/table/write.rs:231-288 | Storing a segment for each row group and then a vector for each dirty segment builds exactly the table that the flush commits |
| `HandleRuns.CompactBuilds` | crates/localtables-format/src/columnar/table/maintain.rs:148-177 | Storing the row groups and retiring what was read builds exactly the table that the compaction commits |
| `Handles.MoveLinks` | crates/localtables-format/src/columnar/table/write.rs:223-292 | Each move of the handle keeps what the files decode to and what the writer holds in agreement, and is the writer's own steps |
| `Handles.PowerLossReopens` | crates/localtables-format/src/columnar/table/mod.rs:158-218 | What the bytes reopen to is where the writer's own crash leads, over the commit before, or over the one in hand when its meta page had got there |
| `HistoryCases.SecondRunDuplicates` | crates/localtables-format/src/columnar/table/maintain.rs:117-177 | A history from creation in which two runs read one segment under one pin, and the second writes its row again |
| `HistoryCases.ForgettingBringsBack` | crates/localtables-format/src/columnar/table/write.rs:199-209 | A history from creation in which a deleted row is back after its segment was dropped with nothing live |
| `DurabilityRuns.CommitsKeepTheAcknowledged` | crates/localtables-format/src/columnar/table/write.rs:223-292 | The reference's rows change by requests alone: flushes and compactions of the run leave them as they were |
| `DurabilityRuns.LostAlthoughAcknowledged` | crates/localtables-format/src/wal/mod.rs:144-151 | At the end of the losing run the table lacks a row that the reference history has |
| `DurabilityRuns.StepRows` | crates/localtables-format/src/columnar/table/write.rs:223-292 | Rows change by writes and by dropping segments alone: rotating, committing, truncating, compacting, crashing and reopening change none |
| `DurabilityRuns.ReplayReproducesWriter` | crates/localtables-format/src/columnar/table/write.rs:381-424 | At every idle moment, replaying the logs over the last commit gives the writer itself: live rows at their numbers, delete vectors, dirty set and counters; the next lsn is above the checkpoint and every record |
| `DurabilityRuns.InterruptedFlushKeepsRecordsIff` | crates/localtables-format/src/columnar/table/write.rs:231-234 | Rotation keeps every record a reopen needs if and only if the log it wipes holds none above the checkpoint |
| `DurabilityRuns.InterruptedFlushKeepsRowsIff` | crates/localtables-format/src/columnar/table/write.rs:231-234 | With only insertions above the checkpoint, a crash between rotation and commit loses exactly the rows in the wiped log's records, and so none iff those are empty |
| `FlushLosses.InterruptedFlushIsHarmlessIff` | crates/localtables-format/src/columnar/table/write.rs:231-234 | In every run, whatever insertions, deletions and updates the logs hold: a crash between rotation and commit loses exactly the live rows that the wiped log inserted and brings back exactly the segment rows whose deletion only that log had, so the table shows the same rows iff those two, both known before the rotation, are the same rows |
| `DurabilityRuns.CompletedFlushRestoresEntry` | crates/localtables-format/src/columnar/table/write.rs:287-290 | Truncating after the commit restores that condition, whatever held before |
| `DurabilityRuns.WritesKeepEntry` | crates/localtables-format/src/wal/mod.rs:136-138 | Writes, compactions and crashes outside a flush keep it |
| `DurabilityRuns.TwoInterruptedFlushesLoseARow` | crates/localtables-format/src/wal/mod.rs:144-151 | A run in which two flushes in turn are interrupted between rotation and commit, and a row acknowledged before the first is gone |
| `DurabilityProof.CrashKeeps` | crates/localtables-format/src/columnar/table/mod.rs:158-218 | Whatever moment a crash comes at, the reopened writer is consistent with what it reopened |
| `Requests.DeletionConserves` | crates/localtables-format/src/columnar/table/write.rs:488-535 | What a deletion takes out is exactly what the table loses, with multiplicity |
| `Requests.DeletionIsCompleteIff` | crates/localtables-format/src/columnar/table/write.rs:488-535 | A deletion removes every row it names if and only if no segment's last entry in the request leaves out a fresh row an earlier entry for it named |
| `Requests.DistinctNamesAll` | crates/localtables-format/src/columnar/table/write.rs:488-522 | A request naming no segment twice meets that condition |
| `Requests.RepeatedSegmentLosesADeletion` | crates/localtables-format/src/columnar/table/write.rs:488-535 | Naming one segment twice, one row each time, reports two rows deleted and deletes one |
| `Requests.CountIsExact` | crates/localtables-format/src/columnar/table/write.rs:488-522 | A request naming no segment twice reports exactly the number of rows it removes |
| `Requests.UpdateConserves` | crates/localtables-format/src/columnar/table/write.rs:110-174 | An update loses what it takes and gains what it brings, whatever numbers it names |
| `Requests.InsertGrowsContent` | crates/localtables-format/src/columnar/table/write.rs:13-63 | Applying an insert's records adds exactly the rows of its batches |
| `Writers.Open` | crates/localtables-format/src/columnar/table/mod.rs:158-218 | Opening what any crash left is the crash step of the protocol: memory is the replay of both logs over the last commit |
| `Writers.Writer.constructor` | crates/localtables-format/src/columnar/table/mod.rs:158-192 | Loading a commit and replaying the logs over it gives the specified memory |
| `Writers.Writer.Replay` | crates/localtables-format/src/columnar/table/write.rs:381-424 | The loop over the recovered records, skipping those at or below the checkpoint, rebuilds exactly the specified memory |
| `Writers.Writer.ReplayOne` | crates/localtables-format/src/columnar/table/write.rs:392-419 | One record put back: deletions before the insertion, at the logged sequence number |
| `Writers.Writer.ApplyLogged` | crates/localtables-format/src/columnar/table/write.rs:438-452 | Logged delete vectors are put back; a segment no longer in the table is passed over |
| `Writers.Writer.Insert` | crates/localtables-format/src/columnar/table/write.rs:13-63 | The rows of the batches are added, each batch with rows as one record; all records reach the log in one append while memory still shows the rows from before |
| `Writers.Writer.PlanDeletes` | crates/localtables-format/src/columnar/table/write.rs:488-522 | The plan and its count, or a segment the table does not have; positions past a segment's end and rows already gone are ignored |
| `Writers.Writer.Delete` | crates/localtables-format/src/columnar/table/write.rs:79-104 | Refused, changing nothing, iff some segment is unknown; else, in one record logged before memory changes, the table loses exactly the named memtable rows and, of each segment, the fresh rows that the request's last entry for it names, which are all the rows named iff no earlier entry named more, as when no segment is named twice; the count of the plan is returned |
| `Writers.Writer.Update` | crates/localtables-format/src/columnar/table/write.rs:110-174 | Refused, changing nothing, iff some segment is unknown; else deletion and replacement happen in at most one record, logged before memory changes, so never half |
| `Writers.Writer.ApplyDeletes` | crates/localtables-format/src/columnar/table/write.rs:527-535 | The planned delete vectors replace the old ones in order and are marked dirty |
| `Writers.Writer.Flush` | crates/localtables-format/src/columnar/table/write.rs:223-292 | With nothing to write nothing happens; else the durable moments passed are exactly rotated, committed and truncated, in that order, a crash at any of them reopens to the same rows when the inactive log held no needed record, each new segment respects the group size, and the flush entry condition holds again |
| `Writers.Writer.BuildManifest` | crates/localtables-format/src/columnar/table/write.rs:252-285 | The committed entries: the old ones with their dirty delete vectors, then one for each row group, numbered on |
| `Writers.FlushMoments` | crates/localtables-format/src/columnar/table/write.rs:223-292 | A flush passes through the protocol's rotated and committed states and leaves rows unchanged |
| `Writers.DeleteLands` | crates/localtables-format/src/columnar/table/write.rs:79-104 | Logging a deletion is a write step that keeps the invariant and removes what was named |
| `Writers.UpdateLands` | crates/localtables-format/src/columnar/table/write.rs:110-174 | Logging an update is a write step that keeps the invariant and replaces what was named |
| `Discards.DeleteSegments` | crates/localtables-format/src/columnar/table/write.rs:180-212 | The count is the live rows of the named segments; with one or more, the drop is one commit that takes exactly them; with none, nothing is committed and only the delete vectors in memory are forgotten |
| `Discards.DroppingNothingLosesADeletion` | crates/localtables-format/src/columnar/table/write.rs:199-209 | A deletion, a drop of the emptied segment, another write, a flush and a reopen, after which the deleted row is back for good |
| `Discards.DropIsCompleteIff` | crates/localtables-format/src/columnar/table/write.rs:180-212 | The drop leaves exactly the other rows if and only if some row among the named segments was live, or none of them ever held a row |
| `DeleteRanges.RecoverInRange` | crates/localtables-format/src/columnar/table/write.rs:381-424 | Replaying logs whose vectors are not empty and lie inside their segments gives vectors that are so too |
| `DeleteRanges.PlanFits` | crates/localtables-format/src/columnar/table/write.rs:488-522 | A planned deletion names at least one position of each segment, inside it, which keeps the writer's own invariant |
| `DurabilityRuns.DiscardTakesTheNamed` | crates/localtables-format/src/columnar/table/write.rs:205-211 | Committing a manifest without some segments takes exactly their live rows |
| `RowGroups.SplitRowGroups` | crates/localtables-format/src/columnar/table/write.rs:545-589 | Row groups of at most the given rows, none empty, holding the batches in order with only oversized ones cut; zero means one group |
| `RowGroups.PiecesJoin` | crates/localtables-format/src/columnar/table/write.rs:545-589 | Cutting a batch loses and moves no row |
| `Maintenance.Runs` | crates/localtables-format/src/columnar/table/maintain.rs:75-103 | Refused iff an id is not in the table; else the runs joined are the ids in order, each within budget or a single segment, and greedily full |
| `Maintenance.CompactRun` | crates/localtables-format/src/columnar/table/maintain.rs:105-179 | Does nothing iff no segment is named, refuses iff one was not in the pinned snapshot, gives up, changing nothing, iff a deletion raced it; else it is one commit of what the pin showed, and the table's rows stay the same iff no named segment with a live row has left the table meanwhile or was named before (the extents it frees: Retiring.StepKeepsIff) |
| `Maintenance.CompactLands` | crates/localtables-format/src/columnar/table/maintain.rs:105-179 | What that commit does to the rows: each row read from a segment no longer there, or named again, is there once more than before |
| `Maintenance.AnyRaced` | crates/localtables-format/src/columnar/table/maintain.rs:128-142 | Comparing delete counts, for vectors that only grew, finds exactly the changed ones |
| `Maintenance.SameCountSameSet` | crates/localtables-format/src/columnar/table/maintain.rs:128-142 | A grown vector with an unchanged count is unchanged |
| `Maintenance.CompactSegments` | crates/localtables-format/src/columnar/table/maintain.rs:57-103 | With no other writer: refused before anything is done iff a segment is unknown; else the runs cover the ids in order within budget, and it gets through iff no two runs name the same segment, stopping at the first that names one already rewritten; each commit leaves the rows as they were iff its run names no segment with a live row twice, as for ids named once it always does |
| `Maintenance.LiveRowsAreTheirs` | crates/localtables-format/src/columnar/table/maintain.rs:105-127 | Rows read segment by segment, in whatever order they are named, are the undeleted rows of those segments |
| `ByteOrder.BeOrder` | crates/localtables-format/src/valuecodec.rs:42-116 | Big-endian bytes compare as the integers do |
| `ByteOrder.BoundIsExact` | crates/localtables-format/src/valuecodec.rs:213-223 | A string starts with the prefix if and only if it lies at or above it and below its bound |
| `ByteOrder.BoundIsLeast` | crates/localtables-format/src/valuecodec.rs:213-223 | Any string above everything that starts with the prefix is at or above the bound |
| `ByteOrder.NoBoundIff` | crates/localtables-format/src/columnar/zonemap.rs:126-136 | There is no bound iff every byte is 0xff |
| `ByteOrder.PrefixUpperBound` | crates/localtables-format/src/valuecodec.rs:213-223 | The loop computes that bound |
| `ValueCodec.OrderBitsOrder` | crates/localtables-format/src/valuecodec.rs:147-163 | The bit trick orders IEEE 754 numbers of both formats as reals, with infinities at the ends and the two zeros equal |
| `ValueCodec.MagnitudeGrows` | crates/localtables-format/src/valuecodec.rs:147-163 | Larger exponent-and-fraction bits stand for a larger magnitude across every exponent boundary |
| `ValueCodec.EscapeOrder` | crates/localtables-format/src/valuecodec.rs:128-137 | Escaped strings, zeros inside them included, compare as the strings do, and on a tie what follows decides |
| `ValueCodec.ValueOrder` | crates/localtables-format/src/valuecodec.rs:42-116 | A value's code decides the order of anything it begins as the values compare, nulls first; equal values leave it to what follows |
| `ValueCodec.CodesAreCanonical` | crates/localtables-format/src/valuecodec.rs:42-116 | Two values of a type share a code iff they are equal |
| `ValueCodec.CodesArePrefixFree` | crates/localtables-format/src/valuecodec.rs:42-116 | No code is a proper prefix of another of the same type |
| `ValueCodec.RowOrder` | crates/localtables-format/src/valuecodec.rs:119-125 | Byte-wise comparison of two row keys equals column-by-column comparison of the rows |
| `ValueCodec.RowKeysAreCanonical` | crates/localtables-format/src/valuecodec.rs:119-125 | Rows share a key iff they agree in every column |
| `ValueCodec.KeyBuffer.EncodeBytes` | crates/localtables-format/src/valuecodec.rs:128-137 | The loop appends the escaped string and its terminator |
| `ValueCodec.KeyBuffer.EncodeValue` | crates/localtables-format/src/valuecodec.rs:42-116 | The value's code is appended, or the type is refused after the tag |
| `ValueCodec.KeyBuffer.EncodeRow` | crates/localtables-format/src/valuecodec.rs:119-125 | The columns' codes are appended in turn, stopping at the first that has none |
| `ValueCodec.KeyIsRowKey` | crates/localtables-format/src/valuecodec.rs:119-125 | A row of encodable columns always gets a key, the one whose order is proved |
| `ZoneMaps.Build` | crates/localtables-format/src/columnar/zonemap.rs:61-91 | The known bounds enclose every value, cut or not; the maximum is unknown exactly when there is no value or the cut one cannot be rounded up |
| `ZoneMaps.PruningIsSound` | crates/localtables-format/src/columnar/zonemap.rs:61-91 | A value outside the bounds is not in the column |
| `ZoneMaps.CutMin` | crates/localtables-format/src/columnar/zonemap.rs:61-91 | A cut minimum is still below every value |
| `ZoneMaps.CutMax` | crates/localtables-format/src/columnar/zonemap.rs:126-136 | A cut and rounded maximum is still above every value |
| `ZoneMaps.IntBoundRoundTrip` | crates/localtables-format/src/columnar/zonemap.rs:139-304 | A stored integer bound reads back as the value it came from, signed and unsigned |
| `ZOrder.InterleaveInto` | crates/localtables-format/src/columnar/zorder.rs:66-79 | In place, bit i of dimension d ends up at place i * count + d of the key, and no other bit is set |
| `ZOrder.SharedPrefixIff` | crates/localtables-format/src/columnar/zorder.rs:66-79 | Two keys share their first k * count bits iff every dimension shares its first k bits |
| `ZOrder.KeysAreInjective` | crates/localtables-format/src/columnar/zorder.rs:66-79 | Different dimensions give different keys |
| `ZOrder.KeysAreMonotone` | crates/localtables-format/src/columnar/zorder.rs:66-79 | Dimensions nowhere above another row's give a key not above its key |
| `Clusters.DimensionBytes` | crates/localtables-format/src/columnar/zorder.rs:39-58 | A value's code without its tag, cut or filled to eight bytes; zeros for null |
| `Clusters.DimensionsAreMonotone` | crates/localtables-format/src/columnar/zorder.rs:39-58 | A larger value never gets a smaller dimension, and null gets the least |
| `Clusters.RowKeysAreMonotone` | crates/localtables-format/src/columnar/zorder.rs:39-79 | Through encoding, truncation and interleaving, the key is monotone in the product order of the clustered columns |
| `Clusters.Cluster` | crates/localtables-format/src/columnar/zorder.rs:114-161 | Every row comes out exactly once with its columns together, keys never decrease across the groups, and every group but the last is full |
| `Clusters.Gather` | crates/localtables-format/src/columnar/zorder.rs:164-175 | The i-th row gathered is the i-th row named, in every column |
| `Clusters.Locate` | crates/localtables-format/src/columnar/zorder.rs:114-135 | Each global row number is mapped to the batch and row it stands for |
| `Clusters.PickPermuted` | crates/localtables-format/src/columnar/zorder.rs:136-161 | Naming the same rows in another order yields the same rows, each as often |
| `Bloom.BlockOf` | crates/localtables-format/src/columnar/bloom.rs:112-124 | The multiply-shift index is below the block count, for every hash and count |
| `Bloom.BloomFilter.InsertHash` | crates/localtables-format/src/columnar/bloom.rs:126-134 | Exactly one bit in each word of the hash's block is set, and nothing is cleared |
| `Bloom.BloomFilter.MayContainHash` | crates/localtables-format/src/columnar/bloom.rs:137-143 | True iff all of the hash's bits are set |
| `Bloom.NoFalseNegatives` | crates/localtables-format/src/columnar/bloom.rs:126-143 | A hash that was inserted, among any others in any order, is never reported absent |
| `Bloom.OrderDoesNotMatter` | crates/localtables-format/src/columnar/bloom.rs:126-134 | Any order and repetition of the same hashes gives the same words |
| `Bloom.InsertedGrows` | crates/localtables-format/src/columnar/bloom.rs:126-134 | Inserting one more hash keeps all there were |
| `Bloom.Capacity` | crates/localtables-format/src/columnar/bloom.rs:69-75 | Whole blocks, at least one, with at least the bits asked for |
| `Bloom.StoredFilterRoundTrip` | crates/localtables-format/src/columnar/bloom.rs:78-101 | A stored filter reads back word for word |
| `Bloom.ReadFiltersAreWhole` | crates/localtables-format/src/columnar/bloom.rs:78-92 | Bytes are refused iff empty or not whole blocks, and what is read is a filter |
| `Bloom.Build` | crates/localtables-format/src/columnar/bloom.rs:156-180 | A filter over exactly the hashes of the column's non-null values, sized by how many differ; none when the type has no code or there is no value |
| `Bloom.AbsentMeansAbsent` | crates/localtables-format/src/columnar/bloom.rs:187-217 | A filter that says no is right: no value of the column equals the one asked for, -0.0 equal to 0.0 |
| `Trigrams.PieceRoundTrip` | crates/localtables-format/src/columnar/trigram.rs:90-92 | The place of a piece determines the piece |
| `Trigrams.MarkColumn` | crates/localtables-format/src/columnar/trigram.rs:121-133 | The bitmap marks exactly the pieces of the column's texts, and the count is how many differ |
| `Trigrams.InsertMarked` | crates/localtables-format/src/columnar/trigram.rs:138-150 | The word and bit scan inserts the hash of every marked piece and of nothing else |
| `Trigrams.ScanOne` | crates/localtables-format/src/columnar/trigram.rs:138-150 | Clearing a word's lowest set bit scans exactly one more piece |
| `Trigrams.Build` | crates/localtables-format/src/columnar/trigram.rs:112-152 | A filter over exactly the pieces of the column; none iff not text, no piece, or over the byte budget |
| `Bits.ClearLowest` | crates/localtables-format/src/columnar/trigram.rs:143-150 | bits & (bits - 1) clears the lowest set bit and nothing else |
| `Likes.Required` | crates/localtables-format/src/columnar/trigram.rs:170-181 | The loop lists exactly the pieces of the pattern's wildcard-free runs, each once |
| `Likes.FragmentsOccur` | crates/localtables-format/src/columnar/trigram.rs:158-163 | Every wildcard-free run of a pattern occurs in every text it matches |
| `Likes.MatchHoldsPieces` | crates/localtables-format/src/columnar/trigram.rs:158-181 | Every text a pattern matches holds every piece the pattern requires, on UTF-8 bytes |
| `Likes.NoEscapeNoDifference` | crates/localtables-format/src/columnar/trigram.rs:158-163 | A pattern without the escape character means the same in a dialect with one |
| `Likes.EscapedPatternOverclaims` | crates/localtables-format/src/columnar/trigram.rs:158-181 | With a backslash escape the pieces are not required: a pattern, and a text it matches that lacks one |
| `LikeEscapes.EscapedRequirementIff` | crates/localtables-format/src/columnar/trigram.rs:158-181 | For every pattern and escape character: the pieces taken from the pattern are in every text it matches under that dialect if and only if each lies in a run of its literals once the escapes are read |
| `LikeEscapes.TokensDecide` | crates/localtables-format/src/columnar/trigram.rs:158-163 | Reading the escapes into literals and wildcards first changes no match |
| `LikeEscapes.MatchHoldsLiterals` | crates/localtables-format/src/columnar/trigram.rs:158-181 | Every text the tokens match holds the pieces of their runs of literals |
| `LikeEscapes.FillHoldsLiteralsOnly` | crates/localtables-format/src/columnar/trigram.rs:158-181 | With a letter for every wildcard, a match holds no piece without that letter beyond those of its runs of literals |
| `Pruning.CollectSubstrings` | crates/datafusion-local-tables/src/pruning.rs:245-289 | The recursion appends exactly the requirements of the AND parts of a filter, in order, behind those found before |
| `Pruning.SubstringRequirements` | crates/datafusion-local-tables/src/pruning.rs:237-243 | All filters' requirements, in order |
| `Pruning.TrueFilterMeetsRequirement` | crates/datafusion-local-tables/src/pruning.rs:245-289 | A filter that is true on a row under three-valued logic makes each of its requirements hold of the row's text |
| `Pruning.PruningIsSound` | crates/datafusion-local-tables/src/pruning.rs:98-106 | Each requirement of a filter that is true on some row passes on the filters built for the segment, whatever the ignored expressions mean |
| `Pruning.KeepSegment` | crates/datafusion-local-tables/src/columnar_provider.rs:265-288 | A segment is kept iff all requirements pass, and one that is not holds no row on which all filters are true |
| `Pruning.Contained` | crates/datafusion-local-tables/src/pruning.rs:397-426 | An answer iff some value is asked for and some segment is ruled out; then false exactly where a filter is there and rules out every value asked for, and nothing elsewhere |
| `Pruning.ContainedIsSound` | crates/datafusion-local-tables/src/pruning.rs:397-426 | A segment ruled out holds no value equal to any of those asked for |
| `Segments.LoadUndoesStore` | crates/localtables-format/src/columnar/decode.rs:70-86 | The reader's length test finds each buffer raw or packed as the writer left it |
| `Segments.Output.PutBuffer` | crates/localtables-format/src/columnar/encode.rs:357-379 | A buffer is packed iff that is strictly smaller, and lands on the next 64-byte boundary |
| `Segments.WriteChunk` | crates/localtables-format/src/columnar/segment.rs:350-430 | A chunk and its children, at any depth, are readable at the extents recorded, all of them aligned and one behind the other, and earlier bytes stay |
| `Segments.LaidDisjoint` | crates/localtables-format/src/columnar/segment.rs:350-435 | Extents laid one behind the other share no byte |
| `Segments.RebuildUndoesWrite` | crates/localtables-format/src/columnar/decode.rs:244-276 | Rebuilding a written chunk gives the array it was written from, children, nulls and all |
| `Columns.WriteColumn` | crates/localtables-format/src/columnar/segment.rs:138-190 | A column is written whole or in blocks, readable either way with its side buffers; in blocks iff it is longer than one and is packed or of variable width |
| `Columns.WriteBlocked` | crates/localtables-format/src/columnar/segment.rs:297-348 | The blocks cover the rows in order, the outer chunk holds the side buffers, and its codec flag is set iff some block is packed |
| `Columns.AnyRangeReadsBack` | crates/localtables-format/src/columnar/decode.rs:112-181 | However a column was written, decoding rows start..start+len gives exactly those rows, and a range outside is refused |
| `Columns.DecodeBlockRange` | crates/localtables-format/src/columnar/decode.rs:188-235 | The loop over blocks returns what the specification of block decoding says |
| `Columns.BlocksReadBack` | crates/localtables-format/src/columnar/decode.rs:188-235 | From any block on, the decoder returns exactly the rest of the range |
| `Columns.WriteColumns` | crates/localtables-format/src/columnar/segment.rs:70-131 | All columns are readable, their filters and page bounds load as given, and all their buffers, at every level, are aligned and disjoint |
| `Columns.SegmentReadsBack` | crates/localtables-format/src/columnar/segment.rs:661-710 | Every row range of every column written decodes to its rows and every side buffer to its bytes, whatever is written behind them |
| `ReadRanges.KeptRanges` | crates/localtables-format/src/columnar/table/read.rs:169-184 | The ranges are the rows of the kept pages in order, apart and inside the segment, neighbours joined |
| `ReadRanges.SplitAtBlocks` | crates/localtables-format/src/columnar/table/read.rs:191-211 | The same rows in order, in non-empty ranges none of which crosses a block; the loop ends |
| `ReadRanges.SliceBatches` | crates/localtables-format/src/columnar/table/read.rs:214-225 | The batch in pieces of at most the given rows, all but the last full; zero means whole |
| `ReadRanges.KeepMask` | crates/localtables-format/src/columnar/delete_vector.rs:89-99 | The mask is false exactly at the deleted rows, positions past the end ignored |
| `ReadRanges.ReadRows` | crates/localtables-format/src/columnar/segment.rs:661-710 | Decoding the projected columns over a range gives exactly the rows written there, columns the segment is older than as nulls; refused iff the projection leaves the schema |
| `ReadRanges.ReadSegment` | crates/localtables-format/src/columnar/table/read.rs:90-137 | From the bytes of a written segment: exactly the undeleted rows of the kept pages, in order, once each, in non-empty batches no larger than asked for; a projection past the schema is refused once there is a row to read |
| `ReadRanges.KeptIff` | crates/localtables-format/src/columnar/table/read.rs:169-184 | A row is handed on iff the page it is in is kept |
| `ReadRanges.KeepAllIsWhole` | crates/localtables-format/src/columnar/table/read.rs:169-184 | Keeping every page hands on every row, in order |
| `ReadRanges.SelectionNeedsPages` | crates/localtables-format/src/columnar/segment.rs:530-539 | A selection that keeps and covers everything reads a non-empty segment whole iff the segment has pages; without pages it reads nothing |
| `Evolve.PrefixIsAccepted` | crates/localtables-format/src/layout/schema.rs:78-107 | A segment stamped with a prefix of the schema's shapes is accepted |
| `Evolve.AcceptedIffPrefix` | crates/localtables-format/src/layout/schema.rs:105-107 | ... and, when fingerprints tell shapes apart, nothing else is |
| `Evolve.AddColumnKeeps` | crates/localtables-format/src/columnar/table/evolve.rs:31-50 | Adding a column changes no row but for a null at its end, and every live segment stays readable |
| `Evolve.RenameColumnKeeps` | crates/localtables-format/src/columnar/table/evolve.rs:56-70 | Renaming changes no row and loses no name |
| `Evolve.ConvertSegments` | crates/localtables-format/src/columnar/table/evolve.rs:176-210 | All live rows, converted, in order, across any grouping; nothing iff a null would land in a column that takes none |
| `Evolve.SetSchema` | crates/localtables-format/src/columnar/table/evolve.rs:132-164 | A row in the memtable abandons the change, and so does a converted row with a null where none may be; else what was read under the pin is written converted, in order, and replaces exactly the pinned live segments in the table the lock found |
| `SchemaRaces.ChangeIsExactIff` | crates/localtables-format/src/columnar/table/evolve.rs:132-164 | After a drop or cast the table reads under the new schema as the rows the lock found, converted, iff since the pin no source lost a row or left the table, and no segment with a row was added |
| `SchemaRaces.DropsAndCastsMove` | crates/localtables-format/src/columnar/table/evolve.rs:77-122 | A dropped or retyped column always gives shapes of which the old ones are no prefix, so the exact condition covers every drop and cast |
| `SchemaRaces.DeletionComesBack` | crates/localtables-format/src/columnar/table/evolve.rs:141-151 | A deletion of a segment row between pin and lock: the drop commits, and the row is there again |
| `SchemaRaces.FlushedRowIsLost` | crates/localtables-format/src/columnar/table/evolve.rs:141-151 | A row written and flushed between pin and lock: its segment cannot be opened under the new schema |
| `Evolve.SetSchemaAlone` | crates/localtables-format/src/columnar/table/evolve.rs:132-164 | With nothing landing meanwhile: nothing is committed iff some converted row has a null where none may be; else the table reads as its rows converted and stays consistent |
| `Evolve.DropConverts` | crates/localtables-format/src/columnar/table/evolve.rs:270-286 | Reshaping for a dropped column takes that value out and leaves the others in place |
| `Evolve.CastConverts` | crates/localtables-format/src/columnar/table/evolve.rs:270-286 | Reshaping for a cast column changes that value alone: one the new type cannot hold becomes null, and the row is refused iff the column takes no nulls |
| `Evolve.Drop` | crates/localtables-format/src/columnar/table/evolve.rs:77-91 | Refused iff the column is unknown or the only one; else every row loses exactly that value |
| `Evolve.Cast` | crates/localtables-format/src/columnar/table/evolve.rs:104-122 | Refused, no change, abandoned iff a null would land in a column that takes none, or every row has exactly that value cast |
| `Evolve.CastKeepsPromiseIff` | crates/localtables-format/src/columnar/table/evolve.rs:100-104 | A cast fails rather than lose a value, as its documentation says, iff the column takes no nulls or every value stored in it can be cast |
| `Evolve.CastCommitsNull` | crates/localtables-format/src/columnar/table/evolve.rs:270-286 | A nullable column holding 300, cast to a type that ends at 255, reads as null afterwards |
| `EvolveRuns.StepRows` | crates/localtables-format/src/columnar/table/evolve.rs:31-286 | Through any step: deletions take exactly what they name, flushes and compactions change no row, additions add a null, renames change nothing, and a rewrite leaves the old rows converted |
| `EvolveRuns.ReadsItsHistory` | crates/localtables-format/src/columnar/table/evolve.rs:31-286 | After any history of inserts, deletions, flushes, compactions, columns added, renamed, dropped and cast, reading gives exactly the rows and the schema that the history alone says |
| `EvolveRuns.LiveSegmentsAreAccepted` | crates/localtables-format/src/layout/schema.rs:105-107 | After any history of writes, flushes, compactions and schema changes, every segment with a row left holds a prefix of the schema's shapes and is accepted |
| `EvolveRuns.ReadableAfterRewriteIff` | crates/localtables-format/src/columnar/table/evolve.rs:132-164 | After a rewriting change every entry can be opened iff each fully deleted entry left behind happens to fit the new schema |
| `EvolveRuns.DropLeavesUnreadable` | crates/localtables-format/src/columnar/table/evolve.rs:77-91 | A table whose one segment is fully deleted, and a drop after which that entry cannot be opened |

## Left out

Stated weaker than the source, or under a hypothesis:

- StoreRuns.CrashSafety: like the other theorems over runs, for runs in which no allocation ran into a schema stored past the recorded end, and whatever was retired was named once and still current; without that it is false of the code, and Retiring.RunKeepsIff says exactly when.
- HandleRuns.BytesShowTheAcknowledged: under the conditions of StoreRuns.CrashSafety and DurabilityRuns.RowsAreTheAcknowledged, step by step; a log is cut at one place by a power loss, and what its rotation and truncation do is on the medium at once.
- Histories.RowsArePromised: for histories in which no crash falls between rotation and commit of a flush that began with needed records in the inactive log, no run reads a segment with a live row that has left the table or was named before, and no drop without a live row names a segment that ever had one; without that it is false of the code, and FlushLosses.InterruptedFlushIsHarmlessIff and Histories.RowsArePromisedIff say exactly when.
- DurabilityRuns.RowsAreTheAcknowledged: only the first of those conditions, because its runs have no compaction under an older pin and no drop without a live row; Histories.RowsArePromised has both.
- DurabilityRuns.InterruptedFlushKeepsRowsIff: the case of logs with only insertions above the checkpoint, where the condition is that the wiped records are empty; FlushLosses.InterruptedFlushIsHarmlessIff is for all logs.
- Maintenance.CompactRun: that a segment still in the table has kept its rows, and its delete vector has only grown since it was read, is its precondition here, and is proved of every pin by Histories.SafeHistoriesAreSound; the extents the run frees are in Retiring.StepKeepsIff, on the file's own model.
- Maintenance.CompactSegments: with no other writer between its runs; what one run does when others write meanwhile is in Maintenance.CompactRun.
- SchemaRuns.RewriteSafeIff: for a schema stored right behind the recorded end; after a change that failed half way the file is longer than that, and the exact test is SchemaRuns.AllocationKeepsIff, allocation by allocation.
- SchemaRaces.ChangeIsExactIff: for what deletions, drops, compactions and flushes may do between the pin and the lock; two schema changes at once are not modelled, and a change that rewrites nothing is exact whatever lands.
- Pruning.PruningIsSound: for the dialect without an escape character; under another dialect, exactly for the patterns of LikeEscapes.EscapedRequirementIff.
- ValueCodec.OrderBitsOrder: a NaN is placed beyond the infinity of its sign, which is where its bits put it; the order among reals says nothing else of it.
- ZoneMaps.Build: byte strings; the bounds of floats, which come from the Arrow aggregates and their treatment of NaN, are not modelled, nor is the UTF-8 check of a rounded text bound.
- Segments.RebuildUndoesWrite: compression, checksums and the plain, dictionary and run-length encodings are abstract functions of which only "decoding undoes encoding" is used; which encoding is chosen is not modelled.
- Columns.WriteColumns: what is in a filter or a page bound is given; which columns get one is not modelled.
- Pruning.Contained: a literal that cannot be made into an array ends the question without an answer; the model starts from the arrays.
- Clusters.Cluster: the columns are already resolved; unknown, repeated or unordered column names are refused before it.
- TableFiles.TableFile.Open: the header and its validation, file locks and the table's own options are not part of this model.

Not modelled:

- Overflow of 64-bit counters, offsets and lengths: they are unbounded integers here, except in the frame header, the hashes and the filter words.
- Log rotation's own two steps (truncate, then write the header): one atomic step here.
- IO errors that do not end the process: every failure is taken as a crash, so the lsn an encoding or append error skips is not modelled.
- The size-triggered flush, byte accounting of the memtable and the choice of row-group size: the group size is a parameter.
- Clustering inside a flush: the flush step allows any order of the rows, and Clusters.Cluster is proved on its own.
- Page zone maps and which columns get which filters: easy members over the parts that are proved.
- The rkyv, flatbuffer and Arrow encodings, lz4 and zstd, roaring bitmaps and xxh3: abstract inverse pairs, sets, and uninterpreted functions.
- Arrow casts and kernels: a function on values that may give null.
- Tying the layers: Handles joins the file, the logs and the writer as steps over bytes; the classes TableFile, WalFile and Writer are each proved against the steps of their own layer, and schema changes and pruning over tables of their own.
- DataFusion's own pruning predicate, SQL updates, the execution operators and their work queue.
- IO backends, memory maps, locks and asynchronous plumbing; buffers that outlive the snapshot they came from.

