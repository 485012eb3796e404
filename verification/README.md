# Verification of the vicia-db ledger core

A Dafny model of the parts of vicia-db that are hardest to get right, and proofs about it: the write-ahead
log and crash recovery, the bi-temporal ledger and the operations that read and rewrite it, the
projection-first query route, and the chunked and lane-parallel loops of two benchmark helpers.
`dafny verify dfyconfig.toml` checks everything.

## How it is laid out

| file | models |
|---|---|
| `Bytes.dfy`, `Sequences.dfy`, `Orders.dfy` | little-endian words, options and results, small sequence facts, the byte order of values and index keys |
| `Ledger.dfy` | facts, valid-time windows, retractions, `:as-of`, the table-driven reduction to windows in force |
| `Wal.dfy` | the WAL byte layout, `serialize_entry`, `visit_entries`, round trip and truncation |
| `Machine.dfy` | the file-backed database as a step system with a crash between any two steps and inside every write |
| `Recovery.dfy` | the invariant of every step, and durability, counter and retire safety over whole runs |
| `Guarantees.dfy`, `Views.dfy` | pinned read views, checkpoint policy, and why durability needs its conditions |
| `Reachable.dfy` | which batches a client can hand over, and what every log reached from them avoids |
| `Database.dfy` | open, write, forget, checkpoint and drop as methods over mutable fields, each proved to be a run of the step system |
| `Forget.dfy` | `(forget ...)`: which windows a closure batch closes |
| `Staging.dfy`, `LiveTriples.dfy` | write transactions: what a read inside sees against what a commit leaves |
| `Groups.dfy`, `Cursors.dfy` | the attribute cursor and the entity cursor over the key order of their indexes, walked without a break |
| `Walks.dfy`, `PureWalks.dfy` | the attribute cursor step by step, with its resume key, and when every split of a walk reads the same |
| `Diff.dfy` | the per-entity accumulator of `valid_time_diff`, as a difference of two snapshots |
| `DiffScan.dfy`, `DiffPages.dfy`, `DiffChain.dfy` | the resumable scan behind it, which steps the cursors, its driver, and chains of pages |
| `DiffLimits.dfy`, `StaleStrays.dfy` | when a whole-attribute diff is exact, and logs on which it is not |
| `Aggregates.dfy` | the count and sum sink, and which results depend on row order |
| `Projection.dfy`, `Route.dfy`, `RouteLimits.dfy`, `StrayCounts.dfy` | persisted images, the resident tail, the query route, and where it parts from the ledger |
| `CursorCodec.dfy` | continuation tokens and history pages |
| `MarkerScan.dfy`, `LaneKernels.dfy` | the benchmark helpers' chunk loops |

## Main results

- **Crash durability** (`Recovery.Durability`, `Database.WriteAll`). After every run of opens, writes, checkpoints,
  failures and crashes in which no append lands behind an incomplete entry and no batch exceeds the reader's cap, a
  reopen finds a strictly increasing list of whole transactions that holds every acknowledged non-empty one and
  nothing that was not handed to the WAL whole. The database object carries this through any sequence of calls.
  `Guarantees.AcknowledgedWriteCanBeLost` and its neighbours show that both conditions are needed: otherwise the
  sidecar's bytes do not give an acknowledged batch back, and only a later publish by the process that still holds
  it can save it. `docs/DURABILITY_AND_CALLER_RULES.md` promises that every acknowledged write survives; the code
  does not keep that promise after a torn append in the same sidecar or for a batch of more than 1,000,000 facts,
  and the model follows the code.
- **Attribute cursor** (`PureWalks.EverySplitReadsTheSame`, `PureWalks.WalksServeIffNothingStrays`,
  `Cursors.EntityCursorIsExact`). The attribute cursor's key range ends at the next string prefix, so it also takes in
  attributes that extend the queried one, such as `:task/due-date` for `:task/due`; call those stray. Its steps resume
  at the queried attribute with the rest of the last key read, whatever attribute that key had and whether or not the
  view could see it. When the range takes in one attribute only, every split into steps reads what one uninterrupted
  walk reads. Walks over a set of attributes serve one of them exactly, however they split, if and only if no other
  strays into its range. A walk that never yields is exact for a view when nothing strays at or before the view's
  transaction (`Cursors.StrayFreeIsServed`). Every walk ends (`Walks.WalkEnds`), and the entity cursor is exact on every log.
- **Diff paging** (`DiffChain.ChainIsFullDiff`, `DiffChain.ChainIsLedgerDifference`,
  `DiffLimits.ReportsIffNothingStrays`). For any limit per page, any step size, any storage faults that are retried and
  any transactions written between the pages, a chain of pages that ends reports exactly the change of visibility in the
  ledger as of the pinned transaction: for a list of entities on every log, for a whole attribute when nothing in the
  index strays, older or newer than the view, or nothing strays in the view and no page yields.
  Whole-attribute diffs over a set of attributes are exact if and only if none strays into the range.
  `StaleStrays.DiffReportsNewerStray` is a log where nothing strays as of the view, one stray entry was written after
  it, and the diff, with its own step size, reports an assertion that was already retracted and repeats another entity.
  `DiffLimits.StrayIsReported` and `DiffLimits.StrayChainNeverEnds` are logs on which it reports another attribute's
  value, and on which no chain of one-row pages ever ends.
- **Forget** (`Reachable.ReachableForget`, `Forget.ForgetIsExact`). On every log that parsed commands and forgets
  reach by a careful run, or by one process that went on after it however its appends ended, a forget closes exactly the
  right windows of every named triple. Over arbitrary logs it does
  so if and only if the triple's windows in force do not include the one whose scoped retraction spells the
  retract-everything marker (or every non-empty window starts at the closure time); only a hand-made file holds one.
- **Staging** (`LiveTriples.LiveTriplesAgreeIffNoneRevives`, `Staging.ViewsAgreeIffNothingRevives`). For unscoped
  retractions and any assertions, a read inside a transaction and the log after commit agree on which triples are live
  if and only if no triple is asserted after the last command that retracts it. When every assertion and scoped
  retraction names its start, they agree on every window if and only if no command re-asserts a window that an
  earlier command retracted.
- **Projection route** (`Route.TryProjected`, `Route.RoutedAnswerIsLedgerAnswer`, `StrayCounts.RouteCountsIffNothingStrays`).
  An answer is the first candidate verdict that is not to pass over. When nothing strays at the view's transaction it is
  made of exactly the ledger's rows, each once, and its counts equal the ledger's; over a set of attributes routed counts
  always equal the ledger's if and only if none strays into the range. Integer sums saturate at 64 bits, and a
  saturating sum is the same in every order if and only if it is calm (`Aggregates.SumIsOrderFree`);
  `RouteLimits.RoutedSumCanDiffer` is a log on which route and ledger differ.
- **Pinned views** (`Guarantees.ViewsAreAtomicSnapshots`, `Views.InProcessViews`). A view taken under the lock shows
  whole transactions only and never changes through any later interleaving, also in a process that went on after a
  torn append.

## Assumptions

- A crash leaves a prefix of the bytes of the write in progress; a publish is one atomic change of the image
  and its watermark; synced bytes stay. The transaction counter does not reach 2^64.
- Fact encoding and JSON are codecs with a left inverse (`Wal.Sound`, `CursorCodec.Sound`); CRC32 is any function
  into 32 bits. For the length of diff tokens, JSON spells an attribute character in at most six bytes
  (`CursorCodec.Compact`).
- The attribute index is a committed base, a committed delta and a pending part, each in key order; together they hold
  exactly the facts of the log, each once. Values are encoded so that their bytes order them as `Orders.ValueLess` does.
- Parsed timestamps lie in the date library's range, and the clock is below 2^63 milliseconds.
- A projection scan that completes has matched the image's fingerprint, and then visited the image's rows.
- Clocks, file-system outcomes, read sizes, storage faults and scan outcomes are parameters, universally quantified.

## Model

| member | source | states |
|---|---|---|
| Bytes.LERoundTrip | src/wal.rs:67-99 | a word within its width is read back from its little-endian bytes |
| Bytes.LowWordZero | src/wal.rs:252-271 | the low half of an encoded count reads as zero only for multiples of 2^32 |
| Sequences.Unique | src/db.rs:660-667 | dropping repeats keeps the same members, each once |
| Sequences.Dedup | src/db.rs:660-667 | the request's loop drops repeats, keeping first occurrences |
| Sequences.UniqueKeepsOrder | src/db.rs:660-667 | members keep the order in which they first occur |
| Orders.ValueLessIsTotal | src/storage/index.rs:48-98 | any two different values are ordered by their encodings |
| Orders.ValueLessIsTransitive | src/storage/index.rs:48-98 | the order of encodings is transitive |
| Orders.SuffixIsTotal | src/storage/index.rs:279-298 | index keys without their attribute are ordered unless they agree on everything else |
| Ledger.NetIgnoresOrder | src/graph/storage.rs:1210-1270 | windows in force depend on which facts a log holds, not on their order |
| Ledger.NetIsLocal | src/graph/storage.rs:1210-1270 | windows of a triple depend on that triple's facts only |
| Ledger.AsOf | src/graph/storage.rs:1096-1105 | a snapshot keeps exactly the facts at or below the cursor |
| Ledger.BuildTables | src/graph/storage.rs:1210-1250 | the first pass leaves, per triple and per window, the newest retraction and the newest assertion |
| Ledger.TablesDecide | src/graph/storage.rs:1250-1270 | comparing the tables decides whether a window is in force |
| Ledger.NetAssertedFacts | src/graph/storage.rs:1210-1270 | the two passes return one newest assertion for every window in force and nothing else |
| Wal.SerializeEntry | src/wal.rs:67-99 | fails exactly when some fact is too large, otherwise lays the entry out |
| Wal.VisitFrame | src/wal.rs:284-311 | one framed fact at a file position is read, or refused on truncation, size or a bad fact |
| Wal.VisitFacts | src/wal.rs:276-315 | the moving position and the growing payload buffer read the frames of one entry |
| Wal.VisitEntry | src/wal.rs:242-323 | one turn of the reader: an entry, or the end of the log |
| Wal.VisitEntries | src/wal.rs:236-326 | the reader returns entries up to the first that fails |
| Wal.ReadEntryWhole | src/wal.rs:236-326 | a whole entry is read back whatever follows it |
| Wal.ReadEntryCut | src/wal.rs:236-326 | no truncation of an entry is ever accepted, for any checksum function |
| Wal.RoundTrip | src/wal.rs:67-99 | reading a header and any entries within the caps returns those entries |
| Wal.TruncationSafety | src/wal.rs:208-326 | reading any truncation, even inside the header, returns exactly the entries wholly before the cut |
| Wal.OversizedBatchEndsLog | src/wal.rs:252-271 | a batch over the fact cap that the writer accepts is read as the end of the log |
| Wal.HighWordStopsReader | src/wal.rs:252-271 | a fact count of 2^32 or more stops the reader |
| Wal.AppendBehindTwelveBytes | src/wal.rs:142-168 | behind an entry torn after twelve bytes, an entry whose count is nonzero modulo 2^32 and all later bytes are invisible |
| Wal.AppendBehindChecksum | src/wal.rs:142-168 | behind an entry torn after its checksum, every non-empty next entry and all later bytes are invisible |
| Recovery.ReplayIsLog | src/db.rs:2797-2820 | replay above the watermark loads exactly the newer non-empty transactions, each batch once |
| Recovery.OpenKeeps | src/db.rs:2660-2700 | opening any reachable disk image, with a torn header or a stale log, keeps the invariant |
| Recovery.AppendKeeps | src/db.rs:4790-4823 | an acknowledged append behind whole entries keeps the invariant |
| Recovery.AppendFailsKeeps | src/wal.rs:163-168 | an append that breaks off anywhere keeps the invariant |
| Recovery.PublishKeeps | src/db.rs:3976-3986 | publishing moves every applied transaction below the watermark and keeps the invariant |
| Recovery.RetireKeeps | src/db.rs:3988-4003 | deleting the WAL after a publish keeps the invariant |
| Recovery.StepKeeps | src/db.rs:2934-2990 | every careful step keeps the invariant |
| Recovery.RunKeeps | src/db.rs:2934-2990 | so does every careful run |
| Recovery.Durability | src/db.rs:2781-2840 | at every point of every careful run a reopen finds whole transactions, once and in order, with every acknowledged non-empty one and nothing that was not handed over whole |
| Recovery.CounterSafety | src/db.rs:2821-2833 | after every open the next count exceeds the watermark and every count in the log |
| Recovery.CountsBounded | src/graph/storage.rs:764-795 | no fact in memory outruns the counter |
| Recovery.RetireSafety | src/db.rs:3976-4003 | when the WAL is deleted, every acknowledged non-empty transaction is published and at or below the watermark |
| Guarantees.AckedBehindTearIsLost | src/wal.rs:142-168 | an append behind a twelve-byte tear is acknowledged, and a reopen finds neither it nor any bytes appended after it |
| Guarantees.AckedOversizedIsLost | src/wal.rs:252-271 | the same for a batch over the reader's cap |
| Guarantees.PublishSavesTheBatch | src/db.rs:3976-3986 | a publish by the process that holds the batch puts it into the image, whatever the sidecar says |
| Guarantees.AcknowledgedWriteCanBeLost | src/db.rs:2934-2990 | from an empty database, a run that acknowledges any batch of which a reopen finds nothing |
| Guarantees.ReadView | src/db.rs:3813-3841 | a view pins the requested cursor, or the counter if none is requested, and is refused exactly for a cursor in the future |
| Guarantees.SnapshotIsWhole | src/db.rs:3813-3841 | a snapshot of a log of whole transactions is a log of whole transactions |
| Guarantees.PinnedRun | src/db.rs:3817-3819 | no later run changes what a pinned cursor sees |
| Guarantees.ViewsAreAtomicSnapshots | src/db.rs:3813-3841 | after a careful run, a view taken between writes shows exactly the recovered and applied transactions up to its cursor, whole, through every later run |
| Views.InProcessViews | src/db.rs:3813-3841 | in one process, however earlier appends ended: a view shows what the process started with and the whole transactions applied since, up to its cursor, through every later run |
| Guarantees.UnlockedViewIsTorn | src/db.rs:3817-3823 | a cursor captured half way through a batch would show it torn |
| Guarantees.ExplicitNeverPublishes | src/db.rs:2264-2289 | as long as every open chooses explicit maintenance, no run without a maintenance call changes the published image |
| Guarantees.AutomaticBoundsBacklog | src/db.rs:4815-4823 | under the automatic policy every write that returns leaves the backlog below the threshold |
| Reachable.StampedIsResolved | src/db.rs:4285-4360 | stamping a client's batch leaves every start resolved and no assertion at the retract-everything marker |
| Reachable.ReachableLogs | src/graph/types.rs:250-254 | the same holds of every fact of every log that a careful client run reaches, through crashes, reopens and publishes, and that one process goes on to hold after it, however its appends end |
| Reachable.ReachableForget | src/db.rs:3299-3381 | on every such log a forget closes exactly the right windows of every named triple |
| Database.FileDatabase.constructor | src/db.rs:2660-2705 | an open that succeeds yields a valid object in the state of the open step: replay, counter repair, backlog, writer |
| Database.OpenFile | src/db.rs:2660-2705 | opening any reachable image succeeds exactly when the sidecar is missing, or its header is good or gets written whole; a failed open is a run that leaves the published image alone |
| Database.FileDatabase.EnsureWriter | src/db.rs:4805-4810 | the writer opens or is created as a run; it fails only for a bad header or a torn header write, and a whole sidecar ends at the end of an entry |
| Database.FileDatabase.AppendEntry | src/db.rs:4811-4820 | appends and acknowledges exactly on success, as a run that is careful when the sidecar ended whole and the batch is within the cap |
| Database.FileDatabase.WalWriteStampedBatch | src/db.rs:4790-4823 | is a run of the step system, careful when the sidecar ended whole and the batch is within the cap; acknowledges exactly on success, and fails only for a failed write, an unwritable entry or a bad header |
| Database.FileDatabase.ApplyBatch | src/db.rs:2970-2979 | loads the batch fact by fact as a run of single applications |
| Database.FileDatabase.Settle | src/db.rs:2970-2990 | after the append: the batch is loaded and a due checkpoint is made, as a run that appends nothing |
| Database.FileDatabase.PublishImage | src/db.rs:3976-3986 | a publish is a run that puts every pending fact into the image and moves the watermark, or changes nothing |
| Database.FileDatabase.RetireSidecar | src/db.rs:3988-4003 | closing the writer and deleting the sidecar is a run; a failed deletion leaves the disk alone |
| Database.FileDatabase.PublishAndRetire | src/db.rs:3976-4003 | publish, close, delete, as a run, with failure after each; on success the image holds everything, the sidecar is gone and the writer closed |
| Database.FileDatabase.DoCheckpoint | src/db.rs:3947-4006 | keeps the object valid and careful; a no-op exactly when there is nothing to flush, otherwise a checkpoint run that empties the backlog and closes the writer |
| Database.FileDatabase.Drop | src/db.rs:2264-2289 | keeps the object valid and careful; a best-effort checkpoint run, and the disk is untouched when the policy or the threshold forbids it |
| Database.FileDatabase.Perform | src/db.rs:2934-2990 | the steps of a write are a run, careful when the sidecar ended whole and the batch is within the cap |
| Database.FileDatabase.Write | src/db.rs:2934-2990 | keeps the object valid, and careful with a whole sidecar when it was and the batch is within the cap; on success exactly this batch is acknowledged and loaded; fails only for a failed write, an unwritable entry, a bad header or a failed checkpoint |
| Database.FileDatabase.ForgetTriples | src/db.rs:3299-3381 | reports how many named triples have a window to close, writes nothing if none has, and on a careful client object closes exactly the right windows |
| Database.Durable | src/db.rs:2781-2840 | whatever calls led to a careful object, its disk reopens to whole transactions, in order, with every acknowledged non-empty one |
| Database.WriteAll | src/db.rs:2934-2990 | writing any sequence of batches until one fails: every batch that succeeded is acknowledged in order and recovered by a reopen |
| Database.ForgetThroughWrite | src/db.rs:3340-3381 | a closure batch sent down the write path of a log with resolved starts changes the log as forgetting is specified to |
| Forget.CloseTriple | src/db.rs:4452-4492 | one turn of the loop emits exactly the closure facts of a triple, none twice |
| Forget.MaterializeClosure | src/db.rs:4441-4495 | the batch is exactly the closure, and the count is the number of triples with a closed window |
| Forget.NetAfterClosure | src/db.rs:4454-4492 | closed windows go, their truncations come, the rest stay |
| Forget.SentinelWipes | src/db.rs:4454-4492 | closing the window that spells the retract-everything marker removes every window of the triple |
| Forget.OthersUntouched | src/db.rs:3299-3381 | triples that are not named keep their windows |
| Forget.NothingContainsClosureTime | src/db.rs:4441-4495 | after any forget no window of a named triple contains the closure time |
| Forget.ForgetIsExact | src/db.rs:4441-4495 | past unchanged, nothing at the closure time, later visibility from later windows only: if and only if the triple is closable |
| Forget.SentinelForgetHidesThePast | src/db.rs:4454-4492 | a log of a hand-made file, whose assertion starts at the retract-everything marker, on which a forget hides the past |
| Forget.ForgetIsIdempotent | src/db.rs:3321-3338 | a second forget at the same time finds nothing to write |
| Forget.ForgetKeepsHistory | src/db.rs:3340-3381 | every earlier as-of state is unchanged |
| Forget.BatchKeysAreDisjoint | src/db.rs:4476-4491 | no window is both retracted and re-asserted by a batch |
| Staging.ViewsAgreeIffNothingRevives | src/db.rs:4707-4767 | when every assertion and scoped retraction names its start, the read inside and the commit agree on every window if and only if nothing revives |
| Staging.SingleNamingAgrees | src/db.rs:4707-4850 | if no triple is named twice and scoped retractions name their start, the live triples are the same in both |
| LiveTriples.LiveInside | src/db.rs:4838-4850 | for unscoped retractions, a triple is live inside exactly when some command asserts it and none from there on retracts it, or it was live and is not retracted |
| LiveTriples.LiveAfter | src/db.rs:4734-4767 | after commit it is live exactly when no command retracts it, and it was live or is asserted |
| LiveTriples.LiveTriplesAgreeIffNoneRevives | src/db.rs:4707-4767 | so both agree on every triple if and only if none is asserted after the last command that retracts it, whether or not assertions name a start |
| LiveTriples.RetractThenAssertVanishes | src/db.rs:4734-4767 | retracting a triple and asserting it again in one transaction, with any start or none: live until the commit, dead after it |
| Staging.BatchOrderIsIrrelevant | src/db.rs:4208-4216 | a batch has the same net effect in any order of its facts |
| Staging.AcceptCommand | src/db.rs:4208-4216 | the repeat check accepts a command exactly when nothing so far repeats |
| Staging.MaterializeAtomicWrite | src/db.rs:4095-4250 | accepts exactly lists of write commands within the command, byte, token and fact caps with no repeated fact; returns their facts in order and how many were transacted and retracted |
| Staging.WriteTransaction.constructor | src/db.rs:3392-3412 | starts with no staged command at the committed counter |
| Staging.WriteTransaction.Stage | src/db.rs:4707-4719 | each command gets its own synthetic count and a strictly later time |
| Staging.WriteTransaction.MergedQueryFacts | src/db.rs:4838-4850 | a query inside runs over the log and every staged fact with its start resolved |
| Staging.WriteTransaction.Commit | src/db.rs:4731-4752 | every staged fact is stamped with one count and one time |
| Diff.GroupHolds | src/db.rs:709-737 | the accumulator holds, per value, the first window seen at each instant, in canonical order |
| Diff.RowsAreTheDifference | src/db.rs:739-758 | a row is reported if and only if its value is visible at exactly one of the two instants, with that window |
| Diff.RowsAreSorted | src/db.rs:739-758 | rows of an entity come in canonical value order |
| Diff.RowWindowMarksTheChange | src/db.rs:739-758 | the reported window is one of the entity's and ends or starts inside (before, after] |
| Diff.DiffTurnsSnapshots | src/db.rs:709-758 | dropping the disappeared and adding the appeared values turns the earlier snapshot into the later |
| Diff.DirectionIgnoresOrder | src/db.rs:709-737 | what is reported does not depend on the order of windows |
| Diff.DiffsCompose | src/db.rs:709-758 | diffs over (a,b) and (b,c) compose to (a,c) |
| Diff.DiffIsLedgerDifference | src/db.rs:709-758 | rows are exactly the visibility changes of the ledger |
| Cursors.RangeIsPrefix | src/graph/storage.rs:1354-1366 | the attribute cursor's range, when bounded, holds exactly the attributes that extend the queried one |
| Cursors.ExactRange | src/graph/storage.rs:2317-2329 | the entity cursor's range holds exactly the queried attribute |
| Cursors.Committed | src/storage/delta_index.rs:243-275 | base and delta, interleaved without their attribute, give every committed entry of the range and nothing else |
| Cursors.Walked | src/graph/storage.rs:1785-2035 | an uninterrupted walk reads every committed and every pending entry of the range and nothing else |
| Cursors.MergeLeads | src/storage/delta_index.rs:243-275 | interleaving keeps the queried attribute's entries in order, whatever strays among them or before them |
| Cursors.FlushLists | src/graph/storage.rs:1785-2035 | a run of entries emits exactly its windows in force, in canonical order |
| Cursors.EntityCursorIsExact | src/graph/storage.rs:2300-2420 | the entity cursor serves exactly the entity's windows of the queried attribute, for every log and transaction |
| Cursors.StrayFreeIsServed | src/graph/storage.rs:2039-2071 | when no fact at the transaction strays, an uninterrupted walk serves exactly the attribute's windows from any start entity on |
| Cursors.ListingResumes | src/graph/storage.rs:1673-1688 | then a new cursor after an entity delivers what the full listing holds past it |
| Cursors.StrayIsServed | src/graph/storage.rs:1706-1715 | a lone stray fact is served under the queried attribute, however far on the cursor starts |
| Cursors.ServedIffNothingStrays | src/graph/storage.rs:1689-1757 | uninterrupted walks serve every log over a set of attributes exactly, at every transaction, if and only if none of them strays into the range |
| Cursors.StrayCanBeHarmless | src/graph/storage.rs:1689-1757 | a single log can hold a stray fact and still be served exactly |
| Walks.StepCursor | src/graph/storage.rs:1785-2035 | one step reads the next entries of the two sides up to its budget or a fault, delivers the windows of the entities it leaves, and leaves the resume key, position and open entity |
| Walks.YieldsFull | src/graph/storage.rs:1998-2030 | a step that does not complete the walk has read its whole budget |
| Walks.WalkEnds | src/graph/storage.rs:1785-2035 | whatever strays into the range and however steps end, a walk is over after finitely many |
| Walks.StepDelivers | src/graph/storage.rs:1797-1890 | each step delivers the next windows of the groups of what the whole walk reads, the last step all that remain |
| PureWalks.ResumesExactly | src/storage/index.rs:279-313 | when the range takes in one attribute only, the range resumed behind an entry holds exactly the entries after it |
| PureWalks.EverySplitReadsTheSame | src/graph/storage.rs:1785-2035 | then every split into steps reads exactly what one uninterrupted walk reads |
| PureWalks.OneStepReadsAll | src/graph/storage.rs:2039-2071 | a walk that never yields reads what one uninterrupted walk reads, whatever strays |
| PureWalks.WalksServeIffNothingStrays | src/graph/storage.rs:1689-2035 | stepped walks over a set of attributes serve one exactly, however they split, if and only if none of the others strays into its range |
| DiffScan.Validate | src/db.rs:626-696 | accepts exactly well-posed requests whose continuation belongs to them |
| DiffScan.ContinuationBelongs | src/db.rs:671-695 | a continuation belongs to the request that produced it |
| DiffScan.GroupsAfterAreApart | src/db.rs:1060-1080 | however the steps split and whatever strays, neighbouring groups differ and none is empty |
| DiffScan.Receive | src/db.rs:1060-1080 | the cursor callback splits what a step delivers into finished groups and one open group |
| DiffScan.Drain | src/db.rs:1090-1107 | finished groups are emitted whole while they fit the limit |
| DiffPages.NoteAll | src/db.rs:954-962 | the entity callback folds any stretch of windows into the group |
| DiffPages.ValidTimeDiffScan.constructor | src/db.rs:823-874 | a scan starts where the request does, with nothing read |
| DiffPages.ValidTimeDiffScan.StepEntitySet | src/db.rs:897-967 | keeps the scan valid through any delivery or fault, makes progress, and rejects only a first group that cannot be delivered |
| DiffPages.ValidTimeDiffScan.FinishGroup | src/db.rs:968-996 | a completed entity is emitted whole or left for the next page |
| DiffPages.ValidTimeDiffScan.StartStream | src/db.rs:1018-1040 | a cursor is created behind the resumed entity, with everything still to deliver; there is none past the largest id |
| DiffPages.ValidTimeDiffScan.StepAttribute | src/db.rs:1000-1118 | as StepEntitySet, for a whole attribute; charges what the cursor read |
| DiffPages.ValidTimeDiffScan.Advance | src/db.rs:1042-1085 | one step of the attribute cursor, from its resume key: the scan stays where the cursor's walk is, through any fault |
| DiffPages.ValidTimeDiffScan.Flush | src/db.rs:1085-1117 | groups finished by a step are emitted, or the page closes at the last one emitted |
| DiffPages.Drive | src/db.rs:1402-1407 | the loop terminates with a closed page; over such storage it fails only for a first group over the limit |
| DiffPages.ValidTimeDiff | src/db.rs:1402-1407 | a page holds whole groups of its own cursor's walk from where the request starts, within its limit, with a continuation exactly at its end or none at the end of the scope; over storage that neither faults nor exceeds the source budget an accepted request fails only when a page cannot fit |
| DiffChain.PagesMeet | src/db.rs:897-1118 | when its plans are steady, each page of a chain starts where the preceding one ended, stays within its limit, and passes a group if it has a continuation |
| DiffChain.ChainIsFullDiff | src/db.rs:897-1118 | such a chain, when it ends, concatenates to the one full diff in scope order |
| DiffChain.GroupInOnePage | src/db.rs:969-996 | each entity's group lies whole in exactly one page |
| DiffChain.ContinuationsAreAccepted | src/db.rs:671-695 | a continuation is accepted for the same request with any limit, further on than its own |
| DiffChain.ChainsAreShort | src/db.rs:931-995 | a chain has at most one page per group and one more, so it cannot cycle |
| DiffChain.EveryPlanReadsWhole | src/graph/storage.rs:1785-2035 | when nothing in the index strays, at any transaction, every split of the steps lists from every start what an uninterrupted walk lists |
| DiffChain.LaterListing | src/db.rs:671-695 | when nothing strays at the pinned transaction, an index that has grown by newer facts lists the same there |
| DiffChain.ExactPageIsSteady | src/graph/storage.rs:1673-2035 | a page that reads exactly delivers behind every entity what the first listing holds there: nothing it reads strays, or nothing strays in the view and the page never yields |
| DiffChain.ChainIsLedgerDifference | src/db.rs:1402-1407 | the pages together report exactly what changed in the ledger as of the pinned transaction, whatever is written between them: for listed entities always, for a whole attribute when every page reads exactly |
| DiffLimits.DueDateStraysIntoDue | src/graph/storage.rs:1354-1366 | `:task/due-date` strays into the range of `:task/due` |
| DiffLimits.StrayIsReported | src/db.rs:1018-1040 | a one-fact log on which, however the steps split, a finished whole-attribute diff reports a value that only another attribute has |
| DiffLimits.StrayChainNeverEnds | src/db.rs:1018-1040 | a two-fact log on which every page of every chain of one-row pages repeats the first group, and none ends |
| DiffLimits.StrayChainGoesOn | src/db.rs:1018-1040 | such chains exist at every length |
| DiffLimits.ReportsIffNothingStrays | src/db.rs:1402-1407 | whole-attribute diffs over a set of attributes report exactly what changed, if and only if none of them strays into the range |
| StaleStrays.NewerStrayIsReported | src/storage/index.rs:299-313 | for every step size, a log where nothing strays as of the view and a stray entry newer than it moves the resume key back: the diff reports a retracted assertion and repeats an entity |
| StaleStrays.DiffReportsNewerStray | src/db.rs:1060-1063 | the same with the diff's own step size |
| Aggregates.FeedFails | src/query/datalog/executor.rs:1845-1880 | feeding rows fails exactly when a sum meets a value it cannot add |
| Aggregates.CountHolds | src/query/datalog/executor.rs:1845-1852 | a count is the number of non-null arguments, saturated |
| Aggregates.SumHolds | src/query/datalog/executor.rs:1853-1872 | a sum's integer part is the saturating sum in row order, and it turns to floating point exactly when a float was seen |
| Aggregates.SumIsOrderFree | src/query/datalog/executor.rs:1858-1862 | a 64-bit saturating sum is the same in every order if and only if its gains and losses each fit, or one is missing |
| Aggregates.ResultsIgnoreOrder | src/query/datalog/executor.rs:1981-2121 | errors, emptiness and counts never depend on row order; sums do not when steady |
| Projection.UntouchedWindows | src/graph/storage.rs:2120-2137 | an entity with no fact since the image has the same windows now |
| Projection.BuiltIsFaithful | src/graph/storage.rs:2073-2097 | an image built by the attribute cursor where nothing strays holds exactly the attribute's windows past its floor |
| Projection.OverlaySurvivesWrites | src/graph/current_projection.rs:224-263 | later transactions do not disturb a resident overlay |
| Projection.RoutedRowsAreLedgerRows | src/db.rs:1570-1625 | image rows of untouched entities and overlay rows together are the ledger's rows, as a multiset, for a faithful image and a listing that is served exactly |
| Projection.InstalledIsCurrent | src/graph/current_projection.rs:143-193 | replacing what was touched since, as the entity cursor reads it, brings an overlay to the target transaction |
| Projection.ReaderIsExact | src/graph/storage.rs:2300-2420 | over an index of the log the entity cursor gives the refresh exactly the windows it needs |
| Projection.TouchedSince | src/graph/storage.rs:2120-2150 | lists exactly the touched entities, and refuses exactly when more tail facts than the limit lie after the image and up to the target |
| Projection.RefreshOverlay | src/graph/storage.rs:2099-2205 | a refresh that is ready yields a current overlay at the target; it fails only when ahead, behind the counter or overtaken, and is over budget only for a stated cost |
| Projection.TailCache.constructor | src/graph/current_projection.rs:226-230 | starts empty |
| Projection.TailCache.Prepare | src/graph/current_projection.rs:233-290 | hands out only current overlays, the resident one when it is at the target; remembers a refusal; leaves the cache alone on failure |
| Route.PlayOutcome | src/db.rs:1561-1636 | a scan fails exactly when a kept row cannot be fed or the rows read exceed the limit; otherwise it is scanned if it completes, abandoned if not |
| Route.AttemptComputes | src/db.rs:1502-1636 | whatever the image holds, a candidate's answer is computed from its kept rows and the overlay's, within the limit |
| Route.AttemptCounts | src/db.rs:1502-1636 | over a faithful image a candidate's answer is made of exactly the ledger's rows, each once, within the limit |
| Route.IntactCandidateAnswers | src/db.rs:1561-1636 | an intact candidate answers if and only if the ledger's rows can be fed and all rows read fit the limit |
| Route.BrokenCandidateIsSkipped | src/db.rs:1586-1593 | a broken candidate never answers, and is passed over if and only if what it visited could be fed within the limit |
| Route.RoutedAnswerIsLedgerAnswer | src/db.rs:1502-1636 | a routed answer is the ledger's: same rows of results, same counts, same sums when steady |
| Route.Visit | src/db.rs:1570-1585 | the scan callback feeds exactly the rows the overlay does not replace |
| Route.RunCandidate | src/db.rs:1551-1636 | the candidate loop computes the specified verdict |
| Route.AddOverlay | src/db.rs:1602-1630 | after a complete scan the overlay's rows are fed and charged |
| Route.TryProjected | src/db.rs:1482-1640 | an answer is the verdict of the first candidate not passed over, run with a current overlay, and is computed from the rows it read; when nothing strays these are exactly the ledger's rows; a fallback means a moved watermark or that every candidate was passed over; an error is that candidate's refusal or a tail that could not be prepared |
| RouteLimits.RoutedSumCanDiffer | src/db.rs:1602-1630 | a log on which the routed sum and the ledger's sum differ |
| RouteLimits.HiddenRowsRefuseTheRoute | src/db.rs:1594-1603 | rows that do not show count against the route's limit and not against the ledger's |
| RouteLimits.CorruptImageCanFailTheQuery | src/db.rs:1566-1593 | a corrupt image can fail a query that the ledger answers |
| StrayCounts.RoutedCountCanDiffer | src/query/datalog/executor.rs:690-720 | an image, a current tail and a log with a stray attribute: the route counts two rows, the ledger's own cursor three |
| StrayCounts.RouteCountsIffNothingStrays | src/query/datalog/executor.rs:690-720 | routed counts over a set of attributes are the ledger's own, if and only if none of them strays into the range |
| CursorCodec.HexRoundTrip | src/db.rs:287-294 | hexadecimal decoding inverts encoding on all byte strings |
| CursorCodec.UnhexIsExact | src/db.rs:310-327 | a text decodes to some bytes if and only if it spells them, in either case of each digit |
| CursorCodec.ParseHex | src/db.rs:318-327 | the decoder's loop over digit pairs computes that decoding |
| CursorCodec.TokenRoundTrip | src/db.rs:274-351 | a token decodes back to its cursor if and only if it fits the decoder's limit |
| CursorCodec.AcceptedTokens | src/db.rs:300-351 | whatever decodes is a checksummed version-1 payload |
| CursorCodec.FinishHistoryPage | src/db.rs:388-432 | a page holds the first rows up to the limit, continues exactly when there are more, and its continuation decodes; it is rejected exactly when facts and token exceed the limit |
| CursorCodec.DiffContinuationsDecode | src/db.rs:518-595 | every continuation a diff page returns for a storable attribute decodes back to itself |
| MarkerScan.OccurrencesAreOffsets | benches/delta_accumulation_benchmark.rs:393-398 | counting windows is counting the offsets where the marker stands |
| MarkerScan.CarryCounts | benches/delta_accumulation_benchmark.rs:386-410 | the carry and the next read hold exactly the occurrences the read completes |
| MarkerScan.CountWindows | benches/delta_accumulation_benchmark.rs:393-398 | counts the windows of one chunk |
| MarkerScan.CountSegments | benches/delta_accumulation_benchmark.rs:374-412 | the streaming count is the number of occurrences in the file, for every way the reads split |
| MarkerScan.LastWindow | benches/delta_accumulation_benchmark.rs:433-436 | the last occurrence in a buffer |
| MarkerScan.FindLast | benches/delta_accumulation_benchmark.rs:414-443 | the greatest offset for every chunk size of at least one; an error exactly when there is none |
| LaneKernels.CountChunks | benches/simd_helpers.rs:29-50 | the four-lane loop counts the windows of its whole chunks |
| LaneKernels.ValidTimeFilter | benches/simd_helpers.rs:25-63 | counts the windows that contain the instant in the part it covers, for slices of any lengths |
| LaneKernels.EqualLengthsAreCovered | benches/simd_helpers.rs:21-25 | for equal lengths that is every window |
| LaneKernels.FilterIsExact | benches/simd_helpers.rs:52-58 | for unequal lengths it is right about the common part if and only if the second slice has as many whole chunks or no tail |
| LaneKernels.AsOfFilter | benches/simd_helpers.rs:69-93 | counts exactly the elements at or below the threshold |
| LaneKernels.WrappingIsModular | benches/simd_helpers.rs:99-116 | wrapping at every step is wrapping once |
| LaneKernels.LaneSum | benches/simd_helpers.rs:99-116 | four wrapping lanes and a tail give the left-to-right wrapping sum |

## Left out

- Recovery.Durability: says nothing about empty transactions, which consume a count and a WAL entry but add no fact and whose count a reopen does not restore.
- Database.FileDatabase.constructor: covers opens that succeed; `Database.OpenFile` decides which do and models the ones that fail.
- Reachable.ReachableForget: leaves out a reopen after an append behind a torn entry, because a reader that resumes inside such an entry may decode anything the fact codec accepts.
- Guarantees.ViewsAreAtomicSnapshots: relates views to what a reopen recovers, so it covers careful pasts; `Views.InProcessViews` covers every other.
- Staging.ViewsAgreeIffNothingRevives: assertions that leave their start to the transaction time are left to `LiveTriples`, because inside and after the commit they open different windows.
- LiveTriples.LiveInside: leaves out scoped retractions, because whether one hits a window with a default start depends on the clock.
- LiveTriples.LiveAfter: leaves out scoped retractions, for the same reason.
- LiveTriples.LiveTriplesAgreeIffNoneRevives: leaves out scoped retractions, for the same reason.
- PureWalks.WalksServeIffNothingStrays: speaks of all logs over a set of attributes, because a single log with a stray fact can be served exactly, as `Cursors.StrayCanBeHarmless` shows.
- Cursors.ServedIffNothingStrays: the same, for uninterrupted walks.
- Route.RoutedAnswerIsLedgerAnswer: claims nothing about sums that meet a float, because floating-point addition is left uninterpreted.
- Route.TryProjected: does not model how candidates are ordered or how long a scan step is, because the result holds for every order and every split.
- StrayCounts.RouteCountsIffNothingStrays: compares with the ledger count of one uninterrupted walk; the browser's aggregate session steps the same cursor, and `PureWalks` says when that makes a difference.
- Projection.RefreshOverlay: takes the per-entity history cost and the byte accounting as parameters, because they measure storage layouts outside the model.
- CursorCodec.DiffContinuationsDecode: takes the parser's limit of 1024 bytes on keywords and the length bound on JSON as hypotheses.
- CursorCodec.FinishHistoryPage: takes at most one item more than a positive limit, which is what its only caller asks storage for.
- Staging.MaterializeAtomicWrite: takes the lexer's counts and the parser's verdict on each command as given, because parsing is outside the model.
- MarkerScan.CountSegments: the running count is unbounded; the source saturates at the machine word.
- Datalog parsing, planning, rules and the other aggregates: materialized facts and rows are the model's input.
- B+tree pages, delta segments, manifests and image encoding: the published image is its list of facts, a projection image its list of rows.
- A `load_fact` failure after a successful append, which the code marks fatal.
- Browser storage, sessions, the command line, backups, benchmarks other than the two helpers, and diagnostics.
- `normalize_current_entities_request`, `normalize_current_projection_attributes` and the clamping of step budgets: each is a fixed list of comparisons on one request, and the requests they admit are not otherwise modelled.
