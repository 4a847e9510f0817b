# TransactionDB in Dafny

A model of the storage engine of TransactionDB and proofs about it: the B-tree, MVCC and the two
table engines, the pager and the write-ahead log, the JIT lowering, the R-tree, the record codec,
the nested-loop join and the lock table. Code that updates things in place is modelled by classes
and methods with loops, proved against specification functions; what the system promises is then
proved about those functions, for all inputs, all runs or all reachable states.

`dafny verify dfyconfig.toml` checks everything.

## How the pieces fit

- **B-tree** (`SortedCells`, `BTree*`, `Cursor`, `Overflow`). Pages are a map from page number to
  node. `BTreePages` reads the tree below a page off that map, height by height. `BTrees.BTree`
  holds the code; `torn` is set when a split drops a cell. Main results: `Insert` refines
  map update exactly when a condition on cell sizes holds, `Enumerate` lists exactly the map.
- **MVCC** (`Mvcc`, `TxnManager`, `Versions`, `SnapshotIsolation`, `ReadLaws`, `TimeTravel`). A
  transaction registry, version chains, and run theorems: every snapshot reads one committed table
  plus its own writes, AS OF reads the table an id left, and what the next session starts from.
- **Engines** (`Engines`, `ColumnStore`, `EngineEquivalence`, `KeyOrder`, `IndexScan`). Row and columnar engines as
  classes, their equivalence over whole traces, and index range scans against full scans.
- **Pager and log** (`FreeList`, `PageOwners`, `Pager`, `Savepoints`, `WalLog`, `Wal`, `WalSessions`). The
  pager refines a stack of states, and no page is lost or owned twice over any run; the log refines a
  sequence of atomic batches over whole lives of commits, checkpoints and crashes. Checksums are symbolic: two are equal only
  when everything that went into them is equal.
- **JIT** (`Jit*`). `JitAst` and `JitExec` give routines their meaning over abstract numbers,
  `JitMachine` runs the generated lines, `JitLower` is the lowering as a function, `JitEmitter` the
  emitter object that computes it. `JitShape` proves the form of the code, `JitExprs` to
  `JitRoutines` that it is correct, `JitSample` follows one routine to the machine's answer.
- **R-tree** (`RTree*`), **codec** (`Values`, `Codec`, `Records`), **join** (`Joins`), **locks** (`Locks`).

Where the code does not do what one would expect, the model follows the code, a lemma exhibits the
case, and another says when the expectation holds. That condition is exact in these pairs:
`UnevenSplitLosesACell` and `SafeInsert`, `AsOfUnstable` and `AsOfStableIff`,
`ForeignRollbackLosesAWrite` and `ForeignRollbackIff`, `ReorderedWriteRevives` and `RevivedIff`,
`TooManyDirty` and `RollbackExact`, `CrashForgetsAllocation` and the constructor of `Pager`,
`WideTable` and `AgreeIff`, `LateCommitLosesARow` and `ReopenIff`, `LateRemoveResurfaces` and `RemoveSeenIff`, `OlderHolderOverlooked` with `WaitDieIff` and `BlockersYoungerIff`.
For nested FOR loops, `NestedForStopsEarly` stands beside `LoweringCorrect`, which says exactly what the
generated code computes, and `FlatLoweringCorrect`, whose condition is sufficient.

Page allocation is any choice of an unused page number, except in the pager, where it is the
free-list algorithm. Mutexes, memory and I/O failures are not modelled. Coordinates of the R-tree
are reals, and its +-1e308 start values are read as "none yet". Integers are unbounded except where
the width matters (varints, serial types, change counter, salts).

## Model

| member | source | states |
|---|---|---|
| BTrees.BTree.Insert | src/storage/tdb_btree.c:554-568 | From a valid tree, through any chain of leaf, interior and root splits: the root page is the same, pages outside the tree are untouched, and the tree is valid again with exactly the old map plus key := value if and only if the target leaf does not split or both halves of the split fit their page (`SafeInsert`, computable from the leaf's cell sizes before the call); when it is torn, some key of the wanted map is missing. A tree in which no leaf is empty stays so |
| BTrees.BTree.InsertRec | src/storage/tdb_btree.c:480-526 | The same for the subtree under any page at any height, between the bounds the parent gives it, with the split it hands up |
| BTrees.BTree.InsertIntoLeaf | src/storage/tdb_btree.c:486-498 | A leaf write: replace or insert, in place when it fits, otherwise by a split, with the resulting map over one or two leaves |
| BTrees.BTree.SplitLeaf | src/storage/tdb_btree.c:340-393 | The cells with the new one in place are divided at half their number; each page keeps its half exactly when that half fits, and the separator is the last key of the left half |
| BTrees.BTree.FillLeaf | src/storage/tdb_btree.c:371-373 | Ignored insert results: all the cells arrive if and only if they fit together, and `torn` records the other case |
| BTrees.BTree.SplitInterior | src/storage/tdb_btree.c:395-478 | Children and separators with the new pair in place are divided around the middle separator, which moves up; no child is lost or repeated |
| BTrees.BTree.Redirect | src/storage/tdb_btree.c:508-523 | The parent takes the separator and the two halves of its child in place, or reports that it is full and is unchanged |
| BTrees.BTree.GrowRoot | src/storage/tdb_btree.c:528-552 | The root's contents move to a new page and the root becomes an interior page over both halves: same root number, one level more, same map |
| BTrees.BTree.InsertLeafCell | src/storage/tdb_btree.c:294-308 | Refuses exactly when the cells would not fit a page, defragmenting when only holes are left; otherwise the cell is at its index and the rest keep their order |
| BTrees.BTree.DefragLeaf | src/storage/tdb_btree.c:270-292 | Rewriting the cells contiguously keeps every cell and reclaims every hole |
| BTrees.BTree.DeleteLeafCell | src/storage/tdb_btree.c:310-314 | Exactly one cell goes; its bytes become a hole |
| BTrees.BTree.InsertInteriorCell | src/storage/tdb_btree.c:294-308 | The same for separators, whose cells all have one size |
| BTrees.BTree.Remove | src/storage/tdb_btree.c:570-594 | The map without the key, `found` exactly when it was there, tree still valid at the same height although leaves may become empty |
| BTrees.BTree.constructor | src/storage/tdb_btree.c:598-611 | An empty leaf on a page of its own is a valid tree of the empty map |
| BTreeSplit.PgFind | src/storage/tdb_btree.c:317-334 | Binary search: everything before the result is smaller, nothing from it on is, and `exact` exactly when the key is on the page |
| BTreePages.CellAtMostQuarter | src/storage/tdb_btree.c:108-155 | No table cell exceeds (page size - 12) / 4 bytes |
| BTreeSplit.FullLeafHasFour | src/storage/tdb_btree.c:108-155 | So cells that do not fit a leaf are at least four: a leaf splits only when it already holds three |
| BTreeSizes.OtherHalfSuffices | src/storage/tdb_btree.c:340-393 | A split loses nothing whenever the old cells in the half the new cell does not join are together at least as large as the new cell |
| BTreeSizes.SimilarSizesSafe | src/storage/tdb_btree.c:340-393 | Hence always when no cell is more than twice another |
| BTreeSizes.UnevenSplitLosesACell | src/storage/tdb_btree.c:340-393 | A concrete full 512-byte leaf and a new cell for which the split by count does lose a cell |
| Cursors.Cursor.First | src/storage/tdb_btree.c:747-757 | Lands on the least key, or at the end exactly when the tree is empty, skipping emptied leaves |
| Cursors.Cursor.Next | src/storage/tdb_btree.c:759-771 | The least key above the current one, or the end exactly when there is none |
| Cursors.Cursor.Seek | src/storage/tdb_btree.c:774-807 | Lands on the least key at or above the target; `exact` exactly when it is there, with its value |
| Cursors.Cursor.NextLeaf | src/storage/tdb_btree.c:726-745 | Climbs the ancestor stack to the next leaf in order; no key lies between the leaf left and the leaf reached |
| Cursors.Cursor.DescendLeftmost | src/storage/tdb_btree.c:702-724 | Fills the stack down to the leaf that begins the subtree's key range |
| Cursors.Enumerate | src/storage/tdb_btree.c:747-771 | first/next yields exactly the map, in ascending order, after any inserts and deletes |
| Cursors.Cursor.Last | src/storage/tdb_btree.c:874-881 | The greatest key, unless the rightmost leaf is empty: at the end exactly in that case |
| Cursors.Cursor.Prev | src/storage/tdb_btree.c:904-914 | The greatest key below the current one; it ends if and only if the cell is the first of its leaf and the leaf the climb reaches is empty or there is none, and when there is none no smaller key exists |
| Cursors.MaxRowid | src/storage/tdb_btree.c:916-926 | The largest key if and only if the rightmost leaf is not empty or the tree holds nothing above 0; hence always on trees without physical deletes |
| Cursors.EnumerateBack | src/storage/tdb_btree.c:874-914 | On trees without physical deletes last/prev yields exactly the map, in descending order |
| Cursors.DenseMeans | src/storage/tdb_btree.c:851-872 | On such trees no leaf is empty unless the tree is |
| Overflow.OverflowStore.Write | src/storage/tdb_btree.c:164-193 | The bytes are spread in order over new pages linked to each other; other pages are untouched |
| Overflow.OverflowStore.Get | src/storage/tdb_btree.c:195-210 | Reads back exactly the bytes written |
| Overflow.OverflowStore.Free | src/storage/tdb_btree.c:212-222 | Gives back exactly the pages of the chain |
| Mvcc.VisibilityStable | src/txn/tdb_mvcc.c:13-32 | For a fixed snapshot and version, visibility is the same after every run of later begins, commits and aborts |
| Mvcc.SeenKept | src/txn/tdb_txn.c:54-106 | One begin or end changes nothing a snapshot sees |
| Mvcc.AsOfStableIff | src/txn/tdb_txn.c:226-233 | AS OF v gives the same answers for ever if and only if every id up to v has been given out and has finished |
| Mvcc.AsOfUnstable | src/txn/tdb_txn.c:226-233 | Otherwise there is a run that changes one of its answers |
| Mvcc.VisibleIsShows | src/txn/tdb_mvcc.c:22-32 | Both visibility tests are the same test over the set of ids that are seen |
| Mvcc.RegistryKept | src/txn/tdb_txn.c:54-94 | Every begin and end keeps one state per id given out |
| TxnManagers.TxnManager.Begin | src/txn/tdb_txn.c:108-128 | Hands out the next id as active, with a snapshot whose active list is exactly the active ids |
| TxnManagers.TxnManager.End | src/txn/tdb_txn.c:182-220 | The id gets its final state and leaves the active list; nothing else changes |
| TxnManagers.TxnManager.TakeSnapshot | src/txn/tdb_txn.c:96-106 | The active list copied is exactly the set of active ids |
| TxnManagers.TxnManager.SetState | src/txn/tdb_txn.c:54-67 | The record array stays a function from ids to states, updated at one id |
| TxnManagers.TxnManager.State | src/txn/tdb_txn.c:69-76 | The state the registry gives an id; that ids of earlier sessions count as committed is what `SnapshotsRead` needs of it to show their rows |
| TxnManagers.TxnManager.ActiveRemove | src/txn/tdb_txn.c:87-94 | Swapping with the last entry removes exactly one id |
| TxnManagers.InActive | src/txn/tdb_mvcc.c:4-8 | Membership in the snapshot's active list |
| TxnManagers.TxnManager.IsXidVisible | src/txn/tdb_mvcc.c:13-20 | The id is the snapshot's own, or committed, below the snapshot's limit and not active when it was taken |
| TxnManagers.TxnManager.IsVisible | src/txn/tdb_mvcc.c:22-32 | The version's creator is visible and its deleter is not |
| Engines.VisibleAsOfCheck | src/txn/tdb_txn.c:226-233 | Committed at or before v, and not superseded at or before v |
| Versions.OneVisible | src/storage/engine_row.c:359-396 | At most one version of a chain is visible, and the walk returns it |
| Versions.ChainsKept | src/storage/engine_row.c:260-356 | Inserts, updates and removes keep every chain linked, with version ids that only go down, so the walk ends |
| Versions.WriteHidden | src/storage/engine_row.c:260-356 | No write is visible to anyone who does not see the writer |
| Versions.InsertSeen | src/storage/engine_row.c:260-271 | Those who see the writer see the inserted record in that row and no other change |
| Versions.UpdateSeen | src/storage/engine_row.c:290-332 | The same for an update of a live version |
| Versions.RemoveSeen | src/storage/engine_row.c:334-356 | The same for a tombstone |
| SnapshotIsolation.SnapshotsRead | src/storage/engine_row.c:260-396 | From rows of earlier sessions with every stored id in 1..base, the committed table starting as their live newest records: for every run of one writer at a time with any readers, the visible version of each row is the record in the committed table the snapshot was taken from, overlaid with the reader's own writes |
| SnapshotIsolation.InitInv | src/txn/tdb_txn.c:22-32 | A database opened over well-chained rows whose ids lie in 1..base shows their live newest records |
| ReadLaws.WriteReads | src/storage/engine_row.c:260-356 | An insert or update is read back by its transaction as written, a remove as nothing; every other read of anybody is as before |
| ReadLaws.EndReads | src/txn/tdb_txn.c:182-220 | A commit or rollback changes no read of the other transactions |
| ReadLaws.BeginReads | src/txn/tdb_txn.c:108-128 | A new transaction reads the committed table, and nobody else's reads change |
| ReadLaws.RefreshReads | src/txn/tdb_txn.c:130-134 | A refreshed transaction reads its own writes over the committed table |
| ReadLaws.CommitShows | src/txn/tdb_txn.c:182-203 | After the writer commits, a new transaction reads what the writer read at the rows it wrote, and elsewhere what it would have read before |
| ReadLaws.RollbackHides | src/txn/tdb_txn.c:205-220 | After the writer rolls back, a new transaction reads what it would have read before |
| TimeTravel.AsOfReads | src/txn/tdb_txn.c:226-233 | For every run whose writers commit in the order of their ids, AS OF v reads at every row the table left by the last committed writer up to v |
| TimeTravel.RemoveSeenIff | src/storage/engine_row.c:334-356 | A remove takes effect for those who see the remover if and only if they see the creator of the version it marks, or saw nothing there |
| TimeTravel.LateRemoveResurfaces | src/txn/tdb_txn.c:226-233 | Row updated by 3, then removed by 2: AS OF 2 the record from before both is back |
| TimeTravel.ReopenIsAsOf | src/txn/tdb_txn.c:22-32 | A database reopened with a recorded id reads every row AS OF that id |
| TimeTravel.ReopenIff | src/txn/tdb_txn.c:182-187 | The next session shows the same version of every row if and only if every live row's newest version is not later than the recorded id and no version of a removed row lived across it |
| TimeTravel.SameVersionIff | src/txn/tdb_txn.c:69-76 | The same of a single row |
| TimeTravel.ReopenKeeps | src/txn/tdb_txn.c:22-32 | With every stored id at most the recorded one, the next session starts from the committed table |
| TimeTravel.SessionsRead | src/txn/tdb_txn.c:182-203 | After every run in id order that no smaller writable id ends, the stored rows meet what `SnapshotsRead` asks and hold the committed table |
| TimeTravel.LateCommitLosesARow | src/txn/tdb_txn.c:182-187 | Transaction 2 inserts and commits, then writable 1 commits: the file records 1, and the next session does not see the committed row |
| SnapshotIsolation.StepKept | src/storage/engine_row.c:260-396 | Every allowed step keeps the correspondence between pages, version chains and the committed-table story |
| SnapshotIsolation.RunKept | src/storage/engine_row.c:260-396 | Hence every run does |
| SnapshotIsolation.OneVersionVisible | src/storage/engine_row.c:359-396 | In every reachable state each transaction sees at most one version of a row |
| SnapshotIsolation.ForeignRollbackIff | src/txn/tdb_txn.c:205-220 | When another writable transaction rolls back while w has uncommitted writes, w still reads its own writes if and only if every one of them equals what it read before writing |
| SnapshotIsolation.ForeignRollbackReads | src/txn/tdb_txn.c:205-220 | After such a rollback w reads every row as if it had written nothing |
| SnapshotIsolation.ForeignRollbackLosesAWrite | src/txn/tdb_txn.c:205-220 | A run of two begins and an insert by the first: it reads its record, and reads nothing there once the second has rolled back |
| Engines.ResolveVisible | src/storage/engine_row.c:359-396 | Walking the chain returns the first version the ids seen show, and ends |
| Engines.FreshVid | src/storage/engine_row.c:308-310 | One past the largest version id in use |
| Engines.RowEngine.Insert | src/storage/engine_row.c:260-271 | The new row is a live version without history |
| Engines.RowEngine.Update | src/storage/engine_row.c:290-332 | The old version moves to the history under a fresh id and the new one links to it; reports a missing row |
| Engines.RowEngine.Remove | src/storage/engine_row.c:334-356 | The newest version is marked deleted; reports a missing row |
| Engines.RowEngine.SeekRowid | src/storage/engine_row.c:398-423 | The visible record of one row, or none |
| Engines.RowEngine.Scan | src/storage/engine_row.c:555-577 | Exactly the visible rows, ascending, each once, for a snapshot or AS OF |
| ColumnStore.ColEngine.constructor | src/storage/engine_col.c:198-212 | An empty table with one empty column tree per column |
| ColumnStore.ColEngine.Reassemble | src/storage/engine_col.c:97-112 | The record put together from the first 64 columns, NULL where a column has no value or the mask leaves it out |
| ColumnStore.ColEngine.PutColumns | src/storage/engine_col.c:262-278 | Every column holds the row's value or NULL; every other row is unchanged |
| ColumnStore.ColEngine.Insert | src/storage/engine_col.c:262-278 | Header and cells of a live version without history |
| ColumnStore.ColEngine.Update | src/storage/engine_col.c:280-316 | The old version, put together from its columns, moves to the history under a fresh id; header and cells are the new version's; reports a missing row |
| ColumnStore.ColEngine.Remove | src/storage/engine_col.c:318-329 | The header is marked deleted and the columns stay; reports a missing row |
| ColumnStore.ColEngine.ResolveCol | src/storage/engine_col.c:157-196 | Under any column mask: a record exactly when a version is visible, equal to it in every marked column |
| ColumnStore.ColEngine.Scan | src/storage/engine_col.c:362-379 | Under any column mask: the rowids of exactly the visible rows, ascending, each once, with their marked columns; without a mask exactly the visible rows |
| ColumnStore.CellsAssembled | src/storage/engine_col.c:97-112 | With at most 64 columns, writing a row's cells and putting them together gives the NULL-padded record, and no other row changes |
| ColumnStore.InsertViewed | src/storage/engine_col.c:262-278 | A columnar insert is the row insert of the padded record |
| ColumnStore.UpdateViewed | src/storage/engine_col.c:280-316 | A columnar update is the row update of the padded record |
| ColumnStore.RemoveViewed | src/storage/engine_col.c:318-329 | A columnar remove is the row remove |
| ColumnStore.WideRecordsCut | src/storage/engine_col.c:97-112 | With more than 64 columns no inserted record reads back padded |
| EngineEquivalence.EnginesAgree | src/storage/engine_col.c:97-379 | After any trace of begins, writes, commits and rollbacks from empty tables of at most 64 columns, on headers, history and column trees against row versions, the full scans give the same rowids in the same order and the same NULL-padded values, whatever ids are seen |
| EngineEquivalence.AgreeIff | src/storage/engine_col.c:97-112 | That holds of a table if and only if it has at most 64 columns |
| EngineEquivalence.ScanBoth | src/storage/engine_col.c:331-379 | The same of the scans of the two engine objects, for any snapshot or AS OF version |
| EngineEquivalence.RunsMirror | src/storage/engine_col.c:262-329 | Over every trace the columnar state, put together, stays the padded row state, as does the copy a rollback goes back to |
| EngineEquivalence.StepMirrors | src/storage/engine_col.c:262-329 | One operation of either kind keeps that |
| EngineEquivalence.WideTable | src/storage/engine_col.c:97-112 | One inserted row, in any table of more than 64 columns, comes back shorter than the row engine's |
| EngineEquivalence.LookupPadded | src/storage/engine_col.c:157-196 | Padding commutes with every read |
| EngineEquivalence.ScanUnique | src/storage/engine_row.c:555-577 | A full scan is determined by the rows and the ids seen |
| IndexScan.IndexedTable.RangeScan | src/storage/engine_row.c:486-528 | An ascending range scan yields, in key order, one row for each entry whose leading value is inside the bounds and whose row is visible; so only visible rows, and every visible row whose value in the first indexed column is inside. Inside is by NULL, integers, text, blobs and by value, not by the comparison |
| IndexScan.BetweenIntegers | src/storage/engine_row.c:486-528 | Between lo and hi every visible row with leading integer lo <= v <= hi is yielded |
| IndexScan.InsideIff | src/storage/engine_row.c:496-503 | The two bound tests of the loop decide being inside |
| IndexScan.IndexAgrees | src/storage/engine_row.c:486-528 | After the predicate is applied again, its set of rowids equals the full scan's |
| IndexScan.IndexedTable.Insert | src/storage/engine_row.c:260-271 | The version's key joins the index; the index covers every version of every row again |
| IndexScan.IndexedTable.Update | src/storage/engine_row.c:290-332 | The new version's key joins and the old keys stay, so older snapshots are still covered |
| IndexScan.IndexedTable.Remove | src/storage/engine_row.c:334-356 | A tombstone leaves the index alone, and it still covers every version |
| IndexScan.IndexedTable.Apply | src/storage/engine_row.c:162-186 | Adds exactly one key, in order |
| IndexScan.VisibleCovered | src/storage/engine_row.c:359-396 | Whichever version is visible, its key is in a covering index |
| IndexScan.UpdateCovers | src/storage/engine_row.c:290-332 | An update keeps every chain covered, including the version it pushed into the history |
| KeyOrder.Order | src/value/tdb_record.c:169-189 | Comparing keys of at most 16 values is antisymmetric, and equal only for equal keys |
| KeyOrder.Trans | src/value/tdb_record.c:169-189 | and transitive |
| KeyOrder.ValueOrder | src/value/tdb_type.c:110-141 | The same for single values |
| KeyOrder.ValueMeans | src/value/tdb_type.c:110-141 | The comparison is negative, zero or positive exactly as the first value is below, equal to or above the second: NULL below integers below text below blobs, integers by size, bytes by the first difference |
| KeyOrder.BytesMeans | src/value/tdb_type.c:96-108 | Bytes compare as smaller exactly when a proper prefix or with the smaller byte at the first difference |
| KeyOrder.KeyMeans | src/value/tdb_record.c:169-189 | Keys compare as smaller exactly when a proper prefix or with the smaller value in the first column that differs |
| KeyOrder.BelowProbe | src/storage/engine_row.c:468-473 | A one-column probe separates the keys by their leading value alone |
| KeyOrder.Put | src/storage/tdb_btree.c:677-679 | Keys stay sorted and exactly one is added |
| WalLog.RecoveryIsAtomic | src/storage/tdb_wal.c:93-190 | A crash that left any k of the appended frames, followed by data that fails the chain: recovery shows exactly the pages of the batches that lie wholly within the k frames |
| WalLog.RecoveredIsWhole | src/storage/tdb_wal.c:93-190 | and its frame count is the end of the last whole batch |
| WalLog.RevivedIff | src/storage/tdb_wal.c:265-331 | Frames written after recovery over any tail make something of the tail count as committed if and only if the tail behind them holds a commit frame that is intact, like every slot before it, and each of these was written after exactly the frames now in front of it |
| WalLog.NothingRevived | src/storage/tdb_wal.c:265-331 | Over a tail whose commit frames are all torn, as in-order writing leaves it, nothing of it counts |
| WalLog.TailStaysHarmless | src/storage/tdb_wal.c:265-331 | A crash in the middle of such writing leaves a tail of which the same holds |
| WalLog.StaleAdoptedIff | src/storage/tdb_wal.c:50-59 | A slot left over from earlier is taken as the next frame if and only if it was written with these salts after exactly the frames now in front of it |
| WalLog.ReorderedWriteRevives | src/storage/tdb_wal.c:265-331 | If a commit frame reached the disk before a frame ahead of it, rewriting the same two frames makes the lost batch count again |
| Wals.Wal.constructor | src/storage/tdb_wal.c:93-190 | Opening follows the checksum chain as far as it holds and keeps the frames up to the last commit |
| Wals.FollowChain | src/storage/tdb_wal.c:93-190 | The scan loop stops exactly where the chain breaks, with the last commit before it |
| Wals.BuildIndex | src/storage/tdb_wal.c:93-190 | Every page maps to its newest frame |
| Wals.Wal.ReadPage | src/storage/tdb_wal.c:229-263 | The newest image in the log, or word that the file's is current |
| Wals.Wal.Append | src/storage/tdb_wal.c:265-331 | One frame more, chained to the one before, overwriting whatever lay there; the logical content changes at that page only |
| Wals.Wal.AppendBatch | src/storage/tdb_wal.c:265-331 | The file holds the chained frames of the batch from the next slot on and what it held elsewhere; the content is the old content with the batch applied in order |
| Wals.Wal.Checkpoint | src/storage/tdb_wal.c:338-375 | The file then holds the logical content, the log is empty and the salts are new |
| Wals.CheckpointSafe | src/storage/tdb_wal.c:338-375 | A crash at any step of a checkpoint (logged pages holding anything at all in the file, torn images included; after truncation; any header at all, with or without the truncation having reached the disk) leaves the content read log-first unchanged for every page |
| Wals.FoldedLogRejected | src/storage/tdb_wal.c:358-370 | Under the salts a checkpoint writes, no frame of the log it folded is recovered |
| Wals.CopyPages | src/storage/tdb_wal.c:343-352 | Copying each logged page's newest image, in any order, makes the file the logical content |
| WalSessions.SessionsAtomic | src/storage/tdb_wal.c:93-375 | Over every sequence of commits, commits cut short by a crash, checkpoints and crashed checkpoints, each crash followed by recovery: the store, and a reopening of it, show exactly the pages of the commits that completed, in order |
| WalSessions.CutStep | src/storage/tdb_wal.c:265-331 | A commit cut short at any frame, over a tail left by earlier ones, leaves no trace after recovery |
| WalSessions.CommitStep | src/storage/tdb_wal.c:265-331 | A completed commit over such a tail shows exactly its pages more |
| WalSessions.CutPossible | src/storage/tdb_wal.c:265-331 | From every such store any commit can be cut short at any frame, so the sequences above exist |
| WalSessions.CommitCrashReopen | src/storage/tdb_wal.c:93-331 | Through the objects: batches appended, the file cut behind any frame with a torn slot after it, opened again: the view is that of the whole batches |
| PageOwners.PagesConserved | src/storage/tdb_pager.c:212-294 | After every sequence of allocations, frees and writes on a new file, the pages 1..db_size are the disjoint union of the header, the pages handed out and not given back, and the free pages; freelist_count is the number of free ones; trunk entries fit their pages; every owned page holds what its owner last wrote; and the rest of the header is as it was |
| PageOwners.AllocatesUnowned | src/storage/tdb_pager.c:212-254 | In every file so reached allocation finds a page, and it is neither the header nor anybody's |
| FreeList.AllocKeeps | src/storage/tdb_pager.c:212-254 | Allocation, from a leaf entry, from an exhausted trunk or at the end of the file, takes exactly one page from the free set, keeps the list sound and leaves the rest of the header |
| FreeList.FreeKeeps | src/storage/tdb_pager.c:256-294 | Freeing adds exactly one page, as a leaf entry or as a new trunk, keeps the list sound and leaves the rest of the header |
| FreeList.FreeFits | src/storage/tdb_pager.c:256-291 | No trunk page gets more entries than its bytes hold; a new trunk is made exactly when there is none or the first has no room |
| Pagers.Pager.constructor | src/storage/tdb_pager.c:555-641 | What is committed is the database file under the logged pages, with a new header if there is none; the state opened is the committed one if and only if the header in the database file, its size taken from the log, is the logged one. A brand-new header has size 1 and no free pages |
| Pagers.CrashForgetsAllocation | src/storage/tdb_pager.c:566-580 | A page taken off the free-list and committed, then a crash before a checkpoint: the opened header still starts the free-list there, and no chain of trunks makes that list sound |
| Pagers.Pager.Get | src/storage/tdb_pager.c:160-178 | The current image of the page; no state changes |
| Pagers.Pager.Put | src/storage/tdb_pager.c:186-196 | The page changes and becomes dirty; savepoints keep what they recorded |
| Pagers.Pager.Alloc | src/storage/tdb_pager.c:212-254 | Allocation through the cache refines the free-list step |
| Pagers.Pager.Free | src/storage/tdb_pager.c:256-294 | Freeing through the cache refines the free-list step; page 1 and below are refused |
| Pagers.Pager.SetSavepoint | src/storage/tdb_pager.c:393-420 | Pushes the current pages and header on the stack of states |
| Pagers.Pager.Release | src/storage/tdb_pager.c:423-428 | Drops the level and those nested in it; a bad level is refused and nothing changes |
| Pagers.Pager.RollbackTo | src/storage/tdb_pager.c:431-457 | Header and outer levels are restored in every case; every collected page is back as it was at the level, and the whole state is whenever at most 2112 pages are dirty |
| Pagers.RollbackExact | src/storage/tdb_pager.c:431-457 | Every page of the level comes back, whichever pages are collected, if and only if at most 2112 pages are dirty or none has changed since |
| Pagers.TooManyDirty | src/storage/tdb_pager.c:431-457 | 2113 new pages of which some survive rolling back to before the first |
| Savepoints.RollbackRestores | src/storage/tdb_pager.c:393-457 | After any nesting of changes, savepoints, releases and rollbacks inside a savepoint, rolling back to it restores exactly the state that held when it was opened and keeps the outer ones |
| Savepoints.LevelKept | src/storage/tdb_pager.c:393-457 | What a savepoint and those outside it recorded stays recorded, whatever is nested inside |
| Savepoints.ReleaseKeeps | src/storage/tdb_pager.c:423-428 | Releasing it keeps every change and the outer savepoints |
| Pagers.Pager.CollectDirty | src/storage/tdb_pager.c:438-441 | Collects all dirty pages if and only if there are at most 2112 |
| Pagers.Pager.Rollback | src/storage/tdb_pager.c:356-381 | The state is the last committed one, with no savepoints |
| Pagers.Pager.Commit | src/storage/tdb_pager.c:317-354 | The current state is what is durable whenever at most 2112 pages including the header are dirty; no page stays dirty exactly then |
| Pagers.Pager.Vacuum | src/storage/tdb_pager.c:477-542 | Drops exactly the trailing free pages, keeps exactly the free pages at or below the new size, and changes no live page; the result is what is committed when the new list has fewer than 2112 trunks; page size, catalog root, schema cookie and largest id stay; does nothing in a transaction or when the last page is live |
| Pagers.Pager.Rebuild | src/storage/tdb_pager.c:477-542 | The list rebuilt from the kept pages holds exactly those; only the free-list fields of the header change |
| JitRoutines.LoweringCorrect | src/jit/tdb_jit_ir.c:316-377 | For every supported routine, FOR loops included, all arguments and any earlier registers and memory: the generated code halts with v if and only if the routine, with every FOR bound in the one shared cell, returns v; and it never reads an unwritten register or jumps to a missing label |
| JitRoutines.FlatLoweringCorrect | src/jit/tdb_jit_ir.c:29-355 | With no FOR inside another FOR the same holds of the routine as written, each FOR with a bound of its own |
| JitSample.SummingCode | src/jit/tdb_jit_ir.c:29-377 | The code generated for a FOR loop with an IF that sums 1..n halts with that sum, for every n and any earlier registers and memory |
| JitAst.ComparisonAsNumber | src/jit/tdb_jit_ir.c:204-229 | A comparison read as a number is one where it holds and zero where not |
| JitAst.LogicLaws | src/jit/tdb_jit_ir.c:113-146 | AND, OR and NOT are the logical ones |
| JitAst.MaxMinLaws | src/jit/tdb_jit_ir.c:148-188 | MAX and MIN give one of their arguments, by comparison |
| JitRoutines.Follows | src/jit/tdb_jit_ir.c:237-305 | Step for step: enough fuel gives the result in finitely many machine steps, and a routine still looping leaves the machine running |
| JitRoutines.EntryReads | src/jit/tdb_jit_ir.c:336-345 | Parameters start with their arguments, other slots with zero |
| JitExec.BlockSharesSafely | src/jit/tdb_jit_ir.c:281-304 | Without FOR inside FOR, sharing the bound cell cannot be noticed |
| JitExec.NestedForStopsEarly | src/jit/tdb_jit_ir.c:281-304 | A nested FOR for which it can: two turns are due and one is made |
| JitShape.WellFormed | src/jit/tdb_jit_ir.c:98-355 | For every routine: each branch target is defined exactly once, each block has exactly one terminator, and each register is written by exactly one line |
| JitAst.FoldMeans | src/jit/tdb_jit_ir.c:29-58 | Folding never changes an expression's value, as a number or as a condition, for any arithmetic |
| JitExprs.CodeRight | src/jit/tdb_jit_ir.c:113-233 | Expression code leaves the value in its operand and keeps memory and every earlier register |
| JitCorrect.SimOpen | src/jit/tdb_jit_ir.c:237-305 | Each statement's code does what the statement does, wherever it stands in the program |
| JitCorrect.SimFor | src/jit/tdb_jit_ir.c:281-304 | The FOR loop from its test label, for any number of turns |
| JitCorrect.SimWhile | src/jit/tdb_jit_ir.c:269-280 | The WHILE loop from its test label |
| JitCorrect.SimArms | src/jit/tdb_jit_ir.c:253-268 | IF and ELSIF arms and the ELSE body |
| JitEmitter.Emitter.EmitProc | src/jit/tdb_jit_ir.c:316-377 | Refuses exactly the routines in which some expression, reachable or not, holds a string, a concatenation or an unknown function; otherwise the buffer holds the code the theorems are about |
| JitEmitter.Emitter.EmitStmt | src/jit/tdb_jit_ir.c:237-305 | The buffer, counters and flags after one statement, opening a new block after a terminator |
| JitEmitter.Emitter.EmitBlock | src/jit/tdb_jit_ir.c:307-312 | Statements in order, stopping at the first that cannot be lowered |
| JitEmitter.Emitter.EmitBool | src/jit/tdb_jit_ir.c:113-146 | Condition code, and failure exactly for unsupported expressions |
| JitEmitter.Emitter.EmitNum | src/jit/tdb_jit_ir.c:190-233 | Number code, and failure exactly for unsupported expressions |
| JitEmitter.Emitter.EmitCall | src/jit/tdb_jit_ir.c:148-188 | Calls of one and two arguments, MAX and MIN by compare and select |
| RTrees.RTree.Insert | src/storage/tdb_rtree.c:259-288 | The tree holds one entry more, every interior box still covers its subtree, no node is over capacity, the root keeps its page, pages outside the tree are untouched |
| RTrees.RTree.Search | src/storage/tdb_rtree.c:304-329 | Visits exactly the entries whose box meets the query, each as often as it is stored |
| RTrees.RTree.Delete | src/storage/tdb_rtree.c:333-376 | Removes exactly one entry with the rowid and keeps every box covering; when none is found, no stored entry with the rowid meets the box given |
| RTrees.RTree.NodeInsert | src/storage/tdb_rtree.c:210-257 | The same below any node, with the sibling it may hand up |
| RTrees.RTree.AddOrSplit | src/storage/tdb_rtree.c:163-206 | An entry joins a node that has room; a full node's entries are dealt out to it and a new page without loss |
| RTreeSplit.QuadSplit | src/storage/tdb_rtree.c:113-159 | The cap + 1 entries are partitioned, each group getting at least max(1, floor(2 cap / 5)) and at most cap |
| RTreeSplit.Distribute | src/storage/tdb_rtree.c:135-158 | The loop: every choice is made against the covering boxes of the groups as they stand, until one group must take all the rest |
| RTreeSplit.PickSeeds | src/storage/tdb_rtree.c:120-127 | The two seeds are a pair that wastes the most area |
| RTreeSplit.PickNext | src/storage/tdb_rtree.c:145-153 | An unassigned entry with the strongest preference, and the group it prefers |
| RTreeSplit.CoverOf | src/storage/tdb_rtree.c:93-98 | The least box that covers all the entries; the origin for none |
| RTreeSplit.MeetsIff | src/value/tdb_geom.c:254-257 | Two non-empty boxes meet if and only if some point lies in both |
| RTreeSplit.CoversIff | src/storage/tdb_rtree.c:93-98 | A box covers a non-empty one if and only if it holds all its points |
| RTrees.CapacityFits | src/storage/tdb_rtree.c:67-70 | A full node's header and entries fit its page, and one entry more would not |
| RTrees.ChooseChild | src/storage/tdb_rtree.c:223-233 | A child of least enlargement, and of least area among those |
| RTrees.HitsExact | src/storage/tdb_rtree.c:304-324 | Search order and pruning lose and invent nothing |
| RTrees.CoversBelow | src/storage/tdb_rtree.c:93-107 | A box over a node's entries covers every row below it |
| Codec.VarintRoundTrip | src/common/tdb_util.c:6-36 | Reading inverts writing on every 64-bit value, whatever follows it, in at most ten bytes |
| Codec.PutVarint | src/common/tdb_util.c:12-20 | The loop writes unsigned LEB128 (section 7.6 of DWARF Version 5) |
| Codec.GetVarint | src/common/tdb_util.c:22-36 | The loop reads at most ten bytes, keeps 64 bits, and rejects a truncated number |
| Codec.AtMostTenBytes | src/common/tdb_util.c:22-36 | No number read takes more than ten bytes |
| Codec.VarintCut | src/common/tdb_util.c:22-36 | A number that lost its last bytes is malformed |
| Codec.MeasureVarint | src/common/tdb_util.c:6-10 | The number of bytes the writer uses, which is also the length B-tree cells are sized by |
| Codec.SignedRoundTrip | src/value/tdb_record.c:40-52 | Sign extension inverts truncation for every number that fits n bytes |
| Codec.PutBigEndian | src/value/tdb_record.c:40-45 | The loop writes the low n bytes, most significant first |
| Codec.GetBigEndian | src/value/tdb_record.c:47-52 | The loop reads two's complement |
| Codec.BigEndianOrder | src/common/tdb_util.c:40-63 | Comparing big-endian key bytes is comparing the numbers |
| Records.RecordRoundTrip | src/value/tdb_record.c:54-167 | decode(encode(vs)), whatever follows it, counts all values and gives those there is room for, composites coming back as blobs with the same bytes |
| Records.TruncationDetected | src/value/tdb_record.c:113-167 | Every record that lost bytes at its end is reported as corrupt |
| Records.EncodedBytes | src/value/tdb_record.c:54-111 | The bytes of a record with an integer, a text and a blob |
| Records.ColumnRoundTrip | src/value/tdb_record.c:9-38 | Every value is restored from its serial type and body, and the body has the length the type says |
| Records.IntBody | src/value/tdb_record.c:27-52 | The width chosen is wide enough |
| Records.IntNarrowest | src/value/tdb_record.c:27-52 | and no narrower one of 0, 1, 2, 3, 4, 6 and 8 bytes is |
| Records.EncodeRecord | src/value/tdb_record.c:54-111 | The loops write count, serial types and bodies |
| Records.DecodeRecord | src/value/tdb_record.c:113-167 | The loops read them back, keep at most `max` columns, and report corruption for reserved types, bodies past the end and truncated numbers |
| Joins.JoinBuild | src/sql/tdb_exec.c:912-988 | Although candidates are written over the left rows, the result is the left fold of relational joins over the sources, filtered by WHERE |
| Joins.JoinSource | src/sql/tdb_exec.c:924-969 | One source: matched pairs in order, then left rows that match nothing for LEFT and FULL, then NULL-padded right rows that match nothing for RIGHT and FULL; the left rows are as before |
| Joins.JoinRow | src/sql/tdb_exec.c:930-957 | One left row against every right row, restored afterwards, with the matched right rows marked |
| Joins.JoinMembers | src/sql/tdb_exec.c:909-911 | A row is in a join if and only if it is a pair that satisfies ON, or a lone left row, or a lone right row, of a side the join keeps |
| Joins.JoinOrigins | src/sql/tdb_exec.c:924-969 | The join has exactly one row for each matching pair of indices, each lone left index where it keeps left rows and each lone right index where it keeps right rows: by left and then right index, lone right rows last |
| Joins.JoinCounts | src/sql/tdb_exec.c:924-969 | A row occurs as often as there are matching pairs and lone rows that give it |
| Joins.InnerJoinIs | src/sql/tdb_exec.c:909-969 | Any number of inner sources: exactly the combinations of one row from each that satisfy every ON |
| Joins.StillBlank | src/sql/tdb_exec.c:945-951 | Columns of sources not yet joined are NULL in every row, which is what makes overwriting reversible |
| Joins.FilterCounts | src/sql/tdb_exec.c:971-985 | WHERE keeps each satisfying row as often as it was there and no other |
| Joins.FilterPicks | src/sql/tdb_exec.c:971-985 | and they are those at ascending places |
| Locks.LockManager.Acquire | src/txn/tdb_lock.c:76-122 | Grants if and only if every other holder and the request are shared; then the requester holds at least the mode asked for and every other holder exactly what it held; a refusal changes nothing and waits or aborts as the first holder in the way decides |
| Locks.LockManager.ReleaseAll | src/txn/tdb_lock.c:124-136 | On every resource exactly the holders that are not the transaction are left, with their modes |
| Locks.LocksKept | src/txn/tdb_lock.c:76-136 | Over every run a transaction keeps each lock, at least in its mode, until it releases |
| Locks.HeldApart | src/txn/tdb_lock.c:76-136 | After every run nobody else holds what one transaction holds exclusively |
| Locks.RunKeeps | src/txn/tdb_lock.c:76-136 | After every sequence of acquires and releases an exclusive holder is a resource's only holder and each transaction holds it at most once |
| Locks.NoWaitCycle | src/txn/tdb_lock.c:92-113 | Waiting for the deciding holder is acyclic over every table |
| Locks.WaitsForYounger | src/txn/tdb_lock.c:92-113 | Every BUSY is decided against a holder with a larger id |
| Locks.YoungestNeverWaits | src/txn/tdb_lock.c:92-113 | A transaction at least as young as every holder is never told to wait |
| Locks.OlderHolderOverlooked | src/txn/tdb_lock.c:107-114 | A reachable table in which 7 waits behind 9 although the older 5 is in its way too, while 5 waits for 7 |
| Locks.WaitDieIff | src/txn/tdb_lock.c:107-114 | The answer is that of wait-die against all holders if and only if the first holder in the way and the oldest one are on the same side of the requester |
| Locks.BlockersYoungerIff | src/txn/tdb_lock.c:107-114 | Everybody who blocks a waiting transaction is younger than it if and only if the oldest holder in its way is |
| Locks.NoBlockCycle | src/txn/tdb_lock.c:107-114 | When that holds of every wait, no chain of waiters and holders in their way comes back to where it started |

## Left out

- BTrees.BTree.FillLeaf: once a cell does not fit, the model stops filling and sets `torn`; the page bytes the C loop then leaves behind are not modelled.
- BTrees.BTree.Insert: says nothing about a tree after `torn` beyond the loss of a key; keys are 8-byte rowids, so the tree with an index comparator is modelled in `IndexScan` as a sorted list of keys and not page by page.
- BTrees.BTree.Remove: freeing the overflow chain of the removed cell is in `Overflow`, not in the tree; `free_subtree` and `tdb_btree_destroy` are not modelled.
- Cursors.Cursor.Prev: on trees with emptied leaves it may end early, as the code does; the exact reverse order over a whole tree is `EnumerateBack`, for trees without physical deletes.
- SnapshotIsolation.SnapshotsRead: assumes writers do not hold uncommitted changes at the same time; first-committer-wins and serializability are not claimed, since updates make no conflict check.
- TxnManagers.TxnManager.End: a commit that fails and turns into an abort is not modelled.
- TimeTravel.AsOfReads: writers that commit out of id order are left out; `RemoveSeenIff` says where the rule then fails.
- TimeTravel.SessionsRead: a sufficient condition; `ReopenIff` is the exact one, in terms of the stored ids.
- SnapshotIsolation.ForeignRollbackIff: commit failures, which abort a transaction after its pages may have reached the log, are not modelled.
- EngineEquivalence.EnginesAgree: records longer than 64 values, which the columnar engine reads past the end of its arrays, are taken as if it could; index scans of the columnar engine are not modelled.
- KeyOrder.Order: keys of more than 16 values are left out, because the comparison then reads past its arrays; so are reals, and composites, which the codec stores as blobs.
- KeyOrder.Put: the index tree is a sorted list of keys, not pages.
- IndexScan.IndexedTable.RangeScan: ascending BINARY indexes of at most 15 columns without reals or composites, records of at most 32 columns and rowids that fit a signed 64-bit integer; a row can be yielded more than once because old keys stay. Building an index on existing rows, and R-tree driven scans, are not modelled.
- WalLog.RecoveryIsAtomic: page images only; what a reopen takes from the header is in `Pagers.Pager.constructor`. Frames are those of log version 1; compression of version 2 is not part of this model.
- WalSessions.SessionsAtomic: frames reach the disk in the order written (`RevivedIff` says what else can happen); a crash that leaves a checkpoint's new header over the untruncated log is in `CheckpointSafe` only.
- Pagers.Pager.Vacuum: with 2112 trunks or more the committed state is not stated.
- Pagers.Pager.RollbackTo: which pages are collected when more than 2112 are dirty depends on hash buckets and is left open.
- Pagers.Pager.Commit: as for RollbackTo; cache eviction, LRU order and reference counts are not modelled.
- Named savepoints (`src/txn/tdb_txn.c:142-180`) are a lookup in front of the pager's levels.
- JitEmitter.Emitter.EmitProc: lines are a datatype, not text; decimal constants, case-insensitive function names and the intrinsic declarations at the end are not modelled. Functions the lowering knows are classified by arity already.
- JitRoutines.LoweringCorrect: reading a slot no one allocated gives zero; front ends only produce allocated slots. Division by zero is whatever the number type makes of it.
- RTrees.RTree.Search: the visitor never stops early.
- Records.DecodeRecord: the values a failed decode may already have stored are not modelled.
- Joins.JoinBuild: ON and WHERE are pure functions of the combined row; expression evaluation is not modelled.
- Locks.LockManager.Acquire: the two conflict loops of the code, for upgrades and for new requests, are one loop here; hash buckets are a map.
- SQL parsing and execution other than the join, catalog, access control, type coercion, geometry formats, Lua, the LLVM engine, encryption, compression, hashing and the command line are not part of this model.
