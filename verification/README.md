# FluxFS: a verified model of its protocols

FluxFS is a write-back filesystem: a replicated metadata state machine, a client
that copies file data up in 4 MiB windows, content-addressed chunks on several
workers, and write-back to an object store. This project models the protocols
that keep those parts consistent, and proves properties of whole runs.

`dafny verify dfyconfig.toml` checks everything; every module is in the file of
the same name (`HeedStores` is in `HeedStore.dfy`, `PackStores` in `PackStore.dfy`, `Replicas` in `Replica.dfy`).

## How the model is laid out

* **Metadata state machine.** `MetaTables` gives each replicated request its
  meaning as a function from tables to tables and a result. A transaction is
  committed even when the request fails, so a failure returns the tables it
  leaves behind; that a failed request changes nothing is a theorem, not part of
  the definition. `HeedStore` holds the same operations in place, as a class with
  loops, each proved equal to its meaning; `Replica` puts the ledger and the apply
  loop around it. `Admission` says what the server takes on trust from the client.
* **Invariant.** `Namespace` (rooted tree, link counts, open handles), `FileState`
  (locality fields, flush intent, generations, manifest) and `Fencing` (tombstones
  apart from held and reserved chunks) are kept by every request (`NamespaceOps`,
  `DataOps`, `StateMachine`). `NamespaceEffects`, `DataEffects`,
  `AttributeEffects` and `CollectorEffects` say when requests succeed, what they
  change and what they leave alone, in terms of the tables.
* **Runs.** `Versions`, `Runs`, `FlushRuns`, `CollectorRuns`, `HeldChunkRuns` are
  about whole runs; `Ledger`, `Replay`, `Snapshot` about retries, replicas and
  snapshots.
* **Garbage collection.** `GcWorld` puts any number of writers and collectors
  around the tables and the chunk targets; `GcSafety` and `GcTheorem` prove that
  one collector is safe, and any number as long as deletes hit tombstones;
  `GcTwoCollectors` that two are not, nor one with late deletes; `GcReclaim` that a
  pass reclaims what nothing needs.
* **Client.** `Extents` and `DataPath` refine reads, writes and truncation to one
  byte array; `WriteProtocol` feeds them to the collection theorem; `FlushBytes`
  is write-back as readers see it; `PathWalk` and `Handles` are path resolution and
  open-handle counting.
* **Chunk workers.** `Pack` and `PackStore` (append-only segments with crashes),
  `Inventory` and `Repair` (paged k-way merge and the repair walk), `Placement` and
  `Membership`.

Content addresses, tickets and request ids are natural numbers: their byte order,
hexadecimal order and numeric order coincide. The pack store, which writes
addresses to disk, uses their 32 bytes. The content hash is a function parameter,
assumed injective only where a statement says so. Clocks, placement hashes, codecs
and remote failures are parameters.

Four properties one might expect are false of the code, and are stated exactly:

* `open` of a pack store seeds both segment counters with 1, so its first roll
  truncates the segment in use, and the stale index entries that remain can make
  every later compaction fail (`Pack.FirstRollLosesAll`, `Pack.LossExample`).
  `Pack.PutSafeIff` says exactly when a put is safe; `PackStores.PackRunRefines`
  holds from `open` on for runs that heed it, `PackStores.UnheededLoses` is what
  happens to the others. Any compaction, and any roll of a store that heeds it,
  ends the danger.
* Two collectors at once lose data, and so does one collector whose failed delete
  arrives late: `GcTwoCollectors.TwoCollectorsLoseChunk` and `LateDeleteLosesChunk`
  are runs from a fresh store, `GcSafety.DeleteSafeIff` and
  `GcTheorem.FencedDeletesAreSafe` the conditions.
* Between the publish and the commit of a flush, a file that was copied up only in
  part cannot be read (`FlushBytes.PartlyCopiedBreaks`);
  `FlushBytes.PendingReadableIff` is the condition.
* A snapshot does not reproduce ledger rows with a zero stamp
  (`Snapshot.RoundTripExactIff`).

## Model

| member | source | states |
|---|---|---|
| NamespaceOps.CreateKeepsTree | crates/meta/src/heed_store.rs:1684-1764 | Creating a node keeps the rooted tree: no dangling entry, one name per directory, link counts exact, everything reachable. A failed create changes nothing. |
| NamespaceOps.LinkKeepsTree | crates/meta/src/heed_store.rs:1766-1806 | A hard link keeps the rooted tree and exact link counts; a failed link changes nothing. |
| NamespaceOps.UnlinkKeepsTree | crates/meta/src/heed_store.rs:2174-2199 | Unlinking keeps the rooted tree, and the error for an exhausted link count is unreachable, so a failed unlink changes nothing. |
| NamespaceOps.RmdirKeepsTree | crates/meta/src/heed_store.rs:2293-2320 | Removing a directory keeps the rooted tree; a failed rmdir changes nothing. |
| NamespaceOps.RenameKeepsTree | crates/meta/src/heed_store.rs:2323-2429 | Renaming, with or without replacement, keeps the rooted tree, touches file data only by deleting what it replaces, and changes nothing when it fails although it bumps two parents and clears the destination step by step. |
| NamespaceOps.OpenKeepsTree | crates/meta/src/heed_store.rs:2201-2217 | Opening keeps the tree and points only at existing regular files. |
| NamespaceOps.CloseKeepsTree | crates/meta/src/heed_store.rs:2219-2230 | Closing keeps every stored inode named or open, and reaps what is neither. |
| NamespaceOps.RecoverKeepsTree | crates/meta/src/heed_store.rs:2232-2259 | Recovering a session drops its handles and keeps the tree. |
| Namespace.NoCycle | crates/meta/src/heed_store.rs:2323-2429 | In a rooted tree no chain of names leads back to its start. |
| Namespace.MoveReach | crates/meta/src/heed_store.rs:2401-2429 | Moving a name keeps everything reachable from the root provided it does not move below itself. |
| NamespaceEffects.CreateEffect | crates/meta/src/heed_store.rs:1684-1764 | A create succeeds exactly for a usable free name in a directory at the expected generation; it adds that name for a fresh inode that has the requested type, mode, owner and target in every field, bumps the parent once with its times, and changes no other record; a refusal names its reason and changes nothing. |
| NamespaceEffects.CreateInherits | crates/meta/src/heed_store.rs:1753-1762 | The new child gets exactly the attributes its parent's default ACL gives it, with that value, and no other inode's attributes change. |
| NamespaceEffects.LinkEffect | crates/meta/src/heed_store.rs:1766-1806 | A link succeeds exactly for a named non-directory under a usable free name; it adds one name and one link, and of the inode only generation and change time move. |
| NamespaceEffects.UnlinkEffect | crates/meta/src/heed_store.rs:2174-2199 | An unlink removes that name; the inode and everything recorded for it goes exactly when it was its last name and nobody has it open, and otherwise loses one link. |
| NamespaceEffects.RmdirEffect | crates/meta/src/heed_store.rs:2293-2320 | A rmdir succeeds exactly on an empty directory in a parent at the expected generation; it removes the directory with its name and everything recorded for it, bumps the parent and changes no other record. |
| NamespaceEffects.RenameEffect | crates/meta/src/heed_store.rs:2323-2429 | A rename succeeds exactly when names, parents and target allow it and no directory moves below itself; success moves the name, bumps each parent once, leaves the inode all but its generation and change time, takes one name from what it replaces, and touches nothing else. |
| NamespaceEffects.RefusedRename | crates/meta/src/heed_store.rs:2356-2400 | A rename that is not allowed changes nothing and answers with the first reason in the order of the checks. |
| NamespaceEffects.ImportEffect | crates/meta/src/heed_store.rs:1906-1967 | An import succeeds exactly for a usable free name, an external record and a writable parent; the inode is the template under a fresh id with its own manifest and that manifest's size. |
| NamespaceEffects.CloseEffect | crates/meta/src/heed_store.rs:2219-2230 | Closing drops the hold, and the inode with everything recorded for it exactly when it has no name and nobody else has it open. |
| NamespaceEffects.RecoverEffect | crates/meta/src/heed_store.rs:2232-2259 | Recovery drops every hold of the session and exactly the inodes that nothing else kept, with everything recorded for them. |
| HeedStores.HeedStore.ImportExternal | crates/meta/src/heed_store.rs:1906-1967 | The step-by-step import ends in the defined tables on every path. |
| HeedStores.HeedStore.SetXattr | crates/meta/src/heed_store.rs:1808-1864 | With count and size taken by a loop over the inode's rows, setting an attribute has the defined checks and result. |
| HeedStores.HeedStore.RemoveXattr | crates/meta/src/heed_store.rs:1866-1890 | Deleting first and noticing the absence afterwards has the defined result and changes nothing when there was no row. |
| HeedStores.HeedStore.PutInodeCas | crates/meta/src/heed_store.rs:2005-2044 | The field-by-field comparison accepts exactly records that differ in mode, owner, times and generation. |
| HeedStores.HeedStore.Unlink | crates/meta/src/heed_store.rs:2174-2199 | The step-by-step unlink ends in the defined tables and result. |
| HeedStores.HeedStore.Rmdir | crates/meta/src/heed_store.rs:2293-2320 | The step-by-step rmdir ends in the defined tables and result. |
| HeedStores.HeedStore.IsDescendant | crates/meta/src/heed_store.rs:2444-2479 | The depth-first search terminates and answers exactly whether a path of names leads from the ancestor to the candidate. |
| HeedStores.HeedStore.CheckRename | crates/meta/src/heed_store.rs:2364-2400 | The checks before a rename return the defined error, using the search for the cycle check. |
| HeedStores.HeedStore.Move | crates/meta/src/heed_store.rs:2401-2429 | Bumping both parents, clearing the destination and moving the entry ends in the defined tables, also when a step fails. |
| HeedStores.HeedStore.Rename | crates/meta/src/heed_store.rs:2323-2429 | The whole rename, checks and changes, ends in the defined tables and result. |
| HeedStores.HeedStore.RemoveOneLink | crates/meta/src/heed_store.rs:2481-2499 | Taking a link away keeps the inode while it is named or open and deletes it otherwise. |
| HeedStores.HeedStore.DeleteInode | crates/meta/src/heed_store.rs:2501-2537 | The deletion loops remove exactly the inode and its reservations, attributes and presences. |
| HeedStores.HeedStore.CloseInode | crates/meta/src/heed_store.rs:2219-2230 | Closing drops the presence and reaps an unnamed, unopened inode. |
| HeedStores.HeedStore.RecoverSession | crates/meta/src/heed_store.rs:2232-2259 | Reaping one inode after the other deletes exactly the set of unnamed inodes that only the session kept. |
| HeedStores.HeedStore.Reserve | crates/meta/src/heed_store.rs:2630-2669 | The chunk loop refuses exactly when some chunk is tombstoned; an equal retry of a ticket succeeds, another one is refused. |
| HeedStores.HeedStore.ExpireReservations | crates/meta/src/heed_store.rs:2682-2702 | The loop drops only tickets whose deadline has passed, exactly as many as are due or allowed, each before every due one that stays in (deadline, ticket) order, and alters none. |
| CollectorEffects.ExpireEffect | crates/meta/src/heed_store.rs:2682-2702 | The same of the request: nothing but those tickets changes. |
| HeedStores.HeedStore.TombstoneBatch | crates/meta/src/heed_store.rs:2741-2813 | The mark and sweep loops tombstone exactly the candidates that are neither held nor reserved and drop exactly the manifests nobody holds. |
| CollectorEffects.TombstoneEffect | crates/meta/src/heed_store.rs:2741-2813 | A batch puts a fresh tombstone exactly on the candidates that no inode's manifest and no reservation refers to, and drops exactly the manifests no inode has. |
| HeedStores.HeedStore.FinalizeTombstones | crates/meta/src/heed_store.rs:2815-2834 | The loop removes tombstones up to the first one that is missing or not done. |
| CollectorEffects.FinalizeEffect | crates/meta/src/heed_store.rs:2815-2834 | For every list: the finished tombstones up to the first missing or unfinished one are removed, and success means all are gone. |
| HeedStores.HeedStore.InitializeTargets | crates/meta/src/heed_store.rs:2836-2856 | The loop records targets on tombstones that have none yet. |
| CollectorEffects.InitializeEffect | crates/meta/src/heed_store.rs:2836-2856 | For every list: exactly the tombstones without targets get them, up to the first chunk without a tombstone. |
| HeedStores.HeedStore.AcknowledgeDeletes | crates/meta/src/heed_store.rs:2858-2878 | The loop takes acknowledged targets off the pending sets. |
| CollectorEffects.AcknowledgeEffect | crates/meta/src/heed_store.rs:2858-2878 | For every list: exactly the reported targets leave the pending sets, up to the first chunk that awaits none. |
| HeedStores.HeedStore.ApplyRequest | crates/meta/src/heed_store.rs:369-802 | Whatever the request, the in-place store ends in the tables and with the reply the request means. |
| Replicas.ReplicaStore.Prune | crates/meta/src/heed_store.rs:898-928 | The loop drops only expired rows, exactly as many as have expired or are allowed, each before every expired one that stays in (expiry, id) order, and alters none. |
| Replicas.PruneEffect | crates/meta/src/heed_store.rs:898-928 | The same of the ledger function every other ledger theorem is about. |
| Replicas.ReplicaStore.ApplyEntry | crates/meta/src/heed_store.rs:369-802 | Tables, ledger, marker and reply after one entry: a retry is answered from the ledger, a full ledger refuses, anything else is executed and remembered. |
| Replicas.ReplicaStore.ApplyEntries | crates/meta/src/raft_sm.rs:260-300 | The apply loop ends in the store the log means, gives each entry the reply it means there, and keeps the invariant. |
| Replicas.LogKeepsInv | crates/meta/src/raft_sm.rs:260-300 | The invariant holds after every prefix of every log, retries, refusals and pruning included. |
| Fencing.FenceIsDisjointness | crates/meta/src/heed_store.rs:2741-2813 | The per-inode fence is disjointness of tombstones from the held and the reserved chunk sets the collector computes. |
| Fencing.ReserveKeepsFence | crates/meta/src/heed_store.rs:2630-2669 | Reservations are granted only off tombstones, and a refusal changes nothing. |
| Fencing.TombstoneKeepsFence | crates/meta/src/heed_store.rs:2741-2813 | Tombstoning never touches a held or reserved chunk and drops no held manifest. |
| DataOps.CommitReservedKeepsInv | crates/meta/src/heed_store.rs:2704-2739 | A reserved commit keeps tree, file state and fence; refused, it changes nothing. |
| DataOps.CommitUnreservedKeepsInv | crates/meta/src/heed_store.rs:1969-2003 | A commit without local chunks keeps the invariant; refused, it changes nothing. |
| DataOps.CasKeepsInv | crates/meta/src/heed_store.rs:2005-2044 | An attribute compare-and-set cannot touch data, names or handles; refused, it changes nothing. |
| DataOps.SetXattrKeepsInv | crates/meta/src/heed_store.rs:1808-1864 | Setting an attribute keeps the invariant; refused, it changes nothing. |
| DataOps.RemoveXattrKeepsInv | crates/meta/src/heed_store.rs:1866-1890 | Removing an attribute keeps the invariant; refused, it changes nothing. |
| DataOps.ImportKeepsInv | crates/meta/src/heed_store.rs:1906-1967 | Importing a record the client builds keeps the invariant and either goes through or changes nothing. |
| DataOps.ImportAtomic | crates/meta/src/heed_store.rs:1906-1967 | Whatever record it carries, an import whose manifest holds an extent tree - ordered, no empty extent - goes through or changes nothing. |
| DataOps.BeginFlushKeepsInv | crates/meta/src/heed_store.rs:2046-2085 | Recording an intent freezes a dirty head and keeps the invariant. |
| DataOps.CommitFlushKeepsInv | crates/meta/src/heed_store.rs:2087-2147 | Resolving an intent keeps the invariant, clean files being one range over their object. |
| DataOps.FailFlushKeepsInv | crates/meta/src/heed_store.rs:2149-2172 | Recording a conflict keeps the invariant. |
| DataEffects.CommitEffect | crates/meta/src/heed_store.rs:2704-2739 | A reserved commit goes through exactly with its live ticket for exactly the chunks, at the expected generation and without an intent; it adds one manifest under a fresh id, stores the given record with it, uses the ticket up and changes nothing else. |
| DataEffects.CommitUnreservedEffect | crates/meta/src/heed_store.rs:1969-2003 | A commit without a ticket goes through exactly for a manifest without local chunks, under the same checks and with the same effect. |
| DataEffects.BeginFlushEffect | crates/meta/src/heed_store.rs:2046-2085 | An intent is recorded exactly for a dirty, unflushed regular file at the head it was made for; every field but the intent, the operation, the label and the generation stays. |
| DataEffects.CommitFlushEffect | crates/meta/src/heed_store.rs:2087-2147 | A flush commits exactly under the recorded intent at the expected generation; the file keeps owner, times, size and head, is clean, pins the published object and its version, and every other record stays. |
| DataEffects.CommitFlushManifest | crates/meta/src/heed_store.rs:2112-2132 | The manifest of a committed flush is one range over the whole object, or none for an empty file. |
| DataEffects.FailFlushEffect | crates/meta/src/heed_store.rs:2149-2172 | An intent is given up exactly under its id at the expected generation; head, manifest and pinned object stay, and the file is in conflict with the reason given. |
| DataEffects.LabelMeans | crates/types/src/lib.rs:284-306 | In every state the label shown to users means what it says: flushing exactly while an intent is recorded, dirty, conflict, clean and external exactly by data state and origin, ephemeral exactly by backing. |
| AttributeEffects.SetXattrEffect | crates/meta/src/heed_store.rs:1808-1864 | An attribute is set exactly at the expected generation, under a name of the four namespaces, with a value that fits and, for an ACL, is one, where the mode allows it and the inode has room; it then has the given value and nothing else but generation and change time moves. |
| AttributeEffects.RemoveXattrEffect | crates/meta/src/heed_store.rs:1866-1890 | An attribute is removed exactly where there is one at the expected generation, and nothing else changes. |
| AttributeEffects.PutInodeCasEffect | crates/meta/src/heed_store.rs:2005-2044 | A compare-and-set stores exactly the given record, and only one of the next generation that differs in mode, owner and times. |
| AttributeEffects.AclIff | crates/meta/src/heed_store.rs:3845-3888 | A value passes the ACL check exactly when it is the bytes of a list of entries with owner, group and others once, at most one mask, and a mask when somebody is named. |
| StateMachine.EmptyStoreInv | crates/meta/src/heed_store.rs:173-213 | A fresh store satisfies the whole invariant. |
| StateMachine.ExecuteSound | crates/meta/src/heed_store.rs:369-802 | Every request keeps tree, file state and fence, and - the multi-chunk collector requests aside - a request that returns an error leaves every table as it was although its transaction commits. |
| Versions.ExecuteEvolves | crates/meta/src/heed_store.rs:369-802 | Every request that changes a record, a directory's entries or an inode's attributes raises that inode's generation; ids and manifest ids are never reused and stored manifests never change. |
| Runs.RunKeepsInv | crates/meta/src/raft_sm.rs:260-300 | The invariant holds in every state of every run. |
| Runs.GenerationIsVersion | crates/meta/src/heed_store.rs:1969-2044 | Two states of a run that agree on an inode's generation agree on its record, its entries and its attributes. |
| Runs.CommitSeesCurrent | crates/client/src/lib.rs:1041-1049 | A commit computed from an earlier read is, if it passes the generation check, computed from the current record. |
| Runs.PresenceStays | crates/meta/src/heed_store.rs:2201-2291 | Only closing a handle or recovering its session removes its presence row. |
| Runs.OpenFileSurvives | crates/meta/src/heed_store.rs:2201-2291 | From open to close the file stays stored, unlinked or not, and none of its chunks is tombstoned. |
| FlushRuns.ContentChangesOnlyByData | crates/meta/src/heed_store.rs:369-802 | Size, manifest, generations, fields and intent of a file change only through commit and flush requests addressed to it. |
| FlushRuns.FrozenStep | crates/meta/src/heed_store.rs:1995-1997 | No request moves the head of a file whose intent stays recorded. |
| FlushRuns.FrozenRun | crates/meta/src/heed_store.rs:2046-2172 | Throughout the time an intent is recorded the file's data is the snapshot. |
| FlushRuns.FlushCommitsClean | crates/meta/src/heed_store.rs:2087-2147 | A flush that commits always takes the clean branch: its conflict arm is dead. |
| FlushBytes.CommitShowsObject | crates/meta/src/heed_store.rs:2087-2147 | After a verified publish is committed, readers see exactly the published object. |
| FlushBytes.PendingReadableIff | crates/client/src/lib.rs:816-897 | While the intent is recorded, across any change of the backing store including the publish, a file that pins a tag can be read exactly when none of its ranges lies over an object whose tag changed, and then it shows the snapshot. |
| FlushBytes.UntaggedShowsSnapshot | crates/ufs/src/read_path.rs:200-212 | A pending file that pins no tag shows the snapshot before and after the publish. |
| FlushBytes.AlignedKept | crates/client/src/lib.rs:989-1051 | Writes and truncations leave every range of a file over the same object at the file's own offsets. |
| FlushBytes.PartlyCopiedBreaks | crates/ufs/src/lib.rs:320-326 | A run from a fresh store: an imported file, copied up in its first window, with an intent recorded, can be read while its object keeps its tag and not once the tag has changed. |
| FlushBytes.FlushKeepsBytes | crates/client/src/lib.rs:602-679 | After the commit the file shows the bytes of the snapshot, however many crashes and retries came in between. |
| CollectorRuns.FinalizeRemoves | crates/meta/src/heed_store.rs:2815-2834 | Finalizing removes only listed tombstones that wait for nobody, and alters no other. |
| CollectorRuns.AwaitsUntilAcknowledged | crates/meta/src/heed_store.rs:2815-2878 | A target stops being awaited only by its own acknowledgement, or because the chunk is tombstoned afresh. |
| CollectorRuns.FinalizedAfterAcknowledgements | crates/meta/src/heed_store.rs:2815-2878 | Between initialization and finalization every recorded target has acknowledged. |
| HeldChunkRuns.HeldGrowsByCommit | crates/meta/src/heed_store.rs:2704-2739 | Only a reserved commit makes inodes hold further chunks, and only the ones it brings. |
| HeldChunkRuns.ReservationsShrink | crates/meta/src/heed_store.rs:2630-2702 | Only a reserve request adds a reservation, and none is ever altered. |
| GcSafety.StepKeeps | crates/client/src/lib.rs:711-798 | With any number of collectors, every step of writers, repair, collectors and other clients keeps every held chunk in place, provided a delete that reaches a target finds its chunk tombstoned. |
| GcSafety.DeleteSafeIff | crates/client/src/lib.rs:780-784 | A delete keeps every held chunk in place exactly when its chunk is not held or is on another target. |
| GcTheorem.StartInv | crates/client/src/lib.rs:711-758 | A fresh store over targets with arbitrary leftovers satisfies the safety invariant. |
| GcTheorem.HeldChunksStayPlaced | crates/client/src/lib.rs:1206-1243 | With any writers that reserve, put, commit, abort, stall or vanish, and one collector that may vanish between steps, every local chunk of every held manifest stays on some target, in every state of every run in which no delete of a failed call arrives after the tombstone is gone. |
| GcTheorem.FencedDeletesAreSafe | crates/client/src/lib.rs:711-798 | With any number of collectors and late deletes, runs in which every delete hits a tombstoned chunk keep every held chunk on some target. |
| GcReclaim.OrphanIsReclaimed | crates/client/src/lib.rs:760-798 | From every state, a pass over a chunk nothing needs ends with the chunk on no target and without a tombstone, and with every other chunk, name and record as before. |
| GcTwoCollectors.TwoCollectorsLoseChunk | crates/client/src/lib.rs:760-798 | For every chunk left on a target, a run of allowed steps with two collectors from a fresh store ends with a held chunk on no target. |
| GcTwoCollectors.SecondDeleteLosesChunk | crates/client/src/lib.rs:760-798 | From every state in which a collector is about to delete a chunk a writer prepares to store, and a second delete of it is pending, the loss can follow. |
| GcTwoCollectors.LateDeleteLosesChunk | crates/client/src/lib.rs:780-784 | So does a run with one collector, one of whose failed deletes arrives late. |
| WriteProtocol.ChangeIsPreparable | crates/client/src/lib.rs:1206-1243 | What a write or truncation prepares is a commit the safety theorem covers: its chunks are staged or held by the manifest it was read from. |
| WriteProtocol.ChangeIsAccepted | crates/meta/src/heed_store.rs:2704-2739 | With its ticket live and the record unchanged, the server takes exactly the record and manifest a write or truncation prepares. |
| Extents.ReplaceRange | crates/types/src/lib.rs:782-867 | Replacement fails exactly on an empty range or a cut chunk; otherwise every position inside comes from the new extent, every other from where it came before, in sorted pieces. |
| DataPath.ReadRange | crates/client/src/lib.rs:1245-1317 | A range read over mixed extents succeeds exactly when every extent it touches has the bytes asked of it, and then returns the slice of the file's bytes. |
| DataPath.NoWindowCuts | crates/client/src/lib.rs:989-1051 | No 4 MiB window of the new size cuts into a local extent of the file. |
| DataPath.BuildWindow | crates/client/src/lib.rs:1002-1025 | The window buffer holds the old bytes, zero-extended, under the new data. |
| DataPath.WriteWindow | crates/client/src/lib.rs:1002-1038 | Copying up one window makes exactly its positions show the written file. |
| DataPath.WriteAt | crates/client/src/lib.rs:962-1051 | A write yields a committable change after which the file shows the old bytes overlaid with the data; mode, owner, links and pinned object stay, head and generation go up by one, and mtime and ctime are now. It is refused exactly on directories and conflicts. |
| DataPath.Shorten | crates/client/src/lib.rs:1112-1155 | A cut extent keeps exactly its bytes below the new size; a cut chunk is stored afresh. |
| DataPath.Truncate | crates/client/src/lib.rs:1067-1172 | Truncation yields a committable change after which the file shows its bytes cut or grown with zeros, with the same effect on the record as a write; an equal size changes nothing. |
| DataPath.ChangeIsTree | crates/types/src/lib.rs:617-652 | What a write or truncation builds is an ordered extent tree without empty extents. |
| DataPath.RunOps | crates/client/src/lib.rs:962-1172 | Any sequence of writes and truncations leaves a file that shows what the same operations make of one byte array, with the mode, owner and links of the start, and a head and generation further by exactly the operations that changed something. |
| Pack.RecordReads | crates/chunk/src/pack.rs:300-324 | A framed record reads back from where it was written, whatever follows. |
| Pack.PutDoneView | crates/chunk/src/pack.rs:197-273 | From a store whose chunks all read back, a completed put that does not truncate adds exactly its chunk. |
| Pack.PutCrashSafe | crates/chunk/src/pack.rs:197-273 | From such a store, cut at any point - created file, roll, torn record, before the index commit - such a put leaves the old map or the new one and every chunk readable. |
| Pack.PutSafeIff | crates/chunk/src/pack.rs:197-273 | From a store whose chunks all read back, every durable state of a put shows the old map or the new one exactly when the chunk is already stored or the put does not roll into a segment chunks lie in. |
| Pack.PutEndKeeps | crates/chunk/src/pack.rs:187-273 | On any store a completed put can be read, and every readable chunk outside a truncated segment reads as before. |
| Pack.CompactCrashSafe | crates/chunk/src/pack.rs:423-531 | On any store, cut at any point, a compaction leaves the map unchanged; once committed, the counter is ahead of every segment in use. |
| Pack.RollKeepsIff | crates/chunk/src/pack.rs:222-233 | Creating the segment rolled to keeps the map exactly when no readable chunk lies in it. |
| Pack.FirstRollLosesAll | crates/chunk/src/pack.rs:76-85 | While both counters are 1, a roll empties the map before the new record is written. |
| Pack.LossExample | crates/chunk/src/pack.rs:76-85 | Two puts into an opened store, both completed: the first chunk is gone, and its index entry leads to the record of the second, which makes compaction fail. |
| PackStores.PackStore.Open | crates/chunk/src/pack.rs:54-98 | Opening an empty directory seeds both counters with 1. |
| PackStores.PackStore.Get | crates/chunk/src/pack.rs:275-298 | A lookup answers exactly what the map holds. |
| PackStores.PackStore.Put | crates/chunk/src/pack.rs:187-273 | Callable on every store `open` can lead to: the chunk is there afterwards, the durable state is the defined one, and from a readable store without a truncating roll exactly that chunk is added; an oversize chunk is refused. |
| PackStores.PackStore.Delete | crates/chunk/src/pack.rs:334-349 | On every store, a delete removes exactly its chunk. |
| PackStores.PackStore.FreshSegment | crates/chunk/src/pack.rs:437-445 | The search stops at the first unused segment number from the counter on. |
| PackStores.PackStore.Rewrite | crates/chunk/src/pack.rs:452-478 | Every live chunk reads back from the new segment; the loop stops exactly when some entry leads to a record of another chunk. |
| PackStores.PackStore.Compact | crates/chunk/src/pack.rs:423-531 | On every store compaction keeps the map; it succeeds exactly when no entry is misfiled - always from a readable store - and then leaves one segment, every chunk readable and the counter ahead. |
| PackStores.PackRunRefines | crates/chunk/src/pack.rs:54-531 | From `open` on, any sequence of puts, deletes and compactions, each possibly cut off, refines the same sequence on a map, provided that before the first roll or compaction no put of a new chunk rolls while something is stored. |
| PackStores.UnheededLoses | crates/chunk/src/pack.rs:222-233 | A put in such a run that does roll then can be cut off with a stored chunk lost. |
| Inventory.ListChunks | crates/chunk/src/pack.rs:381-400 | A worker's page is its smallest keys in order, exactly as many as the limit allows, and it reports more exactly when it has more than that. |
| Inventory.InventoryPage | crates/chunk/src/remote.rs:1162-1241 | A page holds the smallest keys not yet contributed, each with exactly the workers that had to contribute it; cursors move only past emitted keys; `more` is true exactly when a key remains. |
| Inventory.ListAll | crates/chunk/src/remote.rs:929-955 | The pages until `more` is false list every chunk of every worker once, ascending, with exactly its holders. |
| Repair.Cluster.RepairChunk | crates/chunk/src/remote.rs:1067-1141 | A chunk is repaired exactly when placement answers and enough of its answer hold the chunk already, or the first holder can be read, enough of the answer are healthy and the lowest missing ones can be written; it is then copied exactly to those and has the required replicas. |
| Repair.Cluster.RepairPass | crates/chunk/src/remote.rs:1043-1149 | A pass succeeds exactly when there are enough healthy workers and every chunk of its page can be repaired with the answer placement gives for it in turn; it then satisfies every chunk of the page and only adds copies of those. |
| Repair.PageProgress | crates/chunk/src/remote.rs:1010-1041 | Every page lowers the sum over workers of keys ahead of their cursors, whatever was copied meanwhile. |
| Repair.Cluster.RepairAll | crates/chunk/src/remote.rs:1010-1041 | The walk terminates although its own copies keep appearing in it and placement may answer differently for each chunk; it succeeds whenever placement names enough healthy workers and no remote call fails; success means every chunk any healthy worker held at the start has the required replicas by an answer placement gave during the walk. |
| Placement.TopSize | crates/chunk/src/placement.rs:26-49 | The best k of a set are min(k, size) many. |
| Placement.ChosenSize | crates/chunk/src/placement.rs:26-49 | With enough eligible workers the selection has exactly the required size. |
| Placement.ChosenSpreads | crates/chunk/src/placement.rs:32-41 | The selection covers min(required, available) failure domains. |
| Placement.ChosenStays | crates/chunk/src/placement.rs:6-50 | Losing any other worker never evicts a chosen one. |
| Placement.UnchosenIsIrrelevant | crates/chunk/src/placement.rs:6-50 | Losing a worker that was not chosen changes nothing. |
| Placement.ChosenIsReplaced | crates/chunk/src/placement.rs:6-50 | Losing a chosen worker replaces exactly that one. |
| Placement.SelectWorkerTargets | crates/chunk/src/placement.rs:6-50 | Exactly the required number of distinct listed workers is selected, each alive, well formed and with room; Busy exactly when fewer such workers are listed; and each outranks every one left out by weighted free space and then id, unless it leads its failure domain and the other does not. |
| Placement.ChosenBest | crates/chunk/src/placement.rs:22-49 | The same preference for the set the other placement theorems are about. |
| Membership.RegisterKeeps | crates/meta/src/heed_store.rs:305-352 | Registration keeps ids ascending and distinct, endpoints distinct, records valid. |
| Membership.RegisterEffect | crates/meta/src/heed_store.rs:305-352 | A registration is taken exactly for a well-formed worker at an address of its own that does not shorten its lease; it is then listed as it registered and everybody else as before, and the epoch moves exactly when more than the lease is new. |
| Membership.MembersStayDistinct | crates/meta/src/heed_store.rs:305-352 | Every membership ever reached has distinct, ordered, valid members, as target selection needs them. |
| Membership.EpochIdentifiesPlacement | crates/meta/src/heed_store.rs:305-352 | In any history equal epochs mean equal placement data. |
| Ledger.PrunedOnlyExpired | crates/meta/src/heed_store.rs:898-928 | Pruning removes expired rows only and alters none. |
| Ledger.CapThroughout | crates/meta/src/heed_store.rs:383-406 | The ledger never exceeds its cap. |
| Ledger.InWindowKept | crates/meta/src/heed_store.rs:898-928 | A row is never lost or altered before it expires. |
| Ledger.ExactlyOnce | crates/meta/src/heed_store.rs:383-406 | A request id executed once is answered identically, without touching tables or ledger, by every later entry in its window. |
| Replay.ExecuteSame | crates/meta/src/heed_store.rs:369-802 | On tables equal up to times, a request under two clocks gives tables and responses equal up to times. |
| Replay.LogDeterministic | crates/meta/src/raft_sm.rs:260-300 | The same log under any clocks gives the same store up to times. |
| Replay.ReplayAfterCrashes | crates/meta/src/raft_sm.rs:260-300 | However often it crashes, a replica has applied each entry up to its marker exactly once. |
| Snapshot.FrameReads | crates/meta/src/snapshot_stream.rs:80-137 | A framed record that fits its length field is read off the stream as its bytes decode, leaving the rest. |
| Snapshot.Export | crates/meta/src/heed_store.rs:1221-1367 | An export succeeds exactly when every record it must write fits a 32-bit length; it then writes the header, every row of every table and the end record. |
| Snapshot.SnapshotTarget.Install | crates/meta/src/heed_store.rs:1394-1588 | Installing replaces the whole store or, on any error, changes nothing. |
| Snapshot.RoundTrip | crates/meta/src/heed_store.rs:1394-1588 | For a codec that reads back the records of the export, installing an export reproduces every table and the ledger with its zero stamps filled in. |
| Snapshot.TripExists | crates/meta/src/heed_store.rs:1221-1588 | Every export of up to 2^32 records has such a codec, so the round trip can be made. |
| Snapshot.RoundTripExactIff | crates/meta/src/heed_store.rs:1544-1569 | Over export and install the store is the same exactly when no ledger row carries a zero stamp. |
| Snapshot.CutFileFails | crates/meta/src/snapshot_stream.rs:94-137 | Any strict prefix of an export fails to install. |
| Snapshot.ForeignFileFails | crates/meta/src/snapshot_stream.rs:94-124 | Another magic, or another version than 1 to 3, is refused. |
| Snapshot.HeaderlessFails | crates/meta/src/heed_store.rs:1582-1586 | A stream without a header is refused. |
| PathWalk.PathComponents | crates/client/src/lib.rs:1609-1634 | Parsing accepts exactly absolute paths whose non-empty parts are neither dots nor too long nor contain NUL, and returns those parts in order. |
| PathWalk.PathRoundTrip | crates/client/src/lib.rs:1609-1634 | Writing usable components as a path and parsing it gives them back. |
| PathWalk.AppendTarget | crates/client/src/lib.rs:1636-1656 | A target keeps the names no later `..` cancels and goes up once for each `..` left over, not above the root; plain names are appended, and only a NUL or an overlong part is refused. |
| PathWalk.UpCancels | crates/client/src/lib.rs:1643-1645 | A name followed by `..` cancels anywhere in a target. |
| PathWalk.ResolvePath | crates/client/src/lib.rs:388-431 | Resolution terminates for every link graph and answers, errors included, what substituting the first link of the whole path and starting over, at most forty times, answers; what it returns is the plain walk of the resolved names. |
| PathWalk.LinkUpwards | crates/client/src/lib.rs:402-424 | A path through a link to `../x` resolves as the path with `x` in the directory above the link's, or in the root. |
| PathWalk.LinkToNames | crates/client/src/lib.rs:402-424 | A path through a link to plain names resolves as the path with those names in the link's directory. |
| PathWalk.LinkFromRoot | crates/client/src/lib.rs:402-424 | A path through a link to `/x` resolves as the path with `x` from the root. |
| PathWalk.PlainPathResolves | crates/client/src/lib.rs:397-431 | A path of directories and a last name that is no link to follow resolves to what it names. |
| PathWalk.PlainPathFails | crates/client/src/lib.rs:397-431 | A missing name is not found, and going on below a file is refused, wherever on the path it happens. |
| PathWalk.BudgetMatters | crates/client/src/lib.rs:402-408 | The bound on expansions matters only to a path that needs more of them, and such a path is refused. |
| Handles.PresenceOnlyByOpen | crates/meta/src/heed_store.rs:2201-2217 | Only opening adds a presence row. |
| Handles.Mount.OpenHandle | crates/client/src/lib.rs:150-164 | Opening counts exactly the successful opens, records exactly the presence, and keeps it in place exactly while the count is positive. |
| Handles.Mount.CloseHandle | crates/client/src/lib.rs:166-184 | Closing counts down, tolerates a duplicate, and closes the presence with the last handle. |
| Handles.Mount.Elsewhere | crates/client/src/lib.rs:150-184 | Nothing else that happens at the server disturbs the correspondence of counts and presences. |
| Handles.OpenFileIsSafe | crates/client/src/lib.rs:150-184 | A file with a positive count is stored and none of its chunks is tombstoned. |

## Left out

- RPC, TLS, FUSE, command line, metrics and the OpenRaft adapters: plumbing around a committed log, which is assumed.
- The stop-the-world collection lease (`begin_gc`, `execute_gc_plan`): it is documented as needing a quiesced system, and its blocking of requests is not modelled.
- The raw `PutInode` request: it overwrites any field and no client path sends it.
- Legacy formats: JSON snapshots, old ledger rows as stored bytes, object directories of the pack store, extent arrays, the schema migration table.
- LMDB, fsync and JSON internals: transactions are atomic, synced writes durable, and the snapshot codec is any one that reads back the records at hand.
- Import listing and discovery of backing-store objects, and changes made to objects behind the filesystem's back.
- Widths: generations, ids, sizes and stamps are unbounded, so saturating and checked additions do not appear; name and session lengths are counted in characters.
- The read cache in front of the backing store, which may still answer for a replaced object.
- Error texts: an error keeps its kind and its numbers, not its message.
- The `extent_root` field of an inode, which nothing in the modelled code reads.
- Setting other attributes together with a size change: a truncation here changes the size only.
- Blank and membership entries of the log, which move only the marker.
- Writers in the collection model read a record and then its manifest; the window loops and the byte contents of chunks are in `DataPath`, not repeated there.
- Worker loss is not a step of the collection model: targets lose chunks only to collectors' deletes, timely or late.
- Repair.Cluster.RepairAll: does not bound replication over the whole walk from above, because a chunk that reappears with part of its holders may be copied to further workers.
