# l2state: a verified model

`l2state` rebuilds Ethereum state in parallel, converts the token balances of the OVM_ETH
contract into native balances, prunes legacy databases in place, and moves state through a
portable record stream. This project models those five cores in Dafny and proves what the
program relies on.

| core | modules | main results |
|---|---|---|
| partitioned traversal | `Traversal`, `Engine*`, `Trie`, `TrieLookup`, `Assembly` | `EngineResult.EveryRun`, `Assembly.AssembleMigratedTrie`, `TrieLookup.LookupFinds` |
| pruning | `PruneWalk`, `PruneKeep`, `PruneWriter`, `Prune`, `PruneRun`, `PruneVerify` | `Prune.RerunsConverge`, `Prune.PrunedMeans`, `PruneVerify.PruneOnce`, `PruneWalk.WalkPruneDifference` |
| OVM conversion | `OvmIndex`, `OvmCursor`, `OvmBalances`, `OvmTransform`, `OvmBatch`, `PatchedTrie`, `OvmConversion`, `OvmMetadata`, `OvmConservation`, `OvmLaws`, `OvmAudit`, `OvmAlloc` | `OvmMetadata.ConvertState`, `OvmLaws.HolderDecided`, `OvmConservation.HolderConserved`, `OvmConservation.NativeTotal` |
| record stream | `Rlp`, `AccountCodec`, `Records`, `RecordIo`, `Bundle`, `Consumer*`, `BundleRoundTrip` | `BundleRoundTrip.ExportImports`, `BundleRoundTrip.ImportExports`, `BundleRoundTrip.ExportThenImport` |
| exact inventory | `Inventory`, `InventoryExact`, `InventoryVerify`, `InventoryLayout` | `InventoryExact.CountingIsExact`, `InventoryVerify.VerifyOpenedTarget` |

`AllocFilter` and `History` model the GenesisAlloc byte filter and the history batcher.
`ByteStrings`, `KeyValue` and `Sums` hold what the others share. `Layouts` states the byte formats position
by position.

How the program's parts appear here:

- Keccak-256 and SHA-256 are function parameters (`Hasher`). A theorem that needs them
  collision free says so, about the values in play only.
- A database is a `map` of byte strings, and its iterator is the sequence of its records in
  key order. A trie under construction is the leaves fed to it. Its root is either the
  definition in Appendix D of the Ethereum Yellow Paper (`Trie.Root`) or a function parameter.
- Objects that the program updates in place are classes. The partition engine, whose state is
  spread over goroutines and channels, is a step relation: one step is one goroutine's move
  between two synchronisation points, any step may fail, and cancellation may come at any
  moment. Workers inside the prune pipeline, the balance batch and the history batch are
  methods that let any unfinished job end next.
- Errors are a `None` or `false` result; which error it was is not kept.

## Model

| member | source | states |
|---|---|---|
| Traversal.ProbeStorage | internal/migration/partition_storage.go:33-70 | the probe takes over a storage trie exactly when it has at most 1024 slots, and then has counted all of it |
| Traversal.PartitionedIsWhole | internal/migration/partition_storage.go:98-136 | the sixteen storage partitions' counts add up to the counts of the whole storage trie |
| Traversal.TraverseTotal | internal/migration/state.go:164-228 | the serial traverser's counts are those of every account plus each distinct code once, whatever the order in which codes are met |
| Traversal.TraverseMeans | internal/migration/state.go:164-228 | the serial totals in terms of the state: its accounts, their slots, the references to code, each distinct code once, one record for each of these, and the sum of their bytes |
| Traversal.PartitionMembers | internal/migration/partition_storage.go:98-136 | a storage partition holds exactly the slots whose key starts with its nibble |
| EngineSteps.MoveSound | internal/migration/partition_accounts.go:60-437 | every move of every goroutine (scan, burst, job, storage partition, merge, failure) keeps the partition invariant, changes slots and leases by exactly what it reports, and lowers the rank |
| EngineSteps.JoinedCounts | internal/migration/partition_storage.go:98-136 | a job that split its storage reports the same counts as one that did not |
| EngineSteps.DrainedRetired | internal/migration/partition_accounts.go:325-376 | when the result channel is closed and empty every job is merged or dropped, nothing is pending, and without a failure everything prepared is merged |
| EngineRuns.StepKeeps | internal/migration/partition_execution.go:68-156 | every step of the whole system, cancellation included, keeps slot and lease conservation and single code claims, and lowers the total rank |
| EngineRuns.RunKeeps | internal/migration/partition_execution.go:158-181 | the invariant holds in every state of every run, and the rank bounds the run's length |
| EngineProgress.SlotsByPhase | internal/migration/partition_accounts.go:209-297 | reads conservation by phase: the job slots that `Conserved` balances against the window are running jobs plus queued results plus pending results (the split itself is by definition; the content is that every reachable state is conserved) |
| EngineProgress.SendsNeverBlock | internal/migration/partition_accounts.go:209-297 | a burst's results never exceed the channel's capacity, so no send ever waits |
| EngineProgress.NeverUnmerged | internal/migration/partition_accounts.go:325-376 | the "unmerged results" error is unreachable |
| EngineProgress.WaiterHoldsNothing | internal/migration/partition_accounts.go:94-148 | a partition waiting for its first slot, or finished, holds no slot and no lease |
| EngineProgress.NeverStuck | internal/migration/partition_execution.go:106-156 | deadlock freedom: every reachable state with unfinished work has a step that needs neither failure nor cancellation |
| EngineProgress.FinishedReturnsAll | internal/migration/partition_execution.go:68-104 | once all partitions have returned, on success, failure or cancellation, every slot and every lease is back |
| EngineResult.LeavesInOrder | internal/migration/partition_accounts.go:401-437 | in every state each partition's trie has received a prefix of its keys, strictly increasing |
| EngineResult.CodesWrittenOnce | internal/migration/partition_accounts.go:176-207 | over all partitions each distinct code hash is written exactly once |
| EngineResult.CountsAreSerial | internal/migration/migrate_partitioned.go:83-118 | the summed counts of a successful run equal the serial traverser's |
| EngineResult.StuckIsFinished | internal/migration/partition_execution.go:158-181 | a reachable state in which no goroutine can move is finished with every slot and lease back, and without failure or cancellation every partition has succeeded |
| EngineFailure.ErrorsAreKept | internal/migration/partition_accounts.go:209-376 | no error is lost: after a step that ends in an error in a partition, its job or its storage partition, no later state of the run shows that partition done |
| EngineEnd.WaitersGiveUp | internal/migration/partition_execution.go:106-156 | once the context is cancelled every goroutine waiting for a lease or a slot can stop without getting one, taking nothing and giving back only the slots of its own results; a storage partition can also stop once a sibling has failed |
| EngineEnd.ReadsEndOnce | internal/migration/partition_accounts.go:94-148 | after a partition has read past its last account, inside a burst or not, it never scans, starts a burst or reads again |
| EngineResult.EveryRun | internal/migration/partition_accounts.go:60-437 | every run under every interleaving is finite, conserves slots and leases, never reports unmerged results, and in every state has fed each trie strictly increasing keys; when no goroutine can move everything has returned, and the run has succeeded unless something failed or cancelled it; a partition in which any goroutine met an error (a failed read, write or assembly, or a wait given up on cancellation) is done in no later state; if the run succeeded, no step was such an error, all keys went to the tries, every code was written once, and the counts are serial |
| Trie.HexPrefixInverse | internal/migration/migrate_partitioned.go:232-262 | decoding a hex-prefixed path gives the nibbles and the leaf flag back, which remounting a partition's root relies on |
| Layouts.HexPrefixLayout | internal/migration/migrate_partitioned.go:232-262 | Appendix C of the Ethereum Yellow Paper by position: flag, parity and odd nibble in the first byte, two nibbles in each other byte |
| Layouts.UnpackAt | internal/migration/migrate_partitioned.go:178-188 | a key's nibbles are its bytes' halves, high half first |
| TrieLookup.LookupFinds | internal/migration/migrate_partitioned.go:209-262 | a reader that follows hashes through the path-keyed nodes from the root finds each leaf's value and nothing under any other key |
| TrieLookup.ShortNodesAreInline | internal/migration/migrate_partitioned.go:190-207 | below the root only nodes of at least 32 bytes are stored |
| Trie.NodeSize | internal/migration/migrate_partitioned.go:190-207 | lower bound on the encoding of any subtrie of 64-nibble keys, by depth |
| Assembly.RangeIsTopNibble | internal/migration/migrate_partitioned.go:178-188 | a 32-byte key lies in a partition's range exactly when its first nibble is the partition |
| Assembly.PartitionValidates | internal/migration/migrate_partitioned.go:190-207 | every partition of any set of leaves passes the result check |
| Assembly.PartitionNodeIsHashed | internal/migration/migrate_partitioned.go:190-231 | every populated depth-1 subtrie encodes to at least 32 bytes, so a branch refers to it by hash |
| Assembly.BranchAssembled | internal/migration/migrate_partitioned.go:219-231 | with two or more populated partitions the branch of their hashes is the whole trie's top node |
| Assembly.RootMounted | internal/migration/migrate_partitioned.go:232-262 | with one populated partition its root, remounted one nibble higher, is the whole trie's top node, and the old node is orphaned exactly when that trie has no node there |
| Assembly.NodesAssembled | internal/migration/migrate_partitioned.go:209-262 | after setting the root and dropping the orphan the path-to-node map is the whole trie's |
| Assembly.AssembleMigratedTrie | internal/migration/migrate_partitioned.go:209-262 | for any leaves, with zero, one or several populated partitions, assembly accepts exactly the whole trie's root and leaves exactly the whole trie's nodes, path by path; reading them from the root finds each leaf and nothing else |
| PruneWalk.MergeCursor.RoleFor | internal/migration/prune_pipeline.go:26-55 | walking the keep set beside the source gives each source record its role by membership, or an error that proves the keep set is not contained in the source |
| PruneWalk.Pipeline.WorkOn | internal/migration/prune_pipeline.go:86-100 | one worker's classification of one pending slot keeps the ring's contents and order |
| PruneWalk.Pipeline.DrainOne | internal/migration/prune_pipeline.go:116-134 | under any worker schedule the oldest slot is delivered next, classified, or the pipeline stops |
| PruneWalk.Pipeline.Drain | internal/migration/prune_pipeline.go:136-143 | draining terminates with the ring empty, or stopped |
| PruneWalk.Pipeline.RoomWhenEmpty | internal/migration/prune_pipeline.go:145-176 | waiting for room never drains an empty ring |
| PruneWalk.Pipeline.Push | internal/migration/prune_pipeline.go:145-192 | a record is delivered directly or queued behind all earlier ones, within the slot and byte limits |
| PruneWalk.WalkPruneDifference | internal/migration/prune_pipeline.go:211-257 | for every schedule: a prefix of the source, in order, once each, with the role of the set definition; success only if the keep map is contained in the source and nothing is foreign, and (without callback errors and cancellation) exactly then |
| PruneWriter.Writer.Put | internal/migration/prune_keep.go:66-97 | a put succeeds only if nothing has failed and the value hashes to its key, and then the store holds it, whichever shard and batch it is in; a good put fails only when a batch cannot be written, and failures are latched |
| PruneWriter.Writer.Close | internal/migration/prune_keep.go:106-135 | a successful close leaves the keep database holding exactly what was put; it fails only after a failure or when a batch cannot be written |
| PruneKeep.Get | internal/migration/prune_keep.go:142-151 | reading a record through the recording database puts exactly that record into the keep writer |
| PruneKeep.TraverseState | internal/migration/prune.go:267-298 | a traversal in any visiting order succeeds only on a complete state, has then put exactly the records it read into the keep writer (if there is one), and fails on a complete state only when a write fails |
| PruneKeep.ReadsAreLocal | internal/migration/prune_keep.go:137-151 | deleting records that a traversal does not read leaves it complete and reading the same records |
| Prune.DeletionKeeps | internal/migration/prune.go:331-369 | deleting any set of candidates changes neither the keep set nor which other records are candidates |
| Prune.PrunedMeans | internal/migration/prune.go:254-329 | a database can be pruned exactly when head and genesis are known, the genesis roots and everything reachable from the head can be read under their hashes; pruning leaves exactly the reachable records, the genesis roots and every record not stored under the hash of its value, unchanged |
| Prune.RerunsConverge | internal/migration/prune.go:76-200 | crash idempotence: after any number of runs stopped anywhere the database is the first one less some candidates, every protected record is unchanged, the keep set is rebuilt the same, and an uninterrupted run ends in the same database |
| PruneRun.DeletesAreCandidates | internal/migration/prune_pipeline.go:194-209 | the keys the walk marks for deletion are the candidates of the set definition |
| PruneRun.Deleter.Flush | internal/migration/prune.go:331-369 | a batch is committed whole or not at all, and counted once |
| PruneRun.Deleter.Visit | internal/migration/prune.go:331-369 | after each record the committed and pending deletions together are the candidates seen, and nothing else has gone |
| PruneRun.DeletePruneDifference | internal/migration/prune.go:331-369 | wherever it stops only candidates are gone; if it succeeds all of them are, each counted once; without interruption it succeeds when the keep set is contained and nothing is foreign |
| PruneVerify.DeletionVerifies | internal/migration/prune_scan.go:145-153 | the inventory of what complete deletion leaves passes the comparison |
| PruneVerify.FramedInjective | internal/migration/prune_scan.go:131-143 | the digest's input determines the records: no two inventories share it |
| PruneVerify.AcceptedIsExact | internal/migration/prune_scan.go:145-153 | conversely, an accepted comparison means the database now holds exactly the protected records of before |
| PruneVerify.BuildKeep | internal/migration/prune.go:254-287 | the keep set collected through the writer, genesis root included, is the one the definition gives; without write failures it exists exactly when that one does |
| PruneVerify.ScanDatabase | internal/migration/prune_scan.go:36-62 | a successful scan reports, over the two databases as maps, the keys kept, the 32-byte keys that are neither kept nor the hash of their value, the candidates, and everything but the candidates, each with its number of keys and the bytes of its records |
| PruneVerify.ScanMeans | internal/migration/prune_scan.go:22-62 | the running counters equal those sets' sizes and byte sums |
| PruneVerify.DeletedIsCounted | internal/migration/prune.go:331-369 | what complete deletion reports as deleted is what the preflight counted as candidates, keys and bytes |
| PruneVerify.KeepVerifies | internal/migration/prune.go:289-298 | the keep database alone holds the whole state |
| PruneVerify.VerifyDatabase | internal/migration/prune.go:371-395 | verification accepts only a database with the same head, a complete state, a readable genesis root, the keep set contained, nothing foreign and the same inventory, and without interruption exactly those |
| PruneVerify.LeftVerifies | internal/migration/prune.go:371-395 | what complete deletion leaves passes that verification |
| PruneVerify.PruneOnce | internal/migration/prune.go:76-200 | one run of all phases, with or without compaction: whatever happens only candidates go; a dry run changes nothing; a verified run ends in the pruned database; without interruption it is verified exactly when the database can be pruned |
| PruneVerify.LeftPrunable | internal/migration/prune.go:371-395 | after complete deletion the same keep set is found, contained, with nothing foreign |
| OvmIndex.Index.Put | internal/migration/ovm_input.go:238-246 | a batched put changes one entry of the index's contents, flushed or not |
| OvmIndex.Index.Address | internal/migration/ovm_input.go:267-276 | indexing an address keeps every balance entry under the slot of its own address |
| OvmIndex.Index.Allowance | internal/migration/ovm_input.go:278-289 | indexing an allowance adds both parties' balance slots and the allowance slot, and keeps that invariant |
| OvmIndex.NamespaceIndexed | internal/migration/ovm_input.go:267-289 | an index filled this way gives the conversion a balance namespace in which slot and address determine each other |
| OvmIndex.SlotLayouts | internal/migration/ovm_input.go:267-289 | balances are the mapping at slot 0 and allowances the mapping of mappings at slot 1, owner inside, keys padded on the left, all hashed once more |
| OvmCursor.Cursor.Get | internal/migration/ovm_storage_cursor.go:32-62 | for increasing queries the cursor returns what a map lookup would, after at most eight advances and one reseek |
| OvmCursor.ClassifySlot | internal/migration/ovm_transform.go:311-337 | a slot's class is exact-one membership in the three namespaces |
| OvmCursor.ClassifyStorage | internal/migration/ovm_transform.go:261-309 | the scan gives every slot of the storage trie that class |
| PatchedTrie.RebuildPatchedTrie | internal/migration/ovm_transform.go:414-465 | the trie builder receives strictly increasing keys, and together they are the old leaves overridden by the patches, empty patches deleting |
| OvmTransform.Transformer.ApplyBalance | internal/migration/ovm_transform.go:339-369 | with 256-bit wrap-around spelled out: totals, counters and patches become those of the slots applied so far plus this one, and it fails exactly when the sum of balances overflows |
| OvmTransform.Applied | internal/migration/ovm_transform.go:339-369 | the step's effect on every running total equals the definition over the larger set of slots |
| OvmBatch.Batch.Work | internal/migration/ovm_balance_pipeline.go:55-86 | whichever inspection ends next, queued jobs stay in order and are as inspected, or the run has a reason to fail |
| OvmBatch.Batch.Submit | internal/migration/ovm_balance_pipeline.go:35-53 | a job is queued after at most one drain; the queue never exceeds twice the workers |
| OvmBatch.Batch.Drain | internal/migration/ovm_balance_pipeline.go:107-123 | queued jobs are applied once each in submission order, or some holder cannot be inspected or the balances overflow |
| OvmConversion.RecordReads | internal/migration/ovm_balance_order.go:14-66 | a staged job record reads back as its address, slot and value |
| OvmConversion.QueueBalances | internal/migration/ovm_transform.go:261-309 | staging succeeds exactly when every leaf can be read and owned, and then holds one job per holder under its account hash |
| OvmConversion.InspectOrderedBalances | internal/migration/ovm_balance_order.go:27-66 | every holder is applied exactly once, in account-hash order, or the run fails for a stated reason |
| OvmConversion.TotalsAdd | internal/migration/ovm_transform.go:155-167 | once all holders are applied the total is migrated plus remaining and below 2^256, so the two later error returns are unreachable |
| OvmConversion.TransformOVMState | internal/migration/ovm_transform.go:137-195 | given the known slots, the transform succeeds exactly on the accepted inputs (code present, retention list valid, every leaf owned, every holder's native balance zero, no overflow, supply or audit matched) and leaves exactly the converted leaves and evidence; what those are, holder by holder, is stated by the `OvmLaws` rows |
| OvmMetadata.ShortRecognised | internal/migration/ovm_transform.go:224-242 | every string of at most 31 bytes is recognised from the word that stores it |
| OvmMetadata.ShortExact | internal/migration/ovm_transform.go:224-242 | a word recognised as a short string is exactly that string's word |
| OvmMetadata.LongRecognised | internal/migration/ovm_transform.go:243-247 | every longer string is recognised from its length word, with exactly as many chunks as it takes words |
| OvmMetadata.LongExact | internal/migration/ovm_transform.go:243-247 | a word recognised as a long string is twice a length of at least 32 and below 2^64, plus one |
| OvmMetadata.SlotWords | internal/migration/ovm_transform.go:243-259 | a slot number's word is 31 zeros and the number, and chunk n lies at the hash of the string's slot plus n, modulo 2^256 |
| OvmMetadata.RecognizeString | internal/migration/ovm_transform.go:224-259 | the recogniser adds exactly the chunk slots that the layout calls for, or fails on a malformed layout |
| OvmMetadata.RecognizeMetadata | internal/migration/ovm_transform.go:197-222 | the known slots are slots 2 to 6 and the chunks of the two strings; it fails exactly when a mapping base is not zero, a leaf cannot be read or a string is malformed |
| OvmMetadata.KnownMeans | internal/migration/ovm_transform.go:197-222 | recognition succeeds exactly when slots 0 and 1 are zero and slots 3 and 4 hold well-formed strings; then exactly slots 2 to 6 and the chunks of those two strings are known |
| OvmMetadata.RecognisedFits | internal/migration/ovm_transform.go:197-222 | recognised metadata always contains the supply slot, as the conversion relies on |
| OvmMetadata.ConvertState | internal/migration/ovm_transform.go:125-195 | the whole transform, metadata included, succeeds exactly when the metadata is recognised and the balances are accepted, and leaves exactly the converted state |
| OvmConservation.NewValue | internal/migration/ovm_transform.go:379-400 | every slot but the supply keeps its value and bytes, except that converted holders' slots become zero |
| OvmConservation.NewSupply | internal/migration/ovm_transform.go:379-400 | the supply slot holds the remaining supply |
| OvmConservation.AccountPatch | internal/migration/ovm_transform.go:359-377 | a converted holder's account changes only its balance, which becomes its token balance |
| OvmConservation.NewBalance | internal/migration/ovm_transform.go:402-412 | the contract's native balance is the remaining supply, a converted holder's is its token balance, and every other account is still there exactly if it was, with the same bytes |
| OvmConservation.HolderConserved | internal/migration/ovm_transform.go:339-369 | from an all-zero-native state every holder but the contract ends with native plus token equal to its token balance before |
| OvmLaws.HolderDecided | internal/migration/ovm_balance_pipeline.go:55-86 | a holder with code that sent tokens or is on the retention list keeps its tokens and its native balance; every other holder has all its tokens made native |
| OvmLaws.HolderAccount | internal/migration/ovm_transform.go:359-377 | a holder's nonce, storage root and code stay as they were |
| OvmLaws.OwnerAfter | internal/migration/ovm_transform.go:168-195 | the contract keeps its nonce and gets the root of its new storage, the replacement code's hash and the tokens left in that storage as native balance |
| OvmLaws.AcceptedMeans | internal/migration/ovm_transform.go:137-167 | the accepted inputs in terms of the state, the namespaces, the retention list and the audit, both directions |
| OvmLaws.EvidenceMeans | internal/migration/ovm_transform.go:339-369 | the evidence counts converted accounts without code, converted contracts and retained contracts, and its amounts are the supply before, the tokens left and the contract's own |
| OvmLaws.AuditedSupply | internal/migration/ovm_audit.go:279-300 | with an audit the balances exceed the supply by exactly the audited gas and self-destructed amounts, and an audit of this height fixes balances, supply and nonzero slots; without one balances and supply are equal |
| OvmLaws.AuditEvidenceMeans | internal/migration/ovm_audit.go:302-322 | the audit evidence of an accepted conversion holds the digest, the sum of the balances and the audited difference, and names the audited block exactly when it is an earlier one; otherwise that block is the head, hash and root |
| OvmConservation.RemainderBacked | internal/migration/ovm_transform.go:379-400 | the contract's native balance equals the new supply slot equals the sum of the balances left in storage |
| OvmConservation.NativeTotal | internal/migration/ovm_migrate.go:411-416 | from an all-zero-native state the sum of all native balances afterwards is the sum of the token balances before |
| OvmConservation.SelfRemains | internal/migration/ovm_transform.go:347-351 | the contract's own balance is part of the remaining supply |
| OvmConservation.EvidenceReconciles | internal/migration/ovm_report.go:199-219 | the evidence of every accepted conversion passes the later checks, with or without an audit, exactly when the audit file's digest is not the zero hash |
| OvmAudit.EvidencePasses | internal/migration/ovm_audit.go:279-322 | for a valid audit, conversion evidence exists exactly when the head matches; the difference is not negative, the audit head is an earlier nonzero block, and the report's check passes exactly when the digest is not zero |
| OvmAudit.ValidateMeans | internal/migration/ovm_audit.go:160-218 | a valid summary starts from equal balances and supply, explains the target's balances and supply by its totals, and attributes their difference to gas and self-destruction alone |
| OvmAudit.BalancesMean | internal/migration/ovm_report.go:199-219 | the report accepts evidence exactly when what was made native and what remains add up to the supply and the audited difference, fit 256 bits and cover the contract's own tokens |
| OvmAlloc.ApplyGenesisAlloc | internal/migration/ovm_alloc.go:16-96 | applying an allocation is a map update of account and storage leaves; old codes stay, each nonempty code is stored under its hash and no other code appears; it fails exactly when a patched account cannot be read |
| OvmAlloc.AccountAfter | internal/migration/ovm_alloc.go:57-96 | a patched account keeps every field the allocation does not set, and an account it does not name keeps its bytes |
| OvmAlloc.FieldsAfter | internal/migration/ovm_alloc.go:57-96 | field by field: nonce, balance and code hash are the allocation's where it sets them, storage it sets gives the root of the patched slots, and the rest is kept |
| OvmAlloc.SlotAfter | internal/migration/ovm_alloc.go:57-96 | slot by slot: a slot the allocation sets holds its value, or is gone when that is zero, and every other slot is kept |
| Rlp.DecodeBytesEncoded | internal/bundle/account.go:36-49 | strict decoding inverts encoding (Appendix B of the Ethereum Yellow Paper) |
| Rlp.DecodeBytesCanonical | internal/bundle/account.go:44-49 | a byte string that strict decoding accepts is the only spelling of what it decodes to |
| Layouts.StringLayout | internal/bundle/account.go:36-42 | a string's encoding by position: itself, one length byte, or the length of the length and the length |
| Layouts.ListLayout | internal/bundle/account.go:36-42 | a list's encoding by position, its items one after another |
| AccountCodec.SlimRoundTrip | internal/bundle/account.go:15-84 | decoding a slim account inverts encoding it |
| Layouts.SlimLayout | internal/bundle/account.go:15-42 | the slim form is four strings: nonce, balance, root and code hash, the last two empty exactly when they are the empty trie's and the empty code's |
| Layouts.FullLayout | internal/migration/state_trie.go:182-196 | the full form is the same four strings with nothing left empty |
| Layouts.ValueLayout | internal/migration/ovm_transform.go:97-109 | a storage value is the string of its big-endian bytes without leading zeros |
| AccountCodec.SlimCanonical | internal/bundle/account.go:44-84 | every accepted slim payload re-encodes to itself |
| AccountCodec.SlimSize | internal/bundle/records.go:32-34 | a slim account is at most 110 bytes and never longer than the full form, so the writer's length checks pass |
| AccountCodec.FullRoundTrip | internal/migration/state_trie.go:182-196 | decoding a full account inverts encoding it |
| AccountCodec.FullCanonical | internal/migration/state_trie.go:182-196 | every accepted full account re-encodes to itself |
| AccountCodec.StorageCanonical | internal/migration/state_trie.go:198-219 | every accepted storage value is the encoding of a nonzero 256-bit word, of at most 33 bytes |
| AccountCodec.StorageRoundTrip | internal/migration/ovm_transform.go:97-109 | every nonzero word's encoding is accepted and decodes to the word |
| Records.ReadFrame | internal/bundle/scanner.go:163-198 | a frame followed by anything reads as its record and stops at its end |
| Layouts.FrameLayout | internal/bundle/records.go:158-196 | a record's bytes by position: type, account hash, slot hash or code hash, eight length bytes, payload |
| Layouts.StreamLayout | internal/bundle/records.go:77-129 | a stream's bytes by position: the magic, each record after those before it, and the terminator |
| Layouts.CountsLayout | internal/bundle/scanner.go:277-288 | the wire counts are the numbers of records of each type and the sum of the payload lengths |
| Records.ReadIsFrame | internal/bundle/scanner.go:200-301 | whatever reads as a record is exactly that record's frame |
| Records.ReadWritten | internal/bundle/records.go:158-222 | scanning what was written gives the same records |
| Records.ReadCanonical | internal/bundle/scanner.go:163-301 | an accepted byte string re-serialises to itself |
| RecordIo.Writer.WritePayload | internal/bundle/records.go:184-196 | for every chunk size the output and the hash input grow by exactly the payload |
| RecordIo.Writer.WriteRecord | internal/bundle/records.go:158-212 | a record is appended exactly when the writer is open and type, key and length are valid; bytes, chain, wire counts and semantic counts stay those of the records written |
| RecordIo.Writer.WriteAccount | internal/bundle/records.go:141-146 | also refused when the slim form is longer than the full one; the semantic counts grow by the full form |
| RecordIo.Writer.Close | internal/bundle/records.go:215-254 | the terminator is written once, and the summary is that of the stream, with the semantic counts |
| RecordIo.Scanner.ReadFull | internal/bundle/scanner.go:246-258 | for every chunk size the requested bytes, or an error exactly when the stream is too short |
| RecordIo.Scanner.ReadPayload | internal/bundle/scanner.go:225-244 | the same, with every byte hashed in order |
| RecordIo.Scanner.Next | internal/bundle/scanner.go:163-198 | each call returns what the format says lies at the position, and the end again after the terminator; chain and counts stay those of the records delivered |
| RecordIo.ScanRecords | internal/bundle/scanner.go:51-78 | a scan succeeds exactly when the bytes are a stream and size, digest, counts and chain match the manifest, and returns its records, for every chunk size |
| Bundle.StateHoldings | internal/migration/state.go:164-228 | the traversal of a valid state carries each code at its first reference only |
| Bundle.HoldingsState | internal/migration/state.go:164-228 | conversely every such sequence is the traversal of the state it describes |
| Bundle.StateMeans | internal/migration/state.go:164-228 | the valid states in raw terms: key order, encoded nonzero values, roots of slots or of the empty trie, referenced codes present, codes under their hashes |
| Bundle.EmissionAt | internal/migration/export.go:200-228 | an account's records by position: the account, its slots in order, and its code when this is the first reference to it |
| Consumer.StepKeeps | internal/migration/bundle.go:141-280 | every record consumed leaves the consumed records equal to the emission of the accounts finished plus the one being read |
| Consumer.EmitAccepted | internal/migration/bundle.go:141-322 | every valid state's emission is accepted record by record |
| Consumer.ScanExact | internal/migration/bundle.go:141-353 | what is accepted is the emission of a valid state with the expected root, and the scan restores that state |
| Consumer.EmissionScans | internal/migration/bundle.go:324-340 | a state's emission is accepted exactly with the state's own root, and is restored |
| Consumer.EmissionUnique | internal/migration/bundle.go:141-353 | equal record sequences mean equal accounts, storage and referenced codes |
| ConsumerCounts.ScanCounts | internal/migration/bundle.go:342-353 | an accepted scan reports the serial traverser's counts of its state |
| ConsumerRun.RecordConsumer.FinalizeAccount | internal/migration/bundle.go:282-322 | an account is finished exactly when its storage root matches and its code has been provided, and the fields follow |
| ConsumerRun.RecordConsumer.Consume | internal/migration/bundle.go:141-155 | the object accepts a record exactly when the transition rules do, and its fields stay those of the progress |
| ConsumerRun.RecordConsumer.Finish | internal/migration/bundle.go:324-340 | finishing succeeds once, exactly when the last account is complete and the state root is the expected one |
| ConsumerRun.ScanBundle | internal/migration/bundle.go:36-103 | running the object over a stream's records accepts exactly what the rules accept with the manifest's semantic counts, and gives the account leaves |
| ConsumerRun.Export | internal/migration/export.go:196-228 | the exporter gives the writer exactly the state's emission and the serial traverser's counts, unless some code does not fit a record |
| BundleRoundTrip.ExportImports | internal/migration/export.go:200-228 | every valid state whose codes fit survives export to bytes and import: accounts, storage and every code referred to |
| BundleRoundTrip.ImportExports | internal/migration/bundle.go:36-103 | every accepted byte string is the export of the state it restores |
| BundleRoundTrip.ExportCounts | internal/migration/bundle.go:92-94 | the semantic counts of an exported bundle are those its import computes, so that comparison never fails on it |
| BundleRoundTrip.RootMeans | internal/migration/bundle.go:282-340 | the state root that import recomputes is that of the accounts' full forms under their hashes |
| BundleRoundTrip.ExportThenImport | internal/migration/bundle.go:36-103 | writer, scanner and consumer run one after the other, for any two chunk sizes: the bytes are the state's bundle and the import accepts them with the manifest the export wrote, unless some code does not fit |
| Inventory.VerifyDatabaseInventory | internal/migration/verify.go:319-405 | one pass accepts exactly when every key is expected metadata with its value or belongs to the state, no metadata is missing, and the counts by kind match |
| InventoryExact.TrackNodes | internal/migration/state_trie.go:150-173 | the node count reported by the traversal is the number of keys its nodes are stored under, in either scheme |
| InventoryExact.VerifyFlat | internal/migration/verify.go:251-312 | the lockstep check accepts exactly when the flat entries are those of the traversal, in order, and no others |
| InventoryExact.HeadApart | internal/migration/head_metadata.go:70-87 | no head metadata key can be a state key |
| InventoryLayout.HeadEntries | internal/migration/head_metadata.go:70-87 | the head metadata's keys, spelled out, are exactly the header, its number, the canonical hash and the two head markers, each with its value (a converted state adds the body) |
| InventoryLayout.PathEntries | internal/migration/verify.go:453-479 | the path metadata's four keys with their values: the root, the RLP of a finished generator, state ID zero and a finished sync |
| InventoryLayout.StateKeys | internal/migration/direct_writer.go:60-135 | under which prefix nodes, codes and flat entries are stored, in either scheme |
| InventoryLayout.PathClasses | internal/migration/verify.go:417-451 | each class of the path scheme is decided by its own key shape, independent of the order in which they are tried |
| InventoryLayout.HashClasses | internal/migration/verify.go:417-451 | and of the hash scheme: nodes under their hash, prefixed nonempty code, nothing else |
| InventoryExact.NothingExtra | internal/migration/verify.go:385-396 | equal counts leave no unreached node and no unreached code |
| InventoryExact.CountingIsExact | internal/migration/verify.go:319-442 | when traversal and inventory accept, the key set is exactly metadata, reachable nodes and reachable code (in the path scheme also the flat leaves and the four path metadata keys with their values) |
| InventoryExact.ExactPasses | internal/migration/verify.go:319-442 | conversely an artifact with exactly those keys passes the inventory |
| InventoryVerify.VerifyPath | internal/migration/verify.go:173-190 | the path metadata and the two flat iterators are accepted exactly when they hold the expected entries in order |
| InventoryVerify.VerifyOpenedTarget | internal/migration/verify.go:141-235 | all checks run over one database accept it exactly when it holds the state's keys and values and nothing else, and the expected counts are the state's |
| AllocFilter.FilterSplit | internal/migration/ovm_alloc_input.go:60-105 | the output is the same for every way of splitting the input |
| AllocFilter.FilterPreserves | internal/migration/ovm_alloc_input.go:85-127 | the output keeps every byte of every string and token in order, and has whitespace exactly where the input had some |
| AllocFilter.FilterCollapses | internal/migration/ovm_alloc_input.go:85-105 | outside strings the output's whitespace is single spaces |
| AllocFilter.FilterIdempotent | internal/migration/ovm_alloc_input.go:85-127 | filtering the output again changes nothing |
| AllocFilter.FilterBounds | internal/migration/ovm_alloc_input.go:107-127 | the filter accepts exactly the texts in which no token, string or other, exceeds the limit |
| AllocFilter.JsonCharacters | internal/migration/ovm_alloc_input.go:85-127 | the bytes treated as whitespace, delimiters, quote and escape are JSON's, and the token limit is that of an escaped code string of 2^20 bytes |
| AllocFilter.Reader.FilterBuffer | internal/migration/ovm_alloc_input.go:85-105 | the in-place compaction computes the filter, its writes never pass its reads, and bytes beyond the chunk are untouched |
| AllocFilter.Reader.Read | internal/migration/ovm_alloc_input.go:60-83 | for any buffer, an empty one included, and any short reads, what has been delivered is the filter of what has been consumed, and a read into a nonempty buffer returns something unless it has ended |
| History.Scanner.Drain | internal/migration/ovm_history_pipeline.go:107-126 | for any decode completion order the queued blocks are accepted in order, all of them exactly when all decode and are accepted, and otherwise a prefix |
| History.Scanner.Take | internal/migration/ovm_history_pipeline.go:48-71 | the next block is queued within the block and byte budgets, or processed alone when larger than the whole budget |
| History.ScanParallel | internal/migration/ovm_history_pipeline.go:39-77 | the scan succeeds exactly when every block is readable, linked to its parent, decodable and acceptable, and has then accepted blocks 0 to head once each in order; a failed scan has accepted a prefix |
| History.GoodMeans | internal/migration/ovm_history_pipeline.go:39-77 | the accepted chains: consecutive numbers from zero, the first block without a parent, each other block's parent the block before, all decodable and acceptable |

## Left out

- Foreign code: Pebble, LevelDB, zstd, snappy, `triedb`, `pathdb` and geth's `StackTrie`. The stream is modelled uncompressed, and `AssembleBranch` and `MountPartitionRoot` are defined from Appendix D of the Ethereum Yellow Paper.
- Filesystem work, publication, locking, reports as JSON, the command line, progress output and resource sizing.
- Counters are unbounded; the wrap-around of the program's 64-bit counters is not modelled. 256-bit balance arithmetic is.
- Which error is returned, and errors of reads and writes outside pruning and the partition engine.
- The moment of cancellation outside the partition engine and the prune walk: there a cancelled context is an error return like any other. Latency and fairness are not stated.
- Deletion of an orphaned node that other tries share in the hash scheme; assembly is stated per trie, for the path scheme.
- EngineResult.EveryRun: recording a failure and cancelling the context are one step, but a cancelled context never forces anyone to fail, and the merge loop may receive any queued result rather than the oldest one; both only add runs.
- EngineResult.EveryRun: an account's storage, code size and RLP are read from fixed data; what the traversal writes besides keys and codes is not part of the engine's state.
- PruneWalk.WalkPruneDifference: the test for foreign keys is a parameter, so the key shapes that count as foreign are not modelled.
- PruneVerify.FramedInjective: the digest's fixed domain prefix is left out, and lengths are assumed to fit 64 bits.
- PruneKeep.TraverseState: which references a trie node or code holds is a parameter; the account and storage trie decoders are not modelled there, and the traversal's counts, which the program compares again after deletion, are not part of it.
- OvmConversion.TransformOVMState: the pool of account readers and the record of the new code are left out.
- TrieLookup.LookupFinds: stated for tries whose root hash is not that of the empty trie, which a reader takes for no trie at all.
- OvmConservation.HolderConserved: stated for addresses whose Keccak hashes collide with no other address or slot of the run.
- OvmLaws.HolderDecided: stated for addresses whose Keccak hashes collide with no other address or slot of the run.
- OvmAudit.EvidencePasses: amounts are integers where the program compares canonical decimal strings.
- OvmAlloc.ApplyGenesisAlloc: the JSON loader and its duplicate check are left out; patches are visited in any order; the clause about codes is stated for codes that Keccak tells apart.
- AccountCodec.SlimRoundTrip: an account's code hash has 32 bytes by type, so the encoder's errors for a nil account, a nil balance or a hash of another length do not arise.
- ConsumerRun.ScanBundle: a trie under construction is the leaves fed to it, so errors of the trie node sink and of visitors do not arise.
- RecordIo.ScanRecords: directory layout, manifest loading and borrowed payload buffers are left out.
- InventoryExact.CountingIsExact: what the traversal has read is a premise, which `InventoryVerify.VerifyOpenedTarget` checks; that trie iteration meets every node once, at a path of nibbles, and leaves in key order is geth's.
- AllocFilter.Reader.Read: the underlying reader returns at least one byte or the end of its input; a reader that returns nothing forever is not modelled.
- History.ScanParallel: reading and decoding a block are given by the chain's data; receipts, blooms, header fields other than number, hash and parent, and the audit's genesis and target checks are left out.
- InventoryVerify.VerifyOpenedTarget: what the traversal visits is given; rebuilding the roots is part of `Assembly` and `Consumer`.
- The serial storage pipeline of `consumeStorage`, the freezer, bundle manifests and the report checkpoint would only add easier members.
