# Ringwin verification

Ringwin is a trading runtime written in Zig with a Python strategy host. This project models its most state-bearing
parts in Dafny and proves what they promise. `dafny verify dfyconfig.toml` checks all of it.

- **Order-history directory** (`History*.dfy`). A copy-on-write B-tree in an append-only object store, each page
  carrying a digest tree over its items. Publishing a batch refines insertion into a finite map, every older root
  keeps answering, lookups are complete, and an accepted proof object is true whatever it contains. Over any run of
  publishes the directory is what the batches said, and the bytes of a page decode to it and to nothing else.
- **Dispatch gateway** (`Dispatch*.dfy`, `RowBuffer.dfy`). Attempts are committed before the venue is called, outcomes
  after. The protocol is a state machine over runs with store failures, adapter errors, crashes and restarts from any
  published checkpoint; the gateway itself is a class over row buffers whose methods are proved to be runs of that
  protocol. No command reaches the venue twice.
- **Single-producer single-consumer ring** (`SpscRing.dfy`). Every atomic access is a step of its own, each side works
  with a stale copy of the other's index, and the ring is a bounded queue under every interleaving.
- **Journal** (`Journal.dfy`, `JournalReader.dfy`). The append, seal and restore operations on a byte array, and the
  scanning reader at any cut of the bytes.
- **Market data** (`Depth.dfy`, `DepthWire.dfy`, `MarketProjection.dfy`, `MarketDecisions.dfy`,
  `MarketContinuity.dfy`). Optimal and exact quotes, two independent decoders of one wire format, and the health of
  books over all event runs.
- **Strategy host** (`Crc32c.dfy`, `PackedFields.dfy`, `HostFrames.dfy`, `HostCheckpoints.dfy`, `StrategyReplay.dfy`,
  `StrategyErrors.dfy`, `StrategyRecovery.dfy`, `StrategyTargets.dfy`). Checksums that detect every 32-bit burst and
  all odd damage (the generator is that of section 12.1 of RFC 3720), frames and checkpoints whose reading inverts
  their writing, replay that depends neither on how events are cut into batches nor on whether output is suppressed,
  and the recovery loops up to the first published intent.
- **Decimals and archive batches** (`Decimals.dfy`, `DecimalText.dfy`, `OrderArchive.dfy`, `OrderBatch.dfy`). Exact
  decimal text, exact atomic units, the in-place builder of archive batches, and what the directory says once they are
  published.

Classes and loops stand where the Zig and Python code has them; their contracts tie them to specification functions,
about which the theorems are proved.

## Where the code does less than one might expect

Each of these is stated as a theorem with the exact condition.

- A dispatch archive for an origin without a portfolio is replayed from the log, but the snapshot loader refuses every
  checkpoint taken after it (`DispatchSnapshot.CheckpointIsUnobservable`, `DispatchSnapshot.UnnamedArchiveIsRefused`).
  Reclaiming through a shard never produces one, because the origin then carries the shard's portfolio.
- Admission does not compare the rules of a command's price with the instrument's and does not look for zero
  identities, so such an attempt is committed; recovery refuses it, so a restart succeeds only from a checkpoint taken
  after its order was archived (`DispatchSafety.RestartIsExact`, `DispatchSafety.AdmittedIsNotEnough`,
  `DispatchSafety.OldRulesStopRestart`).
- A checkpoint names the routes of the gateway that took it and is refused by a gateway without one of them
  (`DispatchSnapshot.CheckpointIsUnobservable`, `DispatchSnapshot.DroppedRouteIsRefused`).
- Reclaiming another order under a root that is already bound removes its evidence without a committed fact
  (`DispatchSafety.ReclaimAgainIsExact`, `DispatchSafety.OtherOrderIsForgotten`). A shard never asks for it, because
  it sets its history root and its last archive together (`src/trading/trading_shard.zig`, lines 4553-4554).
- A command marked unknown because its commit failed is forgotten by a restart if the attempt did not become durable
  (`DispatchLive.RestartBringsBack`, `DispatchLive.FailedCommitDecides`).
- The live loop of the strategy host publishes the first intent of the first batch that returns any; further intents
  of that batch are numbered and never published (`StrategyRecovery.AllArePublished`,
  `StrategyRecovery.SecondIntentIsLost`).
- A lookup proof with a witness of level 255 behind accepted ones overflows an eight-bit addition instead of being
  refused (`HistoryProof.OverflowIsExact`, `HistoryQuery.ForgedLevelOverflows`).
- A push may give up although the ring has room, and a pop although it holds an item (`SpscRing.NeedlessIsExact`,
  `SpscRing.StaleLoadRefuses`).
- A full archive builder refuses even a pair it already holds, because room is checked before the pair is looked up
  (`OrderArchive.AddAgain`, `OrderArchive.FullBatchRefusesKnownPair`).
- A valid book whose redundant second ask is not given does not survive the depth wire format unchanged when its depth
  has a second ask (`DepthWire.RoundTripExact`).
- A replay batch without events may carry a last sequence below its first and then moves the cursor back
  (`StrategyReplay.EmptyBatchMovesBack`, `StrategyReplay.CursorMoves`).

## Model

| member | source | states |
|---|---|---|
| HistoryProof.VerdictIsTrue | src/persistence/business_history.zig:151-203 | Whatever proof object is presented against a root whose tree digest is that of a valid tree, an accepted verdict is the answer of the directory map: same, conflict or first occurrence, the last reported as expired once the root has a floor or is retired |
| HistoryProof.VerifyResult | src/persistence/business_history.zig:151-203 | Checking a proof reads no store and gives a verdict only for the proof made for this very request and root; otherwise it refuses in the order of the code. Levels are eight bits wide and the addition to a level of 255 is an outcome of its own |
| HistoryProof.VerifyPath | src/persistence/business_history.zig:163-172 | The loop over branch witnesses accepts exactly the paths whose digests, separators and levels link up from the root |
| HistoryVerdicts.VerdictIsExact | src/persistence/business_history.zig:151-203 | Each verdict is given exactly under its conditions on the whole path and the leaf: same and conflict when the key's own item is found, first occurrence and expired when the key is absent between its neighbours |
| HistoryVerdicts.WitnessShape | src/persistence/business_history.zig:373-384 | A witness has a digest exactly when it names one of at most 48 slots and a key |
| HistoryVerdicts.RefusalIsExact | src/persistence/business_history.zig:151-160 | An invalid root, and a proof for another request or root, are refused before the path is looked at |
| HistoryVerdicts.WalkIsLinked | src/persistence/business_history.zig:163-172 | A path is walked exactly when levels fall by one, every witness reaches the digest its predecessor names, and the key lies within every pair of separators or beyond the last slots |
| HistoryVerdicts.LeafIsExact | src/persistence/business_history.zig:174-198 | A leaf check finds the key, finds it absent, or refuses, exactly under the stated conditions on the two witnesses |
| HistoryVerdicts.RootIsValid | src/persistence/business_history.zig:212-216 | A root is valid exactly when its version, origin, counters and digest are |
| HistoryVerdicts.ReceiptIsExact | src/persistence/business_history.zig:218-234 | A receipt is accepted exactly when it continues the previous root by one generation, with the digests named, and takes nothing back |
| HistoryProof.OverflowIsExact | src/persistence/business_history.zig:163-171 | Checking overflows in the level addition exactly when a witness behind accepted ones names level 255 and every earlier check passed |
| HistoryProof.StepIsSound | src/persistence/business_history.zig:163-171 | A witness accepted for a valid branch page names one of its own children, and the key can occur below the page only below that child |
| HistoryProof.LeafIsSound | src/persistence/business_history.zig:173-198 | An accepted leaf check decides whether the leaf page holds the key, and if so whether the candidate is its digest |
| HistoryProof.DirectoryHolds | src/persistence/business_history.zig:151-203 | The directory map of a valid tree binds a key to a digest exactly when an item below the root does |
| HistoryProof.WalkIsSound | src/persistence/business_history.zig:163-172 | A whole accepted path ends at a leaf of the tree that holds everything the directory says about the key |
| HistoryQuery.Query | src/persistence/business_history.zig:458-501 | At a root whose tree is stored, every addressed query with an encodable key succeeds, and its proof is accepted with the directory's answer and, for a bound key, its record; each way to refuse is exact |
| HistoryQuery.Descend | src/persistence/business_history.zig:466-500 | The descent reaches the one leaf that can hold the key and collects witnesses that verify, within the depth limit |
| HistoryQuery.SelectChild | src/persistence/business_history.zig:490-494 | The child chosen is the first whose separator is not below the key, the last child for keys beyond all separators |
| HistoryQuery.ScanLeaf | src/persistence/business_history.zig:468-488 | The scan of a leaf finds the key's item or exactly the two neighbours between which it would stand |
| HistoryQuery.StepIsComplete | src/persistence/business_history.zig:489-499 | The witness for the chosen child passes the verifier's checks, so completeness does not depend on which key is asked |
| HistoryQuery.LeafIsComplete | src/persistence/business_history.zig:173-198 | The neighbours found by the scan are accepted by the verifier, for bound and unbound keys alike |
| HistoryQuery.RecordIsTrue | src/persistence/business_history.zig:236-242 | For any proof object, an accepted proof with a validated record shows the very bytes whose digest the directory binds the key to |
| HistoryQuery.ForgedLevelOverflows | src/persistence/business_history.zig:163-171 | For every key, every tree with branch pages and every made-up witness of level 255, a proof that puts it behind the genuine first witness overflows |
| HistoryPublish.Publish | src/persistence/business_history.zig:560-611 | Publishing extends the directory map by exactly the batch and changes no binding; the new root continues the previous one with the batch's metadata. It fails only on a listed refusal, a failed write, a key given twice, a key bound to another digest, a generation at its limit, or a tree already at the greatest depth |
| HistoryPublish.OlderRootsStay | src/persistence/business_history.zig:560-611 | Whatever is written later, an older root keeps its whole stored tree, so lookups against it are answered as before |
| HistoryPublish.VerifyBatch | src/persistence/business_history.zig:613-632 | Against a stored root the check accepts exactly the receipts that continue the previous root for this very batch and whose directory binds every entry of it; a continuing one it refuses as incomplete coverage |
| HistoryPublish.PublishedIsCovered | src/persistence/business_history.zig:613-632 | What publishing promises about the new directory is what the check asks of a receipt |
| HistoryPublish.BatchDigestPins | src/persistence/business_history.zig:523-558 | Two batches with one digest are the same batch: origin, metadata, previous root, records and keys |
| HistoryPublish.GrowLevels | src/persistence/business_history.zig:588-593 | Packing level upon level ends in one page with the same contents, and runs out of levels only from the top level or from more than sixteen pages |
| HistoryPublish.WriteRecords | src/persistence/business_history.zig:570-571 | Every record of the batch is in the store at the offset its items will name |
| HistoryPublish.BuildItems | src/persistence/business_history.zig:572-576 | The items are those of the batch's entries, each with its encoded key and the digest, offset and length of its record |
| HistoryPublish.RepeatsAreFound | src/persistence/business_history.zig:577-584 | The sorted items hold two equal keys exactly when two entries of the batch have one encoded key |
| HistoryPublish.BatchIsReady | src/persistence/business_history.zig:572-584 | A batch without repeated keys, once sorted, meets what merging asks: strict order, whole items, readable records |
| HistoryRefusals.RefusalIsExact | src/persistence/business_history.zig:560-569 | The checks before anything is written, in order: the shape of the batch, every record, every entry, the previous root |
| HistoryRefusals.ContinuesIsExact | src/persistence/business_history.zig:613-617 | A receipt is for a batch exactly when it continues the previous root with the batch's digest and metadata |
| HistoryRefusals.ReceiptErrors | src/persistence/business_history.zig:218-234 | Which error a refused receipt has |
| HistoryRefusals.RecordIsExact | src/persistence/business_history.zig:236-242 | A record is taken exactly when its witness is the key's own and length and digest agree |
| HistoryRefusals.RecordReads | src/persistence/business_history.zig:476-478 | A record is read exactly when it lies at its offset with its length and digest |
| HistoryRuns.DirectoryIsHistory | src/persistence/business_history.zig:560-611 | After any run of publishes from no history, a root's directory binds a key to a digest exactly when some batch up to it does: nothing is lost, changed or made up |
| HistoryRuns.EveryRootStays | src/persistence/business_history.zig:560-611 | Every root ever reached keeps its whole stored tree whatever is written later |
| HistoryRuns.ReceiptsAreAccepted | src/persistence/business_history.zig:218-234 | The receipts of a run are an accepted chain of one origin, and each satisfies at once what the receipt check asks against its batch |
| HistorySort.SortKeeps | src/persistence/business_history.zig:577-581 | Sorting the incoming items only rearranges them |
| HistorySort.SortOrders | src/persistence/business_history.zig:577-581 | The sorted items are in key order |
| HistorySort.FindsDuplicate | src/persistence/business_history.zig:582-584 | Comparing neighbours finds a repeated key exactly when there is one, and otherwise the order is strict |
| HistoryMergeNode.MergeNode | src/persistence/business_history.zig:634-680 | Merging a batch below a stored page gives at most ten pages that are stored, well formed, on one level and hold exactly the union; it fails only on a failed write or on a key with two digests, never because the split is too large |
| HistoryMergeNode.MergeLeafNode | src/persistence/business_history.zig:637-659 | The leaf case: the union of two sorted runs, packed into leaf pages |
| HistoryMergeNode.ChildRange | src/persistence/business_history.zig:660-665 | The part of the batch given to a child ends at the first key beyond that child's separator; the last child takes the rest |
| HistoryMergeNode.FitsSplit | src/persistence/business_history.zig:660-678 | However many children of a page a batch splits, the items collected stay below what a split can hold, so that error never occurs for a stored tree |
| HistoryMergeNode.ConflictSpreads | src/persistence/business_history.zig:634-680 | A conflict in one child is a conflict of the whole batch with the whole subtree |
| HistoryMerge.MergeLeaf | src/persistence/business_history.zig:638-657 | The two-finger loop computes the merge of the two runs or their conflict |
| HistoryMerge.MergeIsSorted | src/persistence/business_history.zig:638-657 | A merge of strictly sorted runs is strictly sorted and stays above their common lower bound |
| HistoryMerge.MergeIsUnion | src/persistence/business_history.zig:638-657 | A merge binds a key to a digest exactly when one of the runs does |
| HistoryMerge.MergeFailsOnClash | src/persistence/business_history.zig:647-651 | Merging sorted runs fails exactly when some key is bound to two digests |
| HistoryMerge.MergeSplits | src/persistence/business_history.zig:660-678 | Runs that lie on two sides of a key merge side by side, which is why children can be merged one by one |
| HistoryPages.PackNodes | src/persistence/business_history.zig:682-706 | The pages written are the pages of the run cut greedily, all placed in the store; the only failure is a failed write |
| HistoryPages.FillPage | src/persistence/business_history.zig:688-700 | A page takes items until the next would not fit, each branch item carrying the key before it as separator |
| HistoryPages.WriteNode | src/persistence/business_history.zig:423-432 | A written page is appended to the store and described by its greatest key, digest and offset |
| HistoryPack.TreesAreValid | src/persistence/business_history.zig:682-706 | Pages cut from a packable run are valid pages on one level with consecutive separators and exactly the run's contents |
| HistoryPack.TakenFills | src/persistence/business_history.zig:688-700 | A page that is not the last holds at least 31 items in a leaf and 16 in a branch, however long the keys are |
| HistoryPack.TakenIsGreedy | src/persistence/business_history.zig:683-705 | A page takes items while there is a slot, 48 or 16, and room to the last byte, and no further |
| HistoryPack.TreesCount | src/persistence/business_history.zig:682-706 | So a run becomes no more pages than its length over that minimum, rounded up |
| HistoryTree.ValidFlat | src/persistence/business_history.zig:434-451 | The items below a page are strictly sorted and end with the page's own greatest key |
| HistoryTree.ChildDecides | src/persistence/business_history.zig:489-499 | A key between the separators of a child occurs below the page exactly where it occurs below that child |
| HistoryStore.Objects.Write | src/persistence/business_history.zig:504-514 | A write appends a fresh object, or fails exactly when the store does not work then, and never changes what is stored |
| HistoryStore.StoredPersists | src/persistence/business_history.zig:504-514 | A stored tree stays stored whatever is appended |
| HistoryStore.StoredReads | src/persistence/business_history.zig:434-451 | The page of a valid stored tree passes all checks of the page reader and is read back as it was |
| HistoryStore.ReadNode | src/persistence/business_history.zig:434-451 | A page read has the expected digest and well-formed items |
| HistoryPageBytes.DecodedOfPage | src/persistence/business_history.zig:386-451 | The 4096 bytes written for a page decode to that page |
| HistoryPageBytes.PageOfDecoded | src/persistence/business_history.zig:434-451 | Whatever 4096 bytes the reader accepts are the bytes written for the page it returns, which passes all checks |
| HistoryPageBytes.WritePage | src/persistence/business_history.zig:423-432 | Writing item by item into a zeroed buffer and the end last gives exactly the page's bytes, or fails as full exactly when they do not fit |
| HistoryPageBytes.EncodeItem | src/persistence/business_history.zig:386-400 | An item is written behind the cursor and nowhere else, or nothing is written when it does not fit |
| HistoryPageBytes.ReadPage | src/persistence/business_history.zig:434-451 | The loop over items accepts and returns what the specified decoder does |
| HistoryPageBytes.ItemReads | src/persistence/business_history.zig:402-420 | An encoded item is read back wherever it stands, with the cursor behind it |
| HistoryPageBytes.ItemWrites | src/persistence/business_history.zig:402-420 | The bytes an item was read from are its encoding |
| HistoryPageBytes.WellFormedIsOk | src/persistence/business_history.zig:434-451 | The checks on a page's bytes are the checks on the page |
| HistoryPageBytes.ReadIsDecode | src/persistence/business_history.zig:434-451 | A stored page is read exactly when its bytes decode to it |
| HistoryPageBytes.BytesPinPage | src/persistence/business_history.zig:386-451 | Two pages with one encoding are one page, unless two of their digests collide |
| HistoryDigests.DigestOf | src/persistence/business_history.zig:349-357 | The in-place folding of 64 leaf digests computes the page digest |
| HistoryDigests.HalveInPlace | src/persistence/business_history.zig:351-355 | One round overwrites the front half of the array with the digests of neighbouring pairs |
| HistoryDigests.NodeDigestInjective | src/persistence/business_history.zig:319-357 | Under an injective hash one page digest belongs to one page: level, count, separators, keys, digests, offsets and lengths |
| HistoryDigests.BuildWitness | src/persistence/business_history.zig:359-371 | The loop collects, level by level, exactly the sibling digests of the slot |
| HistoryDigests.ComputeWitnessRoot | src/persistence/business_history.zig:373-384 | Climbing a witness computes the page digest it stands for |
| HistoryDigests.ClimbIsSound | src/persistence/business_history.zig:373-384 | A climb that ends at the root of a digest tree started from the leaf of that slot and used exactly its siblings |
| HistoryDigests.WitnessIsSound | src/persistence/business_history.zig:373-384 | A witness that reaches a page's digest is that page's own witness for one of its items |
| HistoryDigests.WitnessIsComplete | src/persistence/business_history.zig:359-371 | The witness built for any item of a page reaches the page's digest |
| HistoryKeys.EncodingIsInjective | src/persistence/business_history.zig:244-303 | Within one origin two keys with one encoding are the same key, over all kinds of identities |
| HistoryKeys.EncodeKey | src/persistence/business_history.zig:244-303 | An encoded key has between 18 and 81 bytes, so it is never the empty key and always fits its field |
| HistoryKeyBytes.KeyReadsBack | src/persistence/business_history.zig:244-303 | An encoded key reads back to its account and identity by its own table of the 35 tags |
| HistoryKeyBytes.KeyIsEncodable | src/persistence/business_history.zig:244-262 | A key is encoded exactly when its origin is valid, it names an account where it must and only there, its identity belongs to the stream, and a client order identity has 1 to 64 bytes |
| HistoryKeys.KeysAreOrdered | src/persistence/business_history.zig:305-307 | The byte order of keys is a total order in which equal means identical and the empty key is least |
| HistoryChain.GenerationsAreGapFree | src/persistence/business_history.zig:218-234 | The roots of accepted receipts count generations from one without a gap |
| HistoryChain.RootsNeverGoBack | src/persistence/business_history.zig:218-234 | Barrier, epoch and floor never fall along accepted receipts and retirement is never undone |
| HistoryChain.LastRootPinsHistory | src/persistence/business_history.zig:205-234 | Two accepted histories that end in one root digest are the same, receipt by receipt |
| HistoryChain.LinkAt | src/persistence/business_history.zig:218-234 | Every accepted root names the digest of the one before it, the first names none |
| DispatchSafety.AtMostOneCall | src/execution/execution_gateway.zig:866-911 | Over every run of sends, failed appends and commits, adapter errors, crashes and recoveries no command reaches the adapter twice, and each that reached it passed the checks before the venue and is accepted, unknown or archived in the committed log |
| DispatchSafety.RestartIsExact | src/execution/execution_gateway.zig:371-490 | From any state of any run, a restart from any published checkpoint gives exactly the evidence of the whole committed log and calls no adapter if and only if the attempts before the barrier whose order was not archived by then, and all attempts after it, are valid persisted proofs; otherwise it recovers nothing |
| DispatchSafety.AdmittedIsNotEnough | src/execution/execution_gateway.zig:1450-1462 | Of the proofs admission builds, recovery takes exactly those with no zero identity and with a price under the instrument's rules |
| DispatchGuards.AdmittedIsExact | src/execution/execution_gateway.zig:715-865 | What admission establishes of the proof it builds |
| DispatchGuards.SendableIsExact | src/execution/execution_gateway.zig:1005-1012 | What of the proof is looked at again before the venue |
| DispatchGuards.StoreStepsAreGuarded | src/execution/execution_gateway.zig:333-345 | Every step that writes needs memory, an open store and no send under way; a checkpoint needs nothing else |
| DispatchGuards.SendIsGuarded | src/execution/execution_gateway.zig:715-760 | A send is a step exactly for an offered command in neither table while there is room |
| DispatchGuards.ReconcileIsGuarded | src/execution/execution_gateway.zig:534-547 | A resolution is a step exactly for an unknown dispatch of a configured account without one, of a reconciliation newer than the attempt |
| DispatchGuards.HistoryIsGuarded | src/execution/execution_gateway.zig:1195-1305 | An economic commit or an archive is a step exactly when the tables take it, an archive of a portfolio, and under the bound root only the archive that bound it |
| DispatchGuards.TurnsAreGuarded | src/execution/execution_gateway.zig:861-911 | A send commits, then refuses or calls what is sendable, then records; a crash is always possible and a restart needs a published checkpoint |
| DispatchGuards.WritesAreKept | src/execution/execution_gateway.zig:913-934 | A fact is in the log exactly when its write succeeded or failed after landing, and only success leaves the gate open |
| DispatchGuards.PublicationsAreKept | src/execution/execution_gateway.zig:333-363 | A checkpoint is found later unless publishing it failed without a trace; only a published one changes memory |
| DispatchSafety.OldRulesStopRestart | src/execution/execution_gateway.zig:866-894 | A concrete run: an attempt priced under older rules is committed, refused before the venue, and after a crash no restart succeeds |
| DispatchSafety.RowsAreUnarchived | src/execution/execution_gateway.zig:1259-1304 | The evidence of a log consists of valid proofs exactly when every attempt whose order was not archived is one |
| DispatchSafety.CheckpointRecovers | src/execution/execution_gateway.zig:371-490 | A published checkpoint recovers the evidence of the whole log exactly when what it is read back from is valid, and is refused otherwise |
| DispatchSafety.ReclaimAgainIsExact | src/execution/execution_gateway.zig:1246-1256 | Under a root that is already bound nothing is committed, and memory stays the log's evidence exactly when the archive is the one the root was bound with |
| DispatchSafety.OtherOrderIsForgotten | src/execution/execution_gateway.zig:1234-1257 | A concrete log: reclaiming another order under the bound root drops its accepted row though no archive of it is committed |
| DispatchSafety.TablesAtRest | src/execution/execution_gateway.zig:464-503 | At rest with an open store, memory equals the evidence of the committed log, and every committed acceptance was really called |
| DispatchLive.TablesAlwaysSound | src/execution/execution_gateway.zig:464-503 | In every reachable state with memory, at rest, in the middle of a send or after a failed store operation, accepted and unknown rows have distinct and disjoint keys within the shared capacity |
| DispatchLive.RowsFollow | src/execution/execution_gateway.zig:881-911 | In every reachable state and for every next step short of a crash, an unknown row stays, or gets its one resolution, or leaves by a published reclaim of its order, then settled, and in no other way; an accepted row stays unless its order is reclaimed or its own acceptance cannot be committed, and then it is unknown |
| DispatchLive.ShownUntilReclaimed | src/execution/execution_gateway.zig:881-911 | Over every run without a crash memory keeps showing a proof, accepted or unknown, until its order is reclaimed |
| DispatchLive.RestartBringsBack | src/execution/execution_gateway.zig:371-490 | After a crash in any reachable state and a restart that succeeds, an unknown row is back exactly when its attempt is durable, its order is not archived and no acceptance of it is durable; an accepted row exactly when its acceptance is durable and its order is not archived |
| DispatchLive.FailedCommitDecides | src/execution/execution_gateway.zig:881-894 | A concrete run: an attempt whose commit fails is unknown in memory at once; after a crash and a restart it is unknown exactly if it had become durable all the same |
| DispatchLive.SomeAttemptIsOffered | src/execution/execution_gateway.zig:710-872 | Such an attempt exists for every route |
| DispatchLive.WaitsIsExact | src/execution/execution_gateway.zig:447-483 | A proof is unknown evidence of a log exactly when its attempt is in it, its order is not archived and no acceptance of it is in it; accepted exactly when its acceptance is and its order is not archived |
| DispatchLive.BoundRootsAlwaysEndChains | src/execution/execution_gateway.zig:1210-1276 | In every reachable state the root memory has bound to an origin ends a chain of accepted receipts of a committed prefix, from no history |
| DispatchSafety.StepKeeps | src/execution/execution_gateway.zig:339-1326 | Each step of the gateway, whatever fails in it, keeps the invariant that ties log, checkpoints, memory and adapter calls together |
| DispatchSafety.RunKeeps | src/execution/execution_gateway.zig:339-1326 | Every run from a good state ends in a good state |
| DispatchTables.UnknownLeaves | src/execution/execution_gateway.zig:447-483 | A committed fact removes an unknown dispatch only as the acceptance of the identical unresolved proof or as an archive of its order after a settled reconciliation |
| DispatchTables.AcceptedLeaves | src/execution/execution_gateway.zig:1294-1304 | A committed fact removes an accepted dispatch only as an archive of its order |
| DispatchTables.ApplySound | src/execution/execution_gateway.zig:447-483 | Every committed fact that applies keeps the tables sound: distinct and disjoint keys, both bounds, accounts of configured routes, and bindings the snapshot loader takes |
| DispatchTables.ReplaySound | src/execution/execution_gateway.zig:433-487 | Replaying any log from sound tables ends in sound tables or in an error |
| DispatchTables.EconomicSound | src/execution/execution_gateway.zig:1210-1232 | An economic commit moves a root and touches no dispatch evidence |
| DispatchTables.RootAdvances | src/execution/execution_gateway.zig:1217-1226 | An accepted receipt is for the bound root itself or for the next generation of the same history |
| DispatchDecisions.PersistedIsExact | src/execution/execution_gateway.zig:1450-1462 | A proof is taken back exactly when its context is its authority's and nothing that identifies it is zero |
| DispatchDecisions.MarkedDecides | src/execution/execution_gateway.zig:490-497 | A proof is marked unknown once, while there is room; which error otherwise |
| DispatchDecisions.RestoredDecides | src/execution/execution_gateway.zig:694-706 | A proof is taken as accepted exactly for a configured account and a named command, once, while there is room; which error otherwise |
| DispatchDecisions.AttemptDecides | src/execution/execution_gateway.zig:447-452 | An attempt is taken exactly when its key is in neither table and there is room, as the last unknown row |
| DispatchDecisions.OutcomeDecides | src/execution/execution_gateway.zig:464-474 | An acceptance is taken exactly for the identical unresolved attempt of a configured route, and moves it |
| DispatchDecisions.ResolutionDecides | src/execution/execution_gateway.zig:454-462 | A resolution is taken exactly for an unresolved row with the key, and changes that row alone |
| DispatchDecisions.ArchiveDecides | src/execution/execution_gateway.zig:1259-1289 | An archive is taken exactly for a named origin, an accepted receipt, with room and no unsettled row; which error otherwise |
| DispatchDecisions.ArchiveFrees | src/execution/execution_gateway.zig:1272-1304 | It removes exactly the rows of its order and binds its root and itself |
| DispatchDecisions.EconomicDecides | src/execution/execution_gateway.zig:1210-1232 | An economic commit is taken exactly for a named origin, a fitting identity, its receipt's qualification and an accepted receipt, with room; which error otherwise, and which binding it leaves |
| DispatchDecisions.RootIsAccepted | src/execution/execution_gateway.zig:1266-1271 | A receipt is accepted for the bound root itself or for the one that continues it, exactly under the stated conditions |
| DispatchHistory.BoundRootEndsChain | src/execution/execution_gateway.zig:1210-1276 | The root bound to an origin is always the end of a chain of accepted receipts starting from no history |
| DispatchHistory.BoundRootIsCounted | src/execution/execution_gateway.zig:1210-1276 | Its generation is the number of receipts, each names its predecessor's digest, and no later one lowers barrier, epoch or floor or undoes retirement |
| DispatchHistory.FactMovesRoot | src/execution/execution_gateway.zig:1210-1276 | A fact moves the bound root of its own origin only, to its receipt's root, and no other fact moves any |
| DispatchSnapshot.LoadIsExact | src/execution/execution_gateway.zig:384-431 | Sound tables load back from their snapshot exactly as they were if and only if every bound origin names a portfolio, every row is a valid proof and every route of the snapshot is still configured, and are refused otherwise |
| DispatchDecisions.LoadDecides | src/execution/execution_gateway.zig:384-432 | The loader takes a snapshot exactly when its rows are sound tables of valid proofs, every bound origin names a portfolio and every route is configured, and loads those very rows |
| DispatchDecisions.BindingIsExact | src/execution/execution_gateway.zig:393-407 | Which bindings a snapshot may hold |
| DispatchDecisions.BindingErrors | src/execution/execution_gateway.zig:391-411 | The first refused binding decides the error: the history's for a root no history has, otherwise unavailable |
| DispatchDecisions.LoadErrors | src/execution/execution_gateway.zig:384-432 | Why a snapshot is refused: unavailable, a root no history has, or an accepted row of an account that is not configured |
| DispatchDecisions.ReadbackDecides | src/execution/execution_gateway.zig:433-500 | A record is read back as it was applied, except that an attempt must be valid and an acceptance must name a command; what stops recovery before that |
| DispatchDecisions.SoundIsExact | src/execution/execution_gateway.zig:384-432 | Rows of sound tables have keys of their own, within the bounds |
| DispatchDecisions.ResolutionIsExact | src/execution/execution_gateway.zig:416-424 | An unknown row has a resolution exactly when it has a reconciliation, and never an undecided one |
| DispatchSnapshot.ReadbackIsExact | src/execution/execution_gateway.zig:433-487 | From valid rows, reading a committed tail back is replaying it unless it holds an attempt that is not valid, and then stops there |
| DispatchSnapshot.CheckpointIsUnobservable | src/execution/execution_gateway.zig:314-490 | Recovery from a checkpoint at any barrier of a log equals replay of the whole log if and only if no archive before the barrier was for an origin without a portfolio, every route at the checkpoint is still configured, its rows are valid and so are the attempts after it; otherwise recovery is refused |
| DispatchSnapshot.UnnamedArchiveIsRefused | src/execution/execution_gateway.zig:1259-1326 | A concrete log shows the exception: replay takes such an archive, the loader refuses the checkpoint after it |
| DispatchSnapshot.DroppedRouteIsRefused | src/execution/execution_gateway.zig:324-431 | Even the empty checkpoint of one route is refused once that route is no longer configured |
| DispatchGateway.Gateway.MarkUncertain | src/execution/execution_gateway.zig:496-503 | The row is appended unless its key is known or the shared budget is full |
| DispatchGateway.Gateway.RestoreAccepted | src/execution/execution_gateway.zig:694-706 | An accepted proof is appended, recognised when identical, and refused when its key holds another proof or the budget is full |
| DispatchGateway.Gateway.FindAccepted | src/execution/execution_gateway.zig:1077-1081 | The first accepted row with the key, or the count |
| DispatchGateway.Gateway.FindUnknown | src/execution/execution_gateway.zig:505-509 | The first unknown row with the key, or the count |
| DispatchGateway.Gateway.DropUnknownOfOrder | src/execution/execution_gateway.zig:1277-1293 | Shifting rows forward removes exactly the order's settled rows, in order, unless one of them is unsettled |
| DispatchGateway.Gateway.DropAcceptedOfOrder | src/execution/execution_gateway.zig:1294-1304 | Shifting rows forward removes exactly the order's accepted rows and keeps the order of the rest |
| DispatchGateway.Gateway.ApplyDispatchArchive | src/execution/execution_gateway.zig:1259-1326 | The in-place archive ends in the tables the committed fact stands for, or reports why it is refused |
| DispatchGateway.Gateway.ApplyEconomicHistory | src/execution/execution_gateway.zig:1210-1232 | The in-place root move ends in the tables the committed fact stands for, and changes nothing when refused |
| DispatchGateway.Gateway.ApplyFact | src/execution/execution_gateway.zig:447-483 | Replaying one record in place does what recovery specifies for it, its checks included, for all five kinds of record |
| DispatchGateway.Gateway.LoadSnapshot | src/execution/execution_gateway.zig:384-431 | Loading rows in place gives the tables or the error the specification gives, route rows included |
| DispatchGateway.Gateway.AttachRecovered | src/execution/execution_gateway.zig:371-490 | Recovery attaches exactly when snapshot and tail recover, takes over their tables, and otherwise gives the specified error and leaves the gateway untouched |
| DispatchGateway.Gateway.TakeOver | src/execution/execution_gateway.zig:1243-1256 | Only the finished candidate becomes visible: its three tables replace the gateway's at once |
| DispatchSend.DurableGateway.SendFromShard | src/execution/execution_gateway.zig:710-911 | A send is a run of protocol steps: none exactly when it is not admitted, known or full. Otherwise an attempt is handed to the store, and once written, a command that is permitted and passes the last checks is handed to the adapter, whose answer it returns unless that is an acceptance it cannot record; it reports acceptance exactly after a recorded one or for an identical accepted command |
| DispatchSend.DurableGateway.CommitAttempt | src/execution/execution_gateway.zig:866-894 | A failed append leaves the tables alone, a failed commit marks the command unknown |
| DispatchSend.DurableGateway.Dispatch | src/execution/execution_gateway.zig:937-1030 | A command that is permitted and passes the last checks is handed to the adapter, once, and no other is; the adapter's answer is returned, and anything but an acceptance leaves the command unknown |
| DispatchSend.DurableGateway.RecordAcceptance | src/execution/execution_gateway.zig:895-910 | An acceptance that cannot be committed is taken back and the command becomes unknown |
| DispatchSend.DurableGateway.AfterAttempt | src/execution/execution_gateway.zig:895-910 | What follows a committed attempt is the call, with its answer, and the recording of an acceptance exactly when the command is permitted and sendable, and a refusal otherwise |
| DispatchSend.DurableGateway.ReconcileRecovered | src/execution/execution_gateway.zig:513-582 | Every outcome in the order of the checks: unavailable, unknown dispatch or command, unreconciled exactly when no order answers with a reconciliation newer than the attempt; then a settled row keeps its resolution, repeated or in conflict, and any other gets this one once the store has it |
| DispatchOrders.FindCommand | src/execution/execution_gateway.zig:526-531 | The first command of the history with the identity, or the count |
| DispatchOrders.ResolvingIsExact | src/execution/execution_gateway.zig:526-542 | Which order answers for a dispatch: the first of the first command with the identity, for its account and portfolio, at its revision or later, in a state its last reconciliation names |
| DispatchSend.DurableGateway.CheckpointDurable | src/execution/execution_gateway.zig:339-367 | A checkpoint is published whenever the store is open and is the step of the protocol |
| DispatchSend.DurableGateway.ReclaimOrder | src/execution/execution_gateway.zig:1234-1257 | Freed evidence takes effect only once the archive is committed and a checkpoint published; every failure has the first error of the checks and leaves memory as it was. Another order under a bound root is freed without any committed fact, and the checkpoint published is of the tables without it |
| DispatchSend.DurableGateway.AcknowledgeEconomic | src/execution/execution_gateway.zig:1155-1208 | A moved root is taken back whenever it cannot be committed and checkpointed; a refused one has its own error |
| DispatchSend.Store.Log | src/execution/execution_gateway.zig:913-929 | Append then commit: the record may have landed even when either fails, and any failure shuts the store |
| RowBuffer.Rows.RemoveAt | src/execution/execution_gateway.zig:470-471 | Shifting the tail forward removes exactly one row |
| SpscRing.RingIsFifo | src/benchmarks/trading_shard_benchmark.zig:502-532 | Under every interleaving with stale index loads, what was taken followed by what is queued is what was published: nothing lost, repeated, reordered or overwritten, and never more than the capacity |
| SpscRing.RefinesQueue | src/benchmarks/trading_shard_benchmark.zig:502-532 | Every step of either thread is a push, a pop or nothing on one bounded queue |
| SpscRing.HighWaterCovers | src/benchmarks/trading_shard_benchmark.zig:520 | Whenever the producer is idle the high-water mark is at least every depth reached before and at most the capacity |
| SpscRing.SlotsNeverRace | src/benchmarks/trading_shard_benchmark.zig:518-528 | The slot being filled is never the slot being copied out |
| SpscRing.FreshLoadsDecide | src/benchmarks/trading_shard_benchmark.zig:512-527 | With an up-to-date load the full test fires exactly on a full queue and the empty test exactly on an empty one |
| SpscRing.StaleLoadsAreSafe | src/benchmarks/trading_shard_benchmark.zig:512-530 | With a stale load a push still has a free slot and a pop still takes the oldest item |
| SpscRing.GivingUpIsExact | src/benchmarks/trading_shard_benchmark.zig:512-527 | A push gives up exactly when it loads again the index it last saw, a whole ring behind; a pop exactly when it loads again the index it last saw and has taken everything before it |
| SpscRing.RefusalsAreCounted | src/benchmarks/trading_shard_benchmark.zig:511-516 | Every push that gives up is counted, and nothing else |
| SpscRing.NeedlessIsExact | src/benchmarks/trading_shard_benchmark.zig:512-527 | A push may give up with room in the queue, and a pop with an item in it, exactly when the other side moved its index since it was last observed |
| SpscRing.StaleLoadRefuses | src/benchmarks/trading_shard_benchmark.zig:511-531 | A concrete run: the ring is filled, one item taken, and a push with a stale load gives up although a slot is free |
| SpscRing.StepPreserves | src/benchmarks/trading_shard_benchmark.zig:511-531 | Every atomic load, store and slot access keeps the ring's invariant |
| SpscRing.RunPreserves | src/benchmarks/trading_shard_benchmark.zig:511-531 | Every interleaving from a good state ends in a good state |
| JournalReader.CutReadsWholeRecords | src/persistence/journal.zig:163-244 | For any consecutive records and any cut at or after the header, the reader returns exactly the whole records before the cut, then clean at the end of a sealed journal and a truncated tail everywhere else |
| JournalReader.SealedRoundTrip | src/persistence/journal.zig:107-244 | A sealed journal reads back all its records and then clean, for any checksum function |
| JournalReader.AppendHolds | src/persistence/journal.zig:107-134 | An append turns the bytes of some records into the bytes of those records and one more |
| JournalReader.SealHolds | src/persistence/journal.zig:136-148 | An unsealed journal always has room to seal, and sealing adds the footer of its records |
| JournalReader.DecodesItself | src/persistence/journal.zig:180-244 | The fields of an encoded record decode to the record |
| JournalReader.Reader.Read | src/persistence/journal.zig:180-244 | Each call advances the cursor and yields what the specification of one read says, in every branch |
| Journal.Journal.Append | src/persistence/journal.zig:107-134 | The encoded record is written in place; nothing changes when it is refused, the refusals come in the order of the code, and a last sequence at the 64-bit maximum is an outcome of its own |
| Journal.Journal.Seal | src/persistence/journal.zig:136-148 | Sealing fails exactly when the journal is sealed |
| Journal.Journal.InitAt | src/persistence/journal.zig:92-105 | A fresh journal holds its segment header and no records |
| Journal.Journal.Restore | src/persistence/journal.zig:80-85 | Restoring sets back the counters and leaves the bytes |
| Journal.RestoreUndoes | src/persistence/journal.zig:71-85 | After any appends and seals, restoring a saved checkpoint gives back the journal's bytes and counters |
| Journal.IndistinguishableStays | src/persistence/journal.zig:71-85 | A restored journal then behaves as the original under every operation |
| Journal.PerformAllKeepsBytes | src/persistence/journal.zig:107-148 | No run of appends and seals changes bytes already written |
| MarketContinuity.BookIsEndOfChain | src/market/market_projection.zig:22-75 | Over every run of events, an instrument's retained book is the end of a chain from one accepted snapshot by deltas that each name the sequence before |
| MarketContinuity.HealthyHasScopedBook | src/market/market_projection.zig:22-75 | A healthy instrument has a book in scope under its active rules |
| MarketContinuity.OnlySnapshotsRestore | src/market/market_projection.zig:22-38 | Health comes back only by a snapshot accepted then, complete, in scope and newer than the retained book |
| MarketContinuity.SnapshotDecides | src/market/market_projection.zig:22-38 | A snapshot restores health exactly when it is fresh; otherwise it opens a gap and the retained book stays |
| MarketContinuity.DuplicateDecides | src/market/market_projection.zig:40-51 | Repeating the last delta exactly changes nothing; a different one with its sequence opens a gap |
| MarketDecisions.DeltaDecides | src/market/market_projection.zig:40-69 | A delta is accepted exactly when it is in scope, on a healthy instrument, names the retained sequence, carries the active rules and declares a valid book if it has depth; every field of the retained book is then the delta's |
| MarketDecisions.DeltaFailures | src/market/market_projection.zig:40-75 | Which error and failure a refused delta has, and that the retained book stays |
| MarketDecisions.SnapshotFields | src/market/market_projection.zig:22-38 | A snapshot is taken whole exactly when valid, complete, in scope, under the active rules and newer; which failure otherwise |
| MarketDecisions.PriceDecides | src/market/market_projection.zig:137-141 | A reference price is kept, as mark or index, exactly for the instrument under its active rules |
| MarketDecisions.NoticeDecides | src/market/market_projection.zig:142-145 | A health notice is believed unless it claims health the evidence has not |
| MarketDecisions.RulesDecide | src/market/market_projection.zig:94-106 | Rules are activated exactly when they are the definition's; replacing active rules forgets everything but the definition |
| MarketDecisions.DefinitionDecides | src/market/market_projection.zig:119-125 | A definition is repeated, replaced by later rules, or refused, and only the definition changes |
| MarketDecisions.UnknownDecides | src/market/market_projection.zig:126-132 | An unknown instrument is refused, except that a definition adds it while there is room for 125 |
| MarketContinuity.Isolated | src/market/market_projection.zig:108-160 | An event for one instrument never changes another |
| MarketContinuity.RunSound | src/market/market_projection.zig:94-160 | Every run keeps every entry in scope |
| MarketContinuity.StepAnchored | src/market/market_projection.zig:40-68 | Each event extends the chain, keeps it, or opens a gap |
| MarketContinuity.GenerationCountsFailures | src/market/market_projection.zig:131-160 | The failure generation grows by one exactly when an event leaves a new failure |
| MarketProjection.Projection.Apply | src/market/market_projection.zig:108-117 | Each event changes the market as the specified step does, on which all run theorems rest; unrelated events change nothing |
| MarketProjection.Projection.ApplyFor | src/market/market_projection.zig:131-151 | The entry and the failure generation change together as the specified step says, also when the event is refused |
| MarketProjection.Projection.ApplySnapshot | src/market/market_projection.zig:22-38 | The field-by-field update is the specified step for every branch, and touches no other instrument |
| MarketProjection.Projection.ApplyDelta | src/market/market_projection.zig:40-69 | The same for deltas: duplicates, conflicts, gaps, inactive rules, invalid depth, and the next book |
| MarketProjection.Projection.ApplyDefinition | src/market/market_projection.zig:119-129 | A definition adds an entry, is repeated silently, replaces an older version, or is refused for regression or capacity |
| MarketProjection.Projection.ActivateRules | src/market/market_projection.zig:94-106 | Activating another rules version drops the book, the prices and the failure and waits for a snapshot; the same version changes nothing else |
| MarketProjection.Projection.InvalidateBook | src/market/market_projection.zig:155-160 | Invalidation opens a gap, keeps the book, and counts a failure unless depth was already invalid |
| MarketProjection.Projection.AggregateHealth | src/market/market_projection.zig:162-171 | The aggregate is gap exactly when some entry is, healthy exactly when there are entries and all are |
| MarketProjection.Projection.LatestFailure | src/market/market_projection.zig:173-180 | The failure reported is the last in entry order, none exactly when there is none |
| MarketProjection.Projection.Get | src/market/market_projection.zig:84-87 | The entry of the instrument, if there is one |
| Depth.FaultExact | src/market/depth_snapshot.zig:9-42 | The validity check accepts exactly the complete, scoped, two-sided, strictly ordered, uncrossed books whose top fields repeat their depth |
| Depth.FaultKind | src/market/depth_snapshot.zig:9-42 | Which fault is reported: the first of scope, counts, levels, tail, touch and top fields that fails |
| Depth.MakeQuote | src/market/depth_snapshot.zig:46-69 | Every outcome of a quote is exact; the fee moves one amount against the taker by the least whole number of units that covers the rate and leaves the other alone; the overflow error means an amount leaves 128 bits, and no 256-bit step overflows |
| Depth.TakeLevels | src/market/depth_snapshot.zig:51-61 | The loop over levels returns the cost of the lots from the touch, or insufficient depth exactly when less is proven within the protection |
| Depth.SupplyIsExact | src/market/depth_snapshot.zig:51-61 | What is proven available is what the levels hold up to the first of unknown quantity or beyond the protection |
| Depth.GrossIsBest | src/market/depth_snapshot.zig:46-69 | No way of taking that many lots from the book is cheaper to buy or pays more to sell |
| Depth.GrossIsReached | src/market/depth_snapshot.zig:51-61 | Taking lots from the touch is such a way, stays within the price protection and costs the gross amount |
| Depth.FeeIsCeiling | src/market/depth_snapshot.zig:62-69 | The fee is the least whole amount not below the exact one and never exceeds its basis |
| Depth.OverflowExact | src/market/depth_snapshot.zig:62-69 | A valid request overflows exactly when the gross exceeds 128 bits or the one amount raised by the fee does, which is stated without the fee |
| DepthWire.Decode | src/market/depth_snapshot.zig:95-111 | The decoder accepts exactly the well-shaped strings of valid books and returns the book they describe, with the validity fault otherwise |
| DepthWire.Encode | src/market/depth_snapshot.zig:71-94 | Only valid books that fit are written, only the first 704 bytes are touched, and nothing on failure |
| DepthWire.WireOfDecoded | src/market/depth_snapshot.zig:71-111 | Encoding a decoded string returns the same bytes |
| DepthWire.DecodedOfWire | src/market/depth_snapshot.zig:71-111 | Decoding an encoded valid book returns it with its redundant top fields filled in from the depth |
| DepthWire.RoundTripExact | src/market/depth_snapshot.zig:71-111 | The round trip is the identity exactly when the second ask is given or the book has fewer than two asks |
| DepthWire.HostDecode | python/strategy_host.py:220-253 | The host accepts exactly the 704-byte strings the Zig decoder accepts and reads the same values |
| DepthWire.HostSide | python/strategy_host.py:230-248 | One side is read exactly when its levels are well shaped and form a valid side |
| DepthWire.HostKeeps | python/strategy_host.py:220-253 | Every value the host keeps is the book's own |
| Crc32c.DetectsFourByteBurst | python/strategy_host.py:49-55 | Messages of one length that differ only within four consecutive bytes have different checksums |
| Crc32c.DetectsEveryBurst | python/strategy_host.py:49-55 | So do messages that differ only within 32 consecutive bits anywhere in the bit stream |
| Crc32c.DetectsOddDamage | python/strategy_host.py:49-55 | So do messages that differ in an odd number of bits |
| Crc32c.Compute | python/strategy_host.py:49-55 | The two nested loops compute the checksum of the specification |
| Crc32c.ShiftLinear | python/strategy_host.py:53-54 | One shift step is linear over exclusive or |
| Crc32c.ClockLinear | python/strategy_host.py:49-55 | So is clocking a whole bit string |
| Crc32c.RegisterIsClocked | python/strategy_host.py:51-54 | Processing bytes is clocking their bits one by one, least significant first |
| HostFrames.ReadOfWritten | python/strategy_host.py:68-107 | A written frame reads back as itself, whatever follows it in the stream |
| HostFrames.WrittenOfRead | python/strategy_host.py:68-94 | Only written frames are read: what was taken from the stream is the writing of the frame returned |
| HostFrames.StreamReadsBack | python/strategy_host.py:68-107 | A stream of frames reads back frame by frame up to the first damaged or unfinished one |
| HostFrames.DamagedPayloadIsRefused | python/strategy_host.py:77-88 | Replacing up to four consecutive payload bytes makes the frame unreadable |
| HostFrames.DamagedHeaderIsRefused | python/strategy_host.py:77-88 | So does replacing up to four consecutive bytes of the checked header |
| HostFrames.Pipe.ReadExact | python/strategy_host.py:58-65 | However the stream is chunked, exactly the next bytes are returned, or none when it ends first |
| HostFrames.Pipe.ReadFrame | python/strategy_host.py:68-94 | The reader returns the frame of the specification and leaves the rest of the stream |
| HostFrames.Pipe.WriteFrame | python/strategy_host.py:97-107 | The frame packed in place goes out behind its length, exactly as the reader takes it back |
| HostCheckpoints.DecodedOfContainer | python/strategy_host.py:331-387 | A packed checkpoint decodes to what was packed |
| HostCheckpoints.ContainerOfDecoded | python/strategy_host.py:331-387 | Only packed checkpoints decode, byte for byte |
| HostCheckpoints.DecodeErrors | python/strategy_host.py:331-349 | Which error a refused container has: size and header, then content, then the next intent |
| HostCheckpoints.EncodeCheckpoint | python/strategy_host.py:400-415 | Packing in place succeeds exactly when the payload fits and the next intent is not zero, and gives a container that decodes to its input |
| StrategyReplay.CuttingIsUnobservable | python/strategy_host.py:435-477 | Contiguous batches, any number of them, are applied without error exactly when one batch of all their events is and each batch holds only events of its own range; state, cursor, next intent and intents are then the same |
| StrategyReplay.TwoBatchesAreOne | python/strategy_host.py:435-477 | Two adjacent batches succeed exactly when the joined one does and each event lies in its own batch's range, with the same outcome |
| StrategyReplay.CatchUpThenLive | python/strategy_host.py:435-477 | Batches applied without output and then with it return exactly the intents an uninterrupted run returns for the latter, consecutively, and end in the same state |
| StrategyRecovery.FirstIsPublished | python/strategy_host.py:493-567 | What recovery publishes is the caught-up next intent, which is the first an uninterrupted live run emits after the silent batches; that run ends in the same state but emits one intent for every emitting event of the last batch |
| StrategyRecovery.AllArePublished | python/strategy_host.py:532-567 | Of all intents an uninterrupted run emits after the silent batches, the published one is everything exactly when the batches unread after catching up hold a single emitting event |
| StrategyRecovery.SecondIntentIsLost | python/strategy_host.py:532-567 | From every state, a live batch of two emitting events advances the next intent by two and publishes the first |
| StrategyRecovery.RecoveryIsExact | python/strategy_host.py:493-567 | On a stream whose uninterrupted run has no error, catch-up succeeds exactly when some batch ends on the barrier and the activation lies between it and the end of the stream, and something is published exactly when a later event emits |
| StrategyRecovery.RecoveryErrors | python/strategy_host.py:493-567 | Why recovery fails on such a stream: no batch ends on the barrier, the activation lies before it, or the stream ends too early or emits nothing |
| StrategyRecovery.FailureStops | python/strategy_host.py:506-567 | A batch that fails stops recovery with its own error |
| StrategyRecovery.SilentIsExact | python/strategy_host.py:506-531 | A silent loop reaches its barrier unless the stream ends before it, and stops on it exactly when some batch ends there |
| StrategyRecovery.RecoverOnce | python/strategy_host.py:493-567 | The three loops publish what the specified recovery does and fail as it does; the check for output during silence never fires |
| StrategyRecovery.ReplayTo | python/strategy_host.py:506-531 | The silent loop ends in the specified state with the specified batches unread |
| StrategyRecovery.PublishFirst | python/strategy_host.py:532-567 | The live loop publishes the first intent of the first batch that returns any and stops |
| StrategyReplay.SilenceChangesNothing | python/strategy_host.py:435-477 | Suppressing output changes no state and no error |
| StrategyReplay.RunEmitsConsecutively | python/strategy_host.py:435-477 | A live run emits consecutive intent sequences from the checkpoint's next one |
| StrategyReplay.FoldIsExact | python/strategy_host.py:435-477 | An error-free batch adds the deltas and the number of its events, and advances the next intent once for each event that calls for one |
| StrategyErrors.FoldSucceeds | python/strategy_host.py:435-477 | Events are applied without error exactly when each is of a known kind and layout, in range and after the one before, and every running total fits |
| StrategyErrors.FoldStops | python/strategy_host.py:435-477 | Otherwise the first event that fails decides the error |
| StrategyErrors.BatchIsExact | python/strategy_host.py:435-477 | A batch is applied exactly when its schema is known, it begins behind the cursor and its events are good; which error otherwise, and every total afterwards |
| StrategyReplay.CursorMoves | python/strategy_host.py:437-477 | The cursor becomes the batch's last sequence, which is not below the old one exactly when the batch is not inverted |
| StrategyReplay.EmptyBatchMovesBack | python/strategy_host.py:435-477 | A concrete batch without events whose last sequence precedes its first moves the cursor back |
| StrategyReplay.Host.ApplyReplayBatch | python/strategy_host.py:435-477 | The loop over events mutates progress as the fold says and reports its error and intents |
| Decimals.Parse | src/model/canonical_event.zig:84-125 | The parser returns the specified decimal or error for every text, digit by digit with overflow checks |
| Decimals.ParseIsExact | src/model/canonical_event.zig:84-125 | A parsed decimal denotes the text's number exactly, with the fewest fraction digits, at most 38 |
| Decimals.ParseIsByValue | src/model/canonical_event.zig:84-125 | Texts of equal value parse to the same result, error included |
| DecimalText.WellFormedIsSpelt | src/model/canonical_event.zig:84-108 | A text is a decimal exactly when it is an optional sign, digits, and digits behind an optional point, with one digit at least |
| DecimalText.ParsedOfPrinted | src/model/canonical_event.zig:84-125 | Printing a shortest decimal and parsing it gives it back |
| DecimalText.ParseErrors | src/model/canonical_event.zig:84-125 | Which error a refused text has |
| Decimals.CoefficientIsShortest | src/model/canonical_event.zig:109-124 | Dropping trailing zeros keeps the number and leaves no shorter form |
| Decimals.ShortestIsUnique | src/model/canonical_event.zig:84-125 | A number has one shortest decimal form |
| Decimals.Accumulate | src/model/canonical_event.zig:115-123 | Overflow is reported exactly when the whole digit string leaves 128 bits, the most negative value included |
| Decimals.Scan | src/model/canonical_event.zig:95-108 | The scan accepts digits with at most one dot and at least one digit, and finds the dot |
| Decimals.Power | src/model/canonical_event.zig:142-148 | The loop computes the power of ten or reports overflow exactly when it exceeds 128 bits |
| Decimals.ExactAtoms | src/model/canonical_event.zig:128-139 | The atoms at a scale, or the specified error, with truncating division |
| Decimals.AtomsAreExact | src/model/canonical_event.zig:128-139 | Atoms are returned if and only if they represent the same number exactly, fit 128 bits and both scales are within bounds |
| DecimalText.AtomErrors | src/model/canonical_event.zig:128-139 | Which error a refused conversion has |
| Decimals.TextToUnits | src/model/canonical_event.zig:201-216 | A text becomes so many ticks or lots if and only if they are worth exactly the text's number |
| OrderArchive.AddBinds | src/execution/order_history_batch.zig:29-59 | A successful add binds its identity to its body and changes no other binding |
| OrderArchive.AddAgain | src/execution/order_history_batch.zig:29-59 | Adding a bound identity again changes nothing for the same body and is refused for another, after the room check |
| OrderArchive.AddedIsSound | src/execution/order_history_batch.zig:29-59 | No body is kept twice, identities are distinct, every entry names a record |
| OrderArchive.SoundIsExact | src/execution/order_history_batch.zig:29-59 | Which batches a builder can hold |
| OrderArchive.AddedDecides | src/execution/order_history_batch.zig:29-59 | An entry is added exactly when the body fits once more and the identity is bound to it already, or is new among fewer than 256; which error otherwise |
| OrderArchive.FullBatchRefusesKnownPair | src/execution/order_history_batch.zig:31-42 | A concrete full builder refuses even a pair it already holds |
| OrderArchive.BodiesFill | src/execution/order_history_batch.zig:54-58 | The spans partition the used bytes, so the bodies' sizes add up to them |
| OrderArchive.Builder.Add | src/execution/order_history_batch.zig:29-59 | The in-place add writes the body behind the used bytes and ends in the specified batch, or changes nothing |
| OrderArchive.Builder.FindRecord | src/execution/order_history_batch.zig:45-53 | The first record with that body, compared by digest and bytes |
| OrderArchive.Released | src/execution/order_history_batch.zig:123-131 | The two-index loop releases what one pass over the history and the retained intents leaves unmatched |
| OrderBatch.Batch | src/execution/order_history_batch.zig:61-82 | The view of a builder lists its bodies with their digests and its entries, or refuses the previous root |
| OrderBatch.ViewDecides | src/execution/order_history_batch.zig:61-82 | A view needs a barrier, an epoch and a valid, unretired previous root of the origin that is not ahead of them; which error otherwise, and every field it has |
| OrderBatch.BuiltIsAccepted | src/execution/order_history_batch.zig:61-82 | Publishing takes a built batch exactly when it has entries, all encodable, no empty body, a valid origin and a barrier not below the floor; its keys never repeat |
| OrderBatch.ArchivedIsBound | src/execution/order_history_batch.zig:61-82 | Once published, the directory binds exactly the builder's identities anew, each to the digest of its own body |
| OrderArchive.DifferenceIsExact | src/execution/order_history_batch.zig:122-132 | For a subsequence of distinct intents the difference is exactly the intents not retained, in order |
| OrderArchive.NotRetainedHas | src/execution/order_history_batch.zig:122-132 | The difference has exactly the intents of the history that no retained one names |
| OrderArchive.PickedIsSubsequence | src/execution/order_history_batch.zig:122-132 | Intents picked from a history of distinct ones in rising order are a subsequence of it |
| StrategyTargets.TargetsAreOrdered | python/strategy_state.py:240-257 | An accepted frozen plan has 0 < absolute minimum <= holding target <= entry target |
| StrategyTargets.AcceptedIsExact | python/strategy_state.py:240-257 | Accepted are exactly the plans in one asset whose targets are the least amounts that reach the minimum and cover the rate or the matched ratio |
| StrategyTargets.HoldingIsMonotone | python/strategy_state.py:253-257 | The holding target grows with the matched ratio |
| StrategyTargets.FullyMatchedIsEntry | python/strategy_state.py:253-257 | At a full match it is the entry target |
| StrategyTargets.CeilingIsLeast | python/strategy_state.py:250-256 | Negated floor division is the least integer covering the quotient |
| StrategyTargets.CovarianceIsSemidefinite | python/strategy_state.py:212-217 | The test accepts exactly the symmetric matrices that are non-negative on every vector |
| StrategyTargets.NeighboursSuffice | python/strategy_state.py:186-188 | Comparing neighbours is enough for all values to be distinct and increasing |

## Left out

- HistoryDigests.NodeDigestInjective: SHA-256 is a free constructor per kind of input, so digests are injective and kinds never collide; collisions are not modelled.
- HistoryStore.ReadNode: pages and records are typed objects of the store; HistoryPageBytes ties a page to its 4096 bytes, with any function from digests to 32 bytes.
- HistoryStore.Objects.Write: which writes fail is a parameter; offsets are unbounded, and a store that alters what it holds is not modelled; readers then only report errors, and the guarantees are conditional on the tree being stored.
- HistorySort.SortKeeps: the library sort is an insertion sort; stability does not matter because keys are distinct.
- HistoryPublish.Publish: once the store is written to, the contract names the cause of each error, not which of several causes present at once is reported.
- DispatchSend.DurableGateway.SendFromShard: what admission establishes of the proof it builds is one predicate, and whether the shard's other facts admit a command is a parameter; so is the verdict of the latches, lease guards, reservations and position facts checked again at the venue boundary.
- DispatchSafety.AtMostOneCall: assumes that the shard never offers a command or an order again once it is archived, and that under a root that is already bound only the archive that bound it is reclaimed again, as for DispatchSafety.StepKeeps and DispatchSafety.RunKeeps; the configuration of routes and capacity is the same throughout a run.
- DispatchSafety.RestartIsExact: the runs are those of one configuration; what another set of routes does to a checkpoint is DispatchSnapshot.CheckpointIsUnobservable.
- DispatchSend.Store.Append: any failed store operation shuts the store's gate until a restart, as ADR 0004 of the repository decides; what failed may still have become durable. Operations report any of its errors as one.
- DispatchSend.DurableGateway.CheckpointDurable: the shortcut for a checkpoint with nothing new, and the sealing of segments, are not modelled.
- DispatchGateway.Gateway.AttachRecovered: record headers, sequence numbers and payload codecs are typed facts.
- DispatchGateway.Gateway.LoadSnapshot: of the route rows only the account is modelled, not the state of its safety gate.
- DispatchSend.DurableGateway.ReconcileRecovered: the order index's shortcut for consecutive identities is a scan, and commands of a whole account are left out.
- DispatchGateway.Gateway.ApplyDispatchArchive: reservations and exchange positions it also releases are not part of the tables.
- DispatchGateway.Gateway.MarkUncertain: the row's copied fields are those of its proof, since no caller passes others.
- The retry of an archived dispatch through a lookup, the export of evidence, and sends on behalf of a whole account.
- SpscRing.RingIsFifo: acquire and release are modelled as stale but once-published index values; no weaker memory order is considered, and indices do not wrap around.
- The shard inbox and the latency histogram of the benchmark: easy companions of the ring.
- HistoryProof.VerifyResult: the eight-bit overflow is an error value of its own; what a build does on overflow is not modelled.
- Journal.Journal.Append: the 64-bit overflow of the sequence is an error value of its own; what a build does on overflow is not modelled.
- JournalReader.CutReadsWholeRecords: the checksum is any function, so no corruption inside records is considered there.
- MarketProjection.Projection.Apply: instrument definitions carry only what the projection compares.
- HostCheckpoints.EncodeCheckpoint: the payload is any byte string; JSON parsing, canonical printing and the state digest are left out.
- HostFrames.Pipe.WriteFrame: flushing and broken pipes are not modelled.
- StrategyReplay.CuttingIsUnobservable: batches are contiguous when each last sequence is at least its first less one; the byte offsets of records inside a batch are replaced by a sequence of events.
- StrategyRecovery.RecoverOnce: the messages exchanged around recovery and activation, their identity and digest checks, the fault fixture, and the acknowledgement of a published intent are left out.
- StrategyTargets.CovarianceIsSemidefinite: matrix entries are reals, as the exact fractions of the code are; decoding of binary floating-point numbers is left out.
- StrategyTargets.TargetsAreOrdered: the matched ratio need not be in lowest terms; the other checks of a strategy state (windows, predictions, opportunities, exit evidence) are independent and easy.
- OrderArchive.Builder.Add: record values are given as their encoded bytes.
- OrderArchive.DifferenceIsExact: that the retained intents are a subsequence of the history is what the order-management module promises; it is not part of this model.
- Forced-archive proofs, venue and market-feed adapters, command lines, processes and networking.
