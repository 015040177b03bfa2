# Verified model of the chain ledger

This project models the block-chain core of the repository (`internal/blockchain`), the part of the
key-value storage it writes to (`internal/storage/binary`), and two self-contained pieces next to it: the
Merkle-root loops and the printer of the commented configuration file. It proves what these promise: that
connecting, disconnecting, rolling back, restarting and recovering move the node between states of one
well-formed chain, that value and address balances are conserved, that batches mean the same as single
blocks, and that validation and repair do what their names say. `dafny verify dfyconfig.toml` checks all of it.

## How the model is built

- **Store** (`Types`, `Storage`, `Ledger`). A `Store` holds one map per key family: block headers, the two
  height indexes, transactions, address history, unspent outputs with their spending marks and their address
  index, the stored tip, and the money supply per height. A write batch reads its own pending writes, and the
  committed store underneath wherever the storage code does (spending marks are judged orphaned against
  committed data, transactions are deleted by their committed body).
- **Chain state** (`ChainSpec`). The store together with the in-memory mirror: best block, hash and height,
  the block index and the known-block cache. Every operation is a function on chain states, with the branches,
  error cases and constants of the code.
- **Objects** (`Blockchain`, `RecoveryManagement`, `ChainValidation`, `CheckpointManagement`). Classes with
  the fields of the program and its loops; each method is proved to do exactly what its function says, and the
  theorems are about the functions. `Reorganization`, `Invalidation`, `ConfigPrinter` and `Merkle` hold methods
  of the same kind.
- **Reference** (`Chain`). `Build(chain)` is the store a chain stands for: its blocks are stacked on the genesis
  block, each on the previous one, and every spend carries the mark of the last block that makes it.
  `Batching.BuildIsSequential` shows that this is the store that committing the blocks one by one leaves, exactly
  when no output is spent by two of them. `Represents(state, chain)` (`Represent`) says that a state stands for a
  chain: its store is the one `Build` gives, up to the stored tip, to supplies recorded above it, and to marks
  that were cleared when a later spender of the same output was disconnected; its mirror shows the last block;
  and its caches name only stored blocks at their heights, with index nodes that share their parents.
- **What is relied on.** Transaction ids of new blocks are distinct and new, a block hash commits to its parent,
  and what is connected stands on the tip. Consensus and the network view are parameters (`Env`): block
  validation is an arbitrary accept or reject function of the level of checking, the committed store, the
  earlier blocks of the batch, the block and the height.

## What the proofs show beyond the expected

- Inside a batch, two blocks may spend the same output: the first spend looks orphaned until it is committed.
  One block at a time the second is refused. `Chunks.ChunkSizeDoesNotMatter` shows this is the only difference.
  `Chunks.BatchMissesRespend` shows that it is real: neither block spends anything twice, and yet the recorded
  supply falls by twice the value of the output while the unspent total falls by that value once.
- All theorems about runs cover such batches. Disconnecting the second spender clears the mark although the first
  spender stays on the chain; `RollbackProofs.RollbackForgets` and `Reachable.ConnectForgets` say exactly which
  spends a store forgets, and `RollbackProofs.CutIsIntactExactly` when a rolled-back store is the very store of
  the shorter chain. Rolling back to the start of a batch, or below it, undoes it exactly in every case
  (`Guarantees.RollbackUndoesConnects`).
- In the same way the ledger lets one block spend an output twice, and then subtracts its value twice from the
  money supply (`Balances.RespendCountsTwice`). The conservation laws carry what blocks count again and what the
  store forgot as exact terms, and are equalities if and only if these add up to zero.
- A single block without a parent is accepted, stored at height 0, and does not move the tip
  (`Reachable.AcceptedSingleExtendsTip`).
- Index repair reports success without repairing anything when the chain already stands at the rollback target,
  because a rollback to the current height returns before its clean-up (`ValidatorProofs.RepairAtTargetDoesNothing`).
- The corruption search answers "nothing broken" for a first block that does not link to genesis
  (`RecoveryProofs.UnlinkedFirstBlockMissed`).
- A rollback leaves the node higher than before exactly when it fails half-way and the block it disconnected last
  was indexed at height 0 or more than one above the tip (`HeightSafety.RollbackRaisesExactly`), which disagreeing
  indexes allow (`HeightSafety.DisagreeingIndexRaisesHeight`).
- `InvalidateBlock` announces a reorganization for a block on the main chain, but tests for the main chain after
  overwriting the status the test reads (internal/blockchain/invalidation.go:43-58), so it never rolls back
  (`Invalidation.InvalidateBlock`).
- After a restart the block index holds only the tip, so the search for a fork finds no common ancestor for any
  block of the chain below it (`Reorganization.RestartForgetsMain`).
- The clean-up of an orphaned block announces the effect of a disconnect (internal/storage/binary/interface_impl.go:336-344).
  For a connected block it has that effect exactly when the block spends none of its own outputs; any it does
  spend is deleted and then written back as unspent (`OrphanRelease.CleanupMatchesDisconnect`).
- `FindForkPoint` tests whether a height above the nearest checkpoint is a checkpoint, which never succeeds
  (internal/blockchain/recovery.go:113-125); `AddCheckpoint` repeats a comparison that has just succeeded
  (internal/blockchain/invalidation.go:202-222); and the reorganization branch for an already stored single block
  is cut off by the prefix filter (internal/blockchain/unified_processor.go:298-337).
- A batch of several blocks on an older stored parent is not tested against the tip: it goes through and replaces
  height entries of the chain it leaves standing, without moving the tip if it ends no higher
  (`BatchChecks.GoesThroughExactly`, `BatchChecks.BlocksStand`).
- The deletion of leftover blocks that recovery and index repair run after a rollback never finds one, in any store:
  the rollback has removed or passed over every block up to the old tip (`RecoveryOutcomes.CleanUpFindsNothing`).
- From a bad checkpoint the handler looks for the last good one and hands its height to the recovery, which takes it
  for a failed checkpoint and goes back to the one below it (`ValidationOutcomes.BadCheckpointHandled`).
- The branch at internal/blockchain/blockchain.go:924-938 expects reading an unset tip to fail; the storage returns
  the zero hash instead, so the branch after it is the one that applies. The model follows the storage.

## Model

| member | source | states |
|---|---|---|
| UtxoFacts.MarkExactly | internal/storage/binary/batch.go:211-435 | an output can be spent exactly when it is stored and is unspent, orphaned, or already carries this very spend; the mark and the address index change accordingly |
| UtxoFacts.MarkOutcomes | internal/storage/binary/batch.go:211-435 | a spend marks its output and takes it off its address, or fails: unknown output, spent for real by this transaction at another height, or by another transaction |
| UtxoFacts.ScriptAddresses | internal/storage/binary/batch.go:145-181 | a script is listed under an address exactly when it pays to a hash160 that is not all zeros |
| UtxoFacts.SpendInputsExactly | internal/blockchain/unified_processor.go:656-680 | spending a list of inputs succeeds exactly when each may be spent, marks exactly those, and captures exactly their outputs |
| BlockFacts.ApplyTxsExactly | internal/blockchain/unified_processor.go:652-701 | after a block the unspent outputs are the old ones plus those created, with exactly the block's inputs marked by one of its transactions |
| HistoryFacts.IndexTxsExactly | internal/blockchain/unified_processor.go:106-164 | indexing adds one history entry per addressed input and output and changes no other |
| HistoryFacts.IndexedEntriesAre | internal/blockchain/unified_processor.go:106-164 | the entry of an addressed output or input carries its value, its block and its direction, at its position |
| HistoryFacts.HistoryKeysAre | internal/storage/binary/batch.go:719-749 | the first 32768 addressed outputs and inputs of a transaction have a history key, with the position in the low bits and the high bit for inputs; later ones have none |
| HistoryFacts.SpentOutputsInOrder | internal/blockchain/unified_processor.go:42-83 | what a list of inputs spends is found in input order, captured or through the transaction index, and skipped where it is in neither |
| HistoryFacts.DeleteTransactionsExactly | internal/storage/binary/batch.go:643-706 | deleting a block's transactions removes exactly their records and history keys |
| Inverse.ConnectKeepsLedger | internal/blockchain/unified_processor.go:629-756 | connecting a new block, in a batch or alone, keeps the ledger invariant: outputs match their transactions, spends are live, history has its transactions |
| Inverse.UndoTxsExactly | internal/blockchain/process.go:93-139 | undoing a block's transactions from last to first always succeeds, takes back what the block created, and clears exactly the marks of what it spent, whether or not they were still set |
| Inverse.UndoTxsRestores | internal/blockchain/process.go:93-139 | undoing a block applied on its own restores the unspent outputs, including those created and spent inside the block |
| Inverse.DisconnectExactly | internal/blockchain/process.go:81-176 | disconnecting the block on top, even where marks were cleared since, restores transactions, history, block data and both indexes, and clears exactly the marks of what the block spent |
| Inverse.DisconnectUndoesConnect | internal/blockchain/process.go:81-176 | disconnecting a just connected block restores unspent outputs, transactions, history and both indexes exactly, and puts the tip on the parent |
| Availability.ApplyExactlyWhen | internal/blockchain/unified_processor.go:652-701 | new transactions apply exactly when every input is unspent or created earlier in the block |
| Availability.SingleGoesThroughExactlyWhen | internal/blockchain/unified_processor.go:238-620 | a new block on the tip that passes its checks is connected exactly when everything it spends is there to be spent |
| Availability.CoinbaseAlwaysGoesThrough | internal/blockchain/unified_processor.go:238-620 | a checked new block with only a coinbase always extends the chain, as an allowed step of a run |
| OrphanRelease.CleanupLeavesExactly | internal/storage/binary/interface_impl.go:345-492 | cleaning up a connected block as an orphan restores the earlier outputs, and writes back those the block both created and spent |
| OrphanRelease.CleanupMatchesDisconnect | internal/storage/binary/interface_impl.go:336-492 | that clean-up matches a disconnect exactly when the block spends none of its own outputs |
| Merkle.BuilderRoot | internal/consensus/block_builder.go:153-180 | the padding loop of the block builder computes the recursive root: zero for no transactions, the id of a single one, the pair hash of two |
| Merkle.BlockRoot | pkg/types/block.go:182-221 | the loop of the block type computes the same root, with the same three first cases |
| Merkle.RootIsTop | internal/consensus/block_builder.go:153-180 | the root is the one node on top of the tree that pairs neighbours level by level, a last node without a neighbour with itself |
| Merkle.RootJoins | internal/consensus/block_builder.go:153-180 | two lists of the same length 2^k have as their joint root the pair hash of their roots |
| Merkle.PaddingKeepsRoot | internal/consensus/block_builder.go:165-176 | a list of odd length above one has the root of the list with its last element repeated |
| Merkle.RootBinds | internal/consensus/block_builder.go:153-189 | lists of equal length have equal roots exactly when they are equal, for a pair hash without collisions |
| Conservation.BlockMovesTotal | internal/blockchain/unified_processor.go:643-738 | whatever is committed underneath, a block moves the unspent total, under any weighing of outputs, by outputs minus inputs plus what it counts again, and its running sums are those sums |
| Conservation.SpendsOnceNoRepeats | internal/blockchain/unified_processor.go:643-738 | a block that spends no output twice, and none that was spent before, counts nothing again |
| AddressBalance.ConnectMovesBalances | internal/blockchain/unified_processor.go:85-164 | a block, in a batch or alone, moves every address's history balance and unspent balance alike, up to what it spends that was already spent |
| AddressBalance.ConnectMovesSupply | internal/blockchain/unified_processor.go:703-738 | a block, in a batch or alone, moves the recorded supply and the unspent total alike, up to what it spends that was already spent |
| CommittedFacts.ConnectSame | internal/blockchain/unified_processor.go:629-756 | the same block on the same pending store gives the same result against any two committed stores that agree on what it spends and on the supply below |
| CommittedFacts.ConnectWorn | internal/blockchain/unified_processor.go:629-756 | a block that connects on a store with cleared marks connects, with nothing committed, on the store that has them, and the results again differ in cleared marks only |
| Chain.BuiltIsShaped | internal/blockchain/unified_processor.go:580-608 | a built chain has contiguous heights, inverse indexes, readable blocks, and parents one height below |
| Chain.BuiltMarks | internal/storage/binary/batch.go:211-435 | in a built chain exactly the outputs its blocks spend exist and are marked spent |
| Represent.IntactExactly | internal/storage/binary/batch.go:211-435 | a store of a chain is the very one the chain builds, up to tip and supplies, exactly when it forgets no spend |
| Batching.ApplyHolds | internal/blockchain/unified_processor.go:416-517 | whatever batch on the tip goes through, second spends included, its pending store is one of the longer chain |
| Batching.ApplyIsGrow | internal/blockchain/unified_processor.go:416-517 | a batch on the tip goes through exactly when its blocks, committed one by one, connect and are accepted, apart from an output spent by two of its blocks; without one it leaves the very same store |
| Batching.BuildIsSequential | internal/blockchain/unified_processor.go:416-517 | committing the blocks of a chain one by one gives the store the chain builds, exactly when no output is spent by two of them |
| Reachable.NoneStored | internal/blockchain/unified_processor.go:245-274 | once the stored prefix of a linked batch is dropped, no later block of it is stored |
| Reachable.AcceptedSingleExtendsTip | internal/blockchain/unified_processor.go:281-385 | an accepted single block raises the tip by one onto itself exactly when it names a parent |
| Reachable.IndexAllExactly | internal/blockchain/process.go:319-353 | after a batch the index holds the old nodes and the new blocks, at their heights, with work equal to height |
| Reachable.IndexStaysRooted | internal/blockchain/process.go:319-353 | new index nodes point to the very nodes the index has for their parents |
| Reachable.BatchContinues | internal/blockchain/unified_processor.go:168-181 | the first new block of a checked batch stands one above the tip |
| Reachable.BatchExtendsChain | internal/blockchain/unified_processor.go:238-620 | a batch that goes through extends the chain by exactly its new blocks and marks only unspent outputs; a batch that fails changes nothing |
| Reachable.ConnectForgets | internal/blockchain/unified_processor.go:238-620 | after a batch exactly those spends are forgotten that were before and that the batch does not make again |
| Reachable.BatchKeepsCheckpoints | internal/blockchain/unified_processor.go:443-449 | what goes through passed its checkpoints |
| BatchChecks.GoesThroughExactly | internal/blockchain/unified_processor.go:238-517 | from every state, a batch goes through exactly when some of it is new and the new blocks form one duplicate-free branch on a stored parent, each with transactions, a minting one first and the right Merkle root, a lone one not behind the tip, and they apply from above the parent; several blocks on an older parent go through like any others |
| BatchChecks.WhatGoesThroughPassed | internal/blockchain/unified_processor.go:425-500 | every block a batch added has transactions, a minting one first, the Merkle root its header names, the hash its checkpoint asks for, and the consent of the consensus engine at the level its height, its batch and the download call for |
| BatchChecks.LoneBlockAcceptedInFull | internal/blockchain/unified_processor.go:475-486 | a single block that goes through outside the initial download was accepted at the full level |
| BatchChecks.UnsealedIsRefused | internal/blockchain/unified_processor.go:842-899 | one branch on a stored parent with a block that is empty, does not start with a minting transaction, or names another Merkle root is refused and nothing changes |
| BatchChecks.OtherRefusals | internal/blockchain/unified_processor.go:238-412 | each other refusal: all stored, unknown parent, lone block not above the tip, no branch, parent without a height |
| BatchChecks.NextBlockRefused | internal/blockchain/unified_processor.go:425-517 | the next block of a batch is refused for its checkpoint, else by the consensus engine, else because it cannot be connected |
| BatchChecks.BlocksStand | internal/blockchain/unified_processor.go:520-620 | from every state and parent, the new blocks of a batch that goes through stand one above the other from above the parent, in the store and in both caches, and the tip moves to the last one exactly when that is higher |
| RollbackProofs.DisconnectTip | internal/blockchain/process.go:81-186 | disconnecting the tip always succeeds and gives a state of the shorter chain, with exactly the marks of what it spent cleared |
| RollbackProofs.WalkDown | internal/blockchain/recovery.go:618-641 | walking down disconnects exactly to the target, the state stands for the chain cut there, and exactly the marks of the removed blocks are cleared |
| RollbackProofs.RollbackRestores | internal/blockchain/recovery.go:575-676 | a rollback within the depth limit succeeds and gives a state of the chain cut at the target, with the stored tip naming it |
| RollbackProofs.RollbackForgets | internal/blockchain/recovery.go:575-676 | after a rollback a spend of the remaining chain is forgotten exactly when it was before, or a removed block had spent the same output |
| RollbackProofs.CutIsIntactExactly | internal/blockchain/recovery.go:575-676 | from a state that forgets nothing, the state after a rollback is the very one of the shorter chain exactly when no output is spent on both sides of the cut |
| RollbackProofs.NothingToClean | internal/blockchain/recovery.go:643-654 | on a state of a chain the clean-ups after a rollback find nothing |
| RecoveryOutcomes.RollbackEnds | internal/blockchain/recovery.go:575-676 | from every store, a rollback that moves and succeeds has its target as tip in store and memory, keeps no hash entry and no known block above it, and finds no block from there up to the old tip |
| RecoveryOutcomes.RollbackRefuses | internal/blockchain/recovery.go:575-602 | a rollback to the current height does nothing; above the tip, too deep or without a block at the target it is refused and changes nothing |
| ChainOutcomes.DisconnectMoves | internal/blockchain/process.go:81-205 | from every store, exactly which entries a disconnect drops, where the stored tip goes, and when memory follows or stays behind |
| Runs.RestartFindsChain | internal/blockchain/blockchain.go:900-1006 | loading a store that holds a chain finds that chain again |
| Runs.FirstStartThenRestart | internal/blockchain/blockchain.go:1009-1053 | a first start stores genesis, and the next start stands on it |
| Runs.FirstStartIsReady | internal/blockchain/blockchain.go:900-1053 | after a first start the store, tip and caches are those of the genesis chain, with only the in-memory best block unset |
| Runs.FirstBatchStands | internal/blockchain/unified_processor.go:238-620 | the first batch after a first start extends genesis like any other |
| ChainOutcomes.LoadReadsStore | internal/blockchain/blockchain.go:900-1006 | where genesis is stored a start writes nothing and takes over the stored tip, readable or not, or stands on genesis without one; exactly what is in both caches |
| ChainOutcomes.LoadAddsGenesis | internal/blockchain/blockchain.go:900-1053 | otherwise a start adds the built-in genesis at height 0, or fails and changes nothing |
| ChainOutcomes.GenesisHeightIsIndexed | internal/blockchain/blockchain.go:1009-1053 | after adding genesis some block is indexed at height 0, itself if none was |
| Runs.ChunksExtendChain | internal/blockchain/unified_processor.go:196-234 | chunk after chunk the chain only grows, and only unspent outputs are marked |
| Runs.RollBackCuts | internal/blockchain/recovery.go:575-676 | rolling back to any height cuts the chain there or, if it is above the tip or too deep, changes nothing |
| Runs.RunKeepsChain | internal/blockchain/unified_processor.go:196-620 | every run of connects on the tip, disconnects, rollbacks and restarts ends in a state of one chain from the same genesis, with checkpoints kept; without second spends inside a chunk, no spend is ever forgotten or made twice |
| Guarantees.ReachableIsSound | internal/blockchain/unified_processor.go:580-608 | every reachable state has contiguous heights, inverse indexes, linked parents, matching tips, work equal to height, and lookups that agree with the store |
| Guarantees.RepresentsCaches | internal/blockchain/blockchain.go:730-764 | HasBlock, GetBlockHeight and hasBlock answer what the store answers |
| Guarantees.HeightsOverlay | internal/blockchain/blockchain.go:743-764 | while a batch is open, a height lookup answers from the store overlaid with the batch |
| Guarantees.BatchIsSeenOnTop | internal/blockchain/blockchain.go:743-764 | so while a batch is open its blocks are found one above the other on the chain, and all others where they are stored |
| Guarantees.RollbackUndoesConnects | internal/blockchain/recovery.go:575-676 | after any connects, rolling back to any earlier height within the limit gives what rolling back the earlier state gives: outputs, marks, transactions, history, indexes, supplies, tip and lookups; at the earlier tip, the earlier state |
| Guarantees.EveryCommitIsAChain | internal/blockchain/recovery.go:618-641 | after each commit of a rollback the state is one of the chain cut there, and resuming gives what the whole rollback gives; it is the very store of that chain exactly when no output is spent on both sides of the cut |
| Guarantees.ApartRunIsSequential | internal/blockchain/unified_processor.go:196-620 | a run without second spends inside a chunk ends in the store that committing the blocks of its chain one by one gives |
| Balances.RecordedSupplyIsUnspentTotal | internal/blockchain/unified_processor.go:703-738 | at every height of a reachable state the recorded supply is the unspent total the chain cut there leaves, exactly when its blocks counted nothing again |
| Balances.SupplyAtTipIsUnspentTotal | internal/blockchain/unified_processor.go:703-738 | at the tip of a reachable state the recorded supply is the unspent total of the store, exactly when what was counted again and what was forgotten add up to nothing |
| Balances.HistoryIsUnspent | internal/blockchain/unified_processor.go:85-164 | for every address of a reachable state, history received minus sent is the total of its unspent outputs, exactly when what was counted again of it and what was forgotten of it add up to nothing |
| Balances.RespendCountsTwice | internal/blockchain/unified_processor.go:656-680 | one block can spend an output twice, and then its value is subtracted twice |
| Chunks.FailingChunkStops | internal/blockchain/unified_processor.go:196-234 | a failing list leaves exactly the state its preceding whole chunks leave |
| ChainOutcomes.CutIntoParts | internal/blockchain/unified_processor.go:196-234 | a list is cut into parts of 500 from the front, each applied to what the parts before it left; the answer is that of the first part that fails or of the last one |
| Chunks.ChunkSizeDoesNotMatter | internal/blockchain/unified_processor.go:196-234 | from every reachable state, accepted new blocks go through one at a time exactly when they go through in chunks of any size and no two spend the same output; then the states are equal |
| Chunks.BatchMissesRespend | internal/storage/binary/batch.go:211-435 | two blocks that spend the same output go through in one batch and not one at a time; the recorded supply then falls by twice its value, the unspent total by its value |
| Blockchain.BlockChain.ApplyBlockToBatch | internal/blockchain/unified_processor.go:629-756 | the loops leave the batch, the supply cache and the captured outputs as ApplyBlock says, for which ApplyTxsExactly and the conservation laws hold, or report its error |
| Blockchain.BlockChain.GetSpentOutputsForTx | internal/blockchain/unified_processor.go:42-83 | returns the spent outputs in input order, captured ones first, then stored ones, others skipped |
| Blockchain.BlockChain.IndexTransactionAddresses | internal/blockchain/unified_processor.go:106-164 | writes one entry per addressed input and output with a key of its own, as IndexTx, which IndexTxsExactly characterises |
| Blockchain.BlockChain.PreValidateBatch | internal/blockchain/unified_processor.go:842-899 | accepts exactly when the parent is stored or zero, each block names the one before it, no hash repeats, and every block has transactions, a coinbase or coinstake first, and the Merkle root of its header |
| Blockchain.BlockChain.ProcessBatchInternal | internal/blockchain/unified_processor.go:238-620 | outcome, store and mirror after one atomic batch are those of ProcessBatch, of which BatchExtendsChain speaks |
| Blockchain.BlockChain.ProcessBatchUnified | internal/blockchain/unified_processor.go:196-234 | outcome, store and mirror after cutting a list into chunks of 500 are those of Process, of which ChunkSizeDoesNotMatter speaks |
| Blockchain.BlockChain.DisconnectBlock | internal/blockchain/process.go:81-205 | outcome, store and mirror are those of Disconnect, the inverse of a connect |
| Blockchain.BlockChain.CleanKnownBlocksAboveHeight | internal/blockchain/blockchain.go:1106-1124 | removes exactly the known blocks above the height |
| Blockchain.BlockChain.BuildIndex | internal/blockchain/blockchain.go:1065-1101 | indexes the tip and every stored height |
| Blockchain.BlockChain.Load | internal/blockchain/blockchain.go:900-1006 | outcome and state after a start are those of LoadChainState, which finds a stored chain again |
| Blockchain.BlockChain.ValidateChainSegment | internal/blockchain/blockchain.go:543-609 | succeeds exactly as the walk SegmentExactly characterises, with its errors |
| CheckpointManagement.CheckpointManager.constructor | internal/blockchain/checkpoints.go:43-92 | loading a list gives its table, of which TableExactly speaks, with the last height on top |
| CheckpointManagement.TableExactly | internal/blockchain/checkpoints.go:43-92 | the table has exactly the listed heights, each with the hash listed last for it |
| CheckpointManagement.CheckpointManager.ValidateCheckpoint | internal/blockchain/checkpoints.go:113-130 | fails exactly for a blacklisted block or a mismatch |
| CheckpointManagement.CheckpointManager.GetNearestCheckpoint | internal/blockchain/checkpoints.go:163-177 | finds the highest checkpoint at or below a height, never the one at height 0 |
| CheckpointManagement.CheckpointManager.GetLastCheckpointHeight | internal/blockchain/checkpoints.go:139-141 | no checkpoint lies above it, and it is one unless it is 0 |
| CheckpointManagement.CheckpointManager.ValidateChainCheckpoints | internal/blockchain/blockchain.go:476-538 | succeeds exactly when every stored checkpoint height up to the tip has the expected block, and otherwise names the lowest that has not |
| RecoveryManagement.RecoveryManager.RollbackToHeight | internal/blockchain/recovery.go:575-676 | outcome, store and mirror are those of Rollback, which undoes connects |
| RecoveryManagement.RecoveryManager.CleanOrphanedDataAbove | internal/blockchain/recovery.go:803-846 | deletes the blocks still found above, as far as they can be deleted |
| RecoveryManagement.RecoveryManager.ResetIndex | internal/blockchain/recovery.go:849-872 | drops exactly the index nodes above the height |
| RecoveryManagement.RecoveryManager.FindActualCorruptionPoint | internal/blockchain/recovery.go:250-353 | a positive result names a break; if block 1 links to genesis, 0 means exactly that every searched height links |
| RecoveryManagement.RecoveryManager.FindForkPoint | internal/blockchain/recovery.go:84-163 | nothing between the fork point and the error ends a valid segment |
| RecoveryManagement.RecoveryManager.FindCheckpointBeforeMismatch | internal/blockchain/recovery.go:166-247 | the highest checkpoint below the failed one if its block is found as expected; if no block is found there, the next one below if found as expected; otherwise 0 |
| RecoveryManagement.RecoveryManager.Recover | internal/blockchain/recovery.go:356-572 | outcome, chain, attempts, stale counter and metrics are those of RecoverFromFork, of which the recovery theorems speak |
| RecoveryProofs.CorruptionPointFindsBreak | internal/blockchain/recovery.go:250-353 | a positive result names a break; 0 means exactly that the searched window is linked, or the search ran into an unlinked first block |
| RecoveryProofs.ZeroMeansSound | internal/blockchain/recovery.go:250-353 | if block 1 links to genesis, 0 means exactly that every searched height is there and linked |
| RecoveryProofs.UnlinkedFirstBlockMissed | internal/blockchain/recovery.go:279-313 | a concrete store where 0 is returned and block 1 is unlinked |
| RecoveryOutcomes.CorruptionPointExactly | internal/blockchain/recovery.go:250-353 | exactly which height the search names, from the highest of the last 1001 heights that is missing or does not join the one below: the height below an unjoined block, the missing height above a joined block, the height below an unjoined block under the gap, or the lowest height searched |
| RecoveryOutcomes.NoBreakNoCorruption | internal/blockchain/recovery.go:250-353 | without such a height the search answers 0 |
| RecoveryProofs.SegmentExactly | internal/blockchain/blockchain.go:566-599 | a segment is valid exactly when every block on the way is readable and checkpoint-correct |
| RecoveryOutcomes.StandingExactly | internal/blockchain/recovery.go:153-163 | a height can be stood on exactly when its block and its nearest ancestors, ten blocks in all or down to height 1, are readable and meet their checkpoints |
| RecoveryOutcomes.SegmentRefuses | internal/blockchain/blockchain.go:543-609 | a segment is refused for an empty range, for a top height without a hash, and otherwise exactly when some block on the way is unreadable or fails its checkpoint |
| RecoveryProofs.ForkPointIsHighest | internal/blockchain/recovery.go:84-150 | the fork point is the highest height that ends a valid segment, never below the nearest checkpoint |
| RecoveryProofs.CheckpointBeforeExactly | internal/blockchain/recovery.go:166-247 | in terms of the checkpoints and the store alone: the highest checkpoint below, the next one below if no block is found there, and 0 in exactly the remaining cases |
| RecoveryProofs.SoundChainIsNotBroken | internal/blockchain/recovery.go:250-353 | no reachable state is found broken |
| RecoveryProofs.AttemptsCounted | internal/blockchain/recovery.go:356-388 | success forgets attempts, failure counts one, and at three nothing is touched |
| RecoveryOutcomes.RecoveryIsCounted | internal/blockchain/recovery.go:356-572 | from every state, what a recovery leaves in its attempts, stale count, phase and metrics, by its outcome |
| RecoveryOutcomes.RecoveryArrives | internal/blockchain/recovery.go:356-572 | from every store, a successful recovery stands at the height it went back to, no indexed node lies above it, and if it moved no known block or hash entry does, and no block is found from there up to the old tip |
| RecoveryOutcomes.CleanUpFindsNothing | internal/blockchain/recovery.go:803-846 | from every store, the deletion of leftover blocks that recovery and index repair run after a rollback finds nothing to delete |
| RecoveryOutcomes.StaleLandsOnBlock | internal/blockchain/recovery.go:463-495 | a stale rollback that succeeds stands on a readable block |
| RecoveryOutcomes.CleaningKeeps | internal/blockchain/recovery.go:803-846 | the deletion of leftover blocks keeps every block that no height in its range names, with its height, and all unspent outputs |
| RecoveryProofs.AttemptsStayBounded | internal/blockchain/recovery.go:370-379 | attempts never exceed three over any run of recoveries |
| RecoveryProofs.ThreeFailuresAreFinal | internal/blockchain/recovery.go:370-379 | after three failures in a row no later recovery touches the chain |
| HeightSafety.RollbackRaisesExactly | internal/blockchain/recovery.go:575-676 | a rollback ends higher than it started exactly when its walk fails at some height and the block it disconnected last was indexed so that its predecessor lies above the tip |
| HeightSafety.RecoveryRaisesExactly | internal/blockchain/recovery.go:356-572 | a recovery ends higher than it started exactly when its one rollback does |
| HeightSafety.HandlerRaisesExactly | internal/blockchain/chain_validator.go:442-553 | a repair handler ends higher than it started exactly when the recovery it calls does |
| HeightSafety.HeightNeverRises | internal/blockchain/recovery.go:356-676 | over any run of recoveries the height never rises above its start, as long as no block found up to there is indexed at 0 or more than one above it |
| HeightSafety.DisagreeingIndexRaisesHeight | internal/blockchain/process.go:155-176 | a concrete store with disagreeing indexes where a failing rollback leaves the height at 49 instead of 2 |
| RecoveryRuns.StaleStep | internal/blockchain/recovery.go:447-514 | a recovery on a sound chain drops min(10k, 500) blocks and never reaches genesis, or leaves a shorter chain alone |
| RecoveryRuns.StaleRun | internal/blockchain/recovery.go:447-514 | recoveries in a row each drop their stretch, and the state stands on the chain cut there |
| RecoveryRuns.DroppedInAll | internal/blockchain/recovery.go:457-461 | n recoveries drop 5n(n+1) blocks for n up to 50, and 500 more for each one after |
| RecoveryRuns.RecoveriesCut | internal/blockchain/recovery.go:356-572 | any run of recoveries on a sound chain ends on a prefix of that chain |
| ChainValidation.ChainValidator.FullValidate | internal/blockchain/chain_validator.go:75-253 | passes exactly when every block to the tip is stored, linked and checkpoint-correct and the stored tip is the top |
| ChainValidation.ChainValidator.QuickValidate | internal/blockchain/chain_validator.go:256-320 | accepts exactly when genesis and the stored tip are readable, the stored height is that of the tip, and every checkpoint up to it is indexed with its expected hash |
| ChainValidation.ChainValidator.SmartValidate | internal/blockchain/chain_validator.go:323-411 | the verdict that SmartFindsLowest characterises |
| ChainValidation.ChainValidator.ValidateChainIntegrity | internal/blockchain/chain_validator.go:60-71 | outcome and state after a pass in any of the three modes and the handler its verdict calls for |
| ChainValidation.ChainValidator.HandleChainGap | internal/blockchain/chain_validator.go:442-489 | recovery below the gap, then a readable tip |
| ChainValidation.ChainValidator.HandleCheckpointFailure | internal/blockchain/chain_validator.go:492-530 | recovery from the last matching checkpoint, or failure without one |
| ChainValidation.ChainValidator.CheckIndexConsistency | internal/blockchain/chain_validator.go:567-649 | the mismatching entries in key order, none exactly when every entry round-trips |
| ChainValidation.ChainValidator.RecoverFromIndexInconsistency | internal/blockchain/chain_validator.go:654-720 | outcome, store and mirror are those of RepairIndexes, of which RepairLands, RepairStartsExactly and RepairCleansExactly speak |
| ValidatorProofs.FullPassesExactly | internal/blockchain/chain_validator.go:75-253 | a full pass calls no handler exactly when every block to the tip is stored, linked and checkpoint-correct and the stored tip is the top |
| ValidatorProofs.FullFindsLowest | internal/blockchain/chain_validator.go:157-222 | a handler is called for the lowest bad height |
| ValidationOutcomes.FullReports | internal/blockchain/chain_validator.go:75-253 | what each verdict of a full pass means: a gap is a height not linked to the one below, a bad checkpoint a linked one with another hash, a mismatch names the hash on top |
| ValidationOutcomes.GapHandled | internal/blockchain/chain_validator.go:442-489 | from a gap, where recovery ends: the safe checkpoint below a checkpoint height, ten blocks down when nothing is broken, failure on at most ten blocks; done means a readable tip |
| ValidationOutcomes.BadCheckpointHandled | internal/blockchain/chain_validator.go:492-530 | from a bad checkpoint recovery ends at the safe checkpoint below the last good one, not at the last good one; without a good one nothing changes |
| ValidatorProofs.MismatchIsRepaired | internal/blockchain/chain_validator.go:533-553 | where only the stored tip was wrong, the next full pass succeeds |
| ValidatorProofs.ReachablePasses | internal/blockchain/chain_validator.go:75-253 | every reachable state passes full validation |
| ValidatorProofs.ChainAgreesExactly | internal/blockchain/blockchain.go:476-538 | a reachable state agrees with the whole checkpoint table exactly when its genesis block does |
| ValidatorProofs.SmartPassesExactly | internal/blockchain/chain_validator.go:323-411 | smart mode accepts a long chain exactly on the quick check, every 1000th block with its parent, and a linked tail |
| ValidationOutcomes.ShortChainsInFull | internal/blockchain/chain_validator.go:323-334 | below 100000 blocks smart mode is full mode |
| ValidationOutcomes.QuickPassesExactly | internal/blockchain/chain_validator.go:256-320 | quick mode passes exactly when genesis and stored tip are readable, the heights agree and every checkpoint up to the tip is indexed with its hash; otherwise it fails and changes nothing |
| ValidationOutcomes.SmartFindsLowest | internal/blockchain/chain_validator.go:323-411 | from 100000 blocks on, smart mode passes exactly when quick mode does, every 1000th block below the tail has a readable parent, and the last 1001 blocks are linked; a gap it reports is the lowest bad sample, or the lowest bad height of the tail |
| ValidatorProofs.SmartAcceptsWhatFullAccepts | internal/blockchain/chain_validator.go:256-411 | of what full mode accepts, smart mode accepts exactly short chains and those whose height-0 entry matches its checkpoint |
| ValidatorProofs.LastGoodIsHighest | internal/blockchain/chain_validator.go:498-511 | the checkpoint gone back to is the highest matching one below the failure |
| HeightSafety.HandlersOnlyLower | internal/blockchain/chain_validator.go:442-553 | under the same condition no handler raises the height, and a gap that counts as repaired leaves a readable tip |
| ValidatorProofs.CheckFindsExactly | internal/blockchain/chain_validator.go:567-649 | the check reports every entry that does not round-trip and nothing else |
| ValidationOutcomes.CheckIsSorted | internal/blockchain/chain_validator.go:567-649 | the report comes in key order, each entry once, with the hash its height names instead |
| ValidatorProofs.SoundIndexesAreConsistent | internal/blockchain/chain_validator.go:567-649 | reachable states have consistent indexes |
| ValidatorProofs.CleanDropsExactly | internal/storage/binary/interface_impl.go:296-334 | the orphan clean-up leaves exactly the hash entries at or below the height, with their blocks, and drops exactly the height entries that a dropped hash entry agreed with |
| ValidatorProofs.DeletesAllIndexed | internal/blockchain/recovery.go:803-846 | after the deletion a block is still found above only if its hash is no longer indexed |
| ValidatorProofs.RepairCleans | internal/blockchain/chain_validator.go:654-720 | a repair that rolled something back leaves nothing for a second check; surviving entries and caches are at or below the target and round-trip |
| ValidationOutcomes.RepairLands | internal/blockchain/chain_validator.go:654-720 | a repair that succeeds leaves the chain two below the least height with a mismatch, or at genesis, on a readable block, with no indexed node above and no block found from there to the old tip |
| ValidationOutcomes.RepairStartsExactly | internal/blockchain/chain_validator.go:654-690 | a repair is refused when the chain stands lower than that, or too far above, or no block is found there |
| ValidationOutcomes.RepairKeepsBelow | internal/blockchain/chain_validator.go:654-720 | no block indexed at or below where a repair lands is disconnected, as long as no block is found at two heights |
| ValidatorProofs.RepairAtTargetDoesNothing | internal/blockchain/recovery.go:580-583 | at the target a repair reports success over unchanged indexes |
| ValidatorProofs.RepairCleansExactly | internal/blockchain/chain_validator.go:654-720 | a successful repair leaves nothing for a second check exactly when the chain stood above the target |
| Reorganization.FindForkPoint | internal/blockchain/reorg.go:70-116 | whenever its walks stop, the two loops compute the two paths or their error |
| Reorganization.GetReorgInfo | internal/blockchain/reorg.go:192-215 | whenever the walks stop, announces the fork, both heights and the lengths of both ways |
| Reorganization.ForkIsCommonAncestor | internal/blockchain/reorg.go:70-116 | the fork is a common ancestor on the main chain, with linked ways up to the new tip and down from the current one |
| Reorganization.ForkIsHighest | internal/blockchain/reorg.go:70-116 | if Connected marks exactly the main chain, the search fails only for an unconnected branch and the fork is the highest common ancestor |
| Reorganization.NewHeightIsTrue | internal/blockchain/reorg.go:207-212 | the announced height of the new tip is its true height exactly when the fork's stored height is |
| Reorganization.ReorgOnChain | internal/blockchain/reorg.go:70-215 | on a reachable state the search ends for every block of the chain, finds the highest indexed block at or below it, and announces its true height and the true lengths of both ways; it fails exactly when none is indexed |
| Reorganization.MarksMainExactly | internal/blockchain/blockchain.go:767-777 | on a reachable state Connected marks exactly the main chain exactly when genesis is indexed |
| Reorganization.RestartForgetsMain | internal/blockchain/blockchain.go:1065-1101 | after a restart above genesis the search for any block of the chain below the tip finds no common ancestor |
| Reorganization.TipIsNeverBeaten | internal/blockchain/reorg.go:132-157 | no indexed block of a reachable state calls for a reorganization |
| Invalidation.FindBestValidAncestor | internal/blockchain/invalidation.go:278-322 | the walk ends on every parent graph, with the nearest ancestor not marked invalid, genesis, or the reason there is none |
| Invalidation.BestValidIsNearest | internal/blockchain/invalidation.go:278-322 | the result is the nearest ancestor not marked invalid, genesis if all are, or the reason there is none, cycles included |
| Invalidation.IsDescendantOf | internal/blockchain/invalidation.go:258-275 | walks the parents of an indexed block |
| Invalidation.MarkDescendantsInvalid | internal/blockchain/invalidation.go:235-255 | marks exactly the indexed descendants, in the store and on their nodes wherever these are pointed to |
| Invalidation.MarkingStaysClosed | internal/blockchain/invalidation.go:235-255 | on an index whose nodes share their parents, the invalid set stays closed under indexed descendants, and the index stays so |
| Invalidation.InvalidateBlock | internal/blockchain/invalidation.go:12-108 | marks the block and its indexed descendants, and leaves the chain where it is |
| Invalidation.ValidAncestorIsClear | internal/blockchain/invalidation.go:12-322 | after a block of a reachable chain is invalidated, the search finds the nearest unmarked block below it, or genesis, and no indexed ancestor of an unmarked result is marked |
| Invalidation.FindBestChain | internal/blockchain/invalidation.go:396-426 | finds an unmarked indexed block with most work, in whatever order the index is visited, and fails exactly when all are marked |
| Invalidation.MostWorkIsTip | internal/blockchain/invalidation.go:396-426 | on a reachable state that is the indexed tip and no other block, unless the tip is marked |
| Invalidation.AddCheckpoint | internal/blockchain/invalidation.go:174-230 | adds a checkpoint exactly for a stored block at that height, and otherwise changes nothing |
| Invalidation.AddedCheckpointHolds | internal/blockchain/invalidation.go:174-230 | a checkpoint added for a stored block keeps a sound chain valid |
| DottedKeys.SectionsAreTogether | internal/config/generate.go:40-45 | in sorted keys, those in one section are neighbours |
| ConfigPrinter.PrintCategory | internal/config/generate.go:54-120 | the printing loop opens the sections each setting needs beyond the open ones |
| ConfigPrinter.Generate | internal/config/generate.go:47-121 | the document is its categories in order |
| ConfigRoundTrip.OpenedOnce | internal/config/generate.go:78-93 | what a strict reader accepts has opened every section once |
| ConfigOrder.PrintedInOrder | internal/config/generate.go:30-121 | the values are set category by category in the given order, and inside a category in the order of its keys, each at the depth of its dots |
| ConfigRoundTrip.PrintedConfigReadsBack | internal/config/generate.go:30-121 | the printed configuration reads back as exactly the registry, every section opened once, if and only if no key is a dotted beginning of another |

## Left out

- Batching.ApplyIsGrow: covers batches whose first new block is on the tip; a longer batch on an older parent is applied to the same unspent outputs by the code. BatchChecks.GoesThroughExactly and BatchChecks.BlocksStand say when it goes through and where its blocks stand, but no ledger property is claimed for it.
- ValidationOutcomes.RepairKeepsBelow: a block found at two heights, one below and one above where the repair lands, is disconnected by the code, and so may be a block indexed at height 0 that mismatches; both are excluded.
- Runs.RunKeepsChain: starts from a state whose best block is set; after the very first start it is unset until a first batch goes through (Runs.FirstBatchStands) or the node restarts.
- Balances.HistoryIsUnspent: is stated for blocks whose inputs and outputs fit the 15-bit position of a history key; the code skips entries beyond it.
- Reorganization.FindForkPoint: is given the number of steps after which its walks stop; where parents run in a cycle off the main chain the loops of the code do not end, and nothing is claimed.
- Invalidation.MarkDescendantsInvalid: index nodes are told apart by their hash, so a node that was dropped from the index and is still pointed to is taken for the one indexed under its hash; on reachable states there is none.
- Integer widths: heights, values and counters are unbounded, except that one below height 0 is the largest 32-bit height; 64-bit overflow of sums and overflow of the stale-rollback counter are not modelled.
- Cleaning up an orphan that was never connected: modelled, but only the effect on the indexes is proved.
- Stake modifiers, PoS metadata, timestamps, scripts, signatures and difficulty: consensus is an arbitrary accept or reject function of the committed store and the earlier blocks of the batch.
- Reading transactions from the mempool, and removing confirmed ones from it.
- The orphan pool, wallet, masternode and announcement notifiers, statistics, logging, locks and goroutines.
- Reorganization end to end: the old blocks are listed tip first and disconnected from the end of that list, and the new blocks are refused as already stored; only the path computation is modelled.
- ReconsiderBlock, and the fallback reorganization that leaves unspent outputs alone.
- RecoverFromCorruptBlock, which removes a block from the index and not from the known blocks.
- The targeted index check around one height, and the recovery triggers that classify error texts.
- Cancellation of validation passes, and which of several failing checkpoints a quick check reports first.
- Byte layouts of keys and values, key compaction and syncing; commits are all-or-nothing.
- The hard-coded checkpoint lists; the model works for any list. The validator's own copy of the table is taken to be the chain's, without checkpoints added at run time.
- Comments, blank lines, quoting and number formatting of the configuration file, and writing it to disk; a key without a dot prints nothing, and a setting's own key is taken to be the one it is registered under.
- Concurrency, and everything under cmd, the command line, network and RPC layers.
