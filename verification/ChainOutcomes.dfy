/** What cutting a list, disconnecting a block and starting do to every store, whether or not it holds a chain. */
module ChainOutcomes {
  import opened Types
  import opened Storage
  import opened Ledger
  import opened ChainSpec
  import opened RollbackProofs
  import opened RecoveryOutcomes
  import BatchChecks

  // ---------- cutting a list of blocks ----------

  /** The states after each whole chunk of a list: one more than there are chunks gone through. */
  ghost predicate Steps(env: Env, blocks: seq<Block>, states: seq<ChainState>) {
    && states != [] && 500 * (|states| - 1) <= |blocks|
    && forall i :: 0 < i < |states| ==>
         ProcessBatch(env, states[i - 1], Part(blocks, i - 1)) == (Done, states[i])
  }

  /** Blocks 500i to 500i + 499, as far as there are any. */
  function Part(blocks: seq<Block>, i: nat): seq<Block>
    requires 500 * i <= |blocks|
  {
    blocks[500 * i..if 500 * (i + 1) < |blocks| then 500 * (i + 1) else |blocks|]
  }

  lemma PartLater(blocks: seq<Block>, i: nat)
    requires |blocks| > 500 && 500 * i <= |blocks| - 500
    ensures Part(blocks[500..], i) == Part(blocks, i + 1)
  {
  }

  /** The parts of at most 500 blocks go through one after the other, from the front: the answer is that of
      the first part that fails, or of the last part, on the state the parts before it left. */
  lemma {:induction false} CutIntoParts(env: Env, s: ChainState, blocks: seq<Block>) returns (states: seq<ChainState>)
    ensures Steps(env, blocks, states) && states[0] == s
    ensures var n := |states| - 1;
            var r := Process(env, s, blocks);
            && r == ProcessBatch(env, states[n], Part(blocks, n))
            && (r.0 == Done ==> |blocks| <= 500 * (n + 1))
    decreases |blocks|
  {
    hide ProcessBatch;
    states := [s];
    assert Part(blocks, 0) == if |blocks| > 500 then blocks[..500] else blocks;
    if |blocks| > 500 {
      var (o, s1) := ProcessBatch(env, s, blocks[..500]);
      if o == Done {
        var rest := CutIntoParts(env, s1, blocks[500..]);
        states := [s] + rest;
        forall i | 0 < i < |states|
          ensures ProcessBatch(env, states[i - 1], Part(blocks, i - 1)) == (Done, states[i])
        {
          if i > 1 { PartLater(blocks, i - 2); }
        }
        PartLater(blocks, |rest| - 1);
      }
    }
  }

  // ---------- disconnecting ----------

  /** Exactly what a disconnect moves: an unindexed block is an error; otherwise either an output to unspend is
      gone and nothing happens, or the store loses the block and both index entries and its tip steps to the
      parent, one below what the index said; then memory follows, unless the parent cannot be read. */
  lemma DisconnectMoves(s: ChainState, b: Block)
    ensures var (o, s1) := Disconnect(s, b);
            if b.hash !in s.db.hashToHeight then o == Failed(BlockNotFound) && s1 == s
            else if o == Failed(UtxoNotFound) then s1 == s
            else
              var height := s.db.hashToHeight[b.hash];
              var below := if height == 0 then 0xffff_ffff else height - 1;
              && s1.db.hashToHeight == s.db.hashToHeight - {b.hash}
              && s1.db.heightToHash == s.db.heightToHash - {height}
              && s1.db.blocks == s.db.blocks - {b.hash}
              && s1.db.tip == Some(Tip(below, b.prev)) && s1.db.supply == s.db.supply
              && (if HasBody(s1.db, b.prev)
                  then o == Done && s1.bestBlock == GetBlock(s1.db, b.prev) && s1.bestHash == b.prev
                       && s1.bestHeight == below && s1.blockIndex == s.blockIndex - {b.hash}
                       && s1.knownBlocks == s.knownBlocks - {b.hash}
                  else o == Failed(BlockNotFound) && s1 == s.(db := s1.db))
  {
    hide UndoTxs, DeleteTransactions, HasBody;
    DisconnectErrors(s, b);
    if b.hash in s.db.hashToHeight && DisconnectStore(s.db, b, s.db.hashToHeight[b.hash]).Ok? {
      DisconnectedHeights(s.db, b, s.db.hashToHeight[b.hash]);
      DeletingKeepsSupply(s.db, s.db, b.txs, s.db.hashToHeight[b.hash]);
    }
    if b.hash in s.db.hashToHeight { UndoErrors(s.db.utxos, b.txs); }
  }

  lemma {:induction false} DeletingKeepsSupply(committed: Store, st: Store, txs: seq<Tx>, height: nat)
    ensures DeleteTransactions(committed, st, txs, height).supply == st.supply
    decreases |txs|
  {
    if txs != [] {
      DeletingKeepsSupply(committed, DeleteTransaction(committed, st, txs[|txs| - 1].id, height),
                          txs[..|txs| - 1], height);
    }
  }

  // ---------- starting ----------

  /** The stored genesis block is missing, or the stored tip is an unreadable block at height 0 that is not it. */
  predicate NeedsGenesis(env: Env, db: Store) {
    || env.genesisHash !in db.blocks
    || (db.tip.Some? && db.tip.value.height == 0 && db.tip.value.hash != 0 && db.tip.value.hash != env.genesisHash
        && !HasBody(db, db.tip.value.hash))
  }

  /** Where nothing is missing a start writes nothing.  Without a stored tip it stands on genesis, with empty
      caches; on a readable tip it stands, indexes that block alone, and knows exactly the indexed hashes; on
      an unreadable tip it takes over height and hash without a block, with empty caches. */
  lemma LoadReadsStore(env: Env, db: Store, genesis: Block)
    requires !NeedsGenesis(env, db)
    ensures var (o, s1) := LoadChainState(env, Unloaded(db), genesis);
            && o == Done && s1.db == db
            && (if db.tip.None? || db.tip.value.hash == 0
                then s1 == ChainState(db, GetBlock(db, env.genesisHash), env.genesisHash, 0, map[], map[])
                else
                  var Tip(height, hash) := db.tip.value;
                  && s1.bestHeight == height && s1.bestHash == hash && s1.bestBlock == GetBlock(db, hash)
                  && (if HasBody(db, hash)
                      then s1.blockIndex == map[hash := BlockNode(hash, height, height, None, Connected)]
                           && s1.knownBlocks == db.hashToHeight
                      else s1.blockIndex == map[] && s1.knownBlocks == map[]))
  {
    hide HasBody, InitializeGenesis;
  }

  /** Otherwise it adds the built-in genesis block, like any first block, or fails and changes nothing. */
  lemma LoadAddsGenesis(env: Env, db: Store, genesis: Block)
    requires NeedsGenesis(env, db) && genesis.prev == 0
    ensures var (o, s1) := LoadChainState(env, Unloaded(db), genesis);
            && (o == Done <==> ProcessBatch(env, Unloaded(db), [genesis]).0 == Done)
            && (o == Done ==> BatchChecks.StandsAt(s1, genesis.hash, 0) && s1.bestHeight == 0)
            && (o != Done ==> s1 == Unloaded(db))
  {
    hide HasBody, ProcessBatch, BuildBlockIndex;
    var s := Unloaded(db);
    assert Process(env, s, [genesis]) == ProcessBatch(env, s, [genesis]);
    if ProcessBatch(env, s, [genesis]).0 == Done {
      BatchChecks.LoneIsNew(env, s, genesis);
      BatchChecks.BlocksStand(env, s, [genesis], [genesis], 0);
      assert BatchChecks.StandsAt(ProcessBatch(env, s, [genesis]).1, [genesis][0].hash, 0 + 0);
    } else {
      RefusalChangesNothing(env, s, [genesis]);
    }
  }

  /** Wherever it comes to stand, after adding it some block is indexed at height 0: itself, if no other was. */
  lemma GenesisHeightIsIndexed(env: Env, db: Store, genesis: Block)
    requires NeedsGenesis(env, db)
    ensures var (o, s1) := LoadChainState(env, Unloaded(db), genesis);
            var r := Process(env, Unloaded(db), [genesis]);
            && o == r.0
            && (o == Done ==>
                  && 0 in s1.db.heightToHash
                  && (0 in r.1.db.heightToHash ==> s1 == r.1)
                  && (0 !in r.1.db.heightToHash ==>
                        s1.db.heightToHash[0] == genesis.hash && GetHeight(s1.db, genesis.hash) == Some(0)))
  {
    hide HasBody, ProcessBatch, ProcessChunks, BuildBlockIndex;
  }

  lemma RefusalChangesNothing(env: Env, s: ChainState, blocks: seq<Block>)
    requires ProcessBatch(env, s, blocks).0 != Done
    ensures ProcessBatch(env, s, blocks).1 == s
  {
    hide PreValid, ApplyBlocks, KnownPrefix;
  }
}
