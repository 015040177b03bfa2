/** What a batch must have passed to go through, in every state, and where it leaves its blocks. */
module BatchChecks {
  import opened Types
  import opened Storage
  import opened Ledger
  import opened ChainSpec
  import opened Reachable
  import Merkle

  // ---------- the checks, spelled out ----------

  /** A coinbase spends the null outpoint alone; a coinstake spends something and starts with an empty output. */
  predicate Mints(tx: Tx) {
    || tx.inputs == [Outpoint(0, 0xffff_ffff)]
    || (tx.inputs != [] && tx.inputs[0].txid != 0 && |tx.outputs| >= 2
        && tx.outputs[0].value == 0 && tx.outputs[0].script == EmptyScript)
  }

  /** The block has transactions, the first one mints, and the header commits to all of them. */
  predicate Sealed(env: Env, b: Block) {
    && |b.txs| > 0
    && Mints(b.txs[0])
    && b.merkleRoot == Merkle.Root(env.pair, TxIds(b.txs))
  }

  predicate Stored(s: ChainState, hash: Hash) {
    hash in s.blockIndex || hash in s.db.blocks
  }

  /** The blocks form one branch without repetition, and its parent is stored; zero stands for no parent. */
  predicate OneBranch(s: ChainState, blocks: seq<Block>)
    requires blocks != []
  {
    && (blocks[0].prev == 0 || Stored(s, blocks[0].prev))
    && (forall i :: 0 < i < |blocks| ==> blocks[i].prev == blocks[i - 1].hash)
    && (forall i, j :: 0 <= i < j < |blocks| ==> blocks[i].hash != blocks[j].hash)
  }

  /** A block that comes alone may not stand at or below the tip. */
  predicate NotBehind(s: ChainState, blocks: seq<Block>)
    requires blocks != []
  {
    |blocks| == 1 && blocks[0].prev != 0 && blocks[0].prev in s.db.hashToHeight ==>
      s.db.hashToHeight[blocks[0].prev] >= s.bestHeight
  }

  /** The height the first block gets, if it gets one. */
  predicate StartsAt(s: ChainState, b: Block, first: nat) {
    if b.prev == 0 then first == 0
    else b.prev in s.db.hashToHeight && first == s.db.hashToHeight[b.prev] + 1
  }

  /** No tip, fewer than three peers, no network height, or at least the threshold behind the network. */
  predicate Downloading(env: Env, s: ChainState) {
    || s.bestBlock == None
    || env.peers < 3
    || env.networkHeight == 0
    || env.networkHeight - s.bestHeight >= env.ibdThreshold
    || env.ibdThreshold == 0
  }

  /** The consensus engine accepted block `i`: in full if it came alone outside the download, at batch level
      outside it and at every 1000th height above 200000, simply otherwise. */
  predicate AcceptedAt(env: Env, s: ChainState, blocks: seq<Block>, i: nat, height: nat)
    requires i < |blocks|
  {
    if Downloading(env, s) then
      if height > 200000 && height % 1000 == 0
      then env.accepts(BatchCheck, s.db, blocks[..i], blocks[i], height)
      else env.accepts(SimpleCheck, s.db, blocks[..i], blocks[i], height)
    else if |blocks| == 1 then env.accepts(FullCheck, s.db, [], blocks[i], height)
    else env.accepts(BatchCheck, s.db, blocks[..i], blocks[i], height)
  }

  /** The block is not blacklisted at its height, and is the one its checkpoint expects. */
  predicate MeetsCheckpoint(env: Env, hash: Hash, height: nat) {
    && (height in env.checkpoints.bad ==> env.checkpoints.bad[height] != hash)
    && (height in env.checkpoints.expected ==> env.checkpoints.expected[height] == hash)
  }

  /** The blocks a batch still has to add: those after its stored beginning. */
  predicate AreNew(s: ChainState, batch: seq<Block>, blocks: seq<Block>) {
    && |blocks| <= |batch| && blocks == batch[|batch| - |blocks|..]
    && (forall i :: 0 <= i < |batch| - |blocks| ==> Stored(s, batch[i].hash))
    && (blocks != [] ==> !Stored(s, blocks[0].hash))
  }

  // ---------- they are what the batch function checks ----------

  /** Every batch has exactly one such list. */
  lemma NewAreNew(s: ChainState, batch: seq<Block>)
    ensures AreNew(s, batch, NewBlocks(s, batch))
  {
  }

  lemma NewIsUnique(s: ChainState, batch: seq<Block>, blocks: seq<Block>)
    requires AreNew(s, batch, blocks)
    ensures blocks == NewBlocks(s, batch)
  {
    var n, k := |batch| - |blocks|, KnownPrefix(s, batch);
    hide KnownPrefix;
    assert k < n ==> Stored(s, batch[k].hash);
    assert blocks != [] ==> batch[n] == blocks[0];
  }

  lemma MintsIs(tx: Tx)
    ensures tx.IsCoinbase() || tx.IsCoinStake() <==> Mints(tx)
  {
    assert |tx.inputs| == 1 ==> tx.inputs == [tx.inputs[0]];
  }

  lemma ChecksAre(env: Env, s: ChainState, blocks: seq<Block>)
    requires blocks != []
    ensures PreValid(env, s, blocks) <==>
              OneBranch(s, blocks) && forall i :: 0 <= i < |blocks| ==> Sealed(env, blocks[i])
    ensures |blocks| == 1 && OneBranch(s, blocks) ==> (CheckSingle(s, blocks[0]) == Done <==> NotBehind(s, blocks))
    ensures |blocks| > 1 ==> NotBehind(s, blocks)
  {
    forall i | 0 <= i < |blocks| ensures WellFormed(env, blocks[i]) <==> Sealed(env, blocks[i]) {
      if blocks[i].txs != [] { MintsIs(blocks[i].txs[0]); }
    }
    hide WellFormed, Sealed;
  }

  lemma StartIs(s: ChainState, b: Block, first: nat)
    ensures FirstHeight(s.db, b) == Ok(first) <==> StartsAt(s, b, first)
    ensures FirstHeight(s.db, b).Err? ==> FirstHeight(s.db, b) == Err(ParentNotFound)
  {
  }

  lemma LevelIs(env: Env, s: ChainState, blocks: seq<Block>, i: nat, height: nat)
    requires i < |blocks|
    ensures env.accepts(LevelFor(IsInitialDownload(env, s), |blocks|, height), s.db, blocks[..i], blocks[i], height)
            <==> AcceptedAt(env, s, blocks, i, height)
  {
    assert |blocks| == 1 ==> blocks[..i] == [];
  }

  // ---------- exactly what goes through ----------

  /** A batch goes through exactly when it is empty, or some of it is new, its new blocks form one branch on
      a stored parent, each sealed by its Merkle root, a lone one not behind the tip, the parent has a height,
      and the blocks apply from there.  Only a lone block is tested against the tip: several blocks on an
      older parent go through like any others. */
  lemma GoesThroughExactly(env: Env, s: ChainState, batch: seq<Block>, blocks: seq<Block>)
    requires AreNew(s, batch, blocks)
    ensures ProcessBatch(env, s, batch).0 == Done <==>
              batch == [] ||
              (&& blocks != []
               && OneBranch(s, blocks) && NotBehind(s, blocks)
               && (forall i :: 0 <= i < |blocks| ==> Sealed(env, blocks[i]))
               && exists first :: StartsAt(s, blocks[0], first) && ApplyBlocks(env, s, |blocks|, blocks, first).Ok?)
  {
    NewIsUnique(s, batch, blocks);
    hide KnownPrefix, PreValid, CheckSingle, FirstHeight, ApplyBlocks, Commit, OneBranch, NotBehind, Sealed, StartsAt;
    if blocks != [] {
      ChecksAre(env, s, blocks);
      var start := FirstHeight(s.db, blocks[0]);
      if start.Ok? { StartIs(s, blocks[0], start.value); }
      forall first: nat ensures start == Ok(first) <==> StartsAt(s, blocks[0], first) {
        StartIs(s, blocks[0], first);
      }
    }
  }

  lemma {:induction false} AppliedPassed(env: Env, s: ChainState, size: nat, blocks: seq<Block>, first: nat)
    requires ApplyBlocks(env, s, size, blocks, first).Ok?
    ensures forall i :: 0 <= i < |blocks| ==>
              && CheckpointOk(env.checkpoints, first + i, blocks[i].hash)
              && env.accepts(LevelFor(IsInitialDownload(env, s), size, first + i),
                             s.db, blocks[..i], blocks[i], first + i)
  {
    hide ConnectBlock, CheckpointOk, LevelFor, IsInitialDownload;
    if blocks != [] {
      var n := |blocks| - 1;
      AppliedPassed(env, s, size, blocks[..n], first);
      assert forall i :: 0 <= i < n ==> blocks[..n][i] == blocks[i] && blocks[..n][..i] == blocks[..i];
    }
  }

  lemma StartIsUnique(s: ChainState, b: Block, first: nat, again: nat)
    requires StartsAt(s, b, first) && StartsAt(s, b, again)
    ensures first == again
  {
  }

  /** Block `i` of those from `first` on has transactions of which the first mints, a header that names their
      Merkle root, the hash its checkpoint asks for, and the consent of the consensus engine. */
  ghost predicate PassedAll(env: Env, s: ChainState, blocks: seq<Block>, first: nat, i: nat)
    requires i < |blocks|
  {
    var height := first + i;
    && |blocks[i].txs| > 0
    && Mints(blocks[i].txs[0])
    && Merkle.Root(env.pair, TxIds(blocks[i].txs)) == blocks[i].merkleRoot
    && MeetsCheckpoint(env, blocks[i].hash, height)
    && AcceptedAt(env, s, blocks, i, height)
  }

  lemma PassedOne(env: Env, s: ChainState, blocks: seq<Block>, first: nat, i: nat)
    requires i < |blocks| && Sealed(env, blocks[i]) && CheckpointOk(env.checkpoints, first + i, blocks[i].hash)
    requires env.accepts(LevelFor(IsInitialDownload(env, s), |blocks|, first + i),
                         s.db, blocks[..i], blocks[i], first + i)
    ensures PassedAll(env, s, blocks, first, i)
  {
    hide LevelFor, IsInitialDownload, AcceptedAt;
    LevelIs(env, s, blocks, i, first + i);
  }

  /** Whatever state it meets: every block a batch added is sealed, meets its checkpoint, and was accepted by
      the consensus engine at the level its height and the download call for. */
  lemma WhatGoesThroughPassed(env: Env, s: ChainState, batch: seq<Block>, blocks: seq<Block>, first: nat)
    requires batch != [] && AreNew(s, batch, blocks) && ProcessBatch(env, s, batch).0 == Done
    requires blocks != [] ==> StartsAt(s, blocks[0], first)
    ensures blocks != [] && OneBranch(s, blocks)
    ensures forall i :: 0 <= i < |blocks| ==> PassedAll(env, s, blocks, first, i)
  {
    hide *;
    GoesThroughExactly(env, s, batch, blocks);
    var start :| StartsAt(s, blocks[0], start) && ApplyBlocks(env, s, |blocks|, blocks, start).Ok?;
    StartIsUnique(s, blocks[0], first, start);
    AppliedPassed(env, s, |blocks|, blocks, first);
    forall i | 0 <= i < |blocks| ensures PassedAll(env, s, blocks, first, i) {
      PassedOne(env, s, blocks, first, i);
    }
  }

  lemma LoneIsNew(env: Env, s: ChainState, b: Block)
    requires ProcessBatch(env, s, [b]).0 == Done
    ensures AreNew(s, [b], [b])
  {
    hide ApplyBlocks, PreValid, CheckSingle, FirstHeight;
    assert !Has(s, b.hash);
  }

  /** A single block that goes through outside the download was accepted in full. */
  lemma LoneBlockAcceptedInFull(env: Env, s: ChainState, b: Block, first: nat)
    requires ProcessBatch(env, s, [b]).0 == Done && StartsAt(s, b, first)
    requires s.bestBlock.Some? && env.peers >= 3 && env.networkHeight > 0
    requires env.networkHeight < s.bestHeight + env.ibdThreshold && env.ibdThreshold > 0
    ensures env.accepts(FullCheck, s.db, [], b, first)
  {
    hide ProcessBatch, StartsAt, AreNew, OneBranch, MeetsCheckpoint;
    LoneIsNew(env, s, b);
    WhatGoesThroughPassed(env, s, [b], [b], first);
    assert PassedAll(env, s, [b], first, 0);
  }

  // ---------- exactly why a batch is refused ----------

  /** One branch on a stored parent with a block that is empty, does not start with a minting transaction, or
      whose header names another Merkle root is refused, and nothing changes. */
  lemma UnsealedIsRefused(env: Env, s: ChainState, batch: seq<Block>, i: nat)
    requires batch != [] && !Stored(s, batch[0].hash) && OneBranch(s, batch) && NotBehind(s, batch) && i < |batch|
    requires || batch[i].txs == []
             || !Mints(batch[i].txs[0])
             || Merkle.Root(env.pair, TxIds(batch[i].txs)) != batch[i].merkleRoot
    ensures ProcessBatch(env, s, batch) == (Failed(BatchRejected), s)
  {
    NewIsUnique(s, batch, batch);
    ChecksAre(env, s, batch);
    assert !Sealed(env, batch[i]);
    hide KnownPrefix, PreValid, CheckSingle, FirstHeight, ApplyBlocks, Commit, OneBranch, NotBehind, Sealed;
  }

  /** The other refusals: all stored; a lone block with an unknown parent or behind the tip; several blocks that
      are no branch, or whose parent is unknown; and a parent that is stored but has no height. */
  lemma OtherRefusals(env: Env, s: ChainState, batch: seq<Block>, blocks: seq<Block>)
    requires batch != [] && AreNew(s, batch, blocks)
    ensures blocks == [] ==> ProcessBatch(env, s, batch) == (Failed(AllBlocksExist), s)
    ensures |blocks| == 1 && blocks[0].prev != 0 && !Stored(s, blocks[0].prev) ==>
              ProcessBatch(env, s, batch) == (Failed(ParentNotFound), s)
    ensures |blocks| == 1 && OneBranch(s, blocks) && !NotBehind(s, blocks) ==>
              ProcessBatch(env, s, batch) == (Failed(HeightNotAdvancing), s)
    ensures |blocks| > 1 && !OneBranch(s, blocks) ==> ProcessBatch(env, s, batch) == (Failed(BatchRejected), s)
    ensures blocks != [] && OneBranch(s, blocks) && NotBehind(s, blocks)
            && (forall i :: 0 <= i < |blocks| ==> Sealed(env, blocks[i]))
            && blocks[0].prev != 0 && blocks[0].prev !in s.db.hashToHeight ==>
              ProcessBatch(env, s, batch) == (Failed(ParentNotFound), s)
  {
    NewIsUnique(s, batch, blocks);
    hide KnownPrefix, ApplyBlocks, Commit, WellFormed, Sealed;
    if blocks != [] {
      ChecksAre(env, s, blocks);
      hide Linked, DistinctHashes;
    }
  }

  /** Of blocks that apply so far, the next one stops the batch if it fails its checkpoint, or else the
      consensus engine at its level, or else cannot be connected. */
  lemma NextBlockRefused(env: Env, s: ChainState, blocks: seq<Block>, first: nat)
    requires blocks != [] && ApplyBlocks(env, s, |blocks|, blocks[..|blocks| - 1], first).Ok?
    ensures var n := |blocks| - 1;
            var r := ApplyBlocks(env, s, |blocks|, blocks, first);
            var p := ApplyBlocks(env, s, |blocks|, blocks[..n], first).value;
            var c := ConnectBlock(s.db, p.view, s.bestHeight, p.cache, blocks[n], first + n);
            && (!MeetsCheckpoint(env, blocks[n].hash, first + n) ==> r == Err(CheckpointFailed))
            && (MeetsCheckpoint(env, blocks[n].hash, first + n) && !AcceptedAt(env, s, blocks, n, first + n) ==>
                  r == Err(InvalidBlock))
            && (MeetsCheckpoint(env, blocks[n].hash, first + n) && AcceptedAt(env, s, blocks, n, first + n) ==>
                  r == match c case Err(e) => Err(e) case Ok(a) => Ok(Pending(a.view, a.cache)))
  {
    hide ConnectBlock, LevelFor, IsInitialDownload, AcceptedAt;
    LevelIs(env, s, blocks, |blocks| - 1, first + |blocks| - 1);
  }

  // ---------- where the blocks end up ----------

  /** In the store and in both caches the new blocks stand one above the other from `first` on. */
  ghost predicate StandFrom(s: ChainState, blocks: seq<Block>, first: nat) {
    forall i :: 0 <= i < |blocks| ==> StandsAt(s, blocks[i].hash, first + i)
  }

  ghost predicate StandsAt(s: ChainState, hash: Hash, height: nat) {
    && hash in s.db.blocks && GetHeight(s.db, hash) == Some(height) && GetHash(s.db, height) == Some(hash)
    && hash in s.knownBlocks && s.knownBlocks[hash] == height
    && hash in s.blockIndex && s.blockIndex[hash].hash == hash && s.blockIndex[hash].height == height
  }

  ghost predicate StoredFrom(db: Store, blocks: seq<Block>, first: nat) {
    forall i :: 0 <= i < |blocks| ==>
      blocks[i].hash in db.blocks && GetHeight(db, blocks[i].hash) == Some(first + i)
      && GetHash(db, first + i) == Some(blocks[i].hash)
  }

  lemma ConnectStores(committed: Store, view: Store, best: nat, cache: map<nat, int>, b: Block, h: nat)
    requires ConnectBlock(committed, view, best, cache, b, h).Ok?
    ensures var c := ConnectBlock(committed, view, best, cache, b, h).value.view;
            && c.hashToHeight == view.hashToHeight[b.hash := h] && c.heightToHash == view.heightToHash[h := b.hash]
            && c.blocks.Keys == view.blocks.Keys + {b.hash}
            && c.tip == if h > best then Some(Tip(h, b.hash)) else view.tip
  {
    hide ApplyTxs, IndexTxs, StoreTxs, TxIds;
  }

  lemma StoresNone(db: Store, first: nat)
    ensures StoredFrom(db, [], first)
  {
  }

  lemma StoredSnoc(view: Store, after: Store, blocks: seq<Block>, first: nat)
    requires blocks != [] && StoredFrom(view, blocks[..|blocks| - 1], first)
    requires forall i, j :: 0 <= i < j < |blocks| ==> blocks[i].hash != blocks[j].hash
    requires var b, h := blocks[|blocks| - 1], first + |blocks| - 1;
             && after.hashToHeight == view.hashToHeight[b.hash := h]
             && after.heightToHash == view.heightToHash[h := b.hash]
             && after.blocks.Keys == view.blocks.Keys + {b.hash}
    ensures StoredFrom(after, blocks, first)
  {
    var n := |blocks| - 1;
    assert forall i :: 0 <= i < n ==> blocks[..n][i] == blocks[i];
  }

  lemma {:induction false} AppliedStands(env: Env, s: ChainState, size: nat, blocks: seq<Block>, first: nat)
    requires ApplyBlocks(env, s, size, blocks, first).Ok?
    requires forall i, j :: 0 <= i < j < |blocks| ==> blocks[i].hash != blocks[j].hash
    ensures var view := ApplyBlocks(env, s, size, blocks, first).value.view;
            && StoredFrom(view, blocks, first)
            && view.tip == if blocks != [] && first + |blocks| - 1 > s.bestHeight
                           then Some(Tip(first + |blocks| - 1, blocks[|blocks| - 1].hash)) else s.db.tip
  {
    hide ConnectBlock, CheckpointOk, LevelFor, IsInitialDownload, StoredFrom;
    if blocks == [] {
      assert StoredFrom(s.db, blocks, first) by { StoresNone(s.db, first); }
    } else {
      var n := |blocks| - 1;
      AppliedStands(env, s, size, blocks[..n], first);
      var p := ApplyBlocks(env, s, size, blocks[..n], first).value;
      ConnectStores(s.db, p.view, s.bestHeight, p.cache, blocks[n], first + n);
      assert forall i :: 0 <= i < n ==> blocks[..n][i] == blocks[i];
      var after := ConnectBlock(s.db, p.view, s.bestHeight, p.cache, blocks[n], first + n).value.view;
      StoredSnoc(p.view, after, blocks, first);
    }
  }

  lemma {:induction false} CachedFrom(index: map<Hash, BlockNode>, known: map<Hash, nat>, blocks: seq<Block>, first: nat)
    requires forall i, j :: 0 <= i < j < |blocks| ==> blocks[i].hash != blocks[j].hash
    ensures forall i :: 0 <= i < |blocks| ==>
              var hash := blocks[i].hash;
              && hash in KnowAll(known, blocks, first) && KnowAll(known, blocks, first)[hash] == first + i
              && hash in IndexAll(index, blocks, first)
              && IndexAll(index, blocks, first)[hash].hash == hash
              && IndexAll(index, blocks, first)[hash].height == first + i
  {
    if blocks != [] {
      var n := |blocks| - 1;
      CachedFrom(index, known, blocks[..n], first);
      assert forall i :: 0 <= i < n ==> blocks[..n][i] == blocks[i];
    }
  }

  /** Whatever state and parent, a batch that goes through stores its new blocks one above the other from
      the height above the parent, and moves the tip to the last one exactly when that is higher. */
  lemma BlocksStand(env: Env, s: ChainState, batch: seq<Block>, blocks: seq<Block>, first: nat)
    requires batch != [] && AreNew(s, batch, blocks) && ProcessBatch(env, s, batch).0 == Done
    requires blocks != [] ==> StartsAt(s, blocks[0], first)
    ensures blocks != []
    ensures var s1 := ProcessBatch(env, s, batch).1;
            var top := first + |blocks| - 1;
            && StandFrom(s1, blocks, first)
            && (if top > s.bestHeight
                then s1.bestHeight == top && s1.bestHash == blocks[|blocks| - 1].hash
                     && s1.bestBlock == Some(blocks[|blocks| - 1]) && s1.db.tip == Some(Tip(top, s1.bestHash))
                else s1.bestHeight == s.bestHeight && s1.bestHash == s.bestHash && s1.bestBlock == s.bestBlock
                     && s1.db.tip == s.db.tip)
  {
    GoesThroughExactly(env, s, batch, blocks);
    NewIsUnique(s, batch, blocks);
    StartIs(s, blocks[0], first);
    hide ApplyBlocks, KnownPrefix, PreValid, CheckSingle, FirstHeight, Sealed, IndexAll, KnowAll, AreNew;
    AppliedStands(env, s, |blocks|, blocks, first);
    CachedFrom(s.blockIndex, s.knownBlocks, blocks, first);
    var s1 := ProcessBatch(env, s, batch).1;
    assert s1 == Commit(s, blocks, first, ApplyBlocks(env, s, |blocks|, blocks, first).value.view);
  }
}
