/** Connecting, disconnecting and rolling back move a state from one chain to another, and nothing else. */
module Reachable {
  import opened Types
  import opened Storage
  import opened Ledger
  import opened UtxoFacts
  import opened Chain
  import opened ChainSpec
  import opened Represent
  import opened Batching

  // ---------- connecting ----------

  /** A block hash binds the parent: a stored block with this hash has this parent. */
  ghost predicate HashesBind(db: Store, blocks: seq<Block>) {
    forall i :: 0 <= i < |blocks| && blocks[i].hash in db.blocks ==> db.blocks[blocks[i].hash].prev == blocks[i].prev
  }

  lemma {:induction false} BuiltGenesis(chain: seq<Block>)
    requires Build(chain).Ok? && chain != []
    ensures GenesisOk(chain[0])
  {
    if |chain| > 1 {
      BuiltGenesis(chain[..|chain| - 1]);
    }
  }

  lemma GenesisHasNoParent(db: Store, chain: seq<Block>)
    requires Holds(db, chain)
    ensures chain[0].prev == ZERO_HASH
  {
    BuiltGenesis(chain);
  }

  lemma StoredParent(db: Store, chain: seq<Block>, hash: Hash)
    requires Holds(db, chain) && hash in db.blocks
    ensures db.blocks[hash].prev == ZERO_HASH || db.blocks[hash].prev in db.blocks
  {
    HoldsShape(db, chain);
    GenesisHasNoParent(db, chain);
    var m := db.hashToHeight[hash];
    assert Placed(db, chain[m], m);
    if m > 0 { assert Placed(db, chain[m - 1], m - 1); }
  }

  /** Stored blocks are closed under parents, so once the stored prefix of a linked batch is dropped,
      no later block of the batch is stored either. */
  lemma {:induction false} NoneStored(s: ChainState, chain: seq<Block>, blocks: seq<Block>, i: nat)
    requires Represents(s, chain) && Linked(blocks) && HashesBind(s.db, blocks) && i < |blocks|
    requires !Has(s, blocks[0].hash)
    requires forall k :: 0 <= k < |blocks| ==> blocks[k].hash != ZERO_HASH
    ensures blocks[i].hash !in s.db.blocks && !Has(s, blocks[i].hash)
  {
    hide Holds, CachesOk, Shaped;
    HasMeansStored(s, chain, blocks[i].hash);
    if i > 0 {
      NoneStored(s, chain, blocks, i - 1);
      if blocks[i].hash in s.db.blocks { StoredParent(s.db, chain, blocks[i].hash); }
    }
  }

  /** What connecting relies on for the blocks a batch still has to add. */
  ghost predicate OnTip(s: ChainState, blocks: seq<Block>) {
    && (|blocks| == 1 ==> blocks[0].prev != ZERO_HASH)
    && (|blocks| > 1 ==> blocks[0].prev == s.bestHash)
    && FreshTxs(s.db, blocks)
    && HashesBind(s.db, blocks)
  }

  function NewBlocks(s: ChainState, batch: seq<Block>): seq<Block> {
    batch[KnownPrefix(s, batch)..]
  }

  /** The parent of an accepted single block is the tip: a known parent lies on the chain, and any
      block of the chain but the tip is too low to be one. */
  lemma SingleParentIsTip(s: ChainState, chain: seq<Block>, b: Block)
    requires Represents(s, chain) && b.prev != ZERO_HASH && CheckSingle(s, b) == Done
    ensures b.prev == s.bestHash && s.db.hashToHeight[b.prev] == s.bestHeight
  {
    hide Holds, CachesOk, Has, TipOk;
    HoldsShape(s.db, chain);
    HasMeansStored(s, chain, b.prev);
    var m :| 0 <= m < |chain| && chain[m].hash == b.prev;
    assert Placed(s.db, chain[m], m);
  }

  lemma TipIsStored(s: ChainState, chain: seq<Block>)
    requires Represents(s, chain)
    ensures Has(s, s.bestHash) && s.bestHash != ZERO_HASH
    ensures s.bestHash in s.db.hashToHeight && s.db.hashToHeight[s.bestHash] == s.bestHeight
  {
    hide Holds, CachesOk, IndexedFromTop, TipOk;
    HoldsShape(s.db, chain);
    assert Placed(s.db, chain[|chain| - 1], |chain| - 1);
  }

  /** An accepted single block raises the tip by exactly one, onto itself, exactly when it names a
      parent; without one it is stored at height 0 and the tip stays. */
  lemma AcceptedSingleExtendsTip(env: Env, s: ChainState, chain: seq<Block>, b: Block)
    requires Represents(s, chain) && ProcessBatch(env, s, [b]).0 == Done
    ensures var s1 := ProcessBatch(env, s, [b]).1;
            && (b.prev != ZERO_HASH <==> s1.bestHash == b.hash)
            && (b.prev != ZERO_HASH ==>
                  b.prev == s.bestHash && s1.bestHeight == s.bestHeight + 1 && s1.bestBlock == Some(b))
            && (b.prev == ZERO_HASH ==> s1.bestHash == s.bestHash && s1.bestHeight == s.bestHeight
                                        && b.hash in s1.db.hashToHeight && s1.db.hashToHeight[b.hash] == 0)
  {
    TipIsStored(s, chain);
    hide ConnectBlock, WellFormed, ApplyBlocks, Represents, IndexAll, KnowAll;
    assert !Has(s, b.hash) && NewBlocks(s, [b]) == [b];
    if b.prev != ZERO_HASH {
      SingleParentIsTip(s, chain, b);
    } else {
      SingleApplied(env, s, b, 0);
      ConnectIndexes(s.db, s.db, s.bestHeight, map[], b, 0);
    }
  }

  lemma SingleApplied(env: Env, s: ChainState, b: Block, first: nat)
    ensures ApplyBlocks(env, s, 1, [b], first)
            == ApplyNext(env, s, LevelFor(IsInitialDownload(env, s), 1, first), Pending(s.db, map[]), [], b, first)
  {
    assert [b][..0] == [] && ApplyBlocks(env, s, 1, [], first) == Ok(Pending(s.db, map[]));
  }

  lemma ConnectIndexes(committed: Store, view: Store, best: nat, cache: map<nat, int>, b: Block, h: nat)
    requires ConnectBlock(committed, view, best, cache, b, h).Ok?
    ensures var c := ConnectBlock(committed, view, best, cache, b, h).value.view;
            c.hashToHeight == view.hashToHeight[b.hash := h]
  {
  }

  // ---------- the caches after a batch ----------

  /** The caches hold exactly the old entries and the new blocks, at their heights. */
  ghost predicate Indexed(index: map<Hash, BlockNode>, after: map<Hash, BlockNode>, blocks: seq<Block>, first: nat) {
    forall x :: x in after ==>
      || (x in index && after[x] == index[x])
      || (exists i :: 0 <= i < |blocks| && blocks[i].hash == x && NodeOk(after[x], x, first + i))
  }

  ghost predicate Known(known: map<Hash, nat>, after: map<Hash, nat>, blocks: seq<Block>, first: nat) {
    forall x :: x in after ==>
      || (x in known && after[x] == known[x])
      || (exists i :: 0 <= i < |blocks| && blocks[i].hash == x && after[x] == first + i)
  }

  /** A node of the index whose hash is `hash` sits at height `height`. */
  ghost predicate SitsAt(index: map<Hash, BlockNode>, hash: Hash, height: nat) {
    hash in index ==> NodeOk(index[hash], hash, height)
  }

  lemma {:induction false} IndexAllExactly(index: map<Hash, BlockNode>, blocks: seq<Block>, first: nat, tip: Hash)
    requires first > 0 && Linked(blocks) && DistinctHashes(blocks)
    requires blocks != [] ==> blocks[0].prev == tip && SitsAt(index, tip, first - 1)
    ensures Indexed(index, IndexAll(index, blocks, first), blocks, first)
    ensures blocks != [] ==> SitsAt(IndexAll(index, blocks, first), blocks[|blocks| - 1].hash, first + |blocks| - 1)
  {
    if blocks != [] {
      var n := |blocks| - 1;
      var init, b := blocks[..n], blocks[n];
      IndexAllExactly(index, init, first, tip);
      var before := IndexAll(index, init, first);
      assert SitsAt(before, b.prev, first + n - 1);
      var after := IndexAll(index, blocks, first);
      assert NodeOk(after[b.hash], b.hash, first + n);
      forall x | x in after && x != b.hash && !(x in index && after[x] == index[x])
        ensures exists i :: 0 <= i < |blocks| && blocks[i].hash == x && NodeOk(after[x], x, first + i)
      {
        var i :| 0 <= i < n && init[i].hash == x && NodeOk(before[x], x, first + i);
        assert blocks[i].hash == x;
      }
    }
  }

  lemma {:induction false} KnowAllExactly(known: map<Hash, nat>, blocks: seq<Block>, first: nat)
    ensures Known(known, KnowAll(known, blocks, first), blocks, first)
  {
    if blocks != [] {
      var n := |blocks| - 1;
      var init := blocks[..n];
      KnowAllExactly(known, init, first);
      var before, after := KnowAll(known, init, first), KnowAll(known, blocks, first);
      forall x | x in after && x != blocks[n].hash && !(x in known && after[x] == known[x])
        ensures exists i :: 0 <= i < |blocks| && blocks[i].hash == x && after[x] == first + i
      {
        var i :| 0 <= i < n && init[i].hash == x && before[x] == first + i;
        assert blocks[i].hash == x;
      }
    }
  }

  lemma HeightsStay(db: Store, db1: Store, chain: seq<Block>, blocks: seq<Block>)
    requires Shaped(db, chain) && Shaped(db1, chain + blocks)
    ensures forall x :: x in db.hashToHeight ==> x in db1.hashToHeight && db1.hashToHeight[x] == db.hashToHeight[x]
    ensures forall i :: 0 <= i < |blocks| ==>
              blocks[i].hash in db1.hashToHeight && db1.hashToHeight[blocks[i].hash] == |chain| + i
  {
    forall x | x in db.hashToHeight ensures x in db1.hashToHeight && db1.hashToHeight[x] == db.hashToHeight[x] {
      var m := db.hashToHeight[x];
      assert (chain + blocks)[m] == chain[m];
      assert Placed(db1, (chain + blocks)[m], m);
    }
    forall i | 0 <= i < |blocks|
      ensures blocks[i].hash in db1.hashToHeight && db1.hashToHeight[blocks[i].hash] == |chain| + i
    {
      assert (chain + blocks)[|chain| + i] == blocks[i];
      assert Placed(db1, (chain + blocks)[|chain| + i], |chain| + i);
    }
  }

  lemma NewToIndex(index: map<Hash, BlockNode>, before: map<Hash, BlockNode>, blocks: seq<Block>, first: nat)
    requires blocks != [] && DistinctHashes(blocks) && blocks[|blocks| - 1].hash !in index
    requires Indexed(index, before, blocks[..|blocks| - 1], first)
    ensures blocks[|blocks| - 1].hash !in before
  {
    var n := |blocks| - 1;
    assert forall i :: 0 <= i < n ==> blocks[..n][i].hash != blocks[n].hash;
  }

  /** New nodes point to the nodes the index already has. */
  lemma {:induction false} IndexStaysRooted(index: map<Hash, BlockNode>, blocks: seq<Block>, first: nat, tip: Hash)
    requires first > 0 && Linked(blocks) && DistinctHashes(blocks)
    requires blocks != [] ==> blocks[0].prev == tip && SitsAt(index, tip, first - 1)
    requires Rooted(index) && forall i :: 0 <= i < |blocks| ==> blocks[i].hash !in index
    ensures Rooted(IndexAll(index, blocks, first))
  {
    hide Rooted, Indexed, NodeFor;
    if blocks != [] {
      var n := |blocks| - 1;
      var init, b := blocks[..n], blocks[n];
      IndexStaysRooted(index, init, first, tip);
      IndexAllExactly(index, init, first, tip);
      var before := IndexAll(index, init, first);
      NewToIndex(index, before, blocks, first);
      assert SitsAt(before, b.prev, first + n - 1);
      NodeStaysRooted(before, b, first + n);
    }
  }

  lemma NodeStaysRooted(before: map<Hash, BlockNode>, b: Block, h: nat)
    requires h > 0 && Rooted(before) && b.hash !in before && SitsAt(before, b.prev, h - 1)
    ensures Rooted(before[b.hash := NodeFor(before, b, h)])
  {
  }

  lemma CachesExtend(s: ChainState, s1: ChainState, chain: seq<Block>, blocks: seq<Block>)
    requires CachesOk(s) && Shaped(s.db, chain) && Shaped(s1.db, chain + blocks) && Rooted(s1.blockIndex)
    requires Indexed(s.blockIndex, s1.blockIndex, blocks, |chain|)
    requires Known(s.knownBlocks, s1.knownBlocks, blocks, |chain|)
    ensures CachesOk(s1)
  {
    hide Shaped;
    HeightsStay(s.db, s1.db, chain, blocks);
  }

  // ---------- one batch on the tip ----------

  lemma BatchContinues(env: Env, s: ChainState, chain: seq<Block>, blocks: seq<Block>)
    requires Represents(s, chain) && blocks != [] && OnTip(s, blocks) && PreValid(env, s, blocks)
    requires !Has(s, blocks[0].hash)
    requires |blocks| == 1 ==> CheckSingle(s, blocks[0]) == Done
    ensures Continues(s.db, chain, blocks)
    ensures FirstHeight(s.db, blocks[0]) == Ok(|chain|)
  {
    hide Holds, WellFormed, CachesOk;
    HoldsShape(s.db, chain);
    forall i | 0 <= i < |blocks| ensures blocks[i].hash !in s.db.blocks {
      NoneStored(s, chain, blocks, i);
    }
    if |blocks| == 1 { SingleParentIsTip(s, chain, blocks[0]); }
    assert Placed(s.db, chain[|chain| - 1], |chain| - 1);
  }

  lemma NotIndexed(s: ChainState, chain: seq<Block>, blocks: seq<Block>)
    requires Shaped(s.db, chain) && CachesOk(s) && Continues(s.db, chain, blocks)
    ensures forall i :: 0 <= i < |blocks| ==> blocks[i].hash !in s.blockIndex
  {
  }

  lemma CommitCaches(s: ChainState, chain: seq<Block>, blocks: seq<Block>, view: Store)
    requires Represents(s, chain) && blocks != [] && Continues(s.db, chain, blocks) && Holds(view, chain + blocks)
    ensures CachesOk(Commit(s, blocks, |chain|, view))
  {
    hide Holds, FreshTxs, Indexed, Known, SitsAt;
    HoldsShape(s.db, chain);
    HoldsShape(view, chain + blocks);
    TipSits(s, chain);
    hide Shaped, Placed;
    NotIndexed(s, chain, blocks);
    IndexStaysRooted(s.blockIndex, blocks, |chain|, s.bestHash);
    hide CachesOk, Rooted;
    IndexAllExactly(s.blockIndex, blocks, |chain|, s.bestHash);
    KnowAllExactly(s.knownBlocks, blocks, |chain|);
    CachesExtend(s, Commit(s, blocks, |chain|, view), chain, blocks);
  }

  lemma {:induction false} IndexAllCovers(index: map<Hash, BlockNode>, blocks: seq<Block>, first: nat)
    ensures index.Keys <= IndexAll(index, blocks, first).Keys
    ensures forall i :: 0 <= i < |blocks| ==> blocks[i].hash in IndexAll(index, blocks, first)
  {
    if blocks != [] {
      var n := |blocks| - 1;
      IndexAllCovers(index, blocks[..n], first);
      assert forall i :: 0 <= i < n ==> blocks[..n][i] == blocks[i];
    }
  }

  lemma IndexGrowsFromTop(index: map<Hash, BlockNode>, after: map<Hash, BlockNode>, chain: seq<Block>, blocks: seq<Block>)
    requires IndexedFromTop(index, chain) && Indexed(index, after, blocks, |chain|) && index.Keys <= after.Keys
    requires forall i :: 0 <= i < |blocks| ==> blocks[i].hash in after
    requires forall i, j :: 0 <= i < |chain| && 0 <= j < |blocks| ==> chain[i].hash != blocks[j].hash
    ensures IndexedFromTop(after, chain + blocks)
  {
    var all := chain + blocks;
    forall i, j | 0 <= i < j < |all| && all[i].hash in after ensures all[j].hash in after {
      if j >= |chain| { assert all[j] == blocks[j - |chain|]; }
    }
  }

  lemma CommitFromTop(s: ChainState, chain: seq<Block>, blocks: seq<Block>, view: Store)
    requires Represents(s, chain) && blocks != [] && Continues(s.db, chain, blocks)
    ensures IndexedFromTop(Commit(s, blocks, |chain|, view).blockIndex, chain + blocks)
  {
    hide Holds, FreshTxs, Indexed, SitsAt, IndexedFromTop, CachesOk;
    TipSits(s, chain);
    IndexAllExactly(s.blockIndex, blocks, |chain|, s.bestHash);
    IndexAllCovers(s.blockIndex, blocks, |chain|);
    NotOnChain(s, chain, blocks);
    IndexGrowsFromTop(s.blockIndex, IndexAll(s.blockIndex, blocks, |chain|), chain, blocks);
  }

  lemma NotOnChain(s: ChainState, chain: seq<Block>, blocks: seq<Block>)
    requires Represents(s, chain) && Continues(s.db, chain, blocks)
    ensures forall i, j :: 0 <= i < |chain| && 0 <= j < |blocks| ==> chain[i].hash != blocks[j].hash
  {
    HoldsShape(s.db, chain);
    hide Holds, CachesOk, FreshTxs, IndexedFromTop;
    forall i | 0 <= i < |chain| ensures chain[i].hash in s.db.blocks {
      assert Placed(s.db, chain[i], i);
    }
  }

  /** The blocks are accepted and connect; the state after the batch stands for the longer chain. */
  lemma CommitRepresents(env: Env, s: ChainState, chain: seq<Block>, blocks: seq<Block>)
    requires Represents(s, chain) && blocks != [] && Continues(s.db, chain, blocks)
    requires ApplyBlocks(env, s, |blocks|, blocks, |chain|).Ok?
    ensures var p := ApplyBlocks(env, s, |blocks|, blocks, |chain|).value;
            Represents(Commit(s, blocks, |chain|, p.view), chain + blocks)
            && Grown(s.db.utxos.entries, p.view.utxos.entries, blocks)
  {
    hide Holds, ApplyBlocks, BatchInv, CacheInv, CachesOk, Continues, IndexAll, KnowAll, Grown, IndexedFromTop;
    var p := ApplyBlocks(env, s, |blocks|, blocks, |chain|).value;
    ApplyHolds(env, s, chain, |blocks|, blocks);
    CommitFromTop(s, chain, blocks, p.view);
    CommitCaches(s, chain, blocks, p.view);
  }

  lemma TipSits(s: ChainState, chain: seq<Block>)
    requires Represents(s, chain)
    ensures SitsAt(s.blockIndex, s.bestHash, |chain| - 1)
  {
    HoldsShape(s.db, chain);
    assert Placed(s.db, chain[|chain| - 1], |chain| - 1);
  }

  /** A batch that went through extends the chain by exactly the blocks that were not stored yet, and
      marks only outputs that were unspent; a batch that failed changed nothing. */
  lemma BatchExtendsChain(env: Env, s: ChainState, chain: seq<Block>, batch: seq<Block>)
    requires Represents(s, chain) && OnTip(s, NewBlocks(s, batch))
    ensures var (o, s1) := ProcessBatch(env, s, batch);
            && (o == Done ==> Represents(s1, chain + NewBlocks(s, batch))
                              && Grown(s.db.utxos.entries, s1.db.utxos.entries, NewBlocks(s, batch)))
            && (o != Done ==> s1 == s)
  {
    hide Represents, OnTip, PreValid, CheckSingle, FirstHeight, ApplyBlocks, Grown, IndexAll, KnowAll;
    var blocks := NewBlocks(s, batch);
    if ProcessBatch(env, s, batch).0 == Done {
      if batch == [] {
        assert chain + blocks == chain;
        NothingGrown(s.db.utxos.entries);
      } else {
        assert blocks != [] && !Has(s, blocks[0].hash);
        BatchContinues(env, s, chain, blocks);
        CommitRepresents(env, s, chain, blocks);
      }
    }
  }

  /** After a batch, exactly those spends are forgotten that were forgotten before and that the batch
      does not make again. */
  lemma ConnectForgets(s: ChainState, chain: seq<Block>, s1: ChainState, blocks: seq<Block>, op: Outpoint)
    requires Represents(s, chain) && Represents(s1, chain + blocks)
    requires Grown(s.db.utxos.entries, s1.db.utxos.entries, blocks)
    ensures Forgets(s1.db, chain + blocks, op) <==> Forgets(s.db, chain, op) && !SpentInBlocks(blocks, op)
  {
    hide SpentInBlocks, CachesOk, TipOk, SuppliesOk, AddrIndexed, Build;
    BuiltMarks(chain);
    SpentInBlocksJoin(chain, blocks, op);
  }

  // ---------- checkpoints ----------

  lemma {:induction false} AppliedPassedCheckpoints(env: Env, s: ChainState, size: nat, blocks: seq<Block>, first: nat)
    requires ApplyBlocks(env, s, size, blocks, first).Ok?
    ensures forall i :: 0 <= i < |blocks| ==> CheckpointOk(env.checkpoints, first + i, blocks[i].hash)
  {
    hide ConnectBlock;
    if blocks != [] {
      AppliedPassedCheckpoints(env, s, size, blocks[..|blocks| - 1], first);
      assert forall i :: 0 <= i < |blocks| - 1 ==> blocks[..|blocks| - 1][i] == blocks[i];
    }
  }

  /** What goes through passed its checkpoints. */
  lemma BatchKeepsCheckpoints(env: Env, s: ChainState, chain: seq<Block>, batch: seq<Block>)
    requires Represents(s, chain) && OnTip(s, NewBlocks(s, batch)) && CheckpointsHold(env, chain)
    requires ProcessBatch(env, s, batch).0 == Done
    ensures CheckpointsHold(env, chain + NewBlocks(s, batch))
  {
    hide Represents, OnTip, PreValid, Commit, CheckSingle, FirstHeight, ApplyBlocks;
    var blocks := NewBlocks(s, batch);
    if batch == [] {
      assert chain + blocks == chain;
    } else {
      BatchContinues(env, s, chain, blocks);
      AppliedPassedCheckpoints(env, s, |blocks|, blocks, |chain|);
      var all := chain + blocks;
      forall i | 1 <= i < |all| ensures CheckpointOk(env.checkpoints, i, all[i].hash) {
        if i >= |chain| { assert CheckpointOk(env.checkpoints, |chain| + (i - |chain|), blocks[i - |chain|].hash); }
      }
    }
  }
}
