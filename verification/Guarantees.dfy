/** What every reachable state looks like, in terms of its own fields. */
module Guarantees {
  import opened Types
  import opened Storage
  import opened Ledger
  import opened UtxoFacts
  import opened Inverse
  import opened CommittedFacts
  import opened Chain
  import opened ChainSpec
  import opened Represent
  import opened Batching
  import opened Reachable
  import opened RollbackProofs
  import opened Runs

  // ---------- the shape of a reachable state ----------

  /** Heights 0 to the tip are all there and nothing else is; the two indexes are inverse. */
  ghost predicate IndexesInverse(db: Store, best: nat) {
    && (forall h: nat :: h in db.heightToHash <==> h <= best)
    && (forall h: nat :: h <= best ==> db.heightToHash[h] in db.hashToHeight && db.hashToHeight[db.heightToHash[h]] == h)
    && (forall x :: x in db.hashToHeight ==> db.hashToHeight[x] <= best && db.heightToHash[db.hashToHeight[x]] == x)
    && db.blocks.Keys == db.hashToHeight.Keys
  }

  /** Every block is readable and its parent is the block one height below. */
  ghost predicate ParentsBelow(db: Store, best: nat) {
    && (forall h: nat :: h <= best ==> GetBlockAt(db, h).Some?)
    && (forall h: nat :: 0 < h <= best ==> GetHash(db, h - 1) == Some(GetBlockAt(db, h).value.prev))
  }

  /** The in-memory tip is the stored block at the top, and the stored tip unless nothing was ever
      connected above genesis. */
  ghost predicate TipIsTop(s: ChainState) {
    && GetHash(s.db, s.bestHeight) == Some(s.bestHash)
    && s.bestBlock == GetBlock(s.db, s.bestHash)
    && TipOk(s)
  }

  /** Index work is height, and no index node is above the tip. */
  ghost predicate WorkIsHeight(s: ChainState) {
    forall x :: x in s.blockIndex ==>
      s.blockIndex[x].work == s.blockIndex[x].height <= s.bestHeight && s.blockIndex[x].status == Connected
  }

  /** The three lookups give the answers of the store alone. */
  ghost predicate LookupsAgree(s: ChainState) {
    && (forall x :: HasBlock(s, x) <==> x in s.db.blocks)
    && (forall x :: Has(s, x) <==> x in s.db.blocks)
    && (forall x :: GetBlockHeight(s, map[], x) == GetHeight(s.db, x))
  }

  ghost predicate Sound(s: ChainState) {
    && IndexesInverse(s.db, s.bestHeight)
    && ParentsBelow(s.db, s.bestHeight)
    && TipIsTop(s)
    && WorkIsHeight(s)
    && LookupsAgree(s)
  }

  lemma HeightSits(db: Store, chain: seq<Block>, h: nat)
    requires Holds(db, chain) && h < |chain|
    ensures h in db.heightToHash && db.heightToHash[h] == chain[h].hash
    ensures chain[h].hash in db.hashToHeight && db.hashToHeight[chain[h].hash] == h
    ensures GetBlockAt(db, h) == Some(chain[h])
    ensures h > 0 ==> chain[h].prev == chain[h - 1].hash
  {
    HoldsShape(db, chain);
    hide Holds, LedgerOk;
    assert Placed(db, chain[h], h);
    ReadBack(db, chain[h], h);
  }

  lemma OnlyTheseHeights(db: Store, chain: seq<Block>)
    requires Holds(db, chain)
    ensures forall h: nat :: h in db.heightToHash <==> h < |chain|
    ensures forall x :: x in db.hashToHeight ==> db.hashToHeight[x] < |chain| && chain[db.hashToHeight[x]].hash == x
    ensures db.blocks.Keys == db.hashToHeight.Keys && chain != []
  {
    HoldsShape(db, chain);
  }

  lemma HeldIndexes(db: Store, chain: seq<Block>)
    requires Holds(db, chain)
    ensures chain != [] && IndexesInverse(db, |chain| - 1)
  {
    hide Holds;
    OnlyTheseHeights(db, chain);
    forall h: nat | h < |chain|
      ensures h in db.heightToHash && db.heightToHash[h] == chain[h].hash
      ensures chain[h].hash in db.hashToHeight && db.hashToHeight[chain[h].hash] == h
    {
      HeightSits(db, chain, h);
    }
  }

  lemma HeldParents(db: Store, chain: seq<Block>)
    requires Holds(db, chain)
    ensures chain != [] && ParentsBelow(db, |chain| - 1)
  {
    hide Holds, GetBlockAt;
    OnlyTheseHeights(db, chain);
    forall h: nat | h < |chain|
      ensures GetBlockAt(db, h) == Some(chain[h])
      ensures h > 0 ==> GetHash(db, h - 1) == Some(chain[h].prev)
    {
      HeightSits(db, chain, h);
      if h > 0 { HeightSits(db, chain, h - 1); }
    }
  }

  lemma RepresentsIndexes(s: ChainState, chain: seq<Block>)
    requires Represents(s, chain)
    ensures IndexesInverse(s.db, s.bestHeight) && ParentsBelow(s.db, s.bestHeight)
  {
    hide Holds, CachesOk, TipOk, IndexesInverse, ParentsBelow;
    HeldIndexes(s.db, chain);
    HeldParents(s.db, chain);
  }

  lemma RepresentsTip(s: ChainState, chain: seq<Block>)
    requires Represents(s, chain)
    ensures TipIsTop(s)
  {
    hide Holds, CachesOk, GetBlock;
    HoldsShape(s.db, chain);
    assert Placed(s.db, chain[|chain| - 1], |chain| - 1);
    ReadBack(s.db, chain[|chain| - 1], |chain| - 1);
  }

  lemma RepresentsCaches(s: ChainState, chain: seq<Block>)
    requires Represents(s, chain)
    ensures WorkIsHeight(s) && LookupsAgree(s)
  {
    RepresentsIndexes(s, chain);
    hide Holds, ParentsBelow;
  }

  lemma RepresentsSound(s: ChainState, chain: seq<Block>)
    requires Represents(s, chain)
    ensures Sound(s)
  {
    hide Represents, IndexesInverse, ParentsBelow, TipIsTop, WorkIsHeight, LookupsAgree;
    RepresentsIndexes(s, chain);
    RepresentsTip(s, chain);
    RepresentsCaches(s, chain);
  }

  /** Every state reached by connects on the tip, disconnects, rollbacks and restarts is sound. */
  lemma ReachableIsSound(env: Env, s: ChainState, chain: seq<Block>, steps: seq<Step>, genesis: Block)
    requires Represents(s, chain) && AllAllowed(env, s, steps, genesis) && env.genesisHash == chain[0].hash
    ensures Sound(Run(env, s, steps, genesis))
  {
    hide Represents, Sound, Next, Allowed;
    var after := RunKeepsChain(env, s, chain, steps, genesis);
    RepresentsSound(Run(env, s, steps, genesis), after);
  }

  // ---------- lookups while a batch is open ----------

  /** While a batch of new blocks is open, a height lookup answers from the store overlaid with the
      batch: neither hides the other. */
  lemma HeightsOverlay(s: ChainState, chain: seq<Block>, blocks: seq<Block>, hash: Hash)
    requires Represents(s, chain) && Continues(s.db, chain, blocks)
    ensures var batchHeights := KnowAll(map[], blocks, |chain|);
            var overlay := s.db.hashToHeight + batchHeights;
            && batchHeights.Keys !! s.db.hashToHeight.Keys
            && GetBlockHeight(s, batchHeights, hash) == (if hash in overlay then Some(overlay[hash]) else None)
  {
    RepresentsCaches(s, chain);
    RepresentsIndexes(s, chain);
    KnowAllExactly(map[], blocks, |chain|);
    hide Holds, ParentsBelow;
    var batchHeights := KnowAll(map[], blocks, |chain|);
    forall x | x in batchHeights ensures x !in s.db.hashToHeight {
      var i :| 0 <= i < |blocks| && blocks[i].hash == x && batchHeights[x] == |chain| + i;
      assert blocks[i].hash !in s.db.blocks;
    }
  }

  /** So the blocks of the batch are found one above the other on the chain, and all others where they are stored. */
  lemma BatchIsSeenOnTop(s: ChainState, chain: seq<Block>, blocks: seq<Block>, hash: Hash)
    requires Represents(s, chain) && Continues(s.db, chain, blocks)
    ensures var batchHeights := KnowAll(map[], blocks, |chain|);
            && (forall i :: 0 <= i < |blocks| && blocks[i].hash == hash ==>
                  GetBlockHeight(s, batchHeights, hash) == Some(|chain| + i))
            && ((forall i :: 0 <= i < |blocks| ==> blocks[i].hash != hash) ==>
                  GetBlockHeight(s, batchHeights, hash) == GetHeight(s.db, hash))
  {
    hide *;
    HeightsOverlay(s, chain, blocks, hash);
    ContinuesDistinct(s.db, chain, blocks);
    KnowAllHeights(blocks, |chain|);
    OverlayHeight(s.db, hash);
  }

  lemma OverlayHeight(db: Store, hash: Hash)
    ensures GetHeight(db, hash) == if hash in db.hashToHeight then Some(db.hashToHeight[hash]) else None
  {
  }

  lemma ContinuesDistinct(db: Store, chain: seq<Block>, blocks: seq<Block>)
    requires Continues(db, chain, blocks)
    ensures DistinctHashes(blocks)
  {
  }

  // ---------- going back ----------

  /** Two stores of one chain differ at most in marks, tip and supplies above the chain. */
  lemma SameChainSameStore(a: Store, b: Store, chain: seq<Block>)
    requires Holds(a, chain) && Holds(b, chain)
    ensures a == Recored(b, a) && a.utxos.entries.Keys == b.utxos.entries.Keys
    ensures AddrIndexed(a.utxos) && AddrIndexed(b.utxos)
    ensures forall h: nat :: h < |chain| ==> GetSupply(a, h) == GetSupply(b, h)
  {
    hide Build, AddrIndexed;
  }

  /** Freeing more blocks after more were connected leaves what freeing the fewer would have left. */
  lemma FreedAlike(before: map<Outpoint, Utxo>, after: map<Outpoint, Utxo>, now: UtxoSet, earlier: UtxoSet,
                   below: seq<Block>, added: seq<Block>)
    requires AddrIndexed(now) && AddrIndexed(earlier) && now.entries.Keys == earlier.entries.Keys
    requires Grown(before, after, added)
    requires Freed(after, now.entries, below + added) && Freed(before, earlier.entries, below)
    ensures now == earlier
  {
    hide AddrIndexed, SpentInBlocks;
    forall op | op in now.entries ensures now.entries[op] == earlier.entries[op] {
      SpentInBlocksJoin(below, added, op);
    }
    AddrIndexUnique(now, earlier);
  }

  ghost predicate OnlyConnects(steps: seq<Step>) {
    forall i :: 0 <= i < |steps| ==> steps[i].Connect?
  }

  lemma {:induction false} ConnectsGrow(env: Env, s: ChainState, chain: seq<Block>, steps: seq<Step>, genesis: Block)
    returns (longer: seq<Block>)
    requires Represents(s, chain) && AllAllowed(env, s, steps, genesis) && OnlyConnects(steps)
    ensures Represents(Run(env, s, steps, genesis), longer) && chain <= longer
    ensures Grown(s.db.utxos.entries, Run(env, s, steps, genesis).db.utxos.entries, longer[|chain|..])
    decreases |steps|
  {
    hide Represents, ProcessChunks, ChunksOnTip, Grown;
    if steps == [] {
      longer := chain;
      assert longer[|chain|..] == [];
      NothingGrown(s.db.utxos.entries);
    } else {
      var mid := ChunksExtendChain(env, s, chain, steps[0].batch, MAX_BATCH);
      var s1 := Next(env, s, steps[0], genesis);
      assert s1 == Process(env, s, steps[0].batch).1;
      longer := ConnectsGrow(env, s1, mid, steps[1..], genesis);
      assert chain + mid[|chain|..] == mid;
      SuffixSplits(chain, mid[|chain|..], longer);
      GrownThrough(s.db.utxos.entries, s1.db.utxos.entries, Run(env, s1, steps[1..], genesis).db.utxos.entries,
                   mid[|chain|..], longer[|mid|..]);
    }
  }

  /** `now` is where `before` was: the same unspent outputs, transactions, history, blocks, indexes,
      recorded supplies and tip. */
  ghost predicate BackAt(now: ChainState, before: ChainState) {
    && now.bestHeight == before.bestHeight
    && now.bestHash == before.bestHash
    && now.bestBlock == before.bestBlock
    && now.db == before.db.(tip := now.db.tip, supply := now.db.supply)
    && (before.db.tip.Some? ==> now.db.tip == before.db.tip)
    && (forall h: nat :: h <= before.bestHeight ==> GetSupply(now.db, h) == GetSupply(before.db, h))
    && (forall x :: HasBlock(now, x) <==> HasBlock(before, x))
    && (forall x :: Has(now, x) <==> Has(before, x))
    && (forall x :: GetBlockHeight(now, map[], x) == GetBlockHeight(before, map[], x))
  }

  lemma SameChainBackAt(now: ChainState, before: ChainState, chain: seq<Block>)
    requires Represents(now, chain) && Represents(before, chain) && now.db.utxos == before.db.utxos
    requires before.db.tip.Some? ==> now.db.tip.Some?
    ensures BackAt(now, before)
  {
    RepresentsCaches(now, chain);
    RepresentsCaches(before, chain);
    SameChainSameStore(now.db, before.db, chain);
    hide Holds, CachesOk, WorkIsHeight;
  }

  /** Whatever was connected since, rolling back to a height of the earlier state, within the depth limit,
      gives what rolling back the earlier state to that height gives, outputs and marks included; at its
      tip that is the earlier state itself. */
  lemma RollbackUndoesConnects(env: Env, s: ChainState, chain: seq<Block>, steps: seq<Step>, genesis: Block, height: nat)
    requires Represents(s, chain) && AllAllowed(env, s, steps, genesis) && OnlyConnects(steps)
    requires height <= s.bestHeight && Run(env, s, steps, genesis).bestHeight - height <= env.maxReorgDepth
    ensures BackAt(RollBackAndReset(env, Run(env, s, steps, genesis), height), RollBackAndReset(env, s, height))
    ensures RollBackAndReset(env, s, s.bestHeight) == s
  {
    hide Represents, BackAt, RollBackAndReset, Run, AllAllowed, OnlyConnects, Grown, Freed;
    var longer := ConnectsGrow(env, s, chain, steps, genesis);
    var s1 := Run(env, s, steps, genesis);
    Mirror(s, chain);
    Mirror(s1, longer);
    RollBackCuts(env, s1, longer, height);
    RollBackCuts(env, s, chain, height);
    RollBackCuts(env, s, chain, s.bestHeight);
    var now, earlier := RollBackAndReset(env, s1, height), RollBackAndReset(env, s, height);
    var n, added := height + 1, longer[|chain|..];
    assert longer == chain + added;
    assert longer[..n] == chain[..n] && longer[n..] == chain[n..] + added;
    TipStays(env, s, chain, steps, genesis);
    SameOutputsAgain(s, s1, now, earlier, chain[..n], chain[n..], added);
    SameChainBackAt(now, earlier, chain[..n]);
  }

  lemma SameOutputsAgain(s: ChainState, s1: ChainState, now: ChainState, earlier: ChainState, cut: seq<Block>,
                         below: seq<Block>, added: seq<Block>)
    requires Represents(now, cut) && Represents(earlier, cut)
    requires Grown(s.db.utxos.entries, s1.db.utxos.entries, added)
    requires Freed(s1.db.utxos.entries, now.db.utxos.entries, below + added)
    requires Freed(s.db.utxos.entries, earlier.db.utxos.entries, below)
    ensures now.db.utxos == earlier.db.utxos
  {
    hide Holds, CachesOk, TipOk, Grown, Freed, IndexedFromTop;
    SameChainSameStore(now.db, earlier.db, cut);
    FreedAlike(s.db.utxos.entries, s1.db.utxos.entries, now.db.utxos, earlier.db.utxos, below, added);
  }

  lemma {:induction false} TipStays(env: Env, s: ChainState, chain: seq<Block>, steps: seq<Step>, genesis: Block)
    requires Represents(s, chain) && AllAllowed(env, s, steps, genesis) && OnlyConnects(steps)
    ensures s.db.tip.Some? ==> Run(env, s, steps, genesis).db.tip.Some?
    decreases |steps|
  {
    hide Represents, ProcessChunks, ChunksOnTip;
    if steps != [] {
      var mid := ChunksExtendChain(env, s, chain, steps[0].batch, MAX_BATCH);
      ChunksKeepTip(env, s, steps[0].batch, MAX_BATCH);
      TipStays(env, Next(env, s, steps[0], genesis), mid, steps[1..], genesis);
    }
  }

  lemma {:induction false} ChunksKeepTip(env: Env, s: ChainState, blocks: seq<Block>, size: nat)
    requires size > 0
    ensures s.db.tip.Some? ==> ProcessChunks(env, s, blocks, size).1.db.tip.Some?
    decreases |blocks|
  {
    hide ApplyBlocks, PreValid, CheckSingle;
    var chunk := if |blocks| <= size then blocks else blocks[..size];
    BatchKeepsTip(env, s, chunk);
    var (o, s1) := ProcessBatch(env, s, chunk);
    if |blocks| > size && o == Done { ChunksKeepTip(env, s1, blocks[size..], size); }
  }

  lemma BatchKeepsTip(env: Env, s: ChainState, batch: seq<Block>)
    ensures s.db.tip.Some? ==> ProcessBatch(env, s, batch).1.db.tip.Some?
  {
    hide ApplyBlocks, PreValid, CheckSingle;
    var blocks := NewBlocks(s, batch);
    if blocks != [] && FirstHeight(s.db, blocks[0]).Ok? {
      ApplyKeepsTip(env, s, |blocks|, blocks, FirstHeight(s.db, blocks[0]).value);
    }
  }

  lemma {:induction false} ApplyKeepsTip(env: Env, s: ChainState, size: nat, blocks: seq<Block>, first: nat)
    ensures var r := ApplyBlocks(env, s, size, blocks, first);
            r.Ok? && s.db.tip.Some? ==> r.value.view.tip.Some?
  {
    hide ApplyTxs, IndexTxs;
    if blocks != [] {
      ApplyKeepsTip(env, s, size, blocks[..|blocks| - 1], first);
    }
  }

  /** A rollback is a walk of single commits; stopped after any of them, it stands on the chain cut
      there, and resuming it from there gives what the whole walk gives.  If no spend was forgotten
      before, what is committed there is the very store of the shorter chain exactly when no output is
      spent both below and above the cut, as two blocks of one batch may. */
  lemma EveryCommitIsAChain(s: ChainState, chain: seq<Block>, middle: nat, target: nat)
    requires Represents(s, chain) && target <= middle < |chain|
    ensures var (o, mid) := DisconnectDown(s, s.bestHeight, middle);
            && o == Done
            && Represents(mid, chain[..middle + 1])
            && Sound(mid)
            && DisconnectDown(s, s.bestHeight, target) == DisconnectDown(mid, mid.bestHeight, target)
            && Build(chain[..middle + 1]).Ok?
            && (Intact(s.db, chain) ==>
                  (SameCore(mid.db, Build(chain[..middle + 1]).value) <==> !SpentAcross(chain, middle + 1)))
  {
    hide Represents, Sound, DisconnectDown, Freed, SpentAcross, Intact, Build, SameCore;
    Mirror(s, chain);
    WalkDown(s, chain, middle);
    var mid := DisconnectDown(s, s.bestHeight, middle).1;
    Mirror(mid, chain[..middle + 1]);
    RepresentsSound(mid, chain[..middle + 1]);
    WalkSplits(s, s.bestHeight, middle, target);
    ItsChainBuilds(mid, chain[..middle + 1]);
    if Intact(s.db, chain) { CutIsIntactExactly(s, chain, mid, middle + 1); }
  }

  lemma ItsChainBuilds(s: ChainState, chain: seq<Block>)
    requires Represents(s, chain)
    ensures Build(chain).Ok?
  {
    hide CachesOk, TipOk, Build;
  }

  // ---------- runs without a second spend ----------

  /** From a state whose chain spends nothing twice, a run in which no chunk spends an output in two blocks
      ends in the very store that committing the blocks of its chain one by one gives. */
  lemma ApartRunIsSequential(env: Env, s: ChainState, chain: seq<Block>, steps: seq<Step>, genesis: Block)
    returns (after: seq<Block>)
    requires Represents(s, chain) && AllAllowed(env, s, steps, genesis) && env.genesisHash == chain[0].hash
    requires Whole(s.db, chain) && AllApart(env, s, steps, genesis)
    ensures Represents(Run(env, s, steps, genesis), after)
    ensures after != [] && Build([after[0]]).Ok?
    ensures var one := Grow(Build([after[0]]).value, [after[0]], after[1..]);
            one.Ok? && SameCore(Run(env, s, steps, genesis).db, one.value)
  {
    hide Represents, Next, Allowed, Apart, Build, Grow, SameCore, SpentByOneBlock, Intact;
    after := RunKeepsChain(env, s, chain, steps, genesis);
    var s1 := Run(env, s, steps, genesis);
    WholeIsSequential(s1, after);
  }

  lemma WholeIsSequential(s: ChainState, chain: seq<Block>)
    requires Represents(s, chain) && Whole(s.db, chain)
    ensures chain != [] && Build([chain[0]]).Ok?
    ensures var one := Grow(Build([chain[0]]).value, [chain[0]], chain[1..]);
            one.Ok? && SameCore(s.db, one.value)
  {
    hide CachesOk, TipOk, Build, Grow, SameCore, SpentByOneBlock, Intact, Worn, SuppliesOk;
    IntactExactly(s.db, chain);
    BuiltPrefix(chain, 1);
    assert chain[..1] == [chain[0]] && [chain[0]] + chain[1..] == chain;
    BuildIsSequential(chain[0], chain[1..]);
  }
}
