/** Disconnecting the tip and rolling back give back exactly the shorter chain. */
module RollbackProofs {
  import opened Types
  import opened Storage
  import KeyOrder
  import opened Ledger
  import opened UtxoFacts
  import opened BlockFacts
  import opened Inverse
  import opened CommittedFacts
  import opened Chain
  import opened ChainSpec
  import opened Represent

  // ---------- disconnecting the tip ----------

  /** What is left of `before` once these blocks are gone: their marks are cleared, other marks stay. */
  ghost predicate Freed(before: map<Outpoint, Utxo>, after: map<Outpoint, Utxo>, gone: seq<Block>) {
    forall op :: op in after ==>
      op in before && after[op] == if SpentInBlocks(gone, op) then before[op].Reset() else before[op]
  }

  lemma TipCleared(before: map<Outpoint, Utxo>, kept: map<Outpoint, Utxo>, after: map<Outpoint, Utxo>, b: Block)
    requires Cleared(kept, before, after, b.txs)
    ensures Freed(before, after, [b])
  {
    forall op ensures SpentInBlocks([b], op) <==> SpentIn(b.txs, op) {
      assert [b][0] == b;
    }
  }

  /** The top block was stacked on the store of the chain below it. */
  lemma Stacked(chain: seq<Block>)
    requires Build(chain).Ok? && |chain| > 1
    ensures var n := |chain| - 1;
            var st0 := Build(chain[..n]);
            && st0.Ok? && LedgerOk(st0.value) && NewBlock(st0.value, chain[n], n) && chain[n].prev == chain[n - 1].hash
            && ConnectBlock(EMPTY_STORE, st0.value, n - 1, map[n - 1 := GetSupply(st0.value, n - 1)], chain[n], n).Ok?
            && Build(chain).value == ConnectBlock(EMPTY_STORE, st0.value, n - 1,
                                                  map[n - 1 := GetSupply(st0.value, n - 1)], chain[n], n).value.view
  {
    hide ConnectBlock, LedgerOk, Shaped, NewBlock;
    BuiltIsShaped(chain[..|chain| - 1]);
  }

  lemma TipUndone(db: Store, chain: seq<Block>)
    requires Holds(db, chain) && |chain| > 1
    ensures var n := |chain| - 1;
            var d := DisconnectStore(db, chain[n], n);
            && d.Ok?
            && Holds(d.value, chain[..n])
            && d.value.tip == Some(Tip(n - 1, chain[n - 1].hash))
            && d.value.supply == db.supply
            && Freed(db.utxos.entries, d.value.utxos.entries, [chain[n]])
  {
    hide Build, ConnectBlock, LedgerOk, NewBlock, AddrIndexed, Faded, Cleared, Freed, DisconnectStore, SuppliesOk;
    var n := |chain| - 1;
    Stacked(chain);
    var st0 := Build(chain[..n]).value;
    DisconnectExactly(EMPTY_STORE, st0, n - 1, map[n - 1 := GetSupply(st0, n - 1)], chain[n], n, db);
    var d := DisconnectStore(db, chain[n], n).value;
    SuppliesShrink(db, chain, n);
    SameSupplies(db, d, chain[..n]);
    TipCleared(db.utxos.entries, st0.utxos.entries, d.utxos.entries, chain[n]);
  }

  lemma SameSupplies(a: Store, b: Store, chain: seq<Block>)
    requires SuppliesOk(a, chain) && b.supply == a.supply
    ensures SuppliesOk(b, chain)
  {
  }

  lemma SuppliesShrink(db: Store, chain: seq<Block>, n: nat)
    requires SuppliesOk(db, chain) && n <= |chain|
    ensures SuppliesOk(db, chain[..n])
  {
    forall h: nat | h < n ensures h in db.supply && db.supply[h] == SupplyAt(chain[..n], h) {
      assert chain[..n][..h + 1] == chain[..h + 1];
    }
  }

  lemma CachesShrink(s: ChainState, s1: ChainState, gone: Hash)
    requires CachesOk(s) && s1.db.hashToHeight == s.db.hashToHeight - {gone}
    requires gone in s.db.hashToHeight
    requires forall x :: x in s.db.hashToHeight ==> s.db.hashToHeight[x] <= s.db.hashToHeight[gone]
    requires s1.knownBlocks == s.knownBlocks - {gone} && s1.blockIndex == s.blockIndex - {gone}
    ensures CachesOk(s1)
  {
  }

  lemma TopReadable(db: Store, chain: seq<Block>)
    requires Holds(db, chain)
    ensures var n := |chain| - 1;
            && n >= 0
            && GetBlock(db, chain[n].hash) == Some(chain[n])
            && chain[n].hash in db.hashToHeight && db.hashToHeight[chain[n].hash] == n
            && forall x :: x in db.hashToHeight ==> db.hashToHeight[x] <= n
  {
    hide Build, Worn;
    HoldsShape(db, chain);
    assert Placed(db, chain[|chain| - 1], |chain| - 1);
    ReadBack(db, chain[|chain| - 1], |chain| - 1);
  }

  /** The parent named by the block on top is the one below it. */
  lemma TopLinks(db: Store, chain: seq<Block>)
    requires Holds(db, chain) && |chain| > 1
    ensures chain[|chain| - 1].prev == chain[|chain| - 2].hash
  {
    HoldsShape(db, chain);
  }

  lemma IndexShrinksFromTop(s: ChainState, chain: seq<Block>)
    requires Represents(s, chain)
    ensures IndexedFromTop(s.blockIndex - {chain[|chain| - 1].hash}, chain[..|chain| - 1])
  {
    HoldsShape(s.db, chain);
    hide Holds, CachesOk, TipOk;
    var n := |chain| - 1;
    assert Placed(s.db, chain[n], n);
    forall j | 0 <= j < n ensures chain[j].hash != chain[n].hash {
      assert Placed(s.db, chain[j], j);
    }
  }

  /** Disconnecting the tip always succeeds and gives a state of the chain without it, in which exactly
      the marks of what it spent are cleared. */
  lemma DisconnectTip(s: ChainState, chain: seq<Block>)
    requires Represents(s, chain) && |chain| > 1
    ensures var (o, s1) := Disconnect(s, chain[|chain| - 1]);
            && o == Done
            && Represents(s1, chain[..|chain| - 1])
            && s1.db.supply == s.db.supply
            && s1.db.tip == Some(Tip(|chain| - 2, chain[|chain| - 2].hash))
            && Freed(s.db.utxos.entries, s1.db.utxos.entries, [chain[|chain| - 1]])
  {
    hide Holds, Freed, DisconnectStore, CachesOk, IndexedFromTop;
    var n := |chain| - 1;
    var b := chain[n];
    IndexShrinksFromTop(s, chain);
    TipUndone(s.db, chain);
    TopReadable(s.db, chain);
    TopLinks(s.db, chain);
    var d := DisconnectStore(s.db, b, n).value;
    TopReadable(d, chain[..n]);
    DisconnectedHeights(s.db, b, n);
    CachesShrink(s, Disconnect(s, b).1, b.hash);
  }

  lemma {:induction false} DeleteTransactionsKeepsIndexes(committed: Store, st: Store, txs: seq<Tx>, height: nat)
    ensures DeleteTransactions(committed, st, txs, height).hashToHeight == st.hashToHeight
    ensures DeleteTransactions(committed, st, txs, height).heightToHash == st.heightToHash
    ensures DeleteTransactions(committed, st, txs, height).blocks == st.blocks
    decreases |txs|
  {
    if txs != [] {
      DeleteTransactionsKeepsIndexes(committed, DeleteTransaction(committed, st, txs[|txs| - 1].id, height),
                                     txs[..|txs| - 1], height);
    }
  }

  lemma DisconnectedHeights(db: Store, b: Block, h: nat)
    requires DisconnectStore(db, b, h).Ok?
    ensures var d := DisconnectStore(db, b, h).value;
            && d.hashToHeight == db.hashToHeight - {b.hash}
            && d.heightToHash == db.heightToHash - {h}
            && d.blocks == db.blocks - {b.hash}
  {
    DeleteTransactionsKeepsIndexes(db, db, b.txs, h);
  }

  // ---------- rolling back ----------

  /** Walking down from the tip passes through exactly the shorter chains: whatever height the walk
      has reached, everything committed so far is the state of the chain cut there. */
  lemma {:induction false} WalkDown(s: ChainState, chain: seq<Block>, target: nat)
    requires Represents(s, chain) && target < |chain|
    ensures var (o, s1) := DisconnectDown(s, |chain| - 1, target);
            && o == Done
            && Represents(s1, chain[..target + 1])
            && s1.db.supply == s.db.supply
            && (target < |chain| - 1 ==> s1.db.tip == Some(Tip(target, chain[target].hash)))
            && (target == |chain| - 1 ==> s1 == s)
            && Freed(s.db.utxos.entries, s1.db.utxos.entries, chain[target + 1..])
    decreases |chain|
  {
    hide Represents, Disconnect, GetBlockAt, Freed;
    var n := |chain| - 1;
    if target == n {
      assert chain[..n + 1] == chain && chain[n + 1..] == [];
      NothingFreed(s.db.utxos.entries);
    } else {
      BlockIsFound(s, chain, n);
      DisconnectTip(s, chain);
      var s1 := Disconnect(s, chain[n]).1;
      WalkDown(s1, chain[..n], target);
      assert chain[..n][..target + 1] == chain[..target + 1];
      assert chain[target + 1..] == chain[..n][target + 1..] + [chain[n]];
      FreedThrough(s.db.utxos.entries, s1.db.utxos.entries, DisconnectDown(s1, n - 1, target).1.db.utxos.entries,
                   [chain[n]], chain[..n][target + 1..]);
    }
  }

  lemma NothingFreed(entries: map<Outpoint, Utxo>)
    ensures Freed(entries, entries, [])
  {
  }

  lemma FreedThrough(a: map<Outpoint, Utxo>, b: map<Outpoint, Utxo>, c: map<Outpoint, Utxo>, top: seq<Block>,
                     rest: seq<Block>)
    requires Freed(a, b, top) && Freed(b, c, rest)
    ensures Freed(a, c, rest + top)
  {
    hide SpentInBlocks;
    forall op | op in c ensures op in a && c[op] == if SpentInBlocks(rest + top, op) then a[op].Reset() else a[op] {
      SpentInBlocksJoin(rest, top, op);
    }
  }

  lemma BlockIsFound(s: ChainState, chain: seq<Block>, i: nat)
    requires Represents(s, chain) && i < |chain|
    ensures GetBlockAt(s.db, i) == Some(chain[i])
  {
    HoldsShape(s.db, chain);
    assert Placed(s.db, chain[i], i);
    ReadBack(s.db, chain[i], i);
  }

  /** A walk can be stopped at any height in between and resumed. */
  lemma {:induction false} WalkSplits(s: ChainState, h: nat, middle: nat, target: nat)
    requires target <= middle <= h
    requires DisconnectDown(s, h, middle).0 == Done
    ensures DisconnectDown(s, h, target) == DisconnectDown(DisconnectDown(s, h, middle).1, middle, target)
    decreases h
  {
    if middle < h {
      var block := GetBlockAt(s.db, h);
      if block.None? {
        WalkSplits(s, h - 1, middle, target);
      } else {
        WalkSplits(Disconnect(s, block.value).1, h - 1, middle, target);
      }
    }
  }

  lemma NothingAbove(db: Store, chain: seq<Block>)
    requires Shaped(db, chain) && chain != []
    ensures CleanOrphanedBlocks(db, |chain| - 1) == db
  {
    assert HashesAbove(db, |chain| - 1) == {};
    assert KeyOrder.SortedKeys({}) == [];
  }

  lemma NothingKnownAbove(s: ChainState, chain: seq<Block>)
    requires CachesOk(s) && Shaped(s.db, chain) && chain != []
    ensures ForgetAbove(s.knownBlocks, |chain| - 1) == s.knownBlocks
    ensures UnindexAbove(s.blockIndex, |chain| - 1) == s.blockIndex
  {
  }

  /** On a state of a chain, the clean-ups that follow a rollback to its tip find nothing to do. */
  lemma NothingToClean(s: ChainState, chain: seq<Block>)
    requires Represents(s, chain)
    ensures CleanOrphanedBlocks(s.db, s.bestHeight) == s.db
    ensures ForgetAbove(s.knownBlocks, s.bestHeight) == s.knownBlocks
    ensures ResetChainState(s, s.bestHeight) == s
  {
    HoldsShape(s.db, chain);
    NothingAbove(s.db, chain);
    NothingKnownAbove(s, chain);
  }

  lemma Mirror(s: ChainState, chain: seq<Block>)
    requires Represents(s, chain)
    ensures chain != [] && s.bestHeight == |chain| - 1
    ensures s.bestBlock == Some(chain[|chain| - 1]) && s.bestHash == chain[|chain| - 1].hash
  {
  }

  /** Rolling back within the depth limit succeeds and gives a state of the chain cut at the target;
      the stored tip then names the target. */
  lemma RollbackRestores(env: Env, s: ChainState, chain: seq<Block>, target: nat)
    requires Represents(s, chain) && target < |chain| && s.bestHeight - target <= env.maxReorgDepth
    ensures var (o, s1) := Rollback(env, s, target);
            && o == Done
            && Represents(s1, chain[..target + 1])
            && s1.db.supply == s.db.supply
            && (target < s.bestHeight ==> s1.db.tip == Some(Tip(target, chain[target].hash)))
            && Freed(s.db.utxos.entries, s1.db.utxos.entries, chain[target + 1..])
  {
    hide Represents, DisconnectDown, CleanOrphanedBlocks, GetBlockAt, ForgetAbove, Freed;
    var n := |chain| - 1;
    Mirror(s, chain);
    if target == n {
      assert chain[..n + 1] == chain && chain[n + 1..] == [];
      NothingFreed(s.db.utxos.entries);
    } else {
      var cut := chain[..target + 1];
      BlockIsFound(s, chain, target);
      WalkDown(s, chain, target);
      var s1 := DisconnectDown(s, n, target).1;
      Mirror(s1, cut);
      NothingToClean(s1, cut);
      assert Rollback(env, s, target) == (Done, s1);
    }
  }

  // ---------- what a rollback forgets ----------

  /** After a rollback, a spend of the remaining chain is forgotten exactly when it was forgotten before,
      or a block that was removed had spent the same output again. */
  lemma RollbackForgets(s: ChainState, chain: seq<Block>, s1: ChainState, n: nat, op: Outpoint)
    requires Represents(s, chain) && n <= |chain| && Represents(s1, chain[..n])
    requires Freed(s.db.utxos.entries, s1.db.utxos.entries, chain[n..])
    ensures Forgets(s1.db, chain[..n], op) <==>
              SpentInBlocks(chain[..n], op) && (Forgets(s.db, chain, op) || SpentInBlocks(chain[n..], op))
  {
    hide SpentInBlocks, CachesOk, TipOk, SuppliesOk, AddrIndexed, Build;
    BuiltMarks(chain[..n]);
    assert chain == chain[..n] + chain[n..];
    SpentInBlocksJoin(chain[..n], chain[n..], op);
  }

  /** An output is spent on both sides of a cut. */
  ghost predicate SpentAcross(chain: seq<Block>, n: nat)
    requires n <= |chain|
  {
    exists op :: SpentInBlocks(chain[..n], op) && SpentInBlocks(chain[n..], op)
  }

  /** From a state that remembers every spend, the state after a rollback is the very one the remaining
      chain builds exactly when no output is spent on both sides of the cut. */
  lemma CutIsIntactExactly(s: ChainState, chain: seq<Block>, s1: ChainState, n: nat)
    requires Represents(s, chain) && Intact(s.db, chain) && 0 < n <= |chain| && Represents(s1, chain[..n])
    requires Freed(s.db.utxos.entries, s1.db.utxos.entries, chain[n..])
    ensures Build(chain[..n]).Ok?
    ensures SameCore(s1.db, Build(chain[..n]).value) <==> !SpentAcross(chain, n)
  {
    hide SpentInBlocks, CachesOk, TipOk, SuppliesOk, Build, Worn, Forgets, Freed, SameCore;
    forall op
      ensures Forgets(s1.db, chain[..n], op) <==> SpentInBlocks(chain[..n], op) && SpentInBlocks(chain[n..], op)
    {
      RollbackForgets(s, chain, s1, n, op);
    }
    IntactExactly(s1.db, chain[..n]);
  }
}
