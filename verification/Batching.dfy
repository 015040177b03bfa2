/** What a batch leaves, and when it is the same as committing one block at a time. */
module Batching {
  import opened Types
  import opened Storage
  import opened Ledger
  import opened UtxoFacts
  import opened BlockFacts
  import opened Inverse
  import opened CommittedFacts
  import opened Chain
  import opened ChainSpec
  import opened Represent

  // ---------- what a connected block adds to the batch invariant ----------

  lemma IdInBlocksSnoc(done: seq<Block>, b: Block, id: Hash)
    ensures IdInBlocks(done + [b], id) <==> IdInBlocks(done, id) || HasId(b.txs, id)
  {
    if IdInBlocks(done, id) {
      var i :| 0 <= i < |done| && HasId(done[i].txs, id);
      assert HasId((done + [b])[i].txs, id);
    }
    assert (done + [b])[|done|] == b;
  }

  lemma SpendsSnoc(db: Store, done: seq<Block>, before: map<Outpoint, Utxo>, after: map<Outpoint, Utxo>, b: Block, h: nat)
    requires BlockApplied(before, after, b.txs, h) && h > 0
    requires forall op :: SpentInBlocks(done, op) ==> op in before && before[op].IsSpent()
    requires forall op :: op in before && before[op].IsSpent() && !SpentInBlocks(done, op) ==>
               op in db.utxos.entries && db.utxos.entries[op] == before[op]
    ensures forall op :: SpentInBlocks(done + [b], op) ==> op in after && after[op].IsSpent()
    ensures forall op :: op in after && after[op].IsSpent() && !SpentInBlocks(done + [b], op) ==>
              op in db.utxos.entries && db.utxos.entries[op] == after[op]
  {
    hide SpentInBlocks;
    forall op | SpentInBlocks(done + [b], op) ensures op in after && after[op].IsSpent() {
      SpentInBlocksSnoc(done, b, op);
    }
    forall op | op in after && after[op].IsSpent() && !SpentInBlocks(done + [b], op)
      ensures op in db.utxos.entries && db.utxos.entries[op] == after[op]
    {
      SpentInBlocksSnoc(done, b, op);
      if op !in before { CreatedUtxoMatches(b.txs, h, op); }
    }
  }

  lemma BatchInvSnoc(db: Store, done: seq<Block>, view: Store, best: nat, cache: map<nat, int>, b: Block, h: nat)
    requires BatchInv(db, done, view) && LedgerOk(view) && NewBlock(view, b, h) && h > 0
    requires ConnectBlock(db, view, best, cache, b, h).Ok?
    ensures BatchInv(db, done + [b], ConnectBlock(db, view, best, cache, b, h).value.view)
  {
    hide ConnectBlock, LedgerOk, BlockApplied;
    ConnectExactly(db, view, best, cache, b, h);
    var c := ConnectBlock(db, view, best, cache, b, h).value.view;
    ExtendedTxs(view, c, b, h);
    forall id | id in c.txs ensures id in db.txs || IdInBlocks(done + [b], id) {
      IdInBlocksSnoc(done, b, id);
    }
    SpendsSnoc(db, done, view.utxos.entries, c.utxos.entries, b, h);
  }

  /** Besides new outputs, only marks were set: whatever these blocks spend was unspent and now is not. */
  ghost predicate Grown(before: map<Outpoint, Utxo>, after: map<Outpoint, Utxo>, blocks: seq<Block>) {
    && (forall op :: SpentInBlocks(blocks, op) ==> op in after && after[op].IsSpent())
    && (forall op :: op in before ==>
          && op in after
          && after[op].Reset() == before[op].Reset()
          && (if SpentInBlocks(blocks, op) then before[op] == before[op].Reset() else after[op] == before[op]))
  }

  lemma GrownAt(db: Store, done: seq<Block>, view: Store, after: map<Outpoint, Utxo>, b: Block, h: nat, op: Outpoint)
    requires LedgerOk(db) && Grown(db.utxos.entries, view.utxos.entries, done)
    requires BlockApplied(view.utxos.entries, after, b.txs, h) && h > 0
    requires SpentWereFree(db, view.utxos.entries, b.txs)
    ensures SpentInBlocks(done + [b], op) ==> op in after && after[op].IsSpent()
    ensures op in db.utxos.entries ==>
              var was := db.utxos.entries[op];
              && op in after
              && after[op].Reset() == was.Reset()
              && (if SpentInBlocks(done + [b], op) then was == was.Reset() else after[op] == was)
  {
    hide SpentInBlocks;
    SpentInBlocksSnoc(done, b, op);
    if op in db.utxos.entries { assert UtxoOk(db, op, db.utxos.entries[op]); }
  }

  lemma GrownSnoc(db: Store, done: seq<Block>, view: Store, best: nat, cache: map<nat, int>, b: Block, h: nat)
    requires LedgerOk(db) && Grown(db.utxos.entries, view.utxos.entries, done)
    requires LedgerOk(view) && NewBlock(view, b, h) && h > 0
    requires ConnectBlock(db, view, best, cache, b, h).Ok?
    ensures Grown(db.utxos.entries, ConnectBlock(db, view, best, cache, b, h).value.view.utxos.entries, done + [b])
  {
    hide ConnectBlock, LedgerOk, BlockApplied, SpentWereFree, SpentInBlocks, NewBlock;
    ConnectExactly(db, view, best, cache, b, h);
    var after := ConnectBlock(db, view, best, cache, b, h).value.view.utxos.entries;
    forall op
      ensures SpentInBlocks(done + [b], op) ==> op in after && after[op].IsSpent()
      ensures op in db.utxos.entries ==>
                var was := db.utxos.entries[op];
                && op in after
                && after[op].Reset() == was.Reset()
                && (if SpentInBlocks(done + [b], op) then was == was.Reset() else after[op] == was)
    {
      GrownAt(db, done, view, after, b, h, op);
    }
  }

  lemma NothingGrown(entries: map<Outpoint, Utxo>)
    ensures Grown(entries, entries, [])
  {
  }

  // ---------- what a batch leaves ----------

  /** Where a batch stands after the blocks `done`: the pending store holds the longer chain. */
  ghost predicate At(db: Store, chain: seq<Block>, done: seq<Block>, p: Pending) {
    && Holds(p.view, chain + done)
    && BatchInv(db, done, p.view)
    && CacheInv(db, |chain| + |done|, p)
    && Grown(db.utxos.entries, p.view.utxos.entries, done)
    && (if done == [] then p.view == db
        else p.view.tip == Some(Tip(|chain| + |done| - 1, done[|done| - 1].hash)))
  }

  lemma HeightsAround(db: Store, view: Store, chain: seq<Block>, all: seq<Block>)
    requires Holds(db, chain) && Holds(view, all) && |all| >= |chain|
    ensures |all| !in db.heightToHash && |all| - 1 in view.supply
    ensures LedgerOk(db) && LedgerOk(view)
  {
    hide Build, Worn;
    HoldsShape(db, chain);
    HoldsShape(view, all);
  }

  lemma StepFacts(db: Store, chain: seq<Block>, blocks: seq<Block>, i: nat, p: Pending)
    requires Holds(db, chain) && Continues(db, chain, blocks) && i < |blocks|
    requires At(db, chain, blocks[..i], p)
    ensures var h, all := |chain| + i, chain + blocks[..i];
            && LedgerOk(db) && LedgerOk(p.view)
            && Follows(p.view, all[h - 1].hash, blocks[i], h)
            && NewBlock(p.view, blocks[i], h)
            && h !in db.heightToHash && h - 1 in p.view.supply
            && chain + blocks[..i + 1] == all + [blocks[i]]
            && blocks[..i + 1] == blocks[..i] + [blocks[i]]
  {
    hide Holds, LedgerOk, Continues, BatchInv, CacheInv, NewBlock, Grown;
    assert chain != [] by { ChainNonempty(db, chain); }
    NextFollows(db, chain, blocks, i, p.view);
    HeightsAround(db, p.view, chain, chain + blocks[..i]);
  }

  lemma ChainNonempty(db: Store, chain: seq<Block>)
    requires Holds(db, chain)
    ensures chain != []
  {
  }

  lemma ExtendSupplies(view: Store, q: Store, all: seq<Block>, b: Block, supply: int)
    requires SuppliesOk(view, all) && all != [] && Build(all + [b]).Ok?
    requires |all| in Build(all + [b]).value.supply && supply == Build(all + [b]).value.supply[|all|]
    requires q.supply == view.supply[|all| := supply]
    ensures SuppliesOk(q, all + [b])
  {
    hide Stack, Build;
    var longer := all + [b];
    forall h: nat | h < |longer| ensures h in q.supply && q.supply[h] == SupplyAt(longer, h) {
      if h < |all| {
        assert longer[..h + 1] == all[..h + 1];
      } else {
        BuiltSupplies(longer, h);
      }
    }
  }

  lemma SupplyAtTop(view: Store, all: seq<Block>)
    requires Holds(view, all)
    ensures |all| - 1 in view.supply && view.supply[|all| - 1] == GetSupply(Build(all).value, |all| - 1)
  {
    hide Build, Worn;
    BuiltSupplies(all, |all| - 1);
  }

  /** One more block, judged against whatever store, turns a store of a chain into one of the longer chain. */
  lemma HoldsSnoc(db: Store, view: Store, all: seq<Block>, best: nat, cache: map<nat, int>, b: Block)
    requires Holds(view, all) && Follows(view, all[|all| - 1].hash, b, |all|) && best < |all|
    requires |all| - 1 in view.supply && PrevSupply(db, cache, |all|) == view.supply[|all| - 1]
    requires ConnectBlock(db, view, best, cache, b, |all|).Ok?
    ensures var r := ConnectBlock(db, view, best, cache, b, |all|).value;
            && Holds(r.view, all + [b])
            && |all| in r.view.supply && r.view.supply == view.supply[|all| := r.view.supply[|all|]]
            && r.cache == cache[|all| := r.view.supply[|all|]]
            && r.view.tip == Some(Tip(|all|, b.hash))
  {
    hide ConnectBlock, LedgerOk, Shaped, NewBlock, SuppliesOk, Build, GetSupply, Worn, PrevSupply;
    var h, st := |all|, Build(all).value;
    BuiltIsShaped(all);
    BuildSnoc(all, b);
    SupplyAtTop(view, all);
    WornNew(view, st, b, h);
    ConnectWorn(db, view, best, cache, st, b, h, map[h - 1 := GetSupply(st, h - 1)]);
    var r := ConnectBlock(db, view, best, cache, b, h).value;
    ExtendSupplies(view, r.view, all, b, r.view.supply[h]);
  }

  lemma CacheSnoc(db: Store, h: nat, p: Pending, q: Pending)
    requires CacheInv(db, h, p) && h in q.view.supply && q.view.supply == p.view.supply[h := q.view.supply[h]]
    requires q.cache == p.cache[h := q.view.supply[h]]
    ensures CacheInv(db, h + 1, q)
  {
  }

  lemma StepHolds(db: Store, chain: seq<Block>, blocks: seq<Block>, i: nat, p: Pending, best: nat)
    requires Holds(db, chain) && Continues(db, chain, blocks) && i < |blocks| && best < |chain|
    requires At(db, chain, blocks[..i], p)
    requires ConnectBlock(db, p.view, best, p.cache, blocks[i], |chain| + i).Ok?
    ensures var r := ConnectBlock(db, p.view, best, p.cache, blocks[i], |chain| + i).value;
            At(db, chain, blocks[..i + 1], Pending(r.view, r.cache))
  {
    hide Build, Holds, ConnectBlock, LedgerOk, NewBlock, Follows, BatchInv, Continues, Grown, CacheInv, PrevSupply;
    StepFacts(db, chain, blocks, i, p);
    var h, done, b := |chain| + i, blocks[..i], blocks[i];
    PrevSupplyAgrees(db, p, h);
    var r := ConnectBlock(db, p.view, best, p.cache, b, h).value;
    HoldsSnoc(db, p.view, chain + done, best, p.cache, b);
    CacheSnoc(db, h, p, Pending(r.view, r.cache));
    BatchInvSnoc(db, done, p.view, best, p.cache, b, h);
    GrownSnoc(db, done, p.view, best, p.cache, b, h);
  }

  lemma ContinuesPrefix(db: Store, chain: seq<Block>, blocks: seq<Block>, n: nat)
    requires Continues(db, chain, blocks) && n <= |blocks|
    ensures Continues(db, chain, blocks[..n])
  {
    assert forall i :: 0 <= i < n ==> blocks[..n][i] == blocks[i];
  }

  lemma EmptyBatch(db: Store, chain: seq<Block>)
    requires Holds(db, chain)
    ensures At(db, chain, [], Pending(db, map[]))
  {
    assert chain + [] == chain;
    assert forall op :: !SpentInBlocks([], op);
  }

  /** Whatever batch of new blocks on the tip goes through, its pending store holds the longer chain. */
  lemma {:induction false} ApplyHolds(env: Env, s: ChainState, chain: seq<Block>, size: nat, blocks: seq<Block>)
    requires chain != [] && Holds(s.db, chain) && s.bestHeight == |chain| - 1 && Continues(s.db, chain, blocks)
    requires ApplyBlocks(env, s, size, blocks, |chain|).Ok?
    ensures At(s.db, chain, blocks, ApplyBlocks(env, s, size, blocks, |chain|).value)
  {
    hide At, Continues, Holds, ConnectBlock;
    if blocks == [] {
      EmptyBatch(s.db, chain);
    } else {
      var n := |blocks| - 1;
      assert blocks[..n + 1] == blocks;
      ContinuesPrefix(s.db, chain, blocks, n);
      ApplyHolds(env, s, chain, size, blocks[..n]);
      StepHolds(s.db, chain, blocks, n, ApplyBlocks(env, s, size, blocks[..n], |chain|).value, s.bestHeight);
    }
  }

  // ---------- one block inside a batch, and on its own ----------

  /** The block spends nothing that an earlier block of the batch spent. */
  ghost predicate SpendsApart(done: seq<Block>, b: Block) {
    forall op :: SpentIn(b.txs, op) ==> !SpentInBlocks(done, op)
  }

  /** One block at a time, a second spend of an outpoint is refused: the first one is committed. */
  lemma SequentialNeedsApart(db: Store, done: seq<Block>, view: Store, b: Block, h: nat)
    requires BatchInv(db, done, view) && LedgerOk(view) && NewBlock(view, b, h) && h > 0
    requires ConnectBlock(view, view, h - 1, map[], b, h).Ok?
    ensures SpendsApart(done, b)
  {
    hide SpentInBlocks, ConnectBlock;
    ConnectSpendsUnspent(view, h - 1, map[], b, h);
  }

  /** Connecting against the store the batch started from, or against the store the previous block
      left, gives the same view. */
  lemma BatchedIsSequential(db: Store, done: seq<Block>, p: Pending, best: nat, b: Block, h: nat)
    requires LedgerOk(db) && LedgerOk(p.view) && BatchInv(db, done, p.view) && SpendsApart(done, b)
    requires NewBlock(p.view, b, h) && h > best && h !in db.heightToHash
    requires h - 1 in p.view.supply && CacheInv(db, h, p)
    ensures var r := ConnectBlock(db, p.view, best, p.cache, b, h);
            var q := ConnectBlock(p.view, p.view, h - 1, map[], b, h);
            && (r.Ok? <==> q.Ok?)
            && (r.Ok? ==> r.value.view == q.value.view)
  {
    NextAgrees(db, done, p.view, b);
    NewBlockNewIds(p.view, b, h);
    PrevSupplyAgrees(db, p, h);
    ConnectSame(db, p.view, p.view, best, h - 1, p.cache, map[], b, h);
  }

  /** Checkpoints and the consensus engine let every block through. */
  ghost predicate Accepted(env: Env, s: ChainState, size: nat, blocks: seq<Block>, first: nat) {
    forall i :: 0 <= i < |blocks| ==>
      && CheckpointOk(env.checkpoints, first + i, blocks[i].hash)
      && env.accepts(LevelFor(IsInitialDownload(env, s), size, first + i), s.db, blocks[..i], blocks[i], first + i)
  }

  lemma SpentByOneBlockSnoc(blocks: seq<Block>)
    requires blocks != []
    ensures SpentByOneBlock(blocks) <==>
            SpentByOneBlock(blocks[..|blocks| - 1]) && SpendsApart(blocks[..|blocks| - 1], blocks[|blocks| - 1])
  {
    var n := |blocks| - 1;
    var init, b := blocks[..n], blocks[n];
    if SpentByOneBlock(blocks) {
      forall op | SpentIn(b.txs, op) ensures !SpentInBlocks(init, op) {
        assert forall i :: 0 <= i < n ==> init[i] == blocks[i];
      }
      assert SpentByOneBlock(init) by {
        assert forall i :: 0 <= i < n ==> init[i] == blocks[i];
      }
    }
    if SpentByOneBlock(init) && SpendsApart(init, b) {
      forall i, j, op | 0 <= i < j < |blocks| && SpentIn(blocks[i].txs, op) ensures !SpentIn(blocks[j].txs, op) {
        assert blocks[i] == init[i];
        if j == n { assert SpentInBlocks(init, op); } else { assert blocks[j] == init[j]; }
      }
    }
  }

  lemma GrowStep(db: Store, chain: seq<Block>, blocks: seq<Block>)
    requires chain != [] && blocks != []
    ensures var n := |blocks| - 1;
            var before := Grow(db, chain, blocks[..n]);
            Grow(db, chain, blocks)
            == if before.Err? then before
               else Extend(before.value, (chain + blocks[..n])[|chain| + n - 1].hash, blocks[n], |chain| + n)
  {
    hide Extend;
    var n := |blocks| - 1;
    assert (chain + blocks)[|chain| + n - 1] == (chain + blocks[..n])[|chain| + n - 1];
  }

  ghost predicate AloneAlike(db: Store, p: Pending, best: nat, done: seq<Block>, tip: Hash, b: Block, h: nat)
    requires h > 0
  {
    var r := ConnectBlock(db, p.view, best, p.cache, b, h);
    var q := Extend(p.view, tip, b, h);
    && (q.Ok? <==> r.Ok? && SpendsApart(done, b))
    && (q.Ok? ==> r.value.view == q.value)
  }

  /** One more block of a batch: judged in the batch and on its own it does the same, unless it spends
      what an earlier block of the batch spent; then it is refused on its own. */
  lemma StepBoth(db: Store, chain: seq<Block>, blocks: seq<Block>, i: nat, p: Pending, best: nat)
    requires chain != [] && i < |blocks| && best < |chain|
    requires Holds(db, chain) && Continues(db, chain, blocks) && At(db, chain, blocks[..i], p)
    ensures AloneAlike(db, p, best, blocks[..i], (chain + blocks[..i])[|chain| + i - 1].hash, blocks[i], |chain| + i)
  {
    hide Build, Holds, ConnectBlock, LedgerOk, NewBlock, BatchInv, SpendsApart, Continues, Grown, CacheInv;
    StepFacts(db, chain, blocks, i, p);
    var h, done, b := |chain| + i, blocks[..i], blocks[i];
    if SpendsApart(done, b) { BatchedIsSequential(db, done, p, best, b, h); }
    if ConnectBlock(p.view, p.view, h - 1, map[], b, h).Ok? { SequentialNeedsApart(db, done, p.view, b, h); }
  }

  /** A batch of new blocks on the tip goes through exactly when the blocks, committed one by one, all
      connect and are accepted; the only thing the batch does not notice is an outpoint spent by two
      of its own blocks.  Where it goes through without one, it leaves the very same store. */
  lemma {:induction false} ApplyIsGrow(env: Env, s: ChainState, chain: seq<Block>, size: nat, blocks: seq<Block>)
    requires chain != [] && Holds(s.db, chain) && s.bestHeight == |chain| - 1 && Continues(s.db, chain, blocks)
    ensures var r := ApplyBlocks(env, s, size, blocks, |chain|);
            && (r.Ok? && SpentByOneBlock(blocks) <==>
                Grow(s.db, chain, blocks).Ok? && Accepted(env, s, size, blocks, |chain|))
            && (r.Ok? && SpentByOneBlock(blocks) ==> Grow(s.db, chain, blocks) == Ok(r.value.view))
  {
    hide At, Accepted, SpentByOneBlock, SpendsApart, Continues, Holds, ConnectBlock, Extend, Grow;
    if blocks == [] {
      NothingGrows(env, s, chain, size);
    } else {
      var n := |blocks| - 1;
      var init := blocks[..n];
      ContinuesPrefix(s.db, chain, blocks, n);
      ApplyIsGrow(env, s, chain, size, init);
      SpentByOneBlockSnoc(blocks);
      AcceptedSnoc(env, s, size, blocks, |chain|);
      GrowStep(s.db, chain, blocks);
      var before := ApplyBlocks(env, s, size, init, |chain|);
      if before.Ok? && SpentByOneBlock(init) {
        ApplyHolds(env, s, chain, size, init);
        StepBoth(s.db, chain, blocks, n, before.value, s.bestHeight);
      }
    }
  }

  lemma NothingGrows(env: Env, s: ChainState, chain: seq<Block>, size: nat)
    requires chain != []
    ensures Grow(s.db, chain, []) == Ok(s.db) && Accepted(env, s, size, [], |chain|) && SpentByOneBlock([])
  {
  }

  lemma AcceptedSnoc(env: Env, s: ChainState, size: nat, blocks: seq<Block>, first: nat)
    requires blocks != []
    ensures var n := |blocks| - 1;
            Accepted(env, s, size, blocks, first) <==>
              && Accepted(env, s, size, blocks[..n], first)
              && CheckpointOk(env.checkpoints, first + n, blocks[n].hash)
              && env.accepts(LevelFor(IsInitialDownload(env, s), size, first + n), s.db, blocks[..n], blocks[n],
                             first + n)
  {
    var n := |blocks| - 1;
    assert forall i :: 0 <= i < n ==> blocks[..n][i] == blocks[i] && blocks[..n][..i] == blocks[..i];
  }

  // ---------- a chain no output of which is spent by two blocks ----------

  /** On the store a chain builds, committing one more block and stacking it do the same, unless it spends
      what the chain has already spent; then committing refuses it. */
  lemma StackIsExtend(all: seq<Block>, b: Block)
    requires all != [] && Build(all).Ok?
    ensures var st, tip, h := Build(all).value, all[|all| - 1].hash, |all|;
            && (Extend(st, tip, b, h).Ok? <==> Stack(st, tip, b, h).Ok? && SpendsApart(all, b))
            && (Extend(st, tip, b, h).Ok? ==> Extend(st, tip, b, h) == Stack(st, tip, b, h))
  {
    hide Build, ConnectBlock, LedgerOk, AddrIndexed, SpentInBlocks, Shaped, GetSupply;
    var st, tip, h := Build(all).value, all[|all| - 1].hash, |all|;
    BuiltIsShaped(all);
    BuiltMarks(all);
    if Follows(st, tip, b, h) {
      var below := map[h - 1 := GetSupply(st, h - 1)];
      NewBlockNewIds(st, b, h);
      LedgerIndexed(st);
      if SpendsApart(all, b) { ConnectSame(EMPTY_STORE, st, st, h - 1, h - 1, below, map[], b, h); }
      if ConnectBlock(st, st, h - 1, map[], b, h).Ok? { StackReaches(st, all, b, h); }
    }
  }

  lemma StackReaches(st: Store, all: seq<Block>, b: Block, h: nat)
    requires LedgerOk(st) && NewBlock(st, b, h) && h > 0 && MarksSpent(st.utxos.entries, all)
    requires ConnectBlock(st, st, h - 1, map[], b, h).Ok?
    ensures SpendsApart(all, b)
  {
    hide SpentInBlocks, ConnectBlock;
    ConnectSpendsUnspent(st, h - 1, map[], b, h);
  }

  /** The store a chain stands for is the one its blocks leave when they are committed one by one, exactly
      when no output is spent by two of them; otherwise committing one by one stops at the second spender. */
  lemma {:induction false} BuildIsSequential(g: Block, rest: seq<Block>)
    requires Build([g]).Ok?
    ensures var one := Grow(Build([g]).value, [g], rest);
            && (one.Ok? <==> Build([g] + rest).Ok? && SpentByOneBlock([g] + rest))
            && (one.Ok? ==> one == Build([g] + rest))
  {
    hide Build, Extend, Stack, SpentByOneBlock, SpendsApart;
    if rest == [] {
      assert [g] + rest == [g];
      assert SpentByOneBlock([g]) by { OneSpender(g); }
    } else {
      var n := |rest| - 1;
      var init, all := rest[..n], [g] + rest[..n];
      assert [g] + rest == all + [rest[n]] && ([g] + rest)[..n + 1] == all;
      BuildIsSequential(g, init);
      GrowStep(Build([g]).value, [g], rest);
      SpentByOneBlockSnoc([g] + rest);
      if Build(all).Ok? {
        StackIsExtend(all, rest[n]);
        BuildSnoc(all, rest[n]);
      }
      if Build([g] + rest).Ok? { BuiltPrefix([g] + rest, n + 1); }
    }
  }

  lemma OneSpender(b: Block)
    ensures SpentByOneBlock([b])
  {
  }
}
