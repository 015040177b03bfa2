/** The store a chain of blocks builds, and what it always looks like. */
module Chain {
  import opened Types
  import opened Storage
  import opened Ledger
  import opened BlockFacts
  import opened Inverse

  /** A first block that can start a chain: no parent, and nothing to spend. */
  ghost predicate GenesisOk(g: Block) {
    && g.hash != ZERO_HASH
    && g.prev == ZERO_HASH
    && SpendsAllowed(g.txs, 0)
    && DistinctIds(g.txs)
  }

  ghost function Start(g: Block): Result<Store> {
    if !GenesisOk(g) then Err(InvalidBlock)
    else
      var a :- ConnectBlock(EMPTY_STORE, EMPTY_STORE, 0, map[], g, 0);
      Ok(a.view)
  }

  /** A new block on top of the tip. */
  ghost predicate Follows(st: Store, tip: Hash, b: Block, height: nat) {
    b.hash != ZERO_HASH && b.prev == tip && NewBlock(st, b, height)
  }

  /** One more block at `height`, which must follow the tip, judged against the store it is added to. */
  ghost function Extend(st: Store, tip: Hash, b: Block, height: nat): Result<Store>
    requires height > 0
  {
    if !Follows(st, tip, b, height) then Err(InvalidBlock)
    else
      var a :- ConnectBlock(st, st, height - 1, map[], b, height);
      Ok(a.view)
  }

  /** The store after connecting and committing the blocks one by one, each on the previous one, all of
      them new, on a store that holds `chain`.  Batches of blocks are compared with this. */
  ghost function Grow(st: Store, chain: seq<Block>, blocks: seq<Block>): Result<Store>
    requires chain != []
    decreases |blocks|
  {
    if blocks == [] then Ok(st)
    else
      var n := |blocks| - 1;
      var before :- Grow(st, chain, blocks[..n]);
      Extend(before, (chain + blocks)[|chain| + n - 1].hash, blocks[n], |chain| + n)
  }

  /** One more block at `height`, with nothing committed underneath: whatever exists can be spent, and
      the last spender's mark is the one that stays. */
  ghost function Stack(st: Store, tip: Hash, b: Block, height: nat): Result<Store>
    requires height > 0
  {
    if !Follows(st, tip, b, height) then Err(InvalidBlock)
    else
      var a :- ConnectBlock(EMPTY_STORE, st, height - 1, map[height - 1 := GetSupply(st, height - 1)], b, height);
      Ok(a.view)
  }

  /** The store a chain stands for: its blocks stacked on the genesis block, every spend marked by the
      last block that makes it.  This is the reference every state of the chain is compared with. */
  ghost function Build(chain: seq<Block>): Result<Store> {
    if chain == [] then Err(BlockNotFound)
    else if |chain| == 1 then Start(chain[0])
    else
      var n := |chain| - 1;
      var st :- Build(chain[..n]);
      Stack(st, chain[n - 1].hash, chain[n], n)
  }

  lemma BuildSnoc(chain: seq<Block>, b: Block)
    requires Build(chain).Ok? && chain != []
    ensures Build(chain + [b]) == Stack(Build(chain).value, chain[|chain| - 1].hash, b, |chain|)
  {
    assert (chain + [b])[..|chain|] == chain;
  }

  // ---------- the shape of a built store ----------

  ghost predicate Placed(st: Store, b: Block, i: nat) {
    && i in st.heightToHash && st.heightToHash[i] == b.hash
    && b.hash in st.hashToHeight && st.hashToHeight[b.hash] == i
    && b.hash in st.blocks && st.blocks[b.hash] == Compact(i, b.prev, b.merkleRoot, TxIds(b.txs))
    && (forall j :: 0 <= j < |b.txs| ==>
          b.txs[j].id in st.txs && st.txs[b.txs[j].id] == TxRec(b.hash, i, j, b.txs[j]))
  }

  /** Heights run from 0 to the tip without gaps, both indexes agree, every block is readable and its
      parent is the block one height below. */
  ghost predicate Shaped(st: Store, chain: seq<Block>) {
    && (forall i :: 0 <= i < |chain| ==> Placed(st, chain[i], i) && chain[i].hash != ZERO_HASH)
    && (forall i :: 1 <= i < |chain| ==> chain[i].prev == chain[i - 1].hash)
    && (forall h: nat :: h in st.heightToHash <==> h < |chain|)
    && (forall x :: x in st.hashToHeight ==> st.hashToHeight[x] < |chain| && chain[st.hashToHeight[x]].hash == x)
    && st.blocks.Keys == st.hashToHeight.Keys
  }

  lemma EmptyIsSound(g: Block)
    requires GenesisOk(g)
    ensures LedgerOk(EMPTY_STORE) && NewBlock(EMPTY_STORE, g, 0)
  {
  }

  lemma ShapedFirst(st: Store, g: Block)
    requires GenesisOk(g) && Extended(EMPTY_STORE, st, g, 0)
    ensures Shaped(st, [g])
  {
    hide StoreTxs, TxIds;
    EmptyIsSound(g);
    ExtendedTxs(EMPTY_STORE, st, g, 0);
    assert Placed(st, g, 0);
  }

  lemma GenesisConnected(g: Block)
    requires GenesisOk(g) && ConnectBlock(EMPTY_STORE, EMPTY_STORE, 0, map[], g, 0).Ok?
    ensures var st := ConnectBlock(EMPTY_STORE, EMPTY_STORE, 0, map[], g, 0).value.view;
            LedgerOk(st) && Shaped(st, [g]) && 0 in st.supply
  {
    hide ApplyTxs, IndexTxs, LedgerOk, NewBlock, Shaped, StoreTxs, TxIds, BlockApplied, CapturedAll;
    EmptyIsSound(g);
    ConnectKeepsLedger(EMPTY_STORE, EMPTY_STORE, 0, map[], g, 0);
    ConnectExactly(EMPTY_STORE, EMPTY_STORE, 0, map[], g, 0);
    ShapedFirst(ConnectBlock(EMPTY_STORE, EMPTY_STORE, 0, map[], g, 0).value.view, g);
  }

  lemma PlacedStays(st: Store, c: Store, b: Block, height: nat, earlier: Block, i: nat)
    requires NewBlock(st, b, height) && Extended(st, c, b, height) && Placed(st, earlier, i)
    ensures Placed(c, earlier, i)
  {
    ExtendedTxs(st, c, b, height);
  }

  lemma PlacedNow(st: Store, c: Store, b: Block, height: nat)
    requires NewBlock(st, b, height) && Extended(st, c, b, height)
    ensures Placed(c, b, height)
  {
    ExtendedTxs(st, c, b, height);
  }

  lemma ShapedSnoc(st: Store, c: Store, chain: seq<Block>, b: Block)
    requires chain != [] && Shaped(st, chain) && NewBlock(st, b, |chain|) && Extended(st, c, b, |chain|)
    requires b.hash != ZERO_HASH && b.prev == chain[|chain| - 1].hash
    ensures Shaped(c, chain + [b])
  {
    hide Placed, StoreTxs;
    var n := |chain|;
    var longer := chain + [b];
    forall i | 0 <= i < |longer| ensures Placed(c, longer[i], i) && longer[i].hash != ZERO_HASH {
      if i < n { PlacedStays(st, c, b, n, chain[i], i); } else { PlacedNow(st, c, b, n); }
    }
  }

  /** One more block keeps the ledger invariant and the shape, whatever is committed underneath. */
  lemma ConnectKeepsShape(committed: Store, st: Store, best: nat, cache: map<nat, int>, chain: seq<Block>, b: Block)
    requires chain != [] && LedgerOk(st) && Shaped(st, chain)
    requires Follows(st, chain[|chain| - 1].hash, b, |chain|)
    requires ConnectBlock(committed, st, best, cache, b, |chain|).Ok?
    ensures var c := ConnectBlock(committed, st, best, cache, b, |chain|).value.view;
            LedgerOk(c) && Shaped(c, chain + [b])
  {
    hide ConnectBlock, LedgerOk, Shaped, NewBlock, BlockApplied, CapturedAll;
    var n := |chain|;
    ConnectKeepsLedger(committed, st, best, cache, b, n);
    ConnectExactly(committed, st, best, cache, b, n);
    ShapedSnoc(st, ConnectBlock(committed, st, best, cache, b, n).value.view, chain, b);
  }

  lemma {:induction false} BuiltIsShaped(chain: seq<Block>)
    requires Build(chain).Ok?
    ensures chain != [] && LedgerOk(Build(chain).value) && Shaped(Build(chain).value, chain)
  {
    hide ConnectBlock, LedgerOk, Shaped, NewBlock;
    var n := |chain| - 1;
    if n == 0 {
      assert chain == [chain[0]];
      GenesisConnected(chain[0]);
    } else {
      var init := chain[..n];
      BuiltIsShaped(init);
      assert chain == init + [chain[n]];
      var st := Build(init).value;
      ConnectKeepsShape(EMPTY_STORE, st, n - 1, map[n - 1 := GetSupply(st, n - 1)], init, chain[n]);
    }
  }

  /** Any prefix of a chain that builds, builds. */
  lemma {:induction false} BuiltPrefix(chain: seq<Block>, n: nat)
    requires Build(chain).Ok? && 0 < n <= |chain|
    ensures Build(chain[..n]).Ok?
    decreases |chain|
  {
    if n < |chain| {
      assert chain[..|chain| - 1][..n] == chain[..n];
      BuiltPrefix(chain[..|chain| - 1], n);
    } else {
      assert chain[..n] == chain;
    }
  }

  /** Every block of the chain can be read back as it was. */
  lemma ReadBack(st: Store, b: Block, i: nat)
    requires Placed(st, b, i)
    ensures GetBlock(st, b.hash) == Some(b) && GetBlockAt(st, i) == Some(b)
  {
    var ids := TxIds(b.txs);
    forall id | id in ids ensures id in st.txs {
      var j :| 0 <= j < |ids| && ids[j] == id;
      assert b.txs[j].id in st.txs;
    }
    assert ReadTxs(st, ids) == b.txs;
  }

  // ---------- which outputs a chain has spent ----------

  predicate SpentInBlocks(blocks: seq<Block>, op: Outpoint) {
    exists i :: 0 <= i < |blocks| && SpentIn(blocks[i].txs, op)
  }

  lemma SpentInBlocksSnoc(done: seq<Block>, b: Block, op: Outpoint)
    ensures SpentInBlocks(done + [b], op) <==> SpentInBlocks(done, op) || SpentIn(b.txs, op)
  {
    if SpentInBlocks(done, op) {
      var i :| 0 <= i < |done| && SpentIn(done[i].txs, op);
      assert SpentIn((done + [b])[i].txs, op);
    }
    assert (done + [b])[|done|] == b;
  }

  lemma SpentInBlocksJoin(a: seq<Block>, b: seq<Block>, op: Outpoint)
    ensures SpentInBlocks(a + b, op) <==> SpentInBlocks(a, op) || SpentInBlocks(b, op)
  {
    if SpentInBlocks(a, op) {
      var i :| 0 <= i < |a| && SpentIn(a[i].txs, op);
      assert SpentIn((a + b)[i].txs, op);
    }
    if SpentInBlocks(b, op) {
      var i :| 0 <= i < |b| && SpentIn(b[i].txs, op);
      assert (a + b)[|a| + i] == b[i];
    }
  }

  /** Exactly the outputs the chain has spent exist and are marked spent. */
  ghost predicate MarksSpent(entries: map<Outpoint, Utxo>, chain: seq<Block>) {
    forall op :: SpentInBlocks(chain, op) <==> op in entries && entries[op].IsSpent()
  }

  lemma MarksSpentSnoc(before: map<Outpoint, Utxo>, after: map<Outpoint, Utxo>, chain: seq<Block>, b: Block, h: nat)
    requires BlockApplied(before, after, b.txs, h) && h > 0 && MarksSpent(before, chain)
    ensures MarksSpent(after, chain + [b])
  {
    hide SpentInBlocks;
    forall op ensures SpentInBlocks(chain + [b], op) <==> op in after && after[op].IsSpent() {
      SpentInBlocksSnoc(chain, b, op);
      if op !in before && CreatedIn(b.txs, op) { CreatedUtxoMatches(b.txs, h, op); }
    }
  }

  lemma GenesisMarks(g: Block)
    requires GenesisOk(g) && ConnectBlock(EMPTY_STORE, EMPTY_STORE, 0, map[], g, 0).Ok?
    ensures MarksSpent(ConnectBlock(EMPTY_STORE, EMPTY_STORE, 0, map[], g, 0).value.view.utxos.entries, [g])
  {
    hide ConnectBlock;
    EmptyIsSound(g);
    ConnectExactly(EMPTY_STORE, EMPTY_STORE, 0, map[], g, 0);
    var after := ConnectBlock(EMPTY_STORE, EMPTY_STORE, 0, map[], g, 0).value.view.utxos.entries;
    forall op ensures !SpentInBlocks([g], op) && (op in after ==> !after[op].IsSpent()) {
      NothingSpent(g.txs, op);
      if op in after { CreatedUtxoMatches(g.txs, 0, op); }
    }
  }

  lemma {:induction false} BuiltMarks(chain: seq<Block>)
    requires Build(chain).Ok?
    ensures MarksSpent(Build(chain).value.utxos.entries, chain)
  {
    hide ConnectBlock, LedgerOk, Shaped, NewBlock, MarksSpent, BlockApplied;
    var n := |chain| - 1;
    if n == 0 {
      assert chain == [chain[0]];
      GenesisMarks(chain[0]);
    } else {
      var init := chain[..n];
      BuiltMarks(init);
      BuiltIsShaped(init);
      assert chain == init + [chain[n]];
      var st := Build(init).value;
      ConnectExactly(EMPTY_STORE, st, n - 1, map[n - 1 := GetSupply(st, n - 1)], chain[n], n);
      MarksSpentSnoc(st.utxos.entries, Build(chain).value.utxos.entries, init, chain[n], n);
    }
  }

  // ---------- supplies ----------

  /** The supply recorded when block `h` of the chain was connected. */
  ghost function SupplyAt(chain: seq<Block>, h: nat): int
    requires h < |chain|
  {
    match Build(chain[..h + 1])
    case Ok(st) => GetSupply(st, h)
    case Err(_) => 0
  }

  /** A later block leaves the recorded supplies below it alone. */
  lemma {:induction false} BuiltSupplies(chain: seq<Block>, h: nat)
    requires Build(chain).Ok? && h < |chain|
    ensures h in Build(chain).value.supply && Build(chain).value.supply[h] == SupplyAt(chain, h)
    decreases |chain|
  {
    var n := |chain| - 1;
    assert chain[..n + 1] == chain;
    if h < n {
      BuiltSupplies(chain[..n], h);
      assert chain[..n][..h + 1] == chain[..h + 1];
    }
  }
}
