/** The chain object and the write batch it fills: the methods of internal/blockchain, each proved to do
    what its function in ChainSpec says. */
module Blockchain {
  import opened Types
  import opened Storage
  import KeyOrder
  import opened Ledger
  import opened ChainSpec
  import opened Merkle

  // ---------- reading errors off prefixes ----------

  lemma {:induction false} SpendErrorStays(committed: Store, w: Work, inputs: seq<Outpoint>, n: nat, height: nat,
      txid: Hash)
    requires n <= |inputs| && SpendInputs(committed, w, inputs[..n], height, txid).Err?
    ensures SpendInputs(committed, w, inputs, height, txid) == SpendInputs(committed, w, inputs[..n], height, txid)
    decreases |inputs|
  {
    if n < |inputs| {
      assert inputs[..|inputs| - 1][..n] == inputs[..n];
      SpendErrorStays(committed, w, inputs[..|inputs| - 1], n, height, txid);
    } else {
      assert inputs[..n] == inputs;
    }
  }

  lemma {:induction false} ApplyErrorStays(committed: Store, w: Work, txs: seq<Tx>, n: nat, height: nat)
    requires n <= |txs| && ApplyTxs(committed, w, txs[..n], height).Err?
    ensures ApplyTxs(committed, w, txs, height) == ApplyTxs(committed, w, txs[..n], height)
    decreases |txs|
  {
    if n < |txs| {
      assert txs[..|txs| - 1][..n] == txs[..n];
      ApplyErrorStays(committed, w, txs[..|txs| - 1], n, height);
    } else {
      assert txs[..n] == txs;
    }
  }

  lemma {:induction false} BlocksErrorStays(env: Env, s: ChainState, size: nat, blocks: seq<Block>, n: nat, first: nat)
    requires n <= |blocks| && ApplyBlocks(env, s, size, blocks[..n], first).Err?
    ensures ApplyBlocks(env, s, size, blocks, first) == ApplyBlocks(env, s, size, blocks[..n], first)
    decreases |blocks|
  {
    if n < |blocks| {
      assert blocks[..|blocks| - 1][..n] == blocks[..n];
      BlocksErrorStays(env, s, size, blocks[..|blocks| - 1], n, first);
    } else {
      assert blocks[..n] == blocks;
    }
  }

  lemma BlocksSnoc(env: Env, s: ChainState, size: nat, blocks: seq<Block>, i: nat, first: nat)
    requires i < |blocks|
    ensures ApplyBlocks(env, s, size, blocks[..i + 1], first)
            == match ApplyBlocks(env, s, size, blocks[..i], first)
               case Ok(p) => ApplyNext(env, s, LevelFor(IsInitialDownload(env, s), size, first + i), p, blocks[..i],
                   blocks[i], first + i)
               case Err(e) => Err(e)
    ensures KnowAll(map[], blocks[..i + 1], first) == KnowAll(map[], blocks[..i], first)[blocks[i].hash := first + i]
  {
    hide ApplyNext, IsInitialDownload, LevelFor;
    Snoc(blocks, i);
  }

  lemma NoBlocks(env: Env, s: ChainState, size: nat, first: nat)
    ensures ApplyBlocks(env, s, size, [], first) == Ok(Pending(s.db, map[]))
    ensures KnowAll(map[], [], first) == map[]
  {
  }

  lemma {:induction false} UnspendErrorStays(us: UtxoSet, inputs: seq<Outpoint>, n: nat)
    requires n <= |inputs| && UnspendInputs(us, inputs[..n]).Err?
    ensures UnspendInputs(us, inputs) == UnspendInputs(us, inputs[..n])
    decreases |inputs|
  {
    if n < |inputs| {
      assert inputs[..|inputs| - 1][..n] == inputs[..n];
      UnspendErrorStays(us, inputs[..|inputs| - 1], n);
    } else {
      assert inputs[..n] == inputs;
    }
  }

  lemma DeleteApart(committed: Store, st: Store, us: UtxoSet, txid: Hash, height: nat)
    ensures DeleteTransaction(committed, st.(utxos := us), txid, height)
            == DeleteTransaction(committed, st, txid, height).(utxos := us)
  {
  }

  lemma Snoc<T>(s: seq<T>, i: nat)
    requires i < |s|
    ensures s[..i + 1][..i] == s[..i] && |s[..i + 1]| == i + 1 && s[..i + 1][i] == s[i]
  {
  }

  ghost function Restricted(m: map<Hash, nat>, keys: seq<Hash>): map<Hash, nat> {
    map h | h in keys && h in m :: m[h]
  }

  lemma RestrictedSnoc(before: map<Hash, nat>, m: map<Hash, nat>, keys: seq<Hash>, i: nat)
    requires i < |keys| && keys[i] in m
    ensures before + Restricted(m, keys[..i + 1]) == (before + Restricted(m, keys[..i]))[keys[i] := m[keys[i]]]
  {
    assert keys[..i + 1] == keys[..i] + [keys[i]];
  }

  lemma RestrictedAll(m: map<Hash, nat>, keys: seq<Hash>)
    requires forall h :: h in keys <==> h in m
    ensures Restricted(m, keys[..|keys|]) == m && Restricted(m, keys[..0]) == map[]
  {
    assert keys[..|keys|] == keys;
  }

  /** An indexed batch: it reads its own pending writes, and the committed store where the code says so. */
  class Batch {
    const committed: Store
    var view: Store

    constructor (st: Store)
      ensures committed == st && view == st
    {
      committed := st;
      view := st;
    }

    method StoreBlock(b: Block, height: nat)
      modifies this
      ensures view == Storage.StoreBlock(StoreBlockIndex(old(view), b.hash, height), b, height)
    {
      view := StoreBlockIndex(view, b.hash, height);
      var txs := view.txs;
      for i := 0 to |b.txs|
        invariant view == old(StoreBlockIndex(view, b.hash, height))
        invariant txs == StoreTxs(view.txs, b, height, i)
      {
        txs := txs[b.txs[i].id := TxRec(b.hash, height, i, b.txs[i])];
      }
      view := view.(blocks := view.blocks[b.hash := Compact(height, b.prev, b.merkleRoot, TxIds(b.txs))], txs := txs);
    }

    method MarkUtxoSpent(op: Outpoint, height: nat, txid: Hash) returns (r: Result<Utxo>)
      modifies this
      ensures match MarkSpent(committed, old(view.utxos), op, height, txid)
              case Ok(p) => r == Ok(p.1) && view == old(view).(utxos := p.0)
              case Err(e) => r == Err(e) && view == old(view)
    {
      match MarkSpent(committed, view.utxos, op, height, txid) {
        case Ok(p) =>
          view := view.(utxos := p.0);
          r := Ok(p.1);
        case Err(e) =>
          r := Err(e);
      }
    }

    method StoreUtxo(op: Outpoint, output: TxOut, height: nat, isCoinbase: bool)
      modifies this
      ensures view == old(view).(utxos := PutUtxo(old(view.utxos), op, output, height, isCoinbase))
    {
      view := view.(utxos := PutUtxo(view.utxos, op, output, height, isCoinbase));
    }

    method UnspendUtxo(op: Outpoint) returns (o: Outcome)
      modifies this
      ensures match Storage.UnspendUtxo(old(view.utxos), op)
              case Ok(us) => o == Done && view == old(view).(utxos := us)
              case Err(e) => o == Failed(e) && view == old(view)
    {
      match Storage.UnspendUtxo(view.utxos, op) {
        case Ok(us) =>
          view := view.(utxos := us);
          o := Done;
        case Err(e) =>
          o := Failed(e);
      }
    }

    method IndexTransactionByAddress(a: Address, txid: Hash, height: nat, i: nat, value: int, isInput: bool,
        blockHash: Hash)
      modifies this
      ensures view == old(view).(history := old(view.history)[HistKey(a, height, txid, HistIndex(i, isInput))
                                                                := HistEntry(isInput, value, blockHash)])
    {
      view := view.(history := view.history[HistKey(a, height, txid, HistIndex(i, isInput))
                                              := HistEntry(isInput, value, blockHash)]);
    }
  }

  class BlockChain {
    const env: Env
    var db: Store
    var bestBlock: Option<Block>
    var bestHash: Hash
    var bestHeight: nat
    var blockIndex: map<Hash, BlockNode>
    var knownBlocks: map<Hash, nat>
    var batchHeights: map<Hash, nat>
    var batchMoneySupply: map<nat, int>

    function State(): ChainState
      reads this
    {
      ChainState(db, bestBlock, bestHash, bestHeight, blockIndex, knownBlocks)
    }

    constructor (env: Env, db: Store)
      ensures this.env == env && State() == Unloaded(db)
      ensures batchHeights == map[] && batchMoneySupply == map[]
    {
      this.env := env;
      this.db := db;
      bestBlock, bestHash, bestHeight := None, ZERO_HASH, 0;
      blockIndex, knownBlocks := map[], map[];
      batchHeights, batchMoneySupply := map[], map[];
    }

    // ---------- lookups ----------

    method HasBlockCached(hash: Hash) returns (has: bool)
      ensures has <==> HasBlock(State(), hash)
    {
      if hash in knownBlocks { return true; }
      has := hash in db.blocks;
    }

    method HeightOf(hash: Hash) returns (height: Option<nat>)
      ensures height == GetBlockHeight(State(), batchHeights, hash)
      ensures hash in knownBlocks ==> height == Some(knownBlocks[hash])
      ensures hash !in knownBlocks && hash in batchHeights ==> height == Some(batchHeights[hash])
    {
      if hash in knownBlocks { return Some(knownBlocks[hash]); }
      if hash in batchHeights { return Some(batchHeights[hash]); }
      height := GetHeight(db, hash);
    }

    method HasBlockIndexed(hash: Hash) returns (has: bool)
      ensures has <==> Has(State(), hash)
    {
      if hash in blockIndex { return true; }
      has := hash in db.blocks;
    }

    // ---------- applying a block to the batch ----------

    /** Spends the inputs of one transaction, adding up what they were worth and remembering what they were. */
    method SpendTxInputs(tx: Tx, height: nat, batch: Batch, valueIn: int, spent: map<Outpoint, TxOut>,
        ghost valueOut: int)
      returns (o: Outcome, newValueIn: int, newSpent: map<Outpoint, TxOut>)
      modifies batch
      ensures match SpendInputs(batch.committed, Work(old(batch.view.utxos), valueIn, valueOut, spent),
            tx.Spends(), height, tx.id)
              case Ok(w) => o == Done && w == Work(batch.view.utxos, newValueIn, valueOut, newSpent)
              case Err(e) => o == Failed(e)
      ensures batch.view == old(batch.view).(utxos := batch.view.utxos)
    {
      o, newValueIn, newSpent := Done, valueIn, spent;
      if tx.IsCoinbase() { return; }
      ghost var w := Work(batch.view.utxos, valueIn, valueOut, spent);
      for i := 0 to |tx.inputs|
        invariant SpendInputs(batch.committed, w, tx.inputs[..i], height, tx.id)
                  == Ok(Work(batch.view.utxos, newValueIn, valueOut, newSpent))
        invariant batch.view == old(batch.view).(utxos := batch.view.utxos)
      {
        Snoc(tx.inputs, i);
        var r := batch.MarkUtxoSpent(tx.inputs[i], height, tx.id);
        if r.Err? {
          SpendErrorStays(batch.committed, w, tx.inputs, i + 1, height, tx.id);
          o := Failed(r.error);
          return;
        }
        newValueIn := newValueIn + r.value.value;
        newSpent := newSpent[tx.inputs[i] := r.value.Output()];
      }
      assert tx.inputs[..|tx.inputs|] == tx.inputs;
    }

    method CreateTxOutputs(tx: Tx, height: nat, batch: Batch, valueOut: int, ghost valueIn: int,
                           ghost spent: map<Outpoint, TxOut>)
      returns (newValueOut: int)
      modifies batch
      ensures CreateOutputs(Work(old(batch.view.utxos), valueIn, valueOut, spent), tx, height, |tx.outputs|)
              == Work(batch.view.utxos, valueIn, newValueOut, spent)
      ensures batch.view == old(batch.view).(utxos := batch.view.utxos)
    {
      newValueOut := valueOut;
      for i := 0 to |tx.outputs|
        invariant CreateOutputs(Work(old(batch.view.utxos), valueIn, valueOut, spent), tx, height, i)
                  == Work(batch.view.utxos, valueIn, newValueOut, spent)
        invariant batch.view == old(batch.view).(utxos := batch.view.utxos)
      {
        newValueOut := newValueOut + tx.outputs[i].value;
        batch.StoreUtxo(Outpoint(tx.id, i), tx.outputs[i], height, tx.IsCoinbase() || tx.IsCoinStake());
      }
    }

    /** Spends and creates the outputs of every transaction of a block. */
    method ApplyTransactions(b: Block, height: nat, batch: Batch)
      returns (o: Outcome, valueIn: int, valueOut: int, spent: map<Outpoint, TxOut>)
      modifies batch
      ensures match ApplyTxs(batch.committed, StartWork(old(batch.view.utxos)), b.txs, height)
              case Ok(w) => o == Done && w == Work(batch.view.utxos, valueIn, valueOut, spent)
              case Err(e) => o == Failed(e)
      ensures batch.view == old(batch.view).(utxos := batch.view.utxos)
    {
      hide SpendInputs, CreateOutputs;
      ghost var start := StartWork(batch.view.utxos);
      o, valueIn, valueOut, spent := Done, 0, 0, map[];
      for i := 0 to |b.txs|
        invariant ApplyTxs(batch.committed, start, b.txs[..i], height) ==
              Ok(Work(batch.view.utxos, valueIn, valueOut, spent))
        invariant batch.view == old(batch.view).(utxos := batch.view.utxos)
      {
        Snoc(b.txs, i);
        var newIn, newSpent;
        o, newIn, newSpent := SpendTxInputs(b.txs[i], height, batch, valueIn, spent, valueOut);
        if o.Failed? {
          ApplyErrorStays(batch.committed, start, b.txs, i + 1, height);
          return;
        }
        valueIn, spent := newIn, newSpent;
        valueOut := CreateTxOutputs(b.txs[i], height, batch, valueOut, valueIn, spent);
      }
      assert b.txs[..|b.txs|] == b.txs;
      o := Done;
    }

    /** Applies a block to an open batch and returns the outputs it spent. */
    method ApplyBlockToBatch(b: Block, height: nat, batch: Batch) returns (r: Result<map<Outpoint, TxOut>>)
      requires batch.committed == db
      modifies batch, `batchMoneySupply
      ensures match ApplyBlock(db, old(batch.view), bestHeight, old(batchMoneySupply), b, height)
              case Ok(a) => r == Ok(a.spent) && a == Applied(batch.view, batchMoneySupply, a.spent)
              case Err(e) => r == Err(e)
    {
      hide ApplyTxs, StoreTxs;
      batch.StoreBlock(b, height);
      var o, valueIn, valueOut, spent := ApplyTransactions(b, height, batch);
      if o.Failed? { return Err(o.error); }
      var prevSupply := 0;
      if height > 0 {
        if height - 1 in batchMoneySupply {
          prevSupply := batchMoneySupply[height - 1];
        } else {
          prevSupply := GetSupply(db, height - 1);
        }
      }
      var moneySupply := prevSupply + valueOut - valueIn;
      batchMoneySupply := batchMoneySupply[height := moneySupply];
      batch.view := batch.view.(supply := batch.view.supply[height := moneySupply]);
      if height > bestHeight {
        batch.view := batch.view.(tip := Some(Tip(height, b.hash)));
      }
      r := Ok(spent);
    }

    // ---------- address history ----------

    method GetSpentOutputsForTx(tx: Tx, captured: map<Outpoint, TxOut>) returns (spent: seq<TxOut>)
      ensures spent == SpentOutputs(db, tx.Spends(), captured)
    {
      spent := [];
      if tx.IsCoinbase() { return; }
      for i := 0 to |tx.inputs|
        invariant spent == SpentOutputs(db, tx.inputs[..i], captured)
      {
        Snoc(tx.inputs, i);
        var op := tx.inputs[i];
        if op in captured {
          spent := spent + [captured[op]];
          continue;
        }
        if op.txid !in db.txs || op.index >= |db.txs[op.txid].tx.outputs| { continue; }
        spent := spent + [db.txs[op.txid].tx.outputs[op.index]];
      }
      assert tx.inputs[..|tx.inputs|] == tx.inputs;
    }

    method IndexTransactionAddresses(tx: Tx, height: nat, batch: Batch, blockHash: Hash, captured: map<Outpoint, TxOut>)
      modifies batch
      ensures batch.view == old(batch.view).(history := IndexTx(db, old(batch.view.history), tx, height, blockHash,
            captured))
    {
      if !tx.IsCoinbase() {
        var spent := GetSpentOutputsForTx(tx, captured);
        for i := 0 to |spent|
          invariant batch.view == old(batch.view).(history := IndexInputs(old(batch.view.history), spent, tx.id,
                height, blockHash, i))
        {
          var a := AddressOf(spent[i].script);
          if a.None? { continue; }
          if i > IO_MASK { continue; }
          batch.IndexTransactionByAddress(a.value, tx.id, height, i, spent[i].value, true, blockHash);
        }
      }
      ghost var mid := batch.view.history;
      for i := 0 to |tx.outputs|
        invariant batch.view == old(batch.view).(history := IndexOutputs(mid, tx.outputs, tx.id, height, blockHash, i))
      {
        var a := AddressOf(tx.outputs[i].script);
        if a.None? { continue; }
        if i > IO_MASK { continue; }
        batch.IndexTransactionByAddress(a.value, tx.id, height, i, tx.outputs[i].value, false, blockHash);
      }
    }

    method IndexBlockTransactions(b: Block, height: nat, batch: Batch, captured: map<Outpoint, TxOut>)
      modifies batch
      ensures batch.view == IndexBlock(db, old(batch.view), b, height, captured)
    {
      for i := 0 to |b.txs|
        invariant batch.view == old(batch.view).(history := IndexTxs(db, old(batch.view.history), b.txs[..i],
              height, b.hash, captured))
      {
        Snoc(b.txs, i);
        IndexTransactionAddresses(b.txs[i], height, batch, b.hash, captured);
      }
      assert b.txs[..|b.txs|] == b.txs;
    }

    // ---------- processing a batch ----------

    method PreValidateBatch(blocks: seq<Block>) returns (ok: bool)
      requires blocks != []
      ensures ok <==> PreValid(env, State(), blocks)
      ensures ok <==>
                && (blocks[0].prev == 0 || blocks[0].prev in blockIndex || blocks[0].prev in db.blocks)
                && (forall i :: 0 < i < |blocks| ==> blocks[i].prev == blocks[i - 1].hash)
                && (forall i, j :: 0 <= i < j < |blocks| ==> blocks[i].hash != blocks[j].hash)
                && (forall b :: b in blocks ==> b.txs != [] && (b.txs[0].IsCoinbase() || b.txs[0].IsCoinStake())
                                                && Merkle.Root(env.pair, TxIds(b.txs)) == b.merkleRoot)
    {
      hide Root, TxIds, LevelUp;
      if blocks[0].prev != ZERO_HASH {
        var hasParent := HasBlockIndexed(blocks[0].prev);
        if !hasParent { return false; }
      }
      for i := 1 to |blocks|
        invariant Linked(blocks[..i])
      {
        if blocks[i].prev != blocks[i - 1].hash {
          assert !Linked(blocks);
          return false;
        }
      }
      assert blocks[..|blocks|] == blocks;
      var seen: map<Hash, nat> := map[];
      for i := 0 to |blocks|
        invariant DistinctHashes(blocks[..i])
        invariant forall x :: x in seen <==> exists j :: 0 <= j < i && blocks[j].hash == x
      {
        if blocks[i].hash in seen {
          assert !DistinctHashes(blocks);
          return false;
        }
        seen := seen[blocks[i].hash := i];
      }
      for i := 0 to |blocks|
        invariant forall j :: 0 <= j < i ==> WellFormed(env, blocks[j])
      {
        if blocks[i].txs == [] { return false; }
        if !blocks[i].txs[0].IsCoinbase() && !blocks[i].txs[0].IsCoinStake() { return false; }
        var root := BlockRoot(env.pair, blocks[i].txs);
        if root != blocks[i].merkleRoot { return false; }
      }
      ok := true;
    }

    method CalculateBlockHeight(b: Block) returns (height: Result<nat>)
      ensures height == FirstHeight(db, b)
    {
      if b.prev == ZERO_HASH { return Ok(0); }
      if b.prev !in db.hashToHeight { return Err(ParentNotFound); }
      height := Ok(db.hashToHeight[b.prev] + 1);
    }

    method UpdateBlockIndex(b: Block, height: nat)
      modifies `blockIndex, `knownBlocks
      ensures blockIndex == old(blockIndex)[b.hash := NodeFor(old(blockIndex), b, height)]
      ensures knownBlocks == old(knownBlocks)[b.hash := height]
    {
      var parent := None;
      if b.prev != ZERO_HASH && b.prev in blockIndex { parent := Some(blockIndex[b.prev]); }
      var work: int := height;
      if parent.Some? { work := parent.value.work + 1; }
      blockIndex := blockIndex[b.hash := BlockNode(b.hash, height, work, parent, Connected)];
      knownBlocks := knownBlocks[b.hash := height];
    }

    /** Counts how many blocks at the front are already stored. */
    method SkipKnown(blocks: seq<Block>) returns (skipped: nat)
      ensures skipped == KnownPrefix(State(), blocks)
    {
      skipped := 0;
      while skipped < |blocks|
        invariant skipped <= |blocks|
        invariant KnownPrefix(State(), blocks) == skipped + KnownPrefix(State(), blocks[skipped..])
      {
        var has := HasBlockIndexed(blocks[skipped].hash);
        if !has { return; }
        skipped := skipped + 1;
      }
    }

    /** The tests only a batch of one block has to pass. */
    method CheckSingleBlock(b: Block) returns (o: Outcome)
      ensures o == CheckSingle(State(), b)
    {
      if b.prev == ZERO_HASH { return Done; }
      var hasParent := HasBlockIndexed(b.prev);
      if !hasParent { return Failed(ParentNotFound); }
      if b.prev in db.hashToHeight && db.hashToHeight[b.prev] + 1 <= bestHeight { return Failed(HeightNotAdvancing); }
      o := Done;
    }

    /** Checks, applies and indexes one block of a batch of `size` blocks. */
    method AddToBatch(earlier: seq<Block>, b: Block, height: nat, size: nat, ibd: bool, batch: Batch) returns (o: Outcome)
      requires batch.committed == db && ibd == IsInitialDownload(env, State())
      modifies batch, `batchMoneySupply
      ensures match ApplyNext(env, State(), LevelFor(ibd, size, height),
                              Pending(old(batch.view), old(batchMoneySupply)), earlier, b, height)
              case Ok(p) => o == Done && p == Pending(batch.view, batchMoneySupply)
              case Err(e) => o == Failed(e)
    {
      if !CheckpointOk(env.checkpoints, height, b.hash) { return Failed(CheckpointFailed); }
      if !ibd && size == 1 {
        if !env.accepts(FullCheck, db, earlier, b, height) { return Failed(InvalidBlock); }
      } else if !ibd || (height > VALIDATION_HEIGHT_THRESHOLD && height % VALIDATION_FREQUENCY == 0) {
        if !env.accepts(BatchCheck, db, earlier, b, height) { return Failed(InvalidBlock); }
      } else {
        if !env.accepts(SimpleCheck, db, earlier, b, height) { return Failed(InvalidBlock); }
      }
      var r := ApplyBlockToBatch(b, height, batch);
      if r.Err? { return Failed(r.error); }
      IndexBlockTransactions(b, height, batch, r.value);
      o := Done;
    }

    /** Fills a batch with `blocks`, the first at the height its parent gives it. */
    method FillBatch(blocks: seq<Block>, batch: Batch) returns (o: Outcome)
      requires blocks != [] && batch.committed == db && batch.view == db
      modifies batch, `batchMoneySupply, `batchHeights
      ensures FirstHeight(db, blocks[0]).Err? ==> o == Failed(FirstHeight(db, blocks[0]).error)
      ensures FirstHeight(db, blocks[0]).Ok? ==>
                var first := FirstHeight(db, blocks[0]).value;
                match ApplyBlocks(env, State(), |blocks|, blocks, first)
                case Ok(p) => o == Done && p.view == batch.view && batchHeights == KnowAll(map[], blocks, first)
                case Err(e) => o == Failed(e)
    {
      hide ApplyBlocks, ApplyNext, KnowAll, LevelFor, IsInitialDownload, FirstHeight;
      batchHeights, batchMoneySupply := map[], map[];
      var ibd := IsInitialDownload(env, State());
      var height := 0;
      ghost var firstHeight := FirstHeight(db, blocks[0]);
      assert blocks[..0] == [];
      if firstHeight.Ok? { NoBlocks(env, State(), |blocks|, firstHeight.value); }
      for i := 0 to |blocks|
        invariant i == 0 ==> batch.view == db && batchMoneySupply == map[] && batchHeights == map[]
        invariant i > 0 ==> firstHeight.Ok? && height == firstHeight.value + i - 1
        invariant firstHeight.Ok? ==>
                    && ApplyBlocks(env, State(), |blocks|, blocks[..i], firstHeight.value) ==
                          Ok(Pending(batch.view, batchMoneySupply))
                    && batchHeights == KnowAll(map[], blocks[..i], firstHeight.value)
      {
        if i == 0 {
          var r := CalculateBlockHeight(blocks[0]);
          if r.Err? { return Failed(r.error); }
          height := r.value;
        } else {
          height := height + 1;
        }
        BlocksSnoc(env, State(), |blocks|, blocks, i, firstHeight.value);
        batchHeights := batchHeights[blocks[i].hash := height];
        o := AddToBatch(blocks[..i], blocks[i], height, |blocks|, ibd, batch);
        if o.Failed? {
          BlocksErrorStays(env, State(), |blocks|, blocks, i + 1, firstHeight.value);
          return;
        }
      }
      assert blocks[..|blocks|] == blocks;
      o := Done;
    }

    /** Moves the tip if the last block is higher, and indexes every block of a committed batch. */
    method AfterCommit(blocks: seq<Block>, ghost first: nat)
      requires blocks != [] && DistinctHashes(blocks) && batchHeights == KnowAll(map[], blocks, first)
      modifies `bestBlock, `bestHash, `bestHeight, `blockIndex, `knownBlocks
      ensures State() == Commit(old(State()), blocks, first, db)
    {
      KnowAllHeights(blocks, first);
      var last := blocks[|blocks| - 1];
      var lastHeight := batchHeights[last.hash];
      if lastHeight > bestHeight {
        bestBlock, bestHash, bestHeight := Some(last), last.hash, lastHeight;
      }
      ghost var moved := State();
      for i := 0 to |blocks|
        invariant State() == moved.(blockIndex := IndexAll(old(blockIndex), blocks[..i], first),
                                    knownBlocks := KnowAll(old(knownBlocks), blocks[..i], first))
      {
        Snoc(blocks, i);
        UpdateBlockIndex(blocks[i], batchHeights[blocks[i].hash]);
      }
      assert blocks[..|blocks|] == blocks;
    }

    /** One atomic batch.  A single block that is already stored was dropped with the known prefix, so
        the branch that would consider it for a reorganization is never taken. */
    method ProcessBatchInternal(all: seq<Block>) returns (o: Outcome)
      modifies this
      ensures (o, State()) == ProcessBatch(env, old(State()), all)
    {
      hide KnownPrefix, ApplyBlocks, IndexAll, KnowAll, CheckSingle, FirstHeight, WellFormed;
      if all == [] { return Done; }
      var skipped := SkipKnown(all);
      if skipped == |all| { return Failed(AllBlocksExist); }
      var blocks := all[skipped..];
      if |blocks| == 1 {
        var has := HasBlockIndexed(blocks[0].hash);
        assert !has;
        o := CheckSingleBlock(blocks[0]);
        if o.Failed? { return; }
      }
      var ok := PreValidateBatch(blocks);
      if !ok { return Failed(BatchRejected); }
      var batch := new Batch(db);
      o := FillBatch(blocks, batch);
      if o == Done {
        db := batch.view;
        AfterCommit(blocks, FirstHeight(old(db), blocks[0]).value);
      }
      batchHeights, batchMoneySupply := map[], map[];
    }

    /** Cuts a long list into chunks of at most 500 blocks; the first failing chunk stops the rest. */
    method ProcessBatchUnified(blocks: seq<Block>) returns (o: Outcome)
      modifies this
      ensures (o, State()) == Process(env, old(State()), blocks)
    {
      if blocks == [] { return Done; }
      hide ProcessBatch, ProcessChunks;
      assert blocks[0..] == blocks;
      if |blocks| > MAX_BATCH {
        var i := 0;
        while i < |blocks|
          invariant 0 <= i
          invariant i < |blocks| ==> Process(env, old(State()), blocks) ==
                                       ProcessChunks(env, State(), blocks[i..], MAX_BATCH)
          invariant i >= |blocks| ==> Process(env, old(State()), blocks) == (Done, State())
        {
          var end := i + MAX_BATCH;
          if end > |blocks| { end := |blocks|; }
          ChunkFrom(env, State(), blocks, MAX_BATCH, i, end);
          o := ProcessBatchInternal(blocks[i..end]);
          if o.Failed? { return; }
          i := i + MAX_BATCH;
        }
        return Done;
      }
      ChunkFrom(env, State(), blocks, MAX_BATCH, 0, |blocks|);
      o := ProcessBatchInternal(blocks);
    }

    // ---------- disconnecting ----------

    /** Takes back one transaction: its outputs, the marks on its inputs, and its index entries. */
    method UndoTransaction(tx: Tx, height: nat, batch: Batch) returns (o: Outcome)
      modifies batch
      ensures match UndoTx(old(batch.view.utxos), tx)
              case Ok(us) => o == Done
                && batch.view == DeleteTransaction(batch.committed, old(batch.view), tx.id, height).(utxos := us)
              case Err(e) => o == Failed(e)
    {
      ghost var us0 := batch.view.utxos;
      for i := 0 to |tx.outputs|
        invariant batch.view == old(batch.view).(utxos := RemoveOutputs(us0, tx, i))
      {
        batch.view := batch.view.(utxos := DeleteUtxo(batch.view.utxos, Outpoint(tx.id, i), tx.outputs[i]));
      }
      if !tx.IsCoinbase() {
        ghost var us1 := batch.view.utxos;
        for i := 0 to |tx.inputs|
          invariant UnspendInputs(us1, tx.inputs[..i]) == Ok(batch.view.utxos)
          invariant batch.view == old(batch.view).(utxos := batch.view.utxos)
        {
          Snoc(tx.inputs, i);
          o := batch.UnspendUtxo(tx.inputs[i]);
          if o.Failed? {
            UnspendErrorStays(us1, tx.inputs, i + 1);
            return;
          }
        }
        assert tx.inputs[..|tx.inputs|] == tx.inputs;
      }
      batch.view := DeleteTransaction(batch.committed, batch.view, tx.id, height);
      o := Done;
    }

    /** Takes back the transactions of a block, from the last to the first. */
    method UndoTransactions(b: Block, height: nat, batch: Batch) returns (o: Outcome)
      requires batch.view == batch.committed
      modifies batch
      ensures match UndoTxs(batch.committed.utxos, b.txs)
              case Ok(us) => o == Done
                && batch.view == DeleteTransactions(batch.committed, batch.committed, b.txs, height).(utxos := us)
              case Err(e) => o == Failed(e)
    {
      hide UndoTx, DeleteTransaction;
      ghost var db := batch.committed;
      ghost var cleared := db;
      var i := |b.txs|;
      assert b.txs[..i] == b.txs;
      while i > 0
        invariant 0 <= i <= |b.txs|
        invariant UndoTxs(db.utxos, b.txs) == UndoTxs(batch.view.utxos, b.txs[..i])
        invariant DeleteTransactions(db, db, b.txs, height) == DeleteTransactions(db, cleared, b.txs[..i], height)
        invariant batch.view == cleared.(utxos := batch.view.utxos)
      {
        i := i - 1;
        Snoc(b.txs, i);
        DeleteApart(db, cleared, batch.view.utxos, b.txs[i].id, height);
        o := UndoTransaction(b.txs[i], height, batch);
        if o.Failed? { return; }
        cleared := DeleteTransaction(db, cleared, b.txs[i].id, height);
      }
      o := Done;
    }

    /** Disconnects one block: one atomic commit, then the mirror. */
    method DisconnectBlock(b: Block) returns (o: Outcome)
      modifies this
      ensures (o, State()) == Disconnect(old(State()), b)
    {
      hide UndoTxs, DeleteTransactions;
      if b.hash !in db.hashToHeight { return Failed(BlockNotFound); }
      var height := db.hashToHeight[b.hash];
      var batch := new Batch(db);
      o := UndoTransactions(b, height, batch);
      if o.Failed? { return; }
      batch.view := DeleteBlockDisconnect(batch.view, b.hash, height).(tip := Some(Tip(Pred32(height), b.prev)));
      db := batch.view;
      var parent := GetBlock(db, b.prev);
      if parent.None? { return Failed(BlockNotFound); }
      bestBlock, bestHeight, bestHash := parent, Pred32(height), b.prev;
      blockIndex := blockIndex - {b.hash};
      knownBlocks := knownBlocks - {b.hash};
      o := Done;
    }

    /** Removes the known blocks above a height. */
    method CleanKnownBlocksAboveHeight(height: nat)
      modifies `knownBlocks
      ensures knownBlocks == ForgetAbove(old(knownBlocks), height)
    {
      var todo := knownBlocks.Keys;
      while todo != {}
        invariant todo <= old(knownBlocks).Keys
        invariant forall h :: h in knownBlocks <==> h in old(knownBlocks) && (h in todo || old(knownBlocks)[h] <= height)
        invariant forall h :: h in knownBlocks ==> knownBlocks[h] == old(knownBlocks)[h]
        decreases |todo|
      {
        var h := KeyOrder.Min(todo);
        if knownBlocks[h] > height { knownBlocks := knownBlocks - {h}; }
        todo := todo - {h};
      }
    }

    // ---------- starting ----------

    /** Fills the known-block cache from the hash index, in key order. */
    method FillKnownBlocks()
      modifies `knownBlocks
      ensures knownBlocks == old(knownBlocks) + db.hashToHeight
    {
      hide Restricted;
      var keys := KeyOrder.SortedKeys(db.hashToHeight.Keys);
      RestrictedAll(db.hashToHeight, keys);
      for i := 0 to |keys|
        invariant knownBlocks == old(knownBlocks) + Restricted(db.hashToHeight, keys[..i])
      {
        RestrictedSnoc(old(knownBlocks), db.hashToHeight, keys, i);
        knownBlocks := knownBlocks[keys[i] := db.hashToHeight[keys[i]]];
      }
    }

    /** Indexes the tip and fills the known-block cache. */
    method BuildIndex()
      modifies `blockIndex, `knownBlocks
      ensures State() == BuildBlockIndex(old(State()))
    {
      if bestBlock.Some? {
        blockIndex := blockIndex[bestHash := BlockNode(bestHash, bestHeight, bestHeight, None, Connected)];
      }
      FillKnownBlocks();
    }

    method ConnectGenesis(genesis: Block) returns (o: Outcome)
      modifies this
      ensures (o, State()) == InitializeGenesis(env, old(State()), genesis)
    {
      o := ProcessBatchUnified([genesis]);
      if o.Failed? { return; }
      if 0 !in db.heightToHash { db := StoreBlockIndex(db, genesis.hash, 0); }
    }

    method Load(genesis: Block) returns (o: Outcome)
      modifies this
      ensures (o, State()) == LoadChainState(env, old(State()), genesis)
    {
      if env.genesisHash !in db.blocks {
        o := ConnectGenesis(genesis);
        return;
      }
      var tipHash := ChainTip(db);
      if tipHash == ZERO_HASH {
        bestBlock, bestHash, bestHeight := GetBlock(db, env.genesisHash), env.genesisHash, 0;
        return Done;
      }
      var best := GetBlock(db, tipHash);
      var height := ChainHeight(db);
      if best.None? {
        if height == 0 && tipHash != env.genesisHash {
          o := ConnectGenesis(genesis);
          return;
        }
        bestBlock, bestHash, bestHeight := None, tipHash, height;
        return Done;
      }
      bestBlock, bestHash, bestHeight := best, tipHash, height;
      BuildIndex();
      o := Done;
    }

    // ---------- validating a segment ----------

    method ValidateChainSegment(from: nat, to: nat) returns (o: Outcome)
      ensures o == ValidateSegment(env, db, from, to)
    {
      if to <= from { return Failed(InvalidRange); }
      if to !in db.heightToHash { return Failed(HeightNotFound); }
      var hash: Hash, height: nat := db.heightToHash[to], to;
      while height > from
        invariant WalkSegment(env, db, db.heightToHash[to], to, from) == WalkSegment(env, db, hash, height, from)
      {
        var block := GetBlock(db, hash);
        if block.None? { return Failed(BlockNotFound); }
        if height in env.checkpoints.expected {
          if !CheckpointOk(env.checkpoints, height, hash) { return Failed(CheckpointMismatch); }
        }
        hash, height := block.value.prev, height - 1;
      }
      o := Done;
    }
  }
}
