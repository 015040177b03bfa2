/** Address history and unspent outputs tell the same balance. */
module AddressBalance {
  import opened Types
  import opened Storage
  import opened Ledger
  import opened MapSums
  import opened BlockFacts
  import opened HistoryFacts
  import opened Inverse
  import opened Conservation

  function EntryAmount(a: Address): (HistKey, HistEntry) -> int {
    (k: HistKey, e: HistEntry) => if k.address != a then 0 else if e.isInput then -e.value else e.value
  }

  /** An address's received total minus its sent total, summed from its history. */
  ghost function HistoryBalance(history: map<HistKey, HistEntry>, a: Address): int {
    Sum(history, EntryAmount(a))
  }

  /** The value of an address's unspent outputs. */
  ghost function UnspentBalance(us: UtxoSet, a: Address): int {
    Total(us.entries, PaidTo(a))
  }

  /** Every input and output position fits the 15 bits a history key has for it. */
  predicate InKeyRange(txs: seq<Tx>) {
    forall i :: 0 <= i < |txs| ==> |txs[i].inputs| <= IO_MASK + 1 && |txs[i].outputs| <= IO_MASK + 1
  }

  ghost predicate NoKeysFor(history: map<HistKey, HistEntry>, txid: Hash) {
    forall k :: k in history ==> k.txid != txid
  }

  lemma {:induction false} InputsSubtract(history: map<HistKey, HistEntry>, spent: seq<TxOut>, txid: Hash, height: nat,
                                          blockHash: Hash, n: nat, a: Address)
    requires n <= |spent| <= IO_MASK + 1 && NoKeysFor(history, txid)
    ensures HistoryBalance(IndexInputs(history, spent, txid, height, blockHash, n), a)
            == HistoryBalance(history, a) - OutSum(PaidTo(a), spent, n)
  {
    if n > 0 {
      InputsSubtract(history, spent, txid, height, blockHash, n - 1, a);
      IndexInputsExactly(history, spent, txid, height, blockHash, n - 1);
      var before := IndexInputs(history, spent, txid, height, blockHash, n - 1);
      var o := AddressOf(spent[n - 1].script);
      if o.Some? {
        var k := InputKey(o.value, height, txid, n - 1);
        assert k !in before;
        SumPut(before, k, HistEntry(true, spent[n - 1].value, blockHash), EntryAmount(a));
      }
    }
  }

  lemma {:induction false} OutputsAdd(history: map<HistKey, HistEntry>, outs: seq<TxOut>, txid: Hash, height: nat,
                                      blockHash: Hash, n: nat, a: Address)
    requires n <= |outs| <= IO_MASK + 1
    requires forall k :: k in history && k.txid == txid ==> k.index >= INPUT_BIT
    ensures HistoryBalance(IndexOutputs(history, outs, txid, height, blockHash, n), a)
            == HistoryBalance(history, a) + OutSum(PaidTo(a), outs, n)
  {
    if n > 0 {
      OutputsAdd(history, outs, txid, height, blockHash, n - 1, a);
      IndexOutputsExactly(history, outs, txid, height, blockHash, n - 1);
      var before := IndexOutputs(history, outs, txid, height, blockHash, n - 1);
      var o := AddressOf(outs[n - 1].script);
      if o.Some? {
        var k := OutputKey(o.value, height, txid, n - 1);
        assert k !in before;
        SumPut(before, k, HistEntry(false, outs[n - 1].value, blockHash), EntryAmount(a));
      }
    }
  }

  lemma {:induction false} SpentListSum(g: Weight, entries: map<Outpoint, Utxo>, inputs: seq<Outpoint>, spent: seq<TxOut>)
    requires |spent| == |inputs|
    requires forall i :: 0 <= i < |inputs| ==> spent[i] == OutAt(entries, inputs[i])
    ensures OutSum(g, spent, |spent|) == InSum(g, entries, inputs)
  {
    if inputs != [] {
      var n := |inputs| - 1;
      SpentListSum(g, entries, inputs[..n], spent[..n]);
      OutSumPrefix(g, spent, n, n);
    }
  }

  lemma {:induction false} OutSumPrefix(g: Weight, outs: seq<TxOut>, n: nat, m: nat)
    requires n <= m <= |outs|
    ensures OutSum(g, outs[..m], n) == OutSum(g, outs, n)
  {
    if n > 0 { OutSumPrefix(g, outs, n - 1, m); }
  }

  /** Indexing one transaction moves an address's history balance by what the transaction pays it
      minus what it spends from it. */
  lemma TxMovesHistory(committed: Store, history: map<HistKey, HistEntry>, tx: Tx, height: nat, blockHash: Hash,
                       captured: map<Outpoint, TxOut>, entries: map<Outpoint, Utxo>, a: Address)
    requires |tx.inputs| <= IO_MASK + 1 && |tx.outputs| <= IO_MASK + 1
    requires NoKeysFor(history, tx.id)
    requires forall op :: op in tx.Spends() ==> op in captured && captured[op] == OutAt(entries, op)
    ensures HistoryBalance(IndexTx(committed, history, tx, height, blockHash, captured), a)
            == HistoryBalance(history, a) - InSum(PaidTo(a), entries, tx.Spends())
               + OutSum(PaidTo(a), tx.outputs, |tx.outputs|)
  {
    var inputs := tx.Spends();
    CapturedOutputsInOrder(committed, inputs, captured);
    var spent := SpentOutputs(committed, inputs, captured);
    forall i | 0 <= i < |inputs| ensures spent[i] == OutAt(entries, inputs[i]) {
      assert inputs[i] in inputs;
    }
    InputsSubtract(history, spent, tx.id, height, blockHash, |spent|, a);
    SpentListSum(PaidTo(a), entries, inputs, spent);
    IndexInputsExactly(history, spent, tx.id, height, blockHash, |spent|);
    var mid := IndexInputs(history, spent, tx.id, height, blockHash, |spent|);
    OutputsAdd(mid, tx.outputs, tx.id, height, blockHash, |tx.outputs|, a);
  }

  /** Only keys of the indexed transactions are added. */
  lemma {:induction false} KeysStayNew(committed: Store, st: Store, history: map<HistKey, HistEntry>, txs: seq<Tx>,
                                       height: nat, blockHash: Hash, captured: map<Outpoint, TxOut>, txid: Hash)
    requires forall i :: 0 <= i < |txs| ==> CapturedMatches(st, txs[i].Spends(), captured)
    requires NoKeysFor(history, txid) && !HasId(txs, txid)
    ensures NoKeysFor(IndexTxs(committed, history, txs, height, blockHash, captured), txid)
  {
    IndexTxsExactly(committed, st, history, txs, height, blockHash, captured);
    var r := IndexTxs(committed, history, txs, height, blockHash, captured);
    forall k | k in r ensures k.txid != txid {
      if k !in history { InTxKeysHasId(st, txs, height, k); }
    }
  }

  lemma {:induction false} BlockMovesHistory(committed: Store, st: Store, history: map<HistKey, HistEntry>, txs: seq<Tx>,
                                             height: nat, blockHash: Hash, captured: map<Outpoint, TxOut>,
                                             entries: map<Outpoint, Utxo>, a: Address)
    requires InKeyRange(txs) && DistinctIds(txs)
    requires forall i :: 0 <= i < |txs| ==> CapturedMatches(st, txs[i].Spends(), captured)
    requires forall op :: op in captured ==> captured[op] == OutAt(entries, op)
    requires forall k :: k in history ==> !HasId(txs, k.txid)
    ensures HistoryBalance(IndexTxs(committed, history, txs, height, blockHash, captured), a)
            == HistoryBalance(history, a) + BlockOut(PaidTo(a), txs) - BlockIn(PaidTo(a), entries, txs)
  {
    if txs != [] {
      var n := |txs| - 1;
      var init, tx := txs[..n], txs[n];
      forall k | k in history ensures !HasId(init, k.txid) && k.txid != tx.id {
        assert HasId(txs, tx.id);
        assert forall i :: 0 <= i < n ==> init[i] == txs[i];
      }
      assert !HasId(init, tx.id);
      BlockMovesHistory(committed, st, history, init, height, blockHash, captured, entries, a);
      KeysStayNew(committed, st, history, init, height, blockHash, captured, tx.id);
      TxMovesHistory(committed, IndexTxs(committed, history, init, height, blockHash, captured), tx, height,
                     blockHash, captured, entries, a);
    }
  }

  // ---------- the two conservation laws, one block at a time ----------

  /** Connecting a block, in a batch or alone, moves an address's history balance and its unspent balance
      alike, up to what it spends from that address that was already spent. */
  lemma ConnectMovesBalances(committed: Store, st: Store, best: nat, cache: map<nat, int>, b: Block, height: nat,
                             a: Address)
    requires LedgerOk(st) && NewBlock(st, b, height) && SpendsAllowed(b.txs, height)
    requires ConnectBlock(committed, st, best, cache, b, height).Ok?
    requires InKeyRange(b.txs)
    ensures var c := ConnectBlock(committed, st, best, cache, b, height).value.view;
            HistoryBalance(c.history, a) - HistoryBalance(st.history, a)
            == UnspentBalance(c.utxos, a) - UnspentBalance(st.utxos, a)
               - BlockRepeats(PaidTo(a), c.utxos.entries, st.utxos.entries, b.txs)
  {
    ConnectExactly(committed, st, best, cache, b, height);
    var r := ConnectBlock(committed, st, best, cache, b, height).value;
    NewBlockNewIds(st, b, height);
    BlockMovesTotal(committed, st.utxos, b.txs, height, PaidTo(a));
    CapturedAgree(st, r.view, b, height, r.spent);
    BlockMovesHistory(committed, r.view, st.history, b.txs, height, b.hash, r.spent, r.view.utxos.entries, a);
  }

  /** The recorded supply moves like the total of unspent outputs exactly when the block counts no
      value again; otherwise it falls short by precisely that value. */
  lemma ConnectMovesSupply(committed: Store, st: Store, best: nat, cache: map<nat, int>, b: Block, height: nat)
    requires LedgerOk(st) && NewBlock(st, b, height) && SpendsAllowed(b.txs, height)
    requires ConnectBlock(committed, st, best, cache, b, height).Ok?
    ensures var c := ConnectBlock(committed, st, best, cache, b, height).value.view;
            c.supply[height] - PrevSupply(committed, cache, height)
            == Total(c.utxos.entries, ValueOf) - Total(st.utxos.entries, ValueOf)
               - BlockRepeats(ValueOf, c.utxos.entries, st.utxos.entries, b.txs)
  {
    NewBlockNewIds(st, b, height);
    BlockMovesTotal(committed, st.utxos, b.txs, height, ValueOf);
  }
}
