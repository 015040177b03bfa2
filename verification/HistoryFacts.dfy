/** Which address-history entries indexing a transaction writes, and which deleting it removes. */
module HistoryFacts {
  import opened Types
  import opened Storage
  import opened Ledger
  import opened BlockFacts

  /** Every input's output was captured while spending, so the slow lookup is never taken and the
      positions in the list are the input positions. */
  lemma {:induction false} CapturedOutputsInOrder(committed: Store, inputs: seq<Outpoint>, captured: map<Outpoint, TxOut>)
    requires forall op :: op in inputs ==> op in captured
    ensures var r := SpentOutputs(committed, inputs, captured);
            |r| == |inputs| && forall i :: 0 <= i < |inputs| ==> r[i] == captured[inputs[i]]
  {
    if inputs != [] {
      var n := |inputs| - 1;
      assert forall op :: op in inputs[..n] ==> op in inputs;
      CapturedOutputsInOrder(committed, inputs[..n], captured);
      assert inputs[n] in inputs;
    }
  }

  /** The history key of the first 32768 outputs and inputs has the position in its low 15 bits, and the
      high bit set for inputs; the others have none. */
  lemma HistoryKeysAre(st: Store, outs: seq<TxOut>, inputs: seq<Outpoint>, txid: Hash, height: nat, i: nat, a: Address)
    ensures i < |outs| && outs[i].script == PayTo(a) && a != 0 ==>
              OutputKeyOf(outs, txid, height, i) == if i < 32768 then Some(HistKey(a, height, txid, i)) else None
    ensures i < |inputs| && PrevOutput(st, inputs[i]).Some? && PrevOutput(st, inputs[i]).value.script == PayTo(a)
            && a != 0 ==>
              InputKeyOf(st, inputs, txid, height, i)
                == if i < 32768 then Some(HistKey(a, height, txid, 32768 + i)) else None
  {
    hide PrevOutput;
  }

  /** What a list of inputs spends: in input order, each one captured, or else found through the transaction
      index, and nothing for one found in neither. */
  lemma SpentOutputsInOrder(committed: Store, a: seq<Outpoint>, b: seq<Outpoint>,
                            captured: map<Outpoint, TxOut>, op: Outpoint)
    ensures SpentOutputs(committed, [], captured) == []
    ensures SpentOutputs(committed, [op], captured)
            == if op in captured then [captured[op]]
               else if op.txid in committed.txs && op.index < |committed.txs[op.txid].tx.outputs|
                 then [committed.txs[op.txid].tx.outputs[op.index]]
               else []
    ensures SpentOutputs(committed, a + b, captured)
            == SpentOutputs(committed, a, captured) + SpentOutputs(committed, b, captured)
  {
    hide SpentOutputs;
    SpentOutputOne(committed, captured, op);
    SpentOutputsJoin(committed, a, b, captured);
  }

  lemma SpentOutputOne(committed: Store, captured: map<Outpoint, TxOut>, op: Outpoint)
    ensures SpentOutputs(committed, [], captured) == []
    ensures SpentOutputs(committed, [op], captured)
            == if op in captured then [captured[op]]
               else if op.txid in committed.txs && op.index < |committed.txs[op.txid].tx.outputs|
                 then [committed.txs[op.txid].tx.outputs[op.index]]
               else []
  {
    assert [op][..0] == [];
  }

  lemma {:induction false} SpentOutputsJoin(committed: Store, a: seq<Outpoint>, b: seq<Outpoint>,
                                            captured: map<Outpoint, TxOut>)
    ensures SpentOutputs(committed, a + b, captured)
            == SpentOutputs(committed, a, captured) + SpentOutputs(committed, b, captured)
    decreases |b|
  {
    hide PrevOutput;
    if b == [] {
      assert a + b == a;
    } else {
      var init := b[..|b| - 1];
      SpentOutputsJoin(committed, a, init, captured);
      assert (a + b)[..|a + b| - 1] == a + init && (a + b)[|a + b| - 1] == b[|b| - 1];
    }
  }

  function SpentKeyOf(spent: seq<TxOut>, txid: Hash, height: nat, i: nat): Option<HistKey>
    requires i < |spent|
  {
    var a := AddressOf(spent[i].script);
    if a.Some? && i <= IO_MASK then Some(InputKey(a.value, height, txid, i)) else None
  }

  /** Indexing inputs writes one entry per addressable input in range, and touches no other key. */
  lemma {:induction false} IndexInputsExactly(history: map<HistKey, HistEntry>, spent: seq<TxOut>, txid: Hash,
                                              height: nat, blockHash: Hash, n: nat)
    requires n <= |spent|
    ensures var r := IndexInputs(history, spent, txid, height, blockHash, n);
            && (forall k :: k in r <==>
                  k in history || exists i :: 0 <= i < n && SpentKeyOf(spent, txid, height, i) == Some(k))
            && (forall k :: k in history && k.txid != txid ==> r[k] == history[k])
  {
    if n > 0 {
      IndexInputsExactly(history, spent, txid, height, blockHash, n - 1);
      var r := IndexInputs(history, spent, txid, height, blockHash, n);
      var s := SpentKeyOf(spent, txid, height, n - 1);
      forall k ensures k in r <==>
                  k in history || exists i :: 0 <= i < n && SpentKeyOf(spent, txid, height, i) == Some(k) {
        if s == Some(k) { assert k in r; }
      }
    }
  }

  lemma {:induction false} IndexOutputsExactly(history: map<HistKey, HistEntry>, outs: seq<TxOut>, txid: Hash,
                                               height: nat, blockHash: Hash, n: nat)
    requires n <= |outs|
    ensures var r := IndexOutputs(history, outs, txid, height, blockHash, n);
            && (forall k :: k in r <==>
                  k in history || exists i :: 0 <= i < n && OutputKeyOf(outs, txid, height, i) == Some(k))
            && (forall k :: k in history && k.txid != txid ==> r[k] == history[k])
  {
    if n > 0 {
      IndexOutputsExactly(history, outs, txid, height, blockHash, n - 1);
      var r := IndexOutputs(history, outs, txid, height, blockHash, n);
      var s := OutputKeyOf(outs, txid, height, n - 1);
      forall k ensures k in r <==>
                  k in history || exists i :: 0 <= i < n && OutputKeyOf(outs, txid, height, i) == Some(k) {
        if s == Some(k) { assert k in r; }
      }
    }
  }

  lemma {:induction false} InputEntries(history: map<HistKey, HistEntry>, spent: seq<TxOut>, txid: Hash, height: nat,
                                        blockHash: Hash, n: nat)
    requires n <= |spent|
    ensures forall i :: 0 <= i < n && SpentKeyOf(spent, txid, height, i).Some? ==>
              var k := SpentKeyOf(spent, txid, height, i).value;
              k in IndexInputs(history, spent, txid, height, blockHash, n)
              && IndexInputs(history, spent, txid, height, blockHash, n)[k] == HistEntry(true, spent[i].value, blockHash)
  {
    if n > 0 { InputEntries(history, spent, txid, height, blockHash, n - 1); }
  }

  lemma {:induction false} OutputEntries(history: map<HistKey, HistEntry>, outs: seq<TxOut>, txid: Hash, height: nat,
                                         blockHash: Hash, n: nat)
    requires n <= |outs|
    ensures var r := IndexOutputs(history, outs, txid, height, blockHash, n);
            && (forall i :: 0 <= i < n && OutputKeyOf(outs, txid, height, i).Some? ==>
                  var k := OutputKeyOf(outs, txid, height, i).value;
                  k in r && r[k] == HistEntry(false, outs[i].value, blockHash))
            && (forall k :: k in history && k.index >= 32768 ==> k in r && r[k] == history[k])
  {
    if n > 0 { OutputEntries(history, outs, txid, height, blockHash, n - 1); }
  }

  /** After indexing a transaction the entry of an addressed output has its value and its block, and so has the
      entry of an addressed input, as an input. */
  lemma IndexedEntriesAre(committed: Store, history: map<HistKey, HistEntry>, tx: Tx, height: nat, blockHash: Hash,
                          captured: map<Outpoint, TxOut>, i: nat, a: Address)
    requires i < 32768 && a != 0
    ensures var r := IndexTx(committed, history, tx, height, blockHash, captured);
            var spent := SpentOutputs(committed, tx.Spends(), captured);
            && (i < |tx.outputs| && tx.outputs[i].script == PayTo(a) ==>
                  var k := HistKey(a, height, tx.id, i);
                  k in r && r[k] == HistEntry(false, tx.outputs[i].value, blockHash))
            && (i < |spent| && spent[i].script == PayTo(a) ==>
                  var k := HistKey(a, height, tx.id, 32768 + i);
                  k in r && r[k] == HistEntry(true, spent[i].value, blockHash))
  {
    hide SpentOutputs, IndexInputs, IndexOutputs;
    var spent := SpentOutputs(committed, tx.Spends(), captured);
    InputEntries(history, spent, tx.id, height, blockHash, |spent|);
    var mid := IndexInputs(history, spent, tx.id, height, blockHash, |spent|);
    OutputEntries(mid, tx.outputs, tx.id, height, blockHash, |tx.outputs|);
    if i < |tx.outputs| && tx.outputs[i].script == PayTo(a) {
      assert OutputKeyOf(tx.outputs, tx.id, height, i) == Some(HistKey(a, height, tx.id, i));
    }
    if i < |spent| && spent[i].script == PayTo(a) {
      assert SpentKeyOf(spent, tx.id, height, i) == Some(HistKey(a, height, tx.id, 32768 + i));
    }
  }

  /** The keys deleting a transaction removes. */
  function TxKeys(st: Store, tx: Tx, height: nat): set<HistKey> {
    OutputKeys(tx.outputs, tx.id, height) + InputKeys(st, tx.Spends(), tx.id, height)
  }

  lemma TxKeysHaveItsId(st: Store, tx: Tx, height: nat)
    ensures forall k :: k in TxKeys(st, tx, height) ==> k.txid == tx.id && k.height == height
  {
  }

  /** The captured outputs are those the transaction index gives for the same outpoints. */
  ghost predicate CapturedMatches(st: Store, inputs: seq<Outpoint>, captured: map<Outpoint, TxOut>) {
    forall op :: op in inputs ==> op in captured && PrevOutput(st, op) == Some(captured[op])
  }

  /** Indexing a transaction writes exactly the keys that deleting it from `st` would remove. */
  lemma IndexTxExactly(committed: Store, st: Store, history: map<HistKey, HistEntry>, tx: Tx, height: nat,
                       blockHash: Hash, captured: map<Outpoint, TxOut>)
    requires CapturedMatches(st, tx.Spends(), captured)
    ensures var r := IndexTx(committed, history, tx, height, blockHash, captured);
            && (forall k :: k in r <==> k in history || k in TxKeys(st, tx, height))
            && (forall k :: k in history && k.txid != tx.id ==> r[k] == history[k])
  {
    var inputs := tx.Spends();
    CapturedOutputsInOrder(committed, inputs, captured);
    var spent := SpentOutputs(committed, inputs, captured);
    IndexInputsExactly(history, spent, tx.id, height, blockHash, |spent|);
    var mid := IndexInputs(history, spent, tx.id, height, blockHash, |spent|);
    IndexOutputsExactly(mid, tx.outputs, tx.id, height, blockHash, |tx.outputs|);
    forall i | 0 <= i < |inputs| ensures SpentKeyOf(spent, tx.id, height, i) == InputKeyOf(st, inputs, tx.id, height, i) {
      assert inputs[i] in inputs;
    }
    forall k ensures (exists i :: 0 <= i < |inputs| && SpentKeyOf(spent, tx.id, height, i) == Some(k))
                     <==> k in InputKeys(st, inputs, tx.id, height) {
      if k in InputKeys(st, inputs, tx.id, height) {
        var i :| 0 <= i < |inputs| && InputKeyOf(st, inputs, tx.id, height, i) == Some(k);
        assert SpentKeyOf(spent, tx.id, height, i) == Some(k);
      }
      if i :| 0 <= i < |inputs| && SpentKeyOf(spent, tx.id, height, i) == Some(k) {
        assert InputKeyOf(st, inputs, tx.id, height, i) == Some(k);
      }
    }
    forall k ensures (exists i :: 0 <= i < |tx.outputs| && OutputKeyOf(tx.outputs, tx.id, height, i) == Some(k))
                     <==> k in OutputKeys(tx.outputs, tx.id, height) {
      if k in OutputKeys(tx.outputs, tx.id, height) {
        var i :| 0 <= i < |tx.outputs| && OutputKeyOf(tx.outputs, tx.id, height, i) == Some(k);
      }
      if i :| 0 <= i < |tx.outputs| && OutputKeyOf(tx.outputs, tx.id, height, i) == Some(k) {
        assert k in OutputKeys(tx.outputs, tx.id, height);
      }
    }
  }

  // ---------- a whole block ----------

  predicate InTxKeys(st: Store, txs: seq<Tx>, height: nat, k: HistKey) {
    txs != [] && (k in TxKeys(st, txs[|txs| - 1], height) || InTxKeys(st, txs[..|txs| - 1], height, k))
  }

  lemma {:induction false} InTxKeysHasId(st: Store, txs: seq<Tx>, height: nat, k: HistKey)
    requires InTxKeys(st, txs, height, k)
    ensures HasId(txs, k.txid)
  {
    var n := |txs| - 1;
    TxKeysHaveItsId(st, txs[n], height);
    if k !in TxKeys(st, txs[n], height) {
      InTxKeysHasId(st, txs[..n], height, k);
      var i :| 0 <= i < n && txs[..n][i].id == k.txid;
      assert txs[i].id == k.txid;
    }
  }

  lemma {:induction false} IndexTxsExactly(committed: Store, st: Store, history: map<HistKey, HistEntry>, txs: seq<Tx>,
                                           height: nat, blockHash: Hash, captured: map<Outpoint, TxOut>)
    requires forall i :: 0 <= i < |txs| ==> CapturedMatches(st, txs[i].Spends(), captured)
    ensures var r := IndexTxs(committed, history, txs, height, blockHash, captured);
            && (forall k :: k in r <==> k in history || InTxKeys(st, txs, height, k))
            && (forall k :: k in history && !HasId(txs, k.txid) ==> r[k] == history[k])
  {
    if txs != [] {
      var n := |txs| - 1;
      var init := txs[..n];
      IndexTxsExactly(committed, st, history, init, height, blockHash, captured);
      var mid := IndexTxs(committed, history, init, height, blockHash, captured);
      IndexTxExactly(committed, st, mid, txs[n], height, blockHash, captured);
      forall k | k in history && !HasId(txs, k.txid)
        ensures !HasId(init, k.txid) && k.txid != txs[n].id
      {
        assert forall i :: 0 <= i < n ==> init[i] == txs[i];
      }
    }
  }

  /** Deleting a block's transactions removes exactly their index entries and history keys. */
  lemma {:induction false} DeleteTransactionsExactly(committed: Store, st: Store, txs: seq<Tx>, height: nat)
    requires forall i :: 0 <= i < |txs| ==> txs[i].id in committed.txs && committed.txs[txs[i].id].tx == txs[i]
    ensures var r := DeleteTransactions(committed, st, txs, height);
            && r == st.(txs := r.txs, history := r.history)
            && (forall id :: id in r.txs <==> id in st.txs && !HasId(txs, id))
            && (forall id :: id in r.txs ==> r.txs[id] == st.txs[id])
            && (forall k :: k in r.history <==> k in st.history && !InTxKeys(committed, txs, height, k))
            && (forall k :: k in r.history ==> r.history[k] == st.history[k])
    decreases |txs|
  {
    if txs != [] {
      var n := |txs| - 1;
      var init, tx := txs[..n], txs[n];
      var mid := DeleteTransaction(committed, st, tx.id, height);
      DeleteTransactionsExactly(committed, mid, init, height);
      var r := DeleteTransactions(committed, st, txs, height);
      forall id ensures HasId(txs, id) <==> HasId(init, id) || id == tx.id {
        if HasId(txs, id) {
          var i :| 0 <= i < |txs| && txs[i].id == id;
          if i < n { assert init[i].id == id; }
        }
        if HasId(init, id) {
          var i :| 0 <= i < n && init[i].id == id;
          assert txs[i].id == id;
        }
      }
    } else {
      assert forall k :: !InTxKeys(committed, txs, height, k);
    }
  }
}
