/** Exactly what spending, creating and undoing do to the unspent-output map, outpoint by outpoint. */
module UtxoFacts {
  import opened Types
  import opened Storage
  import opened Ledger

  // ---------- the address index is a projection of the outpoint map ----------

  ghost predicate Balances(us: UtxoSet, op: Outpoint, a: Address) {
    && op in us.entries
    && !us.entries[op].IsSpent()
    && AddressOf(us.entries[op].script) == Some(a)
  }

  /** `byAddress` lists exactly the unspent addressable outputs, with their values. */
  ghost predicate AddrIndexed(us: UtxoSet) {
    forall k :: (k in us.byAddress <==> Balances(us, k.outpoint, k.address))
             && (k in us.byAddress ==> us.byAddress[k] == us.entries[k.outpoint].value)
  }

  lemma AddrIndexUnique(a: UtxoSet, b: UtxoSet)
    requires AddrIndexed(a) && AddrIndexed(b) && a.entries == b.entries
    ensures a == b
  {
    forall k ensures k in a.byAddress <==> k in b.byAddress {
      assert Balances(a, k.outpoint, k.address) <==> Balances(b, k.outpoint, k.address);
    }
    assert a.byAddress == b.byAddress;
  }

  lemma PutKeepsIndex(us: UtxoSet, op: Outpoint, output: TxOut, height: nat, cb: bool)
    requires AddrIndexed(us) && op !in us.entries
    ensures AddrIndexed(PutUtxo(us, op, output, height, cb))
  {
    var r := PutUtxo(us, op, output, height, cb);
    forall k ensures (k in r.byAddress <==> Balances(r, k.outpoint, k.address))
                  && (k in r.byAddress ==> r.byAddress[k] == r.entries[k.outpoint].value) {
      assert k in us.byAddress <==> Balances(us, k.outpoint, k.address);
    }
  }

  lemma DeleteKeepsIndex(us: UtxoSet, op: Outpoint, output: TxOut)
    requires AddrIndexed(us) && (op in us.entries ==> us.entries[op].script == output.script)
    ensures AddrIndexed(DeleteUtxo(us, op, output))
  {
    var r := DeleteUtxo(us, op, output);
    forall k ensures (k in r.byAddress <==> Balances(r, k.outpoint, k.address))
                  && (k in r.byAddress ==> r.byAddress[k] == r.entries[k.outpoint].value) {
      assert k in us.byAddress <==> Balances(us, k.outpoint, k.address);
    }
  }

  lemma UnspendKeepsIndex(us: UtxoSet, op: Outpoint)
    requires AddrIndexed(us) && op in us.entries
    ensures AddrIndexed(UnspendUtxo(us, op).value)
  {
    var r := UnspendUtxo(us, op).value;
    forall k ensures (k in r.byAddress <==> Balances(r, k.outpoint, k.address))
                  && (k in r.byAddress ==> r.byAddress[k] == r.entries[k.outpoint].value) {
      assert k in us.byAddress <==> Balances(us, k.outpoint, k.address);
    }
  }

  lemma MarkKeepsIndex(committed: Store, us: UtxoSet, op: Outpoint, height: nat, txid: Hash)
    requires AddrIndexed(us) && height > 0
    requires MarkSpent(committed, us, op, height, txid).Ok?
    ensures AddrIndexed(MarkSpent(committed, us, op, height, txid).value.0)
  {
    var r := MarkSpent(committed, us, op, height, txid).value.0;
    forall k ensures (k in r.byAddress <==> Balances(r, k.outpoint, k.address))
                  && (k in r.byAddress ==> r.byAddress[k] == r.entries[k.outpoint].value) {
      assert k in us.byAddress <==> Balances(us, k.outpoint, k.address);
    }
  }

  /** A script has an address exactly when it pays to a hash160 that is not all zeros. */
  lemma ScriptAddresses(script: Script, a: Address)
    ensures AddressOf(script) == Some(a) <==> script == PayTo(a) && a != 0
  {
  }

  // ---------- spending ----------

  /** A spent output whose spending transaction is stored in the very block stored at its spending height. */
  predicate SpentForReal(committed: Store, u: Utxo) {
    && u.spendingHeight != 0
    && u.spendingHeight in committed.heightToHash
    && u.spendingTx in committed.txs
    && committed.txs[u.spendingTx].blockHash == committed.heightToHash[u.spendingHeight]
  }

  /** A spend marks its output and takes it off its address; it fails for an unknown output, and for one that
      is spent for real by another transaction, or by this one at another height. */
  lemma MarkOutcomes(committed: Store, us: UtxoSet, op: Outpoint, height: nat, txid: Hash)
    ensures var r := MarkSpent(committed, us, op, height, txid);
            if op !in us.entries then r == Err(UtxoNotFound)
            else
              var u := us.entries[op];
              if u.spendingHeight != 0 && u.spendingHeight == height && u.spendingTx == txid then r == Ok((us, u))
              else if SpentForReal(committed, u) then
                r == Err(if u.spendingTx == txid then ForkDuplicateSpend(u.spendingHeight) else AlreadySpent)
              else
                && r.Ok? && r.value.1 == u.(spendingHeight := height, spendingTx := txid)
                && r.value.0.entries == us.entries[op := r.value.1]
                && (forall k :: k in r.value.0.byAddress <==>
                      k in us.byAddress && !(k.outpoint == op && u.script == PayTo(k.address) && k.address != 0))
                && (forall k :: k in r.value.0.byAddress ==> r.value.0.byAddress[k] == us.byAddress[k])
  {
  }

  /** The condition under which an existing output accepts this spend. */
  predicate Spendable(committed: Store, u: Utxo, height: nat, txid: Hash) {
    || !u.IsSpent()
    || (u.spendingHeight == height && u.spendingTx == txid)
    || Orphaned(committed, u)
  }

  function SpentBy(u: Utxo, height: nat, txid: Hash): Utxo {
    u.(spendingHeight := height, spendingTx := txid)
  }

  lemma MarkExactly(committed: Store, us: UtxoSet, op: Outpoint, height: nat, txid: Hash)
    requires AddrIndexed(us) && height > 0
    ensures var r := MarkSpent(committed, us, op, height, txid);
            && (r.Ok? <==> op in us.entries && Spendable(committed, us.entries[op], height, txid))
            && (r.Ok? ==>
                  && r.value.1 == SpentBy(us.entries[op], height, txid)
                  && r.value.0.entries == us.entries[op := r.value.1]
                  && AddrIndexed(r.value.0))
  {
    if MarkSpent(committed, us, op, height, txid).Ok? {
      MarkKeepsIndex(committed, us, op, height, txid);
    }
  }

  /** `after` is `before` with exactly the outpoints of `inputs` marked spent. */
  ghost predicate Marked(before: map<Outpoint, Utxo>, after: map<Outpoint, Utxo>, inputs: seq<Outpoint>,
                         height: nat, txid: Hash)
  {
    && after.Keys == before.Keys
    && (forall op :: op in inputs ==> op in before && after[op] == SpentBy(before[op], height, txid))
    && (forall op :: op in before && op !in inputs ==> after[op] == before[op])
  }

  /** The captured outputs after spending `inputs`: those of the inputs, read before the spend. */
  ghost predicate Captured(before: map<Outpoint, TxOut>, after: map<Outpoint, TxOut>, entries: map<Outpoint, Utxo>,
                           inputs: seq<Outpoint>)
  {
    && (forall op :: op in after <==> op in before || op in inputs)
    && (forall op :: op in inputs ==> op in entries && after[op] == entries[op].Output())
    && (forall op :: op in before && op !in inputs ==> after[op] == before[op])
  }

  ghost predicate AllSpendable(committed: Store, entries: map<Outpoint, Utxo>, inputs: seq<Outpoint>,
                               height: nat, txid: Hash)
  {
    forall op :: op in inputs ==> op in entries && Spendable(committed, entries[op], height, txid)
  }

  lemma MarkedSnoc(before: map<Outpoint, Utxo>, mid: map<Outpoint, Utxo>, init: seq<Outpoint>, op: Outpoint,
                   height: nat, txid: Hash)
    requires Marked(before, mid, init, height, txid) && op in mid
    ensures Marked(before, mid[op := SpentBy(mid[op], height, txid)], init + [op], height, txid)
    ensures op in before && mid[op].Output() == before[op].Output()
    ensures SpentBy(mid[op], height, txid) == SpentBy(before[op], height, txid)
  {
  }

  lemma CapturedSnoc(before: map<Outpoint, TxOut>, mid: map<Outpoint, TxOut>, entries: map<Outpoint, Utxo>,
                     init: seq<Outpoint>, op: Outpoint)
    requires Captured(before, mid, entries, init) && op in entries
    ensures Captured(before, mid[op := entries[op].Output()], entries, init + [op])
  {
  }

  lemma SpendableSnoc(committed: Store, entries: map<Outpoint, Utxo>, mid: map<Outpoint, Utxo>,
                      init: seq<Outpoint>, op: Outpoint, height: nat, txid: Hash)
    requires Marked(entries, mid, init, height, txid)
    requires AllSpendable(committed, entries, init, height, txid)
    ensures AllSpendable(committed, entries, init + [op], height, txid) <==>
            op in mid && Spendable(committed, mid[op], height, txid)
  {
    assert op in init + [op];
    if op in mid && Spendable(committed, mid[op], height, txid) {
      forall o | o in init + [op] ensures o in entries && Spendable(committed, entries[o], height, txid) {
        assert o in init || o == op;
      }
    }
  }

  /** Spending succeeds exactly when every input exists and accepts the spend, and then it marks
      those inputs and nothing else. */
  lemma {:induction false} SpendInputsExactly(committed: Store, w: Work, inputs: seq<Outpoint>, height: nat, txid: Hash)
    requires AddrIndexed(w.utxos) && (height > 0 || inputs == [])
    ensures var r := SpendInputs(committed, w, inputs, height, txid);
            && (r.Ok? <==> AllSpendable(committed, w.utxos.entries, inputs, height, txid))
            && (r.Ok? ==>
                  && Marked(w.utxos.entries, r.value.utxos.entries, inputs, height, txid)
                  && AddrIndexed(r.value.utxos)
                  && r.value.valueOut == w.valueOut
                  && Captured(w.spent, r.value.spent, w.utxos.entries, inputs))
  {
    if inputs != [] {
      var n := |inputs| - 1;
      var init, op := inputs[..n], inputs[n];
      assert inputs == init + [op];
      SpendInputsExactly(committed, w, init, height, txid);
      var b := SpendInputs(committed, w, init, height, txid);
      if b.Ok? {
        var mid := b.value.utxos;
        MarkExactly(committed, mid, op, height, txid);
        SpendableSnoc(committed, w.utxos.entries, mid.entries, init, op, height, txid);
        if op in mid.entries && Spendable(committed, mid.entries[op], height, txid) {
          MarkedSnoc(w.utxos.entries, mid.entries, init, op, height, txid);
          CapturedSnoc(w.spent, b.value.spent, w.utxos.entries, init, op);
        }
      } else {
        assert forall o :: o in init ==> o in inputs;
      }
    }
  }

  // ---------- creating ----------

  predicate Creates(tx: Tx, op: Outpoint) {
    op.txid == tx.id && op.index < |tx.outputs|
  }

  function NewUtxo(tx: Tx, height: nat, i: nat): Utxo
    requires i < |tx.outputs|
  {
    Utxo(tx.outputs[i].value, tx.outputs[i].script, height, tx.IsCoinbase() || tx.IsCoinStake(), 0, ZERO_HASH)
  }

  /** `after` is `before` plus the first `n` outputs of the transaction. */
  ghost predicate Created(before: map<Outpoint, Utxo>, after: map<Outpoint, Utxo>, tx: Tx, height: nat, n: nat)
    requires n <= |tx.outputs|
  {
    && (forall op :: op in after <==> op in before || (op.txid == tx.id && op.index < n))
    && (forall op :: op in before ==> after[op] == before[op])
    && (forall op: Outpoint :: op.txid == tx.id && op.index < n ==> after[op] == NewUtxo(tx, height, op.index))
  }

  lemma CreatedSnoc(before: map<Outpoint, Utxo>, mid: map<Outpoint, Utxo>, tx: Tx, height: nat, n: nat)
    requires n < |tx.outputs| && Created(before, mid, tx, height, n)
    requires forall op :: op in before ==> op.txid != tx.id
    ensures Outpoint(tx.id, n) !in mid
    ensures Created(before, mid[Outpoint(tx.id, n) := NewUtxo(tx, height, n)], tx, height, n + 1)
  {
    hide NewUtxo;
  }

  lemma PutAdds(us: UtxoSet, tx: Tx, height: nat, i: nat)
    requires i < |tx.outputs|
    ensures PutUtxo(us, Outpoint(tx.id, i), tx.outputs[i], height, tx.IsCoinbase() || tx.IsCoinStake()).entries
            == us.entries[Outpoint(tx.id, i) := NewUtxo(tx, height, i)]
  {
  }

  lemma CreateNone(w: Work, tx: Tx, height: nat)
    ensures CreateOutputs(w, tx, height, 0) == w && Created(w.utxos.entries, w.utxos.entries, tx, height, 0)
  {
  }

  lemma CreateStep(w: Work, tx: Tx, height: nat, n: nat)
    requires 0 < n <= |tx.outputs|
    ensures var b, r := CreateOutputs(w, tx, height, n - 1), CreateOutputs(w, tx, height, n);
            && r.valueIn == b.valueIn && r.spent == b.spent
            && r.utxos == PutUtxo(b.utxos, Outpoint(tx.id, n - 1), tx.outputs[n - 1], height,
                                  tx.IsCoinbase() || tx.IsCoinStake())
  {
    hide PutUtxo;
  }

  lemma {:induction false} CreateOutputsExactly(w: Work, tx: Tx, height: nat, n: nat)
    requires n <= |tx.outputs|
    requires AddrIndexed(w.utxos)
    requires forall op :: op in w.utxos.entries ==> op.txid != tx.id
    ensures var r := CreateOutputs(w, tx, height, n);
            && r.valueIn == w.valueIn && r.spent == w.spent
            && AddrIndexed(r.utxos)
            && Created(w.utxos.entries, r.utxos.entries, tx, height, n)
  {
    hide *;
    if n == 0 {
      CreateNone(w, tx, height);
    } else {
      CreateOutputsExactly(w, tx, height, n - 1);
      CreateStep(w, tx, height, n);
      var mid := CreateOutputs(w, tx, height, n - 1).utxos;
      CreatedSnoc(w.utxos.entries, mid.entries, tx, height, n - 1);
      PutKeepsIndex(mid, Outpoint(tx.id, n - 1), tx.outputs[n - 1], height, tx.IsCoinbase() || tx.IsCoinStake());
      PutAdds(mid, tx, height, n - 1);
    }
  }

  /** What one applied transaction does: marks its inputs, adds its outputs, leaves the rest. */
  ghost predicate TxApplied(before: map<Outpoint, Utxo>, after: map<Outpoint, Utxo>, tx: Tx, height: nat) {
    && (forall op :: op in after <==> op in before || Creates(tx, op))
    && (forall op :: op in before ==> !Creates(tx, op))
    && (forall op :: op in tx.Spends() ==> op in before && after[op] == SpentBy(before[op], height, tx.id))
    && (forall op :: op in before && op !in tx.Spends() ==> after[op] == before[op])
    && (forall op :: Creates(tx, op) ==> after[op] == NewUtxo(tx, height, op.index))
  }

  lemma ApplyTxExactly(committed: Store, w: Work, tx: Tx, height: nat)
    requires AddrIndexed(w.utxos) && (height > 0 || tx.Spends() == [])
    requires forall op :: op in w.utxos.entries ==> op.txid != tx.id
    ensures var r := ApplyTx(committed, w, tx, height);
            && (r.Ok? <==> AllSpendable(committed, w.utxos.entries, tx.Spends(), height, tx.id))
            && (r.Ok? ==>
                  && TxApplied(w.utxos.entries, r.value.utxos.entries, tx, height)
                  && AddrIndexed(r.value.utxos)
                  && Captured(w.spent, r.value.spent, w.utxos.entries, tx.Spends()))
  {
    hide AddrIndexed, AllSpendable, Captured, SpendInputs, CreateOutputs, NewUtxo, SpentBy;
    SpendInputsExactly(committed, w, tx.Spends(), height, tx.id);
    var s := SpendInputs(committed, w, tx.Spends(), height, tx.id);
    if s.Ok? {
      CreateOutputsExactly(s.value, tx, height, |tx.outputs|);
    }
  }

  // ---------- undoing ----------

  lemma {:induction false} RemoveOutputsExactly(us: UtxoSet, tx: Tx, n: nat)
    requires n <= |tx.outputs| && AddrIndexed(us)
    requires forall i :: 0 <= i < n && Outpoint(tx.id, i) in us.entries ==>
               us.entries[Outpoint(tx.id, i)].script == tx.outputs[i].script
    ensures var r := RemoveOutputs(us, tx, n);
            && AddrIndexed(r)
            && (forall op :: op in r.entries <==> op in us.entries && !(op.txid == tx.id && op.index < n))
            && (forall op :: op in r.entries ==> r.entries[op] == us.entries[op])
  {
    if n > 0 {
      RemoveOutputsExactly(us, tx, n - 1);
      DeleteKeepsIndex(RemoveOutputs(us, tx, n - 1), Outpoint(tx.id, n - 1), tx.outputs[n - 1]);
    }
  }

  /** Undoing spends succeeds exactly when every input still exists, and resets just those. */
  lemma {:induction false} UnspendInputsExactly(us: UtxoSet, inputs: seq<Outpoint>)
    requires AddrIndexed(us)
    ensures UnspendInputs(us, inputs).Ok? <==> forall op :: op in inputs ==> op in us.entries
    ensures var r := UnspendInputs(us, inputs);
            r.Ok? ==>
              && AddrIndexed(r.value)
              && r.value.entries.Keys == us.entries.Keys
              && (forall op :: op in inputs ==>
                    r.value.entries[op] == if us.entries[op].IsSpent() then us.entries[op].Reset() else us.entries[op])
              && (forall op :: op in us.entries && op !in inputs ==> r.value.entries[op] == us.entries[op])
  {
    if inputs != [] {
      var n := |inputs| - 1;
      var init, op := inputs[..n], inputs[n];
      assert inputs == init + [op];
      assert forall o :: o in inputs <==> o in init || o == op;
      UnspendInputsExactly(us, init);
      var b := UnspendInputs(us, init);
      if b.Ok? && op in us.entries {
        UnspendKeepsIndex(b.value, op);
      }
    }
  }
}
