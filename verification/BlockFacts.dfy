/** What one applied block does to the unspent outputs, and the invariant every block keeps. */
module BlockFacts {
  import opened Types
  import opened Storage
  import opened Ledger
  import opened UtxoFacts

  // ---------- which outpoints a list of transactions creates and spends ----------

  predicate CreatedIn(txs: seq<Tx>, op: Outpoint) {
    txs != [] && (Creates(txs[|txs| - 1], op) || CreatedIn(txs[..|txs| - 1], op))
  }

  predicate SpentIn(txs: seq<Tx>, op: Outpoint) {
    txs != [] && (op in txs[|txs| - 1].Spends() || SpentIn(txs[..|txs| - 1], op))
  }

  predicate HasId(txs: seq<Tx>, id: Hash) {
    exists i :: 0 <= i < |txs| && txs[i].id == id
  }

  predicate DistinctIds(txs: seq<Tx>) {
    forall i, j :: 0 <= i < j < |txs| ==> txs[i].id != txs[j].id
  }

  /** Height 0 marks "unspent", so a block at height 0 may spend nothing. */
  predicate SpendsAllowed(txs: seq<Tx>, height: nat) {
    height > 0 || forall i :: 0 <= i < |txs| ==> txs[i].Spends() == []
  }

  lemma {:induction false} NothingSpent(txs: seq<Tx>, op: Outpoint)
    requires SpendsAllowed(txs, 0)
    ensures !SpentIn(txs, op)
  {
    if txs != [] { NothingSpent(txs[..|txs| - 1], op); }
  }

  /** The output a list of transactions creates at `op`, as first stored. */
  function CreatedUtxo(txs: seq<Tx>, height: nat, op: Outpoint): Utxo
    requires CreatedIn(txs, op)
  {
    var tx := txs[|txs| - 1];
    if Creates(tx, op) then NewUtxo(tx, height, op.index)
    else CreatedUtxo(txs[..|txs| - 1], height, op)
  }

  lemma {:induction false} CreatedInHasId(txs: seq<Tx>, op: Outpoint)
    requires CreatedIn(txs, op)
    ensures HasId(txs, op.txid)
  {
    var n := |txs| - 1;
    if !Creates(txs[n], op) {
      CreatedInHasId(txs[..n], op);
      var i :| 0 <= i < n && txs[..n][i].id == op.txid;
      assert txs[i].id == op.txid;
    }
  }

  // ---------- the block as a whole ----------

  /** An output before anyone in this block spends it. */
  function Origin(before: map<Outpoint, Utxo>, txs: seq<Tx>, height: nat, op: Outpoint): Utxo
    requires op in before || CreatedIn(txs, op)
  {
    if op in before then before[op] else CreatedUtxo(txs, height, op)
  }

  /** `after` is `before` plus the block's outputs, with exactly the block's inputs marked spent by
      one of its transactions. */
  ghost predicate BlockApplied(before: map<Outpoint, Utxo>, after: map<Outpoint, Utxo>, txs: seq<Tx>, height: nat) {
    && (forall op :: op in after <==> op in before || CreatedIn(txs, op))
    && (forall op :: op in before ==> !CreatedIn(txs, op))
    && (forall op :: SpentIn(txs, op) ==>
          && op in after
          && HasId(txs, after[op].spendingTx)
          && after[op] == SpentBy(Origin(before, txs, height, op), height, after[op].spendingTx))
    && (forall op :: op in after && !SpentIn(txs, op) ==> after[op] == Origin(before, txs, height, op))
  }

  /** The transaction ids of `txs` are distinct and new to the outputs in `entries`. */
  ghost predicate NewIds(entries: map<Outpoint, Utxo>, txs: seq<Tx>) {
    && DistinctIds(txs)
    && (forall op :: op in entries ==> !HasId(txs, op.txid))
    && (forall op :: op in entries && entries[op].IsSpent() ==> !HasId(txs, entries[op].spendingTx))
  }

  lemma NewIdsPrefix(entries: map<Outpoint, Utxo>, txs: seq<Tx>)
    requires NewIds(entries, txs) && txs != []
    ensures NewIds(entries, txs[..|txs| - 1])
    ensures !HasId(txs[..|txs| - 1], txs[|txs| - 1].id)
    ensures forall id :: HasId(txs, id) <==> HasId(txs[..|txs| - 1], id) || id == txs[|txs| - 1].id
  {
    var n := |txs| - 1;
    forall id ensures HasId(txs, id) <==> HasId(txs[..n], id) || id == txs[n].id {
      if HasId(txs, id) {
        var i :| 0 <= i < |txs| && txs[i].id == id;
        if i < n { assert txs[..n][i].id == id; }
      }
      if HasId(txs[..n], id) {
        var i :| 0 <= i < n && txs[..n][i].id == id;
        assert txs[i].id == id;
      }
    }
    forall i | 0 <= i < n ensures txs[..n][i].id != txs[n].id {
      assert txs[..n][i] == txs[i];
    }
  }

  /** Whatever was already stored and gets spent was unspent, or spent by a reference the committed
      store no longer supports. */
  ghost predicate SpentWereFree(committed: Store, before: map<Outpoint, Utxo>, txs: seq<Tx>) {
    forall op :: op in before && SpentIn(txs, op) ==> !before[op].IsSpent() || Orphaned(committed, before[op])
  }

  ghost predicate CapturedAll(captured: map<Outpoint, TxOut>, entries: map<Outpoint, Utxo>, txs: seq<Tx>) {
    && (forall op :: op in captured <==> SpentIn(txs, op))
    && (forall op :: op in captured ==> op in entries && captured[op] == entries[op].Output())
  }

  /** What was there before the last transaction is not created by it, and keeps its origin. */
  lemma OriginStays(before: map<Outpoint, Utxo>, txs: seq<Tx>, height: nat, op: Outpoint)
    requires txs != [] && NewIds(before, txs)
    requires op in before || CreatedIn(txs[..|txs| - 1], op)
    ensures !Creates(txs[|txs| - 1], op)
    ensures CreatedIn(txs, op) <==> CreatedIn(txs[..|txs| - 1], op)
    ensures Origin(before, txs[..|txs| - 1], height, op) == Origin(before, txs, height, op)
  {
    NewIdsPrefix(before, txs);
    if CreatedIn(txs[..|txs| - 1], op) { CreatedInHasId(txs[..|txs| - 1], op); }
  }

  lemma SpentAfterSnoc(before: map<Outpoint, Utxo>, mid: map<Outpoint, Utxo>, after: map<Outpoint, Utxo>, txs: seq<Tx>,
                       height: nat, op: Outpoint)
    requires txs != [] && NewIds(before, txs)
    requires BlockApplied(before, mid, txs[..|txs| - 1], height) && TxApplied(mid, after, txs[|txs| - 1], height)
    requires SpentIn(txs, op)
    ensures op in mid && op in after
    ensures HasId(txs, after[op].spendingTx)
    ensures after[op] == SpentBy(Origin(before, txs, height, op), height, after[op].spendingTx)
  {
    hide NewIds, CreatedIn, Creates, HasId;
    var n := |txs| - 1;
    NewIdsPrefix(before, txs);
    assert op in mid;
    OriginStays(before, txs, height, op);
  }

  lemma BlockAppliedSnoc(before: map<Outpoint, Utxo>, mid: map<Outpoint, Utxo>, after: map<Outpoint, Utxo>,
                         txs: seq<Tx>, height: nat)
    requires txs != [] && NewIds(before, txs)
    requires BlockApplied(before, mid, txs[..|txs| - 1], height)
    requires TxApplied(mid, after, txs[|txs| - 1], height)
    ensures BlockApplied(before, after, txs, height)
  {
    hide NewIds, Origin, Creates, HasId;
    forall op | op in mid
      ensures !Creates(txs[|txs| - 1], op)
      ensures CreatedIn(txs, op) <==> CreatedIn(txs[..|txs| - 1], op)
      ensures Origin(before, txs[..|txs| - 1], height, op) == Origin(before, txs, height, op)
    {
      OriginStays(before, txs, height, op);
    }
    forall op | SpentIn(txs, op)
      ensures op in mid && op in after
      ensures HasId(txs, after[op].spendingTx)
      ensures after[op] == SpentBy(Origin(before, txs, height, op), height, after[op].spendingTx)
    {
      SpentAfterSnoc(before, mid, after, txs, height, op);
    }
    NewlyCreated(before, mid, after, txs, height);
  }

  lemma NewlyCreated(before: map<Outpoint, Utxo>, mid: map<Outpoint, Utxo>, after: map<Outpoint, Utxo>,
                     txs: seq<Tx>, height: nat)
    requires txs != [] && BlockApplied(before, mid, txs[..|txs| - 1], height)
    requires TxApplied(mid, after, txs[|txs| - 1], height)
    ensures forall op :: Creates(txs[|txs| - 1], op) ==> op !in before && CreatedIn(txs, op)
    ensures forall op :: Creates(txs[|txs| - 1], op) ==> after[op] == Origin(before, txs, height, op)
  {
  }

  lemma SpentWereFreeSnoc(committed: Store, before: map<Outpoint, Utxo>, mid: map<Outpoint, Utxo>, txs: seq<Tx>,
                          height: nat)
    requires txs != [] && NewIds(before, txs)
    requires SpentWereFree(committed, before, txs[..|txs| - 1])
    requires BlockApplied(before, mid, txs[..|txs| - 1], height)
    requires AllSpendable(committed, mid, txs[|txs| - 1].Spends(), height, txs[|txs| - 1].id)
    ensures SpentWereFree(committed, before, txs)
  {
    var n := |txs| - 1;
    var init, tx := txs[..n], txs[n];
    assert HasId(txs, tx.id);
    forall op | op in before && SpentIn(txs, op)
      ensures !before[op].IsSpent() || Orphaned(committed, before[op])
    {
      if !SpentIn(init, op) {
        assert mid[op] == before[op];
        assert Spendable(committed, mid[op], height, tx.id);
      }
    }
  }

  lemma CapturedAllSnoc(was: map<Outpoint, TxOut>, now: map<Outpoint, TxOut>,
                        mid: map<Outpoint, Utxo>, after: map<Outpoint, Utxo>, txs: seq<Tx>, height: nat)
    requires txs != []
    requires CapturedAll(was, mid, txs[..|txs| - 1])
    requires TxApplied(mid, after, txs[|txs| - 1], height)
    requires Captured(was, now, mid, txs[|txs| - 1].Spends())
    ensures CapturedAll(now, after, txs)
  {
  }

  lemma {:induction false} ApplyTxsExactly(committed: Store, us: UtxoSet, txs: seq<Tx>, height: nat)
    requires AddrIndexed(us) && SpendsAllowed(txs, height) && NewIds(us.entries, txs)
    ensures var r := ApplyTxs(committed, StartWork(us), txs, height);
            r.Ok? ==>
              && BlockApplied(us.entries, r.value.utxos.entries, txs, height)
              && AddrIndexed(r.value.utxos)
              && SpentWereFree(committed, us.entries, txs)
              && CapturedAll(r.value.spent, r.value.utxos.entries, txs)
  {
    if txs != [] {
      var n := |txs| - 1;
      var init, tx := txs[..n], txs[n];
      NewIdsPrefix(us.entries, txs);
      ApplyTxsExactly(committed, us, init, height);
      var b := ApplyTxs(committed, StartWork(us), init, height);
      if b.Ok? {
        var mid := b.value.utxos.entries;
        IdsStayNew(us.entries, mid, txs, height);
        ApplyTxExactly(committed, b.value, tx, height);
        var r := ApplyTx(committed, b.value, tx, height);
        if r.Ok? {
          BlockAppliedSnoc(us.entries, mid, r.value.utxos.entries, txs, height);
          SpentWereFreeSnoc(committed, us.entries, mid, txs, height);
          CapturedAllSnoc(b.value.spent, r.value.spent, mid, r.value.utxos.entries, txs, height);
        }
      }
    }
  }

  lemma IdsStayNew(before: map<Outpoint, Utxo>, mid: map<Outpoint, Utxo>, txs: seq<Tx>, height: nat)
    requires txs != [] && NewIds(before, txs)
    requires BlockApplied(before, mid, txs[..|txs| - 1], height)
    ensures forall op :: op in mid ==> op.txid != txs[|txs| - 1].id
  {
    var n := |txs| - 1;
    NewIdsPrefix(before, txs);
    assert HasId(txs, txs[n].id);
    forall op | op in mid ensures op.txid != txs[n].id {
      if CreatedIn(txs[..n], op) { CreatedInHasId(txs[..n], op); }
    }
  }
}
