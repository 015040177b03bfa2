/** Deleting a connected block as an orphan: what its clean-up of unspent outputs really restores.

    The clean-up walks the transactions forwards and reads every output from the committed store, so an
    output the block both created and spent is deleted and then written back. */
module OrphanRelease {
  import opened Types
  import opened Storage
  import opened Ledger
  import opened UtxoFacts
  import opened BlockFacts
  import opened Inverse
  import opened Chain
  import opened Availability

  /** The committed store records this output as spent by the transaction, at this height. */
  predicate SpentHere(committed: UtxoSet, tx: Tx, height: nat, op: Outpoint) {
    && op in committed.entries && committed.entries[op].IsSpent()
    && committed.entries[op].spendingTx == tx.id && committed.entries[op].spendingHeight == height
  }

  lemma DropKeepsIndex(us: UtxoSet, committed: UtxoSet, op: Outpoint, out: TxOut)
    requires AddrIndexed(us) && (op in us.entries ==> us.entries[op].script == out.script)
    ensures AddrIndexed(DeleteUtxo(us, op, out))
  {
    DeleteKeepsIndex(us, op, out);
  }

  /** Scripts still agree with the committed ones. */
  ghost predicate SameScripts(us: UtxoSet, committed: UtxoSet) {
    forall op :: op in us.entries ==> op in committed.entries && us.entries[op].Output() == committed.entries[op].Output()
  }

  lemma {:induction false} DropExactly(us: UtxoSet, committed: UtxoSet, tx: Tx, n: nat)
    requires n <= |tx.outputs| && AddrIndexed(us) && SameScripts(us, committed)
    ensures var r := DropOutputs(us, committed, tx, n);
            && AddrIndexed(r) && SameScripts(r, committed)
            && (forall op :: op in r.entries <==> op in us.entries && !(op.txid == tx.id && op.index < n))
            && (forall op :: op in r.entries ==> r.entries[op] == us.entries[op])
  {
    hide AddrIndexed, Unlisted;
    if n > 0 {
      DropExactly(us, committed, tx, n - 1);
      var rest := DropOutputs(us, committed, tx, n - 1);
      var op := Outpoint(tx.id, n - 1);
      var out := if op in committed.entries then committed.entries[op].Output() else tx.outputs[n - 1];
      DropKeepsIndex(rest, committed, op, out);
    }
  }

  lemma ReleaseOne(us: UtxoSet, committed: UtxoSet, op: Outpoint)
    requires AddrIndexed(us) && SameScripts(us, committed) && op in committed.entries
    ensures var u := committed.entries[op];
            AddrIndexed(UtxoSet(us.entries[op := u.Reset()], Listed(us.byAddress, op, u.script, u.value)))
  {
    var u := committed.entries[op];
    var r := UtxoSet(us.entries[op := u.Reset()], Listed(us.byAddress, op, u.script, u.value));
    forall k ensures (k in r.byAddress <==> Balances(r, k.outpoint, k.address))
    {
      assert k in us.byAddress <==> Balances(us, k.outpoint, k.address);
      if k.outpoint == op && op in us.entries { assert us.entries[op].Output() == u.Output(); }
    }
  }

  ghost predicate NoNull(entries: map<Outpoint, Utxo>) {
    Outpoint(ZERO_HASH, NULL_INDEX) !in entries
  }

  lemma {:induction false} ReleaseExactly(us: UtxoSet, committed: UtxoSet, tx: Tx, height: nat, n: nat)
    requires n <= |tx.inputs| && AddrIndexed(us) && SameScripts(us, committed) && NoNull(committed.entries)
    ensures var r := ReleaseInputs(us, committed, tx, height, n);
            && AddrIndexed(r) && SameScripts(r, committed)
            && (forall op :: op in r.entries <==>
                  op in us.entries || (op in tx.inputs[..n] && SpentHere(committed, tx, height, op)))
            && (forall op :: op in r.entries ==>
                  r.entries[op] == if op in tx.inputs[..n] && SpentHere(committed, tx, height, op)
                                   then committed.entries[op].Reset() else us.entries[op])
  {
    hide AddrIndexed, Listed;
    if n > 0 {
      ReleaseExactly(us, committed, tx, height, n - 1);
      var rest := ReleaseInputs(us, committed, tx, height, n - 1);
      var op := tx.inputs[n - 1];
      assert tx.inputs[..n] == tx.inputs[..n - 1] + [op];
      if SpentHere(committed, tx, height, op) { ReleaseOne(rest, committed, op); }
    }
  }

  // ---------- a whole block ----------

  /** The output is spent by the transaction of these that the committed store names. */
  ghost predicate ReleasedIn(committed: UtxoSet, txs: seq<Tx>, height: nat, op: Outpoint) {
    txs != [] && (ReleasedIn(committed, txs[..|txs| - 1], height, op)
                  || (op in txs[|txs| - 1].inputs && SpentHere(committed, txs[|txs| - 1], height, op)))
  }

  /** What releasing these transactions leaves. */
  ghost predicate Released(committed: UtxoSet, r: UtxoSet, txs: seq<Tx>, height: nat) {
    && AddrIndexed(r) && SameScripts(r, committed)
    && (forall op :: op in r.entries <==>
          op in committed.entries && (!CreatedIn(txs, op) || ReleasedIn(committed, txs, height, op)))
    && (forall op :: op in r.entries ==>
          r.entries[op] == if ReleasedIn(committed, txs, height, op) then committed.entries[op].Reset()
                           else committed.entries[op])
  }

  /** No output is released before the transaction that creates it is reached. */
  ghost predicate NoneReleasedEarly(committed: UtxoSet, txs: seq<Tx>, height: nat) {
    txs != [] ==>
      && NoneReleasedEarly(committed, txs[..|txs| - 1], height)
      && forall op :: Creates(txs[|txs| - 1], op) ==> !ReleasedIn(committed, txs, height, op)
  }

  lemma {:induction false} ReleaseBlockExactly(committed: UtxoSet, txs: seq<Tx>, height: nat)
    requires AddrIndexed(committed) && NoNull(committed.entries) && NoneReleasedEarly(committed, txs, height)
    ensures Released(committed, ReleaseBlock(committed, committed, txs, height), txs, height)
  {
    hide AddrIndexed, SpentHere, DropOutputs, ReleaseInputs;
    if txs != [] {
      var n := |txs| - 1;
      var init, tx := txs[..n], txs[n];
      ReleaseBlockExactly(committed, init, height);
      var before := ReleaseBlock(committed, committed, init, height);
      DropExactly(before, committed, tx, |tx.outputs|);
      ReleaseExactly(DropOutputs(before, committed, tx, |tx.outputs|), committed, tx, height, |tx.inputs|);
      assert tx.inputs[..|tx.inputs|] == tx.inputs;
    }
  }

  // ---------- the block connected last ----------

  /** A transaction of these has this id and spends the output. */
  predicate SpentByIn(txs: seq<Tx>, op: Outpoint, id: Hash) {
    txs != [] && ((op in txs[|txs| - 1].Spends() && txs[|txs| - 1].id == id) || SpentByIn(txs[..|txs| - 1], op, id))
  }

  /** The recorded spender of an output the block spends is one of its transactions, and does spend it. */
  lemma {:induction false} SpenderSpends(committed: Store, us: UtxoSet, txs: seq<Tx>, height: nat, op: Outpoint)
    requires AddrIndexed(us) && height > 0 && NewIds(us.entries, txs) && SpentIn(txs, op)
    requires ApplyTxs(committed, StartWork(us), txs, height).Ok?
    ensures var after := ApplyTxs(committed, StartWork(us), txs, height).value.utxos.entries;
            op in after && SpentByIn(txs, op, after[op].spendingTx)
  {
    hide AddrIndexed, SpendInputs, CreateOutputs, BlockApplied;
    var n := |txs| - 1;
    var init, tx := txs[..n], txs[n];
    NewIdsPrefix(us.entries, txs);
    ApplyTxsExactly(committed, us, init, height);
    var mid := ApplyTxs(committed, StartWork(us), init, height).value;
    IdsStayNew(us.entries, mid.utxos.entries, txs, height);
    ApplyTxExactly(committed, mid, tx, height);
    if op !in tx.Spends() { SpenderSpends(committed, us, init, height, op); }
  }

  lemma {:induction false} SpentByIsReleased(committed: UtxoSet, txs: seq<Tx>, height: nat, op: Outpoint)
    requires op in committed.entries && committed.entries[op].IsSpent() && committed.entries[op].spendingHeight == height
    requires SpentByIn(txs, op, committed.entries[op].spendingTx)
    ensures ReleasedIn(committed, txs, height, op)
  {
    var tx := txs[|txs| - 1];
    if !(op in tx.Spends() && tx.id == committed.entries[op].spendingTx) {
      SpentByIsReleased(committed, txs[..|txs| - 1], height, op);
    }
  }

  lemma {:induction false} ReleasedIsSpent(committed: UtxoSet, txs: seq<Tx>, height: nat, op: Outpoint)
    requires ReleasedIn(committed, txs, height, op) && NoNull(committed.entries)
    ensures SpentIn(txs, op) && op in committed.entries
  {
    if ReleasedIn(committed, txs[..|txs| - 1], height, op) { ReleasedIsSpent(committed, txs[..|txs| - 1], height, op); }
  }

  lemma NotSpentBeforeCreated(entries: map<Outpoint, Utxo>, txs: seq<Tx>, op: Outpoint)
    requires txs != [] && InputsAvailable(entries, txs) && NewIds(entries, txs) && Creates(txs[|txs| - 1], op)
    ensures !SpentIn(txs, op)
  {
    var init, tx := txs[..|txs| - 1], txs[|txs| - 1];
    NewIdsPrefix(entries, txs);
    assert HasId(txs, tx.id);
    if CreatedIn(init, op) { CreatedInHasId(init, op); }
    if SpentIn(init, op) { SpentWasAvailable(entries, init, op); }
  }

  lemma {:induction false} NoneEarly(entries: map<Outpoint, Utxo>, committed: UtxoSet, txs: seq<Tx>, height: nat)
    requires InputsAvailable(entries, txs) && NewIds(entries, txs) && NoNull(committed.entries)
    ensures NoneReleasedEarly(committed, txs, height)
  {
    if txs != [] {
      NewIdsPrefix(entries, txs);
      NoneEarly(entries, committed, txs[..|txs| - 1], height);
      forall op | Creates(txs[|txs| - 1], op) ensures !ReleasedIn(committed, txs, height, op) {
        NotSpentBeforeCreated(entries, txs, op);
        if ReleasedIn(committed, txs, height, op) { ReleasedIsSpent(committed, txs, height, op); }
      }
    }
  }

  lemma NoNullSpent(c: Store)
    requires LedgerOk(c) && ZERO_HASH !in c.txs
    ensures NoNull(c.utxos.entries)
  {
    forall op | op in c.utxos.entries ensures op.txid in c.txs {
      assert UtxoOk(c, op, c.utxos.entries[op]);
    }
  }

  /** What a connected block releases is what it spends. */
  lemma ReleasedIsSpentExactly(st: Store, best: nat, cache: map<nat, int>, b: Block, height: nat, op: Outpoint)
    requires LedgerOk(st) && NewBlock(st, b, height) && height > 0
    requires ConnectBlock(st, st, best, cache, b, height).Ok?
    requires NoNull(ConnectBlock(st, st, best, cache, b, height).value.view.utxos.entries)
    ensures ReleasedIn(ConnectBlock(st, st, best, cache, b, height).value.view.utxos, b.txs, height, op) <==>
          SpentIn(b.txs, op)
  {
    var c := ConnectBlock(st, st, best, cache, b, height).value.view;
    ConnectExactly(st, st, best, cache, b, height);
    NewBlockNewIds(st, b, height);
    if SpentIn(b.txs, op) {
      SpenderSpends(st, st.utxos, b.txs, height, op);
      SpentByIsReleased(c.utxos, b.txs, height, op);
    }
    if ReleasedIn(c.utxos, b.txs, height, op) { ReleasedIsSpent(c.utxos, b.txs, height, op); }
  }

  lemma CleanupReadsBlock(st: Store, c: Store, b: Block, height: nat)
    requires NewBlock(st, b, height) && Extended(st, c, b, height)
    ensures DeleteOrphanedBlock(c, b.hash, height).utxos == ReleaseBlock(c.utxos, c.utxos, b.txs, height)
  {
    hide ReleaseBlock, HistoryAt;
    PlacedNow(st, c, b, height);
    ReadBack(c, b, height);
  }

  /** The block creates this output and spends it. */
  predicate OwnSpend(txs: seq<Tx>, op: Outpoint) {
    CreatedIn(txs, op) && SpentIn(txs, op)
  }

  /** What the clean-up leaves at one output: the old entry, and besides those only what the block both
      created and spent, as unspent. */
  lemma ReleasedEntry(st: Store, c: Store, r: UtxoSet, b: Block, height: nat, op: Outpoint)
    requires LedgerOk(st) && BlockApplied(st.utxos.entries, c.utxos.entries, b.txs, height) && height > 0
    requires SpendsUnspent(st.utxos.entries, b.txs)
    requires Released(c.utxos, r, b.txs, height)
    requires ReleasedIn(c.utxos, b.txs, height, op) <==> SpentIn(b.txs, op)
    ensures op in r.entries <==> op in st.utxos.entries || OwnSpend(b.txs, op)
    ensures op in st.utxos.entries ==> r.entries[op] == st.utxos.entries[op]
  {
    hide ReleasedIn, CreatedIn, SpentIn, AddrIndexed, SameScripts;
    if op in st.utxos.entries { assert UtxoOk(st, op, st.utxos.entries[op]); }
  }

  /** The clean-up of a connected block restores exactly the outputs from before it, and besides them
      writes back, as unspent, every output the block both created and spent. */
  lemma CleanupLeavesExactly(st: Store, best: nat, cache: map<nat, int>, b: Block, height: nat)
    requires LedgerOk(st) && NewBlock(st, b, height) && height > 0
    requires ConnectBlock(st, st, best, cache, b, height).Ok?
    requires ZERO_HASH !in ConnectBlock(st, st, best, cache, b, height).value.view.txs
    ensures var c := ConnectBlock(st, st, best, cache, b, height).value.view;
            var r := DeleteOrphanedBlock(c, b.hash, height).utxos;
            && AddrIndexed(r)
            && (forall op :: op in r.entries <==> op in st.utxos.entries || OwnSpend(b.txs, op))
            && (forall op :: op in st.utxos.entries ==> r.entries[op] == st.utxos.entries[op])
  {
    hide ConnectBlock, DeleteOrphanedBlock, Released, LedgerOk, BlockApplied, InputsAvailable, NoneReleasedEarly;
    var c := ConnectBlock(st, st, best, cache, b, height).value.view;
    ConnectExactly(st, st, best, cache, b, height);
    ConnectKeepsLedger(st, st, best, cache, b, height);
    ConnectSpendsUnspent(st, best, cache, b, height);
    ConnectsExactlyWhen(st, best, cache, b, height);
    NoNullSpent(c);
    NewBlockNewIds(st, b, height);
    NoneEarly(st.utxos.entries, c.utxos, b.txs, height);
    ReleaseBlockExactly(c.utxos, b.txs, height);
    CleanupReadsBlock(st, c, b, height);
    var r := DeleteOrphanedBlock(c, b.hash, height).utxos;
    assert AddrIndexed(r) by { ReleasedIndexed(c.utxos, r, b.txs, height); }
    forall op
      ensures op in r.entries <==> op in st.utxos.entries || OwnSpend(b.txs, op)
      ensures op in st.utxos.entries ==> r.entries[op] == st.utxos.entries[op]
    {
      ReleasedIsSpentExactly(st, best, cache, b, height, op);
      ReleasedEntry(st, c, r, b, height, op);
    }
  }

  lemma ReleasedIndexed(committed: UtxoSet, r: UtxoSet, txs: seq<Tx>, height: nat)
    requires Released(committed, r, txs, height)
    ensures AddrIndexed(r)
  {
  }

  lemma SameExactlyWhen(before: UtxoSet, r: UtxoSet, txs: seq<Tx>)
    requires AddrIndexed(before) && AddrIndexed(r)
    requires forall op :: op in before.entries ==> !OwnSpend(txs, op)
    requires forall op :: op in r.entries <==> op in before.entries || OwnSpend(txs, op)
    requires forall op :: op in before.entries ==> r.entries[op] == before.entries[op]
    ensures r == before <==> forall op :: !OwnSpend(txs, op)
  {
    hide AddrIndexed, OwnSpend;
    if forall op :: !OwnSpend(txs, op) {
      assert r.entries == before.entries;
      AddrIndexUnique(r, before);
    }
  }

  lemma OwnSpendsAreNew(st: Store, best: nat, cache: map<nat, int>, b: Block, height: nat)
    requires LedgerOk(st) && NewBlock(st, b, height) && height > 0
    requires ConnectBlock(st, st, best, cache, b, height).Ok?
    ensures AddrIndexed(st.utxos) && forall op :: op in st.utxos.entries ==> !OwnSpend(b.txs, op)
  {
    hide ConnectBlock;
    ConnectExactly(st, st, best, cache, b, height);
  }

  /** So it matches a disconnect exactly when the block spends none of its own outputs. */
  lemma CleanupMatchesDisconnect(st: Store, best: nat, cache: map<nat, int>, b: Block, height: nat)
    requires LedgerOk(st) && NewBlock(st, b, height) && height > 0
    requires ConnectBlock(st, st, best, cache, b, height).Ok?
    requires ZERO_HASH !in ConnectBlock(st, st, best, cache, b, height).value.view.txs
    ensures var c := ConnectBlock(st, st, best, cache, b, height).value.view;
            && DisconnectStore(c, b, height).Ok?
            && (DeleteOrphanedBlock(c, b.hash, height).utxos == DisconnectStore(c, b, height).value.utxos
                <==> forall op :: !OwnSpend(b.txs, op))
  {
    hide *;
    var c := ConnectBlock(st, st, best, cache, b, height).value.view;
    DisconnectUndoesConnect(st, best, cache, b, height);
    CleanupLeavesExactly(st, best, cache, b, height);
    OwnSpendsAreNew(st, best, cache, b, height);
    SameExactlyWhen(st.utxos, DeleteOrphanedBlock(c, b.hash, height).utxos, b.txs);
  }
}
