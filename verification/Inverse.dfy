/** The ledger invariant, its preservation, and disconnecting as the inverse of connecting. */
module Inverse {
  import opened Types
  import opened Storage
  import opened Ledger
  import opened UtxoFacts
  import opened BlockFacts
  import opened HistoryFacts

  // ---------- the invariant ----------

  /** A stored output is the one its transaction created, and its spending reference is either clear
      or names a stored transaction in the block at the spending height. */
  ghost predicate UtxoOk(st: Store, op: Outpoint, u: Utxo) {
    && PrevOutput(st, op) == Some(u.Output())
    && (!u.IsSpent() ==> u.spendingTx == ZERO_HASH)
    && (u.IsSpent() ==> !Orphaned(st, u))
  }

  ghost predicate LedgerOk(st: Store) {
    && AddrIndexed(st.utxos)
    && (forall op :: op in st.utxos.entries ==> UtxoOk(st, op, st.utxos.entries[op]))
    && (forall id :: id in st.txs ==> st.txs[id].tx.id == id)
    && (forall k :: k in st.history ==> k.txid in st.txs)
  }

  /** The block and its transactions have never been stored, and its height is free. */
  ghost predicate NewBlock(st: Store, b: Block, height: nat) {
    && b.hash !in st.blocks
    && b.hash !in st.hashToHeight
    && height !in st.heightToHash
    && DistinctIds(b.txs)
    && (forall id :: HasId(b.txs, id) ==> id !in st.txs)
  }

  lemma NewBlockNewIds(st: Store, b: Block, height: nat)
    requires LedgerOk(st) && NewBlock(st, b, height)
    ensures NewIds(st.utxos.entries, b.txs)
  {
    forall op | op in st.utxos.entries
      ensures !HasId(b.txs, op.txid)
      ensures st.utxos.entries[op].IsSpent() ==> !HasId(b.txs, st.utxos.entries[op].spendingTx)
    {
      assert UtxoOk(st, op, st.utxos.entries[op]);
    }
  }

  // ---------- the transaction index after a block ----------

  lemma HasIdSnoc(txs: seq<Tx>, n: nat)
    requires 0 < n <= |txs|
    ensures forall id :: HasId(txs[..n], id) <==> HasId(txs[..n - 1], id) || id == txs[n - 1].id
  {
    forall id ensures HasId(txs[..n], id) <==> HasId(txs[..n - 1], id) || id == txs[n - 1].id {
      if HasId(txs[..n], id) {
        var i :| 0 <= i < n && txs[..n][i].id == id;
        if i < n - 1 { assert txs[..n - 1][i].id == id; }
      }
      if HasId(txs[..n - 1], id) {
        var i :| 0 <= i < n - 1 && txs[..n - 1][i].id == id;
        assert txs[..n][i].id == id;
      }
      assert txs[..n][n - 1].id == txs[n - 1].id;
    }
  }

  lemma {:induction false} StoreTxsExactly(txs: map<Hash, TxRec>, b: Block, height: nat, n: nat)
    requires n <= |b.txs| && DistinctIds(b.txs)
    ensures var r := StoreTxs(txs, b, height, n);
            && (forall id :: id in r <==> id in txs || HasId(b.txs[..n], id))
            && (forall id :: id in txs && !HasId(b.txs[..n], id) ==> r[id] == txs[id])
            && (forall i :: 0 <= i < n ==> b.txs[i].id in r && r[b.txs[i].id] == TxRec(b.hash, height, i, b.txs[i]))
  {
    if n > 0 {
      StoreTxsExactly(txs, b, height, n - 1);
      HasIdSnoc(b.txs, n);
      hide HasId;
    }
  }

  lemma {:induction false} CreatedUtxoMatches(txs: seq<Tx>, height: nat, op: Outpoint)
    requires CreatedIn(txs, op)
    ensures exists i :: 0 <= i < |txs| && Creates(txs[i], op)
    ensures !CreatedUtxo(txs, height, op).IsSpent() && CreatedUtxo(txs, height, op).spendingTx == ZERO_HASH
    ensures exists i :: 0 <= i < |txs| && Creates(txs[i], op)
                     && CreatedUtxo(txs, height, op).Output() == txs[i].outputs[op.index]
  {
    var n := |txs| - 1;
    if Creates(txs[n], op) {
      assert CreatedUtxo(txs, height, op).Output() == txs[n].outputs[op.index];
    } else {
      CreatedUtxoMatches(txs[..n], height, op);
      var i :| 0 <= i < n && Creates(txs[..n][i], op)
            && CreatedUtxo(txs[..n], height, op).Output() == txs[..n][i].outputs[op.index];
      assert txs[..n][i] == txs[i];
    }
  }

  /** The connected store, as far as spending is concerned. */
  ghost predicate Extended(st: Store, c: Store, b: Block, height: nat) {
    && c.blocks == st.blocks[b.hash := Compact(height, b.prev, b.merkleRoot, TxIds(b.txs))]
    && c.heightToHash == st.heightToHash[height := b.hash]
    && c.hashToHeight == st.hashToHeight[b.hash := height]
    && c.txs == StoreTxs(st.txs, b, height, |b.txs|)
  }

  lemma ExtendedTxs(st: Store, c: Store, b: Block, height: nat)
    requires NewBlock(st, b, height) && Extended(st, c, b, height)
    ensures forall id :: id in c.txs <==> id in st.txs || HasId(b.txs, id)
    ensures forall id :: id in st.txs ==> id in c.txs && c.txs[id] == st.txs[id]
    ensures forall i :: 0 <= i < |b.txs| ==>
              b.txs[i].id in c.txs && c.txs[b.txs[i].id] == TxRec(b.hash, height, i, b.txs[i])
  {
    StoreTxsExactly(st.txs, b, height, |b.txs|);
    assert b.txs[..|b.txs|] == b.txs;
  }

  lemma OriginKnown(st: Store, c: Store, b: Block, height: nat, op: Outpoint)
    requires LedgerOk(st) && NewBlock(st, b, height) && Extended(st, c, b, height)
    requires op in st.utxos.entries || CreatedIn(b.txs, op)
    ensures var o := Origin(st.utxos.entries, b.txs, height, op);
            && PrevOutput(c, op) == Some(o.Output())
            && (!o.IsSpent() ==> o.spendingTx == ZERO_HASH)
            && (o.IsSpent() ==> !Orphaned(c, o))
  {
    ExtendedTxs(st, c, b, height);
    if op in st.utxos.entries {
      assert UtxoOk(st, op, st.utxos.entries[op]);
    } else {
      CreatedUtxoMatches(b.txs, height, op);
      var o := CreatedUtxo(b.txs, height, op);
      var i :| 0 <= i < |b.txs| && Creates(b.txs[i], op) && o.Output() == b.txs[i].outputs[op.index];
      assert c.txs[op.txid].tx == b.txs[i];
    }
  }

  lemma SpentHereIsLive(st: Store, c: Store, b: Block, height: nat, u: Utxo)
    requires NewBlock(st, b, height) && Extended(st, c, b, height)
    requires u.spendingHeight == height && HasId(b.txs, u.spendingTx)
    ensures !Orphaned(c, u)
  {
    ExtendedTxs(st, c, b, height);
    var i :| 0 <= i < |b.txs| && b.txs[i].id == u.spendingTx;
    assert c.txs[b.txs[i].id].blockHash == b.hash;
  }

  lemma ExtendedUtxoOk(st: Store, c: Store, b: Block, height: nat, op: Outpoint)
    requires LedgerOk(st) && NewBlock(st, b, height) && Extended(st, c, b, height)
    requires SpendsAllowed(b.txs, height)
    requires BlockApplied(st.utxos.entries, c.utxos.entries, b.txs, height)
    requires op in c.utxos.entries
    ensures UtxoOk(c, op, c.utxos.entries[op])
  {
    OriginKnown(st, c, b, height, op);
    if SpentIn(b.txs, op) {
      if height == 0 { NothingSpent(b.txs, op); }
      SpentHereIsLive(st, c, b, height, c.utxos.entries[op]);
    }
  }

  /** Outputs captured while spending agree with the transaction index of the connected store. */
  lemma CapturedAgree(st: Store, c: Store, b: Block, height: nat, captured: map<Outpoint, TxOut>)
    requires LedgerOk(st) && NewBlock(st, b, height) && Extended(st, c, b, height)
    requires SpendsAllowed(b.txs, height)
    requires BlockApplied(st.utxos.entries, c.utxos.entries, b.txs, height)
    requires CapturedAll(captured, c.utxos.entries, b.txs)
    ensures forall i :: 0 <= i < |b.txs| ==> CapturedMatches(c, b.txs[i].Spends(), captured)
  {
    forall i, op | 0 <= i < |b.txs| && op in b.txs[i].Spends()
      ensures op in captured && PrevOutput(c, op) == Some(captured[op])
    {
      SpentInAt(b.txs, i, op);
      ExtendedUtxoOk(st, c, b, height, op);
    }
  }

  lemma {:induction false} SpentInAt(txs: seq<Tx>, i: nat, op: Outpoint)
    requires i < |txs| && op in txs[i].Spends()
    ensures SpentIn(txs, op)
  {
    if i < |txs| - 1 {
      SpentInAt(txs[..|txs| - 1], i, op);
    }
  }

  // ---------- connecting a new block ----------

  /** Everything a successful connect of a new block establishes, whatever is committed underneath. */
  lemma ConnectExactly(committed: Store, st: Store, best: nat, cache: map<nat, int>, b: Block, height: nat)
    requires LedgerOk(st) && NewBlock(st, b, height) && SpendsAllowed(b.txs, height)
    requires ConnectBlock(committed, st, best, cache, b, height).Ok?
    ensures var a := ConnectBlock(committed, st, best, cache, b, height).value;
            && Extended(st, a.view, b, height)
            && BlockApplied(st.utxos.entries, a.view.utxos.entries, b.txs, height)
            && SpentWereFree(committed, st.utxos.entries, b.txs)
            && AddrIndexed(a.view.utxos)
            && CapturedAll(a.spent, a.view.utxos.entries, b.txs)
            && a.view.history == IndexTxs(committed, st.history, b.txs, height, b.hash, a.spent)
  {
    NewBlockNewIds(st, b, height);
    ApplyTxsExactly(committed, st.utxos, b.txs, height);
  }

  /** Everything the block spends is unspent. */
  ghost predicate SpendsUnspent(before: map<Outpoint, Utxo>, txs: seq<Tx>) {
    forall op :: op in before && SpentIn(txs, op) ==> !before[op].IsSpent()
  }

  /** The committed store lets its own marks stand, so on top of it only unspent outputs are spent. */
  lemma LiveMarksStand(committed: Store, before: map<Outpoint, Utxo>, txs: seq<Tx>)
    requires SpentWereFree(committed, before, txs)
    requires forall op :: op in before && before[op].IsSpent() ==> !Orphaned(committed, before[op])
    ensures SpendsUnspent(before, txs)
  {
  }

  lemma StoredSpendsAreLive(st: Store)
    requires LedgerOk(st)
    ensures forall op :: op in st.utxos.entries && st.utxos.entries[op].IsSpent() ==> !Orphaned(st, st.utxos.entries[op])
  {
    forall op | op in st.utxos.entries && st.utxos.entries[op].IsSpent() ensures !Orphaned(st, st.utxos.entries[op]) {
      assert UtxoOk(st, op, st.utxos.entries[op]);
    }
  }

  lemma ConnectSpendsUnspent(st: Store, best: nat, cache: map<nat, int>, b: Block, height: nat)
    requires LedgerOk(st) && NewBlock(st, b, height) && SpendsAllowed(b.txs, height)
    requires ConnectBlock(st, st, best, cache, b, height).Ok?
    ensures SpendsUnspent(st.utxos.entries, b.txs)
  {
    hide ConnectBlock, LedgerOk, BlockApplied, CapturedAll;
    ConnectExactly(st, st, best, cache, b, height);
    StoredSpendsAreLive(st);
    LiveMarksStand(st, st.utxos.entries, b.txs);
  }

  /** Connecting a new block keeps the ledger invariant. */
  lemma ConnectKeepsLedger(committed: Store, st: Store, best: nat, cache: map<nat, int>, b: Block, height: nat)
    requires LedgerOk(st) && NewBlock(st, b, height) && SpendsAllowed(b.txs, height)
    requires ConnectBlock(committed, st, best, cache, b, height).Ok?
    ensures LedgerOk(ConnectBlock(committed, st, best, cache, b, height).value.view)
  {
    ConnectExactly(committed, st, best, cache, b, height);
    var a := ConnectBlock(committed, st, best, cache, b, height).value;
    var c := a.view;
    ExtendedTxs(st, c, b, height);
    forall op | op in c.utxos.entries ensures UtxoOk(c, op, c.utxos.entries[op]) {
      ExtendedUtxoOk(st, c, b, height, op);
    }
    forall id | id in c.txs ensures c.txs[id].tx.id == id {
      if id !in st.txs {
        var i :| 0 <= i < |b.txs| && b.txs[i].id == id;
        assert c.txs[b.txs[i].id].tx == b.txs[i];
      }
    }
    CapturedAgree(st, c, b, height, a.spent);
    IndexTxsExactly(committed, c, st.history, b.txs, height, b.hash, a.spent);
    forall k | k in c.history ensures k.txid in c.txs {
      if k !in st.history { InTxKeysHasId(c, b.txs, height, k); }
    }
  }

  // ---------- undoing the unspent outputs ----------

  /** `faded` is `entries` with some of its spending marks cleared. */
  ghost predicate Faded(faded: map<Outpoint, Utxo>, entries: map<Outpoint, Utxo>) {
    && faded.Keys == entries.Keys
    && (forall op :: op in faded ==> faded[op] == entries[op] || faded[op] == entries[op].Reset())
  }

  lemma UndoTxKeys(before: map<Outpoint, Utxo>, after: map<Outpoint, Utxo>, us: UtxoSet, tx: Tx, height: nat)
    requires AddrIndexed(us) && TxApplied(before, after, tx, height) && Faded(us.entries, after)
    ensures var mid := RemoveOutputs(us, tx, |tx.outputs|);
            && AddrIndexed(mid) && mid.entries.Keys == before.Keys
            && (forall op :: op in mid.entries ==> mid.entries[op] == us.entries[op])
  {
    forall i | 0 <= i < |tx.outputs| && Outpoint(tx.id, i) in us.entries
      ensures us.entries[Outpoint(tx.id, i)].script == tx.outputs[i].script
    {
      var op := Outpoint(tx.id, i);
      assert Creates(tx, op);
      assert after[op] == NewUtxo(tx, height, i);
      assert us.entries[op] == after[op] || us.entries[op] == after[op].Reset();
    }
    RemoveOutputsExactly(us, tx, |tx.outputs|);
    forall op ensures op in RemoveOutputs(us, tx, |tx.outputs|).entries <==> op in before {
    }
  }

  /** Undoing the last transaction clears the marks of its inputs, whether or not they were still set. */
  lemma UndoTxStep(before: map<Outpoint, Utxo>, after: map<Outpoint, Utxo>, us: UtxoSet, tx: Tx, height: nat)
    requires height > 0 && AddrIndexed(us)
    requires TxApplied(before, after, tx, height) && Faded(us.entries, after)
    ensures var r := UndoTx(us, tx);
            && r.Ok? && AddrIndexed(r.value) && Faded(r.value.entries, before)
            && (forall op :: op in before ==>
                  r.value.entries[op] == if op in tx.Spends() then us.entries[op].Reset() else us.entries[op])
  {
    UndoTxKeys(before, after, us, tx, height);
    hide AddrIndexed;
    var mid := RemoveOutputs(us, tx, |tx.outputs|);
    UnspendInputsExactly(mid, tx.Spends());
    var r := UndoTx(us, tx).value;
    forall op | op in before
      ensures r.entries[op] == if op in tx.Spends() then us.entries[op].Reset() else us.entries[op]
      ensures r.entries[op] == before[op] || r.entries[op] == before[op].Reset()
    {
      assert us.entries[op] == after[op] || us.entries[op] == after[op].Reset();
      if op in tx.Spends() { assert after[op] == SpentBy(before[op], height, tx.id); }
    }
  }

  /** What undoing these transactions leaves: the outputs from before them, with the marks cleared of
      whatever they spent. */
  ghost predicate Cleared(before: map<Outpoint, Utxo>, us: map<Outpoint, Utxo>, r: map<Outpoint, Utxo>, txs: seq<Tx>) {
    && r.Keys == before.Keys
    && (forall op :: op in r ==> op in us && r[op] == if SpentIn(txs, op) then us[op].Reset() else us[op])
  }

  lemma ClearedSnoc(before: map<Outpoint, Utxo>, mid: map<Outpoint, Utxo>, us: map<Outpoint, Utxo>,
                    u1: map<Outpoint, Utxo>, r: map<Outpoint, Utxo>, txs: seq<Tx>)
    requires txs != [] && Cleared(before, u1, r, txs[..|txs| - 1])
    requires forall op :: op in before ==> op in mid
    requires forall op :: op in mid ==> op in us && op in u1
    requires forall op :: op in mid ==>
               u1[op] == if op in txs[|txs| - 1].Spends() then us[op].Reset() else us[op]
    ensures Cleared(before, us, r, txs)
  {
  }

  /** Undoing a block's transactions, last first, on outputs some of whose marks may already be cleared:
      it always succeeds, takes back what the block created, and clears exactly the marks of its inputs. */
  lemma {:induction false} UndoTxsExactly(committed: Store, base: UtxoSet, us: UtxoSet, txs: seq<Tx>, height: nat)
    requires AddrIndexed(base) && height > 0 && NewIds(base.entries, txs) && AddrIndexed(us)
    requires ApplyTxs(committed, StartWork(base), txs, height).Ok?
    requires Faded(us.entries, ApplyTxs(committed, StartWork(base), txs, height).value.utxos.entries)
    ensures var r := UndoTxs(us, txs);
            && r.Ok? && AddrIndexed(r.value)
            && Faded(r.value.entries, base.entries)
            && Cleared(base.entries, us.entries, r.value.entries, txs)
    decreases |txs|
  {
    if txs != [] {
      hide AddrIndexed, NewIds, SpendInputs, CreateOutputs;
      var n := |txs| - 1;
      var init, tx := txs[..n], txs[n];
      NewIdsPrefix(base.entries, txs);
      ApplyTxsExactly(committed, base, init, height);
      var w := ApplyTxs(committed, StartWork(base), init, height).value;
      IdsStayNew(base.entries, w.utxos.entries, txs, height);
      ApplyTxExactly(committed, w, tx, height);
      var after := ApplyTx(committed, w, tx, height).value.utxos.entries;
      UndoTxStep(w.utxos.entries, after, us, tx, height);
      var u1 := UndoTx(us, tx).value;
      UndoTxsExactly(committed, base, u1, init, height);
      ClearedSnoc(base.entries, w.utxos.entries, us.entries, u1.entries, UndoTxs(us, txs).value.entries, txs);
    }
  }

  lemma ClearedUnspent(st: Store, after: map<Outpoint, Utxo>, r: map<Outpoint, Utxo>, txs: seq<Tx>, height: nat)
    requires LedgerOk(st) && BlockApplied(st.utxos.entries, after, txs, height)
    requires SpendsUnspent(st.utxos.entries, txs) && Cleared(st.utxos.entries, after, r, txs)
    ensures r == st.utxos.entries
  {
    hide AddrIndexed, CreatedIn, SpentIn;
    forall op | op in st.utxos.entries ensures r[op] == st.utxos.entries[op] {
      assert UtxoOk(st, op, st.utxos.entries[op]);
      if SpentIn(txs, op) { assert after[op].Reset() == st.utxos.entries[op].Reset(); }
    }
  }

  /** Undoing the block just applied gives back the outputs before it. */
  lemma UndoTxsRestores(st: Store, txs: seq<Tx>, height: nat)
    requires LedgerOk(st) && height > 0 && NewIds(st.utxos.entries, txs)
    requires ApplyTxs(st, StartWork(st.utxos), txs, height).Ok?
    ensures UndoTxs(ApplyTxs(st, StartWork(st.utxos), txs, height).value.utxos, txs) == Ok(st.utxos)
  {
    hide ApplyTxs, UndoTxs, AddrIndexed, BlockApplied, SpentWereFree, CapturedAll, NewIds, Cleared;
    var us := ApplyTxs(st, StartWork(st.utxos), txs, height).value.utxos;
    ApplyTxsExactly(st, st.utxos, txs, height);
    StoredSpendsAreLive(st);
    LiveMarksStand(st, st.utxos.entries, txs);
    hide LedgerOk;
    UndoTxsExactly(st, st.utxos, us, txs, height);
    var r := UndoTxs(us, txs).value;
    ClearedUnspent(st, us.entries, r.entries, txs, height);
    AddrIndexUnique(r, st.utxos);
  }

  // ---------- the main inverse ----------

  /** Deleting the block's transactions gives back the transaction index and the address history. */
  lemma TransactionsDeleted(committed: Store, st: Store, c: Store, b: Block, height: nat, captured: map<Outpoint, TxOut>)
    requires LedgerOk(st) && NewBlock(st, b, height) && Extended(st, c, b, height)
    requires SpendsAllowed(b.txs, height)
    requires BlockApplied(st.utxos.entries, c.utxos.entries, b.txs, height)
    requires CapturedAll(captured, c.utxos.entries, b.txs)
    requires c.history == IndexTxs(committed, st.history, b.txs, height, b.hash, captured)
    ensures DeleteTransactions(c, c, b.txs, height) == c.(txs := st.txs, history := st.history)
  {
    hide AddrIndexed, BlockApplied, CapturedAll, StoreTxs, DistinctIds;
    ExtendedTxs(st, c, b, height);
    CapturedAgree(st, c, b, height, captured);
    IndexTxsExactly(committed, c, st.history, b.txs, height, b.hash, captured);
    DeleteTransactionsExactly(c, c, b.txs, height);
    var d := DeleteTransactions(c, c, b.txs, height);
    assert d.txs == st.txs;
    KeysDeleted(st, c, d, b, height);
  }

  lemma KeysDeleted(st: Store, c: Store, d: Store, b: Block, height: nat)
    requires LedgerOk(st) && forall id :: HasId(b.txs, id) ==> id !in st.txs
    requires forall k :: k in c.history <==> k in st.history || InTxKeys(c, b.txs, height, k)
    requires forall k :: k in st.history && !HasId(b.txs, k.txid) ==> c.history[k] == st.history[k]
    requires forall k :: k in d.history <==> k in c.history && !InTxKeys(c, b.txs, height, k)
    requires forall k :: k in d.history ==> d.history[k] == c.history[k]
    ensures d.history == st.history
  {
    hide InTxKeys, HasId;
    forall k ensures k in d.history <==> k in st.history {
      if InTxKeys(c, b.txs, height, k) { InTxKeysHasId(c, b.txs, height, k); }
    }
  }

  lemma IndexesDeleted(st: Store, c: Store, b: Block, height: nat)
    requires NewBlock(st, b, height) && Extended(st, c, b, height)
    ensures c.blocks - {b.hash} == st.blocks
    ensures c.hashToHeight - {b.hash} == st.hashToHeight
    ensures c.heightToHash - {height} == st.heightToHash
  {
  }

  // ---------- disconnecting does not look at tip, supply or other outputs ----------

  lemma TxKeysSameTxs(a: Store, b: Store, inputs: seq<Outpoint>, txid: Hash, height: nat)
    requires a.txs == b.txs
    ensures InputKeys(a, inputs, txid, height) == InputKeys(b, inputs, txid, height)
  {
    forall i | 0 <= i < |inputs|
      ensures InputKeyOf(a, inputs, txid, height, i) == InputKeyOf(b, inputs, txid, height, i)
    {
    }
  }

  /** `a` with another tip, other recorded supplies and other unspent outputs. */
  function Recored(a: Store, b: Store): Store {
    a.(utxos := b.utxos, tip := b.tip, supply := b.supply)
  }

  lemma {:induction false} DeleteTransactionsRecored(committed: Store, st: Store, txs: seq<Tx>, height: nat, b: Store)
    ensures DeleteTransactions(Recored(committed, b), Recored(st, b), txs, height)
            == Recored(DeleteTransactions(committed, st, txs, height), b)
    decreases |txs|
  {
    if txs != [] {
      var n := |txs| - 1;
      var tx := txs[n];
      if tx.id in committed.txs {
        TxKeysSameTxs(Recored(committed, b), committed, committed.txs[tx.id].tx.Spends(), tx.id, height);
      }
      var mid := DeleteTransaction(committed, st, tx.id, height);
      assert DeleteTransaction(Recored(committed, b), Recored(st, b), tx.id, height) == Recored(mid, b);
      DeleteTransactionsRecored(committed, mid, txs[..n], height, b);
    }
  }

  /** `d` is the store `st` from before the block, with the tip on the parent, the supplies and spending
      marks of `db`, and the marks of what the block spent cleared. */
  ghost predicate Undone(d: Store, db: Store, st: Store, b: Block, height: nat)
    requires height > 0
  {
    && d == st.(utxos := d.utxos, tip := Some(Tip(height - 1, b.prev)), supply := db.supply)
    && AddrIndexed(d.utxos) && Faded(d.utxos.entries, st.utxos.entries)
    && Cleared(st.utxos.entries, db.utxos.entries, d.utxos.entries, b.txs)
  }

  lemma DisconnectAssembled(st: Store, c: Store, db: Store, b: Block, height: nat, us: UtxoSet)
    requires NewBlock(st, b, height) && Extended(st, c, b, height) && height > 0
    requires db == Recored(c, db) && UndoTxs(db.utxos, b.txs) == Ok(us)
    requires DeleteTransactions(c, c, b.txs, height) == c.(txs := st.txs, history := st.history)
    ensures DisconnectStore(db, b, height)
            == Ok(st.(utxos := us, tip := Some(Tip(height - 1, b.prev)), supply := db.supply))
  {
    IndexesDeleted(st, c, b, height);
    DeleteTransactionsRecored(c, c, b.txs, height, db);
  }

  /** Disconnecting the block at the top always succeeds, even where marks of the connected store have
      been cleared since: it gives back transaction index, address history, block data and both block
      indexes, and clears exactly the marks of what the block spent. */
  lemma DisconnectExactly(committed: Store, st: Store, best: nat, cache: map<nat, int>, b: Block, height: nat, db: Store)
    requires LedgerOk(st) && NewBlock(st, b, height) && height > 0
    requires ConnectBlock(committed, st, best, cache, b, height).Ok?
    requires var c := ConnectBlock(committed, st, best, cache, b, height).value.view;
             db == Recored(c, db) && AddrIndexed(db.utxos) && Faded(db.utxos.entries, c.utxos.entries)
    ensures DisconnectStore(db, b, height).Ok? && Undone(DisconnectStore(db, b, height).value, db, st, b, height)
  {
    hide LedgerOk, NewBlock, AddrIndexed, BlockApplied, Faded, Cleared, DisconnectStore;
    ConnectExactly(committed, st, best, cache, b, height);
    var a := ConnectBlock(committed, st, best, cache, b, height).value;
    NewBlockNewIds(st, b, height);
    LedgerIndexed(st);
    UndoTxsExactly(committed, st.utxos, db.utxos, b.txs, height);
    TransactionsDeleted(committed, st, a.view, b, height, a.spent);
    DisconnectAssembled(st, a.view, db, b, height, UndoTxs(db.utxos, b.txs).value);
  }

  lemma LedgerIndexed(st: Store)
    requires LedgerOk(st)
    ensures AddrIndexed(st.utxos)
  {
  }

  lemma FadesNothing(entries: map<Outpoint, Utxo>)
    ensures Faded(entries, entries)
  {
  }

  /** Disconnecting the block just connected gives back the whole store: outputs, address index,
      transaction index, address history, block data and both block indexes.  Only the money supply
      recorded at the block's height stays behind, and the tip now names the parent. */
  lemma DisconnectUndoesConnect(st: Store, best: nat, cache: map<nat, int>, b: Block, height: nat)
    requires LedgerOk(st) && NewBlock(st, b, height) && height > 0
    requires ConnectBlock(st, st, best, cache, b, height).Ok?
    ensures var c := ConnectBlock(st, st, best, cache, b, height).value.view;
            DisconnectStore(c, b, height) == Ok(st.(tip := Some(Tip(height - 1, b.prev)), supply := c.supply))
  {
    ConnectExactly(st, st, best, cache, b, height);
    var c := ConnectBlock(st, st, best, cache, b, height).value.view;
    FadesNothing(c.utxos.entries);
    DisconnectExactly(st, st, best, cache, b, height, c);
    hide DisconnectStore;
    assert UndoTxs(c.utxos, b.txs) == Ok(st.utxos) by {
      NewBlockNewIds(st, b, height);
      UndoTxsRestores(st, b.txs, height);
    }
    assert DisconnectStore(c, b, height).value.utxos == st.utxos by { DisconnectedOutputs(c, b, height); }
  }

  lemma DisconnectedOutputs(db: Store, b: Block, height: nat)
    requires DisconnectStore(db, b, height).Ok?
    ensures UndoTxs(db.utxos, b.txs) == Ok(DisconnectStore(db, b, height).value.utxos)
  {
  }
}
