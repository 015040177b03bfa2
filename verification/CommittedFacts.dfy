/** When it does not matter which committed store a block is applied against. */
module CommittedFacts {
  import opened Types
  import opened Storage
  import opened Ledger
  import opened UtxoFacts
  import opened BlockFacts
  import opened HistoryFacts
  import opened Inverse

  /** Two committed stores judge the same spending references orphaned. */
  ghost predicate AgreeOn(a: Store, b: Store, entries: map<Outpoint, Utxo>, op: Outpoint) {
    op in entries && entries[op].IsSpent() ==> (Orphaned(a, entries[op]) <==> Orphaned(b, entries[op]))
  }

  lemma MarkSame(a: Store, b: Store, us: UtxoSet, op: Outpoint, height: nat, txid: Hash)
    requires AgreeOn(a, b, us.entries, op)
             || (op in us.entries && us.entries[op] == SpentBy(us.entries[op], height, txid))
    ensures MarkSpent(a, us, op, height, txid) == MarkSpent(b, us, op, height, txid)
  {
  }

  lemma {:induction false} SpendInputsSame(a: Store, b: Store, w: Work, inputs: seq<Outpoint>, height: nat, txid: Hash)
    requires AddrIndexed(w.utxos) && (height > 0 || inputs == [])
    requires forall op :: op in inputs ==> AgreeOn(a, b, w.utxos.entries, op)
    ensures SpendInputs(a, w, inputs, height, txid) == SpendInputs(b, w, inputs, height, txid)
  {
    hide AddrIndexed, MarkSpent, AllSpendable, Captured;
    if inputs != [] {
      var n := |inputs| - 1;
      var init, op := inputs[..n], inputs[n];
      assert op in inputs && forall o :: o in init ==> o in inputs;
      SpendInputsSame(a, b, w, init, height, txid);
      SpendInputsExactly(a, w, init, height, txid);
      var m := SpendInputs(a, w, init, height, txid);
      if m.Ok? {
        assert AgreeOn(a, b, w.utxos.entries, op);
        MarkSame(a, b, m.value.utxos, op, height, txid);
      }
    }
  }

  /** What the next transaction spends is judged alike: it is as stored, or spent in this block. */
  lemma AgreeInside(a: Store, b: Store, before: map<Outpoint, Utxo>, mid: map<Outpoint, Utxo>, txs: seq<Tx>, height: nat)
    requires txs != [] && BlockApplied(before, mid, txs[..|txs| - 1], height)
    requires height !in a.heightToHash && height !in b.heightToHash
    requires forall op :: SpentIn(txs, op) ==> AgreeOn(a, b, before, op)
    ensures forall op :: op in txs[|txs| - 1].Spends() ==> AgreeOn(a, b, mid, op)
  {
    var n := |txs| - 1;
    forall op | op in txs[n].Spends() ensures AgreeOn(a, b, mid, op) {
      assert SpentIn(txs, op);
      if op in mid && op !in before && !SpentIn(txs[..n], op) { CreatedUtxoMatches(txs[..n], height, op); }
    }
  }

  lemma {:induction false} ApplyTxsSame(a: Store, b: Store, us: UtxoSet, txs: seq<Tx>, height: nat)
    requires AddrIndexed(us) && SpendsAllowed(txs, height) && NewIds(us.entries, txs)
    requires height !in a.heightToHash && height !in b.heightToHash
    requires forall op :: SpentIn(txs, op) ==> AgreeOn(a, b, us.entries, op)
    ensures ApplyTxs(a, StartWork(us), txs, height) == ApplyTxs(b, StartWork(us), txs, height)
  {
    hide AddrIndexed, BlockApplied, NewIds, AgreeOn, SpendInputs, CreateOutputs;
    if txs != [] {
      var n := |txs| - 1;
      var init, tx := txs[..n], txs[n];
      NewIdsPrefix(us.entries, txs);
      ApplyTxsSame(a, b, us, init, height);
      ApplyTxsExactly(a, us, init, height);
      var m := ApplyTxs(a, StartWork(us), init, height);
      if m.Ok? {
        AgreeInside(a, b, us.entries, m.value.utxos.entries, txs, height);
        SpendInputsSame(a, b, m.value, tx.Spends(), height, tx.id);
      }
    }
  }

  lemma {:induction false} IndexTxsSame(a: Store, b: Store, history: map<HistKey, HistEntry>, txs: seq<Tx>, height: nat,
                                        blockHash: Hash, captured: map<Outpoint, TxOut>)
    requires forall op :: SpentIn(txs, op) ==> op in captured
    ensures IndexTxs(a, history, txs, height, blockHash, captured)
            == IndexTxs(b, history, txs, height, blockHash, captured)
  {
    if txs != [] {
      var n := |txs| - 1;
      var tx := txs[n];
      IndexTxsSame(a, b, history, txs[..n], height, blockHash, captured);
      CapturedOutputsInOrder(a, tx.Spends(), captured);
      CapturedOutputsInOrder(b, tx.Spends(), captured);
      assert SpentOutputs(a, tx.Spends(), captured) == SpentOutputs(b, tx.Spends(), captured);
    }
  }

  lemma ApplyBlockSame(a: Store, b: Store, view: Store, bestA: nat, bestB: nat, cacheA: map<nat, int>,
                       cacheB: map<nat, int>, block: Block, height: nat)
    requires ApplyTxs(a, StartWork(view.utxos), block.txs, height) ==
        ApplyTxs(b, StartWork(view.utxos), block.txs, height)
    requires PrevSupply(a, cacheA, height) == PrevSupply(b, cacheB, height)
    requires height > bestA <==> height > bestB
    ensures var r := ApplyBlock(a, view, bestA, cacheA, block, height);
            var q := ApplyBlock(b, view, bestB, cacheB, block, height);
            && (r.Ok? <==> q.Ok?)
            && (r.Err? ==> r.error == q.error)
            && (r.Ok? ==> r.value.view == q.value.view && r.value.spent == q.value.spent
                          && r.value.cache == cacheA[height := r.value.view.supply[height]])
  {
  }

  lemma CapturedCovers(a: Store, view: Store, best: nat, cache: map<nat, int>, block: Block, height: nat)
    requires AddrIndexed(view.utxos) && SpendsAllowed(block.txs, height) && NewIds(view.utxos.entries, block.txs)
    requires ApplyBlock(a, view, best, cache, block, height).Ok?
    ensures forall op :: SpentIn(block.txs, op) ==> op in ApplyBlock(a, view, best, cache, block, height).value.spent
  {
    ApplyTxsExactly(a, view.utxos, block.txs, height);
  }

  /** The same block on the same view gives the same view, when the committed stores agree on what it
      spends, name the same supply below it, and both see it rise above the tip. */
  lemma ConnectSame(a: Store, b: Store, view: Store, bestA: nat, bestB: nat, cacheA: map<nat, int>, cacheB: map<nat, int>,
                    block: Block, height: nat)
    requires AddrIndexed(view.utxos) && SpendsAllowed(block.txs, height) && NewIds(view.utxos.entries, block.txs)
    requires height !in a.heightToHash && height !in b.heightToHash
    requires forall op :: SpentIn(block.txs, op) ==> AgreeOn(a, b, view.utxos.entries, op)
    requires PrevSupply(a, cacheA, height) == PrevSupply(b, cacheB, height)
    requires height > bestA <==> height > bestB
    ensures var r := ConnectBlock(a, view, bestA, cacheA, block, height);
            var q := ConnectBlock(b, view, bestB, cacheB, block, height);
            && (r.Ok? <==> q.Ok?)
            && (r.Err? ==> r.error == q.error)
            && (r.Ok? ==> r.value.view == q.value.view && r.value.cache == cacheA[height := r.value.view.supply[height]])
  {
    ApplyTxsSame(a, b, view.utxos, block.txs, height);
    ApplyBlockSame(a, b, view, bestA, bestB, cacheA, cacheB, block, height);
    var m := ApplyBlock(a, view, bestA, cacheA, block, height);
    if m.Ok? {
      CapturedCovers(a, view, bestA, cacheA, block, height);
      IndexTxsSame(a, b, m.value.view.history, block.txs, height, block.hash, m.value.spent);
    }
  }

  // ---------- stores that differ only in tip and supply ----------

  ghost predicate SameCore(a: Store, b: Store) {
    a == b.(tip := a.tip, supply := a.supply)
  }

  // ---------- stores some of whose spending marks were cleared ----------

  /** `a` is `b` with another tip, other recorded supplies, and some spending marks cleared. */
  ghost predicate Worn(a: Store, b: Store) {
    && a == Recored(b, a)
    && AddrIndexed(a.utxos)
    && Faded(a.utxos.entries, b.utxos.entries)
  }

  lemma WornLedger(a: Store, b: Store)
    requires Worn(a, b) && LedgerOk(b)
    ensures LedgerOk(a)
  {
    hide AddrIndexed;
    forall op | op in a.utxos.entries ensures UtxoOk(a, op, a.utxos.entries[op]) {
      assert UtxoOk(b, op, b.utxos.entries[op]);
    }
  }

  lemma WornNew(a: Store, b: Store, block: Block, height: nat)
    requires Worn(a, b)
    ensures NewBlock(a, block, height) <==> NewBlock(b, block, height)
  {
    hide AddrIndexed;
  }

  /** Without any mark missing, nothing but tip and supply differs. */
  lemma UnwornIsSame(a: Store, b: Store)
    requires Worn(a, b) && AddrIndexed(b.utxos)
    ensures SameCore(a, b) <==> a.utxos.entries == b.utxos.entries
  {
    if a.utxos.entries == b.utxos.entries { AddrIndexUnique(a.utxos, b.utxos); }
  }

  // ---------- spending over cleared marks ----------

  ghost predicate WornWork(w: Work, v: Work) {
    && Faded(w.utxos.entries, v.utxos.entries)
    && w.valueIn == v.valueIn && w.valueOut == v.valueOut && w.spent == v.spent
  }

  lemma FadedPut(a: map<Outpoint, Utxo>, b: map<Outpoint, Utxo>, op: Outpoint, u: Utxo)
    requires Faded(a, b)
    ensures Faded(a[op := u], b[op := u])
  {
  }

  lemma FadedReads(a: map<Outpoint, Utxo>, b: map<Outpoint, Utxo>, op: Outpoint, height: nat, txid: Hash)
    requires Faded(a, b) && op in a
    ensures op in b && a[op].Output() == b[op].Output() && SpentBy(a[op], height, txid) == SpentBy(b[op], height, txid)
  {
  }

  /** Whatever can be spent can be spent with nothing committed, and leaves the same mark. */
  lemma {:induction false} SpendInputsWorn(a: Store, w: Work, v: Work, inputs: seq<Outpoint>, height: nat, txid: Hash)
    requires AddrIndexed(w.utxos) && AddrIndexed(v.utxos) && WornWork(w, v) && (height > 0 || inputs == [])
    requires SpendInputs(a, w, inputs, height, txid).Ok?
    ensures SpendInputs(EMPTY_STORE, v, inputs, height, txid).Ok?
    ensures WornWork(SpendInputs(a, w, inputs, height, txid).value,
                     SpendInputs(EMPTY_STORE, v, inputs, height, txid).value)
  {
    hide AddrIndexed, MarkSpent, AllSpendable, Captured, Marked, Faded;
    if inputs != [] {
      var n := |inputs| - 1;
      var init, op := inputs[..n], inputs[n];
      SpendInputsWorn(a, w, v, init, height, txid);
      SpendInputsExactly(a, w, init, height, txid);
      SpendInputsExactly(EMPTY_STORE, v, init, height, txid);
      var m, l := SpendInputs(a, w, init, height, txid).value, SpendInputs(EMPTY_STORE, v, init, height, txid).value;
      MarkExactly(a, m.utxos, op, height, txid);
      MarkExactly(EMPTY_STORE, l.utxos, op, height, txid);
      FadedReads(m.utxos.entries, l.utxos.entries, op, height, txid);
      FadedPut(m.utxos.entries, l.utxos.entries, op, SpentBy(l.utxos.entries[op], height, txid));
    }
  }

  lemma {:induction false} CreateOutputsWorn(w: Work, v: Work, tx: Tx, height: nat, n: nat)
    requires n <= |tx.outputs| && WornWork(w, v)
    ensures WornWork(CreateOutputs(w, tx, height, n), CreateOutputs(v, tx, height, n))
  {
    hide Faded;
    if n > 0 {
      CreateOutputsWorn(w, v, tx, height, n - 1);
      var m, l := CreateOutputs(w, tx, height, n - 1), CreateOutputs(v, tx, height, n - 1);
      FadedPut(m.utxos.entries, l.utxos.entries, Outpoint(tx.id, n - 1), NewUtxo(tx, height, n - 1));
    }
  }

  lemma ApplyTxWorn(a: Store, w: Work, v: Work, tx: Tx, height: nat)
    requires AddrIndexed(w.utxos) && AddrIndexed(v.utxos) && WornWork(w, v) && (height > 0 || tx.Spends() == [])
    requires ApplyTx(a, w, tx, height).Ok?
    ensures ApplyTx(EMPTY_STORE, v, tx, height).Ok?
    ensures WornWork(ApplyTx(a, w, tx, height).value, ApplyTx(EMPTY_STORE, v, tx, height).value)
  {
    hide AddrIndexed, WornWork;
    SpendInputsWorn(a, w, v, tx.Spends(), height, tx.id);
    var m, l := SpendInputs(a, w, tx.Spends(), height, tx.id).value, SpendInputs(EMPTY_STORE, v, tx.Spends(), height,
        tx.id).value;
    CreateOutputsWorn(m, l, tx, height, |tx.outputs|);
  }

  lemma {:induction false} ApplyTxsWorn(a: Store, us: UtxoSet, vs: UtxoSet, txs: seq<Tx>, height: nat)
    requires AddrIndexed(us) && AddrIndexed(vs) && Faded(us.entries, vs.entries)
    requires SpendsAllowed(txs, height) && NewIds(us.entries, txs) && NewIds(vs.entries, txs)
    requires ApplyTxs(a, StartWork(us), txs, height).Ok?
    ensures ApplyTxs(EMPTY_STORE, StartWork(vs), txs, height).Ok?
    ensures WornWork(ApplyTxs(a, StartWork(us), txs, height).value,
                     ApplyTxs(EMPTY_STORE, StartWork(vs), txs, height).value)
  {
    hide AddrIndexed, BlockApplied, NewIds, ApplyTx, Faded, CapturedAll, SpentWereFree;
    if txs != [] {
      var n := |txs| - 1;
      var init, tx := txs[..n], txs[n];
      NewIdsPrefix(us.entries, txs);
      NewIdsPrefix(vs.entries, txs);
      ApplyTxsWorn(a, us, vs, init, height);
      ApplyTxsExactly(a, us, init, height);
      ApplyTxsExactly(EMPTY_STORE, vs, init, height);
      ApplyTxWorn(a, ApplyTxs(a, StartWork(us), init, height).value,
                  ApplyTxs(EMPTY_STORE, StartWork(vs), init, height).value, tx, height);
    }
  }

  ghost predicate StoredAlike(view: Store, r: Applied, q: Applied, cache: map<nat, int>, b: Block, h: nat) {
    && r.spent == q.spent
    && h in q.view.supply
    && r.view.supply == view.supply[h := q.view.supply[h]]
    && r.view == Recored(q.view, r.view) && r.view.tip == Some(Tip(h, b.hash))
    && r.cache == cache[h := q.view.supply[h]]
  }

  lemma FinishAlike(view: Store, best: nat, cache: map<nat, int>, st: Store, b: Block, h: nat, below: map<nat, int>,
                    w: Work, v: Work, prev: int)
    requires view == Recored(st, view) && h > 0 && h > best
    requires w.valueIn == v.valueIn && w.valueOut == v.valueOut && w.spent == v.spent
    ensures StoredAlike(view, FinishBlock(view, best, cache, b, h, w, prev), FinishBlock(st, h - 1, below, b, h, v, prev),
                        cache, b, h)
  {
    hide StoreTxs, TxIds;
  }

  lemma ApplyBlockWorn(committed: Store, view: Store, best: nat, cache: map<nat, int>, st: Store, b: Block, h: nat,
                       below: map<nat, int>)
    requires LedgerOk(st) && Worn(view, st) && NewBlock(st, b, h) && h > 0 && h > best
    requires h - 1 in below && PrevSupply(committed, cache, h) == below[h - 1]
    requires ApplyBlock(committed, view, best, cache, b, h).Ok?
    ensures var r := ApplyBlock(committed, view, best, cache, b, h).value;
            var q := ApplyBlock(EMPTY_STORE, st, h - 1, below, b, h);
            && q.Ok? && StoredAlike(view, r, q.value, cache, b, h)
            && AddrIndexed(r.view.utxos) && Faded(r.view.utxos.entries, q.value.view.utxos.entries)
  {
    WornNew(view, st, b, h);
    WornLedger(view, st);
    NewBlockNewIds(st, b, h);
    NewBlockNewIds(view, b, h);
    hide ApplyTxs, AddrIndexed, Faded, UtxoOk, NewBlock, NewIds, StoreTxs, TxIds, BlockApplied, CapturedAll;
    hide SpentWereFree, StoredAlike, StoreBlock;
    ApplyTxsWorn(committed, view.utxos, st.utxos, b.txs, h);
    ApplyTxsExactly(committed, view.utxos, b.txs, h);
    var w, v := ApplyTxs(committed, StartWork(view.utxos), b.txs, h).value,
        ApplyTxs(EMPTY_STORE, StartWork(st.utxos), b.txs, h).value;
    FinishAlike(view, best, cache, st, b, h, below, w, v, below[h - 1]);
  }

  /** A block that connects on a store with cleared marks connects, with nothing committed, on the store
      that has them all; the results again differ in cleared marks only. */
  lemma ConnectWorn(committed: Store, view: Store, best: nat, cache: map<nat, int>, st: Store, b: Block, h: nat,
                    below: map<nat, int>)
    requires LedgerOk(st) && Worn(view, st) && NewBlock(st, b, h) && h > 0 && h > best
    requires h - 1 in below && PrevSupply(committed, cache, h) == below[h - 1]
    requires ConnectBlock(committed, view, best, cache, b, h).Ok?
    ensures var r := ConnectBlock(committed, view, best, cache, b, h).value;
            var q := ConnectBlock(EMPTY_STORE, st, h - 1, below, b, h);
            && q.Ok? && Worn(r.view, q.value.view)
            && h in q.value.view.supply
            && r.view.supply == view.supply[h := q.value.view.supply[h]]
            && r.view.tip == Some(Tip(h, b.hash))
            && r.cache == cache[h := q.value.view.supply[h]]
  {
    hide ApplyBlock, AddrIndexed, Faded, NewBlock;
    ApplyBlockWorn(committed, view, best, cache, st, b, h, below);
    NewBlockNewIds(st, b, h);
    assert SpendsAllowed(b.txs, h) && AddrIndexed(st.utxos);
    CapturedCovers(EMPTY_STORE, st, h - 1, below, b, h);
    var m := ApplyBlock(EMPTY_STORE, st, h - 1, below, b, h).value;
    IndexTxsSame(committed, EMPTY_STORE, m.view.history, b.txs, h, b.hash, m.spent);
  }
}
