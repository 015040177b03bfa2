/** Conservation: what a block adds to the unspent total, to each address balance, to the recorded
    money supply and to the address history. */
module Conservation {
  import opened Types
  import opened Storage
  import opened Ledger
  import opened MapSums
  import opened UtxoFacts
  import opened BlockFacts
  import opened Inverse

  // ---------- weighing outputs ----------

  /** How much an output counts: its value, or its value if it pays one address. */
  type Weight = TxOut -> int

  function ValueOf(o: TxOut): int {
    o.value
  }

  function PaidTo(a: Address): Weight {
    (o: TxOut) => if AddressOf(o.script) == Some(a) then o.value else 0
  }

  function UnspentWeight(g: Weight): (Outpoint, Utxo) -> int {
    (op: Outpoint, u: Utxo) => if u.IsSpent() then 0 else g(u.Output())
  }

  /** The weight of all unspent outputs. */
  ghost function Total(entries: map<Outpoint, Utxo>, g: Weight): int {
    Sum(entries, UnspentWeight(g))
  }

  function OutSum(g: Weight, outs: seq<TxOut>, n: nat): int
    requires n <= |outs|
  {
    if n == 0 then 0 else OutSum(g, outs, n - 1) + g(outs[n - 1])
  }

  /** The output stored at an outpoint; nothing, if there is none. */
  function OutAt(entries: map<Outpoint, Utxo>, op: Outpoint): TxOut {
    if op in entries then entries[op].Output() else TxOut(0, EmptyScript)
  }

  function InSum(g: Weight, entries: map<Outpoint, Utxo>, inputs: seq<Outpoint>): int {
    if inputs == [] then 0
    else InSum(g, entries, inputs[..|inputs| - 1]) + g(OutAt(entries, inputs[|inputs| - 1]))
  }

  function BlockOut(g: Weight, txs: seq<Tx>): int {
    if txs == [] then 0
    else
      var tx := txs[|txs| - 1];
      BlockOut(g, txs[..|txs| - 1]) + OutSum(g, tx.outputs, |tx.outputs|)
  }

  function BlockIn(g: Weight, entries: map<Outpoint, Utxo>, txs: seq<Tx>): int {
    if txs == [] then 0
    else BlockIn(g, entries, txs[..|txs| - 1]) + InSum(g, entries, txs[|txs| - 1].Spends())
  }

  // ---------- outpoints counted more than once ----------

  /** Spent before the transaction is reached: by an earlier one of the block, or before the block. */
  predicate AlreadySpent(before: map<Outpoint, Utxo>, earlier: seq<Tx>, op: Outpoint) {
    SpentIn(earlier, op) || (op in before && before[op].IsSpent())
  }

  /** The weight of those inputs that repeat an outpoint already spent: before the block, by an earlier
      transaction of the block, or by an earlier input of the same transaction. */
  function RepeatSum(g: Weight, entries: map<Outpoint, Utxo>, before: map<Outpoint, Utxo>, earlier: seq<Tx>,
                     inputs: seq<Outpoint>): int
  {
    if inputs == [] then 0
    else
      var init, op := inputs[..|inputs| - 1], inputs[|inputs| - 1];
      RepeatSum(g, entries, before, earlier, init)
      + if op in init || AlreadySpent(before, earlier, op) then g(OutAt(entries, op)) else 0
  }

  /** What a block on the outputs `before` counts again as input because it was already spent. */
  function BlockRepeats(g: Weight, entries: map<Outpoint, Utxo>, before: map<Outpoint, Utxo>, txs: seq<Tx>): int {
    if txs == [] then 0
    else
      var init := txs[..|txs| - 1];
      BlockRepeats(g, entries, before, init) + RepeatSum(g, entries, before, init, txs[|txs| - 1].Spends())
  }

  predicate NoRepeats(ops: seq<Outpoint>) {
    forall i, j :: 0 <= i < j < |ops| ==> ops[i] != ops[j]
  }

  /** What consensus is relied on to guarantee of a block: it spends no outpoint twice. */
  ghost predicate SpendsOnce(txs: seq<Tx>) {
    txs != [] ==>
      var tx := txs[|txs| - 1];
      && NoRepeats(tx.Spends())
      && (forall op :: op in tx.Spends() ==> !SpentIn(txs[..|txs| - 1], op))
      && SpendsOnce(txs[..|txs| - 1])
  }

  lemma {:induction false} NoRepeatSum(g: Weight, entries: map<Outpoint, Utxo>, before: map<Outpoint, Utxo>,
                                       earlier: seq<Tx>, inputs: seq<Outpoint>)
    requires NoRepeats(inputs) && forall op :: op in inputs ==> !AlreadySpent(before, earlier, op)
    ensures RepeatSum(g, entries, before, earlier, inputs) == 0
  {
    if inputs != [] {
      assert inputs[|inputs| - 1] in inputs;
      NoRepeatSum(g, entries, before, earlier, inputs[..|inputs| - 1]);
    }
  }

  /** A block that spends no outpoint twice, and none that was spent before, counts nothing again. */
  lemma {:induction false} SpendsOnceNoRepeats(g: Weight, entries: map<Outpoint, Utxo>, before: map<Outpoint, Utxo>,
                                               txs: seq<Tx>)
    requires SpendsOnce(txs) && SpendsUnspent(before, txs)
    ensures BlockRepeats(g, entries, before, txs) == 0
  {
    if txs != [] {
      SpendsOnceNoRepeats(g, entries, before, txs[..|txs| - 1]);
      NoRepeatSum(g, entries, before, txs[..|txs| - 1], txs[|txs| - 1].Spends());
    }
  }

  // ---------- one transaction ----------

  lemma {:induction false} InSumSame(g: Weight, e: map<Outpoint, Utxo>, f: map<Outpoint, Utxo>, inputs: seq<Outpoint>)
    requires forall op :: op in inputs ==> OutAt(e, op) == OutAt(f, op)
    ensures InSum(g, e, inputs) == InSum(g, f, inputs)
  {
    if inputs != [] {
      assert inputs[|inputs| - 1] in inputs;
      InSumSame(g, e, f, inputs[..|inputs| - 1]);
    }
  }

  lemma {:induction false} RepeatSumSame(g: Weight, e: map<Outpoint, Utxo>, f: map<Outpoint, Utxo>,
                                         before: map<Outpoint, Utxo>, earlier: seq<Tx>, inputs: seq<Outpoint>)
    requires forall op :: op in inputs ==> OutAt(e, op) == OutAt(f, op)
    ensures RepeatSum(g, e, before, earlier, inputs) == RepeatSum(g, f, before, earlier, inputs)
  {
    if inputs != [] {
      assert inputs[|inputs| - 1] in inputs;
      RepeatSumSame(g, e, f, before, earlier, inputs[..|inputs| - 1]);
    }
  }

  /** So far exactly the outpoints spent before the block or by `earlier` transactions of it are spent. */
  ghost predicate SpentSoFar(entries: map<Outpoint, Utxo>, before: map<Outpoint, Utxo>, earlier: seq<Tx>,
                             inputs: seq<Outpoint>)
  {
    forall op :: op in inputs && op in entries ==> (entries[op].IsSpent() <==> AlreadySpent(before, earlier, op))
  }

  lemma TakeOne(mid: map<Outpoint, Utxo>, op: Outpoint, height: nat, txid: Hash, g: Weight)
    requires op in mid && height > 0
    ensures Total(mid[op := SpentBy(mid[op], height, txid)], g)
            == Total(mid, g) - if mid[op].IsSpent() then 0 else g(mid[op].Output())
  {
    var u, v := mid[op], SpentBy(mid[op], height, txid);
    SumPut(mid, op, v, UnspentWeight(g));
    assert v.IsSpent();
    assert UnspentWeight(g)(op, v) == 0;
    assert UnspentWeight(g)(op, u) == (if u.IsSpent() then 0 else g(u.Output()));
  }

  /** Spending takes out of the total the weight of the inputs that were not already spent. */
  lemma {:induction false} SpendTakes(committed: Store, w: Work, before: map<Outpoint, Utxo>, earlier: seq<Tx>,
                                      inputs: seq<Outpoint>, height: nat, txid: Hash, g: Weight)
    requires AddrIndexed(w.utxos) && (height > 0 || inputs == [])
    requires SpentSoFar(w.utxos.entries, before, earlier, inputs)
    requires SpendInputs(committed, w, inputs, height, txid).Ok?
    ensures var r := SpendInputs(committed, w, inputs, height, txid).value;
            && Total(r.utxos.entries, g)
               == Total(w.utxos.entries, g) - InSum(g, w.utxos.entries, inputs)
                  + RepeatSum(g, w.utxos.entries, before, earlier, inputs)
            && r.valueIn == w.valueIn + InSum(ValueOf, w.utxos.entries, inputs)
            && r.valueOut == w.valueOut
  {
    if inputs != [] {
      hide Total, AddrIndexed, MarkSpent, AlreadySpent, AllSpendable, Captured;
      var n := |inputs| - 1;
      var init, op := inputs[..n], inputs[n];
      assert inputs == init + [op];
      SpendTakes(committed, w, before, earlier, init, height, txid, g);
      SpendInputsExactly(committed, w, init, height, txid);
      var mid := SpendInputs(committed, w, init, height, txid).value;
      MarkExactly(committed, mid.utxos, op, height, txid);
      var u := mid.utxos.entries[op];
      assert u == if op in init then SpentBy(w.utxos.entries[op], height, txid) else w.utxos.entries[op];
      TakeOne(mid.utxos.entries, op, height, txid, g);
      assert u.Output() == OutAt(w.utxos.entries, op);
    }
  }

  lemma TotalWithout(entries: map<Outpoint, Utxo>, op: Outpoint, v: Utxo)
    requires op in entries && !entries[op].IsSpent() && v.IsSpent()
    ensures Total(entries[op := v], ValueOf) == Total(entries, ValueOf) - entries[op].value
  {
    SumPut(entries, op, v, UnspentWeight(ValueOf));
    var u := entries[op];
    assert UnspentWeight(ValueOf)(op, u) == ValueOf(u.Output()) == u.value;
  }

  lemma CreateAddsOne(us: UtxoSet, op: Outpoint, o: TxOut, height: nat, cb: bool, g: Weight)
    requires op !in us.entries
    ensures Total(PutUtxo(us, op, o, height, cb).entries, g) == Total(us.entries, g) + g(o)
  {
    var u := Utxo(o.value, o.script, height, cb, 0, ZERO_HASH);
    SumPut(us.entries, op, u, UnspentWeight(g));
    assert u.Output() == o;
  }

  lemma {:induction false} CreateAdds(w: Work, tx: Tx, height: nat, n: nat, g: Weight)
    requires n <= |tx.outputs| && AddrIndexed(w.utxos)
    requires forall op :: op in w.utxos.entries ==> op.txid != tx.id
    ensures var r := CreateOutputs(w, tx, height, n);
            && Total(r.utxos.entries, g) == Total(w.utxos.entries, g) + OutSum(g, tx.outputs, n)
            && r.valueOut == w.valueOut + OutSum(ValueOf, tx.outputs, n)
            && r.valueIn == w.valueIn
  {
    hide AddrIndexed, Listed, Total, NewUtxo;
    if n > 0 {
      CreateAdds(w, tx, height, n - 1, g);
      CreateOutputsExactly(w, tx, height, n - 1);
      var mid := CreateOutputs(w, tx, height, n - 1).utxos;
      CreateAddsOne(mid, Outpoint(tx.id, n - 1), tx.outputs[n - 1], height, tx.IsCoinbase() || tx.IsCoinStake(), g);
    }
  }

  ghost predicate TxMoved(w: Work, r: Work, before: map<Outpoint, Utxo>, earlier: seq<Tx>, tx: Tx, g: Weight) {
    && Total(r.utxos.entries, g)
       == Total(w.utxos.entries, g) - InSum(g, w.utxos.entries, tx.Spends())
          + RepeatSum(g, w.utxos.entries, before, earlier, tx.Spends()) + OutSum(g, tx.outputs, |tx.outputs|)
    && r.valueIn == w.valueIn + InSum(ValueOf, w.utxos.entries, tx.Spends())
    && r.valueOut == w.valueOut + OutSum(ValueOf, tx.outputs, |tx.outputs|)
  }

  lemma TxMovesTotal(committed: Store, w: Work, before: map<Outpoint, Utxo>, earlier: seq<Tx>, tx: Tx, height: nat,
                     g: Weight)
    requires AddrIndexed(w.utxos) && (height > 0 || tx.Spends() == [])
    requires forall op :: op in w.utxos.entries ==> op.txid != tx.id
    requires SpentSoFar(w.utxos.entries, before, earlier, tx.Spends())
    requires ApplyTx(committed, w, tx, height).Ok?
    ensures TxMoved(w, ApplyTx(committed, w, tx, height).value, before, earlier, tx, g)
  {
    SpendTakes(committed, w, before, earlier, tx.Spends(), height, tx.id, g);
    SpendInputsExactly(committed, w, tx.Spends(), height, tx.id);
    CreateAdds(SpendInputs(committed, w, tx.Spends(), height, tx.id).value, tx, height, |tx.outputs|, g);
  }

  // ---------- a block ----------

  lemma {:induction false} BlockInSame(g: Weight, e: map<Outpoint, Utxo>, f: map<Outpoint, Utxo>, txs: seq<Tx>)
    requires forall op :: SpentIn(txs, op) ==> OutAt(e, op) == OutAt(f, op)
    ensures BlockIn(g, e, txs) == BlockIn(g, f, txs)
  {
    if txs != [] {
      var n := |txs| - 1;
      BlockInSame(g, e, f, txs[..n]);
      InSumSame(g, e, f, txs[n].Spends());
    }
  }

  lemma {:induction false} BlockRepeatsSame(g: Weight, e: map<Outpoint, Utxo>, f: map<Outpoint, Utxo>,
                                            before: map<Outpoint, Utxo>, txs: seq<Tx>)
    requires forall op :: SpentIn(txs, op) ==> OutAt(e, op) == OutAt(f, op)
    ensures BlockRepeats(g, e, before, txs) == BlockRepeats(g, f, before, txs)
  {
    if txs != [] {
      var n := |txs| - 1;
      BlockRepeatsSame(g, e, f, before, txs[..n]);
      RepeatSumSame(g, e, f, before, txs[..n], txs[n].Spends());
    }
  }

  /** Of the next transaction's inputs, exactly those spent before or in this block are spent. */
  lemma InputsSpentSoFar(before: map<Outpoint, Utxo>, mid: map<Outpoint, Utxo>, txs: seq<Tx>, height: nat)
    requires txs != [] && SpendsAllowed(txs, height)
    requires BlockApplied(before, mid, txs[..|txs| - 1], height)
    ensures SpentSoFar(mid, before, txs[..|txs| - 1], txs[|txs| - 1].Spends())
  {
    var n := |txs| - 1;
    forall op | op in txs[n].Spends() && op in mid ensures mid[op].IsSpent() <==> AlreadySpent(before, txs[..n], op) {
      assert SpentIn(txs, op);
      if height == 0 { NothingSpent(txs, op); }
      if !SpentIn(txs[..n], op) && op !in before { CreatedUtxoMatches(txs[..n], height, op); }
    }
  }

  lemma OutputsStay(before: map<Outpoint, Utxo>, after: map<Outpoint, Utxo>, tx: Tx, height: nat)
    requires TxApplied(before, after, tx, height)
    ensures forall op :: op in before ==> OutAt(after, op) == OutAt(before, op)
  {
    forall op | op in before ensures OutAt(after, op) == OutAt(before, op) {
      if op in tx.Spends() { assert after[op] == SpentBy(before[op], height, tx.id); }
    }
  }

  /** The totals after a block, whichever way an output is weighed. */
  ghost predicate Moved(before: map<Outpoint, Utxo>, w: Work, txs: seq<Tx>, g: Weight) {
    && Total(w.utxos.entries, g) == Total(before, g) + BlockOut(g, txs) - BlockIn(g, w.utxos.entries, txs)
                                    + BlockRepeats(g, w.utxos.entries, before, txs)
    && w.valueOut == BlockOut(ValueOf, txs)
    && w.valueIn == BlockIn(ValueOf, w.utxos.entries, txs)
  }

  lemma BlockInSnoc(g: Weight, before: map<Outpoint, Utxo>, mid: map<Outpoint, Utxo>, after: map<Outpoint, Utxo>,
                    txs: seq<Tx>, height: nat)
    requires txs != [] && TxApplied(mid, after, txs[|txs| - 1], height)
    requires forall op :: SpentIn(txs[..|txs| - 1], op) ==> op in mid
    ensures BlockIn(g, after, txs) == BlockIn(g, mid, txs[..|txs| - 1]) + InSum(g, mid, txs[|txs| - 1].Spends())
    ensures BlockRepeats(g, after, before, txs)
            == BlockRepeats(g, mid, before, txs[..|txs| - 1])
               + RepeatSum(g, mid, before, txs[..|txs| - 1], txs[|txs| - 1].Spends())
  {
    OutputsStay(mid, after, txs[|txs| - 1], height);
    BlockRepeatsSame(g, mid, after, before, txs[..|txs| - 1]);
    RepeatSumSame(g, mid, after, before, txs[..|txs| - 1], txs[|txs| - 1].Spends());
    BlockInSame(g, mid, after, txs[..|txs| - 1]);
    InSumSame(g, mid, after, txs[|txs| - 1].Spends());
  }

  lemma MovedSnoc(before: map<Outpoint, Utxo>, w: Work, r: Work, txs: seq<Tx>, height: nat, g: Weight)
    requires txs != [] && Moved(before, w, txs[..|txs| - 1], g)
    requires TxMoved(w, r, before, txs[..|txs| - 1], txs[|txs| - 1], g)
    requires TxApplied(w.utxos.entries, r.utxos.entries, txs[|txs| - 1], height)
    requires forall op :: SpentIn(txs[..|txs| - 1], op) ==> op in w.utxos.entries
    ensures Moved(before, r, txs, g)
  {
    BlockInSnoc(g, before, w.utxos.entries, r.utxos.entries, txs, height);
    BlockInSnoc(ValueOf, before, w.utxos.entries, r.utxos.entries, txs, height);
  }

  /** A block moves the total by its outputs minus its inputs, less what it counts again, whatever is
      committed underneath; the running totals kept while applying it are those same sums. */
  lemma {:induction false} BlockMovesTotal(committed: Store, us: UtxoSet, txs: seq<Tx>, height: nat, g: Weight)
    requires AddrIndexed(us) && SpendsAllowed(txs, height) && NewIds(us.entries, txs)
    requires ApplyTxs(committed, StartWork(us), txs, height).Ok?
    ensures Moved(us.entries, ApplyTxs(committed, StartWork(us), txs, height).value, txs, g)
  {
    if txs != [] {
      var n := |txs| - 1;
      var init, tx := txs[..n], txs[n];
      NewIdsPrefix(us.entries, txs);
      BlockMovesTotal(committed, us, init, height, g);
      ApplyTxsExactly(committed, us, txs, height);
      ApplyTxsExactly(committed, us, init, height);
      var w := ApplyTxs(committed, StartWork(us), init, height).value;
      IdsStayNew(us.entries, w.utxos.entries, txs, height);
      ApplyTxExactly(committed, w, tx, height);
      InputsSpentSoFar(us.entries, w.utxos.entries, txs, height);
      TxMovesTotal(committed, w, us.entries, init, tx, height, g);
      MovedSnoc(us.entries, w, ApplyTx(committed, w, tx, height).value, txs, height, g);
    }
  }
}
