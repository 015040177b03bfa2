/** What connecting and disconnecting one block does to the store, as functions of the store.

    Connecting reads two stores: `committed`, on disk before the batch opened, and `view`, the
    batch with everything written so far. */
module Ledger {
  import opened Types
  import opened Storage

  /** What applyBlockToBatch carries from transaction to transaction. */
  datatype Work = Work(utxos: UtxoSet, valueIn: int, valueOut: int, spent: map<Outpoint, TxOut>)

  function StartWork(us: UtxoSet): Work {
    Work(us, 0, 0, map[])
  }

  function SpendInputs(committed: Store, w: Work, inputs: seq<Outpoint>, height: nat, txid: Hash): Result<Work> {
    if inputs == [] then Ok(w)
    else
      var before :- SpendInputs(committed, w, inputs[..|inputs| - 1], height, txid);
      var op := inputs[|inputs| - 1];
      var (us, u) :- MarkSpent(committed, before.utxos, op, height, txid);
      Ok(Work(us, before.valueIn + u.value, before.valueOut, before.spent[op := u.Output()]))
  }

  function CreateOutputs(w: Work, tx: Tx, height: nat, n: nat): Work
    requires n <= |tx.outputs|
  {
    if n == 0 then w
    else
      var before := CreateOutputs(w, tx, height, n - 1);
      var output := tx.outputs[n - 1];
      before.(utxos := PutUtxo(before.utxos, Outpoint(tx.id, n - 1), output, height,
                               tx.IsCoinbase() || tx.IsCoinStake()),
              valueOut := before.valueOut + output.value)
  }

  function ApplyTx(committed: Store, w: Work, tx: Tx, height: nat): Result<Work> {
    var w1 :- SpendInputs(committed, w, tx.Spends(), height, tx.id);
    Ok(CreateOutputs(w1, tx, height, |tx.outputs|))
  }

  function ApplyTxs(committed: Store, w: Work, txs: seq<Tx>, height: nat): Result<Work> {
    if txs == [] then Ok(w)
    else
      var before :- ApplyTxs(committed, w, txs[..|txs| - 1], height);
      ApplyTx(committed, before, txs[|txs| - 1], height)
  }

  // ---------- money supply ----------

  /** The supply one block below: from the batch cache if the block below is in this batch, else from storage. */
  function PrevSupply(committed: Store, cache: map<nat, int>, height: nat): int {
    if height == 0 then 0
    else if height - 1 in cache then cache[height - 1]
    else GetSupply(committed, height - 1)
  }

  // ---------- address history ----------

  /** The outputs a transaction spends: from the outputs captured while spending, else through the
      transaction index; an input found in neither is skipped. */
  function SpentOutputs(committed: Store, inputs: seq<Outpoint>, captured: map<Outpoint, TxOut>): seq<TxOut> {
    if inputs == [] then []
    else
      var before := SpentOutputs(committed, inputs[..|inputs| - 1], captured);
      var op := inputs[|inputs| - 1];
      if op in captured then before + [captured[op]]
      else if PrevOutput(committed, op).Some? then before + [PrevOutput(committed, op).value]
      else before
  }

  function IndexInputs(history: map<HistKey, HistEntry>, spent: seq<TxOut>, txid: Hash, height: nat,
                       blockHash: Hash, n: nat): map<HistKey, HistEntry>
    requires n <= |spent|
  {
    if n == 0 then history
    else
      var before := IndexInputs(history, spent, txid, height, blockHash, n - 1);
      var a := AddressOf(spent[n - 1].script);
      if a.None? || n - 1 > IO_MASK then before
      else before[InputKey(a.value, height, txid, n - 1) := HistEntry(true, spent[n - 1].value, blockHash)]
  }

  function IndexOutputs(history: map<HistKey, HistEntry>, outs: seq<TxOut>, txid: Hash, height: nat,
                        blockHash: Hash, n: nat): map<HistKey, HistEntry>
    requires n <= |outs|
  {
    if n == 0 then history
    else
      var before := IndexOutputs(history, outs, txid, height, blockHash, n - 1);
      var a := AddressOf(outs[n - 1].script);
      if a.None? || n - 1 > IO_MASK then before
      else before[OutputKey(a.value, height, txid, n - 1) := HistEntry(false, outs[n - 1].value, blockHash)]
  }

  function IndexTx(committed: Store, history: map<HistKey, HistEntry>, tx: Tx, height: nat, blockHash: Hash,
                   captured: map<Outpoint, TxOut>): map<HistKey, HistEntry>
  {
    var spent := SpentOutputs(committed, tx.Spends(), captured);
    var withInputs := IndexInputs(history, spent, tx.id, height, blockHash, |spent|);
    IndexOutputs(withInputs, tx.outputs, tx.id, height, blockHash, |tx.outputs|)
  }

  function IndexTxs(committed: Store, history: map<HistKey, HistEntry>, txs: seq<Tx>, height: nat,
                    blockHash: Hash, captured: map<Outpoint, TxOut>): map<HistKey, HistEntry>
  {
    if txs == [] then history
    else
      var before := IndexTxs(committed, history, txs[..|txs| - 1], height, blockHash, captured);
      IndexTx(committed, before, txs[|txs| - 1], height, blockHash, captured)
  }

  // ---------- one block ----------

  /** A batch after one more block: the pending store, the supply cache, and the outputs spent. */
  datatype Applied = Applied(view: Store, cache: map<nat, int>, spent: map<Outpoint, TxOut>)

  /** Everything but the address history that a block writes to the batch. */
  function BlockStored(view: Store, bestHeight: nat, b: Block, height: nat, us: UtxoSet, supply: int): Store {
    var stored := StoreBlock(StoreBlockIndex(view, b.hash, height), b, height);
    stored.(utxos := us,
            supply := stored.supply[height := supply],
            tip := if height > bestHeight then Some(Tip(height, b.hash)) else stored.tip)
  }

  function FinishBlock(view: Store, bestHeight: nat, cache: map<nat, int>, b: Block, height: nat, w: Work,
                       prevSupply: int): Applied
  {
    var supply := prevSupply + w.valueOut - w.valueIn;
    Applied(BlockStored(view, bestHeight, b, height, w.utxos, supply), cache[height := supply], w.spent)
  }

  function ApplyBlock(committed: Store, view: Store, bestHeight: nat, cache: map<nat, int>, b: Block, height: nat)
    : Result<Applied>
  {
    var w :- ApplyTxs(committed, StartWork(view.utxos), b.txs, height);
    Ok(FinishBlock(view, bestHeight, cache, b, height, w, PrevSupply(committed, cache, height)))
  }

  function IndexBlock(committed: Store, view: Store, b: Block, height: nat, captured: map<Outpoint, TxOut>): Store {
    view.(history := IndexTxs(committed, view.history, b.txs, height, b.hash, captured))
  }

  /** Applies a block to the batch and indexes its transactions. */
  function ConnectBlock(committed: Store, view: Store, bestHeight: nat, cache: map<nat, int>, b: Block, height: nat)
    : Result<Applied>
  {
    var a :- ApplyBlock(committed, view, bestHeight, cache, b, height);
    Ok(a.(view := IndexBlock(committed, a.view, b, height, a.spent)))
  }

  // ---------- disconnecting ----------

  function RemoveOutputs(us: UtxoSet, tx: Tx, n: nat): UtxoSet
    requires n <= |tx.outputs|
  {
    if n == 0 then us
    else DeleteUtxo(RemoveOutputs(us, tx, n - 1), Outpoint(tx.id, n - 1), tx.outputs[n - 1])
  }

  function UnspendInputs(us: UtxoSet, inputs: seq<Outpoint>): Result<UtxoSet> {
    if inputs == [] then Ok(us)
    else
      var before :- UnspendInputs(us, inputs[..|inputs| - 1]);
      UnspendUtxo(before, inputs[|inputs| - 1])
  }

  function UndoTx(us: UtxoSet, tx: Tx): Result<UtxoSet> {
    UnspendInputs(RemoveOutputs(us, tx, |tx.outputs|), tx.Spends())
  }

  /** Undoes transactions from the last to the first. */
  function UndoTxs(us: UtxoSet, txs: seq<Tx>): Result<UtxoSet>
    decreases |txs|
  {
    if txs == [] then Ok(us)
    else
      var after :- UndoTx(us, txs[|txs| - 1]);
      UndoTxs(after, txs[..|txs| - 1])
  }

  function DeleteTransactions(committed: Store, st: Store, txs: seq<Tx>, height: nat): Store
    decreases |txs|
  {
    if txs == [] then st
    else DeleteTransactions(committed, DeleteTransaction(committed, st, txs[|txs| - 1].id, height),
                            txs[..|txs| - 1], height)
  }

  /** Heights are 32-bit: one below height 0 is the largest height. */
  function Pred32(height: nat): nat {
    if height == 0 then 0xffff_ffff else height - 1
  }

  /** The single atomic commit that disconnects a block. */
  function DisconnectStore(st: Store, b: Block, height: nat): Result<Store> {
    var us :- UndoTxs(st.utxos, b.txs);
    var cleared := DeleteTransactions(st, st, b.txs, height);
    Ok(DeleteBlockDisconnect(cleared, b.hash, height).(
         utxos := us,
         tip := Some(Tip(Pred32(height), b.prev))))
  }
}
