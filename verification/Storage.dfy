/** The key-value store the chain writes to, and the batch operations of internal/storage/binary.

    A `Store` value holds one map per key prefix.  A batch is an indexed batch: it reads its own
    pending writes first, while a few checks deliberately read the committed store underneath. */
module Storage {
  import opened Types
  import KeyOrder

  // ---------- unspent outputs, mark-as-spent ----------

  datatype Utxo = Utxo(value: int, script: Script, height: nat, isCoinbase: bool,
                       spendingHeight: nat, spendingTx: Hash) {
    predicate IsSpent() {
      spendingHeight != 0
    }

    function Reset(): Utxo {
      this.(spendingHeight := 0, spendingTx := ZERO_HASH)
    }

    function Output(): TxOut {
      TxOut(value, script)
    }
  }

  datatype AddrKey = AddrKey(address: Address, outpoint: Outpoint)

  /** The two unspent-output maps: by outpoint, and by address for balances. */
  datatype UtxoSet = UtxoSet(entries: map<Outpoint, Utxo>, byAddress: map<AddrKey, int>)

  /** The address a script is indexed under; an all-zero hash160 counts as no address. */
  function AddressOf(script: Script): Option<Address> {
    match script
    case PayTo(a) => if a == 0 then None else Some(a)
    case _ => None
  }

  function Listed(m: map<AddrKey, int>, op: Outpoint, script: Script, value: int): map<AddrKey, int> {
    match AddressOf(script)
    case Some(a) => m[AddrKey(a, op) := value]
    case None => m
  }

  function Unlisted(m: map<AddrKey, int>, op: Outpoint, script: Script): map<AddrKey, int> {
    match AddressOf(script)
    case Some(a) => m - {AddrKey(a, op)}
    case None => m
  }

  function PutUtxo(us: UtxoSet, op: Outpoint, output: TxOut, height: nat, isCoinbase: bool): UtxoSet {
    UtxoSet(us.entries[op := Utxo(output.value, output.script, height, isCoinbase, 0, ZERO_HASH)],
            Listed(us.byAddress, op, output.script, output.value))
  }

  function DeleteUtxo(us: UtxoSet, op: Outpoint, output: TxOut): UtxoSet {
    UtxoSet(us.entries - {op}, Unlisted(us.byAddress, op, output.script))
  }

  function UnspendUtxo(us: UtxoSet, op: Outpoint): Result<UtxoSet> {
    if op !in us.entries then Err(UtxoNotFound)
    else
      var u := us.entries[op];
      if !u.IsSpent() then Ok(us)
      else Ok(UtxoSet(us.entries[op := u.Reset()], Listed(us.byAddress, op, u.script, u.value)))
  }

  // ---------- the store ----------

  /** A block as stored: header and transaction ids; bodies live in the transaction index. */
  datatype Compact = Compact(height: nat, prev: Hash, merkleRoot: Hash, txids: seq<Hash>)
  datatype TxRec = TxRec(blockHash: Hash, height: nat, index: nat, tx: Tx)
  datatype HistKey = HistKey(address: Address, height: nat, txid: Hash, index: nat)
  datatype HistEntry = HistEntry(isInput: bool, value: int, blockHash: Hash)
  datatype Tip = Tip(height: nat, hash: Hash)

  datatype Store = Store(
    blocks: map<Hash, Compact>,
    heightToHash: map<nat, Hash>,
    hashToHeight: map<Hash, nat>,
    txs: map<Hash, TxRec>,
    history: map<HistKey, HistEntry>,
    utxos: UtxoSet,
    tip: Option<Tip>,
    supply: map<nat, int>)

  const EMPTY_STORE := Store(map[], map[], map[], map[], map[], UtxoSet(map[], map[]), None, map[])

  /** A block can be read back only if its header and every one of its transactions are present. */
  predicate HasBody(st: Store, hash: Hash) {
    && hash in st.blocks
    && forall id :: id in st.blocks[hash].txids ==> id in st.txs
  }

  function ReadTxs(st: Store, ids: seq<Hash>): (txs: seq<Tx>)
    requires forall id :: id in ids ==> id in st.txs
    ensures |txs| == |ids|
    ensures forall i :: 0 <= i < |ids| ==> txs[i] == st.txs[ids[i]].tx
  {
    seq(|ids|, i requires 0 <= i < |ids| => st.txs[ids[i]].tx)
  }

  function GetBlock(st: Store, hash: Hash): (r: Option<Block>)
    ensures r.Some? <==> HasBody(st, hash)
    ensures r.Some? ==> r.value.hash == hash && r.value.prev == st.blocks[hash].prev
  {
    if !HasBody(st, hash) then None
    else
      var c := st.blocks[hash];
      Some(Block(hash, c.prev, c.merkleRoot, ReadTxs(st, c.txids)))
  }

  function GetHash(st: Store, height: nat): Option<Hash> {
    if height in st.heightToHash then Some(st.heightToHash[height]) else None
  }

  function GetHeight(st: Store, hash: Hash): Option<nat> {
    if hash in st.hashToHeight then Some(st.hashToHeight[hash]) else None
  }

  function GetBlockAt(st: Store, height: nat): Option<Block> {
    if height in st.heightToHash then GetBlock(st, st.heightToHash[height]) else None
  }

  /** Reading an absent tip is not an error: it yields height 0 and the zero hash. */
  function ChainHeight(st: Store): nat {
    if st.tip.Some? then st.tip.value.height else 0
  }

  function ChainTip(st: Store): Hash {
    if st.tip.Some? then st.tip.value.hash else ZERO_HASH
  }

  /** Reading an absent money supply is not an error: it yields 0. */
  function GetSupply(st: Store, height: nat): int {
    if height in st.supply then st.supply[height] else 0
  }

  /** The output an outpoint names, looked up through the transaction index. */
  function PrevOutput(st: Store, op: Outpoint): Option<TxOut> {
    if op.txid in st.txs && op.index < |st.txs[op.txid].tx.outputs|
    then Some(st.txs[op.txid].tx.outputs[op.index])
    else None
  }

  // ---------- spending ----------

  /** A spending reference is orphaned when, in the committed store, the spending transaction is
      missing or is not in the block at the spending height. */
  predicate Orphaned(committed: Store, u: Utxo) {
    || u.spendingHeight !in committed.heightToHash
    || u.spendingTx !in committed.txs
    || committed.txs[u.spendingTx].blockHash != committed.heightToHash[u.spendingHeight]
  }

  /** Spends `op`.  A repeat of the very same spend is accepted unchanged, an orphaned reference is
      overwritten, and a live one is an error. */
  function MarkSpent(committed: Store, us: UtxoSet, op: Outpoint, height: nat, txid: Hash)
    : Result<(UtxoSet, Utxo)>
  {
    if op !in us.entries then Err(UtxoNotFound)
    else
      var u := us.entries[op];
      if u.IsSpent() && u.spendingHeight == height && u.spendingTx == txid then Ok((us, u))
      else if u.IsSpent() && !Orphaned(committed, u) then
        if u.spendingTx == txid && u.spendingHeight != height
        then Err(ForkDuplicateSpend(u.spendingHeight))
        else Err(AlreadySpent)
      else
        var v := u.(spendingHeight := height, spendingTx := txid);
        Ok((UtxoSet(us.entries[op := v], Unlisted(us.byAddress, op, u.script)), v))
  }

  // ---------- address history keys ----------

  const IO_MASK: nat := 0x7fff
  const INPUT_BIT: nat := 0x8000

  /** The 16-bit index field of a history key: direction in the high bit, position below. */
  function HistIndex(i: nat, isInput: bool): (n: nat)
    ensures i <= IO_MASK ==> n == i + (if isInput then INPUT_BIT else 0)
  {
    i % INPUT_BIT + if isInput then INPUT_BIT else 0
  }

  function OutputKey(a: Address, height: nat, txid: Hash, i: nat): HistKey {
    HistKey(a, height, txid, HistIndex(i, false))
  }

  function InputKey(a: Address, height: nat, txid: Hash, i: nat): HistKey {
    HistKey(a, height, txid, HistIndex(i, true))
  }

  /** The history key of output `i`, if it has one. */
  function OutputKeyOf(outs: seq<TxOut>, txid: Hash, height: nat, i: nat): Option<HistKey>
    requires i < |outs|
  {
    var a := AddressOf(outs[i].script);
    if a.Some? && i <= IO_MASK then Some(OutputKey(a.value, height, txid, i)) else None
  }

  /** The history key of input `i`, its address found through the transaction index. */
  function InputKeyOf(st: Store, inputs: seq<Outpoint>, txid: Hash, height: nat, i: nat): Option<HistKey>
    requires i < |inputs|
  {
    var prev := PrevOutput(st, inputs[i]);
    if prev.Some? && AddressOf(prev.value.script).Some? && i <= IO_MASK
    then Some(InputKey(AddressOf(prev.value.script).value, height, txid, i))
    else None
  }

  function OutputKeys(outs: seq<TxOut>, txid: Hash, height: nat): set<HistKey> {
    set i | 0 <= i < |outs| && OutputKeyOf(outs, txid, height, i).Some?
          :: OutputKeyOf(outs, txid, height, i).value
  }

  function InputKeys(st: Store, inputs: seq<Outpoint>, txid: Hash, height: nat): set<HistKey> {
    set i | 0 <= i < |inputs| && InputKeyOf(st, inputs, txid, height, i).Some?
          :: InputKeyOf(st, inputs, txid, height, i).value
  }

  // ---------- deletions ----------

  /** Removes a transaction and its history entries; the transaction body is read from the committed store. */
  function DeleteTransaction(committed: Store, st: Store, txid: Hash, height: nat): Store {
    if txid !in committed.txs then st
    else
      var tx := committed.txs[txid].tx;
      st.(txs := st.txs - {txid},
          history := st.history
                     - OutputKeys(tx.outputs, txid, height)
                     - InputKeys(committed, tx.Spends(), txid, height))
  }

  /** Removes a block header and both of its index entries, whatever they hold. */
  function DeleteBlockDisconnect(st: Store, hash: Hash, height: nat): Store {
    st.(blocks := st.blocks - {hash},
        hashToHeight := st.hashToHeight - {hash},
        heightToHash := st.heightToHash - {height})
  }

  function HistoryAt(st: Store, height: nat): set<HistKey> {
    set k | k in st.history && k.height == height
  }

  /** Deletes a readable, indexed block with its transactions and all history at its height. */
  function DeleteBlock(st: Store, hash: Hash): Result<Store> {
    if hash !in st.hashToHeight || !HasBody(st, hash) then Err(BlockNotFound)
    else
      var height := st.hashToHeight[hash];
      var ids := set id | id in st.blocks[hash].txids;
      Ok(DeleteBlockDisconnect(st, hash, height).(
        txs := st.txs - ids,
        history := st.history - HistoryAt(st, height)))
  }

  function DropOutputs(us: UtxoSet, committed: UtxoSet, tx: Tx, n: nat): UtxoSet
    requires n <= |tx.outputs|
  {
    if n == 0 then us
    else
      var rest := DropOutputs(us, committed, tx, n - 1);
      var op := Outpoint(tx.id, n - 1);
      var out := if op in committed.entries then committed.entries[op].Output() else tx.outputs[n - 1];
      DeleteUtxo(rest, op, out)
  }

  /** Releases the inputs that the committed store records as spent by this transaction at this height. */
  function ReleaseInputs(us: UtxoSet, committed: UtxoSet, tx: Tx, height: nat, n: nat): UtxoSet
    requires n <= |tx.inputs|
  {
    if n == 0 then us
    else
      var rest := ReleaseInputs(us, committed, tx, height, n - 1);
      var op := tx.inputs[n - 1];
      if op != Outpoint(ZERO_HASH, NULL_INDEX) && op in committed.entries
         && committed.entries[op].IsSpent()
         && committed.entries[op].spendingTx == tx.id && committed.entries[op].spendingHeight == height
      then
        var u := committed.entries[op];
        UtxoSet(rest.entries[op := u.Reset()], Listed(rest.byAddress, op, u.script, u.value))
      else rest
  }

  function ReleaseBlock(us: UtxoSet, committed: UtxoSet, txs: seq<Tx>, height: nat): UtxoSet {
    if txs == [] then us
    else
      var tx := txs[|txs| - 1];
      var before := ReleaseBlock(us, committed, txs[..|txs| - 1], height);
      ReleaseInputs(DropOutputs(before, committed, tx, |tx.outputs|), committed, tx, height, |tx.inputs|)
  }

  /** Removes one fork block: its hash entry always, its height entry only if that names this block. */
  function DeleteOrphanedBlock(st: Store, hash: Hash, height: nat): Store {
    var block := GetBlock(st, hash);
    var ids := if block.Some? then set id | id in st.blocks[hash].txids else {};
    st.(hashToHeight := st.hashToHeight - {hash},
        heightToHash := if height in st.heightToHash && st.heightToHash[height] == hash
                        then st.heightToHash - {height} else st.heightToHash,
        txs := st.txs - ids,
        utxos := if block.Some? then ReleaseBlock(st.utxos, st.utxos, block.value.txs, height) else st.utxos,
        history := st.history - HistoryAt(st, height),
        blocks := st.blocks - {hash})
  }

  /** Deletes, in key order, the listed blocks at the heights recorded before the deletion started. */
  function DeleteOrphans(st: Store, heights: map<Hash, nat>, orphans: seq<Hash>): Store
    requires forall h :: h in orphans ==> h in heights
    decreases |orphans|
  {
    if orphans == [] then st
    else DeleteOrphans(DeleteOrphanedBlock(st, orphans[0], heights[orphans[0]]), heights, orphans[1..])
  }

  function HashesAbove(st: Store, height: nat): set<Hash> {
    set h | h in st.hashToHeight && st.hashToHeight[h] > height
  }

  /** Removes every block whose hash entry lies above `height`. */
  function CleanOrphanedBlocks(st: Store, height: nat): Store {
    DeleteOrphans(st, st.hashToHeight, KeyOrder.SortedKeys(HashesAbove(st, height)))
  }

  // ---------- connecting a block: the parts that write more than one key ----------

  /** Writes the first `n` transactions of a block to the transaction index. */
  function StoreTxs(txs: map<Hash, TxRec>, b: Block, height: nat, n: nat): map<Hash, TxRec>
    requires n <= |b.txs|
  {
    if n == 0 then txs
    else StoreTxs(txs, b, height, n - 1)[b.txs[n - 1].id := TxRec(b.hash, height, n - 1, b.txs[n - 1])]
  }

  function StoreBlock(st: Store, b: Block, height: nat): Store {
    st.(blocks := st.blocks[b.hash := Compact(height, b.prev, b.merkleRoot, TxIds(b.txs))],
        txs := StoreTxs(st.txs, b, height, |b.txs|))
  }

  function StoreBlockIndex(st: Store, hash: Hash, height: nat): Store {
    st.(heightToHash := st.heightToHash[height := hash], hashToHeight := st.hashToHeight[hash := height])
  }
}
