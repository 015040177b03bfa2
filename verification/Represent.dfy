/** When a chain state stands for a chain, and how a batch extends that chain. */
module Represent {
  import opened Types
  import opened Storage
  import opened Ledger
  import opened UtxoFacts
  import opened BlockFacts
  import opened Inverse
  import opened CommittedFacts
  import opened Chain
  import opened ChainSpec

  // ---------- the invariant of every state on a tip ----------

  predicate NodeOk(node: BlockNode, hash: Hash, height: nat) {
    node.hash == hash && node.height == height && node.work == height && node.status == Connected
  }

  /** Nodes stand under their hash, and the parent a node points to is the node the index has for it, one
      or more heights below. */
  ghost predicate Rooted(index: map<Hash, BlockNode>) {
    && (forall x :: x in index ==> index[x].hash == x)
    && (forall x :: x in index && index[x].parent.Some? ==>
          var p := index[x].parent.value;
          p.hash in index && index[p.hash] == p && p.height < index[x].height)
  }

  /** The in-memory caches never name a block that is not stored, nor a wrong height; the work of an
      index node is its height, so most work means longest; and index nodes share their parents. */
  ghost predicate CachesOk(s: ChainState) {
    && (forall x :: x in s.knownBlocks ==> x in s.db.hashToHeight && s.knownBlocks[x] == s.db.hashToHeight[x])
    && (forall x :: x in s.blockIndex ==> x in s.db.hashToHeight && NodeOk(s.blockIndex[x], x, s.db.hashToHeight[x]))
    && Rooted(s.blockIndex)
  }

  /** Whatever is indexed, all blocks above it are. */
  ghost predicate IndexedFromTop(index: map<Hash, BlockNode>, chain: seq<Block>) {
    forall i, j :: 0 <= i < j < |chain| && chain[i].hash in index ==> chain[j].hash in index
  }

  /** The stored tip is the in-memory tip; only before the first block above genesis may it be absent. */
  ghost predicate TipOk(s: ChainState) {
    s.db.tip == Some(Tip(s.bestHeight, s.bestHash)) || (s.bestHeight == 0 && s.db.tip == None)
  }

  ghost predicate SuppliesOk(db: Store, chain: seq<Block>) {
    forall h: nat :: h < |chain| ==> h in db.supply && db.supply[h] == SupplyAt(chain, h)
  }

  /** The store is the one `chain` builds, up to the tip, to recorded supplies above it, and to marks that
      were cleared when a later spender of the same output was disconnected. */
  ghost predicate Holds(db: Store, chain: seq<Block>) {
    && chain != []
    && Build(chain).Ok?
    && Worn(db, Build(chain).value)
    && SuppliesOk(db, chain)
  }

  /** The store holds `chain`, and the in-memory state mirrors its last block. */
  ghost predicate Represents(s: ChainState, chain: seq<Block>) {
    && Holds(s.db, chain)
    && s.bestHeight == |chain| - 1
    && s.bestHash == chain[|chain| - 1].hash
    && s.bestBlock == Some(chain[|chain| - 1])
    && TipOk(s)
    && CachesOk(s)
    && IndexedFromTop(s.blockIndex, chain)
  }

  lemma HoldsShape(db: Store, chain: seq<Block>)
    requires Holds(db, chain)
    ensures LedgerOk(db) && Shaped(db, chain)
  {
    hide Build, AddrIndexed, Faded, LedgerOk;
    BuiltIsShaped(chain);
    var st := Build(chain).value;
    WornLedger(db, st);
    forall i | 0 <= i < |chain| ensures Placed(db, chain[i], i) {
      assert Placed(st, chain[i], i);
    }
  }

  // ---------- forgotten spends ----------

  /** The chain spends this output, and the store has it as unspent. */
  ghost predicate Forgets(db: Store, chain: seq<Block>, op: Outpoint) {
    op in db.utxos.entries && !db.utxos.entries[op].IsSpent() && SpentInBlocks(chain, op)
  }

  /** The store remembers every spend of its chain. */
  ghost predicate Intact(db: Store, chain: seq<Block>) {
    forall op :: !Forgets(db, chain, op)
  }

  lemma ForgottenMark(db: Store, chain: seq<Block>, op: Outpoint)
    requires Holds(db, chain) && op in db.utxos.entries
    ensures op in Build(chain).value.utxos.entries
    ensures db.utxos.entries[op] == Build(chain).value.utxos.entries[op] <==> !Forgets(db, chain, op)
    ensures Forgets(db, chain, op) <==> SpentInBlocks(chain, op) && !db.utxos.entries[op].IsSpent()
    ensures !SpentInBlocks(chain, op) ==> !db.utxos.entries[op].IsSpent()
    ensures db.utxos.entries[op].Output() == Build(chain).value.utxos.entries[op].Output()
  {
    hide Build, SpentInBlocks, AddrIndexed, SuppliesOk;
    BuiltIsShaped(chain);
    BuiltMarks(chain);
    var st := Build(chain).value;
    assert UtxoOk(st, op, st.utxos.entries[op]);
  }

  /** A store is the very one its chain builds, up to tip and supplies, exactly when no spend is forgotten. */
  lemma IntactExactly(db: Store, chain: seq<Block>)
    requires Holds(db, chain)
    ensures Intact(db, chain) <==> SameCore(db, Build(chain).value)
  {
    hide Build, Forgets, SuppliesOk;
    BuiltIsShaped(chain);
    var st := Build(chain).value;
    forall op | op in db.utxos.entries
      ensures op in st.utxos.entries && (db.utxos.entries[op] == st.utxos.entries[op] <==> !Forgets(db, chain, op))
    {
      ForgottenMark(db, chain, op);
    }
    OnlyStoredForgets(db, chain);
    UnwornIsSame(db, st);
  }

  lemma OnlyStoredForgets(db: Store, chain: seq<Block>)
    ensures forall op :: Forgets(db, chain, op) ==> op in db.utxos.entries
  {
  }

  /** A block counts as known exactly when it is on the chain, whether or not it is cached. */
  lemma HasMeansStored(s: ChainState, chain: seq<Block>, hash: Hash)
    requires Represents(s, chain)
    ensures Has(s, hash) <==> hash in s.db.blocks
    ensures Has(s, hash) <==> exists i :: 0 <= i < |chain| && chain[i].hash == hash
  {
    HoldsShape(s.db, chain);
    if hash in s.db.blocks {
      assert chain[s.db.hashToHeight[hash]].hash == hash;
    }
    if i :| 0 <= i < |chain| && chain[i].hash == hash {
      assert Placed(s.db, chain[i], i);
    }
  }

  /** Every block above genesis passed its checkpoint. */
  ghost predicate CheckpointsHold(env: Env, chain: seq<Block>) {
    forall i :: 1 <= i < |chain| ==> CheckpointOk(env.checkpoints, i, chain[i].hash)
  }

  // ---------- what is relied on about new blocks ----------

  predicate IdInBlocks(blocks: seq<Block>, id: Hash) {
    exists i :: 0 <= i < |blocks| && HasId(blocks[i].txs, id)
  }

  /** Transaction ids are hashes of fresh transactions: distinct, and new to the store. */
  ghost predicate FreshTxs(db: Store, blocks: seq<Block>) {
    && (forall i :: 0 <= i < |blocks| ==> DistinctIds(blocks[i].txs) && blocks[i].hash != ZERO_HASH)
    && (forall i, id :: 0 <= i < |blocks| && HasId(blocks[i].txs, id) ==> id !in db.txs)
    && (forall i, j, id :: 0 <= i < j < |blocks| && HasId(blocks[i].txs, id) ==> !HasId(blocks[j].txs, id))
  }

  /** No outpoint is spent by two different blocks. */
  ghost predicate SpentByOneBlock(blocks: seq<Block>) {
    forall i, j, op :: 0 <= i < j < |blocks| && SpentIn(blocks[i].txs, op) ==> !SpentIn(blocks[j].txs, op)
  }

  /** The blocks continue the chain: linked to its tip and to each other, and none is stored yet. */
  ghost predicate Continues(db: Store, chain: seq<Block>, blocks: seq<Block>) {
    && chain != []
    && (forall i :: 0 <= i < |blocks| ==> blocks[i].hash !in db.blocks)
    && DistinctHashes(blocks)
    && Linked(blocks)
    && (blocks != [] ==> blocks[0].prev == chain[|chain| - 1].hash)
    && FreshTxs(db, blocks)
  }

  // ---------- one block of a batch ----------

  /** Where a batch on `db` stands after the blocks `done`, as far as the pending store goes. */
  ghost predicate BatchInv(db: Store, done: seq<Block>, view: Store) {
    && (forall id :: id in view.txs ==> id in db.txs || IdInBlocks(done, id))
    && (forall op :: SpentInBlocks(done, op) ==> op in view.utxos.entries && view.utxos.entries[op].IsSpent())
    && (forall op :: op in view.utxos.entries && view.utxos.entries[op].IsSpent() && !SpentInBlocks(done, op) ==>
          op in db.utxos.entries && db.utxos.entries[op] == view.utxos.entries[op])
  }

  /** The supplies the batch remembers are the pending ones, and it remembers the last block's. */
  ghost predicate CacheInv(db: Store, height: nat, p: Pending) {
    && (height - 1 in p.cache || p.view == db)
    && (forall h :: h in p.cache ==> h in p.view.supply && p.cache[h] == p.view.supply[h])
  }

  lemma NextHashIsNew(db: Store, view: Store, chain: seq<Block>, blocks: seq<Block>, i: nat)
    requires i < |blocks| && Shaped(db, chain) && Shaped(view, chain + blocks[..i])
    requires blocks[i].hash !in db.blocks && DistinctHashes(blocks)
    ensures blocks[i].hash !in view.blocks && blocks[i].hash !in view.hashToHeight
    ensures |chain| + i !in view.heightToHash
  {
    var all, b := chain + blocks[..i], blocks[i];
    forall k | 0 <= k < |all| ensures all[k].hash != b.hash {
      if k < |chain| {
        assert Placed(db, chain[k], k);
      } else {
        assert all[k] == blocks[k - |chain|];
      }
    }
  }

  lemma NextTxsAreNew(db: Store, view: Store, blocks: seq<Block>, i: nat)
    requires i < |blocks| && FreshTxs(db, blocks) && BatchInv(db, blocks[..i], view)
    ensures forall id :: HasId(blocks[i].txs, id) ==> id !in view.txs
  {
    forall id | HasId(blocks[i].txs, id) ensures id !in view.txs {
      assert forall j :: 0 <= j < i ==> blocks[..i][j] == blocks[j];
    }
  }

  lemma NextIsNew(db: Store, chain: seq<Block>, blocks: seq<Block>, i: nat, view: Store)
    requires Holds(db, chain) && Continues(db, chain, blocks) && i < |blocks|
    requires Holds(view, chain + blocks[..i]) && BatchInv(db, blocks[..i], view)
    ensures NewBlock(view, blocks[i], |chain| + i)
  {
    HoldsShape(db, chain);
    HoldsShape(view, chain + blocks[..i]);
    NextHashIsNew(db, view, chain, blocks, i);
    NextTxsAreNew(db, view, blocks, i);
  }

  lemma NextFollows(db: Store, chain: seq<Block>, blocks: seq<Block>, i: nat, view: Store)
    requires Holds(db, chain) && Continues(db, chain, blocks) && i < |blocks|
    requires Holds(view, chain + blocks[..i]) && BatchInv(db, blocks[..i], view)
    ensures Follows(view, (chain + blocks[..i])[|chain| + i - 1].hash, blocks[i], |chain| + i)
  {
    NextIsNew(db, chain, blocks, i, view);
  }

  /** Two committed stores agree on whatever the next block spends, unless an earlier block of the
      same batch already spent it. */
  lemma NextAgrees(db: Store, done: seq<Block>, view: Store, b: Block)
    requires LedgerOk(db) && LedgerOk(view) && BatchInv(db, done, view)
    requires forall op :: SpentIn(b.txs, op) ==> !SpentInBlocks(done, op)
    ensures forall op :: SpentIn(b.txs, op) ==> AgreeOn(db, view, view.utxos.entries, op)
  {
    forall op | SpentIn(b.txs, op) ensures AgreeOn(db, view, view.utxos.entries, op) {
      if op in view.utxos.entries && view.utxos.entries[op].IsSpent() {
        assert UtxoOk(db, op, db.utxos.entries[op]);
        assert UtxoOk(view, op, view.utxos.entries[op]);
      }
    }
  }

  /** The supply below the next block is the same from the batch cache and from the view. */
  lemma PrevSupplyAgrees(db: Store, p: Pending, height: nat)
    requires height > 0 && height - 1 in p.view.supply && CacheInv(db, height, p)
    ensures PrevSupply(db, p.cache, height) == PrevSupply(p.view, map[], height) == p.view.supply[height - 1]
  {
  }
}
