/** Exactly which blocks connect: those whose every input is unspent, or created earlier in the block. */
module Availability {
  import opened Types
  import opened Storage
  import opened Ledger
  import opened UtxoFacts
  import opened BlockFacts
  import opened Inverse
  import opened Chain
  import opened ChainSpec
  import opened Represent
  import opened Batching
  import opened RollbackProofs
  import opened Runs
  import opened Chunks

  /** Every input is an unspent output, or an output of an earlier transaction of the block. */
  ghost predicate InputsAvailable(entries: map<Outpoint, Utxo>, txs: seq<Tx>) {
    txs != [] ==>
      && InputsAvailable(entries, txs[..|txs| - 1])
      && forall op :: op in txs[|txs| - 1].Spends() ==>
           (op in entries && !entries[op].IsSpent()) || CreatedIn(txs[..|txs| - 1], op)
  }

  /** What the stored spending marks look like to a block at a height that is not committed yet. */
  ghost predicate MarksLive(committed: Store, entries: map<Outpoint, Utxo>, height: nat) {
    && height !in committed.heightToHash
    && forall op :: op in entries && entries[op].IsSpent() ==> !Orphaned(committed, entries[op])
  }

  lemma {:induction false} SpentWasAvailable(entries: map<Outpoint, Utxo>, txs: seq<Tx>, op: Outpoint)
    requires InputsAvailable(entries, txs) && SpentIn(txs, op)
    ensures (op in entries && !entries[op].IsSpent()) || CreatedIn(txs, op)
  {
    if op !in txs[|txs| - 1].Spends() { SpentWasAvailable(entries, txs[..|txs| - 1], op); }
  }

  /** One input of the next transaction may be spent exactly when it is available. */
  lemma SpendableIsAvailable(committed: Store, before: map<Outpoint, Utxo>, mid: map<Outpoint, Utxo>, txs: seq<Tx>,
                             height: nat, op: Outpoint)
    requires txs != [] && height > 0 && NewIds(before, txs) && MarksLive(committed, before, height)
    requires BlockApplied(before, mid, txs[..|txs| - 1], height) && InputsAvailable(before, txs[..|txs| - 1])
    ensures op in mid && Spendable(committed, mid[op], height, txs[|txs| - 1].id) <==>
              (op in before && !before[op].IsSpent()) || CreatedIn(txs[..|txs| - 1], op)
  {
    var init, tx := txs[..|txs| - 1], txs[|txs| - 1];
    assert HasId(txs, tx.id);
    if SpentIn(init, op) {
      SpentWasAvailable(before, init, op);
    } else if op in mid && op !in before {
      CreatedUtxoMatches(init, height, op);
    }
  }

  /** A list of new transactions applies exactly when every input is available. */
  lemma {:induction false} ApplyExactlyWhen(committed: Store, us: UtxoSet, txs: seq<Tx>, height: nat)
    requires AddrIndexed(us) && height > 0 && NewIds(us.entries, txs) && MarksLive(committed, us.entries, height)
    ensures ApplyTxs(committed, StartWork(us), txs, height).Ok? <==> InputsAvailable(us.entries, txs)
  {
    if txs != [] {
      hide AddrIndexed, NewIds, BlockApplied, MarksLive, Spendable, SpendInputs, CreateOutputs;
      var n := |txs| - 1;
      var init, tx := txs[..n], txs[n];
      NewIdsPrefix(us.entries, txs);
      ApplyExactlyWhen(committed, us, init, height);
      ApplyTxsExactly(committed, us, init, height);
      var before := ApplyTxs(committed, StartWork(us), init, height);
      if before.Ok? {
        var mid := before.value.utxos.entries;
        IdsStayNew(us.entries, mid, txs, height);
        ApplyTxExactly(committed, before.value, tx, height);
        forall op | op in tx.Spends()
          ensures op in mid && Spendable(committed, mid[op], height, tx.id) <==>
                    (op in us.entries && !us.entries[op].IsSpent()) || CreatedIn(init, op)
        {
          SpendableIsAvailable(committed, us.entries, mid, txs, height, op);
        }
      }
    }
  }

  /** A new block connects exactly when every input is unspent or created earlier in the block. */
  lemma ConnectsExactlyWhen(st: Store, best: nat, cache: map<nat, int>, b: Block, height: nat)
    requires LedgerOk(st) && NewBlock(st, b, height) && height > 0
    ensures ConnectBlock(st, st, best, cache, b, height).Ok? <==> InputsAvailable(st.utxos.entries, b.txs)
  {
    NewBlockNewIds(st, b, height);
    StoredSpendsAreLive(st);
    ApplyExactlyWhen(st, st.utxos, b.txs, height);
  }

  /** A single new block on the tip that passes its checks is connected exactly when all it spends is
      there to be spent. */
  lemma SingleGoesThroughExactlyWhen(env: Env, s: ChainState, chain: seq<Block>, b: Block)
    requires Represents(s, chain) && Continues(s.db, chain, [b]) && Welcome(env, [b], |chain|)
    ensures ProcessBatch(env, s, [b]).0 == Done <==> InputsAvailable(s.db.utxos.entries, b.txs)
    ensures ProcessBatch(env, s, [b]).0 == Done ==> Represents(ProcessBatch(env, s, [b]).1, chain + [b])
  {
    hide Grow, ConnectBlock, Welcome, ProcessBatch, InputsAvailable, Represents, SpentByOneBlock;
    Mirror(s, chain);
    OneSpender(b);
    ChunkGoesThrough(env, s, chain, [b]);
    SingleGrows(s, chain, b);
    if ProcessBatch(env, s, [b]).0 == Done { ThroughGives(s, ProcessBatch(env, s, [b]).1, chain, [b]); }
  }

  lemma SingleGrows(s: ChainState, chain: seq<Block>, b: Block)
    requires Represents(s, chain) && chain != [] && Continues(s.db, chain, [b])
    ensures Grow(s.db, chain, [b]).Ok? <==> InputsAvailable(s.db.utxos.entries, b.txs)
  {
    hide ConnectBlock, InputsAvailable, CachesOk, Build;
    HoldsShape(s.db, chain);
    hide Holds, Placed;
    assert [b][0] == b && [b][..0] == [] && Grow(s.db, chain, []) == Ok(s.db);
    assert NewBlock(s.db, b, |chain|);
    ConnectsExactlyWhen(s.db, |chain| - 1, map[], b, |chain|);
  }

  /** A checked new block on the tip with nothing but a coinbase always goes through, so every reachable
      state can be extended, and doing so is an allowed step of a run. */
  lemma CoinbaseAlwaysGoesThrough(env: Env, s: ChainState, chain: seq<Block>, b: Block)
    requires Represents(s, chain) && Continues(s.db, chain, [b]) && Welcome(env, [b], |chain|)
    requires |b.txs| == 1 && b.txs[0].IsCoinbase()
    ensures Allowed(env, s, Connect([b]))
    ensures Represents(Next(env, s, Connect([b]), b), chain + [b])
  {
    hide CachesOk, ProcessBatch, Welcome, Holds, CheckSingle, PreValid, FirstHeight;
    NewOnesPassChecks(env, s, chain, [b]);
    SingleGoesThroughExactlyWhen(env, s, chain, b);
    assert b.txs[0].Spends() == [] && b.txs[..0] == [];
    OneSpender(b);
    TipHasHash(s, chain);
    assert Next(env, s, Connect([b]), b) == ProcessBatch(env, s, [b]).1;
  }

  lemma TipHasHash(s: ChainState, chain: seq<Block>)
    requires Represents(s, chain)
    ensures chain[|chain| - 1].hash != ZERO_HASH
  {
    HoldsShape(s.db, chain);
  }
}
