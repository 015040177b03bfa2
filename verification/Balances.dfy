/** The conservation laws on whole chains: money supply and address balances of every reachable state. */
module Balances {
  import opened Types
  import opened Storage
  import opened Ledger
  import opened MapSums
  import opened UtxoFacts
  import opened Inverse
  import opened CommittedFacts
  import opened Conservation
  import opened AddressBalance
  import opened Chain
  import opened ChainSpec
  import opened Represent
  import opened Batching
  import opened RollbackProofs
  import opened Runs

  // ---------- what is counted again, and what is forgotten ----------

  ghost function EntriesOf(chain: seq<Block>): map<Outpoint, Utxo> {
    if Build(chain).Ok? then Build(chain).value.utxos.entries else map[]
  }

  /** What the blocks of a chain counted again as input, because the same block or an earlier one had
      already spent it. */
  ghost function Repeated(chain: seq<Block>, g: Weight): int {
    if chain == [] then 0
    else
      var n := |chain| - 1;
      Repeated(chain[..n], g) + BlockRepeats(g, EntriesOf(chain), EntriesOf(chain[..n]), chain[n].txs)
  }

  function ForgottenWeight(chain: seq<Block>, g: Weight): (Outpoint, Utxo) -> int {
    (op: Outpoint, u: Utxo) => if !u.IsSpent() && SpentInBlocks(chain, op) then g(u.Output()) else 0
  }

  /** What the store has as unspent although its chain spends it. */
  ghost function Forgotten(db: Store, chain: seq<Block>, g: Weight): int {
    Sum(db.utxos.entries, ForgottenWeight(chain, g))
  }

  ghost predicate AllSpendOnce(chain: seq<Block>) {
    forall i :: 0 <= i < |chain| ==> SpendsOnce(chain[i].txs)
  }

  lemma NextSpendsUnspent(chain: seq<Block>)
    requires chain != [] && SpentByOneBlock(chain)
    ensures SpendsUnspent(EntriesOf(chain[..|chain| - 1]), chain[|chain| - 1].txs)
  {
    hide Build, SpentInBlocks;
    var n := |chain| - 1;
    if Build(chain[..n]).Ok? {
      BuiltMarks(chain[..n]);
      SpentByOneBlockSnoc(chain);
    }
  }

  lemma {:induction false} NothingRepeated(chain: seq<Block>, g: Weight)
    requires AllSpendOnce(chain) && SpentByOneBlock(chain)
    ensures Repeated(chain, g) == 0
  {
    hide SpendsUnspent, Build;
    if chain != [] {
      var n := |chain| - 1;
      NextSpendsUnspent(chain);
      SpentByOneBlockSnoc(chain);
      NothingRepeated(chain[..n], g);
      SpendsOnceNoRepeats(g, EntriesOf(chain), EntriesOf(chain[..n]), chain[n].txs);
    }
  }

  lemma {:induction false} SumOfNothing(m: map<Outpoint, Utxo>, f: (Outpoint, Utxo) -> int)
    requires forall op :: op in m ==> f(op, m[op]) == 0
    ensures Sum(m, f) == 0
    decreases |m|
  {
    if m != map[] {
      var op :| op in m;
      SumRemove(m, op, f);
      SumOfNothing(m - {op}, f);
    }
  }

  lemma NothingForgotten(db: Store, chain: seq<Block>, g: Weight)
    requires Intact(db, chain)
    ensures Forgotten(db, chain, g) == 0
  {
    hide SpentInBlocks;
    forall op | op in db.utxos.entries ensures ForgottenWeight(chain, g)(op, db.utxos.entries[op]) == 0 {
      assert !Forgets(db, chain, op);
    }
    SumOfNothing(db.utxos.entries, ForgottenWeight(chain, g));
  }

  /** A store has more unspent than the chain leaves by exactly what it forgets. */
  lemma TotalWithForgotten(db: Store, chain: seq<Block>, g: Weight)
    requires Holds(db, chain)
    ensures Total(db.utxos.entries, g) == Total(EntriesOf(chain), g) + Forgotten(db, chain, g)
  {
    hide Build, SpentInBlocks, Forgets;
    var entries := EntriesOf(chain);
    forall op | op in db.utxos.entries
      ensures UnspentWeight(g)(op, db.utxos.entries[op])
              == UnspentWeight(g)(op, entries[op]) + ForgottenWeight(chain, g)(op, db.utxos.entries[op])
    {
      WeightWithForgotten(db, chain, g, op);
    }
    SumSplits(db.utxos.entries, entries, UnspentWeight(g), UnspentWeight(g), ForgottenWeight(chain, g));
  }

  lemma WeightWithForgotten(db: Store, chain: seq<Block>, g: Weight, op: Outpoint)
    requires Holds(db, chain) && op in db.utxos.entries
    ensures op in EntriesOf(chain)
    ensures UnspentWeight(g)(op, db.utxos.entries[op])
            == UnspentWeight(g)(op, EntriesOf(chain)[op]) + ForgottenWeight(chain, g)(op, db.utxos.entries[op])
  {
    hide Build, SpentInBlocks, Forgets, AddrIndexed, SuppliesOk;
    ForgottenMark(db, chain, op);
    BuiltMarks(chain);
  }

  // ---------- money supply ----------

  lemma GenesisSupply(g: Block)
    requires Build([g]).Ok?
    ensures SupplyAt([g], 0) == Total(EntriesOf([g]), ValueOf) - Repeated([g], ValueOf)
  {
    hide ConnectBlock, BlockRepeats;
    EmptyIsSound(g);
    ConnectMovesSupply(EMPTY_STORE, EMPTY_STORE, 0, map[], g, 0);
    assert [g][..1] == [g] && [g][..0] == [] && EntriesOf([]) == map[];
    BuiltSupplies([g], 0);
  }

  lemma StackedSupply(chain: seq<Block>)
    requires Build(chain).Ok? && |chain| > 1
    ensures var n := |chain| - 1;
            Build(chain[..n]).Ok? &&
            GetSupply(Build(chain).value, n) - GetSupply(Build(chain[..n]).value, n - 1)
            == Total(EntriesOf(chain), ValueOf) - Total(EntriesOf(chain[..n]), ValueOf)
               - BlockRepeats(ValueOf, EntriesOf(chain), EntriesOf(chain[..n]), chain[n].txs)
  {
    hide ConnectBlock, BlockRepeats, LedgerOk, NewBlock, Total, Build;
    var n := |chain| - 1;
    Stacked(chain);
    BuiltSupplies(chain, n);
    var st := Build(chain[..n]).value;
    ConnectMovesSupply(EMPTY_STORE, st, n - 1, map[n - 1 := GetSupply(st, n - 1)], chain[n], n);
  }

  /** The supply recorded for a block is the total of what is unspent after it, short of whatever the
      chain counted again. */
  lemma {:induction false} SupplyIsTotal(chain: seq<Block>)
    requires Build(chain).Ok?
    ensures chain != []
    ensures SupplyAt(chain, |chain| - 1) == Total(EntriesOf(chain), ValueOf) - Repeated(chain, ValueOf)
  {
    hide Total, BlockRepeats, EntriesOf, Stack;
    var n := |chain| - 1;
    assert chain[..n + 1] == chain;
    if n == 0 {
      assert chain == [chain[0]];
      GenesisSupply(chain[0]);
    } else {
      StackedSupply(chain);
      SupplyIsTotal(chain[..n]);
      assert chain[..n][..n] == chain[..n];
    }
  }

  lemma SupplyOfCut(chain: seq<Block>, h: nat)
    requires h < |chain|
    ensures SupplyAt(chain, h) == SupplyAt(chain[..h + 1], h)
  {
    assert chain[..h + 1][..h + 1] == chain[..h + 1];
  }

  /** In a state of a chain, the supply recorded at any height is the unspent total that the chain cut
      there leaves, exactly when its blocks counted no value again. */
  lemma RecordedSupplyIsUnspentTotal(s: ChainState, chain: seq<Block>, h: nat)
    requires Represents(s, chain) && h < |chain|
    ensures var cut := chain[..h + 1];
            && Build(cut).Ok?
            && GetSupply(s.db, h) == Total(EntriesOf(cut), ValueOf) - Repeated(cut, ValueOf)
            && (GetSupply(s.db, h) == Total(EntriesOf(cut), ValueOf) <==> Repeated(cut, ValueOf) == 0)
            && (AllSpendOnce(cut) && SpentByOneBlock(cut) ==> GetSupply(s.db, h) == Total(EntriesOf(cut), ValueOf))
  {
    hide Total, Repeated, Build, EntriesOf, CachesOk, TipOk, Worn, SpentByOneBlock, AllSpendOnce, SupplyAt;
    var cut := chain[..h + 1];
    BuiltPrefix(chain, h + 1);
    SupplyIsTotal(cut);
    SupplyOfCut(chain, h);
    if AllSpendOnce(cut) && SpentByOneBlock(cut) { NothingRepeated(cut, ValueOf); }
  }

  /** The supply recorded at the tip of a state of a chain is the unspent total of its store, exactly when
      what the blocks counted again and what the store forgot add up to nothing. */
  lemma SupplyAtTipIsUnspentTotal(s: ChainState, chain: seq<Block>)
    requires Represents(s, chain)
    ensures var unspent := Total(s.db.utxos.entries, ValueOf);
            var off := Repeated(chain, ValueOf) + Forgotten(s.db, chain, ValueOf);
            && GetSupply(s.db, s.bestHeight) == unspent - off
            && (GetSupply(s.db, s.bestHeight) == unspent <==> off == 0)
            && (AllSpendOnce(chain) && Whole(s.db, chain) ==> off == 0)
  {
    hide Total, Repeated, Forgotten, Build, EntriesOf, CachesOk, TipOk, SpentByOneBlock, AllSpendOnce, Intact;
    RecordedSupplyIsUnspentTotal(s, chain, s.bestHeight);
    assert chain[..|chain|] == chain;
    TotalWithForgotten(s.db, chain, ValueOf);
    if AllSpendOnce(chain) && Whole(s.db, chain) {
      NothingRepeated(chain, ValueOf);
      NothingForgotten(s.db, chain, ValueOf);
    }
  }

  // ---------- the double count ----------

  lemma SpendOne(committed: Store, w: Work, op: Outpoint, h: nat, t: Tx)
    requires t.inputs == [op] && t.outputs == [] && !t.IsCoinbase()
    ensures ApplyTx(committed, w, t, h)
            == match MarkSpent(committed, w.utxos, op, h, t.id)
               case Err(e) => Err(e)
               case Ok(p) => Ok(Work(p.0, w.valueIn + p.1.value, w.valueOut, w.spent[op := p.1.Output()]))
  {
    assert t.Spends()[..0] == [] && SpendInputs(committed, w, [], h, t.id) == Ok(w);
  }

  lemma ThreeTxs(committed: Store, w: Work, cb: Tx, t1: Tx, t2: Tx, h: nat)
    requires cb.IsCoinbase() && cb.outputs == []
    ensures ApplyTxs(committed, w, [cb, t1, t2], h)
            == match ApplyTx(committed, w, t1, h)
               case Err(e) => Err(e)
               case Ok(mid) => ApplyTx(committed, mid, t2, h)
  {
    hide SpendInputs, CreateOutputs;
    assert [cb, t1, t2][..2] == [cb, t1] && [cb, t1][..1] == [cb] && [cb][..0] == [];
    CoinbaseAlone(committed, w, cb, h);
    assert ApplyTxs(committed, w, [cb], h) == Ok(w);
    assert ApplyTxs(committed, w, [cb, t1], h) == ApplyTx(committed, w, t1, h);
  }

  lemma CoinbaseAlone(committed: Store, w: Work, cb: Tx, h: nat)
    requires cb.IsCoinbase() && cb.outputs == []
    ensures ApplyTx(committed, w, cb, h) == Ok(w)
  {
  }

  /** The ledger itself does let one block spend an outpoint twice, and then counts its value twice:
      spending references are judged against the committed store, where this height is still free. */
  lemma RespendCountsTwice(committed: Store, us: UtxoSet, op: Outpoint, cb: Tx, t1: Tx, t2: Tx, h: nat)
    requires h > 0 && h !in committed.heightToHash && op in us.entries && !us.entries[op].IsSpent()
    requires cb.IsCoinbase() && cb.outputs == []
    requires t1.inputs == [op] && t2.inputs == [op] && t1.outputs == [] && t2.outputs == [] && t1.id != t2.id
    requires !t1.IsCoinbase() && !t2.IsCoinbase()
    ensures var r := ApplyTxs(committed, StartWork(us), [cb, t1, t2], h);
            && r.Ok?
            && r.value.valueIn == 2 * us.entries[op].value
            && Total(r.value.utxos.entries, ValueOf) == Total(us.entries, ValueOf) - us.entries[op].value
  {
    hide ApplyTx, ApplyTxs, Total;
    var w := StartWork(us);
    ThreeTxs(committed, w, cb, t1, t2, h);
    SpendOne(committed, w, op, h, t1);
    var u := us.entries[op];
    var once := ApplyTx(committed, w, t1, h).value;
    SpendOne(committed, once, op, h, t2);
    var twice := ApplyTx(committed, once, t2, h).value;
    TotalWithout(us.entries, op, u.(spendingHeight := h, spendingTx := t2.id));
    assert twice.utxos.entries == us.entries[op := u.(spendingHeight := h, spendingTx := t2.id)];
  }

  // ---------- address balances ----------

  ghost predicate AllInKeyRange(chain: seq<Block>) {
    forall i :: 0 <= i < |chain| ==> InKeyRange(chain[i].txs)
  }

  ghost function Imbalance(st: Store, a: Address): int {
    HistoryBalance(st.history, a) - UnspentBalance(st.utxos, a)
  }

  lemma EmptyBalance(a: Address)
    ensures Imbalance(EMPTY_STORE, a) == 0
  {
  }

  lemma GenesisBalance(g: Block, a: Address)
    requires Build([g]).Ok? && InKeyRange(g.txs)
    ensures Imbalance(Build([g]).value, a) == -Repeated([g], PaidTo(a))
  {
    hide ConnectBlock, BlockRepeats, InKeyRange;
    EmptyIsSound(g);
    ConnectMovesBalances(EMPTY_STORE, EMPTY_STORE, 0, map[], g, 0, a);
    EmptyBalance(a);
    assert [g][..0] == [] && EntriesOf([]) == map[];
  }

  lemma StackedBalance(chain: seq<Block>, a: Address)
    requires Build(chain).Ok? && |chain| > 1 && InKeyRange(chain[|chain| - 1].txs)
    ensures var n := |chain| - 1;
            Build(chain[..n]).Ok? &&
            Imbalance(Build(chain).value, a) - Imbalance(Build(chain[..n]).value, a)
            == -BlockRepeats(PaidTo(a), EntriesOf(chain), EntriesOf(chain[..n]), chain[n].txs)
  {
    hide ConnectBlock, BlockRepeats, LedgerOk, NewBlock, InKeyRange, HistoryBalance, UnspentBalance, Build;
    var n := |chain| - 1;
    Stacked(chain);
    var st := Build(chain[..n]).value;
    ConnectMovesBalances(EMPTY_STORE, st, n - 1, map[n - 1 := GetSupply(st, n - 1)], chain[n], n, a);
  }

  lemma {:induction false} BalanceIsUnspent(chain: seq<Block>, a: Address)
    requires Build(chain).Ok? && AllInKeyRange(chain)
    ensures Imbalance(Build(chain).value, a) == -Repeated(chain, PaidTo(a))
  {
    hide Imbalance, BlockRepeats, EntriesOf, Stack;
    var n := |chain| - 1;
    if n == 0 {
      assert chain == [chain[0]];
      GenesisBalance(chain[0], a);
    } else {
      StackedBalance(chain, a);
      BalanceIsUnspent(chain[..n], a);
    }
  }

  /** In a state of a chain, an address's history sums to its unspent outputs, exactly when what the blocks
      counted again of it and what the store forgot of it add up to nothing. */
  lemma HistoryIsUnspent(s: ChainState, chain: seq<Block>, a: Address)
    requires Represents(s, chain) && AllInKeyRange(chain)
    ensures var history, unspent := HistoryBalance(s.db.history, a), UnspentBalance(s.db.utxos, a);
            var off := Repeated(chain, PaidTo(a)) + Forgotten(s.db, chain, PaidTo(a));
            && history == unspent - off
            && (history == unspent <==> off == 0)
            && (AllSpendOnce(chain) && Whole(s.db, chain) ==> off == 0)
  {
    hide Repeated, Forgotten, Build, AllInKeyRange, AllSpendOnce, HistoryBalance, Total, CachesOk, TipOk, Intact,
         SpentByOneBlock;
    BalanceIsUnspent(chain, a);
    TotalWithForgotten(s.db, chain, PaidTo(a));
    if AllSpendOnce(chain) && Whole(s.db, chain) {
      NothingRepeated(chain, PaidTo(a));
      NothingForgotten(s.db, chain, PaidTo(a));
    }
  }
}
