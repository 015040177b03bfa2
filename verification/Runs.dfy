/** Whole runs: whatever sequence of connects, disconnects, rollbacks and restarts is executed, the
    state stands for one chain, its caches answer what the store answers, and going back to an
    earlier height gives back the earlier store. */
module Runs {
  import opened Types
  import opened Storage
  import opened Ledger
  import opened UtxoFacts
  import opened BlockFacts
  import opened Inverse
  import opened CommittedFacts
  import opened Chain
  import opened ChainSpec
  import opened Represent
  import opened Batching
  import opened Reachable
  import opened RollbackProofs

  // ---------- starting ----------

  lemma ChainBlockReadable(db: Store, chain: seq<Block>, i: nat)
    requires Holds(db, chain) && i < |chain|
    ensures var b := chain[i];
            && b.hash != ZERO_HASH && b.hash in db.blocks && GetBlock(db, b.hash) == Some(b)
            && b.hash in db.hashToHeight && db.hashToHeight[b.hash] == i
  {
    HoldsShape(db, chain);
    assert Placed(db, chain[i], i);
    ReadBack(db, chain[i], i);
  }

  lemma IndexBuiltOk(s: ChainState, n: nat)
    requires s.bestBlock.Some? && s.bestHash in s.db.hashToHeight && s.db.hashToHeight[s.bestHash] == s.bestHeight
    requires s.blockIndex == map[] && s.knownBlocks == map[]
    ensures CachesOk(BuildBlockIndex(s))
  {
  }

  /** A restart on a store that holds a chain finds that chain again. */
  lemma RestartFindsChain(env: Env, s: ChainState, chain: seq<Block>, genesis: Block)
    requires Represents(s, chain) && env.genesisHash == chain[0].hash
    ensures var (o, s1) := LoadChainState(env, Unloaded(s.db), genesis);
            o == Done && Represents(s1, chain) && s1.db == s.db
  {
    hide Holds, GetBlock, BuildBlockIndex, CachesOk, InitializeGenesis, IndexedFromTop;
    var n := |chain| - 1;
    ChainBlockReadable(s.db, chain, 0);
    ChainBlockReadable(s.db, chain, n);
    var (o, s1) := LoadChainState(env, Unloaded(s.db), genesis);
    if s.db.tip.Some? {
      var read := Unloaded(s.db).(bestBlock := s.bestBlock, bestHash := s.bestHash, bestHeight := s.bestHeight);
      IndexBuiltOk(read, n);
      IndexKeeps(read);
      assert s1 == BuildBlockIndex(read);
      TipAlone(s.db, chain, s1.blockIndex);
    } else {
      assert s1 == Unloaded(s.db).(bestBlock := s.bestBlock, bestHash := s.bestHash, bestHeight := 0);
      NoCaches(s1);
      TipAlone(s.db, chain, s1.blockIndex);
    }
  }

  lemma TipAlone(db: Store, chain: seq<Block>, index: map<Hash, BlockNode>)
    requires Holds(db, chain) && index.Keys <= {chain[|chain| - 1].hash}
    ensures IndexedFromTop(index, chain)
  {
    HoldsShape(db, chain);
    hide Holds;
    forall i | 0 <= i < |chain| && chain[i].hash in index ensures i == |chain| - 1 {
      assert Placed(db, chain[i], i) && Placed(db, chain[|chain| - 1], |chain| - 1);
    }
  }

  lemma NoCaches(s: ChainState)
    requires s.blockIndex == map[] && s.knownBlocks == map[]
    ensures CachesOk(s)
  {
  }

  lemma IndexKeeps(s: ChainState)
    ensures var s1 := BuildBlockIndex(s);
            && s1.blockIndex.Keys <= s.blockIndex.Keys + {s.bestHash}
            && s1.db == s.db && s1.bestBlock == s.bestBlock && s1.bestHash == s.bestHash && s1.bestHeight == s.bestHeight
  {
  }

  lemma GenesisGoesThrough(env: Env, g: Block)
    requires GenesisOk(g) && ProcessBatch(env, Unloaded(EMPTY_STORE), [g]).0 == Done
    ensures Build([g]).Ok? && ProcessBatch(env, Unloaded(EMPTY_STORE), [g]).1.db == Build([g]).value
    ensures Build([g]).value.tip == None
  {
    hide WellFormed;
    var s := Unloaded(EMPTY_STORE);
    assert NewBlocks(s, [g]) == [g];
    SingleApplied(env, s, g, 0);
  }

  lemma BuiltHolds(chain: seq<Block>)
    requires Build(chain).Ok?
    ensures Holds(Build(chain).value, chain)
  {
    hide Build;
    BuiltIsShaped(chain);
    FadesNothing(Build(chain).value.utxos.entries);
    forall h: nat | h < |chain|
      ensures h in Build(chain).value.supply && Build(chain).value.supply[h] == SupplyAt(chain, h)
    {
      BuiltSupplies(chain, h);
    }
  }

  /** A first start on an empty store connects the genesis block; the next start stands on it. */
  lemma FirstStartThenRestart(env: Env, g: Block)
    requires GenesisOk(g) && env.genesisHash == g.hash
    requires LoadChainState(env, Unloaded(EMPTY_STORE), g).0 == Done
    ensures var s1 := LoadChainState(env, Unloaded(EMPTY_STORE), g).1;
            var (o, s2) := LoadChainState(env, Unloaded(s1.db), g);
            && Build([g]) == Ok(s1.db)
            && o == Done && Represents(s2, [g]) && Whole(s2.db, [g])
  {
    hide ProcessBatch, Build, Holds, BuildBlockIndex, GetBlock, Intact, SpentByOneBlock, SameCore;
    GenesisGoesThrough(env, g);
    var st := Build([g]).value;
    BuiltHolds([g]);
    HoldsShape(st, [g]);
    NoCaches(Unloaded(st).(bestBlock := Some(g), bestHash := g.hash, bestHeight := 0));
    var standing := Unloaded(st).(bestBlock := Some(g), bestHash := g.hash, bestHeight := 0);
    assert Represents(standing, [g]);
    RestartFindsChain(env, standing, [g], g);
    OneSpender(g);
    SameAsItself(st);
    IntactExactly(st, [g]);
  }

  lemma SameAsItself(st: Store)
    ensures SameCore(st, st)
  {
  }

  // ---------- the first batch after the first start ----------

  /** The state a first start leaves, had it set genesis as its tip. */
  function WithGenesisTip(f: ChainState, g: Block): ChainState {
    f.(bestBlock := Some(g), bestHash := g.hash)
  }

  lemma {:induction false} KnownPrefixSame(f: ChainState, g: Block, blocks: seq<Block>)
    ensures KnownPrefix(f, blocks) == KnownPrefix(WithGenesisTip(f, g), blocks)
  {
    if blocks != [] { KnownPrefixSame(f, g, blocks[1..]); }
  }

  /** Without a best block the node counts as downloading, as it does without peers. */
  lemma {:induction false} ApplySameLevel(env: Env, f: ChainState, g: Block, size: nat, blocks: seq<Block>, first: nat)
    requires f.bestBlock == None
    ensures ApplyBlocks(env, f, size, blocks, first) == ApplyBlocks(env.(peers := 0), WithGenesisTip(f, g), size,
          blocks, first)
  {
    hide ConnectBlock;
    if blocks != [] { ApplySameLevel(env, f, g, size, blocks[..|blocks| - 1], first); }
  }

  lemma CommitSame(f: ChainState, g: Block, blocks: seq<Block>, first: nat, view: Store)
    requires blocks != [] && first + |blocks| - 1 > f.bestHeight
    ensures Commit(f, blocks, first, view) == Commit(WithGenesisTip(f, g), blocks, first, view)
  {
  }

  lemma PreValidSame(env: Env, f: ChainState, g: Block, blocks: seq<Block>)
    requires blocks != []
    ensures PreValid(env, f, blocks) <==> PreValid(env.(peers := 0), WithGenesisTip(f, g), blocks)
  {
    forall i | 0 <= i < |blocks| ensures WellFormed(env, blocks[i]) <==> WellFormed(env.(peers := 0), blocks[i]) {
    }
  }

  lemma BatchSame(env: Env, f: ChainState, g: Block, batch: seq<Block>)
    requires f.bestBlock == None && f.bestHeight == 0
    requires NewBlocks(f, batch) != [] ==> NewBlocks(f, batch)[0].prev != ZERO_HASH
    ensures var (o, s1) := ProcessBatch(env, f, batch);
            var (o0, s0) := ProcessBatch(env.(peers := 0), WithGenesisTip(f, g), batch);
            && o == o0
            && (o == Done && batch != [] ==> s1 == s0)
            && (o != Done || batch == [] ==> s1 == f)
  {
    hide ApplyBlocks, Commit, KnownPrefix, PreValid;
    KnownPrefixSame(f, g, batch);
    var blocks := NewBlocks(f, batch);
    if blocks != [] { PreValidSame(env, f, g, blocks); }
    if blocks != [] && FirstHeight(f.db, blocks[0]).Ok? {
      var first := FirstHeight(f.db, blocks[0]).value;
      ApplySameLevel(env, f, g, |blocks|, blocks, first);
      var r := ApplyBlocks(env, f, |blocks|, blocks, first);
      if r.Ok? { CommitSame(f, g, blocks, first, r.value.view); }
    }
  }

  /** The first batch that goes through after the first start stands on genesis like any other. */
  lemma FirstBatchStands(env: Env, f: ChainState, g: Block, batch: seq<Block>)
    requires f.bestBlock == None && f.bestHeight == 0 && Represents(WithGenesisTip(f, g), [g])
    requires OnTip(WithGenesisTip(f, g), NewBlocks(f, batch))
    ensures var (o, s1) := ProcessBatch(env, f, batch);
            && (o == Done && batch != [] ==> Represents(s1, [g] + NewBlocks(f, batch)))
            && (o != Done || batch == [] ==> s1 == f)
  {
    hide ProcessBatch, FreshTxs, HashesBind, Grown;
    KnownPrefixSame(f, g, batch);
    if NewBlocks(f, batch) != [] {
      GenesisHashSet(f, g);
      BatchSame(env, f, g, batch);
      BatchExtendsChain(env.(peers := 0), WithGenesisTip(f, g), [g], batch);
    } else {
      NothingNew(env, f, batch);
    }
  }

  lemma NothingNew(env: Env, f: ChainState, batch: seq<Block>)
    requires NewBlocks(f, batch) == []
    ensures ProcessBatch(env, f, batch).0 == Done ==> batch == []
    ensures ProcessBatch(env, f, batch).1 == f
  {
    hide KnownPrefix, ApplyBlocks, PreValid;
  }

  lemma GenesisHashSet(f: ChainState, g: Block)
    requires Represents(WithGenesisTip(f, g), [g])
    ensures g.hash != ZERO_HASH
  {
    hide CachesOk, TipOk;
    HoldsShape(f.db, [g]);
    assert [g][0] == g;
  }

  lemma GenesisCommitted(env: Env, g: Block)
    requires ProcessBatch(env, Unloaded(EMPTY_STORE), [g]).0 == Done && g.prev == ZERO_HASH
    ensures var f := ProcessBatch(env, Unloaded(EMPTY_STORE), [g]).1;
            && f.bestBlock == None && f.bestHeight == 0
            && f.knownBlocks == map[g.hash := 0]
            && f.blockIndex == map[g.hash := BlockNode(g.hash, 0, 0, None, Connected)]
  {
    hide ApplyBlocks, PreValid;
    var s := Unloaded(EMPTY_STORE);
    assert NewBlocks(s, [g]) == [g] && [g][..0] == [];
    assert IndexAll(map[], [], 0) == map[] && KnowAll(map[], [], 0) == map[];
  }

  /** A first start on an empty store leaves a state the first batch can stand on. */
  lemma FirstStartIsReady(env: Env, g: Block)
    requires GenesisOk(g) && env.genesisHash == g.hash
    requires LoadChainState(env, Unloaded(EMPTY_STORE), g).0 == Done
    ensures var f := LoadChainState(env, Unloaded(EMPTY_STORE), g).1;
            f.bestBlock == None && f.bestHeight == 0 && Represents(WithGenesisTip(f, g), [g])
  {
    hide ProcessBatch, Build, Holds;
    GenesisGoesThrough(env, g);
    GenesisCommitted(env, g);
    BuiltHolds([g]);
    ChainBlockReadable(Build([g]).value, [g], 0);
    HoldsShape(Build([g]).value, [g]);
  }

  // ---------- runs ----------

  datatype Step =
    | Connect(batch: seq<Block>)
    | DisconnectLast
    | RollBackTo(height: nat)
    | Restart

  function RollBackAndReset(env: Env, s: ChainState, height: nat): ChainState {
    var (o, s1) := Rollback(env, s, height);
    if o == Done then ResetChainState(s1, height) else s1
  }

  function Next(env: Env, s: ChainState, step: Step, genesis: Block): ChainState {
    match step
    case Connect(batch) => Process(env, s, batch).1
    case DisconnectLast => if s.bestBlock.Some? then Disconnect(s, s.bestBlock.value).1 else s
    case RollBackTo(height) => RollBackAndReset(env, s, height)
    case Restart => LoadChainState(env, Unloaded(s.db), genesis).1
  }

  function Run(env: Env, s: ChainState, steps: seq<Step>, genesis: Block): ChainState
    decreases |steps|
  {
    if steps == [] then s else Run(env, Next(env, s, steps[0], genesis), steps[1..], genesis)
  }

  /** What connecting relies on for every chunk of a batch, at the state the chunk meets. */
  ghost predicate ChunksOnTip(env: Env, s: ChainState, blocks: seq<Block>, size: nat)
    requires size > 0
    decreases |blocks|
  {
    var chunk := if |blocks| <= size then blocks else blocks[..size];
    && OnTip(s, NewBlocks(s, chunk))
    && (|blocks| > size && ProcessBatch(env, s, chunk).0 == Done ==>
          ChunksOnTip(env, ProcessBatch(env, s, chunk).1, blocks[size..], size))
  }

  /** In no chunk do two blocks spend the same output. */
  ghost predicate ChunksApart(env: Env, s: ChainState, blocks: seq<Block>, size: nat)
    requires size > 0
    decreases |blocks|
  {
    var chunk := if |blocks| <= size then blocks else blocks[..size];
    && SpentByOneBlock(NewBlocks(s, chunk))
    && (|blocks| > size && ProcessBatch(env, s, chunk).0 == Done ==>
          ChunksApart(env, ProcessBatch(env, s, chunk).1, blocks[size..], size))
  }

  /** Only genesis is never disconnected, and what is connected is on the tip; anything else may be asked. */
  ghost predicate Allowed(env: Env, s: ChainState, step: Step) {
    match step
    case Connect(batch) => ChunksOnTip(env, s, batch, MAX_BATCH)
    case DisconnectLast => s.bestHeight > 0
    case _ => true
  }

  ghost predicate AllAllowed(env: Env, s: ChainState, steps: seq<Step>, genesis: Block)
    decreases |steps|
  {
    steps != [] ==> Allowed(env, s, steps[0]) && AllAllowed(env, Next(env, s, steps[0], genesis), steps[1..], genesis)
  }

  ghost predicate Apart(env: Env, s: ChainState, step: Step) {
    step.Connect? ==> ChunksApart(env, s, step.batch, MAX_BATCH)
  }

  ghost predicate AllApart(env: Env, s: ChainState, steps: seq<Step>, genesis: Block)
    decreases |steps|
  {
    steps != [] ==> Apart(env, s, steps[0]) && AllApart(env, Next(env, s, steps[0], genesis), steps[1..], genesis)
  }

  // ---------- chains without a second spend ----------

  /** Every spend is remembered, and no two blocks make the same one. */
  ghost predicate Whole(db: Store, chain: seq<Block>) {
    Intact(db, chain) && SpentByOneBlock(chain)
  }

  lemma BatchKeepsWhole(s: ChainState, chain: seq<Block>, s1: ChainState, blocks: seq<Block>)
    requires Represents(s, chain) && Represents(s1, chain + blocks)
    requires Grown(s.db.utxos.entries, s1.db.utxos.entries, blocks)
    requires Whole(s.db, chain) && SpentByOneBlock(blocks)
    ensures Whole(s1.db, chain + blocks)
  {
    forall op ensures !Forgets(s1.db, chain + blocks, op) {
      ConnectForgets(s, chain, s1, blocks, op);
    }
    forall op ensures !(SpentInBlocks(chain, op) && SpentInBlocks(blocks, op)) {
      NeverTwice(s, chain, s1, blocks, op);
    }
    ApartJoin(chain, blocks);
  }

  lemma NeverTwice(s: ChainState, chain: seq<Block>, s1: ChainState, blocks: seq<Block>, op: Outpoint)
    requires Represents(s, chain) && Intact(s.db, chain)
    requires Grown(s.db.utxos.entries, s1.db.utxos.entries, blocks)
    ensures !(SpentInBlocks(chain, op) && SpentInBlocks(blocks, op))
  {
    hide SpentInBlocks, Build, CachesOk, TipOk, SuppliesOk, AddrIndexed;
    BuiltMarks(chain);
    assert !Forgets(s.db, chain, op);
  }

  lemma ApartJoin(a: seq<Block>, b: seq<Block>)
    requires SpentByOneBlock(a) && SpentByOneBlock(b)
    requires forall op :: !(SpentInBlocks(a, op) && SpentInBlocks(b, op))
    ensures SpentByOneBlock(a + b)
  {
    var all := a + b;
    forall i, j, op | 0 <= i < j < |all| && SpentIn(all[i].txs, op) ensures !SpentIn(all[j].txs, op) {
      if i < |a| <= j { assert SpentInBlocks(a, op) && all[j] == b[j - |a|]; }
    }
  }

  lemma CutStaysWhole(s: ChainState, chain: seq<Block>, s1: ChainState, n: nat)
    requires Represents(s, chain) && n <= |chain| && Represents(s1, chain[..n])
    requires Freed(s.db.utxos.entries, s1.db.utxos.entries, chain[n..])
    ensures Whole(s.db, chain) ==> Whole(s1.db, chain[..n])
  {
    hide Represents, Freed, Forgets;
    if Whole(s.db, chain) {
      forall op ensures !Forgets(s1.db, chain[..n], op) {
        RollbackForgets(s, chain, s1, n, op);
        NotAcross(chain, n, op);
      }
      assert forall i :: 0 <= i < n ==> chain[..n][i] == chain[i];
    }
  }

  lemma NotAcross(chain: seq<Block>, n: nat, op: Outpoint)
    requires n <= |chain| && SpentByOneBlock(chain)
    ensures !(SpentInBlocks(chain[..n], op) && SpentInBlocks(chain[n..], op))
  {
    if SpentInBlocks(chain[..n], op) {
      var i :| 0 <= i < n && SpentIn(chain[..n][i].txs, op);
      assert chain[..n][i] == chain[i];
      forall j | 0 <= j < |chain| - n ensures !SpentIn(chain[n..][j].txs, op) {
        assert chain[n..][j] == chain[n + j];
      }
    }
  }

  lemma GrownThrough(a: map<Outpoint, Utxo>, b: map<Outpoint, Utxo>, c: map<Outpoint, Utxo>, x: seq<Block>, y: seq<Block>)
    requires Grown(a, b, x) && Grown(b, c, y)
    ensures Grown(a, c, x + y)
  {
    hide SpentInBlocks;
    forall op
      ensures SpentInBlocks(x + y, op) <==> SpentInBlocks(x, op) || SpentInBlocks(y, op)
    {
      SpentInBlocksJoin(x, y, op);
    }
  }

  /** Chunk after chunk, the chain only grows, and only unspent outputs are marked; a failing chunk leaves
      the chain the chunks before it built. */
  lemma {:induction false} ChunksExtendChain(env: Env, s: ChainState, chain: seq<Block>, blocks: seq<Block>, size: nat)
    returns (longer: seq<Block>)
    requires Represents(s, chain) && size > 0 && ChunksOnTip(env, s, blocks, size)
    ensures Represents(ProcessChunks(env, s, blocks, size).1, longer)
    ensures |chain| <= |longer| && chain <= longer
    ensures Grown(s.db.utxos.entries, ProcessChunks(env, s, blocks, size).1.db.utxos.entries, longer[|chain|..])
    ensures CheckpointsHold(env, chain) ==> CheckpointsHold(env, longer)
    ensures Whole(s.db, chain) && ChunksApart(env, s, blocks, size) ==>
              Whole(ProcessChunks(env, s, blocks, size).1.db, longer)
    decreases |blocks|
  {
    hide Represents, ProcessBatch, OnTip, SpentByOneBlock, NewBlocks, CheckpointsHold, Grown, Whole;
    var chunk := if |blocks| <= size then blocks else blocks[..size];
    BatchExtendsChain(env, s, chain, chunk);
    var (o, s1) := ProcessBatch(env, s, chunk);
    var more := if o == Done then NewBlocks(s, chunk) else [];
    var grown := chain + more;
    assert more == [] ==> grown == chain;
    if o == Done {
      if CheckpointsHold(env, chain) { BatchKeepsCheckpoints(env, s, chain, chunk); }
      if Whole(s.db, chain) && SpentByOneBlock(more) { BatchKeepsWhole(s, chain, s1, more); }
    } else {
      NothingGrown(s.db.utxos.entries);
    }
    if |blocks| > size && o == Done {
      longer := ChunksExtendChain(env, s1, grown, blocks[size..], size);
      assert longer[|chain|..] == more + longer[|grown|..] by { SuffixSplits(chain, more, longer); }
      var s2 := ProcessChunks(env, s1, blocks[size..], size).1;
      GrownThrough(s.db.utxos.entries, s1.db.utxos.entries, s2.db.utxos.entries, more, longer[|grown|..]);
    } else {
      longer := grown;
      assert longer[|chain|..] == more;
    }
  }

  lemma SuffixSplits(chain: seq<Block>, more: seq<Block>, longer: seq<Block>)
    requires chain + more <= longer
    ensures chain <= longer && longer[|chain|..] == more + longer[|chain + more|..]
  {
    var grown := chain + more;
    assert longer == grown + longer[|grown|..];
  }

  /** A rollback to any height either does nothing or cuts the chain at that height. */
  lemma RollBackCuts(env: Env, s: ChainState, chain: seq<Block>, height: nat)
    requires Represents(s, chain)
    ensures var s1 := RollBackAndReset(env, s, height);
            if height < |chain| && s.bestHeight - height <= env.maxReorgDepth
            then && Represents(s1, chain[..height + 1])
                 && Freed(s.db.utxos.entries, s1.db.utxos.entries, chain[height + 1..])
                 && (if height < s.bestHeight then s1.db.tip == Some(Tip(height, chain[height].hash)) else s1 == s)
            else s1 == s
  {
    hide Represents, DisconnectDown, ResetChainState, CleanOrphanedBlocks, GetBlockAt, Freed;
    Mirror(s, chain);
    if height < |chain| && s.bestHeight - height <= env.maxReorgDepth {
      RollbackRestores(env, s, chain, height);
      var s1 := Rollback(env, s, height).1;
      Mirror(s1, chain[..height + 1]);
      NothingToClean(s1, chain[..height + 1]);
    }
  }

  lemma StepKeepsChain(env: Env, s: ChainState, chain: seq<Block>, step: Step, genesis: Block) returns (after: seq<Block>)
    requires Represents(s, chain) && Allowed(env, s, step) && env.genesisHash == chain[0].hash
    ensures Represents(Next(env, s, step, genesis), after)
    ensures after != [] && after[0] == chain[0]
    ensures CheckpointsHold(env, chain) ==> CheckpointsHold(env, after)
    ensures Whole(s.db, chain) && Apart(env, s, step) ==> Whole(Next(env, s, step, genesis).db, after)
  {
    hide Represents, ProcessChunks, ChunksOnTip, ChunksApart, Disconnect, RollBackAndReset, LoadChainState, Whole, Freed;
    Mirror(s, chain);
    match step
    case Connect(batch) =>
      after := ChunksExtendChain(env, s, chain, batch, MAX_BATCH);
    case DisconnectLast =>
      DisconnectTip(s, chain);
      after := chain[..|chain| - 1];
      assert chain[|chain| - 1..] == [chain[|chain| - 1]];
      CutStaysWhole(s, chain, Next(env, s, step, genesis), |chain| - 1);
    case RollBackTo(height) =>
      RollBackCuts(env, s, chain, height);
      if height < |chain| && s.bestHeight - height <= env.maxReorgDepth {
        after := chain[..height + 1];
        CutStaysWhole(s, chain, Next(env, s, step, genesis), height + 1);
      } else {
        after := chain;
      }
    case Restart =>
      RestartFindsChain(env, s, chain, genesis);
      after := chain;
  }

  /** Every run of allowed steps ends in a state that stands for one chain from the same genesis; and as
      long as no chunk holds a second spend of an output, no spend is ever forgotten or made twice. */
  lemma {:induction false} RunKeepsChain(env: Env, s: ChainState, chain: seq<Block>, steps: seq<Step>, genesis: Block)
    returns (after: seq<Block>)
    requires Represents(s, chain) && AllAllowed(env, s, steps, genesis) && env.genesisHash == chain[0].hash
    ensures Represents(Run(env, s, steps, genesis), after)
    ensures after != [] && after[0] == chain[0]
    ensures CheckpointsHold(env, chain) ==> CheckpointsHold(env, after)
    ensures Whole(s.db, chain) && AllApart(env, s, steps, genesis) ==> Whole(Run(env, s, steps, genesis).db, after)
    decreases |steps|
  {
    hide Represents, Next, Allowed, CheckpointsHold, Whole, Apart;
    if steps == [] {
      after := chain;
      Mirror(s, chain);
    } else {
      var mid := StepKeepsChain(env, s, chain, steps[0], genesis);
      after := RunKeepsChain(env, Next(env, s, steps[0], genesis), mid, steps[1..], genesis);
    }
  }
}
