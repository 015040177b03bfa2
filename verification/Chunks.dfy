/** One batch, chunks of any size, or one block at a time: the same state, or the same refusal. */
module Chunks {
  import opened Types
  import opened Storage
  import opened Ledger
  import opened UtxoFacts
  import opened BlockFacts
  import opened Inverse
  import opened Conservation
  import opened Chain
  import opened ChainSpec
  import opened Represent
  import opened Batching
  import opened Reachable
  import opened RollbackProofs

  ghost predicate AlwaysAccepts(env: Env, b: Block, height: nat) {
    forall level, st, earlier :: env.accepts(level, st, earlier, b, height)
  }

  /** Checkpoints, structure checks and the consensus engine accept these blocks at these heights,
      whatever the level of checking and whatever has been committed by then. */
  ghost predicate Welcome(env: Env, blocks: seq<Block>, first: nat) {
    forall i :: 0 <= i < |blocks| ==>
      && WellFormed(env, blocks[i])
      && CheckpointOk(env.checkpoints, first + i, blocks[i].hash)
      && AlwaysAccepts(env, blocks[i], first + i)
  }

  // ---------- failing chunks ----------

  lemma BatchFailsUnchanged(env: Env, s: ChainState, batch: seq<Block>)
    ensures ProcessBatch(env, s, batch).0.Failed? ==> ProcessBatch(env, s, batch).1 == s
  {
    hide PreValid, ApplyBlocks, CheckSingle, Commit;
  }

  function FirstChunk(blocks: seq<Block>, size: nat): seq<Block> {
    if |blocks| <= size then blocks else blocks[..size]
  }

  /** A list that fails stops at one chunk: all chunks before it went through, and the state is exactly
      what those chunks, on their own, leave. */
  lemma {:induction false} FailingChunkStops(env: Env, s: ChainState, blocks: seq<Block>, size: nat)
    returns (k: nat, done: nat)
    requires size > 0 && ProcessChunks(env, s, blocks, size).0.Failed?
    ensures done == k * size && done <= |blocks|
    ensures ProcessChunks(env, s, blocks[..done], size) == (Done, ProcessChunks(env, s, blocks, size).1)
    ensures ProcessBatch(env, ProcessChunks(env, s, blocks, size).1, FirstChunk(blocks[done..], size)).0.Failed?
    decreases |blocks|
  {
    hide ProcessBatch;
    var chunk := FirstChunk(blocks, size);
    BatchFailsUnchanged(env, s, chunk);
    var (o, s1) := ProcessBatch(env, s, chunk);
    assert blocks[0..] == blocks && blocks[..0] == [];
    NothingToProcess(env, s);
    if |blocks| <= size || o.Failed? {
      k, done := 0, 0;
    } else {
      var rest := blocks[size..];
      var m, part := FailingChunkStops(env, s1, rest, size);
      k, done := m + 1, part + size;
      MultipleOf(m, size);
      assert rest[part..] == blocks[done..];
      FirstChunkOfWhole(env, s, blocks, size, part);
    }
  }

  lemma FirstChunkOfWhole(env: Env, s: ChainState, blocks: seq<Block>, size: nat, part: nat)
    requires 0 < size < |blocks| && part + size <= |blocks| && (part == 0 || part >= size)
    requires ProcessBatch(env, s, blocks[..size]).0 == Done
    ensures ProcessChunks(env, s, blocks[..part + size], size)
            == ProcessChunks(env, ProcessBatch(env, s, blocks[..size]).1, blocks[size..][..part], size)
  {
    hide ProcessBatch;
    var whole := blocks[..part + size];
    assert whole[size..] == blocks[size..][..part] && whole[..size] == blocks[..size];
    if part == 0 {
      assert whole == blocks[..size] && blocks[size..][..part] == [];
      NothingToProcess(env, ProcessBatch(env, s, blocks[..size]).1);
    }
  }

  lemma MultipleOf(m: nat, size: nat)
    ensures m * size == 0 || m * size >= size
    ensures (m + 1) * size == m * size + size
  {
  }

  lemma NothingToProcess(env: Env, s: ChainState)
    ensures ProcessBatch(env, s, []) == (Done, s)
  {
  }

  // ---------- the caches do not see chunk borders ----------

  lemma {:induction false} IndexAllSplits(index: map<Hash, BlockNode>, a: seq<Block>, b: seq<Block>, first: nat)
    ensures IndexAll(index, a + b, first) == IndexAll(IndexAll(index, a, first), b, first + |a|)
    decreases |b|
  {
    if b == [] {
      assert a + b == a;
    } else {
      var n := |b| - 1;
      assert (a + b)[..|a| + n] == a + b[..n];
      IndexAllSplits(index, a, b[..n], first);
    }
  }

  lemma {:induction false} KnowAllSplits(known: map<Hash, nat>, a: seq<Block>, b: seq<Block>, first: nat)
    ensures KnowAll(known, a + b, first) == KnowAll(KnowAll(known, a, first), b, first + |a|)
    decreases |b|
  {
    if b == [] {
      assert a + b == a;
    } else {
      var n := |b| - 1;
      assert (a + b)[..|a| + n] == a + b[..n];
      KnowAllSplits(known, a, b[..n], first);
    }
  }

  // ---------- committing one by one does not see chunk borders ----------

  lemma {:induction false} GrowSplits(db: Store, chain: seq<Block>, a: seq<Block>, b: seq<Block>)
    requires chain != []
    ensures Grow(db, chain, a + b)
            == if Grow(db, chain, a).Ok? then Grow(Grow(db, chain, a).value, chain + a, b) else Grow(db, chain, a)
    decreases |b|
  {
    hide Extend, Grow;
    if b == [] {
      assert a + b == a;
      if Grow(db, chain, a).Ok? { GrowNothing(Grow(db, chain, a).value, chain + a); }
    } else {
      var n := |b| - 1;
      assert (a + b)[..|a| + n] == a + b[..n] && (a + b)[|a| + n] == b[n];
      assert chain + (a + b[..n]) == (chain + a) + b[..n];
      GrowSplits(db, chain, a, b[..n]);
      GrowStep(db, chain, a + b);
      if Grow(db, chain, a).Ok? { GrowStep(Grow(db, chain, a).value, chain + a, b); }
    }
  }

  lemma GrowNothing(db: Store, chain: seq<Block>)
    requires chain != []
    ensures Grow(db, chain, []) == Ok(db)
  {
  }

  // ---------- one chunk ----------

  lemma TipIsKnown(s: ChainState, chain: seq<Block>)
    requires Represents(s, chain)
    ensures var tip := chain[|chain| - 1].hash;
            && Has(s, tip) && tip != ZERO_HASH && tip in s.db.hashToHeight && s.db.hashToHeight[tip] == |chain| - 1
            && s.bestHeight == |chain| - 1
  {
    hide Holds, CachesOk, IndexedFromTop, TipOk;
    HoldsShape(s.db, chain);
    assert Placed(s.db, chain[|chain| - 1], |chain| - 1);
  }

  lemma WelcomeForms(env: Env, blocks: seq<Block>, first: nat)
    requires Welcome(env, blocks, first)
    ensures forall i :: 0 <= i < |blocks| ==> WellFormed(env, blocks[i])
  {
    hide WellFormed;
  }

  lemma NothingSkipped(s: ChainState, blocks: seq<Block>)
    requires blocks != [] && !Has(s, blocks[0].hash)
    ensures NewBlocks(s, blocks) == blocks
  {
    hide Has;
  }

  lemma LinksPass(db: Store, chain: seq<Block>, blocks: seq<Block>)
    requires Continues(db, chain, blocks) && blocks != []
    ensures Linked(blocks) && DistinctHashes(blocks) && blocks[0].prev == chain[|chain| - 1].hash
    ensures blocks[0].hash !in db.blocks
  {
    hide FreshTxs, Linked, DistinctHashes;
  }

  /** The batch is all new, stands on the tip, and passes its structure checks. */
  ghost predicate Passes(env: Env, s: ChainState, blocks: seq<Block>, first: nat)
    requires blocks != []
  {
    && NewBlocks(s, blocks) == blocks
    && (|blocks| == 1 ==> CheckSingle(s, blocks[0]) == Done)
    && PreValid(env, s, blocks)
    && FirstHeight(s.db, blocks[0]) == Ok(first)
  }

  lemma NewOnesPassChecks(env: Env, s: ChainState, chain: seq<Block>, blocks: seq<Block>)
    requires blocks != []
    requires Represents(s, chain) && Continues(s.db, chain, blocks) && Welcome(env, blocks, |chain|)
    ensures Passes(env, s, blocks, |chain|)
  {
    hide Represents, WellFormed, Continues, Welcome, Has, Linked, DistinctHashes, KnownPrefix;
    LinksPass(s.db, chain, blocks);
    HasMeansStored(s, chain, blocks[0].hash);
    NothingSkipped(s, blocks);
    TipIsKnown(s, chain);
    WelcomeForms(env, blocks, |chain|);
  }

  lemma WelcomeIsAccepted(env: Env, s: ChainState, size: nat, blocks: seq<Block>, first: nat)
    requires Welcome(env, blocks, first)
    ensures Accepted(env, s, size, blocks, first)
  {
  }

  /** The state after `blocks` went through on top of `s`, whatever way they were cut: the store is the one
      committing them one by one leaves. */
  ghost predicate Through(s: ChainState, s1: ChainState, chain: seq<Block>, blocks: seq<Block>)
    requires chain != []
  {
    && Represents(s1, chain + blocks)
    && Grow(s.db, chain, blocks).Ok?
    && s1 == (if blocks == [] then s else Commit(s, blocks, |chain|, Grow(s.db, chain, blocks).value))
    && (forall id :: id in s1.db.txs ==> id in s.db.txs || IdInBlocks(blocks, id))
  }

  /** A chunk of welcome blocks goes through exactly when they connect one by one, as long as no
      outpoint is spent by two of its blocks. */
  lemma ChunkGoesThrough(env: Env, s: ChainState, chain: seq<Block>, blocks: seq<Block>)
    requires Represents(s, chain) && chain != [] && Continues(s.db, chain, blocks) && blocks != []
    requires Welcome(env, blocks, |chain|) && SpentByOneBlock(blocks)
    ensures var (o, s1) := ProcessBatch(env, s, blocks);
            && (o == Done <==> Grow(s.db, chain, blocks).Ok?)
            && (o == Done ==> Through(s, s1, chain, blocks))
            && (o != Done ==> s1 == s)
  {
    hide Holds, CachesOk, PreValid, CheckSingle, FirstHeight, ApplyBlocks, Grow, Continues, Welcome, SpentByOneBlock,
         BatchInv, CacheInv, Commit, Grown;
    NewOnesPassChecks(env, s, chain, blocks);
    WelcomeIsAccepted(env, s, |blocks|, blocks, |chain|);
    ApplyIsGrow(env, s, chain, |blocks|, blocks);
    var r := ApplyBlocks(env, s, |blocks|, blocks, |chain|);
    if r.Ok? {
      CommitRepresents(env, s, chain, blocks);
      ApplyHolds(env, s, chain, |blocks|, blocks);
      BatchTxs(s.db, blocks, r.value.view);
      CommitDb(s, blocks, |chain|, r.value.view);
    }
  }

  lemma CommitDb(s: ChainState, blocks: seq<Block>, first: nat, view: Store)
    requires blocks != []
    ensures Commit(s, blocks, first, view).db == view
  {
  }

  lemma BatchTxs(db: Store, blocks: seq<Block>, view: Store)
    requires BatchInv(db, blocks, view)
    ensures forall id :: id in view.txs ==> id in db.txs || IdInBlocks(blocks, id)
  {
  }

  // ---------- the blocks after a chunk ----------

  lemma NotAmongEarlier(db: Store, blocks: seq<Block>, n: nat, i: nat, id: Hash)
    requires n <= i < |blocks| && FreshTxs(db, blocks) && HasId(blocks[i].txs, id)
    ensures id !in db.txs && !IdInBlocks(blocks[..n], id)
  {
    forall j | 0 <= j < n ensures !HasId(blocks[..n][j].txs, id) {
      assert blocks[..n][j] == blocks[j];
    }
  }

  lemma RestFresh(db: Store, db1: Store, blocks: seq<Block>, n: nat)
    requires n <= |blocks| && FreshTxs(db, blocks)
    requires forall id :: id in db1.txs ==> id in db.txs || IdInBlocks(blocks[..n], id)
    ensures FreshTxs(db1, blocks[n..])
  {
    var rest := blocks[n..];
    assert forall i :: 0 <= i < |rest| ==> rest[i] == blocks[n + i];
    forall i, id | 0 <= i < |rest| && HasId(rest[i].txs, id) ensures id !in db1.txs {
      NotAmongEarlier(db, blocks, n, n + i, id);
    }
    forall i, j, id | 0 <= i < j < |rest| && HasId(rest[i].txs, id) ensures !HasId(rest[j].txs, id) {
      assert HasId(blocks[n + i].txs, id);
    }
  }

  lemma RestNotStored(db: Store, db1: Store, chain: seq<Block>, blocks: seq<Block>, n: nat)
    requires n <= |blocks| && Holds(db, chain) && Holds(db1, chain + blocks[..n])
    requires DistinctHashes(blocks) && forall i :: 0 <= i < |blocks| ==> blocks[i].hash !in db.blocks
    ensures forall i :: n <= i < |blocks| ==> blocks[i].hash !in db1.blocks
  {
    HoldsShape(db, chain);
    HoldsShape(db1, chain + blocks[..n]);
    hide Holds, LedgerOk;
    var all := chain + blocks[..n];
    forall i | n <= i < |blocks| ensures blocks[i].hash !in db1.blocks {
      forall m | 0 <= m < |all| ensures all[m].hash != blocks[i].hash {
        if m < |chain| { assert Placed(db, chain[m], m); } else { assert all[m] == blocks[m - |chain|]; }
      }
    }
  }

  lemma RestContinues(s: ChainState, s1: ChainState, chain: seq<Block>, blocks: seq<Block>, n: nat)
    requires 0 < n <= |blocks| && Represents(s, chain) && Continues(s.db, chain, blocks)
    requires Through(s, s1, chain, blocks[..n])
    ensures Continues(s1.db, chain + blocks[..n], blocks[n..])
  {
    hide Holds, CachesOk, FreshTxs, Commit, Grow;
    RestFresh(s.db, s1.db, blocks, n);
    RestNotStored(s.db, s1.db, chain, blocks, n);
    var rest := blocks[n..];
    assert forall i :: 0 <= i < |rest| ==> rest[i] == blocks[n + i];
    assert (chain + blocks[..n])[|chain| + n - 1] == blocks[n - 1];
  }

  lemma SpentApartPart(blocks: seq<Block>, i: nat, j: nat)
    requires i <= j <= |blocks| && SpentByOneBlock(blocks)
    ensures SpentByOneBlock(blocks[i..j])
  {
    assert forall k :: 0 <= k < j - i ==> blocks[i..j][k] == blocks[i + k];
  }

  lemma WelcomePart(env: Env, blocks: seq<Block>, first: nat, i: nat, j: nat)
    requires i <= j <= |blocks| && Welcome(env, blocks, first)
    ensures Welcome(env, blocks[i..j], first + i)
  {
    var part := blocks[i..j];
    forall k | 0 <= k < |part|
      ensures WellFormed(env, part[k]) && CheckpointOk(env.checkpoints, (first + i) + k, part[k].hash)
      ensures AlwaysAccepts(env, part[k], (first + i) + k)
    {
      var at := i + k;
      assert part[k] == blocks[at] && (first + i) + k == first + at;
      assert CheckpointOk(env.checkpoints, first + at, blocks[at].hash);
    }
  }

  // ---------- going through composes ----------

  lemma IdInBlocksPart(blocks: seq<Block>, n: nat, id: Hash)
    requires n <= |blocks|
    ensures IdInBlocks(blocks[..n], id) || IdInBlocks(blocks[n..], id) ==> IdInBlocks(blocks, id)
  {
    if IdInBlocks(blocks[..n], id) {
      var i :| 0 <= i < n && HasId(blocks[..n][i].txs, id);
      assert HasId(blocks[i].txs, id);
    }
    if IdInBlocks(blocks[n..], id) {
      var i :| 0 <= i < |blocks| - n && HasId(blocks[n..][i].txs, id);
      assert HasId(blocks[n + i].txs, id);
    }
  }

  lemma CommitComposes(s: ChainState, view1: Store, view2: Store, chain: seq<Block>, a: seq<Block>, b: seq<Block>)
    requires a != [] && b != [] && s.bestHeight == |chain| - 1
    ensures Commit(Commit(s, a, |chain|, view1), b, |chain| + |a|, view2) == Commit(s, a + b, |chain|, view2)
  {
    IndexAllSplits(s.blockIndex, a, b, |chain|);
    KnowAllSplits(s.knownBlocks, a, b, |chain|);
  }

  lemma ThroughComposes(s: ChainState, s1: ChainState, s2: ChainState, chain: seq<Block>, blocks: seq<Block>, n: nat)
    requires 0 < n < |blocks| && Represents(s, chain) && chain != []
    requires Through(s, s1, chain, blocks[..n]) && Through(s1, s2, chain + blocks[..n], blocks[n..])
    ensures Through(s, s2, chain, blocks)
  {
    hide Holds, CachesOk, Commit, Grow, TipOk, IdInBlocks;
    var a, b := blocks[..n], blocks[n..];
    assert a + b == blocks && chain + a + b == chain + blocks;
    GrowSplits(s.db, chain, a, b);
    CommitDb(s, a, |chain|, Grow(s.db, chain, a).value);
    CommitComposes(s, Grow(s.db, chain, a).value, Grow(s.db, chain, blocks).value, chain, a, b);
    forall id | id in s2.db.txs ensures id in s.db.txs || IdInBlocks(blocks, id) {
      IdInBlocksPart(blocks, n, id);
    }
  }

  // ---------- any chunk size ----------

  /** With any chunk size, welcome blocks that spend no outpoint twice go through exactly when they
      connect one by one. */
  lemma {:induction false} ChunksGoThrough(env: Env, s: ChainState, chain: seq<Block>, blocks: seq<Block>, size: nat)
    requires Represents(s, chain) && chain != [] && Continues(s.db, chain, blocks) && size > 0
    requires Welcome(env, blocks, |chain|) && SpentByOneBlock(blocks)
    ensures var (o, s1) := ProcessChunks(env, s, blocks, size);
            && (o == Done <==> Grow(s.db, chain, blocks).Ok?)
            && (o == Done ==> Through(s, s1, chain, blocks))
    decreases |blocks|
  {
    hide Represents, Continues, Welcome, SpentByOneBlock, Through, ProcessBatch, Grow;
    Mirror(s, chain);
    if blocks == [] {
      NothingThrough(env, s, chain);
    } else if |blocks| <= size {
      ChunkGoesThrough(env, s, chain, blocks);
    } else {
      var a, b := blocks[..size], blocks[size..];
      PartContinues(s.db, chain, blocks, size);
      WelcomePart(env, blocks, |chain|, 0, size);
      WelcomePart(env, blocks, |chain|, size, |blocks|);
      SpentApartPart(blocks, 0, size);
      SpentApartPart(blocks, size, |blocks|);
      assert blocks[0..size] == a && blocks[size..|blocks|] == b;
      ChunkGoesThrough(env, s, chain, a);
      assert a + b == blocks;
      GrowSplits(s.db, chain, a, b);
      var (o, s1) := ProcessBatch(env, s, a);
      if o == Done {
        RestContinues(s, s1, chain, blocks, size);
        ThroughGives(s, s1, chain, a);
        ChunksGoThrough(env, s1, chain + a, b, size);
        var (o2, s2) := ProcessChunks(env, s1, b, size);
        if o2 == Done { ThroughComposes(s, s1, s2, chain, blocks, size); }
      }
    }
  }

  lemma ThroughGives(s: ChainState, s1: ChainState, chain: seq<Block>, blocks: seq<Block>)
    requires chain != [] && Through(s, s1, chain, blocks)
    ensures Represents(s1, chain + blocks)
    ensures Grow(s.db, chain, blocks) == Ok(s1.db)
  {
    hide Represents, IndexAll, KnowAll;
  }

  lemma PartContinues(db: Store, chain: seq<Block>, blocks: seq<Block>, n: nat)
    requires Continues(db, chain, blocks) && n <= |blocks|
    ensures Continues(db, chain, blocks[..n])
  {
    ContinuesPrefix(db, chain, blocks, n);
  }

  lemma NothingThrough(env: Env, s: ChainState, chain: seq<Block>)
    requires Represents(s, chain) && chain != []
    ensures ProcessBatch(env, s, []) == (Done, s)
    ensures Grow(s.db, chain, []).Ok? && Through(s, s, chain, [])
  {
    assert chain + [] == chain;
  }

  /** One block at a time, welcome blocks go through exactly when they connect one by one. */
  lemma {:induction false} OneByOneGoesThrough(env: Env, s: ChainState, chain: seq<Block>, blocks: seq<Block>)
    requires Represents(s, chain) && chain != [] && Continues(s.db, chain, blocks) && Welcome(env, blocks, |chain|)
    ensures ProcessChunks(env, s, blocks, 1).0 == Done <==> Grow(s.db, chain, blocks).Ok?
    decreases |blocks|
  {
    hide Represents, Continues, Welcome, SpentByOneBlock, Through, ProcessBatch, Grow;
    Mirror(s, chain);
    if |blocks| <= 1 {
      if blocks == [] { NothingThrough(env, s, chain); } else {
        OneSpender(blocks[0]);
        assert blocks == [blocks[0]];
        ChunkGoesThrough(env, s, chain, blocks);
      }
    } else {
      var a, b := blocks[..1], blocks[1..];
      PartContinues(s.db, chain, blocks, 1);
      WelcomePart(env, blocks, |chain|, 0, 1);
      WelcomePart(env, blocks, |chain|, 1, |blocks|);
      assert blocks[0..1] == a && blocks[1..|blocks|] == b && a == [blocks[0]] && a + b == blocks;
      OneSpender(blocks[0]);
      ChunkGoesThrough(env, s, chain, a);
      GrowSplits(s.db, chain, a, b);
      var (o, s1) := ProcessBatch(env, s, a);
      if o == Done {
        RestContinues(s, s1, chain, blocks, 1);
        ThroughGives(s, s1, chain, a);
        OneByOneGoesThrough(env, s1, chain + a, b);
      }
    }
  }

  lemma GrownSpendsApart(env: Env, s: ChainState, chain: seq<Block>, blocks: seq<Block>)
    requires Represents(s, chain) && chain != [] && Continues(s.db, chain, blocks) && Welcome(env, blocks, |chain|)
    requires Grow(s.db, chain, blocks).Ok?
    ensures SpentByOneBlock(blocks)
  {
    hide Holds, Continues, Welcome, SpentByOneBlock, Grow, ApplyBlocks, CachesOk;
    WelcomeIsAccepted(env, s, |blocks|, blocks, |chain|);
    ApplyIsGrow(env, s, chain, |blocks|, blocks);
  }

  /** From every state of a chain: one block at a time, the blocks go through exactly when chunks of any size
      do and no outpoint is spent by two of them; then both leave the very same state, whose store is the one
      committing the blocks one by one leaves. */
  lemma ChunkSizeDoesNotMatter(env: Env, s: ChainState, chain: seq<Block>, blocks: seq<Block>, size: nat)
    requires Represents(s, chain) && chain != [] && Continues(s.db, chain, blocks) && size > 0
    requires Welcome(env, blocks, |chain|)
    ensures var one, many := ProcessChunks(env, s, blocks, 1), ProcessChunks(env, s, blocks, size);
            && (one.0 == Done <==> many.0 == Done && SpentByOneBlock(blocks))
            && (one.0 == Done ==> one == many)
            && (one.0 == Done ==> Grow(s.db, chain, blocks) == Ok(one.1.db))
  {
    hide Represents, Continues, Welcome, SpentByOneBlock, Through, ProcessChunks, Grow;
    OneByOneGoesThrough(env, s, chain, blocks);
    if Grow(s.db, chain, blocks).Ok? { GrownSpendsApart(env, s, chain, blocks); }
    if SpentByOneBlock(blocks) {
      ChunksGoThrough(env, s, chain, blocks, size);
      ChunksGoThrough(env, s, chain, blocks, 1);
      var one, many := ProcessChunks(env, s, blocks, 1), ProcessChunks(env, s, blocks, size);
      if one.0 == Done {
        ThroughIsUnique(s, one.1, many.1, chain, blocks);
        ThroughGives(s, one.1, chain, blocks);
      }
    }
  }

  /** Two ways through lead to the same state. */
  lemma ThroughIsUnique(s: ChainState, a: ChainState, b: ChainState, chain: seq<Block>, blocks: seq<Block>)
    requires chain != [] && Through(s, a, chain, blocks) && Through(s, b, chain, blocks)
    ensures a == b
  {
    hide Represents, Grow, Commit;
  }

  // ---------- the one thing a batch misses ----------

  predicate SpendsOnly(b: Block, op: Outpoint) {
    && |b.txs| == 2
    && b.txs[0].IsCoinbase() && b.txs[0].outputs == []
    && !b.txs[1].IsCoinbase() && b.txs[1].inputs == [op] && b.txs[1].outputs == []
  }

  lemma SpenderApplied(committed: Store, us: UtxoSet, b: Block, op: Outpoint, h: nat)
    requires SpendsOnly(b, op)
    ensures var m := MarkSpent(committed, us, op, h, b.txs[1].id);
            var r := ApplyTxs(committed, StartWork(us), b.txs, h);
            && (r.Ok? <==> m.Ok?)
            && (r.Ok? ==> r.value.utxos == m.value.0 && r.value.valueIn == m.value.1.value && r.value.valueOut == 0)
  {
    var w, cb, t := StartWork(us), b.txs[0], b.txs[1];
    assert b.txs[..1] == [cb] && [cb][..0] == [];
    assert ApplyTxs(committed, w, [], h) == Ok(w);
    assert ApplyTx(committed, w, cb, h) == Ok(w) by { Idle(committed, w, cb, h); }
    assert ApplyTxs(committed, w, [cb], h) == Ok(w);
    assert ApplyTxs(committed, w, b.txs, h) == ApplyTx(committed, w, t, h);
    assert t.Spends()[..0] == [] && SpendInputs(committed, w, [], h, t.id) == Ok(w);
  }

  lemma Idle(committed: Store, w: Work, cb: Tx, h: nat)
    requires cb.IsCoinbase() && cb.outputs == []
    ensures ApplyTx(committed, w, cb, h) == Ok(w)
  {
  }

  lemma SpenderConnects(committed: Store, view: Store, best: nat, cache: map<nat, int>, b: Block, op: Outpoint, h: nat)
    requires SpendsOnly(b, op) && h > 0 && op in view.utxos.entries
    requires !view.utxos.entries[op].IsSpent() || Orphaned(committed, view.utxos.entries[op])
    ensures var r := ConnectBlock(committed, view, best, cache, b, h);
            && r.Ok?
            && r.value.view.utxos.entries == view.utxos.entries[op := SpentBy(view.utxos.entries[op], h, b.txs[1].id)]
            && r.value.view.supply == view.supply[h := PrevSupply(committed, cache, h) - view.utxos.entries[op].value]
            && r.value.cache == cache[h := PrevSupply(committed, cache, h) - view.utxos.entries[op].value]
  {
    hide IndexTxs, StoreTxs, ApplyTxs, Orphaned, TxIds;
    SpenderApplied(committed, view.utxos, b, op, h);
  }

  /** Two blocks that spend the same unspent output go through together in one batch, and not one at a
      time: inside the batch the first spend looks orphaned, because its height is not committed yet.
      Each block on its own spends nothing twice, and yet the recorded supply falls by twice the value
      of the output, while the unspent total falls by that value once. */
  lemma BatchMissesRespend(env: Env, s: ChainState, chain: seq<Block>, b1: Block, b2: Block, op: Outpoint)
    requires Represents(s, chain) && chain != [] && Continues(s.db, chain, [b1, b2])
    requires Welcome(env, [b1, b2], |chain|)
    requires op in s.db.utxos.entries && !s.db.utxos.entries[op].IsSpent()
    requires SpendsOnly(b1, op) && SpendsOnly(b2, op)
    ensures ProcessChunks(env, s, [b1, b2], 1).0 != Done
    ensures SpendsOnce(b1.txs) && SpendsOnce(b2.txs)
    ensures var (o, s1) := ProcessBatch(env, s, [b1, b2]);
            var value := s.db.utxos.entries[op].value;
            && o == Done && s1.bestHeight == s.bestHeight + 2
            && GetSupply(s1.db, s1.bestHeight) == GetSupply(s.db, s.bestHeight) - 2 * value
            && Total(s1.db.utxos.entries, ValueOf) == Total(s.db.utxos.entries, ValueOf) - value
  {
    hide Holds, CachesOk, Continues, ProcessChunks, PreValid, ApplyBlocks, Welcome, SpentByOneBlock, Total, SpendsOnce,
         IndexAll, KnowAll;
    RespendIsApplied(env, s, chain, b1, b2, op);
    NewOnesPassChecks(env, s, chain, [b1, b2]);
    ChunkSizeDoesNotMatter(env, s, chain, [b1, b2], 2);
    BothSpend(b1, b2, op);
    SpenderSpendsOnce(b1, op);
    SpenderSpendsOnce(b2, op);
  }

  lemma BothSpend(b1: Block, b2: Block, op: Outpoint)
    requires SpendsOnly(b1, op) && SpendsOnly(b2, op)
    ensures !SpentByOneBlock([b1, b2])
  {
    var blocks := [b1, b2];
    assert op in b1.txs[1].Spends() && op in b2.txs[1].Spends();
    SpentInAt(b1.txs, 1, op);
    SpentInAt(b2.txs, 1, op);
    assert blocks[0] == b1 && blocks[1] == b2;
  }

  lemma SpenderSpendsOnce(b: Block, op: Outpoint)
    requires SpendsOnly(b, op)
    ensures SpendsOnce(b.txs)
  {
    var cb := b.txs[0];
    assert b.txs[..1] == [cb] && [cb][..0] == [];
    assert SpendsOnce([]) && SpendsOnce([cb]);
    assert forall o :: !SpentIn([cb], o);
  }

  lemma RespendIsApplied(env: Env, s: ChainState, chain: seq<Block>, b1: Block, b2: Block, op: Outpoint)
    requires Represents(s, chain) && Welcome(env, [b1, b2], |chain|)
    requires op in s.db.utxos.entries && !s.db.utxos.entries[op].IsSpent()
    requires SpendsOnly(b1, op) && SpendsOnly(b2, op)
    ensures var r := ApplyBlocks(env, s, 2, [b1, b2], |chain|);
            var value := s.db.utxos.entries[op].value;
            && r.Ok?
            && GetSupply(r.value.view, |chain| + 1) == GetSupply(s.db, |chain| - 1) - 2 * value
            && Total(r.value.view.utxos.entries, ValueOf) == Total(s.db.utxos.entries, ValueOf) - value
  {
    hide Holds, CachesOk, ConnectBlock, Orphaned, Commit, Welcome, Total, ApplyBlocks;
    var first, u := |chain|, s.db.utxos.entries[op];
    Mirror(s, chain);
    SpenderConnects(s.db, s.db, s.bestHeight, map[], b1, op, first);
    var a := ConnectBlock(s.db, s.db, s.bestHeight, map[], b1, first).value;
    FreeHeight(s, chain, a.view.utxos.entries[op]);
    SpenderConnects(s.db, a.view, s.bestHeight, a.cache, b2, op, first + 1);
    var c := ConnectBlock(s.db, a.view, s.bestHeight, a.cache, b2, first + 1).value;
    TwoApplied(env, s, b1, b2, first);
    var v := SpentBy(u, first + 1, b2.txs[1].id);
    assert c.view.utxos.entries == s.db.utxos.entries[op := v];
    TotalWithout(s.db.utxos.entries, op, v);
  }

  lemma FreeHeight(s: ChainState, chain: seq<Block>, u: Utxo)
    requires Represents(s, chain) && u.spendingHeight == |chain|
    ensures Orphaned(s.db, u)
  {
    HoldsShape(s.db, chain);
  }

  lemma TwoApplied(env: Env, s: ChainState, b1: Block, b2: Block, first: nat)
    requires Welcome(env, [b1, b2], first)
    requires ConnectBlock(s.db, s.db, s.bestHeight, map[], b1, first).Ok?
    requires var a := ConnectBlock(s.db, s.db, s.bestHeight, map[], b1, first).value;
             ConnectBlock(s.db, a.view, s.bestHeight, a.cache, b2, first + 1).Ok?
    ensures var a := ConnectBlock(s.db, s.db, s.bestHeight, map[], b1, first).value;
            var c := ConnectBlock(s.db, a.view, s.bestHeight, a.cache, b2, first + 1).value;
            ApplyBlocks(env, s, 2, [b1, b2], first) == Ok(Pending(c.view, c.cache))
  {
    hide ConnectBlock, WellFormed;
    assert [b1, b2][..1] == [b1] && [b1][..0] == [];
    assert ApplyBlocks(env, s, 2, [], first) == Ok(Pending(s.db, map[]));
    assert [b1, b2][0] == b1 && [b1, b2][1] == b2;
    assert AlwaysAccepts(env, b1, first + 0) && AlwaysAccepts(env, b2, first + 1);
    var a := ConnectBlock(s.db, s.db, s.bestHeight, map[], b1, first).value;
    assert ApplyBlocks(env, s, 2, [b1], first) == Ok(Pending(a.view, a.cache));
  }
}
