/** What a passed validation means, that sound chains pass it, and that repaired indexes stay repaired. */
module ValidatorProofs {
  import opened Types
  import opened Storage
  import KeyOrder
  import opened Ledger
  import opened ChainSpec
  import opened Represent
  import opened RollbackProofs
  import opened Runs
  import opened Guarantees
  import opened CheckpointManagement
  import opened RecoverySpec
  import opened RecoveryProofs
  import opened ValidatorSpec

  // ---------- full validation ----------

  /** The block at `height` is readable, follows `prev` and matches its checkpoint. */
  predicate GoodAt(env: Env, db: Store, prev: Hash, height: nat) {
    && GetBlockAt(db, height).Some?
    && GetBlockAt(db, height).value.prev == prev
    && (height in env.checkpoints.expected ==> env.checkpoints.expected[height] == GetBlockAt(db, height).value.hash)
  }

  /** The hash height `height` must follow: the genesis hash, or the hash stored one height below. */
  function HashBelow(env: Env, db: Store, height: nat): Hash
    requires height > 0
  {
    if height == 1 then env.genesisHash
    else if height - 1 in db.heightToHash then db.heightToHash[height - 1] else ZERO_HASH
  }

  /** Every height from 1 to the tip is good, and the stored tip is the block at the top. */
  ghost predicate WholeChainGood(env: Env, s: ChainState) {
    && GetBlock(s.db, env.genesisHash).Some?
    && (forall h: nat :: 0 < h <= s.bestHeight ==> GoodAt(env, s.db, HashBelow(env, s.db, h), h))
    && ChainHeight(s.db) == s.bestHeight
    && ChainTip(s.db) == HashBelow(env, s.db, s.bestHeight + 1)
  }

  lemma BlockAtHash(db: Store, height: nat)
    requires GetBlockAt(db, height).Some?
    ensures height in db.heightToHash && GetBlockAt(db, height).value.hash == db.heightToHash[height]
  {
  }

  lemma {:induction false} FullFromExactly(env: Env, db: Store, height: nat, best: nat)
    requires 0 < height <= best + 1
    ensures var v := FullFrom(env, db, HashBelow(env, db, height), height, best);
            && (v == Passed <==> (forall h: nat :: height <= h <= best ==> GoodAt(env, db, HashBelow(env, db, h), h))
                                 && ChainHeight(db) == best && ChainTip(db) == HashBelow(env, db, best + 1))
            && (v.TipMismatch? ==> (forall h: nat :: height <= h <= best ==> GoodAt(env, db, HashBelow(env, db, h), h))
                                   && v.hash == HashBelow(env, db, best + 1))
            && (v.GapAt? || v.BadCheckpointAt? ==>
                  && height <= v.height <= best
                  && (forall h: nat :: height <= h < v.height ==> GoodAt(env, db, HashBelow(env, db, h), h))
                  && !GoodAt(env, db, HashBelow(env, db, v.height), v.height))
            && v != Unusable
    decreases best + 1 - height
  {
    hide GetBlockAt;
    if height <= best && GoodAt(env, db, HashBelow(env, db, height), height) {
      BlockAtHash(db, height);
      assert GetBlockAt(db, height).value.hash == HashBelow(env, db, height + 1);
      FullFromExactly(env, db, height + 1, best);
    }
  }

  /** A full pass ends without calling a handler exactly when the chain is at genesis, or every block up
      to the tip is stored, linked and checkpoint-correct and the stored tip is the one on top. */
  lemma FullPassesExactly(env: Env, s: ChainState)
    ensures FullVerdict(env, s) == Passed <==> s.bestHeight == 0 || WholeChainGood(env, s)
  {
    hide GoodAt, GetBlock;
    FullFromExactly(env, s.db, 1, s.bestHeight);
  }

  /** A handler is called for the lowest height that is not good. */
  lemma FullFindsLowest(env: Env, s: ChainState)
    ensures var v := FullVerdict(env, s);
            v.GapAt? || v.BadCheckpointAt? ==>
              && 0 < v.height <= s.bestHeight
              && !GoodAt(env, s.db, HashBelow(env, s.db, v.height), v.height)
              && forall h: nat :: 0 < h < v.height ==> GoodAt(env, s.db, HashBelow(env, s.db, h), h)
  {
    hide GoodAt, GetBlock;
    FullFromExactly(env, s.db, 1, s.bestHeight);
  }

  lemma SameBlocksSameReads(a: Store, b: Store, height: nat)
    requires a.blocks == b.blocks && a.txs == b.txs && a.heightToHash == b.heightToHash
    ensures GetBlockAt(a, height) == GetBlockAt(b, height)
  {
    if height in a.heightToHash { SameBlockRead(a, b, a.heightToHash[height]); }
  }

  lemma SameBlockRead(a: Store, b: Store, hash: Hash)
    requires a.blocks == b.blocks && a.txs == b.txs
    ensures GetBlock(a, hash) == GetBlock(b, hash)
  {
    if HasBody(a, hash) { assert ReadTxs(a, a.blocks[hash].txids) == ReadTxs(b, b.blocks[hash].txids); }
  }

  /** Where only the stored tip was wrong, the handler corrects it: the next pass succeeds. */
  lemma MismatchIsRepaired(env: Env, s: ChainState)
    requires FullVerdict(env, s).TipMismatch?
    ensures var (o, s1) := Handle(env, s, FullVerdict(env, s));
            o == Done && FullVerdict(env, s1) == Passed
  {
    hide GetBlock, GetBlockAt;
    FullFromExactly(env, s.db, 1, s.bestHeight);
    var s1 := Handle(env, s, FullVerdict(env, s)).1;
    forall h: nat | 0 < h <= s.bestHeight ensures GoodAt(env, s1.db, HashBelow(env, s1.db, h), h) {
      assert GoodAt(env, s.db, HashBelow(env, s.db, h), h);
      SameBlocksSameReads(s.db, s1.db, h);
    }
    SameBlockRead(s.db, s1.db, env.genesisHash);
    FullPassesExactly(env, s1);
  }

  // ---------- sound chains pass ----------

  /** A state of a chain whose blocks passed their checkpoints passes full validation. */
  lemma SoundChainPasses(env: Env, s: ChainState, chain: seq<Block>)
    requires Represents(s, chain) && CheckpointsHold(env, chain) && env.genesisHash == chain[0].hash
    ensures FullVerdict(env, s) == Passed
  {
    hide Holds, CachesOk, GetBlockAt, GetBlock;
    ChainBlockReadable(s.db, chain, 0);
    forall h: nat | 0 < h < |chain| ensures GoodAt(env, s.db, HashBelow(env, s.db, h), h) {
      HeightSits(s.db, chain, h);
      HeightSits(s.db, chain, h - 1);
    }
    HeightSits(s.db, chain, |chain| - 1);
    FullPassesExactly(env, s);
  }

  /** Every reachable state passes full validation. */
  lemma ReachablePasses(env: Env, s: ChainState, chain: seq<Block>, steps: seq<Step>, genesis: Block)
    requires Represents(s, chain) && CheckpointsHold(env, chain) && env.genesisHash == chain[0].hash
    requires AllAllowed(env, s, steps, genesis)
    ensures FullVerdict(env, Run(env, s, steps, genesis)) == Passed
  {
    hide Represents, FullVerdict, Next, Allowed, CheckpointsHold;
    var after := RunKeepsChain(env, s, chain, steps, genesis);
    SoundChainPasses(env, Run(env, s, steps, genesis), after);
  }

  /** A state of a chain whose blocks passed their checkpoints agrees with the whole table exactly when its
      genesis block does. */
  lemma ChainAgreesExactly(env: Env, s: ChainState, chain: seq<Block>)
    requires Represents(s, chain) && CheckpointsHold(env, chain)
    ensures chain != []
    ensures Agrees(env.checkpoints.expected, s.db, s.bestHeight) <==>
              (0 in env.checkpoints.expected ==> env.checkpoints.expected[0] == chain[0].hash)
  {
    hide Represents;
    Mirror(s, chain);
    forall h: nat | h < |chain| ensures GetHash(s.db, h) == Some(chain[h].hash) {
      HashOnChain(s, chain, h);
    }
    forall h: nat | 0 < h < |chain| && h in env.checkpoints.expected
      ensures env.checkpoints.expected[h] == chain[h].hash
    {
      assert CheckpointOk(env.checkpoints, h, chain[h].hash);
    }
  }

  lemma HashOnChain(s: ChainState, chain: seq<Block>, h: nat)
    requires Represents(s, chain) && h < |chain|
    ensures GetHash(s.db, h) == Some(chain[h].hash)
  {
    hide CachesOk, TipOk, Holds, IndexedFromTop, GetBlockAt;
    HeightSits(s.db, chain, h);
  }

  // ---------- smart accepts what full accepts ----------

  ghost predicate ReadableBelow(db: Store, best: nat) {
    forall h: nat :: 0 < h <= best ==> GetBlockAt(db, h).Some?
  }

  ghost predicate LinkedBelow(db: Store, best: nat) {
    forall h: nat :: 1 < h <= best ==> GetBlockAt(db, h).Some? && GetHash(db, h - 1) == Some(GetBlockAt(db, h).value.prev)
  }

  lemma GoodMeansLinked(env: Env, s: ChainState)
    requires WholeChainGood(env, s)
    ensures ReadableBelow(s.db, s.bestHeight) && LinkedBelow(s.db, s.bestHeight)
  {
    hide GetBlock, GetBlockAt;
    forall h: nat | 0 < h <= s.bestHeight
      ensures GetBlockAt(s.db, h).Some?
      ensures h > 1 ==> GetHash(s.db, h - 1) == Some(GetBlockAt(s.db, h).value.prev)
    {
      assert GoodAt(env, s.db, HashBelow(env, s.db, h), h);
      if h > 1 {
        assert GoodAt(env, s.db, HashBelow(env, s.db, h - 1), h - 1);
        BlockAtHash(s.db, h - 1);
      }
    }
  }

  lemma {:induction false} SamplesPass(db: Store, height: nat, end: nat)
    requires ReadableBelow(db, end) && LinkedBelow(db, end) && height > 1
    ensures SamplesFrom(db, height, end) == Passed
    decreases if height < end then end - height else 0
  {
    if height < end {
      hide GetBlock;
      assert GetBlockAt(db, height - 1).Some?;
      SamplesPass(db, height + SAMPLE_STEP, end);
    }
  }

  lemma {:induction false} TailPasses(db: Store, prev: Option<Hash>, height: nat, best: nat)
    requires ReadableBelow(db, best) && LinkedBelow(db, best) && height > 1
    requires prev.Some? ==> GetHash(db, height - 1) == prev
    ensures TailFrom(db, prev, height, best) == Passed
    decreases if height <= best then best + 1 - height else 0
  {
    if height <= best {
      hide GetBlockAt;
      BlockAtHash(db, height);
      TailPasses(db, Some(GetBlockAt(db, height).value.hash), height + 1, best);
    }
  }

  lemma {:induction false} SamplesExactly(db: Store, height: nat, end: nat)
    ensures SamplesFrom(db, height, end) == Passed <==> forall k: nat :: height + SAMPLE_STEP * k < end ==>
          SampleOk(db, height + SAMPLE_STEP * k)
    decreases if height < end then end - height else 0
  {
    hide SampleOk;
    if height < end {
      var next := height + SAMPLE_STEP;
      SamplesExactly(db, next, end);
      forall k: nat ensures next + SAMPLE_STEP * k == height + SAMPLE_STEP * (k + 1) {
      }
      if SamplesFrom(db, height, end) == Passed {
        forall k: nat | height + SAMPLE_STEP * k < end ensures SampleOk(db, height + SAMPLE_STEP * k) {
          if k > 0 { assert next + SAMPLE_STEP * (k - 1) == height + SAMPLE_STEP * k; }
        }
      }
      if forall k: nat :: height + SAMPLE_STEP * k < end ==> SampleOk(db, height + SAMPLE_STEP * k) {
        assert SampleOk(db, height + SAMPLE_STEP * 0);
        forall k: nat | next + SAMPLE_STEP * k < end ensures SampleOk(db, next + SAMPLE_STEP * k) {
          assert SampleOk(db, height + SAMPLE_STEP * (k + 1));
        }
      }
    }
  }

  /** Every block from `from` up is readable, and follows the one before it where there is one. */
  ghost predicate TailLinked(db: Store, prev: Option<Hash>, from: nat, best: nat) {
    && (forall h: nat :: from <= h <= best ==> GetBlockAt(db, h).Some?)
    && (prev.Some? && from <= best ==> GetBlockAt(db, from).value.prev == prev.value)
    && (forall h: nat :: from < h <= best ==> GetBlockAt(db, h).value.prev == GetBlockAt(db, h - 1).value.hash)
  }

  lemma {:induction false} TailExactly(db: Store, prev: Option<Hash>, height: nat, best: nat)
    ensures TailFrom(db, prev, height, best) == Passed <==> TailLinked(db, prev, height, best)
    decreases if height <= best then best + 1 - height else 0
  {
    hide GetBlockAt;
    if height <= best && GetBlockAt(db, height).Some? {
      TailExactly(db, Some(GetBlockAt(db, height).value.hash), height + 1, best);
    }
  }

  /** What smart mode accepts on a long chain: the quick check, every 1000th block below the tail with
      its parent, and a linked tail of the last 1001 blocks. */
  lemma SmartPassesExactly(env: Env, s: ChainState)
    requires s.bestHeight >= SMART_THRESHOLD
    ensures SmartVerdict(env, s) == Passed <==>
              && QuickOk(env, s)
              && (forall k: nat :: SAMPLE_STEP + SAMPLE_STEP * k < s.bestHeight - FULL_TAIL ==>
                    SampleOk(s.db, SAMPLE_STEP + SAMPLE_STEP * k))
              && TailLinked(s.db, None, s.bestHeight - FULL_TAIL, s.bestHeight)
  {
    hide QuickOk, SampleOk, TailLinked;
    SamplesExactly(s.db, SAMPLE_STEP, s.bestHeight - FULL_TAIL);
    TailExactly(s.db, None, s.bestHeight - FULL_TAIL, s.bestHeight);
  }

  /** Height 0 is indexed as its checkpoint says, if it has one. */
  predicate GenesisCheckpointed(env: Env, db: Store) {
    0 in env.checkpoints.expected ==> GetHash(db, 0) == Some(env.checkpoints.expected[0])
  }

  lemma QuickExactly(env: Env, s: ChainState)
    requires WholeChainGood(env, s) && s.bestHeight > 0
    ensures QuickOk(env, s) <==> GenesisCheckpointed(env, s.db)
  {
    hide GetBlock;
    forall h | h in env.checkpoints.expected && 0 < h <= s.bestHeight
      ensures GetHash(s.db, h) == Some(env.checkpoints.expected[h])
    {
      assert GoodAt(env, s.db, HashBelow(env, s.db, h), h);
      BlockAtHash(s.db, h);
    }
    assert GoodAt(env, s.db, HashBelow(env, s.db, s.bestHeight), s.bestHeight);
    BlockAtHash(s.db, s.bestHeight);
  }

  /** Of the chains full mode accepts, smart mode accepts exactly those that are short or whose height-0
      entry matches its checkpoint, which full mode never looks at. */
  lemma SmartAcceptsWhatFullAccepts(env: Env, s: ChainState)
    requires FullVerdict(env, s) == Passed
    ensures SmartVerdict(env, s) == Passed <==> s.bestHeight < SMART_THRESHOLD || GenesisCheckpointed(env, s.db)
  {
    hide FullVerdict, WholeChainGood, QuickOk, GenesisCheckpointed;
    FullPassesExactly(env, s);
    if s.bestHeight >= SMART_THRESHOLD {
      QuickExactly(env, s);
      GoodMeansLinked(env, s);
      SamplesPass(s.db, SAMPLE_STEP, s.bestHeight - FULL_TAIL);
      TailPasses(s.db, None, s.bestHeight - FULL_TAIL, s.bestHeight);
    }
  }

  // ---------- handlers ----------

  lemma {:induction false} LastGoodIsHighest(env: Env, db: Store, height: nat)
    ensures var c := LastGoodCheckpoint(env, db, height);
            && c <= height
            && (c > 0 ==> c in env.checkpoints.expected && GetHash(db, c) == Some(env.checkpoints.expected[c]))
            && forall h :: c < h <= height && h in env.checkpoints.expected ==>
                  GetHash(db, h) != Some(env.checkpoints.expected[h])
  {
    if height > 0 { LastGoodIsHighest(env, db, height - 1); }
  }

  // ---------- checking the indexes ----------

  lemma {:induction false} AmongExactly(db: Store, keys: seq<Hash>)
    requires forall x :: x in keys ==> x in db.hashToHeight
    ensures var list := InconsistenciesAmong(db, keys);
            && (list == [] <==> forall x :: x in keys ==> RoundTrips(db, x))
            && (forall i :: 0 <= i < |list| ==> list[i].hash in keys && list[i].height == db.hashToHeight[list[i].hash]
                                                && !RoundTrips(db, list[i].hash))
            && (forall x :: x in keys && !RoundTrips(db, x) ==> exists i :: 0 <= i < |list| && list[i].hash == x)
  {
    hide RoundTrips;
    if keys != [] {
      var n := |keys| - 1;
      var init, x := keys[..n], keys[n];
      assert keys == init + [x] && x in keys;
      AmongExactly(db, init);
      var before, list := InconsistenciesAmong(db, init), InconsistenciesAmong(db, keys);
      forall y | y in keys && !RoundTrips(db, y) ensures exists i :: 0 <= i < |list| && list[i].hash == y {
        if y in init {
          var i :| 0 <= i < |before| && before[i].hash == y;
          assert list[i].hash == y;
        } else {
          assert list[|before|].hash == y;
        }
      }
    }
  }

  /** The check reports every hash-to-height entry that does not round-trip, and nothing else. */
  lemma CheckFindsExactly(db: Store)
    ensures var list := IndexInconsistencies(db);
            && (list == [] <==> forall x :: x in db.hashToHeight ==> RoundTrips(db, x))
            && (forall i :: 0 <= i < |list| ==> list[i].hash in db.hashToHeight
                                                && list[i].height == db.hashToHeight[list[i].hash]
                                                && !RoundTrips(db, list[i].hash))
            && (forall x :: x in db.hashToHeight && !RoundTrips(db, x) ==>
                  exists i :: 0 <= i < |list| && list[i].hash == x)
  {
    hide RoundTrips, InconsistenciesAmong;
    AmongExactly(db, KeyOrder.SortedKeys(db.hashToHeight.Keys));
  }

  lemma {:induction false} LowestIsLowest(list: seq<Inconsistency>)
    requires list != []
    ensures forall i :: 0 <= i < |list| ==> LowestHeight(list) <= list[i].height
    ensures exists i :: 0 <= i < |list| && LowestHeight(list) == list[i].height
  {
    var n := |list| - 1;
    if n > 0 {
      LowestIsLowest(list[..n]);
      assert forall i :: 0 <= i < n ==> list[..n][i] == list[i];
      var i :| 0 <= i < n && LowestHeight(list[..n]) == list[..n][i].height;
      assert LowestHeight(list) == list[i].height || LowestHeight(list) == list[n].height;
    } else {
      assert LowestHeight(list) == list[0].height;
    }
  }

  /** A reachable state has consistent indexes. */
  lemma SoundIndexesAreConsistent(s: ChainState)
    requires Sound(s)
    ensures IndexInconsistencies(s.db) == []
  {
    hide ParentsBelow, TipIsTop, WorkIsHeight, LookupsAgree;
    CheckFindsExactly(s.db);
  }

  // ---------- repairing the indexes ----------

  ghost predicate OneHeightPerHash(db: Store) {
    forall h, k :: h in db.heightToHash && k in db.heightToHash && db.heightToHash[h] == db.heightToHash[k] ==> h == k
  }

  /** What a repair above `target` keeps: entries only disappear, no height at or below `target` loses
      its hash, and no hash indexed there loses its height or its block. */
  ghost predicate KeptBelow(before: Store, after: Store, target: nat) {
    && IndexShrinks(before, after)
    && (forall h :: h in before.heightToHash && h <= target ==> h in after.heightToHash)
    && (forall x :: x in before.hashToHeight && before.hashToHeight[x] <= target ==>
          x in after.hashToHeight && (x in before.blocks ==> x in after.blocks && after.blocks[x] == before.blocks[x]))
  }

  /** Entries at or below `limit` round-trip. */
  ghost predicate ConsistentUpTo(db: Store, limit: nat) {
    forall x :: x in db.hashToHeight && db.hashToHeight[x] <= limit ==> RoundTrips(db, x)
  }

  lemma KeepsConsistent(before: Store, after: Store, target: nat)
    requires KeptBelow(before, after, target) && ConsistentUpTo(before, target) && OneHeightPerHash(before)
    ensures ConsistentUpTo(after, target) && OneHeightPerHash(after)
  {
    forall x | x in after.hashToHeight && after.hashToHeight[x] <= target ensures RoundTrips(after, x) {
      assert RoundTrips(before, x);
    }
  }

  lemma KeptThrough(a: Store, b: Store, c: Store, target: nat)
    requires KeptBelow(a, b, target) && KeptBelow(b, c, target)
    ensures KeptBelow(a, c, target)
  {
  }

  /** A block found above `target` is not indexed at or below it. */
  lemma FoundAboveIsAbove(db: Store, target: nat, h: nat)
    requires ConsistentUpTo(db, target) && OneHeightPerHash(db)
    requires h > target && h in db.heightToHash && db.heightToHash[h] in db.hashToHeight
    ensures db.hashToHeight[db.heightToHash[h]] > target
  {
    var x := db.heightToHash[h];
    assert db.hashToHeight[x] <= target ==> RoundTrips(db, x);
  }

  lemma DisconnectKeepsBelow(s: ChainState, b: Block, h: nat, target: nat)
    requires ConsistentUpTo(s.db, target) && OneHeightPerHash(s.db)
    requires h > target && h in s.db.heightToHash && s.db.heightToHash[h] == b.hash
    ensures KeptBelow(s.db, Disconnect(s, b).1.db, target)
  {
    hide DisconnectStore, GetBlock, ConsistentUpTo, OneHeightPerHash;
    if b.hash in s.db.hashToHeight {
      FoundAboveIsAbove(s.db, target, h);
      if DisconnectStore(s.db, b, s.db.hashToHeight[b.hash]).Ok? {
        DisconnectedHeights(s.db, b, s.db.hashToHeight[b.hash]);
      }
    }
  }

  lemma KeepsItself(db: Store, target: nat)
    ensures KeptBelow(db, db, target)
  {
  }

  lemma {:induction false} WalkKeepsBelow(s: ChainState, h: nat, target: nat)
    requires ConsistentUpTo(s.db, target) && OneHeightPerHash(s.db)
    ensures KeptBelow(s.db, DisconnectDown(s, h, target).1.db, target)
    decreases h
  {
    hide Disconnect, ConsistentUpTo, OneHeightPerHash, KeptBelow, GetBlock;
    KeepsItself(s.db, target);
    if h > target {
      var block := GetBlockAt(s.db, h);
      if block.None? {
        WalkKeepsBelow(s, h - 1, target);
      } else {
        var (o, s1) := Disconnect(s, block.value);
        FoundAt(s.db, h);
        DisconnectKeepsBelow(s, block.value, h, target);
        KeepsConsistent(s.db, s1.db, target);
        if o == Done {
          WalkKeepsBelow(s1, h - 1, target);
          KeptThrough(s.db, s1.db, DisconnectDown(s1, h - 1, target).1.db, target);
        }
      }
    }
  }

  lemma OrphanDropsExactly(st: Store, hash: Hash, height: nat)
    ensures var st1 := DeleteOrphanedBlock(st, hash, height);
            && st1.hashToHeight == st.hashToHeight - {hash}
            && st1.heightToHash == st.heightToHash - (if GetHash(st, height) == Some(hash) then {height} else {})
            && st1.blocks == st.blocks - {hash}
            && (forall id :: id in st.txs ==>
                  (id in st1.txs <==> !(HasBody(st, hash) && id in st.blocks[hash].txids)))
            && (forall k :: k in st.history ==> (k in st1.history <==> k.height != height))
            && st1.tip == st.tip && st1.supply == st.supply
            && IndexShrinks(st, st1)
  {
    hide ReleaseBlock, GetBlock, HasBody;
  }

  /** The height is that of one of these blocks, and names it. */
  predicate NamedAt(st: Store, heights: map<Hash, nat>, gone: seq<Hash>, h: nat) {
    && h in st.heightToHash && st.heightToHash[h] in gone
    && st.heightToHash[h] in heights && heights[st.heightToHash[h]] == h
  }

  lemma {:induction false} OrphansDropExactly(st: Store, heights: map<Hash, nat>, orphans: seq<Hash>, target: nat)
    requires forall x :: x in orphans ==> x in heights && heights[x] > target
    requires forall x :: x in orphans && x in st.hashToHeight ==> st.hashToHeight[x] > target
    ensures var st1 := DeleteOrphans(st, heights, orphans);
            && KeptBelow(st, st1, target)
            && (forall x :: x in st1.hashToHeight <==> x in st.hashToHeight && x !in orphans)
            && (forall h :: h in st1.heightToHash <==> h in st.heightToHash && !NamedAt(st, heights, orphans, h))
    decreases |orphans|
  {
    hide DeleteOrphanedBlock;
    if orphans == [] {
    } else {
      var x, rest := orphans[0], orphans[1..];
      var st1 := DeleteOrphanedBlock(st, x, heights[x]);
      assert orphans == [x] + rest;
      OrphanDropsExactly(st, x, heights[x]);
      OrphansDropExactly(st1, heights, rest, target);
      var st2 := DeleteOrphans(st1, heights, rest);
      KeptThrough(st, st1, st2, target);
      forall h ensures h in st2.heightToHash <==> h in st.heightToHash && !NamedAt(st, heights, orphans, h) {
        NamedNext(st, st1, heights, orphans, h);
      }
    }
  }

  lemma NamedNext(st: Store, st1: Store, heights: map<Hash, nat>, orphans: seq<Hash>, h: nat)
    requires orphans != [] && orphans[0] in heights
    requires st1.heightToHash
             == st.heightToHash
                - (if GetHash(st, heights[orphans[0]]) == Some(orphans[0]) then {heights[orphans[0]]} else {})
    ensures h in st1.heightToHash && !NamedAt(st1, heights, orphans[1..], h)
            <==> h in st.heightToHash && !NamedAt(st, heights, orphans, h)
  {
    assert orphans == [orphans[0]] + orphans[1..];
  }

  /** After the clean-up exactly the hash entries at or below the height are left, with their blocks, and
      exactly those height entries are gone that a removed hash entry agreed with. */
  lemma CleanDropsExactly(db: Store, height: nat)
    ensures var db1 := CleanOrphanedBlocks(db, height);
            && KeptBelow(db, db1, height)
            && (forall x :: x in db1.hashToHeight <==> x in db.hashToHeight && db.hashToHeight[x] <= height)
            && (forall x :: x in db1.hashToHeight ==> db1.hashToHeight[x] == db.hashToHeight[x])
            && (forall h :: h in db1.heightToHash <==>
                  h in db.heightToHash && !(h > height && GetHeight(db, db.heightToHash[h]) == Some(h)))
  {
    hide DeleteOrphans, KeptBelow;
    var orphans := KeyOrder.SortedKeys(HashesAbove(db, height));
    OrphansDropExactly(db, db.hashToHeight, orphans, height);
    KeptShrinks(db, CleanOrphanedBlocks(db, height), height);
    forall h: nat ensures NamedAt(db, db.hashToHeight, orphans, h) <==>
                     h in db.heightToHash && h > height && GetHeight(db, db.heightToHash[h]) == Some(h) {
    }
  }

  lemma KeptShrinks(a: Store, b: Store, target: nat)
    requires KeptBelow(a, b, target)
    ensures IndexShrinks(a, b)
  {
  }

  lemma {:induction false} NothingMoreToDelete(db: Store, good: nat, bad: nat)
    requires ConsistentUpTo(db, good) && OneHeightPerHash(db)
    requires forall x :: x in db.hashToHeight ==> db.hashToHeight[x] <= good
    ensures CleanOrphanedData(db, good, bad) == db
    decreases bad
  {
    hide ConsistentUpTo, OneHeightPerHash, HasBody, HistoryAt;
    if bad > good {
      NothingMoreToDelete(db, good, bad - 1);
      if GetBlockAt(db, bad).Some? {
        FoundAt(db, bad);
        if db.heightToHash[bad] in db.hashToHeight { FoundAboveIsAbove(db, good, bad); }
      }
    }
  }

  /** A rollback that had somewhere to go leaves only consistent entries at or below its target. */
  lemma RollbackCleans(env: Env, s: ChainState, target: nat)
    requires ConsistentUpTo(s.db, target) && OneHeightPerHash(s.db)
    requires Rollback(env, s, target).0 == Done && s.bestHeight != target
    ensures var db := Rollback(env, s, target).1.db;
            && ConsistentUpTo(db, target) && OneHeightPerHash(db)
            && (forall x :: x in db.hashToHeight ==> db.hashToHeight[x] <= target)
  {
    hide DisconnectDown, CleanOrphanedBlocks, ConsistentUpTo, OneHeightPerHash, KeptBelow, GetBlockAt;
    WalkKeepsBelow(s, s.bestHeight, target);
    var s1 := DisconnectDown(s, s.bestHeight, target).1;
    KeepsConsistent(s.db, s1.db, target);
    CleanDropsExactly(s1.db, target);
    var cleaned := CleanOrphanedBlocks(s1.db, target);
    KeepsConsistent(s1.db, cleaned, target);
    TipDoesNotMatter(cleaned, Some(Tip(target, GetBlockAt(s.db, target).value.hash)), target);
  }

  lemma TipDoesNotMatter(db: Store, tip: Option<Tip>, target: nat)
    ensures ConsistentUpTo(db, target) ==> ConsistentUpTo(db.(tip := tip), target)
    ensures OneHeightPerHash(db) ==> OneHeightPerHash(db.(tip := tip))
  {
  }

  lemma BelowLowestIsConsistent(db: Store, list: seq<Inconsistency>)
    requires list == IndexInconsistencies(db) != [] && LowestHeight(list) > 0
    ensures RollbackTarget(list) < LowestHeight(list) && ConsistentUpTo(db, RollbackTarget(list))
  {
    hide RoundTrips, IndexInconsistencies;
    LowestIsLowest(list);
    CheckFindsExactly(db);
  }

  /** A repair that succeeds and had blocks to roll back removes every mismatch: the second check finds
      nothing, and what is still indexed lies at or below the target and round-trips. */
  lemma RepairCleans(env: Env, s: ChainState, list: seq<Inconsistency>)
    requires list == IndexInconsistencies(s.db) != [] && LowestHeight(list) > 0 && OneHeightPerHash(s.db)
    requires RepairIndexes(env, s, list).0 == Done && s.bestHeight != RollbackTarget(list)
    ensures var s1 := RepairIndexes(env, s, list).1;
            && IndexInconsistencies(s1.db) == []
            && s1.bestHeight == RollbackTarget(list)
            && (forall x :: x in s1.db.hashToHeight ==>
                  s1.db.hashToHeight[x] <= RollbackTarget(list) && RoundTrips(s1.db, x))
            && (forall x :: x in s1.knownBlocks ==> s1.knownBlocks[x] <= RollbackTarget(list))
            && (forall x :: x in s1.blockIndex ==> s1.blockIndex[x].height <= RollbackTarget(list))
  {
    hide Rollback, CleanOrphanedData, OneHeightPerHash, IndexInconsistencies, GetBlockAt;
    var target := RollbackTarget(list);
    BelowLowestIsConsistent(s.db, list);
    RollbackCleans(env, s, target);
    var s1 := Rollback(env, s, target).1;
    NothingMoreToDelete(s1.db, target, s.bestHeight);
    RollbackArrives(env, s, target);
    CheckFindsExactly(RepairIndexes(env, s, list).1.db);
  }

  lemma RollbackArrives(env: Env, s: ChainState, target: nat)
    requires Rollback(env, s, target).0 == Done
    ensures Rollback(env, s, target).1.bestHeight == target
    ensures s.bestHeight != target ==> forall x :: x in Rollback(env, s, target).1.knownBlocks ==>
          Rollback(env, s, target).1.knownBlocks[x] <= target
  {
    hide DisconnectDown, CleanOrphanedBlocks, GetBlockAt;
  }

  // ---------- deleting what is left above ----------

  /** After the deletion, a block can still be found above `good` only if its hash is no longer indexed,
      which is when it cannot be deleted. */
  lemma {:induction false} DeletesAllIndexed(db: Store, good: nat, bad: nat)
    ensures var after := CleanOrphanedData(db, good, bad);
            && ReadsShrink(db, after)
            && forall h: nat :: good < h <= bad && GetBlockAt(after, h).Some? ==>
                  after.heightToHash[h] !in after.hashToHeight
    decreases bad
  {
    hide GetBlockAt, DeleteBlock;
    if bad > good {
      DeletesAllIndexed(db, good, bad - 1);
      var before, after := CleanOrphanedData(db, good, bad - 1), CleanOrphanedData(db, good, bad);
      DeletionStep(before, bad);
      ReadsThrough(db, before, after);
      forall h: nat | good < h <= bad && GetBlockAt(after, h).Some?
        ensures h in after.heightToHash && after.heightToHash[h] !in after.hashToHeight
      {
        UnreadableStays(before, after, h);
        FoundAt(after, h);
      }
    }
  }

  /** One height of the deletion. */
  lemma DeletionStep(before: Store, h: nat)
    ensures var block := GetBlockAt(before, h);
            var after := if block.None? then before
                         else match DeleteBlock(before, block.value.hash) case Err(_) => before case Ok(st) => st;
            && ReadsShrink(before, after)
            && (GetBlockAt(after, h).Some? ==> h in after.heightToHash && after.heightToHash[h] !in after.hashToHeight)
  {
    hide HistoryAt;
    var block := GetBlockAt(before, h);
    if block.Some? {
      FoundAt(before, h);
      if DeleteBlock(before, block.value.hash).Ok? { DeleteBlockShrinks(before, block.value.hash); }
    }
  }

  /** When the chain already stands at the target, the rollback is a no-op and cleans nothing, so the
      repair reports success over unchanged indexes. */
  lemma RepairAtTargetDoesNothing(env: Env, s: ChainState, list: seq<Inconsistency>)
    requires list == IndexInconsistencies(s.db) != [] && s.bestHeight == RollbackTarget(list)
    ensures RepairIndexes(env, s, list).1.db == s.db && IndexInconsistencies(RepairIndexes(env, s, list).1.db) == list
    ensures GetBlockAt(s.db, s.bestHeight).Some? ==> RepairIndexes(env, s, list).0 == Done
  {
    hide IndexInconsistencies, GetBlockAt;
  }

  /** So a successful repair leaves nothing for a second check exactly when the chain stood above the
      rollback target. */
  lemma RepairCleansExactly(env: Env, s: ChainState, list: seq<Inconsistency>)
    requires list == IndexInconsistencies(s.db) != [] && LowestHeight(list) > 0 && OneHeightPerHash(s.db)
    requires RepairIndexes(env, s, list).0 == Done
    ensures IndexInconsistencies(RepairIndexes(env, s, list).1.db) == [] <==> s.bestHeight != RollbackTarget(list)
  {
    hide RepairIndexes, IndexInconsistencies, OneHeightPerHash;
    if s.bestHeight != RollbackTarget(list) {
      RepairCleans(env, s, list);
    } else {
      RepairAtTargetDoesNothing(env, s, list);
    }
  }
}
