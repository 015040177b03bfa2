/** What recovery finds, and that any run of recoveries is safe. */
module RecoveryProofs {
  import opened Types
  import opened Storage
  import KeyOrder
  import opened Ledger
  import opened ChainSpec
  import opened Represent
  import opened RollbackProofs
  import opened Runs
  import opened Guarantees
  import opened CheckpointManagement
  import opened RecoverySpec

  // ---------- the corruption search ----------

  /** Block `c` is missing, or the block above it is there and its parent is missing or is not block `c`. */
  predicate BrokenAt(db: Store, c: nat) {
    GetBlockAt(db, c).None? || (GetBlockAt(db, c + 1).Some? && !LinksBelow(db, c + 1))
  }

  /** Only empty heights down to a first block that does not link to genesis. */
  ghost predicate DeadEnd(db: Store, height: nat) {
    && height >= 1
    && (forall h: nat :: 1 < h <= height ==> GetBlockAt(db, h).None?)
    && GetBlockAt(db, 1).Some? && !LinksBelow(db, 1)
  }

  /** Once an empty height was met, the search ends at a break, unless it runs into a dead end. */
  lemma {:induction false} SearchBelowGap(db: Store, height: nat, min: nat, checked: nat, missing: seq<nat>)
    requires missing != [] && forall m :: m in missing ==> m > height && GetBlockAt(db, m).None?
    ensures var r := SearchDown(db, height, min, checked, missing);
            && (r > 0 ==> BrokenAt(db, r))
            && (r <= height || r in missing)
            && (r == 0 <==> min == 0 && DeadEnd(db, height))
    decreases height
  {
    hide GetBlockAt, GetBlock, LinksBelow;
    if height > min {
      if GetBlockAt(db, height).None? {
        SearchBelowGap(db, height - 1, min, checked + 1, missing + [height]);
        DeadEndBelowGap(db, height);
      } else if !LinksBelow(db, height) {
        DeadEndAtBlock(db, height);
      } else {
        assert missing[0] in missing;
      }
    } else {
      assert missing[|missing| - 1] in missing;
    }
  }

  /** Every height of the searched window links to the one below. */
  ghost predicate WindowLinks(db: Store, height: nat, min: nat, from: nat) {
    forall h: nat :: min < h <= height && from - h <= SEARCH_CHUNK ==> LinksBelow(db, h)
  }

  /** Linked heights down to a dead end inside the window. */
  ghost predicate EndsDead(db: Store, height: nat, from: nat) {
    exists m: nat :: m <= height && from - m <= SEARCH_CHUNK && DeadEnd(db, m) &&
        forall h: nat :: m < h <= height ==> LinksBelow(db, h)
  }

  lemma EndsDeadStep(db: Store, height: nat, from: nat)
    requires height > 0 && LinksBelow(db, height)
    ensures EndsDead(db, height, from) <==> EndsDead(db, height - 1, from)
  {
    hide GetBlock;
    if EndsDead(db, height, from) {
      var m: nat :| m <= height && from - m <= SEARCH_CHUNK && DeadEnd(db, m) &&
          forall h: nat :: m < h <= height ==> LinksBelow(db, h);
      assert m != height;
    }
    if EndsDead(db, height - 1, from) {
      var m: nat :| m <= height - 1 && from - m <= SEARCH_CHUNK && DeadEnd(db, m) &&
          forall h: nat :: m < h <= height - 1 ==> LinksBelow(db, h);
      assert forall h: nat :: m < h <= height ==> LinksBelow(db, h);
    }
  }

  lemma EndsDeadHere(db: Store, height: nat, from: nat)
    requires height > 0 && !LinksBelow(db, height) && height <= from && from - height <= SEARCH_CHUNK
    ensures EndsDead(db, height, from) <==> DeadEnd(db, height)
  {
    hide GetBlock, LinksBelow, GetBlockAt;
    if EndsDead(db, height, from) {
      var m: nat :| m <= height && from - m <= SEARCH_CHUNK && DeadEnd(db, m) &&
          forall h: nat :: m < h <= height ==> LinksBelow(db, h);
      assert m == height;
    }
  }

  lemma {:induction false} SearchFromTop(db: Store, height: nat, min: nat, from: nat)
    requires height <= from && from - height <= SEARCH_CHUNK
    ensures var r := SearchDown(db, height, min, from - height, []);
            && (r > 0 ==> BrokenAt(db, r))
            && r <= height
            && (r == 0 <==> WindowLinks(db, height, min, from) || (min == 0 && EndsDead(db, height, from)))
    decreases height
  {
    hide GetBlock, GetBlockAt, LinksBelow, DeadEnd, EndsDead;
    if height <= min {
      if min == 0 { NothingDeadAtZero(db, from); }
    } else if GetBlockAt(db, height).None? {
      NoBlockNoLink(db, height);
      assert [] + [height] == [height];
      SearchBelowGap(db, height - 1, min, from - height + 1, [height]);
      EndsDeadHere(db, height, from);
      DeadEndBelowGap(db, height);
      assert !WindowLinks(db, height, min, from);
    } else if !LinksBelow(db, height) {
      EndsDeadHere(db, height, from);
      DeadEndAtBlock(db, height);
      assert !WindowLinks(db, height, min, from);
    } else if from - height + 1 > SEARCH_CHUNK {
    } else {
      SearchFromTop(db, height - 1, min, from);
      EndsDeadStep(db, height, from);
    }
  }

  lemma NothingDeadAtZero(db: Store, from: nat)
    ensures !EndsDead(db, 0, from)
  {
    hide GetBlockAt, LinksBelow;
  }

  lemma NoBlockNoLink(db: Store, height: nat)
    requires height > 0 && GetBlockAt(db, height).None?
    ensures !LinksBelow(db, height)
  {
  }

  lemma DeadEndBelowGap(db: Store, height: nat)
    requires height > 0 && GetBlockAt(db, height).None?
    ensures DeadEnd(db, height) <==> DeadEnd(db, height - 1)
  {
    hide GetBlockAt, LinksBelow;
  }

  lemma DeadEndAtBlock(db: Store, height: nat)
    requires height > 0 && GetBlockAt(db, height).Some? && !LinksBelow(db, height)
    ensures DeadEnd(db, height) <==> height == 1
  {
    hide GetBlockAt, LinksBelow;
  }

  /** The window the search covers: at most 1001 heights, none at or below the search floor. */
  ghost predicate AllLink(db: Store, from: nat) {
    WindowLinks(db, from, SearchFloor(from), from)
  }

  /** A positive result names a break; the result is 0 exactly when every searched height is there and
      linked, or the search ran into a first block that does not link to genesis. */
  lemma CorruptionPointFindsBreak(db: Store, from: nat)
    ensures var c := CorruptionPoint(db, from);
            && c <= from
            && (c > 0 ==> BrokenAt(db, c))
            && (c == 0 <==> AllLink(db, from) || (from <= MAX_SEARCH_DEPTH && EndsDead(db, from, from)))
  {
    hide SearchDown, WindowLinks, EndsDead, BrokenAt;
    SearchFromTop(db, from, SearchFloor(from), from);
  }

  /** If block 1, where there is one, links to genesis, then 0 means exactly that nothing is broken. */
  lemma ZeroMeansSound(db: Store, from: nat)
    requires GetBlockAt(db, 1).Some? ==> LinksBelow(db, 1)
    ensures CorruptionPoint(db, from) == 0 <==> AllLink(db, from)
  {
    hide LinksBelow, GetBlockAt, WindowLinks;
    CorruptionPointFindsBreak(db, from);
  }

  const UNLINKED: Store := EMPTY_STORE.(blocks := map[7 := Compact(1, 3, 0, [])], heightToHash := map[1 := 7],
                                        hashToHeight := map[7 := 1])

  /** Without that premise it is wrong: a single block at height 1 with an unknown parent is reported sound. */
  lemma UnlinkedFirstBlockMissed()
    ensures GetBlockAt(UNLINKED, 1).Some? && !LinksBelow(UNLINKED, 1)
    ensures CorruptionPoint(UNLINKED, 1) == 0 && !AllLink(UNLINKED, 1)
  {
    assert HasBody(UNLINKED, 7) && !LinksBelow(UNLINKED, 1);
    CorruptionPointFindsBreak(UNLINKED, 1);
    assert DeadEnd(UNLINKED, 1);
    assert EndsDead(UNLINKED, 1, 1);
  }

  // ---------- segments ----------

  /** The ancestor `k` steps below `height` can be read, and matches the checkpoint of its height. */
  ghost predicate StepOk(env: Env, db: Store, hash: Hash, height: nat, k: nat)
    requires k <= height
  {
    && Ancestor(db, hash, k).Some?
    && GetBlock(db, Ancestor(db, hash, k).value).Some?
    && (height - k in env.checkpoints.expected ==> CheckpointOk(env.checkpoints, height - k, Ancestor(db, hash, k).value))
  }

  lemma {:induction false} AncestorOfParent(db: Store, hash: Hash, k: nat)
    requires GetBlock(db, hash).Some?
    ensures Ancestor(db, hash, k + 1) == Ancestor(db, GetBlock(db, hash).value.prev, k)
  {
    hide GetBlock;
    if k > 0 {
      AncestorOfParent(db, hash, k - 1);
    } else {
      assert Ancestor(db, hash, 0) == Some(hash);
    }
  }

  ghost predicate AllStepsOk(env: Env, db: Store, hash: Hash, height: nat, from: nat) {
    forall k: nat :: k < height - from ==> StepOk(env, db, hash, height, k)
  }

  lemma StepOfParent(env: Env, db: Store, hash: Hash, height: nat, below: nat, k: nat)
    requires GetBlock(db, hash).Some? && below + 1 == height && k <= below
    ensures StepOk(env, db, GetBlock(db, hash).value.prev, below, k) <==> StepOk(env, db, hash, height, k + 1)
  {
    hide GetBlock;
    AncestorOfParent(db, hash, k);
  }

  lemma StepsOfParent(env: Env, db: Store, hash: Hash, height: nat, below: nat, from: nat)
    requires GetBlock(db, hash).Some? && from <= below && below + 1 == height
    ensures AllStepsOk(env, db, hash, height, from) <==>
              StepOk(env, db, hash, height, 0) && AllStepsOk(env, db, GetBlock(db, hash).value.prev, below, from)
  {
    hide GetBlock, StepOk;
    var prev := GetBlock(db, hash).value.prev;
    if StepOk(env, db, hash, height, 0) && AllStepsOk(env, db, prev, below, from) {
      forall k: nat | k < height - from ensures StepOk(env, db, hash, height, k) {
        if k > 0 { StepOfParent(env, db, hash, height, below, k - 1); }
      }
    }
    if AllStepsOk(env, db, hash, height, from) {
      forall k: nat | k < below - from ensures StepOk(env, db, prev, below, k) {
        StepOfParent(env, db, hash, height, below, k);
      }
    }
  }

  /** Walking a segment succeeds exactly when every block on the way is readable and checkpoint-correct. */
  lemma {:induction false} SegmentExactly(env: Env, db: Store, hash: Hash, height: nat, from: nat)
    requires from <= height
    ensures WalkSegment(env, db, hash, height, from) == Done <==> AllStepsOk(env, db, hash, height, from)
    decreases height
  {
    hide GetBlock;
    if height > from {
      assert Ancestor(db, hash, 0) == Some(hash);
      assert StepOk(env, db, hash, height, 0) <==>
             GetBlock(db, hash).Some? && (height in env.checkpoints.expected ==>
                 CheckpointOk(env.checkpoints, height, hash));
      if GetBlock(db, hash).Some? {
        SegmentExactly(env, db, GetBlock(db, hash).value.prev, height - 1, from);
        StepsOfParent(env, db, hash, height, height - 1, from);
      }
    }
  }

  // ---------- the fork point ----------

  lemma {:induction false} HighestStandingIsHighest(env: Env, db: Store, height: nat, min: nat)
    ensures match HighestStanding(env, db, height, min)
            case Some(h) => min < h <= height && Standing(env, db, h) && forall k: nat :: h < k <= height ==>
                !Standing(env, db, k)
            case None => forall k: nat :: min < k <= height ==> !Standing(env, db, k)
    decreases height
  {
    hide Standing;
    if height > min && !Standing(env, db, height) { HighestStandingIsHighest(env, db, height - 1, min); }
  }

  /** The fork point is the highest height at or below the error that ends a readable segment, but never
      below the nearest checkpoint; when nothing stands, it is that checkpoint itself, if its block is there. */
  lemma {:induction false} ForkPointIsHighest(env: Env, db: Store, height: nat)
    ensures var min := NearestBelow(env.checkpoints.expected, height);
            match ForkPoint(env, db, height)
            case Ok(h) =>
              && min <= h <= height
              && (forall k: nat :: h < k <= height ==> !Standing(env, db, k))
              && (h > 0 ==> GetBlockAt(db, h).Some?)
              && (Standing(env, db, h) || h == min)
            case Err(_) =>
              && min > 0 && GetBlockAt(db, min).None?
              && (forall k: nat :: min < k <= height ==> !Standing(env, db, k))
  {
    HighestStandingIsHighest(env, db, height, NearestBelow(env.checkpoints.expected, height));
    hide SegmentEndsAt, GetBlockAt;
  }

  /** `highest` is the highest checkpoint below a height, and 0 if there is none above height 0. */
  ghost predicate HighestBelow(expected: map<nat, Hash>, height: nat, highest: nat) {
    && (highest > 0 ==> highest < height && highest in expected)
    && (forall h :: highest < h < height ==> h !in expected)
  }

  /** The block found at a checkpoint's height is the expected one. */
  predicate FoundAsExpected(expected: map<nat, Hash>, db: Store, height: nat) {
    height in expected && GetBlockAt(db, height).Some? && GetBlockAt(db, height).value.hash == expected[height]
  }

  lemma NearestIsHighest(expected: map<nat, Hash>, height: nat, highest: nat)
    requires HighestBelow(expected, height, highest)
    ensures height > 0 ==> NearestBelow(expected, height - 1) == highest
    ensures height == 0 ==> highest == 0
  {
    if height > 0 { NearestIsUnique(expected, height - 1, highest); }
  }

  /** Recovery from a failed checkpoint goes back to the highest checkpoint below it if its block is found as
      expected; if no block is found there, to the next one below that if that is found as expected; and to
      genesis in exactly the remaining cases. */
  lemma CheckpointBeforeExactly(expected: map<nat, Hash>, db: Store, failed: nat, first: nat, second: nat)
    requires HighestBelow(expected, failed, first) && HighestBelow(expected, first, second)
    ensures CheckpointBefore(expected, db, failed)
            == if first > 0 && FoundAsExpected(expected, db, first) then first
               else if first > 0 && GetBlockAt(db, first).None? && FoundAsExpected(expected, db, second) then second
               else 0
  {
    hide GetBlockAt, NearestBelow;
    NearestIsHighest(expected, failed, first);
    if first > 0 { NearestIsHighest(expected, first, second); }
  }

  /** `safe` is the height recovery goes back to from a failed checkpoint: the highest one below it if found as
      expected, the one below that if it is and no block is found at the first, or else genesis. */
  ghost predicate SafeCheckpoint(expected: map<nat, Hash>, db: Store, failed: nat, safe: nat) {
    exists first: nat, second: nat ::
      && HighestBelow(expected, failed, first) && HighestBelow(expected, first, second)
      && safe == if first > 0 && FoundAsExpected(expected, db, first) then first
                 else if first > 0 && GetBlockAt(db, first).None? && FoundAsExpected(expected, db, second) then second
                 else 0
  }

  lemma CheckpointBeforeIsSafe(expected: map<nat, Hash>, db: Store, failed: nat)
    ensures SafeCheckpoint(expected, db, failed, CheckpointBefore(expected, db, failed))
  {
    hide GetBlockAt, FoundAsExpected, CheckpointBefore;
    var first := if failed == 0 then 0 else NearestBelow(expected, failed - 1);
    var second := if first == 0 then 0 else NearestBelow(expected, first - 1);
    assert HighestBelow(expected, failed, first) && HighestBelow(expected, first, second);
    CheckpointBeforeExactly(expected, db, failed, first, second);
  }

  lemma SafeIsUnique(expected: map<nat, Hash>, db: Store, failed: nat, safe: nat)
    requires SafeCheckpoint(expected, db, failed, safe)
    ensures CheckpointBefore(expected, db, failed) == safe
  {
    hide HighestBelow, FoundAsExpected, CheckpointBefore, GetBlockAt;
    var first: nat, second: nat :| HighestBelow(expected, failed, first) && HighestBelow(expected, first, second)
        && safe == if first > 0 && FoundAsExpected(expected, db, first) then first
                   else if first > 0 && GetBlockAt(db, first).None? && FoundAsExpected(expected, db, second) then second
                   else 0;
    CheckpointBeforeExactly(expected, db, failed, first, second);
  }

  // ---------- recovery on a sound chain ----------

  lemma ChainLinks(s: ChainState, chain: seq<Block>)
    requires Represents(s, chain)
    ensures AllLink(s.db, s.bestHeight) && (GetBlockAt(s.db, 1).Some? ==> LinksBelow(s.db, 1))
  {
    hide Holds, CachesOk, GetBlockAt, GetBlock;
    forall h: nat | 0 < h < |chain| ensures LinksBelow(s.db, h) {
      BlockIsFound(s, chain, h);
      BlockIsFound(s, chain, h - 1);
      ChainBlockReadable(s.db, chain, h - 1);
      HeightSits(s.db, chain, h);
    }
    if |chain| <= 1 { NothingAboveTip(s.db, chain, 1); }
  }

  lemma NothingAboveTip(db: Store, chain: seq<Block>, h: nat)
    requires Holds(db, chain) && h >= |chain|
    ensures GetBlockAt(db, h).None?
  {
    HoldsShape(db, chain);
  }

  /** Nothing is ever found broken on the chain of a reachable state. */
  lemma SoundChainIsNotBroken(s: ChainState, chain: seq<Block>)
    requires Represents(s, chain)
    ensures CorruptionPoint(s.db, s.bestHeight) == 0
  {
    hide Represents, AllLink, LinksBelow;
    ChainLinks(s, chain);
    ZeroMeansSound(s.db, s.bestHeight);
  }

  // ---------- attempts ----------

  /** A recovery that succeeds forgets the attempts before it; one that fails counts as one more, up to
      three; after that nothing is touched. */
  lemma AttemptsCounted(env: Env, r: Recovery, detected: nat)
    ensures var (o, r1) := RecoverFromFork(env, r, detected);
            && (o == Done ==> r1.attempts == 0 && r.attempts < MAX_ATTEMPTS)
            && (o != Done && r.attempts < MAX_ATTEMPTS ==> r1.attempts == r.attempts + 1)
            && (r.attempts >= MAX_ATTEMPTS ==>
                  o == Failed(TooManyAttempts) && r1.attempts == r.attempts && r1.chain == r.chain)
  {
    hide Rollback, CorruptionPoint, ForkPoint, CheckpointBefore, CleanOrphanedData, ResetChainState;
  }

  lemma {:induction false} AttemptsStayBounded(env: Env, r: Recovery, heights: seq<nat>)
    requires r.attempts <= MAX_ATTEMPTS
    ensures Recoveries(env, r, heights).attempts <= MAX_ATTEMPTS
    decreases |heights|
  {
    hide RecoverFromFork;
    if heights != [] {
      AttemptsCounted(env, r, heights[0]);
      AttemptsStayBounded(env, RecoverFromFork(env, r, heights[0]).1, heights[1..]);
    }
  }

  lemma {:induction false} ExhaustedStaysPut(env: Env, r: Recovery, heights: seq<nat>)
    requires r.attempts >= MAX_ATTEMPTS
    ensures Recoveries(env, r, heights).chain == r.chain
    decreases |heights|
  {
    hide RecoverFromFork;
    if heights != [] {
      AttemptsCounted(env, r, heights[0]);
      ExhaustedStaysPut(env, RecoverFromFork(env, r, heights[0]).1, heights[1..]);
    }
  }

  /** After three failures in a row no later recovery touches the chain. */
  lemma ThreeFailuresAreFinal(env: Env, r: Recovery, a: nat, b: nat, c: nat, later: seq<nat>)
    requires r.attempts <= MAX_ATTEMPTS
    requires var (o1, r1) := RecoverFromFork(env, r, a);
             var (o2, r2) := RecoverFromFork(env, r1, b);
             var (o3, r3) := RecoverFromFork(env, r2, c);
             o1.Failed? && o2.Failed? && o3.Failed?
    ensures var after := Recoveries(env, r, [a, b, c]);
            after.attempts == MAX_ATTEMPTS && Recoveries(env, after, later).chain == after.chain
  {
    hide RecoverFromFork;
    AttemptsCounted(env, r, a);
    var r1 := RecoverFromFork(env, r, a).1;
    AttemptsCounted(env, r1, b);
    var r2 := RecoverFromFork(env, r1, b).1;
    AttemptsCounted(env, r2, c);
    var r3 := RecoverFromFork(env, r2, c).1;
    assert [a, b, c][1..] == [b, c] && [b, c][1..] == [c] && [c][1..] == [];
    assert Recoveries(env, r2, [c]) == Recoveries(env, r3, []) == r3;
    assert Recoveries(env, r1, [b, c]) == r3;
    ExhaustedStaysPut(env, r3, later);
  }

  // ---------- what only disappears ----------

  /** Index entries are only ever removed. */
  ghost predicate IndexShrinks(before: Store, after: Store) {
    && (forall h :: h in after.heightToHash ==>
          h in before.heightToHash && after.heightToHash[h] == before.heightToHash[h])
    && (forall x :: x in after.hashToHeight ==>
          x in before.hashToHeight && after.hashToHeight[x] == before.hashToHeight[x])
  }

  /** Blocks and transactions only disappear. */
  ghost predicate ReadsShrink(before: Store, after: Store) {
    && after.blocks.Keys <= before.blocks.Keys && (forall x :: x in after.blocks ==> after.blocks[x] == before.blocks[x])
    && after.txs.Keys <= before.txs.Keys
    && IndexShrinks(before, after)
  }

  lemma DeleteBlockShrinks(db: Store, hash: Hash)
    requires DeleteBlock(db, hash).Ok?
    ensures ReadsShrink(db, DeleteBlock(db, hash).value) && hash !in DeleteBlock(db, hash).value.blocks
  {
    hide HistoryAt;
  }

  lemma UnreadableStays(before: Store, after: Store, h: nat)
    requires ReadsShrink(before, after)
    ensures GetBlockAt(before, h).None? ==> GetBlockAt(after, h).None?
    ensures GetBlockAt(after, h).Some? ==> GetHash(after, h) == GetHash(before, h)
  {
  }

  lemma ReadsThrough(a: Store, b: Store, c: Store)
    requires ReadsShrink(a, b) && ReadsShrink(b, c)
    ensures ReadsShrink(a, c)
  {
  }

  lemma FoundAt(db: Store, h: nat)
    requires GetBlockAt(db, h).Some?
    ensures h in db.heightToHash && GetBlockAt(db, h).value.hash == db.heightToHash[h]
  {
  }

  lemma ReadsKept(db: Store)
    ensures ReadsShrink(db, db)
  {
  }

  lemma {:induction false} DeleteTransactionsShrinks(committed: Store, st: Store, txs: seq<Tx>, height: nat)
    ensures DeleteTransactions(committed, st, txs, height).txs.Keys <= st.txs.Keys
    decreases |txs|
  {
    if txs != [] {
      DeleteTransactionsShrinks(committed, DeleteTransaction(committed, st, txs[|txs| - 1].id, height),
                                txs[..|txs| - 1], height);
    }
  }

  lemma DisconnectShrinks(db: Store, b: Block, h: nat)
    requires DisconnectStore(db, b, h).Ok?
    ensures ReadsShrink(db, DisconnectStore(db, b, h).value)
  {
    DisconnectedHeights(db, b, h);
    DeleteTransactionsShrinks(db, db, b.txs, h);
  }

  lemma OrphanReadsShrink(st: Store, hash: Hash, height: nat)
    ensures ReadsShrink(st, DeleteOrphanedBlock(st, hash, height))
  {
    hide ReleaseBlock, HistoryAt, GetBlock;
  }

  lemma {:induction false} ListedOrphansShrink(st: Store, heights: map<Hash, nat>, orphans: seq<Hash>)
    requires forall h :: h in orphans ==> h in heights
    ensures ReadsShrink(st, DeleteOrphans(st, heights, orphans))
    decreases |orphans|
  {
    hide DeleteOrphanedBlock, ReadsShrink;
    if orphans == [] {
      ReadsKept(st);
    } else {
      var st1 := DeleteOrphanedBlock(st, orphans[0], heights[orphans[0]]);
      OrphanReadsShrink(st, orphans[0], heights[orphans[0]]);
      ListedOrphansShrink(st1, heights, orphans[1..]);
      ReadsThrough(st, st1, DeleteOrphans(st1, heights, orphans[1..]));
    }
  }

  lemma OrphansReadsShrink(db: Store, height: nat)
    ensures ReadsShrink(db, CleanOrphanedBlocks(db, height))
  {
    hide ReadsShrink;
    ListedOrphansShrink(db, db.hashToHeight, KeyOrder.SortedKeys(HashesAbove(db, height)));
  }

  lemma {:induction false} CleaningReadsShrink(db: Store, good: nat, bad: nat)
    ensures ReadsShrink(db, CleanOrphanedData(db, good, bad))
    decreases bad
  {
    hide GetBlockAt, ReadsShrink, DeleteBlock;
    if bad <= good {
      ReadsKept(db);
    } else {
      CleaningReadsShrink(db, good, bad - 1);
      var before := CleanOrphanedData(db, good, bad - 1);
      var block := GetBlockAt(before, bad);
      if block.Some? && DeleteBlock(before, block.value.hash).Ok? {
        DeleteBlockShrinks(before, block.value.hash);
        ReadsThrough(db, before, DeleteBlock(before, block.value.hash).value);
      }
    }
  }
}
