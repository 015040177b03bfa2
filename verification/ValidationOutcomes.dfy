/** What each validation pass reports, and what a repair of the indexes comes to, in terms of the store alone. */
module ValidationOutcomes {
  import opened Types
  import opened Storage
  import KeyOrder
  import opened ChainSpec
  import opened RecoverySpec
  import opened RecoveryProofs
  import opened ValidatorSpec
  import opened ValidatorProofs
  import opened RecoveryOutcomes

  // ---------- quick validation ----------

  /** Genesis and the block of the stored tip are readable, the stored tip stands at the tip's height, and
      every checkpoint up to it is indexed with its expected hash. */
  ghost predicate QuicklySound(env: Env, s: ChainState) {
    && GetBlock(s.db, env.genesisHash).Some?
    && GetBlock(s.db, ChainTip(s.db)).Some?
    && ChainHeight(s.db) == s.bestHeight
    && (forall h :: h in env.checkpoints.expected && h <= s.bestHeight ==>
          h in s.db.heightToHash && s.db.heightToHash[h] == env.checkpoints.expected[h])
  }

  /** Quick mode passes exactly then, and otherwise fails and changes nothing. */
  lemma QuickPassesExactly(env: Env, s: ChainState)
    ensures VerdictIn(Quick, env, s) == Passed <==> QuicklySound(env, s)
    ensures !QuicklySound(env, s) ==> Handle(env, s, VerdictIn(Quick, env, s)) == (Failed(StateMismatch), s)
  {
    hide GetBlock;
    forall h | h in env.checkpoints.expected
      ensures GetHash(s.db, h) == Some(env.checkpoints.expected[h]) <==>
                h in s.db.heightToHash && s.db.heightToHash[h] == env.checkpoints.expected[h]
    {
    }
  }

  // ---------- smart validation ----------

  /** The sample at a height: its block is readable, and so is that block's parent. */
  predicate SampleSound(db: Store, h: nat) {
    GetBlockAt(db, h).Some? && GetBlock(db, GetBlockAt(db, h).value.prev).Some?
  }

  /** In the tail every block is readable and, but for the first one, names the block below it. */
  predicate TailSound(db: Store, start: nat, h: nat)
    requires start <= h
  {
    && GetBlockAt(db, h).Some?
    && (start < h ==> GetBlockAt(db, h - 1).Some? && GetBlockAt(db, h).value.prev == GetBlockAt(db, h - 1).value.hash)
  }

  predicate Sampled(h: nat, end: nat) {
    0 < h < end && h % 1000 == 0
  }

  lemma {:induction false} SamplesFind(db: Store, height: nat, end: nat)
    requires height > 0 && height % 1000 == 0
    ensures var v := SamplesFrom(db, height, end);
            && (v == Passed || v.GapAt?)
            && (v == Passed <==> forall h: nat :: height <= h && Sampled(h, end) ==> SampleSound(db, h))
            && (v.GapAt? ==>
                  && height <= v.height && Sampled(v.height, end) && !SampleSound(db, v.height)
                  && forall h: nat :: height <= h < v.height && Sampled(h, end) ==> SampleSound(db, h))
    decreases if height < end then end - height else 0
  {
    hide SampleSound, GetBlockAt;
    assert height < end ==> (SampleOk(db, height) <==> SampleSound(db, height)) by { SampleIs(db, height); }
    hide SampleOk;
    if height < end {
      SamplesFind(db, height + 1000, end);
      forall h: nat | height < h < height + 1000 ensures !Sampled(h, end) {
        BetweenSamples(height, h);
      }
      assert Sampled(height, end);
    }
  }

  lemma SampleIs(db: Store, h: nat)
    ensures SampleOk(db, h) <==> SampleSound(db, h)
  {
  }

  lemma BetweenSamples(height: nat, h: nat)
    requires height % 1000 == 0 && height < h < height + 1000
    ensures h % 1000 != 0
  {
  }

  lemma {:induction false} TailFinds(db: Store, start: nat, height: nat, best: nat)
    requires start <= height && (start < height ==> GetBlockAt(db, height - 1).Some?)
    ensures var prev := if start < height then Some(GetBlockAt(db, height - 1).value.hash) else None;
            var v := TailFrom(db, prev, height, best);
            && (v == Passed || v.GapAt?)
            && (v == Passed <==> forall h: nat :: height <= h <= best ==> TailSound(db, start, h))
            && (v.GapAt? ==>
                  && height <= v.height <= best && !TailSound(db, start, v.height)
                  && forall h: nat :: height <= h < v.height ==> TailSound(db, start, h))
    decreases if height <= best then best + 1 - height else 0
  {
    hide GetBlockAt;
    if height <= best && TailSound(db, start, height) { TailFinds(db, start, height + 1, best); }
  }

  /** On a chain of 100000 blocks or more, smart mode passes exactly when the quick check does, every 1000th
      block below the tail is readable with its parent, and the last 1001 blocks are readable and linked; a
      gap it reports is the lowest bad sample or, if the samples are good, the lowest bad height of the tail. */
  lemma SmartFindsLowest(env: Env, s: ChainState)
    requires s.bestHeight >= 100000
    ensures var v := VerdictIn(Smart, env, s);
            var end: nat := s.bestHeight - 1000;
            var sampled := forall h: nat :: Sampled(h, end) ==> SampleSound(s.db, h);
            var tail := forall h: nat :: end <= h <= s.bestHeight ==> TailSound(s.db, end, h);
            && (v == Passed <==> QuicklySound(env, s) && sampled && tail)
            && (!QuicklySound(env, s) <==> v == Unusable)
            && (v.GapAt? && !sampled ==>
                  && Sampled(v.height, end) && !SampleSound(s.db, v.height)
                  && forall h: nat :: h < v.height && Sampled(h, end) ==> SampleSound(s.db, h))
            && (v.GapAt? && sampled ==>
                  && end <= v.height <= s.bestHeight && !TailSound(s.db, end, v.height)
                  && forall h: nat :: end <= h < v.height ==> TailSound(s.db, end, h))
  {
    hide GetBlock, GetBlockAt, SampleSound, TailSound, SamplesFrom, TailFrom;
    QuickPassesExactly(env, s);
    hide QuicklySound;
    SamplesFind(s.db, 1000, s.bestHeight - 1000);
    TailFinds(s.db, s.bestHeight - 1000, s.bestHeight - 1000, s.bestHeight);
    var end: nat := s.bestHeight - 1000;
    forall h: nat | Sampled(h, end) ensures h >= 1000 {
    }
  }

  /** Shorter chains are validated in full. */
  lemma ShortChainsInFull(env: Env, s: ChainState)
    requires s.bestHeight < 100000
    ensures VerdictIn(Smart, env, s) == VerdictIn(Full, env, s)
  {
  }

  // ---------- full validation ----------

  /** What full mode reports: a gap is a height whose block is missing or does not name the block below it, a
      bad checkpoint a height whose block is linked and not the expected one, a mismatch the hash on top. */
  lemma FullReports(env: Env, s: ChainState)
    ensures var v := VerdictIn(Full, env, s);
            && (v == Unusable <==> s.bestHeight > 0 && GetBlock(s.db, env.genesisHash).None?)
            && (v.GapAt? || v.BadCheckpointAt? ==>
                  && 0 < v.height <= s.bestHeight
                  && var block := GetBlockAt(s.db, v.height);
                  var linked := block.Some? && block.value.prev == HashBelow(env, s.db, v.height);
                  && (v.GapAt? <==> !linked)
                  && (v.BadCheckpointAt? <==> linked && v.height in env.checkpoints.expected
                                              && env.checkpoints.expected[v.height] != block.value.hash))
            && (v.TipMismatch? ==>
                  && v.hash == HashBelow(env, s.db, s.bestHeight + 1)
                  && !(ChainHeight(s.db) == s.bestHeight && ChainTip(s.db) == v.hash))
  {
    hide GetBlock, GetBlockAt;
    if s.bestHeight > 0 { FullReportsFrom(env, s.db, 1, s.bestHeight); }
  }

  lemma {:induction false} FullReportsFrom(env: Env, db: Store, height: nat, best: nat)
    requires 0 < height <= best + 1
    ensures var v := FullFrom(env, db, HashBelow(env, db, height), height, best);
            && v != Unusable
            && (v.GapAt? || v.BadCheckpointAt? ==>
                  && height <= v.height <= best
                  && var block := GetBlockAt(db, v.height);
                  var linked := block.Some? && block.value.prev == HashBelow(env, db, v.height);
                  && (v.GapAt? <==> !linked)
                  && (v.BadCheckpointAt? <==> linked && v.height in env.checkpoints.expected
                                              && env.checkpoints.expected[v.height] != block.value.hash))
            && (v.TipMismatch? ==> v.hash == HashBelow(env, db, best + 1)
                                   && !(ChainHeight(db) == best && ChainTip(db) == v.hash))
    decreases best + 1 - height
  {
    hide GetBlockAt;
    if height <= best && GoodAt(env, db, HashBelow(env, db, height), height) {
      BlockAtHash(db, height);
      assert GetBlockAt(db, height).value.hash == HashBelow(env, db, height + 1);
      FullReportsFrom(env, db, height + 1, best);
    }
  }

  // ---------- what the handlers come to ----------

  /** A gap at a height starts a recovery one below it: from a checkpoint height it goes back to the safe
      checkpoint below that; otherwise, if no break is found, ten blocks down, or it fails on a chain of at
      most ten.  When it counts as done the tip is readable and no indexed node lies above it. */
  lemma GapHandled(env: Env, s: ChainState, height: nat, safe: nat)
    requires height > 0
    ensures var (o, s1) := Handle(env, s, GapAt(height));
            var unbroken := height - 1 !in env.checkpoints.expected && CorruptionPoint(s.db, s.bestHeight) == 0;
            && (o == Done ==>
                  && HasBody(s1.db, ChainTip(s1.db)) && s1.bestHeight <= s.bestHeight
                  && (forall x :: x in s1.blockIndex ==> s1.blockIndex[x].height <= s1.bestHeight)
                  && (height - 1 in env.checkpoints.expected ==>
                        SafeCheckpoint(env.checkpoints.expected, s.db, height - 1, safe) ==> s1.bestHeight == safe)
                  && (unbroken ==> s1.bestHeight + 10 == s.bestHeight))
            && (unbroken && s.bestHeight <= 10 ==> o == Failed(ChainTooShort) && s1 == s)
  {
    var r := FreshRecovery(s);
    hide GetBlockAt, Rollback, ForkPoint, CorruptionPoint, CheckpointBefore, GoBack, HasBody, SafeCheckpoint;
    if SafeCheckpoint(env.checkpoints.expected, s.db, height - 1, safe) {
      SafeIsUnique(env.checkpoints.expected, s.db, height - 1, safe);
    }
    if RecoverFromFork(env, r, height - 1).0 == Done { RecoveryArrives(env, r, height - 1); }
  }

  /** The highest checkpoint below a height whose hash is indexed at its own height. */
  ghost predicate LastGood(env: Env, db: Store, height: nat, good: nat) {
    var expected := env.checkpoints.expected;
    && 0 < good < height && good in expected && GetHash(db, good) == Some(expected[good])
    && forall h :: good < h < height && h in expected ==> GetHash(db, h) != Some(expected[h])
  }

  /** A bad checkpoint starts a recovery from the last good one below it; since that is a checkpoint height, it
      goes back to the safe checkpoint below even that.  Without a good one it fails and nothing changes. */
  lemma BadCheckpointHandled(env: Env, s: ChainState, height: nat, good: nat, safe: nat)
    requires height > 0
    ensures var (o, s1) := Handle(env, s, BadCheckpointAt(height));
            && (LastGood(env, s.db, height, good) && SafeCheckpoint(env.checkpoints.expected, s.db, good, safe)
                && o == Done ==>
                  && s1.bestHeight == safe
                  && (forall x :: x in s1.blockIndex ==> s1.blockIndex[x].height <= safe))
            && ((forall g: nat :: !LastGood(env, s.db, height, g)) ==> o == Failed(CheckpointMissing) && s1 == s)
  {
    var r := FreshRecovery(s);
    hide RecoverFromFork, SafeCheckpoint, CheckpointBefore;
    LastGoodIsHighest(env, s.db, height - 1);
    var found := LastGoodCheckpoint(env, s.db, height - 1);
    hide LastGoodCheckpoint;
    assert found > 0 ==> LastGood(env, s.db, height, found);
    if LastGood(env, s.db, height, good) && SafeCheckpoint(env.checkpoints.expected, s.db, good, safe) {
      assert found == good;
      SafeIsUnique(env.checkpoints.expected, s.db, good, safe);
      if RecoverFromFork(env, r, good).0 == Done { RecoveryArrives(env, r, good); }
    }
  }

  // ---------- checking and repairing the indexes ----------

  /** The reported entries come in key order, each once, with the hash their height names instead, if any. */
  lemma CheckIsSorted(db: Store)
    ensures var list := IndexInconsistencies(db);
            && (forall i, j :: 0 <= i < j < |list| ==> list[i].hash < list[j].hash)
            && (forall e :: e in list ==> e.named == GetHash(db, e.height))
  {
    var keys := KeyOrder.SortedKeys(db.hashToHeight.Keys);
    assert IndexInconsistencies(db) == InconsistenciesAmong(db, keys);
    hide InconsistenciesAmong, IndexInconsistencies;
    AmongIsSorted(db, keys);
  }

  /** Entries of these keys, in their order, each with what its height names. */
  predicate Ordered(db: Store, keys: seq<Hash>, list: seq<Inconsistency>) {
    && (forall i, j :: 0 <= i < j < |list| ==> list[i].hash < list[j].hash)
    && (forall e :: e in list ==> e.named == GetHash(db, e.height) && e.hash in keys)
  }

  lemma {:induction false} AmongIsSorted(db: Store, keys: seq<Hash>)
    requires forall x :: x in keys ==> x in db.hashToHeight
    requires forall i, j :: 0 <= i < j < |keys| ==> keys[i] < keys[j]
    ensures Ordered(db, keys, InconsistenciesAmong(db, keys))
  {
    hide RoundTrips, Checked, Ordered;
    if keys == [] {
      NothingOrdered(db, keys);
    } else {
      var n := |keys| - 1;
      var init, x := keys[..n], keys[n];
      assert keys == init + [x] && x in keys;
      AmongIsSorted(db, init);
      CheckedIs(db, x);
      OrderedSnoc(db, init, x, InconsistenciesAmong(db, init), Checked(db, x));
    }
  }

  lemma NothingOrdered(db: Store, keys: seq<Hash>)
    ensures Ordered(db, keys, [])
  {
  }

  lemma OrderedSnoc(db: Store, init: seq<Hash>, x: Hash, before: seq<Inconsistency>, more: seq<Inconsistency>)
    requires Ordered(db, init, before) && forall y :: y in init ==> y < x
    requires |more| <= 1 && forall e :: e in more ==> e.hash == x && e.named == GetHash(db, e.height)
    ensures Ordered(db, init + [x], before + more)
  {
    var list := before + more;
    forall i | 0 <= i < |before| ensures list[i] in before && list[i].hash < x {
    }
  }

  /** The hash index has this entry, and the height it gives names another block, or none. */
  predicate Mismatched(db: Store, x: Hash) {
    && x in db.hashToHeight
    && !(db.hashToHeight[x] in db.heightToHash && db.heightToHash[db.hashToHeight[x]] == x)
  }

  /** `h` is the least height a mismatched entry has. */
  ghost predicate LeastMismatch(db: Store, h: nat) {
    && (exists x :: Mismatched(db, x) && db.hashToHeight[x] == h)
    && (forall x :: Mismatched(db, x) ==> db.hashToHeight[x] >= h)
  }

  lemma MismatchesAre(db: Store, x: Hash)
    requires x in db.hashToHeight
    ensures Mismatched(db, x) <==> !RoundTrips(db, x)
  {
  }

  lemma LowestIsLeast(db: Store, list: seq<Inconsistency>, h: nat)
    requires list == IndexInconsistencies(db) != [] && LeastMismatch(db, h)
    ensures LowestHeight(list) == h
  {
    hide IndexInconsistencies, RoundTrips, Mismatched, LowestHeight;
    CheckFindsExactly(db);
    LowestIsLowest(list);
    forall x | x in db.hashToHeight ensures Mismatched(db, x) <==> !RoundTrips(db, x) {
      MismatchesAre(db, x);
    }
    forall x | Mismatched(db, x) ensures x in db.hashToHeight {
      MismatchIndexed(db, x);
    }
    var x :| Mismatched(db, x) && db.hashToHeight[x] == h;
    var i :| 0 <= i < |list| && list[i].hash == x;
    var j :| 0 <= j < |list| && LowestHeight(list) == list[j].height;
  }

  lemma MismatchIndexed(db: Store, x: Hash)
    requires Mismatched(db, x)
    ensures x in db.hashToHeight
  {
  }

  /** Two below a height, as far as genesis allows. */
  function TwoBelow(h: nat): nat {
    if h >= 2 then h - 2 else 0
  }

  /** A repair that succeeds leaves the chain two below the lowest mismatch, or at genesis, on a block that can be
      read, with no indexed node above it and no block found from there to the old tip. */
  lemma RepairLands(env: Env, s: ChainState, h: nat)
    requires LeastMismatch(s.db, h)
    requires RepairIndexes(env, s, IndexInconsistencies(s.db)).0 == Done
    ensures var s1 := RepairIndexes(env, s, IndexInconsistencies(s.db)).1;
            && s1.bestHeight == (if h >= 2 then h - 2 else 0)
            && (forall x :: x in s1.blockIndex ==> s1.blockIndex[x].height <= s1.bestHeight)
            && GetBlockAt(s1.db, s1.bestHeight).Some?
            && (forall k: nat :: s1.bestHeight < k <= s.bestHeight ==> GetBlockAt(s1.db, k).None?)
  {
    hide IndexInconsistencies, Rollback, CleanOrphanedData, GetBlockAt, LowestHeight, Mismatched;
    SomethingFound(s.db, h);
    var list := IndexInconsistencies(s.db);
    LowestIsLeast(s.db, list, h);
    RollbackArrives(env, s, RollbackTarget(list));
    if s.bestHeight != RollbackTarget(list) { RollbackEnds(env, s, RollbackTarget(list)); }
    CleanUpFindsNothing(env, s, RollbackTarget(list), s.bestHeight);
  }

  lemma SomethingFound(db: Store, h: nat)
    requires LeastMismatch(db, h)
    ensures IndexInconsistencies(db) != []
  {
    hide IndexInconsistencies, RoundTrips;
    CheckFindsExactly(db);
    var x :| Mismatched(db, x) && db.hashToHeight[x] == h;
    MismatchesAre(db, x);
  }

  /** It is refused, and nothing changes, exactly when the chain stands lower than that, or so far above that
      the depth limit forbids it, or no block is found there; or a block on the way cannot be disconnected. */
  lemma RepairStartsExactly(env: Env, s: ChainState, h: nat)
    requires LeastMismatch(s.db, h)
    ensures var o := RepairIndexes(env, s, IndexInconsistencies(s.db)).0;
            var target := TwoBelow(h);
            && (s.bestHeight < target ==> o == Failed(BelowTarget))
            && (s.bestHeight > target && s.bestHeight - target > env.maxReorgDepth ==> o == Failed(TooDeep))
            && (s.bestHeight > target && s.bestHeight - target <= env.maxReorgDepth && GetBlockAt(s.db, target).None? ==>
                  o == Failed(HeightNotFound))
  {
    hide IndexInconsistencies, DisconnectDown, CleanOrphanedData, GetBlockAt, LowestHeight, Mismatched;
    SomethingFound(s.db, h);
    LowestIsLeast(s.db, IndexInconsistencies(s.db), h);
  }

  /** No block indexed at or below where the repair lands is disconnected: its entries in both indexes and its
      header stay, as long as no block is found at two heights and not everything mismatches. */
  lemma RepairKeepsBelow(env: Env, s: ChainState, h: nat)
    requires LeastMismatch(s.db, h) && h > 0 && OneHeightPerHash(s.db)
    requires RepairIndexes(env, s, IndexInconsistencies(s.db)).0 == Done
    ensures var db := RepairIndexes(env, s, IndexInconsistencies(s.db)).1.db;
            && (forall k :: k <= TwoBelow(h) && k in s.db.heightToHash ==>
                  k in db.heightToHash && db.heightToHash[k] == s.db.heightToHash[k])
            && (forall x :: x in s.db.hashToHeight && s.db.hashToHeight[x] <= TwoBelow(h) ==>
                  && x in db.hashToHeight && db.hashToHeight[x] == s.db.hashToHeight[x]
                  && (x in s.db.blocks ==> x in db.blocks && db.blocks[x] == s.db.blocks[x]))
  {
    hide IndexInconsistencies, Rollback, CleanOrphanedData, GetBlockAt, LowestHeight, OneHeightPerHash, ConsistentUpTo,
         Mismatched;
    SomethingFound(s.db, h);
    var list := IndexInconsistencies(s.db);
    LowestIsLeast(s.db, list, h);
    BelowLowestIsConsistent(s.db, list);
    var target := RollbackTarget(list);
    RollbackKeepsBelow(env, s, target);
    CleanUpFindsNothing(env, s, target, s.bestHeight);
  }

  lemma RollbackKeepsBelow(env: Env, s: ChainState, target: nat)
    requires ConsistentUpTo(s.db, target) && OneHeightPerHash(s.db)
    requires Rollback(env, s, target).0 == Done
    ensures KeptBelow(s.db, Rollback(env, s, target).1.db, target)
    ensures s.bestHeight == target ==> Rollback(env, s, target).1 == s
  {
    hide DisconnectDown, CleanOrphanedBlocks, ConsistentUpTo, OneHeightPerHash, KeptBelow, GetBlockAt;
    KeepsItself(s.db, target);
    if s.bestHeight != target {
      WalkKeepsBelow(s, s.bestHeight, target);
      var s1 := DisconnectDown(s, s.bestHeight, target).1;
      CleanDropsExactly(s1.db, target);
      var cleaned := CleanOrphanedBlocks(s1.db, target);
      KeptThrough(s.db, s1.db, cleaned, target);
      OtherTip(s.db, cleaned, Some(Tip(target, GetBlockAt(s.db, target).value.hash)), target);
    }
  }

  lemma OtherTip(a: Store, b: Store, tip: Option<Tip>, target: nat)
    requires KeptBelow(a, b, target)
    ensures KeptBelow(a, b.(tip := tip), target)
  {
  }
}
