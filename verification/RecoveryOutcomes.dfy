/** Where rollbacks and recoveries end, from every store, in terms of the store alone. */
module RecoveryOutcomes {
  import opened Types
  import opened Storage
  import opened Ledger
  import opened ChainSpec
  import opened RecoverySpec
  import opened RecoveryProofs
  import opened ValidatorProofs
  import opened RollbackProofs
  import opened HeightSafety
  import BatchChecks

  // ---------- one rollback ----------

  /** After a walk down, a block found above its target can still be read only if the walk failed. */
  lemma {:induction false} WalkClears(s: ChainState, h: nat, target: nat)
    requires DisconnectDown(s, h, target).0 == Done
    ensures var s1 := DisconnectDown(s, h, target).1;
            ReadsShrink(s.db, s1.db) && forall k: nat :: target < k <= h ==> GetBlockAt(s1.db, k).None?
    decreases h
  {
    hide Disconnect, ReadsShrink, GetBlockAt;
    ReadsKept(s.db);
    if h > target {
      var block := GetBlockAt(s.db, h);
      var s0 := if block.None? then s else Disconnect(s, block.value).1;
      if block.Some? { DisconnectClears(s, h); }
      WalkClears(s0, h - 1, target);
      var s1 := DisconnectDown(s0, h - 1, target).1;
      ReadsThrough(s.db, s0.db, s1.db);
      UnreadableStays(s0.db, s1.db, h);
    }
  }

  lemma DisconnectClears(s: ChainState, h: nat)
    requires GetBlockAt(s.db, h).Some? && Disconnect(s, GetBlockAt(s.db, h).value).0 == Done
    ensures var s1 := Disconnect(s, GetBlockAt(s.db, h).value).1;
            ReadsShrink(s.db, s1.db) && GetBlockAt(s1.db, h).None?
  {
    hide DisconnectStore, ReadsShrink;
    FoundAt(s.db, h);
    var b := GetBlockAt(s.db, h).value;
    DisconnectShrinks(s.db, b, s.db.hashToHeight[b.hash]);
    DisconnectedHeights(s.db, b, s.db.hashToHeight[b.hash]);
    ShrunkHash(s.db, Disconnect(s, b).1.db, h);
  }

  lemma ShrunkHash(before: Store, after: Store, h: nat)
    requires ReadsShrink(before, after)
    ensures h in after.heightToHash ==> h in before.heightToHash && after.heightToHash[h] == before.heightToHash[h]
  {
  }

  /** A rollback that has somewhere to go and succeeds puts the tip, in the store and in memory, on the block
      found at its target, finds no block up to the old tip, and leaves no hash entry and no known block above. */
  lemma RollbackEnds(env: Env, s: ChainState, height: nat)
    requires Rollback(env, s, height).0 == Done && s.bestHeight != height
    ensures var s1 := Rollback(env, s, height).1;
            && height < s.bestHeight <= height + env.maxReorgDepth
            && s1.bestBlock.Some? && s1.bestBlock == GetBlockAt(s.db, height)
            && s1.bestHash == s1.bestBlock.value.hash && s1.bestHeight == height
            && s1.db.tip == Some(Tip(height, s1.bestHash))
            && (forall x :: x in s1.knownBlocks ==> s1.knownBlocks[x] <= height)
            && (forall x :: x in s1.db.hashToHeight ==> s1.db.hashToHeight[x] <= height)
            && (forall k: nat :: height < k <= s.bestHeight ==> GetBlockAt(s1.db, k).None?)
  {
    hide DisconnectDown, CleanOrphanedBlocks, KeptBelow, GetBlockAt, ReadsShrink;
    var walked := DisconnectDown(s, s.bestHeight, height).1.db;
    var cleaned := CleanOrphanedBlocks(walked, height);
    CleanDropsExactly(walked, height);
    WalkClears(s, s.bestHeight, height);
    OrphansReadsShrink(walked, height);
    forall k: nat | height < k <= s.bestHeight ensures GetBlockAt(Rollback(env, s, height).1.db, k).None? {
      UnreadableStays(walked, cleaned, k);
      TipNotRead(cleaned, Some(Tip(height, GetBlockAt(s.db, height).value.hash)), k);
    }
  }

  lemma {:induction false} NothingFoundNothingDeleted(db: Store, good: nat, bad: nat)
    requires forall k: nat :: good < k <= bad ==> GetBlockAt(db, k).None?
    ensures CleanOrphanedData(db, good, bad) == db
    decreases bad
  {
    hide GetBlockAt, DeleteBlock;
    if bad > good { NothingFoundNothingDeleted(db, good, bad - 1); }
  }

  /** So whatever the store, the deletion of leftover blocks after a rollback never finds one. */
  lemma CleanUpFindsNothing(env: Env, s: ChainState, height: nat, bad: nat)
    requires Rollback(env, s, height).0 == Done && bad <= s.bestHeight
    ensures var db := Rollback(env, s, height).1.db;
            CleanOrphanedData(db, height, bad) == db
  {
    hide Rollback, GetBlockAt, CleanOrphanedData;
    if s.bestHeight != height { RollbackEnds(env, s, height); }
    NothingFoundNothingDeleted(Rollback(env, s, height).1.db, height, bad);
  }

  lemma TipNotRead(db: Store, tip: Option<Tip>, h: nat)
    ensures GetBlockAt(db.(tip := tip), h) == GetBlockAt(db, h)
  {
    if h in db.heightToHash {
      var x := db.heightToHash[h];
      assert HasBody(db.(tip := tip), x) <==> HasBody(db, x);
      if HasBody(db, x) {
        assert ReadTxs(db.(tip := tip), db.blocks[x].txids) == ReadTxs(db, db.blocks[x].txids);
      }
    }
  }

  /** At its target a rollback does nothing; it refuses, changing nothing, a target above the tip, one that is
      too deep, and one without a block. */
  lemma RollbackRefuses(env: Env, s: ChainState, height: nat)
    ensures var (o, s1) := Rollback(env, s, height);
            && (s.bestHeight == height ==> o == Done && s1 == s)
            && (s.bestHeight < height ==> o == Failed(BelowTarget) && s1 == s)
            && (s.bestHeight > height + env.maxReorgDepth ==> o == Failed(TooDeep) && s1 == s)
            && (height < s.bestHeight <= height + env.maxReorgDepth ==>
                  if GetBlockAt(s.db, height).None? then o == Failed(HeightNotFound) && s1 == s
                  else o in {Done, Failed(BlockNotFound), Failed(UtxoNotFound)})
  {
    hide DisconnectDown, CleanOrphanedBlocks, GetBlockAt, ForgetAbove;
    WalkErrors(s, s.bestHeight, height);
  }

  // ---------- deleting what is left above ----------

  /** No height above `good`, up to `bad`, names this block. */
  ghost predicate NotFoundIn(db: Store, x: Hash, good: nat, bad: nat) {
    forall h: nat :: good < h <= bad ==> GetHash(db, h) != Some(x)
  }

  lemma DeleteKeepsOthers(db: Store, hash: Hash)
    requires DeleteBlock(db, hash).Ok?
    ensures var after := DeleteBlock(db, hash).value;
            && after.blocks == db.blocks - {hash} && after.hashToHeight == db.hashToHeight - {hash}
            && after.utxos == db.utxos && after.tip == db.tip && after.supply == db.supply
            && after.heightToHash == db.heightToHash - {db.hashToHeight[hash]}
            && (forall id :: id in db.txs ==>
                  && (id in after.txs <==> id !in db.blocks[hash].txids)
                  && (id in after.txs ==> after.txs[id] == db.txs[id]))
            && (forall k :: k in db.history ==> (k in after.history <==> k.height != db.hashToHeight[hash]))
  {
  }

  /** A block that no height in the range names keeps its header and its height, and so does the tip. */
  lemma {:induction false} CleaningKeeps(db: Store, x: Hash, good: nat, bad: nat)
    requires NotFoundIn(db, x, good, bad)
    ensures var after := CleanOrphanedData(db, good, bad);
            && (x in db.blocks ==> x in after.blocks && after.blocks[x] == db.blocks[x])
            && (x in db.hashToHeight ==> x in after.hashToHeight && after.hashToHeight[x] == db.hashToHeight[x])
            && after.utxos == db.utxos && after.tip == db.tip && after.supply == db.supply
    decreases bad
  {
    hide DeleteBlock, GetBlockAt, ReadsShrink;
    if bad > good {
      CleaningKeeps(db, x, good, bad - 1);
      var before := CleanOrphanedData(db, good, bad - 1);
      CleaningReadsShrink(db, good, bad - 1);
      var block := GetBlockAt(before, bad);
      if block.Some? {
        FoundInBoth(db, before, bad);
        if DeleteBlock(before, block.value.hash).Ok? { DeleteKeepsOthers(before, block.value.hash); }
      }
    }
  }

  lemma FoundInBoth(db: Store, before: Store, h: nat)
    requires ReadsShrink(db, before) && GetBlockAt(before, h).Some?
    ensures GetHash(db, h) == Some(GetBlockAt(before, h).value.hash)
  {
    FoundAt(before, h);
  }

  // ---------- one recovery ----------

  /** A recovery that succeeds stands at the height it went back to; no indexed node lies above that, and if it
      moved, no known block and no hash entry does, and no block is found above it up to the old tip. */
  lemma RecoveryArrives(env: Env, r: Recovery, detected: nat)
    requires RecoverFromFork(env, r, detected).0 == Done
    ensures var s1 := RecoverFromFork(env, r, detected).1.chain;
            && RollsBackTo(env, r, detected) == Some(s1.bestHeight)
            && s1.bestHeight <= r.chain.bestHeight
            && (forall x :: x in s1.blockIndex ==> s1.blockIndex[x].height <= s1.bestHeight)
            && (forall h: nat :: s1.bestHeight < h <= r.chain.bestHeight ==> GetBlockAt(s1.db, h).None?)
            && (s1.bestHeight < r.chain.bestHeight ==>
                  && s1.bestBlock.Some? && s1.bestBlock == GetBlockAt(r.chain.db, s1.bestHeight)
                  && s1.bestHash == s1.bestBlock.value.hash
                  && s1.db.tip == Some(Tip(s1.bestHeight, s1.bestHash))
                  && (forall x :: x in s1.knownBlocks ==> s1.knownBlocks[x] <= s1.bestHeight)
                  && (forall x :: x in s1.db.hashToHeight ==> s1.db.hashToHeight[x] <= s1.bestHeight))
  {
    hide Rollback, CorruptionPoint, ForkPoint, CheckpointBefore, CleanOrphanedData, GetBlockAt, StaleDepth;
    var target := RollsBackTo(env, r, detected).value;
    AtOrBelow(env, r.chain, target);
    if r.chain.bestHeight != target { RollbackEnds(env, r.chain, target); }
    CorruptionIsBelow(r.chain.db, r.chain.bestHeight);
    var bad := if detected in env.checkpoints.expected then r.chain.bestHeight
               else CorruptionPoint(r.chain.db, r.chain.bestHeight);
    CleanUpFindsNothing(env, r.chain, target, bad);
  }

  /** When nothing is found broken, a recovery that succeeds stands on a block that can be read. */
  lemma StaleLandsOnBlock(env: Env, r: Recovery, detected: nat)
    requires RecoverFromFork(env, r, detected).0 == Done
    requires detected !in env.checkpoints.expected && CorruptionPoint(r.chain.db, r.chain.bestHeight) == 0
    ensures var s1 := RecoverFromFork(env, r, detected).1.chain;
            GetBlockAt(s1.db, s1.bestHeight).Some?
  {
    hide Rollback, CorruptionPoint, GetBlockAt, StaleDepth;
    var target := RollsBackTo(env, r, detected).value;
    AtOrBelow(env, r.chain, target);
  }

  lemma AtOrBelow(env: Env, s: ChainState, target: nat)
    requires Rollback(env, s, target).0 == Done
    ensures target <= s.bestHeight && Rollback(env, s, target).1.bestHeight == target
  {
    hide DisconnectDown, CleanOrphanedBlocks, GetBlockAt;
  }

  lemma CorruptionIsBelow(db: Store, best: nat)
    ensures CorruptionPoint(db, best) <= best
  {
    hide CorruptionPoint;
    CorruptionPointFindsBreak(db, best);
  }

  /** What every recovery leaves in its counters: the fork is noted, and unless three attempts were used up,
      one more is counted; a success counts as one and forgets the attempts, a failure counts as one, except
      that a chain that is too short for a stale rollback counts as neither.  The count of stale rollbacks grows
      when nothing is found broken, and is forgotten by any other success. */
  lemma RecoveryIsCounted(env: Env, r: Recovery, detected: nat)
    ensures var (o, r1) := RecoverFromFork(env, r, detected);
            var m, n := r.metrics, r1.metrics;
            && n.forkDetections == m.forkDetections + 1 && n.lastForkHeight == detected
            && n.attempts == m.attempts + (if r.attempts < 3 then 1 else 0)
            && n.successes == m.successes + (if o == Done then 1 else 0)
            && n.failures == m.failures + (if o == Done || o == Failed(ChainTooShort) then 0 else 1)
            && r1.phase == (if o == Done || o == Failed(ChainTooShort) then Normal else RecoveryFailed)
            && r1.attempts == (if o == Done then 0 else if r.attempts < 3 then r.attempts + 1 else r.attempts)
            && r1.stale == (if r.attempts >= 3 then r.stale
                            else if detected !in env.checkpoints.expected
                                    && CorruptionPoint(r.chain.db, r.chain.bestHeight) == 0 then r.stale + 1
                            else if o == Done then 0 else r.stale)
  {
    hide DisconnectDown, CorruptionPoint, CheckpointBefore, CleanOrphanedData, CleanOrphanedBlocks, ResetChainState,
         GetBlockAt, HighestStanding, ForgetAbove, StaleDepth;
    NeverTooShort(env, r.chain);
  }

  lemma NeverTooShort(env: Env, s: ChainState)
    ensures forall height: nat :: Rollback(env, s, height).0 != Failed(ChainTooShort)
  {
    hide DisconnectDown, CleanOrphanedBlocks, GetBlockAt, ForgetAbove;
    forall height: nat ensures Rollback(env, s, height).0 != Failed(ChainTooShort) {
      WalkErrors(s, s.bestHeight, height);
    }
  }

  /** A walk down fails only because something is not there: a block, its height, or an output to unspend. */
  lemma {:induction false} WalkErrors(s: ChainState, h: nat, target: nat)
    ensures DisconnectDown(s, h, target).0 in {Done, Failed(BlockNotFound), Failed(UtxoNotFound)}
    decreases h
  {
    hide Disconnect, GetBlockAt;
    if h > target {
      var block := GetBlockAt(s.db, h);
      var s1 := if block.None? then s else Disconnect(s, block.value).1;
      if block.Some? { DisconnectErrors(s, block.value); }
      WalkErrors(s1, h - 1, target);
    }
  }

  lemma DisconnectErrors(s: ChainState, b: Block)
    ensures Disconnect(s, b).0 in {Done, Failed(BlockNotFound), Failed(UtxoNotFound)}
  {
    hide UndoTxs, DeleteTransactions, GetBlock;
    UndoErrors(s.db.utxos, b.txs);
  }

  lemma {:induction false} UndoErrors(us: UtxoSet, txs: seq<Tx>)
    ensures UndoTxs(us, txs).Err? ==> UndoTxs(us, txs).error == UtxoNotFound
    decreases |txs|
  {
    hide UnspendInputs, RemoveOutputs;
    if txs != [] {
      var tx := txs[|txs| - 1];
      UnspendErrors(RemoveOutputs(us, tx, |tx.outputs|), tx.Spends());
      if UndoTx(us, tx).Ok? { UndoErrors(UndoTx(us, tx).value, txs[..|txs| - 1]); }
    }
  }

  lemma {:induction false} UnspendErrors(us: UtxoSet, inputs: seq<Outpoint>)
    ensures UnspendInputs(us, inputs).Err? ==> UnspendInputs(us, inputs).error == UtxoNotFound
  {
    if inputs != [] { UnspendErrors(us, inputs[..|inputs| - 1]); }
  }

  // ---------- where the chain is broken ----------

  /** The block at `height` is found, and so is the block below it, which is its parent. */
  predicate JoinsBelow(db: Store, height: nat) {
    && height > 0
    && GetBlockAt(db, height).Some? && GetBlockAt(db, height - 1).Some?
    && GetBlockAt(db, height).value.prev == GetBlockAt(db, height - 1).value.hash
  }

  lemma JoinsIsLinks(db: Store, height: nat)
    requires height > 0
    ensures LinksBelow(db, height) <==> JoinsBelow(db, height)
  {
    if JoinsBelow(db, height) { FoundAt(db, height - 1); }
  }

  /** `t` is the highest of the last 1001 heights whose block is missing or does not join the one below. */
  ghost predicate HighestBreak(db: Store, best: nat, t: nat) {
    && t <= best <= t + 1000 && !JoinsBelow(db, t)
    && forall h: nat :: t < h <= best ==> JoinsBelow(db, h)
  }

  /** `m` is the highest height below `t` with a block, and above `floor`. */
  ghost predicate NextFound(db: Store, t: nat, floor: nat, m: nat) {
    && floor < m < t && GetBlockAt(db, m).Some?
    && forall h: nat :: m < h < t ==> GetBlockAt(db, h).None?
  }

  lemma {:induction false} SearchGapTo(db: Store, height: nat, min: nat, checked: nat, missing: seq<nat>, t: nat, m: nat)
    requires missing != [] && missing[0] == t && m <= height < t && NextFound(db, t, min, m)
    ensures SearchDown(db, height, min, checked, missing) == if JoinsBelow(db, m) then t else m - 1
    decreases height
  {
    hide GetBlockAt, LinksBelow, JoinsBelow;
    if height == m {
      JoinsIsLinks(db, m);
    } else {
      SearchGapTo(db, height - 1, min, checked + 1, missing + [height], t, m);
    }
  }

  lemma {:induction false} SearchGapEnds(db: Store, height: nat, min: nat, checked: nat, missing: seq<nat>)
    requires min <= height && missing != [] && missing[|missing| - 1] == height + 1
    requires forall h: nat :: min < h <= height ==> GetBlockAt(db, h).None?
    ensures SearchDown(db, height, min, checked, missing) == min + 1
    decreases height
  {
    hide GetBlockAt, LinksBelow;
    if height > min { SearchGapEnds(db, height - 1, min, checked + 1, missing + [height]); }
  }

  lemma {:induction false} SearchReaches(db: Store, height: nat, min: nat, checked: nat, t: nat)
    requires min < t <= height && checked + (height - t) <= 1000
    requires forall h: nat :: t < h <= height ==> JoinsBelow(db, h)
    ensures SearchDown(db, height, min, checked, []) == SearchDown(db, t, min, checked + (height - t), [])
    decreases height
  {
    hide GetBlockAt, LinksBelow, JoinsBelow;
    if height > t {
      JoinsIsLinks(db, height);
      assert GetBlockAt(db, height).Some? by { JoinedIsFound(db, height); }
      SearchReaches(db, height - 1, min, checked + 1, t);
    }
  }

  lemma JoinedIsFound(db: Store, height: nat)
    requires JoinsBelow(db, height)
    ensures height > 0 && GetBlockAt(db, height).Some?
  {
  }

  function LowestSearched(best: nat): nat {
    if best > 10000 then best - 10000 else 0
  }

  /** The search looks for the highest break among the last 1001 heights, and not below the last 10000.  If
      the break is a block that does not join the one below, it names the height below; if it is a missing
      block, it names that block when the next block below the gap is joined, the height below that one when
      it is not, and the lowest height searched when there is none. */
  lemma CorruptionPointExactly(db: Store, best: nat, t: nat)
    requires HighestBreak(db, best, t) && t > LowestSearched(best)
    ensures var floor := LowestSearched(best);
            && (GetBlockAt(db, t).Some? ==> CorruptionPoint(db, best) == t - 1)
            && (GetBlockAt(db, t).None? ==>
                  && (forall m: nat :: NextFound(db, t, floor, m) ==>
                        CorruptionPoint(db, best) == if JoinsBelow(db, m) then t else m - 1)
                  && ((forall h: nat :: floor < h < t ==> GetBlockAt(db, h).None?) ==>
                        CorruptionPoint(db, best) == floor + 1))
  {
    hide GetBlockAt, LinksBelow, JoinsBelow;
    var floor := LowestSearched(best);
    SearchReaches(db, best, floor, 0, t);
    JoinsIsLinks(db, t);
    if GetBlockAt(db, t).None? {
      assert [] + [t] == [t];
      forall m: nat | NextFound(db, t, floor, m)
        ensures CorruptionPoint(db, best) == if JoinsBelow(db, m) then t else m - 1
      {
        SearchGapTo(db, t - 1, floor, best - t + 1, [t], t, m);
      }
      if forall h: nat :: floor < h < t ==> GetBlockAt(db, h).None? {
        SearchGapEnds(db, t - 1, floor, best - t + 1, [t]);
      }
    }
  }

  /** Without such a break the search finds nothing. */
  lemma NoBreakNoCorruption(db: Store, best: nat)
    requires forall h: nat :: LowestSearched(best) < h <= best <= h + 1000 ==> JoinsBelow(db, h)
    ensures CorruptionPoint(db, best) == 0
  {
    hide GetBlockAt, LinksBelow, JoinsBelow, EndsDead;
    forall h: nat | LowestSearched(best) < h <= best && best - h <= SEARCH_CHUNK ensures LinksBelow(db, h) {
      JoinsIsLinks(db, h);
    }
    CorruptionPointFindsBreak(db, best);
  }

  // ---------- where to go back to ----------

  /** The ancestor `k` steps below can be read, and meets the checkpoint of its height. */
  ghost predicate AncestorSound(env: Env, db: Store, hash: Hash, height: nat, k: nat)
    requires k <= height
  {
    var x := Ancestor(db, hash, k);
    && x.Some? && HasBody(db, x.value)
    && (height - k in env.checkpoints.expected ==> BatchChecks.MeetsCheckpoint(env, x.value, height - k))
  }

  lemma SoundIsOk(env: Env, db: Store, hash: Hash, height: nat, k: nat)
    requires k <= height
    ensures AncestorSound(env, db, hash, height, k) <==> StepOk(env, db, hash, height, k)
  {
    hide Ancestor, HasBody;
  }

  /** Recovery can stand on a height above genesis exactly when its block and that block's nearest ancestors, ten
      blocks in all or down to height 1, are readable and meet their checkpoints. */
  lemma StandingExactly(env: Env, db: Store, height: nat)
    ensures Standing(env, db, height) <==>
              && height > 0 && height in db.heightToHash
              && forall k: nat :: k < height && k < 10 ==> AncestorSound(env, db, db.heightToHash[height], height, k)
  {
    hide AncestorSound, StepOk, WalkSegment, GetBlock;
    if height > 0 && height in db.heightToHash {
      var hash := db.heightToHash[height];
      var from := if height < 10 then 0 else height - 10;
      SegmentExactly(env, db, hash, height, from);
      forall k: nat | k < height ensures AncestorSound(env, db, hash, height, k) <==> StepOk(env, db, hash, height, k) {
        SoundIsOk(env, db, hash, height, k);
      }
      assert StepOk(env, db, hash, height, 0) ==> GetBlock(db, hash).Some? by { FirstStep(env, db, hash, height); }
    }
  }

  lemma FirstStep(env: Env, db: Store, hash: Hash, height: nat)
    ensures StepOk(env, db, hash, height, 0) ==> GetBlock(db, hash).Some?
  {
    assert Ancestor(db, hash, 0) == Some(hash);
  }

  /** A segment is refused for an empty range, a top height without a hash, and otherwise as its walk says. */
  lemma SegmentRefuses(env: Env, db: Store, from: nat, to: nat)
    ensures to <= from ==> ValidateSegment(env, db, from, to) == Failed(InvalidRange)
    ensures to > from && to !in db.heightToHash ==> ValidateSegment(env, db, from, to) == Failed(HeightNotFound)
    ensures to > from && to in db.heightToHash ==>
              (ValidateSegment(env, db, from, to) == Done <==> AllStepsOk(env, db, db.heightToHash[to], to, from))
  {
    hide WalkSegment, AllStepsOk;
    if to > from && to in db.heightToHash { SegmentExactly(env, db, db.heightToHash[to], to, from); }
  }
}
