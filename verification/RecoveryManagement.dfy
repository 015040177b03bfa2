/** The recovery manager: the methods of internal/blockchain/recovery.go, each proved to do what its
    function in RecoverySpec says. */
module RecoveryManagement {
  import opened Types
  import opened Storage
  import KeyOrder
  import opened ChainSpec
  import opened CheckpointManagement
  import opened RecoverySpec
  import opened RecoveryProofs
  import Blockchain

  class RecoveryManager {
    const bc: Blockchain.BlockChain
    var phase: Phase
    var attempts: nat
    var staleForkRollbacks: nat
    var metrics: Metrics

    function Snapshot(): Recovery
      reads this, bc
    {
      Recovery(bc.State(), phase, attempts, staleForkRollbacks, metrics)
    }

    constructor (bc: Blockchain.BlockChain)
      ensures this.bc == bc
      ensures Snapshot() == Recovery(bc.State(), Normal, 0, 0, Metrics(0, 0, 0, 0, 0))
    {
      this.bc := bc;
      phase, attempts, staleForkRollbacks := Normal, 0, 0;
      metrics := Metrics(0, 0, 0, 0, 0);
    }

    // ---------- rolling back and cleaning ----------

    /** Disconnects block by block down to `height`, then cleans indexes, caches and the stored tip. */
    method RollbackToHeight(height: nat) returns (o: Outcome)
      modifies bc
      ensures (o, bc.State()) == Rollback(bc.env, old(bc.State()), height)
    {
      hide Disconnect, CleanOrphanedBlocks, ForgetAbove;
      var current := bc.bestHeight;
      if current == height { return Done; }
      if current < height { return Failed(BelowTarget); }
      if current - height > bc.env.maxReorgDepth { return Failed(TooDeep); }
      var target := GetBlockAt(bc.db, height);
      if target.None? { return Failed(HeightNotFound); }
      var h := current;
      while h > height
        invariant height <= h
        invariant DisconnectDown(old(bc.State()), current, height) == DisconnectDown(bc.State(), h, height)
      {
        var block := GetBlockAt(bc.db, h);
        h := h - 1;
        if block.None? { continue; }
        o := bc.DisconnectBlock(block.value);
        if o.Failed? { return; }
      }
      bc.db := CleanOrphanedBlocks(bc.db, height);
      bc.CleanKnownBlocksAboveHeight(height);
      bc.bestHeight, bc.bestHash, bc.bestBlock := height, target.value.hash, target;
      bc.db := bc.db.(tip := Some(Tip(height, target.value.hash)));
      o := Done;
    }

    /** Deletes the blocks still found at heights above `good`; one that cannot be deleted is skipped. */
    method CleanOrphanedDataAbove(good: nat, bad: nat)
      modifies bc`db
      ensures bc.db == CleanOrphanedData(old(bc.db), good, bad)
    {
      hide DeleteBlock, GetBlockAt;
      var height := good + 1;
      while height <= bad
        invariant height == good + 1 || height <= bad + 1
        invariant bc.db == CleanOrphanedData(old(bc.db), good, height - 1)
      {
        var block := GetBlockAt(bc.db, height);
        height := height + 1;
        if block.None? { continue; }
        match DeleteBlock(bc.db, block.value.hash) {
          case Err(_) =>
          case Ok(after) => bc.db := after;
        }
      }
      if bad <= good { assert CleanOrphanedData(old(bc.db), good, bad) == old(bc.db); }
    }

    /** Drops index nodes above a height. */
    method ResetIndex(height: nat)
      modifies bc`blockIndex
      ensures bc.State() == ResetChainState(old(bc.State()), height)
    {
      var todo := bc.blockIndex.Keys;
      while todo != {}
        invariant todo <= old(bc.blockIndex).Keys
        invariant forall h :: h in bc.blockIndex <==>
                    h in old(bc.blockIndex) && (h in todo || old(bc.blockIndex)[h].height <= height)
        invariant forall h :: h in bc.blockIndex ==> bc.blockIndex[h] == old(bc.blockIndex)[h]
        decreases |todo|
      {
        var h := KeyOrder.Min(todo);
        if bc.blockIndex[h].height > height { bc.blockIndex := bc.blockIndex - {h}; }
        todo := todo - {h};
      }
      assert bc.blockIndex == UnindexAbove(old(bc.blockIndex), height);
    }

    // ---------- finding the break and the way back ----------

    /** Searches down for the highest break: a missing block, or one its successor does not link to. */
    method FindActualCorruptionPoint(from: nat) returns (height: nat)
      ensures height == CorruptionPoint(bc.db, from)
      ensures height > 0 ==> BrokenAt(bc.db, height)
      ensures (GetBlockAt(bc.db, 1).Some? ==> LinksBelow(bc.db, 1)) ==> (height == 0 <==> AllLink(bc.db, from))
    {
      CorruptionPointFindsBreak(bc.db, from);
      if GetBlockAt(bc.db, 1).Some? ==> LinksBelow(bc.db, 1) { ZeroMeansSound(bc.db, from); }
      hide BrokenAt, AllLink;
      var min: nat := if from > MAX_SEARCH_DEPTH then from - MAX_SEARCH_DEPTH else 0;
      var current: nat, checked: nat := from, 0;
      var missing: seq<nat> := [];
      while current > min
        invariant CorruptionPoint(bc.db, from) == SearchDown(bc.db, current, min, checked, missing)
      {
        var block := GetBlockAt(bc.db, current);
        if block.None? {
          missing := missing + [current];
        } else {
          var parent := GetBlock(bc.db, block.value.prev);
          if parent.None? { return current - 1; }
          var below := GetBlockAt(bc.db, current - 1);
          if below.None? { return current - 1; }
          if below.value.hash != block.value.prev { return current - 1; }
          if missing != [] { return missing[0]; }
        }
        checked := checked + 1;
        current := current - 1;
        if checked > SEARCH_CHUNK && missing == [] { return 0; }
      }
      if missing != [] { return missing[|missing| - 1]; }
      height := 0;
    }

    method NearestCheckpoint(height: nat) returns (nearest: nat)
      ensures nearest == NearestBelow(bc.env.checkpoints.expected, height)
    {
      nearest := 0;
      var todo := bc.env.checkpoints.expected.Keys;
      while todo != {}
        invariant todo <= bc.env.checkpoints.expected.Keys
        invariant nearest <= height && (nearest > 0 ==> nearest in bc.env.checkpoints.expected)
        invariant forall h :: h in bc.env.checkpoints.expected && h !in todo && h <= height ==> h <= nearest
        decreases |todo|
      {
        var h := KeyOrder.Min(todo);
        if h <= height && h > nearest { nearest := h; }
        todo := todo - {h};
      }
      NearestIsUnique(bc.env.checkpoints.expected, height, nearest);
    }

    /** Walks down to the highest height that ends a readable segment, not below the nearest checkpoint. */
    method FindForkPoint(errorHeight: nat) returns (r: Result<nat>)
      ensures r == ForkPoint(bc.env, bc.db, errorHeight)
      ensures r.Ok? ==> r.value <= errorHeight && forall k: nat :: r.value < k <= errorHeight ==>
            !Standing(bc.env, bc.db, k)
    {
      ForkPointIsHighest(bc.env, bc.db, errorHeight);
      hide WalkSegment;
      var min := NearestCheckpoint(errorHeight);
      var current: nat := errorHeight;
      while current > min
        invariant min <= current <= errorHeight
        invariant HighestStanding(bc.env, bc.db, errorHeight, min) == HighestStanding(bc.env, bc.db, current, min)
      {
        var block := GetBlockAt(bc.db, current);
        if block.None? {
          current := current - 1;
          continue;
        }
        // min is the highest checkpoint at or below errorHeight, so the source's test whether this
        // height is a checkpoint never succeeds.
        if current in bc.env.checkpoints.expected { assert false; }
        var size := if current < SEGMENT_SIZE then current else SEGMENT_SIZE;
        var o := bc.ValidateChainSegment(current - size, current);
        if o == Done { return Ok(current); }
        current := current - 1;
      }
      if min > 0 {
        var block := GetBlockAt(bc.db, min);
        if block.None? { return Err(HeightNotFound); }
      }
      r := Ok(min);
    }

    method FindCheckpointBeforeMismatch(failed: nat) returns (height: nat)
      ensures height == CheckpointBefore(bc.env.checkpoints.expected, bc.db, failed)
      ensures SafeCheckpoint(bc.env.checkpoints.expected, bc.db, failed, height)
    {
      var expected := bc.env.checkpoints.expected;
      CheckpointBeforeIsSafe(expected, bc.db, failed);
      hide SafeCheckpoint;
      if failed == 0 { return 0; }
      var highest := NearestCheckpoint(failed - 1);
      if highest == 0 { return 0; }
      var block := GetBlockAt(bc.db, highest);
      if block.None? {
        highest := NearestCheckpoint(highest - 1);
        block := GetBlockAt(bc.db, highest);
        if highest !in expected || block.None? { return 0; }
      }
      if block.value.hash != expected[highest] { return 0; }
      height := highest;
    }

    // ---------- recovering ----------

    method Fail()
      modifies `phase, `metrics
      ensures phase == RecoveryFailed && metrics == old(metrics).(failures := old(metrics.failures) + 1)
    {
      phase := RecoveryFailed;
      metrics := metrics.(failures := metrics.failures + 1);
    }

    method RollBackAndClean(fork: nat, bad: nat) returns (o: Outcome)
      modifies this, bc
      ensures (o, Snapshot()) == GoBack(bc.env, old(Snapshot()), fork, bad)
    {
      hide Rollback, CleanOrphanedData, ResetChainState;
      phase := RollingBack;
      o := RollbackToHeight(fork);
      if o.Failed? {
        Fail();
        return;
      }
      phase := Recovering;
      CleanOrphanedDataAbove(fork, bad);
      ResetIndex(fork);
      phase, attempts, staleForkRollbacks := Normal, 0, 0;
      metrics := metrics.(successes := metrics.successes + 1);
    }

    method DropStaleBlocks() returns (o: Outcome)
      modifies this, bc
      ensures (o, Snapshot()) == DropStale(bc.env, old(Snapshot()))
    {
      hide Rollback, ResetChainState;
      var current := bc.bestHeight;
      staleForkRollbacks := staleForkRollbacks + 1;
      var depth := STALE_STEP * staleForkRollbacks;
      if depth > STALE_MAX { depth := STALE_MAX; }
      if current > depth {
        var target := current - depth;
        phase := RollingBack;
        o := RollbackToHeight(target);
        if o.Failed? {
          Fail();
          return;
        }
        var block := GetBlockAt(bc.db, target);
        if block.None? {
          Fail();
          return Failed(HeightNotFound);
        }
        ResetIndex(target);
        phase, attempts := Normal, 0;
        metrics := metrics.(successes := metrics.successes + 1);
        return Done;
      }
      phase := Normal;
      o := Failed(ChainTooShort);
    }

    method Recover(detected: nat) returns (o: Outcome)
      modifies this, bc
      ensures (o, Snapshot()) == RecoverFromFork(bc.env, old(Snapshot()), detected)
    {
      hide GoBack, DropStale, CorruptionPoint, ForkPoint, CheckpointBefore;
      phase := InconsistencyDetected;
      metrics := metrics.(forkDetections := metrics.forkDetections + 1, lastForkHeight := detected);
      if attempts >= MAX_ATTEMPTS {
        Fail();
        return Failed(TooManyAttempts);
      }
      attempts := attempts + 1;
      metrics := metrics.(attempts := metrics.attempts + 1);
      var current := bc.bestHeight;
      if detected in bc.env.checkpoints.expected {
        var fork := FindCheckpointBeforeMismatch(detected);
        o := RollBackAndClean(fork, current);
        return;
      }
      var broken := FindActualCorruptionPoint(current);
      if broken == 0 {
        o := DropStaleBlocks();
        return;
      }
      var fork := FindForkPoint(broken);
      if fork.Err? {
        Fail();
        return Failed(fork.error);
      }
      o := RollBackAndClean(fork.value, broken);
    }
  }
}
