/** Exactly when a rollback, a recovery or a repair handler leaves the node higher than it was. */
module HeightSafety {
  import opened Types
  import opened Storage
  import opened Ledger
  import opened ChainSpec
  import opened RollbackProofs
  import opened RecoverySpec
  import opened RecoveryProofs
  import opened ValidatorSpec

  // ---------- where a walk ends ----------

  /** The walk down from `h` gets as far as height `f`, and fails on the block it finds there. */
  ghost predicate FailsAt(s: ChainState, h: nat, f: nat) {
    && 0 < f <= h
    && DisconnectDown(s, h, f).0 == Done
    && var mid := DisconnectDown(s, h, f).1;
       GetBlockAt(mid.db, f).Some? && Disconnect(mid, GetBlockAt(mid.db, f).value).0.Failed?
  }

  /** Above height `f`, the last block the walk down from `h` disconnects is found at height `l`, and the
      hash index has it at height `k`. */
  ghost predicate LastGone(s: ChainState, h: nat, f: nat, l: nat, k: nat) {
    && f < l <= h
    && DisconnectDown(s, h, l).0 == Done
    && var mid := DisconnectDown(s, h, l).1;
       var block := GetBlockAt(mid.db, l);
       && block.Some? && GetHeight(mid.db, block.value.hash) == Some(k)
       && Disconnect(mid, block.value).0 == Done
       && forall g: nat :: f < g < l ==> GetBlockAt(Disconnect(mid, block.value).1.db, g).None?
  }

  lemma {:induction false} EmptyWalk(s: ChainState, h: nat, f: nat)
    requires f <= h && forall g: nat :: f < g <= h ==> GetBlockAt(s.db, g).None?
    ensures DisconnectDown(s, h, f) == (Done, s)
    decreases h
  {
    hide GetBlockAt;
    if f < h { EmptyWalk(s, h - 1, f); }
  }

  /** A disconnected block leaves the height below the one the hash index had for it; a block that could
      not be disconnected leaves the height alone. */
  lemma DisconnectLands(s: ChainState, b: Block)
    ensures var (o, s1) := Disconnect(s, b);
            if o == Done then b.hash in s.db.hashToHeight && s1.bestHeight == Pred32(s.db.hashToHeight[b.hash])
            else s1.bestHeight == s.bestHeight
  {
    hide DisconnectStore, GetBlock;
  }

  lemma LandsBelowLast(s: ChainState, h: nat, f: nat, l: nat, k: nat)
    requires LastGone(s, h, f, l, k)
    ensures DisconnectDown(s, h, f).0 == Done && DisconnectDown(s, h, f).1.bestHeight == Pred32(k)
  {
    hide Disconnect, GetBlockAt;
    var mid := DisconnectDown(s, h, l).1;
    var b := GetBlockAt(mid.db, l).value;
    WalkSplits(s, h, l, f);
    DisconnectLands(mid, b);
    EmptyWalk(Disconnect(mid, b).1, l - 1, f);
  }

  /** A walk that gets to height `f` either disconnects nothing, or there is a block it disconnects last. */
  lemma {:induction false} WalkHasLast(s: ChainState, h: nat, f: nat) returns (l: nat, k: nat)
    requires f <= h && DisconnectDown(s, h, f).0 == Done
    ensures DisconnectDown(s, h, f).1.bestHeight == s.bestHeight || LastGone(s, h, f, l, k)
    decreases h
  {
    hide Disconnect, GetBlockAt;
    l, k := 0, 0;
    if f < h {
      var block := GetBlockAt(s.db, h);
      if block.None? {
        l, k := WalkHasLast(s, h - 1, f);
        if LastGone(s, h - 1, f, l, k) { LastGoneAbove(s, s, h, f, l, k); }
      } else {
        var s1 := Disconnect(s, block.value).1;
        l, k := WalkHasLast(s1, h - 1, f);
        if LastGone(s1, h - 1, f, l, k) {
          LastGoneAbove(s, s1, h, f, l, k);
        } else {
          l, k := NothingAfter(s, h, f);
        }
      }
    }
  }

  lemma LastGoneAbove(s: ChainState, s1: ChainState, h: nat, f: nat, l: nat, k: nat)
    requires h > 0 && LastGone(s1, h - 1, f, l, k)
    requires if GetBlockAt(s.db, h).None? then s1 == s else Disconnect(s, GetBlockAt(s.db, h).value) == (Done, s1)
    ensures LastGone(s, h, f, l, k)
  {
    hide Disconnect, GetBlockAt;
    assert DisconnectDown(s, h, l) == DisconnectDown(s1, h - 1, l);
  }

  /** If the walk below a disconnected block changes the height no more, either that block was the last
      one, or a lower one was and landed on the same height. */
  lemma {:induction false} NothingAfter(s: ChainState, h: nat, f: nat) returns (l: nat, k: nat)
    requires f < h && GetBlockAt(s.db, h).Some? && DisconnectDown(s, h, f).0 == Done
    ensures LastGone(s, h, f, l, k)
    decreases h
  {
    hide Disconnect, GetBlockAt;
    var b := GetBlockAt(s.db, h).value;
    var s1 := Disconnect(s, b).1;
    if forall g: nat :: f < g < h ==> GetBlockAt(s1.db, g).None? {
      DisconnectLands(s, b);
      l, k := h, s.db.hashToHeight[b.hash];
      assert DisconnectDown(s, h, h) == (Done, s);
    } else {
      var g := HighestFound(s1, h - 1, f);
      assert DisconnectDown(s1, h - 1, f) == DisconnectDown(s1, g, f);
      l, k := NothingAfter(s1, g, f);
      SkipsTo(s1, h - 1, g, f, l, k);
      LastGoneAbove(s, s1, h, f, l, k);
    }
  }

  /** The highest block below a height; the walk passes over the empty heights above it. */
  lemma {:induction false} HighestFound(s: ChainState, h: nat, f: nat) returns (g: nat)
    requires exists g: nat :: f < g <= h && GetBlockAt(s.db, g).Some?
    ensures f < g <= h && GetBlockAt(s.db, g).Some? && forall m: nat :: g < m <= h ==> GetBlockAt(s.db, m).None?
    ensures DisconnectDown(s, h, f) == DisconnectDown(s, g, f)
    decreases h
  {
    hide GetBlockAt, Disconnect;
    if GetBlockAt(s.db, h).Some? { g := h; } else { g := HighestFound(s, h - 1, f); }
  }

  lemma {:induction false} SkipsTo(s: ChainState, h: nat, g: nat, f: nat, l: nat, k: nat)
    requires g <= h && (forall m: nat :: g < m <= h ==> GetBlockAt(s.db, m).None?) && LastGone(s, g, f, l, k)
    ensures LastGone(s, h, f, l, k)
    decreases h
  {
    hide GetBlockAt, Disconnect, LastGone;
    if g < h {
      SkipsTo(s, h - 1, g, f, l, k);
      LastGoneAbove(s, s, h, f, l, k);
    }
  }

  /** A walk that fails does so at one height, and leaves the height where the walk to there left it. */
  lemma {:induction false} FailingWalk(s: ChainState, h: nat, target: nat) returns (f: nat)
    requires DisconnectDown(s, h, target).0.Failed?
    ensures target < f && FailsAt(s, h, f)
    ensures DisconnectDown(s, h, target).1.bestHeight == DisconnectDown(s, h, f).1.bestHeight
    decreases h
  {
    hide GetBlockAt, Disconnect;
    var block := GetBlockAt(s.db, h);
    if block.Some? && Disconnect(s, block.value).0.Failed? {
      f := h;
      DisconnectLands(s, block.value);
      assert DisconnectDown(s, h, h) == (Done, s);
    } else {
      var s1 := if block.None? then s else Disconnect(s, block.value).1;
      f := FailingWalk(s1, h - 1, target);
      assert DisconnectDown(s, h, f) == DisconnectDown(s1, h - 1, f);
    }
  }

  lemma FailsThere(s: ChainState, h: nat, f: nat, target: nat)
    requires target < f && FailsAt(s, h, f)
    ensures DisconnectDown(s, h, target).0.Failed?
    ensures DisconnectDown(s, h, target).1.bestHeight == DisconnectDown(s, h, f).1.bestHeight
  {
    hide GetBlockAt, Disconnect;
    WalkSplits(s, h, f, target);
    var mid := DisconnectDown(s, h, f).1;
    DisconnectLands(mid, GetBlockAt(mid.db, f).value);
  }

  // ---------- exactly when the height rises ----------

  /** The walk a rollback makes fails at a height `f` above its target, and the block it disconnected last
      before that was indexed at a height `k` whose predecessor lies above the tip. */
  ghost predicate Overshoots(s: ChainState, height: nat) {
    exists f: nat, l: nat, k: nat ::
      height < f && FailsAt(s, s.bestHeight, f) && LastGone(s, s.bestHeight, f, l, k) && Pred32(k) > s.bestHeight
  }

  /** A rollback that is not refused at once. */
  predicate Starts(env: Env, s: ChainState, height: nat) {
    height < s.bestHeight && s.bestHeight - height <= env.maxReorgDepth && GetBlockAt(s.db, height).Some?
  }

  /** A rollback ends higher than it started exactly when it fails half-way and the block it disconnected
      last was indexed too high, or at height 0. */
  lemma RollbackRaisesExactly(env: Env, s: ChainState, height: nat)
    ensures Rollback(env, s, height).1.bestHeight > s.bestHeight <==> Starts(env, s, height) && Overshoots(s, height)
  {
    hide DisconnectDown, GetBlockAt, FailsAt, LastGone, CleanOrphanedBlocks;
    if Starts(env, s, height) {
      var best := s.bestHeight;
      if Overshoots(s, height) {
        var f: nat, l: nat, k: nat :| height < f && FailsAt(s, best, f) && LastGone(s, best, f, l, k) && Pred32(k) > best;
        FailsThere(s, best, f, height);
        LandsBelowLast(s, best, f, l, k);
      }
      if DisconnectDown(s, best, height).0.Failed? && DisconnectDown(s, best, height).1.bestHeight > best {
        var f := FailingWalk(s, best, height);
        ReachedBefore(s, best, f);
        var l, k := WalkHasLast(s, best, f);
        LandsBelowLast(s, best, f, l, k);
      }
    }
  }

  lemma ReachedBefore(s: ChainState, h: nat, f: nat)
    requires FailsAt(s, h, f)
    ensures f <= h && DisconnectDown(s, h, f).0 == Done
  {
  }

  /** The height a recovery rolls back to, if it gets that far. */
  function RollsBackTo(env: Env, r: Recovery, detected: nat): Option<nat> {
    var current := r.chain.bestHeight;
    if r.attempts >= MAX_ATTEMPTS then None
    else if detected in env.checkpoints.expected then
      Some(CheckpointBefore(env.checkpoints.expected, r.chain.db, detected))
    else
      var broken := CorruptionPoint(r.chain.db, current);
      if broken == 0 then
        var depth := StaleDepth(r.stale + 1);
        if current <= depth then None else Some(current - depth)
      else if ForkPoint(env, r.chain.db, broken).Ok? then Some(ForkPoint(env, r.chain.db, broken).value)
      else None
  }

  /** A recovery ends higher than it started exactly when its one rollback does. */
  lemma RecoveryRaisesExactly(env: Env, r: Recovery, detected: nat)
    ensures RecoverFromFork(env, r, detected).1.chain.bestHeight > r.chain.bestHeight <==>
            var target := RollsBackTo(env, r, detected);
            target.Some? && Starts(env, r.chain, target.value) && Overshoots(r.chain, target.value)
  {
    hide Rollback, CheckpointBefore, CorruptionPoint, ForkPoint, CleanOrphanedData, UnindexAbove, StaleDepth, GetBlockAt,
         Starts, Overshoots;
    var target := RollsBackTo(env, r, detected);
    if target.Some? { RollbackRaisesExactly(env, r.chain, target.value); }
  }

  /** The recovery a handler starts, if it starts one. */
  function Recovers(env: Env, s: ChainState, v: Verdict): Option<nat>
    requires v.GapAt? || v.BadCheckpointAt? ==> v.height > 0
  {
    match v
    case GapAt(height) => Some(height - 1)
    case BadCheckpointAt(height) =>
      var good := LastGoodCheckpoint(env, s.db, height - 1);
      if good == 0 then None else Some(good)
    case _ => None
  }

  /** A handler of a failed validation ends higher than it started exactly when its recovery does. */
  lemma HandlerRaisesExactly(env: Env, s: ChainState, v: Verdict)
    requires v.GapAt? || v.BadCheckpointAt? ==> v.height > 0
    ensures Handle(env, s, v).1.bestHeight > s.bestHeight <==>
            var detected := Recovers(env, s, v);
            detected.Some? &&
            var target := RollsBackTo(env, FreshRecovery(s), detected.value);
            target.Some? && Starts(env, s, target.value) && Overshoots(s, target.value)
  {
    hide RecoverFromFork, RollsBackTo, LastGoodCheckpoint, GetBlock, Starts, Overshoots;
    var detected := Recovers(env, s, v);
    if detected.Some? { RecoveryRaisesExactly(env, FreshRecovery(s), detected.value); }
  }

  // ---------- whole runs ----------

  /** No block found at or below `limit` is indexed at height 0 or above `limit + 1`. */
  ghost predicate Tame(db: Store, limit: nat) {
    forall h: nat :: 0 < h <= limit && GetBlockAt(db, h).Some? && GetHeight(db, GetBlockAt(db, h).value.hash).Some? ==>
      1 <= GetHeight(db, GetBlockAt(db, h).value.hash).value <= limit + 1
  }

  lemma TameWhileShrinking(before: Store, after: Store, limit: nat)
    requires Tame(before, limit) && ReadsShrink(before, after)
    ensures Tame(after, limit)
  {
    hide GetBlockAt;
    forall h: nat | 0 < h <= limit && GetBlockAt(after, h).Some?
                    && GetHeight(after, GetBlockAt(after, h).value.hash).Some?
      ensures 1 <= GetHeight(after, GetBlockAt(after, h).value.hash).value <= limit + 1
    {
      UnreadableStays(before, after, h);
      FoundAt(before, h);
      FoundAt(after, h);
    }
  }

  lemma DisconnectStays(s: ChainState, h: nat, limit: nat)
    requires Tame(s.db, limit) && 0 < h <= limit && s.bestHeight <= limit && GetBlockAt(s.db, h).Some?
    ensures var (o, s1) := Disconnect(s, GetBlockAt(s.db, h).value);
            ReadsShrink(s.db, s1.db) && s1.bestHeight <= limit
  {
    hide DisconnectStore, GetBlock, GetBlockAt, ReadsShrink;
    var b := GetBlockAt(s.db, h).value;
    DisconnectLands(s, b);
    ReadsKept(s.db);
    if b.hash in s.db.hashToHeight && DisconnectStore(s.db, b, s.db.hashToHeight[b.hash]).Ok? {
      DisconnectShrinks(s.db, b, s.db.hashToHeight[b.hash]);
    }
  }

  lemma {:induction false} WalkStays(s: ChainState, h: nat, target: nat, limit: nat)
    requires Tame(s.db, limit) && h <= limit && s.bestHeight <= limit
    ensures var s1 := DisconnectDown(s, h, target).1;
            ReadsShrink(s.db, s1.db) && s1.bestHeight <= limit
    decreases h
  {
    hide Disconnect, Tame, ReadsShrink, GetBlockAt;
    ReadsKept(s.db);
    if h > target {
      var block := GetBlockAt(s.db, h);
      if block.None? {
        WalkStays(s, h - 1, target, limit);
      } else {
        var (o, s1) := Disconnect(s, block.value);
        DisconnectStays(s, h, limit);
        TameWhileShrinking(s.db, s1.db, limit);
        if o == Done {
          WalkStays(s1, h - 1, target, limit);
          ReadsThrough(s.db, s1.db, DisconnectDown(s1, h - 1, target).1.db);
        }
      }
    }
  }

  lemma RollbackStays(env: Env, s: ChainState, height: nat, limit: nat)
    requires Tame(s.db, limit) && s.bestHeight <= limit
    ensures var s1 := Rollback(env, s, height).1;
            Tame(s1.db, limit) && s1.bestHeight <= limit
  {
    hide Tame, DisconnectDown, GetBlockAt, ReadsShrink, CleanOrphanedBlocks;
    if Starts(env, s, height) {
      WalkStays(s, s.bestHeight, height, limit);
      var (o, s1) := DisconnectDown(s, s.bestHeight, height);
      TameWhileShrinking(s.db, s1.db, limit);
      if o == Done {
        var cleaned := CleanOrphanedBlocks(s1.db, height);
        OrphansReadsShrink(s1.db, height);
        TameWhileShrinking(s1.db, cleaned, limit);
        TipIsNotRead(cleaned, Some(Tip(height, GetBlockAt(s.db, height).value.hash)), limit);
      }
    }
  }

  lemma TipIsNotRead(db: Store, tip: Option<Tip>, limit: nat)
    requires Tame(db, limit)
    ensures Tame(db.(tip := tip), limit)
  {
    hide GetBlockAt;
    ReadsKept(db);
    TipReads(db, tip);
    TameWhileShrinking(db, db.(tip := tip), limit);
  }

  lemma TipReads(db: Store, tip: Option<Tip>)
    ensures ReadsShrink(db, db.(tip := tip))
  {
  }

  lemma GoBackStays(env: Env, r: Recovery, fork: nat, bad: nat, limit: nat)
    requires Tame(r.chain.db, limit) && r.chain.bestHeight <= limit
    ensures var r1 := GoBack(env, r, fork, bad).1;
            r1.chain.bestHeight <= limit && Tame(r1.chain.db, limit)
  {
    hide Tame, ReadsShrink, Rollback, CleanOrphanedData, UnindexAbove;
    RollbackStays(env, r.chain, fork, limit);
    var s1 := Rollback(env, r.chain, fork).1;
    CleaningReadsShrink(s1.db, fork, bad);
    TameWhileShrinking(s1.db, CleanOrphanedData(s1.db, fork, bad), limit);
  }

  lemma RecoveryStays(env: Env, r: Recovery, detected: nat, limit: nat)
    requires Tame(r.chain.db, limit) && r.chain.bestHeight <= limit
    ensures var r1 := RecoverFromFork(env, r, detected).1;
            r1.chain.bestHeight <= limit && Tame(r1.chain.db, limit)
  {
    hide Tame, GoBack, CorruptionPoint, ForkPoint, CheckpointBefore, Rollback, UnindexAbove, GetBlockAt, StaleDepth;
    var current := r.chain.bestHeight;
    if r.attempts < MAX_ATTEMPTS {
      var r1 := Counted(r, detected);
      if detected in env.checkpoints.expected {
        GoBackStays(env, r1, CheckpointBefore(env.checkpoints.expected, r.chain.db, detected), current, limit);
      } else {
        var broken := CorruptionPoint(r.chain.db, current);
        if broken == 0 {
          var depth := StaleDepth(r.stale + 1);
          if current > depth { RollbackStays(env, r.chain, current - depth, limit); }
        } else if ForkPoint(env, r.chain.db, broken).Ok? {
          GoBackStays(env, r1, ForkPoint(env, r.chain.db, broken).value, broken, limit);
        }
      }
    }
  }

  lemma {:induction false} RecoveriesStay(env: Env, r: Recovery, heights: seq<nat>, limit: nat)
    requires Tame(r.chain.db, limit) && r.chain.bestHeight <= limit
    ensures Recoveries(env, r, heights).chain.bestHeight <= limit
    decreases |heights|
  {
    hide RecoverFromFork, Tame;
    if heights != [] {
      RecoveryStays(env, r, heights[0], limit);
      RecoveriesStay(env, RecoverFromFork(env, r, heights[0]).1, heights[1..], limit);
    }
  }

  /** However often recovery runs, and however its rollbacks end, the height never rises above where the
      first one started, as long as no block found up to there is indexed at 0 or more than one above. */
  lemma HeightNeverRises(env: Env, r: Recovery, heights: seq<nat>)
    requires Tame(r.chain.db, r.chain.bestHeight)
    ensures Recoveries(env, r, heights).chain.bestHeight <= r.chain.bestHeight
  {
    RecoveriesStay(env, r, heights, r.chain.bestHeight);
  }

  /** Under the same condition no handler raises the height, and none breaks the condition; a gap that
      counts as repaired leaves a readable tip block. */
  lemma HandlersOnlyLower(env: Env, s: ChainState, v: Verdict)
    requires Tame(s.db, s.bestHeight) && (v.GapAt? || v.BadCheckpointAt? ==> v.height > 0)
    ensures var (o, s1) := Handle(env, s, v);
            && s1.bestHeight <= s.bestHeight && Tame(s1.db, s.bestHeight)
            && (v.GapAt? && o == Done ==> GetBlock(s1.db, ChainTip(s1.db)).Some?)
  {
    hide RecoverFromFork, GetBlock, LastGoodCheckpoint, Tame;
    match v
    case GapAt(height) =>
      RecoveryStays(env, FreshRecovery(s), height - 1, s.bestHeight);
    case BadCheckpointAt(height) =>
      RecoveryStays(env, FreshRecovery(s), LastGoodCheckpoint(env, s.db, height - 1), s.bestHeight);
    case TipMismatch(hash) =>
      TipIsNotRead(s.db, Some(Tip(s.bestHeight, hash)), s.bestHeight);
    case _ =>
  }

  const DISHONEST: Store := EMPTY_STORE.(
    blocks := map[1 := Compact(0, 0, 0, []), 5 := Compact(2, 1, 0, []), 6 := Compact(1, 1, 0, [])],
    heightToHash := map[0 := 1, 1 := 6, 2 := 5],
    hashToHeight := map[1 := 0, 5 := 50])

  /** A block found at height 2 and indexed at height 50: the rollback fails one block later, and leaves the
      height at 49. */
  lemma DisagreeingIndexRaisesHeight(env: Env, s: ChainState)
    requires env.maxReorgDepth >= 2 && s.db == DISHONEST && s.bestHeight == 2
    ensures !Tame(s.db, s.bestHeight) && Overshoots(s, 0)
    ensures var (o, s1) := Rollback(env, s, 0);
            o.Failed? && s1.bestHeight == 49
  {
    var top, next := Block(5, 1, 0, []), Block(6, 1, 0, []);
    assert GetBlockAt(s.db, 0).Some?;
    assert ReadTxs(s.db, []) == [];
    assert GetBlockAt(s.db, 2) == Some(top);
    var db1 := s.db.(blocks := s.db.blocks - {5}, hashToHeight := s.db.hashToHeight - {5}, tip := Some(Tip(49, 1)));
    assert s.db.heightToHash - {50} == s.db.heightToHash;
    assert DisconnectStore(s.db, top, 50) == Ok(db1);
    var (o, s1) := Disconnect(s, top);
    assert o == Done && s1.bestHeight == 49 && s1.db == db1;
    assert ReadTxs(db1, []) == [];
    assert GetBlockAt(db1, 1) == Some(next);
    assert Disconnect(s1, next) == (Failed(BlockNotFound), s1);
    assert DisconnectDown(s1, 1, 0) == (Failed(BlockNotFound), s1);
    RollbackRaisesExactly(env, s, 0);
  }
}
