/** Recovery on a sound chain: it only ever cuts the chain, and a stale fork is left step by step. */
module RecoveryRuns {
  import opened Types
  import opened Storage
  import opened ChainSpec
  import opened Represent
  import opened RollbackProofs
  import opened Runs
  import opened RecoverySpec
  import opened RecoveryProofs

  lemma {:induction false} NothingLeftAbove(db: Store, chain: seq<Block>, good: nat, bad: nat)
    requires Holds(db, chain) && good >= |chain| - 1
    ensures CleanOrphanedData(db, good, bad) == db
    decreases bad
  {
    hide Holds, GetBlockAt, DeleteBlock;
    if bad > good {
      NothingLeftAbove(db, chain, good, bad - 1);
      NothingAboveTip(db, chain, bad);
    }
  }

  /** The state stands on the chain cut after `height`. */
  ghost predicate StandsAt(s: ChainState, chain: seq<Block>, height: nat) {
    height < |chain| && s.bestHeight == height && Represents(s, chain[..height + 1])
  }

  lemma StandsAtPrefix(s: ChainState, chain: seq<Block>, n: nat, height: nat)
    requires n <= |chain| && StandsAt(s, chain[..n], height)
    ensures StandsAt(s, chain, height)
  {
    assert chain[..n][..height + 1] == chain[..height + 1];
  }

  lemma StandsAtTip(s: ChainState, chain: seq<Block>)
    requires Represents(s, chain)
    ensures StandsAt(s, chain, s.bestHeight) && s.bestHeight == |chain| - 1
  {
    hide Holds, CachesOk, TipOk;
    assert chain[..|chain|] == chain;
  }

  predicate WithinReach(env: Env, s: ChainState, fork: nat) {
    fork <= s.bestHeight && s.bestHeight - fork <= env.maxReorgDepth
  }

  lemma RollBackReaches(env: Env, s: ChainState, chain: seq<Block>, fork: nat)
    requires Represents(s, chain)
    ensures var (o, s1) := Rollback(env, s, fork);
            && (o == Done <==> WithinReach(env, s, fork))
            && (o == Done ==> StandsAt(s1, chain, fork) && ResetChainState(s1, fork) == s1)
            && (o != Done ==> s1 == s)
  {
    hide Represents, DisconnectDown, CleanOrphanedBlocks, GetBlockAt, ForgetAbove;
    Mirror(s, chain);
    if WithinReach(env, s, fork) {
      RollbackRestores(env, s, chain, fork);
      var s1 := Rollback(env, s, fork).1;
      Mirror(s1, chain[..fork + 1]);
      NothingToClean(s1, chain[..fork + 1]);
    }
  }

  lemma NothingAboveFork(s: ChainState, chain: seq<Block>, fork: nat, bad: nat)
    requires StandsAt(s, chain, fork)
    ensures CleanOrphanedData(s.db, fork, bad) == s.db
  {
    hide Holds, CleanOrphanedData;
    NothingLeftAbove(s.db, chain[..fork + 1], fork, bad);
  }

  lemma BlockAtFork(s: ChainState, chain: seq<Block>, fork: nat)
    requires StandsAt(s, chain, fork)
    ensures GetBlockAt(s.db, fork) == Some(chain[fork])
  {
    hide Represents;
    BlockIsFound(s, chain[..fork + 1], fork);
  }

  /** Going back cuts the chain at the fork, or leaves it as it is. */
  lemma GoBackCuts(env: Env, r: Recovery, chain: seq<Block>, fork: nat, bad: nat)
    requires Represents(r.chain, chain)
    ensures var (o, r1) := GoBack(env, r, fork, bad);
            && (o == Done <==> WithinReach(env, r.chain, fork))
            && (o == Done ==> StandsAt(r1.chain, chain, fork))
            && (o != Done ==> r1.chain == r.chain)
  {
    hide Represents, StandsAt, Rollback, CleanOrphanedData, ResetChainState;
    RollBackReaches(env, r.chain, chain, fork);
    var (o, s1) := Rollback(env, r.chain, fork);
    if o == Done { NothingAboveFork(s1, chain, fork, bad); }
  }

  // ---------- leaving a stale fork ----------

  /** A stale drop cuts the chain by its depth, exactly when the chain is longer and the depth limit allows it. */
  lemma DropStaleCuts(env: Env, r: Recovery, chain: seq<Block>)
    requires Represents(r.chain, chain)
    ensures var (o, r1) := DropStale(env, r);
            var depth := StaleDepth(r.stale + 1);
            && r1.stale == r.stale + 1
            && (o == Done <==> r.chain.bestHeight > depth && depth <= env.maxReorgDepth)
            && (o == Done ==> r1.attempts == 0 && StandsAt(r1.chain, chain, r.chain.bestHeight - depth))
            && (o != Done ==> r1.chain == r.chain && r1.attempts == r.attempts)
  {
    hide Represents, StandsAt, Rollback, GetBlockAt, StaleDepth, ResetChainState;
    var depth := StaleDepth(r.stale + 1);
    if r.chain.bestHeight > depth {
      var target := r.chain.bestHeight - depth;
      RollBackReaches(env, r.chain, chain, target);
      var (o, s1) := Rollback(env, r.chain, target);
      if o == Done { BlockAtFork(s1, chain, target); }
    }
  }

  /** One recovery on a sound chain drops the next, deeper stretch, and never reaches genesis; if the
      chain is too short for that, it fails and leaves the chain alone. */
  lemma StaleStep(env: Env, r: Recovery, chain: seq<Block>, detected: nat)
    requires Represents(r.chain, chain) && r.attempts < MAX_ATTEMPTS
    requires detected !in env.checkpoints.expected && env.maxReorgDepth >= STALE_MAX
    ensures var (o, r1) := RecoverFromFork(env, r, detected);
            var depth := StaleDepth(r.stale + 1);
            && r1.stale == r.stale + 1
            && (o == Done <==> r.chain.bestHeight > depth)
            && (o == Done ==> r1.attempts == 0 && StandsAt(r1.chain, chain, r.chain.bestHeight - depth)
                              && r1.chain.bestHeight >= 1)
            && (o != Done ==> r1.chain == r.chain && r1.attempts == r.attempts + 1)
  {
    hide Represents, DropStale, CorruptionPoint;
    SoundChainIsNotBroken(r.chain, chain);
    DropStaleCuts(env, Counted(r, detected), chain);
  }

  /** What `n` recoveries in a row drop, after `stale` of them before. */
  function Dropped(stale: nat, n: nat): nat
    decreases n
  {
    if n == 0 then 0 else StaleDepth(stale + 1) + Dropped(stale + 1, n - 1)
  }

  predicate NoneAtCheckpoint(env: Env, heights: seq<nat>) {
    forall i :: 0 <= i < |heights| ==> heights[i] !in env.checkpoints.expected
  }

  /** `n` recoveries in a row each drop their stretch, as long as the chain is longer than all of them. */
  lemma {:induction false} StaleRun(env: Env, r: Recovery, chain: seq<Block>, heights: seq<nat>)
    requires Represents(r.chain, chain) && r.attempts == 0 && env.maxReorgDepth >= STALE_MAX
    requires NoneAtCheckpoint(env, heights) && r.chain.bestHeight > Dropped(r.stale, |heights|)
    ensures var r1 := Recoveries(env, r, heights);
            && StandsAt(r1.chain, chain, r.chain.bestHeight - Dropped(r.stale, |heights|))
            && r1.stale == r.stale + |heights| && r1.attempts == 0
    decreases |heights|
  {
    hide Represents, RecoverFromFork, StaleDepth;
    StandsAtTip(r.chain, chain);
    if heights != [] {
      var rest := heights[1..];
      StaleStep(env, r, chain, heights[0]);
      var r1 := RecoverFromFork(env, r, heights[0]).1;
      var n := r1.chain.bestHeight + 1;
      StaleRun(env, r1, chain[..n], rest);
      StandsAtPrefix(Recoveries(env, r1, rest).chain, chain, n, r1.chain.bestHeight - Dropped(r1.stale, |rest|));
    }
  }

  lemma {:induction false} DroppedSplits(stale: nat, n: nat, m: nat)
    ensures Dropped(stale, n + m) == Dropped(stale, n) + Dropped(stale + n, m)
    decreases n
  {
    if n > 0 { DroppedSplits(stale + 1, n - 1, m); }
  }

  lemma DroppedLast(n: nat)
    requires 0 < n <= 50
    ensures Dropped(0, n) == Dropped(0, n - 1) + 10 * n
  {
    DroppedSplits(0, n - 1, 1);
    assert Dropped(n - 1, 1) == StaleDepth(n) + Dropped(n, 0);
  }

  lemma {:induction false} DroppedGrowing(n: nat)
    requires n <= 50
    ensures Dropped(0, n) == 5 * (n * (n + 1))
  {
    if n > 0 {
      hide Dropped;
      DroppedGrowing(n - 1);
      DroppedLast(n);
      NextTriangle(n);
    }
  }

  lemma NextTriangle(n: nat)
    requires n > 0
    ensures 5 * ((n - 1) * n) + 10 * n == 5 * (n * (n + 1))
  {
  }

  lemma {:induction false} DroppedFlat(stale: nat, n: nat)
    requires stale >= 50
    ensures Dropped(stale, n) == 500 * n
    decreases n
  {
    if n > 0 { DroppedFlat(stale + 1, n - 1); }
  }

  /** From a fresh start, `n` recoveries drop 5n(n+1) blocks while the stretch still grows, and 500 more
      for each one after the fiftieth. */
  lemma DroppedInAll(n: nat)
    ensures n <= 50 ==> Dropped(0, n) == 5 * (n * (n + 1))
    ensures n > 50 ==> Dropped(0, n) == 12750 + 500 * (n - 50)
  {
    hide Dropped;
    if n <= 50 {
      DroppedGrowing(n);
    } else {
      DroppedSplits(0, 50, n - 50);
      DroppedGrowing(50);
      DroppedFlat(50, n - 50);
    }
  }

  // ---------- any recovery on a sound chain ----------

  lemma RecoveryCuts(env: Env, r: Recovery, chain: seq<Block>, detected: nat)
    requires Represents(r.chain, chain)
    ensures var s1 := RecoverFromFork(env, r, detected).1.chain;
            s1.bestHeight <= r.chain.bestHeight && StandsAt(s1, chain, s1.bestHeight)
  {
    hide Represents, StandsAt, CorruptionPoint, GoBack, DropStale;
    StandsAtTip(r.chain, chain);
    SoundChainIsNotBroken(r.chain, chain);
    if r.attempts < MAX_ATTEMPTS {
      if detected in env.checkpoints.expected {
        var fork := CheckpointBefore(env.checkpoints.expected, r.chain.db, detected);
        GoBackCuts(env, Counted(r, detected), chain, fork, r.chain.bestHeight);
      } else {
        DropStaleCuts(env, Counted(r, detected), chain);
      }
      StandsExactly(RecoverFromFork(env, r, detected).1.chain, chain);
    }
  }

  lemma StandsExactly(s: ChainState, chain: seq<Block>)
    ensures forall h: nat :: StandsAt(s, chain, h) ==> s.bestHeight == h
  {
  }

  /** However often recovery runs on a sound chain, the state stands on a prefix of that chain. */
  lemma {:induction false} RecoveriesCut(env: Env, r: Recovery, chain: seq<Block>, heights: seq<nat>)
    requires Represents(r.chain, chain)
    ensures var s1 := Recoveries(env, r, heights).chain;
            s1.bestHeight <= r.chain.bestHeight && StandsAt(s1, chain, s1.bestHeight)
    decreases |heights|
  {
    hide Represents, RecoverFromFork;
    StandsAtTip(r.chain, chain);
    if heights != [] {
      RecoveryCuts(env, r, chain, heights[0]);
      var r1 := RecoverFromFork(env, r, heights[0]).1;
      var n := r1.chain.bestHeight + 1;
      RecoveriesCut(env, r1, chain[..n], heights[1..]);
      var after := Recoveries(env, r1, heights[1..]).chain;
      StandsAtPrefix(after, chain, n, after.bestHeight);
    }
  }
}
