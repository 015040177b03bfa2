/** Fork recovery as functions: where the chain is broken, where to go back to, and what one recovery
    does to the chain and to its own counters. */
module RecoverySpec {
  import opened Types
  import opened Storage
  import opened ChainSpec
  import opened CheckpointManagement

  const SEARCH_CHUNK: nat := 1000
  const MAX_SEARCH_DEPTH: nat := 10000
  const SEGMENT_SIZE: nat := 10
  const MAX_ATTEMPTS: nat := 3
  const STALE_STEP: nat := 10
  const STALE_MAX: nat := 500

  // ---------- where the chain is broken ----------

  /** The block at `height` has its parent in the store, and that parent is the block one height below. */
  predicate LinksBelow(db: Store, height: nat)
    requires height > 0
  {
    && GetBlockAt(db, height).Some?
    && GetBlock(db, GetBlockAt(db, height).value.prev).Some?
    && GetBlockAt(db, height - 1).Some?
    && GetBlockAt(db, height - 1).value.hash == GetBlockAt(db, height).value.prev
  }

  /** The downward search: `missing` are the heights found empty so far, `checked` how many were visited. */
  function SearchDown(db: Store, height: nat, min: nat, checked: nat, missing: seq<nat>): nat
    decreases height
  {
    if height <= min then
      if missing == [] then 0 else missing[|missing| - 1]
    else if GetBlockAt(db, height).None? then SearchDown(db, height - 1, min, checked + 1, missing + [height])
    else if !LinksBelow(db, height) then height - 1
    else if missing != [] then missing[0]
    else if checked + 1 > SEARCH_CHUNK then 0
    else SearchDown(db, height - 1, min, checked + 1, missing)
  }

  function SearchFloor(from: nat): nat {
    if from > MAX_SEARCH_DEPTH then from - MAX_SEARCH_DEPTH else 0
  }

  function CorruptionPoint(db: Store, from: nat): nat {
    SearchDown(db, from, SearchFloor(from), 0, [])
  }

  // ---------- where to go back to ----------

  predicate SegmentEndsAt(env: Env, db: Store, height: nat) {
    ValidateSegment(env, db, if height < SEGMENT_SIZE then 0 else height - SEGMENT_SIZE, height) == Done
  }

  /** A height recovery can stand on: a readable block that ends a readable segment. */
  predicate Standing(env: Env, db: Store, height: nat) {
    GetBlockAt(db, height).Some? && SegmentEndsAt(env, db, height)
  }

  function HighestStanding(env: Env, db: Store, height: nat, min: nat): Option<nat>
    decreases height
  {
    if height <= min then None
    else if Standing(env, db, height) then Some(height)
    else HighestStanding(env, db, height - 1, min)
  }

  function ForkPoint(env: Env, db: Store, height: nat): Result<nat> {
    var min := NearestBelow(env.checkpoints.expected, height);
    match HighestStanding(env, db, height, min)
    case Some(h) => Ok(h)
    case None => if min > 0 && GetBlockAt(db, min).None? then Err(HeightNotFound) else Ok(min)
  }

  function CheckpointIfStored(expected: map<nat, Hash>, db: Store, height: nat): nat {
    if height in expected && GetBlockAt(db, height).Some? && GetBlockAt(db, height).value.hash == expected[height]
    then height else 0
  }

  /** The checkpoint below a failed one; if its block is missing, the one below that; else genesis. */
  function CheckpointBefore(expected: map<nat, Hash>, db: Store, failed: nat): nat {
    var first := if failed == 0 then 0 else NearestBelow(expected, failed - 1);
    if first == 0 then 0
    else if GetBlockAt(db, first).Some? then CheckpointIfStored(expected, db, first)
    else CheckpointIfStored(expected, db, NearestBelow(expected, first - 1))
  }

  // ---------- one recovery ----------

  datatype Phase = Normal | InconsistencyDetected | RollingBack | Recovering | RecoveryFailed

  datatype Metrics = Metrics(forkDetections: nat, attempts: nat, successes: nat, failures: nat, lastForkHeight: nat)

  datatype Recovery = Recovery(chain: ChainState, phase: Phase, attempts: nat, stale: nat, metrics: Metrics)

  function GiveUp(r: Recovery, chain: ChainState): Recovery {
    r.(chain := chain, phase := RecoveryFailed, metrics := r.metrics.(failures := r.metrics.failures + 1))
  }

  function Succeed(r: Recovery, chain: ChainState, stale: nat): Recovery {
    r.(chain := chain, phase := Normal, attempts := 0, stale := stale,
       metrics := r.metrics.(successes := r.metrics.successes + 1))
  }

  /** Back to `fork`, then delete what is left above it up to `bad`. */
  function GoBack(env: Env, r: Recovery, fork: nat, bad: nat): (Outcome, Recovery) {
    var (o, s1) := Rollback(env, r.chain, fork);
    if o.Failed? then (o, GiveUp(r, s1))
    else
      var cleaned := s1.(db := CleanOrphanedData(s1.db, fork, bad));
      (Done, Succeed(r, ResetChainState(cleaned, fork), 0))
  }

  function StaleDepth(stale: nat): nat {
    if STALE_STEP * stale > STALE_MAX then STALE_MAX else STALE_STEP * stale
  }

  /** Nothing is broken: the tip may be on a stale fork, so drop a stretch that grows each time. */
  function DropStale(env: Env, r: Recovery): (Outcome, Recovery) {
    var r1 := r.(stale := r.stale + 1);
    var depth := StaleDepth(r1.stale);
    if r.chain.bestHeight <= depth then (Failed(ChainTooShort), r1.(phase := Normal))
    else
      var target := r.chain.bestHeight - depth;
      var (o, s1) := Rollback(env, r.chain, target);
      if o.Failed? then (o, GiveUp(r1, s1))
      else if GetBlockAt(s1.db, target).None? then (Failed(HeightNotFound), GiveUp(r1, s1))
      else (Done, Succeed(r1, ResetChainState(s1, target), r1.stale))
  }

  function Noted(r: Recovery, detected: nat): Recovery {
    r.(phase := InconsistencyDetected,
       metrics := r.metrics.(forkDetections := r.metrics.forkDetections + 1, lastForkHeight := detected))
  }

  /** The fork is noted and one more attempt is counted. */
  function Counted(r: Recovery, detected: nat): Recovery {
    var noted := Noted(r, detected);
    noted.(attempts := r.attempts + 1, metrics := noted.metrics.(attempts := noted.metrics.attempts + 1))
  }

  function RecoverFromFork(env: Env, r: Recovery, detected: nat): (Outcome, Recovery) {
    if r.attempts >= MAX_ATTEMPTS then (Failed(TooManyAttempts), GiveUp(Noted(r, detected), r.chain))
    else
      var r1 := Counted(r, detected);
      var current := r.chain.bestHeight;
      if detected in env.checkpoints.expected then
        GoBack(env, r1, CheckpointBefore(env.checkpoints.expected, r.chain.db, detected), current)
      else
        var broken := CorruptionPoint(r.chain.db, current);
        if broken == 0 then DropStale(env, r1)
        else
          match ForkPoint(env, r.chain.db, broken)
          case Err(e) => (Failed(e), GiveUp(r1, r.chain))
          case Ok(fork) => GoBack(env, r1, fork, broken)
  }

  /** Recovery calls with nothing connected between them. */
  function Recoveries(env: Env, r: Recovery, heights: seq<nat>): Recovery
    decreases |heights|
  {
    if heights == [] then r
    else Recoveries(env, RecoverFromFork(env, r, heights[0]).1, heights[1..])
  }
}
