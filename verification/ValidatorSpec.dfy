/** Chain validation as functions: what full, quick and smart validation find, what the repair handlers
    do about it, and the check and repair of the two block indexes. */
module ValidatorSpec {
  import opened Types
  import opened Storage
  import KeyOrder
  import opened ChainSpec
  import opened RecoverySpec

  const SMART_THRESHOLD: nat := 100000
  const SAMPLE_STEP: nat := 1000
  const FULL_TAIL: nat := 1000

  /** What a validation pass ends with: success, a missing genesis or failed quick check, or the handler
      it calls. */
  datatype Verdict =
    | Passed
    | Unusable
    | GapAt(height: nat)
    | BadCheckpointAt(height: nat)
    | TipMismatch(hash: Hash)

  // ---------- full validation ----------

  function FullFrom(env: Env, db: Store, prev: Hash, height: nat, best: nat): Verdict
    requires height <= best + 1
    decreases best + 1 - height
  {
    if height > best then
      if ChainHeight(db) == best && ChainTip(db) == prev then Passed else TipMismatch(prev)
    else
      match GetBlockAt(db, height)
      case None => GapAt(height)
      case Some(b) =>
        if b.prev != prev then GapAt(height)
        else if height in env.checkpoints.expected && env.checkpoints.expected[height] != b.hash
        then BadCheckpointAt(height)
        else FullFrom(env, db, b.hash, height + 1, best)
  }

  function FullVerdict(env: Env, s: ChainState): Verdict {
    if s.bestHeight == 0 then Passed
    else if GetBlock(s.db, env.genesisHash).None? then Unusable
    else FullFrom(env, s.db, env.genesisHash, 1, s.bestHeight)
  }

  // ---------- quick and smart validation ----------

  predicate CheckpointsMatch(env: Env, db: Store, best: nat) {
    forall h :: h in env.checkpoints.expected && h <= best ==> GetHash(db, h) == Some(env.checkpoints.expected[h])
  }

  predicate QuickOk(env: Env, s: ChainState) {
    && GetBlock(s.db, env.genesisHash).Some?
    && CheckpointsMatch(env, s.db, s.bestHeight)
    && ChainHeight(s.db) == s.bestHeight
    && GetBlock(s.db, ChainTip(s.db)).Some?
  }

  predicate SampleOk(db: Store, height: nat) {
    GetBlockAt(db, height).Some? && GetBlock(db, GetBlockAt(db, height).value.prev).Some?
  }

  function SamplesFrom(db: Store, height: nat, end: nat): Verdict
    decreases if height < end then end - height else 0
  {
    if height >= end then Passed
    else if !SampleOk(db, height) then GapAt(height)
    else SamplesFrom(db, height + SAMPLE_STEP, end)
  }

  function TailFrom(db: Store, prev: Option<Hash>, height: nat, best: nat): Verdict
    decreases if height <= best then best + 1 - height else 0
  {
    if height > best then Passed
    else
      match GetBlockAt(db, height)
      case None => GapAt(height)
      case Some(b) =>
        if prev.Some? && b.prev != prev.value then GapAt(height)
        else TailFrom(db, Some(b.hash), height + 1, best)
  }

  function SmartVerdict(env: Env, s: ChainState): Verdict {
    if s.bestHeight < SMART_THRESHOLD then FullVerdict(env, s)
    else if !QuickOk(env, s) then Unusable
    else
      var samples := SamplesFrom(s.db, SAMPLE_STEP, s.bestHeight - FULL_TAIL);
      if samples != Passed then samples else TailFrom(s.db, None, s.bestHeight - FULL_TAIL, s.bestHeight)
  }

  datatype Mode = Quick | Smart | Full

  /** The verdict of a pass in the configured mode; a failed quick check calls no handler. */
  function VerdictIn(mode: Mode, env: Env, s: ChainState): Verdict {
    match mode
    case Quick => if QuickOk(env, s) then Passed else Unusable
    case Smart => SmartVerdict(env, s)
    case Full => FullVerdict(env, s)
  }

  // ---------- handlers ----------

  function FreshRecovery(s: ChainState): Recovery {
    Recovery(s, Normal, 0, 0, Metrics(0, 0, 0, 0, 0))
  }

  function HandleGap(env: Env, s: ChainState, height: nat): (Outcome, ChainState)
    requires height > 0
  {
    var (o, r) := RecoverFromFork(env, FreshRecovery(s), height - 1);
    if o.Failed? then (o, r.chain)
    else if GetBlock(r.chain.db, ChainTip(r.chain.db)).None? then (Failed(BlockNotFound), r.chain)
    else (Done, r.chain)
  }

  function LastGoodCheckpoint(env: Env, db: Store, height: nat): nat {
    if height == 0 then 0
    else if height in env.checkpoints.expected && GetHash(db, height) == Some(env.checkpoints.expected[height])
    then height
    else LastGoodCheckpoint(env, db, height - 1)
  }

  function HandleCheckpoint(env: Env, s: ChainState, height: nat): (Outcome, ChainState)
    requires height > 0
  {
    var good := LastGoodCheckpoint(env, s.db, height - 1);
    if good == 0 then (Failed(CheckpointMissing), s)
    else
      var (o, r) := RecoverFromFork(env, FreshRecovery(s), good);
      (o, r.chain)
  }

  function HandleMismatch(s: ChainState, hash: Hash): (Outcome, ChainState) {
    (Done, s.(db := s.db.(tip := Some(Tip(s.bestHeight, hash)))))
  }

  /** What validation does with its verdict. */
  function Handle(env: Env, s: ChainState, v: Verdict): (Outcome, ChainState)
    requires v.GapAt? || v.BadCheckpointAt? ==> v.height > 0
  {
    match v
    case Passed => (Done, s)
    case Unusable => (Failed(StateMismatch), s)
    case GapAt(height) => HandleGap(env, s, height)
    case BadCheckpointAt(height) => HandleCheckpoint(env, s, height)
    case TipMismatch(hash) => HandleMismatch(s, hash)
  }

  // ---------- the two block indexes ----------

  /** A hash-to-height entry whose height names another block, or none. */
  datatype Inconsistency = Inconsistency(height: nat, hash: Hash, named: Option<Hash>)

  predicate RoundTrips(db: Store, hash: Hash)
    requires hash in db.hashToHeight
  {
    GetHash(db, db.hashToHeight[hash]) == Some(hash)
  }

  /** What one more key adds. */
  function Checked(db: Store, hash: Hash): seq<Inconsistency>
    requires hash in db.hashToHeight
  {
    if RoundTrips(db, hash) then []
    else [Inconsistency(db.hashToHeight[hash], hash, GetHash(db, db.hashToHeight[hash]))]
  }

  lemma CheckedIs(db: Store, hash: Hash)
    requires hash in db.hashToHeight
    ensures var height := db.hashToHeight[hash];
            Checked(db, hash)
            == if height !in db.heightToHash then [Inconsistency(height, hash, None)]
               else if db.heightToHash[height] != hash
                 then [Inconsistency(height, hash, Some(db.heightToHash[height]))]
               else []
  {
  }

  function InconsistenciesAmong(db: Store, keys: seq<Hash>): seq<Inconsistency>
    requires forall x :: x in keys ==> x in db.hashToHeight
  {
    if keys == [] then []
    else
      var n := |keys| - 1;
      var hash := keys[n];
      assert hash in keys;
      InconsistenciesAmong(db, keys[..n]) + Checked(db, hash)
  }

  function IndexInconsistencies(db: Store): seq<Inconsistency> {
    InconsistenciesAmong(db, KeyOrder.SortedKeys(db.hashToHeight.Keys))
  }

  lemma NoneAmongNone(db: Store)
    ensures InconsistenciesAmong(db, []) == []
  {
  }

  lemma AmongSnoc(db: Store, keys: seq<Hash>, i: nat)
    requires i < |keys| && forall x :: x in keys ==> x in db.hashToHeight
    ensures keys[i] in keys
    ensures InconsistenciesAmong(db, keys[..i + 1]) == InconsistenciesAmong(db, keys[..i]) + Checked(db, keys[i])
  {
    hide Checked;
    assert keys[..i + 1][..i] == keys[..i] && keys[..i + 1][i] == keys[i];
  }

  function LowestHeight(list: seq<Inconsistency>): nat
    requires list != []
  {
    var n := |list| - 1;
    if n == 0 then list[0].height
    else
      var before := LowestHeight(list[..n]);
      if list[n].height < before then list[n].height else before
  }

  /** Two below the lowest mismatch, as far as genesis allows. */
  function RollbackTarget(list: seq<Inconsistency>): nat
    requires list != []
  {
    if LowestHeight(list) >= 2 then LowestHeight(list) - 2 else 0
  }

  function RepairIndexes(env: Env, s: ChainState, list: seq<Inconsistency>): (Outcome, ChainState) {
    if list == [] then (Done, s)
    else
      var target := RollbackTarget(list);
      var (o, s1) := Rollback(env, s, target);
      if o.Failed? then (o, s1)
      else
        var s2 := s1.(db := CleanOrphanedData(s1.db, target, s.bestHeight));
        if GetBlockAt(s2.db, target).None? then (Failed(HeightNotFound), s2)
        else (Done, ResetChainState(s2, target))
  }
}
