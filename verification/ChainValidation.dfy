/** The chain validator: the methods of internal/blockchain/chain_validator.go, each proved to do what
    its function in ValidatorSpec says. */
module ChainValidation {
  import opened Types
  import opened Storage
  import KeyOrder
  import opened ChainSpec
  import opened RecoverySpec
  import opened RecoveryManagement
  import opened ValidatorSpec
  import opened ValidatorProofs
  import Blockchain

  class ChainValidator {
    const bc: Blockchain.BlockChain

    constructor (bc: Blockchain.BlockChain)
      ensures this.bc == bc
    {
      this.bc := bc;
    }

    // ---------- validation passes ----------

    /** Every block from genesis to the tip: stored, linked, checkpoint-correct; then the stored tip. */
    method FullValidate() returns (v: Verdict)
      ensures v == FullVerdict(bc.env, bc.State())
      ensures v == Passed <==> bc.bestHeight == 0 || WholeChainGood(bc.env, bc.State())
      ensures v.GapAt? || v.BadCheckpointAt? ==> v.height > 0
    {
      FullPassesExactly(bc.env, bc.State());
      hide WholeChainGood;
      var best := bc.bestHeight;
      if best == 0 { return Passed; }
      var genesis := GetBlock(bc.db, bc.env.genesisHash);
      if genesis.None? { return Unusable; }
      var prevHash := bc.env.genesisHash;
      var height := 1;
      while height <= best
        invariant 1 <= height <= best + 1
        invariant FullVerdict(bc.env, bc.State()) == FullFrom(bc.env, bc.db, prevHash, height, best)
      {
        if height !in bc.db.heightToHash { return GapAt(height); }
        var hash := bc.db.heightToHash[height];
        var block := GetBlock(bc.db, hash);
        if block.None? { return GapAt(height); }
        if block.value.prev != prevHash { return GapAt(height); }
        if height in bc.env.checkpoints.expected {
          if bc.env.checkpoints.expected[height] != hash { return BadCheckpointAt(height); }
        }
        prevHash := hash;
        height := height + 1;
      }
      if ChainHeight(bc.db) != best || ChainTip(bc.db) != prevHash { return TipMismatch(prevHash); }
      v := Passed;
    }

    method QuickValidate() returns (ok: bool)
      ensures ok <==> QuickOk(bc.env, bc.State())
      ensures ok <==>
                && HasBody(bc.db, bc.env.genesisHash) && HasBody(bc.db, ChainTip(bc.db))
                && ChainHeight(bc.db) == bc.bestHeight
                && forall h :: h in bc.env.checkpoints.expected && h <= bc.bestHeight ==>
                     h in bc.db.heightToHash && bc.db.heightToHash[h] == bc.env.checkpoints.expected[h]
    {
      hide HasBody;
      assert forall h :: h in bc.env.checkpoints.expected ==>
          (GetHash(bc.db, h) == Some(bc.env.checkpoints.expected[h]) <==>
           h in bc.db.heightToHash && bc.db.heightToHash[h] == bc.env.checkpoints.expected[h]);
      var best := bc.bestHeight;
      if GetBlock(bc.db, bc.env.genesisHash).None? { return false; }
      var expected := bc.env.checkpoints.expected;
      var todo := expected.Keys;
      while todo != {}
        invariant todo <= expected.Keys
        invariant forall h :: h in expected && h !in todo && h <= best ==> GetHash(bc.db, h) == Some(expected[h])
        decreases |todo|
      {
        var height := KeyOrder.Min(todo);
        todo := todo - {height};
        if height > best { continue; }
        if height !in bc.db.heightToHash { return false; }
        if bc.db.heightToHash[height] != expected[height] { return false; }
      }
      if ChainHeight(bc.db) != best { return false; }
      if GetBlock(bc.db, ChainTip(bc.db)).None? { return false; }
      ok := true;
    }

    /** All checkpoints, every 1000th block, and the last 1000 blocks in full; short chains in full. */
    method SmartValidate() returns (v: Verdict)
      ensures v == SmartVerdict(bc.env, bc.State())
      ensures v.GapAt? || v.BadCheckpointAt? ==> v.height > 0
    {
      var best := bc.bestHeight;
      if best < SMART_THRESHOLD {
        v := FullValidate();
        return;
      }
      var ok := QuickValidate();
      if !ok { return Unusable; }
      hide FullVerdict, QuickOk;
      var height: nat := SAMPLE_STEP;
      while height < best - FULL_TAIL
        invariant SAMPLE_STEP <= height
        invariant SamplesFrom(bc.db, SAMPLE_STEP, best - FULL_TAIL) == SamplesFrom(bc.db, height, best - FULL_TAIL)
      {
        var block := GetBlockAt(bc.db, height);
        if block.None? { return GapAt(height); }
        if GetBlock(bc.db, block.value.prev).None? { return GapAt(height); }
        height := height + SAMPLE_STEP;
      }
      var start: nat := best - FULL_TAIL;
      var prevHash: Option<Hash> := None;
      height := start;
      while height <= best
        invariant start <= height && (height == start <==> prevHash.None?)
        invariant TailFrom(bc.db, None, start, best) == TailFrom(bc.db, prevHash, height, best)
      {
        var block := GetBlockAt(bc.db, height);
        if block.None? { return GapAt(height); }
        if height > start && block.value.prev != prevHash.value { return GapAt(height); }
        prevHash := Some(block.value.hash);
        height := height + 1;
      }
      v := Passed;
    }

    // ---------- handlers ----------

    method HandleChainGap(height: nat) returns (o: Outcome)
      requires height > 0
      modifies bc
      ensures (o, bc.State()) == HandleGap(bc.env, old(bc.State()), height)
    {
      hide RecoverFromFork;
      var recovery := new RecoveryManager(bc);
      o := recovery.Recover(height - 1);
      if o.Failed? { return; }
      if GetBlock(bc.db, ChainTip(bc.db)).None? { return Failed(BlockNotFound); }
      o := Done;
    }

    method HandleCheckpointFailure(height: nat) returns (o: Outcome)
      requires height > 0
      modifies bc
      ensures (o, bc.State()) == HandleCheckpoint(bc.env, old(bc.State()), height)
    {
      hide RecoverFromFork;
      var expected := bc.env.checkpoints.expected;
      var h, good: nat := height - 1, 0;
      while h > 0
        invariant LastGoodCheckpoint(bc.env, bc.db, height - 1) == LastGoodCheckpoint(bc.env, bc.db, h)
        invariant 0 <= h && good == 0
      {
        if h in expected && GetHash(bc.db, h) == Some(expected[h]) {
          good := h;
          break;
        }
        h := h - 1;
      }
      if good == 0 { return Failed(CheckpointMissing); }
      var recovery := new RecoveryManager(bc);
      o := recovery.Recover(good);
    }

    method HandleStateMismatch(hash: Hash) returns (o: Outcome)
      modifies bc`db
      ensures (o, bc.State()) == HandleMismatch(old(bc.State()), hash)
    {
      bc.db := bc.db.(tip := Some(Tip(bc.bestHeight, hash)));
      o := Done;
    }

    /** A pass in the given mode, and the handler its verdict calls for. */
    method ValidateChainIntegrity(mode: Mode) returns (o: Outcome)
      modifies bc
      ensures var v := VerdictIn(mode, bc.env, old(bc.State()));
              && (v.GapAt? || v.BadCheckpointAt? ==> v.height > 0)
              && (o, bc.State()) == Handle(bc.env, old(bc.State()), v)
    {
      hide SmartVerdict, FullVerdict, QuickOk, HandleGap, HandleCheckpoint;
      var v;
      match mode {
        case Quick =>
          var ok := QuickValidate();
          v := if ok then Passed else Unusable;
        case Smart => v := SmartValidate();
        case Full => v := FullValidate();
      }
      match v {
        case Passed => o := Done;
        case Unusable => o := Failed(StateMismatch);
        case GapAt(height) => o := HandleChainGap(height);
        case BadCheckpointAt(height) => o := HandleCheckpointFailure(height);
        case TipMismatch(hash) => o := HandleStateMismatch(hash);
      }
    }

    // ---------- index consistency ----------

    /** Cross-checks every hash-to-height entry, in key order, against the height-to-hash index. */
    method CheckIndexConsistency() returns (list: seq<Inconsistency>)
      ensures list == IndexInconsistencies(bc.db)
      ensures list == [] <==> forall x :: x in bc.db.hashToHeight ==> RoundTrips(bc.db, x)
    {
      hide InconsistenciesAmong, Checked, RoundTrips, GetHash;
      list := [];
      var keys := KeyOrder.SortedKeys(bc.db.hashToHeight.Keys);
      NoneAmongNone(bc.db);
      for i := 0 to |keys|
        invariant list == InconsistenciesAmong(bc.db, keys[..i])
      {
        AmongSnoc(bc.db, keys, i);
        var hash := keys[i];
        CheckedIs(bc.db, hash);
        var height := bc.db.hashToHeight[hash];
        if height !in bc.db.heightToHash {
          list := list + [Inconsistency(height, hash, None)];
          continue;
        }
        var named := bc.db.heightToHash[height];
        if named != hash { list := list + [Inconsistency(height, hash, Some(named))]; }
      }
      assert keys[..|keys|] == keys;
      CheckFindsExactly(bc.db);
    }

    method RecoverFromIndexInconsistency(list: seq<Inconsistency>) returns (o: Outcome)
      modifies bc
      ensures (o, bc.State()) == RepairIndexes(bc.env, old(bc.State()), list)
    {
      hide Rollback, CleanOrphanedData, ResetChainState, GetBlockAt;
      if list == [] { return Done; }
      var lowest := list[0].height;
      for i := 1 to |list|
        invariant lowest == LowestHeight(list[..i])
      {
        assert list[..i + 1][..i] == list[..i];
        if list[i].height < lowest { lowest := list[i].height; }
      }
      assert list[..|list|] == list;
      var target := if lowest >= 2 then lowest - 2 else 0;
      var best := bc.bestHeight;
      var recovery := new RecoveryManager(bc);
      o := recovery.RollbackToHeight(target);
      if o.Failed? { return; }
      recovery.CleanOrphanedDataAbove(target, best);
      var block := GetBlockAt(bc.db, target);
      if block.None? { return Failed(HeightNotFound); }
      recovery.ResetIndex(target);
      o := Done;
    }

    method ValidateBlockIndexConsistency() returns (o: Outcome)
      modifies bc
      ensures (o, bc.State()) == RepairIndexes(bc.env, old(bc.State()), IndexInconsistencies(old(bc.db)))
    {
      var list := CheckIndexConsistency();
      if list == [] { return Done; }
      o := RecoverFromIndexInconsistency(list);
    }
  }
}
