/** The checkpoint table: loading it, checking a block against it, and finding the nearest one below. */
module CheckpointManagement {
  import opened Types
  import opened Storage
  import opened ChainSpec
  import KeyOrder

  /** The highest checkpoint at or below a height, and 0 if there is none above height 0. */
  function NearestBelow(expected: map<nat, Hash>, height: nat): (nearest: nat)
    ensures nearest <= height
    ensures nearest > 0 ==> nearest in expected
    ensures forall h :: nearest < h <= height ==> h !in expected
  {
    if height == 0 || height in expected then height
    else NearestBelow(expected, height - 1)
  }

  lemma {:induction false} NearestIsUnique(expected: map<nat, Hash>, height: nat, nearest: nat)
    requires nearest <= height && (nearest > 0 ==> nearest in expected)
    requires forall h :: nearest < h <= height ==> h !in expected
    ensures NearestBelow(expected, height) == nearest
  {
    if nearest < height { NearestIsUnique(expected, height - 1, nearest); }
  }

  datatype Checkpoint = Checkpoint(height: nat, hash: Hash)

  /** The table a list of checkpoints makes; a later one replaces an earlier one at the same height. */
  function Table(list: seq<Checkpoint>): map<nat, Hash> {
    if list == [] then map[]
    else Table(list[..|list| - 1])[list[|list| - 1].height := list[|list| - 1].hash]
  }

  /** The table has exactly the listed heights, each with the hash listed last for it. */
  lemma {:induction false} TableExactly(list: seq<Checkpoint>)
    ensures forall h :: h in Table(list) <==> exists i :: 0 <= i < |list| && list[i].height == h
    ensures forall i :: 0 <= i < |list| && (forall j :: i < j < |list| ==> list[j].height != list[i].height) ==>
              list[i].height in Table(list) && Table(list)[list[i].height] == list[i].hash
  {
    if list != [] {
      var n := |list| - 1;
      var init := list[..n];
      TableExactly(init);
      assert forall i :: 0 <= i < n ==> init[i] == list[i];
      var before, after := Table(init), Table(list);
      assert after == before[list[n].height := list[n].hash];
      hide Table;
      forall h | h in before ensures exists i :: 0 <= i < |list| && list[i].height == h {
        var i :| 0 <= i < n && init[i].height == h;
        assert list[i].height == h;
      }
    }
  }

  /** Wherever a block is stored at a checkpoint's height, up to `best`, it is the expected one. */
  predicate Agrees(expected: map<nat, Hash>, db: Store, best: nat) {
    forall h :: h in expected && h <= best && h in db.heightToHash ==> db.heightToHash[h] == expected[h]
  }

  class CheckpointManager {
    var checkpoints: map<nat, Hash>
    var badBlocks: map<nat, Hash>
    var lastHeight: nat

    ghost predicate Valid()
      reads this
    {
      && (forall h :: h in checkpoints ==> h <= lastHeight)
      && (lastHeight > 0 ==> lastHeight in checkpoints)
    }

    function Rules(): Checkpoints
      reads this
    {
      Checkpoints(checkpoints, badBlocks)
    }

    constructor (list: seq<Checkpoint>)
      ensures Valid() && checkpoints == Table(list) && badBlocks == map[]
    {
      checkpoints, badBlocks, lastHeight := map[], map[], 0;
      new;
      for i := 0 to |list|
        invariant Valid() && checkpoints == Table(list[..i]) && badBlocks == map[]
      {
        assert list[..i + 1][..i] == list[..i];
        checkpoints := checkpoints[list[i].height := list[i].hash];
        if list[i].height > lastHeight { lastHeight := list[i].height; }
      }
      assert list[..|list|] == list;
    }

    /** A block fails when it is the blacklisted one of its height, or is not the expected one. */
    method ValidateCheckpoint(height: nat, hash: Hash) returns (o: Outcome)
      ensures o == if CheckpointOk(Rules(), height, hash) then Done else Failed(CheckpointMismatch)
      ensures o == Done <==> (height in badBlocks ==> badBlocks[height] != hash)
                             && (height in checkpoints ==> checkpoints[height] == hash)
    {
      if height in badBlocks {
        if hash == badBlocks[height] { return Failed(CheckpointMismatch); }
      }
      if height in checkpoints {
        if hash != checkpoints[height] { return Failed(CheckpointMismatch); }
      }
      o := Done;
    }

    /** Keeps a running maximum over the table, in whatever order it is visited.  A checkpoint at
        height 0 never beats the initial 0, so it is never found. */
    method GetNearestCheckpoint(height: nat) returns (nearest: nat, hash: Hash, found: bool)
      ensures nearest == NearestBelow(checkpoints, height)
      ensures found <==> exists h :: 0 < h <= height && h in checkpoints
      ensures found ==> nearest in checkpoints && hash == checkpoints[nearest]
      ensures !found ==> nearest == 0 && hash == ZERO_HASH
    {
      nearest, hash, found := 0, ZERO_HASH, false;
      var todo := checkpoints.Keys;
      while todo != {}
        invariant todo <= checkpoints.Keys
        invariant nearest <= height && (found <==> nearest > 0)
        invariant found ==> nearest in checkpoints && hash == checkpoints[nearest]
        invariant !found ==> hash == ZERO_HASH
        invariant forall h :: h in checkpoints && h !in todo && h <= height ==> h <= nearest
        decreases |todo|
      {
        var h := KeyOrder.Min(todo);
        if h <= height && h > nearest {
          nearest, hash, found := h, checkpoints[h], true;
        }
        todo := todo - {h};
      }
      NearestIsUnique(checkpoints, height, nearest);
    }

    /** The height of the highest checkpoint, and 0 without one. */
    method GetLastCheckpointHeight() returns (height: nat)
      requires Valid()
      ensures forall h :: h in checkpoints ==> h <= height
      ensures height > 0 ==> height in checkpoints
    {
      height := lastHeight;
    }

    /** Checks the stored chain against every checkpoint, from the lowest up to the last one. */
    method ValidateChainCheckpoints(db: Store, best: nat) returns (o: Outcome, at: nat)
      requires Valid()
      ensures o == Done <==> Agrees(checkpoints, db, best)
      ensures o != Done ==> o == Failed(CheckpointMismatch)
      ensures o != Done ==> at in checkpoints && at <= best && GetHash(db, at).Some?
                            && GetHash(db, at).value != checkpoints[at]
      ensures o != Done ==> forall h :: h in checkpoints && h < at && h in db.heightToHash ==>
                              db.heightToHash[h] == checkpoints[h]
    {
      at := 0;
      var last := GetLastCheckpointHeight();
      while at <= last
        invariant at <= last + 1
        invariant forall h :: h in checkpoints && h < at && h <= best && h in db.heightToHash ==>
                    db.heightToHash[h] == checkpoints[h]
      {
        if at in checkpoints && at <= best && at in db.heightToHash {
          if db.heightToHash[at] != checkpoints[at] { return Failed(CheckpointMismatch), at; }
        }
        at := at + 1;
      }
      o := Done;
    }
  }
}
