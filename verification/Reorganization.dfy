/** The path computation behind a reorganization: where two branches part, and how they get there.

    The loops of the program walk from parent to parent without a bound; they end exactly when the walk
    stops after some number of steps, and that number is handed to the model. */
module Reorganization {
  import opened Types
  import opened Storage
  import opened Chain
  import opened ChainSpec
  import opened Represent
  import opened Reachable
  import opened Runs
  import opened Guarantees
  import opened RecoveryProofs
  import Blockchain

  predicate OnMain(index: map<Hash, BlockNode>, hash: Hash) {
    hash in index && index[hash].status == Connected
  }

  // ---------- the two paths ----------

  /** The walk up to the main chain stops within `n` steps. */
  ghost predicate NewStops(db: Store, index: map<Hash, BlockNode>, hash: Hash, n: nat)
    decreases n
  {
    || hash == ZERO_HASH || GetBlock(db, hash).None? || OnMain(index, hash)
    || (n > 0 && NewStops(db, index, GetBlock(db, hash).value.prev, n - 1))
  }

  /** From a block down to the first one on the main chain: that block, and the blocks above it, lowest first. */
  ghost function NewPath(db: Store, index: map<Hash, BlockNode>, hash: Hash, n: nat): Result<(Hash, seq<Block>)>
    requires NewStops(db, index, hash, n)
    decreases n
  {
    if hash == ZERO_HASH then Err(NoCommonAncestor)
    else
      match GetBlock(db, hash)
      case None => Err(BlockNotFound)
      case Some(b) =>
        if OnMain(index, hash) then Ok((hash, []))
        else
          var (fork, below) :- NewPath(db, index, b.prev, n - 1);
          Ok((fork, below + [b]))
  }

  /** The walk down to `fork` stops within `n` steps. */
  ghost predicate OldStops(db: Store, hash: Hash, fork: Hash, n: nat)
    decreases n
  {
    hash == fork || GetBlock(db, hash).None? || (n > 0 && OldStops(db, GetBlock(db, hash).value.prev, fork, n - 1))
  }

  /** From a block down to, not including, `fork`: the blocks on the way, highest first. */
  ghost function OldPath(db: Store, hash: Hash, fork: Hash, n: nat): Result<seq<Block>>
    requires OldStops(db, hash, fork, n)
    decreases n
  {
    if hash == fork then Ok([])
    else
      match GetBlock(db, hash)
      case None => Err(BlockNotFound)
      case Some(b) =>
        var rest :- OldPath(db, b.prev, fork, n - 1);
        Ok([b] + rest)
  }

  datatype Paths = Paths(fork: Hash, oldBlocks: seq<Block>, newBlocks: seq<Block>)

  /** The search ends: both walks stop within `n` steps. */
  ghost predicate Stops(s: ChainState, newTip: Hash, n: nat) {
    && NewStops(s.db, s.blockIndex, newTip, n)
    && (NewPath(s.db, s.blockIndex, newTip, n).Ok? ==>
          OldStops(s.db, s.bestHash, NewPath(s.db, s.blockIndex, newTip, n).value.0, n))
  }

  ghost function ForkPaths(s: ChainState, newTip: Hash, n: nat): Result<Paths>
    requires Stops(s, newTip, n)
  {
    var (fork, above) :- NewPath(s.db, s.blockIndex, newTip, n);
    var down :- OldPath(s.db, s.bestHash, fork, n);
    Ok(Paths(fork, down, above))
  }

  /** Walks up from the new tip, then from the current one. */
  method FindForkPoint(bc: Blockchain.BlockChain, newTip: Hash, ghost n: nat) returns (r: Result<Paths>)
    requires Stops(bc.State(), newTip, n)
    ensures r == ForkPaths(bc.State(), newTip, n)
  {
    hide GetBlock;
    var newChain: seq<Block> := [];
    var current := newTip;
    ghost var left := n;
    ghost var whole := NewPath(bc.db, bc.blockIndex, newTip, n);
    assert whole.Ok? ==> whole.value.1 + [] == whole.value.1;
    while current != ZERO_HASH
      invariant NewStops(bc.db, bc.blockIndex, current, left)
      invariant var rest := NewPath(bc.db, bc.blockIndex, current, left);
                whole == if rest.Err? then rest else Ok((rest.value.0, rest.value.1 + newChain))
      decreases left
    {
      var block := GetBlock(bc.db, current);
      if block.None? { return Err(BlockNotFound); }
      if current in bc.blockIndex && bc.blockIndex[current].status == Connected {
        var fork := current;
        assert whole == Ok((fork, [] + newChain)) && [] + newChain == newChain;
        var oldChain := OldBlocks(bc, fork, n);
        if oldChain.Err? { return Err(oldChain.error); }
        return Ok(Paths(fork, oldChain.value, newChain));
      }
      ghost var rest := NewPath(bc.db, bc.blockIndex, block.value.prev, left - 1);
      assert rest.Ok? ==> rest.value.1 + [block.value] + newChain == rest.value.1 + ([block.value] + newChain);
      newChain := [block.value] + newChain;
      current := block.value.prev;
      left := left - 1;
    }
    r := Err(NoCommonAncestor);
  }

  method OldBlocks(bc: Blockchain.BlockChain, fork: Hash, ghost n: nat) returns (r: Result<seq<Block>>)
    requires OldStops(bc.db, bc.bestHash, fork, n)
    ensures r == OldPath(bc.db, bc.bestHash, fork, n)
  {
    hide GetBlock;
    var oldChain: seq<Block> := [];
    var current := bc.bestHash;
    ghost var left := n;
    ghost var whole := OldPath(bc.db, current, fork, n);
    assert whole.Ok? ==> [] + whole.value == whole.value;
    while current != fork
      invariant OldStops(bc.db, current, fork, left)
      invariant var rest := OldPath(bc.db, current, fork, left);
                whole == if rest.Err? then rest else Ok(oldChain + rest.value)
      decreases left
    {
      var block := GetBlock(bc.db, current);
      if block.None? { return Err(BlockNotFound); }
      ghost var rest := OldPath(bc.db, block.value.prev, fork, left - 1);
      assert rest.Ok? ==> oldChain + ([block.value] + rest.value) == oldChain + [block.value] + rest.value;
      oldChain := oldChain + [block.value];
      current := block.value.prev;
      left := left - 1;
    }
    assert oldChain + [] == oldChain;
    r := Ok(oldChain);
  }

  // ---------- what the paths are ----------

  /** `a` is `x` or one of its ancestors. */
  ghost predicate AncestorOrSelf(db: Store, a: Hash, x: Hash) {
    exists k: nat :: Ancestor(db, x, k) == Some(a)
  }

  lemma {:induction false} AncestorOfAncestor(db: Store, hash: Hash, a: nat, b: nat)
    requires Ancestor(db, hash, a).Some?
    ensures Ancestor(db, hash, a + b) == Ancestor(db, Ancestor(db, hash, a).value, b)
    decreases b
  {
    hide GetBlock;
    if b > 0 {
      AncestorOfAncestor(db, hash, a, b - 1);
    } else {
      assert Ancestor(db, Ancestor(db, hash, a).value, 0) == Some(Ancestor(db, hash, a).value);
    }
  }

  /** These are the blocks from `tip` down, lowest first, and `fork` is the parent of the lowest. */
  ghost predicate Ascends(db: Store, fork: Hash, blocks: seq<Block>, tip: Hash) {
    && Ancestor(db, tip, |blocks|) == Some(fork)
    && forall k: nat :: k < |blocks| ==>
         Ancestor(db, tip, k).Some? && GetBlock(db, Ancestor(db, tip, k).value) == Some(blocks[|blocks| - 1 - k])
  }

  /** These are the blocks from `tip` down, highest first, and `fork` is the parent of the lowest. */
  ghost predicate Descends(db: Store, tip: Hash, blocks: seq<Block>, fork: Hash) {
    && Ancestor(db, tip, |blocks|) == Some(fork)
    && forall k: nat :: k < |blocks| ==>
         Ancestor(db, tip, k).Some? && GetBlock(db, Ancestor(db, tip, k).value) == Some(blocks[k])
  }

  lemma AscendsFurther(db: Store, fork: Hash, below: seq<Block>, b: Block)
    requires GetBlock(db, b.hash) == Some(b) && Ascends(db, fork, below, b.prev)
    ensures Ascends(db, fork, below + [b], b.hash)
  {
    hide GetBlock, Ancestor;
    ItselfAncestor(db, b.hash);
    AncestorOfParent(db, b.hash, |below|);
    forall k: nat | k < |below| + 1
      ensures Ancestor(db, b.hash, k).Some?
      ensures GetBlock(db, Ancestor(db, b.hash, k).value) == Some((below + [b])[|below| - k])
    {
      if k > 0 { AncestorOfParent(db, b.hash, k - 1); }
    }
  }

  lemma ItselfAncestor(db: Store, hash: Hash)
    ensures Ancestor(db, hash, 0) == Some(hash)
  {
  }

  lemma DescendsFurther(db: Store, b: Block, rest: seq<Block>, fork: Hash)
    requires GetBlock(db, b.hash) == Some(b) && Descends(db, b.prev, rest, fork)
    ensures Descends(db, b.hash, [b] + rest, fork)
  {
    hide GetBlock, Ancestor;
    ItselfAncestor(db, b.hash);
    AncestorOfParent(db, b.hash, |rest|);
    forall k: nat | k < |rest| + 1
      ensures Ancestor(db, b.hash, k).Some? && GetBlock(db, Ancestor(db, b.hash, k).value) == Some(([b] + rest)[k])
    {
      if k > 0 { AncestorOfParent(db, b.hash, k - 1); }
    }
  }

  lemma ReadHash(db: Store, hash: Hash)
    requires GetBlock(db, hash).Some?
    ensures GetBlock(db, hash).value.hash == hash
  {
  }

  lemma {:induction false} NewPathAscends(db: Store, index: map<Hash, BlockNode>, hash: Hash, n: nat)
    requires NewStops(db, index, hash, n) && NewPath(db, index, hash, n).Ok?
    ensures var (fork, blocks) := NewPath(db, index, hash, n).value;
            && fork != ZERO_HASH && OnMain(index, fork)
            && Ascends(db, fork, blocks, hash)
            && (forall i :: 0 <= i < |blocks| ==> !OnMain(index, blocks[i].hash))
    decreases n
  {
    hide GetBlock, Ascends;
    if OnMain(index, hash) {
      AscendsNothing(db, hash);
    } else {
      var b := GetBlock(db, hash).value;
      ReadHash(db, hash);
      NewPathAscends(db, index, b.prev, n - 1);
      AscendsFurther(db, NewPath(db, index, b.prev, n - 1).value.0, NewPath(db, index, b.prev, n - 1).value.1, b);
    }
  }

  lemma AscendsNothing(db: Store, hash: Hash)
    ensures Ascends(db, hash, [], hash) && Descends(db, hash, [], hash)
  {
  }

  lemma {:induction false} OldPathDescends(db: Store, hash: Hash, fork: Hash, n: nat)
    requires OldStops(db, hash, fork, n)
    ensures OldPath(db, hash, fork, n).Ok? ==> Descends(db, hash, OldPath(db, hash, fork, n).value, fork)
    ensures OldPath(db, hash, fork, n).Ok? <==> AncestorOrSelf(db, fork, hash)
    decreases n
  {
    hide GetBlock, Descends, Ancestor;
    ItselfAncestor(db, hash);
    if hash == fork {
      AscendsNothing(db, hash);
    } else if GetBlock(db, hash).Some? {
      var b := GetBlock(db, hash).value;
      ReadHash(db, hash);
      OldPathDescends(db, b.prev, fork, n - 1);
      if OldPath(db, b.prev, fork, n - 1).Ok? { DescendsFurther(db, b, OldPath(db, b.prev, fork, n - 1).value, fork); }
      AncestorBelow(db, hash, fork);
    } else {
      NoAncestors(db, hash, fork);
    }
  }

  lemma AncestorBelow(db: Store, hash: Hash, fork: Hash)
    requires GetBlock(db, hash).Some? && hash != fork
    ensures AncestorOrSelf(db, fork, hash) <==> AncestorOrSelf(db, fork, GetBlock(db, hash).value.prev)
  {
    hide GetBlock, Ancestor;
    ItselfAncestor(db, hash);
    if AncestorOrSelf(db, fork, hash) {
      var k: nat :| Ancestor(db, hash, k) == Some(fork);
      assert k > 0;
      AncestorOfParent(db, hash, k - 1);
    }
    if AncestorOrSelf(db, fork, GetBlock(db, hash).value.prev) {
      var k: nat :| Ancestor(db, GetBlock(db, hash).value.prev, k) == Some(fork);
      AncestorOfParent(db, hash, k);
    }
  }

  lemma {:induction false} NoneAbove(db: Store, hash: Hash, k: nat)
    requires GetBlock(db, hash).None? && k > 0
    ensures Ancestor(db, hash, k).None?
  {
    hide GetBlock;
    ItselfAncestor(db, hash);
    if k > 1 { NoneAbove(db, hash, k - 1); } else { assert Ancestor(db, hash, 1).None?; }
  }

  lemma NoAncestors(db: Store, hash: Hash, fork: Hash)
    requires GetBlock(db, hash).None? && hash != fork
    ensures !AncestorOrSelf(db, fork, hash)
  {
    hide GetBlock, Ancestor;
    forall k: nat ensures Ancestor(db, hash, k) != Some(fork) {
      if k > 0 { NoneAbove(db, hash, k); } else { ItselfAncestor(db, hash); }
    }
  }

  /** What is found is a common ancestor on the main chain, with the linked ways up to the new tip and
      down from the current one; no block on the way up is on the main chain. */
  lemma ForkIsCommonAncestor(s: ChainState, newTip: Hash, n: nat)
    requires Stops(s, newTip, n) && ForkPaths(s, newTip, n).Ok?
    ensures var p := ForkPaths(s, newTip, n).value;
            && p.fork != ZERO_HASH && OnMain(s.blockIndex, p.fork)
            && Ascends(s.db, p.fork, p.newBlocks, newTip)
            && Descends(s.db, s.bestHash, p.oldBlocks, p.fork)
            && (forall i :: 0 <= i < |p.newBlocks| ==> !OnMain(s.blockIndex, p.newBlocks[i].hash))
  {
    hide GetBlock, Ascends, Descends;
    NewPathAscends(s.db, s.blockIndex, newTip, n);
    OldPathDescends(s.db, s.bestHash, ForkPaths(s, newTip, n).value.fork, n);
  }

  /** Connected marks exactly the current tip and its ancestors. */
  ghost predicate MarksMain(s: ChainState) {
    forall x :: x != ZERO_HASH ==> (OnMain(s.blockIndex, x) <==> AncestorOrSelf(s.db, x, s.bestHash))
  }

  /** Both the new tip and the current one descend from, or are, this block. */
  ghost predicate CommonAncestor(s: ChainState, newTip: Hash, c: Hash) {
    c != ZERO_HASH && AncestorOrSelf(s.db, c, newTip) && AncestorOrSelf(s.db, c, s.bestHash)
  }

  lemma CommonIsBelowFork(s: ChainState, c: Hash, newTip: Hash, fork: Hash, blocks: seq<Block>)
    requires MarksMain(s) && Ascends(s.db, fork, blocks, newTip) && CommonAncestor(s, newTip, c)
    requires forall i :: 0 <= i < |blocks| ==> !OnMain(s.blockIndex, blocks[i].hash)
    ensures AncestorOrSelf(s.db, c, fork)
  {
    hide GetBlock, Ancestor, OnMain;
    forall k: nat | k < |blocks| ensures Ancestor(s.db, newTip, k) != Some(c) {
      ReadHash(s.db, Ancestor(s.db, newTip, k).value);
      assert !OnMain(s.blockIndex, blocks[|blocks| - 1 - k].hash);
    }
    var k: nat :| Ancestor(s.db, newTip, k) == Some(c);
    AncestorOfAncestor(s.db, newTip, |blocks|, k - |blocks|);
  }

  /** When Connected marks exactly the main chain, the search fails only if the new branch does not reach
      it, and the fork is the highest common ancestor: every other one lies below it. */
  lemma ForkIsHighest(s: ChainState, newTip: Hash, n: nat)
    requires Stops(s, newTip, n) && MarksMain(s)
    ensures ForkPaths(s, newTip, n).Ok? <==> NewPath(s.db, s.blockIndex, newTip, n).Ok?
    ensures ForkPaths(s, newTip, n).Ok? ==>
              forall c :: CommonAncestor(s, newTip, c) ==> AncestorOrSelf(s.db, c, ForkPaths(s, newTip, n).value.fork)
  {
    hide GetBlock, AncestorOrSelf, Ascends, Descends;
    var way := NewPath(s.db, s.blockIndex, newTip, n);
    if way.Ok? {
      NewPathAscends(s.db, s.blockIndex, newTip, n);
      OldPathDescends(s.db, s.bestHash, way.value.0, n);
      forall c | CommonAncestor(s, newTip, c) ensures AncestorOrSelf(s.db, c, way.value.0) {
        CommonIsBelowFork(s, c, newTip, way.value.0, way.value.1);
      }
    }
  }

  // ---------- the height of the new tip ----------

  datatype ReorgInfo = ReorgInfo(fork: Hash, oldTip: Hash, newTip: Hash, oldHeight: nat, newHeight: nat,
                                 toDisconnect: nat, toConnect: nat)

  ghost function ReorgOf(s: ChainState, newTip: Hash, n: nat): Result<ReorgInfo>
    requires Stops(s, newTip, n)
  {
    var p :- ForkPaths(s, newTip, n);
    if p.fork !in s.db.hashToHeight then Err(BlockNotFound)
    else Ok(ReorgInfo(p.fork, s.bestHash, newTip, s.bestHeight, s.db.hashToHeight[p.fork] + |p.newBlocks|,
        |p.oldBlocks|, |p.newBlocks|))
  }

  method GetReorgInfo(bc: Blockchain.BlockChain, newTip: Hash, ghost n: nat) returns (r: Result<ReorgInfo>)
    requires Stops(bc.State(), newTip, n)
    ensures r == ReorgOf(bc.State(), newTip, n)
  {
    hide Stops;
    var p := FindForkPoint(bc, newTip, n);
    if p.Err? { return Err(p.error); }
    if p.value.fork !in bc.db.hashToHeight { return Err(BlockNotFound); }
    var height := bc.db.hashToHeight[p.value.fork] + |p.value.newBlocks|;
    r := Ok(ReorgInfo(p.value.fork, bc.bestHash, newTip, bc.bestHeight, height, |p.value.oldBlocks|,
        |p.value.newBlocks|));
  }

  /** The block is `d` parents above one without a parent. */
  ghost predicate HasDepth(db: Store, hash: Hash, d: nat) {
    Ancestor(db, hash, d).Some? && Ancestor(db, hash, d + 1) == Some(ZERO_HASH)
  }

  /** The announced height of the new tip is its true height exactly when the stored height of the fork is
      the fork's true height. */
  lemma NewHeightIsTrue(s: ChainState, newTip: Hash, n: nat)
    requires Stops(s, newTip, n) && ReorgOf(s, newTip, n).Ok?
    ensures var info := ReorgOf(s, newTip, n).value;
            && info.fork in s.db.hashToHeight
            && (HasDepth(s.db, newTip, info.newHeight) <==> HasDepth(s.db, info.fork, s.db.hashToHeight[info.fork]))
  {
    hide GetBlock, Ancestor, Descends;
    ForkIsCommonAncestor(s, newTip, n);
    var p := ForkPaths(s, newTip, n).value;
    AncestorOfAncestor(s.db, newTip, |p.newBlocks|, s.db.hashToHeight[p.fork]);
    AncestorOfAncestor(s.db, newTip, |p.newBlocks|, s.db.hashToHeight[p.fork] + 1);
  }

  // ---------- on the chain of a reachable state ----------

  lemma ChainStep(s: ChainState, chain: seq<Block>, i: nat)
    requires Represents(s, chain) && i < |chain|
    ensures chain[i].hash != ZERO_HASH && GetBlock(s.db, chain[i].hash) == Some(chain[i])
    ensures chain[i].hash in s.db.hashToHeight && s.db.hashToHeight[chain[i].hash] == i
    ensures chain[i].prev == if i > 0 then chain[i - 1].hash else ZERO_HASH
    ensures OnMain(s.blockIndex, chain[i].hash) <==> chain[i].hash in s.blockIndex
    ensures s.bestHash == chain[|chain| - 1].hash && s.bestHeight == |chain| - 1
  {
    hide Holds, TipOk, GetBlock, Rooted;
    ChainBlockReadable(s.db, chain, i);
    HeightSits(s.db, chain, i);
    GenesisHasNoParent(s.db, chain);
  }

  lemma NothingElseStored(s: ChainState, chain: seq<Block>, hash: Hash)
    requires Represents(s, chain) && GetBlock(s.db, hash).Some?
    ensures exists i :: 0 <= i < |chain| && chain[i].hash == hash
  {
    hide CachesOk, TipOk, Build;
    OnlyTheseHeights(s.db, chain);
    assert chain[s.db.hashToHeight[hash]].hash == hash;
  }

  lemma NoBlockZero(s: ChainState, chain: seq<Block>)
    requires Represents(s, chain)
    ensures GetBlock(s.db, ZERO_HASH).None?
  {
    hide Represents, GetBlock;
    if GetBlock(s.db, ZERO_HASH).Some? {
      NothingElseStored(s, chain, ZERO_HASH);
      var i :| 0 <= i < |chain| && chain[i].hash == ZERO_HASH;
      ChainStep(s, chain, i);
    }
  }

  lemma {:induction false} NewStopsOnChain(s: ChainState, chain: seq<Block>, i: nat, n: nat)
    requires Represents(s, chain) && i < |chain| && i < n
    ensures NewStops(s.db, s.blockIndex, chain[i].hash, n)
    decreases i
  {
    hide Represents, GetBlock, OnMain;
    ChainStep(s, chain, i);
    if i > 0 { NewStopsOnChain(s, chain, i - 1, n - 1); }
  }

  lemma {:induction false} OldStopsOnChain(s: ChainState, chain: seq<Block>, i: nat, fork: Hash, n: nat)
    requires Represents(s, chain) && i < |chain| && i < n
    ensures OldStops(s.db, chain[i].hash, fork, n)
    decreases i
  {
    hide Represents, GetBlock;
    ChainStep(s, chain, i);
    NoBlockZero(s, chain);
    if i > 0 { OldStopsOnChain(s, chain, i - 1, fork, n - 1); }
  }

  /** On a reachable state the search ends for every hash. */
  lemma WalksStop(s: ChainState, chain: seq<Block>, newTip: Hash)
    requires Represents(s, chain)
    ensures Stops(s, newTip, |chain|)
  {
    hide Represents, GetBlock, NewStops, OldStops;
    if GetBlock(s.db, newTip).Some? {
      NothingElseStored(s, chain, newTip);
      var i :| 0 <= i < |chain| && chain[i].hash == newTip;
      NewStopsOnChain(s, chain, i, |chain|);
    } else {
      StopsUnread(s, newTip, |chain|);
    }
    var top := NothingEmpty(s, chain);
    ChainStep(s, chain, top);
    if NewPath(s.db, s.blockIndex, newTip, |chain|).Ok? {
      OldStopsOnChain(s, chain, top, NewPath(s.db, s.blockIndex, newTip, |chain|).value.0, |chain|);
    }
  }

  lemma NothingEmpty(s: ChainState, chain: seq<Block>) returns (top: nat)
    requires Represents(s, chain)
    ensures top == |chain| - 1
  {
    hide CachesOk, TipOk;
    top := |chain| - 1;
  }

  lemma StopsUnread(s: ChainState, hash: Hash, n: nat)
    requires GetBlock(s.db, hash).None?
    ensures NewStops(s.db, s.blockIndex, hash, n)
  {
  }

  /** The highest indexed block at or below height `i`. */
  function HighestIndexed(index: map<Hash, BlockNode>, chain: seq<Block>, i: nat): (j: Option<nat>)
    requires i < |chain|
    ensures j.Some? ==> j.value <= i && chain[j.value].hash in index
    ensures forall k :: (if j.Some? then j.value else -1) < k <= i ==> chain[k].hash !in index
  {
    if chain[i].hash in index then Some(i)
    else if i == 0 then None
    else HighestIndexed(index, chain, i - 1)
  }

  lemma NewPathHere(db: Store, index: map<Hash, BlockNode>, hash: Hash, n: nat)
    requires NewStops(db, index, hash, n) && hash != ZERO_HASH && GetBlock(db, hash).Some? && OnMain(index, hash)
    ensures NewPath(db, index, hash, n) == Ok((hash, []))
  {
    hide GetBlock, OnMain;
  }

  lemma NewPathStep(db: Store, index: map<Hash, BlockNode>, hash: Hash, n: nat)
    requires NewStops(db, index, hash, n) && hash != ZERO_HASH && GetBlock(db, hash).Some? && !OnMain(index, hash)
    ensures var b := GetBlock(db, hash).value;
            && n > 0 && NewStops(db, index, b.prev, n - 1)
            && NewPath(db, index, hash, n)
               == match NewPath(db, index, b.prev, n - 1)
                  case Err(e) => Err(e)
                  case Ok(p) => Ok((p.0, p.1 + [b]))
  {
    hide GetBlock, OnMain;
  }

  lemma NewPathFromGenesis(db: Store, index: map<Hash, BlockNode>, n: nat)
    requires NewStops(db, index, ZERO_HASH, n)
    ensures NewPath(db, index, ZERO_HASH, n) == Err(NoCommonAncestor)
  {
    hide GetBlock, OnMain;
  }

  lemma {:induction false} NewPathOnChain(s: ChainState, chain: seq<Block>, i: nat, n: nat)
    requires Represents(s, chain) && i < |chain| && NewStops(s.db, s.blockIndex, chain[i].hash, n)
    ensures var j := HighestIndexed(s.blockIndex, chain, i);
            NewPath(s.db, s.blockIndex, chain[i].hash, n)
            == if j.Some? then Ok((chain[j.value].hash, chain[j.value + 1..i + 1])) else Err(NoCommonAncestor)
    decreases i
  {
    hide Represents, GetBlock, OnMain, NewPath, NewStops;
    ChainStep(s, chain, i);
    if chain[i].hash in s.blockIndex {
      NewPathHere(s.db, s.blockIndex, chain[i].hash, n);
      assert chain[i + 1..i + 1] == [];
    } else {
      NewPathStep(s.db, s.blockIndex, chain[i].hash, n);
      if i > 0 {
        NewPathOnChain(s, chain, i - 1, n - 1);
        var j := HighestIndexed(s.blockIndex, chain, i - 1);
        if j.Some? { assert chain[j.value + 1..i] + [chain[i]] == chain[j.value + 1..i + 1]; }
      } else {
        NewPathFromGenesis(s.db, s.blockIndex, n - 1);
      }
    }
  }

  lemma {:induction false} OldPathOnChain(s: ChainState, chain: seq<Block>, i: nat, j: nat, n: nat)
    requires Represents(s, chain) && j <= i < |chain| && OldStops(s.db, chain[i].hash, chain[j].hash, n)
    ensures var r := OldPath(s.db, chain[i].hash, chain[j].hash, n);
            r.Ok? && |r.value| == i - j && forall k :: 0 <= k < i - j ==> r.value[k] == chain[i - k]
    decreases i
  {
    hide Represents, GetBlock;
    ChainStep(s, chain, i);
    ChainStep(s, chain, j);
    if j < i {
      assert chain[i].hash != chain[j].hash;
      OldPathOnChain(s, chain, i - 1, j, n - 1);
    }
  }

  /** On a reachable state the search for a block of the chain, at height `i`, finds the highest indexed
      block at or below it, announces height `i` and the true lengths of both ways, and fails exactly when
      nothing at or below it is indexed. */
  lemma ReorgOnChain(s: ChainState, chain: seq<Block>, i: nat)
    requires Represents(s, chain) && i < |chain|
    ensures Stops(s, chain[i].hash, |chain|)
    ensures var j := HighestIndexed(s.blockIndex, chain, i);
            ReorgOf(s, chain[i].hash, |chain|)
            == if j.None? then Err(NoCommonAncestor)
               else Ok(ReorgInfo(chain[j.value].hash, s.bestHash, chain[i].hash, s.bestHeight, i,
                                 s.bestHeight - j.value, i - j.value))
  {
    hide Represents, GetBlock, NewPath, OldPath, NewStops, OldStops;
    WalksStop(s, chain, chain[i].hash);
    NewPathOnChain(s, chain, i, |chain|);
    var j := HighestIndexed(s.blockIndex, chain, i);
    if j.Some? {
      ChainStep(s, chain, j.value);
      OldPathOnChain(s, chain, |chain| - 1, j.value, |chain|);
    }
  }

  lemma {:induction false} AncestorsOnChain(s: ChainState, chain: seq<Block>, i: nat, k: nat)
    requires Represents(s, chain) && i < |chain|
    ensures k <= i ==> Ancestor(s.db, chain[i].hash, k) == Some(chain[i - k].hash)
    ensures k > i ==> Ancestor(s.db, chain[i].hash, k) in {None, Some(ZERO_HASH)}
    decreases k
  {
    hide Represents, GetBlock;
    if k == 0 {
      ItselfAncestor(s.db, chain[i].hash);
    } else {
      AncestorsOnChain(s, chain, i, k - 1);
      NoBlockZero(s, chain);
      if k - 1 <= i { ChainStep(s, chain, i - (k - 1)); }
    }
  }

  lemma AncestorsAreBelow(s: ChainState, chain: seq<Block>, x: Hash)
    requires Represents(s, chain) && x != ZERO_HASH
    ensures AncestorOrSelf(s.db, x, s.bestHash) <==> exists i :: 0 <= i < |chain| && chain[i].hash == x
  {
    hide Represents, Ancestor;
    var top := NothingEmpty(s, chain);
    ChainStep(s, chain, top);
    if AncestorOrSelf(s.db, x, s.bestHash) {
      var k: nat :| Ancestor(s.db, s.bestHash, k) == Some(x);
      AncestorsOnChain(s, chain, top, k);
      assert chain[top - k].hash == x;
    }
    if i :| 0 <= i < |chain| && chain[i].hash == x {
      AncestorsOnChain(s, chain, top, top - i);
    }
  }

  /** On a reachable state Connected marks exactly the main chain exactly when genesis is indexed. */
  lemma MarksMainExactly(s: ChainState, chain: seq<Block>)
    requires Represents(s, chain)
    ensures chain != [] && (MarksMain(s) <==> chain[0].hash in s.blockIndex)
  {
    hide Represents, AncestorOrSelf;
    var top := NothingEmpty(s, chain);
    forall x | x != ZERO_HASH
      ensures AncestorOrSelf(s.db, x, s.bestHash) <==> exists i :: 0 <= i < |chain| && chain[i].hash == x
    {
      AncestorsAreBelow(s, chain, x);
    }
    forall i | 0 <= i < |chain|
      ensures chain[i].hash != ZERO_HASH && (OnMain(s.blockIndex, chain[i].hash) <==> chain[i].hash in s.blockIndex)
    {
      ChainStep(s, chain, i);
    }
    IndexedAreOnChain(s, chain);
    IndexedUp(s, chain, 0);
  }

  lemma IndexedUp(s: ChainState, chain: seq<Block>, i: nat)
    requires Represents(s, chain) && i < |chain|
    ensures chain[i].hash in s.blockIndex ==> forall j :: i <= j < |chain| ==> chain[j].hash in s.blockIndex
  {
    hide Holds, CachesOk, TipOk;
  }

  lemma IndexedAreOnChain(s: ChainState, chain: seq<Block>)
    requires Represents(s, chain)
    ensures forall x :: x in s.blockIndex ==> exists i :: 0 <= i < |chain| && chain[i].hash == x
  {
    hide TipOk, Build;
    OnlyTheseHeights(s.db, chain);
    forall x | x in s.blockIndex ensures exists i :: 0 <= i < |chain| && chain[i].hash == x {
      assert chain[s.db.hashToHeight[x]].hash == x;
    }
  }

  /** After a restart above genesis only the tip is indexed: Connected no longer marks the main chain, and
      the search for any block below the tip finds no common ancestor. */
  lemma RestartForgetsMain(env: Env, s: ChainState, chain: seq<Block>, genesis: Block, i: nat)
    requires Represents(s, chain) && env.genesisHash == chain[0].hash && i < |chain| - 1
    ensures var s1 := LoadChainState(env, Unloaded(s.db), genesis).1;
            && Represents(s1, chain) && !MarksMain(s1)
            && Stops(s1, chain[i].hash, |chain|)
            && ReorgOf(s1, chain[i].hash, |chain|) == Err(NoCommonAncestor)
  {
    hide Represents, MarksMain, ReorgOf, Stops, GetBlock;
    RestartFindsChain(env, s, chain, genesis);
    var s1 := LoadChainState(env, Unloaded(s.db), genesis).1;
    OnlyTipIndexed(env, s, chain, genesis);
    MarksMainExactly(s1, chain);
    forall k | 0 <= k <= i ensures chain[k].hash !in s1.blockIndex {
      ChainStep(s1, chain, k);
      ChainStep(s1, chain, |chain| - 1);
    }
    ReorgOnChain(s1, chain, i);
  }

  lemma OnlyTipIndexed(env: Env, s: ChainState, chain: seq<Block>, genesis: Block)
    requires Represents(s, chain) && env.genesisHash == chain[0].hash && |chain| > 1
    ensures LoadChainState(env, Unloaded(s.db), genesis).1.blockIndex.Keys == {chain[|chain| - 1].hash}
  {
    hide Holds, CachesOk, GetBlock, InitializeGenesis;
    ChainBlockReadable(s.db, chain, 0);
    ChainBlockReadable(s.db, chain, |chain| - 1);
  }

  // ---------- is a reorganization needed ----------

  function ReorgNeeded(s: ChainState, hash: Hash): Result<bool> {
    if hash !in s.blockIndex then Err(BlockNotFound)
    else if s.bestHash !in s.blockIndex then Ok(true)
    else Ok(s.blockIndex[hash].work > s.blockIndex[s.bestHash].work)
  }

  method CheckReorgNeeded(bc: Blockchain.BlockChain, b: Block) returns (r: Result<bool>)
    ensures r == ReorgNeeded(bc.State(), b.hash)
    ensures r.Ok? <==> b.hash in bc.blockIndex
    ensures r.Ok? ==> (r.value <==> bc.bestHash in bc.blockIndex ==>
                                      bc.blockIndex[b.hash].work > bc.blockIndex[bc.bestHash].work)
  {
    if b.hash !in bc.blockIndex { return Err(BlockNotFound); }
    if bc.bestHash !in bc.blockIndex { return Ok(true); }
    r := Ok(bc.blockIndex[b.hash].work > bc.blockIndex[bc.bestHash].work);
  }

  /** No block of a reachable state calls for a reorganization. */
  lemma TipIsNeverBeaten(s: ChainState, chain: seq<Block>, hash: Hash)
    requires Represents(s, chain)
    ensures ReorgNeeded(s, hash) == if hash in s.blockIndex then Ok(false) else Err(BlockNotFound)
  {
    hide Represents, WorkIsHeight, LookupsAgree;
    if hash in s.blockIndex {
      IndexedAreOnChain(s, chain);
      var i :| 0 <= i < |chain| && chain[i].hash == hash;
      IndexedUp(s, chain, i);
      ChainStep(s, chain, |chain| - 1);
      WorkOnChain(s, chain, i);
      WorkOnChain(s, chain, |chain| - 1);
    }
  }

  lemma WorkOnChain(s: ChainState, chain: seq<Block>, i: nat)
    requires Represents(s, chain) && i < |chain| && chain[i].hash in s.blockIndex
    ensures s.blockIndex[chain[i].hash].work == i
  {
    hide Holds, TipOk, Rooted;
    ChainBlockReadable(s.db, chain, i);
  }
}
