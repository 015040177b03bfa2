/** Blocks marked invalid by hand: the nearest valid ancestor on any parent graph, the marking of
    descendants, and checkpoints added at run time. */
module Invalidation {
  import opened Types
  import opened Storage
  import KeyOrder
  import opened Chain
  import opened ChainSpec
  import opened CheckpointManagement
  import opened Represent
  import opened RollbackProofs
  import opened Reachable
  import opened Runs
  import opened Guarantees
  import Blockchain

  type Invalid = set<Hash>

  // ---------- the nearest valid ancestor ----------

  function GenesisHash(db: Store): Hash {
    if GetBlockAt(db, 0).Some? then GetBlockAt(db, 0).value.hash else ZERO_HASH
  }

  function ValidFrom(s: ChainState, invalid: Invalid, hash: Hash, visited: set<Hash>): Result<(nat, Hash)>
    decreases s.db.blocks.Keys - visited
  {
    if hash == ZERO_HASH then Ok((0, GenesisHash(s.db)))
    else if hash in visited then Err(CycleDetected)
    else if hash !in invalid then
      match GetBlockHeight(s, map[], hash)
      case Some(height) => Ok((height, hash))
      case None => Err(HeightNotFound)
    else
      match GetBlock(s.db, hash)
      case None => Err(BlockNotFound)
      case Some(b) => ValidFrom(s, invalid, b.prev, visited + {hash})
  }

  function BestValidAncestor(s: ChainState, invalid: Invalid, hash: Hash): Result<(nat, Hash)> {
    match GetBlock(s.db, hash)
    case None => Err(BlockNotFound)
    case Some(b) => ValidFrom(s, invalid, b.prev, {hash})
  }

  /** The first `n` proper ancestors are all marked invalid. */
  ghost predicate InvalidUpTo(db: Store, invalid: Invalid, hash: Hash, n: nat) {
    forall k: nat :: 0 < k <= n ==> Ancestor(db, hash, k).Some? && Ancestor(db, hash, k).value in invalid
  }

  /** How a walk that has come to the ancestor `n` ends, read off the parent graph alone. */
  ghost predicate EndsWell(s: ChainState, invalid: Invalid, hash: Hash, r: Result<(nat, Hash)>) {
    match r
    case Ok(found) =>
      exists n: nat :: n > 0 && InvalidUpTo(s.db, invalid, hash, n - 1) && Ancestor(s.db, hash, n).Some? &&
        var a := Ancestor(s.db, hash, n).value;
        if a == ZERO_HASH then found == (0, GenesisHash(s.db))
        else a !in invalid && found.1 == a && GetBlockHeight(s, map[], a) == Some(found.0)
    case Err(CycleDetected) =>
      exists n: nat, m: nat :: m < n && InvalidUpTo(s.db, invalid, hash, n - 1)
                               && Ancestor(s.db, hash, n).Some? && Ancestor(s.db, hash, n) == Ancestor(s.db, hash, m)
    case Err(HeightNotFound) =>
      exists n: nat :: n > 0 && InvalidUpTo(s.db, invalid, hash, n - 1) && Ancestor(s.db, hash, n).Some?
                       && Ancestor(s.db, hash, n).value !in invalid
                       && GetBlockHeight(s, map[], Ancestor(s.db, hash, n).value).None?
    case Err(BlockNotFound) =>
      exists n: nat :: InvalidUpTo(s.db, invalid, hash, n) && Ancestor(s.db, hash, n).Some?
                       && GetBlock(s.db, Ancestor(s.db, hash, n).value).None?
    case _ => false
  }

  /** The walk stands at the ancestor `n`; everything before it was seen and invalid. */
  ghost predicate WalkAt(db: Store, invalid: Invalid, hash: Hash, n: nat, current: Hash, visited: set<Hash>) {
    && n > 0
    && Ancestor(db, hash, n) == Some(current)
    && InvalidUpTo(db, invalid, hash, n - 1)
    && (forall x :: x in visited ==> exists m: nat :: m < n && Ancestor(db, hash, m) == Some(x))
  }

  lemma WalkStep(db: Store, invalid: Invalid, hash: Hash, n: nat, current: Hash, visited: set<Hash>)
    requires WalkAt(db, invalid, hash, n, current, visited) && current in invalid && GetBlock(db, current).Some?
    ensures WalkAt(db, invalid, hash, n + 1, GetBlock(db, current).value.prev, visited + {current})
  {
    hide GetBlock;
    forall x | x in visited + {current} ensures exists m: nat :: m < n + 1 && Ancestor(db, hash, m) == Some(x) {
      if x != current {
        var m: nat :| m < n && Ancestor(db, hash, m) == Some(x);
        assert m < n + 1;
      }
    }
  }

  lemma {:induction false} ValidFromEndsWell(s: ChainState, invalid: Invalid, hash: Hash, n: nat, current: Hash,
      visited: set<Hash>)
    requires WalkAt(s.db, invalid, hash, n, current, visited)
    ensures EndsWell(s, invalid, hash, ValidFrom(s, invalid, current, visited))
    decreases s.db.blocks.Keys - visited
  {
    hide Ancestor, GetBlockHeight, GetBlockAt;
    if current != ZERO_HASH && current !in visited && current in invalid {
      if GetBlock(s.db, current).Some? {
        WalkStep(s.db, invalid, hash, n, current, visited);
        ValidFromEndsWell(s, invalid, hash, n + 1, GetBlock(s.db, current).value.prev, visited + {current});
      } else {
        assert InvalidUpTo(s.db, invalid, hash, n);
      }
    } else if current != ZERO_HASH && current in visited {
      var m: nat :| m < n && Ancestor(s.db, hash, m) == Some(current);
      assert Ancestor(s.db, hash, n) == Ancestor(s.db, hash, m);
    }
  }

  /** On every parent graph, cyclic or not, the search ends, and its answer is what the graph says: the
      nearest ancestor not marked invalid, genesis if all are, or the reason there is none. */
  lemma BestValidIsNearest(s: ChainState, invalid: Invalid, hash: Hash)
    ensures EndsWell(s, invalid, hash, BestValidAncestor(s, invalid, hash))
  {
    hide GetBlockHeight, GetBlockAt;
    assert Ancestor(s.db, hash, 0) == Some(hash);
    assert InvalidUpTo(s.db, invalid, hash, 0);
    if GetBlock(s.db, hash).Some? {
      assert Ancestor(s.db, hash, 1) == Some(GetBlock(s.db, hash).value.prev);
      ValidFromEndsWell(s, invalid, hash, 1, GetBlock(s.db, hash).value.prev, {hash});
    }
  }

  /** Walks up the parents, remembering every block seen, so that it ends on any parent graph. */
  method FindBestValidAncestor(bc: Blockchain.BlockChain, invalid: Invalid, hash: Hash) returns (r: Result<(nat, Hash)>)
    requires bc.batchHeights == map[]
    ensures r == BestValidAncestor(bc.State(), invalid, hash)
    ensures EndsWell(bc.State(), invalid, hash, r)
  {
    BestValidIsNearest(bc.State(), invalid, hash);
    hide EndsWell;
    var block := GetBlock(bc.db, hash);
    if block.None? { return Err(BlockNotFound); }
    var visited := {hash};
    var current := block.value.prev;
    while current != ZERO_HASH
      invariant BestValidAncestor(bc.State(), invalid, hash) == ValidFrom(bc.State(), invalid, current, visited)
      decreases bc.db.blocks.Keys - visited
    {
      if current in visited { return Err(CycleDetected); }
      if current !in invalid {
        var height := bc.HeightOf(current);
        if height.None? { return Err(HeightNotFound); }
        return Ok((height.value, current));
      }
      var ancestor := GetBlock(bc.db, current);
      if ancestor.None? { return Err(BlockNotFound); }
      visited := visited + {current};
      current := ancestor.value.prev;
    }
    r := Ok((0, GenesisHash(bc.db)));
  }

  // ---------- marking descendants ----------

  /** A node is, or descends from, the block `hash`. */
  predicate DescendsFrom(node: BlockNode, hash: Hash) {
    node.hash == hash || (node.parent.Some? && DescendsFrom(node.parent.value, hash))
  }

  /** Every indexed block that descends from an invalid one is invalid. */
  ghost predicate ClosedDown(index: map<Hash, BlockNode>, invalid: Invalid) {
    forall x, h :: x in index && h in invalid && DescendsFrom(index[x], h) ==> x in invalid
  }

  function Descendants(index: map<Hash, BlockNode>, hash: Hash): set<Hash> {
    set x | x in index && DescendsFrom(index[x], hash)
  }

  function Marked(index: map<Hash, BlockNode>, invalid: Invalid, hash: Hash): Invalid {
    invalid + Descendants(index, hash)
  }

  /** A node as it looks once the nodes with these hashes have been given a status; nodes are shared, so
      its ancestors show it too. */
  function WithStatus(node: BlockNode, hashes: set<Hash>, status: BlockStatus): BlockNode {
    BlockNode(node.hash, node.height, node.work,
              if node.parent.Some? then Some(WithStatus(node.parent.value, hashes, status)) else None,
              if node.hash in hashes then status else node.status)
  }

  function Restatus(index: map<Hash, BlockNode>, hashes: set<Hash>, status: BlockStatus): map<Hash, BlockNode> {
    map x | x in index :: WithStatus(index[x], hashes, status)
  }

  /** Walks up the parents of an indexed block. */
  method IsDescendantOf(bc: Blockchain.BlockChain, hash: Hash, ancestor: Hash) returns (r: bool)
    ensures r <==> hash in bc.blockIndex && DescendsFrom(bc.blockIndex[hash], ancestor)
  {
    if hash !in bc.blockIndex { return false; }
    var node := Some(bc.blockIndex[hash]);
    while node.Some?
      invariant DescendsFrom(bc.blockIndex[hash], ancestor) <==> node.Some? && DescendsFrom(node.value, ancestor)
      decreases node
    {
      if node.value.hash == ancestor { return true; }
      node := node.value.parent;
    }
    r := false;
  }

  lemma {:induction false} StatusIsNoAncestry(node: BlockNode, hashes: set<Hash>, status: BlockStatus, hash: Hash)
    ensures DescendsFrom(WithStatus(node, hashes, status), hash) <==> DescendsFrom(node, hash)
  {
    if node.parent.Some? { StatusIsNoAncestry(node.parent.value, hashes, status, hash); }
  }

  lemma {:induction false} StatusTwice(node: BlockNode, a: set<Hash>, b: set<Hash>, status: BlockStatus)
    ensures WithStatus(WithStatus(node, a, status), b, status) == WithStatus(node, a + b, status)
  {
    if node.parent.Some? { StatusTwice(node.parent.value, a, b, status); }
  }

  lemma {:induction false} StatusOfNone(node: BlockNode, status: BlockStatus)
    ensures WithStatus(node, {}, status) == node
  {
    if node.parent.Some? { StatusOfNone(node.parent.value, status); }
  }

  lemma RestatusNone(index: map<Hash, BlockNode>, status: BlockStatus)
    ensures Restatus(index, {}, status) == index
  {
    forall x | x in index ensures WithStatus(index[x], {}, status) == index[x] {
      StatusOfNone(index[x], status);
    }
  }

  lemma RestatusMore(index: map<Hash, BlockNode>, done: set<Hash>, x: Hash, status: BlockStatus)
    ensures Restatus(Restatus(index, done, status), {x}, status) == Restatus(index, done + {x}, status)
  {
    forall y | y in index
      ensures WithStatus(WithStatus(index[y], done, status), {x}, status) == WithStatus(index[y], done + {x}, status)
    {
      StatusTwice(index[y], done, {x}, status);
    }
  }

  lemma RestatusDescent(index: map<Hash, BlockNode>, hashes: set<Hash>, status: BlockStatus, x: Hash, hash: Hash)
    requires x in index
    ensures x in Restatus(index, hashes, status)
    ensures DescendsFrom(Restatus(index, hashes, status)[x], hash) <==> DescendsFrom(index[x], hash)
  {
    StatusIsNoAncestry(index[x], hashes, status, hash);
  }

  /** Marks every indexed descendant, in the store and in the index, whose nodes are shared. */
  method MarkDescendantsInvalid(bc: Blockchain.BlockChain, invalid: Invalid, hash: Hash) returns (after: Invalid)
    modifies bc`blockIndex
    ensures after == Marked(old(bc.blockIndex), invalid, hash)
    ensures bc.blockIndex == Restatus(old(bc.blockIndex), Descendants(old(bc.blockIndex), hash), StatusInvalid)
  {
    hide DescendsFrom, WithStatus, Restatus;
    ghost var index, done := bc.blockIndex, {};
    after := invalid;
    var todo := bc.blockIndex.Keys;
    RestatusNone(index, StatusInvalid);
    while todo != {}
      invariant todo <= index.Keys
      invariant done == set x | x in index && x !in todo && DescendsFrom(index[x], hash)
      invariant bc.blockIndex == Restatus(index, done, StatusInvalid) && after == invalid + done
      decreases |todo|
    {
      var x := KeyOrder.Min(todo);
      RestatusDescent(index, done, StatusInvalid, x, hash);
      var descends := IsDescendantOf(bc, x, hash);
      if descends {
        after := after + {x};
        bc.blockIndex := Restatus(bc.blockIndex, {x}, StatusInvalid);
        RestatusMore(index, done, x, StatusInvalid);
        done := done + {x};
      }
      todo := todo - {x};
    }
    assert done == Descendants(index, hash);
  }

  /** Wherever a node occurs as an ancestor, it has the ancestors the index gives it. */
  lemma {:induction false} DescentComposes(index: map<Hash, BlockNode>, x: Hash, y: Hash, h: Hash)
    requires Rooted(index) && x in index && y in index
    requires DescendsFrom(index[x], y) && DescendsFrom(index[y], h)
    ensures DescendsFrom(index[x], h)
    decreases index[x]
  {
    if x != y { DescentComposes(index, index[x].parent.value.hash, y, h); }
  }

  lemma StaysRooted(index: map<Hash, BlockNode>, hashes: set<Hash>, status: BlockStatus)
    requires Rooted(index)
    ensures Rooted(Restatus(index, hashes, status))
  {
    var after := Restatus(index, hashes, status);
    forall x | x in after && after[x].parent.Some?
      ensures var p := after[x].parent.value;
              p.hash in after && after[p.hash] == p && p.height < after[x].height
    {
      var p := index[x].parent.value;
      assert after[x].parent.value == WithStatus(p, hashes, status);
      assert WithStatus(p, hashes, status).hash == p.hash;
    }
  }

  /** Invalidating a block keeps the invalid set closed under descendants. */
  lemma MarkingStaysClosed(index: map<Hash, BlockNode>, invalid: Invalid, hash: Hash)
    requires ClosedDown(index, invalid) && Rooted(index)
    ensures var after := Marked(index, invalid + {hash}, hash);
            && ClosedDown(index, after)
            && ClosedDown(Restatus(index, Descendants(index, hash), StatusInvalid), after)
            && Rooted(Restatus(index, Descendants(index, hash), StatusInvalid))
  {
    hide DescendsFrom, Rooted, Restatus;
    StaysRooted(index, Descendants(index, hash), StatusInvalid);
    var after, index1 := Marked(index, invalid + {hash}, hash), Restatus(index, Descendants(index, hash), StatusInvalid);
    forall x, h | x in index && h in after && DescendsFrom(index[x], h) ensures x in after {
      if h in Descendants(index, hash) { DescentComposes(index, x, h, hash); }
    }
    RestatusKeys(index, Descendants(index, hash), StatusInvalid);
    forall x, h | x in index1 && h in after && DescendsFrom(index1[x], h) ensures x in after {
      RestatusDescent(index, Descendants(index, hash), StatusInvalid, x, h);
    }
  }

  lemma RestatusKeys(index: map<Hash, BlockNode>, hashes: set<Hash>, status: BlockStatus)
    ensures Restatus(index, hashes, status).Keys == index.Keys
  {
  }

  // ---------- invalidating a block ----------

  /** The state after a block was invalidated: it and its indexed descendants show as invalid. */
  function Invalidated(s: ChainState, hash: Hash): ChainState {
    s.(blockIndex := Restatus(s.blockIndex, Descendants(s.blockIndex, hash), StatusInvalid))
  }

  /** Marks the block and its descendants.  The test whether the block is on the main chain, which decides
      whether to roll back, reads the status just overwritten, so the chain stays where it is. */
  method InvalidateBlock(bc: Blockchain.BlockChain, invalid: Invalid, hash: Hash) returns (o: Outcome, after: Invalid)
    requires bc.batchHeights == map[]
    requires forall x :: x in bc.blockIndex ==> bc.blockIndex[x].hash == x
    modifies bc`blockIndex
    ensures o == Done <==> GetBlock(bc.db, hash).Some? && GetBlockHeight(old(bc.State()), map[], hash).Some?
    ensures o == Done ==> after == Marked(old(bc.blockIndex), invalid + {hash}, hash)
                          && bc.State() == Invalidated(old(bc.State()), hash)
    ensures o != Done ==> after == invalid && bc.State() == old(bc.State())
  {
    hide GetBlock;
    after := invalid;
    if GetBlock(bc.db, hash).None? { return Failed(BlockNotFound), invalid; }
    var height := bc.HeightOf(hash);
    if height.None? { return Failed(HeightNotFound), invalid; }
    after := after + {hash};
    ghost var index := bc.blockIndex;
    RestatusNone(index, StatusInvalid);
    if hash in bc.blockIndex {
      bc.blockIndex := Restatus(bc.blockIndex, {hash}, StatusInvalid);
    }
    ghost var first := if hash in index then {hash} else {};
    MarkedFirst(index, invalid, hash, first);
    after := MarkDescendantsInvalid(bc, after, hash);
    assert !(hash in bc.blockIndex && bc.blockIndex[hash].status == Connected);
    o := Done;
  }

  /** Marking the block itself first, and then its descendants, which include it, marks the same. */
  lemma MarkedFirst(index: map<Hash, BlockNode>, invalid: Invalid, hash: Hash, first: set<Hash>)
    requires first == if hash in index then {hash} else {}
    requires forall x :: x in index ==> index[x].hash == x
    ensures var index1 := Restatus(index, first, StatusInvalid);
            && Descendants(index1, hash) == Descendants(index, hash)
            && Restatus(index1, Descendants(index, hash), StatusInvalid)
               == Restatus(index, Descendants(index, hash), StatusInvalid)
            && (hash in index ==>
                  Restatus(index, Descendants(index, hash), StatusInvalid)[hash].status == StatusInvalid)
  {
    hide DescendsFrom;
    var index1, all := Restatus(index, first, StatusInvalid), Descendants(index, hash);
    forall x | x in index
      ensures DescendsFrom(index1[x], hash) <==> DescendsFrom(index[x], hash)
      ensures WithStatus(index1[x], all, StatusInvalid) == WithStatus(index[x], first + all, StatusInvalid)
    {
      RestatusDescent(index, first, StatusInvalid, x, hash);
      StatusTwice(index[x], first, all, StatusInvalid);
    }
    if hash in index { DescendsFromItself(index[hash]); }
    assert first + all == all;
  }

  lemma DescendsFromItself(node: BlockNode)
    ensures DescendsFrom(node, node.hash)
  {
  }

  // ---------- invalidating a block of a reachable chain ----------

  /** The height of the nearest block below `i` that is not marked, and 0 if all are. */
  function NearestValid(chain: seq<Block>, invalid: Invalid, i: nat): (j: nat)
    requires i <= |chain|
    ensures j <= i && forall k :: j < k < i ==> chain[k].hash in invalid
    ensures 0 < i && j > 0 ==> j < i && chain[j].hash !in invalid
  {
    if i == 0 then 0
    else if chain[i - 1].hash !in invalid then i - 1
    else NearestValid(chain, invalid, i - 1)
  }

  lemma GenesisIsFirst(s: ChainState, chain: seq<Block>)
    requires Represents(s, chain)
    ensures chain != [] && GenesisHash(s.db) == chain[0].hash && chain[0].prev == ZERO_HASH
  {
    hide CachesOk, TipOk;
    BlockIsFound(s, chain, 0);
    GenesisHasNoParent(s.db, chain);
  }

  lemma OnTheChain(s: ChainState, chain: seq<Block>, i: nat)
    requires Represents(s, chain) && i < |chain|
    ensures chain[i].hash != ZERO_HASH && GetBlock(s.db, chain[i].hash) == Some(chain[i])
    ensures GetBlockHeight(s, map[], chain[i].hash) == Some(i)
    ensures i > 0 ==> chain[i].prev == chain[i - 1].hash
    ensures forall j :: 0 <= j < |chain| && j != i ==> chain[j].hash != chain[i].hash
  {
    RepresentsCaches(s, chain);
    ChainBlockReadable(s.db, chain, i);
    HoldsShape(s.db, chain);
    hide Holds, CachesOk, GetBlock, WorkIsHeight;
    forall j | 0 <= j < |chain| && j != i ensures chain[j].hash != chain[i].hash {
      assert Placed(s.db, chain[j], j) && Placed(s.db, chain[i], i);
    }
  }

  /** On a chain the search walks from block to block below. */
  lemma {:induction false} WalkOnChain(s: ChainState, chain: seq<Block>, invalid: Invalid, k: nat, visited: set<Hash>)
    requires Represents(s, chain) && k < |chain|
    requires forall j :: 0 <= j <= k ==> chain[j].hash !in visited
    ensures var j := NearestValid(chain, invalid, k + 1);
            ValidFrom(s, invalid, chain[k].hash, visited) == Ok((j, chain[j].hash))
    decreases k
  {
    hide Represents, GetBlock, GetBlockHeight;
    OnTheChain(s, chain, k);
    GenesisIsFirst(s, chain);
    if chain[k].hash in invalid && k > 0 {
      WalkOnChain(s, chain, invalid, k - 1, visited + {chain[k].hash});
    }
  }

  lemma SearchOnChain(s: ChainState, chain: seq<Block>, invalid: Invalid, i: nat)
    requires Represents(s, chain) && i < |chain|
    ensures var j := NearestValid(chain, invalid, i);
            BestValidAncestor(s, invalid, chain[i].hash) == Ok((j, chain[j].hash))
  {
    hide Represents, GetBlock;
    OnTheChain(s, chain, i);
    GenesisIsFirst(s, chain);
    if i > 0 { WalkOnChain(s, chain, invalid, i - 1, {chain[i].hash}); }
  }

  lemma {:induction false} SearchIgnoresIndex(s: ChainState, index: map<Hash, BlockNode>, invalid: Invalid, hash: Hash,
                                              visited: set<Hash>)
    ensures ValidFrom(s.(blockIndex := index), invalid, hash, visited) == ValidFrom(s, invalid, hash, visited)
    decreases s.db.blocks.Keys - visited
  {
    hide GetBlock, GetBlockAt;
    if hash != ZERO_HASH && hash !in visited && hash in invalid && GetBlock(s.db, hash).Some? {
      SearchIgnoresIndex(s, index, invalid, GetBlock(s.db, hash).value.prev, visited + {hash});
    }
  }

  /** Invalidating a block of a reachable chain and then looking for the best valid ancestor finds the
      nearest block below that is not marked, or genesis; and no indexed ancestor of an unmarked result is
      marked, as long as none of the blocks marked before had unmarked descendants. */
  lemma ValidAncestorIsClear(s: ChainState, chain: seq<Block>, invalid: Invalid, i: nat)
    requires Represents(s, chain) && ClosedDown(s.blockIndex, invalid) && i < |chain|
    ensures var hash := chain[i].hash;
            var after, s1 := Marked(s.blockIndex, invalid + {hash}, hash), Invalidated(s, hash);
            var j := NearestValid(chain, after, i);
            && BestValidAncestor(s1, after, hash) == Ok((j, chain[j].hash))
            && (chain[j].hash !in after || j == 0)
            && (chain[j].hash !in after && chain[j].hash in s1.blockIndex ==>
                  forall h :: DescendsFrom(s1.blockIndex[chain[j].hash], h) ==> h !in after)
            && ClosedDown(s1.blockIndex, after) && Rooted(s1.blockIndex)
  {
    hide Rooted, Represents, GetBlock, DescendsFrom, ValidFrom, Restatus;
    var hash := chain[i].hash;
    var after, s1 := Marked(s.blockIndex, invalid + {hash}, hash), Invalidated(s, hash);
    IndexIsRooted(s, chain);
    MarkingStaysClosed(s.blockIndex, invalid, hash);
    SearchOnChain(s, chain, after, i);
    OnTheChain(s, chain, i);
    SearchIgnoresIndex(s, s1.blockIndex, after, GetBlock(s.db, hash).value.prev, {hash});
    if i == 0 { HashIsMarked(s.blockIndex, invalid, hash); }
  }

  lemma HashIsMarked(index: map<Hash, BlockNode>, invalid: Invalid, hash: Hash)
    ensures hash in Marked(index, invalid + {hash}, hash)
  {
  }

  lemma IndexIsRooted(s: ChainState, chain: seq<Block>)
    requires Represents(s, chain)
    ensures Rooted(s.blockIndex)
  {
    hide Holds, TipOk, Rooted;
  }

  // ---------- the best chain ----------

  /** No unmarked indexed block has more work. */
  ghost predicate MostWork(index: map<Hash, BlockNode>, invalid: Invalid, hash: Hash) {
    && hash in index && hash !in invalid
    && forall x :: x in index && x !in invalid ==> index[x].work <= index[hash].work
  }

  /** Keeps the unmarked node with most work, in whatever order the index is visited. */
  method FindBestChain(bc: Blockchain.BlockChain, invalid: Invalid) returns (r: Result<(nat, Hash, bool)>)
    requires forall x :: x in bc.blockIndex ==> bc.blockIndex[x].hash == x
    ensures r.Err? <==> forall x :: x in bc.blockIndex ==> x in invalid
    ensures r.Ok? ==>
              var (height, hash, reorganized) := r.value;
              && MostWork(bc.blockIndex, invalid, hash) && height == bc.blockIndex[hash].height
              && (reorganized <==> hash != bc.bestHash)
  {
    var best: Option<BlockNode> := None;
    var todo := bc.blockIndex.Keys;
    while todo != {}
      invariant todo <= bc.blockIndex.Keys
      invariant best.None? ==> forall x :: x in bc.blockIndex && x !in todo ==> x in invalid
      invariant best.Some? ==>
                  && best.value.hash in bc.blockIndex && best.value.hash !in invalid
                  && bc.blockIndex[best.value.hash] == best.value
                  && forall x :: x in bc.blockIndex && x !in todo && x !in invalid ==>
                       bc.blockIndex[x].work <= best.value.work
      decreases |todo|
    {
      var x :| x in todo;
      todo := todo - {x};
      if x in invalid { continue; }
      if best.None? || bc.blockIndex[x].work > best.value.work { best := Some(bc.blockIndex[x]); }
    }
    if best.None? { return Err(BlockNotFound); }
    r := Ok((best.value.height, best.value.hash, best.value.hash != bc.bestHash));
  }

  lemma NodeOnChain(s: ChainState, chain: seq<Block>, x: Hash)
    requires Represents(s, chain) && x in s.blockIndex
    ensures x in s.db.hashToHeight && s.db.hashToHeight[x] < |chain| && chain[s.db.hashToHeight[x]].hash == x
    ensures s.blockIndex[x].work == s.db.hashToHeight[x]
    ensures s.bestHash == chain[|chain| - 1].hash
  {
    hide Holds, Rooted, TipOk, IndexedFromTop;
    OnlyTheseHeights(s.db, chain);
  }

  lemma LessWorkBelow(s: ChainState, chain: seq<Block>, x: Hash)
    requires Represents(s, chain) && x in s.blockIndex && s.bestHash in s.blockIndex && x != s.bestHash
    ensures s.blockIndex[x].work < s.blockIndex[s.bestHash].work
  {
    hide Represents;
    NodeOnChain(s, chain, x);
    NodeOnChain(s, chain, s.bestHash);
    OnTheChain(s, chain, s.db.hashToHeight[s.bestHash]);
  }

  /** On a reachable state, the most work is at the indexed tip and nowhere else, unless the tip is marked. */
  lemma MostWorkIsTip(s: ChainState, chain: seq<Block>, invalid: Invalid, hash: Hash)
    requires Represents(s, chain) && s.bestHash in s.blockIndex && s.bestHash !in invalid
    ensures MostWork(s.blockIndex, invalid, hash) <==> hash == s.bestHash
  {
    hide Represents;
    forall x | x in s.blockIndex && x != s.bestHash ensures s.blockIndex[x].work < s.blockIndex[s.bestHash].work {
      LessWorkBelow(s, chain, x);
    }
  }

  // ---------- checkpoints added at run time ----------

  /** The checkpoint manager and the stored dynamic checkpoints after adding one. */
  method AddCheckpoint(bc: Blockchain.BlockChain, cm: CheckpointManager, stored: map<nat, Hash>, height: nat, hash: Hash)
    returns (o: Outcome, after: map<nat, Hash>)
    requires cm.Valid()
    modifies cm
    ensures cm.Valid() && cm.badBlocks == old(cm.badBlocks)
    ensures o == Done <==> GetBlockAt(bc.db, height).Some? && GetBlockAt(bc.db, height).value.hash == hash
    ensures o == Done ==> cm.checkpoints == old(cm.checkpoints)[height := hash] && after == stored[height := hash]
    ensures o != Done ==> cm.checkpoints == old(cm.checkpoints) && after == stored
  {
    after := stored;
    var block := GetBlockAt(bc.db, height);
    if block.None? { return Failed(BlockNotFound), stored; }
    if block.value.hash != hash { return Failed(CheckpointMismatch), stored; }
    after := after[height := hash];
    cm.checkpoints := cm.checkpoints[height := hash];
    if height > cm.lastHeight { cm.lastHeight := height; }
    // The source checks the block at this height once more and would take the checkpoint back; the same
    // comparison has just succeeded, so that never happens.
    o := Done;
  }

  function WithCheckpoint(env: Env, height: nat, hash: Hash): Env {
    env.(checkpoints := env.checkpoints.(expected := env.checkpoints.expected[height := hash]))
  }

  /** A checkpoint added for a stored block does not turn a sound chain into a failing one. */
  lemma AddedCheckpointHolds(env: Env, s: ChainState, chain: seq<Block>, height: nat, hash: Hash)
    requires Represents(s, chain) && CheckpointsHold(env, chain)
    requires GetBlockAt(s.db, height).Some? && GetBlockAt(s.db, height).value.hash == hash && height < |chain|
    ensures CheckpointsHold(WithCheckpoint(env, height, hash), chain)
  {
    BlockIsFound(s, chain, height);
    hide Represents, GetBlockAt;
    forall i | 1 <= i < |chain|
      ensures CheckpointOk(env.checkpoints.(expected := env.checkpoints.expected[height := hash]), i, chain[i].hash)
    {
      assert CheckpointOk(env.checkpoints, i, chain[i].hash);
    }
  }
}
