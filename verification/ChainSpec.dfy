/** Every chain operation as a function from chain state to chain state.

    The methods of BlockChain and RecoveryManager are proved equal to these functions; the
    theorems about runs of the chain are stated about them. */
module ChainSpec {
  import opened Types
  import opened Storage
  import opened Ledger
  import Merkle

  // ---------- the in-memory mirror ----------

  datatype BlockStatus = StatusNone | HeaderValid | StatusValid | StatusInvalid | Connected

  /** A node of the in-memory block index.  `parent` is the node it pointed to when it was made. */
  datatype BlockNode = BlockNode(hash: Hash, height: nat, work: int, parent: Option<BlockNode>, status: BlockStatus)

  datatype ChainState = ChainState(
    db: Store,
    bestBlock: Option<Block>,
    bestHash: Hash,
    bestHeight: nat,
    blockIndex: map<Hash, BlockNode>,
    knownBlocks: map<Hash, nat>)

  // ---------- what the chain is configured with or told from outside ----------

  datatype Checkpoints = Checkpoints(expected: map<nat, Hash>, bad: map<nat, Hash>)

  /** How thoroughly the consensus engine is asked to look at a block. */
  datatype Level = FullCheck | BatchCheck | SimpleCheck

  datatype Env = Env(
    maxReorgDepth: nat,
    genesisHash: Hash,
    ibdThreshold: nat,
    networkHeight: nat,
    peers: int,
    checkpoints: Checkpoints,
    accepts: (Level, Store, seq<Block>, Block, nat) -> bool,
    pair: Merkle.Pair)

  const MAX_BATCH: nat := 500
  const MIN_SYNC_PEERS := 3
  const VALIDATION_HEIGHT_THRESHOLD: nat := 200000
  const VALIDATION_FREQUENCY: nat := 1000

  /** Initial block download: no tip, too few peers, no network height, or too far behind. */
  predicate IsInitialDownload(env: Env, s: ChainState) {
    || s.bestBlock.None?
    || env.peers < MIN_SYNC_PEERS
    || env.networkHeight == 0
    || (if env.networkHeight > s.bestHeight then env.networkHeight - s.bestHeight else 0) >= env.ibdThreshold
  }

  function LevelFor(ibd: bool, batchSize: nat, height: nat): Level {
    if !ibd && batchSize == 1 then FullCheck
    else if !ibd || (height > VALIDATION_HEIGHT_THRESHOLD && height % VALIDATION_FREQUENCY == 0) then BatchCheck
    else SimpleCheck
  }

  predicate CheckpointOk(cp: Checkpoints, height: nat, hash: Hash) {
    && !(height in cp.bad && cp.bad[height] == hash)
    && (height in cp.expected ==> cp.expected[height] == hash)
  }

  // ---------- lookups ----------

  predicate Has(s: ChainState, hash: Hash) {
    hash in s.blockIndex || hash in s.db.blocks
  }

  /** How many blocks at the front of the batch are already stored. */
  function KnownPrefix(s: ChainState, blocks: seq<Block>): (n: nat)
    ensures n <= |blocks|
    ensures forall i :: 0 <= i < n ==> Has(s, blocks[i].hash)
    ensures n < |blocks| ==> !Has(s, blocks[n].hash)
  {
    if blocks == [] || !Has(s, blocks[0].hash) then 0
    else 1 + KnownPrefix(s, blocks[1..])
  }

  /** HasBlock: the known-block cache, then the store. */
  predicate HasBlock(s: ChainState, hash: Hash) {
    hash in s.knownBlocks || hash in s.db.blocks
  }

  /** GetBlockHeight: the known-block cache, then the heights of the open batch, then the store. */
  function GetBlockHeight(s: ChainState, batchHeights: map<Hash, nat>, hash: Hash): Option<nat> {
    if hash in s.knownBlocks then Some(s.knownBlocks[hash])
    else if hash in batchHeights then Some(batchHeights[hash])
    else GetHeight(s.db, hash)
  }

  // ---------- batch checks ----------

  predicate Linked(blocks: seq<Block>) {
    forall i :: 1 <= i < |blocks| ==> blocks[i].prev == blocks[i - 1].hash
  }

  predicate DistinctHashes(blocks: seq<Block>) {
    forall i, j :: 0 <= i < j < |blocks| ==> blocks[i].hash != blocks[j].hash
  }

  predicate WellFormed(env: Env, b: Block) {
    && b.txs != []
    && (b.txs[0].IsCoinbase() || b.txs[0].IsCoinStake())
    && Merkle.Root(env.pair, TxIds(b.txs)) == b.merkleRoot
  }

  predicate PreValid(env: Env, s: ChainState, blocks: seq<Block>)
    requires blocks != []
  {
    && (blocks[0].prev != ZERO_HASH ==> Has(s, blocks[0].prev))
    && Linked(blocks)
    && DistinctHashes(blocks)
    && (forall i :: 0 <= i < |blocks| ==> WellFormed(env, blocks[i]))
  }

  /** The extra tests a batch of one block has to pass: a known parent, and a height above the tip. */
  function CheckSingle(s: ChainState, b: Block): Outcome {
    if b.prev == ZERO_HASH then Done
    else if !Has(s, b.prev) then Failed(ParentNotFound)
    else if b.prev in s.db.hashToHeight && s.db.hashToHeight[b.prev] + 1 <= s.bestHeight then Failed(HeightNotAdvancing)
    else Done
  }

  /** The height of a batch's first block: its parent's stored height plus one, or 0 without a parent. */
  function FirstHeight(db: Store, b: Block): Result<nat> {
    if b.prev == ZERO_HASH then Ok(0)
    else if b.prev in db.hashToHeight then Ok(db.hashToHeight[b.prev] + 1)
    else Err(ParentNotFound)
  }

  // ---------- applying a batch ----------

  datatype Pending = Pending(view: Store, cache: map<nat, int>)

  /** One more block of a batch: consensus sees the committed store and the `earlier` blocks of the batch. */
  function ApplyNext(env: Env, s: ChainState, level: Level, p: Pending, earlier: seq<Block>, b: Block, height: nat)
    : Result<Pending>
  {
    if !CheckpointOk(env.checkpoints, height, b.hash) then Err(CheckpointFailed)
    else if !env.accepts(level, s.db, earlier, b, height) then Err(InvalidBlock)
    else
      var a :- ConnectBlock(s.db, p.view, s.bestHeight, p.cache, b, height);
      Ok(Pending(a.view, a.cache))
  }

  /** Applies `blocks`, the front of a batch of `batchSize` blocks, at heights from `first`. */
  function ApplyBlocks(env: Env, s: ChainState, batchSize: nat, blocks: seq<Block>, first: nat): Result<Pending> {
    if blocks == [] then Ok(Pending(s.db, map[]))
    else
      var n := |blocks| - 1;
      var before :- ApplyBlocks(env, s, batchSize, blocks[..n], first);
      ApplyNext(env, s, LevelFor(IsInitialDownload(env, s), batchSize, first + n), before, blocks[..n], blocks[n],
                first + n)
  }

  function NodeFor(index: map<Hash, BlockNode>, b: Block, height: nat): BlockNode {
    var parent := if b.prev != ZERO_HASH && b.prev in index then Some(index[b.prev]) else None;
    var work: int := if parent.Some? then parent.value.work + 1 else height;
    BlockNode(b.hash, height, work, parent, Connected)
  }

  function IndexAll(index: map<Hash, BlockNode>, blocks: seq<Block>, first: nat): map<Hash, BlockNode> {
    if blocks == [] then index
    else
      var n := |blocks| - 1;
      var before := IndexAll(index, blocks[..n], first);
      before[blocks[n].hash := NodeFor(before, blocks[n], first + n)]
  }

  function KnowAll(known: map<Hash, nat>, blocks: seq<Block>, first: nat): map<Hash, nat> {
    if blocks == [] then known
    else
      var n := |blocks| - 1;
      KnowAll(known, blocks[..n], first)[blocks[n].hash := first + n]
  }

  lemma {:induction false} KnowAllHeights(blocks: seq<Block>, first: nat)
    requires DistinctHashes(blocks)
    ensures forall i :: 0 <= i < |blocks| ==>
              blocks[i].hash in KnowAll(map[], blocks, first) &&
                  KnowAll(map[], blocks, first)[blocks[i].hash] == first + i
    ensures forall x :: x in KnowAll(map[], blocks, first) ==> exists i :: 0 <= i < |blocks| && blocks[i].hash == x
  {
    if blocks != [] {
      var n := |blocks| - 1;
      KnowAllHeights(blocks[..n], first);
      assert forall i :: 0 <= i < n ==> blocks[..n][i] == blocks[i];
    }
  }

  /** The state after a batch committed: the tip moves only upwards, every block is indexed. */
  function Commit(s: ChainState, blocks: seq<Block>, first: nat, view: Store): ChainState
    requires blocks != []
  {
    var last := blocks[|blocks| - 1];
    var lastHeight := first + |blocks| - 1;
    var advanced := lastHeight > s.bestHeight;
    ChainState(
      view,
      if advanced then Some(last) else s.bestBlock,
      if advanced then last.hash else s.bestHash,
      if advanced then lastHeight else s.bestHeight,
      IndexAll(s.blockIndex, blocks, first),
      KnowAll(s.knownBlocks, blocks, first))
  }

  /** One atomic batch: drop the stored prefix, check, apply everything, commit once. */
  function ProcessBatch(env: Env, s: ChainState, batch: seq<Block>): (Outcome, ChainState) {
    if batch == [] then (Done, s)
    else
      var blocks := batch[KnownPrefix(s, batch)..];
      if blocks == [] then (Failed(AllBlocksExist), s)
      else if |blocks| == 1 && CheckSingle(s, blocks[0]).Failed? then (CheckSingle(s, blocks[0]), s)
      else if !PreValid(env, s, blocks) then (Failed(BatchRejected), s)
      else
        match FirstHeight(s.db, blocks[0])
        case Err(e) => (Failed(e), s)
        case Ok(first) =>
          match ApplyBlocks(env, s, |blocks|, blocks, first)
          case Err(e) => (Failed(e), s)
          case Ok(p) => (Done, Commit(s, blocks, first, p.view))
  }

  /** A list of blocks, cut into chunks of at most `size`; the first failing chunk stops the rest. */
  function ProcessChunks(env: Env, s: ChainState, blocks: seq<Block>, size: nat): (Outcome, ChainState)
    requires size > 0
    decreases |blocks|
  {
    if |blocks| <= size then ProcessBatch(env, s, blocks)
    else
      var (o, s1) := ProcessBatch(env, s, blocks[..size]);
      if o.Failed? then (o, s1) else ProcessChunks(env, s1, blocks[size..], size)
  }

  /** From any point of a list, the next chunk and then what comes after it. */
  lemma ChunkFrom(env: Env, s: ChainState, blocks: seq<Block>, size: nat, i: nat, end: nat)
    requires size > 0 && i < |blocks| && end == if i + size < |blocks| then i + size else |blocks|
    ensures var (o, s1) := ProcessBatch(env, s, blocks[i..end]);
            ProcessChunks(env, s, blocks[i..], size)
            == if o.Failed? || end == |blocks| then (o, s1) else ProcessChunks(env, s1, blocks[end..], size)
  {
    hide ProcessBatch;
    var rest := blocks[i..];
    if end < |blocks| {
      assert rest[..size] == blocks[i..end] && rest[size..] == blocks[end..];
    } else {
      assert rest == blocks[i..end];
    }
  }

  function Process(env: Env, s: ChainState, blocks: seq<Block>): (Outcome, ChainState) {
    ProcessChunks(env, s, blocks, MAX_BATCH)
  }

  // ---------- disconnecting and rolling back ----------

  /** Disconnects one block: one atomic commit, then the in-memory mirror.  If the parent cannot be
      read after the commit, the store has moved and the mirror has not. */
  function Disconnect(s: ChainState, b: Block): (Outcome, ChainState) {
    if b.hash !in s.db.hashToHeight then (Failed(BlockNotFound), s)
    else
      var height := s.db.hashToHeight[b.hash];
      match DisconnectStore(s.db, b, height)
      case Err(e) => (Failed(e), s)
      case Ok(db) =>
        var parent := GetBlock(db, b.prev);
        if parent.None? then (Failed(BlockNotFound), s.(db := db))
        else (Done, ChainState(db, parent, b.prev, Pred32(height), s.blockIndex - {b.hash}, s.knownBlocks - {b.hash}))
  }

  /** Disconnects the blocks found at heights `h` down to `target + 1`; an unreadable one is skipped. */
  function DisconnectDown(s: ChainState, h: nat, target: nat): (Outcome, ChainState)
    decreases h
  {
    if h <= target then (Done, s)
    else
      var block := GetBlockAt(s.db, h);
      if block.None? then DisconnectDown(s, h - 1, target)
      else
        var (o, s1) := Disconnect(s, block.value);
        if o.Failed? then (o, s1) else DisconnectDown(s1, h - 1, target)
  }

  function ForgetAbove(known: map<Hash, nat>, height: nat): map<Hash, nat> {
    map h | h in known && known[h] <= height :: known[h]
  }

  function UnindexAbove(index: map<Hash, BlockNode>, height: nat): map<Hash, BlockNode> {
    map h | h in index && index[h].height <= height :: index[h]
  }

  /** Rolling back to a height: the current height is a no-op, anything above or too deep an error. */
  function Rollback(env: Env, s: ChainState, height: nat): (Outcome, ChainState) {
    if s.bestHeight == height then (Done, s)
    else if s.bestHeight < height then (Failed(BelowTarget), s)
    else if s.bestHeight - height > env.maxReorgDepth then (Failed(TooDeep), s)
    else
      var target := GetBlockAt(s.db, height);
      if target.None? then (Failed(HeightNotFound), s)
      else
        var (o, s1) := DisconnectDown(s, s.bestHeight, height);
        if o.Failed? then (o, s1)
        else
          var db := CleanOrphanedBlocks(s1.db, height);
          (Done, ChainState(db.(tip := Some(Tip(height, target.value.hash))), target, target.value.hash, height,
                            s1.blockIndex, ForgetAbove(s1.knownBlocks, height)))
  }

  /** Drops index nodes above the rollback height. */
  function ResetChainState(s: ChainState, height: nat): ChainState {
    s.(blockIndex := UnindexAbove(s.blockIndex, height))
  }

  /** Deletes the blocks still found at heights above `good`, up to `bad`, as far as they can be deleted. */
  function CleanOrphanedData(db: Store, good: nat, bad: nat): Store
    decreases bad
  {
    if bad <= good then db
    else
      var before := CleanOrphanedData(db, good, bad - 1);
      var block := GetBlockAt(before, bad);
      if block.None? then before
      else
        match DeleteBlock(before, block.value.hash)
        case Err(_) => before
        case Ok(after) => after
  }

  // ---------- starting ----------

  /** The node for the tip, and the height of every indexed block. */
  function BuildBlockIndex(s: ChainState): ChainState {
    s.(blockIndex := if s.bestBlock.None? then s.blockIndex
                     else s.blockIndex[s.bestHash := BlockNode(s.bestHash, s.bestHeight, s.bestHeight, None, Connected)],
       knownBlocks := s.knownBlocks + s.db.hashToHeight)
  }

  /** Connects the built-in genesis block and makes sure height 0 is indexed. */
  function InitializeGenesis(env: Env, s: ChainState, genesis: Block): (Outcome, ChainState) {
    var (o, s1) := Process(env, s, [genesis]);
    if o.Failed? then (o, s1)
    else if 0 in s1.db.heightToHash then (Done, s1)
    else (Done, s1.(db := StoreBlockIndex(s1.db, genesis.hash, 0)))
  }

  /** What a start reads from the store. */
  function LoadChainState(env: Env, s: ChainState, genesis: Block): (Outcome, ChainState) {
    if env.genesisHash !in s.db.blocks then InitializeGenesis(env, s, genesis)
    else if ChainTip(s.db) == ZERO_HASH then
      (Done, s.(bestBlock := GetBlock(s.db, env.genesisHash), bestHash := env.genesisHash, bestHeight := 0))
    else
      match GetBlock(s.db, ChainTip(s.db))
      case Some(b) =>
        (Done, BuildBlockIndex(s.(bestBlock := Some(b), bestHash := ChainTip(s.db), bestHeight := ChainHeight(s.db))))
      case None =>
        if ChainHeight(s.db) == 0 && ChainTip(s.db) != env.genesisHash then InitializeGenesis(env, s, genesis)
        else (Done, s.(bestBlock := None, bestHash := ChainTip(s.db), bestHeight := ChainHeight(s.db)))
  }

  /** Memory as it is before anything is loaded. */
  function Unloaded(db: Store): ChainState {
    ChainState(db, None, ZERO_HASH, 0, map[], map[])
  }

  // ---------- ancestors ----------

  /** The ancestor `n` parents above a block, as far as blocks can be read. */
  ghost function Ancestor(db: Store, hash: Hash, n: nat): Option<Hash> {
    if n == 0 then Some(hash)
    else
      match Ancestor(db, hash, n - 1)
      case None => None
      case Some(x) =>
        match GetBlock(db, x)
        case None => None
        case Some(b) => Some(b.prev)
  }

  // ---------- walking a segment ----------

  /** Walks from the block `hash` at `height` down to, not including, `from`: every block must be
      readable, and match its checkpoint if its height has one. */
  function WalkSegment(env: Env, db: Store, hash: Hash, height: nat, from: nat): Outcome
    decreases height
  {
    if height <= from then Done
    else
      match GetBlock(db, hash)
      case None => Failed(BlockNotFound)
      case Some(b) =>
        if height in env.checkpoints.expected && !CheckpointOk(env.checkpoints, height, hash)
        then Failed(CheckpointMismatch)
        else WalkSegment(env, db, b.prev, height - 1, from)
  }

  function ValidateSegment(env: Env, db: Store, from: nat, to: nat): Outcome {
    if to <= from then Failed(InvalidRange)
    else if to !in db.heightToHash then Failed(HeightNotFound)
    else WalkSegment(env, db, db.heightToHash[to], to, from)
  }
}
