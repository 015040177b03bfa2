/** Blocks, transactions and the small result types shared by every module. */
module Types {

  /** A 32-byte hash, read as a number.  The zero hash stands for "no block". */
  type Hash = nat
  const ZERO_HASH: Hash := 0

  /** The output index of the single input of a coinbase transaction. */
  const NULL_INDEX: nat := 0xffff_ffff

  /** The hash160 an addressable script pays to. */
  type Address = nat

  datatype Option<+T> = None | Some(value: T)

  datatype Outpoint = Outpoint(txid: Hash, index: nat)

  /** A script, as far as the ledger looks at it: empty, paying to a hash160, or anything else. */
  datatype Script = EmptyScript | PayTo(hash160: Address) | OtherScript(code: nat)

  datatype TxOut = TxOut(value: int, script: Script)

  datatype Tx = Tx(id: Hash, inputs: seq<Outpoint>, outputs: seq<TxOut>) {
    predicate IsCoinbase() {
      |inputs| == 1 && inputs[0] == Outpoint(ZERO_HASH, NULL_INDEX)
    }

    predicate IsCoinStake() {
      && |inputs| >= 1
      && inputs[0].txid != ZERO_HASH
      && |outputs| >= 2
      && outputs[0] == TxOut(0, EmptyScript)
    }

    /** The outpoints this transaction spends; a coinbase spends none. */
    function Spends(): seq<Outpoint> {
      if IsCoinbase() then [] else inputs
    }
  }

  datatype Block = Block(hash: Hash, prev: Hash, merkleRoot: Hash, txs: seq<Tx>)

  function TxIds(txs: seq<Tx>): (ids: seq<Hash>)
    ensures |ids| == |txs|
    ensures forall i :: 0 <= i < |txs| ==> ids[i] == txs[i].id
  {
    seq(|txs|, i requires 0 <= i < |txs| => txs[i].id)
  }

  /** Every way a chain operation can fail. */
  datatype ChainError =
    | BlockNotFound
    | HeightNotFound
    | UtxoNotFound
    | AlreadySpent
    | ForkDuplicateSpend(forkHeight: nat)
    | AllBlocksExist
    | ParentNotFound
    | HeightNotAdvancing
    | BatchRejected
    | CheckpointFailed
    | InvalidBlock
    | BelowTarget
    | TooDeep
    | NoCommonAncestor
    | CycleDetected
    | InvalidRange
    | TooManyAttempts
    | ChainTooShort
    | CheckpointMissing
    | CheckpointMismatch
    | StateMismatch

  datatype Result<+T> = Ok(value: T) | Err(error: ChainError) {
    predicate IsFailure() {
      Err?
    }

    function PropagateFailure<U>(): Result<U>
      requires Err?
    {
      Err(error)
    }

    function Extract(): T
      requires Ok?
    {
      value
    }
  }

  /** The outcome of an operation that returns no value. */
  datatype Outcome = Done | Failed(error: ChainError)
}
