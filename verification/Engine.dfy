/** What the node says to the execution engine, and what it may answer. */
module Engine {
  import opened GoInts
  import opened Options

  /** A 32-byte hash read as a number; 0 is the empty hash. */
  type Hash = nat

  datatype Status = VALID | INVALID | SYNCING | ACCEPTED | OtherStatus(name: string)

  /** An answer, or an error that does or does not mention an unknown payload. */
  datatype Rpc<+T> = Reply(value: T) | RpcError(unknownPayload: bool)

  datatype ForkchoiceReply = ForkchoiceReply(status: Status, payloadId: Option<nat>)

  /** A transaction of a payload: its blob hashes, if it decodes. */
  datatype EvmTx = Undecodable | Decoded(blobHashes: seq<Hash>)

  datatype ExecutableData = ExecutableData(
    parentHash: Hash,
    number: uint64,
    timestamp: uint64,
    blockHash: Hash,
    withdrawals: Option<nat>,        // nil, or how many
    blobGasUsed: Option<uint64>,
    excessBlobGas: Option<uint64>,
    hasWitness: bool,
    transactions: seq<EvmTx>)

  datatype Attributes =
    Attributes(timestamp: uint64, random: Hash, feeRecipient: string, withdrawals: nat, beaconRoot: Hash)

  datatype Event =
    | NewPayload(version: int, hash: Hash, blobs: seq<Hash>, beaconRoot: Hash, status: Rpc<Status>)
    | Forkchoice(head: Hash, safe: Hash, finalized: Hash, attrs: Option<Attributes>, reply: Rpc<ForkchoiceReply>)
    | GetPayload(version: int, id: nat, payload: Rpc<ExecutableData>)

  /** The client of cosmos/lib/engine.go turns an ACCEPTED forkchoice answer into an error. */
  function ClientForkchoice(raw: Rpc<ForkchoiceReply>): Rpc<ForkchoiceReply> {
    if raw.Reply? && raw.value.status.ACCEPTED? then RpcError(false) else raw
  }
}
