/** The EVM keeper: cosmos/x/evm/keeper/msg_server.go, keeper.go and proposal_server.go. */
module Keeper {
  import opened GoInts
  import opened Options
  import opened Engine
  import opened Retrying
  import opened Timestamps
  import opened ChainSpecs

  datatype BlockState = BlockState(hash: Hash, height: uint64, timestamp: uint64)

  datatype Config = Config(time: TimeConfig, spec: ChainSpec, moduleAddress: string, feeRecipient: string)

  /** The part of the block header the keeper reads; heights are not negative. */
  datatype Header = Header(height: uint64, time: int64, appHash: Hash)

  /** The JSON bytes of a message: none, not JSON, or a payload. */
  datatype PayloadBytes = NoBytes | Malformed | Json(data: ExecutableData)
  datatype PayloadMsg = PayloadMsg(authority: string, payload: PayloadBytes)

  const MAX_BLOBS: nat := 6

  // ---------------------------------------------------------------- validatePayload

  function ExpectedTimestamp(cfg: Config, hdr: Header, state: BlockState): uint64 {
    CalculateTimestamp(cfg.time, hdr.time, hdr.height, state.timestamp)
  }

  /** Without a window the timestamp is the block's time, or one more than a stored timestamp that is not earlier. */
  lemma ExpectedFollowsTheClock(cfg: Config, hdr: Header, state: BlockState)
    requires cfg.time.window.None? && hdr.time >= 0
    ensures ExpectedTimestamp(cfg, hdr, state)
            == if hdr.time > state.timestamp then hdr.time else (state.timestamp + 1) % TWO_64
  {
  }

  /** In the window it is the height of the block plus the offset. */
  lemma ExpectedFollowsTheHeight(cfg: Config, hdr: Header, state: BlockState)
    requires cfg.time.window.Some? && cfg.time.window.value.start <= hdr.height
    requires cfg.time.window.value.stop.Some? ==> hdr.height < cfg.time.window.value.stop.value
    ensures ExpectedTimestamp(cfg, hdr, state) == (hdr.height + cfg.time.window.value.offset) % TWO_64
  {
    TimestampInsideWindow(cfg.time, hdr.time, hdr.height, state.timestamp);
  }

  function ValidatePayload(cfg: Config, hdr: Header, msg: PayloadMsg, state: BlockState): Option<ExecutableData> {
    if msg.authority != cfg.moduleAddress then None
    else if !msg.payload.Json? then None
    else
      var p := msg.payload.data;
      if p.withdrawals.Some? && p.withdrawals.value > 0 then None
      else if p.withdrawals.None? || p.blobGasUsed.None? || p.excessBlobGas.None? then None
      else if p.hasWitness then None
      else if p.parentHash != state.hash then None
      else if p.number != ToUint64(state.height + 1) then None
      else if p.timestamp <= state.timestamp then None
      else if p.timestamp != ExpectedTimestamp(cfg, hdr, state) then None
      else Some(p)
  }

  /** The payload extends the stored block and keeps to the attributes the proposer sends. */
  predicate Honours(cfg: Config, hdr: Header, state: BlockState, p: ExecutableData) {
    && p.parentHash == state.hash && p.number == ToUint64(state.height + 1)
    && p.timestamp == ExpectedTimestamp(cfg, hdr, state)
    && p.withdrawals == Some(0) && p.blobGasUsed.Some? && p.excessBlobGas.Some? && !p.hasWitness
  }

  /** A payload around the given transactions that extends the stored block. */
  function HonestPayload(cfg: Config, hdr: Header, state: BlockState, txs: seq<EvmTx>): (p: ExecutableData)
    ensures Honours(cfg, hdr, state, p)
  {
    ExecutableData(state.hash, ToUint64(state.height + 1), ExpectedTimestamp(cfg, hdr, state), 1,
                   Some(0), Some(0), Some(0), false, txs)
  }

  /** The chain of checks accepts exactly the module's own payloads that extend the stored block at a later time. */
  lemma ValidPayloadMeans(cfg: Config, hdr: Header, msg: PayloadMsg, state: BlockState, p: ExecutableData)
    ensures ValidatePayload(cfg, hdr, msg, state) == Some(p)
            <==> && msg == PayloadMsg(cfg.moduleAddress, Json(p))
                 && Honours(cfg, hdr, state, p)
                 && p.timestamp > state.timestamp
    ensures var r := ValidatePayload(cfg, hdr, msg, state);
            r.Some? ==> msg.payload == Json(r.value)
  {
  }

  // ---------------------------------------------------------------- sendPayload

  /** The blob hashes of all transactions in order, if every transaction decodes. */
  function BlobHashes(txs: seq<EvmTx>): Option<seq<Hash>> {
    if txs == [] then Some([])
    else if txs[0].Undecodable? then None
    else match BlobHashes(txs[1..])
      case None => None
      case Some(rest) => Some(txs[0].blobHashes + rest)
  }

  /** The versioned hashes to send, unless `sendPayload` fails before it reaches the engine. */
  function VersionedHashes(hdr: Header, p: ExecutableData): (r: Option<seq<Hash>>)
    ensures r.Some? ==> |r.value| <= MAX_BLOBS
  {
    if hdr.appHash == 0 then None else
    match BlobHashes(p.transactions)
    case None => None
    case Some(hashes) => if |hashes| > MAX_BLOBS then None else Some(hashes)
  }

  /** Blob hashes of one transaction are its own, and those of two lists stand one behind the other. */
  lemma {:induction false} BlobHashesConcat(a: seq<EvmTx>, b: seq<EvmTx>)
    ensures BlobHashes(a + b) == if BlobHashes(a).None? || BlobHashes(b).None? then None
                                 else Some(BlobHashes(a).value + BlobHashes(b).value)
    ensures forall hs :: BlobHashes([Decoded(hs)]) == Some(hs)
    ensures BlobHashes([Undecodable]) == None && BlobHashes([]) == Some([])
  {
    forall hs ensures BlobHashes([Decoded(hs)]) == Some(hs) {
      assert [Decoded(hs)][1..] == [] && hs + [] == hs;
    }
    if a == [] {
      assert a + b == b;
      if BlobHashes(b).Some? { assert [] + BlobHashes(b).value == BlobHashes(b).value; }
    } else {
      assert (a + b)[1..] == a[1..] + b;
      BlobHashesConcat(a[1..], b);
      if BlobHashes(a).Some? && BlobHashes(b).Some? {
        var x, y, z := a[0].blobHashes, BlobHashes(a[1..]).value, BlobHashes(b).value;
        assert x + (y + z) == x + y + z;
      }
    }
  }

  /** A payload can be sent with these hashes: an app hash, decodable transactions, at most six blobs. */
  ghost predicate Sendable(hdr: Header, p: ExecutableData, hashes: seq<Hash>) {
    hdr.appHash != 0 && BlobHashes(p.transactions) == Some(hashes) && |hashes| <= 6
  }

  lemma VersionedHashesMeans(hdr: Header, p: ExecutableData, hashes: seq<Hash>)
    ensures VersionedHashes(hdr, p) == Some(hashes) <==> Sendable(hdr, p, hashes)
    ensures VersionedHashes(hdr, p).None? <==>
            || hdr.appHash == 0
            || (exists i :: 0 <= i < |p.transactions| && p.transactions[i].Undecodable?)
            || (BlobHashes(p.transactions).Some? && |BlobHashes(p.transactions).value| > 6)
  {
    SomeUndecodable(p.transactions);
  }

  /** The hashes are missing exactly if some transaction does not decode. */
  lemma {:induction false} SomeUndecodable(txs: seq<EvmTx>)
    ensures BlobHashes(txs).None? <==> exists i :: 0 <= i < |txs| && txs[i].Undecodable?
  {
    if txs != [] {
      SomeUndecodable(txs[1..]);
      if BlobHashes(txs).None? && txs[0].Decoded? {
        var i :| 0 <= i < |txs[1..]| && txs[1..][i].Undecodable?;
        assert txs[i + 1].Undecodable?;
      }
      if i: nat :| i < |txs| && txs[i].Undecodable? { UndecodableSpoilsAll(txs, i); }
    }
  }

  lemma {:induction false} BlobHashesAppend(txs: seq<EvmTx>, t: EvmTx)
    ensures BlobHashes(txs + [t]) ==
            if BlobHashes(txs).None? || t.Undecodable? then None else Some(BlobHashes(txs).value + t.blobHashes)
  {
    if txs == [] {
      assert txs + [t] == [t] && [t][1..] == [];
      if t.Decoded? { assert t.blobHashes + [] == [] + t.blobHashes; }
    } else {
      assert (txs + [t])[1..] == txs[1..] + [t];
      BlobHashesAppend(txs[1..], t);
      if BlobHashes(txs).Some? && t.Decoded? {
        var rest := BlobHashes(txs[1..]).value;
        assert txs[0].blobHashes + (rest + t.blobHashes) == txs[0].blobHashes + rest + t.blobHashes;
      }
    }
  }

  lemma {:induction false} UndecodableSpoilsAll(txs: seq<EvmTx>, i: nat)
    requires i < |txs| && txs[i].Undecodable?
    ensures BlobHashes(txs).None?
  {
    if i > 0 { UndecodableSpoilsAll(txs[1..], i - 1); }
  }

  method CollectVersionedHashes(hdr: Header, p: ExecutableData) returns (r: Option<seq<Hash>>)
    ensures r == VersionedHashes(hdr, p)
  {
    if hdr.appHash == 0 { return None; }
    var hashes := [];
    var txs := p.transactions;
    for i := 0 to |txs|
      invariant BlobHashes(txs[..i]) == Some(hashes)
    {
      if txs[i].Undecodable? {
        UndecodableSpoilsAll(txs, i);
        return None;
      }
      BlobHashesAppend(txs[..i], txs[i]);
      assert txs[..i + 1] == txs[..i] + [txs[i]];
      assert |txs[i].blobHashes| == 0 ==> hashes + txs[i].blobHashes == hashes;
      if |txs[i].blobHashes| > 0 { hashes := hashes + txs[i].blobHashes; }
    }
    assert txs[..|txs|] == txs;
    if |hashes| > MAX_BLOBS { return None; }
    r := Some(hashes);
  }

  // ---------------------------------------------------------------- ExecutionPayload

  datatype ExecMode = Finalize | OtherMode

  /**
   The engine and the context during one message: the answer to every attempt, when the
   context is found done, and whether the store accepts the final write. A call that
   returns does so at the latest at the attempt given by the bound.
   */
  datatype EngineScript = EngineScript(
    np: nat -> Rpc<Status>,
    npDone: nat -> bool,
    npBound: nat,
    fc: nat -> Rpc<ForkchoiceReply>,
    fcDone: nat -> bool,
    fcBound: nat,
    storeFails: bool)

  ghost predicate Returns(env: EngineScript) {
    env.npDone(env.npBound) && env.fcDone(env.fcBound)
  }

  /** newPayload: errors are retried, any status but VALID and SYNCING is final. */
  function NewPayloadAttempt(answer: Rpc<Status>): Attempt {
    if answer.RpcError? then Again else if answer.value.VALID? || answer.value.SYNCING? then Done else Stop
  }

  /** forkchoiceUpdated: errors (ACCEPTED among them) are retried, INVALID is final. */
  function FinalizeAttempt(answer: Rpc<ForkchoiceReply>): Attempt {
    var seen := ClientForkchoice(answer);
    if seen.RpcError? then Again else if seen.value.status.INVALID? then Stop else Done
  }

  function NewPayloadAttempts(env: EngineScript): nat -> Attempt {
    (k: nat) => NewPayloadAttempt(env.np(k))
  }

  function FinalizeAttempts(env: EngineScript): nat -> Attempt {
    (k: nat) => FinalizeAttempt(env.fc(k))
  }

  function NewPayloadEvent(cfg: Config, hdr: Header, p: ExecutableData, blobs: seq<Hash>, answer: Rpc<Status>): Event {
    NewPayload(NewPayloadVersion(cfg.spec, p.timestamp), p.blockHash, blobs, hdr.appHash, answer)
  }

  function FinalizeEvent(p: ExecutableData, answer: Rpc<ForkchoiceReply>): Event {
    Forkchoice(p.blockHash, p.blockHash, p.blockHash, None, answer)
  }

  function NewPayloadEvents(cfg: Config, hdr: Header, p: ExecutableData, blobs: seq<Hash>, env: EngineScript, n: nat)
    : (r: seq<Event>)
    ensures |r| == n
    ensures forall i :: 0 <= i < n ==> r[i] == NewPayloadEvent(cfg, hdr, p, blobs, env.np(i))
  {
    if n == 0 then []
    else NewPayloadEvents(cfg, hdr, p, blobs, env, n - 1) + [NewPayloadEvent(cfg, hdr, p, blobs, env.np(n - 1))]
  }

  function FinalizeEvents(p: ExecutableData, env: EngineScript, n: nat): (r: seq<Event>)
    ensures |r| == n
    ensures forall i :: 0 <= i < n ==> r[i] == FinalizeEvent(p, env.fc(i))
  {
    if n == 0 then [] else FinalizeEvents(p, env, n - 1) + [FinalizeEvent(p, env.fc(n - 1))]
  }

  /** What a retried phase did: whether it succeeded, and the calls it made. */
  datatype Phase = Phase(ok: bool, events: seq<Event>)

  ghost function SendPhase(cfg: Config, hdr: Header, p: ExecutableData, env: EngineScript): Phase
    requires Returns(env)
  {
    match VersionedHashes(hdr, p)
    case None => Phase(false, [])
    case Some(blobs) =>
      var last := LastAttempt(NewPayloadAttempts(env), env.npDone, env.npBound, 0);
      Phase(NewPayloadAttempt(env.np(last)).Done?, NewPayloadEvents(cfg, hdr, p, blobs, env, last + 1))
  }

  ghost function FinalizePhase(p: ExecutableData, env: EngineScript): Phase
    requires Returns(env)
  {
    var last := LastAttempt(FinalizeAttempts(env), env.fcDone, env.fcBound, 0);
    Phase(FinalizeAttempt(env.fc(last)).Done?, FinalizeEvents(p, env, last + 1))
  }

  // what the answers must be, on the raw answers

  /** newPayload: attempt n is answered VALID or SYNCING, and all before failed with time left. */
  ghost predicate AdmittedAfter(env: EngineScript, n: nat) {
    && (env.np(n) == Reply(VALID) || env.np(n) == Reply(SYNCING))
    && forall j :: 0 <= j < n ==> env.np(j).RpcError? && !env.npDone(j)
  }

  /** forkchoiceUpdated: answer n is neither INVALID nor ACCEPTED; before, errors or ACCEPTED with time left. */
  ghost predicate FinalizedAfter(env: EngineScript, n: nat) {
    && env.fc(n).Reply? && env.fc(n).value.status != INVALID && env.fc(n).value.status != ACCEPTED
    && forall j :: 0 <= j < n ==>
         (env.fc(j).RpcError? || env.fc(j).value.status == ACCEPTED) && !env.fcDone(j)
  }

  lemma SendSucceedsIff(cfg: Config, hdr: Header, p: ExecutableData, env: EngineScript)
    requires Returns(env) && VersionedHashes(hdr, p).Some?
    ensures SendPhase(cfg, hdr, p, env).ok <==> exists n: nat :: AdmittedAfter(env, n)
    ensures forall n: nat :: AdmittedAfter(env, n) ==> |SendPhase(cfg, hdr, p, env).events| == n + 1
  {
    hide VersionedHashes, NewPayloadEvents;
    var attempts := NewPayloadAttempts(env);
    var last := LastAttempt(attempts, env.npDone, env.npBound, 0);
    assert forall k: nat :: attempts(k) == NewPayloadAttempt(env.np(k));
    forall n: nat | AdmittedAfter(env, n) ensures n == last {
      assert attempts(n).Done? && forall j: nat :: j < n ==> attempts(j).Again?;
    }
    if SendPhase(cfg, hdr, p, env).ok {
      forall j: nat | j < last ensures env.np(j).RpcError? && !env.npDone(j) { assert attempts(j).Again?; }
      assert AdmittedAfter(env, last);
    }
  }

  lemma FinalizeSucceedsIff(p: ExecutableData, env: EngineScript)
    requires Returns(env)
    ensures FinalizePhase(p, env).ok <==> exists n: nat :: FinalizedAfter(env, n)
    ensures forall n: nat :: FinalizedAfter(env, n) ==> |FinalizePhase(p, env).events| == n + 1
  {
    hide FinalizeEvents;
    var attempts := FinalizeAttempts(env);
    var last := LastAttempt(attempts, env.fcDone, env.fcBound, 0);
    assert forall k: nat :: attempts(k) == FinalizeAttempt(env.fc(k));
    forall n: nat | FinalizedAfter(env, n) ensures n == last {
      assert attempts(n).Done? && forall j: nat :: j < n ==> attempts(j).Again?;
    }
    if FinalizePhase(p, env).ok {
      forall j: nat | j < last
        ensures (env.fc(j).RpcError? || env.fc(j).value.status == ACCEPTED) && !env.fcDone(j)
      {
        assert attempts(j).Again?;
      }
      assert FinalizedAfter(env, last);
    }
  }

  datatype Handled = Handled(state: Option<BlockState>, events: seq<Event>, ok: bool)

  function BlockStateOf(p: ExecutableData): BlockState {
    BlockState(p.blockHash, p.number, p.timestamp)
  }

  /** `ExecutionPayload`: the stored state changes only after both phases succeeded. */
  ghost function HandlePayload(cfg: Config, state: Option<BlockState>, mode: ExecMode, msg: PayloadMsg, hdr: Header,
                               env: EngineScript): Handled
    requires Returns(env)
  {
    if mode.OtherMode? || msg.payload.NoBytes? || state.None? then Handled(state, [], false) else
    match ValidatePayload(cfg, hdr, msg, state.value)
    case None => Handled(state, [], false)
    case Some(p) =>
      var sent := SendPhase(cfg, hdr, p, env);
      if !sent.ok then Handled(state, sent.events, false) else
      var fin := FinalizePhase(p, env);
      if !fin.ok || env.storeFails then Handled(state, sent.events + fin.events, false)
      else Handled(Some(BlockStateOf(p)), sent.events + fin.events, true)
  }

  /** The message is the module's own, and p extends the stored block at a later, expected time and can be sent. */
  ghost predicate Deliverable(cfg: Config, state: BlockState, msg: PayloadMsg, hdr: Header, p: ExecutableData) {
    && msg == PayloadMsg(cfg.moduleAddress, Json(p))
    && Honours(cfg, hdr, state, p) && p.timestamp > state.timestamp
    && exists hashes :: Sendable(hdr, p, hashes)
  }

  /**
   Exactly when a message is handled without an error: it is finalized, on a stored block, with a
   deliverable payload; the engine admits it and then finalizes it, each time before the context
   ends; and the store accepts the write. Then the new state is the payload's block.
   */
  lemma MessageSucceedsIff(cfg: Config, state: Option<BlockState>, mode: ExecMode, msg: PayloadMsg, hdr: Header,
                           env: EngineScript)
    requires Returns(env)
    ensures var r := HandlePayload(cfg, state, mode, msg, hdr, env);
            && (r.ok <==> && mode.Finalize? && state.Some? && msg.payload.Json?
                          && Deliverable(cfg, state.value, msg, hdr, msg.payload.data)
                          && (exists n: nat :: AdmittedAfter(env, n)) && (exists n: nat :: FinalizedAfter(env, n))
                          && !env.storeFails)
            && (r.ok ==> var p := msg.payload.data; r.state == Some(BlockState(p.blockHash, p.number, p.timestamp)))
            && (!r.ok ==> r.state == state)
  {
    hide SendPhase, FinalizePhase, ValidatePayload, VersionedHashes, Honours, Sendable, AdmittedAfter, FinalizedAfter;
    if mode.Finalize? && state.Some? && msg.payload.Json? {
      var p := msg.payload.data;
      ValidPayloadMeans(cfg, hdr, msg, state.value, p);
      var valid := ValidatePayload(cfg, hdr, msg, state.value);
      assert valid.Some? ==> valid == Some(p);
      SendableIff(hdr, p);
      if VersionedHashes(hdr, p).Some? { SendSucceedsIff(cfg, hdr, p, env); } else { Unsendable(cfg, hdr, p, env); }
      FinalizeSucceedsIff(p, env);
    } else {
      NotJson(cfg, hdr, msg, state);
    }
  }

  lemma SendableIff(hdr: Header, p: ExecutableData)
    ensures VersionedHashes(hdr, p).Some? <==> exists hashes :: Sendable(hdr, p, hashes)
  {
    hide VersionedHashes, Sendable;
    forall hashes ensures VersionedHashes(hdr, p) == Some(hashes) <==> Sendable(hdr, p, hashes) {
      VersionedHashesMeans(hdr, p, hashes);
    }
    if VersionedHashes(hdr, p).Some? { assert Sendable(hdr, p, VersionedHashes(hdr, p).value); }
  }

  lemma Unsendable(cfg: Config, hdr: Header, p: ExecutableData, env: EngineScript)
    requires Returns(env) && VersionedHashes(hdr, p).None?
    ensures SendPhase(cfg, hdr, p, env) == Phase(false, [])
  {
  }

  lemma NotJson(cfg: Config, hdr: Header, msg: PayloadMsg, state: Option<BlockState>)
    ensures state.Some? && !msg.payload.Json? ==> ValidatePayload(cfg, hdr, msg, state.value).None?
  {
  }
}
