/**
 The keeper as an object: the stored block state, and the engine calls it makes inside
 `retry` loops (cosmos/x/evm/keeper/msg_server.go and abci.go). The trace records every call.
 */
module EvmNode {
  import opened Options
  import opened Engine
  import opened Retrying
  import opened ChainSpecs
  import opened Keeper
  import opened Building
  import opened Proposals

  lemma NoNewPayloads(cfg: Config, hdr: Header, p: ExecutableData, blobs: seq<Hash>, env: EngineScript)
    ensures NewPayloadEvents(cfg, hdr, p, blobs, env, 0) == []
  {
  }

  lemma MoreNewPayloads(cfg: Config, hdr: Header, p: ExecutableData, blobs: seq<Hash>, env: EngineScript, k: nat)
    ensures NewPayloadEvents(cfg, hdr, p, blobs, env, k + 1)
            == NewPayloadEvents(cfg, hdr, p, blobs, env, k) + [NewPayloadEvent(cfg, hdr, p, blobs, env.np(k))]
  {
    hide NewPayloadEvent;
  }

  class EvmKeeper {
    const cfg: Config
    var blockState: Option<BlockState>
    ghost var trace: seq<Event>

    constructor (cfg: Config, genesis: Option<BlockState>)
      ensures this.cfg == cfg && blockState == genesis && trace == []
    {
      this.cfg, blockState, trace := cfg, genesis, [];
    }

    /** `retry` around `sendPayload`. */
    method RetrySendPayload(hdr: Header, p: ExecutableData, env: EngineScript) returns (ok: bool)
      requires Returns(env)
      modifies this`trace
      ensures ok == SendPhase(cfg, hdr, p, env).ok && trace == old(trace) + SendPhase(cfg, hdr, p, env).events
    {
      hide VersionedHashes, LastAttempt, NewPayloadEvent, NewPayloadEvents, NewPayloadVersion;
      var k := 0;
      ghost var last := LastAttempt(NewPayloadAttempts(env), env.npDone, env.npBound, 0);
      ghost var sendable := VersionedHashes(hdr, p);
      if sendable.Some? { NoNewPayloads(cfg, hdr, p, sendable.value, env); }
      while true
        invariant k <= env.npBound
        invariant sendable.Some? ==> k <= last
        invariant trace == old(trace) +
                           if sendable.None? then [] else NewPayloadEvents(cfg, hdr, p, sendable.value, env, k)
        decreases env.npBound - k
      {
        assert NewPayloadAttempts(env)(k) == NewPayloadAttempt(env.np(k));
        var blobs := CollectVersionedHashes(hdr, p);
        if blobs.Some? {
          MoreNewPayloads(cfg, hdr, p, blobs.value, env, k);
          var answer := env.np(k);
          trace := trace + [NewPayloadEvent(cfg, hdr, p, blobs.value, answer)];
          if answer.Reply? {
            return answer.value.VALID? || answer.value.SYNCING?;
          }
        }
        if env.npDone(k) { return false; }
        k := k + 1;
      }
    }

    /** `retry` around the finalizing `ForkchoiceUpdatedV3`. */
    method RetryForkchoice(p: ExecutableData, env: EngineScript) returns (ok: bool)
      requires Returns(env)
      modifies this`trace
      ensures ok == FinalizePhase(p, env).ok && trace == old(trace) + FinalizePhase(p, env).events
    {
      hide LastAttempt;
      var k := 0;
      ghost var last := LastAttempt(FinalizeAttempts(env), env.fcDone, env.fcBound, 0);
      while true
        invariant k <= last && trace == old(trace) + FinalizeEvents(p, env, k)
        decreases env.fcBound - k
      {
        assert FinalizeAttempts(env)(k) == FinalizeAttempt(env.fc(k));
        var raw := env.fc(k);
        trace := trace + [FinalizeEvent(p, raw)];
        var response := ClientForkchoice(raw);
        if response.Reply? { return !response.value.status.INVALID?; }
        if env.fcDone(k) { return false; }
        k := k + 1;
      }
    }

    method ExecutionPayload(mode: ExecMode, req: PayloadMsg, hdr: Header, env: EngineScript) returns (ok: bool)
      requires Returns(env)
      modifies this
      ensures old(trace) <= trace
      ensures Handled(blockState, trace[|old(trace)|..], ok)
              == HandlePayload(cfg, old(blockState), mode, req, hdr, env)
      ensures !ok ==> blockState == old(blockState)
    {
      hide SendPhase, FinalizePhase, ValidatePayload;
      if mode.OtherMode? { return false; }
      if req.payload.NoBytes? { return false; }
      if blockState.None? { return false; }
      var payload := ValidatePayload(cfg, hdr, req, blockState.value);
      if payload.None? { return false; }
      var p := payload.value;
      ok := RetrySendPayload(hdr, p, env);
      if !ok { return; }
      ok := RetryForkchoice(p, env);
      if !ok { return; }
      if env.storeFails { return false; }
      blockState := Some(BlockStateOf(p));
    }

    /** `retry` around `buildExecutionPayload`. */
    method RetryBuild(hdr: Header, state: BlockState, env: BuildScript) returns (id: Option<nat>, attempts: nat)
      requires Timely(env)
      modifies this`trace
      ensures attempts == BuildLast(env) + 1
      ensures trace == old(trace) + BuildEvents(cfg, hdr, state, env, attempts)
      ensures var answer := env.fc(BuildLast(env));
              id == if BuildAttempt(answer).Done? then ClientForkchoice(answer).value.payloadId else None
    {
      hide BuildExpired, ExpectedTimestamp;
      attempts := 0;
      BuildReturns(env);
      while true
        invariant attempts <= BuildLast(env)
        invariant trace == old(trace) + BuildEvents(cfg, hdr, state, env, attempts)
        decreases MAX_ATTEMPTS - attempts
      {
        assert BuildAttempts(env)(attempts) == BuildAttempt(env.fc(attempts));
        var raw := env.fc(attempts);
        trace := trace + [BuildEvent(cfg, hdr, state, raw)];
        var response := ClientForkchoice(raw);
        var expired := BuildExpired(env)(attempts);
        attempts := attempts + 1;
        if response.Reply? {
          if !response.value.status.VALID? { return None, attempts; }
          return response.value.payloadId, attempts;
        }
        if expired { return None, attempts; }
      }
    }

    /** `retry` around `getPayload`, with its counter of consecutive unknown-payload answers. */
    method RetryFetch(version: int, id: nat, env: BuildScript) returns (payload: Option<ExecutableData>)
      requires Timely(env)
      modifies this`trace
      ensures trace == old(trace) + FetchEvents(version, id, env, FetchLast(env) + 1)
      ensures payload == if env.gp(FetchLast(env)).Reply? then Some(env.gp(FetchLast(env)).value) else None
    {
      hide FetchExpired, Elapsed;
      var k, consecutiveUnknown := 0, 0;
      FetchReturns(env);
      while true
        invariant k <= FetchLast(env)
        invariant consecutiveUnknown == if k == 0 then 0 else UnknownStreak(env.gp, k - 1)
        invariant trace == old(trace) + FetchEvents(version, id, env, k)
        decreases MAX_ATTEMPTS - k
      {
        assert FetchAttempts(env)(k) == FetchAttempt(env.gp, k);
        var answer := env.gp(k);
        trace := trace + [GetPayload(version, id, answer)];
        if answer.RpcError? && answer.unknownPayload {
          consecutiveUnknown := consecutiveUnknown + 1;
          if consecutiveUnknown >= MAX_UNKNOWN { return None; }
        } else {
          consecutiveUnknown := 0;
          if answer.Reply? { return Some(answer.value); }
        }
        if FetchExpired(env)(k) { return None; }
        k := k + 1;
      }
    }

    /** The keeper's `PrepareProposal` above height 1, up to the payload it proposes. */
    method BuildPayload(hdr: Header, env: BuildScript) returns (payload: Option<ExecutableData>)
      requires Timely(env)
      modifies this`trace
      ensures old(trace) <= trace
      ensures Built(payload, trace[|old(trace)|..]) == ProposePayload(cfg, blockState, hdr, env)
    {
      hide BuildLast, FetchLast, BuildEvents, FetchEvents, ExpectedTimestamp;
      if blockState.None? { return None; }
      var state := blockState.value;
      var timestamp := ExpectedTimestamp(cfg, hdr, state);
      var id, attempts := RetryBuild(hdr, state, env);
      if id.None? { return None; }
      if env.buildWaitFails { return None; }
      var version :=
        if Active(cfg.spec.osaka, timestamp) then 5 else if Active(cfg.spec.prague, timestamp) then 4 else 3;
      payload := RetryFetch(version, id.value, env);
    }
  }

  /** `makePrepareProposalHandler`: permitted mempool transactions first, the EVM payload last. */
  method PrepareProposal(keeper: EvmKeeper, maxCosmosTxs: int, height: int, mempool: seq<RawTx>, hdr: Header,
                         env: BuildScript, size: nat)
    returns (block: Option<seq<RawTx>>)
    requires Timely(env)
    modifies keeper`trace
    ensures old(keeper.trace) <= keeper.trace
    ensures height == 1 ==> block == Some([]) && keeper.trace == old(keeper.trace)
    ensures height != 1 ==>
              var built := ProposePayload(keeper.cfg, keeper.blockState, hdr, env);
              && keeper.trace == old(keeper.trace) + built.events
              && block == ProposedBlock(keeper.cfg, maxCosmosTxs, height, mempool, built.payload, size)
  {
    hide ProposePayload, SelectTxs;
    if height == 1 { return Some([]); }
    var cosmosTxs := CollectTxs(keeper.cfg, mempool, maxCosmosTxs);
    var payload := keeper.BuildPayload(hdr, env);
    if payload.None? { return None; }
    if size > MAX_TX_SIZE { return None; }
    block := Some(cosmosTxs + [PayloadTx(keeper.cfg, payload.value, size)]);
  }
}
