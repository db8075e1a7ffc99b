/** Building a block on the stored state: `PrepareProposal` in cosmos/x/evm/keeper/abci.go. */
module Building {
  import opened GoInts
  import opened Options
  import opened Engine
  import opened Retrying
  import opened ChainSpecs
  import opened Keeper

  /**
   The engine and the clock while a payload is built: the answer and the duration of every
   attempt, how long each sleep overran, and the context's deadline.
   */
  datatype BuildScript = BuildScript(
    fc: nat -> Rpc<ForkchoiceReply>,
    fcDuration: nat -> nat,
    fcOversleep: nat -> nat,
    buildWaitFails: bool,              // the context ended during the build delay
    gp: nat -> Rpc<ExecutableData>,
    gpDuration: nat -> nat,
    gpOversleep: nat -> nat,
    deadline: nat)

  /** `context.WithTimeout` keeps the earlier of the caller's deadline and the prepare timeout. */
  predicate Timely(env: BuildScript) {
    env.deadline <= PREPARE_TIMEOUT
  }

  const MAX_ATTEMPTS: nat := PREPARE_TIMEOUT / RETRY_DELAY

  // ---------------------------------------------------------------- forkchoiceUpdated with attributes

  function BuildAttempt(answer: Rpc<ForkchoiceReply>): Attempt {
    var seen := ClientForkchoice(answer);
    if seen.RpcError? then Again
    else if !seen.value.status.VALID? || seen.value.payloadId.None? then Stop
    else Done
  }

  function BuildAttempts(env: BuildScript): nat -> Attempt {
    (k: nat) => BuildAttempt(env.fc(k))
  }

  function BuildExpired(env: BuildScript): nat -> bool {
    DeadlinePassed(0, env.deadline, env.fcDuration, env.fcOversleep)
  }

  lemma BuildReturns(env: BuildScript)
    requires Timely(env)
    ensures BuildExpired(env)(MAX_ATTEMPTS)
  {
    DeadlineBoundsAttempts(0, env.deadline, env.fcDuration, env.fcOversleep);
  }

  function BuildLast(env: BuildScript): nat
    requires Timely(env)
  {
    BuildReturns(env);
    LastAttempt(BuildAttempts(env), BuildExpired(env), MAX_ATTEMPTS, 0)
  }

  function BuildEvent(cfg: Config, hdr: Header, state: BlockState, answer: Rpc<ForkchoiceReply>): Event {
    Forkchoice(state.hash, state.hash, state.hash,
               Some(Attributes(ExpectedTimestamp(cfg, hdr, state), state.hash, cfg.feeRecipient, 0, hdr.appHash)),
               answer)
  }

  function BuildEvents(cfg: Config, hdr: Header, state: BlockState, env: BuildScript, n: nat): (r: seq<Event>)
    ensures |r| == n
    ensures forall i :: 0 <= i < n ==> r[i] == BuildEvent(cfg, hdr, state, env.fc(i))
  {
    if n == 0 then []
    else BuildEvents(cfg, hdr, state, env, n - 1) + [BuildEvent(cfg, hdr, state, env.fc(n - 1))]
  }

  // ---------------------------------------------------------------- getPayload

  /** How many answers in a row, up to and including answer k, were unknown-payload errors. */
  function UnknownStreak(gp: nat -> Rpc<ExecutableData>, k: nat): nat {
    if gp(k).RpcError? && gp(k).unknownPayload then 1 + (if k == 0 then 0 else UnknownStreak(gp, k - 1)) else 0
  }

  function FetchAttempt(gp: nat -> Rpc<ExecutableData>, k: nat): Attempt {
    if gp(k).Reply? then Done
    else if gp(k).unknownPayload && UnknownStreak(gp, k) >= MAX_UNKNOWN then Stop
    else Again
  }

  function FetchAttempts(env: BuildScript): nat -> Attempt {
    (k: nat) => FetchAttempt(env.gp, k)
  }

  function FetchExpired(env: BuildScript): nat -> bool
    requires Timely(env)
  {
    DeadlinePassed(Elapsed(env.fcDuration, env.fcOversleep, BuildLast(env)) + BUILD_DELAY,
                   env.deadline, env.gpDuration, env.gpOversleep)
  }

  lemma FetchReturns(env: BuildScript)
    requires Timely(env)
    ensures FetchExpired(env)(MAX_ATTEMPTS)
  {
    DeadlineBoundsAttempts(Elapsed(env.fcDuration, env.fcOversleep, BuildLast(env)) + BUILD_DELAY,
                           env.deadline, env.gpDuration, env.gpOversleep);
  }

  function FetchLast(env: BuildScript): nat
    requires Timely(env)
  {
    FetchReturns(env);
    LastAttempt(FetchAttempts(env), FetchExpired(env), MAX_ATTEMPTS, 0)
  }

  function FetchEvents(version: int, id: nat, env: BuildScript, n: nat): (r: seq<Event>)
    ensures |r| == n
    ensures forall i :: 0 <= i < n ==> r[i] == GetPayload(version, id, env.gp(i))
  {
    if n == 0 then [] else FetchEvents(version, id, env, n - 1) + [GetPayload(version, id, env.gp(n - 1))]
  }

  // ---------------------------------------------------------------- the whole build

  datatype Built = Built(payload: Option<ExecutableData>, events: seq<Event>)

  function ProposePayload(cfg: Config, state: Option<BlockState>, hdr: Header, env: BuildScript): Built
    requires Timely(env)
  {
    if state.None? then Built(None, []) else
    var asked := BuildEvents(cfg, hdr, state.value, env, BuildLast(env) + 1);
    var answer := env.fc(BuildLast(env));
    if !BuildAttempt(answer).Done? || env.buildWaitFails then Built(None, asked) else
    var version := GetPayloadVersion(cfg.spec, ExpectedTimestamp(cfg, hdr, state.value));
    var fetched := FetchEvents(version, answer.value.payloadId.value, env, FetchLast(env) + 1);
    var last := env.gp(FetchLast(env));
    Built(if last.Reply? then Some(last.value) else None, asked + fetched)
  }

  // ---------------------------------------------------------------- what is asked for

  /** A payload that keeps to what a forkchoice call with attributes asked for, on a parent of the given height. */
  predicate Obeys(ask: Event, parentHeight: uint64, p: ExecutableData) {
    && ask.Forkchoice? && ask.attrs.Some?
    && p.parentHash == ask.head && p.number == ToUint64(parentHeight + 1)
    && p.timestamp == ask.attrs.value.timestamp && p.withdrawals == Some(ask.attrs.value.withdrawals)
    && p.blobGasUsed.Some? && p.excessBlobGas.Some? && !p.hasWitness
  }

  /**
   The proposer asks for exactly what validators will accept: every forkchoice call names the
   stored block, carries its hash as randomness and the app hash as beacon root, and a payload
   obeys it if and only if it honours the validators' expectations.
   */
  lemma AsksForWhatIsValid(cfg: Config, state: BlockState, hdr: Header, env: BuildScript, y: nat, p: ExecutableData)
    requires Timely(env) && y < |ProposePayload(cfg, Some(state), hdr, env).events|
    ensures ProposePayload(cfg, Some(state), hdr, env).events[0].Forkchoice?
    ensures var e := ProposePayload(cfg, Some(state), hdr, env).events[y];
            e.Forkchoice? ==>
              && e.head == e.safe == e.finalized == state.hash && e.attrs.Some?
              && e.attrs.value.random == state.hash && e.attrs.value.beaconRoot == hdr.appHash
              && e.attrs.value.feeRecipient == cfg.feeRecipient
              && (Obeys(e, state.height, p) <==> Honours(cfg, hdr, state, p))
  {
    hide ExpectedTimestamp, BuildLast, FetchLast, GetPayloadVersion;
  }

  // ---------------------------------------------------------------- when a payload is delivered

  /** forkchoiceUpdated: attempt n is VALID with a payload id; before, errors or ACCEPTED with time left. */
  ghost predicate AskedUntil(env: BuildScript, n: nat) {
    && env.fc(n).Reply? && env.fc(n).value.status == VALID && env.fc(n).value.payloadId.Some?
    && forall j :: 0 <= j < n ==>
         && (env.fc(j).RpcError? || env.fc(j).value.status == ACCEPTED)
         && Elapsed(env.fcDuration, env.fcOversleep, j) < env.deadline
  }

  /** Answer j completes 500 unknown-payload answers in a row. */
  ghost predicate FullStreak(gp: nat -> Rpc<ExecutableData>, j: nat) {
    j >= 499 && forall i: nat :: j - 500 < i <= j ==> gp(i) == RpcError(true)
  }

  /** getPayload, after n + 1 asks and the build delay: answer m is p; before, errors, no full streak, time left. */
  ghost predicate FetchedUntil(env: BuildScript, n: nat, m: nat, p: ExecutableData) {
    && env.gp(m) == Reply(p)
    && forall j :: 0 <= j < m ==>
         && env.gp(j).RpcError? && !FullStreak(env.gp, j)
         && Elapsed(env.fcDuration, env.fcOversleep, n) + BUILD_DELAY
            + Elapsed(env.gpDuration, env.gpOversleep, j) < env.deadline
  }

  lemma StreakIff(gp: nat -> Rpc<ExecutableData>, j: nat)
    ensures UnknownStreak(gp, j) >= MAX_UNKNOWN <==> FullStreak(gp, j)
  {
    hide UnknownStreak;
    StreakFits(gp, j);
    if UnknownStreak(gp, j) >= MAX_UNKNOWN {
      forall i: nat | j - 500 < i <= j ensures gp(i) == RpcError(true) { StreakIsUnknown(gp, j, i); }
    }
    if FullStreak(gp, j) { StreakGrows(gp, j - 499, 500); }
  }

  lemma AskedUntilLast(env: BuildScript, n: nat)
    requires Timely(env)
    ensures AskedUntil(env, n) <==> n == BuildLast(env) && BuildAttempt(env.fc(n)).Done?
  {
    hide Elapsed;
    BuildReturns(env);
    var last := BuildLast(env);
    assert forall k: nat :: BuildAttempts(env)(k) == BuildAttempt(env.fc(k));
    assert forall k: nat :: BuildExpired(env)(k) <==> Elapsed(env.fcDuration, env.fcOversleep, k) >= env.deadline;
    if AskedUntil(env, n) {
      assert BuildAttempts(env)(n).Done? && forall j: nat :: j < n ==> BuildAttempts(env)(j).Again?;
    }
    if n == last && BuildAttempt(env.fc(n)).Done? {
      assert forall j: nat :: j < n ==> BuildAttempts(env)(j).Again? && !BuildExpired(env)(j);
    }
  }

  lemma FetchedUntilLast(env: BuildScript, m: nat, p: ExecutableData)
    requires Timely(env)
    ensures FetchedUntil(env, BuildLast(env), m, p) <==> m == FetchLast(env) && env.gp(m) == Reply(p)
  {
    hide Elapsed, UnknownStreak, FullStreak, BuildLast;
    FetchReturns(env);
    var last := FetchLast(env);
    forall j: nat ensures UnknownStreak(env.gp, j) >= MAX_UNKNOWN <==> FullStreak(env.gp, j) { StreakIff(env.gp, j); }
    forall j: nat | FullStreak(env.gp, j) ensures env.gp(j) == RpcError(true) { FullStreakEnds(env.gp, j); }
    assert forall k: nat :: FetchAttempts(env)(k) == FetchAttempt(env.gp, k);
    assert forall k: nat :: FetchExpired(env)(k) <==>
             Elapsed(env.fcDuration, env.fcOversleep, BuildLast(env)) + BUILD_DELAY
             + Elapsed(env.gpDuration, env.gpOversleep, k) >= env.deadline;
    if FetchedUntil(env, BuildLast(env), m, p) {
      assert FetchAttempts(env)(m).Done? && forall j: nat :: j < m ==> FetchAttempts(env)(j).Again?;
    }
    if m == last && env.gp(m) == Reply(p) {
      forall j: nat | j < m ensures env.gp(j).RpcError? && !FullStreak(env.gp, j) && !FetchExpired(env)(j) {
        assert FetchAttempts(env)(j).Again?;
      }
    }
  }

  lemma FullStreakEnds(gp: nat -> Rpc<ExecutableData>, j: nat)
    requires FullStreak(gp, j)
    ensures gp(j) == RpcError(true)
  {
  }

  /**
   Exactly when the engine delivers p: a forkchoice call is answered VALID with an id, the build
   delay passes, and getPayload is answered with p, before the deadline and before 500
   unknown-payload answers in a row.
   */
  lemma PayloadDeliveredIff(cfg: Config, state: BlockState, hdr: Header, env: BuildScript, p: ExecutableData)
    requires Timely(env)
    ensures ProposePayload(cfg, Some(state), hdr, env).payload == Some(p) <==>
            && !env.buildWaitFails
            && exists n: nat, m: nat :: AskedUntil(env, n) && FetchedUntil(env, n, m, p)
  {
    hide BuildLast, FetchLast, BuildAttempt, AskedUntil, FetchedUntil, ExpectedTimestamp, BuildEvents, FetchEvents;
    forall n: nat ensures AskedUntil(env, n) <==> n == BuildLast(env) && BuildAttempt(env.fc(n)).Done? {
      AskedUntilLast(env, n);
    }
    forall m: nat
      ensures FetchedUntil(env, BuildLast(env), m, p) <==> m == FetchLast(env) && env.gp(m) == Reply(p)
    {
      FetchedUntilLast(env, m, p);
    }
    if BuildAttempt(env.fc(BuildLast(env))).Done? && env.gp(FetchLast(env)) == Reply(p) {
      assert AskedUntil(env, BuildLast(env)) && FetchedUntil(env, BuildLast(env), FetchLast(env), p);
    }
  }

  // ---------------------------------------------------------------- polling bounds

  /**
   Both polls end for every sequence of answers: they share the time until the deadline, so there
   are at most 1002 calls in all, and fewer once the build delay was waited for.
   */
  lemma PollingIsBounded(cfg: Config, state: Option<BlockState>, hdr: Header, env: BuildScript)
    requires Timely(env)
    ensures |ProposePayload(cfg, state, hdr, env).events| <= 1002
    ensures BuildLast(env) <= 1000
    ensures FetchLast(env) > 0 ==> BuildLast(env) + FetchLast(env) <= 990
  {
    hide Elapsed, GetPayloadVersion, ExpectedTimestamp, UnknownStreak;
    FetchReturns(env);
    if FetchLast(env) > 0 {
      var before := FetchLast(env) - 1;
      assert !FetchExpired(env)(before);
      ElapsedAtLeast(env.fcDuration, env.fcOversleep, BuildLast(env));
      ElapsedAtLeast(env.gpDuration, env.gpOversleep, before);
    }
  }

  lemma {:induction false} StreakGrows(gp: nat -> Rpc<ExecutableData>, from: nat, n: nat)
    requires n > 0 && forall i :: from <= i < from + n ==> gp(i) == RpcError(true)
    ensures UnknownStreak(gp, from + n - 1) >= n
  {
    if n > 1 { StreakGrows(gp, from, n - 1); }
  }

  /** Polling never outlives MAX_UNKNOWN consecutive unknown-payload answers. */
  lemma UnknownPayloadsEndPolling(env: BuildScript, from: nat)
    requires Timely(env)
    requires forall i :: from <= i < from + MAX_UNKNOWN ==> env.gp(i) == RpcError(true)
    ensures FetchLast(env) < from + MAX_UNKNOWN
  {
    StreakGrows(env.gp, from, MAX_UNKNOWN);
    assert FetchAttempts(env)(from + MAX_UNKNOWN - 1) == Stop;
    FetchReturns(env);
  }

  lemma {:induction false} StreakIsUnknown(gp: nat -> Rpc<ExecutableData>, k: nat, i: nat)
    requires i <= k && k - i < UnknownStreak(gp, k)
    ensures gp(i).RpcError? && gp(i).unknownPayload
    decreases k
  {
    if i < k { StreakIsUnknown(gp, k - 1, i); }
  }

  /** Polling gives up before the context ends only after MAX_UNKNOWN unknown-payload answers in a row. */
  lemma GivingUpNeedsAFullStreak(env: BuildScript)
    requires Timely(env) && !env.gp(FetchLast(env)).Reply? && !FetchExpired(env)(FetchLast(env))
    ensures FetchLast(env) + 1 >= MAX_UNKNOWN
    ensures forall i :: FetchLast(env) - MAX_UNKNOWN < i <= FetchLast(env) ==> env.gp(i) == RpcError(true)
  {
    FetchReturns(env);
    var last := FetchLast(env);
    assert FetchAttempts(env)(last) == FetchAttempt(env.gp, last);
    StreakFits(env.gp, last);
    forall i | last - MAX_UNKNOWN < i <= last ensures env.gp(i) == RpcError(true) { StreakIsUnknown(env.gp, last, i); }
  }

  lemma {:induction false} StreakFits(gp: nat -> Rpc<ExecutableData>, k: nat)
    ensures UnknownStreak(gp, k) <= k + 1
  {
    if k > 0 { StreakFits(gp, k - 1); }
  }
}
