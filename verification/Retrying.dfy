/**
 `retry` of cosmos/x/evm/keeper/async.go: attempts repeat until one is conclusive
 or the context is found done after an inconclusive one. Times are milliseconds.
 */
module Retrying {
  datatype Attempt = Done | Again | Stop

  const RETRY_DELAY: nat := 10
  const BUILD_DELAY: nat := 100
  const PREPARE_TIMEOUT: nat := 10_000
  const MAX_UNKNOWN: nat := 500

  /** The attempt at which `retry` returns, which it does if there is some attempt `bound` to stop it. */
  function LastAttempt(outcome: nat -> Attempt, ctxDone: nat -> bool, bound: nat, from: nat): (r: nat)
    requires from <= bound && (!outcome(bound).Again? || ctxDone(bound))
    ensures from <= r <= bound
    ensures !outcome(r).Again? || ctxDone(r)
    ensures forall j :: from <= j < r ==> outcome(j).Again? && !ctxDone(j)
    decreases bound - from
  {
    if !outcome(from).Again? || ctxDone(from) then from else LastAttempt(outcome, ctxDone, bound, from + 1)
  }

  /** Time from the start of the first attempt until attempt k returned; sleeps last at least RETRY_DELAY. */
  function Elapsed(duration: nat -> nat, oversleep: nat -> nat, k: nat): nat {
    if k == 0 then duration(0)
    else Elapsed(duration, oversleep, k - 1) + RETRY_DELAY + oversleep(k - 1) + duration(k)
  }

  lemma {:induction false} ElapsedAtLeast(duration: nat -> nat, oversleep: nat -> nat, k: nat)
    ensures Elapsed(duration, oversleep, k) >= k * RETRY_DELAY
  {
    if k > 0 { ElapsedAtLeast(duration, oversleep, k - 1); }
  }

  /** `ctx.Err() != nil` after attempt k of a retry that began at `start`. */
  function DeadlinePassed(start: nat, deadline: nat, duration: nat -> nat, oversleep: nat -> nat): nat -> bool {
    (k: nat) => start + Elapsed(duration, oversleep, k) >= deadline
  }

  /** With a deadline at most PREPARE_TIMEOUT away, attempt PREPARE_TIMEOUT / RETRY_DELAY is the last at the latest. */
  lemma DeadlineBoundsAttempts(start: nat, deadline: nat, duration: nat -> nat, oversleep: nat -> nat)
    requires deadline <= PREPARE_TIMEOUT
    ensures DeadlinePassed(start, deadline, duration, oversleep)(PREPARE_TIMEOUT / RETRY_DELAY)
  {
    ElapsedAtLeast(duration, oversleep, PREPARE_TIMEOUT / RETRY_DELAY);
  }
}
