/**
 Upgrade notifications: cosmos/app/upgrade_logging.go and halt_logging.go, as the pre-blocker
 of app.go calls them once per block.
 */
module Notifier {
  import opened Options

  datatype Plan = Plan(name: string, height: int, info: string)

  /** One block: the stored plan, which of the two reads of it fail, and what the halt logger looks up. */
  datatype Block =
    Block(height: int, plan: Option<Plan>, readFails: bool, haltReadFails: bool, skipped: bool, hasHandler: bool)

  /** x/upgrade `ShouldExecute`. */
  predicate Due(p: Plan, height: int) {
    0 < p.height <= height
  }

  predicate ShowsNoPlan(b: Block) { !b.readFails && b.plan.None? }

  predicate ShowsPending(b: Block, p: Plan) { !b.readFails && b.plan == Some(p) && !Due(p, b.height) }

  /** `logHaltIfTriggered` emits halt_triggered. */
  predicate HaltTriggered(b: Block) {
    !b.haltReadFails && b.plan.Some? && Due(b.plan.value, b.height) && !b.skipped && !b.hasHandler
  }

  // ---------------------------------------------------------------- the notifier's steps

  /** The plan `MaybeLogNewPlan` emits, given the plan remembered from the last emission. */
  function Emission(last: Option<Plan>, b: Block): Option<Plan> {
    if b.readFails || b.plan.None? || Due(b.plan.value, b.height) || last == b.plan then None else b.plan
  }

  function Remembered(last: Option<Plan>, b: Block): Option<Plan> {
    if ShowsNoPlan(b) then None else if Emission(last, b).Some? then b.plan else last
  }

  class UpgradeNotifier {
    var lastLoggedOK: bool
    var lastName: string
    var lastHeight: int
    var lastInfo: string

    constructor ()
      ensures Last() == None
    {
      lastLoggedOK, lastName, lastHeight, lastInfo := false, "", 0, "";
    }

    function Last(): Option<Plan>
      reads this
    {
      if lastLoggedOK then Some(Plan(lastName, lastHeight, lastInfo)) else None
    }

    method ForgetLastPlan()
      modifies this
      ensures Last() == None
    {
      lastLoggedOK, lastName, lastHeight, lastInfo := false, "", 0, "";
    }

    method MaybeLogNewPlan(b: Block) returns (emitted: Option<Plan>)
      modifies this
      ensures emitted == Emission(old(Last()), b) && Last() == Remembered(old(Last()), b)
    {
      if b.readFails { return None; }
      if b.plan.None? {
        ForgetLastPlan();
        return None;
      }
      var plan := b.plan.value;
      if Due(plan, b.height) { return None; }
      if lastLoggedOK && lastName == plan.name && lastHeight == plan.height && lastInfo == plan.info { return None; }
      lastLoggedOK, lastName, lastHeight, lastInfo := true, plan.name, plan.height, plan.info;
      emitted := Some(plan);
    }
  }

  // ---------------------------------------------------------------- whole traces

  /** What is remembered before block i of a process lifetime. */
  function MemoryBefore(blocks: seq<Block>, i: nat): Option<Plan>
    requires i <= |blocks|
  {
    if i == 0 then None else Remembered(MemoryBefore(blocks, i - 1), blocks[i - 1])
  }

  function EmittedAt(blocks: seq<Block>, i: nat): Option<Plan>
    requires i < |blocks|
  {
    Emission(MemoryBefore(blocks, i), blocks[i])
  }

  /** Nothing was emitted and no block without a plan was seen strictly between j and i. */
  ghost predicate QuietBetween(blocks: seq<Block>, j: nat, i: nat)
    requires i <= |blocks|
  {
    forall k :: j < k < i ==> EmittedAt(blocks, k) == None && !ShowsNoPlan(blocks[k])
  }

  /** p was the last plan emitted before block i, and no block without a plan was seen since. */
  ghost predicate Current(blocks: seq<Block>, i: nat, p: Plan)
    requires i <= |blocks|
  {
    exists j :: 0 <= j < i && EmittedAt(blocks, j) == Some(p) && QuietBetween(blocks, j, i)
  }

  lemma {:induction false} MemoryIsCurrent(blocks: seq<Block>, i: nat, p: Plan)
    requires i <= |blocks|
    ensures MemoryBefore(blocks, i) == Some(p) <==> Current(blocks, i, p)
  {
    if i > 0 {
      var b := blocks[i - 1];
      MemoryIsCurrent(blocks, i - 1, p);
      if MemoryBefore(blocks, i) == Some(p) {
        if EmittedAt(blocks, i - 1).Some? {
          assert EmittedAt(blocks, i - 1) == Some(p) && QuietBetween(blocks, i - 1, i);
        } else {
          var j :| 0 <= j < i - 1 && EmittedAt(blocks, j) == Some(p) && QuietBetween(blocks, j, i - 1);
          assert QuietBetween(blocks, j, i);
        }
      }
      if Current(blocks, i, p) {
        var j :| 0 <= j < i && EmittedAt(blocks, j) == Some(p) && QuietBetween(blocks, j, i);
        if j < i - 1 {
          assert EmittedAt(blocks, i - 1) == None && !ShowsNoPlan(b);
          assert QuietBetween(blocks, j, i - 1);
        }
      }
    }
  }

  /**
   Over every trace, upgrade_scheduled is emitted at a block exactly if the block shows a plan
   that is not yet due and is not the last one emitted since a block without a plan.
   */
  lemma NotifierEmitsEachPlanOnce(blocks: seq<Block>, i: nat, p: Plan)
    requires i < |blocks|
    ensures EmittedAt(blocks, i) == Some(p) <==> ShowsPending(blocks[i], p) && !Current(blocks, i, p)
  {
    hide Current;
    MemoryIsCurrent(blocks, i, p);
  }

  /** Two emissions of one plan are separated by another emission or by a block without a plan. */
  lemma RepeatNeedsAReason(blocks: seq<Block>, j: nat, i: nat, p: Plan)
    requires j < i < |blocks| && EmittedAt(blocks, j) == Some(p) && EmittedAt(blocks, i) == Some(p)
    ensures exists k :: j < k < i && (EmittedAt(blocks, k).Some? || ShowsNoPlan(blocks[k]))
  {
    NotifierEmitsEachPlanOnce(blocks, i, p);
    assert !QuietBetween(blocks, j, i);
  }

  /**
   A plan a block can read is announced exactly once until its height. From its height on it is
   not announced, and the chain halts exactly if the height is not skipped and there is no handler.
   */
  lemma PlanIsAnnouncedOrDue(blocks: seq<Block>, i: nat, p: Plan)
    requires i < |blocks| && blocks[i].plan == Some(p) && !blocks[i].readFails
    ensures var b, due := blocks[i], 0 < p.height <= blocks[i].height;
            && (!due ==> (EmittedAt(blocks, i) == Some(p) <==> !Current(blocks, i, p)))
            && (due ==> EmittedAt(blocks, i) == None)
            && (HaltTriggered(b) <==> due && !b.haltReadFails && !b.skipped && !b.hasHandler)
  {
    hide Current;
    NotifierEmitsEachPlanOnce(blocks, i, p);
  }

  /** upgrade_scheduled and halt_triggered never come from the same block. */
  lemma NeverScheduledAndHalted(blocks: seq<Block>, i: nat)
    requires i < |blocks| && HaltTriggered(blocks[i])
    ensures EmittedAt(blocks, i) == None
  {
  }
}
