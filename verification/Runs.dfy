/**
 Whole runs of one node: any sequence of prepare, process and message-handling steps,
 with an engine that answers anything. No step sees more than the stored block state.
 */
module Runs {
  import opened GoInts
  import opened Options
  import opened Engine
  import opened Timestamps
  import opened ChainSpecs
  import opened Keeper
  import opened Building
  import opened Proposals

  /** The stored block state and every engine call made so far. */
  datatype Node = Node(state: Option<BlockState>, trace: seq<Event>)

  datatype Step =
    | Deliver(mode: ExecMode, msg: PayloadMsg, hdr: Header, env: EngineScript)
    | Process(procHdr: Header, req: ProcessRequest)
    | Prepare(height: int, prepHdr: Header, mempool: seq<RawTx>, build: BuildScript)

  /** The step returns: its context ends at some time. */
  ghost predicate Possible(s: Step) {
    (s.Deliver? ==> Returns(s.env)) && (s.Prepare? ==> Timely(s.build))
  }

  ghost predicate AllPossible(steps: seq<Step>) {
    forall i :: 0 <= i < |steps| ==> Possible(steps[i])
  }

  ghost function Next(cfg: Config, n: Node, s: Step): Node
    requires Possible(s)
  {
    match s
    case Deliver(mode, msg, hdr, env) =>
      var handled := HandlePayload(cfg, n.state, mode, msg, hdr, env);
      Node(handled.state, n.trace + handled.events)
    case Process(_, _) => n
    case Prepare(height, hdr, _, build) =>
      if height == 1 then n else n.(trace := n.trace + ProposePayload(cfg, n.state, hdr, build).events)
  }

  /** The node before the run and after each step. */
  ghost function Trail(cfg: Config, n: Node, steps: seq<Step>): (r: seq<Node>)
    requires AllPossible(steps)
    ensures |r| == |steps| + 1 && r[0] == n
    ensures forall i :: 0 <= i < |steps| ==> r[i + 1] == Next(cfg, r[i], steps[i])
    decreases |steps|
  {
    if steps == [] then [n] else [n] + Trail(cfg, Next(cfg, n, steps[0]), steps[1..])
  }

  // ---------------------------------------------------------------- one step

  /** The step finalized a payload that extends `a`, and `b` is that payload. */
  ghost predicate Advances(cfg: Config, a: Option<BlockState>, s: Step, b: Option<BlockState>) {
    && a.Some? && b.Some? && s.Deliver? && s.mode.Finalize? && s.msg.payload.Json?
    && b.value == BlockStateOf(s.msg.payload.data)
    && s.msg.payload.data.parentHash == a.value.hash
    && b.value.height == ToUint64(a.value.height + 1)
    && b.value.timestamp > a.value.timestamp
    && b.value.timestamp == ExpectedTimestamp(cfg, s.hdr, a.value)
  }

  /** The step is a message handled without an error. */
  ghost predicate Succeeds(cfg: Config, n: Node, s: Step)
    requires Possible(s)
  {
    s.Deliver? && HandlePayload(cfg, n.state, s.mode, s.msg, s.hdr, s.env).ok
  }

  /** A message handled without an error advances the state; every other step keeps it. */
  lemma StepAdvancesOrKeeps(cfg: Config, n: Node, s: Step)
    requires Possible(s)
    ensures Next(cfg, n, s).state != n.state <==> Succeeds(cfg, n, s)
    ensures Succeeds(cfg, n, s) ==> Advances(cfg, n.state, s, Next(cfg, n, s).state)
    ensures n.state.Some? ==> Next(cfg, n, s).state.Some?
  {
    hide SendPhase, FinalizePhase, ExpectedTimestamp;
  }

  /** newPayload for h, answered VALID or SYNCING. */
  predicate Admitted(e: Event, h: Hash) {
    e.NewPayload? && e.hash == h && e.status.Reply? && (e.status.value.VALID? || e.status.value.SYNCING?)
  }

  /** forkchoiceUpdated to h on all three heads, answered neither INVALID nor ACCEPTED. */
  predicate Finalized(e: Event, h: Hash) {
    && e.Forkchoice? && e.head == h && e.safe == h && e.finalized == h && e.attrs.None?
    && e.reply.Reply? && !e.reply.value.status.INVALID? && !e.reply.value.status.ACCEPTED?
  }

  /** Every newPayload call carries at most six blob hashes and a non-empty beacon root. */
  predicate WithinLimits(e: Event) {
    e.NewPayload? ==> |e.blobs| <= MAX_BLOBS && e.beaconRoot != 0
  }

  /** What the sending phase leaves in the trace. */
  lemma SendPhaseEvents(cfg: Config, hdr: Header, p: ExecutableData, env: EngineScript)
    requires Returns(env)
    ensures var r := SendPhase(cfg, hdr, p, env);
            && (forall i :: 0 <= i < |r.events| ==>
                  && WithinLimits(r.events[i]) && BlobHashes(p.transactions).Some?
                  && r.events[i] == NewPayload(NewPayloadVersion(cfg.spec, p.timestamp), p.blockHash,
                                               BlobHashes(p.transactions).value, hdr.appHash, env.np(i)))
            && (r.ok ==> r.events != [] && Admitted(r.events[|r.events| - 1], p.blockHash))
  {
    hide NewPayloadVersion;
  }

  lemma FinalizePhaseEvents(p: ExecutableData, env: EngineScript)
    requires Returns(env)
    ensures var r := FinalizePhase(p, env);
            && (forall i :: 0 <= i < |r.events| ==>
                  r.events[i] == Forkchoice(p.blockHash, p.blockHash, p.blockHash, None, env.fc(i)))
            && (r.ok ==> r.events != [] && Finalized(r.events[|r.events| - 1], p.blockHash))
  {
  }

  /**
   In es, the engine admitted b at x, asked with the version of b's timestamp, and took it as
   head, safe and finalized block at y, in that order.
   */
  ghost predicate AdmittedThenFinalized(cfg: Config, es: seq<Event>, b: BlockState, x: nat, y: nat) {
    && x < y < |es| && Admitted(es[x], b.hash) && Finalized(es[y], b.hash)
    && es[x].version == NewPayloadVersion(cfg.spec, b.timestamp)
  }

  /** The new calls of a step. */
  ghost function Calls(cfg: Config, n: Node, s: Step): (es: seq<Event>)
    requires Possible(s)
    ensures Next(cfg, n, s).trace == n.trace + es
  {
    match s
    case Deliver(mode, msg, hdr, env) => HandlePayload(cfg, n.state, mode, msg, hdr, env).events
    case Process(_, _) => []
    case Prepare(height, hdr, _, build) => if height == 1 then [] else ProposePayload(cfg, n.state, hdr, build).events
  }

  /** The stored block changes only in a step whose calls admit and then finalize it. */
  lemma AdvanceNeedsEngine(cfg: Config, n: Node, s: Step) returns (x: nat, y: nat)
    requires Possible(s) && Next(cfg, n, s).state != n.state
    ensures Next(cfg, n, s).state.Some?
    ensures AdmittedThenFinalized(cfg, Calls(cfg, n, s), Next(cfg, n, s).state.value, x, y)
  {
    hide SendPhase, FinalizePhase, ValidatePayload, NewPayloadVersion;
    var p := ValidatePayload(cfg, s.hdr, s.msg, n.state.value).value;
    var sent, fin := SendPhase(cfg, s.hdr, p, s.env), FinalizePhase(p, s.env);
    SendPhaseEvents(cfg, s.hdr, p, s.env);
    FinalizePhaseEvents(p, s.env);
    x := |sent.events| - 1;
    y := |sent.events| + |fin.events| - 1;
    assert Calls(cfg, n, s) == sent.events + fin.events;
  }

  /** A proposer asks only on top of the stored block, and fetches with the version of the timestamp it asked for. */
  lemma ProposeEvents(cfg: Config, state: BlockState, hdr: Header, build: BuildScript)
    requires Timely(build)
    ensures var es := ProposePayload(cfg, Some(state), hdr, build).events;
            forall y :: 0 <= y < |es| ==>
              if es[y].Forkchoice? then
                es[y].head == es[y].safe == es[y].finalized == state.hash && es[y].attrs.Some?
              else
                es[y].GetPayload? && exists x :: 0 <= x < y && Routed(cfg, es[x], es[y])
  {
    hide ExpectedTimestamp, GetPayloadVersion, BuildLast, FetchLast;
    var es := ProposePayload(cfg, Some(state), hdr, build).events;
    var last := BuildLast(build);
    forall y | 0 <= y < |es| && es[y].GetPayload?
      ensures exists x :: 0 <= x < y && Routed(cfg, es[x], es[y])
    {
      assert Routed(cfg, es[last], es[y]);
    }
  }

  /** fetch asks for the payload that `ask` started, with the version of the timestamp in its attributes. */
  predicate Routed(cfg: Config, ask: Event, fetch: Event) {
    && ask.Forkchoice? && fetch.GetPayload? && ask.attrs.Some?
    && ask.reply.Reply? && ask.reply.value.payloadId == Some(fetch.id)
    && fetch.version == GetPayloadVersion(cfg.spec, ask.attrs.value.timestamp)
  }

  // ---------------------------------------------------------------- the chain of stored blocks

  /**
   Over every run a step changes the stored state if and only if it handles a message without an
   error, and then extends it by one linked, later block: a failed step leaves it as it was.
   */
  lemma RunIsAChain(cfg: Config, n: Node, steps: seq<Step>)
    requires AllPossible(steps)
    ensures var trail := Trail(cfg, n, steps);
            forall i :: 0 <= i < |steps| ==>
              && (trail[i + 1].state != trail[i].state <==> Succeeds(cfg, trail[i], steps[i]))
              && (Succeeds(cfg, trail[i], steps[i]) ==>
                    Advances(cfg, trail[i].state, steps[i], trail[i + 1].state))
  {
    hide Next, Trail, Advances, Succeeds;
    var trail := Trail(cfg, n, steps);
    forall i | 0 <= i < |steps|
      ensures trail[i + 1].state != trail[i].state <==> Succeeds(cfg, trail[i], steps[i])
      ensures Succeeds(cfg, trail[i], steps[i]) ==> Advances(cfg, trail[i].state, steps[i], trail[i + 1].state)
    {
      StepAdvancesOrKeeps(cfg, trail[i], steps[i]);
    }
  }

  /** Stored timestamps never fall, and equal timestamps mean the very same block: a run never goes back. */
  lemma {:induction false} RunNeverGoesBack(cfg: Config, n: Node, steps: seq<Step>, i: nat, j: nat)
    requires AllPossible(steps) && n.state.Some? && i <= j <= |steps|
    ensures var trail := Trail(cfg, n, steps);
            && trail[i].state.Some? && trail[j].state.Some?
            && trail[i].state.value.timestamp <= trail[j].state.value.timestamp
            && (trail[i].state.value.timestamp == trail[j].state.value.timestamp ==> trail[i].state == trail[j].state)
    decreases j
  {
    hide Next, Trail;
    var trail := Trail(cfg, n, steps);
    if i < j {
      RunNeverGoesBack(cfg, n, steps, i, j - 1);
      StepAdvancesOrKeeps(cfg, trail[j - 1], steps[j - 1]);
    } else if j > 0 {
      RunNeverGoesBack(cfg, n, steps, j - 1, j - 1);
      StepAdvancesOrKeeps(cfg, trail[j - 1], steps[j - 1]);
    }
  }

  /** How many of the first j steps changed the stored state. */
  ghost function AdvanceCount(trail: seq<Node>, j: nat): nat
    requires j < |trail|
  {
    if j == 0 then 0 else AdvanceCount(trail, j - 1) + if trail[j].state != trail[j - 1].state then 1 else 0
  }

  /**
   Block numbers count the advances modulo 2^64, and there are no more advances than seconds
   between the timestamps. So from a start whose number is at most its timestamp (genesis has 0
   and 0) the numbers never wrap.
   */
  lemma {:induction false} HeightsCountAdvances(cfg: Config, n: Node, steps: seq<Step>, j: nat)
    requires AllPossible(steps) && n.state.Some? && j <= |steps|
    ensures var trail := Trail(cfg, n, steps);
            && trail[j].state.Some?
            && var from, to, count := n.state.value, trail[j].state.value, AdvanceCount(trail, j);
            && to.height == (from.height + count) % TWO_64
            && count <= to.timestamp - from.timestamp
            && (from.height <= from.timestamp ==> to.height == from.height + count)
  {
    hide Next, Trail, Succeeds;
    var trail := Trail(cfg, n, steps);
    if j > 0 {
      HeightsCountAdvances(cfg, n, steps, j - 1);
      StepAdvancesOrKeeps(cfg, trail[j - 1], steps[j - 1]);
      NextHeight(n.state.value.height + AdvanceCount(trail, j - 1));
    }
  }

  lemma NextHeight(x: nat)
    ensures ToUint64(x % TWO_64 + 1) == (x + 1) % TWO_64
  {
  }

  /** Along the stored blocks neither Engine API version ever falls, and newPayload's stays at or below getPayload's. */
  lemma VersionsNeverFall(cfg: Config, n: Node, steps: seq<Step>, i: nat, j: nat)
    requires AllPossible(steps) && n.state.Some? && i <= j <= |steps| && Validate(cfg.spec)
    ensures var trail := Trail(cfg, n, steps);
            && trail[i].state.Some? && trail[j].state.Some?
            && var t, t' := trail[i].state.value.timestamp, trail[j].state.value.timestamp;
            && GetPayloadVersion(cfg.spec, t) <= GetPayloadVersion(cfg.spec, t')
            && NewPayloadVersion(cfg.spec, t) <= NewPayloadVersion(cfg.spec, t') <= GetPayloadVersion(cfg.spec, t')
  {
    hide Next, Trail;
    var trail := Trail(cfg, n, steps);
    RunNeverGoesBack(cfg, n, steps, i, j);
    VersionsMonotone(cfg.spec, trail[i].state.value.timestamp, trail[j].state.value.timestamp);
  }

  /** All messages arrive at heights inside the block-height window. */
  ghost predicate AllInWindow(cfg: Config, steps: seq<Step>) {
    forall i :: 0 <= i < |steps| && steps[i].Deliver? ==> InWindow(cfg.time, steps[i].hdr.height)
  }

  lemma StoreInWindow(cfg: Config, n: Node, s: Step)
    requires Possible(s) && Succeeds(cfg, n, s) && InWindow(cfg.time, s.hdr.height)
    ensures var b := Next(cfg, n, s).state;
            b.Some? && b.value.timestamp == WindowTimestamp(cfg.time, s.hdr.height)
  {
    hide Next, HandlePayload, WindowTimestamp;
    StepAdvancesOrKeeps(cfg, n, s);
  }

  /** Step j, before step i, handled a message without an error, and its height gave the timestamp stored at i. */
  ghost predicate StoredAt(cfg: Config, trail: seq<Node>, steps: seq<Step>, i: nat, j: nat)
    requires i < |trail| == |steps| + 1 && AllPossible(steps)
  {
    && j < i && trail[i].state.Some? && cfg.time.window.Some? && Succeeds(cfg, trail[j], steps[j])
    && trail[i].state.value.timestamp == WindowTimestamp(cfg.time, steps[j].hdr.height)
  }

  /** The stored state is the one on entry, or one that an earlier step stored. */
  lemma {:induction false} StoredInWindow(cfg: Config, n: Node, steps: seq<Step>, i: nat)
    requires AllPossible(steps) && n.state.Some? && AllInWindow(cfg, steps) && i <= |steps|
    ensures var trail := Trail(cfg, n, steps);
            && trail[i].state.Some?
            && (trail[i].state != n.state ==> exists j :: StoredAt(cfg, trail, steps, i, j))
  {
    hide Next, Trail, InWindow, WindowTimestamp, HandlePayload;
    var trail := Trail(cfg, n, steps);
    if i > 0 {
      StoredInWindow(cfg, n, steps, i - 1);
      StepAdvancesOrKeeps(cfg, trail[i - 1], steps[i - 1]);
      if Succeeds(cfg, trail[i - 1], steps[i - 1]) {
        StoreInWindow(cfg, trail[i - 1], steps[i - 1]);
        InWindowHasOffset(cfg, steps[i - 1].hdr.height);
        assert StoredAt(cfg, trail, steps, i, i - 1);
      } else if trail[i].state != n.state {
        var j :| StoredAt(cfg, trail, steps, i - 1, j);
        assert StoredAt(cfg, trail, steps, i, j);
      }
    }
  }

  lemma InWindowHasOffset(cfg: Config, height: uint64)
    requires InWindow(cfg.time, height)
    ensures cfg.time.window.Some?
    ensures forall time, previous ::
              CalculateTimestamp(cfg.time, time, height, previous) == WindowTimestamp(cfg.time, height)
  {
  }

  /**
   Any run at window heights, with any engine and any proposals in between: the payload expected
   at a step passes the strict timestamp check exactly when the timestamp of its height exceeds
   the one stored on entry and every one stored since.
   */
  lemma WindowRun(cfg: Config, n: Node, steps: seq<Step>, k: nat)
    requires AllPossible(steps) && n.state.Some? && AllInWindow(cfg, steps)
    requires k < |steps| && steps[k].Deliver?
    ensures InWindow(cfg.time, steps[k].hdr.height)
    ensures var trail := Trail(cfg, n, steps);
            var at, expected := trail[k].state, WindowTimestamp(cfg.time, steps[k].hdr.height);
            && at.Some?
            && (ExpectedTimestamp(cfg, steps[k].hdr, at.value) > at.value.timestamp <==>
                && expected > n.state.value.timestamp
                && forall j :: 0 <= j < k && Succeeds(cfg, trail[j], steps[j]) ==>
                     expected > WindowTimestamp(cfg.time, steps[j].hdr.height))
  {
    hide Next, Trail, CalculateTimestamp, InWindow, WindowTimestamp, HandlePayload;
    var trail := Trail(cfg, n, steps);
    StoredInWindow(cfg, n, steps, k);
    RunNeverGoesBack(cfg, n, steps, 0, k);
    InWindowHasOffset(cfg, steps[k].hdr.height);
    forall j | 0 <= j < k && Succeeds(cfg, trail[j], steps[j])
      ensures WindowTimestamp(cfg.time, steps[j].hdr.height) <= trail[k].state.value.timestamp
    {
      StoreInWindow(cfg, trail[j], steps[j]);
      RunNeverGoesBack(cfg, n, steps, j + 1, k);
    }
  }

  /** Messages arrive at strictly increasing window heights, and no sum with the offset wraps around. */
  ghost predicate ThroughWindow(cfg: Config, steps: seq<Step>) {
    && AllInWindow(cfg, steps)
    && (forall i :: 0 <= i < |steps| && steps[i].Deliver? && cfg.time.window.Some? ==>
          steps[i].hdr.height + cfg.time.window.value.offset < TWO_64)
    && (forall i, j :: 0 <= i < j < |steps| && steps[i].Deliver? && steps[j].Deliver? ==>
          steps[i].hdr.height < steps[j].hdr.height)
  }

  /**
   At rising heights that is: exactly when height + offset exceeds the timestamp stored on entry,
   and until then the stored state does not move. So a window entered in time never stalls, and
   one entered too early recovers by itself.
   */
  lemma WindowRunProgress(cfg: Config, n: Node, steps: seq<Step>, k: nat)
    requires AllPossible(steps) && n.state.Some? && ThroughWindow(cfg, steps)
    requires k < |steps| && steps[k].Deliver?
    ensures InWindow(cfg.time, steps[k].hdr.height)
    ensures var at := Trail(cfg, n, steps)[k].state;
            var expected := steps[k].hdr.height + cfg.time.window.value.offset;
            && at.Some?
            && (ExpectedTimestamp(cfg, steps[k].hdr, at.value) > at.value.timestamp
                <==> expected > n.state.value.timestamp)
            && (expected <= n.state.value.timestamp ==> at == n.state)
  {
    hide Next, Trail, CalculateTimestamp, InWindow, HandlePayload;
    var trail := Trail(cfg, n, steps);
    InWindowHasOffset(cfg, steps[k].hdr.height);
    WindowRun(cfg, n, steps, k);
    StoredInWindow(cfg, n, steps, k);
    RunNeverGoesBack(cfg, n, steps, 0, k);
  }

  /** A window entered too early: height 11 against a stored timestamp of 100, so no message moves the node. */
  lemma EarlyWindowStalls(spec: ChainSpec, msg: PayloadMsg, env: EngineScript)
    requires Returns(env)
    ensures var cfg := Config(TimeConfig(Some(Window(0, 0, None)), 0), spec, "evm", "");
            var n := Node(Some(BlockState(1, 10, 100)), []);
            var steps := [Deliver(Finalize, msg, Header(11, 1_700_000_000, 1), env)];
            && AllPossible(steps) && ThroughWindow(cfg, steps)
            && ExpectedTimestamp(cfg, steps[0].hdr, n.state.value) == 11
            && Trail(cfg, n, steps)[1] == n
  {
    hide SendPhase, FinalizePhase;
    var cfg := Config(TimeConfig(Some(Window(0, 0, None)), 0), spec, "evm", "");
    var hdr := Header(11, 1_700_000_000, 1);
    assert ValidatePayload(cfg, hdr, msg, BlockState(1, 10, 100)).None?;
  }

  // ---------------------------------------------------------------- what the engine was told

  /** h is the first block of the run, or the engine admitted it before call k. */
  ghost predicate Known(es: seq<Event>, k: nat, h: Hash, first: Hash)
    requires k <= |es|
  {
    h == first || exists x :: 0 <= x < k && Admitted(es[x], h)
  }

  /** Every forkchoice call names one block on all three heads, and that block was known by then. */
  ghost predicate Grounded(es: seq<Event>, first: Hash) {
    forall y :: 0 <= y < |es| && es[y].Forkchoice? ==>
                  es[y].head == es[y].safe == es[y].finalized && Known(es, y, es[y].head, first)
  }

  lemma KnownLater(es: seq<Event>, k: nat, more: seq<Event>, k': nat, h: Hash, first: Hash)
    requires k <= |es| && k <= k' <= |es + more| && Known(es, k, h, first)
    ensures Known(es + more, k', h, first)
  {
    if h != first {
      var x :| 0 <= x < k && Admitted(es[x], h);
      assert (es + more)[x] == es[x];
    }
  }

  lemma GroundedAppend(es: seq<Event>, more: seq<Event>, first: Hash)
    requires Grounded(es, first)
    requires forall y :: 0 <= y < |more| && more[y].Forkchoice? ==>
                           && more[y].head == more[y].safe == more[y].finalized
                           && Known(es + more, |es| + y, more[y].head, first)
    ensures Grounded(es + more, first)
  {
    hide Known;
    forall y | 0 <= y < |es + more| && (es + more)[y].Forkchoice?
      ensures (es + more)[y].head == (es + more)[y].safe == (es + more)[y].finalized
      ensures Known(es + more, y, (es + more)[y].head, first)
    {
      if y < |es| {
        assert (es + more)[y] == es[y];
        KnownLater(es, y, more, y, es[y].head, first);
      } else {
        assert (es + more)[y] == more[y - |es|];
      }
    }
  }

  lemma DeliverStaysGrounded(cfg: Config, n: Node, s: Step, first: Hash)
    requires Possible(s) && s.Deliver? && n.state.Some?
    requires Grounded(n.trace, first) && Known(n.trace, |n.trace|, n.state.value.hash, first)
    ensures var n' := Next(cfg, n, s);
            && n'.state.Some? && Grounded(n'.trace, first) && Known(n'.trace, |n'.trace|, n'.state.value.hash, first)
  {
    hide SendPhase, FinalizePhase, ValidatePayload, Known, Grounded;
    var n' := Next(cfg, n, s);
    var calls := Calls(cfg, n, s);
    KnownLater(n.trace, |n.trace|, calls, |n'.trace|, n.state.value.hash, first);
    var valid := ValidatePayload(cfg, s.hdr, s.msg, n.state.value);
    if valid.Some? {
      var p := valid.value;
      var sent, fin := SendPhase(cfg, s.hdr, p, s.env), FinalizePhase(p, s.env);
      SendPhaseEvents(cfg, s.hdr, p, s.env);
      FinalizePhaseEvents(p, s.env);
      if sent.ok && calls == sent.events + fin.events {
        AdmittedMeansKnown(n.trace, sent.events, fin.events, p.blockHash, first);
      }
    }
    GroundedAppend(n.trace, calls, first);
  }

  lemma AdmittedMeansKnown(es: seq<Event>, sent: seq<Event>, fin: seq<Event>, h: Hash, first: Hash)
    requires sent != [] && Admitted(sent[|sent| - 1], h)
    ensures forall k :: |es| + |sent| <= k <= |es + (sent + fin)| ==> Known(es + (sent + fin), k, h, first)
  {
    assert Admitted((es + (sent + fin))[|es| + |sent| - 1], h);
  }

  lemma StepStaysGrounded(cfg: Config, n: Node, s: Step, first: Hash)
    requires Possible(s) && n.state.Some?
    requires Grounded(n.trace, first) && Known(n.trace, |n.trace|, n.state.value.hash, first)
    ensures var n' := Next(cfg, n, s);
            && n'.state.Some? && Grounded(n'.trace, first) && Known(n'.trace, |n'.trace|, n'.state.value.hash, first)
  {
    hide Known, Grounded, ProposePayload, HandlePayload;
    match s
    case Deliver(_, _, _, _) => DeliverStaysGrounded(cfg, n, s, first);
    case Process(_, _) =>
    case Prepare(height, hdr, _, build) =>
      if height != 1 {
        var es := ProposePayload(cfg, n.state, hdr, build).events;
        ProposeEvents(cfg, n.state.value, hdr, build);
        forall y | 0 <= y < |es| && es[y].Forkchoice? ensures Known(n.trace + es, |n.trace| + y, es[y].head, first) {
          KnownLater(n.trace, |n.trace|, es, |n.trace| + y, n.state.value.hash, first);
        }
        GroundedAppend(n.trace, es, first);
        KnownLater(n.trace, |n.trace|, es, |n.trace + es|, n.state.value.hash, first);
      }
  }

  /**
   Over every run, each forkchoice call names one block as head, safe and finalized: the starting
   block or one the engine admitted before.
   */
  lemma {:induction false} ForkchoicesAreGrounded(cfg: Config, start: BlockState, steps: seq<Step>, j: nat)
    requires AllPossible(steps) && j <= |steps|
    ensures var n := Trail(cfg, Node(Some(start), []), steps)[j];
            && n.state.Some? && Grounded(n.trace, start.hash)
            && Known(n.trace, |n.trace|, n.state.value.hash, start.hash)
  {
    hide Next, Trail;
    var trail := Trail(cfg, Node(Some(start), []), steps);
    if j > 0 {
      ForkchoicesAreGrounded(cfg, start, steps, j - 1);
      StepStaysGrounded(cfg, trail[j - 1], steps[j - 1], start.hash);
    }
  }

  /** Over every run, a stored block changes only after the calls of that step admitted and then finalized it. */
  lemma EngineAgreesBeforeAdvance(cfg: Config, n: Node, steps: seq<Step>, i: nat) returns (x: nat, y: nat)
    requires AllPossible(steps) && i < |steps|
    requires Trail(cfg, n, steps)[i + 1].state != Trail(cfg, n, steps)[i].state
    ensures var before, after := Trail(cfg, n, steps)[i], Trail(cfg, n, steps)[i + 1];
            && after.state.Some? && |before.trace| <= x
            && AdmittedThenFinalized(cfg, after.trace, after.state.value, x, y)
  {
    hide Next, Trail, AdmittedThenFinalized, Calls;
    var before, after := Trail(cfg, n, steps)[i], Trail(cfg, n, steps)[i + 1];
    x, y := AdvanceNeedsEngine(cfg, before, steps[i]);
    LaterInTrace(cfg, before.trace, Calls(cfg, before, steps[i]), after.state.value, x, y);
    x, y := |before.trace| + x, |before.trace| + y;
  }

  lemma LaterInTrace(cfg: Config, front: seq<Event>, es: seq<Event>, b: BlockState, x: nat, y: nat)
    requires AdmittedThenFinalized(cfg, es, b, x, y)
    ensures AdmittedThenFinalized(cfg, front + es, b, |front| + x, |front| + y)
  {
    hide NewPayloadVersion;
  }

  /** Over every run, the newPayload calls that admit stored blocks never go back to an older version. */
  lemma AdmissionsNeverGoBack(cfg: Config, n: Node, steps: seq<Step>, i: nat, j: nat)
    returns (x: nat, y: nat, x': nat, y': nat)
    requires AllPossible(steps) && n.state.Some? && i < j < |steps| && Validate(cfg.spec)
    requires Trail(cfg, n, steps)[i + 1].state != Trail(cfg, n, steps)[i].state
    requires Trail(cfg, n, steps)[j + 1].state != Trail(cfg, n, steps)[j].state
    ensures var first, second := Trail(cfg, n, steps)[i + 1], Trail(cfg, n, steps)[j + 1];
            && first.state.Some? && second.state.Some?
            && AdmittedThenFinalized(cfg, first.trace, first.state.value, x, y)
            && AdmittedThenFinalized(cfg, second.trace, second.state.value, x', y')
            && first.trace[x].version <= second.trace[x'].version
  {
    hide Next, Trail, NewPayloadVersion, Admitted, Finalized;
    x, y := EngineAgreesBeforeAdvance(cfg, n, steps, i);
    x', y' := EngineAgreesBeforeAdvance(cfg, n, steps, j);
    VersionsNeverFall(cfg, n, steps, i + 1, j + 1);
  }

  /** Over every run, every newPayload call keeps the blob limit and carries a beacon root. */
  lemma {:induction false} CallsWithinLimits(cfg: Config, start: BlockState, steps: seq<Step>, j: nat)
    requires AllPossible(steps) && j <= |steps|
    ensures var n := Trail(cfg, Node(Some(start), []), steps)[j];
            n.state.Some? && forall y :: 0 <= y < |n.trace| ==> WithinLimits(n.trace[y])
  {
    hide Next, Trail, WithinLimits;
    var trail := Trail(cfg, Node(Some(start), []), steps);
    if j > 0 {
      CallsWithinLimits(cfg, start, steps, j - 1);
      StepAdvancesOrKeeps(cfg, trail[j - 1], steps[j - 1]);
      StepWithinLimits(cfg, trail[j - 1], steps[j - 1]);
      assert trail[j].trace == trail[j - 1].trace + Calls(cfg, trail[j - 1], steps[j - 1]);
    }
  }

  lemma StepWithinLimits(cfg: Config, n: Node, s: Step)
    requires Possible(s) && n.state.Some?
    ensures forall y :: 0 <= y < |Calls(cfg, n, s)| ==> WithinLimits(Calls(cfg, n, s)[y])
  {
    hide SendPhase, FinalizePhase, ValidatePayload, ProposePayload;
    match s
    case Deliver(_, msg, hdr, env) =>
      var valid := ValidatePayload(cfg, hdr, msg, n.state.value);
      if valid.Some? {
        SendPhaseEvents(cfg, hdr, valid.value, env);
        FinalizePhaseEvents(valid.value, env);
      }
    case Process(_, _) =>
    case Prepare(_, hdr, _, build) => ProposeEvents(cfg, n.state.value, hdr, build);
  }

  /** Every getPayload call is answered for by an earlier forkchoice call. */
  ghost predicate AllRouted(cfg: Config, es: seq<Event>) {
    forall y :: 0 <= y < |es| && es[y].GetPayload? ==> exists x :: 0 <= x < y && Routed(cfg, es[x], es[y])
  }

  lemma RoutedAppend(cfg: Config, es: seq<Event>, more: seq<Event>)
    requires AllRouted(cfg, es) && AllRouted(cfg, more)
    ensures AllRouted(cfg, es + more)
  {
    hide Routed;
    forall y | 0 <= y < |es + more| && (es + more)[y].GetPayload?
      ensures exists x :: 0 <= x < y && Routed(cfg, (es + more)[x], (es + more)[y])
    {
      if y < |es| {
        var x :| 0 <= x < y && Routed(cfg, es[x], es[y]);
        assert Routed(cfg, (es + more)[x], (es + more)[y]);
      } else {
        var x :| 0 <= x < y - |es| && Routed(cfg, more[x], more[y - |es|]);
        assert Routed(cfg, (es + more)[|es| + x], (es + more)[y]);
      }
    }
  }

  lemma StepIsRouted(cfg: Config, n: Node, s: Step)
    requires Possible(s) && n.state.Some?
    ensures AllRouted(cfg, Calls(cfg, n, s))
  {
    hide SendPhase, FinalizePhase, ValidatePayload, ProposePayload, Routed;
    match s
    case Deliver(_, msg, hdr, env) =>
      var valid := ValidatePayload(cfg, hdr, msg, n.state.value);
      if valid.Some? {
        SendPhaseEvents(cfg, hdr, valid.value, env);
        FinalizePhaseEvents(valid.value, env);
      }
    case Process(_, _) =>
    case Prepare(_, hdr, _, build) => ProposeEvents(cfg, n.state.value, hdr, build);
  }

  /**
   Over every run, each getPayload call asks for an id that an earlier forkchoice call returned,
   with the version of the timestamp in the attributes of that call.
   */
  lemma {:induction false} FetchesAreRouted(cfg: Config, start: BlockState, steps: seq<Step>, j: nat)
    requires AllPossible(steps) && j <= |steps|
    ensures var n := Trail(cfg, Node(Some(start), []), steps)[j]; n.state.Some? && AllRouted(cfg, n.trace)
  {
    hide Next, Trail, AllRouted, Calls, Succeeds;
    var trail := Trail(cfg, Node(Some(start), []), steps);
    if j == 0 {
      assert AllRouted(cfg, []) by { NothingIsRouted(cfg); }
    } else {
      FetchesAreRouted(cfg, start, steps, j - 1);
      StepAdvancesOrKeeps(cfg, trail[j - 1], steps[j - 1]);
      StepIsRouted(cfg, trail[j - 1], steps[j - 1]);
      RoutedAppend(cfg, trail[j - 1].trace, Calls(cfg, trail[j - 1], steps[j - 1]));
    }
  }

  lemma NothingIsRouted(cfg: Config)
    ensures AllRouted(cfg, [])
  {
  }

  // ---------------------------------------------------------------- from acceptance to finalization

  /** An engine that answers VALID at once, a context that is never asked, a store that works. */
  function Willing(): EngineScript {
    EngineScript(_ => Reply(VALID), _ => true, 0, _ => Reply(ForkchoiceReply(VALID, None)), _ => true, 0, false)
  }

  lemma WillingAnswers()
    ensures Returns(Willing())
    ensures NewPayloadAttempts(Willing())(0).Done? && FinalizeAttempts(Willing())(0).Done?
  {
    var env := Willing();
    assert NewPayloadAttempts(env)(0) == NewPayloadAttempt(env.np(0)) && env.np(0) == Reply(VALID);
    assert FinalizeAttempts(env)(0) == FinalizeAttempt(env.fc(0));
  }

  /** With a willing engine a valid, sendable payload is stored. */
  lemma WillingStores(cfg: Config, state: BlockState, hdr: Header, p: ExecutableData)
    requires Honours(cfg, hdr, state, p) && p.timestamp > state.timestamp && VersionedHashes(hdr, p).Some?
    ensures Returns(Willing())
    ensures var msg := PayloadMsg(cfg.moduleAddress, Json(p));
            var done := HandlePayload(cfg, Some(state), Finalize, msg, hdr, Willing());
            done.ok && done.state == Some(BlockStateOf(p))
  {
    hide ValidatePayload, Honours, VersionedHashes, NewPayloadEvents, FinalizeEvents;
    ValidPayloadMeans(cfg, hdr, PayloadMsg(cfg.moduleAddress, Json(p)), state, p);
    WillingAnswers();
  }

  /**
   `WindowRunProgress` needs sums that do not wrap. With an offset of 2^64 - 2 height 1 stores the
   last uint64, and height 4, whose timestamp 2 exceeds the entry's 0, fails the check.
   */
  lemma WrappedWindowStalls(spec: ChainSpec) returns (first: Step, second: Step)
    ensures var cfg := Config(TimeConfig(Some(Window(0, TWO_64 - 2, None)), 0), spec, "evm", "");
            var n := Node(Some(BlockState(1, 0, 0)), []);
            && AllPossible([first, second]) && AllInWindow(cfg, [first, second]) && second.Deliver?
            && WindowTimestamp(cfg.time, second.hdr.height) > n.state.value.timestamp
            && var at := Trail(cfg, n, [first, second])[1].state;
            at.Some? && ExpectedTimestamp(cfg, second.hdr, at.value) <= at.value.timestamp
  {
    var cfg := Config(TimeConfig(Some(Window(0, TWO_64 - 2, None)), 0), spec, "evm", "");
    var n := Node(Some(BlockState(1, 0, 0)), []);
    var h1, h4 := Header(1, 0, 1), Header(4, 0, 1);
    var p := HonestPayload(cfg, h1, n.state.value, []);
    assert ExpectedTimestamp(cfg, h1, n.state.value) == TWO_64 - 1 && VersionedHashes(h1, p) == Some([]);
    assert WindowTimestamp(cfg.time, 4) == 2;
    hide HandlePayload, VersionedHashes, Honours;
    first := Deliver(Finalize, PayloadMsg("evm", Json(p)), h1, Willing());
    second := Deliver(Finalize, PayloadMsg("evm", Json(p)), h4, Willing());
    WillingStores(cfg, n.state.value, h1, p);
  }

  /**
   Validators accept a block without looking into its EVM transactions. On the same state and
   header some engine behaviour finalizes it exactly if `sendPayload` can send it at all: the
   application hash is not empty, every EVM transaction decodes, and there are at most six
   blobs. Otherwise no engine, whatever it answers, lets the node advance.
   */
  lemma AcceptedBlockFinalizesIff(cfg: Config, maxCosmosTxs: int, state: BlockState, hdr: Header, req: ProcessRequest)
    requires req.height != 1 && Acceptable(cfg, maxCosmosTxs, Some(state), hdr, req)
    ensures var msg := LastPayload(cfg, req.txs);
            && msg.payload.Json?
            && (VersionedHashes(hdr, msg.payload.data).Some?
                ==> var done := HandlePayload(cfg, Some(state), Finalize, msg, hdr, Willing());
                    done.ok && done.state == Some(BlockStateOf(msg.payload.data)))
            && (VersionedHashes(hdr, msg.payload.data).None?
                ==> forall env :: Returns(env) ==>
                      HandlePayload(cfg, Some(state), Finalize, msg, hdr, env) == Handled(Some(state), [], false))
  {
    hide ParseTx, QuorumReached, ValidatePayload, VersionedHashes, Honours, Willing;
    var msg := LastPayload(cfg, req.txs);
    var p := ValidatePayload(cfg, hdr, msg, state).value;
    ValidPayloadMeans(cfg, hdr, msg, state, p);
    if VersionedHashes(hdr, p).Some? { WillingStores(cfg, state, hdr, p); }
  }

  /**
   From proposal to finalization, on one state and header: the block built on the engine's payload
   is accepted and then stored by a willing engine if and only if the engine honoured the
   attributes, time moves forward, the last commit has a quorum, the mempool transactions taken
   are within the size limit and `sendPayload` can send the payload. Otherwise it is rejected, or
   no engine stores it.
   */
  lemma ProposalIsStored(cfg: Config, maxCosmosTxs: int, state: BlockState, hdr: Header, height: int,
                         mempool: seq<RawTx>, build: BuildScript, size: nat, lastCommit: seq<Vote>)
    requires Timely(build) && height != 1 && size <= MAX_TX_SIZE
    requires ProposePayload(cfg, Some(state), hdr, build).payload.Some?
    ensures var payload := ProposePayload(cfg, Some(state), hdr, build).payload;
            var p, block := payload.value, ProposedBlock(cfg, maxCosmosTxs, height, mempool, payload, size);
            && block.Some? && Returns(Willing())
            && var req, msg := ProcessRequest(height, block.value, lastCommit), PayloadMsg(cfg.moduleAddress, Json(p));
            var accepted := Acceptable(cfg, maxCosmosTxs, Some(state), hdr, req);
            var stored := HandlePayload(cfg, Some(state), Finalize, msg, hdr, Willing()).state;
            var ready := && Honours(cfg, hdr, state, p)
                         && ExpectedTimestamp(cfg, hdr, state) > state.timestamp
                         && QuorumReached(lastCommit)
                         && (forall t :: t in SelectTxs(cfg, mempool, maxCosmosTxs) ==> t.size <= MAX_TX_SIZE)
                         && VersionedHashes(hdr, p).Some?;
            && (accepted ==> LastPayload(cfg, block.value) == msg)
            && (accepted && stored == Some(BlockStateOf(p)) <==> ready)
            && (ready || !accepted || forall env :: Returns(env) ==>
                  HandlePayload(cfg, Some(state), Finalize, msg, hdr, env).state == Some(state))
  {
    hide ProposePayload, ExpectedTimestamp, QuorumReached, ValidatePayload, VersionedHashes, Acceptable, Willing,
      HandlePayload;
    var payload := ProposePayload(cfg, Some(state), hdr, build).payload;
    var block := ProposedBlock(cfg, maxCosmosTxs, height, mempool, payload, size).value;
    HonouringIsAccepted(cfg, maxCosmosTxs, state, hdr, height, mempool, build, size, lastCommit);
    WillingAnswers();
    var req := ProcessRequest(height, block, lastCommit);
    if Acceptable(cfg, maxCosmosTxs, Some(state), hdr, req) {
      assert block[|block| - 1] == PayloadTx(cfg, payload.value, size);
      AcceptedBlockFinalizesIff(cfg, maxCosmosTxs, state, hdr, req);
    }
  }

  /** On any state that time has moved past there is such a block: accepted, and never finalized by any engine. */
  lemma UndecodableTxIsAccepted(cfg: Config, maxCosmosTxs: int, state: BlockState, hdr: Header)
    requires ExpectedTimestamp(cfg, hdr, state) > state.timestamp
    ensures var p := HonestPayload(cfg, hdr, state, [Undecodable]);
            var req := ProcessRequest(2, [PayloadTx(cfg, p, 0)], [Vote(1, true)]);
            && Acceptable(cfg, maxCosmosTxs, Some(state), hdr, req)
            && forall env :: Returns(env) ==>
                 HandlePayload(cfg, Some(state), Finalize, LastPayload(cfg, req.txs), hdr, env)
                 == Handled(Some(state), [], false)
  {
    hide QuorumReached, ExpectedTimestamp, HandlePayload;
    var p := HonestPayload(cfg, hdr, state, [Undecodable]);
    OneVoteIsAQuorum();
    ValidPayloadMeans(cfg, hdr, PayloadMsg(cfg.moduleAddress, Json(p)), state, p);
    AcceptedBlockFinalizesIff(cfg, maxCosmosTxs, state, hdr,
                              ProcessRequest(2, [PayloadTx(cfg, p, 0)], [Vote(1, true)]));
  }
}
