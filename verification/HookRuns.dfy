/**
 What every hook keeps: the validator power index, the permanence of a removal, and the
 books; then the same over every sequence of hooks the end-blocker may run.
 */
module HookRuns {
  import opened Options
  import opened Sums
  import opened Ledger
  import opened Hooks

  // ---------------------------------------------------------------- the power index

  /** Every index key is the current power of an unjailed validator. */
  ghost predicate IndexSound(l: Ledger) {
    forall e :: e in l.index ==>
                  e.1 in l.validators && !l.validators[e.1].jailed && e.0 == Power(l.validators[e.1].tokens)
  }

  /** An unjailed validator whose key is not in the index. */
  predicate Missing(l: Ledger, a: Addr) {
    a in l.validators && !l.validators[a].jailed && (Power(l.validators[a].tokens), a) !in l.index
  }

  /** Every unjailed validator has its key. */
  ghost predicate IndexComplete(l: Ledger) {
    forall a :: !Missing(l, a)
  }

  /** The consensus-address index leads to records that carry that address. */
  ghost predicate ConsSound(l: Ledger) {
    forall k :: k in l.byCons ==> l.byCons[k] in l.validators && l.validators[l.byCons[k]].key == k
  }

  ghost predicate Aligned(l: Ledger) {
    IndexSound(l) && ConsSound(l)
  }

  /** Calls that write no index and no whole record themselves. */
  predicate Ordinary(c: Call) {
    !c.SetValidator? && !c.SetByCons? && !c.SetNewIndex? && !c.DeleteIndex?
  }

  lemma OrdinaryCall(l: Ledger, c: Call)
    requires Ordinary(c) && Do(l, c).Some? && Aligned(l)
    ensures Aligned(Do(l, c).value)
  {
    hide Power;
  }

  lemma {:induction false} OrdinaryCalls(l: Ledger, cs: seq<Call>, fails: nat -> bool, k: nat)
    requires (forall i :: 0 <= i < |cs| ==> Ordinary(cs[i])) && Aligned(l)
    ensures Aligned(Exec(l, cs, fails, k).ledger)
    decreases |cs|
  {
    hide Do, Aligned, Ordinary;
    if cs != [] && !fails(k) && Do(l, cs[0]).Some? {
      OrdinaryCall(l, cs[0]);
      OrdinaryCalls(Do(l, cs[0]).value, cs[1..], fails, k + 1);
    }
  }

  /** Such a call brings no key out of the index; a delegation puts the key of its validator in. */
  lemma OrdinaryCallMissing(l: Ledger, c: Call, x: Addr)
    requires Ordinary(c) && Do(l, c).Some?
    ensures Missing(Do(l, c).value, x) <==> Missing(l, x) && !(c.Delegate? && c.val == x)
  {
    hide Power;
  }

  lemma {:induction false} OrdinaryCallsMissing(l: Ledger, cs: seq<Call>, fails: nat -> bool, k: nat, x: Addr)
    requires forall i :: 0 <= i < |cs| ==> Ordinary(cs[i]) && !cs[i].Delegate?
    ensures Missing(Exec(l, cs, fails, k).ledger, x) <==> Missing(l, x)
    decreases |cs|
  {
    hide Do, Missing, Ordinary;
    if cs != [] && !fails(k) && Do(l, cs[0]).Some? {
      OrdinaryCallMissing(l, cs[0], x);
      OrdinaryCallsMissing(Do(l, cs[0]).value, cs[1..], fails, k + 1, x);
    }
  }

  /** A top-up mends the index for its validator if all three calls take effect, and changes it for no other. */
  lemma TopUpMissing(l: Ledger, a: Addr, tokens: nat, target: nat, fails: nat -> bool, k: nat, x: Addr)
    ensures Missing(Exec(l, TopUp(a, tokens, target), fails, k).ledger, x) <==>
            Missing(l, x) && !(x == a && tokens < target && TopUpRuns(fails, k))
  {
    hide Exec, AfterMint, AfterSend, DoDelegate;
    if tokens < target {
      var d := target - tokens;
      TopUpStops(l, a, tokens, target, fails, k);
      AfterSendMissing(l, a, d, x);
      if DoDelegate(AfterSend(l, a, d), a, d).Some? { OrdinaryCallMissing(AfterSend(l, a, d), Delegate(a, d), x); }
    } else {
      ExecNothing(fails, k);
    }
  }

  lemma AfterSendMissing(l: Ledger, a: Addr, d: nat, x: Addr)
    ensures Missing(AfterMint(l, d), x) <==> Missing(l, x)
    ensures Missing(AfterSend(l, a, d), x) <==> Missing(l, x)
    ensures DoDelegate(AfterSend(l, a, d), a, d).Some? <==> a in l.validators
  {
    hide Power;
  }

  /** None of the three calls of a top-up fails. */
  predicate TopUpRuns(fails: nat -> bool, k: nat) {
    !fails(k) && !fails(k + 1) && !fails(k + 2)
  }

  // creating a record

  function Stored(l: Ledger, a: Addr, key: Key): Ledger {
    l.(validators := l.validators[a := NewRecord(key)])
  }

  function Linked(l: Ledger, a: Addr, key: Key): Ledger {
    Stored(l, a, key).(byCons := l.byCons[key := a])
  }

  function Indexed(l: Ledger, a: Addr, key: Key): Ledger {
    Linked(l, a, key).(index := l.index + {(Power(0), a)})
  }

  lemma CreateHeadStops(l: Ledger, a: Addr, key: Key, fails: nat -> bool, k: nat)
    ensures Exec(l, CreateHead(a, key), fails, k) ==
            if fails(k) then Outcome(l, false)
            else if fails(k + 1) then Outcome(Stored(l, a, key), false)
            else if fails(k + 2) then Outcome(Linked(l, a, key), false)
            else Outcome(Indexed(l, a, key), true)
  {
    var c1, c2, c3 := SetValidator(a, NewRecord(key)), SetByCons(key, a), SetNewIndex(a, 0);
    var l1, l2, l3 := Stored(l, a, key), Linked(l, a, key), Indexed(l, a, key);
    assert Do(l, c1) == Some(l1) && Do(l1, c2) == Some(l2) && Do(l2, c3) == Some(l3);
    hide Exec, Do, Stored, Linked, Indexed;
    ExecCons(l, c1, [c2, c3], fails, k);
    ExecCons(l1, c2, [c3], fails, k + 1);
    ExecCons(l2, c3, [], fails, k + 2);
    assert CreateHead(a, key) == [c1] + [c2, c3] && [c2, c3] == [c2] + [c3] && [c3] == [c3] + [];
    ExecNothing(fails, k + 3);
  }

  /** Storing keeps the indexes sound; the new validator is missing from the power index until the third write. */
  lemma CreateStages(l: Ledger, a: Addr, key: Key, x: Addr)
    requires Aligned(l) && a !in l.validators
    ensures Aligned(Stored(l, a, key)) && (Missing(Stored(l, a, key), x) <==> Missing(l, x) || x == a)
    ensures Aligned(Linked(l, a, key)) && (Missing(Linked(l, a, key), x) <==> Missing(l, x) || x == a)
    ensures Aligned(Indexed(l, a, key)) && (Missing(Indexed(l, a, key), x) <==> Missing(l, x))
  {
    hide Power;
    assert forall p: nat :: (p, a) !in l.index;
  }

  /** A create that fails after the record is stored and before it is indexed. */
  predicate CreateGap(fails: nat -> bool, k: nat) {
    !fails(k) && (fails(k + 1) || fails(k + 2))
  }

  lemma CreateKeepsIndex(l: Ledger, a: Addr, key: Key, fails: nat -> bool, k: nat, x: Addr)
    requires Aligned(l) && a !in l.validators
    ensures var r := Exec(l, CreateProgram(l, a, key), fails, k);
            && Aligned(r.ledger) && (r.ok ==> !CreateGap(fails, k))
            && (Missing(r.ledger, x) <==> Missing(l, x) || (x == a && CreateGap(fails, k)))
  {
    var head, tail := CreateHead(a, key), CreateTail(l, a, key);
    assert forall i :: 0 <= i < |tail| ==> Ordinary(tail[i]) && !tail[i].Delegate?;
    hide Exec, CreateHead, CreateTail, CreateProgram, Stored, Linked, Indexed, Aligned, Missing;
    ExecConcat(l, head, tail, fails, k);
    CreateHeadStops(l, a, key, fails, k);
    CreateStages(l, a, key, x);
    OrdinaryCalls(Indexed(l, a, key), tail, fails, k + |head|);
    OrdinaryCallsMissing(Indexed(l, a, key), tail, fails, k + |head|, x);
  }

  // whole hooks

  /** An add hook that stores a record and fails before indexing it. */
  predicate IndexGap(l: Ledger, h: Hook, env: HookEnv) {
    && h.AddHook? && h.val !in l.validators
    && h.add.Some? && h.add.value.pubKey.Some? && h.add.value.initialTokens > 0 && h.add.value.minSelfDelegation > 0
    && !env.fails(0) && CreateGap(env.fails, 1)
  }

  /** A hook after which `a`, missing before, is missing no more: its removal, or a top-up that goes through. */
  predicate Heals(l: Ledger, h: Hook, env: HookEnv, a: Addr) {
    || (h.RemoveHook? && h.val == a)
    || (h.UnjailHook? && h.val == a && a in l.validators && h.targetTokens.Some?
        && l.validators[a].tokens < h.targetTokens.value && TopUpRuns(env.fails, 0))
  }

  lemma TopUpIsOrdinary(a: Addr, tokens: nat, target: nat)
    ensures forall i :: 0 <= i < |TopUp(a, tokens, target)| ==> Ordinary(TopUp(a, tokens, target)[i])
  {
  }

  lemma UnjailTailIsOrdinary(l: Ledger, a: Addr, key: Key, now: int)
    ensures var tail := UnjailTail(l, a, key, now);
            forall i :: 0 <= i < |tail| ==> Ordinary(tail[i]) && !tail[i].Delegate?
  {
  }

  lemma UnjailKeepsIndex(l: Ledger, a: Addr, target: Option<nat>, env: HookEnv, x: Addr)
    requires Aligned(l) && a in l.validators
    ensures var l' := RunUnjail(l, a, target, env).ledger;
            Aligned(l') && (Missing(l', x) <==> Missing(l, x) && !Heals(l, UnjailHook(a, target), env, x))
  {
    hide Exec, TopUp, UnjailTail, Aligned, Missing, Ordinary;
    var v := l.validators[a];
    var first := if target.Some? then TopUp(a, v.tokens, target.value) else [];
    var tail := UnjailTail(l, a, v.key, env.now);
    if target.Some? {
      TopUpIsOrdinary(a, v.tokens, target.value);
      TopUpMissing(l, a, v.tokens, target.value, env.fails, 0, x);
    }
    ExecNothing(env.fails, 0);
    UnjailTailIsOrdinary(l, a, v.key, env.now);
    OrdinaryCalls(l, first + tail, env.fails, 0);
    ExecConcat(l, first, tail, env.fails, 0);
    OrdinaryCallsMissing(Exec(l, first, env.fails, 0).ledger, tail, env.fails, |first|, x);
  }

  lemma AddKeepsIndex(l: Ledger, a: Addr, opts: Option<AddOptions>, env: HookEnv, x: Addr)
    requires Aligned(l)
    ensures var l' := RunAdd(l, a, opts, env).ledger;
            && Aligned(l')
            && (Missing(l', x) <==> Missing(l, x) || (x == a && IndexGap(l, AddHook(a, opts), env)))
  {
    hide Exec, Aligned, TopUp, CreateProgram;
    if a !in l.validators && opts.Some? && opts.value.pubKey.Some? && opts.value.initialTokens > 0 {
      var o := opts.value;
      var key := o.pubKey.value;
      var create := if o.minSelfDelegation > 0 then CreateProgram(l, a, key) else [];
      var topUp := TopUp(a, 0, o.initialTokens);
      var mid := Exec(l, [Check] + create, env.fails, 0).ledger;
      ExecConcat(l, [Check] + create, topUp, env.fails, 0);
      ExecConcat(l, [Check], create, env.fails, 0);
      CheckOnly(l, env.fails, 0);
      ExecNothing(env.fails, 1);
      if o.minSelfDelegation > 0 { CreateKeepsIndex(l, a, key, env.fails, 1, x); }
      TopUpIsOrdinary(a, 0, o.initialTokens);
      OrdinaryCalls(mid, topUp, env.fails, |[Check] + create|);
      TopUpMissing(mid, a, 0, o.initialTokens, env.fails, |[Check] + create|, x);
    }
  }

  lemma RemoveKeepsIndex(l: Ledger, a: Addr, opts: Option<RemoveOptions>, x: Addr)
    requires a in l.validators && RemovedLedger(l, a, opts).Some? && Aligned(l)
    ensures var l' := RemovedLedger(l, a, opts).value;
            Aligned(l') && (Missing(l', x) <==> Missing(l, x) && x != a)
  {
    hide Power, TokenCalls, Tombstone;
    var v := l.validators[a];
    TokenCallsShape(l, v, opts);
    var l' := RemovedLedger(l, a, opts).value;
    assert forall b :: b != a && b in l'.validators ==> b in l.validators && l'.validators[b] == l.validators[b];
    assert forall p: nat :: (p, a) !in l'.index;
  }

  lemma ReconcileKeepsRest(l: Ledger, env: HookEnv)
    ensures var l' := RunReconcile(l, env).ledger;
            l' == l.(balances := l'.balances, supply := l'.supply)
  {
    hide AfterMint, AfterTransfer, FundBonded, FundNotBonded, BondedShortfall, NotBondedShortfall;
    if !env.listFails {
      var d, d' := BondedShortfall(l), NotBondedShortfall(l, env);
      var l1 := FundBonded(l, d, env.fails);
      FundBondedStops(l, d, env.fails);
      FundNotBondedStops(l1, d', env.fails);
      AfterMintIs(l, d);
      AfterMintIs(l1, d');
      AfterTransferIs(l1, d');
    }
  }

  /**
   No hook leaves a stale key in an index that had none, and on every exit a validator is missing
   from the index if and only if it was missing and the hook does not heal that, or it is the one
   an add hook stored and failed to index.
   */
  lemma HookMissing(l: Ledger, h: Hook, env: HookEnv, x: Addr)
    requires Perform(l, h, env).Finished? && Aligned(l)
    ensures Aligned(Perform(l, h, env).ledger)
    ensures Missing(Perform(l, h, env).ledger, x) <==>
            (Missing(l, x) && !Heals(l, h, env, x)) || (IndexGap(l, h, env) && h.val == x)
  {
    hide RunAdd, RunReconcile, RunUnjail, RemovedLedger, TopUpRuns, CreateGap;
    match h
    case UnjailHook(a, target) =>
      UnjailMissing(l, a, target, env);
      if a in l.validators { UnjailKeepsIndex(l, a, target, env, x); }
    case AddHook(a, opts) => AddKeepsIndex(l, a, opts, env, x);
    case RemoveHook(a, opts) =>
      RemoveResult(l, a, opts, env);
      RemoveKeepsIndex(l, a, opts, x);
    case ReconcileHook => ReconcileKeepsRest(l, env);
    case InvalidHook =>
  }

  /** So a complete index stays complete on every exit but one. */
  lemma HookKeepsIndex(l: Ledger, h: Hook, env: HookEnv)
    requires Perform(l, h, env).Finished? && Aligned(l)
    ensures Aligned(Perform(l, h, env).ledger)
    ensures IndexComplete(l) ==> (IndexComplete(Perform(l, h, env).ledger) <==> !IndexGap(l, h, env))
  {
    hide Perform, Aligned, Missing, Heals, IndexGap;
    forall x
      ensures Aligned(Perform(l, h, env).ledger)
      ensures Missing(Perform(l, h, env).ledger, x) <==>
              (Missing(l, x) && !Heals(l, h, env, x)) || (IndexGap(l, h, env) && h.AddHook? && h.val == x)
    {
      HookMissing(l, h, env, x);
      GapIsAnAdd(l, h, env);
    }
    GapIsAnAdd(l, h, env);
    HookMissing(l, h, env, 0);
    if IndexGap(l, h, env) { assert Missing(Perform(l, h, env).ledger, h.val); }
  }

  lemma GapIsAnAdd(l: Ledger, h: Hook, env: HookEnv)
    ensures IndexGap(l, h, env) ==> h.AddHook?
  {
  }

  lemma UnjailMissing(l: Ledger, a: Addr, target: Option<nat>, env: HookEnv)
    ensures a !in l.validators ==> RunUnjail(l, a, target, env) == Finished(l, false)
  {
  }

  // ---------------------------------------------------------------- removal is permanent

  /** Tombstoned, jailed and out of the power index. */
  ghost predicate Removed(l: Ledger, a: Addr, key: Key) {
    && a in l.validators && l.validators[a].key == key && l.validators[a].jailed
    && key in l.signing && l.signing[key].tombstoned
    && forall p: nat :: (p, a) !in l.index
  }

  /** The call does not overwrite what makes a removed. */
  predicate Sparing(c: Call, a: Addr, key: Key) {
    && (c.SetValidator? || c.SetNewIndex? ==> c.val != a)
    && (c.SetSigning? && c.key == key ==> c.info.tombstoned)
  }

  lemma SparingCall(l: Ledger, c: Call, a: Addr, key: Key)
    requires Sparing(c, a, key) && Do(l, c).Some? && Removed(l, a, key) && (c.Unjail? ==> ConsSound(l))
    ensures Removed(Do(l, c).value, a, key)
  {
    hide Power;
  }

  lemma {:induction false} SparingCalls(l: Ledger, cs: seq<Call>, fails: nat -> bool, k: nat, a: Addr, key: Key)
    requires forall i :: 0 <= i < |cs| ==> Sparing(cs[i], a, key) && Ordinary(cs[i])
    requires Removed(l, a, key) && Aligned(l)
    ensures Removed(Exec(l, cs, fails, k).ledger, a, key)
    decreases |cs|
  {
    hide Do, Removed, Sparing, Ordinary;
    if cs != [] && !fails(k) && Do(l, cs[0]).Some? {
      SparingCall(l, cs[0], a, key);
      OrdinaryCall(l, cs[0]);
      SparingCalls(Do(l, cs[0]).value, cs[1..], fails, k + 1, a, key);
    }
  }

  /** Calls without an unjail need no index to be sound. */
  lemma {:induction false} SparingCallsNoUnjail(l: Ledger, cs: seq<Call>, fails: nat -> bool, k: nat, a: Addr, key: Key)
    requires forall i :: 0 <= i < |cs| ==> Sparing(cs[i], a, key) && !cs[i].Unjail?
    requires Removed(l, a, key)
    ensures Removed(Exec(l, cs, fails, k).ledger, a, key)
    decreases |cs|
  {
    hide Do, Removed, Sparing;
    if cs != [] && !fails(k) && Do(l, cs[0]).Some? {
      SparingCall(l, cs[0], a, key);
      SparingCallsNoUnjail(Do(l, cs[0]).value, cs[1..], fails, k + 1, a, key);
    }
  }

  lemma RemoveRemoves(l: Ledger, a: Addr, opts: Option<RemoveOptions>)
    requires a in l.validators && RemovedLedger(l, a, opts).Some? && IndexSound(l)
    ensures Removed(RemovedLedger(l, a, opts).value, a, l.validators[a].key)
  {
    hide TokenCalls, Power;
    TokenCallsShape(l, l.validators[a], opts);
  }

  lemma RemoveSpares(l: Ledger, b: Addr, opts: Option<RemoveOptions>, a: Addr, key: Key)
    requires b in l.validators && RemovedLedger(l, b, opts).Some? && Removed(l, a, key)
    ensures Removed(RemovedLedger(l, b, opts).value, a, key)
  {
    hide TokenCalls, Power;
    TokenCallsShape(l, l.validators[b], opts);
  }

  lemma AddSpares(l: Ledger, b: Addr, opts: Option<AddOptions>, env: HookEnv, a: Addr, key: Key)
    requires Removed(l, a, key)
    ensures Removed(RunAdd(l, b, opts, env).ledger, a, key)
  {
    if b !in l.validators && opts.Some? && opts.value.pubKey.Some? && opts.value.initialTokens > 0 {
      var o := opts.value;
      var cs := AddProgram(l, b, o.pubKey.value, o.initialTokens, o.minSelfDelegation);
      assert b != a;
      assert forall i :: 0 <= i < |cs| ==> Sparing(cs[i], a, key) && !cs[i].Unjail?;
      hide Exec, AddProgram, Removed;
      SparingCallsNoUnjail(l, cs, env.fails, 0, a, key);
    }
  }

  lemma UnjailSpares(l: Ledger, b: Addr, target: Option<nat>, env: HookEnv, a: Addr, key: Key)
    requires Removed(l, a, key) && Aligned(l) && b in l.validators
    ensures Removed(RunUnjail(l, b, target, env).ledger, a, key)
  {
    var cs := UnjailProgram(l, b, target, env.now);
    assert forall i :: 0 <= i < |cs| ==> Sparing(cs[i], a, key) && Ordinary(cs[i]);
    hide Exec, UnjailProgram, Removed, Aligned;
    SparingCalls(l, cs, env.fails, 0, a, key);
  }

  /** Once removed, a validator stays tombstoned, jailed and out of the index through every later hook. */
  lemma HookKeepsRemoved(l: Ledger, h: Hook, env: HookEnv, a: Addr, key: Key)
    requires Perform(l, h, env).Finished? && Aligned(l) && Removed(l, a, key)
    ensures Removed(Perform(l, h, env).ledger, a, key)
  {
    hide RunAdd, RunReconcile, RunUnjail, RemovedLedger, Aligned;
    match h
    case UnjailHook(b, target) =>
      UnjailMissing(l, b, target, env);
      if b in l.validators { UnjailSpares(l, b, target, env, a, key); }
    case AddHook(b, opts) => AddSpares(l, b, opts, env, a, key);
    case RemoveHook(b, opts) =>
      RemoveResult(l, b, opts, env);
      RemoveSpares(l, b, opts, a, key);
    case ReconcileHook => ReconcileKeepsRest(l, env);
    case InvalidHook =>
  }

  // ---------------------------------------------------------------- the books

  /** What a hook minted minus what it burned, counting only calls that took effect. */
  ghost function NetMintedBy(l: Ledger, h: Hook, env: HookEnv): int {
    match h
    case UnjailHook(a, target) =>
      if a in l.validators then NetMinted(Executed(l, UnjailProgram(l, a, target, env.now), env.fails, 0)) else 0
    case AddHook(a, opts) =>
      if a in l.validators || opts.None? || opts.value.pubKey.None? || opts.value.initialTokens <= 0 then 0 else
      var o := opts.value;
      NetMinted(Executed(l, AddProgram(l, a, o.pubKey.value, o.initialTokens, o.minSelfDelegation), env.fails, 0))
    case RemoveHook(a, opts) =>
      if a in l.validators then NetMinted(Executed(l, RemoveProgram(l, a, opts), env.fails, 0)) else 0
    case ReconcileHook =>
      if env.listFails then 0
      else (if env.fails(0) then 0 else BondedShortfall(l)) + (if env.fails(1) then 0 else NotBondedShortfall(l, env))
    case InvalidHook => 0
  }

  lemma MintKeepsBooks(l: Ledger, d: nat)
    ensures Conserved(l) ==> Conserved(AfterMint(l, d)) && Conserved(AfterTransfer(l, d))
  {
    SumUpdate(l.balances, BondedPool, Balance(l, BondedPool) + d);
    MoveKeepsSum(AfterMint(l, d), BondedPool, NotBondedPool, d);
  }

  lemma ReconcileKeepsBooks(l: Ledger, env: HookEnv)
    ensures var l' := RunReconcile(l, env).ledger;
            (Conserved(l) ==> Conserved(l')) && l'.supply == l.supply + NetMintedBy(l, ReconcileHook, env)
  {
    hide AfterMint, AfterTransfer, FundBonded, FundNotBonded, BondedShortfall, NotBondedShortfall, Conserved;
    if !env.listFails {
      var d, d' := BondedShortfall(l), NotBondedShortfall(l, env);
      var l1 := FundBonded(l, d, env.fails);
      FundBondedStops(l, d, env.fails);
      FundNotBondedStops(l1, d', env.fails);
      MintKeepsBooks(l, d);
      MintKeepsBooks(l1, d');
      AfterMintIs(l, d);
      AfterMintIs(l1, d');
      AfterTransferIs(l1, d');
    }
  }

  /** No hook loses or invents a coin: the accounts add up to the supply, which moves by mints and burns alone. */
  lemma HookKeepsBooks(l: Ledger, h: Hook, env: HookEnv)
    requires Perform(l, h, env).Finished?
    ensures Conserved(l) ==> Conserved(Perform(l, h, env).ledger)
    ensures Perform(l, h, env).ledger.supply == l.supply + NetMintedBy(l, h, env)
  {
    hide Exec, Executed, NetMinted, UnjailProgram, AddProgram, RemoveProgram, RunReconcile, Conserved;
    hide BondedShortfall, NotBondedShortfall;
    match h
    case UnjailHook(a, target) =>
      if a in l.validators { ExecConserves(l, UnjailProgram(l, a, target, env.now), env.fails, 0); }
    case AddHook(a, opts) =>
      if a !in l.validators && opts.Some? && opts.value.pubKey.Some? && opts.value.initialTokens > 0 {
        var o := opts.value;
        ExecConserves(l, AddProgram(l, a, o.pubKey.value, o.initialTokens, o.minSelfDelegation), env.fails, 0);
      }
    case RemoveHook(a, opts) => ExecConserves(l, RemoveProgram(l, a, opts), env.fails, 0);
    case ReconcileHook => ReconcileKeepsBooks(l, env);
    case InvalidHook =>
  }

  // ---------------------------------------------------------------- sequences of hooks

  datatype Scheduled = Scheduled(hook: Hook, env: HookEnv)

  /** The end-blocker's loop: errors are logged and the next hook runs; a panic ends the run. */
  ghost function RunHooks(l: Ledger, hs: seq<Scheduled>): Option<Ledger>
    decreases |hs|
  {
    if hs == [] then Some(l) else
    match Perform(l, hs[0].hook, hs[0].env)
    case Panicked => None
    case Finished(l', _) => RunHooks(l', hs[1..])
  }

  ghost function RunNetMinted(l: Ledger, hs: seq<Scheduled>): int
    requires RunHooks(l, hs).Some?
    decreases |hs|
  {
    if hs == [] then 0 else
    NetMintedBy(l, hs[0].hook, hs[0].env) + RunNetMinted(Perform(l, hs[0].hook, hs[0].env).ledger, hs[1..])
  }

  /** Over every sequence of hooks neither pool's deficit rises: a solvent pool stays solvent. */
  lemma {:induction false} RunNeverRaisesDeficit(l: Ledger, hs: seq<Scheduled>, bonded: bool)
    requires RunHooks(l, hs).Some?
    ensures Deficit(RunHooks(l, hs).value, bonded) <= Deficit(l, bonded)
    decreases |hs|
  {
    hide Perform, Deficit;
    if hs != [] {
      HookNeverRaisesDeficit(l, hs[0].hook, hs[0].env, bonded);
      RunNeverRaisesDeficit(Perform(l, hs[0].hook, hs[0].env).ledger, hs[1..], bonded);
    }
  }

  /** Over every sequence of hooks the accounts add up to the supply, which moved by mints and burns alone. */
  lemma {:induction false} RunKeepsBooks(l: Ledger, hs: seq<Scheduled>)
    requires RunHooks(l, hs).Some?
    ensures Conserved(l) ==> Conserved(RunHooks(l, hs).value)
    ensures RunHooks(l, hs).value.supply == l.supply + RunNetMinted(l, hs)
    decreases |hs|
  {
    hide Perform, Conserved, NetMintedBy;
    if hs != [] {
      HookKeepsBooks(l, hs[0].hook, hs[0].env);
      RunKeepsBooks(Perform(l, hs[0].hook, hs[0].env).ledger, hs[1..]);
    }
  }

  /** No hook of the run stored a record without indexing it. */
  ghost predicate NoIndexGap(l: Ledger, hs: seq<Scheduled>)
    requires RunHooks(l, hs).Some?
    decreases |hs|
  {
    hs == [] || (!IndexGap(l, hs[0].hook, hs[0].env) && NoIndexGap(Perform(l, hs[0].hook, hs[0].env).ledger, hs[1..]))
  }

  /** No hook of the run heals `a`. */
  ghost predicate NeverHealed(l: Ledger, hs: seq<Scheduled>, a: Addr)
    requires RunHooks(l, hs).Some?
    decreases |hs|
  {
    hs == [] ||
    (!Heals(l, hs[0].hook, hs[0].env, a) && NeverHealed(Perform(l, hs[0].hook, hs[0].env).ledger, hs[1..], a))
  }

  /** Some hook of the run stores `a` without indexing it, and no later one heals that. */
  ghost predicate GapStays(l: Ledger, hs: seq<Scheduled>, a: Addr)
    requires RunHooks(l, hs).Some?
    decreases |hs|
  {
    && hs != []
    && var l' := Perform(l, hs[0].hook, hs[0].env).ledger;
    || (IndexGap(l, hs[0].hook, hs[0].env) && hs[0].hook.val == a && NeverHealed(l', hs[1..], a))
    || GapStays(l', hs[1..], a)
  }

  /** Over every sequence of hooks: who is missing from the power index in the end. */
  lemma {:induction false} RunMissing(l: Ledger, hs: seq<Scheduled>, a: Addr)
    requires RunHooks(l, hs).Some? && Aligned(l)
    ensures Aligned(RunHooks(l, hs).value)
    ensures Missing(RunHooks(l, hs).value, a) <==> (Missing(l, a) && NeverHealed(l, hs, a)) || GapStays(l, hs, a)
    decreases |hs|
  {
    hide Perform, Aligned, Missing, Heals, IndexGap;
    if hs != [] {
      GapIsAnAdd(l, hs[0].hook, hs[0].env);
      HookMissing(l, hs[0].hook, hs[0].env, a);
      RunMissing(Perform(l, hs[0].hook, hs[0].env).ledger, hs[1..], a);
    }
  }

  lemma {:induction false} NoGapStays(l: Ledger, hs: seq<Scheduled>, a: Addr)
    requires RunHooks(l, hs).Some? && NoIndexGap(l, hs)
    ensures !GapStays(l, hs, a)
    decreases |hs|
  {
    hide Perform, IndexGap;
    if hs != [] { NoGapStays(Perform(l, hs[0].hook, hs[0].env).ledger, hs[1..], a); }
  }

  /**
   Over every sequence of hooks the power index holds no key but the current one of an unjailed
   validator. In the end it holds every such key if and only if what was missing was healed and
   every gap was healed later; that is so from a complete index if no hook left a gap.
   */
  lemma RunKeepsIndex(l: Ledger, hs: seq<Scheduled>)
    requires RunHooks(l, hs).Some? && Aligned(l)
    ensures Aligned(RunHooks(l, hs).value)
    ensures IndexComplete(RunHooks(l, hs).value) <==>
            forall a :: !(Missing(l, a) && NeverHealed(l, hs, a)) && !GapStays(l, hs, a)
    ensures IndexComplete(l) && NoIndexGap(l, hs) ==> IndexComplete(RunHooks(l, hs).value)
  {
    hide RunHooks, Aligned, Missing, NeverHealed, GapStays;
    forall a
      ensures Aligned(RunHooks(l, hs).value)
      ensures Missing(RunHooks(l, hs).value, a) <==> (Missing(l, a) && NeverHealed(l, hs, a)) || GapStays(l, hs, a)
      ensures NoIndexGap(l, hs) ==> !GapStays(l, hs, a)
    {
      RunMissing(l, hs, a);
      if NoIndexGap(l, hs) { NoGapStays(l, hs, a); }
    }
    RunMissing(l, hs, 0);
  }

  /** What an add hook that leaves a gap leaves behind. */
  lemma GapLeaves(l: Ledger, h: Hook, env: HookEnv)
    requires IndexGap(l, h, env)
    ensures var key := h.add.value.pubKey.value;
            Perform(l, h, env) == Finished(if env.fails(2) then Stored(l, h.val, key) else Linked(l, h.val, key), false)
  {
    hide Exec, CreateHead, CreateTail, TopUp, Stored, Linked, Indexed;
    var a, o := h.val, h.add.value;
    var head, rest := CreateHead(a, o.pubKey.value), CreateTail(l, a, o.pubKey.value) + TopUp(a, 0, o.initialTokens);
    AddProgramParts(l, a, o);
    ExecConcat(l, [Check], head + rest, env.fails, 0);
    CheckOnly(l, env.fails, 0);
    ExecConcat(l, head, rest, env.fails, 1);
    CreateHeadStops(l, a, o.pubKey.value, env.fails, 1);
  }

  const EMPTY := Ledger(map[], 0, map[], map[], map[], {}, [])
  const GAP_HOOK := AddHook(1, Some(AddOptions(Some(7), 1, 1)))

  /** The gap is real: on an empty ledger, let the write of the consensus-address index fail. */
  lemma IndexGapIsReal(env: HookEnv)
    requires !env.fails(0) && !env.fails(1) && env.fails(2)
    ensures Aligned(EMPTY) && IndexComplete(EMPTY) && IndexGap(EMPTY, GAP_HOOK, env)
    ensures Perform(EMPTY, GAP_HOOK, env).Finished? && !IndexComplete(Perform(EMPTY, GAP_HOOK, env).ledger)
  {
    hide Perform;
    GapLeaves(EMPTY, GAP_HOOK, env);
    HookKeepsIndex(EMPTY, GAP_HOOK, env);
  }

  /** And it can be repaired: an unjail hook fails, but its top-up writes the key. */
  lemma IndexGapIsRepaired(env: HookEnv, env': HookEnv)
    requires !env.fails(0) && !env.fails(1) && env.fails(2) && TopUpRuns(env'.fails, 0)
    ensures var hs := [Scheduled(GAP_HOOK, env), Scheduled(UnjailHook(1, Some(5)), env')];
            RunHooks(EMPTY, hs).Some? && !NoIndexGap(EMPTY, hs) && IndexComplete(RunHooks(EMPTY, hs).value)
  {
    hide Perform, TopUpRuns;
    var h := UnjailHook(1, Some(5));
    var hs := [Scheduled(GAP_HOOK, env), Scheduled(h, env')];
    IndexGapIsReal(env);
    GapLeaves(EMPTY, GAP_HOOK, env);
    var l1 := Perform(EMPTY, GAP_HOOK, env).ledger;
    UnjailFinishes(l1, h, env');
    assert hs[1..] == [hs[1]] && hs[1..][1..] == [];
    var l2 := Perform(l1, h, env').ledger;
    assert RunHooks(l1, hs[1..]) == Some(l2) by { assert RunHooks(l2, []) == Some(l2); }
    assert RunHooks(EMPTY, hs) == Some(l2);
    assert Heals(l1, h, env', 1);
    forall a ensures !GapStays(EMPTY, hs, a) {
      assert !IndexGap(l1, h, env');
      assert !GapStays(l1, hs[1..], a);
    }
    RunKeepsIndex(EMPTY, hs);
  }

  lemma UnjailFinishes(l: Ledger, h: Hook, env: HookEnv)
    requires h.UnjailHook?
    ensures Perform(l, h, env).Finished?
  {
  }

  lemma {:induction false} RunKeepsRemoved(l: Ledger, hs: seq<Scheduled>, a: Addr, key: Key)
    requires RunHooks(l, hs).Some? && Aligned(l) && Removed(l, a, key)
    ensures Removed(RunHooks(l, hs).value, a, key)
    decreases |hs|
  {
    hide Perform, Aligned, Removed, IndexComplete, IndexGap;
    if hs != [] {
      HookKeepsIndex(l, hs[0].hook, hs[0].env);
      HookKeepsRemoved(l, hs[0].hook, hs[0].env, a, key);
      RunKeepsRemoved(Perform(l, hs[0].hook, hs[0].env).ledger, hs[1..], a, key);
    }
  }

  /** After a remove hook and any hooks that follow, the validator is tombstoned, jailed and out of the index. */
  lemma RemovalIsPermanent(l: Ledger, a: Addr, opts: Option<RemoveOptions>, env: HookEnv, later: seq<Scheduled>)
    requires Aligned(l) && RunHooks(l, [Scheduled(RemoveHook(a, opts), env)] + later).Some?
    ensures a in l.validators
    ensures Removed(RunHooks(l, [Scheduled(RemoveHook(a, opts), env)] + later).value, a, l.validators[a].key)
  {
    hide RemovedLedger, Aligned, Removed, IndexComplete, IndexGap, RunRemove;
    var hs := [Scheduled(RemoveHook(a, opts), env)] + later;
    assert hs[1..] == later;
    RemoveResult(l, a, opts, env);
    RemoveFromAligned(l, a, opts);
    HookKeepsIndex(l, RemoveHook(a, opts), env);
    RunKeepsRemoved(RunRemove(l, a, opts, env).ledger, later, a, l.validators[a].key);
  }

  lemma RemoveFromAligned(l: Ledger, a: Addr, opts: Option<RemoveOptions>)
    requires a in l.validators && RemovedLedger(l, a, opts).Some? && Aligned(l)
    ensures Removed(RemovedLedger(l, a, opts).value, a, l.validators[a].key)
  {
    hide RemovedLedger, Removed;
    RemoveRemoves(l, a, opts);
  }

  // ---------------------------------------------------------------- what single hooks achieve

  /**
   An add hook whose MinSelfDelegation is not positive never stores the record: it fails, and
   unless a keeper call failed before, the minted tokens stay with the operator's account.
   */
  lemma AddWithoutMinSelfDelegation(l: Ledger, a: Addr, o: AddOptions, env: HookEnv)
    requires a !in l.validators && o.pubKey.Some? && o.initialTokens > 0 && o.minSelfDelegation <= 0
    ensures var r := RunAdd(l, a, Some(o), env);
            && !r.ok && a !in r.ledger.validators
            && (!env.fails(0) && !env.fails(1) && !env.fails(2) ==> r.ledger == AfterSend(l, a, o.initialTokens))
  {
    hide Exec, AfterSend, AfterMint;
    var topUp := TopUp(a, 0, o.initialTokens);
    assert AddProgram(l, a, o.pubKey.value, o.initialTokens, o.minSelfDelegation) == [Check] + topUp;
    ExecConcat(l, [Check], topUp, env.fails, 0);
    CheckOnly(l, env.fails, 0);
    TopUpStops(l, a, 0, o.initialTokens, env.fails, 1);
    AfterMintIs(l, o.initialTokens);
    AfterSendRecords(l, a, o.initialTokens);
  }

  lemma AfterSendRecords(l: Ledger, a: Addr, d: nat)
    ensures AfterSend(l, a, d).validators == l.validators && AfterMint(l, d).validators == l.validators
  {
  }

  lemma UnjailTailSucceeds(l: Ledger, key: Key, info: SigningInfo, a: Addr, now: int, fails: nat -> bool, k: nat)
    requires Exec(l, [Check, GetSigning(key)] + [SetSigning(key, info), Unjail(a, now)], fails, k).ok
    ensures DoUnjail(l.(signing := l.signing[key := info]), a, now)
            == Some(Exec(l, [Check, GetSigning(key)] + [SetSigning(key, info), Unjail(a, now)], fails, k).ledger)
  {
    var c2, c3, c4 := GetSigning(key), SetSigning(key, info), Unjail(a, now);
    assert [Check, c2] + [c3, c4] == [Check] + [c2, c3, c4];
    assert [c2, c3, c4] == [c2] + [c3, c4] && [c3, c4] == [c3] + [c4];
    var l' := l.(signing := l.signing[key := info]);
    assert Do(l, Check) == Some(l) && (Do(l, c2) == Some(l) || Do(l, c2) == None) && Do(l, c3) == Some(l');
    assert Do(l', c4) == DoUnjail(l', a, now);
    hide Exec, Do, DoUnjail;
    ExecCons(l, Check, [c2, c3, c4], fails, k);
    ExecCons(l, c2, [c3, c4], fails, k + 1);
    ExecCons(l, c3, [c4], fails, k + 2);
    ExecOne(l', c4, fails, k + 3);
  }

  /** The ledger after a complete top-up. */
  function ToppedUp(l: Ledger, a: Addr, tokens: nat, target: nat): Option<Ledger> {
    if tokens < target then DoDelegate(AfterSend(l, a, target - tokens), a, target - tokens) else Some(l)
  }

  lemma TopUpSucceeds(l: Ledger, a: Addr, tokens: nat, target: nat, fails: nat -> bool, k: nat)
    requires Exec(l, TopUp(a, tokens, target), fails, k).ok
    ensures ToppedUp(l, a, tokens, target) == Some(Exec(l, TopUp(a, tokens, target), fails, k).ledger)
  {
    hide Exec, DoDelegate, AfterSend, AfterMint;
    if tokens < target { TopUpStops(l, a, tokens, target, fails, k); } else { ExecNothing(fails, k); }
  }

  /**
   A top-up raises the tokens to the target at least, by exactly the coins it mints, which end up
   in the validator's pool; its power key moves along, and nothing else changes.
   */
  lemma ToppedUpIs(l: Ledger, a: Addr, tokens: nat, target: nat)
    requires ToppedUp(l, a, tokens, target).Some? && a in l.validators && l.validators[a].tokens == tokens
    ensures var l' := ToppedUp(l, a, tokens, target).value;
            var v, t := l.validators[a], if tokens < target then target else tokens;
            && l' == l.(balances := l'.balances, supply := l.supply + t - tokens,
                        validators := l.validators[a := v.(tokens := t)],
                        index := if tokens >= target then l.index
                                 else l.index - {(Power(tokens), a)} + if v.jailed then {} else {(Power(t), a)})
            && forall acc :: Balance(l', acc) == Balance(l, acc) + if acc == PoolOf(v.status) then t - tokens else 0
  {
    hide Power;
    if tokens >= target { assert l.validators == l.validators[a := l.validators[a].(tokens := tokens)]; }
  }

  /**
   A successful unjail hook: the validator holds at least the target (a floor, not an addition),
   exactly the missing coins were minted, the consensus key was not tombstoned, and the record
   behind that key, and no other, was unjailed. The named validator is unjailed exactly if its
   consensus key leads back to it. The jail term now ended a second ago, and nothing else changed.
   */
  lemma UnjailSucceeds(l: Ledger, a: Addr, target: Option<nat>, env: HookEnv)
    requires a in l.validators && RunUnjail(l, a, target, env).ok
    ensures var v := l.validators[a];
            var l' := RunUnjail(l, a, target, env).ledger;
            var t := if target.Some? && v.tokens < target.value then target.value else v.tokens;
            && a in l'.validators && l'.validators[a].tokens == t
            && l'.supply == l.supply + t - v.tokens
            && v.key in l.signing && !l.signing[v.key].tombstoned
            && v.key in l.byCons && l.byCons[v.key] in l.validators
            && var b, topped := l.byCons[v.key], l.validators[a := v.(tokens := t)];
            && topped[a].jailed && topped[b].jailed
            && l'.validators == topped[b := topped[b].(jailed := false)]
            && (!l'.validators[a].jailed <==> b == a)
            && l'.signing == l.signing[v.key := SigningInfo(false, env.now - 1)]
            && l'.byCons == l.byCons && l'.unbonding == l.unbonding
            && l'.index == (if t == v.tokens then l.index else l.index - {(Power(v.tokens), a)})
                           + {(Power(topped[b].tokens), b)}
            && forall acc :: Balance(l', acc) == Balance(l, acc) + if acc == PoolOf(v.status) then t - v.tokens else 0
  {
    hide Exec, TopUp, ToppedUp;
    var v := l.validators[a];
    var goal := if target.Some? then target.value else 0;
    var first := if target.Some? then TopUp(a, v.tokens, target.value) else [];
    var read := [Check, GetSigning(v.key)];
    var info := if v.key in l.signing then l.signing[v.key].(jailedUntil := env.now - 1) else SigningInfo(false, 0);
    var write := if v.key in l.signing then [SetSigning(v.key, info), Unjail(a, env.now)] else [];
    assert UnjailTail(l, a, v.key, env.now) == read + write;
    ExecConcat(l, first, read + write, env.fails, 0);
    var l1 := Exec(l, first, env.fails, 0).ledger;
    NoTarget(l, a, v.tokens, env.fails);
    if target.Some? { TopUpSucceeds(l, a, v.tokens, goal, env.fails, 0); }
    ToppedUpIs(l, a, v.tokens, goal);
    ExecConcat(l1, read, write, env.fails, |first|);
    ReadSucceeds(l1, v.key, env.fails, |first|);
    UnjailTailSucceeds(l1, v.key, info, a, env.now, env.fails, |first|);
  }

  lemma NoTarget(l: Ledger, a: Addr, tokens: nat, fails: nat -> bool)
    ensures Exec(l, [], fails, 0) == Outcome(l, true) && ToppedUp(l, a, tokens, 0) == Some(l)
  {
  }

  lemma ReadSucceeds(l: Ledger, key: Key, fails: nat -> bool, k: nat)
    ensures Exec(l, [Check, GetSigning(key)], fails, k).ok ==> key in l.signing
  {
    assert [Check, GetSigning(key)] == [Check] + [GetSigning(key)];
    ExecCons(l, Check, [GetSigning(key)], fails, k);
    ExecOne(l, GetSigning(key), fails, k + 1);
  }

  const NEW_INFO := SigningInfo(false, 0)

  /** Calls that check, look a validator up, or write a new signing info for one key. */
  predicate Introduces(c: Call, key: Key) {
    c.Check? || c.GetValidator? || c == SetSigning(key, NEW_INFO)
  }

  lemma {:induction false} IntroducesKey(l: Ledger, cs: seq<Call>, key: Key, fails: nat -> bool, k: nat)
    requires forall i :: 0 <= i < |cs| ==> Introduces(cs[i], key)
    ensures var r := Exec(l, cs, fails, k);
            && r.ledger == l.(signing := r.ledger.signing)
            && (r.ledger.signing == l.signing
                || (SetSigning(key, NEW_INFO) in cs && r.ledger.signing == l.signing[key := NEW_INFO]))
            && (r.ok && SetSigning(key, NEW_INFO) in cs ==> r.ledger.signing == l.signing[key := NEW_INFO])
    decreases |cs|
  {
    if cs != [] && !fails(k) && Do(l, cs[0]).Some? {
      IntroducesKey(Do(l, cs[0]).value, cs[1..], key, fails, k + 1);
    }
  }

  /** The signing infos after a new validator is created: an old info is kept, a new one is clean. */
  function SigningWith(l: Ledger, key: Key): map<Key, SigningInfo> {
    if key in l.signing then l.signing else l.signing[key := NEW_INFO]
  }

  lemma CreateTailIntroduces(l: Ledger, a: Addr, key: Key)
    ensures var tail := CreateTail(l, a, key);
            && (forall i :: 0 <= i < |tail| ==> Introduces(tail[i], key))
            && (SetSigning(key, NEW_INFO) in tail <==> key !in l.signing)
  {
    var tail := CreateTail(l, a, key);
    if key !in l.signing { assert tail[1] == SetSigning(key, NEW_INFO); }
  }

  /**
   A successful add hook for a missing validator: MinSelfDelegation was positive, the record is
   bonded, unjailed and holds exactly the initial tokens, which were minted to the bonded pool,
   both indexes lead to it, and its signing info is the old one or a clean one.
   */
  lemma AddSucceeds(l: Ledger, a: Addr, o: AddOptions, env: HookEnv)
    requires a !in l.validators && RunAdd(l, a, Some(o), env).ok
    ensures var l' := RunAdd(l, a, Some(o), env).ledger;
            && o.pubKey.Some? && o.initialTokens > 0 && o.minSelfDelegation > 0
            && var key, tokens := o.pubKey.value, o.initialTokens;
            && l' == l.(balances := l'.balances, supply := l.supply + tokens,
                        validators := l.validators[a := Validator(key, tokens, Bonded, false)],
                        byCons := l.byCons[key := a],
                        signing := if key in l.signing then l.signing else l.signing[key := SigningInfo(false, 0)],
                        index := l.index - {(0, a)} + {(Power(tokens), a)})
            && forall acc :: Balance(l', acc) == Balance(l, acc) + if acc == BondedPool then tokens else 0
  {
    hide Exec, AddProgram, TopUp, ToppedUp, CreateHead, CreateTail, RunAdd, Introduces, Power;
    AddNeedsOptions(l, a, o, env);
    var key := o.pubKey.value;
    var head, tail := CreateHead(a, key), CreateTail(l, a, key);
    var topUp := TopUp(a, 0, o.initialTokens);
    AddProgramParts(l, a, o);
    ExecConcat(l, [Check], head + (tail + topUp), env.fails, 0);
    CheckOnly(l, env.fails, 0);
    ExecConcat(l, head, tail + topUp, env.fails, 1);
    CreateHeadStops(l, a, key, env.fails, 1);
    var l1 := Indexed(l, a, key);
    ExecConcat(l1, tail, topUp, env.fails, 1 + |head|);
    CreateTailIntroduces(l, a, key);
    IntroducesKey(l1, tail, key, env.fails, 1 + |head|);
    var l2 := Exec(l1, tail, env.fails, 1 + |head|).ledger;
    TopUpSucceeds(l2, a, 0, o.initialTokens, env.fails, 1 + |head| + |tail|);
    NewRecordToppedUp(l, l2, a, key, o.initialTokens);
  }

  lemma NewRecordToppedUp(l: Ledger, l2: Ledger, a: Addr, key: Key, tokens: nat)
    requires l2 == Indexed(l, a, key).(signing := SigningWith(l, key)) && tokens > 0
    requires ToppedUp(l2, a, 0, tokens).Some?
    ensures var l' := ToppedUp(l2, a, 0, tokens).value;
            && l' == l.(balances := l'.balances, supply := l.supply + tokens,
                        validators := l.validators[a := Validator(key, tokens, Bonded, false)],
                        byCons := l.byCons[key := a], signing := SigningWith(l, key),
                        index := l.index - {(0, a)} + {(Power(tokens), a)})
            && forall acc :: Balance(l', acc) == Balance(l, acc) + if acc == BondedPool then tokens else 0
  {
    hide ToppedUp;
    ToppedUpIs(l2, a, 0, tokens);
    var l' := ToppedUp(l2, a, 0, tokens).value;
    assert l'.validators == l.validators[a := Validator(key, tokens, Bonded, false)];
    assert l'.index == l.index - {(0, a)} + {(Power(tokens), a)};
  }

  /** Wherever an add hook stops, the signing infos are the old ones, or those and a clean one for the new key. */
  lemma AddNeverTombstones(l: Ledger, a: Addr, o: AddOptions, env: HookEnv)
    ensures var signing := RunAdd(l, a, Some(o), env).ledger.signing;
            || signing == l.signing
            || (o.pubKey.Some? && o.pubKey.value !in l.signing
                && signing == l.signing[o.pubKey.value := SigningInfo(false, 0)])
  {
    hide Exec, AddProgram, TopUp, CreateHead, CreateTail, Introduces;
    if a !in l.validators && o.pubKey.Some? && o.initialTokens > 0 {
      var key, topUp := o.pubKey.value, TopUp(a, 0, o.initialTokens);
      if o.minSelfDelegation > 0 {
        var head, tail := CreateHead(a, key), CreateTail(l, a, key);
        AddProgramParts(l, a, o);
        ExecConcat(l, [Check], head + (tail + topUp), env.fails, 0);
        CheckOnly(l, env.fails, 0);
        ExecConcat(l, head, tail + topUp, env.fails, 1);
        CreateHeadStops(l, a, key, env.fails, 1);
        var l1 := Indexed(l, a, key);
        ExecConcat(l1, tail, topUp, env.fails, 1 + |head|);
        CreateTailIntroduces(l, a, key);
        IntroducesKey(l1, tail, key, env.fails, 1 + |head|);
        TopUpSigning(Exec(l1, tail, env.fails, 1 + |head|).ledger, a, o.initialTokens, env.fails, 1 + |head| + |tail|);
      } else {
        AddProgramShort(l, a, o);
        ExecConcat(l, [Check], topUp, env.fails, 0);
        CheckOnly(l, env.fails, 0);
        TopUpSigning(l, a, o.initialTokens, env.fails, 1);
      }
    }
  }

  lemma AddProgramShort(l: Ledger, a: Addr, o: AddOptions)
    requires o.pubKey.Some? && o.initialTokens > 0 && o.minSelfDelegation <= 0
    ensures AddProgram(l, a, o.pubKey.value, o.initialTokens, o.minSelfDelegation)
            == [Check] + TopUp(a, 0, o.initialTokens)
  {
  }

  lemma TopUpSigning(l: Ledger, a: Addr, target: nat, fails: nat -> bool, k: nat)
    requires target > 0
    ensures Exec(l, TopUp(a, 0, target), fails, k).ledger.signing == l.signing
  {
    hide Exec, TopUp;
    TopUpStops(l, a, 0, target, fails, k);
  }

  lemma AddNeedsOptions(l: Ledger, a: Addr, o: AddOptions, env: HookEnv)
    requires a !in l.validators && RunAdd(l, a, Some(o), env).ok
    ensures o.pubKey.Some? && o.initialTokens > 0 && o.minSelfDelegation > 0
    ensures RunAdd(l, a, Some(o), env).ledger
            == Exec(l, AddProgram(l, a, o.pubKey.value, o.initialTokens, o.minSelfDelegation), env.fails, 0).ledger
    ensures Exec(l, AddProgram(l, a, o.pubKey.value, o.initialTokens, o.minSelfDelegation), env.fails, 0).ok
  {
    hide Exec, AddProgram;
    if o.pubKey.Some? && o.initialTokens > 0 && o.minSelfDelegation <= 0 { AddWithoutMinSelfDelegation(l, a, o, env); }
  }

  lemma AddProgramParts(l: Ledger, a: Addr, o: AddOptions)
    requires o.pubKey.Some? && o.initialTokens > 0 && o.minSelfDelegation > 0
    ensures var key, tail := o.pubKey.value, CreateTail(l, a, o.pubKey.value);
            && AddProgram(l, a, key, o.initialTokens, o.minSelfDelegation)
               == [Check] + (CreateHead(a, key) + (tail + TopUp(a, 0, o.initialTokens)))
            && forall i :: 0 <= i < |tail| ==> tail[i].Check? || tail[i].SetSigning? || tail[i].GetValidator?
  {
    assert CreateProgram(l, a, o.pubKey.value) == CreateHead(a, o.pubKey.value) + CreateTail(l, a, o.pubKey.value);
  }

  /**
   A removal that pays out takes exactly the validator's tokens from its pool, or what the pool
   still holds; the coins leave circulation or reach the recipient, and the record keeps none. The
   record is jailed, its key tombstoned for good and out of the power index; nothing else changes.
   */
  lemma RemoveSettles(l: Ledger, a: Addr, opts: Option<RemoveOptions>, env: HookEnv)
    requires RunRemove(l, a, opts, env).Finished?
    ensures a in l.validators
    ensures var v, l' := l.validators[a], RunRemove(l, a, opts, env).ledger;
            var pool := PoolOf(v.status);
            var paid := if Balance(l, pool) < v.tokens then Balance(l, pool) else v.tokens;
            var wanted := opts.Some? && (opts.value.burnTokens || opts.value.recipient.Some?);
            && a in l'.validators && l'.validators[a].jailed
            && l'.validators[a].tokens == (if wanted && paid > 0 then 0 else v.tokens)
            && Balance(l', pool) == Balance(l, pool) - (if wanted then paid else 0)
            && l'.supply == l.supply - (if wanted && opts.value.burnTokens then paid else 0)
            && (wanted && !opts.value.burnTokens && paid > 0 ==>
                  opts.value.recipient.value.User?
                  && Balance(l', opts.value.recipient.value) == Balance(l, opts.value.recipient.value) + paid)
            && (forall acc :: acc != pool && !(opts.Some? && opts.value.recipient == Some(acc)) ==>
                                Balance(l', acc) == Balance(l, acc))
            && v.key in l.signing
            && l' == l.(balances := l'.balances, supply := l'.supply,
                        validators := l.validators[a := Validator(v.key, l'.validators[a].tokens, v.status, true)],
                        signing := if l.signing[v.key].tombstoned then l.signing
                                   else l.signing[v.key := SigningInfo(true, FAR_FUTURE)],
                        index := if v.jailed then l.index else l.index - {(Power(v.tokens), a)})
  {
    hide Exec, Power;
    RemoveResult(l, a, opts, env);
    var v := l.validators[a];
    if v.key in l.signing && l.signing[v.key].tombstoned { assert l.signing[v.key := l.signing[v.key]] == l.signing; }
  }
}
