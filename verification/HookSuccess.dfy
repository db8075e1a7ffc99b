/**
 Exactly when a hook of cosmos/app/upgrades.go succeeds: its own conditions hold and none of
 the calls it makes is made to fail.
 */
module HookSuccess {
  import opened Options
  import opened Ledger
  import opened Hooks
  import opened HookRuns

  // ---------------------------------------------------------------- programs without outside failures

  /** The ledger after all calls, if each of them can take effect. */
  function Apply(l: Ledger, cs: seq<Call>): Option<Ledger>
    decreases |cs|
  {
    if cs == [] then Some(l)
    else match Do(l, cs[0])
      case None => None
      case Some(l') => Apply(l', cs[1..])
  }

  /** None of the first n calls is made to fail. */
  ghost predicate NoneFails(fails: nat -> bool, k: nat, n: nat) {
    forall i: nat :: k <= i < k + n ==> !fails(i)
  }

  /** A program succeeds if and only if its calls can all take effect and none is made to fail. */
  lemma {:induction false} ExecSucceedsIff(l: Ledger, cs: seq<Call>, fails: nat -> bool, k: nat)
    ensures Exec(l, cs, fails, k).ok <==> Apply(l, cs).Some? && NoneFails(fails, k, |cs|)
    ensures Exec(l, cs, fails, k).ok ==> Apply(l, cs) == Some(Exec(l, cs, fails, k).ledger)
    decreases |cs|
  {
    hide Do;
    if cs != [] && Do(l, cs[0]).Some? {
      ExecSucceedsIff(Do(l, cs[0]).value, cs[1..], fails, k + 1);
      assert NoneFails(fails, k, |cs|) <==> !fails(k) && NoneFails(fails, k + 1, |cs[1..]|);
    }
  }

  lemma {:induction false} ApplyConcat(l: Ledger, a: seq<Call>, b: seq<Call>)
    ensures Apply(l, a + b) == if Apply(l, a).Some? then Apply(Apply(l, a).value, b) else None
    decreases |a|
  {
    hide Do;
    if a == [] {
      assert a + b == b;
    } else {
      assert (a + b)[1..] == a[1..] + b;
      if Do(l, a[0]).Some? { ApplyConcat(Do(l, a[0]).value, a[1..], b); }
    }
  }

  lemma ApplyOne(l: Ledger, c: Call)
    ensures Apply(l, [c]) == Do(l, c)
  {
    assert [c][1..] == [];
  }

  lemma ApplyTwo(l: Ledger, c: Call, c': Call)
    ensures Apply(l, [c, c']) == if Do(l, c).Some? then Do(Do(l, c).value, c') else None
  {
    hide Do;
    assert [c, c'] == [c] + [c'];
    ApplyConcat(l, [c], [c']);
    ApplyOne(l, c);
    if Do(l, c).Some? { ApplyOne(Do(l, c).value, c'); }
  }

  lemma ApplyNothing(l: Ledger)
    ensures Apply(l, []) == Some(l)
  {
  }

  // ---------------------------------------------------------------- add

  /** Everything about an add hook but its keeper calls. */
  predicate AddReady(o: AddOptions) {
    o.pubKey.Some? && o.initialTokens > 0 && o.minSelfDelegation > 0
  }

  lemma ApplyTopUp(l: Ledger, a: Addr, tokens: nat, target: nat)
    requires a in l.validators
    ensures Apply(l, TopUp(a, tokens, target)) == ToppedUp(l, a, tokens, target)
    ensures ToppedUp(l, a, tokens, target).Some?
  {
    hide Do, DoDelegate, AfterMint, AfterSend;
    if tokens < target {
      var d := target - tokens;
      var c1, c2, c3 := Mint(d), Send(BondedPool, User(a), d), Delegate(a, d);
      TopUpSteps(l, a, d);
      AfterSendMissing(l, a, d, a);
      assert TopUp(a, tokens, target) == [c1] + [c2, c3];
      ApplyConcat(l, [c1], [c2, c3]);
      ApplyOne(l, c1);
      ApplyTwo(AfterMint(l, d), c2, c3);
    } else {
      ApplyNothing(l);
    }
  }

  /** Calls that only check, write a signing info or look a validator up that is there. */
  lemma {:induction false} ApplyTail(l: Ledger, cs: seq<Call>, a: Addr)
    requires a in l.validators
    requires forall i :: 0 <= i < |cs| ==> cs[i].Check? || cs[i].SetSigning? || cs[i] == GetValidator(a)
    ensures Apply(l, cs).Some? && a in Apply(l, cs).value.validators
    decreases |cs|
  {
    if cs != [] { ApplyTail(Do(l, cs[0]).value, cs[1..], a); }
  }

  lemma ApplyAdd(l: Ledger, a: Addr, o: AddOptions)
    requires AddReady(o)
    ensures Apply(l, AddProgram(l, a, o.pubKey.value, o.initialTokens, o.minSelfDelegation)).Some?
  {
    var key := o.pubKey.value;
    var head, tail, topUp := CreateHead(a, key), CreateTail(l, a, key), TopUp(a, 0, o.initialTokens);
    assert forall i :: 0 <= i < |tail| ==> tail[i].Check? || tail[i].SetSigning? || tail[i] == GetValidator(a);
    assert Do(l, Check) == Some(l);
    hide Do, AddProgram, CreateHead, CreateTail, TopUp, ToppedUp;
    AddProgramParts(l, a, o);
    ApplyConcat(l, [Check], head + (tail + topUp));
    ApplyOne(l, Check);
    ApplyConcat(l, head, tail + topUp);
    ApplyHead(l, a, key);
    var l1 := Indexed(l, a, key);
    ApplyConcat(l1, tail, topUp);
    ApplyTail(l1, tail, a);
    ApplyTopUp(Apply(l1, tail).value, a, 0, o.initialTokens);
  }

  lemma ApplyHead(l: Ledger, a: Addr, key: Key)
    ensures Apply(l, CreateHead(a, key)) == Some(Indexed(l, a, key))
  {
    hide Exec;
    CreateHeadStops(l, a, key, _ => false, 0);
    ExecSucceedsIff(l, CreateHead(a, key), _ => false, 0);
    assert NoneFails(_ => false, 0, |CreateHead(a, key)|);
  }

  /**
   An add hook for a missing validator succeeds if and only if it has a key, positive initial
   tokens and a positive MinSelfDelegation, and none of its calls is made to fail.
   */
  lemma AddSucceedsIff(l: Ledger, a: Addr, o: AddOptions, env: HookEnv)
    requires a !in l.validators
    ensures RunAdd(l, a, Some(o), env).ok <==>
            && AddReady(o)
            && NoneFails(env.fails, 0, |AddProgram(l, a, o.pubKey.value, o.initialTokens, o.minSelfDelegation)|)
  {
    hide Exec, Apply, AddProgram, NoneFails;
    if o.pubKey.Some? && o.initialTokens > 0 {
      ExecSucceedsIff(l, AddProgram(l, a, o.pubKey.value, o.initialTokens, o.minSelfDelegation), env.fails, 0);
      if o.minSelfDelegation > 0 { ApplyAdd(l, a, o); } else { AddWithoutMinSelfDelegation(l, a, o, env); }
    }
  }

  /** An add hook for a validator that exists succeeds without a call; one without options fails without one. */
  lemma AddDoesNothing(l: Ledger, a: Addr, opts: Option<AddOptions>, env: HookEnv)
    ensures a in l.validators ==> RunAdd(l, a, opts, env) == Finished(l, true)
    ensures a !in l.validators && (opts.None? || opts.value.pubKey.None? || opts.value.initialTokens <= 0)
            ==> RunAdd(l, a, opts, env) == Finished(l, false)
  {
  }

  // ---------------------------------------------------------------- unjail

  /** The validator is jailed and not tombstoned, and so is the record its consensus key leads to. */
  predicate UnjailReady(l: Ledger, a: Addr) {
    && a in l.validators && l.validators[a].jailed
    && var key := l.validators[a].key;
    && key in l.signing && !l.signing[key].tombstoned
    && key in l.byCons && l.byCons[key] in l.validators && l.validators[l.byCons[key]].jailed
  }

  /** A validator that an add hook created under a new key can be unjailed again once it gets jailed. */
  lemma NewValidatorCanBeUnjailed(l: Ledger, a: Addr, o: AddOptions, env: HookEnv)
    requires a !in l.validators && RunAdd(l, a, Some(o), env).ok && o.pubKey.Some? && o.pubKey.value !in l.signing
    ensures var l' := RunAdd(l, a, Some(o), env).ledger;
            && a in l'.validators
            && UnjailReady(l'.(validators := l'.validators[a := l'.validators[a].(jailed := true)]), a)
  {
    hide RunAdd;
    AddSucceeds(l, a, o, env);
  }

  lemma ApplyUnjailTail(l: Ledger, l1: Ledger, a: Addr, now: int)
    requires a in l1.validators && l1.signing == l.signing
    ensures Apply(l1, UnjailTail(l, a, l1.validators[a].key, now)).Some? <==> UnjailReady(l1, a)
  {
    var key := l1.validators[a].key;
    assert Do(l1, Check) == Some(l1);
    assert Do(l1, GetSigning(key)) == if key in l.signing then Some(l1) else None;
    ApplyConcat(l1, [Check, GetSigning(key)], UnjailTail(l, a, key, now)[2..]);
    ApplyTwo(l1, Check, GetSigning(key));
    assert UnjailTail(l, a, key, now) == [Check, GetSigning(key)] + UnjailTail(l, a, key, now)[2..];
    if key in l.signing {
      var info := l.signing[key].(jailedUntil := now - 1);
      var l2 := l1.(signing := l1.signing[key := info]);
      assert UnjailTail(l, a, key, now)[2..] == [SetSigning(key, info), Unjail(a, now)];
      ApplyTwo(l1, SetSigning(key, info), Unjail(a, now));
      assert Do(l1, SetSigning(key, info)) == Some(l2) && Do(l2, Unjail(a, now)) == DoUnjail(l2, a, now);
      assert DoUnjail(l2, a, now).Some? <==> UnjailReady(l1, a);
    }
  }

  lemma ToppedUpStaysReady(l: Ledger, a: Addr, target: nat)
    requires a in l.validators && ToppedUp(l, a, l.validators[a].tokens, target).Some?
    ensures var l1 := ToppedUp(l, a, l.validators[a].tokens, target).value;
            && a in l1.validators && l1.validators[a].key == l.validators[a].key && l1.signing == l.signing
            && (UnjailReady(l1, a) <==> UnjailReady(l, a))
  {
    hide ToppedUp;
    ToppedUpIs(l, a, l.validators[a].tokens, target);
  }

  /**
   An unjail hook, with or without a target, succeeds if and only if the validator and the record
   behind its consensus key are jailed and not tombstoned, and none of its calls is made to fail.
   */
  lemma UnjailSucceedsIff(l: Ledger, a: Addr, target: Option<nat>, env: HookEnv)
    ensures RunUnjail(l, a, target, env).ok <==>
            UnjailReady(l, a) && NoneFails(env.fails, 0, |UnjailProgram(l, a, target, env.now)|)
  {
    hide Exec, Apply, TopUp, ToppedUp, UnjailTail, NoneFails;
    if a in l.validators {
      var v := l.validators[a];
      var first := if target.Some? then TopUp(a, v.tokens, target.value) else [];
      var goal := if target.Some? then target.value else 0;
      ExecSucceedsIff(l, UnjailProgram(l, a, target, env.now), env.fails, 0);
      ApplyConcat(l, first, UnjailTail(l, a, v.key, env.now));
      NoTarget(l, a, v.tokens, env.fails);
      ApplyNothing(l);
      ApplyTopUp(l, a, v.tokens, goal);
      ToppedUpStaysReady(l, a, goal);
      ApplyUnjailTail(l, Apply(l, first).value, a, env.now);
    }
  }

  /** Records 1 and 2 are jailed and share the consensus key 7, which leads to record 2. */
  function SharedKey(): Ledger {
    Ledger(map[], 0, map[1 := Validator(7, 0, Bonded, true), 2 := Validator(7, 0, Bonded, true)],
           map[7 := 2], map[7 := SigningInfo(false, 0)], {}, [])
  }

  /** There the unjail of validator 1 succeeds, validator 1 stays jailed, and validator 2 is unjailed. */
  lemma UnjailHitsAnother(env: HookEnv)
    requires forall k: nat :: !env.fails(k)
    ensures Aligned(SharedKey()) && IndexComplete(SharedKey())
    ensures var r := RunUnjail(SharedKey(), 1, None, env);
            && r.ok && 1 in r.ledger.validators && 2 in r.ledger.validators
            && r.ledger.validators[1].jailed && !r.ledger.validators[2].jailed
  {
    hide RunUnjail, UnjailProgram;
    UnjailSucceedsIff(SharedKey(), 1, None, env);
    UnjailSucceeds(SharedKey(), 1, None, env);
  }

  // ---------------------------------------------------------------- remove

  /** The validator has a signing info, and a payout that is due goes to an account that can receive it. */
  predicate RemoveReady(l: Ledger, a: Addr, opts: Option<RemoveOptions>) {
    && a in l.validators && l.validators[a].key in l.signing
    && var coins := TokenCalls(l, l.validators[a], opts);
    coins != [] && coins[0].Send? ==> coins[0].to.User?
  }

  lemma RemovedLedgerIff(l: Ledger, a: Addr, opts: Option<RemoveOptions>)
    requires a in l.validators
    ensures RemovedLedger(l, a, opts).Some? <==> RemoveReady(l, a, opts)
  {
    hide TokenCalls, Tombstone;
    TokenCallsShape(l, l.validators[a], opts);
  }

  lemma ApplyTombstone(l: Ledger, key: Key)
    ensures var l' := Apply(l, TombstoneCalls(l, key));
            && (l'.Some? <==> key in l.signing)
            && (l'.Some? ==> l'.value == l.(signing := l'.value.signing))
  {
    var read, write := [Check, GetSigning(key)], TombstoneCalls(l, key)[2..];
    assert TombstoneCalls(l, key) == read + write;
    ApplyConcat(l, read, write);
    ApplyTwo(l, Check, GetSigning(key));
    if key in l.signing {
      ApplyNothing(l);
      if write != [] { ApplyOne(l, write[0]); }
    }
  }

  lemma ApplyMaybe(l: Ledger, cs: seq<Call>)
    requires |cs| <= 1
    ensures Apply(l, cs) == if cs == [] then Some(l) else Do(l, cs[0])
  {
    if cs != [] {
      assert cs == [cs[0]];
      ApplyOne(l, cs[0]);
    }
  }

  lemma ApplyRemove(l: Ledger, a: Addr, opts: Option<RemoveOptions>)
    requires a in l.validators
    ensures Apply(l, RemoveProgram(l, a, opts)).Some? <==> RemoveReady(l, a, opts)
  {
    hide Apply, TokenCalls, TombstoneCalls, Tombstone;
    var v := l.validators[a];
    var coins := TokenCalls(l, v, opts);
    var p1 := TombstoneCalls(l, v.key);
    var p2 := if v.jailed then [] else [DeleteIndex(a, v.tokens)];
    var p4 := if v.jailed && coins == [] then [] else [SetValidator(a, RemovedRecord(v, coins != []))];
    ApplyConcat(l, p1 + p2 + coins, p4);
    ApplyConcat(l, p1 + p2, coins);
    ApplyConcat(l, p1, p2);
    ApplyTombstone(l, v.key);
    TokenCallsShape(l, v, opts);
    if v.key in l.signing {
      var l1 := Apply(l, p1).value;
      ApplyMaybe(l1, p2);
      var l2 := Apply(l1, p2).value;
      ApplyMaybe(l2, coins);
      if Apply(l2, coins).Some? { ApplyMaybe(Apply(l2, coins).value, p4); }
    }
  }

  /**
   A remove hook does not panic if and only if the validator has a record and a signing info, a
   payout that is due has a recipient that can receive it, and none of its calls is made to fail.
   */
  lemma RemoveSucceedsIff(l: Ledger, a: Addr, opts: Option<RemoveOptions>, env: HookEnv)
    ensures RunRemove(l, a, opts, env).Finished? <==>
            RemoveReady(l, a, opts) && NoneFails(env.fails, 0, |RemoveProgram(l, a, opts)|)
    ensures a in l.validators ==> (RemovedLedger(l, a, opts).Some? <==> RemoveReady(l, a, opts))
  {
    hide Exec, Apply, RemoveProgram, NoneFails, TokenCalls, RemovedLedger, RemoveReady;
    if a in l.validators {
      ExecSucceedsIff(l, RemoveProgram(l, a, opts), env.fails, 0);
      ApplyRemove(l, a, opts);
      RemovedLedgerIff(l, a, opts);
    } else {
      NothingToRemove(l, a, opts);
    }
  }

  lemma NothingToRemove(l: Ledger, a: Addr, opts: Option<RemoveOptions>)
    ensures RemoveReady(l, a, opts) ==> a in l.validators
  {
  }

  /** Of each hook: exactly when it ends without an error and without a panic. */
  lemma HookSucceedsIff(l: Ledger, h: Hook, env: HookEnv)
    ensures Perform(l, h, env).Finished? && Perform(l, h, env).ok <==>
            match h
            case UnjailHook(a, target) =>
              UnjailReady(l, a) && NoneFails(env.fails, 0, |UnjailProgram(l, a, target, env.now)|)
            case AddHook(a, opts) =>
              || a in l.validators
              || (&& opts.Some? && AddReady(opts.value)
                  && var o := opts.value;
                  NoneFails(env.fails, 0, |AddProgram(l, a, o.pubKey.value, o.initialTokens, o.minSelfDelegation)|))
            case RemoveHook(a, opts) => RemoveReady(l, a, opts) && NoneFails(env.fails, 0, |RemoveProgram(l, a, opts)|)
            case ReconcileHook => true
            case InvalidHook => false
    ensures h.InvalidHook? ==> Perform(l, h, env) == Finished(l, false)
  {
    hide RunUnjail, RunAdd, RunRemove, RunReconcile, UnjailProgram, AddProgram, RemoveProgram, NoneFails;
    match h
    case UnjailHook(a, target) =>
      UnjailSucceedsIff(l, a, target, env);
      UnjailFinishes(l, h, env);
    case AddHook(a, opts) =>
      AddDoesNothing(l, a, opts, env);
      AddDeficit(l, a, opts, env, true);
      if a !in l.validators && opts.Some? { AddSucceedsIff(l, a, opts.value, env); }
    case RemoveHook(a, opts) =>
      RemoveSucceedsIff(l, a, opts, env);
      RemoveIsNeverAnError(l, a, opts, env);
    case ReconcileHook => ReconcileUnderFailures(l, env);
    case InvalidHook =>
  }

  lemma RemoveIsNeverAnError(l: Ledger, a: Addr, opts: Option<RemoveOptions>, env: HookEnv)
    ensures RunRemove(l, a, opts, env).Finished? ==> RunRemove(l, a, opts, env).ok
  {
  }
}
