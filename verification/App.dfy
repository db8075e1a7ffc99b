/**
 The hooks in their own form: methods of the application object that call keepers step by
 step on live state (cosmos/app/upgrades.go, block_hooks.go and the end-blocker of app.go).
 */
module App {
  import opened Options
  import opened Sums
  import opened Ledger
  import opened Hooks
  import opened HookRuns

  /** A program that already failed does nothing more. */
  lemma Stopped(l: Ledger, done: seq<Call>, program: seq<Call>, fails: nat -> bool)
    requires done <= program && !Exec(l, done, fails, 0).ok
    ensures Exec(l, program, fails, 0) == Exec(l, done, fails, 0)
  {
    hide Exec;
    ExecConcat(l, done, program[|done|..], fails, 0);
    assert program == done + program[|done|..];
  }

  lemma ExecSnoc(l: Ledger, done: seq<Call>, c: Call, fails: nat -> bool, base: nat)
    requires Exec(l, done, fails, base).ok
    ensures var m := Exec(l, done, fails, base).ledger;
            Exec(l, done + [c], fails, base) ==
            if fails(base + |done|) || Do(m, c).None? then Outcome(m, false) else Outcome(Do(m, c).value, true)
  {
    ExecConcat(l, done, [c], fails, base);
    hide Do;
    assert [c][1..] == [];
  }

  /** Calls that write no signing info leave them all alone. */
  lemma {:induction false} SigningUntouched(l: Ledger, cs: seq<Call>, fails: nat -> bool, k: nat)
    requires forall i :: 0 <= i < |cs| ==> !cs[i].SetSigning?
    ensures Exec(l, cs, fails, k).ledger.signing == l.signing
    decreases |cs|
  {
    if cs != [] && !fails(k) && Do(l, cs[0]).Some? { SigningUntouched(Do(l, cs[0]).value, cs[1..], fails, k + 1); }
  }

  class Application {
    var balances: map<Account, nat>
    var supply: int
    var validators: map<Addr, Validator>
    var byCons: map<Key, Addr>
    var signing: map<Key, SigningInfo>
    var index: set<(nat, Addr)>
    var unbonding: seq<seq<int>>
    const hooks: map<int, seq<Hook>>
    ghost const config: seq<ConfiguredHook>

    constructor (l: Ledger, config: seq<ConfiguredHook>)
      ensures Snapshot() == l && this.config == config && Loaded()
    {
      var loaded := LoadHooks(config);
      balances, supply, validators, byCons := l.balances, l.supply, l.validators, l.byCons;
      signing, index, unbonding := l.signing, l.index, l.unbonding;
      hooks, this.config := loaded, config;
    }

    /** The hooks are those of the configuration, grouped by height. */
    ghost predicate Loaded() {
      forall h :: (h in hooks <==> AtHeight(config, h) != []) && (h in hooks ==> hooks[h] == AtHeight(config, h))
    }

    function Snapshot(): Ledger
      reads this
    {
      Ledger(balances, supply, validators, byCons, signing, index, unbonding)
    }

    /** One keeper call, by its contract. */
    method Call(c: Call, fails: nat -> bool, k: nat, ghost start: Ledger, ghost done: seq<Call>) returns (ok: bool)
      requires k >= |done| && Exec(start, done, fails, k - |done|) == Outcome(Snapshot(), true)
      modifies this
      ensures Exec(start, done + [c], fails, k - |done|) == Outcome(Snapshot(), ok)
    {
      hide Exec, Do;
      ExecSnoc(start, done, c, fails, k - |done|);
      var r := Do(Snapshot(), c);
      if fails(k) || r.None? { return false; }
      var l := r.value;
      balances, supply, validators, byCons := l.balances, l.supply, l.validators, l.byCons;
      signing, index, unbonding := l.signing, l.index, l.unbonding;
      ok := true;
    }

    /** `setValidatorBalance`. */
    method SetValidatorBalance(a: Addr, tokens: nat, target: nat, fails: nat -> bool, k: nat,
                               ghost start: Ledger, ghost done: seq<Call>) returns (ok: bool)
      requires k == |done| && Exec(start, done, fails, 0) == Outcome(Snapshot(), true)
      modifies this
      ensures Exec(start, done + TopUp(a, tokens, target), fails, 0) == Outcome(Snapshot(), ok)
    {
      hide Exec, Do;
      ghost var program := done + TopUp(a, tokens, target);
      assert done + [] == done;
      if tokens < target {
        var d := target - tokens;
        var c1, c2, c3 := Mint(d), Send(BondedPool, User(a), d), Delegate(a, d);
        ok := Call(c1, fails, k, start, done);
        if !ok { Stopped(start, done + [c1], program, fails); return; }
        ok := Call(c2, fails, k + 1, start, done + [c1]);
        if !ok { Stopped(start, done + [c1] + [c2], program, fails); return; }
        ok := Call(c3, fails, k + 2, start, done + [c1] + [c2]);
        assert done + [c1] + [c2] + [c3] == program;
      } else {
        ok := true;
      }
    }

    /** Calls one after the other, each followed by a return if it fails. */
    method CallAll(cs: seq<Call>, fails: nat -> bool, k: nat, ghost start: Ledger, ghost done: seq<Call>)
      returns (ok: bool)
      requires k == |done| && Exec(start, done, fails, 0) == Outcome(Snapshot(), true)
      modifies this
      ensures Exec(start, done + cs, fails, 0) == Outcome(Snapshot(), ok)
    {
      hide Exec, Do;
      ok := true;
      assert done + cs[..0] == done;
      for i := 0 to |cs|
        invariant ok && Exec(start, done + cs[..i], fails, 0) == Outcome(Snapshot(), true)
      {
        assert done + cs[..i] + [cs[i]] == done + cs[..i + 1];
        ok := Call(cs[i], fails, k + i, start, done + cs[..i]);
        if !ok { Stopped(start, done + cs[..i + 1], done + cs, fails); return; }
      }
      assert cs[..|cs|] == cs;
    }

    /** `ExecuteUnjailing`. */
    method ExecuteUnjailing(a: Addr, targetTokens: Option<nat>, env: HookEnv) returns (ok: bool)
      modifies this
      ensures RunUnjail(old(Snapshot()), a, targetTokens, env) == Finished(Snapshot(), ok)
    {
      hide Exec, Do, TopUp, UnjailTail;
      if a !in validators { return false; }
      var v := validators[a];
      ghost var start := Snapshot();
      ghost var first: seq<Call> := [];
      ExecNothing(env.fails, 0);
      var k := 0;
      if targetTokens.Some? {
        ok := SetValidatorBalance(a, v.tokens, targetTokens.value, env.fails, 0, start, []);
        first := TopUp(a, v.tokens, targetTokens.value);
        assert [] + first == first;
        if !ok { Stopped(start, first, UnjailProgram(start, a, targetTokens, env.now), env.fails); return; }
        TopUpLength(a, v.tokens, targetTokens.value);
        TopUpWritesNoSigning(a, v.tokens, targetTokens.value);
        k := if v.tokens < targetTokens.value then 3 else 0;
      }
      ok := EndJailTerm(a, v.key, env, k, start, first);
    }

    /** The part of `ExecuteUnjailing` behind the top-up. */
    method EndJailTerm(a: Addr, key: Key, env: HookEnv, k: nat, ghost start: Ledger, ghost first: seq<Call>)
      returns (ok: bool)
      requires k == |first| && Exec(start, first, env.fails, 0) == Outcome(Snapshot(), true)
      requires forall i :: 0 <= i < |first| ==> !first[i].SetSigning?
      modifies this
      ensures Exec(start, first + UnjailTail(start, a, key, env.now), env.fails, 0) == Outcome(Snapshot(), ok)
    {
      hide Exec, Do;
      ghost var program := first + UnjailTail(start, a, key, env.now);
      ok := Call(Check, env.fails, k, start, first);
      ghost var done := first + [Check];
      if !ok { Stopped(start, done, program, env.fails); return; }
      ok := Call(GetSigning(key), env.fails, k + 1, start, done);
      done := done + [GetSigning(key)];
      if !ok { Stopped(start, done, program, env.fails); return; }
      SigningUntouched(start, done, env.fails, 0);
      SigningFound(start, done, key, env.fails);
      var info := signing[key].(jailedUntil := env.now - 1);
      assert program == done + [SetSigning(key, info), Unjail(a, env.now)];
      ok := Call(SetSigning(key, info), env.fails, k + 2, start, done);
      done := done + [SetSigning(key, info)];
      if !ok { Stopped(start, done, program, env.fails); return; }
      ok := Call(Unjail(a, env.now), env.fails, k + 3, start, done);
      assert done + [Unjail(a, env.now)] == program;
    }

    /** The part of `ExecuteAddValidator` that stores and indexes a new record. */
    method CreateValidator(a: Addr, key: Key, fails: nat -> bool, k: nat, ghost start: Ledger, ghost done: seq<Call>)
      returns (ok: bool, calls: nat)
      requires k == |done| && Exec(start, done, fails, 0) == Outcome(Snapshot(), true)
      requires signing == start.signing
      modifies this
      ensures calls == |CreateProgram(start, a, key)|
      ensures Exec(start, done + CreateProgram(start, a, key), fails, 0) == Outcome(Snapshot(), ok)
    {
      hide Exec, Do;
      ghost var program := done + CreateProgram(start, a, key);
      var known := key in signing;
      calls := if known then 9 else 10;
      var head := [SetValidator(a, NewRecord(key)), SetByCons(key, a), SetNewIndex(a, 0), Check];
      ok := CallAll(head, fails, k, start, done);
      ghost var sofar := done + head;
      if !ok { Stopped(start, sofar, program, fails); return; }
      var n := k + 4;
      if !known {
        var init := SetSigning(key, SigningInfo(false, 0));
        ok := Call(init, fails, n, start, sofar);
        sofar := sofar + [init];
        if !ok { Stopped(start, sofar, program, fails); return; }
        n := n + 1;
      }
      var tail := [Check, Check, Check, Check, GetValidator(a)];
      ok := CallAll(tail, fails, n, start, sofar);
      assert sofar + tail == program;
    }

    /** `ExecuteAddValidator`. */
    method ExecuteAddValidator(a: Addr, opts: Option<AddOptions>, env: HookEnv) returns (ok: bool)
      modifies this
      ensures RunAdd(old(Snapshot()), a, opts, env) == Finished(Snapshot(), ok)
    {
      hide Exec, Do, TopUp, CreateProgram;
      if a in validators { return true; }
      if opts.None? || opts.value.pubKey.None? { return false; }
      var o := opts.value;
      if o.initialTokens <= 0 { return false; }
      var key := o.pubKey.value;
      ghost var start := Snapshot();
      ghost var program := AddProgram(start, a, key, o.initialTokens, o.minSelfDelegation);
      ExecNothing(env.fails, 0);
      ok := Call(Check, env.fails, 0, start, []);
      ghost var done := [Check];
      assert [] + [Check] == [Check];
      if !ok { Stopped(start, done, program, env.fails); return; }
      var k := 1;
      if o.minSelfDelegation > 0 {
        CheckOnly(start, env.fails, 0);
        var calls;
        ok, calls := CreateValidator(a, key, env.fails, 1, start, done);
        done := done + CreateProgram(start, a, key);
        if !ok { Stopped(start, done, program, env.fails); return; }
        k := 1 + calls;
      }
      ok := SetValidatorBalance(a, 0, o.initialTokens, env.fails, k, start, done);
      assert done + TopUp(a, 0, o.initialTokens) == program;
    }

    /** `tombstoneValidator`. */
    method TombstoneValidator(key: Key, fails: nat -> bool, ghost start: Ledger) returns (ok: bool, k: nat)
      requires start == Snapshot() && Exec(start, [Check], fails, 0) == Outcome(start, true)
      modifies this
      ensures k == |TombstoneCalls(start, key)|
      ensures Exec(start, TombstoneCalls(start, key), fails, 0) == Outcome(Snapshot(), ok)
    {
      hide Exec, Do;
      ghost var program := TombstoneCalls(start, key);
      k := if key in signing && !signing[key].tombstoned then 3 else 2;
      ok := Call(GetSigning(key), fails, 1, start, [Check]);
      ghost var done := [Check] + [GetSigning(key)];
      if !ok { Stopped(start, done, program, fails); return; }
      SigningFound(start, done, key, fails);
      SigningUntouched(start, done, fails, 0);
      if signing[key].tombstoned {
        assert done == program;
        return;
      }
      var info := SigningInfo(true, FAR_FUTURE);
      ok := Call(SetSigning(key, info), fails, 2, start, done);
      assert done + [SetSigning(key, info)] == program;
    }

    /** `handleValidatorTokens`; `ok` is false on a panic. */
    method HandleValidatorTokens(v: Validator, opts: Option<RemoveOptions>, fails: nat -> bool, k: nat,
                                 ghost start: Ledger, ghost done: seq<Call>) returns (ok: bool, paidOut: bool)
      requires k == |done| && Exec(start, done, fails, 0) == Outcome(Snapshot(), true) && balances == start.balances
      modifies this
      ensures paidOut <==> TokenCalls(start, v, opts) != []
      ensures Exec(start, done + TokenCalls(start, v, opts), fails, 0) == Outcome(Snapshot(), ok)
    {
      hide Exec, Do;
      assert done + [] == done;
      if opts.None? || v.tokens == 0 { return true, false; }
      if !opts.value.burnTokens && opts.value.recipient.None? { return true, false; }
      var pool := PoolOf(v.status);
      var amount := v.tokens;
      if Balance(Snapshot(), pool) < amount { amount := Balance(Snapshot(), pool); }
      if amount == 0 { return true, false; }
      if opts.value.burnTokens {
        ok := Call(Burn(pool, amount), fails, k, start, done);
      } else {
        ok := Call(Send(pool, opts.value.recipient.value, amount), fails, k, start, done);
      }
      paidOut := true;
    }

    /** `ExecuteRemoveValidator`; any failure is a panic. */
    method ExecuteRemoveValidator(a: Addr, opts: Option<RemoveOptions>, env: HookEnv) returns (panicked: bool)
      modifies this
      ensures RunRemove(old(Snapshot()), a, opts, env) == if panicked then Panicked else Finished(Snapshot(), true)
    {
      hide Exec, Do, TokenCalls, RemovedRecord, TombstoneCalls;
      if a !in validators { return true; }
      var v := validators[a];
      var fails := env.fails;
      ghost var start := Snapshot();
      ghost var program := RemoveProgram(start, a, opts);
      ghost var coins := TokenCalls(start, v, opts);
      ghost var index' := if v.jailed then [] else [DeleteIndex(a, v.tokens)];
      ghost var p2 := TombstoneCalls(start, v.key);
      assert [Check] <= p2 by { TombstoneStarts(start, v.key); }
      ExecNothing(fails, 0);
      var ok := Call(Check, fails, 0, start, []);
      assert [] + [Check] == [Check] <= program;
      if !ok { Stopped(start, [Check], program, fails); return true; }
      CheckOnly(start, fails, 0);
      var k;
      ok, k := TombstoneValidator(v.key, fails, start);
      if !ok { Stopped(start, p2, program, fails); return true; }
      if !v.jailed {
        ok := Call(DeleteIndex(a, v.tokens), fails, k, start, p2);
        if !ok { Stopped(start, p2 + index', program, fails); return true; }
        k := k + 1;
      }
      assert p2 + index' == p2 + [] || p2 + index' == p2 + [DeleteIndex(a, v.tokens)];
      assert p2 + [] == p2;
      TombstoneTouchesNoCoins(start, v.key, index', fails);
      var paidOut;
      ok, paidOut := HandleValidatorTokens(v, opts, fails, k, start, p2 + index');
      if !ok { Stopped(start, p2 + index' + coins, program, fails); return true; }
      TokenCallsShape(start, v, opts);
      if paidOut { k := k + 1; }
      if !v.jailed || paidOut {
        var record := v.(jailed := true);
        if paidOut { record := record.(tokens := 0); }
        assert record == RemovedRecord(v, paidOut) by { RemovedRecordIs(v, paidOut); }
        ok := Call(SetValidator(a, record), fails, k, start, p2 + index' + coins);
      }
      panicked := !ok;
    }

    /** `GetAllValidators`: every record once, in some order. */
    method ListValidators() returns (order: seq<Addr>)
      ensures Lists(order, validators.Keys)
    {
      order := [];
      var rest := validators.Keys;
      while rest != {}
        invariant rest <= validators.Keys && Lists(order, validators.Keys - rest)
        decreases |rest|
      {
        var a :| a in rest;
        rest := rest - {a};
        order := order + [a];
      }
    }

    /** The token sums per pool. */
    method SumTokens() returns (bondedSum: nat, notBondedSum: nat)
      ensures bondedSum == Sum(TokensIn(validators, true)) && notBondedSum == Sum(TokensIn(validators, false))
    {
      hide TokensIn;
      var order := ListValidators();
      bondedSum, notBondedSum := 0, 0;
      ghost var seen: map<Addr, Validator> := map[];
      NoTokens();
      for i := 0 to |order|
        invariant forall a :: a in seen <==> a in order[..i]
        invariant forall a :: a in seen ==> a in validators && seen[a] == validators[a]
        invariant bondedSum == Sum(TokensIn(seen, true)) && notBondedSum == Sum(TokensIn(seen, false))
      {
        var a := order[i];
        assert a in validators.Keys && a !in order[..i] && order[..i + 1] == order[..i] + [a];
        var v := validators[a];
        TokensInAdd(seen, a, v, true);
        TokensInAdd(seen, a, v, false);
        seen := seen[a := v];
        if v.status.Bonded? { bondedSum := bondedSum + v.tokens; } else { notBondedSum := notBondedSum + v.tokens; }
      }
      assert order[..|order|] == order;
      assert seen == validators by { assert seen.Keys == validators.Keys; }
    }

    /** The positive entries of the first `visited` unbonding delegations. */
    method SumUnbonding(visited: nat) returns (total: nat)
      requires visited <= |unbonding|
      ensures total == UnbondingTotal(unbonding[..visited])
    {
      total := 0;
      for i := 0 to visited
        invariant total == UnbondingTotal(unbonding[..i])
      {
        var entries := unbonding[i];
        ghost var before := total;
        for j := 0 to |entries|
          invariant total == before + EntryTotal(entries[..j])
        {
          EntryTotalAppend(entries[..j], entries[j]);
          assert entries[..j + 1] == entries[..j] + [entries[j]];
          if entries[j] > 0 { total := total + entries[j]; }
        }
        assert entries[..|entries|] == entries;
        UnbondingTotalAppend(unbonding[..i], entries);
        assert unbonding[..i + 1] == unbonding[..i] + [entries];
      }
    }

    /** `ExecuteReconcileStakingPools`: errors are logged only. */
    method ExecuteReconcileStakingPools(env: HookEnv)
      modifies this
      ensures RunReconcile(old(Snapshot()), env) == Finished(Snapshot(), true)
    {
      hide Exec, Do, TokensIn, UnbondingTotal, Shortfall;
      if env.listFails { return; }
      ghost var start := Snapshot();
      var bondedSum, notBondedSum := SumTokens();
      var visited := if env.visited < |unbonding| then env.visited else |unbonding|;
      var inFlight := SumUnbonding(visited);
      notBondedSum := notBondedSum + inFlight;
      ghost var missing' := Shortfall(notBondedSum, Balance(start, NotBondedPool));
      FundBondedPool(bondedSum, env.fails);
      ghost var l1 := Snapshot();
      FundBondedStops(start, Shortfall(bondedSum, Balance(start, BondedPool)), env.fails);
      AfterMintIs(start, Shortfall(bondedSum, Balance(start, BondedPool)));
      assert Balance(l1, NotBondedPool) == Balance(start, NotBondedPool);
      FundNotBondedPool(notBondedSum, env.fails);
    }

    method FundBondedPool(owed: nat, fails: nat -> bool)
      modifies this
      ensures var l := old(Snapshot());
              Snapshot() == FundBonded(l, Shortfall(owed, Balance(l, BondedPool)), fails)
    {
      hide Exec, Do;
      ghost var start := Snapshot();
      ExecNothing(fails, 0);
      var balance := Balance(Snapshot(), BondedPool);
      if balance < owed {
        var ok := Call(Mint(owed - balance), fails, 0, start, []);
        assert [] + [Mint(owed - balance)] == [Mint(owed - balance)];
      }
    }

    method FundNotBondedPool(owed: nat, fails: nat -> bool)
      modifies this
      ensures var l := old(Snapshot());
              Snapshot() == FundNotBonded(l, Shortfall(owed, Balance(l, NotBondedPool)), fails)
    {
      hide Exec, Do;
      ghost var start := Snapshot();
      ExecNothing(fails, 1);
      var balance := Balance(Snapshot(), NotBondedPool);
      if balance < owed {
        var d := owed - balance;
        var c1, c2 := Mint(d), Transfer(BondedPool, NotBondedPool, d);
        assert [] + [c1] == [c1] && [c1] + [c2] == [c1, c2];
        var ok := Call(c1, fails, 1, start, []);
        if !ok { ExecConcat(start, [c1], [c2], fails, 1); return; }
        ok := Call(c2, fails, 2, start, [c1]);
      }
    }

    /** `PerformHook`. */
    method PerformHook(h: Hook, env: HookEnv) returns (panicked: bool, ok: bool)
      modifies this
      ensures Perform(old(Snapshot()), h, env) == if panicked then Panicked else Finished(Snapshot(), ok)
    {
      hide RunUnjail, RunAdd, RunRemove, RunReconcile;
      panicked, ok := false, false;
      match h
      case UnjailHook(a, target) => ok := ExecuteUnjailing(a, target, env);
      case AddHook(a, opts) => ok := ExecuteAddValidator(a, opts, env);
      case RemoveHook(a, opts) =>
        panicked := ExecuteRemoveValidator(a, opts, env);
        ok := !panicked;
      case ReconcileHook =>
        ExecuteReconcileStakingPools(env);
        ok := true;
      case InvalidHook =>
    }

    /**
     `EndBlocker`: unless the modules' own end-blockers fail, the hooks configured for the height
     run in order, each in its environment; an error is logged and the next hook runs.
     */
    method EndBlocker(height: int, modulesFail: bool, envs: nat -> HookEnv) returns (panicked: bool)
      requires Loaded()
      modifies this
      ensures (if modulesFail then Some(old(Snapshot())) else AfterHooks(old(Snapshot()), config, height, envs))
              == if panicked then None else Some(Snapshot())
    {
      hide Perform;
      panicked := false;
      if modulesFail { return; }
      if height in hooks {
        var list := hooks[height];
        ghost var run := Schedule(list, envs);
        for i := 0 to |list|
          invariant RunHooks(old(Snapshot()), run) == RunHooks(Snapshot(), run[i..])
        {
          assert run[i..][1..] == run[i + 1..] && run[i..][0] == run[i];
          var ok;
          panicked, ok := PerformHook(list[i], envs(i));
          if panicked { return; }
        }
        assert run[|list|..] == [];
      }
    }
  }

  // ---------------------------------------------------------------- grouping by height

  datatype ConfiguredHook = ConfiguredHook(block: int, hook: Hook)

  /** Hook number i runs in environment number i. */
  ghost function Schedule(list: seq<Hook>, envs: nat -> HookEnv): seq<Scheduled> {
    seq(|list|, i requires 0 <= i < |list| => Scheduled(list[i], envs(i)))
  }

  /** The hooks configured for one height, in configuration order. */
  function AtHeight(config: seq<ConfiguredHook>, height: int): seq<Hook> {
    if config == [] then []
    else (if config[0].block == height then [config[0].hook] else []) + AtHeight(config[1..], height)
  }

  lemma {:induction false} AtHeightAppend(config: seq<ConfiguredHook>, c: ConfiguredHook, height: int)
    ensures AtHeight(config + [c], height)
            == AtHeight(config, height) + if c.block == height then [c.hook] else []
  {
    if config == [] {
      assert config + [c] == [c] && [c][1..] == [];
    } else {
      assert (config + [c])[1..] == config[1..] + [c];
      AtHeightAppend(config[1..], c, height);
      var first := if config[0].block == height then [config[0].hook] else [];
      var last := if c.block == height then [c.hook] else [];
      assert first + (AtHeight(config[1..], height) + last) == first + AtHeight(config[1..], height) + last;
    }
  }

  /** What the end-blocker does with the hooks of a configuration. */
  ghost function AfterHooks(l: Ledger, config: seq<ConfiguredHook>, height: int, envs: nat -> HookEnv): Option<Ledger> {
    RunHooks(l, Schedule(AtHeight(config, height), envs))
  }

  lemma {:induction false} RunHooksAppend(l: Ledger, hs: seq<Scheduled>, h: Scheduled)
    ensures RunHooks(l, hs + [h]) ==
            match RunHooks(l, hs)
            case None => None
            case Some(l1) => (match Perform(l1, h.hook, h.env)
                              case Panicked => None
                              case Finished(l2, _) => Some(l2))
    decreases |hs|
  {
    hide Perform;
    if hs == [] {
      assert hs + [h] == [h] && [h][1..] == [];
      if Perform(l, h.hook, h.env).Finished? {
        var l2 := Perform(l, h.hook, h.env).ledger;
        assert RunHooks(l2, []) == Some(l2);
      }
    } else {
      assert (hs + [h])[1..] == hs[1..] + [h];
      if Perform(l, hs[0].hook, hs[0].env).Finished? {
        RunHooksAppend(Perform(l, hs[0].hook, hs[0].env).ledger, hs[1..], h);
      }
    }
  }

  /**
   Hooks run in configuration order: one more entry at the end of the configuration acts on the
   ledger the others leave, at its own height, and does nothing at any other.
   */
  lemma HooksRunInOrder(l: Ledger, config: seq<ConfiguredHook>, c: ConfiguredHook, height: int, envs: nat -> HookEnv)
    ensures AfterHooks(l, [], height, envs) == Some(l)
    ensures AfterHooks(l, config + [c], height, envs) ==
            if c.block != height then AfterHooks(l, config, height, envs) else
            match AfterHooks(l, config, height, envs)
            case None => None
            case Some(l1) => (match Perform(l1, c.hook, envs(|AtHeight(config, height)|))
                              case Panicked => None
                              case Finished(l2, _) => Some(l2))
  {
    hide Perform;
    var list := AtHeight(config, height);
    AtHeightAppend(config, c, height);
    if c.block == height {
      var h := Scheduled(c.hook, envs(|list|));
      assert Schedule(list + [c.hook], envs) == Schedule(list, envs) + [h];
      hide RunHooks;
      RunHooksAppend(l, Schedule(list, envs), h);
    } else {
      assert list + [] == list;
    }
  }

  /** `LoadHooks`: a height is listed exactly if it has hooks, and then with all of them in order. */
  method LoadHooks(config: seq<ConfiguredHook>) returns (hooks: map<int, seq<Hook>>)
    ensures forall h :: h in hooks <==> AtHeight(config, h) != []
    ensures forall h :: h in hooks ==> hooks[h] == AtHeight(config, h)
  {
    hooks := map[];
    for i := 0 to |config|
      invariant forall h :: h in hooks <==> AtHeight(config[..i], h) != []
      invariant forall h :: h in hooks ==> hooks[h] == AtHeight(config[..i], h)
    {
      var c := config[i];
      assert config[..i + 1] == config[..i] + [c];
      forall h
        ensures AtHeight(config[..i + 1], h) == AtHeight(config[..i], h) + if c.block == h then [c.hook] else []
      {
        AtHeightAppend(config[..i], c, h);
      }
      hooks := hooks[c.block := (if c.block in hooks then hooks[c.block] else []) + [c.hook]];
    }
    assert config[..|config|] == config;
  }

  // ---------------------------------------------------------------- helpers

  ghost predicate Lists(order: seq<Addr>, keys: set<Addr>) {
    && (forall a :: a in order <==> a in keys)
    && (forall i, j :: 0 <= i < j < |order| ==> order[i] != order[j])
  }

  lemma NoTokens()
    ensures Sum(TokensIn(map[], true)) == 0 && Sum(TokensIn(map[], false)) == 0
  {
    assert TokensIn(map[], true) == map[] && TokensIn(map[], false) == map[];
  }

  lemma TokensInAdd(vs: map<Addr, Validator>, a: Addr, v: Validator, bonded: bool)
    requires a !in vs
    ensures Sum(TokensIn(vs[a := v], bonded))
            == Sum(TokensIn(vs, bonded)) + if v.status.Bonded? == bonded then v.tokens else 0
  {
    var t := if v.status.Bonded? == bonded then v.tokens else 0;
    SumUpdate(TokensIn(vs, bonded), a, t);
    assert TokensIn(vs[a := v], bonded) == TokensIn(vs, bonded)[a := t];
  }

  lemma {:induction false} EntryTotalAppend(entries: seq<int>, e: int)
    ensures EntryTotal(entries + [e]) == EntryTotal(entries) + if e > 0 then e else 0
  {
    if entries == [] {
      assert entries + [e] == [e] && [e][1..] == [];
    } else {
      assert (entries + [e])[1..] == entries[1..] + [e];
      EntryTotalAppend(entries[1..], e);
    }
  }

  lemma {:induction false} UnbondingTotalAppend(ubds: seq<seq<int>>, entries: seq<int>)
    ensures UnbondingTotal(ubds + [entries]) == UnbondingTotal(ubds) + EntryTotal(entries)
  {
    if ubds == [] {
      assert ubds + [entries] == [entries] && [entries][1..] == [];
    } else {
      assert (ubds + [entries])[1..] == ubds[1..] + [entries];
      UnbondingTotalAppend(ubds[1..], entries);
    }
  }

  lemma TombstoneStarts(l: Ledger, key: Key)
    ensures [Check] <= TombstoneCalls(l, key)
  {
  }

  lemma RemovedRecordIs(v: Validator, paidOut: bool)
    ensures RemovedRecord(v, paidOut) == if paidOut then v.(jailed := true, tokens := 0) else v.(jailed := true)
  {
  }

  lemma {:induction false} CoinsUntouched(l: Ledger, cs: seq<Call>, fails: nat -> bool, k: nat)
    requires forall i :: 0 <= i < |cs| ==> cs[i].Check? || cs[i].GetSigning? || cs[i].SetSigning? || cs[i].DeleteIndex?
    ensures Exec(l, cs, fails, k).ledger.balances == l.balances
    decreases |cs|
  {
    if cs != [] && !fails(k) && Do(l, cs[0]).Some? { CoinsUntouched(Do(l, cs[0]).value, cs[1..], fails, k + 1); }
  }

  lemma TombstoneTouchesNoCoins(l: Ledger, key: Key, more: seq<Call>, fails: nat -> bool)
    requires forall i :: 0 <= i < |more| ==> more[i].DeleteIndex?
    ensures Exec(l, TombstoneCalls(l, key) + more, fails, 0).ledger.balances == l.balances
  {
    CoinsUntouched(l, TombstoneCalls(l, key) + more, fails, 0);
  }

  lemma TopUpLength(a: Addr, tokens: nat, target: nat)
    ensures |TopUp(a, tokens, target)| == if tokens < target then 3 else 0
  {
  }

  lemma TopUpWritesNoSigning(a: Addr, tokens: nat, target: nat)
    ensures forall i :: 0 <= i < |TopUp(a, tokens, target)| ==> !TopUp(a, tokens, target)[i].SetSigning?
  {
  }

  /** A program that ends in a successful read of a signing info leaves it there. */
  lemma SigningFound(l: Ledger, done: seq<Call>, key: Key, fails: nat -> bool)
    requires done != [] && done[|done| - 1] == GetSigning(key) && Exec(l, done, fails, 0).ok
    ensures key in Exec(l, done, fails, 0).ledger.signing
  {
    var init := done[..|done| - 1];
    ExecConcat(l, init, [GetSigning(key)], fails, 0);
    assert done == init + [GetSigning(key)];
    ExecSnoc(l, init, GetSigning(key), fails, 0);
  }
}
