/**
 The validator hooks of cosmos/app/upgrades.go. Each hook is the list of keeper calls it
 makes on the ledger it starts from; it stops at the first error and rolls nothing back.
 */
module Hooks {
  import opened Options
  import opened Sums
  import opened Ledger

  const FAR_FUTURE: int := 253402300799      // year 9999

  datatype AddOptions = AddOptions(pubKey: Option<Key>, initialTokens: int, minSelfDelegation: int)
  datatype RemoveOptions = RemoveOptions(burnTokens: bool, recipient: Option<Account>)

  datatype Hook =
    | UnjailHook(val: Addr, targetTokens: Option<nat>)
    | AddHook(val: Addr, add: Option<AddOptions>)
    | RemoveHook(val: Addr, remove: Option<RemoveOptions>)
    | ReconcileHook
    | InvalidHook                              // unknown action, bad parameters, bad address

  /** The clock, which calls fail, and how far the unbonding iteration gets. */
  datatype HookEnv = HookEnv(now: int, fails: nat -> bool, listFails: bool, visited: nat)

  /** A panic stops the node: it is not a step from which a run continues. */
  datatype HookResult = Panicked | Finished(ledger: Ledger, ok: bool)

  // ---------------------------------------------------------------- programs

  /** `setValidatorBalance`: mint the missing tokens, hand them to the operator, delegate them. */
  function TopUp(a: Addr, tokens: nat, target: nat): seq<Call> {
    if tokens < target then
      [Mint(target - tokens), Send(BondedPool, User(a), target - tokens), Delegate(a, target - tokens)]
    else []
  }

  /** Move the end of the jail term into the past, then unjail. */
  function UnjailTail(l: Ledger, a: Addr, key: Key, now: int): seq<Call> {
    [Check, GetSigning(key)]
    + if key in l.signing then [SetSigning(key, l.signing[key].(jailedUntil := now - 1)), Unjail(a, now)] else []
  }

  /** `ExecuteUnjailing` for a validator that exists. */
  function UnjailProgram(l: Ledger, a: Addr, target: Option<nat>, now: int): seq<Call>
    requires a in l.validators
  {
    var v := l.validators[a];
    (if target.Some? then TopUp(a, v.tokens, target.value) else []) + UnjailTail(l, a, v.key, now)
  }

  function NewRecord(key: Key): Validator { Validator(key, 0, Bonded, false) }

  /** The three writes that create a record and index it. */
  function CreateHead(a: Addr, key: Key): seq<Call> {
    [SetValidator(a, NewRecord(key)), SetByCons(key, a), SetNewIndex(a, 0)]
  }

  /** The signing info, unless there is one, and the distribution records. */
  function CreateTail(l: Ledger, a: Addr, key: Key): seq<Call> {
    [Check] + (if key in l.signing then [] else [SetSigning(key, SigningInfo(false, 0))])
    + [Check, Check, Check, Check, GetValidator(a)]
  }

  function CreateProgram(l: Ledger, a: Addr, key: Key): seq<Call> {
    CreateHead(a, key) + CreateTail(l, a, key)
  }

  /** `ExecuteAddValidator` for a missing validator: the record is stored only if MinSelfDelegation is positive. */
  function AddProgram(l: Ledger, a: Addr, key: Key, initialTokens: nat, minSelfDelegation: int): seq<Call> {
    [Check] + (if minSelfDelegation > 0 then CreateProgram(l, a, key) else []) + TopUp(a, 0, initialTokens)
  }

  /** `handleValidatorTokens`: burn or pay out what the pool can cover. */
  function TokenCalls(l: Ledger, v: Validator, opts: Option<RemoveOptions>): seq<Call> {
    if opts.None? || v.tokens == 0 || (!opts.value.burnTokens && opts.value.recipient.None?) then [] else
    var pool := PoolOf(v.status);
    var amount := if Balance(l, pool) < v.tokens then Balance(l, pool) else v.tokens;
    if amount == 0 then []
    else if opts.value.burnTokens then [Burn(pool, amount)]
    else [Send(pool, opts.value.recipient.value, amount)]
  }

  function Tombstone(info: SigningInfo): SigningInfo {
    if info.tombstoned then info else SigningInfo(true, FAR_FUTURE)
  }

  /** The calls of a removal up to the tombstone. */
  function TombstoneCalls(l: Ledger, key: Key): seq<Call> {
    [Check, GetSigning(key)]
    + if key in l.signing && !l.signing[key].tombstoned then [SetSigning(key, Tombstone(l.signing[key]))] else []
  }

  /** The record `ExecuteRemoveValidator` leaves behind. */
  function RemovedRecord(v: Validator, paidOut: bool): Validator {
    v.(jailed := true, tokens := if paidOut then 0 else v.tokens)
  }

  /** `ExecuteRemoveValidator` for a validator that exists. */
  function RemoveProgram(l: Ledger, a: Addr, opts: Option<RemoveOptions>): seq<Call>
    requires a in l.validators
  {
    var v := l.validators[a];
    var coins := TokenCalls(l, v, opts);
    TombstoneCalls(l, v.key)
    + (if v.jailed then [] else [DeleteIndex(a, v.tokens)])
    + coins
    + (if v.jailed && coins == [] then [] else [SetValidator(a, RemovedRecord(v, coins != []))])
  }

  // ---------------------------------------------------------------- outcomes

  function RunUnjail(l: Ledger, a: Addr, target: Option<nat>, env: HookEnv): HookResult {
    if a !in l.validators then Finished(l, false) else
    var r := Exec(l, UnjailProgram(l, a, target, env.now), env.fails, 0);
    Finished(r.ledger, r.ok)
  }

  function RunAdd(l: Ledger, a: Addr, opts: Option<AddOptions>, env: HookEnv): HookResult {
    if a in l.validators then Finished(l, true)
    else if opts.None? || opts.value.pubKey.None? || opts.value.initialTokens <= 0 then Finished(l, false)
    else
      var o := opts.value;
      var r := Exec(l, AddProgram(l, a, o.pubKey.value, o.initialTokens, o.minSelfDelegation), env.fails, 0);
      Finished(r.ledger, r.ok)
  }

  function RunRemove(l: Ledger, a: Addr, opts: Option<RemoveOptions>, env: HookEnv): HookResult {
    if a !in l.validators then Panicked else
    var r := Exec(l, RemoveProgram(l, a, opts), env.fails, 0);
    if r.ok then Finished(r.ledger, true) else Panicked
  }

  /** Coins needed to bring `balance` up to `owed`. */
  function Shortfall(owed: nat, balance: nat): nat {
    if balance < owed then owed - balance else 0
  }

  function FundBonded(l: Ledger, d: nat, fails: nat -> bool): Ledger {
    Exec(l, if d > 0 then [Mint(d)] else [], fails, 0).ledger
  }

  /** The not-bonded pool cannot mint: coins are minted to the bonded pool and moved on. */
  function FundNotBonded(l: Ledger, d: nat, fails: nat -> bool): Ledger {
    Exec(l, if d > 0 then [Mint(d), Transfer(BondedPool, NotBondedPool, d)] else [], fails, 1).ledger
  }

  ghost function BondedShortfall(l: Ledger): nat {
    Shortfall(Owed(l, true), Balance(l, BondedPool))
  }

  /** As far as the iteration over unbonding delegations got. */
  ghost function NotBondedShortfall(l: Ledger, env: HookEnv): nat {
    var visited := if env.visited < |l.unbonding| then env.visited else |l.unbonding|;
    Shortfall(Sum(TokensIn(l.validators, false)) + UnbondingTotal(l.unbonding[..visited]), Balance(l, NotBondedPool))
  }

  /** `ExecuteReconcileStakingPools`: only ever tops up; a failed first mint does not stop the second part. */
  ghost function RunReconcile(l: Ledger, env: HookEnv): HookResult {
    if env.listFails then Finished(l, true) else
    var l1 := FundBonded(l, BondedShortfall(l), env.fails);
    Finished(FundNotBonded(l1, NotBondedShortfall(l, env), env.fails), true)
  }

  /** `PerformHook`. */
  ghost function Perform(l: Ledger, h: Hook, env: HookEnv): HookResult {
    match h
    case UnjailHook(a, target) => RunUnjail(l, a, target, env)
    case AddHook(a, opts) => RunAdd(l, a, opts, env)
    case RemoveHook(a, opts) => RunRemove(l, a, opts, env)
    case ReconcileHook => RunReconcile(l, env)
    case InvalidHook => Finished(l, false)
  }

  // ---------------------------------------------------------------- top-up, call by call

  function AfterMint(l: Ledger, d: nat): Ledger {
    Credit(l, BondedPool, d).(supply := l.supply + d)
  }

  /** The minted coins have left the pool for the operator's account. */
  function AfterSend(l: Ledger, a: Addr, d: nat): Ledger {
    Credit(Debit(AfterMint(l, d), BondedPool, d), User(a), d)
  }

  lemma TopUpSteps(l: Ledger, a: Addr, d: nat)
    ensures Do(l, Mint(d)) == Some(AfterMint(l, d))
    ensures Do(AfterMint(l, d), Send(BondedPool, User(a), d)) == Some(AfterSend(l, a, d))
    ensures Do(AfterSend(l, a, d), Delegate(a, d)) == DoDelegate(AfterSend(l, a, d), a, d)
  {
    hide DoDelegate;
  }

  /** Wherever a top-up stops it leaves one of: nothing, a mint, coins with the operator, a delegation. */
  lemma TopUpStops(l: Ledger, a: Addr, tokens: nat, target: nat, fails: nat -> bool, k: nat)
    requires tokens < target
    ensures var d := target - tokens;
            Exec(l, TopUp(a, tokens, target), fails, k) ==
            if fails(k) then Outcome(l, false)
            else if fails(k + 1) then Outcome(AfterMint(l, d), false)
            else if fails(k + 2) || DoDelegate(AfterSend(l, a, d), a, d).None? then Outcome(AfterSend(l, a, d), false)
            else Outcome(DoDelegate(AfterSend(l, a, d), a, d).value, true)
  {
    hide Exec, Do, DoDelegate, AfterMint, AfterSend;
    var d := target - tokens;
    var l1, l2 := AfterMint(l, d), AfterSend(l, a, d);
    var c1, c2, c3 := Mint(d), Send(BondedPool, User(a), d), Delegate(a, d);
    TopUpSteps(l, a, d);
    ExecCons(l, c1, [c2, c3], fails, k);
    ExecCons(l1, c2, [c3], fails, k + 1);
    ExecCons(l2, c3, [], fails, k + 2);
    assert TopUp(a, tokens, target) == [c1] + [c2, c3] && [c2, c3] == [c2] + [c3] && [c3] == [c3] + [];
    ExecNothing(fails, k + 3);
  }

  lemma ExecNothing(fails: nat -> bool, k: nat)
    ensures forall l :: Exec(l, [], fails, k) == Outcome(l, true)
  {
  }

  lemma MintAndSendDeficit(l: Ledger, a: Addr, d: nat, bonded: bool)
    ensures Deficit(AfterMint(l, d), bonded) <= Deficit(l, bonded)
    ensures Deficit(AfterSend(l, a, d), bonded) == Deficit(l, bonded)
  {
  }

  /** A top-up never raises either deficit, wherever it stops. */
  lemma TopUpDeficit(l: Ledger, a: Addr, tokens: nat, target: nat, fails: nat -> bool, k: nat, bonded: bool)
    ensures Deficit(Exec(l, TopUp(a, tokens, target), fails, k).ledger, bonded) <= Deficit(l, bonded)
  {
    hide DoDelegate, AfterMint, AfterSend, Deficit, Exec;
    if tokens >= target {
      ExecNothing(fails, k);
    } else {
      var d := target - tokens;
      TopUpStops(l, a, tokens, target, fails, k);
      MintAndSendDeficit(l, a, d, bonded);
      if DoDelegate(AfterSend(l, a, d), a, d).Some? {
        DelegateKeepsDeficit(AfterSend(l, a, d), a, d, bonded);
      }
    }
  }

  // ---------------------------------------------------------------- calls that touch no coins and no tokens

  predicate Neutral(c: Call) {
    !c.Mint? && !c.Burn? && !c.Send? && !c.Transfer? && !c.SetValidator?
  }

  lemma NeutralCall(l: Ledger, c: Call, bonded: bool)
    requires Neutral(c) && Do(l, c).Some?
    ensures Deficit(Do(l, c).value, bonded) == Deficit(l, bonded)
  {
    hide DoDelegate, DoUnjail;
    match c
    case Delegate(a, amount) => DelegateKeepsDeficit(l, a, amount, bonded);
    case Unjail(a, now) => UnjailKeepsDeficit(l, a, now, bonded);
    case _ =>
  }

  lemma {:induction false} NeutralCalls(l: Ledger, cs: seq<Call>, fails: nat -> bool, k: nat, bonded: bool)
    requires forall i :: 0 <= i < |cs| ==> Neutral(cs[i])
    ensures Deficit(Exec(l, cs, fails, k).ledger, bonded) == Deficit(l, bonded)
    decreases |cs|
  {
    hide Do, Deficit, Neutral;
    if cs != [] && !fails(k) && Do(l, cs[0]).Some? {
      NeutralCall(l, cs[0], bonded);
      NeutralCalls(Do(l, cs[0]).value, cs[1..], fails, k + 1, bonded);
    }
  }

  // ---------------------------------------------------------------- no hook raises a deficit

  lemma UnjailDeficit(l: Ledger, a: Addr, target: Option<nat>, env: HookEnv, bonded: bool)
    requires a in l.validators
    ensures Deficit(RunUnjail(l, a, target, env).ledger, bonded) <= Deficit(l, bonded)
  {
    hide Exec, Deficit, TopUp;
    var v := l.validators[a];
    var first := if target.Some? then TopUp(a, v.tokens, target.value) else [];
    var rest := UnjailTail(l, a, v.key, env.now);
    ExecConcat(l, first, rest, env.fails, 0);
    var mid := Exec(l, first, env.fails, 0).ledger;
    if target.Some? {
      TopUpDeficit(l, a, v.tokens, target.value, env.fails, 0, bonded);
    } else {
      NeutralCalls(l, first, env.fails, 0, bonded);
    }
    NeutralCalls(mid, rest, env.fails, |first|, bonded);
  }

  /** Storing a new record without tokens owes nothing more. */
  lemma CreateDeficit(l: Ledger, a: Addr, key: Key, fails: nat -> bool, k: nat, bonded: bool)
    requires a !in l.validators
    ensures Deficit(Exec(l, CreateProgram(l, a, key), fails, k).ledger, bonded) == Deficit(l, bonded)
  {
    var cs := CreateProgram(l, a, key);
    var v := Validator(key, 0, Bonded, false);
    assert cs[0] == SetValidator(a, v);
    OwedAfterSet(l, a, v, bonded);
    assert Deficit(Do(l, cs[0]).value, bonded) == Deficit(l, bonded);
    assert forall i :: 0 <= i < |cs[1..]| ==> Neutral(cs[1..][i]);
    hide Deficit, CreateProgram;
    NeutralCalls(Do(l, cs[0]).value, cs[1..], fails, k + 1, bonded);
  }

  lemma AddDeficit(l: Ledger, a: Addr, opts: Option<AddOptions>, env: HookEnv, bonded: bool)
    ensures RunAdd(l, a, opts, env).Finished?
    ensures Deficit(RunAdd(l, a, opts, env).ledger, bonded) <= Deficit(l, bonded)
  {
    hide Exec, Deficit, TopUp, CreateProgram;
    if a !in l.validators && opts.Some? && opts.value.pubKey.Some? && opts.value.initialTokens > 0 {
      var o := opts.value;
      var key := o.pubKey.value;
      var create := if o.minSelfDelegation > 0 then CreateProgram(l, a, key) else [];
      var topUp := TopUp(a, 0, o.initialTokens);
      ExecConcat(l, [Check] + create, topUp, env.fails, 0);
      ExecConcat(l, [Check], create, env.fails, 0);
      CheckOnly(l, env.fails, 0);
      if o.minSelfDelegation > 0 {
        CreateDeficit(l, a, key, env.fails, 1, bonded);
      } else {
        NeutralCalls(l, create, env.fails, 1, bonded);
      }
      var mid := Exec(l, [Check] + create, env.fails, 0).ledger;
      TopUpDeficit(mid, a, 0, o.initialTokens, env.fails, |[Check] + create|, bonded);
    }
  }

  lemma CheckOnly(l: Ledger, fails: nat -> bool, k: nat)
    ensures Exec(l, [Check], fails, k) == Outcome(l, !fails(k))
  {
    assert [Check][1..] == [];
  }

  // ---------------------------------------------------------------- removal, all calls done

  /** The ledger a removal that does not panic leaves behind. */
  function RemovedLedger(l: Ledger, a: Addr, opts: Option<RemoveOptions>): Option<Ledger>
    requires a in l.validators
  {
    var v := l.validators[a];
    var coins := TokenCalls(l, v, opts);
    var paid := if coins == [] then Some(l) else Do(l, coins[0]);
    if v.key !in l.signing || paid.None? then None else
    Some(paid.value.(
      signing := l.signing[v.key := Tombstone(l.signing[v.key])],
      index := if v.jailed then l.index else l.index - {(Power(v.tokens), a)},
      validators := l.validators[a := RemovedRecord(v, coins != [])]))
  }

  lemma ExecOne(l: Ledger, c: Call, fails: nat -> bool, k: nat)
    ensures Exec(l, [c], fails, k).ok ==> Do(l, c) == Some(Exec(l, [c], fails, k).ledger)
  {
    assert [c][1..] == [];
  }

  lemma RemoveResult(l: Ledger, a: Addr, opts: Option<RemoveOptions>, env: HookEnv)
    requires RunRemove(l, a, opts, env).Finished?
    ensures a in l.validators && RemovedLedger(l, a, opts) == Some(RunRemove(l, a, opts, env).ledger)
  {
    hide Exec, TokenCalls, TombstoneCalls, Tombstone;
    var fails := env.fails;
    var v := l.validators[a];
    var coins := TokenCalls(l, v, opts);
    var p1 := TombstoneCalls(l, v.key);
    var p2 := if v.jailed then [] else [DeleteIndex(a, v.tokens)];
    var p4 := if v.jailed && coins == [] then [] else [SetValidator(a, RemovedRecord(v, coins != []))];
    ExecConcat(l, p1 + p2 + coins, p4, fails, 0);
    ExecConcat(l, p1 + p2, coins, fails, 0);
    ExecConcat(l, p1, p2, fails, 0);
    TombstonePart(l, v.key, fails);
    var l1 := Exec(l, p1, fails, 0).ledger;
    ExecMaybe(l1, p2, fails, |p1|);
    var l2 := Exec(l1, p2, fails, |p1|).ledger;
    TokenCallsShape(l, v, opts);
    ExecMaybe(l2, coins, fails, |p1 + p2|);
    var l3 := Exec(l2, coins, fails, |p1 + p2|).ledger;
    ExecMaybe(l3, p4, fails, |p1 + p2 + coins|);
    RemoveResultParts(l, a, opts, l1, l2, l3, Exec(l3, p4, fails, |p1 + p2 + coins|).ledger);
  }

  lemma ReadsOnly(l: Ledger, key: Key, fails: nat -> bool)
    ensures Exec(l, [Check, GetSigning(key)], fails, 0).ok ==>
              key in l.signing && Exec(l, [Check, GetSigning(key)], fails, 0).ledger == l
  {
    ExecCons(l, Check, [GetSigning(key)], fails, 0);
    assert [Check, GetSigning(key)] == [Check] + [GetSigning(key)];
    ExecOne(l, GetSigning(key), fails, 1);
  }

  lemma TombstonePart(l: Ledger, key: Key, fails: nat -> bool)
    ensures var r := Exec(l, TombstoneCalls(l, key), fails, 0);
            r.ok ==> key in l.signing && r.ledger == l.(signing := l.signing[key := Tombstone(l.signing[key])])
  {
    var read := [Check, GetSigning(key)];
    var write := TombstoneCalls(l, key)[2..];
    assert TombstoneCalls(l, key) == read + write;
    ExecConcat(l, read, write, fails, 0);
    ReadsOnly(l, key, fails);
    if key in l.signing {
      if l.signing[key].tombstoned {
        assert l.signing[key := Tombstone(l.signing[key])] == l.signing;
      } else {
        ExecOne(l, write[0], fails, 2);
      }
    }
  }

  /** A list of at most one call. */
  lemma ExecMaybe(l: Ledger, cs: seq<Call>, fails: nat -> bool, k: nat)
    requires |cs| <= 1
    ensures Exec(l, cs, fails, k).ok ==>
              (if cs == [] then Some(l) else Do(l, cs[0])) == Some(Exec(l, cs, fails, k).ledger)
  {
    hide Do;
    if cs != [] {
      assert cs == [cs[0]];
      ExecOne(l, cs[0], fails, k);
    }
  }

  /** Payment is at most one burn or one send, within the validator's tokens and the pool. */
  lemma TokenCallsShape(l: Ledger, v: Validator, opts: Option<RemoveOptions>)
    ensures var coins := TokenCalls(l, v, opts);
            |coins| <= 1 &&
            (coins != [] ==>
               && (coins[0].Burn? || coins[0].Send?)
               && (if coins[0].Burn? then coins[0].pool else coins[0].from) == PoolOf(v.status)
               && 0 < coins[0].amount <= v.tokens && coins[0].amount <= Balance(l, PoolOf(v.status)))
  {
  }

  lemma RemoveResultParts(l: Ledger, a: Addr, opts: Option<RemoveOptions>,
                          l1: Ledger, l2: Ledger, l3: Ledger, l4: Ledger)
    requires a in l.validators && l.validators[a].key in l.signing
    requires var v := l.validators[a];
             var coins := TokenCalls(l, v, opts);
             && |coins| <= 1 && (coins != [] ==> coins[0].Burn? || coins[0].Send?)
             && l1 == l.(signing := l.signing[v.key := Tombstone(l.signing[v.key])])
             && l2 == (if v.jailed then l1 else l1.(index := l1.index - {(Power(v.tokens), a)}))
             && (if coins == [] then Some(l2) else Do(l2, coins[0])) == Some(l3)
             && l4 == (if v.jailed && coins == [] then l3
                       else l3.(validators := l3.validators[a := RemovedRecord(v, coins != [])]))
    ensures RemovedLedger(l, a, opts) == Some(l4)
  {
    hide TokenCalls, Tombstone;
    var v := l.validators[a];
    var coins := TokenCalls(l, v, opts);
    if v.jailed && coins == [] { assert l.validators[a := RemovedRecord(v, false)] == l.validators; }
  }

  /** Removal takes at most the validator's tokens out of its pool, and all of them off the books. */
  lemma RemoveDeficit(l: Ledger, a: Addr, opts: Option<RemoveOptions>, bonded: bool)
    requires a in l.validators && RemovedLedger(l, a, opts).Some?
    ensures Deficit(RemovedLedger(l, a, opts).value, bonded) <= Deficit(l, bonded)
  {
    hide TokenCalls, Tombstone;
    var v := l.validators[a];
    var coins := TokenCalls(l, v, opts);
    var l' := RemovedLedger(l, a, opts).value;
    TokenCallsShape(l, v, opts);
    OwedAfterSet(l, a, RemovedRecord(v, coins != []), bonded);
    assert Owed(l', bonded) == Owed(l.(validators := l'.validators), bonded);
  }

  // ---------------------------------------------------------------- reconciliation

  function AfterTransfer(l: Ledger, d: nat): Ledger {
    Credit(Debit(AfterMint(l, d), BondedPool, d), NotBondedPool, d)
  }

  lemma TransferDeficit(l: Ledger, d: nat, bonded: bool)
    ensures Deficit(AfterTransfer(l, d), bonded) <= Deficit(l, bonded)
  {
  }

  lemma AfterMintIs(l: Ledger, d: nat)
    ensures var l' := AfterMint(l, d);
            && l' == l.(balances := l'.balances, supply := l.supply + d)
            && forall a :: Balance(l', a) == Balance(l, a) + if a == BondedPool then d else 0
  {
  }

  lemma AfterTransferIs(l: Ledger, d: nat)
    ensures var l' := AfterTransfer(l, d);
            && l' == l.(balances := l'.balances, supply := l.supply + d)
            && forall a :: Balance(l', a) == Balance(l, a) + if a == NotBondedPool then d else 0
  {
  }

  /** The first part, wherever it stops. */
  lemma FundBondedStops(l: Ledger, d: nat, fails: nat -> bool)
    ensures FundBonded(l, d, fails) == if d > 0 && !fails(0) then AfterMint(l, d) else l
  {
    hide Exec;
    ExecNothing(fails, 0);
    ExecNothing(fails, 1);
    ExecCons(l, Mint(d), [], fails, 0);
    assert [Mint(d)] + [] == [Mint(d)];
  }

  /** The second part, wherever it stops. */
  lemma FundNotBondedStops(l: Ledger, d: nat, fails: nat -> bool)
    ensures FundNotBonded(l, d, fails)
            == if d == 0 || fails(1) then l else if fails(2) then AfterMint(l, d) else AfterTransfer(l, d)
  {
    var c1, c2 := Mint(d), Transfer(BondedPool, NotBondedPool, d);
    var l1 := AfterMint(l, d);
    assert Do(l, c1) == Some(l1) && Do(l1, c2) == Some(AfterTransfer(l, d));
    hide Exec, Do, AfterMint, AfterTransfer;
    ExecNothing(fails, 1);
    ExecNothing(fails, 3);
    ExecCons(l, c1, [c2], fails, 1);
    ExecCons(l1, c2, [], fails, 2);
    assert [c1] + [c2] == [c1, c2] && [c2] + [] == [c2];
  }

  lemma ReconcileDeficit(l: Ledger, env: HookEnv, bonded: bool)
    ensures RunReconcile(l, env).Finished?
    ensures Deficit(RunReconcile(l, env).ledger, bonded) <= Deficit(l, bonded)
  {
    hide Deficit, AfterMint, AfterTransfer, BondedShortfall, NotBondedShortfall, FundBonded, FundNotBonded;
    var d, d' := BondedShortfall(l), NotBondedShortfall(l, env);
    var l1 := FundBonded(l, d, env.fails);
    FundBondedStops(l, d, env.fails);
    MintAndSendDeficit(l, 0, d, bonded);
    FundNotBondedStops(l1, d', env.fails);
    MintAndSendDeficit(l1, 0, d', bonded);
    TransferDeficit(l1, d', bonded);
  }

  /**
   Whatever fails: a failed listing changes nothing; otherwise each pool is raised by its own
   shortfall, as far as the unbonding delegations were read, and a failure on the way to one pool
   does not keep the other from being raised. Coins minted for the not-bonded pool but not moved
   stay in the bonded pool.
   */
  lemma ReconcileUnderFailures(l: Ledger, env: HookEnv)
    ensures var l' := RunReconcile(l, env).ledger;
            var visited := if env.visited < |l.unbonding| then env.visited else |l.unbonding|;
            var d := Shortfall(Sum(TokensIn(l.validators, true)), Balance(l, BondedPool));
            var d' := Shortfall(Sum(TokensIn(l.validators, false)) + UnbondingTotal(l.unbonding[..visited]),
                                Balance(l, NotBondedPool));
            var minted := if env.listFails || env.fails(0) then 0 else d;
            var minted' := if env.listFails || env.fails(1) then 0 else d';
            var moved := if env.fails(2) then 0 else minted';
            && RunReconcile(l, env) == Finished(l', true)
            && l' == l.(balances := l'.balances, supply := l.supply + minted + minted')
            && Balance(l', BondedPool) == Balance(l, BondedPool) + minted + (minted' - moved)
            && Balance(l', NotBondedPool) == Balance(l, NotBondedPool) + moved
            && forall a :: Balance(l', User(a)) == Balance(l, User(a))
  {
    hide UnbondingTotal, AfterMint, AfterTransfer, Balance, TokensIn, FundBonded, FundNotBonded, Shortfall;
    var d, d' := BondedShortfall(l), NotBondedShortfall(l, env);
    var l1 := FundBonded(l, d, env.fails);
    FundBondedStops(l, d, env.fails);
    FundNotBondedStops(l1, d', env.fails);
    AfterMintIs(l, d);
    AfterMintIs(l1, d');
    AfterTransferIs(l1, d');
  }

  /** Nothing fails and every unbonding delegation is read. */
  predicate Unhindered(l: Ledger, env: HookEnv) {
    !env.listFails && env.visited >= |l.unbonding| && !env.fails(0) && !env.fails(1) && !env.fails(2)
  }

  /** An unhindered reconciliation raises each pool to the larger of balance and obligations, and mints just that. */
  lemma ReconcileIsExact(l: Ledger, env: HookEnv)
    requires Unhindered(l, env)
    ensures var l' := RunReconcile(l, env).ledger;
            var d := Shortfall(Owed(l, true), Balance(l, BondedPool));
            var d' := Shortfall(Owed(l, false), Balance(l, NotBondedPool));
            && Balance(l', BondedPool) == Balance(l, BondedPool) + d
            && Balance(l', NotBondedPool) == Balance(l, NotBondedPool) + d'
            && Deficit(l', true) <= 0 && Deficit(l', false) <= 0
            && l'.supply == l.supply + d + d'
            && l' == l.(balances := l'.balances, supply := l'.supply)
            && forall a :: Balance(l', User(a)) == Balance(l, User(a))
  {
    hide UnbondingTotal, AfterMint, AfterTransfer, Balance, TokensIn, FundBonded, FundNotBonded;
    assert l.unbonding[..|l.unbonding|] == l.unbonding;
    var d, d' := BondedShortfall(l), NotBondedShortfall(l, env);
    var l1 := FundBonded(l, d, env.fails);
    FundBondedStops(l, d, env.fails);
    FundNotBondedStops(l1, d', env.fails);
    AfterMintIs(l, d);
    AfterTransferIs(l1, d');
  }

  /** Reconciling funded pools does nothing, so reconciling twice is reconciling once. */
  lemma ReconcileIsIdempotent(l: Ledger, env: HookEnv, env': HookEnv)
    requires Unhindered(l, env)
    ensures RunReconcile(RunReconcile(l, env).ledger, env') == Finished(RunReconcile(l, env).ledger, true)
  {
    hide Exec, UnbondingTotal, Owed;
    ReconcileIsExact(l, env);
    var l' := RunReconcile(l, env).ledger;
    FundedStaysPut(l', env');
  }

  lemma FundedStaysPut(l: Ledger, env: HookEnv)
    requires Deficit(l, true) <= 0 && Deficit(l, false) <= 0
    ensures RunReconcile(l, env) == Finished(l, true)
  {
    hide Exec, TokensIn;
    var visited := if env.visited < |l.unbonding| then env.visited else |l.unbonding|;
    UnbondingPrefix(l.unbonding, visited);
    ExecNothing(env.fails, 0);
    ExecNothing(env.fails, 1);
  }

  lemma {:induction false} UnbondingPrefix(ubds: seq<seq<int>>, n: nat)
    requires n <= |ubds|
    ensures UnbondingTotal(ubds[..n]) <= UnbondingTotal(ubds)
    decreases n
  {
    if n > 0 {
      UnbondingPrefix(ubds[1..], n - 1);
      assert ubds[..n][1..] == ubds[1..][..n - 1];
    }
  }

  // ---------------------------------------------------------------- every hook

  /** No hook that does not panic raises the deficit of either pool, early errors included. */
  lemma HookNeverRaisesDeficit(l: Ledger, h: Hook, env: HookEnv, bonded: bool)
    requires Perform(l, h, env).Finished?
    ensures Deficit(Perform(l, h, env).ledger, bonded) <= Deficit(l, bonded)
  {
    hide Deficit, RunAdd, RunReconcile;
    match h
    case UnjailHook(a, target) =>
      if a in l.validators { UnjailDeficit(l, a, target, env, bonded); }
    case AddHook(a, opts) => AddDeficit(l, a, opts, env, bonded);
    case RemoveHook(a, opts) =>
      RemoveResult(l, a, opts, env);
      RemoveDeficit(l, a, opts, bonded);
    case ReconcileHook => ReconcileDeficit(l, env, bonded);
    case InvalidHook =>
  }
}
