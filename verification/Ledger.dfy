/**
 The state the validator hooks act on (bank balances, staking pools, validator records,
 signing infos, power index) and the SDK keeper calls they make, each by its contract.
 There is one bond denomination, and a failing call changes nothing.
 */
module Ledger {
  import opened Options
  import opened Sums

  type Addr = nat        // validator operator, and the account with the same bytes
  type Key = nat         // consensus address

  datatype Account = BondedPool | NotBondedPool | User(addr: Addr)
  datatype BondStatus = Bonded | Unbonding | Unbonded
  datatype Validator = Validator(key: Key, tokens: nat, status: BondStatus, jailed: bool)
  datatype SigningInfo = SigningInfo(tombstoned: bool, jailedUntil: int)

  datatype Ledger = Ledger(
    balances: map<Account, nat>,
    supply: int,
    validators: map<Addr, Validator>,
    byCons: map<Key, Addr>,
    signing: map<Key, SigningInfo>,
    index: set<(nat, Addr)>,             // (power, operator)
    unbonding: seq<seq<int>>)            // entry balances of each unbonding delegation

  const POWER_REDUCTION: nat := 1_000_000

  function Power(tokens: nat): nat { tokens / POWER_REDUCTION }

  function Balance(l: Ledger, a: Account): nat {
    if a in l.balances then l.balances[a] else 0
  }

  function PoolOf(status: BondStatus): Account {
    if status.Bonded? then BondedPool else NotBondedPool
  }

  // ---------------------------------------------------------------- keeper calls

  datatype Call =
    | Check                                                // can fail, changes nothing modelled here
    | Mint(amount: nat)                                    // MintCoins to the bonded pool
    | Burn(pool: Account, amount: nat)
    | Send(from: Account, to: Account, amount: nat)        // SendCoinsFromModuleToAccount
    | Transfer(from: Account, to: Account, amount: nat)    // SendCoinsFromModuleToModule
    | Delegate(val: Addr, amount: nat)                     // self-delegation by message
    | GetValidator(val: Addr)
    | SetValidator(val: Addr, record: Validator)
    | SetByCons(key: Key, val: Addr)
    | SetNewIndex(val: Addr, tokens: nat)
    | DeleteIndex(val: Addr, tokens: nat)
    | GetSigning(key: Key)
    | SetSigning(key: Key, info: SigningInfo)
    | Unjail(val: Addr, now: int)                          // x/slashing Unjail

  function Credit(l: Ledger, a: Account, amount: nat): Ledger {
    l.(balances := l.balances[a := Balance(l, a) + amount])
  }

  function Debit(l: Ledger, a: Account, amount: nat): Ledger
    requires amount <= Balance(l, a)
  {
    l.(balances := l.balances[a := Balance(l, a) - amount])
  }

  /** x/staking Delegate: coins to the pool of the status, tokens to the record, index moved unless jailed. */
  function DoDelegate(l: Ledger, a: Addr, amount: nat): Option<Ledger> {
    if a !in l.validators || Balance(l, User(a)) < amount then None else
    var v := l.validators[a];
    var v' := v.(tokens := v.tokens + amount);
    var without := l.index - {(Power(v.tokens), a)};
    var paid := Credit(Debit(l, User(a), amount), PoolOf(v.status), amount);
    Some(paid.(validators := l.validators[a := v'],
               index := if v.jailed then without else without + {(Power(v'.tokens), a)}))
  }

  /** x/slashing Unjail checks the operator it is given; x/staking unjails the record behind the consensus address. */
  function DoUnjail(l: Ledger, a: Addr, now: int): Option<Ledger> {
    if a !in l.validators || !l.validators[a].jailed then None else
    var key := l.validators[a].key;
    if key in l.signing && (l.signing[key].tombstoned || now < l.signing[key].jailedUntil) then None
    else if key !in l.byCons || l.byCons[key] !in l.validators then None
    else
      var b := l.byCons[key];
      var w := l.validators[b];
      if !w.jailed then None
      else Some(l.(validators := l.validators[b := w.(jailed := false)], index := l.index + {(Power(w.tokens), b)}))
  }

  /** The ledger after a call that succeeds; None if the call must fail. */
  function Do(l: Ledger, c: Call): Option<Ledger> {
    match c
    case Check => Some(l)
    case Mint(amount) => Some(Credit(l, BondedPool, amount).(supply := l.supply + amount))
    case Burn(pool, amount) =>
      if Balance(l, pool) < amount then None else Some(Debit(l, pool, amount).(supply := l.supply - amount))
    case Send(from, to, amount) =>
      if !to.User? || Balance(l, from) < amount then None else Some(Credit(Debit(l, from, amount), to, amount))
    case Transfer(from, to, amount) =>
      if Balance(l, from) < amount then None else Some(Credit(Debit(l, from, amount), to, amount))
    case Delegate(a, amount) => DoDelegate(l, a, amount)
    case GetValidator(a) => if a in l.validators then Some(l) else None
    case SetValidator(a, v) => Some(l.(validators := l.validators[a := v]))
    case SetByCons(key, a) => Some(l.(byCons := l.byCons[key := a]))
    case SetNewIndex(a, tokens) => Some(l.(index := l.index + {(Power(tokens), a)}))
    case DeleteIndex(a, tokens) => Some(l.(index := l.index - {(Power(tokens), a)}))
    case GetSigning(key) => if key in l.signing then Some(l) else None
    case SetSigning(key, info) => Some(l.(signing := l.signing[key := info]))
    case Unjail(a, now) => DoUnjail(l, a, now)
  }

  // ---------------------------------------------------------------- straight-line programs of calls

  datatype Outcome = Outcome(ledger: Ledger, ok: bool)

  /** Runs calls until one fails; effects before the failure stay. `fails(k)` lets call number k fail for any reason. */
  function Exec(l: Ledger, cs: seq<Call>, fails: nat -> bool, k: nat): Outcome
    decreases |cs|
  {
    if cs == [] then Outcome(l, true)
    else if fails(k) || Do(l, cs[0]).None? then Outcome(l, false)
    else Exec(Do(l, cs[0]).value, cs[1..], fails, k + 1)
  }

  lemma ExecCons(l: Ledger, c: Call, cs: seq<Call>, fails: nat -> bool, k: nat)
    ensures Exec(l, [c] + cs, fails, k) ==
            if fails(k) || Do(l, c).None? then Outcome(l, false) else Exec(Do(l, c).value, cs, fails, k + 1)
  {
    assert ([c] + cs)[1..] == cs;
  }

  lemma {:induction false} ExecConcat(l: Ledger, a: seq<Call>, b: seq<Call>, fails: nat -> bool, k: nat)
    ensures Exec(l, a + b, fails, k) ==
            if Exec(l, a, fails, k).ok then Exec(Exec(l, a, fails, k).ledger, b, fails, k + |a|)
            else Exec(l, a, fails, k)
    decreases |a|
  {
    hide Do;
    if a == [] {
      assert a + b == b;
    } else {
      assert (a + b)[1..] == a[1..] + b;
      if !fails(k) && Do(l, a[0]).Some? { ExecConcat(Do(l, a[0]).value, a[1..], b, fails, k + 1); }
    }
  }

  // ---------------------------------------------------------------- conservation

  /** Every coin in circulation is in some account. */
  ghost predicate Conserved(l: Ledger) {
    Sum(l.balances) == l.supply
  }

  function Minted(c: Call): nat { if c.Mint? then c.amount else 0 }

  function Burned(c: Call): nat { if c.Burn? then c.amount else 0 }

  lemma MoveKeepsSum(l: Ledger, from: Account, to: Account, amount: nat)
    requires amount <= Balance(l, from)
    ensures Sum(Credit(Debit(l, from, amount), to, amount).balances) == Sum(l.balances)
  {
    SumUpdate(l.balances, from, Balance(l, from) - amount);
    var mid := Debit(l, from, amount);
    SumUpdate(mid.balances, to, Balance(mid, to) + amount);
  }

  /** One call moves coins around, mints or burns; nothing else changes the total. */
  lemma CallConserves(l: Ledger, c: Call)
    requires Do(l, c).Some?
    ensures Conserved(l) ==> Conserved(Do(l, c).value)
    ensures Do(l, c).value.supply == l.supply + Minted(c) - Burned(c)
  {
    match c
    case Mint(amount) => SumUpdate(l.balances, BondedPool, Balance(l, BondedPool) + amount);
    case Burn(pool, amount) => SumUpdate(l.balances, pool, Balance(l, pool) - amount);
    case Send(from, to, amount) => MoveKeepsSum(l, from, to, amount);
    case Transfer(from, to, amount) => MoveKeepsSum(l, from, to, amount);
    case Delegate(a, amount) => MoveKeepsSum(l, User(a), PoolOf(l.validators[a].status), amount);
    case _ =>
  }

  /** The calls of a program that took effect. */
  function Executed(l: Ledger, cs: seq<Call>, fails: nat -> bool, k: nat): (r: seq<Call>)
    ensures r <= cs
    decreases |cs|
  {
    if cs == [] || fails(k) || Do(l, cs[0]).None? then []
    else [cs[0]] + Executed(Do(l, cs[0]).value, cs[1..], fails, k + 1)
  }

  function NetMinted(cs: seq<Call>): int {
    if cs == [] then 0 else Minted(cs[0]) - Burned(cs[0]) + NetMinted(cs[1..])
  }

  /** Over any program and any failures: conservation holds, and the supply moves by what was minted and burned. */
  lemma {:induction false} ExecConserves(l: Ledger, cs: seq<Call>, fails: nat -> bool, k: nat)
    ensures Conserved(l) ==> Conserved(Exec(l, cs, fails, k).ledger)
    ensures Exec(l, cs, fails, k).ledger.supply == l.supply + NetMinted(Executed(l, cs, fails, k))
    decreases |cs|
  {
    hide Do, Conserved;
    if cs != [] && !fails(k) && Do(l, cs[0]).Some? {
      CallConserves(l, cs[0]);
      ExecConserves(Do(l, cs[0]).value, cs[1..], fails, k + 1);
      assert Executed(l, cs, fails, k)[1..] == Executed(Do(l, cs[0]).value, cs[1..], fails, k + 1);
    }
  }

  // ---------------------------------------------------------------- what the pools owe

  /** The tokens each validator holds in the pool of the given kind. */
  ghost function TokensIn(vs: map<Addr, Validator>, bonded: bool): map<Addr, nat> {
    map a | a in vs :: if vs[a].status.Bonded? == bonded then vs[a].tokens else 0
  }

  function EntryTotal(entries: seq<int>): nat {
    if entries == [] then 0 else (if entries[0] > 0 then entries[0] else 0) + EntryTotal(entries[1..])
  }

  function UnbondingTotal(ubds: seq<seq<int>>): nat {
    if ubds == [] then 0 else EntryTotal(ubds[0]) + UnbondingTotal(ubds[1..])
  }

  /** What the bonded pool, or the not-bonded pool, must be able to pay out. */
  ghost function Owed(l: Ledger, bonded: bool): nat {
    Sum(TokensIn(l.validators, bonded)) + if bonded then 0 else UnbondingTotal(l.unbonding)
  }

  function Pool(bonded: bool): Account {
    if bonded then BondedPool else NotBondedPool
  }

  /** Obligations minus balance; positive when the pool is underfunded. */
  ghost function Deficit(l: Ledger, bonded: bool): int {
    Owed(l, bonded) - Balance(l, Pool(bonded))
  }

  lemma OwedAfterSet(l: Ledger, a: Addr, v: Validator, bonded: bool)
    ensures Owed(l.(validators := l.validators[a := v]), bonded)
            == Owed(l, bonded) + (if v.status.Bonded? == bonded then v.tokens else 0)
               - (if a in l.validators && l.validators[a].status.Bonded? == bonded then l.validators[a].tokens else 0)
  {
    var t := if v.status.Bonded? == bonded then v.tokens else 0;
    SumUpdate(TokensIn(l.validators, bonded), a, t);
    assert TokensIn(l.validators[a := v], bonded) == TokensIn(l.validators, bonded)[a := t];
  }

  /** Delegation raises the pool and its obligations alike. */
  lemma DelegateKeepsDeficit(l: Ledger, a: Addr, amount: nat, bonded: bool)
    requires DoDelegate(l, a, amount).Some?
    ensures Deficit(DoDelegate(l, a, amount).value, bonded) == Deficit(l, bonded)
  {
    var l' := DoDelegate(l, a, amount).value;
    var v := l.validators[a];
    OwedAfterSet(l, a, v.(tokens := v.tokens + amount), bonded);
    assert l'.validators == l.(validators := l.validators[a := v.(tokens := v.tokens + amount)]).validators;
  }

  /** Unjailing changes no record's tokens or status. */
  lemma UnjailKeepsDeficit(l: Ledger, a: Addr, now: int, bonded: bool)
    requires DoUnjail(l, a, now).Some?
    ensures Deficit(DoUnjail(l, a, now).value, bonded) == Deficit(l, bonded)
  {
    var l' := DoUnjail(l, a, now).value;
    var b := l.byCons[l.validators[a].key];
    OwedAfterSet(l, b, l.validators[b].(jailed := false), bonded);
    assert l'.validators == l.(validators := l.validators[b := l.validators[b].(jailed := false)]).validators;
  }
}
