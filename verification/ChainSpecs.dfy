/** Fork activation times and the Engine API versions they select: cosmos/app/types/chain.go. */
module ChainSpecs {
  import opened GoInts
  import opened Options

  datatype ChainSpec = ChainSpec(prague: Option<uint64>, osaka: Option<uint64>, amsterdam: Option<uint64>)

  predicate Active(fork: Option<uint64>, timestamp: uint64) {
    fork.Some? && timestamp >= fork.value
  }

  /** `Validate` reports no error. */
  predicate Validate(c: ChainSpec) {
    && (c.osaka.Some? ==> c.prague.Some? && c.osaka.value >= c.prague.value)
    && (c.amsterdam.Some? ==> c.osaka.Some? && c.amsterdam.value >= c.osaka.value)
  }

  function GetPayloadVersion(c: ChainSpec, timestamp: uint64): int {
    if Active(c.osaka, timestamp) then 5 else if Active(c.prague, timestamp) then 4 else 3
  }

  function NewPayloadVersion(c: ChainSpec, timestamp: uint64): int {
    if Active(c.amsterdam, timestamp) then 5 else if Active(c.prague, timestamp) then 4 else 3
  }

  /** A spec is valid exactly when no fork is ever active before its predecessor. */
  lemma ValidateMeansForksActivateInOrder(c: ChainSpec)
    ensures Validate(c) <==> forall t: uint64 :: (Active(c.osaka, t) ==> Active(c.prague, t))
                                              && (Active(c.amsterdam, t) ==> Active(c.osaka, t))
  {
    if forall t: uint64 :: (Active(c.osaka, t) ==> Active(c.prague, t))
                        && (Active(c.amsterdam, t) ==> Active(c.osaka, t)) {
      if c.osaka.Some? { assert Active(c.osaka, c.osaka.value); }
      if c.amsterdam.Some? { assert Active(c.amsterdam, c.amsterdam.value); }
    }
  }

  /** newPayload never runs ahead of getPayload exactly when Amsterdam does not precede Osaka. */
  lemma NewPayloadNeverAhead(c: ChainSpec)
    ensures (forall t: uint64 :: NewPayloadVersion(c, t) <= GetPayloadVersion(c, t))
            <==> (c.amsterdam.Some? ==> c.osaka.Some? && c.osaka.value <= c.amsterdam.value)
  {
    if c.amsterdam.Some? && !(c.osaka.Some? && c.osaka.value <= c.amsterdam.value) {
      assert NewPayloadVersion(c, c.amsterdam.value) == 5 > GetPayloadVersion(c, c.amsterdam.value);
    }
  }

  /** Each fork changes the version it governs at its own second, not before and not after. */
  lemma ForksSwitchOnTime(c: ChainSpec, x: uint64, t: uint64)
    requires Validate(c)
    ensures c.prague == Some(x) && t < x ==> GetPayloadVersion(c, t) == 3 == NewPayloadVersion(c, t)
    ensures c.prague == Some(x) && t >= x ==> GetPayloadVersion(c, t) >= 4 && NewPayloadVersion(c, t) >= 4
    ensures c.osaka == Some(x) ==> (GetPayloadVersion(c, t) == 5 <==> t >= x)
    ensures c.amsterdam == Some(x) ==> (NewPayloadVersion(c, t) == 5 <==> t >= x)
  {
  }

  /** Later timestamps never select an older version. */
  lemma VersionsMonotone(c: ChainSpec, t: uint64, t': uint64)
    requires t <= t'
    ensures GetPayloadVersion(c, t) <= GetPayloadVersion(c, t')
    ensures NewPayloadVersion(c, t) <= NewPayloadVersion(c, t')
  {
  }

  datatype Fork = Cancun | Prague | Osaka | Amsterdam

  /** The documented matrix: the getPayload and newPayload versions of each fork. */
  function Matrix(f: Fork): (int, int) {
    match f
    case Cancun => (3, 3)
    case Prague => (4, 4)
    case Osaka => (5, 4)
    case Amsterdam => (5, 5)
  }

  /** f is active and nothing later is. */
  predicate LatestFork(c: ChainSpec, t: uint64, f: Fork) {
    && (f.Cancun? ==> !Active(c.prague, t))
    && (f.Prague? ==> Active(c.prague, t) && !Active(c.osaka, t))
    && (f.Osaka? ==> Active(c.osaka, t) && !Active(c.amsterdam, t))
    && (f.Amsterdam? ==> Active(c.amsterdam, t))
  }

  /** Of a valid spec, each timestamp has one latest fork, and the code follows the documented matrix there. */
  lemma VersionsFollowMatrix(c: ChainSpec, t: uint64, f: Fork)
    requires Validate(c)
    ensures exists g :: LatestFork(c, t, g)
    ensures LatestFork(c, t, f) ==> (GetPayloadVersion(c, t), NewPayloadVersion(c, t)) == Matrix(f)
  {
    assert || LatestFork(c, t, Cancun) || LatestFork(c, t, Prague)
           || LatestFork(c, t, Osaka) || LatestFork(c, t, Amsterdam);
  }
}
