/** The proposal handlers of cosmos/app/proposal.go. */
module Proposals {
  import opened GoInts
  import opened Options
  import opened Engine
  import opened Keeper
  import opened Building

  // ---------------------------------------------------------------- transactions

  datatype Msg = ExecutionPayloadMsg(msg: PayloadMsg) | SdkMsg(typeName: string)

  /** A decoded transaction, as far as `validateTx` looks at it. */
  datatype Tx = Tx(
    msgs: seq<Msg>,
    isSigningTx: bool,
    signatures: Option<nat>,         // None: `GetSignaturesV2` fails
    memoLength: nat,
    hasFee: bool,
    feePayer: string,
    hasFeeGranter: bool)

  /** Raw bytes: their number, and what the SDK's decoder makes of them. */
  datatype RawTx = RawTx(size: nat, decoded: Option<Tx>)

  datatype ParsedTx = ParsedTx(tx: Tx, isEVM: bool)

  const MAX_TX_SIZE: nat := 20 * 1024 * 1024

  const ALLOWED_MSG_TYPES: set<string> := {
    "govv1.MsgSubmitProposal", "govv1.MsgVote", "govv1.MsgVoteWeighted", "govv1.MsgDeposit",
    "banktypes.MsgSend", "upgradetypes.MsgSoftwareUpgrade", "upgradetypes.MsgCancelUpgrade" }

  predicate MsgAllowed(tx: Tx) {
    |tx.msgs| == 1 && (tx.msgs[0].SdkMsg? ==> tx.msgs[0].typeName in ALLOWED_MSG_TYPES)
  }

  predicate ValidTx(cfg: Config, tx: Tx) {
    && |tx.msgs| == 1 && tx.isSigningTx
    && tx.signatures == Some(0)
    && tx.memoLength == 0 && !tx.hasFee
    && tx.feePayer == cfg.moduleAddress && !tx.hasFeeGranter
  }

  function ParseTx(cfg: Config, raw: RawTx): (r: Option<ParsedTx>)
    ensures r.Some? ==> |r.value.tx.msgs| == 1 && r.value.isEVM == r.value.tx.msgs[0].ExecutionPayloadMsg?
  {
    if raw.decoded.None? || !MsgAllowed(raw.decoded.value) then None else
    var tx := raw.decoded.value;
    var isEVM := tx.msgs[0].ExecutionPayloadMsg?;
    if isEVM && !ValidTx(cfg, tx) then None else Some(ParsedTx(tx, isEVM))
  }

  /** A mempool transaction may be included if and only if it decodes to one message of an allowed type. */
  lemma PermittedMeans(cfg: Config, raw: RawTx)
    ensures Permitted(cfg, raw) <==>
            raw.decoded.Some? && exists name :: name in ALLOWED_MSG_TYPES && raw.decoded.value.msgs == [SdkMsg(name)]
  {
    if Permitted(cfg, raw) {
      var msgs := raw.decoded.value.msgs;
      assert msgs == [SdkMsg(msgs[0].typeName)];
    }
  }

  /** A payload transaction: one payload message, unsigned, no memo, no fee, paid by the evm module. */
  lemma PayloadTxMeans(cfg: Config, raw: RawTx, msg: PayloadMsg)
    ensures IsEVM(cfg, raw) && ParseTx(cfg, raw).value.tx.msgs[0] == ExecutionPayloadMsg(msg) <==>
            raw.decoded == Some(Tx([ExecutionPayloadMsg(msg)], true, Some(0), 0, false, cfg.moduleAddress, false))
  {
    if IsEVM(cfg, raw) && ParseTx(cfg, raw).value.tx.msgs[0] == ExecutionPayloadMsg(msg) {
      assert raw.decoded.value.msgs == [ExecutionPayloadMsg(msg)];
    }
  }

  // ---------------------------------------------------------------- the two-thirds check

  datatype Vote = Vote(power: int64, committed: bool)

  function TotalPower(votes: seq<Vote>): int {
    if votes == [] then 0 else votes[0].power + TotalPower(votes[1..])
  }

  function CommittedPower(votes: seq<Vote>): int {
    if votes == [] then 0 else (if votes[0].committed then votes[0].power else 0) + CommittedPower(votes[1..])
  }

  /** Go's integer division truncates toward zero. */
  function GoDiv3(x: int): int {
    if x >= 0 then x / 3 else -((-x) / 3)
  }

  /** `votedPower > totalPower*2/3` on 64-bit integers. */
  predicate QuorumReached(votes: seq<Vote>) {
    ToInt64(CommittedPower(votes)) > GoDiv3(ToInt64(ToInt64(TotalPower(votes)) * 2))
  }

  predicate PowersNotNegative(votes: seq<Vote>) {
    forall i :: 0 <= i < |votes| ==> votes[i].power >= 0
  }

  lemma {:induction false} CommittedWithinTotal(votes: seq<Vote>)
    requires PowersNotNegative(votes)
    ensures 0 <= CommittedPower(votes) <= TotalPower(votes)
  {
    if votes != [] { CommittedWithinTotal(votes[1..]); }
  }

  /**
   The check on any votes: it compares the committed power and twice the total power after both
   have wrapped around, `i` and `j` times, into the range of an int64.
   */
  lemma QuorumCheckIsModular(votes: seq<Vote>, i: int, j: int)
    requires -TWO_63 <= CommittedPower(votes) - i * TWO_64 < TWO_63
    requires -TWO_63 <= 2 * TotalPower(votes) - j * TWO_64 < TWO_63
    ensures var c, w := CommittedPower(votes) - i * TWO_64, 2 * TotalPower(votes) - j * TWO_64;
            QuorumReached(votes) <==> if w >= 0 then 3 * c > w else 3 * c >= w + 3
  {
    var c, w := CommittedPower(votes) - i * TWO_64, 2 * TotalPower(votes) - j * TWO_64;
    WrapsTo(CommittedPower(votes), i);
    WrapsTo(2 * TotalPower(votes), j);
    WrapAdd(TotalPower(votes), TotalPower(votes));
    WrapAdd(TotalPower(votes), ToInt64(TotalPower(votes)));
    assert ToInt64(ToInt64(TotalPower(votes)) * 2) == w;
  }

  lemma WrapsTo(x: int, k: int)
    requires -TWO_63 <= x - k * TWO_64 < TWO_63
    ensures ToInt64(x) == x - k * TWO_64
  {
    WrapShift(x - k * TWO_64, k);
    WordIsMod(x);
    WordIsMod(x - k * TWO_64);
  }

  /**
   The check is exactly "more than two thirds committed" while twice the total power fits an
   int64. From there on, as long as the total itself fits, the product wraps and every commit
   passes, even an empty one (save at the largest int64 total, where some power must have committed).
   */
  lemma QuorumCheckIsExact(votes: seq<Vote>)
    requires PowersNotNegative(votes) && TotalPower(votes) < TWO_63
    ensures QuorumReached(votes) <==>
            || 3 * CommittedPower(votes) > 2 * TotalPower(votes)
            || (2 * TotalPower(votes) >= TWO_63 && (CommittedPower(votes) > 0 || TotalPower(votes) < TWO_63 - 1))
  {
    hide QuorumReached;
    CommittedWithinTotal(votes);
    QuorumCheckIsModular(votes, 0, if 2 * TotalPower(votes) >= TWO_63 then 1 else 0);
  }

  /** A commit nobody signed passes once the doubled power wraps around. */
  lemma QuorumCheckWrapsAround()
    ensures var votes := [Vote(0x4000_0000_0000_0000, false)];
            CommittedPower(votes) == 0 && QuorumReached(votes)
  {
    var votes := [Vote(0x4000_0000_0000_0000, false)];
    assert votes[1..] == [];
  }

  /** And a commit everybody signed fails once the committed power itself wraps around. */
  lemma UnanimousCommitFails()
    ensures var votes := [Vote(0x4000_0000_0000_0000, true), Vote(0x4000_0000_0000_0000, true)];
            CommittedPower(votes) == TotalPower(votes) == TWO_63 && !QuorumReached(votes)
  {
    var votes := [Vote(0x4000_0000_0000_0000, true), Vote(0x4000_0000_0000_0000, true)];
    assert votes[1..] == [votes[1]] && votes[1..][1..] == [];
  }

  function Votes(powers: seq<nat>, flags: seq<bool>): (r: seq<Vote>)
    requires |powers| == |flags| && forall i :: 0 <= i < |powers| ==> powers[i] < TWO_63
    ensures |r| == |powers| && PowersNotNegative(r)
  {
    if powers == [] then [] else [Vote(powers[0], flags[0])] + Votes(powers[1..], flags[1..])
  }

  function SumPowers(powers: seq<nat>): nat {
    if powers == [] then 0 else powers[0] + SumPowers(powers[1..])
  }

  /** The power of the validators that both flag lists mark. */
  function SharedPower(powers: seq<nat>, a: seq<bool>, b: seq<bool>): nat
    requires |powers| == |a| == |b|
  {
    if powers == [] then 0
    else (if a[0] && b[0] then powers[0] else 0) + SharedPower(powers[1..], a[1..], b[1..])
  }

  lemma {:induction false} InclusionExclusion(powers: seq<nat>, a: seq<bool>, b: seq<bool>)
    requires |powers| == |a| == |b| && forall i :: 0 <= i < |powers| ==> powers[i] < TWO_63
    ensures CommittedPower(Votes(powers, a)) + CommittedPower(Votes(powers, b))
            <= SumPowers(powers) + SharedPower(powers, a, b)
    ensures TotalPower(Votes(powers, a)) == SumPowers(powers)
  {
    if powers != [] {
      InclusionExclusion(powers[1..], a[1..], b[1..]);
      assert Votes(powers, a)[1..] == Votes(powers[1..], a[1..]);
      assert Votes(powers, b)[1..] == Votes(powers[1..], b[1..]);
    }
  }

  /** Any two commits that pass the check share validators with more than a third of the power. */
  lemma QuorumIntersection(powers: seq<nat>, a: seq<bool>, b: seq<bool>)
    requires |powers| == |a| == |b| && forall i :: 0 <= i < |powers| ==> powers[i] < TWO_63
    requires 2 * SumPowers(powers) < TWO_63
    requires QuorumReached(Votes(powers, a)) && QuorumReached(Votes(powers, b))
    ensures 3 * SharedPower(powers, a, b) > SumPowers(powers)
  {
    hide QuorumReached;
    InclusionExclusion(powers, a, b);
    InclusionExclusion(powers, b, a);
    QuorumCheckIsExact(Votes(powers, a));
    QuorumCheckIsExact(Votes(powers, b));
  }

  /** A commit that marks nobody shares no power and commits none. */
  lemma {:induction false} NobodyShares(powers: seq<nat>, none: seq<bool>)
    requires |powers| == |none| && forall i :: 0 <= i < |powers| ==> powers[i] < TWO_63 && !none[i]
    ensures SharedPower(powers, none, none) == 0 && CommittedPower(Votes(powers, none)) == 0
  {
    if powers != [] {
      NobodyShares(powers[1..], none[1..]);
      assert Votes(powers, none)[1..] == Votes(powers[1..], none[1..]);
    }
  }

  /** Once the doubled total wraps, for any powers, a commit nobody signed passes: two quorums then share nothing. */
  lemma NoIntersectionBeyond(powers: seq<nat>, none: seq<bool>)
    requires |powers| == |none| && forall i :: 0 <= i < |powers| ==> powers[i] < TWO_63 && !none[i]
    requires TWO_63 <= 2 * SumPowers(powers) < 2 * (TWO_63 - 1)
    ensures QuorumReached(Votes(powers, none)) && SharedPower(powers, none, none) == 0
  {
    hide QuorumReached;
    NobodyShares(powers, none);
    InclusionExclusion(powers, none, none);
    QuorumCheckIsExact(Votes(powers, none));
  }

  lemma WrapShift(x: int, k: int)
    ensures (x + k * TWO_64) % TWO_64 == x % TWO_64
  {
  }

  lemma WrapAdd(x: int, y: int)
    ensures ToInt64(ToInt64(x) + y) == ToInt64(x + y)
  {
    var u := x % TWO_64;
    var k := if ToInt64(x) == u then -(x / TWO_64) else -(x / TWO_64) - 1;
    assert ToInt64(x) == x + k * TWO_64;
    WrapShift(x + y, k);
    WordIsMod(x + y);
    WordIsMod(x + y + k * TWO_64);
  }

  lemma WordIsMod(x: int)
    ensures ToUint64(x) == x % TWO_64
  {
  }

  lemma {:induction false} PowersAppend(votes: seq<Vote>, v: Vote)
    ensures TotalPower(votes + [v]) == TotalPower(votes) + v.power
    ensures CommittedPower(votes + [v]) == CommittedPower(votes) + if v.committed then v.power else 0
  {
    if votes == [] {
      assert votes + [v] == [v] && [v][1..] == [];
    } else {
      assert (votes + [v])[1..] == votes[1..] + [v];
      PowersAppend(votes[1..], v);
    }
  }

  /** The vote loop, with its wrapping sums. */
  method CheckQuorum(votes: seq<Vote>) returns (ok: bool)
    ensures ok == QuorumReached(votes)
  {
    var totalPower: int64, votedPower: int64 := 0, 0;
    for i := 0 to |votes|
      invariant totalPower == ToInt64(TotalPower(votes[..i])) && votedPower == ToInt64(CommittedPower(votes[..i]))
    {
      var v := votes[i];
      PowersAppend(votes[..i], v);
      assert votes[..i + 1] == votes[..i] + [v];
      WrapAdd(TotalPower(votes[..i]), v.power);
      WrapAdd(CommittedPower(votes[..i]), v.power);
      totalPower := ToInt64(totalPower + v.power);
      if v.committed { votedPower := ToInt64(votedPower + v.power); }
    }
    assert votes[..|votes|] == votes;
    ok := votedPower > GoDiv3(ToInt64(totalPower * 2));
  }

  // ---------------------------------------------------------------- ProcessProposal

  datatype ProcessRequest = ProcessRequest(height: int, txs: seq<RawTx>, lastCommit: seq<Vote>)

  predicate IsEVM(cfg: Config, raw: RawTx) {
    ParseTx(cfg, raw).Some? && ParseTx(cfg, raw).value.isEVM
  }

  /** The payload of the block's last transaction. */
  function LastPayload(cfg: Config, txs: seq<RawTx>): PayloadMsg
    requires txs != [] && IsEVM(cfg, txs[|txs| - 1])
  {
    ParseTx(cfg, txs[|txs| - 1]).value.tx.msgs[0].msg
  }

  /** Every transaction is small enough and permitted, and the EVM payload is the last one and only that. */
  ghost predicate WellFormedBlock(cfg: Config, txs: seq<RawTx>) {
    forall i :: 0 <= i < |txs| ==>
                  txs[i].size <= MAX_TX_SIZE && ParseTx(cfg, txs[i]).Some? && (IsEVM(cfg, txs[i]) <==> i == |txs| - 1)
  }

  /** When a block is accepted, stated without the order of the checks. */
  ghost predicate Acceptable(cfg: Config, maxCosmosTxs: int, state: Option<BlockState>, hdr: Header,
                             req: ProcessRequest)
  {
    if req.height == 1 then req.txs == [] else
    && req.txs != []
    && QuorumReached(req.lastCommit)
    && WellFormedBlock(cfg, req.txs)
    && (|req.txs| > 1 ==> |req.txs| - 1 <= maxCosmosTxs)
    && state.Some?
    && ValidatePayload(cfg, hdr, LastPayload(cfg, req.txs), state.value).Some?
  }

  /**
   What an accepted block above height 1 holds: single-message transactions of allowed types, and
   last an unsigned, fee-less payload transaction paid by the evm module that extends the stored block.
   */
  lemma AcceptedBlockContents(cfg: Config, maxCosmosTxs: int, state: Option<BlockState>, hdr: Header,
                              req: ProcessRequest)
    requires req.height != 1 && Acceptable(cfg, maxCosmosTxs, state, hdr, req)
    ensures forall i :: 0 <= i < |req.txs| - 1 ==>
              && req.txs[i].decoded.Some? && |req.txs[i].decoded.value.msgs| == 1
              && req.txs[i].decoded.value.msgs[0].SdkMsg?
              && req.txs[i].decoded.value.msgs[0].typeName in ALLOWED_MSG_TYPES
    ensures var last := req.txs[|req.txs| - 1].decoded;
            && last.Some? && |last.value.msgs| == 1 && last.value.msgs[0].ExecutionPayloadMsg?
            && last.value.signatures == Some(0) && last.value.memoLength == 0 && !last.value.hasFee
            && last.value.feePayer == cfg.moduleAddress && !last.value.hasFeeGranter
            && state.Some?
            && var msg := last.value.msgs[0].msg;
            msg.authority == cfg.moduleAddress && msg.payload.Json? && Honours(cfg, hdr, state.value, msg.payload.data)
  {
    hide QuorumReached, ValidatePayload, Honours;
    var msg := LastPayload(cfg, req.txs);
    ValidPayloadMeans(cfg, hdr, msg, state.value, ValidatePayload(cfg, hdr, msg, state.value).value);
    assert forall i :: 0 <= i < |req.txs| ==> ParseTx(cfg, req.txs[i]).Some?;
  }

  /** The transaction that carries payload p, as validators demand it. */
  function CarrierOf(cfg: Config, p: ExecutableData): Tx {
    Tx([ExecutionPayloadMsg(PayloadMsg(cfg.moduleAddress, Json(p)))], true, Some(0), 0, false, cfg.moduleAddress, false)
  }

  /** A transaction of one message of an allowed type, within the size limit. */
  ghost predicate CosmosTx(raw: RawTx) {
    && raw.size <= 20_971_520 && raw.decoded.Some?
    && exists name :: name in ALLOWED_MSG_TYPES && raw.decoded.value.msgs == [SdkMsg(name)]
  }

  /**
   Which blocks are accepted above height 1, in terms of their contents: up to the limit of
   ordinary transactions, then one that carries a later payload extending the stored block, all
   within the size limit, on a last commit with a quorum.
   */
  lemma AcceptedIff(cfg: Config, maxCosmosTxs: int, state: BlockState, hdr: Header, height: int, lastCommit: seq<Vote>,
                    cosmos: seq<RawTx>, last: RawTx)
    requires height != 1
    ensures Acceptable(cfg, maxCosmosTxs, Some(state), hdr, ProcessRequest(height, cosmos + [last], lastCommit)) <==>
            && QuorumReached(lastCommit)
            && (cosmos != [] ==> |cosmos| <= maxCosmosTxs)
            && (forall t :: t in cosmos ==> CosmosTx(t))
            && last.size <= 20_971_520
            && exists p :: last.decoded == Some(CarrierOf(cfg, p))
                           && Honours(cfg, hdr, state, p) && p.timestamp > state.timestamp
    ensures !Acceptable(cfg, maxCosmosTxs, None, hdr, ProcessRequest(height, cosmos + [last], lastCommit))
    ensures !Acceptable(cfg, maxCosmosTxs, Some(state), hdr, ProcessRequest(height, [], lastCommit))
  {
    hide QuorumReached, ValidatePayload, Honours, ParseTx;
    var block := cosmos + [last];
    assert block[|block| - 1] == last && forall i :: 0 <= i < |cosmos| ==> block[i] == cosmos[i];
    forall t ensures Permitted(cfg, t) && t.size <= MAX_TX_SIZE <==> CosmosTx(t) { PermittedMeans(cfg, t); }
    BlockContents(cfg, cosmos, last);
    if IsEVM(cfg, last) {
      var msg := LastPayload(cfg, block);
      PayloadTxMeans(cfg, last, msg);
      forall p
        ensures ValidatePayload(cfg, hdr, msg, state) == Some(p) <==>
                last.decoded == Some(CarrierOf(cfg, p)) && Honours(cfg, hdr, state, p) && p.timestamp > state.timestamp
      {
        ValidPayloadMeans(cfg, hdr, msg, state, p);
      }
    } else {
      forall p ensures last.decoded != Some(CarrierOf(cfg, p)) {
        PayloadTxMeans(cfg, last, PayloadMsg(cfg.moduleAddress, Json(p)));
      }
    }
  }

  /** At height 1 nothing is proposed, and nothing else is accepted. */
  lemma FirstBlockIsEmpty(cfg: Config, maxCosmosTxs: int, state: Option<BlockState>, hdr: Header, txs: seq<RawTx>,
                          lastCommit: seq<Vote>, mempool: seq<RawTx>, payload: Option<ExecutableData>, size: nat)
    ensures ProposedBlock(cfg, maxCosmosTxs, 1, mempool, payload, size) == Some([])
    ensures Acceptable(cfg, maxCosmosTxs, state, hdr, ProcessRequest(1, txs, lastCommit)) <==> txs == []
  {
  }

  lemma BlockContents(cfg: Config, cosmos: seq<RawTx>, last: RawTx)
    ensures WellFormedBlock(cfg, cosmos + [last]) <==>
            && (forall t :: t in cosmos ==> Permitted(cfg, t) && t.size <= MAX_TX_SIZE)
            && IsEVM(cfg, last) && last.size <= MAX_TX_SIZE
  {
    hide ParseTx;
    var block := cosmos + [last];
    assert block[|block| - 1] == last;
    if WellFormedBlock(cfg, block) {
      forall t | t in cosmos ensures Permitted(cfg, t) && t.size <= MAX_TX_SIZE {
        var i :| 0 <= i < |cosmos| && cosmos[i] == t;
        assert block[i] == t;
      }
    }
    if (forall t :: t in cosmos ==> Permitted(cfg, t) && t.size <= MAX_TX_SIZE) && IsEVM(cfg, last)
       && last.size <= MAX_TX_SIZE {
      forall i | 0 <= i < |block|
        ensures block[i].size <= MAX_TX_SIZE && ParseTx(cfg, block[i]).Some?
        ensures IsEVM(cfg, block[i]) <==> i == |block| - 1
      {
        if i < |cosmos| { assert block[i] == cosmos[i] && cosmos[i] in cosmos; }
      }
    }
  }

  /** `makeProcessProposalHandler`: reject at the first fault. */
  method ProcessProposal(cfg: Config, maxCosmosTxs: int, state: Option<BlockState>, hdr: Header, req: ProcessRequest)
    returns (accept: bool)
    ensures accept <==> Acceptable(cfg, maxCosmosTxs, state, hdr, req)
  {
    hide QuorumReached, ValidatePayload, ParseTx;
    if req.height == 1 { return |req.txs| == 0; }
    if |req.txs| == 0 { return false; }
    var quorum := CheckQuorum(req.lastCommit);
    if !quorum { return false; }
    var evmMsg: Option<PayloadMsg> := None;
    var cosmosTxCount := 0;
    for i := 0 to |req.txs|
      invariant cosmosTxCount == if i < |req.txs| then i else i - 1
      invariant cosmosTxCount > 0 ==> cosmosTxCount <= maxCosmosTxs
      invariant forall j :: 0 <= j < i ==>
                              req.txs[j].size <= MAX_TX_SIZE && ParseTx(cfg, req.txs[j]).Some?
                              && (IsEVM(cfg, req.txs[j]) <==> j == |req.txs| - 1)
      invariant i == |req.txs| ==> evmMsg == Some(LastPayload(cfg, req.txs))
    {
      var raw := req.txs[i];
      if raw.size > MAX_TX_SIZE { return false; }
      var parsed := ParseTx(cfg, raw);
      if parsed.None? { return false; }
      var isEVM := parsed.value.isEVM;
      var isLast := i == |req.txs| - 1;
      if isEVM && !isLast { return false; }
      if !isEVM && isLast { return false; }
      if !isEVM {
        cosmosTxCount := cosmosTxCount + 1;
        if cosmosTxCount > maxCosmosTxs { return false; }
      }
      if isEVM { evmMsg := Some(parsed.value.tx.msgs[0].msg); }
    }
    if state.None? { return false; }
    accept := ValidatePayload(cfg, hdr, evmMsg.value, state.value).Some?;
  }

  // ---------------------------------------------------------------- PrepareProposal

  /** A mempool transaction the proposer may include. */
  predicate Permitted(cfg: Config, raw: RawTx) {
    ParseTx(cfg, raw).Some? && !ParseTx(cfg, raw).value.isEVM
  }

  /** The first `room` permitted transactions, in mempool order. */
  function SelectTxs(cfg: Config, mempool: seq<RawTx>, room: int): (r: seq<RawTx>)
    ensures |r| <= if room > 0 then room else 0
    ensures forall i :: 0 <= i < |r| ==> Permitted(cfg, r[i]) && r[i] in mempool
  {
    if mempool == [] || room <= 0 then []
    else if Permitted(cfg, mempool[0]) then [mempool[0]] + SelectTxs(cfg, mempool[1..], room - 1)
    else SelectTxs(cfg, mempool[1..], room)
  }

  /** All permitted transactions of the mempool, in order. */
  function AllPermitted(cfg: Config, mempool: seq<RawTx>): seq<RawTx> {
    if mempool == [] then []
    else (if Permitted(cfg, mempool[0]) then [mempool[0]] else []) + AllPermitted(cfg, mempool[1..])
  }

  /** The proposer takes a prefix of the permitted transactions: all of them, or as many as there is room for. */
  lemma {:induction false} SelectIsPrefix(cfg: Config, mempool: seq<RawTx>, room: nat)
    ensures SelectTxs(cfg, mempool, room) <= AllPermitted(cfg, mempool)
    ensures |SelectTxs(cfg, mempool, room)| == room || SelectTxs(cfg, mempool, room) == AllPermitted(cfg, mempool)
    decreases |mempool|
  {
    hide Permitted;
    if mempool != [] && room > 0 {
      SelectIsPrefix(cfg, mempool[1..], if Permitted(cfg, mempool[0]) then room - 1 else room);
    }
  }

  lemma SelectNext(cfg: Config, mempool: seq<RawTx>, i: nat, room: int)
    requires i <= |mempool|
    ensures i == |mempool| || room <= 0 ==> SelectTxs(cfg, mempool[i..], room) == []
    ensures i < |mempool| && room > 0 ==>
              SelectTxs(cfg, mempool[i..], room) ==
              if Permitted(cfg, mempool[i]) then [mempool[i]] + SelectTxs(cfg, mempool[i + 1..], room - 1)
              else SelectTxs(cfg, mempool[i + 1..], room)
  {
    if i < |mempool| { assert mempool[i..][1..] == mempool[i + 1..]; }
  }

  method CollectTxs(cfg: Config, mempool: seq<RawTx>, maxCosmosTxs: int) returns (r: seq<RawTx>)
    ensures r == SelectTxs(cfg, mempool, maxCosmosTxs)
  {
    hide ParseTx, SelectTxs;
    r := [];
    ghost var rest := SelectTxs(cfg, mempool, maxCosmosTxs);
    assert mempool[0..] == mempool;
    for i := 0 to |mempool|
      invariant rest == SelectTxs(cfg, mempool[i..], maxCosmosTxs - |r|)
      invariant r + rest == SelectTxs(cfg, mempool, maxCosmosTxs)
    {
      SelectNext(cfg, mempool, i, maxCosmosTxs - |r|);
      if |r| >= maxCosmosTxs { return; }
      rest := SelectTxs(cfg, mempool[i + 1..], maxCosmosTxs - |r| - if Permitted(cfg, mempool[i]) then 1 else 0);
      var parsed := ParseTx(cfg, mempool[i]);
      if parsed.None? || parsed.value.isEVM { continue; }
      assert r + [mempool[i]] + rest == r + ([mempool[i]] + rest);
      r := r + [mempool[i]];
    }
    SelectNext(cfg, mempool, |mempool|, maxCosmosTxs - |r|);
  }

  /** The unsigned transaction around the payload, as the SDK encodes and decodes it. */
  function PayloadTx(cfg: Config, payload: ExecutableData, size: nat): RawTx {
    var msg := ExecutionPayloadMsg(PayloadMsg(cfg.moduleAddress, Json(payload)));
    RawTx(size, Some(Tx([msg], true, Some(0), 0, false, cfg.moduleAddress, false)))
  }

  /** The block the prepare handler proposes; `size` is the encoded length of the payload transaction. */
  function ProposedBlock(cfg: Config, maxCosmosTxs: int, height: int, mempool: seq<RawTx>,
                         payload: Option<ExecutableData>, size: nat): Option<seq<RawTx>>
  {
    if height == 1 then Some([])
    else if payload.None? || size > MAX_TX_SIZE then None
    else Some(SelectTxs(cfg, mempool, maxCosmosTxs) + [PayloadTx(cfg, payload.value, size)])
  }

  /**
   Proposer and validator: there is a block exactly when the engine delivered a payload and its
   transaction is within the size limit. It is accepted on the same state and header exactly when
   the payload obeys the attributes of the forkchoice calls, the timestamp in them moves forward,
   the last commit has a quorum, and the mempool transactions taken are within the size limit (the
   proposer does not check that).
   */
  lemma ProposalIsAccepted(cfg: Config, maxCosmosTxs: int, state: BlockState, hdr: Header, height: int,
                           mempool: seq<RawTx>, env: BuildScript, size: nat, lastCommit: seq<Vote>)
    requires Timely(env) && height != 1
    ensures var built := ProposePayload(cfg, Some(state), hdr, env);
            var block := ProposedBlock(cfg, maxCosmosTxs, height, mempool, built.payload, size);
            var es := built.events;
            && (block.Some? <==> built.payload.Some? && size <= MAX_TX_SIZE)
            && es != []
            && forall y :: block.Some? && 0 <= y < |es| && es[y].Forkchoice? ==>
                 (Acceptable(cfg, maxCosmosTxs, Some(state), hdr, ProcessRequest(height, block.value, lastCommit))
                  <==> && Obeys(es[y], state.height, built.payload.value)
                       && es[y].attrs.value.timestamp > state.timestamp
                       && QuorumReached(lastCommit)
                       && forall t :: t in SelectTxs(cfg, mempool, maxCosmosTxs) ==> t.size <= MAX_TX_SIZE)
  {
    hide QuorumReached, ValidatePayload, ProposePayload, ExpectedTimestamp, Obeys, SelectTxs, Acceptable;
    HonouringIsAccepted(cfg, maxCosmosTxs, state, hdr, height, mempool, env, size, lastCommit);
    var es, payload := ProposePayload(cfg, Some(state), hdr, env).events,
                       ProposePayload(cfg, Some(state), hdr, env).payload;
    SomeAsk(cfg, state, hdr, env);
    forall y | payload.Some? && 0 <= y < |es| && es[y].Forkchoice?
      ensures Obeys(es[y], state.height, payload.value) <==> Honours(cfg, hdr, state, payload.value)
      ensures Obeys(es[y], state.height, payload.value) ==>
                es[y].attrs.Some? && es[y].attrs.value.timestamp == ExpectedTimestamp(cfg, hdr, state)
    {
      AsksForWhatIsValid(cfg, state, hdr, env, y, payload.value);
      ObeysTimestamp(es[y], cfg, hdr, state, payload.value);
    }
  }

  lemma SomeAsk(cfg: Config, state: BlockState, hdr: Header, env: BuildScript)
    requires Timely(env)
    ensures ProposePayload(cfg, Some(state), hdr, env).events != []
  {
  }

  lemma ObeysTimestamp(e: Event, cfg: Config, hdr: Header, state: BlockState, p: ExecutableData)
    ensures Obeys(e, state.height, p) && Honours(cfg, hdr, state, p) ==>
              e.Forkchoice? && e.attrs.Some? && e.attrs.value.timestamp == ExpectedTimestamp(cfg, hdr, state)
  {
  }

  /** The same, in terms of what the validators expect. */
  lemma HonouringIsAccepted(cfg: Config, maxCosmosTxs: int, state: BlockState, hdr: Header, height: int,
                            mempool: seq<RawTx>, env: BuildScript, size: nat, lastCommit: seq<Vote>)
    requires Timely(env) && height != 1
    ensures var payload := ProposePayload(cfg, Some(state), hdr, env).payload;
            var block := ProposedBlock(cfg, maxCosmosTxs, height, mempool, payload, size);
            && (block.Some? <==> payload.Some? && size <= MAX_TX_SIZE)
            && (block.Some? ==>
                  (Acceptable(cfg, maxCosmosTxs, Some(state), hdr, ProcessRequest(height, block.value, lastCommit))
                   <==> && Honours(cfg, hdr, state, payload.value)
                        && ExpectedTimestamp(cfg, hdr, state) > state.timestamp
                        && QuorumReached(lastCommit)
                        && forall t :: t in SelectTxs(cfg, mempool, maxCosmosTxs) ==> t.size <= MAX_TX_SIZE))
  {
    hide QuorumReached, ValidatePayload, ProposePayload, ExpectedTimestamp;
    var payload := ProposePayload(cfg, Some(state), hdr, env).payload;
    if payload.Some? && size <= MAX_TX_SIZE {
      var p := payload.value;
      var cosmos := SelectTxs(cfg, mempool, maxCosmosTxs);
      var last := PayloadTx(cfg, p, size);
      BlockShape(cfg, cosmos, last);
      var msg := PayloadMsg(cfg.moduleAddress, Json(p));
      ValidPayloadMeans(cfg, hdr, msg, state, p);
      assert ValidatePayload(cfg, hdr, msg, state).Some? ==> ValidatePayload(cfg, hdr, msg, state) == Some(p);
      assert (cosmos + [last])[|cosmos + [last]| - 1] == last;
    }
  }

  /** An engine that answers at once, and with p. */
  function Prompt(p: ExecutableData): BuildScript {
    BuildScript(_ => Reply(ForkchoiceReply(VALID, Some(0))), _ => 0, _ => 0, false, _ => Reply(p), _ => 0, _ => 0, 1000)
  }

  lemma PromptBuilds(cfg: Config, state: BlockState, hdr: Header, p: ExecutableData)
    ensures ProposePayload(cfg, Some(state), hdr, Prompt(p)).payload == Some(p)
  {
    hide ExpectedTimestamp, BuildEvents, FetchEvents, BuildExpired, FetchExpired;
    var env := Prompt(p);
    assert BuildAttempts(env)(0).Done? && FetchAttempts(env)(0).Done?;
  }

  /** A permitted transaction one byte too long. */
  function Oversized(): RawTx {
    RawTx(MAX_TX_SIZE + 1, Some(Tx([SdkMsg("banktypes.MsgSend")], true, Some(1), 0, true, "", false)))
  }

  /**
   The size limit is the only thing in the way: with an honest engine, on any state that time has
   moved past, the block is accepted over an empty mempool and rejected over one oversized transaction.
   */
  lemma OversizedTxSpoilsProposal(cfg: Config, maxCosmosTxs: nat, state: BlockState, hdr: Header)
    requires maxCosmosTxs > 0 && ExpectedTimestamp(cfg, hdr, state) > state.timestamp
    ensures var commit := [Vote(1, true)];
            var payload := ProposePayload(cfg, Some(state), hdr, Prompt(HonestPayload(cfg, hdr, state, []))).payload;
            var usual := ProposedBlock(cfg, maxCosmosTxs, 2, [], payload, 0);
            var spoiled := ProposedBlock(cfg, maxCosmosTxs, 2, [Oversized()], payload, 0);
            && usual.Some? && spoiled.Some?
            && Acceptable(cfg, maxCosmosTxs, Some(state), hdr, ProcessRequest(2, usual.value, commit))
            && !Acceptable(cfg, maxCosmosTxs, Some(state), hdr, ProcessRequest(2, spoiled.value, commit))
  {
    hide ExpectedTimestamp, ProposePayload, Acceptable, QuorumReached, ProposedBlock;
    var p := HonestPayload(cfg, hdr, state, []);
    OneVoteIsAQuorum();
    PromptBuilds(cfg, state, hdr, p);
    HonouringIsAccepted(cfg, maxCosmosTxs, state, hdr, 2, [], Prompt(p), 0, [Vote(1, true)]);
    HonouringIsAccepted(cfg, maxCosmosTxs, state, hdr, 2, [Oversized()], Prompt(p), 0, [Vote(1, true)]);
    assert SelectTxs(cfg, [], maxCosmosTxs) == [];
    assert Oversized() in SelectTxs(cfg, [Oversized()], maxCosmosTxs);
  }

  lemma OneVoteIsAQuorum()
    ensures QuorumReached([Vote(1, true)])
  {
    assert [Vote(1, true)][1..] == [];
  }

  lemma BlockShape(cfg: Config, cosmos: seq<RawTx>, last: RawTx)
    requires forall i :: 0 <= i < |cosmos| ==> Permitted(cfg, cosmos[i])
    requires IsEVM(cfg, last) && last.size <= MAX_TX_SIZE
    ensures WellFormedBlock(cfg, cosmos + [last]) <==> forall t :: t in cosmos ==> t.size <= MAX_TX_SIZE
  {
    hide ParseTx, WellFormedBlock;
    BlockContents(cfg, cosmos, last);
  }
}
