# Verified model of the Nexus node

Nexus runs a Cosmos consensus application in front of an Ethereum execution engine.
This project models three parts of the application in Dafny and proves what they promise.

* **The protobuf wire codec** of `MsgExecutionPayload` and of the nested, repeated
  `ConsensusRequests` (`GoInts`, `Varint`, `Wire`, `Groups`, `Messages`, `ProtoCodec`).
  The generated code keeps its form: marshallers fill a byte array from the end backwards,
  unmarshallers overwrite the fields of message objects, the skipper counts open groups.
  Each is proved against a value-level meaning. On that level: decoding inverts encoding,
  decoding a concatenation is decoding one part onto the result of the other, down to the
  error and to what an error leaves behind, the skipper accepts exactly the recursive grammar
  of one field, and unknown fields change nothing.
* **The block protocol** between consensus and execution (`ChainSpecs`, `Timestamps`,
  `Retrying`, `Engine`, `Keeper`, `Building`, `EvmNode`, `Proposals`, `Runs`). The engine is
  an environment that answers every attempt of every call with anything, errors included.
  The keeper is an object that stores the block state and records its calls. Over every run
  of prepare, process and message-handling steps the stored blocks form one forward chain,
  every advance was admitted and then finalized by the engine, and the node never names a
  head the engine did not admit.
* **The validator hooks** (`Sums`, `Ledger`, `Hooks`, `HookRuns`, `HookSuccess`, `App`). A hook is the list
  of keeper calls it makes; it stops at the first error and rolls nothing back, so every
  property is proved for every point of failure. The methods of `App.Application` make those
  calls step by step on live state. Over every sequence of hooks no staking pool gets further
  underfunded, the books balance, a removal is permanent, and it is known exactly which
  validators the power index lacks and when each hook succeeds.

`Notifier` adds the upgrade notifier's deduplication.

`dafny verify dfyconfig.toml` checks the whole project.

## Where the code does not do what one might expect

* The two-thirds check multiplies an int64 by two. From a total power of 2^62 up to 2^63 - 2 it
  wraps and lets every commit pass, even one nobody signed; at 2^63 - 1 some power must have
  committed; from 2^63 on the sums wrap too, and even a unanimous commit can fail. The handler
  itself has no bound on the total (`Proposals.QuorumCheckIsExact`,
  `Proposals.QuorumCheckIsModular`, `Proposals.QuorumCheckWrapsAround`,
  `Proposals.UnanimousCommitFails`).
* The proposer does not check the size of the mempool transactions it includes, the validator
  does, so a proposer can build a block it would itself reject (`Proposals.ProposalIsAccepted`,
  `Proposals.OversizedTxSpoilsProposal`).
* Validators accept a payload whose EVM transactions do not decode or carry too many blobs. No
  node can then advance on it, whatever its engine answers (`Runs.AcceptedBlockFinalizesIff`,
  `Runs.UndecodableTxIsAccepted`).
* Inside the block-height window the fallback to "previous + 1" does not apply, against the
  comment at cosmos/x/evm/keeper/keeper.go:140. `Runs.WindowRun` and `Runs.WindowRunProgress`
  say exactly at which heights the chain then stalls, `Runs.EarlyWindowStalls` and
  `Runs.WrappedWindowStalls` show it stalling.
* An add-validator hook without a positive MinSelfDelegation never stores the validator, but
  it mints the initial tokens to the operator first (`HookRuns.AddWithoutMinSelfDelegation`,
  `HookSuccess.AddSucceedsIff`).
* An add-validator hook that fails between storing a record and indexing it leaves an unjailed
  validator out of the power index; no other exit of any hook does, on any ledger. The validator
  stays out until it is removed or an unjail hook tops it up, even one that then fails
  (`HookRuns.HookMissing`, `HookRuns.RunKeepsIndex`, `HookRuns.IndexGapIsReal`,
  `HookRuns.IndexGapIsRepaired`).
* x/slashing checks the operator an unjail hook names, but the record behind the consensus key
  is the one unjailed: the named one exactly if its key leads back to it
  (`HookRuns.UnjailSucceeds`, `HookSuccess.UnjailHitsAnother`).
* Which error a decoder reports can depend on how many bytes stand in front of the bad field:
  exactly if its announced end stops being an `int` behind them (`Wire.DecodeConcat`,
  `Messages.ErrorKindDependsOnOffset`). Whether it fails, and what it leaves in the message,
  does not (`Wire.LeftConcat`).

## What is assumed of the libraries

* `|` of the varint loop's accumulator and the shifted byte is their sum;
  `Varint.OrShiftedIsSum` states it on 64-bit vectors for each of the loop's ten shifts.
* JSON, transaction and EVM-transaction decoding are represented by their results: raw bytes
  are a length and what they decode to. The SDK encodes the proposer's unsigned transaction so
  that it decodes to itself, with the evm module as fee payer and no signature, memo or fee.
* An SDK keeper call either fails and changes nothing, or has the effect written in
  `Ledger.Do`. Any call may fail. `GetValidator` and `GetValidatorSigningInfo` fail only if
  there is no record. There is one bond denomination.
* x/upgrade's `ShouldExecute` is "height is positive and not above the block height".

## Model

| member | source | states |
|---|---|---|
| Varint.DecodeVarint | cosmos/x/evm/types/consensus.pb.go:484-498 | the shift-and-or loop terminates, never reads outside the buffer, and yields the low 64 bits of the base-128 number, or the overflow or end-of-input error |
| Varint.AccumulateVarint | cosmos/x/evm/types/consensus.pb.go:580-594 | the same loop on a message field: on an error the field holds the low 64 bits of all bytes read, up to the end of input or the tenth |
| Varint.OrShiftedIsSum | cosmos/x/evm/types/consensus.pb.go:494 | at every shift of the loop, or-ing the shifted byte into a smaller accumulator is adding it |
| Varint.EncodeVarintTo | cosmos/x/evm/types/consensus.pb.go:394-404 | writes exactly the minimal varint right before the offset and leaves every other byte of the array alone |
| Varint.SovIsEncodedLength | cosmos/x/evm/types/consensus.pb.go:473-475 | the bit-length formula equals the number of bytes the varint loop emits, for every value |
| Varint.VarintRoundTrip | cosmos/x/evm/types/consensus.pb.go:394-404 | every uint64 is read back from its encoding, which is consumed whole and has at most ten bytes |
| Varint.ReadVarintPrefix | cosmos/x/evm/types/consensus.pb.go:484-498 | bytes behind a varint do not influence it |
| Varint.ReadVarintShift | cosmos/x/evm/types/consensus.pb.go:484-498 | bytes in front of a varint only shift its end |
| Varint.VarintErrors | cosmos/x/evm/types/consensus.pb.go:485-492 | a varint overflows if and only if ten continuation bytes stand there, and runs out of input if and only if fewer do, up to the end |
| Wire.DecodeBytes | cosmos/x/evm/types/consensus.pb.go:512-541 | a length prefix with its int64 conversion and wrapped end index yields the announced bytes or the right error, without an index out of range |
| Wire.Skip | cosmos/x/evm/types/consensus.pb.go:924-1001 | the depth-counting loop terminates on every input and computes the recursive skipping function, errors included |
| Wire.PassUnknown | cosmos/x/evm/types/consensus.pb.go:595-608 | a skipped field ends inside the buffer and strictly behind its start, or the call fails |
| Wire.TagErrors | cosmos/x/evm/types/tx.pb.go:759-779 | which error an end-group tag, a number that is no positive int32, and a wire type that does not fit give |
| Wire.LengthErrors | cosmos/x/evm/types/consensus.pb.go:527-541 | a length prefix yields exactly the announced bytes, an invalid length if their end is no int, and end-of-input if it lies past the buffer |
| Wire.SkipErrors | cosmos/x/evm/types/consensus.pb.go:924-1001 | the skipper's errors at the end of input, a stray end-group, wire types 6 and 7 and a length that is no int |
| Wire.DecodeStores | cosmos/x/evm/types/tx.pb.go:741-856 | any message type decodes what parses by storing the known fields in wire order and nothing else |
| Groups.SkipMeansOneField | cosmos/x/evm/types/tx.pb.go:907-984 | the skipper consumes n bytes if and only if they are one well-formed field of the recursive grammar with nested groups |
| Groups.SkipsElement | cosmos/x/evm/types/consensus.pb.go:924-1001 | a well-formed field is passed as one unit at every nesting depth |
| Groups.SkippedLevels | cosmos/x/evm/types/consensus.pb.go:924-1001 | what is skipped from inside d open groups is the well-formed rest of each of the d groups |
| Groups.UnknownFieldIgnored | cosmos/x/evm/types/tx.pb.go:741-856 | a well-formed field with an unknown number, inserted at any field boundary, changes neither the decoded message nor success, and changes the error if and only if the rest stops at a field whose announced end overflows only because of the inserted bytes |
| Wire.DecodeConcat | cosmos/x/evm/types/tx.pb.go:741-856 | if a decodes, decoding a followed by b equals decoding b onto the message a produced, errors included, if and only if b does not stop at a field whose announced end is an int alone and none behind a; otherwise end-of-input becomes invalid length |
| Wire.DecodePrefix | cosmos/x/evm/types/tx.pb.go:741-856 | decoding reaches the end of a complete prefix with the message that prefix alone produces |
| Wire.LeftIsDecoded | cosmos/x/evm/types/tx.pb.go:741-856 | without an error the message left behind is the decoded one |
| Wire.LeftConcat | cosmos/x/evm/types/tx.pb.go:741-856 | also on an error, decoding a followed by b leaves exactly what decoding b onto a's message leaves: complete fields survive, and offsets never matter |
| Wire.ReadFieldShift | cosmos/x/evm/types/tx.pb.go:744-849 | behind other bytes one turn of the message loop reads the same field at a shifted index or fails with the same error, unless the announced end crosses the int range |
| Messages.ErrorKindDependsOnOffset | cosmos/x/evm/types/tx.pb.go:821-830 | an input whose error changes from end-of-input to invalid length behind a longer prefix, and which therefore meets the exception of the concatenation law |
| Messages.PayloadFields | cosmos/x/evm/types/tx.pb.go:779-842 | field 1 overwrites the authority and field 2 the payload, on any message |
| Messages.WithdrawalFields | cosmos/x/evm/types/consensus.pb.go:508-594 | fields 1, 2 and 3 overwrite source address, validator key and amount |
| Messages.DepositFields | cosmos/x/evm/types/consensus.pb.go:645-784 | fields 1 to 5 overwrite key, credentials, amount, signature and index |
| Messages.PayloadOnTheWire | cosmos/x/evm/types/tx.pb.go:464-484 | the encoding is read by any decoder as field 1 and field 2 in order, empty ones left out |
| Messages.WithdrawalOnTheWire | cosmos/x/evm/types/consensus.pb.go:262-287 | the encoding is read by any decoder as fields 1, 2 and 3 in order, empty ones left out |
| Messages.DepositOnTheWire | cosmos/x/evm/types/consensus.pb.go:304-341 | the encoding is read by any decoder as fields 1 to 5 in order, empty ones left out |
| Messages.DepositDecodesAnywhere | cosmos/x/evm/types/consensus.pb.go:304-341 | any message type over these fields decodes an encoded deposit by storing them, and nothing else, in this order |
| Messages.RequestsOnTheWire | cosmos/x/evm/types/consensus.pb.go:358-392 | the encoding is read as all deposits under field 1, then all withdrawals under field 2, each list in order |
| Messages.NestedMessageStays | cosmos/x/evm/types/consensus.pb.go:864-868 | a nested message stays in its list as far as it was decoded, also if it breaks off |
| Messages.BrokenNumbersStay | cosmos/x/evm/types/consensus.pb.go:580-594 | a number cut short leaves the bits read so far in its field |
| Messages.PayloadRoundTrip | cosmos/x/evm/types/tx.pb.go:464-484 | every payload message is recovered from its wire form |
| Messages.WithdrawalRoundTrip | cosmos/x/evm/types/consensus.pb.go:262-287 | every withdrawal request is recovered from its wire form |
| Messages.DepositRoundTrip | cosmos/x/evm/types/consensus.pb.go:304-341 | every deposit request is recovered from its wire form |
| Messages.DepositsRoundTrip | cosmos/x/evm/types/consensus.pb.go:864-868 | any list of encoded deposits is appended in order to the deposits the message already holds |
| Messages.WithdrawalsRoundTrip | cosmos/x/evm/types/consensus.pb.go:898-902 | any list of encoded withdrawals is appended in order to the withdrawals the message already holds |
| Messages.RequestsRoundTrip | cosmos/x/evm/types/consensus.pb.go:358-392 | any number of deposits and withdrawals with any field bytes comes back as the same lists in the same order |
| Messages.PayloadSizeIsExact | cosmos/x/evm/types/tx.pb.go:544-559 | the size is the length of the wire form |
| Messages.WithdrawalSizeIsExact | cosmos/x/evm/types/consensus.pb.go:405-423 | the size is the length of the wire form |
| Messages.DepositSizeIsExact | cosmos/x/evm/types/consensus.pb.go:425-450 | the size is the length of the wire form |
| ProtoCodec.ExecutionPayloadMsg.MarshalToSizedBuffer | cosmos/x/evm/types/tx.pb.go:464-484 | writes exactly Size() bytes, the wire form, at the tail of the given part of the buffer; no other byte changes and no index falls below zero |
| ProtoCodec.ExecutionPayloadMsg.Marshal | cosmos/x/evm/types/tx.pb.go:449-457 | returns a new array holding exactly the wire form |
| ProtoCodec.ExecutionPayloadMsg.Unmarshal | cosmos/x/evm/types/tx.pb.go:741-856 | terminates on every input and either leaves the message that decoding onto the old one gives, or reports that decoding's error and leaves the complete fields before it |
| ProtoCodec.WithdrawalMsg.MarshalToSizedBuffer | cosmos/x/evm/types/consensus.pb.go:262-287 | exact bytes at the tail, nothing else changed |
| ProtoCodec.WithdrawalMsg.Unmarshal | cosmos/x/evm/types/consensus.pb.go:479-615 | decodes onto the old message, or reports the error and leaves the complete fields before it and what a broken number accumulated, on every input |
| ProtoCodec.DepositMsg.MarshalToSizedBuffer | cosmos/x/evm/types/consensus.pb.go:304-341 | exact bytes at the tail, nothing else changed |
| ProtoCodec.DepositMsg.Unmarshal | cosmos/x/evm/types/consensus.pb.go:616-805 | decodes onto the old message, or reports the error and leaves the complete fields before it and what a broken number accumulated, on every input |
| ProtoCodec.RequestsMsg.Size | cosmos/x/evm/types/consensus.pb.go:452-471 | the accumulating loops compute the length of the wire form |
| ProtoCodec.RequestsMsg.MarshalToSizedBuffer | cosmos/x/evm/types/consensus.pb.go:358-392 | nested messages written last to first, each behind its length and tag, give exactly the wire form; nothing else changes |
| ProtoCodec.RequestsMsg.Marshal | cosmos/x/evm/types/consensus.pb.go:343-351 | returns a new array holding exactly the wire form |
| ProtoCodec.RequestsMsg.Unmarshal | cosmos/x/evm/types/consensus.pb.go:806-923 | each nested message becomes a new object appended to the old lists; the result is the decoding of the input onto the old message, or its error with the complete elements and the broken one as far as it got |
| ProtoCodec.TransferPayload | cosmos/x/evm/types/tx.pb.go:449-457 | marshalling a message object and unmarshalling the bytes into a new one yields an equal object and no error |
| ProtoCodec.TransferRequests | cosmos/x/evm/types/consensus.pb.go:343-351 | the same for requests with any number of nested messages |
| ChainSpecs.ValidateMeansForksActivateInOrder | cosmos/app/types/chain.go:30-52 | a spec validates if and only if at no time a fork is active without its predecessor |
| ChainSpecs.VersionsFollowMatrix | cosmos/app/types/chain.go:8-20 | for a valid spec the two version functions follow the documented matrix at the latest active fork |
| ChainSpecs.ForksSwitchOnTime | cosmos/app/types/chain.go:54-91 | each fork changes the version it governs at its own second, not before and not after |
| ChainSpecs.NewPayloadNeverAhead | cosmos/app/types/chain.go:70-91 | newPayload's version is at most getPayload's at every time if and only if Amsterdam does not precede Osaka |
| ChainSpecs.VersionsMonotone | cosmos/app/types/chain.go:70-91 | later timestamps never select an older version |
| Timestamps.TimestampInsideWindow | cosmos/x/evm/keeper/keeper.go:150-154 | from the start height on and before a stop height, the timestamp is height + offset modulo 2^64, for every block time and stored timestamp |
| Timestamps.ProgressOutsideWindow | cosmos/x/evm/keeper/keeper.go:141-166 | without a window, below its start and from its stop on, the computed timestamp exceeds the stored one if and only if the stored one is not the last uint64 |
| Timestamps.LeastLaterTimestamp | cosmos/x/evm/keeper/keeper.go:156-165 | outside the window, for every block time, the result is the least timestamp later than the stored one and not before the (offset) clock modulo 2^64; after the last uint64 it is 0 |
| Keeper.ExpectedFollowsTheClock | cosmos/x/evm/keeper/keeper.go:141-148 | without a window the expected timestamp is the block's time, or one more than a stored timestamp that is not earlier |
| Keeper.ExpectedFollowsTheHeight | cosmos/x/evm/keeper/keeper.go:150-154 | in the window it is the height of the block plus the offset |
| Runs.WindowRun | cosmos/x/evm/keeper/msg_server.go:192-210 | over every run at window heights, in any order, with any engine and any proposals between: the expected payload passes the strict timestamp check if and only if its height's timestamp exceeds the one stored on entry and every one stored since |
| Runs.WindowRunProgress | cosmos/x/evm/keeper/msg_server.go:192-210 | at rising heights whose sums with the offset do not wrap: if and only if height + offset exceeds the timestamp stored on entry, and until then the stored state does not move |
| Runs.EarlyWindowStalls | cosmos/x/evm/keeper/keeper.go:150-154 | a window entered at height 11 on a stored timestamp of 100: no message, with any engine, changes state or calls the engine |
| Runs.WrappedWindowStalls | cosmos/x/evm/keeper/keeper.go:150-154 | a run whose offset makes the sum wrap: a later height exceeds the entry's timestamp and still fails the check |
| Retrying.LastAttempt | cosmos/x/evm/keeper/async.go:18-38 | if some attempt is conclusive or finds the context done, retry returns at the first such attempt |
| Retrying.DeadlineBoundsAttempts | cosmos/x/evm/keeper/async.go:18-38 | with sleeps of at least the retry delay and a deadline within the prepare timeout, the context is done after at most timeout/delay + 1 attempts |
| Keeper.ValidPayloadMeans | cosmos/x/evm/keeper/msg_server.go:139-213 | the chain of checks accepts exactly the module's own payloads that extend the stored block by one, carry the expected timestamp, and are later than the stored one |
| Keeper.CollectVersionedHashes | cosmos/x/evm/keeper/msg_server.go:216-249 | the loop collects the blob hashes of all transactions in order, and fails on an empty app hash, an undecodable transaction or more than six blobs |
| Keeper.BlobHashesConcat | cosmos/x/evm/keeper/msg_server.go:229-240 | the hashes of two lists of transactions stand one behind the other, and one undecodable transaction spoils all |
| Keeper.VersionedHashesMeans | cosmos/x/evm/keeper/msg_server.go:216-249 | a payload can be sent if and only if there is an app hash, every transaction decodes and there are at most six blobs |
| Keeper.MessageSucceedsIff | cosmos/x/evm/keeper/msg_server.go:40-136 | a message is handled without an error if and only if it is finalized with a valid, sendable payload, newPayload is answered VALID or SYNCING after errors only, forkchoice neither INVALID nor ACCEPTED after errors or ACCEPTED only, both before the context ends, and the store accepts the write; then the payload's block is stored |
| EvmNode.EvmKeeper.ExecutionPayload | cosmos/x/evm/keeper/msg_server.go:40-136 | for every sequence of engine answers and context ends: the new stored state, the calls made and the result are those of the two-phase specification; a failure leaves the state unchanged |
| EvmNode.EvmKeeper.RetrySendPayload | cosmos/x/evm/keeper/msg_server.go:68-88 | errors are retried until VALID or SYNCING, another status, or the end of the context; every call is recorded |
| EvmNode.EvmKeeper.RetryForkchoice | cosmos/x/evm/keeper/msg_server.go:101-118 | errors, among them ACCEPTED, are retried; INVALID fails; every call is recorded |
| EvmNode.EvmKeeper.RetryBuild | cosmos/x/evm/keeper/abci.go:89-115 | asks for a payload on the stored block until an answer, and yields the payload id of a VALID answer only |
| EvmNode.EvmKeeper.RetryFetch | cosmos/x/evm/keeper/abci.go:128-188 | the loop with its counter of consecutive unknown answers yields the first payload, or fails at the counter's limit or the end of the context |
| EvmNode.EvmKeeper.BuildPayload | cosmos/x/evm/keeper/abci.go:49-192 | the payload and the calls are those of the build specification; the stored state does not change |
| EvmNode.PrepareProposal | cosmos/app/proposal.go:88-118 | the block is the selected mempool transactions followed by the payload transaction; nothing happens at height 1 |
| Building.PollingIsBounded | cosmos/x/evm/keeper/abci.go:89-188 | both polls end for every sequence of answers, within 1002 calls in all, and within the time left after the build delay |
| Building.UnknownPayloadsEndPolling | cosmos/x/evm/keeper/abci.go:140-168 | polling ends no later than the 500th consecutive unknown-payload answer, wherever the streak begins |
| Building.GivingUpNeedsAFullStreak | cosmos/x/evm/keeper/abci.go:140-168 | polling gives up before the context ends only after 500 unknown-payload answers in a row |
| Building.AsksForWhatIsValid | cosmos/x/evm/keeper/abci.go:231-253 | every forkchoice call of a proposer names the stored block, carries its hash as randomness and the app hash as beacon root, and a payload obeys its attributes if and only if it meets the validators' expectations |
| Building.PayloadDeliveredIff | cosmos/x/evm/keeper/abci.go:89-188 | a payload is delivered if and only if forkchoice is answered VALID with an id, the build delay passes, and getPayload is answered with it, before the deadline and before 500 unknown answers in a row |
| Proposals.CheckQuorum | cosmos/app/proposal.go:149-160 | the vote loop computes the 64-bit check on the wrapped sums |
| Proposals.QuorumCheckIsExact | cosmos/app/proposal.go:149-160 | for non-negative powers with a total below 2^63 the check is "three times the committed power exceeds twice the total", or the doubled total has wrapped |
| Proposals.QuorumCheckIsModular | cosmos/app/proposal.go:149-160 | for any powers: the check compares the committed power with two thirds of the total after the committed power and twice the total have wrapped into the int64 range |
| Proposals.QuorumCheckWrapsAround | cosmos/app/proposal.go:158 | a commit without any committed power that passes the check |
| Proposals.UnanimousCommitFails | cosmos/app/proposal.go:158 | a commit with all power committed that fails the check |
| Proposals.QuorumIntersection | cosmos/app/proposal.go:149-160 | two commits that both pass share validators with more than a third of the power, while the doubled total fits an int64 |
| Proposals.NoIntersectionBeyond | cosmos/app/proposal.go:149-160 | for any powers whose doubled total wraps, up to a total of 2^63 - 2, a commit nobody signed passes, so two passing commits can share nothing |
| Proposals.ProcessProposal | cosmos/app/proposal.go:131-211 | the early-reject handler accepts if and only if the declarative conditions hold: in-size permitted transactions, the EVM payload last and only there, the cosmos limit, a quorum, a valid payload |
| Proposals.AcceptedBlockContents | cosmos/app/proposal.go:162-199 | an accepted block holds single-message transactions of allowed types and, last, an unsigned, fee-less payload transaction paid by the evm module that extends the stored block |
| Proposals.AcceptedIff | cosmos/app/proposal.go:131-211 | a block above height 1 is accepted if and only if it holds up to the limit of ordinary transactions and then one that carries a later payload extending the stored block, all within the size limit, on a last commit with a quorum |
| Proposals.FirstBlockIsEmpty | cosmos/app/proposal.go:131-140 | at height 1 nothing is proposed and nothing else is accepted |
| Proposals.PermittedMeans | cosmos/app/proposal.go:47-80 | an ordinary transaction is permitted if and only if it decodes to one message of an allowed type, whatever its memo, fee, signatures and payer |
| Proposals.PayloadTxMeans | cosmos/app/proposal.go:65-80 | a payload transaction is one unsigned payload message without memo or fee, paid by the evm module |
| Proposals.SelectIsPrefix | cosmos/app/proposal.go:96-106 | the proposer takes a prefix of the permitted mempool transactions, all of them or as many as there is room for |
| Proposals.CollectTxs | cosmos/app/proposal.go:96-106 | the loop with its break and continue computes that selection |
| Proposals.ProposalIsAccepted | cosmos/app/proposal.go:128-212 | there is a proposed block if and only if the engine delivered a payload of a permitted size, and it is accepted on the same state and header if and only if the payload obeys the attributes of the forkchoice calls, their timestamp moves forward, the last commit has a quorum and the chosen mempool transactions are within the size limit |
| Proposals.HonouringIsAccepted | cosmos/app/proposal.go:128-212 | the same in terms of what the validators expect |
| Proposals.OversizedTxSpoilsProposal | cosmos/app/proposal.go:96-106 | on any state time has moved past, an honest proposal is accepted over an empty mempool and rejected over one oversized transaction |
| Runs.RunIsAChain | cosmos/x/evm/keeper/msg_server.go:40-136 | over every run a step changes the stored state if and only if it handles a message without an error, and then replaces it by the payload it finalized, linked by hash, number and a strictly later timestamp |
| Runs.RunNeverGoesBack | cosmos/x/evm/keeper/msg_server.go:192-199 | over every run stored timestamps never fall, and equal timestamps mean the same block |
| Runs.HeightsCountAdvances | cosmos/x/evm/keeper/msg_server.go:183-190 | over every run numbers count the advances modulo 2^64, there are at most as many advances as the timestamp rose, and from a block whose number is at most its timestamp numbers never wrap |
| Runs.EngineAgreesBeforeAdvance | cosmos/x/evm/keeper/msg_server.go:68-133 | over every run a stored block appears only after newPayload for it, with the version of its timestamp, was answered VALID or SYNCING and then forkchoice to it on all three heads was answered neither INVALID nor ACCEPTED, in the calls of that step |
| Runs.ForkchoicesAreGrounded | cosmos/x/evm/keeper/abci.go:241-258 | over every run every forkchoice call, building or finalizing, whatever its answer, names one block as head, safe and finalized: the starting block or one the engine admitted earlier in the trace |
| Runs.CallsWithinLimits | cosmos/x/evm/keeper/msg_server.go:220-249 | over every run each newPayload call carries at most six blob hashes and a beacon root |
| Runs.ProposeEvents | cosmos/x/evm/keeper/abci.go:130-137 | a proposer builds on the stored block only, and each getPayload asks for the id an earlier forkchoice returned, with the version of the timestamp in its attributes |
| Runs.FetchesAreRouted | cosmos/x/evm/keeper/abci.go:128-137 | over every run each getPayload call in the trace asks for an id an earlier forkchoice call returned, with the version of the timestamp in its attributes |
| Runs.SendPhaseEvents | cosmos/x/evm/keeper/msg_server.go:256-271 | each newPayload call carries the version of the payload's timestamp, its hash, its blob hashes and the app hash as beacon root |
| Runs.VersionsNeverFall | cosmos/app/types/chain.go:70-91 | along the stored blocks of any run neither version falls, and newPayload's stays at or below getPayload's |
| Runs.AdmissionsNeverGoBack | cosmos/x/evm/keeper/msg_server.go:256-271 | over every run the newPayload calls that admit stored blocks never go back to an older version |
| Runs.AcceptedBlockFinalizesIff | cosmos/x/evm/keeper/proposal_server.go:28-45 | an accepted block can be finalized by some engine if and only if it passes the send checks; otherwise no engine behaviour advances the node, and none is called |
| Runs.UndecodableTxIsAccepted | cosmos/x/evm/keeper/msg_server.go:220-235 | on any state time has moved past, a block with an undecodable transaction is accepted and no engine behaviour finalizes it |
| Runs.ProposalIsStored | cosmos/app/proposal.go:88-212 | a proposal is accepted and then stored by a willing engine if and only if the engine that built it honoured the attributes, time moves forward, the last commit has a quorum, the transactions taken are in size and the payload can be sent; otherwise it is rejected or no engine stores it |
| Ledger.CallConserves | cosmos/app/upgrades.go:44-72 | a keeper call keeps the sum of all accounts equal to the supply, which moves by mints and burns only |
| Ledger.ExecConserves | cosmos/app/app.go:322-330 | the same for any list of calls stopped at any point |
| Hooks.TopUpDeficit | cosmos/app/upgrades.go:31-76 | minting, sending and delegating never raises a pool's deficit, wherever it stops |
| Hooks.RemoveResult | cosmos/app/upgrades.go:271-323 | a removal that does not panic leaves exactly one ledger: tombstoned, out of the index, paid out, jailed |
| Hooks.HookNeverRaisesDeficit | cosmos/app/block_hooks.go:198-211 | no hook on any non-panicking exit raises the deficit of either staking pool |
| Hooks.ReconcileIsExact | cosmos/app/upgrades.go:426-509 | an unhindered reconciliation raises each pool to the larger of balance and obligations, mints exactly the two shortfalls and touches nothing else |
| Hooks.ReconcileUnderFailures | cosmos/app/upgrades.go:426-509 | whatever fails, each pool rises by its own shortfall as far as it was computed, and a failure for one does not stop the other |
| Hooks.ReconcileIsIdempotent | cosmos/app/upgrades.go:423-425 | a second reconciliation changes nothing, even if hindered |
| HookRuns.HookMissing | cosmos/app/upgrades.go:176-197 | on any exit from any ledger with sound indexes, an unjailed validator lacks its power key if and only if it lacked it before and the hook does not heal that, or it is the one the add hook stored and failed to index |
| HookRuns.HookKeepsIndex | cosmos/app/upgrades.go:176-197 | no hook leaves a stale power key, and a complete index stays complete on an exit if and only if it is not the add hook's gap between storing and indexing |
| HookRuns.IndexGapIsReal | cosmos/app/upgrades.go:186-197 | an add hook that leaves its validator out of the power index |
| HookRuns.IndexGapIsRepaired | cosmos/app/upgrades.go:96-101 | a gap followed by an unjail hook whose top-up goes through: the index is complete again |
| HookRuns.HookKeepsRemoved | cosmos/app/upgrades.go:291-343 | a removed validator stays tombstoned, jailed and out of the index through any hook, even when another record shares its consensus key |
| HookRuns.HookKeepsBooks | cosmos/app/upgrades.go:347-410 | accounts add up to the supply after any hook, which moved by the mints and burns that took effect |
| HookRuns.RunNeverRaisesDeficit | cosmos/app/app.go:319-330 | over every sequence of hooks neither pool's deficit rises |
| HookRuns.RunKeepsBooks | cosmos/app/app.go:319-330 | over every sequence of hooks accounts add up to the supply, which moved by mints and burns alone |
| HookRuns.RunKeepsIndex | cosmos/app/app.go:319-330 | over every sequence of hooks the power index holds no key but the current one of an unjailed validator, and in the end all of those if and only if every key missing at the start and every gap left on the way was healed later |
| HookRuns.RunMissing | cosmos/app/app.go:319-330 | the same for each single validator |
| HookRuns.RemovalIsPermanent | cosmos/app/upgrades.go:291-318 | after a remove hook and any later hooks the validator is tombstoned, jailed and out of the index |
| HookRuns.UnjailSucceeds | cosmos/app/upgrades.go:83-142 | the whole ledger after a successful unjail: at least the target tokens, exactly the shortfall minted to the validator's pool, exactly the record behind the consensus key unjailed and its jail term over; the named validator is unjailed if and only if that key leads back to it |
| HookRuns.AddSucceeds | cosmos/app/upgrades.go:147-266 | the whole ledger after a successful add for a missing validator: a bonded, unjailed, indexed record with exactly the initial tokens, minted to the bonded pool, and the old signing info or a clean one |
| HookRuns.AddNeverTombstones | cosmos/app/upgrades.go:200-225 | wherever an add hook stops, the signing infos are the old ones, or those and a clean one for the new key |
| HookRuns.AddWithoutMinSelfDelegation | cosmos/app/upgrades.go:186-260 | without a positive MinSelfDelegation the hook fails and the minted tokens stay with the operator |
| HookRuns.RemoveSettles | cosmos/app/upgrades.go:347-410 | the whole ledger after a removal: exactly the tokens, capped by the pool, leave the right pool and are burned or reach the recipient, the record is zeroed and jailed, its key tombstoned and out of the index |
| HookSuccess.AddSucceedsIff | cosmos/app/upgrades.go:147-266 | an add hook for a missing validator succeeds if and only if it has a key, positive initial tokens and a positive MinSelfDelegation, and none of its calls is made to fail |
| HookSuccess.UnjailSucceedsIff | cosmos/app/upgrades.go:83-142 | an unjail hook succeeds if and only if the validator and the record behind its consensus key are jailed, the key has a signing info and is not tombstoned, and none of its calls is made to fail |
| HookSuccess.UnjailHitsAnother | cosmos/app/upgrades.go:83-142 | two records with one consensus key: the unjail of the first succeeds, leaves it jailed and unjails the second |
| HookSuccess.RemoveSucceedsIff | cosmos/app/upgrades.go:271-323 | a remove hook does not panic if and only if the validator has a record and a signing info, a payout that is due has a recipient that can receive it, and none of its calls is made to fail |
| HookSuccess.ExecSucceedsIff | cosmos/app/app.go:322-330 | any list of keeper calls succeeds if and only if each can take effect and none is made to fail |
| HookSuccess.NewValidatorCanBeUnjailed | cosmos/app/upgrades.go:200-225 | a validator added under a new key can be unjailed again once it gets jailed |
| HookSuccess.HookSucceedsIff | cosmos/app/block_hooks.go:198-211 | of each hook, exactly when it ends without an error or a panic |
| App.Application.SetValidatorBalance | cosmos/app/upgrades.go:31-76 | the three calls in order, stopping at the first error |
| App.Application.ExecuteUnjailing | cosmos/app/upgrades.go:83-142 | on live state, for every failing call: the specified program's ledger and result |
| App.Application.ExecuteAddValidator | cosmos/app/upgrades.go:147-266 | on live state, for every failing call: the specified program's ledger and result |
| App.Application.ExecuteRemoveValidator | cosmos/app/upgrades.go:271-323 | on live state: the specified program's ledger, or a panic |
| App.Application.TombstoneValidator | cosmos/app/upgrades.go:326-343 | tombstones once, fails without signing info |
| App.Application.HandleValidatorTokens | cosmos/app/upgrades.go:347-410 | burns or pays out the validator's tokens capped by the pool, and says whether it did |
| App.Application.SumTokens | cosmos/app/upgrades.go:436-447 | the loop over all records, in any order, sums the tokens per pool |
| App.Application.SumUnbonding | cosmos/app/upgrades.go:451-460 | the nested loop sums the positive entries of the delegations visited |
| App.Application.ExecuteReconcileStakingPools | cosmos/app/upgrades.go:426-509 | on live state, for every failing call: the specified top-ups |
| App.Application.PerformHook | cosmos/app/block_hooks.go:198-211 | dispatches to the hook's specification |
| App.Application.EndBlocker | cosmos/app/app.go:313-335 | unless a module's end-blocker fails, runs the hooks configured for the height in order, errors logged, until a panic |
| App.HooksRunInOrder | cosmos/app/app.go:319-330 | one more configured hook acts on the ledger the earlier ones of its height leave, and does nothing at other heights |
| App.LoadHooks | cosmos/app/block_hooks.go:61-98 | a height is listed if and only if it has hooks, with all of them in configuration order |
| App.Application.constructor | cosmos/app/block_hooks.go:61-98 | the application holds the configured hooks grouped by height |
| Notifier.UpgradeNotifier.MaybeLogNewPlan | cosmos/app/upgrade_logging.go:62-126 | emits and remembers as the step functions say, on every read result |
| Notifier.NotifierEmitsEachPlanOnce | cosmos/app/upgrade_logging.go:62-138 | over every trace a plan is emitted at a block if and only if it is shown, not yet due, and not the last one emitted since a block without a plan |
| Notifier.RepeatNeedsAReason | cosmos/app/upgrade_logging.go:91-100 | two emissions of one plan have another emission or a block without a plan between them |
| Notifier.PlanIsAnnouncedOrDue | cosmos/app/halt_logging.go:36-55 | a plan is announced exactly once until its height; from then on it is not, and the chain halts exactly if the height is not skipped and there is no handler |
| Notifier.NeverScheduledAndHalted | cosmos/app/halt_logging.go:36-55 | upgrade_scheduled and halt_triggered never come from the same block |

## Left out

- EvmNode.EvmKeeper.ExecutionPayload: covers every call that returns; a context without an end and an engine that only errs make the code retry forever
- EvmNode.EvmKeeper.RetrySendPayload: covers every call that returns, for the same reason
- EvmNode.EvmKeeper.RetryForkchoice: covers every call that returns, for the same reason
- Decoders read slices as values, so the aliasing of a sub-slice with its buffer is not modelled; nil and empty byte fields are one value
- The varint, length and skip loops the generator repeats for every field are one method each; the check behind the message loop that the index passed the end can never fire and has no counterpart
- HTTP, JSON-RPC, gRPC and JWT transport, and each request's own timeout inside a retry
- JSON, SDK transaction and EVM transaction encodings
- The SDK's own staking, slashing, bank and distribution logic beyond the contracts in `Ledger.Do`; delegator shares, rewards and the validator-set updates between hooks
- Panics while the configuration is read, and everything after a panic of the remove hook
- Log lines, the remembered getPayload version that only steers one, metrics and webhooks
- The other generated messages, which have the same shape
- Genesis import and export, the global fee module, IBC wiring, commands and the reth crates
