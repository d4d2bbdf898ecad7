# Wallet fee bumping, payments and the DPoS block schedule of lbtc-core

This project is a Dafny model of two parts of lbtc-core, a Bitcoin Core
fork that replaces proof of work by delegated proof of stake (DPoS).

**The wallet commands** (`src/wallet/rpcwallet.cpp`):
- `bumpfee` replaces an unconfirmed, BIP 125-signalling wallet transaction by
  one that pays a higher fee out of its single change output.
- `SendMoneyNew` and `sendmany` pay one or several recipients from a chosen
  or wallet-selected address.
- The option checks of `fundrawtransaction`.
- `SendWithOpreturn` pays an address's balance back to itself with a data
  payload and a fixed minimum fee.

**The miner** (`src/miner.cpp`):
- The DPoS schedule. Time after the start is cut into rounds ("loops") of
  `nMaxDelegateNumber` slots of `nBlockIntervalTime` seconds. The slot
  arithmetic is `GetLoopIndex` and `GetDelegateIndex`.
- The delegate shuffle (`GetRand`, `SortDelegate`) and the next round's
  list (`GetNextDelegates`).
- The delegate-id payload that the first block of a round carries in its
  coinbase (`DelegateInfoToScript`, `ScriptToDelegateInfo`).
- The consensus-side block check `CheckBlock` and the producer-side
  `IsMining`.
- The irreversible-block tracker (`ProcessIrreversibleBlock`,
  `AddIrreversibleBlock`, `GetIrreversibleBlock`,
  `IsValidBlockCheckIrreversibleBlock`).
- The resource guards of block assembly: the configured limits,
  `TestPackage`, `TestForBlock`, `AddToBlock`, `resetBlock` and
  `UpdateTime`.

## Layout

| file | module | contents |
|---|---|---|
| `wrappers.dfy` | `Wrappers` | `Option` and `Result` |
| `arithmetic.dfy` | `Arithmetic` | monotonicity of multiplication |
| `fee_rate.dfy` | `FeeRate` | `CFeeRate` with C++ truncating division |
| `transactions.dfy` | `Transactions` | inputs, outputs, BIP 125 signal, output sums |
| `bump_fee.dfy` | `BumpFee`, `BumpFeeProofs` | `bumpfee` and the proof that its `assert(nDelta > 0)` holds |
| `payments.dfy` | `Payments` | `SendMoneyNew`, `sendmany`, `fundrawtransaction` options, `SendWithOpreturn` |
| `delegates.dfy` | `Delegates` | shuffle, next-round list, delegate payload encode/decode |
| `irreversible.dfy` | `Irreversible` | the irreversible-block tracker |
| `dpos.dfy` | `Dpos` | slot arithmetic, `CheckBlock`, `IsMining` |
| `block_assembler.dfy` | `BlockAssembler` | assembler limits, package and transaction tests, `UpdateTime` |

## How the collaborators are modelled

Everything outside the modelled functions is a parameter. Each datatype
field comment names the C++ call it stands for. In particular:
- **Wallet collaborators** (`GetAddressBalance`, `SelectAddress`,
  `CreateTransaction`, `CommitTransaction`, `IsChange`, dummy signing, fee
  estimation, dust threshold) are fields of `WalletServices`, `WalletView`
  and `FeeEnv`.
- **The `rand_r` stream** seeded by the round time is the sequence `draws`.
- **The vote ledger's top delegates** are the argument `top`.
- **`GetBlockDelegates`** (a chain walk back to a round's first block)
  becomes `ChainView.roundDelegates`, and `GetNextDelegates(t)` becomes
  `ChainView.nextDelegates`.
- **Signature verification and `pubkey.GetID()`** are functions.
- **`IsOnTheSameChain`** is a function.
- **The clock** is `ChainView.now`.

Global state the C++ keeps in the `DPoS` singleton is passed in and
returned explicitly:
- `nDposStartTime` is the `startTime` argument and `BlockVerdict.startTime`.
- The tracker is `Irreversible.Tracker`.
- The function-local static `tLast` of `IsMining` is `lastTime`.

`CFeeRate` (from `amount.cpp`) is not part of this model as source. Its
formulas follow Bitcoin Core 0.14:
- the rate is `fee * 1000 / size` truncated toward zero, or 0 for size 0;
- `GetFee` is `rate * size / 1000` truncated, with a zero result replaced
  by ±1 when the size is non-zero.

`WALLET_INCREMENTAL_RELAY_FEE` is 5000 per kB, as in Bitcoin Core 0.14.

## Model

| member | source | states |
|---|---|---|
| FeeRate.TDiv | src/wallet/rpcwallet.cpp:2896 | the quotient brackets the dividend for both signs, as C++ truncating division does |
| FeeRate.RateOf | src/wallet/rpcwallet.cpp:2896 | for a positive size and non-negative fee, `rate * size <= 1000 * fee < (rate + 1) * size`; zero rate for a non-positive size |
| FeeRate.GetFee | src/wallet/rpcwallet.cpp:2908 | the fee is the product divided by 1000 and rounded down, and is never zero for a positive rate and size |
| FeeRate.GetFeeLowerBound | src/wallet/rpcwallet.cpp:2932-2934 | `1000 * GetFee(rate, size)` exceeds `rate * size - 1000` |
| Transactions.ValueOutAppend | src/wallet/rpcwallet.cpp:2895 | the output sum of a concatenation is the sum of the parts' sums |
| Transactions.ValueOutReplace | src/wallet/rpcwallet.cpp:2966-2971 | changing or removing one output changes the output sum by exactly that output's difference |
| BumpFee.ScanChange | src/wallet/rpcwallet.cpp:2839-2850 | the scan returns the unique change index, fails "multiple" exactly when two change outputs exist, and fails "none" exactly when there are none |
| BumpFee.FindChange | src/wallet/rpcwallet.cpp:2837-2850 | success exactly when exactly one output is change, which is the one returned; each failure is characterised both ways |
| BumpFee.CheckEligibility | src/wallet/rpcwallet.cpp:2801-2850 | each error (locked, unknown, wallet descendants, mempool descendants, mined, not BIP 125, already bumped, foreign inputs) holds exactly when its check is the first to fail; success returns the wallet entry and its change output |
| BumpFee.ParseOptions | src/wallet/rpcwallet.cpp:2856-2892 | `confTarget` and `totalFee` conflict; a target must be positive; a total fee below the required fee is refused; otherwise the resolved values are the ones given, or the defaults |
| BumpFee.WalletIncrement | src/wallet/rpcwallet.cpp:2902-2905 | the increment is the larger of 5000 and the node's incremental rate |
| BumpFee.CandidateFee | src/wallet/rpcwallet.cpp:2907-2936 | an explicit total fee is accepted exactly when it reaches the old-rate-plus-increment minimum; an estimate is raised to the floor rate (old rate + 1 + increment) when below it, so the resulting rate is never below the floor |
| BumpFee.ResolveFee | src/wallet/rpcwallet.cpp:2938-2953 | the fee is refused above `maxTxFee`, and its rate is refused below the mempool minimum, in that order; a success satisfies both bounds |
| BumpFee.MarkNonReplaceable | src/wallet/rpcwallet.cpp:2973-2978 | inputs keep their outpoints; sequence numbers below 0xfffffffe are raised to it and the others are kept |
| BumpFee.Rewrite | src/wallet/rpcwallet.cpp:2955-2978 | the difference is taken from the change output; a remainder at or below dust is dropped into the fee; inputs and outputs plus fee are conserved; the new fee is above the old |
| BumpFee.Bumpfee | src/wallet/rpcwallet.cpp:2795-2978 | eligibility errors come first; a success conserves the debit (outputs plus new fee), pays strictly more than the old fee, and keeps the inputs; with `replaceable: false` the replacement no longer signals BIP 125 |
| BumpFeeProofs.OldRateBound | src/wallet/rpcwallet.cpp:2895-2896 | the old rate applied to any size at least the current one covers the old fee up to the rate's rounding |
| BumpFeeProofs.ExplicitMinimumExceedsOldFee | src/wallet/rpcwallet.cpp:2908-2912 | the explicit-fee minimum is strictly above the old fee when the node's incremental rate is at least 1000 |
| BumpFeeProofs.FloorFeeExceedsOldFee | src/wallet/rpcwallet.cpp:2927-2935 | paying the floor rate for the maximum size is strictly above the old fee |
| BumpFeeProofs.EstimateExceedsOldFee | src/wallet/rpcwallet.cpp:2916-2932 | an estimate whose rate reaches the floor is strictly above the old fee |
| BumpFeeProofs.CandidateExceedsOldFee | src/wallet/rpcwallet.cpp:2907-2936 | every fee the resolution produces is strictly above the old fee |
| BumpFeeProofs.BumpfeeNeverAborts | src/wallet/rpcwallet.cpp:2957-2958 | with positive sizes, a maximum size at least the current size, a non-negative old fee and an incremental rate of at least 1000, `assert(nDelta > 0)` cannot fail |
| Payments.Submit | src/wallet/rpcwallet.cpp:390-400 | success exactly when creation and commit both succeed; a creation failure reports the caller's error; a commit failure reports the reject reason |
| Payments.FundingSource | src/wallet/rpcwallet.cpp:364-374 | a given address pays exactly when its balance covers the value; otherwise the wallet's selection decides; the only error is insufficient funds |
| Payments.SendMoneyNew | src/wallet/rpcwallet.cpp:358-401 | a non-positive amount is refused; insufficient funds is reported exactly when the source cannot cover it; a success sends one recipient from a covering source, and creation and commit succeeded |
| Payments.BuildRecipients | src/wallet/rpcwallet.cpp:976-1006 | success exactly when every entry parses, has a positive amount and names a fresh destination; recipients match the entries in order, with the same total, and are flagged to subtract the fee exactly when named in the list |
| Payments.SendMany | src/wallet/rpcwallet.cpp:943-1040 | no network refuses first; a success has valid, distinct, positive entries, a funding address that covers the total, and the change address in the coin control; a given source with too little balance is refused |
| Payments.CheckPositions | src/wallet/rpcwallet.cpp:2693-2702 | success exactly when the positions are distinct, non-negative, below the output count and not already seen; the result is the set of positions |
| Payments.CheckPositionsCount | src/wallet/rpcwallet.cpp:2693-2702 | the positions accepted are pairwise distinct and new, so the resulting set has one member per position beyond those already seen |
| Payments.FundRawOptions | src/wallet/rpcwallet.cpp:2687-2702 | no outputs is refused; a change position other than -1 outside 0..outputs is refused; otherwise the position checks decide, both ways |
| Payments.AsAmount | src/wallet/rpcwallet.cpp:3052 | a `uint64_t` stored into a signed 64-bit amount lands in range and is congruent modulo 2^64 |
| Payments.SendWithOpreturn | src/wallet/rpcwallet.cpp:3046-3089 | insufficient funds exactly when the fee, read as a signed amount, exceeds the balance; an empty payload is refused; a success pays the whole balance back to the address with the payload and the fee as the minimum |
| Payments.WrappedFeePassesFundsCheck | src/wallet/rpcwallet.cpp:3046-3056 | a `uint64_t` fee of 2^63 or more becomes a negative minimum fee, so the insufficient-funds check never refuses it for a non-negative balance |
| Delegates.AsChar | src/miner.cpp:894-905 | a stored index is a signed char; indices below 128 are kept |
| Delegates.DrawLoopIsPermutation | src/miner.cpp:894-910 | the draw loop, started from a partial permutation of distinct fresh indices, completes it to a permutation of `0..num-1` |
| Delegates.GetRandIsPermutation | src/miner.cpp:894-910 | for at most 128 entries, `GetRand` yields each index below `num` exactly once |
| Delegates.Pick | src/miner.cpp:916-919 | the result takes, in order, the entries the indices name |
| Delegates.SortDelegate | src/miner.cpp:912-921 | the shuffle has the input's length and succeeds exactly when the draw stream does |
| Delegates.PickPermutation | src/miner.cpp:912-921 | picking by an index permutation keeps the multiset of entries |
| Delegates.SortDelegateIsPermutation | src/miner.cpp:912-921 | the shuffled delegates are a permutation of the input |
| Delegates.Resize | src/miner.cpp:886 | the list is truncated or padded with default delegates (null key, no votes) to exactly `n` entries |
| Delegates.GetNextDelegates | src/miner.cpp:870-892 | the next list has `maxDelegates` entries and is a permutation of the super forger (7 votes) followed by the top delegates, resized |
| Delegates.SuperForgerIsScheduled | src/miner.cpp:881-889 | with room for one delegate, the super forger appears in every next-round list |
| Delegates.Flatten | src/miner.cpp:1003-1007 | the concatenated key ids take 20 bytes each |
| Delegates.ChunksFlatten | src/miner.cpp:1063-1069 | cutting the concatenation of key ids into 20-byte pieces gives back the key ids |
| Delegates.DelegateInfoToScript | src/miner.cpp:992-1023 | the script is `OP_RETURN`, key and signature pushes, and the payload push, which is `7` followed by 20 bytes per delegate, only when the list is not empty |
| Delegates.SizeMinusOne | src/miner.cpp:1062 | the `size_t` subtraction is exact for non-empty data and wraps to a value that is not a multiple of 20 for empty data |
| Delegates.DecodePayload | src/miner.cpp:1061-1072 | a payload whose length past the tag is a multiple of 20 decodes to one delegate per 20 bytes, in order, with no votes, as many as the 32-bit count holds; any other length decodes to none |
| Delegates.ScriptToDelegateInfo | src/miner.cpp:1025-1076 | a script not starting with `OP_RETURN` succeeds with no delegates; one with fewer than three elements fails; otherwise it succeeds exactly when the signature verifies (if checked) and the expected destination is the key's (if given), and a success with a fourth element yields that element's decoded delegates; a failure yields none |
| Delegates.PayloadDecodesToIds | src/miner.cpp:1061-1072 | a tag byte followed by key ids decodes to those key ids |
| Delegates.DelegatePayloadRoundTrip | src/miner.cpp:992-1076 | decoding an encoded delegate list gives back its key ids in order |
| Delegates.DecoderIgnoresTag | src/miner.cpp:1061-1072 | any tag byte in front of the key ids decodes the same |
| Irreversible.MinOf | src/miner.cpp:1512-1514 | the least height of a non-empty map |
| Irreversible.Evict | src/miner.cpp:1512-1514 | the smallest heights are erased until the map is below the bound; nothing else changes, and every erased height is below every kept one |
| Irreversible.AddIrreversibleBlock | src/miner.cpp:1510-1521 | the map stays within its bound and contains the height; an existing entry is not overwritten; every other key was there before |
| Irreversible.AddBelowBoundKeepsAll | src/miner.cpp:1510-1521 | below the bound, adding keeps every previous entry |
| Irreversible.EvictDropsFewest | src/miner.cpp:1512-1514 | at or above the bound, eviction keeps exactly bound - 1 entries |
| Irreversible.MaxOf | src/miner.cpp:1415 | the greatest height of a non-empty map |
| Irreversible.GetIrreversibleBlock | src/miner.cpp:1410-1419 | the highest irreversible block, as a `uint64_t` height, or (0, null) when there is none |
| Irreversible.IsValidBlockCheckIrreversibleBlock | src/miner.cpp:1490-1508 | a block is refused exactly when the tracker is on and a different hash is irreversible at its height |
| Irreversible.IrreversibleBlockIsValid | src/miner.cpp:1490-1521 | after adding, the added height accepts exactly the hash kept there (the earlier one if eviction left it, else the new one); a block valid at another height stays valid, and an unrecorded height accepts any hash |
| Irreversible.Restart | src/miner.cpp:1443-1447 | all slots are emptied except the first, which holds the new block |
| Irreversible.Scan | src/miner.cpp:1429-1487 | the scan keeps the slot array's size |
| Irreversible.ProcessIrreversibleBlock | src/miner.cpp:1421-1488 | a disabled tracker is unchanged; the slot arrays keep their size |
| Irreversible.ScanOutcome | src/miner.cpp:1429-1487 | the scan keeps the slots well ordered, places the new block above every other candidate, and either leaves the map unchanged or promotes exactly one candidate below the new block's height |
| Irreversible.ProcessIrreversibleBlockOutcome | src/miner.cpp:1421-1488 | for an enabled tracker, the tracker stays valid, the new block is placed, and the map is unchanged or gains one promoted candidate |
| BlockAssembler.U32 | src/miner.cpp:98-105 | the value modulo 2^32, unchanged when in range |
| BlockAssembler.Clamp | src/miner.cpp:116-119 | the value forced into the range, unchanged when inside |
| BlockAssembler.ConfigFor | src/miner.cpp:87-121 | the weight limit lies in 4000..max-4000 and the size limit in 1000..max-1000; size accounting is needed exactly when the size limit is below its maximum; a weight given alone disables it; in-range options are kept |
| BlockAssembler.SizeOnlyLimitsWeight | src/miner.cpp:102-106 | a size given without a weight limits the weight to four times the size |
| BlockAssembler.SizeOptionWeightWraps | src/miner.cpp:102-117 | a size of 2^30 wraps four times the size to 0 in 32 bits, so the weight limit falls to 4000 |
| BlockAssembler.ResetBlock | src/miner.cpp:124-140 | an empty block whose counters account for the coinbase reserve, with or without size accounting |
| BlockAssembler.TestPackage | src/miner.cpp:344-352 | passes exactly when the block weight plus four times the package size stays strictly below the maximum weight and the sigop cost plus the package's stays strictly below the sigop limit; an empty package passes exactly when the block has room |
| BlockAssembler.TestPackageIsAntitone | src/miner.cpp:344-352 | a package no larger in size and sigops than a passing one also passes |
| BlockAssembler.TestForBlock | src/miner.cpp:378-428 | the entry fits exactly when weight, size (when accounted), sigops and finality all pass; a pass changes nothing; a failure changes only the give-up counters, by at most one, and never unsets `blockFinished` |
| BlockAssembler.FinishedOnlyWhenNearlyFull | src/miner.cpp:380-419 | the block is marked finished only when nearly full or after more than 50 near misses |
| BlockAssembler.AddToBlock | src/miner.cpp:430-442 | the entry is appended and the counters stay the sums of the entries plus the coinbase reserve |
| BlockAssembler.AddKeepsWithinLimits | src/miner.cpp:378-442 | an entry that passes `TestForBlock` keeps the block within its weight, size and sigops limits once added |
| BlockAssembler.OfferKeepsInvariant | src/miner.cpp:378-442 | testing then adding keeps both the accounting and the limits |
| BlockAssembler.Offer | src/miner.cpp:378-442 | the entries are unchanged or gain exactly the offered entry |
| BlockAssembler.UpdateTime | src/miner.cpp:72-85 | the time moves to max(median time past + 1, adjusted time) only when that is later, stored in 32 bits; the delta is reported either way |
| BlockAssembler.UpdateTimeIsMonotone | src/miner.cpp:72-85 | the block time never decreases, and ends at least at the target |
| Dpos.GetLoopIndex | src/miner.cpp:955-962 | round 0 before the start |
| Dpos.GetDelegateIndex | src/miner.cpp:964-971 | slot 0 before the start |
| Dpos.SlotBounds | src/miner.cpp:955-971 | a time after the start lies in slot `idx < maxDelegates` of round `loop`, inside that slot's interval |
| Dpos.SlotOrderFollowsTime | src/miner.cpp:955-971 | a later time falls in a later round, or in the same round at the same or a later slot |
| Dpos.SignedCoinbaseCheck | src/miner.cpp:973-990 | a coinbase carrying the producer's script passes exactly when the signature verifies and the first output pays the signing key |
| Dpos.UnsignedCoinbasePasses | src/miner.cpp:973-990 | a second output not starting with `OP_RETURN` passes with no signature at all |
| Dpos.CheckCoinbase | src/miner.cpp:973-990 | a valid coinbase has two outputs, the first paying a destination; with those, it passes exactly when a second output starting with `OP_RETURN` has a key and a signature, the signature verifies over the block time, and the first output pays that key |
| Dpos.GetBlockDelegate | src/miner.cpp:1101-1120 | a failed read yields no delegates |
| Dpos.ForgerKey | src/miner.cpp:1078-1099 | the forger's key id when the coinbase pays a key |
| Dpos.CheckBlockDelegateAsWritten | src/miner.cpp:1122-1152 | passes exactly when the payload reads and either the lengths differ or the key ids agree |
| Dpos.CheckBlockDelegateCorrected | src/miner.cpp:1122-1152 | a pass means the block's key ids are the expected list's, and implies the as-written pass |
| Dpos.StartTimeFor | src/miner.cpp:1245-1247 | a known start time is kept |
| Dpos.CheckBlockWith | src/miner.cpp:1218-1309 | a block from the future is refused with the tracker unchanged; the tracker changes only for a delegate-checked block past the start height that passed the delegate check |
| Dpos.CheckBlock | src/miner.cpp:1218-1309 | the source's check, with the length-guarded delegate comparison: a block from the future, one with an unknown predecessor and one with an invalid coinbase are refused with the tracker unchanged; a genesis-linked block is accepted; the tracker changes only for a delegate-checked block past the start height that passed the as-written delegate check; the slot and forger rules are stated by `Dpos.CheckBlockRules` |
| Dpos.CheckBlockIntended | src/miner.cpp:1218-1309 | the same check with the intended delegate comparison; it accepts only blocks `Dpos.CheckBlock` accepts, with the same verdict |
| Dpos.CheckBlockRules | src/miner.cpp:1245-1309 | for both readings of the delegate check: before the start height only the super forger is accepted; a slot not after the previous block's is refused; an accepted block's forger is the delegate its round's list names for its slot |
| Dpos.CorrectedForgerIsScheduled | src/miner.cpp:1269-1309 | with the intended delegate check, an accepted round-opening block is forged by the delegate the expected list puts in its slot |
| Dpos.ExampleDecodes | src/miner.cpp:1101-1120 | the example block's payload decodes to the forger's single key id and its coinbase is valid |
| Dpos.AsWrittenAcceptsUnscheduledForger | src/miner.cpp:1122-1152 | the as-written check accepts a round-opening block whose forger is not the expected one; the intended check rejects it |
| Dpos.IsMining | src/miner.cpp:805-868 | before the start height only the super forger mines, at most once per interval; past it, only a key destination mines |
| Dpos.IsMiningFollowsSchedule | src/miner.cpp:805-868 | past the start height a key mines only in a slot after the tip's and only when the round's list names it there |
| Dpos.SuperForgerIsRateLimited | src/miner.cpp:808-820 | two successive positive decisions before the start height are at least an interval apart |
| Dpos.MinedBlockPassesCheck | src/miner.cpp:805-868 | within a round, a block forged when `IsMining` allows it passes `CheckBlock` with the same round list and start time |

## Left out

- I/O, logging, locks, reading and writing the tracker file
  (`ReadIrreversibleBlockInfo`, `WriteIrreversibleBlockInfo`), `Init` and
  the singleton: they carry no logic that the modelled functions decide on.
- Signing, committing and `MarkReplaced` after `bumpfee` rewrites the
  transaction; the result messages and RPC argument parsing of all the
  commands. These are wallet collaborators or presentation.
- `CreateNewBlock`, `addPackageTxs`, `addPriorityTxs`, `SortForBlock` and
  `TestPackageTransactions`: these walk the mempool. Only the limit tests
  they call are modelled, with `Offer` for one step of the fill loop.
- `FastCheckBlockHash`, `CheckBlockHeader` and the index-based
  `CheckBlock` overload: the first is a lookup table, and the last two
  only forward to the modelled checks.
- The `Vote` and `OpreturnModule` side effects of promoting a block
  (`Commit`, `DeleteInvalidVote`, the committee's and bills'
  `NewIrreversibleBlock`): those modules are not part of this model.
- The walk back to a round's first block in `GetBlockDelegates`, and the
  vote ledger behind `GetNextDelegates`, are parameters.
- 64-bit overflow of `CAmount` sums (`totalAmount` in `sendmany`, fees in
  `bumpfee`) and the `AmountFromValue` range check: amounts are unbounded
  integers. The one place a wrap matters to a guard, the `uint64_t` fee of
  `SendWithOpreturn`, is modelled (`AsAmount`).
- The `nBits` recomputation in `UpdateTime` on networks that allow
  minimum-difficulty blocks: it needs the proof-of-work code.
- Delegates.GetRandIsPermutation: only proved for at most 128 delegates,
  because larger indices wrap in the `char` vector; the model computes that
  wrap but does not state a property for it.
- Delegates.AsChar: assumes `char` is signed, as on x86. `GetRand` marks
  unused indices with `-1` in a `std::vector<char>` and tests `s[v] < 0`.
  Where `char` is unsigned (ARM and PowerPC Linux) the mark reads as 255,
  the test never holds, and `GetRand` never returns for `num >= 1`; the
  model does not cover that build.
- Delegates.DecodePayload: the payload round trip is proved for fewer
  than 2^32 delegates, the count a `uint32_t` holds; beyond it the
  decoder reads only the count modulo 2^32, which the model computes.
- Delegates.DrawLoop: a `rand_r` stream that never yields a missing index
  would loop forever in the C++; the model consumes a finite stream and
  returns None when it runs out.
- Irreversible.Scan: its own contract states only the sizes; the promotion
  property is `Irreversible.ScanOutcome`.
- Dpos.IsMining: the unchecked `delegates[nCurrentDelegateIndex]` read is
  modelled as a bounds test. `GetNextDelegates` always returns
  `maxDelegates` entries and the slot is below that, so the read is in
  range.
- BlockAssembler.Offer: the fill loop over a mempool (`addPackageTxs`) is
  not modelled, so only one step of it is.

## Findings

| source | as written | input that shows it | evidently intended | confidence | as-written member | corrected member |
|---|---|---|---|---|---|---|
| src/miner.cpp:1130-1139 | `CheckBlockDelegate` compares the block's delegate list with the expected list only when the two have the same length; a list of another length passes | a block opening a new round whose payload lists only its forger's key while the expected list has two other keys: `CheckBlock` accepts it, so any key can open a round and name the next round's forgers | the block's list equals the expected list, key for key, lengths included | not executed | Dpos.CheckBlockDelegateAsWritten (exhibited by Dpos.AsWrittenAcceptsUnscheduledForger) | Dpos.CheckBlockDelegateCorrected (property Dpos.CorrectedForgerIsScheduled; `Dpos.CheckBlockIntended` uses it, while `Dpos.CheckBlock` keeps the source's reading) |

## Notes on the source

- In `CheckBlock`, a round-opening block that passes the delegate check
  advances the irreversible tracker before its forger is checked. So a
  block that is then rejected can still promote a candidate.
  `Dpos.CheckBlockWith` keeps that order.
- A coinbase that pays a non-key destination gives the null key id as the
  forger. That matches a padded slot of a short delegate list, whose key is
  also null.
- In `bumpfee`, the new fee can exceed `maxTxFee` after the capped fee has
  been compared. This happens when the change output's dust remainder is
  added to the fee after the cap check. `BumpFee.Rewrite` states it.
- `nOldFeeRate.GetFee(maxNewTxSize)` can round below the old fee. The
  explicit minimum is still above the old fee only because the incremental
  part adds at least one per byte (`BumpFeeProofs.ExplicitMinimumExceedsOldFee`
  needs an incremental rate of at least 1000 per kB).
- `SendWithOpreturn` takes its fee as a `uint64_t` and stores it in a
  signed `CAmount`. A fee of 2^63 or more therefore becomes a negative
  minimum fee, and the insufficient-funds check lets it through
  (`Payments.WrappedFeePassesFundsCheck`).
- `CheckCoinbase` asks for a signature only when the second output starts
  with `OP_RETURN`: `ScriptToDelegateInfo` returns true for any other
  script. A coinbase whose second output is, say, empty passes with no
  signature, whatever key the first output pays
  (`Dpos.UnsignedCoinbasePasses`). Inside a round the forger check then
  compares only the paid key with the round's list, so a block that pays
  the scheduled delegate is accepted without that delegate's signature
  (`Dpos.MinedBlockPassesCheck` needs only that `CheckCoinbase` passes).
