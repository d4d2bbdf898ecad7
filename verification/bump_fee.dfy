/** The `bumpfee` wallet command: replace an unconfirmed, BIP 125-signalling
    wallet transaction by a copy that pays a higher fee out of its single
    change output. Every check runs before the transaction is touched, and
    the first failing check decides the error. */
module BumpFee {
  import opened Wrappers
  import opened Transactions
  import FeeRate

  /** The wallet's own floor for the incremental relay fee, per 1000 bytes
      (`WALLET_INCREMENTAL_RELAY_FEE`). */
  const WalletIncrementalRelayFee: int := 5000

  /** What the wallet records about one of its transactions: the
      transaction, its depth in the main chain (`GetDepthInMainChain`), the
      `replaced_by_txid` annotation, whether every input spends a spendable
      wallet output (`IsAllFromMe`), and the summed value of those inputs
      (`GetDebit`). */
  datatype WalletTx = WalletTx(
    tx: Tx,
    depth: int,
    replacedBy: Option<Hash>,
    allFromMe: bool,
    debit: Amount)

  /** The wallet and mempool facts the command consults. */
  datatype WalletView = WalletView(
    locked: bool,                         // EnsureWalletIsUnlocked fails
    txs: map<Hash, WalletTx>,             // mapWallet
    spentByWallet: set<Hash>,             // HasWalletSpend
    mempoolDescendants: map<Hash, nat>,   // GetCountWithDescendants of mempool entries
    isChange: TxOut -> bool)              // IsChange

  /** Node policy and the collaborators that size and price a transaction. */
  datatype FeeEnv = FeeEnv(
    virtualSize: Tx -> nat,               // GetVirtualTransactionSize
    maxSignedSize: Tx -> Option<nat>,     // CalculateMaximumSignedTxSize; None when dummy signing fails
    txConfirmTarget: int,                 // nTxConfirmTarget
    requiredFee: nat -> Amount,           // CWallet::GetRequiredFee(size)
    minimumFee: (nat, int, bool) -> Amount, // GetMinimumFee(size, target, ignore payTxFee)
    incrementalRelayFee: int,             // ::incrementalRelayFee, per 1000 bytes
    maxTxFee: Amount,
    mempoolMinRate: int,                  // mempool.GetMinFee(..), per 1000 bytes
    dustThreshold: TxOut -> Amount)       // GetDustThreshold(::dustRelayFee)

  /** The optional `confTarget`, `totalFee` and `replaceable` fields. */
  datatype BumpOptions = BumpOptions(confTarget: Option<int>, totalFee: Option<Amount>, stayReplaceable: Option<bool>)

  datatype BumpError =
    | WalletLocked
    | UnknownTx
    | WalletDescendants
    | MempoolDescendants
    | AlreadyMined
    | NotReplaceable
    | AlreadyBumped(replacement: Hash)
    | ForeignInputs
    | MultipleChangeOutputs
    | NoChangeOutput
    | CannotSign
    | ConflictingOptions
    | InvalidConfTarget
    | TotalFeeBelowRequired(required: Amount)
    | TotalFeeBelowMinimum(minimum: Amount)
    | FeeAboveMaximum
    | RateBelowMempoolMinimum
    | ChangeTooSmall
    | NonPositiveDelta   // the process aborts on `assert(nDelta > 0)`

  /** The options after parsing: the estimation target, whether the caller
      chose it, the explicit total fee (0 when absent) and `replaceable`. */
  datatype ResolvedOptions = ResolvedOptions(confTarget: int, specifiedTarget: bool, totalFee: Amount, stayReplaceable: bool)

  /** A resolved fee and the per-kB rate it is judged by. */
  datatype FeeDecision = FeeDecision(fee: Amount, rate: int)

  /** The rewritten transaction and the fee it pays (dust included). */
  datatype Rebuilt = Rebuilt(tx: Tx, fee: Amount)

  datatype BumpResult = BumpResult(tx: Tx, oldFee: Amount, fee: Amount)

  // ---------------------------------------------------------------------
  // Finding the change output

  function ScanChange(outs: seq<TxOut>, isChange: TxOut -> bool, i: nat, found: Option<nat>): (r: Result<nat, BumpError>)
    requires i <= |outs|
    requires found.None? ==> forall k :: 0 <= k < i ==> !isChange(outs[k])
    requires found.Some? ==> found.value < i && isChange(outs[found.value])
    requires found.Some? ==> forall k :: 0 <= k < i && isChange(outs[k]) ==> k == found.value
    ensures r.Success? ==> r.value < |outs| && isChange(outs[r.value])
    ensures r.Success? ==> forall k :: 0 <= k < |outs| && isChange(outs[k]) ==> k == r.value
    ensures r == Failure(NoChangeOutput) <==> found.None? && forall k :: 0 <= k < |outs| ==> !isChange(outs[k])
    ensures r == Failure(MultipleChangeOutputs) <==>
              exists j, k :: 0 <= j < k < |outs| && isChange(outs[j]) && isChange(outs[k])
    ensures r.Success? || r == Failure(NoChangeOutput) || r == Failure(MultipleChangeOutputs)
    decreases |outs| - i
  {
    if i == |outs| then
      if found.None? then Failure(NoChangeOutput) else Success(found.value)
    else if isChange(outs[i]) then
      if found.Some? then Failure(MultipleChangeOutputs) else ScanChange(outs, isChange, i + 1, Some(i))
    else
      ScanChange(outs, isChange, i + 1, found)
  }

  /** The index of the one change output: refuses a transaction with
      several change outputs or none. */
  function FindChange(outs: seq<TxOut>, isChange: TxOut -> bool): (r: Result<nat, BumpError>)
    ensures r.Success? <==> exists j :: 0 <= j < |outs| && isChange(outs[j]) &&
                                      forall k :: 0 <= k < |outs| && isChange(outs[k]) ==> k == j
    ensures r.Success? ==> r.value < |outs| && isChange(outs[r.value])
    ensures r == Failure(NoChangeOutput) <==> forall k :: 0 <= k < |outs| ==> !isChange(outs[k])
    ensures r == Failure(MultipleChangeOutputs) <==>
              exists j, k :: 0 <= j < k < |outs| && isChange(outs[j]) && isChange(outs[k])
  {
    ScanChange(outs, isChange, 0, None)
  }

  // ---------------------------------------------------------------------
  // Eligibility

  /** The ordered eligibility gate: the wallet transaction and its change
      index, or the first check that fails. */
  function CheckEligibility(view: WalletView, txid: Hash): (r: Result<(WalletTx, nat), BumpError>)
    ensures r == Failure(WalletLocked) <==> view.locked
    ensures r == Failure(UnknownTx) <==> !view.locked && txid !in view.txs
    ensures r == Failure(WalletDescendants) <==>
              !view.locked && txid in view.txs && txid in view.spentByWallet
    ensures r == Failure(MempoolDescendants) <==>
              !view.locked && txid in view.txs && txid !in view.spentByWallet &&
              txid in view.mempoolDescendants && view.mempoolDescendants[txid] > 1
    ensures r == Failure(AlreadyMined) <==>
              !view.locked && txid in view.txs && txid !in view.spentByWallet &&
              (txid in view.mempoolDescendants ==> view.mempoolDescendants[txid] <= 1) &&
              view.txs[txid].depth != 0
    ensures r == Failure(NotReplaceable) <==>
              !view.locked && txid in view.txs && txid !in view.spentByWallet &&
              (txid in view.mempoolDescendants ==> view.mempoolDescendants[txid] <= 1) &&
              view.txs[txid].depth == 0 && !SignalsOptInRbf(view.txs[txid].tx)
    ensures r.Failure? && r.error.AlreadyBumped? <==>
              !view.locked && txid in view.txs && txid !in view.spentByWallet &&
              (txid in view.mempoolDescendants ==> view.mempoolDescendants[txid] <= 1) &&
              view.txs[txid].depth == 0 && SignalsOptInRbf(view.txs[txid].tx) &&
              view.txs[txid].replacedBy.Some?
    ensures r == Failure(ForeignInputs) <==>
              !view.locked && txid in view.txs && txid !in view.spentByWallet &&
              (txid in view.mempoolDescendants ==> view.mempoolDescendants[txid] <= 1) &&
              view.txs[txid].depth == 0 && SignalsOptInRbf(view.txs[txid].tx) &&
              view.txs[txid].replacedBy.None? && !view.txs[txid].allFromMe
    ensures r.Success? <==>
              !view.locked && txid in view.txs && txid !in view.spentByWallet &&
              (txid in view.mempoolDescendants ==> view.mempoolDescendants[txid] <= 1) &&
              view.txs[txid].depth == 0 && SignalsOptInRbf(view.txs[txid].tx) &&
              view.txs[txid].replacedBy.None? && view.txs[txid].allFromMe &&
              FindChange(view.txs[txid].tx.vout, view.isChange).Success?
    ensures r.Success? ==>
              r.value.0 == view.txs[txid] && r.value.1 < |r.value.0.tx.vout| &&
              view.isChange(r.value.0.tx.vout[r.value.1])
  {
    if view.locked then Failure(WalletLocked)
    else if txid !in view.txs then Failure(UnknownTx)
    else if txid in view.spentByWallet then Failure(WalletDescendants)
    else if txid in view.mempoolDescendants && view.mempoolDescendants[txid] > 1 then Failure(MempoolDescendants)
    else
      var wtx := view.txs[txid];
      if wtx.depth != 0 then Failure(AlreadyMined)
      else if !SignalsOptInRbf(wtx.tx) then Failure(NotReplaceable)
      else if wtx.replacedBy.Some? then Failure(AlreadyBumped(wtx.replacedBy.value))
      else if !wtx.allFromMe then Failure(ForeignInputs)
      else
        var n :- FindChange(wtx.tx.vout, view.isChange);
        Success((wtx, n))
  }

  // ---------------------------------------------------------------------
  // Options

  /** Option validation: `confTarget` and `totalFee` exclude each other, a
      target must be positive, and a total fee must reach the wallet's
      required fee for the maximum signed size. */
  function ParseOptions(opts: BumpOptions, defaultTarget: int, requiredFee: Amount): (r: Result<ResolvedOptions, BumpError>)
    ensures r == Failure(ConflictingOptions) <==> opts.confTarget.Some? && opts.totalFee.Some?
    ensures r == Failure(InvalidConfTarget) <==>
              opts.confTarget.Some? && opts.totalFee.None? && opts.confTarget.value <= 0
    ensures r == Failure(TotalFeeBelowRequired(requiredFee)) <==>
              opts.confTarget.None? && opts.totalFee.Some? && opts.totalFee.value < requiredFee
    ensures r.Success? ==> (r.value.specifiedTarget <==> opts.confTarget.Some?)
    ensures r.Success? && opts.confTarget.Some? ==> r.value.confTarget == opts.confTarget.value > 0 && r.value.totalFee == 0
    ensures r.Success? && opts.confTarget.None? ==> r.value.confTarget == defaultTarget
    ensures r.Success? && opts.totalFee.Some? ==> r.value.totalFee == opts.totalFee.value >= requiredFee
    ensures r.Success? && opts.totalFee.None? ==> r.value.totalFee == 0
    ensures r.Success? ==> r.value.stayReplaceable == (opts.stayReplaceable.None? || opts.stayReplaceable.value)
  {
    if opts.confTarget.Some? && opts.totalFee.Some? then Failure(ConflictingOptions)
    else if opts.confTarget.Some? && opts.confTarget.value <= 0 then Failure(InvalidConfTarget)
    else if opts.totalFee.Some? && opts.totalFee.value < requiredFee then Failure(TotalFeeBelowRequired(requiredFee))
    else
      var stay := if opts.stayReplaceable.Some? then opts.stayReplaceable.value else true;
      if opts.confTarget.Some? then Success(ResolvedOptions(opts.confTarget.value, true, 0, stay))
      else Success(ResolvedOptions(defaultTarget, false, if opts.totalFee.Some? then opts.totalFee.value else 0, stay))
  }

  // ---------------------------------------------------------------------
  // Fee resolution

  /** The larger of the wallet's and the node's incremental relay rates. */
  function WalletIncrement(env: FeeEnv): (rate: int)
    ensures rate >= WalletIncrementalRelayFee && rate >= env.incrementalRelayFee
    ensures rate == WalletIncrementalRelayFee || rate == env.incrementalRelayFee
  {
    if env.incrementalRelayFee > WalletIncrementalRelayFee then env.incrementalRelayFee else WalletIncrementalRelayFee
  }

  /** The smallest total fee an explicit `totalFee` may name: the old rate
      and the node's incremental rate, each applied to the maximum size. */
  function ExplicitMinimum(oldFee: Amount, txSize: nat, maxSize: nat, env: FeeEnv): Amount {
    FeeRate.GetFee(FeeRate.RateOf(oldFee, txSize), maxSize) + FeeRate.GetFee(env.incrementalRelayFee, maxSize)
  }

  /** The per-kB floor of the estimation path: the old rate plus one plus
      the wallet increment. */
  function EstimationFloor(oldFee: Amount, txSize: nat, env: FeeEnv): int {
    FeeRate.RateOf(oldFee, txSize) + 1 + WalletIncrement(env)
  }

  /** The new fee before the two caps: the explicit total fee, or the
      estimate raised to the floor rate when it falls below it. */
  function CandidateFee(oldFee: Amount, txSize: nat, maxSize: nat, o: ResolvedOptions, env: FeeEnv): (r: Result<FeeDecision, BumpError>)
    ensures o.totalFee > 0 ==>
              (r.Success? <==> o.totalFee >= ExplicitMinimum(oldFee, txSize, maxSize, env))
    ensures o.totalFee > 0 && r.Failure? ==> r.error == TotalFeeBelowMinimum(ExplicitMinimum(oldFee, txSize, maxSize, env))
    ensures o.totalFee > 0 && r.Success? ==>
              r.value.fee == o.totalFee && r.value.rate == FeeRate.RateOf(o.totalFee, maxSize)
    ensures o.totalFee <= 0 ==> r.Success? && r.value.rate >= EstimationFloor(oldFee, txSize, env)
    ensures o.totalFee <= 0 ==>
              var estimate := env.minimumFee(maxSize, o.confTarget, o.specifiedTarget);
              if FeeRate.RateOf(estimate, maxSize) < EstimationFloor(oldFee, txSize, env)
              then r == Success(FeeDecision(FeeRate.GetFee(EstimationFloor(oldFee, txSize, env), maxSize),
                                            EstimationFloor(oldFee, txSize, env)))
              else r == Success(FeeDecision(estimate, FeeRate.RateOf(estimate, maxSize)))
  {
    if o.totalFee > 0 then
      var minTotal := ExplicitMinimum(oldFee, txSize, maxSize, env);
      if o.totalFee < minTotal then Failure(TotalFeeBelowMinimum(minTotal))
      else Success(FeeDecision(o.totalFee, FeeRate.RateOf(o.totalFee, maxSize)))
    else
      var estimate := env.minimumFee(maxSize, o.confTarget, o.specifiedTarget);
      var rate := FeeRate.RateOf(estimate, maxSize);
      var floor := EstimationFloor(oldFee, txSize, env);
      if rate < floor then Success(FeeDecision(FeeRate.GetFee(floor, maxSize), floor))
      else Success(FeeDecision(estimate, rate))
  }

  /** The resolved fee: the candidate, refused when it exceeds `maxTxFee` or
      when its rate is below the mempool's minimum rate. */
  function ResolveFee(oldFee: Amount, txSize: nat, maxSize: nat, o: ResolvedOptions, env: FeeEnv): (r: Result<FeeDecision, BumpError>)
    ensures var c := CandidateFee(oldFee, txSize, maxSize, o, env);
            && (c.Failure? ==> r == c)
            && (c.Success? && c.value.fee > env.maxTxFee ==> r == Failure(FeeAboveMaximum))
            && (c.Success? && c.value.fee <= env.maxTxFee && c.value.rate < env.mempoolMinRate ==>
                  r == Failure(RateBelowMempoolMinimum))
            && (r.Success? <==> c.Success? && c.value.fee <= env.maxTxFee && c.value.rate >= env.mempoolMinRate)
            && (r.Success? ==> r == c)
    ensures r.Success? ==> r.value.fee <= env.maxTxFee && r.value.rate >= env.mempoolMinRate
  {
    var d :- CandidateFee(oldFee, txSize, maxSize, o, env);
    if d.fee > env.maxTxFee then Failure(FeeAboveMaximum)
    else if d.rate < env.mempoolMinRate then Failure(RateBelowMempoolMinimum)
    else Success(d)
  }

  // ---------------------------------------------------------------------
  // Rewriting the transaction

  /** Inputs with every sequence number below 0xfffffffe raised to it. */
  function MarkNonReplaceable(vin: seq<TxIn>): (r: seq<TxIn>)
    ensures |r| == |vin|
    ensures forall i :: 0 <= i < |vin| ==> r[i].prevout == vin[i].prevout
    ensures forall i :: 0 <= i < |vin| && vin[i].sequence < NonReplaceableSequence ==>
              r[i].sequence == NonReplaceableSequence
    ensures forall i :: 0 <= i < |vin| && vin[i].sequence >= NonReplaceableSequence ==> r[i] == vin[i]
  {
    if vin == [] then []
    else
      var first := if vin[0].sequence < NonReplaceableSequence
                   then TxIn(vin[0].prevout, NonReplaceableSequence) else vin[0];
      [first] + MarkNonReplaceable(vin[1..])
  }

  /** Pay `newFee` instead of `oldFee` out of change output `n`: fails when
      the change cannot cover the difference, and drops the output (adding
      its remainder to the fee) when what is left is at most dust. */
  function Rewrite(tx: Tx, n: nat, oldFee: Amount, newFee: Amount, dustThreshold: TxOut -> Amount, stayReplaceable: bool): (r: Result<Rebuilt, BumpError>)
    requires n < |tx.vout|
    ensures r == Failure(NonPositiveDelta) <==> newFee - oldFee <= 0
    ensures r == Failure(ChangeTooSmall) <==> newFee - oldFee > 0 && tx.vout[n].value < newFee - oldFee
    ensures r.Failure? ==> r == Failure(NonPositiveDelta) || r == Failure(ChangeTooSmall)
    ensures r.Success? ==> ValueOut(r.value.tx.vout) + r.value.fee == ValueOut(tx.vout) + oldFee
    ensures r.Success? ==> r.value.fee >= newFee > oldFee
    ensures r.Success? ==>
              var left := TxOut(tx.vout[n].value - (newFee - oldFee), tx.vout[n].script);
              if left.value <= dustThreshold(left)
              then r.value.tx.vout == tx.vout[..n] + tx.vout[n + 1..] && r.value.fee == newFee + left.value
              else r.value.tx.vout == tx.vout[..n] + [left] + tx.vout[n + 1..] && r.value.fee == newFee
    ensures r.Success? && stayReplaceable ==> r.value.tx.vin == tx.vin
    ensures r.Success? && !stayReplaceable ==> r.value.tx.vin == MarkNonReplaceable(tx.vin)
  {
    var delta := newFee - oldFee;
    if delta <= 0 then Failure(NonPositiveDelta)
    else if tx.vout[n].value < delta then Failure(ChangeTooSmall)
    else
      var left := TxOut(tx.vout[n].value - delta, tx.vout[n].script);
      var vin := if stayReplaceable then tx.vin else MarkNonReplaceable(tx.vin);
      ValueOutReplace(tx.vout, n, left);
      if left.value <= dustThreshold(left) then
        Success(Rebuilt(Tx(vin, tx.vout[..n] + tx.vout[n + 1..]), newFee + left.value))
      else
        Success(Rebuilt(Tx(vin, tx.vout[..n] + [left] + tx.vout[n + 1..]), newFee))
  }

  // ---------------------------------------------------------------------
  // The command

  /** `bumpfee txid options`, up to signing and committing the replacement. */
  function Bumpfee(view: WalletView, env: FeeEnv, txid: Hash, opts: BumpOptions): (r: Result<BumpResult, BumpError>)
    ensures CheckEligibility(view, txid).Failure? ==> r.Failure? && r.error == CheckEligibility(view, txid).error
    ensures r.Success? ==>
              && CheckEligibility(view, txid).Success?
              && txid in view.txs
              && var wtx := view.txs[txid];
              && r.value.oldFee == wtx.debit - ValueOut(wtx.tx.vout)
              && ValueOut(r.value.tx.vout) + r.value.fee == wtx.debit
              && r.value.fee > r.value.oldFee
              && |r.value.tx.vin| == |wtx.tx.vin|
              && (forall i :: 0 <= i < |wtx.tx.vin| ==> r.value.tx.vin[i].prevout == wtx.tx.vin[i].prevout)
    ensures r.Success? && (opts.stayReplaceable.None? || opts.stayReplaceable.value) ==>
              r.value.tx.vin == view.txs[txid].tx.vin
    ensures r.Success? && opts.stayReplaceable == Some(false) ==> !SignalsOptInRbf(r.value.tx)
  {
    var (wtx, n) :- CheckEligibility(view, txid);
    var txSize := env.virtualSize(wtx.tx);
    var maxSizeOpt := env.maxSignedSize(wtx.tx);
    if maxSizeOpt.None? then Failure(CannotSign)
    else
      var maxSize := maxSizeOpt.value;
      var o :- ParseOptions(opts, env.txConfirmTarget, env.requiredFee(maxSize));
      var oldFee := wtx.debit - ValueOut(wtx.tx.vout);
      var d :- ResolveFee(oldFee, txSize, maxSize, o, env);
      var b :- Rewrite(wtx.tx, n, oldFee, d.fee, env.dustThreshold, o.stayReplaceable);
      Success(BumpResult(b.tx, oldFee, b.fee))
  }
}

module BumpFeeProofs {
  import opened Wrappers
  import opened Transactions
  import FeeRate
  import opened BumpFee
  import opened Arithmetic

  /** The old rate, applied to a size at least the current one, covers the
      old fee up to the rounding of the rate: `1000 * oldFee < (oldRate + 1) * maxSize`. */
  lemma OldRateBound(oldFee: Amount, txSize: nat, maxSize: nat)
    requires 0 < txSize <= maxSize && oldFee >= 0
    ensures var oldRate := FeeRate.RateOf(oldFee, txSize);
            oldRate >= 0 && oldFee * 1000 < oldRate * maxSize + maxSize
  {
    var oldRate := FeeRate.RateOf(oldFee, txSize);
    assert oldFee * 1000 < (oldRate + 1) * txSize;
    MulMonotone(oldRate + 1, txSize, maxSize);
    assert (oldRate + 1) * maxSize == oldRate * maxSize + maxSize;
  }

  lemma SumExceeds(oldFee: int, g1: int, g2: int, maxSize: int, p: int)
    requires oldFee * 1000 < p + maxSize
    requires g1 * 1000 > p - 1000
    requires g2 >= maxSize >= 1
    ensures g1 + g2 > oldFee
  {
  }

  /** The explicit-fee minimum is strictly above the old fee. */
  lemma {:induction false} ExplicitMinimumExceedsOldFee(oldFee: Amount, txSize: nat, maxSize: nat, env: FeeEnv)
    requires 0 < txSize <= maxSize
    requires oldFee >= 0
    requires env.incrementalRelayFee >= 1000
    ensures ExplicitMinimum(oldFee, txSize, maxSize, env) > oldFee
  {
    var oldRate := FeeRate.RateOf(oldFee, txSize);
    OldRateBound(oldFee, txSize, maxSize);
    var g1 := FeeRate.GetFee(oldRate, maxSize);
    var g2 := FeeRate.GetFee(env.incrementalRelayFee, maxSize);
    FeeRate.GetFeeLowerBound(oldRate, maxSize);
    FeeRate.GetFeeLowerBound(env.incrementalRelayFee, maxSize);
    MulMonotone(maxSize, 1000, env.incrementalRelayFee);
    assert g2 >= maxSize;
    SumExceeds(oldFee, g1, g2, maxSize, oldRate * maxSize);
  }

  /** Paying the estimation floor for the maximum size is strictly above the old fee. */
  lemma {:induction false} FloorFeeExceedsOldFee(oldFee: Amount, txSize: nat, maxSize: nat, env: FeeEnv)
    requires 0 < txSize <= maxSize
    requires oldFee >= 0
    ensures FeeRate.GetFee(EstimationFloor(oldFee, txSize, env), maxSize) > oldFee
    ensures EstimationFloor(oldFee, txSize, env) * maxSize > oldFee * 1000 + 1000
  {
    var oldRate := FeeRate.RateOf(oldFee, txSize);
    OldRateBound(oldFee, txSize, maxSize);
    var floor := EstimationFloor(oldFee, txSize, env);
    var w := WalletIncrement(env);
    MulMonotone(maxSize, 5000, w);
    assert floor * maxSize == oldRate * maxSize + maxSize + w * maxSize;
    var fee := FeeRate.GetFee(floor, maxSize);
    FeeRate.GetFeeLowerBound(floor, maxSize);
  }

  /** An estimate whose rate already reaches the floor is strictly above the old fee. */
  lemma {:induction false} EstimateExceedsOldFee(oldFee: Amount, txSize: nat, maxSize: nat, estimate: Amount, env: FeeEnv)
    requires 0 < txSize <= maxSize
    requires oldFee >= 0
    requires FeeRate.RateOf(estimate, maxSize) >= EstimationFloor(oldFee, txSize, env)
    ensures estimate > oldFee
  {
    var rate := FeeRate.RateOf(estimate, maxSize);
    var floor := EstimationFloor(oldFee, txSize, env);
    FloorFeeExceedsOldFee(oldFee, txSize, maxSize, env);
    assert estimate >= 0;
    MulMonotone(maxSize, floor, rate);
    assert rate * maxSize <= estimate * 1000;
  }

  /** Every fee the resolution step can produce is strictly above the old
      fee, once sizes are positive, the maximum size is at least the current
      size, the old fee is not negative and the node's incremental rate is at
      least 1000 per kB: the assertion `nDelta > 0` cannot fail. */
  lemma {:induction false} CandidateExceedsOldFee(oldFee: Amount, txSize: nat, maxSize: nat, o: ResolvedOptions, env: FeeEnv)
    requires 0 < txSize <= maxSize
    requires oldFee >= 0
    requires env.incrementalRelayFee >= 1000
    ensures CandidateFee(oldFee, txSize, maxSize, o, env).Success? ==>
              CandidateFee(oldFee, txSize, maxSize, o, env).value.fee > oldFee
  {
    if o.totalFee > 0 {
      ExplicitMinimumExceedsOldFee(oldFee, txSize, maxSize, env);
    } else {
      var estimate := env.minimumFee(maxSize, o.confTarget, o.specifiedTarget);
      if FeeRate.RateOf(estimate, maxSize) < EstimationFloor(oldFee, txSize, env) {
        FloorFeeExceedsOldFee(oldFee, txSize, maxSize, env);
      } else {
        EstimateExceedsOldFee(oldFee, txSize, maxSize, estimate, env);
      }
    }
  }

  /** Under the same assumptions about sizes, rates and the old fee, the
      command never reaches the aborting assertion. */
  lemma BumpfeeNeverAborts(view: WalletView, env: FeeEnv, txid: Hash, opts: BumpOptions)
    requires env.incrementalRelayFee >= 1000
    requires txid in view.txs ==>
               var t := view.txs[txid];
               && 0 < env.virtualSize(t.tx)
               && (env.maxSignedSize(t.tx).Some? ==> env.maxSignedSize(t.tx).value >= env.virtualSize(t.tx))
               && t.debit >= ValueOut(t.tx.vout)
    ensures Bumpfee(view, env, txid, opts) != Failure(NonPositiveDelta)
  {
    var e := CheckEligibility(view, txid);
    if e.Success? {
      var wtx := view.txs[txid];
      var maxSizeOpt := env.maxSignedSize(wtx.tx);
      if maxSizeOpt.Some? {
        var maxSize := maxSizeOpt.value;
        var po := ParseOptions(opts, env.txConfirmTarget, env.requiredFee(maxSize));
        if po.Success? {
          var oldFee := wtx.debit - ValueOut(wtx.tx.vout);
          CandidateExceedsOldFee(oldFee, env.virtualSize(wtx.tx), maxSize, po.value, env);
        }
      }
    }
  }
}
