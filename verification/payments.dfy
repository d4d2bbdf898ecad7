/** Payment pre-validation in the wallet commands: the single-recipient send
    (`SendMoneyNew`), the multi-recipient `sendmany`, the option checks of
    `fundrawtransaction`, and the fixed-fee payload send (`SendWithOpreturn`).
    Coin selection, transaction creation and broadcasting are wallet
    collaborators and appear as parameters. */
module Payments {
  import opened Wrappers
  import opened Transactions

  /** A payment destination (`CTxDestination`), opaque. */
  type Dest = nat

  /** `CRecipient`: destination, amount and the subtract-fee-from-amount flag. */
  datatype Recipient = Recipient(dest: Dest, amount: Amount, subtractFee: bool)

  /** The fields of `CCoinControl` that these commands set. */
  datatype CoinControl = CoinControl(changeDest: Option<Dest>, minimumTotalFee: Amount, allowOtherInputs: bool)

  /** What is handed to `CreateTransaction`: the recipients, the address the
      coins must come from, the coin control (if any) and the payload of a
      data-carrier output (if any). */
  datatype CreateRequest = CreateRequest(
    recipients: seq<Recipient>,
    from: Dest,
    coinControl: Option<CoinControl>,
    payload: Option<seq<bv8>>)

  /** Result of `CreateTransaction`: created, or failed with the fee it
      found necessary and its reason. */
  datatype CreateOutcome = Created | CreateFailed(feeRequired: Amount, reason: string)

  /** The wallet collaborators. `commitTransaction` gives the reject reason
      when the commit fails. */
  datatype WalletServices = WalletServices(
    broadcastWithoutNetwork: bool,        // GetBroadcastTransactions() && !g_connman
    locked: bool,                         // EnsureWalletIsUnlocked fails
    addressBalance: Dest -> Amount,       // GetAddressBalance
    selectAddress: (Amount, Option<int>) -> Option<(Dest, Amount)>, // SelectAddress(target, minDepth)
    createTransaction: CreateRequest -> CreateOutcome,
    commitTransaction: CreateRequest -> Option<string>)

  datatype PayError =
    | InvalidAmount
    | InsufficientFunds
    | P2PDisabled
    | WalletLocked
    | InvalidAddress(name: string)
    | DuplicatedAddress(name: string)
    | FeeTooLow(feeRequired: Amount)
    | CreateError(reason: string)
    | CommitRejected(reason: string)
    | EmptyPayload
    | NoOutputs
    | ChangePositionOutOfBounds
    | DuplicatedPosition(pos: int)
    | NegativePosition(pos: int)
    | PositionTooLarge(pos: int)

  /** Hand a request to the creation and commit collaborators; a creation
      failure is reported as `createError`. */
  function Submit(ws: WalletServices, req: CreateRequest, createError: PayError): (r: Result<CreateRequest, PayError>)
    ensures r.Success? <==> ws.createTransaction(req).Created? && ws.commitTransaction(req).None?
    ensures r.Success? ==> r.value == req
    ensures ws.createTransaction(req).CreateFailed? ==> r == Failure(createError)
    ensures ws.createTransaction(req).Created? && ws.commitTransaction(req).Some? ==>
              r == Failure(CommitRejected(ws.commitTransaction(req).value))
  {
    if ws.createTransaction(req).CreateFailed? then Failure(createError)
    else if ws.commitTransaction(req).Some? then Failure(CommitRejected(ws.commitTransaction(req).value))
    else Success(req)
  }

  // ---------------------------------------------------------------------
  // SendMoneyNew

  /** The address paying and its balance: the given address, or the one the
      wallet selects for the amount. */
  function FundingSource(ws: WalletServices, value: Amount, from: Option<Dest>, minDepth: Option<int>): (r: Result<(Dest, Amount), PayError>)
    ensures from.Some? ==>
              (r.Success? <==> ws.addressBalance(from.value) >= value) &&
              (r.Success? ==> r.value == (from.value, ws.addressBalance(from.value)))
    ensures from.None? ==>
              (r.Success? <==> ws.selectAddress(value, minDepth).Some?) &&
              (r.Success? ==> r.value == ws.selectAddress(value, minDepth).value)
    ensures r.Failure? ==> r.error == InsufficientFunds
  {
    if from.Some? then
      var balance := ws.addressBalance(from.value);
      if value > balance then Failure(InsufficientFunds) else Success((from.value, balance))
    else
      var selected := ws.selectAddress(value, minDepth);
      if selected.None? then Failure(InsufficientFunds) else Success(selected.value)
  }

  /** `SendMoneyNew`: one payment of `value` to `dest`, from `from` or from an
      address the wallet selects. */
  function SendMoneyNew(ws: WalletServices, dest: Dest, value: Amount, subtractFee: bool, from: Option<Dest>): (r: Result<CreateRequest, PayError>)
    ensures r == Failure(InvalidAmount) <==> value <= 0
    ensures r == Failure(InsufficientFunds) <==>
              value > 0 &&
              (from.Some? ==> ws.addressBalance(from.value) < value) &&
              (from.None? ==> ws.selectAddress(value, None).None?)
    ensures r.Success? ==>
              && value > 0
              && r.value.recipients == [Recipient(dest, value, subtractFee)]
              && r.value.coinControl.None? && r.value.payload.None?
              && (from.Some? ==> r.value.from == from.value && value <= ws.addressBalance(from.value))
              && (from.None? ==> r.value.from == ws.selectAddress(value, None).value.0)
              && !ws.broadcastWithoutNetwork
              && ws.createTransaction(r.value).Created? && ws.commitTransaction(r.value).None?
  {
    if value <= 0 then Failure(InvalidAmount)
    else
      var (fromDest, balance) :- FundingSource(ws, value, from, None);
      if ws.broadcastWithoutNetwork then Failure(P2PDisabled)
      else
        var req := CreateRequest([Recipient(dest, value, subtractFee)], fromDest, None, None);
        var created := ws.createTransaction(req);
        var createError :=
          if created.CreateFailed? && !subtractFee && value + created.feeRequired > balance
          then FeeTooLow(created.feeRequired)
          else if created.CreateFailed? then CreateError(created.reason)
          else CreateError("");
        Submit(ws, req, createError)
  }

  // ---------------------------------------------------------------------
  // sendmany

  /** Sum of the amounts of the `address: amount` entries. */
  function TotalAmount(entries: seq<(string, Amount)>): Amount {
    if entries == [] then 0 else entries[0].1 + TotalAmount(entries[1..])
  }

  /** Sum of the recipients' amounts. */
  function RecipientTotal(recipients: seq<Recipient>): Amount {
    if recipients == [] then 0 else recipients[0].amount + RecipientTotal(recipients[1..])
  }

  /** Every entry names a valid address and a positive amount. */
  predicate ValidEntries(entries: seq<(string, Amount)>, parse: string -> Option<Dest>) {
    forall i :: 0 <= i < |entries| ==> parse(entries[i].0).Some? && entries[i].1 > 0
  }

  /** No two entries name the same destination, and none names one of `seen`. */
  predicate DistinctDests(entries: seq<(string, Amount)>, parse: string -> Option<Dest>, seen: set<Dest>)
    requires ValidEntries(entries, parse)
  {
    && (forall i :: 0 <= i < |entries| ==> parse(entries[i].0).value !in seen)
    && (forall i, j :: 0 <= i < j < |entries| ==> parse(entries[i].0) != parse(entries[j].0))
  }

  /** The recipient loop of `sendmany`: each entry must parse, must not
      repeat a destination and must carry a positive amount; its
      subtract-fee flag says whether its name is in `subtractFrom`. */
  function BuildRecipients(entries: seq<(string, Amount)>, subtractFrom: seq<string>,
                           parse: string -> Option<Dest>, seen: set<Dest>): (r: Result<seq<Recipient>, PayError>)
    ensures r.Success? <==> ValidEntries(entries, parse) && DistinctDests(entries, parse, seen)
    ensures r.Success? ==> |r.value| == |entries| && RecipientTotal(r.value) == TotalAmount(entries)
    ensures r.Success? ==> forall i :: 0 <= i < |entries| ==>
              && r.value[i].dest == parse(entries[i].0).value
              && r.value[i].amount == entries[i].1
              && (r.value[i].subtractFee <==> entries[i].0 in subtractFrom)
    ensures r.Failure? ==> r.error.InvalidAddress? || r.error.DuplicatedAddress? || r.error == InvalidAmount
    decreases |entries|
  {
    if entries == [] then Success([])
    else
      var (name, amount) := entries[0];
      var dest := parse(name);
      if dest.None? then Failure(InvalidAddress(name))
      else if dest.value in seen then Failure(DuplicatedAddress(name))
      else if amount <= 0 then Failure(InvalidAmount)
      else
        var rest :- BuildRecipients(entries[1..], subtractFrom, parse, seen + {dest.value});
        assert forall i :: 1 <= i < |entries| ==> entries[i] == entries[1..][i - 1];
        var out := [Recipient(dest.value, amount, name in subtractFrom)] + rest;
        assert out[1..] == rest;
        Success(out)
  }

  /** `sendmany`: the account parameter is ignored; `fromAddress` and
      `changeAddress` may be empty strings. */
  function SendMany(ws: WalletServices, parse: string -> Option<Dest>, entries: seq<(string, Amount)>,
                    fromAddress: string, changeAddress: string, minDepth: int,
                    subtractFrom: seq<string>): (r: Result<CreateRequest, PayError>)
    ensures ws.broadcastWithoutNetwork ==> r == Failure(P2PDisabled)
    ensures r.Success? ==>
              && ValidEntries(entries, parse) && DistinctDests(entries, parse, {})
              && |r.value.recipients| == |entries|
              && RecipientTotal(r.value.recipients) == TotalAmount(entries)
              && (forall i :: 0 <= i < |entries| ==>
                    && r.value.recipients[i].dest == parse(entries[i].0).value
                    && r.value.recipients[i].amount == entries[i].1 > 0
                    && (r.value.recipients[i].subtractFee <==> entries[i].0 in subtractFrom))
              && (fromAddress != [] ==>
                    parse(fromAddress).Some? && r.value.from == parse(fromAddress).value &&
                    ws.addressBalance(r.value.from) >= TotalAmount(entries))
              && (fromAddress == [] ==>
                    ws.selectAddress(TotalAmount(entries), Some(minDepth)).Some? &&
                    r.value.from == ws.selectAddress(TotalAmount(entries), Some(minDepth)).value.0)
              && r.value.coinControl ==
                   Some(CoinControl(if changeAddress == [] then None else parse(changeAddress), 0, false))
    ensures !ws.broadcastWithoutNetwork && fromAddress != [] && parse(fromAddress).Some? &&
            (changeAddress != [] ==> parse(changeAddress).Some?) &&
            ValidEntries(entries, parse) && DistinctDests(entries, parse, {}) && !ws.locked &&
            ws.addressBalance(parse(fromAddress).value) < TotalAmount(entries) ==>
              r == Failure(InsufficientFunds)
  {
    if ws.broadcastWithoutNetwork then Failure(P2PDisabled)
    else if fromAddress != [] && parse(fromAddress).None? then Failure(InvalidAddress(fromAddress))
    else if changeAddress != [] && parse(changeAddress).None? then Failure(InvalidAddress(changeAddress))
    else
      var recipients :- BuildRecipients(entries, subtractFrom, parse, {});
      if ws.locked then Failure(WalletLocked)
      else
        var total := TotalAmount(entries);
        var source :- FundingSource(ws, total, if fromAddress != [] then parse(fromAddress) else None, Some(minDepth));
        var changeDest := if changeAddress == [] then None else parse(changeAddress);
        var req := CreateRequest(recipients, source.0, Some(CoinControl(changeDest, 0, false)), None);
        var createError := if ws.createTransaction(req).CreateFailed?
                           then CreateError(ws.createTransaction(req).reason) else CreateError("");
        Submit(ws, req, createError)
  }

  // ---------------------------------------------------------------------
  // fundrawtransaction option checks

  /** The `subtractFeeFromOutputs` loop: each position must be new,
      non-negative and below the output count. */
  function CheckPositions(positions: seq<int>, outputCount: nat, seen: set<int>): (r: Result<set<int>, PayError>)
    ensures r.Success? <==>
              (forall i :: 0 <= i < |positions| ==> 0 <= positions[i] < outputCount && positions[i] !in seen) &&
              (forall i, j :: 0 <= i < j < |positions| ==> positions[i] != positions[j])
    ensures r.Success? ==> r.value == seen + set i | 0 <= i < |positions| :: positions[i]
    ensures r.Failure? ==> r.error.DuplicatedPosition? || r.error.NegativePosition? || r.error.PositionTooLarge?
    decreases |positions|
  {
    if positions == [] then Success(seen)
    else
      var pos := positions[0];
      if pos in seen then Failure(DuplicatedPosition(pos))
      else if pos < 0 then Failure(NegativePosition(pos))
      else if pos >= outputCount then Failure(PositionTooLarge(pos))
      else
        var rest := positions[1..];
        assert forall i :: 1 <= i < |positions| ==> positions[i] == rest[i - 1];
        var r :- CheckPositions(rest, outputCount, seen + {pos});
        var all := set i | 0 <= i < |positions| :: positions[i];
        var tail := set i | 0 <= i < |rest| :: rest[i];
        assert all == {pos} + tail by {
          forall x | x in all ensures x in {pos} + tail {
            var i :| 0 <= i < |positions| && positions[i] == x;
            if i > 0 { assert rest[i - 1] == x; }
          }
          forall x | x in tail ensures x in all {
            var i :| 0 <= i < |rest| && rest[i] == x;
            assert positions[i + 1] == x;
          }
        }
        Success(r)
  }

  /** Accepted positions are pairwise distinct and new, so the set they add
      to `seen` grows by exactly one member per position. */
  lemma {:induction false} CheckPositionsCount(positions: seq<int>, outputCount: nat, seen: set<int>)
    requires CheckPositions(positions, outputCount, seen).Success?
    ensures |CheckPositions(positions, outputCount, seen).value| == |seen| + |positions|
    decreases |positions|
  {
    if positions != [] {
      var pos := positions[0];
      CheckPositionsCount(positions[1..], outputCount, seen + {pos});
      assert |seen + {pos}| == |seen| + 1;
    }
  }

  /** The option checks of `fundrawtransaction` after decoding: at least one
      output, a change position of -1 or within 0..|outputs|, and valid
      subtract-fee positions. */
  function FundRawOptions(outputCount: nat, changePosition: int, subtractFeeFromOutputs: seq<int>): (r: Result<set<int>, PayError>)
    ensures r == Failure(NoOutputs) <==> outputCount == 0
    ensures r == Failure(ChangePositionOutOfBounds) <==>
              outputCount > 0 && changePosition != -1 && (changePosition < 0 || changePosition > outputCount)
    ensures r.Success? <==>
              && outputCount > 0
              && (changePosition == -1 || 0 <= changePosition <= outputCount)
              && (forall i :: 0 <= i < |subtractFeeFromOutputs| ==> 0 <= subtractFeeFromOutputs[i] < outputCount)
              && (forall i, j :: 0 <= i < j < |subtractFeeFromOutputs| ==> subtractFeeFromOutputs[i] != subtractFeeFromOutputs[j])
    ensures r.Success? ==> r.value == set i | 0 <= i < |subtractFeeFromOutputs| :: subtractFeeFromOutputs[i]
  {
    if outputCount == 0 then Failure(NoOutputs)
    else if changePosition != -1 && (changePosition < 0 || changePosition > outputCount) then Failure(ChangePositionOutOfBounds)
    else CheckPositions(subtractFeeFromOutputs, outputCount, {})
  }

  // ---------------------------------------------------------------------
  // SendWithOpreturn

  /** A `uint64_t` stored into a signed 64-bit `CAmount`. */
  function AsAmount(x: nat): (a: Amount)
    requires x < 0x1_0000_0000_0000_0000
    ensures -0x8000_0000_0000_0000 <= a < 0x8000_0000_0000_0000
    ensures (a - x) % 0x1_0000_0000_0000_0000 == 0
  {
    if x < 0x8000_0000_0000_0000 then x else x - 0x1_0000_0000_0000_0000
  }

  /** `SendWithOpreturn`: pay the whole balance of `address` back to itself
      with the data-carrier `payload` attached and `fee` as the minimum total
      fee. `payload` is what `CreateOpReturn` produced for the application
      data. */
  function SendWithOpreturn(ws: WalletServices, address: Dest, fee: nat, payload: seq<bv8>): (r: Result<CreateRequest, PayError>)
    requires fee < 0x1_0000_0000_0000_0000
    ensures r == Failure(InsufficientFunds) <==> AsAmount(fee) > ws.addressBalance(address)
    ensures r == Failure(EmptyPayload) <==>
              AsAmount(fee) <= ws.addressBalance(address) && !ws.broadcastWithoutNetwork && payload == []
    ensures r.Success? ==>
              && payload != []
              && r.value.recipients == [Recipient(address, ws.addressBalance(address), false)]
              && r.value.from == address
              && r.value.coinControl == Some(CoinControl(None, AsAmount(fee), true))
              && r.value.payload == Some(payload)
              && AsAmount(fee) <= ws.addressBalance(address)
  {
    var balance := ws.addressBalance(address);
    var minimumTotalFee := AsAmount(fee);
    if minimumTotalFee > balance then Failure(InsufficientFunds)
    else if ws.broadcastWithoutNetwork then Failure(P2PDisabled)
    else if payload == [] then Failure(EmptyPayload)
    else
      var req := CreateRequest([Recipient(address, balance, false)], address,
                               Some(CoinControl(None, minimumTotalFee, true)), Some(payload));
      var createError := if ws.createTransaction(req).CreateFailed?
                         then CreateError(ws.createTransaction(req).reason) else CreateError("");
      Submit(ws, req, createError)
  }

  /** A fee of 2^63 or more reads as a negative `CAmount`, so the balance
      check never refuses it for an address with a non-negative balance. */
  lemma WrappedFeePassesFundsCheck(ws: WalletServices, address: Dest, fee: nat, payload: seq<bv8>)
    requires 0x8000_0000_0000_0000 <= fee < 0x1_0000_0000_0000_0000
    requires ws.addressBalance(address) >= 0
    ensures AsAmount(fee) < 0
    ensures SendWithOpreturn(ws, address, fee, payload) != Failure(InsufficientFunds)
  {
  }
}
