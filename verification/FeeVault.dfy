/** The fee-charging USDC vault: fee rounding, signed PnL, and what its four entry points do to the share price. */
module FeeVault {
  import opened MulDiv
  import opened SharePrice
  import opened ShareToken

  const MAX_FEE_BPS: nat := 500

  datatype Error = EnforcedPause | ExceededMax | InsufficientAllowance | InsufficientBalance | InvalidAccount
                 | TransferFailed | Unauthorized | FeeTooHigh | FeeRecipientRequired

  datatype State = State(
    self: Address, owner: Address, cash: nat, openPositionsValue: nat, realizedPnl: int,
    supply: nat, balances: map<Address, nat>, allowances: map<(Address, Address), nat>,
    entryFeeBps: nat, exitFeeBps: nat, feeRecipient: Address, depositCap: nat, paused: bool)

  datatype Op =
    | Deposit(assets: nat, receiver: Address, pulled: bool)
    | Mint(shares: nat, receiver: Address, pulled: bool)
    | Withdraw(assets: nat, receiver: Address, holder: Address)
    | Redeem(shares: nat, receiver: Address, holder: Address)
    | Transfer(to: Address, amount: nat)
    | TransferFrom(from: Address, to: Address, amount: nat)
    | Approve(spender: Address, amount: nat)
    | SetFeeConfig(entryFee: nat, exitFee: nat, recipient: Address)
    | UsdcArrives(amount: nat)

  datatype Outcome = Done(state: State, value: nat) | Revert(error: Error)

  // ----- fees -----

  /** The fee on top of a net amount. */
  function FeeOnRaw(assets: nat, bps: nat): nat {
    if bps == 0 then 0 else Ceil(assets, bps, BPS_DENOMINATOR)
  }

  /** The fee contained in a gross amount. */
  function FeeOnTotal(assets: nat, bps: nat): (fee: nat)
    ensures fee <= assets
  {
    if bps == 0 then 0
    else
      CeilGalois(assets, bps, bps + BPS_DENOMINATOR, assets);
      assert assets * bps <= assets * (bps + BPS_DENOMINATOR) by { assert assets * BPS_DENOMINATOR >= 0; }
      Ceil(assets, bps, bps + BPS_DENOMINATOR)
  }

  /** Adding the fee and then looking for it in the total finds the same fee, at every rate. */
  lemma FeesAgree(net: nat, bps: nat)
    ensures FeeOnTotal(net + FeeOnRaw(net, bps), bps) == FeeOnRaw(net, bps)
  {
    if bps > 0 {
      var f := FeeOnRaw(net, bps);
      var t, d := net + f, bps + BPS_DENOMINATOR;
      assert (f - 1) * BPS_DENOMINATOR < net * bps <= f * BPS_DENOMINATOR;
      assert t * bps == net * bps + f * bps;
      assert f * d == f * bps + f * BPS_DENOMINATOR;
      assert (f - 1) * d == f * bps - bps + (f - 1) * BPS_DENOMINATOR;
      CeilGalois(t, bps, d, f);
      CeilGalois(t, bps, d, f - 1);
    }
  }

  /** Taking the fee out of a total and putting one back on top never needs more than the total. */
  lemma NetPlusFeeFits(total: nat, bps: nat)
    ensures var net := total - FeeOnTotal(total, bps); net + FeeOnRaw(net, bps) <= total
  {
    if bps > 0 {
      var f := FeeOnTotal(total, bps);
      assert total * bps <= f * (bps + BPS_DENOMINATOR);
      hide Ceil, FeeOnTotal;
      NetFee(total, f, bps);
      CeilGalois(total - f, bps, BPS_DENOMINATOR, f);
    }
  }

  lemma NetFee(total: int, f: int, bps: int)
    requires total * bps <= f * (bps + BPS_DENOMINATOR)
    ensures (total - f) * bps <= f * BPS_DENOMINATOR
  {
    assert (total - f) * bps == total * bps - f * bps;
    assert f * (bps + BPS_DENOMINATOR) == f * bps + f * BPS_DENOMINATOR;
  }

  /** More gross never leaves less net. */
  lemma NetMonotone(t: nat, t': nat, bps: nat)
    requires t <= t'
    ensures t - FeeOnTotal(t, bps) <= t' - FeeOnTotal(t', bps)
  {
    if bps > 0 {
      var d, f := bps + BPS_DENOMINATOR, FeeOnTotal(t, bps);
      var more := t' - t;
      assert (f + more) * d == f * d + more * bps + more * BPS_DENOMINATOR;
      assert t' * bps == t * bps + more * bps;
      assert t * bps <= f * d;
      CeilGalois(t', bps, d, f + more);
    }
  }

  lemma RawFeeMonotone(a: nat, a': nat, bps: nat)
    requires a <= a'
    ensures FeeOnRaw(a, bps) <= FeeOnRaw(a', bps)
  {
    if bps > 0 { CeilMonotone(a, a', bps, BPS_DENOMINATOR); }
  }

  // ----- assets and previews -----

  /** Cash, open positions and signed PnL, before the clamp. */
  function Gross(s: State): int { s.cash + s.openPositionsValue + s.realizedPnl }

  function Clamped(gross: int): nat { if gross > 0 then gross else 0 }

  function TotalAssets(s: State): nat { Clamped(Gross(s)) }

  function SharesDown(s: State, assets: nat): nat { Floor(assets, s.supply + 1, TotalAssets(s) + 1) }
  function SharesUp(s: State, assets: nat): nat { Ceil(assets, s.supply + 1, TotalAssets(s) + 1) }
  function AssetsDown(s: State, shares: nat): nat { Floor(shares, TotalAssets(s) + 1, s.supply + 1) }
  function AssetsUp(s: State, shares: nat): nat { Ceil(shares, TotalAssets(s) + 1, s.supply + 1) }

  function PreviewDeposit(s: State, assets: nat): nat { SharesDown(s, assets - FeeOnTotal(assets, s.entryFeeBps)) }

  function PreviewMint(s: State, shares: nat): nat {
    var assets := AssetsUp(s, shares);
    assets + FeeOnRaw(assets, s.entryFeeBps)
  }

  function PreviewWithdraw(s: State, assets: nat): nat { SharesUp(s, assets + FeeOnRaw(assets, s.exitFeeBps)) }

  function PreviewRedeem(s: State, shares: nat): nat {
    var assets := AssetsDown(s, shares);
    assets - FeeOnTotal(assets, s.exitFeeBps)
  }

  function MaxDeposit(s: State): nat {
    if s.paused then 0
    else if s.depositCap == 0 then UINT256_MAX
    else if TotalAssets(s) >= s.depositCap then 0
    else Min(s.depositCap - TotalAssets(s), UINT256_MAX)
  }

  function MaxMint(s: State): nat {
    if s.paused then 0
    else if s.depositCap == 0 then UINT256_MAX
    else if TotalAssets(s) >= s.depositCap then 0
    else Min(SharesDown(s, s.depositCap - TotalAssets(s)), UINT256_MAX)
  }

  function MaxWithdraw(s: State, holder: Address): nat {
    if s.paused then 0 else AssetsDown(s, Balance(s.balances, holder))
  }

  function MaxRedeem(s: State, holder: Address): nat { if s.paused then 0 else Balance(s.balances, holder) }

  // ----- calls -----

  /** What leaves the vault as a fee: nothing while no recipient is set, and nothing if that is the vault. */
  function FeeLeaving(s: State, fee: nat): nat {
    if fee > 0 && s.feeRecipient != ZERO && s.feeRecipient != s.self then fee else 0
  }

  function Enter(s: State, assets: nat, shares: nat, receiver: Address, pulled: bool, value: nat): Outcome {
    if !pulled then Revert(TransferFailed)
    else if receiver == ZERO then Revert(InvalidAccount)
    else
      var fee := FeeOnTotal(assets, s.entryFeeBps);
      Done(s.(cash := s.cash + assets - FeeLeaving(s, fee),
              balances := Credit(s.balances, receiver, shares), supply := s.supply + shares), value)
  }

  function Spend(s: State, holder: Address, caller: Address, n: nat): State
    requires MaySpend(s.allowances, holder, caller, n)
  {
    if holder == caller then s else s.(allowances := Spent(s.allowances, holder, caller, n))
  }

  function Move(s: State, from: Address, to: Address, n: nat): Outcome {
    if from == ZERO || to == ZERO then Revert(InvalidAccount)
    else if n > Balance(s.balances, from) then Revert(InsufficientBalance)
    else Done(s.(balances := Credit(Debit(s.balances, from, n), to, n)), 1)
  }

  /** Shares burned, and the fee and the assets sent. */
  function TakenOut(s: State, caller: Address, fee: nat, assets: nat, shares: nat, receiver: Address,
                    holder: Address): State
    requires MaySpend(s.allowances, holder, caller, shares) && shares <= Balance(s.balances, holder)
    requires shares <= s.supply && FeeLeaving(s, fee) + assets <= s.cash
  {
    var out := if receiver == s.self then 0 else assets;
    Spend(s, holder, caller, shares)
    .(cash := s.cash - FeeLeaving(s, fee) - out,
      balances := Debit(s.balances, holder, shares), supply := s.supply - shares)
  }

  function Leave(s: State, caller: Address, assets: nat, shares: nat, receiver: Address, holder: Address,
                 value: nat): Outcome
  {
    var fee := FeeOnRaw(assets, s.exitFeeBps);
    if !MaySpend(s.allowances, holder, caller, shares) then Revert(InsufficientAllowance)
    else if holder == ZERO then Revert(InvalidAccount)
    else if shares > Balance(s.balances, holder) || shares > s.supply then Revert(InsufficientBalance)
    else if receiver == ZERO || FeeLeaving(s, fee) + assets > s.cash then Revert(TransferFailed)
    else Done(TakenOut(s, caller, fee, assets, shares, receiver, holder), value)
  }

  function Apply(s: State, caller: Address, op: Op): Outcome {
    match op
    case Deposit(assets, receiver, pulled) =>
      if s.paused then Revert(EnforcedPause)
      else if assets > MaxDeposit(s) then Revert(ExceededMax)
      else Enter(s, assets, PreviewDeposit(s, assets), receiver, pulled, PreviewDeposit(s, assets))
    case Mint(shares, receiver, pulled) =>
      if s.paused then Revert(EnforcedPause)
      else if shares > MaxMint(s) then Revert(ExceededMax)
      else Enter(s, PreviewMint(s, shares), shares, receiver, pulled, PreviewMint(s, shares))
    case Withdraw(assets, receiver, holder) =>
      if s.paused then Revert(EnforcedPause)
      else if assets > MaxWithdraw(s, holder) then Revert(ExceededMax)
      else Leave(s, caller, assets, PreviewWithdraw(s, assets), receiver, holder, PreviewWithdraw(s, assets))
    case Redeem(shares, receiver, holder) =>
      if s.paused then Revert(EnforcedPause)
      else if shares > MaxRedeem(s, holder) then Revert(ExceededMax)
      else Leave(s, caller, PreviewRedeem(s, shares), shares, receiver, holder, PreviewRedeem(s, shares))
    case Transfer(to, amount) => Move(s, caller, to, amount)
    case TransferFrom(from, to, amount) =>
      if amount > Allowance(s.allowances, from, caller) then Revert(InsufficientAllowance)
      else Move(s.(allowances := Spent(s.allowances, from, caller, amount)), from, to, amount)
    case Approve(spender, amount) =>
      if caller == ZERO || spender == ZERO then Revert(InvalidAccount)
      else Done(s.(allowances := s.allowances[(caller, spender) := amount]), 1)
    case SetFeeConfig(entryFee, exitFee, recipient) =>
      if caller != s.owner then Revert(Unauthorized)
      else if entryFee > MAX_FEE_BPS || exitFee > MAX_FEE_BPS then Revert(FeeTooHigh)
      else if (entryFee > 0 || exitFee > 0) && recipient == ZERO then Revert(FeeRecipientRequired)
      else Done(s.(entryFeeBps := entryFee, exitFeeBps := exitFee, feeRecipient := recipient), 0)
    case UsdcArrives(amount) => Done(s.(cash := s.cash + amount), 0)
  }

  datatype Call = Call(caller: Address, op: Op)

  function Step(s: State, call: Call): State {
    match Apply(s, call.caller, call.op)
    case Done(t, _) => t
    case Revert(_) => s
  }

  function Run(s: State, calls: seq<Call>): State
    decreases calls
  {
    if calls == [] then s else Run(Step(s, calls[0]), calls[1..])
  }

  // ----- the share price -----

  ghost function PriceOf(s: State): real { Price(TotalAssets(s), s.supply) }

  /** What an entry costs and what it issues, as the previews say. */
  function EntryCost(s: State, op: Op): nat
    requires op.Deposit? || op.Mint?
  {
    if op.Deposit? then op.assets else PreviewMint(s, op.shares)
  }

  function EntryShares(s: State, op: Op): nat
    requires op.Deposit? || op.Mint?
  {
    if op.Deposit? then PreviewDeposit(s, op.assets) else op.shares
  }

  /** The part of an entry's fee that stays in the vault: all of it when there is no recipient or that is the vault. */
  function FeeKept(s: State, op: Op): nat
    requires op.Deposit? || op.Mint?
  {
    var fee := FeeOnTotal(EntryCost(s, op), s.entryFeeBps);
    fee - FeeLeaving(s, fee)
  }

  /** What an entry is priced at. */
  lemma EntryAmounts(s: State, op: Op)
    requires op.Deposit? || op.Mint?
    ensures var net := EntryCost(s, op) - FeeOnTotal(EntryCost(s, op), s.entryFeeBps);
            && EntryShares(s, op) * (TotalAssets(s) + 1) <= net * (s.supply + 1)
            && (Gross(s) < 0 && EntryShares(s, op) > 0 ==> (net - 1) * (s.supply + 1) < EntryShares(s, op))
  {
    if op.Mint? { FeesAgree(AssetsUp(s, op.shares), s.entryFeeBps); }
  }

  /** A deposit or mint keeps the share price exactly when cash, open positions, PnL and the fee that stays are not
      below zero in total, or no shares are issued: below zero the clamp hides the loss from the newcomer. */
  lemma EntryKeepsPriceIff(s: State, caller: Address, op: Op)
    requires (op.Deposit? || op.Mint?) && Apply(s, caller, op).Done?
    ensures PriceOf(s) <= PriceOf(Apply(s, caller, op).state)
       <==> Gross(s) + FeeKept(s, op) >= 0 || EntryShares(s, op) == 0
  {
    EntryAmounts(s, op);
    EntryMoves(s, caller, op);
    var net := EntryCost(s, op) - FeeOnTotal(EntryCost(s, op), s.entryFeeBps);
    hide Apply, Floor, Ceil, FeeOnTotal;
    EntryPriceByNumbers(Gross(s), s.supply, net, FeeKept(s, op), EntryShares(s, op));
  }

  /** A vault 100 under water on 100 shares. */
  function Sunk(): State { State(1, 2, 0, 0, -100, 100, map[3 := 100], map[], 0, 0, 4, 0, false) }

  lemma SunkSells()
    ensures var o := Apply(Sunk(), 5, Deposit(1, 5, true)); o.Done? && o.value == 101 && o.state.supply == 201
    ensures Gross(Sunk()) == -100 && FeeKept(Sunk(), Deposit(1, 5, true)) == 0
    ensures EntryShares(Sunk(), Deposit(1, 5, true)) == 101
  {
    assert PreviewDeposit(Sunk(), 1) == 101;
  }

  /** For instance, such a vault sells 101 shares for 1. */
  lemma UnderWaterEntryLowersPrice()
    ensures var o := Apply(Sunk(), 5, Deposit(1, 5, true));
            o.Done? && o.value == 101 && PriceOf(o.state) < PriceOf(Sunk())
  {
    hide *;
    SunkSells();
    EntryKeepsPriceIff(Sunk(), 5, Deposit(1, 5, true));
  }

  lemma EntryMoves(s: State, caller: Address, op: Op)
    requires (op.Deposit? || op.Mint?) && Apply(s, caller, op).Done?
    ensures var t := Apply(s, caller, op).state;
            && Gross(t) == Gross(s) + EntryCost(s, op) - FeeOnTotal(EntryCost(s, op), s.entryFeeBps) + FeeKept(s, op)
            && t.supply == s.supply + EntryShares(s, op)
  {
    hide FeeOnTotal, PreviewDeposit, PreviewMint, MaxDeposit, MaxMint;
  }

  lemma EntryPriceByNumbers(gross: int, supply: nat, net: nat, kept: nat, minted: nat)
    requires minted * (Clamped(gross) + 1) <= net * (supply + 1)
    requires gross < 0 && minted > 0 ==> (net - 1) * (supply + 1) < minted
    ensures Price(Clamped(gross), supply) <= Price(Clamped(gross + net + kept), supply + minted)
       <==> gross + kept >= 0 || minted == 0
  {
    var before, after := Clamped(gross), Clamped(gross + net + kept);
    EntryPriceIff(before, supply, after - before, minted);
    hide Price;
    if gross >= 0 {
      assert (net + kept) * (supply + 1) == net * (supply + 1) + kept * (supply + 1);
    } else if minted == 0 {
      assert after * (supply + 1) >= 0;
    } else if gross + kept >= 0 {
      assert (after - net) * (supply + 1) == after * (supply + 1) - net * (supply + 1) >= 0;
    } else {
      UnderWater(gross + kept, supply, net, minted, after);
    }
  }

  lemma UnderWater(gross: int, supply: nat, net: nat, minted: nat, after: nat)
    requires gross < 0 && minted > 0 && minted <= net * (supply + 1) && (net - 1) * (supply + 1) < minted
    requires after == if gross + net > 0 then gross + net else 0
    ensures after * (supply + 1) < minted
  {
    assert net > 0;
    assert after <= net - 1;
    assert (net - 1 - after) * (supply + 1) == (net - 1) * (supply + 1) - after * (supply + 1);
  }

  /** An entry into a vault that is not under water keeps the price, and the vault afloat. */
  lemma EntryKeepsPrice(s: State, caller: Address, op: Op)
    requires (op.Deposit? || op.Mint?) && Gross(s) >= 0 && Apply(s, caller, op).Done?
    ensures var t := Apply(s, caller, op).state; PriceOf(s) <= PriceOf(t) && Gross(t) >= 0
  {
    EntryMoves(s, caller, op);
    EntryKeepsPriceIff(s, caller, op);
  }

  /** What an exit takes out at most, fee included, is worth no more than the shares it burns, and is there. */
  lemma ExitAmounts(s: State, op: Op)
    requires op.Withdraw? || op.Redeem?
    ensures var burned := if op.Withdraw? then PreviewWithdraw(s, op.assets) else op.shares;
            var paid := if op.Withdraw? then op.assets else PreviewRedeem(s, op.shares);
            var out := paid + FeeOnRaw(paid, s.exitFeeBps);
            && out * (s.supply + 1) <= burned * (TotalAssets(s) + 1)
            && (burned <= s.supply ==> out <= TotalAssets(s))
  {
    if op.Redeem? { NetPlusFeeFits(AssetsDown(s, op.shares), s.exitFeeBps); }
    var burned := if op.Withdraw? then PreviewWithdraw(s, op.assets) else op.shares;
    var paid := if op.Withdraw? then op.assets else PreviewRedeem(s, op.shares);
    var out := paid + FeeOnRaw(paid, s.exitFeeBps);
    OutIsWorthLess(s, op, burned, paid, out);
    hide Floor, Ceil;
    if burned <= s.supply { WithinAssets(out, burned, s.supply, TotalAssets(s)); }
  }

  lemma OutIsWorthLess(s: State, op: Op, burned: nat, paid: nat, out: nat)
    requires op.Withdraw? || op.Redeem?
    requires burned == if op.Withdraw? then PreviewWithdraw(s, op.assets) else op.shares
    requires paid == if op.Withdraw? then op.assets else PreviewRedeem(s, op.shares)
    requires out == paid + FeeOnRaw(paid, s.exitFeeBps)
    requires op.Redeem? ==> out <= AssetsDown(s, op.shares)
    ensures out * (s.supply + 1) <= burned * (TotalAssets(s) + 1)
  {
    if op.Redeem? { FloorGalois(op.shares, TotalAssets(s) + 1, s.supply + 1, out); }
  }

  lemma WithinAssets(out: nat, burned: nat, supply: nat, assets: nat)
    requires out * (supply + 1) <= burned * (assets + 1) && burned <= supply
    ensures out <= assets
  {
    assert (supply - burned) * (assets + 1) >= 0;
    assert (supply - burned) * (assets + 1) == supply * (assets + 1) - burned * (assets + 1);
    assert supply * (assets + 1) < (assets + 1) * (supply + 1) by {
      assert (assets + 1) * (supply + 1) == supply * (assets + 1) + assets + 1;
    }
    Cancel(out, assets + 1, supply + 1);
  }

  /** Leaving never lowers the price, not even from a vault under water: there nothing can be taken out. */
  lemma ExitKeepsPrice(s: State, caller: Address, op: Op)
    requires (op.Withdraw? || op.Redeem?) && Apply(s, caller, op).Done?
    ensures var t := Apply(s, caller, op).state;
            PriceOf(s) <= PriceOf(t) && (Gross(s) >= 0 ==> Gross(t) >= 0)
  {
    ExitAmounts(s, op);
    var t := Apply(s, caller, op).state;
    var paid := if op.Withdraw? then op.assets else PreviewRedeem(s, op.shares);
    var out := paid + FeeOnRaw(paid, s.exitFeeBps);
    hide Floor, Ceil;
    ExitPriceIff(TotalAssets(s), s.supply, out, s.supply - t.supply);
    MoreAssetsRaisePrice(TotalAssets(s) - out, TotalAssets(t), t.supply);
  }

  /** Over any run of entries, exits, fee changes and raw USDC arrivals from a vault that is not under water,
      at any fees and for any fee recipient, the share price never falls and the vault stays afloat. */
  lemma {:induction false} PriceNeverFalls(s: State, calls: seq<Call>)
    requires Gross(s) >= 0
    ensures PriceOf(s) <= PriceOf(Run(s, calls)) && Gross(Run(s, calls)) >= 0
    decreases calls
  {
    if calls != [] {
      StepKeepsPrice(s, calls[0]);
      PriceNeverFalls(Step(s, calls[0]), calls[1..]);
    }
  }

  lemma StepKeepsPrice(s: State, call: Call)
    requires Gross(s) >= 0
    ensures PriceOf(s) <= PriceOf(Step(s, call)) && Gross(Step(s, call)) >= 0
  {
    hide Enter, Leave, PriceOf;
    if Apply(s, call.caller, call.op).Done? {
      match call.op
      case Deposit(_, _, _) => EntryKeepsPrice(s, call.caller, call.op);
      case Mint(_, _, _) => EntryKeepsPrice(s, call.caller, call.op);
      case Withdraw(_, _, _) => ExitKeepsPrice(s, call.caller, call.op);
      case Redeem(_, _, _) => ExitKeepsPrice(s, call.caller, call.op);
      case UsdcArrives(_) => ArrivalKeepsPrice(s, call);
      case _ => OtherCallsKeepMoney(s, call);
    }
  }

  lemma ArrivalKeepsPrice(s: State, call: Call)
    requires Gross(s) >= 0 && call.op.UsdcArrives?
    ensures PriceOf(s) <= PriceOf(Step(s, call)) && Gross(Step(s, call)) >= 0
  {
    MoreAssetsRaisePrice(TotalAssets(s), TotalAssets(Step(s, call)), s.supply);
  }

  lemma OtherCallsKeepMoney(s: State, call: Call)
    requires call.op.Transfer? || call.op.TransferFrom? || call.op.Approve? || call.op.SetFeeConfig?
    ensures PriceOf(Step(s, call)) == PriceOf(s) && Gross(Step(s, call)) == Gross(s)
  {
    hide Price;
  }

  // ----- the ledger -----

  ghost predicate LedgerOk(s: State) { s.supply == Total(s.balances) }

  lemma BalanceWithinSupply(s: State, a: Address)
    requires LedgerOk(s)
    ensures Balance(s.balances, a) <= s.supply
  {
    BalanceWithinTotal(s.balances, a);
  }

  lemma EnterKeepsLedger(s: State, assets: nat, shares: nat, receiver: Address, pulled: bool, value: nat)
    requires LedgerOk(s)
    ensures var o := Enter(s, assets, shares, receiver, pulled, value); o.Done? ==> LedgerOk(o.state)
  {
    CreditTotal(s.balances, receiver, shares);
  }

  lemma LeaveKeepsLedger(s: State, caller: Address, assets: nat, shares: nat, receiver: Address, holder: Address,
                         value: nat)
    requires LedgerOk(s)
    ensures var o := Leave(s, caller, assets, shares, receiver, holder, value); o.Done? ==> LedgerOk(o.state)
  {
    if shares <= Balance(s.balances, holder) { DebitTotal(s.balances, holder, shares); }
  }

  lemma MoveKeepsLedger(s: State, from: Address, to: Address, n: nat)
    requires LedgerOk(s)
    ensures var o := Move(s, from, to, n); o.Done? ==> LedgerOk(o.state)
  {
    if n <= Balance(s.balances, from) {
      DebitTotal(s.balances, from, n);
      CreditTotal(Debit(s.balances, from, n), to, n);
    }
  }

  lemma StepKeepsLedger(s: State, call: Call)
    requires LedgerOk(s)
    ensures LedgerOk(Step(s, call))
  {
    hide Enter, Leave, Move, Total;
    match call.op
    case Deposit(assets, receiver, pulled) =>
      EnterKeepsLedger(s, assets, PreviewDeposit(s, assets), receiver, pulled, PreviewDeposit(s, assets));
    case Mint(shares, receiver, pulled) =>
      EnterKeepsLedger(s, PreviewMint(s, shares), shares, receiver, pulled, PreviewMint(s, shares));
    case Withdraw(assets, receiver, holder) =>
      var shares := PreviewWithdraw(s, assets);
      LeaveKeepsLedger(s, call.caller, assets, shares, receiver, holder, shares);
    case Redeem(shares, receiver, holder) =>
      LeaveKeepsLedger(s, call.caller, PreviewRedeem(s, shares), shares, receiver, holder, PreviewRedeem(s, shares));
    case Transfer(to, amount) => MoveKeepsLedger(s, call.caller, to, amount);
    case TransferFrom(from, to, amount) =>
      if amount <= Allowance(s.allowances, from, call.caller) {
        MoveKeepsLedger(s.(allowances := Spent(s.allowances, from, call.caller, amount)), from, to, amount);
      }
    case _ =>
  }

  /** Over any run, supply stays the sum of all balances. */
  lemma {:induction false} RunKeepsLedger(s: State, calls: seq<Call>)
    requires LedgerOk(s)
    ensures LedgerOk(Run(s, calls))
    decreases calls
  {
    if calls != [] {
      StepKeepsLedger(s, calls[0]);
      RunKeepsLedger(Step(s, calls[0]), calls[1..]);
    }
  }

  // ----- the previews against each other -----

  /** Minting what a deposit would give never costs more than the deposit. */
  lemma MintOfDepositCostsNoMore(s: State, assets: nat)
    ensures PreviewMint(s, PreviewDeposit(s, assets)) <= assets
  {
    var net := assets - FeeOnTotal(assets, s.entryFeeBps);
    ThereAndBack(net, s.supply + 1, TotalAssets(s) + 1, SharesDown(s, net));
    RawFeeMonotone(AssetsUp(s, SharesDown(s, net)), net, s.entryFeeBps);
    NetPlusFeeFits(assets, s.entryFeeBps);
  }

  /** Redeeming what a withdrawal would burn never pays less than the withdrawal. */
  lemma RedeemOfWithdrawPaysNoLess(s: State, assets: nat)
    ensures PreviewRedeem(s, PreviewWithdraw(s, assets)) >= assets
  {
    var total := assets + FeeOnRaw(assets, s.exitFeeBps);
    var shares := SharesUp(s, total);
    FloorGalois(shares, TotalAssets(s) + 1, s.supply + 1, total);
    FeesAgree(assets, s.exitFeeBps);
    NetMonotone(total, AssetsDown(s, shares), s.exitFeeBps);
  }

  // ----- the deposit cap -----

  /** What an entry lifts assets by: the priced amount and the fee that stays. */
  lemma EntryLifts(s: State, caller: Address, op: Op)
    requires (op.Deposit? || op.Mint?) && Apply(s, caller, op).Done?
    ensures Gross(Apply(s, caller, op).state)
         == Gross(s) + FeeKept(s, op)
            + if op.Mint? then AssetsUp(s, op.shares) else op.assets - FeeOnTotal(op.assets, s.entryFeeBps)
  {
    EntryMoves(s, caller, op);
    if op.Mint? { FeesAgree(AssetsUp(s, op.shares), s.entryFeeBps); }
  }

  /** A deposit that `maxDeposit` lets through ends within the cap, wherever its fee goes. */
  lemma DepositRespectsCap(s: State, caller: Address, op: Op)
    requires op.Deposit? && op.assets > 0 && s.depositCap > 0 && Apply(s, caller, op).Done?
    ensures TotalAssets(Apply(s, caller, op).state) <= s.depositCap
  {
    EntryLifts(s, caller, op);
    hide FeeOnTotal, PreviewDeposit;
  }

  /** A mint that `maxMint` lets through ends within the cap exactly when the cap also has room for the fee that stays
      in the vault: the view prices the shares alone. With no fee staying it always does. */
  lemma MintRespectsCapIff(s: State, caller: Address, op: Op)
    requires op.Mint? && op.shares > 0 && s.depositCap > 0 && Apply(s, caller, op).Done?
    ensures TotalAssets(Apply(s, caller, op).state) <= s.depositCap
       <==> Gross(s) + AssetsUp(s, op.shares) + FeeKept(s, op) <= s.depositCap
    ensures FeeKept(s, op) == 0 ==> TotalAssets(Apply(s, caller, op).state) <= s.depositCap
  {
    EntryLifts(s, caller, op);
    ThereAndBack(s.depositCap - TotalAssets(s), s.supply + 1, TotalAssets(s) + 1, op.shares);
    hide FeeOnTotal, FeeKept, PreviewMint, Floor, Ceil;
  }

  /** 100 shares on 100 assets under a cap of 200, and a 5 % entry fee that goes to the vault itself. */
  function OwnFees(): State { State(1, 2, 100, 0, 0, 100, map[3 := 100], map[], 500, 0, 1, 200, false) }

  /** For instance, minting the 100 shares `maxMint` allows there lifts 100 assets to 205. */
  lemma MintPassesCap()
    ensures MaxMint(OwnFees()) == 100
    ensures var o := Apply(OwnFees(), 5, Mint(100, 5, true));
            o.Done? && TotalAssets(o.state) == 205 && OwnFees().depositCap == 200
  {
    assert AssetsUp(OwnFees(), 100) == 100;
    assert PreviewMint(OwnFees(), 100) == 105;
    assert MaxMint(OwnFees()) == 100;
  }

  // ----- what the max views promise -----

  /** The shares a withdrawal burns are covered by the holder exactly when the amount and the fee on top of it
      fit what the shares are worth. */
  lemma WithdrawCoveredIff(s: State, holder: Address, assets: nat)
    requires !s.paused
    ensures PreviewWithdraw(s, assets) <= Balance(s.balances, holder) <==>
            assets + FeeOnRaw(assets, s.exitFeeBps) <= MaxWithdraw(s, holder)
  {
    var total := assets + FeeOnRaw(assets, s.exitFeeBps);
    CeilGalois(total, s.supply + 1, TotalAssets(s) + 1, Balance(s.balances, holder));
    FloorGalois(Balance(s.balances, holder), TotalAssets(s) + 1, s.supply + 1, total);
  }

  /** A withdrawal goes through exactly when the amount and the fee on top of it are within `maxWithdraw`, the cash
      covers the amount and the fee that leaves, the caller may spend the shares, and holder and receiver exist.
      `maxWithdraw` looks at neither fee nor cash, so it can promise too much for either reason. */
  lemma WithdrawIff(s: State, caller: Address, assets: nat, receiver: Address, holder: Address)
    requires LedgerOk(s)
    ensures var fee := FeeOnRaw(assets, s.exitFeeBps);
            Apply(s, caller, Withdraw(assets, receiver, holder)).Done? <==>
            && !s.paused && holder != ZERO && receiver != ZERO
            && MaySpend(s.allowances, holder, caller, PreviewWithdraw(s, assets))
            && assets + fee <= MaxWithdraw(s, holder) && FeeLeaving(s, fee) + assets <= s.cash
  {
    hide SharesUp, AssetsDown, FeeOnRaw;
    BalanceWithinSupply(s, holder);
    if !s.paused { WithdrawCoveredIff(s, holder, assets); }
  }

  /** A redemption goes through exactly when it is within `maxRedeem`, the cash covers what it pays and the fee that
      leaves, the caller may spend the shares, and holder and receiver exist. */
  lemma RedeemIff(s: State, caller: Address, shares: nat, receiver: Address, holder: Address)
    requires LedgerOk(s)
    ensures var paid := PreviewRedeem(s, shares);
            Apply(s, caller, Redeem(shares, receiver, holder)).Done? <==>
            && !s.paused && holder != ZERO && receiver != ZERO && MaySpend(s.allowances, holder, caller, shares)
            && shares <= MaxRedeem(s, holder) && FeeLeaving(s, FeeOnRaw(paid, s.exitFeeBps)) + paid <= s.cash
  {
    hide PreviewRedeem, FeeOnRaw;
    BalanceWithinSupply(s, holder);
  }

  /** For instance, with a 1 % exit fee a sole holder of 100 shares on 100 assets is promised 100 and refused it. */
  lemma MaxWithdrawIgnoresFee()
    ensures var s := State(1, 2, 100, 0, 0, 100, map[3 := 100], map[], 0, 100, 4, 0, false);
            MaxWithdraw(s, 3) == 100 && Apply(s, 3, Withdraw(100, 3, 3)) == Revert(InsufficientBalance)
  {
  }

  /** And with no fee at all, if the 100 assets are open positions, for lack of cash. */
  lemma MaxWithdrawIgnoresCash()
    ensures var s := State(1, 2, 0, 100, 0, 100, map[3 := 100], map[], 0, 0, 4, 0, false);
            MaxWithdraw(s, 3) == 100 && Apply(s, 3, Withdraw(100, 3, 3)) == Revert(TransferFailed)
  {
  }
}
