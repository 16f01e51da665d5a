/** What each call of the fee vault does, account by account and field by field, and exactly when it is accepted, in
    terms of storage alone; then allowances over whole runs. */
module FeeVaultEffects {
  import opened MulDiv
  import opened ShareToken
  import opened FeeVault

  predicate Succeeds(s: State, call: Call) { Apply(s, call.caller, call.op).Done? }

  /** What an accepted call returns. */
  function Answer(s: State, call: Call): nat
    requires Succeeds(s, call)
  {
    Apply(s, call.caller, call.op).value
  }

  // ----- fees -----

  /** `fee` is `part` over `whole` of `amount`, rounded up. */
  predicate IsShare(fee: nat, amount: nat, part: nat, whole: nat) {
    (fee - 1) * whole < amount * part <= fee * whole
  }

  /** Fees leave for a recipient other than the vault, if one is set. */
  predicate FeesLeave(s: State) { s.feeRecipient != ZERO && s.feeRecipient != s.self }

  lemma FeeShares(amount: nat, bps: nat)
    ensures IsShare(FeeOnTotal(amount, bps), amount, bps, 10_000 + bps)
    ensures IsShare(FeeOnRaw(amount, bps), amount, bps, 10_000)
  {
  }

  // ----- entries -----

  /** What an accepted entry takes in, and the shares it issues. */
  function PaidIn(s: State, call: Call): nat
    requires Succeeds(s, call) && (call.op.Deposit? || call.op.Mint?)
  {
    if call.op.Deposit? then call.op.assets else Answer(s, call)
  }

  function Issued(s: State, call: Call): nat
    requires Succeeds(s, call) && (call.op.Deposit? || call.op.Mint?)
  {
    if call.op.Deposit? then Answer(s, call) else call.op.shares
  }

  /** An entry credits its receiver, and nobody else, with the shares; the cash grows by what was paid, less the fee if
      it leaves; nothing else moves. Net of the fee, a deposit issues the most shares its assets are worth, a mint takes
      the least assets its shares are worth. */
  lemma EntryEffect(s: State, call: Call) returns (fee: nat)
    requires (call.op.Deposit? || call.op.Mint?) && Succeeds(s, call)
    ensures var t, paid, n := Step(s, call), PaidIn(s, call), Issued(s, call);
            && IsShare(fee, paid, s.entryFeeBps, 10_000 + s.entryFeeBps) && fee <= paid
            && t == s.(balances := t.balances, supply := s.supply + n,
                       cash := s.cash + paid - if FeesLeave(s) then fee else 0)
            && forall a: Address ::
                 Balance(t.balances, a) == Balance(s.balances, a) + if a == call.op.receiver then n else 0
    ensures var net, n, assets, shares := PaidIn(s, call) - fee, Issued(s, call), TotalAssets(s) + 1, s.supply + 1;
            && n * assets <= net * shares
            && (call.op.Deposit? ==> net * shares < (n + 1) * assets)
            && (call.op.Mint? ==> (net - 1) * shares < n * assets)
  {
    var paid := PaidIn(s, call);
    fee := FeeOnTotal(paid, s.entryFeeBps);
    FeeShares(paid, s.entryFeeBps);
    if call.op.Mint? { FeesAgree(AssetsUp(s, call.op.shares), s.entryFeeBps); }
    hide MaxDeposit, MaxMint, TotalAssets, FeeOnTotal, FeeOnRaw;
  }

  /** An entry is accepted exactly by a running vault, from a payer who pays, for a receiver, and within the cap. */
  lemma EntryAcceptedIff(s: State, caller: Address, amount: nat, receiver: Address, pulled: bool)
    ensures Succeeds(s, Call(caller, Deposit(amount, receiver, pulled))) <==>
            && !s.paused && pulled && receiver != ZERO
            && (amount > 0 ==> if s.depositCap == 0 then amount <= UINT256_MAX
                               else amount <= UINT256_MAX && TotalAssets(s) + amount <= s.depositCap)
    ensures Succeeds(s, Call(caller, Mint(amount, receiver, pulled))) <==>
            && !s.paused && pulled && receiver != ZERO
            && (amount > 0 ==> if s.depositCap == 0 then amount <= UINT256_MAX
                               else
                                 && amount <= UINT256_MAX && TotalAssets(s) <= s.depositCap
                                 && amount * (TotalAssets(s) + 1) <= (s.depositCap - TotalAssets(s)) * (s.supply + 1))
  {
    if 0 < s.depositCap && TotalAssets(s) <= s.depositCap {
      FloorGalois(s.depositCap - TotalAssets(s), s.supply + 1, TotalAssets(s) + 1, amount);
    }
    hide PreviewDeposit, PreviewMint, TotalAssets, Floor;
  }

  // ----- exits -----

  /** What an accepted exit pays, and the shares it burns. */
  function PaidOut(s: State, call: Call): nat
    requires Succeeds(s, call) && (call.op.Withdraw? || call.op.Redeem?)
  {
    if call.op.Withdraw? then call.op.assets else Answer(s, call)
  }

  function Burned(s: State, call: Call): nat
    requires Succeeds(s, call) && (call.op.Withdraw? || call.op.Redeem?)
  {
    if call.op.Withdraw? then Answer(s, call) else call.op.shares
  }

  /** An exit debits its holder, and nobody else, with the shares, and takes payment and fee out of the cash, unless
      they go to the vault; nothing else but an allowance moves. `gross` is what the shares are priced at: the payment
      and the fee on it for a withdrawal, which burns the fewest shares worth that; for a redemption the most its shares
      are worth, of which it pays all but the fee contained in it. */
  lemma ExitEffect(s: State, call: Call) returns (fee: nat, gross: nat)
    requires (call.op.Withdraw? || call.op.Redeem?) && Succeeds(s, call)
    ensures var t, paid, n := Step(s, call), PaidOut(s, call), Burned(s, call);
            var out := (if FeesLeave(s) then fee else 0) + if call.op.receiver == s.self then 0 else paid;
            && IsShare(fee, paid, s.exitFeeBps, 10_000) && out <= s.cash && n <= s.supply
            && n <= Balance(s.balances, call.op.holder)
            && t == s.(balances := t.balances, allowances := t.allowances, supply := s.supply - n, cash := s.cash - out)
            && forall a: Address ::
                 Balance(t.balances, a) == Balance(s.balances, a) - if a == call.op.holder then n else 0
    ensures var paid, n, assets, shares := PaidOut(s, call), Burned(s, call), TotalAssets(s) + 1, s.supply + 1;
            && gross * shares <= n * assets && paid <= gross
            && (call.op.Withdraw? ==> gross == paid + fee && (n - 1) * assets < gross * shares)
            && (call.op.Redeem? ==>
                  && n * assets < (gross + 1) * shares
                  && IsShare(gross - paid, gross, s.exitFeeBps, 10_000 + s.exitFeeBps))
  {
    var paid := PaidOut(s, call);
    fee := FeeOnRaw(paid, s.exitFeeBps);
    gross := if call.op.Withdraw? then paid + fee else AssetsDown(s, call.op.shares);
    FeeShares(paid, s.exitFeeBps);
    ExitAnswers(s, call);
    ExitPrices(s, call.op, paid, Burned(s, call), fee, gross);
    hide Apply, TotalAssets, FeeOnRaw, AssetsDown, FeesLeave, IsShare, PreviewWithdraw, PreviewRedeem;
  }

  lemma ExitAnswers(s: State, call: Call)
    requires (call.op.Withdraw? || call.op.Redeem?) && Succeeds(s, call)
    ensures PaidOut(s, call) == if call.op.Withdraw? then call.op.assets else PreviewRedeem(s, call.op.shares)
    ensures Burned(s, call) == if call.op.Withdraw? then PreviewWithdraw(s, call.op.assets) else call.op.shares
    ensures var t, paid, n := Step(s, call), PaidOut(s, call), Burned(s, call);
            var out := (if FeesLeave(s) then FeeOnRaw(paid, s.exitFeeBps) else 0)
                       + if call.op.receiver == s.self then 0 else paid;
            && out <= s.cash && n <= s.supply && n <= Balance(s.balances, call.op.holder)
            && t == s.(balances := t.balances, allowances := t.allowances, supply := s.supply - n, cash := s.cash - out)
            && forall a: Address ::
                 Balance(t.balances, a) == Balance(s.balances, a) - if a == call.op.holder then n else 0
  {
    var paid := if call.op.Withdraw? then call.op.assets else PreviewRedeem(s, call.op.shares);
    var n := if call.op.Withdraw? then PreviewWithdraw(s, call.op.assets) else call.op.shares;
    hide MaxWithdraw, MaxRedeem, PreviewWithdraw, PreviewRedeem, Leave, FeesLeave;
    var o := Leave(s, call.caller, paid, n, call.op.receiver, call.op.holder, if call.op.Withdraw? then n else paid);
    assert o.Done? && Step(s, call) == o.state;
    LeaveMoves(s, call.caller, paid, n, call.op.receiver, call.op.holder, if call.op.Withdraw? then n else paid);
  }

  lemma ExitPrices(s: State, op: Op, paid: nat, n: nat, fee: nat, gross: nat)
    requires op.Withdraw? || op.Redeem?
    requires paid == if op.Withdraw? then op.assets else PreviewRedeem(s, op.shares)
    requires n == if op.Withdraw? then PreviewWithdraw(s, op.assets) else op.shares
    requires fee == FeeOnRaw(paid, s.exitFeeBps)
    requires gross == if op.Withdraw? then paid + fee else AssetsDown(s, op.shares)
    ensures var assets, shares := TotalAssets(s) + 1, s.supply + 1;
            && gross * shares <= n * assets && paid <= gross
            && (op.Withdraw? ==> (n - 1) * assets < gross * shares)
            && (op.Redeem? ==>
                  && n * assets < (gross + 1) * shares
                  && IsShare(gross - paid, gross, s.exitFeeBps, 10_000 + s.exitFeeBps))
  {
    FeeShares(gross, s.exitFeeBps);
    hide TotalAssets, FeeOnRaw, FeeOnTotal, IsShare;
  }

  lemma LeaveMoves(s: State, caller: Address, assets: nat, shares: nat, receiver: Address, holder: Address, value: nat)
    requires Leave(s, caller, assets, shares, receiver, holder, value).Done?
    ensures var t := Leave(s, caller, assets, shares, receiver, holder, value).state;
            var out := (if FeesLeave(s) then FeeOnRaw(assets, s.exitFeeBps) else 0)
                       + if receiver == s.self then 0 else assets;
            && Leave(s, caller, assets, shares, receiver, holder, value).value == value
            && out <= s.cash && shares <= s.supply && shares <= Balance(s.balances, holder)
            && t == s.(balances := t.balances, allowances := t.allowances, supply := s.supply - shares,
                       cash := s.cash - out)
            && forall a: Address ::
                 Balance(t.balances, a) == Balance(s.balances, a) - if a == holder then shares else 0
  {
    hide FeeOnRaw, Spent;
  }

  /** A withdrawal is accepted exactly by a running vault, for a holder and a receiver, when payment and fee fit what
      the holder's shares are worth and what the caller may spend, and what leaves fits the cash. */
  lemma WithdrawalAcceptedIff(s: State, caller: Address, assets: nat, receiver: Address, holder: Address, fee: nat)
    requires LedgerOk(s) && IsShare(fee, assets, s.exitFeeBps, 10_000)
    ensures var price, shares, gross := TotalAssets(s) + 1, s.supply + 1, assets + fee;
            Succeeds(s, Call(caller, Withdraw(assets, receiver, holder))) <==>
            && !s.paused && receiver != ZERO && holder != ZERO
            && assets + (if FeesLeave(s) then fee else 0) <= s.cash
            && gross * shares <= Balance(s.balances, holder) * price
            && (caller != holder ==> gross * shares <= Allowance(s.allowances, holder, caller) * price)
  {
    OneShare(fee, FeeOnRaw(assets, s.exitFeeBps), assets, s.exitFeeBps);
    WithdrawIff(s, caller, assets, receiver, holder);
    FloorGalois(Balance(s.balances, holder), TotalAssets(s) + 1, s.supply + 1, assets + fee);
    CeilGalois(assets + fee, s.supply + 1, TotalAssets(s) + 1, Allowance(s.allowances, holder, caller));
    hide Floor, Ceil, TotalAssets, FeeOnRaw, Apply, LedgerOk;
  }

  /** The rounded share is the only one. */
  lemma OneShare(fee: nat, fee': nat, amount: nat, bps: nat)
    requires IsShare(fee, amount, bps, 10_000) && fee' == FeeOnRaw(amount, bps)
    ensures fee == fee'
  {
    FeeShares(amount, bps);
  }

  /** And a redemption exactly when the holder has the shares, the caller may spend them, and payment and fee fit the
      cash: `paid` is what the shares are worth less the fee contained in it. */
  lemma RedemptionAcceptedIff(s: State, caller: Address, shares: nat, receiver: Address, holder: Address)
    returns (paid: nat, fee: nat, gross: nat)
    requires LedgerOk(s)
    ensures gross * (s.supply + 1) <= shares * (TotalAssets(s) + 1) < (gross + 1) * (s.supply + 1) && paid <= gross
    ensures IsShare(gross - paid, gross, s.exitFeeBps, 10_000 + s.exitFeeBps)
    ensures IsShare(fee, paid, s.exitFeeBps, 10_000)
    ensures Succeeds(s, Call(caller, Redeem(shares, receiver, holder))) <==>
            && !s.paused && receiver != ZERO && holder != ZERO && shares <= Balance(s.balances, holder)
            && (caller != holder ==> shares <= Allowance(s.allowances, holder, caller))
            && paid + (if FeesLeave(s) then fee else 0) <= s.cash
  {
    gross, paid := AssetsDown(s, shares), PreviewRedeem(s, shares);
    fee := FeeOnRaw(paid, s.exitFeeBps);
    FeeShares(gross, s.exitFeeBps);
    FeeShares(paid, s.exitFeeBps);
    RedeemIff(s, caller, shares, receiver, holder);
    hide Floor, TotalAssets, FeeOnRaw, FeeOnTotal, Apply, LedgerOk;
  }

  // ----- share transfers and settings -----

  /** A transfer is accepted exactly between accounts, of shares there are, and for somebody else within the allowance;
      it moves them and touches nothing else but the allowance. */
  lemma TransferEffect(s: State, call: Call)
    requires call.op.Transfer? || call.op.TransferFrom?
    ensures var from := if call.op.Transfer? then call.caller else call.op.from;
            && (Succeeds(s, call) <==>
                  && from != ZERO && call.op.to != ZERO && call.op.amount <= Balance(s.balances, from)
                  && (call.op.TransferFrom? ==> call.op.amount <= Allowance(s.allowances, from, call.caller)))
            && (Succeeds(s, call) ==>
                  var t := Step(s, call);
                  && t == s.(balances := t.balances, allowances := t.allowances)
                  && forall a: Address ::
                       Balance(t.balances, a)
                       == Balance(s.balances, a) - (if a == from then call.op.amount else 0)
                          + (if a == call.op.to then call.op.amount else 0))
  {
    hide Spent;
  }

  /** Fees change only by the owner's setter, to the values given: at most 5 % each, and with a recipient if there are
      any. */
  lemma FeesStep(s: State, call: Call)
    ensures var t, op := Step(s, call), call.op;
            (t.entryFeeBps, t.exitFeeBps, t.feeRecipient)
            == if call.caller == s.owner && op.SetFeeConfig? && op.entryFee <= 500 && op.exitFee <= 500
                  && (op.entryFee + op.exitFee > 0 ==> op.recipient != ZERO)
               then (op.entryFee, op.exitFee, op.recipient) else (s.entryFeeBps, s.exitFeeBps, s.feeRecipient)
  {
    hide MaxDeposit, MaxMint, MaxWithdraw, MaxRedeem, PreviewDeposit, PreviewMint, PreviewWithdraw, PreviewRedeem,
         Spent;
  }

  // ----- allowances -----

  /** Shares that `spender` takes out of `holder`'s account by one call, as the call and its answer say. */
  function Taken(s: State, call: Call, holder: Address, spender: Address): nat {
    if call.caller != spender || !Succeeds(s, call) then 0
    else match call.op
      case TransferFrom(from, _, amount) => if from == holder then amount else 0
      case Withdraw(_, _, h) => if h == holder && spender != holder then Answer(s, call) else 0
      case Redeem(shares, _, h) => if h == holder && spender != holder then shares else 0
      case _ => 0
  }

  predicate Approves(call: Call, holder: Address, spender: Address) {
    call.caller == holder && call.op.Approve? && call.op.spender == spender
  }

  /** What one call does to the allowance of every pair: an approval sets its own, and what a spender takes comes off
      its own, unless that is unlimited. */
  lemma AllowanceStep(s: State, call: Call, holder: Address, spender: Address)
    ensures var before, after := Allowance(s.allowances, holder, spender),
                                 Allowance(Step(s, call).allowances, holder, spender);
            if Approves(call, holder, spender) && Succeeds(s, call) then after == call.op.amount
            else if before == UINT256_MAX then after == before
            else Taken(s, call, holder, spender) <= before && after == before - Taken(s, call, holder, spender)
  {
    hide Enter, Leave, Move;
    match call.op
    case TransferFrom(_, _, _) => SpendingStep(s, call, holder, spender);
    case Withdraw(_, _, _) => SpendingStep(s, call, holder, spender);
    case Redeem(_, _, _) => SpendingStep(s, call, holder, spender);
    case Approve(_, _) =>
    case _ => OtherCallsKeepAllowances(s, call);
  }

  lemma SpendingStep(s: State, call: Call, holder: Address, spender: Address)
    requires call.op.TransferFrom? || call.op.Withdraw? || call.op.Redeem?
    ensures var before, after := Allowance(s.allowances, holder, spender),
                                 Allowance(Step(s, call).allowances, holder, spender);
            if before == UINT256_MAX then after == before
            else Taken(s, call, holder, spender) <= before && after == before - Taken(s, call, holder, spender)
  {
    hide MaxWithdraw, MaxRedeem, PreviewRedeem, PreviewWithdraw, FeeOnRaw, FeeLeaving;
  }

  lemma OtherCallsKeepAllowances(s: State, call: Call)
    requires !call.op.TransferFrom? && !call.op.Withdraw? && !call.op.Redeem? && !call.op.Approve?
    ensures Step(s, call).allowances == s.allowances
  {
    hide MaxDeposit, MaxMint, PreviewDeposit, PreviewMint, FeeOnTotal, FeeLeaving;
  }

  ghost function TotalTaken(s: State, calls: seq<Call>, holder: Address, spender: Address): nat
    decreases calls
  {
    if calls == [] then 0
    else Taken(s, calls[0], holder, spender) + TotalTaken(Step(s, calls[0]), calls[1..], holder, spender)
  }

  /** Over any run without a new approval, what a spender takes out of a holder's account comes off the allowance, share
      for share; an unlimited allowance stays. */
  lemma {:induction false} AllowanceIsUsedUp(s: State, calls: seq<Call>, holder: Address, spender: Address)
    requires forall c | c in calls :: !Approves(c, holder, spender)
    ensures var before, after := Allowance(s.allowances, holder, spender),
                                 Allowance(Run(s, calls).allowances, holder, spender);
            if before == UINT256_MAX then after == before
            else before < UINT256_MAX ==> TotalTaken(s, calls, holder, spender) + after == before
    decreases calls
  {
    hide Step, Allowance, Taken;
    if calls != [] {
      AllowanceStep(s, calls[0], holder, spender);
      AllowanceIsUsedUp(Step(s, calls[0]), calls[1..], holder, spender);
    }
  }
}
