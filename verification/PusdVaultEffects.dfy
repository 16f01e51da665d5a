/** What each external call of the pUSD vault does, account by account and field by field, and exactly when it is
    accepted, in terms of storage alone; then allowances and redemption terms over whole runs. */
module PusdVaultEffects {
  import opened MulDiv
  import opened ShareToken
  import opened PusdVault
  import opened PusdVaultInvariant
  import opened PusdVaultAccounts

  /** What an accepted call returns. */
  function Answer(s: State, call: Call): nat
    requires Succeeds(s, call)
  {
    Apply(s, call.caller, call.op).value
  }

  // ----- entries -----

  /** pUSD an accepted entry takes in, and shares it issues. */
  function PaidIn(s: State, call: Call): nat
    requires Succeeds(s, call) && (call.op.Deposit? || call.op.Mint?)
  {
    if call.op.Deposit? then call.op.assets else Answer(s, call)
  }

  function Issued(s: State, call: Call): nat
    requires Succeeds(s, call) && (call.op.Deposit? || call.op.Mint?)
  {
    if call.op.Deposit? then Answer(s, call) else call.op.shares
  }

  /** An entry credits its receiver, and nobody else, with the shares, adds what was paid to the cash and touches
      nothing else. A deposit issues the most shares its pUSD is worth, a mint takes the least pUSD its shares are
      worth. */
  lemma EntryEffect(s: State, call: Call)
    requires (call.op.Deposit? || call.op.Mint?) && Succeeds(s, call)
    ensures var t, paid, n := Step(s, call), PaidIn(s, call), Issued(s, call);
            && t == s.(balances := t.balances, supply := s.supply + n, cash := s.cash + paid,
                       accountedCash := s.cash + paid)
            && forall a: Address ::
                 Balance(t.balances, a) == Balance(s.balances, a) + if a == call.op.receiver then n else 0
    ensures var paid, n, assets, shares := PaidIn(s, call), Issued(s, call), TotalAssets(s) + 1, s.supply + 1;
            && n * assets <= paid * shares
            && (call.op.Deposit? ==> paid * shares < (n + 1) * assets)
            && (call.op.Mint? ==> (paid - 1) * shares < n * assets)
  {
    hide MaxDeposit, MaxMint, ValuationFresh, TotalAssets;
  }

  /** A deposit is accepted exactly by a running vault with a fresh valuation, from a payer who pays, for a receiver,
      and within the cap. Nothing outside needs no valuation; else it is fresh until it is `maxValuationAge` old. */
  lemma DepositAcceptedIff(s: State, caller: Address, assets: nat, receiver: Address, pulled: bool)
    requires Valid(s)
    ensures Succeeds(s, Call(caller, Deposit(assets, receiver, pulled))) <==>
            && !s.paused && pulled && receiver != ZERO
            && (s.externalAssetsValue + s.externalCapitalOutstanding > 0 ==>
                  0 < s.valuedAt && s.now - s.valuedAt <= s.maxValuationAge)
            && (assets > 0 ==> if s.depositCap == 0 then assets <= UINT256_MAX
                               else assets <= UINT256_MAX && TotalAssets(s) + assets <= s.depositCap)
  {
    hide PreviewDeposit, TotalAssets, Valid;
  }

  /** So is a mint, with the price of its shares in place of the pUSD. */
  lemma MintAcceptedIff(s: State, caller: Address, shares: nat, receiver: Address, pulled: bool)
    requires Valid(s)
    ensures Succeeds(s, Call(caller, Mint(shares, receiver, pulled))) <==>
            && !s.paused && pulled && receiver != ZERO
            && (s.externalAssetsValue + s.externalCapitalOutstanding > 0 ==>
                  0 < s.valuedAt && s.now - s.valuedAt <= s.maxValuationAge)
            && (shares > 0 ==> if s.depositCap == 0 then shares <= UINT256_MAX
                               else
                                 && shares <= UINT256_MAX && TotalAssets(s) <= s.depositCap
                                 && shares * (TotalAssets(s) + 1) <= (s.depositCap - TotalAssets(s)) * (s.supply + 1))
  {
    hide PreviewMint, TotalAssets, Valid;
    if 0 < s.depositCap && TotalAssets(s) <= s.depositCap {
      FloorGalois(s.depositCap - TotalAssets(s), s.supply + 1, TotalAssets(s) + 1, shares);
    }
    hide Floor;
  }

  // ----- exits -----

  /** pUSD an accepted exit pays, and shares it burns. */
  function PaidOutBy(s: State, call: Call): nat
    requires Succeeds(s, call) && (call.op.Withdraw? || call.op.Redeem?)
  {
    if call.op.Withdraw? then call.op.assets else Answer(s, call)
  }

  function Burned(s: State, call: Call): nat
    requires Succeeds(s, call) && (call.op.Withdraw? || call.op.Redeem?)
  {
    if call.op.Withdraw? then Answer(s, call) else call.op.shares
  }

  /** An exit debits its holder, and nobody else, with the shares, takes the pUSD out of the cash unless the receiver is
      the vault, and touches nothing else but an allowance. A withdrawal burns the fewest shares its pUSD is worth, a
      redemption pays the most pUSD its shares are worth. */
  lemma ExitEffect(s: State, call: Call)
    requires (call.op.Withdraw? || call.op.Redeem?) && Succeeds(s, call)
    ensures var t, paid, n := Step(s, call), PaidOutBy(s, call), Burned(s, call);
            var left := s.cash - if call.op.receiver == s.self then 0 else paid;
            && paid <= s.cash && n <= s.supply && n <= Balance(s.balances, call.op.holder)
            && t == s.(balances := t.balances, allowances := t.allowances, supply := s.supply - n, cash := left,
                       accountedCash := left)
            && forall a: Address ::
                 Balance(t.balances, a) == Balance(s.balances, a) - if a == call.op.holder then n else 0
    ensures var paid, n, assets, shares := PaidOutBy(s, call), Burned(s, call), TotalAssets(s) + 1, s.supply + 1;
            && paid * shares <= n * assets
            && (call.op.Withdraw? ==> (n - 1) * assets < paid * shares)
            && (call.op.Redeem? ==> n * assets < (paid + 1) * shares)
  {
    var paid := if call.op.Withdraw? then call.op.assets else PreviewRedeem(s, call.op.shares);
    var n := if call.op.Withdraw? then PreviewWithdraw(s, call.op.assets) else call.op.shares;
    hide MaxWithdraw, MaxRedeem, FreeCash, PreviewWithdraw, PreviewRedeem, Leave;
    var o := Leave(s, call.caller, paid, n, call.op.receiver, call.op.holder, if call.op.Withdraw? then n else paid);
    assert o == Apply(s, call.caller, call.op);
    LeaveMoves(s, call.caller, paid, n, call.op.receiver, call.op.holder, if call.op.Withdraw? then n else paid);
    ExitPrices(s, call.op);
    hide TotalAssets;
  }

  lemma LeaveMoves(s: State, caller: Address, assets: nat, shares: nat, receiver: Address, holder: Address, value: nat)
    requires Leave(s, caller, assets, shares, receiver, holder, value).Done?
    ensures var o := Leave(s, caller, assets, shares, receiver, holder, value);
            var t, left := o.state, s.cash - if receiver == s.self then 0 else assets;
            && o.value == value && assets <= s.cash && shares <= s.supply && shares <= Balance(s.balances, holder)
            && t == s.(balances := t.balances, allowances := t.allowances, supply := s.supply - shares, cash := left,
                       accountedCash := left)
            && forall a: Address ::
                 Balance(t.balances, a) == Balance(s.balances, a) - if a == holder then shares else 0
  {
    hide Spent;
  }

  lemma ExitPrices(s: State, op: Op)
    ensures var assets, shares := TotalAssets(s) + 1, s.supply + 1;
            && (op.Withdraw? ==>
                  var n := PreviewWithdraw(s, op.assets); (n - 1) * assets < op.assets * shares <= n * assets)
            && (op.Redeem? ==>
                  var paid := PreviewRedeem(s, op.shares);
                  paid * shares <= op.shares * assets < (paid + 1) * shares)
  {
    hide TotalAssets;
  }

  /** A withdrawal is accepted exactly by a running vault, for a holder and a receiver, when the holder's shares are
      worth the pUSD, the cash not owed to claimable requests covers it, and so does what the caller may spend. */
  lemma WithdrawalAcceptedIff(s: State, caller: Address, assets: nat, receiver: Address, holder: Address)
    requires Valid(s)
    ensures var price, shares := TotalAssets(s) + 1, s.supply + 1;
            Succeeds(s, Call(caller, Withdraw(assets, receiver, holder))) <==>
            && !s.paused && receiver != ZERO && holder != ZERO && assets + s.pendingClaimableAssets <= s.cash
            && assets * shares <= Balance(s.balances, holder) * price
            && (caller != holder ==> assets * shares <= Allowance(s.allowances, holder, caller) * price)
  {
    AcceptsIff(s, Call(caller, Withdraw(assets, receiver, holder)));
    FloorGalois(Balance(s.balances, holder), TotalAssets(s) + 1, s.supply + 1, assets);
    CeilGalois(assets, s.supply + 1, TotalAssets(s) + 1, Allowance(s.allowances, holder, caller));
    ClampsAreDead(s);
    hide Floor, Ceil, TotalAssets, Valid, ApplyWithdraw, Succeeds;
  }

  /** And a redemption exactly when the holder has the shares, the caller may spend them, and the cash not owed covers
      what they are worth. */
  lemma RedemptionAcceptedIff(s: State, caller: Address, shares: nat, receiver: Address, holder: Address)
    requires Valid(s)
    ensures Succeeds(s, Call(caller, Redeem(shares, receiver, holder))) <==>
            && !s.paused && receiver != ZERO && holder != ZERO && shares <= Balance(s.balances, holder)
            && (caller != holder ==> shares <= Allowance(s.allowances, holder, caller))
            && shares * (TotalAssets(s) + 1) <= (s.cash - s.pendingClaimableAssets) * (s.supply + 1)
  {
    AcceptsIff(s, Call(caller, Redeem(shares, receiver, holder)));
    FloorGalois(s.cash - s.pendingClaimableAssets, s.supply + 1, TotalAssets(s) + 1, shares);
    ClampsAreDead(s);
    hide Floor, TotalAssets, Valid, ApplyRedeem, Succeeds;
  }

  // ----- share transfers -----

  /** A transfer is accepted exactly between accounts, of shares there are, and for somebody else within the allowance;
      it moves them and touches nothing else but the allowance. */
  lemma TransferEffect(s: State, call: Call)
    requires call.op.Transfer? || call.op.TransferFrom?
    ensures var from := if call.op.Transfer? then call.caller else call.op.from;
            && (Succeeds(s, call) <==>
                  && from != ZERO && call.op.to != ZERO && call.op.amount <= Balance(s.balances, from)
                  && (call.op.TransferFrom? ==> call.op.amount <= Allowance(s.allowances, from, call.caller)))
            && (Succeeds(s, call) ==>
                  var t := Step(s, call);
                  && t == s.(balances := t.balances, allowances := t.allowances)
                  && forall a: Address ::
                       Balance(t.balances, a)
                       == Balance(s.balances, a) - (if a == from then call.op.amount else 0)
                          + (if a == call.op.to then call.op.amount else 0))
  {
    hide Spent;
  }

  // ----- allowances -----

  /** Shares that `spender` takes out of `holder`'s account by one call, as the call and its answer say. */
  function Taken(s: State, call: Call, holder: Address, spender: Address): nat {
    if call.caller != spender || !Succeeds(s, call) then 0
    else match call.op
      case TransferFrom(from, _, amount) => if from == holder then amount else 0
      case Withdraw(_, _, h) => if h == holder && spender != holder then Answer(s, call) else 0
      case Redeem(shares, _, h) => if h == holder && spender != holder then shares else 0
      case RequestRedeem(shares, _, h, _) => if h == holder && spender != holder then shares else 0
      case _ => 0
  }

  predicate Approves(call: Call, holder: Address, spender: Address) {
    call.caller == holder && call.op.Approve? && call.op.spender == spender
  }

  /** What one call does to the allowance of every pair: an approval sets its own, and what a spender takes comes off
      its own, unless that is unlimited. */
  lemma AllowanceStep(s: State, call: Call, holder: Address, spender: Address)
    ensures var before, after := Allowance(s.allowances, holder, spender),
                                 Allowance(Step(s, call).allowances, holder, spender);
            if Approves(call, holder, spender) && Succeeds(s, call) then after == call.op.amount
            else if before == UINT256_MAX then after == before
            else Taken(s, call, holder, spender) <= before && after == before - Taken(s, call, holder, spender)
  {
    hide ApplyDeposit, ApplyMint, ApplyWithdraw, ApplyRedeem, ApplyTransferFrom, ApplySync, ApplyTransfer,
         ApplyRecordValuation, ApplyRequestRedeem, ApplyAllocate, ApplySettings, ApplyCancel, ApplyMakeClaimable,
         ApplyClaim, ApplyApprove;
    match call.op
    case TransferFrom(_, _, _) => SpendingStep(s, call, holder, spender);
    case Withdraw(_, _, _) => SpendingStep(s, call, holder, spender);
    case Redeem(_, _, _) => SpendingStep(s, call, holder, spender);
    case RequestRedeem(_, _, _, _) => SpendingStep(s, call, holder, spender);
    case Approve(_, _) => ApprovalStep(s, call, holder, spender);
    case _ => OtherCallsKeepAllowances(s, call);
  }

  lemma SpendingStep(s: State, call: Call, holder: Address, spender: Address)
    requires call.op.TransferFrom? || call.op.Withdraw? || call.op.Redeem? || call.op.RequestRedeem?
    ensures var before, after := Allowance(s.allowances, holder, spender),
                                 Allowance(Step(s, call).allowances, holder, spender);
            if before == UINT256_MAX then after == before
            else Taken(s, call, holder, spender) <= before && after == before - Taken(s, call, holder, spender)
  {
    hide FreeCash, MaxWithdraw, MaxRedeem, PreviewRedeem, PreviewWithdraw, Spent, Allowance;
    if Succeeds(s, call) {
      var from := if call.op.TransferFrom? then call.op.from else call.op.holder;
      var n := if call.op.TransferFrom? then call.op.amount
               else if call.op.Withdraw? then Answer(s, call) else call.op.shares;
      if call.op.TransferFrom? || from != call.caller {
        assert Step(s, call).allowances == Spent(s.allowances, from, call.caller, n);
        SpendingComesOff(s.allowances, from, call.caller, n, holder, spender);
      }
    }
  }

  lemma SpendingComesOff(g: Allowances, from: Address, caller: Address, n: nat, holder: Address, spender: Address)
    requires n <= Allowance(g, from, caller)
    ensures var before, after := Allowance(g, holder, spender), Allowance(Spent(g, from, caller, n), holder, spender);
            after == if holder != from || spender != caller || before == UINT256_MAX then before else before - n
  {
  }

  lemma ApprovalStep(s: State, call: Call, holder: Address, spender: Address)
    requires call.op.Approve?
    ensures Allowance(Step(s, call).allowances, holder, spender)
         == if Approves(call, holder, spender) && Succeeds(s, call) then call.op.amount
            else Allowance(s.allowances, holder, spender)
  {
  }

  lemma OtherCallsKeepAllowances(s: State, call: Call)
    requires !call.op.TransferFrom? && !call.op.Withdraw? && !call.op.Redeem? && !call.op.RequestRedeem?
    requires !call.op.Approve?
    ensures Step(s, call).allowances == s.allowances
  {
    match call.op
    case Deposit(_, _, _) => TokenCallsKeepAllowances(s, call);
    case Mint(_, _, _) => TokenCallsKeepAllowances(s, call);
    case Transfer(_, _) => TokenCallsKeepAllowances(s, call);
    case Allocate(_, _) => MoneyCallsKeepAllowances(s, call);
    case SyncReturnedCapital => MoneyCallsKeepAllowances(s, call);
    case RecordValuation(_, _, _, _, _) => MoneyCallsKeepAllowances(s, call);
    case CancelRedemption(_) => RequestCallsKeepAllowances(s, call);
    case MakeClaimable(_) => RequestCallsKeepAllowances(s, call);
    case ClaimRedemption(_) => RequestCallsKeepAllowances(s, call);
    case _ => SettingsKeepAllowances(s, call.caller, call.op);
  }

  lemma TokenCallsKeepAllowances(s: State, call: Call)
    requires call.op.Deposit? || call.op.Mint? || call.op.Transfer?
    ensures Step(s, call).allowances == s.allowances
  {
    hide MaxDeposit, MaxMint, PreviewDeposit, PreviewMint, ValuationFresh;
  }

  lemma MoneyCallsKeepAllowances(s: State, call: Call)
    requires call.op.Allocate? || call.op.SyncReturnedCapital? || call.op.RecordValuation?
    ensures Step(s, call).allowances == s.allowances
  {
    hide TotalAssets, FreeCash, ValuationFresh;
  }

  lemma RequestCallsKeepAllowances(s: State, call: Call)
    requires call.op.CancelRedemption? || call.op.MakeClaimable? || call.op.ClaimRedemption?
    ensures Step(s, call).allowances == s.allowances
  {
    hide FreeCash, PreviewRedeem;
  }

  lemma SettingsKeepAllowances(s: State, caller: Address, op: Op)
    ensures var o := ApplySettings(s, caller, op); o.Done? ==> o.state.allowances == s.allowances
  {
    hide LimitsOk;
  }

  ghost function TotalTaken(s: State, calls: seq<Call>, holder: Address, spender: Address): nat
    decreases calls
  {
    if calls == [] then 0
    else Taken(s, calls[0], holder, spender) + TotalTaken(Step(s, calls[0]), calls[1..], holder, spender)
  }

  /** Over any run without a new approval, what a spender takes out of a holder's account comes off the allowance, share
      for share; an unlimited allowance stays. */
  lemma {:induction false} AllowanceIsUsedUp(s: State, calls: seq<Call>, holder: Address, spender: Address)
    requires forall c | c in calls :: !Approves(c, holder, spender)
    ensures var before, after := Allowance(s.allowances, holder, spender),
                                 Allowance(Run(s, calls).allowances, holder, spender);
            if before == UINT256_MAX then after == before
            else before < UINT256_MAX ==> TotalTaken(s, calls, holder, spender) + after == before
    decreases calls
  {
    hide Step, Allowance, Taken;
    if calls != [] {
      AllowanceStep(s, calls[0], holder, spender);
      AllowanceIsUsedUp(Step(s, calls[0]), calls[1..], holder, spender);
    }
  }

  // ----- allocations, syncs and valuations -----

  predicate RunsTheVault(s: State, a: Address) { a == s.operator || a == s.owner }

  /** An allocation is accepted exactly from operator or owner, with a fresh valuation, within the proposal's budget,
      the external share and the cash not owed, if it leaves the idle reserve. */
  lemma AllocationAcceptedIff(s: State, caller: Address, amount: nat, proposal: Hash)
    requires Valid(s)
    ensures var free := s.cash - s.pendingClaimableAssets;
            Succeeds(s, Call(caller, Allocate(amount, proposal))) <==>
            && !s.paused && RunsTheVault(s, caller) && 0 < amount <= Remaining(s, proposal) && amount <= free
            && (s.externalAssetsValue + s.externalCapitalOutstanding > 0 ==>
                  0 < s.valuedAt && s.now - s.valuedAt <= s.maxValuationAge)
            && (s.externalAssetsValue + amount) * 10_000 <= TotalAssets(s) * s.externalBps
            && TotalAssets(s) * s.idleBps < (free - amount + 1) * 10_000
  {
    ClampsAreDead(s);
    FloorGalois(TotalAssets(s), s.externalBps, BPS_DENOMINATOR, s.externalAssetsValue + amount);
    FloorGalois(TotalAssets(s), s.idleBps, BPS_DENOMINATOR, s.cash - s.pendingClaimableAssets - amount + 1);
    hide Floor, TotalAssets, Valid;
  }

  /** It takes the amount off the budget and, unless the Deposit Wallet is the vault, off the cash, adds it to value and
      principal outside, and dates the valuation; other proposals and all else stand. */
  lemma AllocationEffect(s: State, call: Call)
    requires call.op.Allocate? && Succeeds(s, call)
    ensures var t, n := Step(s, call), call.op.amount;
            var left := s.cash - if s.depositWallet == s.self then 0 else n;
            && n <= s.cash
            && t == s.(proposalRemaining := t.proposalRemaining, valuedAt := s.now % UINT64_SPAN, cash := left,
                       accountedCash := left, externalAssetsValue := s.externalAssetsValue + n,
                       externalCapitalOutstanding := s.externalCapitalOutstanding + n)
            && forall p: Hash :: Remaining(t, p) == Remaining(s, p) - if p == call.op.proposal then n else 0
  {
    hide TotalAssets, ValuationFresh, Floor;
  }

  function Less(a: nat, b: nat): nat { if a < b then 0 else a - b }

  /** A sync is always accepted and answers what came since the accounting was last settled. That is taken off the
      principal and the value outside, as far as they go, and everything else stands. */
  lemma SyncEffect(s: State, caller: Address)
    requires Valid(s)
    ensures var call, came := Call(caller, SyncReturnedCapital), s.cash - s.accountedCash;
            && Succeeds(s, call) && Answer(s, call) == came
            && var t := Step(s, call);
               && t == s.(accountedCash := s.cash, externalCapitalOutstanding := t.externalCapitalOutstanding,
                          externalAssetsValue := t.externalAssetsValue)
               && t.externalCapitalOutstanding == Less(s.externalCapitalOutstanding, came)
               && t.externalAssetsValue == Less(s.externalAssetsValue, came)
  {
  }

  /** A valuation is accepted exactly from valuator or owner, with a higher number, a snapshot, and a date that is
      neither missing nor in the future. */
  lemma ValuationAcceptedIff(s: State, call: Call)
    requires call.op.RecordValuation?
    ensures Succeeds(s, call) <==>
            && (call.caller == s.valuator || call.caller == s.owner) && s.valuationSequence < call.op.sequence
            && 0 < call.op.at <= s.now && call.op.snapshot != NO_HASH
  {
  }

  /** Total assets are then the value it states and the cash not owed, the reserve is the one it states, and all but the
      record stands. */
  lemma ValuationEffect(s: State, call: Call)
    requires Valid(s) && call.op.RecordValuation? && Succeeds(s, call)
    ensures var t := Step(s, call);
            && TotalAssets(t) == call.op.value + s.cash - s.pendingClaimableAssets
            && t.reservedCollateral == call.op.reserved && t.valuationSequence == call.op.sequence
            && t.valuedAt == call.op.at && t.snapshotHash == call.op.snapshot
            && s == t.(externalAssetsValue := s.externalAssetsValue, reservedCollateral := s.reservedCollateral,
                       valuationSequence := s.valuationSequence, valuedAt := s.valuedAt,
                       snapshotHash := s.snapshotHash)
  {
  }

  // ----- settings -----

  /** Settings are set by their own setters, called by the owner with acceptable arguments, to the values given; the
      clock moves by time passing. */
  ghost predicate SetBy(s: State, call: Call, t: State) {
    var mine, op := call.caller == s.owner, call.op;
    && t.operator == (if mine && op.SetOperator? && op.account != ZERO then op.account else s.operator)
    && t.valuator == (if mine && op.SetValuator? && op.account != ZERO then op.account else s.valuator)
    && t.depositCap == (if mine && op.SetDepositCap? then op.cap else s.depositCap)
    && (t.externalBps, t.idleBps)
       == (if mine && op.SetOperationalLimits? && op.external <= 8_000 && op.external + op.idle <= 10_000
           then (op.external, op.idle) else (s.externalBps, s.idleBps))
    && t.maxValuationAge == (if mine && op.SetMaxValuationAge? && op.age > 0 then op.age else s.maxValuationAge)
    && t.paused == (if mine && op.Pause? then true else if mine && op.Unpause? then false else s.paused)
    && t.owner == (if mine && op.TransferOwnership? && op.account != ZERO then op.account
                   else if mine && op.RenounceOwnership? then ZERO else s.owner)
    && t.now == s.now + (if op.TimePasses? then op.seconds else 0)
  }

  /** No other call, and no setter of another field, moves them. */
  lemma SettingsStep(s: State, call: Call)
    ensures SetBy(s, call, Step(s, call))
  {
    hide ApplyDeposit, ApplyMint, ApplyWithdraw, ApplyRedeem, ApplyTransfer, ApplyTransferFrom, ApplyApprove, ApplySync,
         ApplyRecordValuation, ApplyRequestRedeem, ApplyAllocate, ApplyCancel, ApplyMakeClaimable, ApplyClaim,
         ApplySettings;
    match call.op
    case Deposit(_, _, _) => TokenCallsKeepSettings(s, call);
    case Mint(_, _, _) => TokenCallsKeepSettings(s, call);
    case Withdraw(_, _, _) => TokenCallsKeepSettings(s, call);
    case Redeem(_, _, _) => TokenCallsKeepSettings(s, call);
    case Transfer(_, _) => TokenCallsKeepSettings(s, call);
    case TransferFrom(_, _, _) => TokenCallsKeepSettings(s, call);
    case Approve(_, _) => TokenCallsKeepSettings(s, call);
    case RequestRedeem(_, _, _, _) => RequestCallsKeepSettings(s, call);
    case CancelRedemption(_) => RequestCallsKeepSettings(s, call);
    case MakeClaimable(_) => RequestCallsKeepSettings(s, call);
    case ClaimRedemption(_) => RequestCallsKeepSettings(s, call);
    case Allocate(_, _) => MoneyCallsKeepSettings(s, call);
    case SyncReturnedCapital => MoneyCallsKeepSettings(s, call);
    case RecordValuation(_, _, _, _, _) => MoneyCallsKeepSettings(s, call);
    case _ => SettersStep(s, call);
  }

  ghost predicate SameSettings(s: State, t: State) {
    && t.operator == s.operator && t.valuator == s.valuator && t.depositCap == s.depositCap && t.paused == s.paused
    && t.externalBps == s.externalBps && t.idleBps == s.idleBps && t.maxValuationAge == s.maxValuationAge
    && t.owner == s.owner && t.now == s.now
  }

  lemma TokenCallsKeepSettings(s: State, call: Call)
    requires call.op.Deposit? || call.op.Mint? || call.op.Withdraw? || call.op.Redeem? || call.op.Transfer?
             || call.op.TransferFrom? || call.op.Approve?
    ensures SameSettings(s, Step(s, call))
  {
    hide ApplyDeposit, ApplyMint, ApplyWithdraw, ApplyRedeem, ApplyTransfer, ApplyTransferFrom;
    if Succeeds(s, call) {
      match call.op
      case Deposit(_, _, _) => EntryEffect(s, call);
      case Mint(_, _, _) => EntryEffect(s, call);
      case Withdraw(_, _, _) => ExitEffect(s, call);
      case Redeem(_, _, _) => ExitEffect(s, call);
      case Transfer(_, _) => TransferEffect(s, call);
      case TransferFrom(_, _, _) => TransferEffect(s, call);
      case Approve(_, _) =>
    }
  }

  lemma RequestCallsKeepSettings(s: State, call: Call)
    requires call.op.RequestRedeem? || call.op.CancelRedemption? || call.op.MakeClaimable? || call.op.ClaimRedemption?
    ensures SameSettings(s, Step(s, call))
  {
    hide FreeCash, PreviewRedeem;
  }

  lemma MoneyCallsKeepSettings(s: State, call: Call)
    requires call.op.Allocate? || call.op.SyncReturnedCapital? || call.op.RecordValuation?
    ensures SameSettings(s, Step(s, call))
  {
    hide TotalAssets, FreeCash, ValuationFresh;
  }

  lemma SettersStep(s: State, call: Call)
    requires var op := call.op;
             || op.ActivateProposal? || op.RevokeProposal? || op.SetOperator? || op.SetValuator? || op.SetDepositCap?
             || op.SetOperationalLimits? || op.SetMaxValuationAge? || op.Pause? || op.Unpause? || op.TransferOwnership?
             || op.RenounceOwnership? || op.PusdArrives? || op.TimePasses?
    ensures SetBy(s, call, Step(s, call))
  {
    assert Step(s, call) == var o := ApplySettings(s, call.caller, call.op); if o.Done? then o.state else s;
    hide Step, Apply;
  }

  /** Budgets change only by allocations under them and by the owner, who activates them anew or revokes them. */
  lemma BudgetChanges(s: State, call: Call, proposal: Hash)
    requires !call.op.Allocate?
    ensures Remaining(Step(s, call), proposal)
         == if call.caller == s.owner && Revokes(call, proposal) then 0
            else if call.caller == s.owner && Activates(call, proposal) && proposal != NO_HASH && call.op.allocation > 0
              then call.op.allocation
            else Remaining(s, proposal)
  {
    if !call.op.ActivateProposal? && !call.op.RevokeProposal? { OtherCallsKeepBudgets(s, call); }
  }

  // ----- redemption requests -----

  /** All requests but one stand. */
  ghost predicate OnlyRequest(s: State, t: State, id: nat) {
    && t.requests.Keys == s.requests.Keys + {id}
    && forall k | k in s.requests && k != id :: t.requests[k] == s.requests[k]
  }

  /** A request is accepted exactly from a running vault, for some shares the holder has and the caller may spend, with
      a receiver. */
  lemma RequestAcceptedIff(s: State, caller: Address, shares: nat, receiver: Address, holder: Address, least: nat)
    ensures Succeeds(s, Call(caller, RequestRedeem(shares, receiver, holder, least))) <==>
            && !s.paused && receiver != ZERO && holder != ZERO && 0 < shares <= Balance(s.balances, holder)
            && (caller != holder ==> shares <= Allowance(s.allowances, holder, caller))
  {
  }

  /** It answers a new id, under which the terms of the call are recorded, pending; the shares go from the holder to the
      vault, and all else but an allowance stands. */
  lemma RequestEffect(s: State, call: Call)
    requires Valid(s) && call.op.RequestRedeem? && Succeeds(s, call)
    ensures var t, id, op := Step(s, call), Answer(s, call), call.op;
            && id !in s.requests && id in t.requests && OnlyRequest(s, t, id)
            && var r := t.requests[id];
               && r.owner == op.holder && r.receiver == op.receiver && r.shares == op.shares
               && r.minAssets == op.minAssets && r.claimableAssets == 0 && r.requestedAt == s.now % UINT64_SPAN
               && r.state == Pending
    ensures var t := Step(s, call);
            && t == s.(balances := t.balances, allowances := t.allowances, requests := t.requests,
                       nextRequestId := s.nextRequestId + 1)
            && forall a: Address ::
                 Balance(t.balances, a)
                 == Balance(s.balances, a) - (if a == call.op.holder then call.op.shares else 0)
                    + (if a == s.self then call.op.shares else 0)
  {
    hide Spent, LedgerOk, NoVaultAllowance, CashOk, EscrowOk, SettingsOk;
  }

  /** A cancellation is accepted exactly from the owner of a pending request. It gives the owner the shares back and
      marks the request; nothing else moves. */
  lemma CancellationEffect(s: State, caller: Address, id: nat)
    requires Valid(s)
    ensures var call := Call(caller, CancelRedemption(id));
            && (Succeeds(s, call) <==> HasState(s, id, Pending) && caller == s.requests[id].owner)
            && (Succeeds(s, call) ==>
                  var t, r := Step(s, call), s.requests[id];
                  && t == s.(balances := t.balances, requests := t.requests) && OnlyRequest(s, t, id)
                  && r == t.requests[id].(state := Pending) && t.requests[id].state == Cancelled
                  && forall a: Address ::
                       Balance(t.balances, a) == Balance(s.balances, a) - (if a == s.self then r.shares else 0)
                                                 + (if a == r.owner then r.shares else 0))
  {
    if HasState(s, id, Pending) { PartOfSums(s.requests, id, s.nextRequestId); }
    hide Total, TotalOwed, TotalEscrowed;
  }

  /** Making a request claimable is accepted exactly from operator or owner, for a pending request whose shares are
      worth its minimum and for which there is cash not owed yet. */
  lemma PayoutAcceptedIff(s: State, caller: Address, id: nat)
    requires Valid(s)
    ensures Succeeds(s, Call(caller, MakeClaimable(id))) <==>
            && RunsTheVault(s, caller) && HasState(s, id, Pending)
            && var r, free := s.requests[id], s.cash - s.pendingClaimableAssets;
               && r.minAssets * (s.supply + 1) <= r.shares * (TotalAssets(s) + 1)
               && r.shares * (TotalAssets(s) + 1) < (free + 1) * (s.supply + 1)
  {
    MakeClaimableIff(s, caller, id);
    ClampsAreDead(s);
    if HasState(s, id, Pending) {
      var r := s.requests[id];
      FloorGalois(r.shares, TotalAssets(s) + 1, s.supply + 1, r.minAssets);
      FloorGalois(r.shares, TotalAssets(s) + 1, s.supply + 1, s.cash - s.pendingClaimableAssets + 1);
    }
    hide Floor, TotalAssets, Valid;
  }

  /** It fixes what the shares are worth now as the payout, burns them out of the vault's account and owes the
      payout. */
  lemma PayoutEffect(s: State, call: Call)
    requires call.op.MakeClaimable? && Succeeds(s, call)
    ensures var id := call.op.id; HasState(s, id, Pending) && s.requests[id].shares <= s.supply
    ensures var t, id, n := Step(s, call), call.op.id, Answer(s, call);
            var r, r' := s.requests[id], t.requests[id];
            && t == s.(balances := t.balances, supply := s.supply - r.shares, requests := t.requests,
                       pendingClaimableAssets := s.pendingClaimableAssets + n)
            && OnlyRequest(s, t, id) && r'.state == Claimable && r'.claimableAssets == n
            && r == r'.(state := Pending, claimableAssets := r.claimableAssets)
            && n * (s.supply + 1) <= r.shares * (TotalAssets(s) + 1) < (n + 1) * (s.supply + 1)
            && forall a: Address ::
                 Balance(t.balances, a) == Balance(s.balances, a) - if a == s.self then r.shares else 0
  {
    hide FreeCash, TotalAssets;
  }

  /** A claim is accepted exactly for a claimable request, from anyone. It pays the fixed amount, no longer owed, to the
      receiver, and marks the request. */
  lemma ClaimEffect(s: State, caller: Address, id: nat)
    requires Valid(s)
    ensures var call := Call(caller, ClaimRedemption(id));
            && (Succeeds(s, call) <==> HasState(s, id, Claimable))
            && (Succeeds(s, call) ==>
                  var t, r := Step(s, call), s.requests[id];
                  var left := s.cash - if r.receiver == s.self then 0 else r.claimableAssets;
                  && Answer(s, call) == r.claimableAssets <= s.pendingClaimableAssets <= s.cash
                  && t == s.(cash := left, accountedCash := left, requests := t.requests,
                             pendingClaimableAssets := s.pendingClaimableAssets - r.claimableAssets)
                  && OnlyRequest(s, t, id)
                  && r == t.requests[id].(state := Claimable) && t.requests[id].state == Claimed)
  {
    if HasState(s, id, Claimable) { PartOfSums(s.requests, id, s.nextRequestId); }
    hide Total, TotalOwed, TotalEscrowed;
  }

  /** From the call that files a request to the end of any run after it: a request that ends claimed by a receiver other
      than the vault has taken at least the minimum of that call out of the vault, and gave no shares back; one that
      ends cancelled has given the holder of that call all shares back, and took nothing. */
  lemma RequestIsHonoured(s: State, call: Call, calls: seq<Call>)
    requires Valid(s) && Genuine(s.self, call) && AllGenuine(s.self, calls)
    requires call.op.RequestRedeem? && Succeeds(s, call)
    ensures var u, id, op := Step(s, call), Answer(s, call), call.op;
            var paid, back, t := TotalPaid(u, calls, id), TotalGivenBack(u, calls, id), Run(u, calls);
            && id in t.requests && t.requests[id].owner == op.holder && t.requests[id].receiver == op.receiver
            && (t.requests[id].state == Claimed ==>
                  back == 0 && (op.receiver != s.self ==> paid == t.requests[id].claimableAssets >= op.minAssets))
            && (t.requests[id].state == Cancelled ==> paid == 0 && back == op.shares)
            && (t.requests[id].state in {Pending, Claimable} ==> paid == 0 && back == 0)
  {
    RequestEffect(s, call);
    StepKeepsValid(s, call);
    hide ApplyRequestRedeem, OnlyRequest;
    var u, id := Step(s, call), Answer(s, call);
    hide Step, Answer, Valid;
    PendingOutcome(u, calls, id);
    RequestEndsOnce(u, calls, id);
  }
}
