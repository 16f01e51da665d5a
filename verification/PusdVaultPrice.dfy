/** What the pUSD vault's share price does over whole runs. */
module PusdVaultPrice {
  import opened MulDiv
  import opened SharePrice
  import opened ShareToken
  import opened PusdVault
  import opened PusdVaultInvariant

  ghost function PriceOf(s: State): real { Price(TotalAssets(s), s.supply) }

  /** pUSD that reached the vault and that `syncReturnedCapital` has not looked at yet. */
  ghost function Unsynced(s: State): nat
    requires Valid(s)
  {
    s.cash - s.accountedCash
  }

  /** Assets with unsynced pUSD taken for returned capital, as the next sync would take it. */
  ghost function SettledAssets(s: State): nat
    requires Valid(s)
  {
    TotalAssets(s) - Min(Unsynced(s), s.externalAssetsValue)
  }

  ghost function SettledPrice(s: State): real
    requires Valid(s)
  {
    Price(SettledAssets(s), s.supply)
  }

  /** The pUSD of an allocation really leaves the vault. The code does not check it, and no price result needs it. */
  ghost predicate WalletIsElsewhere(s: State) { s.depositWallet != s.self }

  // ----- one call -----

  lemma EnterPrice(s: State, assets: nat, shares: nat, receiver: Address, pulled: bool, value: nat)
    requires Valid(s) && shares * (TotalAssets(s) + 1) <= assets * (s.supply + 1)
    ensures var o := Enter(s, assets, shares, receiver, pulled, value); o.Done? ==> PriceOf(s) <= PriceOf(o.state)
  {
    EntryPriceIff(TotalAssets(s), s.supply, assets, shares);
  }

  lemma LeavePrice(s: State, caller: Address, assets: nat, shares: nat, receiver: Address, holder: Address, value: nat)
    requires Valid(s) && assets <= FreeCash(s) && assets * (s.supply + 1) <= shares * (TotalAssets(s) + 1)
    ensures var o := Leave(s, caller, assets, shares, receiver, holder, value);
            o.Done? ==> PriceOf(s) <= PriceOf(o.state)
  {
    var o := Leave(s, caller, assets, shares, receiver, holder, value);
    if o.Done? {
      ExitPriceIff(TotalAssets(s), s.supply, assets, shares);
      MoreAssetsRaisePrice(TotalAssets(s) - assets, TotalAssets(o.state), o.state.supply);
    }
  }

  lemma MakeClaimablePrice(s: State, caller: Address, id: nat)
    requires Valid(s)
    ensures var o := ApplyMakeClaimable(s, caller, id); o.Done? ==> PriceOf(s) <= PriceOf(o.state)
  {
    var o := ApplyMakeClaimable(s, caller, id);
    if o.Done? {
      var shares := s.requests[id].shares;
      ExitPriceIff(TotalAssets(s), s.supply, PreviewRedeem(s, shares), shares);
    }
  }

  lemma ClaimPrice(s: State, id: nat)
    requires Valid(s)
    ensures var o := ApplyClaim(s, id); o.Done? ==> PriceOf(s) <= PriceOf(o.state)
  {
    var o := ApplyClaim(s, id);
    if o.Done? { MoreAssetsRaisePrice(TotalAssets(s), TotalAssets(o.state), s.supply); }
  }

  /** Allocation moves value out of the vault without changing what it is worth, unless the
      Deposit Wallet is the vault itself: then the amount is counted twice. */
  lemma AllocateKeepsAssetsIff(s: State, caller: Address, amount: nat, proposal: Hash)
    requires Valid(s)
    ensures var o := ApplyAllocate(s, caller, amount, proposal);
            o.Done? ==> (TotalAssets(o.state) == TotalAssets(s) <==> WalletIsElsewhere(s))
    ensures var o := ApplyAllocate(s, caller, amount, proposal);
            o.Done? && !WalletIsElsewhere(s) ==> TotalAssets(o.state) == TotalAssets(s) + amount
  {
  }

  /** 100 pUSD of 200 were returned from outside and not synced, so they count twice; half of the shares are queued. */
  function CountedTwice(): State {
    State(1, 2, 1000, 200, 200, map[1 := 100, 3 := 100], map[], 100, 100, 0, 0, 100, map[],
          map[1 := Request(3, 3, 100, 0, 0, 900, Pending)], 2, 0, 8000, 0, 3600, 1, 1000, 7, 4, 5, 6, false)
  }

  lemma CountedTwiceIsValid()
    ensures Valid(CountedTwice())
  {
    var s := CountedTwice();
    var one: map<Address, nat> := map[1 := 100];
    TotalUpdate(map[], 1, 100);
    TotalUpdate(one, 3, 100);
    assert one[3 := 100] == s.balances && map[][1 := 100] == one;
    assert TotalOwed(s.requests, 1) == 0 && TotalEscrowed(s.requests, 1) == 0;
  }

  /** The same vault with nothing outside, its own Deposit Wallet, and 100 to allocate. */
  function OwnWallet(): State {
    CountedTwice().(depositWallet := 1, accountedCash := 200, externalAssetsValue := 0, externalCapitalOutstanding := 0,
                    proposalRemaining := map[9 := 100])
  }

  lemma OwnWalletIsValid()
    ensures Valid(OwnWallet())
  {
    CountedTwiceIsValid();
    hide Total, TotalOwed, TotalEscrowed;
  }

  lemma OwnWalletMayAllocate()
    ensures TotalAssets(OwnWallet()) == 200 && ApplyAllocate(OwnWallet(), 5, 100, 9).Done?
    ensures ApplyAllocate(OwnWallet(), 5, 100, 9).state.cash == 200
  {
  }

  /** For instance, its operator allocates 100 to it and its 200 count for 300. */
  lemma AllocationToItselfCountsTwice()
    ensures Valid(OwnWallet()) && TotalAssets(OwnWallet()) == 200
    ensures var o := ApplyAllocate(OwnWallet(), 5, 100, 9);
            o.Done? && o.state.cash == 200 && TotalAssets(o.state) == 300
  {
    OwnWalletIsValid();
    OwnWalletMayAllocate();
    hide ApplyAllocate, TotalAssets, Valid;
    AllocateKeepsAssetsIff(OwnWallet(), 5, 100, 9);
  }

  lemma AllocatePrice(s: State, caller: Address, amount: nat, proposal: Hash)
    requires Valid(s)
    ensures var o := ApplyAllocate(s, caller, amount, proposal); o.Done? ==> PriceOf(s) <= PriceOf(o.state)
  {
    var o := ApplyAllocate(s, caller, amount, proposal);
    if o.Done? {
      AllocateKeepsAssetsIff(s, caller, amount, proposal);
      MoreAssetsRaisePrice(TotalAssets(s), TotalAssets(o.state), s.supply);
    }
  }

  /** Calls that move shares between holders, file requests or change settings. */
  predicate IsQuiet(op: Op) {
    || op.Transfer? || op.TransferFrom? || op.Approve? || op.RequestRedeem? || op.CancelRedemption?
    || op.ActivateProposal? || op.RevokeProposal? || op.SetOperator? || op.SetValuator? || op.SetDepositCap?
    || op.SetOperationalLimits? || op.SetMaxValuationAge? || op.Pause? || op.Unpause? || op.TransferOwnership?
    || op.RenounceOwnership? || op.TimePasses?
  }

  ghost predicate SameMoney(s: State, t: State) {
    && t.cash == s.cash && t.supply == s.supply && t.accountedCash == s.accountedCash
    && t.externalAssetsValue == s.externalAssetsValue && t.externalCapitalOutstanding == s.externalCapitalOutstanding
    && t.pendingClaimableAssets == s.pendingClaimableAssets
  }

  lemma SettingsKeepMoney(s: State, caller: Address, op: Op)
    requires !op.PusdArrives?
    ensures var o := ApplySettings(s, caller, op); o.Done? ==> SameMoney(s, o.state)
  {
  }

  lemma QuietCallsKeepMoney(s: State, call: Call)
    requires IsQuiet(call.op)
    ensures SameMoney(s, Step(s, call))
  {
    match call.op
    case Transfer(_, _) =>
    case TransferFrom(_, _, _) =>
    case Approve(_, _) =>
    case RequestRedeem(_, _, _, _) =>
    case CancelRedemption(_) =>
    case _ => SettingsKeepMoney(s, call.caller, call.op);
  }

  lemma EntryKeepsPrice(s: State, call: Call)
    requires Valid(s) && (call.op.Deposit? || call.op.Mint?)
    ensures PriceOf(s) <= PriceOf(Step(s, call))
  {
    hide Enter, MaxDeposit, MaxMint, PriceOf, Valid, ValuationFresh;
    match call.op
    case Deposit(assets, receiver, pulled) =>
      EnterPrice(s, assets, PreviewDeposit(s, assets), receiver, pulled, PreviewDeposit(s, assets));
    case Mint(shares, receiver, pulled) =>
      EnterPrice(s, PreviewMint(s, shares), shares, receiver, pulled, PreviewMint(s, shares));
  }

  lemma ExitKeepsPrice(s: State, call: Call)
    requires Valid(s) && (call.op.Withdraw? || call.op.Redeem?)
    ensures PriceOf(s) <= PriceOf(Step(s, call))
  {
    hide Leave, MaxWithdraw, MaxRedeem, PriceOf, Valid;
    match call.op
    case Withdraw(assets, receiver, holder) =>
      if assets <= FreeCash(s) {
        LeavePrice(s, call.caller, assets, PreviewWithdraw(s, assets), receiver, holder, PreviewWithdraw(s, assets));
      }
    case Redeem(shares, receiver, holder) =>
      if PreviewRedeem(s, shares) <= FreeCash(s) {
        LeavePrice(s, call.caller, PreviewRedeem(s, shares), shares, receiver, holder, PreviewRedeem(s, shares));
      }
  }

  /** No call except a sync or an outside valuation lowers the share price. */
  lemma StepKeepsPrice(s: State, call: Call)
    requires Valid(s) && Genuine(s.self, call) && !call.op.SyncReturnedCapital? && !call.op.RecordValuation?
    ensures PriceOf(s) <= PriceOf(Step(s, call))
  {
    hide ApplyDeposit, ApplyMint, ApplyWithdraw, ApplyRedeem, ApplyMakeClaimable, ApplyClaim, ApplyTransfer,
         ApplyTransferFrom, ApplyApprove, ApplyRequestRedeem, ApplyCancel, ApplyAllocate;
    match call.op
    case Deposit(_, _, _) => EntryKeepsPrice(s, call);
    case Mint(_, _, _) => EntryKeepsPrice(s, call);
    case Withdraw(_, _, _) => ExitKeepsPrice(s, call);
    case Redeem(_, _, _) => ExitKeepsPrice(s, call);
    case MakeClaimable(id) => MakeClaimablePrice(s, call.caller, id);
    case ClaimRedemption(id) => ClaimPrice(s, id);
    case Allocate(amount, proposal) => AllocatePrice(s, call.caller, amount, proposal);
    case PusdArrives(amount) => MoreAssetsRaisePrice(TotalAssets(s), TotalAssets(Step(s, call)), s.supply);
    case _ => QuietCallsKeepMoney(s, call);
  }

  /** Calls that set `accountedCash` to the whole balance. */
  predicate ResetsAccounting(op: Op) {
    || op.Deposit? || op.Mint? || op.Withdraw? || op.Redeem? || op.ClaimRedemption? || op.Allocate?
    || op.SyncReturnedCapital?
  }

  /** A redemption of `shares` would pay the same after a sync. */
  predicate PaysAsSettled(s: State, caller: Address, shares: nat) {
    PreviewRedeem(s, shares) == PreviewRedeem(Step(s, Call(caller, SyncReturnedCapital)), shares)
  }

  /** What `makeRedemptionClaimable` asks of its caller. */
  predicate MayBePaid(s: State, caller: Address, id: nat) {
    && IsOperatorOrOwner(s, caller) && HasState(s, id, Pending)
    && s.requests[id].minAssets <= PreviewRedeem(s, s.requests[id].shares) <= FreeCash(s)
  }

  lemma SyncSettles(s: State, caller: Address)
    requires Valid(s)
    ensures var t := Step(s, Call(caller, SyncReturnedCapital));
            TotalAssets(t) == SettledAssets(s) && t.supply == s.supply
  {
  }

  /** Making a redemption claimable keeps the settled price exactly when syncing first would not change the payout. */
  lemma MakeClaimableSettledPriceIff(s: State, caller: Address, id: nat)
    requires Valid(s) && MayBePaid(s, caller, id)
    ensures var o := ApplyMakeClaimable(s, caller, id);
            && o.Done? && Valid(o.state)
            && (SettledPrice(s) <= SettledPrice(o.state) <==> PaysAsSettled(s, caller, s.requests[id].shares))
  {
    hide Floor, Price;
    MakeClaimableIff(s, caller, id);
    var o, shares := ApplyMakeClaimable(s, caller, id), s.requests[id].shares;
    MakeClaimableKeepsValid(s, Call(caller, MakeClaimable(id)));
    MakeClaimableAmounts(s, caller, id);
    ExitPriceIff(SettledAssets(s), s.supply, o.value, shares);
    SyncSettles(s, caller);
    CheaperIff(shares, SettledAssets(s) + 1, TotalAssets(s) + 1, s.supply + 1);
  }

  /** A payout at the higher price fits the lower one exactly when both prices pay the same. */
  lemma CheaperIff(x: nat, y: nat, y': nat, d: nat)
    requires d > 0 && y <= y'
    ensures Floor(x, y', d) * d <= x * y <==> Floor(x, y', d) == Floor(x, y, d)
  {
    FloorGalois(x, y', d, Floor(x, y, d));
    FloorGalois(x, y, d, Floor(x, y', d));
    assert x * y' - x * y == x * (y' - y) >= 0;
  }

  lemma MakeClaimableAmounts(s: State, caller: Address, id: nat)
    requires Valid(s) && ApplyMakeClaimable(s, caller, id).Done?
    requires Valid(ApplyMakeClaimable(s, caller, id).state)
    ensures var o := ApplyMakeClaimable(s, caller, id);
            && o.value <= SettledAssets(s) && s.requests[id].shares <= s.supply
            && SettledAssets(o.state) == SettledAssets(s) - o.value
            && o.state.supply == s.supply - s.requests[id].shares
            && o.value * (s.supply + 1) <= s.requests[id].shares * (TotalAssets(s) + 1)
  {
  }

  lemma CountedTwicePays()
    ensures MayBePaid(CountedTwice(), 5, 1) && PreviewRedeem(CountedTwice(), 100) == 149
    ensures !PaysAsSettled(CountedTwice(), 5, 100)
  {
    assert TotalAssets(CountedTwice()) == 300;
    assert PreviewRedeem(CountedTwice(), 100) == 149;
  }

  /** For instance, here the queued half is paid 149 of what is really 200, and the remaining shares lose. */
  lemma UnsyncedReturnLowersSettledPrice()
    ensures Valid(CountedTwice())
    ensures var o := ApplyMakeClaimable(CountedTwice(), 5, 1);
            o.Done? && o.value == 149 && Valid(o.state) && SettledPrice(o.state) < SettledPrice(CountedTwice())
  {
    CountedTwiceIsValid();
    CountedTwicePays();
    hide PaysAsSettled, Valid, SettledPrice, Floor;
    MakeClaimableSettledPriceIff(CountedTwice(), 5, 1);
  }

  lemma ResettingCallSettles(s: State, call: Call)
    requires Valid(s) && Genuine(s.self, call) && ResetsAccounting(call.op) && !call.op.SyncReturnedCapital?
    requires Apply(s, call.caller, call.op).Done?
    ensures Valid(Step(s, call)) && SettledAssets(Step(s, call)) == TotalAssets(Step(s, call))
  {
    StepKeepsValid(s, call);
  }

  lemma ResettingCallKeepsSettledPrice(s: State, call: Call)
    requires Valid(s) && Genuine(s.self, call) && ResetsAccounting(call.op) && !call.op.SyncReturnedCapital?
    requires Apply(s, call.caller, call.op).Done?
    ensures Valid(Step(s, call)) && SettledPrice(s) <= SettledPrice(Step(s, call))
  {
    StepKeepsPrice(s, call);
    ResettingCallSettles(s, call);
    MoreAssetsRaisePrice(SettledAssets(s), TotalAssets(s), s.supply);
  }

  lemma ArrivalsAndSyncs(s: State, call: Call)
    requires Valid(s) && (call.op.SyncReturnedCapital? || call.op.PusdArrives?) && Valid(Step(s, call))
    ensures SettledPrice(s) <= SettledPrice(Step(s, call))
  {
    MoreAssetsRaisePrice(SettledAssets(s), SettledAssets(Step(s, call)), s.supply);
  }

  /** The call pays a redemption that syncing first would have made cheaper. */
  predicate Overpays(s: State, call: Call) {
    && call.op.MakeClaimable? && MayBePaid(s, call.caller, call.op.id)
    && !PaysAsSettled(s, call.caller, s.requests[call.op.id].shares)
  }

  /** With unsynced pUSD taken for returned capital, a call other than an outside valuation keeps the share price
      exactly when it does not overpay a redemption. */
  lemma StepKeepsSettledPriceIff(s: State, call: Call)
    requires Valid(s) && Genuine(s.self, call) && !call.op.RecordValuation?
    ensures Valid(Step(s, call)) && (SettledPrice(s) <= SettledPrice(Step(s, call)) <==> !Overpays(s, call))
  {
    hide SettledPrice, PaysAsSettled;
    StepKeepsValid(s, call);
    if call.op.MakeClaimable? {
      MakeClaimableIff(s, call.caller, call.op.id);
      if MayBePaid(s, call.caller, call.op.id) { MakeClaimableSettledPriceIff(s, call.caller, call.op.id); }
    } else {
      OtherCallsKeepSettledPrice(s, call);
    }
  }

  lemma OtherCallsKeepSettledPrice(s: State, call: Call)
    requires Valid(s) && Genuine(s.self, call) && !call.op.RecordValuation? && !call.op.MakeClaimable?
    requires Valid(Step(s, call))
    ensures SettledPrice(s) <= SettledPrice(Step(s, call))
  {
    if Apply(s, call.caller, call.op).Done? {
      if call.op.SyncReturnedCapital? || call.op.PusdArrives? {
        ArrivalsAndSyncs(s, call);
      } else if IsQuiet(call.op) {
        QuietCallsKeepMoney(s, call);
      } else {
        ResettingCallKeepsSettledPrice(s, call);
      }
    }
  }

  // ----- whole runs -----

  predicate NoSyncOrValuation(calls: seq<Call>) {
    forall c | c in calls :: !c.op.SyncReturnedCapital? && !c.op.RecordValuation?
  }

  /** Over any run of user, operator and owner calls and raw pUSD arrivals, in any order and from any
      callers, the share price never falls. */
  lemma {:induction false} PriceNeverFalls(s: State, calls: seq<Call>)
    requires Valid(s) && AllGenuine(s.self, calls) && NoSyncOrValuation(calls)
    ensures PriceOf(s) <= PriceOf(Run(s, calls))
    decreases calls
  {
    if calls != [] {
      StepKeepsPrice(s, calls[0]);
      StepKeepsValid(s, calls[0]);
      PriceNeverFalls(Step(s, calls[0]), calls[1..]);
    }
  }

  lemma PayoutBetween(s: State, t: State, shares: nat)
    requires PriceOf(s) <= PriceOf(t)
    ensures PreviewRedeem(s, shares) <= PreviewRedeem(t, shares)
  {
    PayoutFollowsPrice(TotalAssets(s), s.supply, TotalAssets(t), t.supply, shares);
  }

  /** So the payout of any number of queued shares only grows while other redemptions go first. */
  lemma QueuedPayoutNeverShrinks(s: State, calls: seq<Call>, shares: nat)
    requires Valid(s) && AllGenuine(s.self, calls) && NoSyncOrValuation(calls)
    ensures PreviewRedeem(s, shares) <= PreviewRedeem(Run(s, calls), shares)
  {
    PriceNeverFalls(s, calls);
    PayoutBetween(s, Run(s, calls), shares);
  }

  /** No redemption in the run is overpaid, and nothing is revalued. */
  ghost predicate NeverOverpays(s: State, calls: seq<Call>)
    decreases calls
  {
    calls == [] || (
      && !calls[0].op.RecordValuation? && !Overpays(s, calls[0])
      && NeverOverpays(Step(s, calls[0]), calls[1..]))
  }

  /** Syncs included, the settled price never falls over such a run. */
  lemma {:induction false} SettledPriceNeverFalls(s: State, calls: seq<Call>)
    requires Valid(s) && AllGenuine(s.self, calls) && NeverOverpays(s, calls)
    ensures Valid(Run(s, calls)) && SettledPrice(s) <= SettledPrice(Run(s, calls))
    decreases calls
  {
    hide Overpays;
    if calls != [] {
      StepKeepsSettledPriceIff(s, calls[0]);
      SettledPriceNeverFalls(Step(s, calls[0]), calls[1..]);
    }
  }

  /** So what any number of shares would be paid after a sync only grows over such a run. */
  lemma SettledPayoutNeverShrinks(s: State, calls: seq<Call>, shares: nat, caller: Address)
    requires Valid(s) && AllGenuine(s.self, calls) && NeverOverpays(s, calls)
    ensures var t, sync := Run(s, calls), Call(caller, SyncReturnedCapital);
            PreviewRedeem(Step(s, sync), shares) <= PreviewRedeem(Step(t, sync), shares)
  {
    hide Step, Run, Floor, Price, SettledAssets, TotalAssets, NeverOverpays, AllGenuine, Valid;
    var t := Run(s, calls);
    SettledPriceNeverFalls(s, calls);
    SyncSettles(s, caller);
    SyncSettles(t, caller);
    PayoutFollowsPrice(SettledAssets(s), s.supply, SettledAssets(t), t.supply, shares);
  }
}
