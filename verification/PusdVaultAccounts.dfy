/** The pUSD vault's books over whole runs: redemption requests, proposal budgets, external capital,
    returned capital, and the honesty of the `max*` views. */
module PusdVaultAccounts {
  import opened MulDiv
  import opened ShareToken
  import opened PusdVault
  import opened PusdVaultInvariant
  import opened PusdVaultPrice

  // ----- redemption requests -----

  predicate Succeeds(s: State, call: Call) { Apply(s, call.caller, call.op).Done? }

  /** pUSD that leaves the vault for request `id` in one call. */
  function Paid(s: State, call: Call, id: nat): int {
    if call.op == ClaimRedemption(id) && Succeeds(s, call) then s.cash - Step(s, call).cash else 0
  }

  /** Shares the owner of request `id` gains by one cancellation of it. */
  function GivenBack(s: State, call: Call, id: nat): int {
    if call.op == CancelRedemption(id) && Succeeds(s, call) && id in s.requests
    then Balance(Step(s, call).balances, s.requests[id].owner) - Balance(s.balances, s.requests[id].owner)
    else 0
  }

  ghost function TotalPaid(s: State, calls: seq<Call>, id: nat): int
    decreases calls
  {
    if calls == [] then 0 else Paid(s, calls[0], id) + TotalPaid(Step(s, calls[0]), calls[1..], id)
  }

  ghost function TotalGivenBack(s: State, calls: seq<Call>, id: nat): int
    decreases calls
  {
    if calls == [] then 0 else GivenBack(s, calls[0], id) + TotalGivenBack(Step(s, calls[0]), calls[1..], id)
  }

  /** How a request may look later on: its terms are fixed, it moves only forward, and once claimable
      its payout is fixed too. */
  predicate Later(r: Request, r': Request) {
    && r' == r.(state := r'.state, claimableAssets := r'.claimableAssets)
    && match r.state
       case Pending => r'.state == Pending ==> r' == r
       case Claimable => r'.state in {Claimable, Claimed} && r'.claimableAssets == r.claimableAssets
       case Claimed => r' == r
       case Cancelled => r' == r
  }

  /** The payout a request has behind it. A receiver that is the vault itself takes nothing out. */
  function Settled(r: Request, self: Address): nat {
    if r.state == Claimed && r.receiver != self then r.claimableAssets else 0
  }

  function Returned(r: Request): nat { if r.state == Cancelled then r.shares else 0 }

  lemma RequestStep(s: State, call: Call, id: nat)
    requires Valid(s) && id in s.requests
    ensures var t := Step(s, call);
            && id in t.requests && Later(s.requests[id], t.requests[id])
            && Settled(t.requests[id], s.self) == Settled(s.requests[id], s.self) + Paid(s, call, id)
            && Returned(t.requests[id]) == Returned(s.requests[id]) + GivenBack(s, call, id)
  {
    hide ApplyDeposit, ApplyMint, ApplyWithdraw, ApplyRedeem, ApplyTransfer, ApplyTransferFrom, ApplyApprove, ApplySync,
         ApplyRecordValuation, ApplyAllocate, ApplySettings, ApplyCancel, ApplyClaim, PreviewRedeem, TotalAssets,
         FreeCash;
    match call.op
    case RequestRedeem(_, _, _, _) =>
    case CancelRedemption(i) => CancelStep(s, call, id);
    case MakeClaimable(i) =>
    case ClaimRedemption(i) => ClaimStep(s, call, id);
    case _ => OtherCallsKeepRequests(s, call);
  }

  lemma CancelStep(s: State, call: Call, id: nat)
    requires Valid(s) && id in s.requests && call.op.CancelRedemption?
    ensures var t := Step(s, call);
            && id in t.requests && Later(s.requests[id], t.requests[id])
            && Settled(t.requests[id], s.self) == Settled(s.requests[id], s.self)
            && Returned(t.requests[id]) == Returned(s.requests[id]) + GivenBack(s, call, id)
  {
  }

  lemma ClaimStep(s: State, call: Call, id: nat)
    requires Valid(s) && id in s.requests && call.op.ClaimRedemption?
    ensures var t := Step(s, call);
            && id in t.requests && Later(s.requests[id], t.requests[id])
            && Settled(t.requests[id], s.self) == Settled(s.requests[id], s.self) + Paid(s, call, id)
            && Returned(t.requests[id]) == Returned(s.requests[id])
  {
    hide ApplyDeposit, ApplyMint, ApplyWithdraw, ApplyRedeem, ApplyTransfer, ApplyTransferFrom, ApplyApprove, ApplySync,
         ApplyRecordValuation, ApplyRequestRedeem, ApplyAllocate, ApplySettings, ApplyCancel, ApplyMakeClaimable,
         Total, TotalOwed, TotalEscrowed, TotalAssets, FreeCash;
  }

  lemma OtherCallsKeepRequests(s: State, call: Call)
    requires !call.op.RequestRedeem? && !call.op.CancelRedemption? && !call.op.MakeClaimable?
             && !call.op.ClaimRedemption?
    ensures Step(s, call).requests == s.requests
  {
    hide ApplyDeposit, ApplyMint, ApplyWithdraw, ApplyRedeem, ApplyTransfer, ApplyTransferFrom, ApplyApprove, ApplySync,
         ApplyRecordValuation, ApplyRequestRedeem, ApplyCancel, ApplyMakeClaimable, ApplyClaim, ApplySettings;
  }

  /** Over any run a request keeps its terms, moves only forward, takes pUSD out of the vault at most once and then
      exactly its fixed claimable amount, or gives its owner shares at most once and then exactly the escrowed
      number. */
  lemma {:induction false} RequestEndsOnce(s: State, calls: seq<Call>, id: nat)
    requires Valid(s) && AllGenuine(s.self, calls) && id in s.requests
    ensures var t := Run(s, calls);
            && id in t.requests && Later(s.requests[id], t.requests[id])
            && Settled(t.requests[id], s.self) == Settled(s.requests[id], s.self) + TotalPaid(s, calls, id)
            && Returned(t.requests[id]) == Returned(s.requests[id]) + TotalGivenBack(s, calls, id)
    decreases calls
  {
    if calls != [] {
      RequestStep(s, calls[0], id);
      StepKeepsValid(s, calls[0]);
      RequestEndsOnce(Step(s, calls[0]), calls[1..], id);
    }
  }

  /** From a pending request, a run ends in one of three ways: nothing yet, all shares back and no pUSD,
      or no shares back and one payment of at least `minAssets`. */
  lemma PendingOutcome(s: State, calls: seq<Call>, id: nat)
    requires Valid(s) && AllGenuine(s.self, calls) && HasState(s, id, Pending)
    ensures var r, paid, back := s.requests[id], TotalPaid(s, calls, id), TotalGivenBack(s, calls, id);
            var t := Run(s, calls);
            && id in t.requests
            && (t.requests[id].state in {Pending, Claimable} ==> paid == 0 && back == 0)
            && (t.requests[id].state == Cancelled ==> paid == 0 && back == r.shares)
            && (t.requests[id].state == Claimed ==> back == 0)
            && (t.requests[id].state == Claimed && r.receiver != s.self ==> paid >= r.minAssets)
  {
    RequestEndsOnce(s, calls, id);
    RunKeepsValid(s, calls);
  }

  // ----- proposal budgets and external capital -----

  /** pUSD sent to the Deposit Wallet under `proposal` by one call. */
  function Sent(s: State, call: Call, proposal: Hash): nat {
    if call.op.Allocate? && call.op.proposal == proposal && Succeeds(s, call) then call.op.amount else 0
  }

  ghost function TotalSent(s: State, calls: seq<Call>, proposal: Hash): nat
    decreases calls
  {
    if calls == [] then 0 else Sent(s, calls[0], proposal) + TotalSent(Step(s, calls[0]), calls[1..], proposal)
  }

  predicate Activates(call: Call, proposal: Hash) { call.op.ActivateProposal? && call.op.proposal == proposal }

  predicate Revokes(call: Call, proposal: Hash) { call.op.RevokeProposal? && call.op.proposal == proposal }

  lemma OtherCallsKeepBudgets(s: State, call: Call)
    requires !call.op.Allocate? && !call.op.ActivateProposal? && !call.op.RevokeProposal?
    ensures Step(s, call).proposalRemaining == s.proposalRemaining
  {
    hide ApplyDeposit, ApplyMint, ApplyWithdraw, ApplyRedeem, ApplyTransfer, ApplyTransferFrom, ApplyApprove, ApplySync,
         ApplyRecordValuation, ApplyRequestRedeem, ApplyCancel, ApplyMakeClaimable, ApplyClaim, ApplySettings;
  }

  lemma BudgetStep(s: State, call: Call, proposal: Hash)
    requires !Activates(call, proposal)
    ensures Sent(s, call, proposal) + Remaining(Step(s, call), proposal) <= Remaining(s, proposal)
    ensures !Revokes(call, proposal) ==>
              Sent(s, call, proposal) + Remaining(Step(s, call), proposal) == Remaining(s, proposal)
  {
    match call.op
    case Allocate(_, _) =>
    case ActivateProposal(_, _) =>
    case RevokeProposal(_) =>
    case _ => OtherCallsKeepBudgets(s, call);
  }

  /** Without a new activation, what is sent under a proposal comes out of what remained; all of it is
      accounted for unless the owner revokes the rest. */
  lemma {:induction false} BudgetConserved(s: State, calls: seq<Call>, proposal: Hash)
    requires forall c | c in calls :: !Activates(c, proposal)
    ensures TotalSent(s, calls, proposal) + Remaining(Run(s, calls), proposal) <= Remaining(s, proposal)
    ensures (forall c | c in calls :: !Revokes(c, proposal)) ==>
              TotalSent(s, calls, proposal) + Remaining(Run(s, calls), proposal) == Remaining(s, proposal)
    decreases calls
  {
    if calls != [] {
      BudgetStep(s, calls[0], proposal);
      BudgetConserved(Step(s, calls[0]), calls[1..], proposal);
    }
  }

  /** Since its last activation, a proposal never sends more than the owner activated. */
  lemma ActivationCapsSpending(s: State, caller: Address, proposal: Hash, allocation: nat, calls: seq<Call>)
    requires Succeeds(s, Call(caller, ActivateProposal(proposal, allocation)))
    requires forall c | c in calls :: !Activates(c, proposal)
    ensures TotalSent(Step(s, Call(caller, ActivateProposal(proposal, allocation))), calls, proposal) <= allocation
  {
    BudgetConserved(Step(s, Call(caller, ActivateProposal(proposal, allocation))), calls, proposal);
  }

  function Allocated(s: State, call: Call): nat {
    if call.op.Allocate? && Succeeds(s, call) then call.op.amount else 0
  }

  /** Principal that a sync recognises as returned. */
  function Recognised(s: State, call: Call): nat {
    if call.op.SyncReturnedCapital? && s.cash > s.accountedCash
    then Min(s.cash - s.accountedCash, s.externalCapitalOutstanding) else 0
  }

  ghost function TotalAllocated(s: State, calls: seq<Call>): nat
    decreases calls
  {
    if calls == [] then 0 else Allocated(s, calls[0]) + TotalAllocated(Step(s, calls[0]), calls[1..])
  }

  ghost function TotalRecognised(s: State, calls: seq<Call>): nat
    decreases calls
  {
    if calls == [] then 0 else Recognised(s, calls[0]) + TotalRecognised(Step(s, calls[0]), calls[1..])
  }

  lemma OutstandingStep(s: State, call: Call)
    ensures Step(s, call).externalCapitalOutstanding + Recognised(s, call)
            == s.externalCapitalOutstanding + Allocated(s, call)
  {
    hide ApplyDeposit, ApplyMint, ApplyWithdraw, ApplyRedeem, ApplyTransfer, ApplyTransferFrom, ApplyApprove,
         ApplyRecordValuation, ApplyRequestRedeem, ApplyCancel, ApplyMakeClaimable, ApplyClaim, ApplySettings;
  }

  /** Outstanding external capital is all that was ever allocated minus all principal ever recognised. */
  lemma {:induction false} OutstandingIsAllocatedMinusRecognised(s: State, calls: seq<Call>)
    ensures Run(s, calls).externalCapitalOutstanding + TotalRecognised(s, calls)
            == s.externalCapitalOutstanding + TotalAllocated(s, calls)
    decreases calls
  {
    if calls != [] {
      OutstandingStep(s, calls[0]);
      OutstandingIsAllocatedMinusRecognised(Step(s, calls[0]), calls[1..]);
    }
  }

  /** pUSD sent straight to the vault. */
  function Arrived(call: Call): nat { if call.op.PusdArrives? then call.op.amount else 0 }

  ghost function TotalArrived(calls: seq<Call>): nat
    decreases calls
  {
    if calls == [] then 0 else Arrived(calls[0]) + TotalArrived(calls[1..])
  }

  lemma RecognisedStep(s: State, call: Call)
    requires Valid(s) && Genuine(s.self, call)
    ensures Valid(Step(s, call)) && Recognised(s, call) + Unsynced(Step(s, call)) <= Unsynced(s) + Arrived(call)
  {
    StepKeepsValid(s, call);
    if !Succeeds(s, call) || call.op.PusdArrives? || call.op.SyncReturnedCapital? {
    } else if ResetsAccounting(call.op) {
      ResettingCallsMatchCash(s, call);
    } else {
      OtherCallsKeepAccounting(s, call);
    }
  }

  /** Principal is recognised only for pUSD that was sent to the vault and never counted as its own: over any run, what
      is recognised and what waits to be are no more than what waited and what arrived. */
  lemma {:induction false} RecognisedHasArrived(s: State, calls: seq<Call>)
    requires Valid(s) && AllGenuine(s.self, calls)
    ensures Valid(Run(s, calls))
    ensures TotalRecognised(s, calls) + Unsynced(Run(s, calls)) <= Unsynced(s) + TotalArrived(calls)
    decreases calls
  {
    hide Valid, Recognised, Unsynced;
    if calls != [] {
      RecognisedStep(s, calls[0]);
      RecognisedHasArrived(Step(s, calls[0]), calls[1..]);
    }
  }

  lemma {:induction false} NothingArrives(calls: seq<Call>)
    requires forall c | c in calls :: !c.op.PusdArrives?
    ensures TotalArrived(calls) == 0
    decreases calls
  {
    if calls != [] { NothingArrives(calls[1..]); }
  }

  /** Every allocation leaves the external value within the configured share of total assets and so within 80 %, and
      free cash above the idle reserve, even if the Deposit Wallet is the vault; if not, total assets are as before. */
  lemma AllocationWithinLimits(s: State, call: Call)
    requires Valid(s) && call.op.Allocate? && Succeeds(s, call)
    ensures var t := Step(s, call);
            && TotalAssets(t) == TotalAssets(s) + (if WalletIsElsewhere(s) then 0 else call.op.amount)
            && t.externalAssetsValue * BPS_DENOMINATOR <= s.externalBps * TotalAssets(t)
            && t.externalAssetsValue * 10 <= 8 * TotalAssets(t)
            && (FreeCash(t) + 1) * BPS_DENOMINATOR > s.idleBps * TotalAssets(t)
  {
    var t := Step(s, call);
    var kept := if WalletIsElsewhere(s) then 0 else call.op.amount;
    AllocateKeepsAssetsIff(s, call.caller, call.op.amount, call.op.proposal);
    ShareOfAssets(TotalAssets(s), kept, s.externalBps, s.idleBps, t.externalAssetsValue, FreeCash(t));
  }

  lemma ShareOfAssets(nav: nat, kept: nat, external: nat, idle: nat, value: nat, free: nat)
    requires LimitsOk(external, idle)
    requires value <= Floor(nav, external, BPS_DENOMINATOR) && Floor(nav, idle, BPS_DENOMINATOR) + kept <= free
    ensures value * BPS_DENOMINATOR <= external * (nav + kept) && value * 10 <= 8 * (nav + kept)
    ensures (free + 1) * BPS_DENOMINATOR > idle * (nav + kept)
  {
    FloorGalois(nav, external, BPS_DENOMINATOR, value);
    FloorGalois(nav, idle, BPS_DENOMINATOR, free - kept + 1);
    hide Floor;
    Grows(nav, kept, external, MAX_EXTERNAL_ALLOCATION_BPS);
    Grows(nav, kept, idle, BPS_DENOMINATOR);
  }

  lemma Grows(nav: nat, kept: nat, bps: nat, most: nat)
    requires bps <= most
    ensures nav * bps <= bps * (nav + kept) <= nav * bps + kept * most && nav * bps <= nav * most
  {
    assert bps * (nav + kept) == nav * bps + kept * bps;
    assert kept * (most - bps) == kept * most - kept * bps >= 0;
    assert nav * (most - bps) == nav * most - nav * bps >= 0;
  }

  // ----- returned capital -----

  lemma {:induction false} QuietRunKeepsMoney(s: State, calls: seq<Call>)
    requires forall c | c in calls :: IsQuiet(c.op)
    ensures SameMoney(s, Run(s, calls))
    decreases calls
  {
    if calls != [] {
      QuietCallsKeepMoney(s, calls[0]);
      QuietRunKeepsMoney(Step(s, calls[0]), calls[1..]);
    }
  }

  /** A return of `amount` pUSD, any calls that leave the accounting alone, then a sync: total assets grow by
      exactly the part beyond the value carried for outside capital, and principal falls by what it covers. */
  lemma ReturnThenSync(s: State, amount: nat, quiet: seq<Call>, a: Address, b: Address)
    requires Valid(s) && Unsynced(s) == 0 && forall c | c in quiet :: IsQuiet(c.op)
    ensures var t := Step(Run(Step(s, Call(a, PusdArrives(amount))), quiet), Call(b, SyncReturnedCapital));
            && TotalAssets(t)
               == TotalAssets(s) + (if amount > s.externalAssetsValue then amount - s.externalAssetsValue else 0)
            && t.externalCapitalOutstanding == s.externalCapitalOutstanding - Min(amount, s.externalCapitalOutstanding)
            && t.accountedCash == t.cash == s.cash + amount
  {
    var u := Step(s, Call(a, PusdArrives(amount)));
    QuietRunKeepsMoney(u, quiet);
    ArrivalAdds(s, amount, a);
    SyncIs(Run(u, quiet), b);
    hide Step, Run, TotalAssets, ApplySync;
    SyncAfterReturn(s, amount, Run(u, quiet));
  }

  lemma ArrivalAdds(s: State, amount: nat, a: Address)
    ensures SameMoney(s.(cash := s.cash + amount), Step(s, Call(a, PusdArrives(amount))))
  {
  }

  lemma SyncIs(u: State, b: Address)
    ensures ApplySync(u).Done? && Step(u, Call(b, SyncReturnedCapital)) == ApplySync(u).state
  {
  }

  lemma SyncAfterReturn(s: State, amount: nat, u: State)
    requires s.pendingClaimableAssets <= s.cash == s.accountedCash && SameMoney(s.(cash := s.cash + amount), u)
    ensures ApplySync(u).Done?
    ensures var t := ApplySync(u).state;
            && TotalAssets(t)
               == TotalAssets(s) + (if amount > s.externalAssetsValue then amount - s.externalAssetsValue else 0)
            && t.externalCapitalOutstanding == s.externalCapitalOutstanding - Min(amount, s.externalCapitalOutstanding)
            && t.accountedCash == t.cash == s.cash + amount
  {
  }

  lemma OtherCallsKeepAccounting(s: State, call: Call)
    requires !ResetsAccounting(call.op) && !call.op.PusdArrives?
    ensures Step(s, call).cash == s.cash && Step(s, call).accountedCash == s.accountedCash
  {
    match call.op
    case MakeClaimable(_) =>
    case RecordValuation(_, _, _, _, _) =>
    case _ => QuietCallsKeepMoney(s, call);
  }

  /** What a call that resets the accounting asks for. */
  predicate Accepts(s: State, call: Call) {
    match call.op
    case Deposit(assets, receiver, pulled) =>
      !s.paused && ValuationFresh(s) && assets <= MaxDeposit(s) && pulled && receiver != ZERO
    case Mint(shares, receiver, pulled) =>
      !s.paused && ValuationFresh(s) && shares <= MaxMint(s) && pulled && receiver != ZERO
    case Withdraw(assets, receiver, holder) =>
      && !s.paused && assets <= MaxWithdraw(s, holder) && holder != ZERO && receiver != ZERO
      && MaySpend(s.allowances, holder, call.caller, PreviewWithdraw(s, assets))
    case Redeem(shares, receiver, holder) =>
      && !s.paused && shares <= MaxRedeem(s, holder) && holder != ZERO && receiver != ZERO
      && MaySpend(s.allowances, holder, call.caller, shares)
    case ClaimRedemption(id) => HasState(s, id, Claimable)
    case Allocate(amount, proposal) =>
      && !s.paused && IsOperatorOrOwner(s, call.caller) && ValuationFresh(s) && 0 < amount <= Remaining(s, proposal)
      && s.externalAssetsValue + amount <= Floor(TotalAssets(s), s.externalBps, BPS_DENOMINATOR)
      && Floor(TotalAssets(s), s.idleBps, BPS_DENOMINATOR) + amount <= FreeCash(s)
    case _ => true
  }

  lemma AcceptsWithdrawal(s: State, caller: Address, assets: nat, receiver: Address, holder: Address)
    requires Valid(s)
    ensures var call := Call(caller, Withdraw(assets, receiver, holder)); Succeeds(s, call) <==> Accepts(s, call)
  {
    if assets <= MaxWithdraw(s, holder) {
      ThereAndBack(Balance(s.balances, holder), TotalAssets(s) + 1, s.supply + 1, assets);
      BalanceWithinSupply(s, holder);
    }
  }

  lemma AcceptsRedemption(s: State, caller: Address, shares: nat, receiver: Address, holder: Address)
    requires Valid(s)
    ensures var call := Call(caller, Redeem(shares, receiver, holder)); Succeeds(s, call) <==> Accepts(s, call)
  {
    if shares <= MaxRedeem(s, holder) {
      ThereAndBack(FreeCash(s), s.supply + 1, TotalAssets(s) + 1, shares);
      BalanceWithinSupply(s, holder);
    }
  }

  lemma AcceptsIff(s: State, call: Call)
    requires Valid(s) && ResetsAccounting(call.op)
    ensures Succeeds(s, call) <==> Accepts(s, call)
  {
    match call.op
    case Withdraw(assets, receiver, holder) => AcceptsWithdrawal(s, call.caller, assets, receiver, holder);
    case Redeem(shares, receiver, holder) => AcceptsRedemption(s, call.caller, shares, receiver, holder);
    case ClaimRedemption(id) =>
      if HasState(s, id, Claimable) { ClaimableIsPayable(s, call.caller, id); }
    case _ =>
  }

  /** A return waits to be synced through a call exactly when the call is none of those that set the accounted cash to
      the balance, or is one whose conditions are not met. */
  lemma ReturnSurvivesIff(s: State, amount: nat, a: Address, call: Call)
    requires Valid(s) && Unsynced(s) == 0 && amount > 0
    requires Genuine(s.self, call) && !call.op.PusdArrives? && !call.op.SyncReturnedCapital?
    ensures var u := Step(s, Call(a, PusdArrives(amount)));
            var v := Step(u, call);
            && Valid(u) && Valid(v)
            && Unsynced(v) == if ResetsAccounting(call.op) && Accepts(u, call) then 0 else amount
  {
    hide Accepts;
    var u := Step(s, Call(a, PusdArrives(amount)));
    assert Valid(u) by { SettingsKeepValid(s, a, PusdArrives(amount)); }
    StepKeepsValid(u, call);
    if ResetsAccounting(call.op) { AcceptsIff(u, call); }
    if Succeeds(u, call) {
      if ResetsAccounting(call.op) { ResettingCallsMatchCash(u, call); } else { OtherCallsKeepAccounting(u, call); }
    }
  }

  /** A return that did not survive is lost for good: whatever is called after it, as long as no more pUSD is sent, no
      principal is recognised, so the principal outside is what it was and what is allocated on top. */
  lemma SwallowedReturnIsLost(s: State, calls: seq<Call>)
    requires Valid(s) && Unsynced(s) == 0 && AllGenuine(s.self, calls) && forall c | c in calls :: !c.op.PusdArrives?
    ensures TotalRecognised(s, calls) == 0
    ensures Run(s, calls).externalCapitalOutstanding == s.externalCapitalOutstanding + TotalAllocated(s, calls)
  {
    RecognisedHasArrived(s, calls);
    NothingArrives(calls);
    OutstandingIsAllocatedMinusRecognised(s, calls);
  }

  /** The vault of `CountedTwice` before its 100 came back, and after they did and someone deposited 1. */
  function BeforeReturn(): State { CountedTwice().(cash := 100) }

  function AfterDeposit(): State {
    Step(Step(BeforeReturn(), Call(2, PusdArrives(100))), Call(3, Deposit(1, 3, true)))
  }

  lemma DepositSwallows()
    ensures Valid(BeforeReturn()) && Unsynced(BeforeReturn()) == 0
    ensures Valid(AfterDeposit()) && Unsynced(AfterDeposit()) == 0
    ensures AfterDeposit().externalCapitalOutstanding == 100 && AfterDeposit().self == 1
  {
    assert 3 != ZERO;
    hide *;
    ReturnedIsValid();
    ReturnArrives();
    DepositKeepsPrincipal(CountedTwice(), 3, 1, 3);
    DepositTakesReturn(BeforeReturn(), 100, 2, 3, 1, 3);
    AfterDepositIs();
  }

  lemma AfterDepositIs()
    ensures AfterDeposit() == Step(Step(BeforeReturn(), Call(2, PusdArrives(100))), Call(3, Deposit(1, 3, true)))
  {
  }

  lemma DepositTakesReturn(s: State, amount: nat, a: Address, caller: Address, assets: nat, receiver: Address)
    requires Valid(s) && Unsynced(s) == 0 && amount > 0 && caller != s.self && caller != ZERO
    requires var deposit := Call(caller, Deposit(assets, receiver, true));
             Accepts(Step(s, Call(a, PusdArrives(amount))), deposit)
    ensures var v := Step(Step(s, Call(a, PusdArrives(amount))), Call(caller, Deposit(assets, receiver, true)));
            Valid(v) && Unsynced(v) == 0
  {
    hide Valid, Step, Accepts, Unsynced;
    ReturnSurvivesIff(s, amount, a, Call(caller, Deposit(assets, receiver, true)));
  }

  lemma ReturnArrives()
    ensures Step(BeforeReturn(), Call(2, PusdArrives(100))) == CountedTwice()
    ensures BeforeReturn().cash == BeforeReturn().accountedCash && BeforeReturn().self == 1 == CountedTwice().self
    ensures CountedTwice().externalCapitalOutstanding == 100
    ensures Valid(BeforeReturn()) ==> Unsynced(BeforeReturn()) == 0
  {
  }

  lemma DepositKeepsPrincipal(s: State, caller: Address, assets: nat, receiver: Address)
    ensures var t := Step(s, Call(caller, Deposit(assets, receiver, true)));
            t.externalCapitalOutstanding == s.externalCapitalOutstanding && t.self == s.self
  {
    hide ApplyDeposit;
  }

  /** For instance, all 100 of the principal come back, someone deposits 1, and 100 stay outstanding. */
  lemma ReturnSwallowedByDeposit(calls: seq<Call>)
    requires AllGenuine(1, calls) && forall c | c in calls :: !c.op.PusdArrives? && !c.op.Allocate?
    ensures Valid(BeforeReturn()) && Unsynced(BeforeReturn()) == 0
    ensures Run(AfterDeposit(), calls).externalCapitalOutstanding == 100
  {
    DepositSwallows();
    hide Valid, Step, Unsynced, CountedTwice, AfterDeposit, BeforeReturn;
    SwallowedReturnIsLost(AfterDeposit(), calls);
    NothingAllocated(AfterDeposit(), calls);
  }

  lemma ReturnedIsValid()
    ensures Valid(BeforeReturn())
    ensures Accepts(CountedTwice(), Call(3, Deposit(1, 3, true)))
  {
    CountedTwiceIsValid();
    hide Total, TotalOwed, TotalEscrowed;
  }

  lemma {:induction false} NothingAllocated(s: State, calls: seq<Call>)
    requires forall c | c in calls :: !c.op.Allocate?
    ensures TotalAllocated(s, calls) == 0
    decreases calls
  {
    if calls != [] { NothingAllocated(Step(s, calls[0]), calls[1..]); }
  }

  lemma ResettingCallsMatchCash(s: State, call: Call)
    requires ResetsAccounting(call.op) && !call.op.SyncReturnedCapital? && Succeeds(s, call)
    ensures Step(s, call).accountedCash == Step(s, call).cash
  {
  }

  // ----- the max views -----

  /** A deposit or mint of something goes through exactly when it is within the stated maximum, the token
      pays and the receiver exists. A paused or stale vault states a maximum of nothing. */
  lemma EntryIff(s: State, caller: Address, amount: nat, receiver: Address, pulled: bool)
    requires Valid(s) && amount > 0
    ensures Apply(s, caller, Deposit(amount, receiver, pulled)).Done? <==>
            amount <= MaxDeposit(s) && pulled && receiver != ZERO
    ensures Apply(s, caller, Mint(amount, receiver, pulled)).Done? <==>
            amount <= MaxMint(s) && pulled && receiver != ZERO
  {
  }

  /** A withdrawal goes through exactly when it is within `maxWithdraw`, the caller may spend the shares and
      the receiver exists: the shares it burns are then covered by the holder, and the cash by the vault. */
  lemma WithdrawIff(s: State, caller: Address, assets: nat, receiver: Address, holder: Address)
    requires Valid(s) && assets > 0 && holder != ZERO
    ensures Apply(s, caller, Withdraw(assets, receiver, holder)).Done? <==>
            && assets <= MaxWithdraw(s, holder) && receiver != ZERO
            && MaySpend(s.allowances, holder, caller, PreviewWithdraw(s, assets))
    ensures assets <= MaxWithdraw(s, holder) ==> PreviewWithdraw(s, assets) <= Balance(s.balances, holder)
  {
    if assets <= MaxWithdraw(s, holder) {
      ThereAndBack(Balance(s.balances, holder), TotalAssets(s) + 1, s.supply + 1, assets);
      BalanceWithinSupply(s, holder);
    }
  }

  /** A redemption goes through exactly when it is within `maxRedeem`: what it pays is then idle cash. */
  lemma RedeemIff(s: State, caller: Address, shares: nat, receiver: Address, holder: Address)
    requires Valid(s) && shares > 0 && holder != ZERO
    ensures Apply(s, caller, Redeem(shares, receiver, holder)).Done? <==>
            && shares <= MaxRedeem(s, holder) && receiver != ZERO && MaySpend(s.allowances, holder, caller, shares)
    ensures shares <= MaxRedeem(s, holder) ==> PreviewRedeem(s, shares) <= FreeCash(s)
  {
    if shares <= MaxRedeem(s, holder) {
      ThereAndBack(FreeCash(s), s.supply + 1, TotalAssets(s) + 1, shares);
      BalanceWithinSupply(s, holder);
    }
  }

  /** Putting pUSD in and redeeming the shares at once never pays more than was put in. */
  lemma DepositThenRedeemNeverGains(s: State, caller: Address, assets: nat, receiver: Address)
    requires Valid(s) && Succeeds(s, Call(caller, Deposit(assets, receiver, true)))
    ensures var o := Apply(s, caller, Deposit(assets, receiver, true)); PreviewRedeem(o.state, o.value) <= assets
  {
    ClampsAreDead(s);
    var shares, before, after := PreviewDeposit(s, assets), TotalAssets(s) + 1, s.supply + 1;
    FloorGalois(shares, before + assets, after + shares, assets + 1);
    hide Floor;
    assert shares * before <= assets * after by { FloorGalois(assets, after, before, shares); }
    ThereAndBackAgain(shares, assets, before, after);
  }

  lemma ThereAndBackAgain(shares: nat, assets: nat, before: nat, after: nat)
    requires shares * before <= assets * after && after > 0
    ensures shares * (before + assets) < (assets + 1) * (after + shares)
  {
    assert shares * (before + assets) == shares * before + shares * assets;
    assert (assets + 1) * (after + shares) == assets * after + assets * shares + after + shares;
  }

  lemma EnterAdds(s: State, assets: nat, shares: nat, receiver: Address, pulled: bool, value: nat)
    requires Valid(s)
    ensures var o := Enter(s, assets, shares, receiver, pulled, value);
            o.Done? ==> TotalAssets(o.state) == TotalAssets(s) + assets && o.value == value
  {
  }

  /** An accepted deposit or mint never lifts total assets above a non-zero deposit cap, and adds exactly
      what the caller paid. */
  lemma EntryRespectsCap(s: State, call: Call)
    requires Valid(s) && (call.op.Deposit? || call.op.Mint?) && Succeeds(s, call)
    ensures var t := Step(s, call);
            var paid := if call.op.Deposit? then call.op.assets else Apply(s, call.caller, call.op).value;
            && TotalAssets(t) == TotalAssets(s) + paid
            && (s.depositCap != 0 && paid > 0 ==> TotalAssets(t) <= s.depositCap)
  {
    hide Enter, Floor, Ceil, TotalAssets, ValuationFresh, PreviewDeposit, PreviewMint, Valid;
    match call.op
    case Deposit(assets, receiver, pulled) =>
      EnterAdds(s, assets, PreviewDeposit(s, assets), receiver, pulled, PreviewDeposit(s, assets));
    case Mint(shares, receiver, pulled) =>
      EnterAdds(s, PreviewMint(s, shares), shares, receiver, pulled, PreviewMint(s, shares));
      MintWithinCap(s, shares);
  }

  lemma MintWithinCap(s: State, shares: nat)
    requires shares <= MaxMint(s)
    ensures s.depositCap != 0 && PreviewMint(s, shares) > 0 ==> TotalAssets(s) + PreviewMint(s, shares) <= s.depositCap
  {
    if s.depositCap != 0 && TotalAssets(s) < s.depositCap {
      ThereAndBack(s.depositCap - TotalAssets(s), s.supply + 1, TotalAssets(s) + 1, shares);
    }
  }
}
