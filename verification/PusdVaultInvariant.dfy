/** The invariant of the pUSD vault, kept by every external call, and what follows from it state by state. */
module PusdVaultInvariant {
  import opened ShareToken
  import opened PusdVault

  // ----- sums over the requests -----

  /** What a request counts for in a sum over requests: its claimable assets, or its escrowed shares. */
  function Owed(r: Request): nat { if r.state == Claimable then r.claimableAssets else 0 }

  function Escrowed(r: Request): nat { if r.state == Pending then r.shares else 0 }

  /** Sum of `Owed` over request ids below `n`. */
  ghost function TotalOwed(requests: map<nat, Request>, n: nat): nat {
    if n == 0 then 0
    else TotalOwed(requests, n - 1) + (if n - 1 in requests then Owed(requests[n - 1]) else 0)
  }

  /** Sum of `Escrowed` over request ids below `n`. */
  ghost function TotalEscrowed(requests: map<nat, Request>, n: nat): nat {
    if n == 0 then 0
    else TotalEscrowed(requests, n - 1) + (if n - 1 in requests then Escrowed(requests[n - 1]) else 0)
  }

  lemma {:induction false} SumsUpdate(requests: map<nat, Request>, id: nat, r: Request, n: nat)
    ensures TotalOwed(requests[id := r], n) ==
            TotalOwed(requests, n)
            + (if id < n then Owed(r) - (if id in requests then Owed(requests[id]) else 0) else 0)
    ensures TotalEscrowed(requests[id := r], n) ==
            TotalEscrowed(requests, n)
            + (if id < n then Escrowed(r) - (if id in requests then Escrowed(requests[id]) else 0) else 0)
  {
    if n > 0 { SumsUpdate(requests, id, r, n - 1); }
  }

  /** One request never counts for more than all of them. */
  lemma {:induction false} PartOfSums(requests: map<nat, Request>, id: nat, n: nat)
    requires id < n && id in requests
    ensures Owed(requests[id]) <= TotalOwed(requests, n)
    ensures Escrowed(requests[id]) <= TotalEscrowed(requests, n)
  {
    if id < n - 1 { PartOfSums(requests, id, n - 1); }
  }

  // ----- the invariant -----

  ghost predicate LedgerOk(s: State) { s.supply == Total(s.balances) }

  /** The vault never grants an allowance on its own shares. */
  ghost predicate NoVaultAllowance(s: State) { forall a: Address :: Allowance(s.allowances, s.self, a) == 0 }

  ghost predicate RequestsOk(s: State) {
    forall id | id in s.requests ::
      && id < s.nextRequestId
      && s.requests[id].owner != ZERO && s.requests[id].owner != s.self && s.requests[id].receiver != ZERO
      && (s.requests[id].state in {Claimable, Claimed} ==> s.requests[id].minAssets <= s.requests[id].claimableAssets)
  }

  ghost predicate CashOk(s: State) {
    && s.pendingClaimableAssets == TotalOwed(s.requests, s.nextRequestId)
    && s.pendingClaimableAssets <= s.cash
    && s.accountedCash <= s.cash
  }

  ghost predicate EscrowOk(s: State) {
    TotalEscrowed(s.requests, s.nextRequestId) <= Balance(s.balances, s.self)
  }

  ghost predicate SettingsOk(s: State) {
    && s.self != ZERO && s.depositWallet != ZERO
    && LimitsOk(s.externalBps, s.idleBps) && s.maxValuationAge > 0
  }

  ghost predicate Valid(s: State) {
    LedgerOk(s) && NoVaultAllowance(s) && RequestsOk(s) && CashOk(s) && EscrowOk(s) && SettingsOk(s)
  }

  /** The state `initialize` leaves: no shares, no requests, and whatever pUSD was already there accounted for. */
  ghost predicate Initial(s: State) {
    && s.self != ZERO && s.depositWallet != ZERO && s.owner != ZERO && s.operator != ZERO && s.valuator != ZERO
    && s.supply == 0 && s.balances == map[] && s.allowances == map[]
    && s.externalAssetsValue == 0 && s.externalCapitalOutstanding == 0 && s.reservedCollateral == 0
    && s.pendingClaimableAssets == 0 && s.accountedCash == s.cash
    && s.proposalRemaining == map[] && s.requests == map[] && s.nextRequestId == 1
    && LimitsOk(s.externalBps, s.idleBps) && s.maxValuationAge > 0
    && s.valuationSequence == 0 && s.valuedAt == 0 && s.snapshotHash == NO_HASH && !s.paused
  }

  lemma InitialIsValid(s: State)
    requires Initial(s)
    ensures Valid(s)
  {
    assert TotalOwed(s.requests, 1) == TotalOwed(s.requests, 0);
    assert TotalEscrowed(s.requests, 1) == TotalEscrowed(s.requests, 0);
  }

  lemma BalanceWithinSupply(s: State, a: Address)
    requires LedgerOk(s)
    ensures Balance(s.balances, a) <= s.supply
  {
    BalanceWithinTotal(s.balances, a);
  }

  // ----- every call keeps it -----

  lemma EnterKeepsValid(s: State, assets: nat, shares: nat, receiver: Address, pulled: bool, value: nat)
    requires Valid(s)
    ensures var o := Enter(s, assets, shares, receiver, pulled, value); o.Done? ==> Valid(o.state)
  {
    CreditTotal(s.balances, receiver, shares);
    var o := Enter(s, assets, shares, receiver, pulled, value);
    if o.Done? { assert o.state.allowances == s.allowances; }
  }

  lemma SpendKeepsAllowances(s: State, holder: Address, spender: Address, n: nat)
    requires NoVaultAllowance(s) && MaySpend(s.allowances, holder, spender, n) && spender != s.self
    ensures NoVaultAllowance(Spend(s, holder, spender, n))
  {
    var t := Spend(s, holder, spender, n);
    assert Allowance(s.allowances, s.self, spender) == 0;
    forall a: Address ensures Allowance(t.allowances, s.self, a) == 0 {
      assert Allowance(s.allowances, s.self, a) == 0;
    }
  }

  lemma LeaveKeepsValid(s: State, caller: Address, assets: nat, shares: nat, receiver: Address, holder: Address,
                        value: nat)
    requires Valid(s) && caller != s.self && assets <= FreeCash(s)
    ensures var o := Leave(s, caller, assets, shares, receiver, holder, value); o.Done? ==> Valid(o.state)
  {
    var o := Leave(s, caller, assets, shares, receiver, holder, value);
    if o.Done? {
      SpendKeepsAllowances(s, holder, caller, shares);
      DebitTotal(s.balances, holder, shares);
      assert Allowance(s.allowances, s.self, caller) == 0;
      var t := Spend(s, holder, caller, shares);
      assert o.state.allowances == t.allowances;
    }
  }

  lemma MoveKeepsLedger(s: State, from: Address, to: Address, n: nat)
    requires LedgerOk(s) && n <= Balance(s.balances, from)
    ensures LedgerOk(MoveShares(s, from, to, n))
  {
    DebitTotal(s.balances, from, n);
    CreditTotal(Debit(s.balances, from, n), to, n);
  }

  lemma TransferKeepsValid(s: State, from: Address, to: Address, amount: nat)
    requires Valid(s) && from != s.self
    ensures var o := ApplyTransfer(s, from, to, amount); o.Done? ==> Valid(o.state)
  {
    var o := ApplyTransfer(s, from, to, amount);
    if o.Done? {
      MoveKeepsLedger(s, from, to, amount);
      assert o.state.allowances == s.allowances;
    }
  }

  lemma ConsumeKeepsValid(s: State, holder: Address, spender: Address, n: nat)
    requires Valid(s) && n <= Allowance(s.allowances, holder, spender)
    ensures Valid(Consume(s, holder, spender, n))
  {
    var t := Consume(s, holder, spender, n);
    forall a: Address ensures Allowance(t.allowances, s.self, a) == 0 {
      assert Allowance(s.allowances, s.self, a) == 0;
    }
  }

  /** In the vault's own name others can make only empty transfers. */
  lemma EmptyTransferKeepsValid(s: State, to: Address)
    requires Valid(s)
    ensures var o := ApplyTransfer(s, s.self, to, 0); o.Done? ==> Valid(o.state)
  {
    var t := MoveShares(s, s.self, to, 0);
    MoveKeepsLedger(s, s.self, to, 0);
    assert Balance(t.balances, s.self) == Balance(s.balances, s.self);
    assert t.allowances == s.allowances;
  }

  lemma TransferFromKeepsValid(s: State, caller: Address, from: Address, to: Address, amount: nat)
    requires Valid(s) && caller != s.self
    ensures var o := ApplyTransferFrom(s, caller, from, to, amount); o.Done? ==> Valid(o.state)
  {
    assert Allowance(s.allowances, s.self, caller) == 0;
    if amount <= Allowance(s.allowances, from, caller) {
      ConsumeKeepsValid(s, from, caller, amount);
      var t := Consume(s, from, caller, amount);
      if from != s.self { TransferKeepsValid(t, from, to, amount); } else { EmptyTransferKeepsValid(t, to); }
    }
  }

  lemma ApproveKeepsValid(s: State, caller: Address, spender: Address, amount: nat)
    requires Valid(s) && caller != s.self
    ensures var o := ApplyApprove(s, caller, spender, amount); o.Done? ==> Valid(o.state)
  {
    var o := ApplyApprove(s, caller, spender, amount);
    if o.Done? {
      assert forall a: Address :: Allowance(o.state.allowances, s.self, a) == Allowance(s.allowances, s.self, a);
    }
  }

  lemma MoneyCallsKeepValid(s: State, call: Call)
    requires Valid(s) && Genuine(s.self, call)
    requires call.op.Allocate? || call.op.SyncReturnedCapital? || call.op.RecordValuation?
    ensures Valid(Step(s, call))
  {
    assert Step(s, call).allowances == s.allowances;
  }

  lemma SettingsKeepValid(s: State, caller: Address, op: Op)
    requires Valid(s)
    ensures var o := ApplySettings(s, caller, op); o.Done? ==> Valid(o.state)
  {
    hide Total, TotalOwed, TotalEscrowed, Allowance, Balance;
  }

  lemma RequestKeepsValid(s: State, call: Call)
    requires Valid(s) && Genuine(s.self, call) && call.op.RequestRedeem?
    ensures Valid(Step(s, call))
  {
    if Apply(s, call.caller, call.op).Done? {
      assert Allowance(s.allowances, s.self, call.caller) == 0;
      hide Filed, Valid;
      FiledKeepsValid(s, call.caller, call.op.shares, call.op.receiver, call.op.holder, call.op.minAssets);
    }
  }

  lemma FiledKeepsValid(s: State, caller: Address, shares: nat, receiver: Address, holder: Address, minAssets: nat)
    requires Valid(s) && caller != s.self && receiver != ZERO && holder != ZERO && shares > 0
    requires MaySpend(s.allowances, holder, caller, shares) && shares <= Balance(s.balances, holder)
    ensures Valid(Filed(s, caller, shares, receiver, holder, minAssets))
  {
    var t := Filed(s, caller, shares, receiver, holder, minAssets);
    assert Allowance(s.allowances, s.self, caller) == 0;
    assert holder != s.self;
    SpendKeepsAllowances(s, holder, caller, shares);
    var spent := Spend(s, holder, caller, shares);
    MoveKeepsLedger(spent, holder, s.self, shares);
    SumsUpdate(s.requests, s.nextRequestId, t.requests[s.nextRequestId], s.nextRequestId);
    assert t.allowances == spent.allowances;
    hide Total, TotalOwed, TotalEscrowed, Allowance;
    assert s.nextRequestId !in s.requests;
  }

  lemma CancelKeepsValid(s: State, call: Call)
    requires Valid(s) && call.op.CancelRedemption?
    ensures Valid(Step(s, call))
  {
    var o := Apply(s, call.caller, call.op);
    if o.Done? {
      var id := call.op.id;
      MoveKeepsLedger(s, s.self, s.requests[id].owner, s.requests[id].shares);
      SumsUpdate(s.requests, id, o.state.requests[id], s.nextRequestId);
      assert o.state.allowances == s.allowances;
    }
  }

  lemma MakeClaimableKeepsValid(s: State, call: Call)
    requires Valid(s) && call.op.MakeClaimable?
    ensures Valid(Step(s, call))
  {
    var o := Apply(s, call.caller, call.op);
    if o.Done? {
      var id := call.op.id;
      DebitTotal(s.balances, s.self, s.requests[id].shares);
      SumsUpdate(s.requests, id, o.state.requests[id], s.nextRequestId);
      assert o.state.allowances == s.allowances;
    }
  }

  lemma ClaimKeepsValid(s: State, call: Call)
    requires Valid(s) && call.op.ClaimRedemption?
    ensures Valid(Step(s, call))
  {
    var o := Apply(s, call.caller, call.op);
    if o.Done? {
      var id := call.op.id;
      SumsUpdate(s.requests, id, o.state.requests[id], s.nextRequestId);
      assert o.state.allowances == s.allowances;
    }
  }

  lemma StepKeepsValid(s: State, call: Call)
    requires Valid(s) && Genuine(s.self, call)
    ensures Valid(Step(s, call))
  {
    hide Valid, Enter, Leave, ApplyTransfer, ApplyTransferFrom, ApplyApprove, ApplyAllocate, ApplySync,
         ApplyRecordValuation, ApplyRequestRedeem, ApplyCancel, ApplyMakeClaimable, ApplyClaim, ApplySettings,
         PreviewDeposit, PreviewMint, PreviewWithdraw, PreviewRedeem, MaxDeposit, MaxMint, MaxWithdraw, MaxRedeem;
    var op := call.op;
    match op
    case Deposit(assets, receiver, pulled) =>
      EnterKeepsValid(s, assets, PreviewDeposit(s, assets), receiver, pulled, PreviewDeposit(s, assets));
    case Mint(shares, receiver, pulled) =>
      EnterKeepsValid(s, PreviewMint(s, shares), shares, receiver, pulled, PreviewMint(s, shares));
    case Withdraw(assets, receiver, holder) =>
      if assets <= FreeCash(s) {
        var shares := PreviewWithdraw(s, assets);
        LeaveKeepsValid(s, call.caller, assets, shares, receiver, holder, shares);
      }
    case Redeem(shares, receiver, holder) =>
      if PreviewRedeem(s, shares) <= FreeCash(s) {
        LeaveKeepsValid(s, call.caller, PreviewRedeem(s, shares), shares, receiver, holder, PreviewRedeem(s, shares));
      }
    case Transfer(to, amount) => TransferKeepsValid(s, call.caller, to, amount);
    case TransferFrom(from, to, amount) => TransferFromKeepsValid(s, call.caller, from, to, amount);
    case Approve(spender, amount) => ApproveKeepsValid(s, call.caller, spender, amount);
    case RequestRedeem(_, _, _, _) => RequestKeepsValid(s, call);
    case CancelRedemption(_) => CancelKeepsValid(s, call);
    case MakeClaimable(_) => MakeClaimableKeepsValid(s, call);
    case ClaimRedemption(_) => ClaimKeepsValid(s, call);
    case Allocate(_, _) => MoneyCallsKeepValid(s, call);
    case SyncReturnedCapital => MoneyCallsKeepValid(s, call);
    case RecordValuation(_, _, _, _, _) => MoneyCallsKeepValid(s, call);
    case _ => SettingsKeepValid(s, call.caller, op);
  }

  lemma {:induction false} RunKeepsValid(s: State, calls: seq<Call>)
    requires Valid(s) && AllGenuine(s.self, calls)
    ensures Valid(Run(s, calls))
    ensures Run(s, calls).self == s.self && Run(s, calls).depositWallet == s.depositWallet
    decreases calls
  {
    if calls != [] {
      StepKeepsValid(s, calls[0]);
      RunKeepsValid(Step(s, calls[0]), calls[1..]);
    }
  }

  // ----- consequences in every reachable state -----

  /** The clamps in `freeCash` and `totalAssets` never fire. */
  lemma ClampsAreDead(s: State)
    requires Valid(s)
    ensures FreeCash(s) == s.cash - s.pendingClaimableAssets
    ensures TotalAssets(s) == s.cash + s.externalAssetsValue - s.pendingClaimableAssets
    ensures FreeCash(s) <= TotalAssets(s)
  {
  }

  /** A claimable request can be claimed by anyone, at any time, paused or not, and pays in full. */
  lemma ClaimableIsPayable(s: State, caller: Address, id: nat)
    requires Valid(s) && HasState(s, id, Claimable)
    ensures var o := Apply(s, caller, ClaimRedemption(id));
            o.Done? && o.value == s.requests[id].claimableAssets >= s.requests[id].minAssets
  {
    PartOfSums(s.requests, id, s.nextRequestId);
  }

  /** The owner of a pending request can always cancel it and gets exactly the escrowed shares back. */
  lemma PendingIsCancellable(s: State, id: nat)
    requires Valid(s) && HasState(s, id, Pending)
    ensures var r := s.requests[id];
            var o := Apply(s, r.owner, CancelRedemption(id));
            o.Done? && Balance(o.state.balances, r.owner) == Balance(s.balances, r.owner) + r.shares
  {
    PartOfSums(s.requests, id, s.nextRequestId);
  }

  /** Making a pending request claimable is refused only for the stated reasons, never for lack of shares. */
  lemma MakeClaimableIff(s: State, caller: Address, id: nat)
    requires Valid(s)
    ensures Apply(s, caller, MakeClaimable(id)).Done? <==>
            && IsOperatorOrOwner(s, caller) && HasState(s, id, Pending)
            && s.requests[id].minAssets <= PreviewRedeem(s, s.requests[id].shares) <= FreeCash(s)
  {
    if HasState(s, id, Pending) {
      PartOfSums(s.requests, id, s.nextRequestId);
      BalanceWithinSupply(s, s.self);
    }
  }
}
