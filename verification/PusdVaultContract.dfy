/** The pUSD vault contract itself: storage fields that its external functions update step by step.
    Every method is proved to answer, and to leave storage, as `PusdVault.Apply` says. */
module PusdVaultContract {
  import opened MulDiv
  import opened ShareToken
  import opened PusdVault
  import opened PusdVaultInvariant
  import opened PusdVaultPrice

  datatype Response = Ok(value: nat) | Failed(error: Error)

  class TeamIndexPUSDVaultV2 {
    const self: Address
    var initialized: bool
    var now: nat
    var cash: nat
    var supply: nat
    var balances: map<Address, nat>
    var allowances: map<(Address, Address), nat>
    var depositWallet: Address
    var owner: Address
    var operator: Address
    var valuator: Address
    var depositCap: nat
    var externalAssetsValue: nat
    var externalCapitalOutstanding: nat
    var reservedCollateral: nat
    var pendingClaimableAssets: nat
    var externalBps: nat
    var idleBps: nat
    var maxValuationAge: nat
    var valuationSequence: nat
    var valuedAt: nat
    var snapshotHash: Hash
    var accountedCash: nat
    var nextRequestId: nat
    var requests: map<nat, Request>
    var proposalRemaining: map<Hash, nat>
    var paused: bool

    /** Storage as a value. */
    function View(): State
      reads this
    {
      State(self, depositWallet, now, cash, supply, balances, allowances,
            externalAssetsValue, externalCapitalOutstanding, reservedCollateral,
            pendingClaimableAssets, accountedCash, proposalRemaining, requests, nextRequestId,
            depositCap, externalBps, idleBps, maxValuationAge,
            valuationSequence, valuedAt, snapshotHash, owner, operator, valuator, paused)
    }

    /** The call answered and left storage as the specified outcome says. */
    twostate predicate Performed(o: Outcome, r: Response)
      reads this
    {
      match o
      case Done(t, value) => r == Ok(value) && View() == t
      case Revert(error) => r == Failed(error) && View() == old(View())
    }

    /** What every method above performs keeps the vault's invariant, and unless it syncs or revalues the share price:
        the results about the state machine hold of the object. */
    twostate lemma CallKeeps(caller: Address, op: Op, r: Response)
      requires old(Valid(View())) && Genuine(self, Call(caller, op)) && Performed(Apply(old(View()), caller, op), r)
      ensures Valid(View())
      ensures !op.SyncReturnedCapital? && !op.RecordValuation? ==> old(PriceOf(View())) <= PriceOf(View())
    {
      var s, call := old(View()), Call(caller, op);
      assert View() == Step(s, call);
      StepKeepsValid(s, call);
      if !op.SyncReturnedCapital? && !op.RecordValuation? { StepKeepsPrice(s, call); }
    }

    /** A fresh proxy: nothing set, whatever pUSD its address already holds. */
    constructor (address: Address, timestamp: nat, held: nat)
      ensures self == address && now == timestamp && cash == held && !initialized
      ensures supply == 0 && balances == map[] && allowances == map[] && requests == map[] && proposalRemaining == map[]
      ensures externalAssetsValue == externalCapitalOutstanding == reservedCollateral == pendingClaimableAssets == 0
      ensures valuationSequence == valuedAt == 0 && snapshotHash == NO_HASH && !paused
    {
      self, now, cash, initialized := address, timestamp, held, false;
      supply, balances, allowances := 0, map[], map[];
      depositWallet, owner, operator, valuator := ZERO, ZERO, ZERO, ZERO;
      depositCap, externalAssetsValue, externalCapitalOutstanding, reservedCollateral := 0, 0, 0, 0;
      pendingClaimableAssets, externalBps, idleBps, maxValuationAge := 0, 0, 0, 0;
      valuationSequence, valuedAt, snapshotHash, accountedCash := 0, 0, NO_HASH, 0;
      nextRequestId, requests, proposalRemaining, paused := 0, map[], map[], false;
    }

    /** Sets the vault up once, or refuses: on a fresh proxy a success leaves an `Initial` state. */
    method Initialize(asset: Address, cap: nat, initialOwner: Address, initialOperator: Address,
                      initialValuator: Address, wallet: Address, external: nat, idle: nat, age: nat)
      returns (r: Response)
      modifies `initialized, `depositWallet, `owner, `operator, `valuator, `depositCap,
               `externalBps, `idleBps, `maxValuationAge, `nextRequestId, `accountedCash
      ensures r.Ok? <==>
              && !old(initialized) && ZERO !in {asset, initialOwner, initialOperator, initialValuator, wallet}
              && LimitsOk(external, idle) && age > 0
      ensures r.Failed? ==> unchanged(this)
      ensures r.Ok? ==>
              && initialized && depositWallet == wallet && owner == initialOwner && operator == initialOperator
              && valuator == initialValuator && depositCap == cap && externalBps == external && idleBps == idle
              && maxValuationAge == age && nextRequestId == 1 && accountedCash == cash
    {
      if initialized { return Failed(InvalidInitialization); }
      if asset == ZERO || initialOwner == ZERO || initialOperator == ZERO || initialValuator == ZERO || wallet == ZERO {
        return Failed(InvalidAddress);
      }
      if !LimitsOk(external, idle) { return Failed(InvalidConfiguration); }
      if age == 0 { return Failed(InvalidConfiguration); }
      owner := initialOwner;
      depositCap := cap;
      operator := initialOperator;
      valuator := initialValuator;
      depositWallet := wallet;
      externalBps := external;
      idleBps := idle;
      maxValuationAge := age;
      nextRequestId := 1;
      accountedCash := cash;
      initialized := true;
      return Ok(0);
    }

    // ----- inherited ERC-20 steps -----

    method MintTo(to: Address, n: nat)
      modifies this`balances, this`supply
      ensures View() == MintShares(old(View()), to, n)
    {
      supply := supply + n;
      balances := Credit(balances, to, n);
    }

    method BurnFrom(from: Address, n: nat)
      requires n <= Balance(balances, from) && n <= supply
      modifies this`balances, this`supply
      ensures View() == BurnShares(old(View()), from, n)
    {
      balances := Debit(balances, from, n);
      supply := supply - n;
    }

    method Move(from: Address, to: Address, n: nat)
      requires n <= Balance(balances, from)
      modifies this`balances
      ensures View() == MoveShares(old(View()), from, to, n)
    {
      balances := Debit(balances, from, n);
      balances := Credit(balances, to, n);
    }

    method SpendAllowance(holder: Address, spender: Address, n: nat)
      requires n <= Allowance(allowances, holder, spender)
      modifies this`allowances
      ensures View() == Consume(old(View()), holder, spender, n)
    {
      var current := Allowance(allowances, holder, spender);
      if current != UINT256_MAX {
        allowances := allowances[(holder, spender) := current - n];
      }
    }

    method SendCash(to: Address, n: nat)
      requires n <= cash
      modifies this`cash
      ensures View() == old(View()).(cash := CashAfterSending(old(View()), to, n))
    {
      if to != self { cash := cash - n; }
    }

    method TransferShares(caller: Address, to: Address, amount: nat) returns (r: Response)
      modifies `balances
      ensures Performed(ApplyTransfer(old(View()), caller, to, amount), r)
    {
      if caller == ZERO || to == ZERO { return Failed(InvalidAccount); }
      if amount > Balance(balances, caller) { return Failed(InsufficientBalance); }
      Move(caller, to, amount);
      return Ok(1);
    }

    method TransferSharesFrom(caller: Address, from: Address, to: Address, amount: nat) returns (r: Response)
      modifies `balances, `allowances
      ensures Performed(ApplyTransferFrom(old(View()), caller, from, to, amount), r)
    {
      if amount > Allowance(allowances, from, caller) { return Failed(InsufficientAllowance); }
      if from == ZERO || to == ZERO { return Failed(InvalidAccount); }
      if amount > Balance(balances, from) { return Failed(InsufficientBalance); }
      SpendAllowance(from, caller, amount);
      Move(from, to, amount);
      return Ok(1);
    }

    method ApproveShares(caller: Address, spender: Address, amount: nat) returns (r: Response)
      modifies `allowances
      ensures Performed(ApplyApprove(old(View()), caller, spender, amount), r)
    {
      if caller == ZERO || spender == ZERO { return Failed(InvalidAccount); }
      allowances := allowances[(caller, spender) := amount];
      return Ok(1);
    }

    // ----- ERC-4626 entry points -----

    /** `_deposit`: pull the assets, mint, and take the whole balance as accounted for. */
    method Pull(assets: nat, shares: nat, receiver: Address, pulled: bool, value: nat) returns (r: Response)
      modifies `cash, `balances, `supply, `accountedCash
      ensures Performed(Enter(old(View()), assets, shares, receiver, pulled, value), r)
    {
      if !pulled { return Failed(TransferFailed); }
      if receiver == ZERO { return Failed(InvalidAccount); }
      cash := cash + assets;
      MintTo(receiver, shares);
      accountedCash := cash;
      return Ok(value);
    }

    /** `_withdraw`: spend the allowance, burn, send the assets, and account for what is left. */
    method Push(caller: Address, assets: nat, shares: nat, receiver: Address, holder: Address, value: nat)
      returns (r: Response)
      modifies `allowances, `balances, `supply, `cash, `accountedCash
      ensures Performed(Leave(old(View()), caller, assets, shares, receiver, holder, value), r)
    {
      hide TakenOut;
      if !MaySpend(allowances, holder, caller, shares) { return Failed(InsufficientAllowance); }
      if holder == ZERO { return Failed(InvalidAccount); }
      if shares > Balance(balances, holder) || shares > supply { return Failed(InsufficientBalance); }
      if receiver == ZERO || assets > cash { return Failed(TransferFailed); }
      TakeOut(caller, assets, shares, receiver, holder);
      return Ok(value);
    }

    method TakeOut(caller: Address, assets: nat, shares: nat, receiver: Address, holder: Address)
      requires MaySpend(allowances, holder, caller, shares) && shares <= Balance(balances, holder)
      requires shares <= supply && assets <= cash
      modifies `allowances, `balances, `supply, `cash, `accountedCash
      ensures View() == TakenOut(old(View()), caller, assets, shares, receiver, holder)
    {
      if caller != holder { SpendAllowance(holder, caller, shares); }
      BurnFrom(holder, shares);
      SendCash(receiver, assets);
      accountedCash := cash;
    }

    method DepositAssets(caller: Address, assets: nat, receiver: Address, pulled: bool) returns (r: Response)
      modifies `cash, `balances, `supply, `accountedCash
      ensures Performed(ApplyDeposit(old(View()), assets, receiver, pulled), r)
    {
      if paused { return Failed(EnforcedPause); }
      if !ValuationFresh(View()) { return Failed(ValuationStale); }
      if assets > MaxDeposit(View()) { return Failed(ExceededMax); }
      var shares := PreviewDeposit(View(), assets);
      r := Pull(assets, shares, receiver, pulled, shares);
    }

    method MintExact(caller: Address, shares: nat, receiver: Address, pulled: bool) returns (r: Response)
      modifies `cash, `balances, `supply, `accountedCash
      ensures Performed(ApplyMint(old(View()), shares, receiver, pulled), r)
    {
      if paused { return Failed(EnforcedPause); }
      if !ValuationFresh(View()) { return Failed(ValuationStale); }
      if shares > MaxMint(View()) { return Failed(ExceededMax); }
      var assets := PreviewMint(View(), shares);
      r := Pull(assets, shares, receiver, pulled, assets);
    }

    method WithdrawAssets(caller: Address, assets: nat, receiver: Address, holder: Address) returns (r: Response)
      modifies `allowances, `balances, `supply, `cash, `accountedCash
      ensures Performed(ApplyWithdraw(old(View()), caller, assets, receiver, holder), r)
    {
      if paused { return Failed(EnforcedPause); }
      if assets > FreeCash(View()) { return Failed(InsufficientIdleCash); }
      if assets > MaxWithdraw(View(), holder) { return Failed(ExceededMax); }
      var shares := PreviewWithdraw(View(), assets);
      r := Push(caller, assets, shares, receiver, holder, shares);
    }

    method RedeemShares(caller: Address, shares: nat, receiver: Address, holder: Address) returns (r: Response)
      modifies `allowances, `balances, `supply, `cash, `accountedCash
      ensures Performed(ApplyRedeem(old(View()), caller, shares, receiver, holder), r)
    {
      if paused { return Failed(EnforcedPause); }
      if PreviewRedeem(View(), shares) > FreeCash(View()) { return Failed(InsufficientIdleCash); }
      if shares > MaxRedeem(View(), holder) { return Failed(ExceededMax); }
      var assets := PreviewRedeem(View(), shares);
      r := Push(caller, assets, shares, receiver, holder, assets);
    }

    // ----- proposals and external capital -----

    method ActivateNamedProposal(caller: Address, proposal: Hash, allocation: nat) returns (r: Response)
      modifies `proposalRemaining
      ensures Performed(ApplySettings(old(View()), caller, ActivateProposal(proposal, allocation)), r)
    {
      if caller != owner { return Failed(Unauthorized); }
      if proposal == NO_HASH || allocation == 0 { return Failed(InvalidConfiguration); }
      proposalRemaining := proposalRemaining[proposal := allocation];
      return Ok(0);
    }

    method RevokeNamedProposal(caller: Address, proposal: Hash) returns (r: Response)
      modifies `proposalRemaining
      ensures Performed(ApplySettings(old(View()), caller, RevokeProposal(proposal)), r)
    {
      if caller != owner { return Failed(Unauthorized); }
      proposalRemaining := proposalRemaining - {proposal};
      return Ok(0);
    }

    method AllocateToDepositWallet(caller: Address, amount: nat, proposal: Hash) returns (r: Response)
      modifies `proposalRemaining, `externalAssetsValue, `externalCapitalOutstanding, `valuedAt, `cash, `accountedCash
      ensures Performed(ApplyAllocate(old(View()), caller, amount, proposal), r)
    {
      hide Booked, TotalAssets, ValuationFresh, Floor;
      if paused { return Failed(EnforcedPause); }
      if !IsOperatorOrOwner(View(), caller) { return Failed(Unauthorized); }
      if !ValuationFresh(View()) { return Failed(ValuationStale); }
      var remaining := Remaining(View(), proposal);
      if amount == 0 || amount > remaining { return Failed(ProposalNotActive); }
      var nav := TotalAssets(View());
      if externalAssetsValue + amount > Floor(nav, externalBps, BPS_DENOMINATOR) {
        return Failed(ExternalAllocationExceeded);
      }
      if amount > FreeCash(View()) { return Failed(InsufficientIdleCash); }
      if FreeCash(View()) - amount < Floor(nav, idleBps, BPS_DENOMINATOR) { return Failed(IdleReserveExceeded); }
      BookAllocation(amount, proposal);
      return Ok(0);
    }

    method BookAllocation(amount: nat, proposal: Hash)
      requires amount <= Remaining(View(), proposal) && amount <= cash
      modifies `proposalRemaining, `externalAssetsValue, `externalCapitalOutstanding, `valuedAt, `cash, `accountedCash
      ensures View() == Booked(old(View()), amount, proposal)
    {
      hide Remaining;
      var remaining := Remaining(View(), proposal);
      proposalRemaining := proposalRemaining[proposal := remaining - amount];
      AddExternal(amount);
      SendCash(depositWallet, amount);
      accountedCash := cash;
    }

    method AddExternal(amount: nat)
      modifies `externalAssetsValue, `externalCapitalOutstanding, `valuedAt
      ensures View() == old(View()).(externalAssetsValue := old(externalAssetsValue) + amount,
                                     externalCapitalOutstanding := old(externalCapitalOutstanding) + amount,
                                     valuedAt := now % UINT64_SPAN)
    {
      externalAssetsValue := externalAssetsValue + amount;
      externalCapitalOutstanding := externalCapitalOutstanding + amount;
      valuedAt := now % UINT64_SPAN;
    }

    method SyncReturned(caller: Address) returns (r: Response)
      modifies `externalCapitalOutstanding, `externalAssetsValue, `accountedCash
      ensures Performed(ApplySync(old(View())), r)
    {
      if cash <= accountedCash { return Ok(0); }
      var returned := cash - accountedCash;
      externalCapitalOutstanding := externalCapitalOutstanding - Min(returned, externalCapitalOutstanding);
      externalAssetsValue := externalAssetsValue - Min(returned, externalAssetsValue);
      accountedCash := cash;
      return Ok(returned);
    }

    method RecordExternalValuation(caller: Address, sequence: nat, value: nat, reserved: nat, at: nat, snapshot: Hash)
      returns (r: Response)
      modifies `valuationSequence, `externalAssetsValue, `reservedCollateral, `valuedAt, `snapshotHash
      ensures Performed(
                ApplyRecordValuation(old(View()), caller, RecordValuation(sequence, value, reserved, at, snapshot)), r)
    {
      if !IsValuatorOrOwner(View(), caller) { return Failed(Unauthorized); }
      if sequence <= valuationSequence || at == 0 || at > now || snapshot == NO_HASH {
        return Failed(InvalidValuation);
      }
      BookValuation(sequence, value, reserved, at, snapshot);
      return Ok(0);
    }

    method BookValuation(sequence: nat, value: nat, reserved: nat, at: nat, snapshot: Hash)
      modifies `valuationSequence, `externalAssetsValue, `reservedCollateral, `valuedAt, `snapshotHash
      ensures valuationSequence == sequence && externalAssetsValue == value && reservedCollateral == reserved
      ensures valuedAt == at && snapshotHash == snapshot
    {
      valuationSequence := sequence;
      externalAssetsValue := value;
      reservedCollateral := reserved;
      valuedAt := at;
      snapshotHash := snapshot;
    }

    // ----- asynchronous redemptions -----

    method RequestRedemption(caller: Address, shares: nat, receiver: Address, holder: Address, minAssets: nat)
      returns (r: Response)
      modifies `allowances, `balances, `nextRequestId, `requests
      ensures Performed(ApplyRequestRedeem(old(View()), caller, shares, receiver, holder, minAssets), r)
    {
      hide Filed;
      if paused { return Failed(EnforcedPause); }
      if shares == 0 || receiver == ZERO || holder == ZERO { return Failed(InvalidRedemption); }
      if !MaySpend(allowances, holder, caller, shares) { return Failed(InsufficientAllowance); }
      if shares > Balance(balances, holder) { return Failed(InsufficientBalance); }
      FileRequest(caller, shares, receiver, holder, minAssets);
      return Ok(nextRequestId - 1);
    }

    method FileRequest(caller: Address, shares: nat, receiver: Address, holder: Address, minAssets: nat)
      requires MaySpend(allowances, holder, caller, shares) && shares <= Balance(balances, holder)
      modifies `allowances, `balances, `nextRequestId, `requests
      ensures View() == Filed(old(View()), caller, shares, receiver, holder, minAssets)
      ensures nextRequestId == old(nextRequestId) + 1
    {
      if caller != holder { SpendAllowance(holder, caller, shares); }
      Move(holder, self, shares);
      var id := nextRequestId;
      nextRequestId := nextRequestId + 1;
      requests := requests[id := Request(holder, receiver, shares, minAssets, 0, now % UINT64_SPAN, Pending)];
    }

    method CancelRequest(caller: Address, id: nat) returns (r: Response)
      modifies `requests, `balances
      ensures Performed(ApplyCancel(old(View()), caller, id), r)
    {
      if !HasState(View(), id, Pending) || caller != requests[id].owner { return Failed(InvalidRedemption); }
      var request := requests[id];
      if request.owner == ZERO { return Failed(InvalidAccount); }
      if request.shares > Balance(balances, self) { return Failed(InsufficientBalance); }
      requests := requests[id := request.(state := Cancelled)];
      Move(self, request.owner, request.shares);
      return Ok(0);
    }

    method MakeRedemptionClaimable(caller: Address, id: nat) returns (r: Response)
      modifies `requests, `pendingClaimableAssets, `balances, `supply
      ensures Performed(ApplyMakeClaimable(old(View()), caller, id), r)
    {
      if !IsOperatorOrOwner(View(), caller) { return Failed(Unauthorized); }
      if !HasState(View(), id, Pending) { return Failed(InvalidRedemption); }
      var request := requests[id];
      var assets := PreviewRedeem(View(), request.shares);
      if assets < request.minAssets || assets > FreeCash(View()) { return Failed(InsufficientIdleCash); }
      if request.shares > Balance(balances, self) || request.shares > supply { return Failed(InsufficientBalance); }
      requests := requests[id := request.(state := Claimable, claimableAssets := assets)];
      pendingClaimableAssets := pendingClaimableAssets + assets;
      BurnFrom(self, request.shares);
      return Ok(assets);
    }

    method ClaimRequest(caller: Address, id: nat) returns (r: Response)
      modifies `requests, `pendingClaimableAssets, `cash, `accountedCash
      ensures Performed(ApplyClaim(old(View()), id), r)
    {
      hide PaidOut;
      if !HasState(View(), id, Claimable) { return Failed(InvalidRedemption); }
      var request := requests[id];
      var assets := request.claimableAssets;
      if assets > pendingClaimableAssets || assets > cash || request.receiver == ZERO { return Failed(TransferFailed); }
      PayClaim(id);
      return Ok(assets);
    }

    method PayClaim(id: nat)
      requires id in requests
      requires requests[id].claimableAssets <= pendingClaimableAssets && requests[id].claimableAssets <= cash
      modifies `requests, `pendingClaimableAssets, `cash, `accountedCash
      ensures View() == PaidOut(old(View()), id)
    {
      var request := requests[id];
      requests := requests[id := request.(state := Claimed)];
      pendingClaimableAssets := pendingClaimableAssets - request.claimableAssets;
      SendCash(request.receiver, request.claimableAssets);
      accountedCash := cash;
    }

    // ----- the owner's settings -----

    method UpdateOperator(caller: Address, account: Address) returns (r: Response)
      modifies `operator
      ensures Performed(ApplySettings(old(View()), caller, SetOperator(account)), r)
    {
      if caller != owner { return Failed(Unauthorized); }
      if account == ZERO { return Failed(InvalidAddress); }
      operator := account;
      return Ok(0);
    }

    method UpdateValuator(caller: Address, account: Address) returns (r: Response)
      modifies `valuator
      ensures Performed(ApplySettings(old(View()), caller, SetValuator(account)), r)
    {
      if caller != owner { return Failed(Unauthorized); }
      if account == ZERO { return Failed(InvalidAddress); }
      valuator := account;
      return Ok(0);
    }

    method UpdateDepositCap(caller: Address, cap: nat) returns (r: Response)
      modifies `depositCap
      ensures Performed(ApplySettings(old(View()), caller, SetDepositCap(cap)), r)
    {
      if caller != owner { return Failed(Unauthorized); }
      depositCap := cap;
      return Ok(0);
    }

    method UpdateOperationalLimits(caller: Address, external: nat, idle: nat) returns (r: Response)
      modifies `externalBps, `idleBps
      ensures Performed(ApplySettings(old(View()), caller, SetOperationalLimits(external, idle)), r)
    {
      if caller != owner { return Failed(Unauthorized); }
      if !LimitsOk(external, idle) { return Failed(InvalidConfiguration); }
      externalBps := external;
      idleBps := idle;
      return Ok(0);
    }

    method UpdateMaxValuationAge(caller: Address, age: nat) returns (r: Response)
      modifies `maxValuationAge
      ensures Performed(ApplySettings(old(View()), caller, SetMaxValuationAge(age)), r)
    {
      if caller != owner { return Failed(Unauthorized); }
      if age == 0 { return Failed(InvalidConfiguration); }
      maxValuationAge := age;
      return Ok(0);
    }

    method PauseAll(caller: Address) returns (r: Response)
      modifies `paused
      ensures Performed(ApplySettings(old(View()), caller, Pause), r)
    {
      if caller != owner { return Failed(Unauthorized); }
      if paused { return Failed(EnforcedPause); }
      paused := true;
      return Ok(0);
    }

    method UnpauseAll(caller: Address) returns (r: Response)
      modifies `paused
      ensures Performed(ApplySettings(old(View()), caller, Unpause), r)
    {
      if caller != owner { return Failed(Unauthorized); }
      if !paused { return Failed(ExpectedPause); }
      paused := false;
      return Ok(0);
    }

    method HandOver(caller: Address, account: Address) returns (r: Response)
      modifies `owner
      ensures Performed(ApplySettings(old(View()), caller, TransferOwnership(account)), r)
    {
      if caller != owner { return Failed(Unauthorized); }
      if account == ZERO { return Failed(InvalidAddress); }
      owner := account;
      return Ok(0);
    }

    method Renounce(caller: Address) returns (r: Response)
      modifies `owner
      ensures Performed(ApplySettings(old(View()), caller, RenounceOwnership), r)
    {
      if caller != owner { return Failed(Unauthorized); }
      owner := ZERO;
      return Ok(0);
    }
  }

  /** Deploying a proxy and initializing it succeeds exactly on accepted arguments and gives an `Initial`, hence
      `Valid`, vault. */
  method Deploy(address: Address, timestamp: nat, held: nat, asset: Address, cap: nat, initialOwner: Address,
                initialOperator: Address, initialValuator: Address, wallet: Address, external: nat, idle: nat, age: nat)
    returns (vault: TeamIndexPUSDVaultV2, r: Response)
    requires address != ZERO
    ensures fresh(vault)
    ensures r.Ok? <==>
            && ZERO !in {asset, initialOwner, initialOperator, initialValuator, wallet}
            && LimitsOk(external, idle) && age > 0
    ensures r.Ok? ==> Initial(vault.View()) && Valid(vault.View())
    ensures r.Ok? ==>
              var s := vault.View();
              && s.self == address && s.now == timestamp && s.cash == held && s.depositCap == cap
              && s.owner == initialOwner && s.operator == initialOperator && s.valuator == initialValuator
              && s.depositWallet == wallet && s.externalBps == external && s.idleBps == idle
              && s.maxValuationAge == age
  {
    vault := new TeamIndexPUSDVaultV2(address, timestamp, held);
    r := vault.Initialize(asset, cap, initialOwner, initialOperator, initialValuator, wallet, external, idle, age);
    if r.Ok? { InitialIsValid(vault.View()); }
  }
}
