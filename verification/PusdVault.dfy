/** The Polygon pUSD vault as a state machine on values: one function per external call.
    The contract class in `PusdVaultContract` is proved to compute these functions;
    `PusdVaultInvariant`, `PusdVaultPrice`, `PusdVaultAccounts` and `PusdVaultValuation` prove what every run of them
    keeps. */
module PusdVault {
  import opened MulDiv
  import opened ShareToken

  type Hash = nat

  const NO_HASH: Hash := 0
  const MAX_EXTERNAL_ALLOCATION_BPS: nat := 8_000
  const UINT64_SPAN: nat := 0x1_0000_0000_0000_0000

  datatype RequestState = Pending | Claimable | Claimed | Cancelled

  datatype Request = Request(
    owner: Address, receiver: Address, shares: nat, minAssets: nat,
    claimableAssets: nat, requestedAt: nat, state: RequestState)

  datatype Error =
    | Unauthorized | InvalidAddress | InvalidConfiguration | ValuationStale | InvalidValuation
    | ProposalNotActive | ExternalAllocationExceeded | IdleReserveExceeded | InsufficientIdleCash
    | InvalidRedemption | InvalidInitialization
    | EnforcedPause | ExpectedPause | ExceededMax
    | InsufficientBalance | InsufficientAllowance | InvalidAccount | TransferFailed

  /** Storage, plus the three things outside it that calls depend on: the vault's own address,
      its pUSD balance and the block clock. A request id absent from `requests` is in state NONE. */
  datatype State = State(
    self: Address, depositWallet: Address, now: nat, cash: nat,
    supply: nat, balances: map<Address, nat>, allowances: map<(Address, Address), nat>,
    externalAssetsValue: nat, externalCapitalOutstanding: nat, reservedCollateral: nat,
    pendingClaimableAssets: nat, accountedCash: nat,
    proposalRemaining: map<Hash, nat>, requests: map<nat, Request>, nextRequestId: nat,
    depositCap: nat, externalBps: nat, idleBps: nat, maxValuationAge: nat,
    valuationSequence: nat, valuedAt: nat, snapshotHash: Hash,
    owner: Address, operator: Address, valuator: Address, paused: bool)

  /** One external call. `pulled` is the pUSD token's answer to `transferFrom` (the payer's pUSD
      balance and allowance are not the vault's). The last two are environment steps. */
  datatype Op =
    | Deposit(assets: nat, receiver: Address, pulled: bool)
    | Mint(shares: nat, receiver: Address, pulled: bool)
    | Withdraw(assets: nat, receiver: Address, holder: Address)
    | Redeem(shares: nat, receiver: Address, holder: Address)
    | Transfer(to: Address, amount: nat)
    | TransferFrom(from: Address, to: Address, amount: nat)
    | Approve(spender: Address, amount: nat)
    | ActivateProposal(proposal: Hash, allocation: nat)
    | RevokeProposal(proposal: Hash)
    | Allocate(amount: nat, proposal: Hash)
    | SyncReturnedCapital
    | RecordValuation(sequence: nat, value: nat, reserved: nat, at: nat, snapshot: Hash)
    | RequestRedeem(shares: nat, receiver: Address, holder: Address, minAssets: nat)
    | CancelRedemption(id: nat)
    | MakeClaimable(id: nat)
    | ClaimRedemption(id: nat)
    | SetOperator(account: Address)
    | SetValuator(account: Address)
    | SetDepositCap(cap: nat)
    | SetOperationalLimits(external: nat, idle: nat)
    | SetMaxValuationAge(age: nat)
    | Pause | Unpause
    | TransferOwnership(account: Address)
    | RenounceOwnership
    | PusdArrives(amount: nat)
    | TimePasses(seconds: nat)

  datatype Outcome = Done(state: State, value: nat) | Revert(error: Error)

  /** Nothing the vault does changes its own address or its Deposit Wallet. */
  predicate SameVault(s: State, o: Outcome) {
    o.Done? ==> o.state.self == s.self && o.state.depositWallet == s.depositWallet
  }

  /** The frame of the calls that handle neither redemption requests nor proposals. */
  predicate SameBooks(s: State, o: Outcome) {
    o.Done? ==> o.state.requests == s.requests && o.state.proposalRemaining == s.proposalRemaining
  }

  /** Only an allocation and a sync touch the outstanding external capital. */
  predicate SameOutstanding(s: State, o: Outcome) {
    o.Done? ==> o.state.externalCapitalOutstanding == s.externalCapitalOutstanding
  }

  // ----- reading -----

  function Remaining(s: State, proposal: Hash): nat {
    if proposal in s.proposalRemaining then s.proposalRemaining[proposal] else 0
  }

  predicate HasState(s: State, id: nat, state: RequestState) {
    id in s.requests && s.requests[id].state == state
  }

  function FreeCash(s: State): nat {
    if s.cash > s.pendingClaimableAssets then s.cash - s.pendingClaimableAssets else 0
  }

  function TotalAssets(s: State): nat {
    var gross := s.cash + s.externalAssetsValue;
    if gross > s.pendingClaimableAssets then gross - s.pendingClaimableAssets else 0
  }

  predicate ValuationFresh(s: State) {
    || (s.externalAssetsValue == 0 && s.externalCapitalOutstanding == 0)
    || (s.valuedAt != 0 && s.now <= s.valuedAt + s.maxValuationAge)
  }

  function SharesFor(s: State, assets: nat): nat { Floor(assets, s.supply + 1, TotalAssets(s) + 1) }

  function AssetsFor(s: State, shares: nat): nat { Floor(shares, TotalAssets(s) + 1, s.supply + 1) }

  function PreviewDeposit(s: State, assets: nat): nat { SharesFor(s, assets) }

  function PreviewMint(s: State, shares: nat): nat { Ceil(shares, TotalAssets(s) + 1, s.supply + 1) }

  function PreviewWithdraw(s: State, assets: nat): nat { Ceil(assets, s.supply + 1, TotalAssets(s) + 1) }

  function PreviewRedeem(s: State, shares: nat): nat { AssetsFor(s, shares) }

  function MaxDeposit(s: State): nat {
    if s.paused || !ValuationFresh(s) then 0
    else if s.depositCap == 0 then UINT256_MAX
    else if TotalAssets(s) >= s.depositCap then 0
    else Min(UINT256_MAX, s.depositCap - TotalAssets(s))
  }

  function MaxMint(s: State): nat {
    if s.paused || !ValuationFresh(s) then 0
    else if s.depositCap == 0 then UINT256_MAX
    else if TotalAssets(s) >= s.depositCap then 0
    else Min(UINT256_MAX, SharesFor(s, s.depositCap - TotalAssets(s)))
  }

  function MaxWithdraw(s: State, holder: Address): nat {
    if s.paused then 0 else Min(AssetsFor(s, Balance(s.balances, holder)), FreeCash(s))
  }

  function MaxRedeem(s: State, holder: Address): nat {
    if s.paused then 0 else Min(Balance(s.balances, holder), SharesFor(s, FreeCash(s)))
  }

  predicate IsOperatorOrOwner(s: State, a: Address) { a == s.operator || a == s.owner }

  predicate IsValuatorOrOwner(s: State, a: Address) { a == s.valuator || a == s.owner }

  predicate LimitsOk(external: nat, idle: nat) {
    external <= MAX_EXTERNAL_ALLOCATION_BPS && idle <= BPS_DENOMINATOR && external + idle <= BPS_DENOMINATOR
  }

  // ----- share token and pUSD movements -----

  /** The allowance step of an ERC-20 spend: an unlimited allowance is not consumed. */
  function Consume(s: State, holder: Address, spender: Address, n: nat): State
    requires n <= Allowance(s.allowances, holder, spender)
  {
    s.(allowances := Spent(s.allowances, holder, spender, n))
  }

  function Spend(s: State, holder: Address, spender: Address, n: nat): State
    requires MaySpend(s.allowances, holder, spender, n)
  {
    if holder == spender then s else Consume(s, holder, spender, n)
  }

  function MoveShares(s: State, from: Address, to: Address, n: nat): State
    requires n <= Balance(s.balances, from)
  {
    s.(balances := Credit(Debit(s.balances, from, n), to, n))
  }

  function MintShares(s: State, to: Address, n: nat): State {
    s.(balances := Credit(s.balances, to, n), supply := s.supply + n)
  }

  function BurnShares(s: State, from: Address, n: nat): State
    requires n <= Balance(s.balances, from) && n <= s.supply
  {
    s.(balances := Debit(s.balances, from, n), supply := s.supply - n)
  }

  /** pUSD leaves for `to`; a transfer to the vault itself leaves its balance as it was. */
  function CashAfterSending(s: State, to: Address, n: nat): nat
    requires n <= s.cash
  {
    if to == s.self then s.cash else s.cash - n
  }

  // ----- external calls -----

  function Enter(s: State, assets: nat, shares: nat, receiver: Address, pulled: bool, value: nat): (o: Outcome)
    ensures SameVault(s, o)
    ensures SameOutstanding(s, o)
    ensures SameBooks(s, o)
  {
    if !pulled then Revert(TransferFailed)
    else if receiver == ZERO then Revert(InvalidAccount)
    else
      Done(MintShares(s, receiver, shares).(cash := s.cash + assets, accountedCash := s.cash + assets), value)
  }

  function ApplyDeposit(s: State, assets: nat, receiver: Address, pulled: bool): (o: Outcome)
    ensures SameVault(s, o)
    ensures SameOutstanding(s, o)
    ensures SameBooks(s, o)
  {
    if s.paused then Revert(EnforcedPause)
    else if !ValuationFresh(s) then Revert(ValuationStale)
    else if assets > MaxDeposit(s) then Revert(ExceededMax)
    else Enter(s, assets, PreviewDeposit(s, assets), receiver, pulled, PreviewDeposit(s, assets))
  }

  function ApplyMint(s: State, shares: nat, receiver: Address, pulled: bool): (o: Outcome)
    ensures SameVault(s, o)
    ensures SameOutstanding(s, o)
    ensures SameBooks(s, o)
  {
    if s.paused then Revert(EnforcedPause)
    else if !ValuationFresh(s) then Revert(ValuationStale)
    else if shares > MaxMint(s) then Revert(ExceededMax)
    else Enter(s, PreviewMint(s, shares), shares, receiver, pulled, PreviewMint(s, shares))
  }

  /** Shares burned and pUSD sent. */
  function TakenOut(s: State, caller: Address, assets: nat, shares: nat, receiver: Address, holder: Address): State
    requires MaySpend(s.allowances, holder, caller, shares) && shares <= Balance(s.balances, holder)
    requires shares <= s.supply && assets <= s.cash
  {
    var left := CashAfterSending(s, receiver, assets);
    BurnShares(Spend(s, holder, caller, shares), holder, shares).(cash := left, accountedCash := left)
  }

  function Leave(s: State, caller: Address, assets: nat, shares: nat, receiver: Address, holder: Address,
                 value: nat): (o: Outcome)
    ensures SameVault(s, o)
    ensures SameOutstanding(s, o)
    ensures SameBooks(s, o)
  {
    if !MaySpend(s.allowances, holder, caller, shares) then Revert(InsufficientAllowance)
    else if holder == ZERO then Revert(InvalidAccount)
    else if shares > Balance(s.balances, holder) || shares > s.supply then Revert(InsufficientBalance)
    else if receiver == ZERO || assets > s.cash then Revert(TransferFailed)
    else Done(TakenOut(s, caller, assets, shares, receiver, holder), value)
  }

  function ApplyWithdraw(s: State, caller: Address, assets: nat, receiver: Address, holder: Address): (o: Outcome)
    ensures SameVault(s, o)
    ensures SameOutstanding(s, o)
    ensures SameBooks(s, o)
  {
    if s.paused then Revert(EnforcedPause)
    else if assets > FreeCash(s) then Revert(InsufficientIdleCash)
    else if assets > MaxWithdraw(s, holder) then Revert(ExceededMax)
    else Leave(s, caller, assets, PreviewWithdraw(s, assets), receiver, holder, PreviewWithdraw(s, assets))
  }

  function ApplyRedeem(s: State, caller: Address, shares: nat, receiver: Address, holder: Address): (o: Outcome)
    ensures SameVault(s, o)
    ensures SameOutstanding(s, o)
    ensures SameBooks(s, o)
  {
    if s.paused then Revert(EnforcedPause)
    else if PreviewRedeem(s, shares) > FreeCash(s) then Revert(InsufficientIdleCash)
    else if shares > MaxRedeem(s, holder) then Revert(ExceededMax)
    else Leave(s, caller, PreviewRedeem(s, shares), shares, receiver, holder, PreviewRedeem(s, shares))
  }

  function ApplyTransfer(s: State, from: Address, to: Address, amount: nat): (o: Outcome)
    ensures SameVault(s, o)
    ensures SameOutstanding(s, o)
    ensures SameBooks(s, o)
  {
    if from == ZERO || to == ZERO then Revert(InvalidAccount)
    else if amount > Balance(s.balances, from) then Revert(InsufficientBalance)
    else Done(MoveShares(s, from, to, amount), 1)
  }

  function ApplyTransferFrom(s: State, caller: Address, from: Address, to: Address, amount: nat): (o: Outcome)
    ensures SameVault(s, o)
    ensures SameOutstanding(s, o)
    ensures SameBooks(s, o)
  {
    // An ERC-20 `transferFrom` consumes an allowance even when the caller moves its own shares.
    if amount > Allowance(s.allowances, from, caller) then Revert(InsufficientAllowance)
    else ApplyTransfer(Consume(s, from, caller, amount), from, to, amount)
  }

  function ApplyApprove(s: State, caller: Address, spender: Address, amount: nat): (o: Outcome)
    ensures SameVault(s, o)
    ensures SameOutstanding(s, o)
    ensures SameBooks(s, o)
  {
    if caller == ZERO || spender == ZERO then Revert(InvalidAccount)
    else Done(s.(allowances := s.allowances[(caller, spender) := amount]), 1)
  }

  /** An allocation booked and sent. */
  function Booked(s: State, amount: nat, proposal: Hash): State
    requires amount <= Remaining(s, proposal) && amount <= s.cash
  {
    var left := CashAfterSending(s, s.depositWallet, amount);
    s.(proposalRemaining := s.proposalRemaining[proposal := Remaining(s, proposal) - amount],
       externalAssetsValue := s.externalAssetsValue + amount,
       externalCapitalOutstanding := s.externalCapitalOutstanding + amount,
       valuedAt := s.now % UINT64_SPAN,
       cash := left, accountedCash := left)
  }

  function ApplyAllocate(s: State, caller: Address, amount: nat, proposal: Hash): (o: Outcome)
    ensures SameVault(s, o)
  {
    var nav := TotalAssets(s);
    if s.paused then Revert(EnforcedPause)
    else if !IsOperatorOrOwner(s, caller) then Revert(Unauthorized)
    else if !ValuationFresh(s) then Revert(ValuationStale)
    else if amount == 0 || amount > Remaining(s, proposal) then Revert(ProposalNotActive)
    else if s.externalAssetsValue + amount > Floor(nav, s.externalBps, BPS_DENOMINATOR)
      then Revert(ExternalAllocationExceeded)
    else if amount > FreeCash(s) then Revert(InsufficientIdleCash)
    else if FreeCash(s) - amount < Floor(nav, s.idleBps, BPS_DENOMINATOR) then Revert(IdleReserveExceeded)
    else Done(Booked(s, amount, proposal), 0)
  }

  function ApplySync(s: State): (o: Outcome)
    ensures SameVault(s, o)
    ensures SameBooks(s, o)
  {
    if s.cash <= s.accountedCash then Done(s, 0)
    else
      var returned := s.cash - s.accountedCash;
      Done(s.(
        externalCapitalOutstanding := s.externalCapitalOutstanding - Min(returned, s.externalCapitalOutstanding),
        externalAssetsValue := s.externalAssetsValue - Min(returned, s.externalAssetsValue),
        accountedCash := s.cash), returned)
  }

  function ApplyRecordValuation(s: State, caller: Address, op: Op): (o: Outcome)
    requires op.RecordValuation?
    ensures SameVault(s, o)
    ensures SameOutstanding(s, o)
    ensures SameBooks(s, o)
  {
    if !IsValuatorOrOwner(s, caller) then Revert(Unauthorized)
    else if op.sequence <= s.valuationSequence || op.at == 0 || op.at > s.now || op.snapshot == NO_HASH
      then Revert(InvalidValuation)
    else Done(s.(
      valuationSequence := op.sequence, externalAssetsValue := op.value, reservedCollateral := op.reserved,
      valuedAt := op.at, snapshotHash := op.snapshot), 0)
  }

  /** Shares escrowed and a request filed. */
  function Filed(s: State, caller: Address, shares: nat, receiver: Address, holder: Address, minAssets: nat): State
    requires MaySpend(s.allowances, holder, caller, shares) && shares <= Balance(s.balances, holder)
  {
    var request := Request(holder, receiver, shares, minAssets, 0, s.now % UINT64_SPAN, Pending);
    MoveShares(Spend(s, holder, caller, shares), holder, s.self, shares)
    .(requests := s.requests[s.nextRequestId := request], nextRequestId := s.nextRequestId + 1)
  }

  function ApplyRequestRedeem(s: State, caller: Address, shares: nat, receiver: Address, holder: Address,
                              minAssets: nat): (o: Outcome)
    ensures SameVault(s, o)
    ensures o.Done? ==> o.state.proposalRemaining == s.proposalRemaining
    ensures SameOutstanding(s, o)
  {
    if s.paused then Revert(EnforcedPause)
    else if shares == 0 || receiver == ZERO || holder == ZERO then Revert(InvalidRedemption)
    else if !MaySpend(s.allowances, holder, caller, shares) then Revert(InsufficientAllowance)
    else if shares > Balance(s.balances, holder) then Revert(InsufficientBalance)
    else Done(Filed(s, caller, shares, receiver, holder, minAssets), s.nextRequestId)
  }

  function ApplyCancel(s: State, caller: Address, id: nat): (o: Outcome)
    ensures SameVault(s, o)
    ensures o.Done? ==> o.state.proposalRemaining == s.proposalRemaining
    ensures SameOutstanding(s, o)
  {
    if !HasState(s, id, Pending) || caller != s.requests[id].owner then Revert(InvalidRedemption)
    else
      var request := s.requests[id];
      if request.owner == ZERO then Revert(InvalidAccount)
      else if request.shares > Balance(s.balances, s.self) then Revert(InsufficientBalance)
      else Done(MoveShares(s, s.self, request.owner, request.shares)
                .(requests := s.requests[id := request.(state := Cancelled)]), 0)
  }

  function ApplyMakeClaimable(s: State, caller: Address, id: nat): (o: Outcome)
    ensures SameVault(s, o)
    ensures o.Done? ==> o.state.proposalRemaining == s.proposalRemaining
    ensures SameOutstanding(s, o)
  {
    if !IsOperatorOrOwner(s, caller) then Revert(Unauthorized)
    else if !HasState(s, id, Pending) then Revert(InvalidRedemption)
    else
      var request := s.requests[id];
      var assets := PreviewRedeem(s, request.shares);
      if assets < request.minAssets || assets > FreeCash(s) then Revert(InsufficientIdleCash)
      else if request.shares > Balance(s.balances, s.self) || request.shares > s.supply then Revert(InsufficientBalance)
      else Done(BurnShares(s, s.self, request.shares)
                .(requests := s.requests[id := request.(state := Claimable, claimableAssets := assets)],
                  pendingClaimableAssets := s.pendingClaimableAssets + assets), assets)
  }

  /** A claim paid out. */
  function PaidOut(s: State, id: nat): State
    requires id in s.requests
    requires s.requests[id].claimableAssets <= s.pendingClaimableAssets && s.requests[id].claimableAssets <= s.cash
  {
    var request := s.requests[id];
    var left := CashAfterSending(s, request.receiver, request.claimableAssets);
    s.(requests := s.requests[id := request.(state := Claimed)],
       pendingClaimableAssets := s.pendingClaimableAssets - request.claimableAssets,
       cash := left, accountedCash := left)
  }

  function ApplyClaim(s: State, id: nat): (o: Outcome)
    ensures SameVault(s, o)
    ensures o.Done? ==> o.state.proposalRemaining == s.proposalRemaining
    ensures SameOutstanding(s, o)
  {
    if !HasState(s, id, Claimable) then Revert(InvalidRedemption)
    else
      var request := s.requests[id];
      var assets := request.claimableAssets;
      if assets > s.pendingClaimableAssets || assets > s.cash || request.receiver == ZERO then Revert(TransferFailed)
      else Done(PaidOut(s, id), assets)
  }

  function OwnerOnly(s: State, caller: Address, result: Outcome): Outcome {
    if caller != s.owner then Revert(Unauthorized) else result
  }

  function ApplySettings(s: State, caller: Address, op: Op): (o: Outcome)
    ensures SameVault(s, o)
    ensures SameOutstanding(s, o)
    ensures o.Done? ==> o.state.requests == s.requests
    ensures o.Done? && !op.ActivateProposal? && !op.RevokeProposal? ==> SameBooks(s, o)
  {
    match op
    case ActivateProposal(proposal, allocation) => OwnerOnly(s, caller,
      if proposal == NO_HASH || allocation == 0 then Revert(InvalidConfiguration)
      else Done(s.(proposalRemaining := s.proposalRemaining[proposal := allocation]), 0))
    case RevokeProposal(proposal) => OwnerOnly(s, caller,
      Done(s.(proposalRemaining := s.proposalRemaining - {proposal}), 0))
    case SetOperator(account) => OwnerOnly(s, caller,
      if account == ZERO then Revert(InvalidAddress) else Done(s.(operator := account), 0))
    case SetValuator(account) => OwnerOnly(s, caller,
      if account == ZERO then Revert(InvalidAddress) else Done(s.(valuator := account), 0))
    case SetDepositCap(cap) => OwnerOnly(s, caller, Done(s.(depositCap := cap), 0))
    case SetOperationalLimits(external, idle) => OwnerOnly(s, caller,
      if !LimitsOk(external, idle) then Revert(InvalidConfiguration)
      else Done(s.(externalBps := external, idleBps := idle), 0))
    case SetMaxValuationAge(age) => OwnerOnly(s, caller,
      if age == 0 then Revert(InvalidConfiguration) else Done(s.(maxValuationAge := age), 0))
    case Pause => OwnerOnly(s, caller, if s.paused then Revert(EnforcedPause) else Done(s.(paused := true), 0))
    case Unpause => OwnerOnly(s, caller, if !s.paused then Revert(ExpectedPause) else Done(s.(paused := false), 0))
    case TransferOwnership(account) => OwnerOnly(s, caller,
      if account == ZERO then Revert(InvalidAddress) else Done(s.(owner := account), 0))
    case RenounceOwnership => OwnerOnly(s, caller, Done(s.(owner := ZERO), 0))
    case PusdArrives(amount) => Done(s.(cash := s.cash + amount), 0)
    case TimePasses(seconds) => Done(s.(now := s.now + seconds), 0)
    case _ => Done(s, 0)
  }

  function Apply(s: State, caller: Address, op: Op): (o: Outcome)
    ensures SameVault(s, o)
  {
    match op
    case Deposit(assets, receiver, pulled) => ApplyDeposit(s, assets, receiver, pulled)
    case Mint(shares, receiver, pulled) => ApplyMint(s, shares, receiver, pulled)
    case Withdraw(assets, receiver, holder) => ApplyWithdraw(s, caller, assets, receiver, holder)
    case Redeem(shares, receiver, holder) => ApplyRedeem(s, caller, shares, receiver, holder)
    case Transfer(to, amount) => ApplyTransfer(s, caller, to, amount)
    case TransferFrom(from, to, amount) => ApplyTransferFrom(s, caller, from, to, amount)
    case Approve(spender, amount) => ApplyApprove(s, caller, spender, amount)
    case Allocate(amount, proposal) => ApplyAllocate(s, caller, amount, proposal)
    case SyncReturnedCapital => ApplySync(s)
    case RecordValuation(_, _, _, _, _) => ApplyRecordValuation(s, caller, op)
    case RequestRedeem(shares, receiver, holder, minAssets) =>
      ApplyRequestRedeem(s, caller, shares, receiver, holder, minAssets)
    case CancelRedemption(id) => ApplyCancel(s, caller, id)
    case MakeClaimable(id) => ApplyMakeClaimable(s, caller, id)
    case ClaimRedemption(id) => ApplyClaim(s, id)
    case _ => ApplySettings(s, caller, op)
  }

  // ----- runs -----

  /** A transaction: who sent it and what it calls. */
  datatype Call = Call(caller: Address, op: Op)

  /** The vault never calls itself and no transaction comes from the zero address. */
  predicate Genuine(self: Address, call: Call) { call.caller != self && call.caller != ZERO }

  predicate AllGenuine(self: Address, calls: seq<Call>) { forall c | c in calls :: Genuine(self, c) }

  /** A reverted call leaves no trace. */
  function Step(s: State, call: Call): State {
    match Apply(s, call.caller, call.op)
    case Done(t, _) => t
    case Revert(_) => s
  }

  function Run(s: State, calls: seq<Call>): State
    decreases calls
  {
    if calls == [] then s else Run(Step(s, calls[0]), calls[1..])
  }
}
