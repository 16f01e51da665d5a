/** The USDC vault contract: storage that its entry points, its fee setter and its list setters update step by step. */
module FeeVaultContract {
  import opened ShareToken
  import opened Wrappers
  import opened FeeVault
  import Lists = AddressLists

  datatype Response = Ok(value: nat) | Failed(error: Error)

  class USDC4626Vault {
    const self: Address
    var owner: Address
    var cash: nat
    var openPositionsValue: nat
    var realizedPnl: int
    var supply: nat
    var balances: map<Address, nat>
    var allowances: map<(Address, Address), nat>
    var entryFeeBps: nat
    var exitFeeBps: nat
    var feeRecipient: Address
    var depositCap: nat
    var paused: bool
    var operators: map<Address, Lists.OperatorInfo>
    var operatorList: seq<Address>
    var whitelisted: set<Address>
    var whitelistedList: seq<Address>
    var trusted: set<Address>
    var trustedList: seq<Address>
    var wallets: set<Address>
    var walletList: seq<Address>

    function View(): State
      reads this
    {
      State(self, owner, cash, openPositionsValue, realizedPnl, supply, balances, allowances,
            entryFeeBps, exitFeeBps, feeRecipient, depositCap, paused)
    }

    function Registry(): Lists.Registry
      reads this
    {
      Lists.Registry(owner, operators, operatorList, whitelisted, whitelistedList, trusted, trustedList,
                     wallets, walletList)
    }

    twostate predicate Performed(o: Outcome, r: Response)
      reads this
    {
      match o
      case Done(t, value) => r == Ok(value) && View() == t
      case Revert(error) => r == Failed(error) && View() == old(View())
    }

    twostate predicate Listed(o: (bool, Lists.Registry), ok: bool)
      reads this
    {
      ok == o.0 && Registry() == o.1
    }

    constructor (address: Address, initialOwner: Address, cap: nat, held: nat)
      ensures View() == State(address, initialOwner, held, 0, 0, 0, map[], map[], 0, 0, ZERO, cap, false)
      ensures Registry() == Lists.Registry(initialOwner, map[], [], {}, [], {}, [], {}, [])
      ensures Lists.AllMirror(Registry())
    {
      self, owner, depositCap, cash := address, initialOwner, cap, held;
      openPositionsValue, realizedPnl, supply, balances, allowances := 0, 0, 0, map[], map[];
      entryFeeBps, exitFeeBps, feeRecipient, paused := 0, 0, ZERO, false;
      operators, operatorList := map[], [];
      whitelisted, whitelistedList, trusted, trustedList, wallets, walletList := {}, [], {}, [], {}, [];
    }

    /** What every call below performs keeps supply the sum of balances, and above water the share price: the results
        about the state machine hold of the object. */
    twostate lemma CallKeeps(caller: Address, op: Op, r: Response)
      requires old(LedgerOk(View())) && Performed(Apply(old(View()), caller, op), r)
      ensures LedgerOk(View())
      ensures old(Gross(View())) >= 0 ==> old(PriceOf(View())) <= PriceOf(View()) && Gross(View()) >= 0
    {
      var s, call := old(View()), Call(caller, op);
      assert View() == Step(s, call);
      StepKeepsLedger(s, call);
      if Gross(s) >= 0 { StepKeepsPrice(s, call); }
    }

    /** And every list call performed keeps each list the mirror of its flags. */
    twostate lemma ListCallKeeps(caller: Address, op: Lists.ListOp, ok: bool)
      requires old(Lists.AllMirror(Registry())) && Listed(Lists.ApplyList(old(Registry()), caller, op), ok)
      ensures Lists.AllMirror(Registry())
    {
      Lists.ListStepKeepsMirror(old(Registry()), caller, op);
    }

    // ----- shares -----

    method MoveShares(from: Address, to: Address, amount: nat) returns (r: Response)
      modifies `balances
      ensures Performed(Move(old(View()), from, to, amount), r)
    {
      if from == ZERO || to == ZERO { return Failed(InvalidAccount); }
      if amount > Balance(balances, from) { return Failed(InsufficientBalance); }
      balances := Debit(balances, from, amount);
      balances := Credit(balances, to, amount);
      return Ok(1);
    }

    method TransferShares(caller: Address, to: Address, amount: nat) returns (r: Response)
      modifies `balances
      ensures Performed(Apply(old(View()), caller, Transfer(to, amount)), r)
    {
      r := MoveShares(caller, to, amount);
    }

    method TransferSharesFrom(caller: Address, from: Address, to: Address, amount: nat) returns (r: Response)
      modifies `balances, `allowances
      ensures Performed(Apply(old(View()), caller, TransferFrom(from, to, amount)), r)
    {
      if amount > Allowance(allowances, from, caller) { return Failed(InsufficientAllowance); }
      var granted := allowances;
      allowances := Spent(allowances, from, caller, amount);
      r := MoveShares(from, to, amount);
      if r.Failed? { allowances := granted; }
    }

    method ApproveShares(caller: Address, spender: Address, amount: nat) returns (r: Response)
      modifies `allowances
      ensures Performed(Apply(old(View()), caller, Approve(spender, amount)), r)
    {
      if caller == ZERO || spender == ZERO { return Failed(InvalidAccount); }
      allowances := allowances[(caller, spender) := amount];
      return Ok(1);
    }

    // ----- entry points -----

    method Send(to: Address, n: nat)
      requires n <= cash
      modifies `cash
      ensures cash == if to == self then old(cash) else old(cash) - n
    {
      if to != self { cash := cash - n; }
    }

    /** `_deposit`: pull everything, forward the fee, mint. */
    method Pull(assets: nat, shares: nat, receiver: Address, pulled: bool, value: nat) returns (r: Response)
      modifies `cash, `balances, `supply
      ensures Performed(Enter(old(View()), assets, shares, receiver, pulled, value), r)
    {
      var fee := FeeOnTotal(assets, entryFeeBps);
      if !pulled { return Failed(TransferFailed); }
      if receiver == ZERO { return Failed(InvalidAccount); }
      cash := cash + assets;
      if fee > 0 && feeRecipient != ZERO { Send(feeRecipient, fee); }
      supply := supply + shares;
      balances := Credit(balances, receiver, shares);
      return Ok(value);
    }

    /** `_withdraw`: spend the allowance, burn, send the fee, then the assets. */
    method Push(caller: Address, assets: nat, shares: nat, receiver: Address, holder: Address, value: nat)
      returns (r: Response)
      modifies `allowances, `balances, `supply, `cash
      ensures Performed(Leave(old(View()), caller, assets, shares, receiver, holder, value), r)
    {
      hide TakenOut;
      var fee := FeeOnRaw(assets, exitFeeBps);
      if !MaySpend(allowances, holder, caller, shares) { return Failed(InsufficientAllowance); }
      if holder == ZERO { return Failed(InvalidAccount); }
      if shares > Balance(balances, holder) || shares > supply { return Failed(InsufficientBalance); }
      if receiver == ZERO || FeeLeaving(View(), fee) + assets > cash { return Failed(TransferFailed); }
      TakeOut(caller, fee, assets, shares, receiver, holder);
      return Ok(value);
    }

    method TakeOut(caller: Address, fee: nat, assets: nat, shares: nat, receiver: Address, holder: Address)
      requires MaySpend(allowances, holder, caller, shares) && shares <= Balance(balances, holder)
      requires shares <= supply && FeeLeaving(View(), fee) + assets <= cash
      modifies `allowances, `balances, `supply, `cash
      ensures View() == TakenOut(old(View()), caller, fee, assets, shares, receiver, holder)
    {
      if caller != holder { allowances := Spent(allowances, holder, caller, shares); }
      balances := Debit(balances, holder, shares);
      supply := supply - shares;
      if fee > 0 && feeRecipient != ZERO && feeRecipient != self { Send(feeRecipient, fee); }
      Send(receiver, assets);
    }

    method DepositAssets(caller: Address, assets: nat, receiver: Address, pulled: bool) returns (r: Response)
      modifies `allowances, `balances, `supply, `cash
      ensures Performed(Apply(old(View()), caller, Deposit(assets, receiver, pulled)), r)
    {
      if paused { return Failed(EnforcedPause); }
      if assets > MaxDeposit(View()) { return Failed(ExceededMax); }
      var shares := PreviewDeposit(View(), assets);
      r := Pull(assets, shares, receiver, pulled, shares);
    }

    method MintExact(caller: Address, shares: nat, receiver: Address, pulled: bool) returns (r: Response)
      modifies `allowances, `balances, `supply, `cash
      ensures Performed(Apply(old(View()), caller, Mint(shares, receiver, pulled)), r)
    {
      if paused { return Failed(EnforcedPause); }
      if shares > MaxMint(View()) { return Failed(ExceededMax); }
      var assets := PreviewMint(View(), shares);
      r := Pull(assets, shares, receiver, pulled, assets);
    }

    method WithdrawAssets(caller: Address, assets: nat, receiver: Address, holder: Address) returns (r: Response)
      modifies `allowances, `balances, `supply, `cash
      ensures Performed(Apply(old(View()), caller, Withdraw(assets, receiver, holder)), r)
    {
      if paused { return Failed(EnforcedPause); }
      if assets > MaxWithdraw(View(), holder) { return Failed(ExceededMax); }
      var shares := PreviewWithdraw(View(), assets);
      r := Push(caller, assets, shares, receiver, holder, shares);
    }

    method RedeemShares(caller: Address, shares: nat, receiver: Address, holder: Address) returns (r: Response)
      modifies `allowances, `balances, `supply, `cash
      ensures Performed(Apply(old(View()), caller, Redeem(shares, receiver, holder)), r)
    {
      if paused { return Failed(EnforcedPause); }
      if shares > MaxRedeem(View(), holder) { return Failed(ExceededMax); }
      var assets := PreviewRedeem(View(), shares);
      r := Push(caller, assets, shares, receiver, holder, assets);
    }

    method UpdateFeeConfig(caller: Address, entryFee: nat, exitFee: nat, recipient: Address) returns (r: Response)
      modifies `entryFeeBps, `exitFeeBps, `feeRecipient
      ensures Performed(Apply(old(View()), caller, SetFeeConfig(entryFee, exitFee, recipient)), r)
    {
      if caller != owner { return Failed(Unauthorized); }
      if entryFee > MAX_FEE_BPS { return Failed(FeeTooHigh); }
      if exitFee > MAX_FEE_BPS { return Failed(FeeTooHigh); }
      if (entryFee > 0 || exitFee > 0) && recipient == ZERO { return Failed(FeeRecipientRequired); }
      entryFeeBps := entryFee;
      exitFeeBps := exitFee;
      feeRecipient := recipient;
      return Ok(0);
    }

    // ----- address lists -----

    method AddAuthorizedOperator(caller: Address, operator: Address, allocation: nat,
                                 transactionCap: nat) returns (ok: bool)
      modifies `operators, `operatorList
      ensures Listed(
                Lists.ApplyList(old(Registry()), caller, Lists.AddOperator(operator, allocation, transactionCap)), ok)
    {
      if caller != owner || operator == ZERO { return false; }
      var info := Lists.Info(Registry(), operator);
      if !info.authorized { operatorList := operatorList + [operator]; }
      operators := operators[operator := Lists.OperatorInfo(true, allocation, info.currentAlloc, transactionCap)];
      return true;
    }

    method RemoveAuthorizedOperator(caller: Address, operator: Address) returns (ok: bool)
      modifies `operators, `operatorList
      ensures Listed(Lists.ApplyList(old(Registry()), caller, Lists.RemoveOperator(operator)), ok)
    {
      if caller != owner || !Lists.Info(Registry(), operator).authorized { return false; }
      operators := operators - {operator};
      operatorList := Lists.RemoveAddress(operatorList, operator);
      return true;
    }

    method SetOperatorAllocation(caller: Address, operator: Address, allocation: nat) returns (ok: bool)
      modifies `operators
      ensures Listed(Lists.ApplyList(old(Registry()), caller, Lists.SetOperatorAllocation(operator, allocation)), ok)
    {
      var info := Lists.Info(Registry(), operator);
      if caller != owner || !info.authorized { return false; }
      operators := operators[operator := info.(totalAlloc := allocation)];
      return true;
    }

    method SetOperatorTransactionCap(caller: Address, operator: Address, transactionCap: nat) returns (ok: bool)
      modifies `operators
      ensures Listed(Lists.ApplyList(old(Registry()), caller,
                                     Lists.SetOperatorTransactionCap(operator, transactionCap)), ok)
    {
      var info := Lists.Info(Registry(), operator);
      if caller != owner || !info.authorized { return false; }
      operators := operators[operator := info.(txCap := transactionCap)];
      return true;
    }

    method ResetOperatorAllocation(caller: Address, operator: Address) returns (ok: bool)
      modifies `operators
      ensures Listed(Lists.ApplyList(old(Registry()), caller, Lists.ResetOperatorAllocation(operator)), ok)
    {
      var info := Lists.Info(Registry(), operator);
      if caller != owner || !info.authorized { return false; }
      operators := operators[operator := info.(currentAlloc := 0)];
      return true;
    }

    method UpdateTradingWallet(caller: Address, wallet: Address, allowed: bool) returns (ok: bool)
      modifies `wallets, `walletList
      ensures Listed(Lists.ApplyList(old(Registry()), caller, Lists.SetTradingWallet(wallet, allowed)), ok)
    {
      if caller != owner || wallet == ZERO { return false; }
      if allowed && wallet !in wallets {
        walletList := walletList + [wallet];
      } else if !allowed && wallet in wallets {
        walletList := Lists.RemoveAddress(walletList, wallet);
      }
      wallets := if allowed then wallets + {wallet} else wallets - {wallet};
      return true;
    }

    method AddWhitelistedContract(caller: Address, account: Address) returns (ok: bool)
      modifies `whitelisted, `whitelistedList
      ensures Listed(Lists.ApplyList(old(Registry()), caller, Lists.AddWhitelisted(account)), ok)
    {
      if caller != owner || account == ZERO { return false; }
      if account !in whitelisted {
        whitelisted := whitelisted + {account};
        whitelistedList := whitelistedList + [account];
      }
      return true;
    }

    method RemoveWhitelistedContract(caller: Address, account: Address) returns (ok: bool)
      modifies `whitelisted, `whitelistedList
      ensures Listed(Lists.ApplyList(old(Registry()), caller, Lists.RemoveWhitelisted(account)), ok)
    {
      if caller != owner || account !in whitelisted { return false; }
      whitelisted := whitelisted - {account};
      whitelistedList := Lists.RemoveAddress(whitelistedList, account);
      return true;
    }

    method AddTrustedStrategy(caller: Address, account: Address) returns (ok: bool)
      modifies `trusted, `trustedList
      ensures Listed(Lists.ApplyList(old(Registry()), caller, Lists.AddTrusted(account)), ok)
    {
      if caller != owner || account == ZERO { return false; }
      if account !in trusted {
        trusted := trusted + {account};
        trustedList := trustedList + [account];
      }
      return true;
    }

    method RemoveTrustedStrategy(caller: Address, account: Address) returns (ok: bool)
      modifies `trusted, `trustedList
      ensures Listed(Lists.ApplyList(old(Registry()), caller, Lists.RemoveTrusted(account)), ok)
    {
      if caller != owner || account !in trusted { return false; }
      trusted := trusted - {account};
      trustedList := Lists.RemoveAddress(trustedList, account);
      return true;
    }
  }

  /** Deploying a vault succeeds exactly with an asset and an owner, and starts with a sound ledger and empty lists. */
  method Deploy(address: Address, asset: Address, initialOwner: Address, cap: nat, held: nat)
    returns (vault: Option<USDC4626Vault>)
    ensures vault.Some? <==> asset != ZERO && initialOwner != ZERO
    ensures vault.Some? ==>
              && fresh(vault.value) && LedgerOk(vault.value.View()) && Lists.AllMirror(vault.value.Registry())
              && vault.value.View() == State(address, initialOwner, held, 0, 0, 0, map[], map[], 0, 0, ZERO, cap, false)
  {
    if asset == ZERO || initialOwner == ZERO { return None; }
    var created := new USDC4626Vault(address, initialOwner, cap, held);
    return Some(created);
  }
}
