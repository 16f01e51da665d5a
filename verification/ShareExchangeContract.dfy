/** The exchange contract: its storage and the token ledgers it calls, updated in the order the source updates them. A
    failing transfer reverts the whole call. */
module ShareExchangeContract {
  import opened ShareToken
  import opened Text
  import opened Wrappers
  import opened ShareExchange

  datatype Response = Ok(value: nat, fee: nat) | Failed(error: Error)

  class Exchange {
    const self: Address
    const usdc: Address
    var owner: Address
    var paused: bool
    var nextOrderId: nat
    var feeBps: nat
    var feeRecipient: Address
    var enabled: set<Address>
    var sellOrders: map<nat, SellOrder>
    var balances: map<(Address, Address), nat>

    function View(): State
      reads this
    {
      State(self, usdc, owner, paused, nextOrderId, feeBps, feeRecipient, enabled, sellOrders, balances)
    }

    twostate predicate Performed(o: Outcome, r: Response)
      reads this
    {
      match o
      case Done(t, value, fee) => r == Ok(value, fee) && View() == t
      case Revert(error) => r == Failed(error) && View() == old(View())
    }

    constructor (address: Address, usdcToken: Address, initialOwner: Address, initialFeeRecipient: Address,
                 held: map<(Address, Address), nat>)
      ensures View()
           == State(address, usdcToken, initialOwner, false, 1, 0, initialFeeRecipient, {}, map[], held)
      ensures Valid(View())
    {
      self, usdc, owner, feeRecipient, balances := address, usdcToken, initialOwner, initialFeeRecipient, held;
      paused, nextOrderId, feeBps, enabled, sellOrders := false, 1, 0, {}, map[];
      new;
      InitialIsValid(View());
    }

    /** What every call below performs keeps the exchange solvent: the results about the state machine hold of the
        object. */
    twostate lemma CallKeeps(call: Call, r: Response)
      requires old(Valid(View())) && Genuine(self, call) && Performed(Apply(old(View()), call), r)
      ensures Valid(View())
    {
      assert View() == Step(old(View()), call);
      StepKeepsValid(old(View()), call);
    }

    /** `safeTransfer` and `safeTransferFrom` on a token ledger. */
    method Move(token: Address, from: Address, to: Address, n: nat) returns (ok: bool)
      modifies `balances
      ensures ok <==> n <= Bal(old(View()), token, from)
      ensures View() == if ok then Transfer(old(View()), token, from, to, n) else old(View())
    {
      var has := if (token, from) in balances then balances[(token, from)] else 0;
      if n > has { return false; }
      balances := balances[(token, from) := has - n];
      var had := if (token, to) in balances then balances[(token, to)] else 0;
      balances := balances[(token, to) := had + n];
      return true;
    }

    method CreateOrder(caller: Address, token: Address, amount: nat, price: nat, decimals: nat, approved: nat)
      returns (r: Response)
      modifies `nextOrderId, `sellOrders, `balances
      ensures Performed(Apply(old(View()), Call(caller, CreateSellOrder(token, amount, price, decimals, approved))), r)
    {
      hide Pow10;
      if paused { return Failed(EnforcedPause); }
      if token !in enabled { return Failed(TokenDisabled); }
      if amount == 0 { return Failed(ZeroShares); }
      if price == 0 { return Failed(ZeroPrice); }
      if decimals > 36 { return Failed(UnsupportedDecimals); }
      if amount > approved { return Failed(TransferFailed); }
      var ledger, orders, id := balances, sellOrders, nextOrderId;
      nextOrderId := nextOrderId + 1;
      sellOrders := sellOrders[id := SellOrder(caller, token, Pow10(decimals), amount, price, true)];
      var ok := Move(token, caller, self, amount);
      if !ok {
        balances, sellOrders, nextOrderId := ledger, orders, id;
        return Failed(TransferFailed);
      }
      return Ok(id, 0);
    }

    method BuyShares(caller: Address, id: nat, amount: nat, approved: nat) returns (r: Response)
      requires Valid(View())
      modifies `sellOrders, `balances
      ensures Performed(Apply(old(View()), Call(caller, Buy(id, amount, approved))), r)
    {
      hide Quote, Fee, Issue, Burn, Transfer, Bal, Valid;
      if paused { return Failed(EnforcedPause); }
      if id !in sellOrders || !sellOrders[id].active { return Failed(InactiveOrder); }
      if amount == 0 { return Failed(ZeroShares); }
      var order := sellOrders[id];
      if amount > order.remaining { return Failed(TooManyShares); }
      UnitIsPositive(View(), id);
      var paid := Quote(order, amount);
      var fee := Fee(paid, feeBps);
      if paid > approved { return Failed(TransferFailed); }
      var ledger, orders := balances, sellOrders;
      ghost var s := View();
      sellOrders := sellOrders[id := sellOrders[id].(remaining := order.remaining - amount)];
      if sellOrders[id].remaining == 0 {
        sellOrders := sellOrders[id := sellOrders[id].(active := false)];
      }
      assert sellOrders == s.orders[id := Reduced(order, amount)];
      FeeAtMostPaid(s, paid);
      var ok := Move(usdc, caller, self, paid);
      if ok { ok := Move(usdc, self, feeRecipient, fee); }
      if ok { ok := Move(usdc, self, order.seller, paid - fee); }
      if ok { ok := Move(order.token, self, caller, amount); }
      if !ok {
        balances, sellOrders := ledger, orders;
        return Failed(TransferFailed);
      }
      return Ok(paid, fee);
    }

    method CancelOrder(caller: Address, id: nat) returns (r: Response)
      modifies `sellOrders, `balances
      ensures Performed(Apply(old(View()), Call(caller, CancelSellOrder(id))), r)
    {
      if id !in sellOrders || !sellOrders[id].active { return Failed(InactiveOrder); }
      var order := sellOrders[id];
      if caller != order.seller && caller != owner { return Failed(NotAuthorized); }
      var orders := sellOrders;
      sellOrders := sellOrders[id := order.(remaining := 0, active := false)];
      var ok := Move(order.token, self, order.seller, order.remaining);
      if !ok {
        sellOrders := orders;
        return Failed(TransferFailed);
      }
      return Ok(0, 0);
    }

    method EnableShareToken(caller: Address, token: Address, on: bool) returns (r: Response)
      modifies `enabled
      ensures Performed(Apply(old(View()), Call(caller, SetShareTokenEnabled(token, on))), r)
    {
      if caller != owner { return Failed(NotOwner); }
      if token == ZERO { return Failed(ZeroAddress); }
      enabled := if on then enabled + {token} else enabled - {token};
      return Ok(0, 0);
    }

    method ConfigureFee(caller: Address, newFeeBps: nat, newFeeRecipient: Address) returns (r: Response)
      modifies `feeBps, `feeRecipient
      ensures Performed(Apply(old(View()), Call(caller, SetFeeConfig(newFeeBps, newFeeRecipient))), r)
    {
      if caller != owner { return Failed(NotOwner); }
      if newFeeBps > MAX_FEE_BPS { return Failed(FeeTooHigh); }
      if newFeeRecipient == ZERO { return Failed(ZeroAddress); }
      feeBps, feeRecipient := newFeeBps, newFeeRecipient;
      return Ok(0, 0);
    }

    method PauseAll(caller: Address) returns (r: Response)
      modifies `paused
      ensures Performed(Apply(old(View()), Call(caller, Pause)), r)
    {
      if caller != owner { return Failed(NotOwner); }
      if paused { return Failed(EnforcedPause); }
      paused := true;
      return Ok(0, 0);
    }

    method UnpauseAll(caller: Address) returns (r: Response)
      modifies `paused
      ensures Performed(Apply(old(View()), Call(caller, Unpause)), r)
    {
      if caller != owner { return Failed(NotOwner); }
      if !paused { return Failed(ExpectedPause); }
      paused := false;
      return Ok(0, 0);
    }

    method HandOver(caller: Address, account: Address) returns (r: Response)
      modifies `owner
      ensures Performed(Apply(old(View()), Call(caller, TransferOwnership(account))), r)
    {
      if caller != owner { return Failed(NotOwner); }
      if account == ZERO { return Failed(ZeroAddress); }
      owner := account;
      return Ok(0, 0);
    }

    method Renounce(caller: Address) returns (r: Response)
      modifies `owner
      ensures Performed(Apply(old(View()), Call(caller, RenounceOwnership)), r)
    {
      if caller != owner { return Failed(NotOwner); }
      owner := ZERO;
      return Ok(0, 0);
    }
  }

  /** Deploying an exchange succeeds exactly with a USDC token, an owner and a fee recipient, and it starts solvent. */
  method Deploy(address: Address, usdcToken: Address, initialOwner: Address, initialFeeRecipient: Address,
                held: map<(Address, Address), nat>) returns (exchange: Option<Exchange>)
    ensures exchange.Some? <==> ZERO !in {usdcToken, initialOwner, initialFeeRecipient}
    ensures exchange.Some? ==>
              && fresh(exchange.value) && Valid(exchange.value.View())
              && exchange.value.View()
                 == State(address, usdcToken, initialOwner, false, 1, 0, initialFeeRecipient, {}, map[], held)
  {
    if usdcToken == ZERO || initialOwner == ZERO || initialFeeRecipient == ZERO { return None; }
    var created := new Exchange(address, usdcToken, initialOwner, initialFeeRecipient, held);
    return Some(created);
  }

  lemma UnitIsPositive(s: State, id: nat)
    requires Valid(s) && id in s.orders
    ensures s.orders[id].unit > 0
  {
  }

  lemma FeeAtMostPaid(s: State, paid: nat)
    requires Valid(s)
    ensures Fee(paid, s.feeBps) <= paid
  {
    FeeFits(paid, s.feeBps);
  }
}
