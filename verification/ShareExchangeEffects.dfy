/** What each call of the share exchange records and moves, and exactly when an order is accepted, in terms of storage
    alone. */
module ShareExchangeEffects {
  import opened ShareToken
  import opened Text
  import opened ShareExchange

  /** All orders but one stand. */
  ghost predicate OnlyOrder(s: State, t: State, id: nat) {
    && t.orders.Keys == s.orders.Keys + {id} && forall k | k in s.orders && k != id :: t.orders[k] == s.orders[k]
  }

  /** `n` of a token went from one holder to another, and no other balance moved. */
  ghost predicate Moved(s: State, t: State, token: Address, from: Address, to: Address, n: nat) {
    forall k: Address, h: Address ::
      Bal(t, k, h)
      == Bal(s, k, h) - (if k == token && h == from then n else 0) + (if k == token && h == to then n else 0)
  }

  /** An order is accepted exactly when the exchange runs, the token is enabled and has at most 36 decimals, shares and
      price are positive, and the seller has the shares and lets the exchange take them. */
  lemma CreationAcceptedIff(s: State, c: Call)
    requires c.op.CreateSellOrder?
    ensures Apply(s, c).Done? <==>
            && !s.paused && c.op.token in s.enabled && c.op.amount > 0 && c.op.price > 0 && c.op.decimals <= 36
            && c.op.amount <= c.op.approved && c.op.amount <= Bal(s, c.op.token, c.caller)
  {
    hide Pow10, Transfer, Bal;
  }

  /** It is recorded under a new number with the terms of the call, the price being for one whole share; the shares go
      from the seller to the exchange, and nothing else moves. */
  lemma CreationEffect(s: State, c: Call)
    requires Valid(s) && c.op.CreateSellOrder? && Apply(s, c).Done?
    ensures var t, id, op := Step(s, c), Apply(s, c).value, c.op;
            && id !in s.orders && id in t.orders && OnlyOrder(s, t, id)
            && var o := t.orders[id];
               && o.seller == c.caller && o.token == op.token && o.unit == Pow10(op.decimals) && o.price == op.price
               && o.remaining == op.amount && o.active
    ensures var t := Step(s, c);
            && t == s.(orders := t.orders, nextOrderId := s.nextOrderId + 1, balances := t.balances)
            && Moved(s, t, c.op.token, c.caller, s.self, c.op.amount)
  {
    hide Pow10, Issue, Burn, Transfer, Bal, Solvent;
    SameBalances(s, s.(orders := Step(s, c).orders, nextOrderId := s.nextOrderId + 1));
  }

  /** A purchase takes its shares off the order and leaves the terms and all other orders alone. The payment is the
      least that covers the price of the shares, and the fee the least that covers its rate of the payment. */
  lemma PurchaseEffect(s: State, c: Call)
    requires Valid(s) && c.caller != s.self && c.op.Buy? && Apply(s, c).Done?
    ensures c.op.id in s.orders
    ensures var t, id := Step(s, c), c.op.id;
            && t == s.(orders := t.orders, balances := t.balances) && OnlyOrder(s, t, id)
            && var o, o' := s.orders[id], t.orders[id];
               && o.remaining == o'.remaining + c.op.amount && o == o'.(remaining := o.remaining, active := o.active)
               && (o'.active <==> o'.remaining > 0)
    ensures var o, paid, fee := s.orders[c.op.id], Apply(s, c).value, Apply(s, c).fee;
            && (paid - 1) * o.unit < c.op.amount * o.price <= paid * o.unit
            && (fee - 1) * 10_000 < paid * s.feeBps <= fee * 10_000
  {
    BuyFrame(s, c.caller, c.op.id, c.op.amount, c.op.approved);
    PriceIs(s.orders[c.op.id], c.op.amount, s.feeBps);
    hide Bal, Solvent, Quote, Fee, Settle;
  }

  lemma PriceIs(o: SellOrder, amount: nat, bps: nat)
    requires o.unit > 0
    ensures var paid := Quote(o, amount);
            var fee := Fee(paid, bps);
            (paid - 1) * o.unit < amount * o.price <= paid * o.unit && (fee - 1) * 10_000 < paid * bps <= fee * 10_000
  {
  }

  /** A cancellation gives the shares left to the seller, whoever cancels, and closes the order; nothing else moves. */
  lemma CancellationEffect(s: State, c: Call)
    requires Valid(s) && c.op.CancelSellOrder? && Apply(s, c).Done?
    ensures c.op.id in s.orders
    ensures var t, id := Step(s, c), c.op.id;
            && t == s.(orders := t.orders, balances := t.balances) && OnlyOrder(s, t, id)
            && var o, o' := s.orders[id], t.orders[id];
               && o == o'.(remaining := o.remaining, active := o.active) && o'.remaining == 0 && !o'.active
               && Moved(s, t, o.token, s.self, o.seller, o.remaining)
  {
    hide Issue, Burn, Transfer, Bal, Solvent;
    var o := s.orders[c.op.id];
    SameBalances(s, s.(orders := s.orders[c.op.id := o.(remaining := 0, active := false)]));
  }

  /** Settings change only by their own setters, called by the owner with acceptable arguments, and to the values
      given. */
  lemma SettingsStep(s: State, c: Call)
    ensures var t, mine, op := Step(s, c), c.caller == s.owner, c.op;
            && (forall k: Address ::
                  k in t.enabled <==>
                  if mine && op == SetShareTokenEnabled(k, true) && k != ZERO then true
                  else k in s.enabled && !(mine && op == SetShareTokenEnabled(k, false) && k != ZERO))
            && (t.feeBps, t.feeRecipient)
               == (if mine && op.SetFeeConfig? && op.bps <= 500 && op.recipient != ZERO then (op.bps, op.recipient)
                   else (s.feeBps, s.feeRecipient))
            && t.paused == (if mine && op.Pause? then true else if mine && op.Unpause? then false else s.paused)
            && t.owner == (if mine && op.TransferOwnership? && op.newOwner != ZERO then op.newOwner
                           else if mine && op.RenounceOwnership? then ZERO else s.owner)
            && t.self == s.self && t.usdc == s.usdc
  {
    hide Issue, Burn, Transfer, Bal, Quote, Fee, Pow10;
    if c.op.Buy? && Apply(s, c).Done? { BuyFrame(s, c.caller, c.op.id, c.op.amount, c.op.approved); }
    hide ApplyBuy;
  }
}
