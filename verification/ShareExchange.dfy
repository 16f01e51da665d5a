/** The fixed-price exchange for club shares: its storage, the token balances it meets, and every external call as one
    step. Token contracts are plain ERC-20 ledgers without a transfer fee. */
module ShareExchange {
  import opened MulDiv
  import opened ShareToken
  import opened Text

  const MAX_FEE_BPS: nat := 500

  datatype SellOrder = SellOrder(
    seller: Address, token: Address, unit: nat, remaining: nat, price: nat, active: bool)

  datatype Error =
    | TokenDisabled | ZeroShares | ZeroPrice | UnsupportedDecimals | InactiveOrder | TooManyShares | NotAuthorized
    | NotOwner | ZeroAddress | FeeTooHigh | EnforcedPause | ExpectedPause | TransferFailed

  /** `balances` maps a token and a holder to what the holder has. */
  datatype State = State(
    self: Address, usdc: Address, owner: Address, paused: bool, nextOrderId: nat, feeBps: nat, feeRecipient: Address,
    enabled: set<Address>, orders: map<nat, SellOrder>, balances: map<(Address, Address), nat>)

  /** `approved` is the allowance the caller has granted the exchange. `Outside` stands for every token movement the
      exchange takes no part in as a sender: transfers between others, donations to it, and issues. */
  datatype Op =
    | CreateSellOrder(token: Address, amount: nat, price: nat, decimals: nat, approved: nat)
    | Buy(id: nat, amount: nat, approved: nat)
    | CancelSellOrder(id: nat)
    | SetShareTokenEnabled(token: Address, on: bool)
    | SetFeeConfig(bps: nat, recipient: Address)
    | Pause | Unpause
    | TransferOwnership(newOwner: Address)
    | RenounceOwnership
    | Outside(token: Address, from: Address, to: Address, amount: nat, issued: bool)

  datatype Call = Call(caller: Address, op: Op)

  /** A buy reports what was paid and the fee in it; a new order reports its number. */
  datatype Outcome = Done(state: State, value: nat, fee: nat) | Revert(error: Error)

  // ----- tokens -----

  function Bal(s: State, token: Address, holder: Address): nat {
    if (token, holder) in s.balances then s.balances[(token, holder)] else 0
  }

  function Issue(s: State, token: Address, to: Address, n: nat): (t: State)
    ensures t == s.(balances := t.balances)
    ensures forall k, h :: Bal(t, k, h) == Bal(s, k, h) + if k == token && h == to then n else 0
  {
    s.(balances := s.balances[(token, to) := Bal(s, token, to) + n])
  }

  function Burn(s: State, token: Address, from: Address, n: nat): (t: State)
    requires n <= Bal(s, token, from)
    ensures t == s.(balances := t.balances)
    ensures forall k, h :: Bal(t, k, h) == Bal(s, k, h) - if k == token && h == from then n else 0
  {
    s.(balances := s.balances[(token, from) := Bal(s, token, from) - n])
  }

  function Transfer(s: State, token: Address, from: Address, to: Address, n: nat): (t: State)
    requires n <= Bal(s, token, from)
    ensures t == s.(balances := t.balances)
    ensures forall k, h :: Bal(t, k, h)
              == Bal(s, k, h) - (if k == token && h == from then n else 0) + (if k == token && h == to then n else 0)
  {
    Issue(Burn(s, token, from, n), token, to, n)
  }

  // ----- calls -----

  /** `quoteOrder` of an order that exists. */
  function Quote(o: SellOrder, amount: nat): nat
    requires o.unit > 0
  {
    Ceil(amount, o.price, o.unit)
  }

  function Fee(paid: nat, bps: nat): nat { Ceil(paid, bps, BPS_DENOMINATOR) }

  function ApplyCreate(s: State, caller: Address, op: Op): Outcome
    requires op.CreateSellOrder?
  {
    if s.paused then Revert(EnforcedPause)
    else if op.token !in s.enabled then Revert(TokenDisabled)
    else if op.amount == 0 then Revert(ZeroShares)
    else if op.price == 0 then Revert(ZeroPrice)
    else if op.decimals > 36 then Revert(UnsupportedDecimals)
    else if op.amount > op.approved || op.amount > Bal(s, op.token, caller) then Revert(TransferFailed)
    else
      var order := SellOrder(caller, op.token, Pow10(op.decimals), op.amount, op.price, true);
      var t := s.(orders := s.orders[s.nextOrderId := order], nextOrderId := s.nextOrderId + 1);
      Done(Transfer(t, op.token, caller, s.self, op.amount), s.nextOrderId, 0)
  }

  /** The order after some of its shares are gone. */
  function Reduced(o: SellOrder, amount: nat): SellOrder
    requires amount <= o.remaining
  {
    o.(remaining := o.remaining - amount, active := o.active && o.remaining != amount)
  }

  /** The four transfers of a purchase. Every one of them is checked, as the tokens check it. */
  function Settle(s: State, caller: Address, o: SellOrder, amount: nat, paid: nat, fee: nat): Outcome {
    if paid > Bal(s, s.usdc, caller) then Revert(TransferFailed)
    else
      var a := Transfer(s, s.usdc, caller, s.self, paid);
      if fee > Bal(a, s.usdc, s.self) then Revert(TransferFailed)
      else
        var b := Transfer(a, s.usdc, s.self, s.feeRecipient, fee);
        if fee > paid || paid - fee > Bal(b, s.usdc, s.self) then Revert(TransferFailed)
        else
          var c := Transfer(b, s.usdc, s.self, o.seller, paid - fee);
          if amount > Bal(c, o.token, s.self) then Revert(TransferFailed)
          else Done(Transfer(c, o.token, s.self, caller, amount), paid, fee)
  }

  function ApplyBuy(s: State, caller: Address, id: nat, amount: nat, approved: nat): Outcome {
    if s.paused then Revert(EnforcedPause)
    else if id !in s.orders || !s.orders[id].active then Revert(InactiveOrder)
    else if amount == 0 then Revert(ZeroShares)
    else if amount > s.orders[id].remaining then Revert(TooManyShares)
    else if s.orders[id].unit == 0 then Revert(TransferFailed)
    else
      var o := s.orders[id];
      var paid := Quote(o, amount);
      if paid > approved then Revert(TransferFailed)
      else Settle(s.(orders := s.orders[id := Reduced(o, amount)]), caller, o, amount, paid, Fee(paid, s.feeBps))
  }

  function ApplyCancel(s: State, caller: Address, id: nat): Outcome {
    if id !in s.orders || !s.orders[id].active then Revert(InactiveOrder)
    else
      var o := s.orders[id];
      if caller != o.seller && caller != s.owner then Revert(NotAuthorized)
      else if o.remaining > Bal(s, o.token, s.self) then Revert(TransferFailed)
      else
        var t := s.(orders := s.orders[id := o.(remaining := 0, active := false)]);
        Done(Transfer(t, o.token, s.self, o.seller, o.remaining), 0, 0)
  }

  function ApplySettings(s: State, caller: Address, op: Op): Outcome {
    if caller != s.owner then Revert(NotOwner)
    else match op
      case SetShareTokenEnabled(token, on) =>
        if token == ZERO then Revert(ZeroAddress)
        else Done(s.(enabled := if on then s.enabled + {token} else s.enabled - {token}), 0, 0)
      case SetFeeConfig(bps, recipient) =>
        if bps > MAX_FEE_BPS then Revert(FeeTooHigh)
        else if recipient == ZERO then Revert(ZeroAddress)
        else Done(s.(feeBps := bps, feeRecipient := recipient), 0, 0)
      case Pause => if s.paused then Revert(EnforcedPause) else Done(s.(paused := true), 0, 0)
      case Unpause => if !s.paused then Revert(ExpectedPause) else Done(s.(paused := false), 0, 0)
      case TransferOwnership(newOwner) =>
        if newOwner == ZERO then Revert(ZeroAddress) else Done(s.(owner := newOwner), 0, 0)
      case RenounceOwnership => Done(s.(owner := ZERO), 0, 0)
      case _ => Done(s, 0, 0)
  }

  function ApplyOutside(s: State, op: Op): Outcome
    requires op.Outside?
  {
    if op.issued then Done(Issue(s, op.token, op.to, op.amount), 0, 0)
    else if op.amount > Bal(s, op.token, op.from) then Revert(TransferFailed)
    else Done(Transfer(s, op.token, op.from, op.to, op.amount), 0, 0)
  }

  function Apply(s: State, c: Call): Outcome {
    match c.op
    case CreateSellOrder(_, _, _, _, _) => ApplyCreate(s, c.caller, c.op)
    case Buy(id, amount, approved) => ApplyBuy(s, c.caller, id, amount, approved)
    case CancelSellOrder(id) => ApplyCancel(s, c.caller, id)
    case Outside(_, _, _, _, _) => ApplyOutside(s, c.op)
    case _ => ApplySettings(s, c.caller, c.op)
  }

  /** A call that reverts changes nothing. */
  function Step(s: State, c: Call): State { if Apply(s, c).Done? then Apply(s, c).state else s }

  function Run(s: State, calls: seq<Call>): State
    decreases |calls|
  {
    if calls == [] then s else Run(Step(s, calls[0]), calls[1..])
  }

  /** Nobody calls as the exchange, and nobody but the exchange moves its tokens. */
  predicate Genuine(self: Address, c: Call) {
    c.caller != self && (c.op.Outside? && !c.op.issued ==> c.op.from != self)
  }

  predicate AllGenuine(self: Address, calls: seq<Call>) { forall i | 0 <= i < |calls| :: Genuine(self, calls[i]) }

  predicate Initial(s: State) { s.orders == map[] && s.nextOrderId == 1 && s.feeBps == 0 }

  // ----- solvency -----

  /** The shares of one token that orders numbered below `n` still offer. */
  function Escrow(orders: map<nat, SellOrder>, token: Address, n: nat): nat {
    if n == 0 then 0
    else Escrow(orders, token, n - 1)
         + if n - 1 in orders && orders[n - 1].token == token then orders[n - 1].remaining else 0
  }

  lemma {:induction false} EscrowFrame(orders: map<nat, SellOrder>, id: nat, o: SellOrder, token: Address, n: nat)
    requires n <= id
    ensures Escrow(orders[id := o], token, n) == Escrow(orders, token, n)
  {
    if n > 0 { EscrowFrame(orders, id, o, token, n - 1); }
  }

  lemma {:induction false} EscrowUpdate(orders: map<nat, SellOrder>, id: nat, o: SellOrder, token: Address, n: nat)
    requires id in orders && id < n && o.token == orders[id].token
    ensures Escrow(orders[id := o], token, n)
         == Escrow(orders, token, n) + if o.token == token then o.remaining - orders[id].remaining else 0
  {
    if id == n - 1 {
      EscrowFrame(orders, id, o, token, n - 1);
    } else {
      EscrowUpdate(orders, id, o, token, n - 1);
    }
  }

  lemma {:induction false} EscrowHolds(orders: map<nat, SellOrder>, id: nat, n: nat)
    requires id in orders && id < n
    ensures orders[id].remaining <= Escrow(orders, orders[id].token, n)
  {
    if id < n - 1 { EscrowHolds(orders, id, n - 1); }
  }

  predicate OrderOk(self: Address, o: SellOrder) {
    o.unit > 0 && o.price > 0 && o.seller != self && (o.active <==> o.remaining > 0)
  }

  ghost predicate Solvent(s: State) {
    forall token :: Escrow(s.orders, token, s.nextOrderId) <= Bal(s, token, s.self)
  }

  /** What holds in every reachable state. */
  ghost predicate Valid(s: State) {
    && (forall id | id in s.orders :: id < s.nextOrderId && OrderOk(s.self, s.orders[id]))
    && s.feeBps <= MAX_FEE_BPS
    && Solvent(s)
  }

  lemma {:induction false} NoEscrow(token: Address, n: nat)
    ensures Escrow(map[], token, n) == 0
  {
    if n > 0 { NoEscrow(token, n - 1); }
  }

  lemma InitialIsValid(s: State)
    requires Initial(s)
    ensures Valid(s)
  {
    forall token ensures Escrow(s.orders, token, s.nextOrderId) <= Bal(s, token, s.self) { NoEscrow(token, 1); }
  }

  lemma FeeFits(paid: nat, bps: nat)
    requires bps <= BPS_DENOMINATOR
    ensures Fee(paid, bps) <= paid
  {
    CeilGalois(paid, bps, BPS_DENOMINATOR, paid);
    assert paid * bps <= paid * BPS_DENOMINATOR by { assert paid * (BPS_DENOMINATOR - bps) >= 0; }
  }

  lemma CreateKeepsValid(s: State, caller: Address, op: Op)
    requires Valid(s) && op.CreateSellOrder? && caller != s.self && ApplyCreate(s, caller, op).Done?
    ensures Valid(ApplyCreate(s, caller, op).state)
  {
    hide Pow10, Issue, Burn, Transfer, Bal;
    SameBalances(s, s.(orders := ApplyCreate(s, caller, op).state.orders, nextOrderId := s.nextOrderId + 1));
    var t := ApplyCreate(s, caller, op).state;
    forall token ensures Escrow(t.orders, token, t.nextOrderId) <= Bal(t, token, t.self) {
      EscrowFrame(s.orders, s.nextOrderId, t.orders[s.nextOrderId], token, s.nextOrderId);
    }
  }

  /** A purchase leaves the exchange its own balances but for the shares sold. */
  lemma SettleMoves(s: State, caller: Address, o: SellOrder, amount: nat, paid: nat, fee: nat)
    requires caller != s.self && o.seller != s.self && fee <= paid
    requires amount <= Bal(s, o.token, s.self)
    ensures Settle(s, caller, o, amount, paid, fee).Done? <==> paid <= Bal(s, s.usdc, caller)
    ensures paid <= Bal(s, s.usdc, caller) ==>
              var t := Settle(s, caller, o, amount, paid, fee).state;
              && t == s.(balances := t.balances)
              && forall k :: Bal(t, k, s.self)
                   == Bal(s, k, s.self) - (if k == o.token then amount else 0)
                      + (if k == s.usdc && s.feeRecipient == s.self then fee else 0)
  {
    hide Issue, Burn, Transfer, Bal;
  }

  lemma BuyKeepsValid(s: State, caller: Address, id: nat, amount: nat, approved: nat)
    requires Valid(s) && caller != s.self && ApplyBuy(s, caller, id, amount, approved).Done?
    ensures Valid(ApplyBuy(s, caller, id, amount, approved).state)
  {
    hide Settle, Bal, Quote, Fee, Escrow;
    var o := s.orders[id];
    var paid := Quote(o, amount);
    var s' := s.(orders := s.orders[id := Reduced(o, amount)]);
    EscrowHolds(s.orders, id, s.nextOrderId);
    FeeFits(paid, s.feeBps);
    SameBalances(s, s');
    SettleMoves(s', caller, o, amount, paid, Fee(paid, s.feeBps));
    var t := ApplyBuy(s, caller, id, amount, approved).state;
    forall token ensures Escrow(t.orders, token, t.nextOrderId) <= Bal(t, token, t.self) {
      EscrowUpdate(s.orders, id, Reduced(o, amount), token, s.nextOrderId);
    }
  }

  lemma SameBalances(s: State, t: State)
    requires s.balances == t.balances
    ensures forall k, h :: Bal(s, k, h) == Bal(t, k, h)
  {
  }

  lemma CancelKeepsValid(s: State, caller: Address, id: nat)
    requires Valid(s) && ApplyCancel(s, caller, id).Done?
    ensures Valid(ApplyCancel(s, caller, id).state)
  {
    hide Transfer, Issue, Burn, Bal, Escrow;
    var o := s.orders[id];
    var closed := o.(remaining := 0, active := false);
    var s' := s.(orders := s.orders[id := closed]);
    SameBalances(s, s');
    var t := ApplyCancel(s, caller, id).state;
    forall token ensures Escrow(t.orders, token, t.nextOrderId) <= Bal(t, token, t.self) {
      EscrowUpdate(s.orders, id, closed, token, s.nextOrderId);
    }
  }

  lemma StepKeepsValid(s: State, c: Call)
    requires Valid(s) && Genuine(s.self, c)
    ensures Valid(Step(s, c)) && Step(s, c).self == s.self
  {
    hide Pow10, Quote, Fee, Settle, Escrow, Bal, Issue, Burn, Transfer;
    if Apply(s, c).Done? {
      match c.op {
        case CreateSellOrder(_, _, _, _, _) =>
          CreateKeepsValid(s, c.caller, c.op);
        case Buy(id, amount, approved) =>
          BuyKeepsValid(s, c.caller, id, amount, approved);
          BuyFrame(s, c.caller, id, amount, approved);
        case CancelSellOrder(id) =>
          CancelKeepsValid(s, c.caller, id);
        case Outside(_, _, _, _, _) =>
        case _ =>
          SameBalances(s, Step(s, c));
      }
    }
  }

  lemma BuyFrame(s: State, caller: Address, id: nat, amount: nat, approved: nat)
    requires ApplyBuy(s, caller, id, amount, approved).Done?
    ensures var o := ApplyBuy(s, caller, id, amount, approved);
            && o.state == s.(balances := o.state.balances, orders := s.orders[id := Reduced(s.orders[id], amount)])
            && o.value == Quote(s.orders[id], amount) && o.fee == Fee(o.value, s.feeBps)
  {
    hide Issue, Burn, Transfer, Bal, Quote, Fee;
  }

  /** Solvency and the link between activity and remaining shares hold after every run of calls. */
  lemma {:induction false} RunKeepsValid(s: State, calls: seq<Call>)
    requires Valid(s) && AllGenuine(s.self, calls)
    ensures Valid(Run(s, calls)) && Run(s, calls).self == s.self
    decreases |calls|
  {
    if calls != [] {
      assert Genuine(s.self, calls[0]);
      StepKeepsValid(s, calls[0]);
      assert forall i | 0 <= i < |calls[1..]| :: calls[1..][i] == calls[i + 1];
      RunKeepsValid(Step(s, calls[0]), calls[1..]);
    }
  }

  // ----- no call lacks escrow -----

  /** A purchase succeeds exactly when the order offers the shares and the buyer can pay: the exchange's own transfers
      never fail, for any order in any reachable state. */
  lemma BuyIff(s: State, caller: Address, id: nat, amount: nat, approved: nat)
    requires Valid(s) && caller != s.self
    ensures ApplyBuy(s, caller, id, amount, approved).Done?
       <==> && !s.paused && id in s.orders && 0 < amount <= s.orders[id].remaining
            && Quote(s.orders[id], amount) <= approved && Quote(s.orders[id], amount) <= Bal(s, s.usdc, caller)
  {
    hide Settle, Bal, Quote, Fee, Escrow;
    if id in s.orders && 0 < amount <= s.orders[id].remaining {
      var o := s.orders[id];
      var paid := Quote(o, amount);
      var s' := s.(orders := s.orders[id := Reduced(o, amount)]);
      EscrowHolds(s.orders, id, s.nextOrderId);
      FeeFits(paid, s.feeBps);
      SameBalances(s, s');
      SettleMoves(s', caller, o, amount, paid, Fee(paid, s.feeBps));
    }
  }

  /** Cancelling needs nothing but an active order and the right caller, paused or not. */
  lemma CancelIff(s: State, caller: Address, id: nat)
    requires Valid(s)
    ensures ApplyCancel(s, caller, id).Done?
       <==> id in s.orders && s.orders[id].active && (caller == s.orders[id].seller || caller == s.owner)
  {
    if id in s.orders { EscrowHolds(s.orders, id, s.nextOrderId); }
  }

  /** Who has what after a purchase: the buyer pays the price, the fee and the seller's proceeds add up to it, the
      shares leave the escrow, and nobody else's balance moves. */
  lemma BuyMoves(s: State, caller: Address, id: nat, amount: nat, approved: nat)
    requires Valid(s) && caller != s.self && ApplyBuy(s, caller, id, amount, approved).Done?
    ensures var o, r := s.orders[id], ApplyBuy(s, caller, id, amount, approved);
            && r.value == Quote(o, amount) && r.fee == Fee(r.value, s.feeBps) <= r.value
            && forall k, h :: Bal(r.state, k, h)
                 == Bal(s, k, h)
                    + (if k != s.usdc then 0 else
                         (if h == s.feeRecipient then r.fee else 0) + (if h == o.seller then r.value - r.fee else 0)
                         - if h == caller then r.value else 0)
                    + (if k != o.token then 0 else
                         (if h == caller then amount else 0) - if h == s.self then amount else 0)
  {
    hide Issue, Burn, Transfer, Bal, Quote, Fee;
    FeeFits(Quote(s.orders[id], amount), s.feeBps);
    SameBalances(s, s.(orders := s.orders[id := Reduced(s.orders[id], amount)]));
  }

  // ----- many partial fills -----

  /** What the purchases of one order come to: their number, shares and payments, and the shares a cancellation gave
      back. */
  datatype Fills = Fills(count: nat, shares: nat, paid: nat, fees: nat, returned: nat)

  function FillOf(s: State, c: Call, id: nat): Fills {
    match Apply(s, c)
    case Revert(_) => Fills(0, 0, 0, 0, 0)
    case Done(_, paid, fee) =>
      if c.op.Buy? && c.op.id == id then Fills(1, c.op.amount, paid, fee, 0)
      else if c.op.CancelSellOrder? && c.op.id == id && id in s.orders then Fills(0, 0, 0, 0, s.orders[id].remaining)
      else Fills(0, 0, 0, 0, 0)
  }

  function Plus(f: Fills, g: Fills): Fills {
    Fills(f.count + g.count, f.shares + g.shares, f.paid + g.paid, f.fees + g.fees, f.returned + g.returned)
  }

  function AllFills(s: State, calls: seq<Call>, id: nat): Fills
    decreases |calls|
  {
    if calls == [] then Fills(0, 0, 0, 0, 0)
    else Plus(FillOf(s, calls[0], id), AllFills(Step(s, calls[0]), calls[1..], id))
  }

  /** `n` payments for parts that sum to `shares` total at least the price of them all in one piece, and less than that
      and one unit for each. */
  ghost predicate PaidFor(f: Fills, price: nat, unit: nat) {
    && f.shares * price <= f.paid * unit && f.fees <= f.paid
    && (f.count == 0 ==> f.shares == 0 && f.paid == 0)
    && (f.count > 0 ==> (f.paid - f.count) * unit < f.shares * price)
  }

  lemma PaidForPlus(f: Fills, g: Fills, price: nat, unit: nat)
    requires PaidFor(f, price, unit) && PaidFor(g, price, unit)
    ensures PaidFor(Plus(f, g), price, unit)
  {
    assert (f.shares + g.shares) * price == f.shares * price + g.shares * price;
    assert (f.paid + g.paid) * unit == f.paid * unit + g.paid * unit;
    assert ((f.paid - f.count) + (g.paid - g.count)) * unit == (f.paid - f.count) * unit + (g.paid - g.count) * unit;
  }

  lemma OneIsPaidFor(o: SellOrder, amount: nat, bps: nat)
    requires o.unit > 0 && bps <= BPS_DENOMINATOR
    ensures PaidFor(Fills(1, amount, Quote(o, amount), Fee(Quote(o, amount), bps), 0), o.price, o.unit)
  {
    FeeFits(Quote(o, amount), bps);
  }

  lemma PaidForMeans(f: Fills, o: SellOrder)
    requires o.unit > 0 && PaidFor(f, o.price, o.unit)
    ensures Quote(o, f.shares) <= f.paid
    ensures f.paid <= Quote(o, f.shares) + if f.count > 0 then f.count - 1 else 0
  {
    CeilGalois(f.shares, o.price, o.unit, f.paid);
    if f.count > 0 { CeilGalois(f.shares, o.price, o.unit, f.paid - f.count); }
  }

  /** One call leaves an order's terms alone and moves its shares only into fills and returns. */
  lemma StepFills(s: State, c: Call, id: nat)
    requires Valid(s) && Genuine(s.self, c) && id in s.orders
    ensures var t, f := Step(s, c), FillOf(s, c, id);
            && id in t.orders && t.orders[id].price == s.orders[id].price && t.orders[id].unit == s.orders[id].unit
            && t.orders[id].seller == s.orders[id].seller && t.orders[id].token == s.orders[id].token
            && f.shares + f.returned + t.orders[id].remaining == s.orders[id].remaining
            && PaidFor(f, s.orders[id].price, s.orders[id].unit)
  {
    hide Pow10, Quote, Fee, Settle, Escrow, Bal, Issue, Burn, Transfer, Solvent;
    if c.op.Buy? && Apply(s, c).Done? {
      BuyFrame(s, c.caller, c.op.id, c.op.amount, c.op.approved);
      OneIsPaidFor(s.orders[c.op.id], c.op.amount, s.feeBps);
    }
    assert PaidFor(Fills(0, 0, 0, 0, FillOf(s, c, id).returned), s.orders[id].price, s.orders[id].unit);
  }

  lemma {:induction false} RunFills(s: State, calls: seq<Call>, id: nat)
    requires Valid(s) && AllGenuine(s.self, calls) && id in s.orders
    ensures var t, f := Run(s, calls), AllFills(s, calls, id);
            && id in t.orders && f.shares + f.returned + t.orders[id].remaining == s.orders[id].remaining
            && PaidFor(f, s.orders[id].price, s.orders[id].unit)
    decreases |calls|
  {
    hide PaidFor, FillOf, Step, Valid;
    if calls == [] {
      NothingPaid(s.orders[id]);
    } else {
      var t := Step(s, calls[0]);
      assert Genuine(s.self, calls[0]);
      StepFills(s, calls[0], id);
      StepKeepsValid(s, calls[0]);
      assert forall i | 0 <= i < |calls[1..]| :: calls[1..][i] == calls[i + 1];
      RunFills(t, calls[1..], id);
      PaidForPlus(FillOf(s, calls[0], id), AllFills(t, calls[1..], id), s.orders[id].price, s.orders[id].unit);
    }
  }

  lemma NothingPaid(o: SellOrder)
    ensures PaidFor(Fills(0, 0, 0, 0, 0), o.price, o.unit)
  {
  }

  /** Over any run of calls of any users, the purchases of an order cost together what its shares cost in one piece,
      and at most one unit more for each purchase after the first. Shares bought, shares given back and shares left add
      up to the shares there were. */
  lemma PartialFills(s: State, calls: seq<Call>, id: nat)
    requires Valid(s) && AllGenuine(s.self, calls) && id in s.orders
    ensures var f, left := AllFills(s, calls, id), Run(s, calls).orders;
            && Quote(s.orders[id], f.shares) <= f.paid
            && f.paid <= Quote(s.orders[id], f.shares) + (if f.count > 0 then f.count - 1 else 0)
            && f.fees <= f.paid
            && id in left && f.shares + f.returned + left[id].remaining == s.orders[id].remaining
            && (left[id].active <==> f.shares + f.returned < s.orders[id].remaining)
  {
    hide AllFills, Run, Quote;
    RunFills(s, calls, id);
    RunKeepsValid(s, calls);
    PaidForMeans(AllFills(s, calls, id), s.orders[id]);
  }
}
