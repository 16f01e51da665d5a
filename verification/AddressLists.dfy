/** The fee vault's address lists: each mirrors a mapping of flags, kept in step by push and swap-and-pop. */
module AddressLists {
  import opened ShareToken

  /** Swap-and-pop at `i`: the last address takes its place. */
  function SwapPop(values: seq<Address>, i: nat): seq<Address>
    requires i < |values|
  {
    values[i := values[|values| - 1]][..|values| - 1]
  }

  /** What `_removeAddress` leaves: swap-and-pop at the first occurrence, from place `from` on. */
  function Removed(values: seq<Address>, value: Address, from: nat): seq<Address>
    requires from <= |values|
    decreases |values| - from
  {
    if from == |values| then values
    else if values[from] == value then SwapPop(values, from)
    else Removed(values, value, from + 1)
  }

  method RemoveAddress(values: seq<Address>, value: Address) returns (r: seq<Address>)
    ensures r == Removed(values, value, 0)
  {
    var len := |values|;
    for i := 0 to len
      invariant Removed(values, value, 0) == Removed(values, value, i)
    {
      if values[i] == value {
        r := values[i := values[len - 1]];
        r := r[..len - 1];
        return;
      }
    }
    r := values;
  }

  /** The last address takes the place of the first occurrence, and all others keep theirs. */
  lemma {:induction false} RemovedAt(values: seq<Address>, value: Address, from: nat, i: nat)
    requires from <= i < |values| && values[i] == value && forall k | from <= k < i :: values[k] != value
    ensures var r, n := Removed(values, value, from), |values|;
            |r| == n - 1 && forall k | 0 <= k < n - 1 :: r[k] == if k == i then values[n - 1] else values[k]
    decreases |values| - from
  {
    if from < i { RemovedAt(values, value, from + 1, i); }
  }

  ghost predicate NoDuplicates(values: seq<Address>) {
    forall i, j | 0 <= i < j < |values| :: values[i] != values[j]
  }

  /** The list holds exactly the flagged addresses, each once. */
  ghost predicate Mirrors(values: seq<Address>, flagged: set<Address>) {
    NoDuplicates(values) && forall a: Address :: a in values <==> a in flagged
  }

  lemma PushKeepsMirror(values: seq<Address>, flagged: set<Address>, a: Address)
    requires Mirrors(values, flagged) && a !in flagged
    ensures Mirrors(values + [a], flagged + {a})
  {
  }

  lemma {:induction false} RemoveKeepsMirror(values: seq<Address>, flagged: set<Address>, value: Address, from: nat)
    requires Mirrors(values, flagged) && from <= |values| && value in flagged
    requires forall i | 0 <= i < from :: values[i] != value
    ensures Mirrors(Removed(values, value, from), flagged - {value})
    decreases |values| - from
  {
    assert value in values;
    if values[from] == value {
      var n, r := |values|, SwapPop(values, from);
      forall a: Address ensures a in r <==> a in flagged - {value} {
        if a in flagged - {value} {
          var i :| 0 <= i < n && values[i] == a;
          assert i != from && (if i == n - 1 then r[from] == a else r[i] == a);
        }
        if a in r {
          var i :| 0 <= i < |r| && r[i] == a;
          assert a == values[if i == from then n - 1 else i] && a in values && a != value;
        }
      }
    } else {
      RemoveKeepsMirror(values, flagged, value, from + 1);
    }
  }

  // ----- the four lists -----

  datatype OperatorInfo = OperatorInfo(authorized: bool, totalAlloc: nat, currentAlloc: nat, txCap: nat)

  datatype Registry = Registry(
    owner: Address,
    operators: map<Address, OperatorInfo>, operatorList: seq<Address>,
    whitelisted: set<Address>, whitelistedList: seq<Address>,
    trusted: set<Address>, trustedList: seq<Address>,
    wallets: set<Address>, walletList: seq<Address>)

  datatype ListOp =
    | AddOperator(operator: Address, allocation: nat, transactionCap: nat)
    | RemoveOperator(operator: Address)
    | SetOperatorAllocation(operator: Address, allocation: nat)
    | SetOperatorTransactionCap(operator: Address, transactionCap: nat)
    | ResetOperatorAllocation(operator: Address)
    | AddWhitelisted(account: Address)
    | RemoveWhitelisted(account: Address)
    | AddTrusted(account: Address)
    | RemoveTrusted(account: Address)
    | SetTradingWallet(account: Address, allowed: bool)

  /** The operator mapping's default for an address never added. */
  function Info(s: Registry, a: Address): OperatorInfo {
    if a in s.operators then s.operators[a] else OperatorInfo(false, 0, 0, 0)
  }

  function Authorized(s: Registry): set<Address> { set a | a in s.operators && s.operators[a].authorized }

  /** The state after a list call, or nothing when it reverts. */
  function ApplyList(s: Registry, caller: Address, op: ListOp): (bool, Registry) {
    if caller != s.owner then (false, s)
    else match op
      case AddOperator(a, allocation, transactionCap) =>
        if a == ZERO then (false, s)
        else (true, s.(operatorList := if Info(s, a).authorized then s.operatorList else s.operatorList + [a],
                       operators := s.operators[
                         a := OperatorInfo(true, allocation, Info(s, a).currentAlloc, transactionCap)]))
      case RemoveOperator(a) =>
        if !Info(s, a).authorized then (false, s)
        else (true, s.(operators := s.operators - {a}, operatorList := Removed(s.operatorList, a, 0)))
      case SetOperatorAllocation(a, allocation) =>
        if !Info(s, a).authorized then (false, s)
        else (true, s.(operators := s.operators[a := Info(s, a).(totalAlloc := allocation)]))
      case SetOperatorTransactionCap(a, transactionCap) =>
        if !Info(s, a).authorized then (false, s)
        else (true, s.(operators := s.operators[a := Info(s, a).(txCap := transactionCap)]))
      case ResetOperatorAllocation(a) =>
        if !Info(s, a).authorized then (false, s)
        else (true, s.(operators := s.operators[a := Info(s, a).(currentAlloc := 0)]))
      case AddWhitelisted(a) =>
        if a == ZERO then (false, s)
        else if a in s.whitelisted then (true, s)
        else (true, s.(whitelisted := s.whitelisted + {a}, whitelistedList := s.whitelistedList + [a]))
      case RemoveWhitelisted(a) =>
        if a !in s.whitelisted then (false, s)
        else (true, s.(whitelisted := s.whitelisted - {a}, whitelistedList := Removed(s.whitelistedList, a, 0)))
      case AddTrusted(a) =>
        if a == ZERO then (false, s)
        else if a in s.trusted then (true, s)
        else (true, s.(trusted := s.trusted + {a}, trustedList := s.trustedList + [a]))
      case RemoveTrusted(a) =>
        if a !in s.trusted then (false, s)
        else (true, s.(trusted := s.trusted - {a}, trustedList := Removed(s.trustedList, a, 0)))
      case SetTradingWallet(a, allowed) =>
        if a == ZERO then (false, s)
        else if allowed && a !in s.wallets then (true, s.(wallets := s.wallets + {a}, walletList := s.walletList + [a]))
        else if !allowed && a in s.wallets
          then (true, s.(wallets := s.wallets - {a}, walletList := Removed(s.walletList, a, 0)))
        else (true, s)
  }

  function RunLists(s: Registry, calls: seq<(Address, ListOp)>): Registry
    decreases calls
  {
    if calls == [] then s else RunLists(ApplyList(s, calls[0].0, calls[0].1).1, calls[1..])
  }

  ghost predicate AllMirror(s: Registry) {
    && Mirrors(s.operatorList, Authorized(s)) && Mirrors(s.whitelistedList, s.whitelisted)
    && Mirrors(s.trustedList, s.trusted) && Mirrors(s.walletList, s.wallets)
  }

  lemma OperatorFlags(s: Registry, a: Address, info: OperatorInfo)
    requires info.authorized
    ensures Authorized(s.(operators := s.operators[a := info])) == Authorized(s) + {a}
    ensures Authorized(s.(operators := s.operators - {a})) == Authorized(s) - {a}
    ensures a in Authorized(s) <==> Info(s, a).authorized
  {
  }

  lemma OperatorStepKeepsMirror(s: Registry, caller: Address, op: ListOp)
    requires AllMirror(s)
    requires op.AddOperator? || op.RemoveOperator? || op.SetOperatorAllocation? || op.SetOperatorTransactionCap?
             || op.ResetOperatorAllocation?
    ensures AllMirror(ApplyList(s, caller, op).1)
  {
    hide Mirrors, Authorized, Removed;
    var t := ApplyList(s, caller, op).1;
    if caller == s.owner {
      OperatorFlags(s, op.operator, OperatorInfo(true, 0, 0, 0));
      if op.operator in t.operators && t.operators[op.operator].authorized {
        OperatorFlags(s, op.operator, t.operators[op.operator]);
      }
      if !Info(s, op.operator).authorized {
        PushKeepsMirror(s.operatorList, Authorized(s), op.operator);
      } else {
        assert Authorized(s) + {op.operator} == Authorized(s);
        RemoveKeepsMirror(s.operatorList, Authorized(s), op.operator, 0);
      }
      SameFlags(s, t);
    }
  }

  lemma SameFlags(s: Registry, t: Registry)
    ensures s.operators == t.operators ==> Authorized(s) == Authorized(t)
    ensures Authorized(s.(operators := t.operators)) == Authorized(t)
  {
  }

  lemma ListStepKeepsMirror(s: Registry, caller: Address, op: ListOp)
    requires AllMirror(s)
    ensures AllMirror(ApplyList(s, caller, op).1)
  {
    hide Mirrors, Authorized, Removed;
    SameFlags(s, ApplyList(s, caller, op).1);
    if caller == s.owner {
      match op
      case AddWhitelisted(a) => if a !in s.whitelisted { PushKeepsMirror(s.whitelistedList, s.whitelisted, a); }
      case RemoveWhitelisted(a) => if a in s.whitelisted { RemoveKeepsMirror(s.whitelistedList, s.whitelisted, a, 0); }
      case AddTrusted(a) => if a !in s.trusted { PushKeepsMirror(s.trustedList, s.trusted, a); }
      case RemoveTrusted(a) => if a in s.trusted { RemoveKeepsMirror(s.trustedList, s.trusted, a, 0); }
      case SetTradingWallet(a, allowed) =>
        if a in s.wallets { RemoveKeepsMirror(s.walletList, s.wallets, a, 0); }
        else { PushKeepsMirror(s.walletList, s.wallets, a); }
      case _ => OperatorStepKeepsMirror(s, caller, op);
    }
  }

  /** What one call does to the record of every operator: only the owner's calls count, each touches its own operator
      and its own field, adding one keeps what it has spent, and removing one forgets it. */
  lemma OperatorRecords(s: Registry, caller: Address, op: ListOp, a: Address)
    ensures var before, now := Info(s, a), Info(ApplyList(s, caller, op).1, a);
            if caller != s.owner then now == before
            else match op
              case AddOperator(b, allocation, cap) =>
                now == if a == b != ZERO then OperatorInfo(true, allocation, before.currentAlloc, cap) else before
              case RemoveOperator(b) =>
                if a == b && before.authorized
                then !now.authorized && now.totalAlloc == now.currentAlloc == now.txCap == 0 else now == before
              case SetOperatorAllocation(b, n) =>
                if a == b && before.authorized
                then now.totalAlloc == n && before == now.(totalAlloc := before.totalAlloc)
                else now == before
              case SetOperatorTransactionCap(b, n) =>
                if a == b && before.authorized then now.txCap == n && before == now.(txCap := before.txCap)
                else now == before
              case ResetOperatorAllocation(b) =>
                if a == b && before.authorized
                then now.currentAlloc == 0 && before == now.(currentAlloc := before.currentAlloc)
                else now == before
              case _ => now == before
  {
  }

  /** What one call does to the flags of every account in the other three lists. */
  lemma FlagsStep(s: Registry, caller: Address, op: ListOp, a: Address)
    ensures var t, mine := ApplyList(s, caller, op).1, caller == s.owner;
            && (a in t.whitelisted <==> if mine && op == AddWhitelisted(a) && a != ZERO then true
                                        else a in s.whitelisted && !(mine && op == RemoveWhitelisted(a)))
            && (a in t.trusted <==> if mine && op == AddTrusted(a) && a != ZERO then true
                                    else a in s.trusted && !(mine && op == RemoveTrusted(a)))
            && (a in t.wallets <==> if mine && op == SetTradingWallet(a, true) && a != ZERO then true
                                    else a in s.wallets && !(mine && op == SetTradingWallet(a, false) && a != ZERO))
  {
  }

  /** After any run of calls from any callers, each list holds exactly the flagged addresses, each once. */
  lemma {:induction false} ListsAlwaysMirror(s: Registry, calls: seq<(Address, ListOp)>)
    requires AllMirror(s)
    ensures AllMirror(RunLists(s, calls))
    decreases calls
  {
    if calls != [] {
      ListStepKeepsMirror(s, calls[0].0, calls[0].1);
      ListsAlwaysMirror(ApplyList(s, calls[0].0, calls[0].1).1, calls[1..]);
    }
  }
}
