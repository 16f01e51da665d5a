/** The ERC-20 side shared by the vaults: balances and allowances by account. */
module ShareToken {
  type Address = nat

  const ZERO: Address := 0
  const UINT256_MAX: nat := 0xffff_ffff_ffff_ffff_ffff_ffff_ffff_ffff_ffff_ffff_ffff_ffff_ffff_ffff_ffff_ffff

  function Balance(b: map<Address, nat>, a: Address): nat { if a in b then b[a] else 0 }

  function Credit(b: map<Address, nat>, a: Address, n: nat): map<Address, nat> { b[a := Balance(b, a) + n] }

  function Debit(b: map<Address, nat>, a: Address, n: nat): map<Address, nat>
    requires n <= Balance(b, a)
  {
    b[a := Balance(b, a) - n]
  }

  // ----- allowances -----

  type Allowances = map<(Address, Address), nat>

  function Allowance(g: Allowances, holder: Address, spender: Address): nat {
    if (holder, spender) in g then g[(holder, spender)] else 0
  }

  predicate MaySpend(g: Allowances, holder: Address, spender: Address, n: nat) {
    holder == spender || n <= Allowance(g, holder, spender)
  }

  /** An allowance is spent unless it is the largest number. */
  function Spent(g: Allowances, holder: Address, spender: Address, n: nat): Allowances
    requires n <= Allowance(g, holder, spender)
  {
    if Allowance(g, holder, spender) == UINT256_MAX then g
    else g[(holder, spender) := Allowance(g, holder, spender) - n]
  }

  // ----- the sum of all balances -----

  ghost function Total(b: map<Address, nat>): nat {
    if b == map[] then 0 else var a :| a in b; b[a] + Total(b - {a})
  }

  lemma {:induction false} TotalSplit(b: map<Address, nat>, a: Address)
    requires a in b
    ensures Total(b) == b[a] + Total(b - {a})
    decreases |b|
  {
    assert b != map[];
    var c :| c in b && Total(b) == b[c] + Total(b - {c});
    if c != a {
      TotalSplit(b - {c}, a);
      TotalSplit(b - {a}, c);
      assert b - {c} - {a} == b - {a} - {c};
    }
  }

  lemma TotalUpdate(b: map<Address, nat>, a: Address, n: nat)
    ensures Total(b[a := n]) + Balance(b, a) == Total(b) + n
  {
    var c := b[a := n];
    TotalSplit(c, a);
    assert c - {a} == b - {a};
    if a in b { TotalSplit(b, a); } else { assert b - {a} == b; }
  }

  /** Credits and debits change the ledger's total by exactly what they move. */
  lemma CreditTotal(b: map<Address, nat>, a: Address, n: nat)
    ensures Total(Credit(b, a, n)) == Total(b) + n
  {
    TotalUpdate(b, a, Balance(b, a) + n);
  }

  lemma DebitTotal(b: map<Address, nat>, a: Address, n: nat)
    requires n <= Balance(b, a)
    ensures Total(Debit(b, a, n)) == Total(b) - n
  {
    TotalUpdate(b, a, Balance(b, a) - n);
  }

  lemma BalanceWithinTotal(b: map<Address, nat>, a: Address)
    ensures Balance(b, a) <= Total(b)
  {
    if a in b { TotalSplit(b, a); }
  }
}
