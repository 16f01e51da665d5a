/** OpenZeppelin's `Math.mulDiv` on unbounded naturals, and the laws of its two roundings
    that the ERC-4626 share conversions rest on. */
module MulDiv {
  const BPS_DENOMINATOR: nat := 10_000

  function Times(a: int, b: int): int { a * b }

  lemma Regroup(a: int, b: int, c: int)
    ensures Times(Times(a, b), c) == Times(Times(a, c), b) == Times(a, Times(b, c))
  {
  }

  function Min(a: nat, b: nat): nat { if a <= b then a else b }

  /** `mulDiv(x, y, d)`: the largest `r` with `r * d <= x * y`. */
  function Floor(x: nat, y: nat, d: nat): (r: nat)
    requires d > 0
    ensures r * d <= x * y < (r + 1) * d
  {
    assert x * y >= 0;
    assert x * y == (x * y / d) * d + x * y % d;
    x * y / d
  }

  /** `mulDiv(x, y, d, Rounding.Ceil)`: the smallest `r` with `x * y <= r * d`. */
  function Ceil(x: nat, y: nat, d: nat): (r: nat)
    requires d > 0
    ensures (r - 1) * d < x * y <= r * d
  {
    assert x * y >= 0;
    assert x * y == (x * y / d) * d + x * y % d;
    x * y / d + (if x * y % d > 0 then 1 else 0)
  }

  /** Multiplication by a positive number reflects the order. */
  lemma Cancel(a: int, b: int, d: int)
    requires d > 0 && a * d < b * d
    ensures a < b
  {
    assert (b - a) * d == b * d - a * d > 0;
  }

  /** `Floor` is the only number with its two bounds, so `r <= Floor` is a multiplicative test. */
  lemma FloorGalois(x: nat, y: nat, d: nat, r: int)
    requires d > 0
    ensures r <= Floor(x, y, d) <==> r * d <= x * y
  {
    var f := Floor(x, y, d);
    if r * d <= x * y {
      Cancel(r, f + 1, d);
    }
    if r <= f {
      assert (f - r) * d >= 0;
      assert f * d - r * d == (f - r) * d;
    }
  }

  /** Dually, `Ceil <= r` is a multiplicative test. */
  lemma CeilGalois(x: nat, y: nat, d: nat, r: int)
    requires d > 0
    ensures Ceil(x, y, d) <= r <==> x * y <= r * d
  {
    var c := Ceil(x, y, d);
    if x * y <= r * d {
      Cancel(c - 1, r, d);
    }
    if c <= r {
      assert (r - c) * d >= 0;
      assert r * d - c * d == (r - c) * d;
    }
  }

  /** Converting down and rounding the way back, in either direction, never exceeds the start:
      the fact that makes a floor-rounded limit safe to spend. */
  lemma ThereAndBack(x: nat, p: nat, q: nat, s: nat)
    requires p > 0 && q > 0
    requires s <= Floor(x, p, q)
    ensures Ceil(s, q, p) <= x
    ensures Floor(s, q, p) <= x
  {
    FloorGalois(x, p, q, s);
    assert s * q <= x * p;
    CeilGalois(s, q, p, x);
    FloorGalois(s, q, p, x + 1);
    assert (x + 1) * p == x * p + p;
  }

  lemma CeilMonotone(x: nat, x': nat, y: nat, d: nat)
    requires d > 0 && x <= x'
    ensures Ceil(x, y, d) <= Ceil(x', y, d)
  {
    assert (x' - x) * y >= 0;
    assert x' * y - x * y == (x' - x) * y;
    CeilGalois(x, y, d, Ceil(x', y, d));
  }
}

/** The share price of an ERC-4626 vault with OpenZeppelin's virtual share and virtual asset. */
module SharePrice {
  import opened MulDiv

  /** What one share is worth: `(assets + 1) / (shares + 1)`. */
  ghost function Price(assets: nat, shares: nat): real {
    (assets + 1) as real / (shares + 1) as real
  }

  lemma ScaleOrder(p: real, p': real, k: real)
    requires k > 0.0
    ensures p <= p' <==> p * k <= p' * k
  {
    assert (p' - p) * k == p' * k - p * k;
  }

  lemma QuotientOrder(x: real, y: real, x': real, y': real)
    requires y > 0.0 && y' > 0.0
    ensures x / y <= x' / y' <==> x * y' <= x' * y
  {
    ScaleOrder(x / y, x' / y', y * y');
    assert (x / y) * (y * y') == x * y' by { assert (x / y) * y == x; }
    assert (x' / y') * (y * y') == x' * y by { assert (x' / y') * y' == x'; }
  }

  lemma Compare(a: nat, s: nat, a': nat, s': nat)
    ensures Price(a, s) <= Price(a', s') <==> (a + 1) * (s' + 1) <= (a' + 1) * (s + 1)
  {
    QuotientOrder((a + 1) as real, (s + 1) as real, (a' + 1) as real, (s' + 1) as real);
    assert ((a + 1) * (s' + 1)) as real == (a + 1) as real * (s' + 1) as real;
    assert ((a' + 1) * (s + 1)) as real == (a' + 1) as real * (s + 1) as real;
  }

  /** Issuing shares keeps the price from falling exactly when they are worth no more than the assets taken in. */
  lemma EntryPriceIff(a: nat, s: nat, assetsIn: nat, minted: nat)
    ensures Price(a, s) <= Price(a + assetsIn, s + minted) <==> minted * (a + 1) <= assetsIn * (s + 1)
  {
    Compare(a, s, a + assetsIn, s + minted);
    assert (a + 1) * (s + minted + 1) == (a + 1) * (s + 1) + minted * (a + 1);
    assert (a + assetsIn + 1) * (s + 1) == (a + 1) * (s + 1) + assetsIn * (s + 1);
  }

  /** Burning shares keeps it exactly when the assets paid out are worth no more than they are. */
  lemma ExitPriceIff(a: nat, s: nat, assetsOut: nat, burned: nat)
    requires assetsOut <= a && burned <= s
    ensures Price(a, s) <= Price(a - assetsOut, s - burned) <==> assetsOut * (s + 1) <= burned * (a + 1)
  {
    Compare(a, s, a - assetsOut, s - burned);
    assert (a + 1) * (s - burned + 1) == (a + 1) * (s + 1) - burned * (a + 1);
    assert (a - assetsOut + 1) * (s + 1) == (a + 1) * (s + 1) - assetsOut * (s + 1);
  }

  lemma MoreAssetsRaisePrice(a: nat, a': nat, s: nat)
    requires a <= a'
    ensures Price(a, s) <= Price(a', s)
  {
    Compare(a, s, a', s);
    assert (a' - a) * (s + 1) >= 0;
    assert (a' + 1) * (s + 1) - (a + 1) * (s + 1) == (a' - a) * (s + 1);
  }

  lemma TimesOrder(a: int, b: int, c: nat)
    requires a <= b
    ensures Times(a, c) <= Times(b, c)
  {
    assert (b - a) * c == b * c - a * c;
  }

  lemma TimesReflects(a: int, b: int, c: nat)
    requires c > 0
    ensures Times(a, c) <= Times(b, c) ==> a <= b
  {
    if a > b {
      TimesOrder(b + 1, a, c);
      assert (b + 1) * c == b * c + c;
    }
  }

  lemma TimesSwaps(a: int, b: int)
    ensures Times(a, b) == Times(b, a)
  {
  }

  lemma Chain(r: nat, x: nat, p: nat, q: nat, p': nat, q': nat)
    requires q > 0 && Times(r, q) <= Times(x, p) && Times(p, q') <= Times(p', q)
    ensures Times(r, q') <= Times(x, p')
  {
    hide Times;
    TimesOrder(Times(r, q), Times(x, p), q');
    Regroup(r, q, q');
    Regroup(x, p, q');
    TimesOrder(Times(p, q'), Times(p', q), x);
    TimesSwaps(Times(p, q'), x);
    TimesSwaps(Times(p', q), x);
    Regroup(x, p', q);
    TimesReflects(Times(r, q'), Times(x, p'), q);
  }

  /** A higher price never redeems a given number of shares for less. */
  lemma PayoutFollowsPrice(a: nat, s: nat, a': nat, s': nat, shares: nat)
    requires Price(a, s) <= Price(a', s')
    ensures Floor(shares, a + 1, s + 1) <= Floor(shares, a' + 1, s' + 1)
  {
    Compare(a, s, a', s');
    var r := Floor(shares, a + 1, s + 1);
    Chain(r, shares, a + 1, s + 1, a' + 1, s' + 1);
    FloorGalois(shares, a' + 1, s' + 1, r);
  }
}
