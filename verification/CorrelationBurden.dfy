/** The correlation burden of a market: the average positive correlation to the other markets, by their weights. */
module CorrelationBurden {
  import opened Reals
  import opened WaterFill

  const BURDEN_TOLERANCE: real := 0.000000001

  function Clamp(v: real, lo: real, hi: real): real { Max(lo, Min(hi, v)) }

  ghost function BurdenWeight(w: seq<real>, i: nat, k: nat): (r: real)
    requires k <= |w|
    ensures r >= 0.0
  {
    if k == 0 then 0.0 else BurdenWeight(w, i, k - 1) + (if k - 1 == i then 0.0 else Max(w[k - 1], 0.0))
  }

  /** Weighted positive correlation of market `i` to the others among the first `k`. */
  ghost function BurdenSum(w: seq<real>, row: seq<real>, i: nat, k: nat): real
    requires k <= |w| && |row| == |w|
  {
    if k == 0 then 0.0
    else BurdenSum(w, row, i, k - 1) + (if k - 1 == i then 0.0 else Times(Max(w[k - 1], 0.0), Max(row[k - 1], 0.0)))
  }

  ghost function Burden(w: seq<real>, row: seq<real>, i: nat): real
    requires |row| == |w|
  {
    if BurdenWeight(w, i, |w|) > BURDEN_TOLERANCE
    then Clamp(BurdenSum(w, row, i, |w|) / BurdenWeight(w, i, |w|), 0.0, 1.0) else 0.0
  }

  method CorrBurden(w: seq<real>, row: seq<real>, i: nat) returns (burden: real)
    requires |row| == |w|
    ensures burden == Burden(w, row, i)
  {
    var num, den := 0.0, 0.0;
    for j := 0 to |w|
      invariant num == BurdenSum(w, row, i, j) && den == BurdenWeight(w, i, j)
    {
      if j == i { continue; }
      var wj := Max(w[j], 0.0);
      num := num + Times(wj, Max(row[j], 0.0));
      den := den + wj;
    }
    burden := if den > BURDEN_TOLERANCE then Clamp(num / den, 0.0, 1.0) else 0.0;
  }

  // ----- what it measures -----

  /** The other markets that have a weight. */
  ghost predicate Peer(w: seq<real>, i: nat, j: nat) { j < |w| && j != i && w[j] > 0.0 }

  ghost function PeerWeights(w: seq<real>, i: nat): (r: seq<real>)
    ensures |r| == |w|
  {
    seq(|w|, j requires 0 <= j < |w| => if Peer(w, i, j) then w[j] else 0.0)
  }

  /** The peers' weights are not negligible together. */
  ghost predicate HasPeers(w: seq<real>, i: nat) { Sum(PeerWeights(w, i), |w|) > 0.000000001 }

  lemma {:induction false} WeightIs(w: seq<real>, i: nat, k: nat)
    requires k <= |w|
    ensures BurdenWeight(w, i, k) == Sum(PeerWeights(w, i), k)
  {
    if k > 0 { WeightIs(w, i, k - 1); }
  }

  lemma TimesOrder(a: real, x: real, y: real)
    requires a >= 0.0 && x <= y
    ensures Times(a, x) <= Times(a, y) && Times(a, 0.0) == 0.0 && Times(0.0, x) == 0.0
  {
    assert a * (y - x) == a * y - a * x;
  }

  lemma PartOf(a: real, x: real)
    requires a > 0.0 && x <= 1.0
    ensures Times(a, x) <= a && (Times(a, x) == a <==> x == 1.0)
    ensures x > 0.0 ==> Times(a, x) > 0.0
  {
    assert a * (1.0 - x) == a - a * x;
    if x < 1.0 { ProductPositive(a, 1.0 - x); }
  }

  /** More correlation to peers makes the sum no smaller; correlations of at most one keep it within the weight. */
  lemma {:induction false} SumMonotone(w: seq<real>, row: seq<real>, row': seq<real>, i: nat, k: nat)
    requires |row| == |row'| == |w| && k <= |w|
    requires forall j: nat | Peer(w, i, j) :: row[j] <= row'[j] || row[j] <= 0.0
    ensures 0.0 <= BurdenSum(w, row, i, k) <= BurdenSum(w, row', i, k)
  {
    if k > 0 {
      SumMonotone(w, row, row', i, k - 1);
      var a, x, y := Max(w[k - 1], 0.0), Max(row[k - 1], 0.0), Max(row'[k - 1], 0.0);
      TimesOrder(a, 0.0, x);
      TimesOrder(a, 0.0, y);
      if x <= y { TimesOrder(a, x, y); }
      hide Times;
    }
  }

  lemma {:induction false} SumWithin(w: seq<real>, row: seq<real>, i: nat, k: nat)
    requires |row| == |w| && k <= |w| && forall j: nat | Peer(w, i, j) :: row[j] <= 1.0
    ensures BurdenSum(w, row, i, k) <= BurdenWeight(w, i, k)
    ensures BurdenSum(w, row, i, k) == BurdenWeight(w, i, k)
       <==> forall j: nat | j < k && Peer(w, i, j) :: row[j] == 1.0
  {
    if k > 0 {
      SumWithin(w, row, i, k - 1);
      hide Times;
      var a, x := Max(w[k - 1], 0.0), Max(row[k - 1], 0.0);
      if a > 0.0 && x <= 1.0 { PartOf(a, x); }
      TimesOrder(0.0, x, x);
    }
  }

  lemma ProductPositive(a: real, b: real)
    requires a > 0.0 && b > 0.0
    ensures a * b > 0.0
  {
  }

  lemma {:induction false} SumZeroIff(w: seq<real>, row: seq<real>, i: nat, k: nat)
    requires |row| == |w| && k <= |w|
    ensures BurdenSum(w, row, i, k) >= 0.0
    ensures BurdenSum(w, row, i, k) == 0.0 <==> forall j: nat | j < k && Peer(w, i, j) :: row[j] <= 0.0
  {
    if k > 0 {
      SumZeroIff(w, row, i, k - 1);
      var a, x := Max(w[k - 1], 0.0), Max(row[k - 1], 0.0);
      if a > 0.0 && x > 0.0 { ProductPositive(a, x); }
      TimesOrder(a, 0.0, x);
      TimesOrder(0.0, x, x);
      assert a > 0.0 && x > 0.0 ==> Times(a, x) > 0.0;
      hide Times;
    }
  }

  lemma QuotientBounds(x: real, d: real)
    requires d > 0.0 && x >= 0.0
    ensures x / d >= 0.0 && (x / d == 0.0 <==> x == 0.0)
    ensures (x <= d <==> x / d <= 1.0) && (x == d <==> x / d == 1.0) && (x / d) * d == x
  {
    assert (x / d) * d == x;
    if x / d > 1.0 { ProductPositive(x / d - 1.0, d); }
    if x / d < 1.0 { ProductPositive(1.0 - x / d, d); }
  }

  lemma QuotientMonotone(x: real, y: real, d: real)
    requires d > 0.0 && x <= y
    ensures x / d <= y / d
  {
  }

  /** A market has no burden exactly when it has no peers to speak of, or none it is positively correlated to. */
  lemma NoBurdenIff(w: seq<real>, row: seq<real>, i: nat)
    requires |row| == |w|
    ensures 0.0 <= Burden(w, row, i) <= 1.0
    ensures Burden(w, row, i) == 0.0 <==> !HasPeers(w, i) || forall j: nat | Peer(w, i, j) :: row[j] <= 0.0
  {
    WeightIs(w, i, |w|);
    SumZeroIff(w, row, i, |w|);
    hide BurdenSum, BurdenWeight, Sum;
    if HasPeers(w, i) { QuotientBounds(BurdenSum(w, row, i, |w|), BurdenWeight(w, i, |w|)); }
  }

  /** It has the full burden exactly when it has peers and duplicates them all. */
  lemma FullBurdenIff(w: seq<real>, row: seq<real>, i: nat)
    requires |row| == |w| && forall j: nat | Peer(w, i, j) :: row[j] <= 1.0
    ensures Burden(w, row, i) == 1.0 <==> HasPeers(w, i) && forall j: nat | Peer(w, i, j) :: row[j] == 1.0
  {
    WeightIs(w, i, |w|);
    SumZeroIff(w, row, i, |w|);
    SumWithin(w, row, i, |w|);
    hide BurdenSum, BurdenWeight, Sum;
    if HasPeers(w, i) { QuotientBounds(BurdenSum(w, row, i, |w|), BurdenWeight(w, i, |w|)); }
  }

  /** It never falls when correlations to peers rise, and heeds neither negative ones nor any other entry of the row. */
  lemma BurdenMonotone(w: seq<real>, row: seq<real>, row': seq<real>, i: nat)
    requires |row| == |row'| == |w|
    requires forall j: nat | Peer(w, i, j) :: row[j] <= row'[j] || row[j] <= 0.0
    ensures Burden(w, row, i) <= Burden(w, row', i)
  {
    SumMonotone(w, row, row', i, |w|);
    hide BurdenSum, BurdenWeight;
    if BurdenWeight(w, i, |w|) > BURDEN_TOLERANCE {
      QuotientMonotone(BurdenSum(w, row, i, |w|), BurdenSum(w, row', i, |w|), BurdenWeight(w, i, |w|));
    }
  }

  /** What the peers' correlations come to, weight by weight. */
  ghost function PeerBurdens(w: seq<real>, row: seq<real>, i: nat): (r: seq<real>)
    requires |row| == |w|
    ensures |r| == |w|
  {
    seq(|w|, j requires 0 <= j < |w| => if Peer(w, i, j) && row[j] > 0.0 then Times(w[j], row[j]) else 0.0)
  }

  lemma {:induction false} SumIs(w: seq<real>, row: seq<real>, i: nat, k: nat)
    requires |row| == |w| && k <= |w|
    ensures BurdenSum(w, row, i, k) == Sum(PeerBurdens(w, row, i), k)
  {
    if k > 0 {
      SumIs(w, row, i, k - 1);
      hide Times;
      TimesOrder(Max(w[k - 1], 0.0), 0.0, 0.0);
      TimesOrder(0.0, Max(row[k - 1], 0.0), Max(row[k - 1], 0.0));
    }
  }

  /** It is the weighted average of the peers' correlations, negative ones counted as none. */
  lemma BurdenIsAverage(w: seq<real>, row: seq<real>, i: nat)
    requires |row| == |w| && HasPeers(w, i) && forall j: nat | Peer(w, i, j) :: row[j] <= 1.0
    ensures Times(Burden(w, row, i), Sum(PeerWeights(w, i), |w|)) == Sum(PeerBurdens(w, row, i), |w|)
  {
    WeightIs(w, i, |w|);
    SumIs(w, row, i, |w|);
    BurdenIsQuotient(w, row, i);
    hide *;
    DivideThenTimes(BurdenSum(w, row, i, |w|), BurdenWeight(w, i, |w|));
  }

  lemma BurdenIsQuotient(w: seq<real>, row: seq<real>, i: nat)
    requires |row| == |w| && HasPeers(w, i) && forall j: nat | Peer(w, i, j) :: row[j] <= 1.0
    ensures BurdenWeight(w, i, |w|) > 0.0
    ensures Burden(w, row, i) == BurdenSum(w, row, i, |w|) / BurdenWeight(w, i, |w|)
  {
    WeightIs(w, i, |w|);
    SumZeroIff(w, row, i, |w|);
    SumWithin(w, row, i, |w|);
    hide BurdenSum, BurdenWeight, Sum;
    QuotientBounds(BurdenSum(w, row, i, |w|), BurdenWeight(w, i, |w|));
  }

  lemma DivideThenTimes(x: real, d: real)
    requires d > 0.0
    ensures Times(x / d, d) == x
  {
  }
}
