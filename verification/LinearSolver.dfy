/** Gauss-Jordan elimination with partial pivoting, over the reals. */
module LinearSolver {
  import opened Wrappers

  const PIVOT_TOLERANCE: real := 0.000000000001

  function Abs(x: real): real { if x < 0.0 then -x else x }

  ghost predicate Square(a: seq<seq<real>>, n: nat) { |a| == n && forall i | 0 <= i < n :: |a[i]| == n }

  /** `row[0] * x[0] + ... + row[k-1] * x[k-1]`. */
  ghost function Value(row: seq<real>, x: seq<real>, k: nat): real
    requires k <= |row| && k <= |x|
  {
    if k == 0 then 0.0 else Value(row, x, k - 1) + row[k - 1] * x[k - 1]
  }

  /** `A x = b`. */
  ghost predicate Solves(a: seq<seq<real>>, b: seq<real>, x: seq<real>)
    requires Square(a, |b|)
  {
    |x| == |b| && forall i | 0 <= i < |b| :: Value(a[i], x, |b|) == b[i]
  }

  // ----- augmented rows -----

  ghost predicate Augmented(rows: seq<seq<real>>, n: nat) {
    |rows| == n && forall i | 0 <= i < n :: |rows[i]| == n + 1
  }

  ghost predicate Holds(row: seq<real>, x: seq<real>)
    requires |row| == |x| + 1
  {
    Value(row, x, |x|) == row[|x|]
  }

  ghost predicate SolvesRows(rows: seq<seq<real>>, x: seq<real>)
    requires Augmented(rows, |x|)
  {
    forall i | 0 <= i < |x| :: Holds(rows[i], x)
  }

  /** The two systems have the same solutions. */
  ghost predicate Equivalent(rows: seq<seq<real>>, a: seq<seq<real>>, b: seq<real>)
    requires Augmented(rows, |b|) && Square(a, |b|)
  {
    forall x: seq<real> | |x| == |b| :: SolvesRows(rows, x) <==> Solves(a, b, x)
  }

  /** Columns below `col` are those of a diagonal matrix with a non-zero diagonal. */
  ghost predicate Reduced(rows: seq<seq<real>>, n: nat, col: nat)
    requires Augmented(rows, n) && col <= n
  {
    && (forall c | 0 <= c < col :: rows[c][c] != 0.0)
    && (forall r, c | 0 <= r < n && 0 <= c < col && r != c :: rows[r][c] == 0.0)
  }

  // ----- row operations -----

  lemma {:induction false} ValueOfAugmented(a: seq<real>, y: real, x: seq<real>, k: nat)
    requires |a| == |x| && k <= |x|
    ensures Value(a + [y], x, k) == Value(a, x, k)
  {
    if k > 0 { ValueOfAugmented(a, y, x, k - 1); }
  }

  lemma InitialIsEquivalent(rows: seq<seq<real>>, a: seq<seq<real>>, b: seq<real>)
    requires Square(a, |b|) && Augmented(rows, |b|)
    requires forall i | 0 <= i < |b| :: rows[i] == a[i] + [b[i]]
    ensures Equivalent(rows, a, b)
  {
    forall x: seq<real> | |x| == |b| ensures SolvesRows(rows, x) <==> Solves(a, b, x) {
      forall i | 0 <= i < |b| ensures Holds(rows[i], x) <==> Value(a[i], x, |b|) == b[i] {
        ValueOfAugmented(a[i], b[i], x, |b|);
      }
    }
  }

  /** `row` minus `f` times `pivot`. */
  ghost function Minus(row: seq<real>, f: real, pivot: seq<real>): (r: seq<real>)
    requires |row| == |pivot|
    ensures |r| == |row|
  {
    seq(|row|, c requires 0 <= c < |row| => row[c] - f * pivot[c])
  }

  lemma {:induction false} ValueOfMinus(row: seq<real>, f: real, pivot: seq<real>, x: seq<real>, k: nat)
    requires |row| == |pivot| == |x| + 1 && k <= |x|
    ensures Value(Minus(row, f, pivot), x, k) == Value(row, x, k) - f * Value(pivot, x, k)
  {
    if k > 0 {
      ValueOfMinus(row, f, pivot, x, k - 1);
      assert (row[k - 1] - f * pivot[k - 1]) * x[k - 1] == row[k - 1] * x[k - 1] - f * (pivot[k - 1] * x[k - 1]);
    }
  }

  lemma MinusHolds(row: seq<real>, f: real, pivot: seq<real>, x: seq<real>)
    requires |row| == |pivot| == |x| + 1 && Holds(pivot, x)
    ensures Holds(Minus(row, f, pivot), x) <==> Holds(row, x)
  {
    ValueOfMinus(row, f, pivot, x, |x|);
  }

  // ----- elimination -----

  ghost function Augment(a: seq<seq<real>>, b: seq<real>): (rows: seq<seq<real>>)
    requires Square(a, |b|)
    ensures Augmented(rows, |b|)
  {
    seq(|b|, i requires 0 <= i < |b| => a[i] + [b[i]])
  }

  /** The first row, from `col` on and below `k`, whose entry in the column is largest. */
  ghost function PivotRow(rows: seq<seq<real>>, col: nat, k: nat): (p: nat)
    requires Augmented(rows, |rows|) && col < k <= |rows|
    ensures col <= p < k && forall r | col <= r < k :: Abs(rows[r][col]) <= Abs(rows[p][col])
  {
    if k == col + 1 then col
    else
      var p := PivotRow(rows, col, k - 1);
      if Abs(rows[k - 1][col]) > Abs(rows[p][col]) then k - 1 else p
  }

  ghost function Swapped(rows: seq<seq<real>>, i: nat, j: nat): (r: seq<seq<real>>)
    requires i < |rows| && j < |rows|
    ensures |r| == |rows| && (Augmented(rows, |rows|) ==> Augmented(r, |rows|))
  {
    rows[i := rows[j]][j := rows[i]]
  }

  ghost function Ratio(x: real, d: real): real { if d == 0.0 then 0.0 else x / d }

  /** Every row but the pivot row loses its multiple of the pivot row. */
  ghost function Cleared(rows: seq<seq<real>>, col: nat): (r: seq<seq<real>>)
    requires Augmented(rows, |rows|) && col < |rows|
    ensures Augmented(r, |rows|) && r[col] == rows[col]
  {
    seq(|rows|, r requires 0 <= r < |rows| =>
      if r == col then rows[col] else Minus(rows[r], Ratio(rows[r][col], rows[col][col]), rows[col]))
  }

  /** The augmented system after the columns below `col` were cleared, each by its largest pivot. */
  ghost function Eliminated(a: seq<seq<real>>, b: seq<real>, col: nat): (rows: seq<seq<real>>)
    requires Square(a, |b|) && col <= |b|
    ensures Augmented(rows, |b|)
  {
    if col == 0 then Augment(a, b)
    else
      var rows := Eliminated(a, b, col - 1);
      Cleared(Swapped(rows, col - 1, PivotRow(rows, col - 1, |b|)), col - 1)
  }

  /** Column `col` still has an entry of at least the tolerance when its turn comes. */
  ghost predicate HasPivot(a: seq<seq<real>>, b: seq<real>, col: nat)
    requires Square(a, |b|) && col < |b|
  {
    exists r :: col <= r < |b| && Abs(Eliminated(a, b, col)[r][col]) >= 0.000000000001
  }

  ghost predicate Solvable(a: seq<seq<real>>, b: seq<real>)
    requires Square(a, |b|)
  {
    forall col | 0 <= col < |b| :: HasPivot(a, b, col)
  }

  lemma SwapKeepsSolutions(rows: seq<seq<real>>, i: nat, j: nat, x: seq<real>)
    requires Augmented(rows, |x|) && i < |x| && j < |x|
    ensures SolvesRows(Swapped(rows, i, j), x) <==> SolvesRows(rows, x)
  {
    var swapped := Swapped(rows, i, j);
    assert rows[i] == swapped[j] && rows[j] == swapped[i];
    if SolvesRows(swapped, x) {
      forall k | 0 <= k < |x| ensures Holds(rows[k], x) {
        assert Holds(swapped[k], x) && Holds(swapped[i], x) && Holds(swapped[j], x);
      }
    }
  }

  lemma ClearingKeepsSolutions(rows: seq<seq<real>>, col: nat, x: seq<real>)
    requires Augmented(rows, |x|) && col < |x|
    ensures SolvesRows(Cleared(rows, col), x) <==> SolvesRows(rows, x)
  {
    hide Holds, Minus;
    var after := Cleared(rows, col);
    if Holds(rows[col], x) {
      forall k | 0 <= k < |x| ensures Holds(after[k], x) <==> Holds(rows[k], x) {
        if k != col { MinusHolds(rows[k], Ratio(rows[k][col], rows[col][col]), rows[col], x); }
      }
    }
    assert SolvesRows(after, x) ==> Holds(after[col], x);
  }

  lemma ClearingReduces(rows: seq<seq<real>>, col: nat)
    requires Augmented(rows, |rows|) && col < |rows| && Reduced(rows, |rows|, col) && rows[col][col] != 0.0
    ensures Reduced(Cleared(rows, col), |rows|, col + 1)
  {
    var after, pivot := Cleared(rows, col), rows[col];
    forall r, c | 0 <= r < |rows| && 0 <= c < col + 1 && r != c ensures after[r][c] == 0.0 {
      if r != col {
        var f := Ratio(rows[r][col], pivot[col]);
        assert c < col ==> pivot[c] == 0.0;
        assert f * pivot[col] == rows[r][col];
      }
    }
    forall c | 0 <= c < col + 1 ensures after[c][c] != 0.0 { assert c < col ==> pivot[c] == 0.0; }
  }

  /** While pivots were found, the system reached has the solutions of the given one and is reduced. */
  lemma {:induction false} EliminationIsSound(a: seq<seq<real>>, b: seq<real>, col: nat)
    requires Square(a, |b|) && col <= |b| && forall c | 0 <= c < col :: HasPivot(a, b, c)
    ensures Equivalent(Eliminated(a, b, col), a, b) && Reduced(Eliminated(a, b, col), |b|, col)
  {
    hide Equivalent, Cleared, Swapped, HasPivot;
    if col == 0 {
      InitialIsEquivalent(Augment(a, b), a, b);
    } else {
      EliminationIsSound(a, b, col - 1);
      PivotDecides(a, b, col - 1);
      var rows := Eliminated(a, b, col - 1);
      StepIsSound(rows, a, b, col - 1, PivotRow(rows, col - 1, |b|));
    }
  }

  lemma StepIsSound(rows: seq<seq<real>>, a: seq<seq<real>>, b: seq<real>, col: nat, p: nat)
    requires Square(a, |b|) && Augmented(rows, |b|) && col <= p < |b| && rows[p][col] != 0.0
    requires Equivalent(rows, a, b) && Reduced(rows, |b|, col)
    ensures var after := Cleared(Swapped(rows, col, p), col);
            Equivalent(after, a, b) && Reduced(after, |b|, col + 1)
  {
    var swapped := Swapped(rows, col, p);
    assert swapped[col] == rows[p];
    SwapKeepsReduced(rows, |b|, col, p);
    ClearingReduces(swapped, col);
    hide Solves, SolvesRows, Cleared, Swapped, Reduced;
    forall x: seq<real> | |x| == |b| ensures SolvesRows(Cleared(swapped, col), x) <==> Solves(a, b, x) {
      SwapKeepsSolutions(rows, col, p, x);
      ClearingKeepsSolutions(swapped, col, x);
    }
  }

  // ----- what a refusal means -----

  /** Where the rows already used as pivots vanish, the given matrix takes no other values than the rows reached. */
  ghost predicate KeepsValues(rows: seq<seq<real>>, a: seq<seq<real>>, n: nat, col: nat)
    requires Augmented(rows, n) && Square(a, n) && col <= n
  {
    forall z: seq<real> | |z| == n && (forall c | 0 <= c < col :: Value(rows[c], z, n) == 0.0) ::
      TakesValues(rows, a, z)
  }

  ghost predicate TakesValues(rows: seq<seq<real>>, a: seq<seq<real>>, z: seq<real>)
    requires Augmented(rows, |z|) && Square(a, |z|)
  {
    forall i | 0 <= i < |z| :: Takes(rows, z, Value(a[i], z, |z|))
  }

  /** Some row takes the value `v` at `z`. */
  ghost predicate Takes(rows: seq<seq<real>>, z: seq<real>, v: real)
    requires Augmented(rows, |z|)
  {
    exists r :: 0 <= r < |z| && Value(rows[r], z, |z|) == v
  }

  lemma AugmentTakesValues(a: seq<seq<real>>, b: seq<real>, z: seq<real>)
    requires Square(a, |b|) && |z| == |b|
    ensures TakesValues(Augment(a, b), a, z)
  {
    hide Value, Augment;
    var rows := Augment(a, b);
    forall i | 0 <= i < |z| ensures Takes(rows, z, Value(a[i], z, |z|)) {
      AugmentRow(a, b, z, i);
      assert Value(rows[i], z, |z|) == Value(a[i], z, |z|);
    }
  }

  lemma AugmentRow(a: seq<seq<real>>, b: seq<real>, z: seq<real>, i: nat)
    requires Square(a, |b|) && |z| == |b| && i < |b|
    ensures Value(a[i], z, |z|) == Value(Augment(a, b)[i], z, |z|)
  {
    ValueOfAugmented(a[i], b[i], z, |z|);
  }

  lemma StepTakesValues(rows: seq<seq<real>>, a: seq<seq<real>>, col: nat, p: nat, z: seq<real>)
    requires Augmented(rows, |z|) && Square(a, |z|) && col <= p < |z| && KeepsValues(rows, a, |z|, col)
    requires var after := Cleared(Swapped(rows, col, p), col);
             forall c | 0 <= c < col + 1 :: Value(after[c], z, |z|) == 0.0
    ensures TakesValues(Cleared(Swapped(rows, col, p), col), a, z)
  {
    hide Value, Minus;
    var n, swapped := |z|, Swapped(rows, col, p);
    var after := Cleared(swapped, col);
    forall r | 0 <= r < n ensures Value(after[r], z, n) == Value(swapped[r], z, n) {
      if r != col { ValueOfMinus(swapped[r], Ratio(swapped[r][col], swapped[col][col]), swapped[col], z, n); }
    }
    assert forall c | 0 <= c < col :: swapped[c] == rows[c];
    assert TakesValues(rows, a, z);
    forall i | 0 <= i < n ensures Takes(after, z, Value(a[i], z, n)) {
      assert Takes(rows, z, Value(a[i], z, n));
      var r :| 0 <= r < n && Value(rows[r], z, n) == Value(a[i], z, n);
      var k := if r == col then p else if r == p then col else r;
      assert swapped[k] == rows[r];
      assert Value(after[k], z, n) == Value(a[i], z, n);
    }
  }

  lemma {:induction false} EliminationKeepsValues(a: seq<seq<real>>, b: seq<real>, col: nat)
    requires Square(a, |b|) && col <= |b|
    ensures KeepsValues(Eliminated(a, b, col), a, |b|, col)
  {
    hide TakesValues, Cleared, Swapped, Augment, Value, PivotRow, KeepsValues;
    if col == 0 {
      AugmentKeepsValues(a, b);
    } else {
      EliminationKeepsValues(a, b, col - 1);
      var rows := Eliminated(a, b, col - 1);
      StepKeepsValues(rows, a, col - 1, PivotRow(rows, col - 1, |b|));
    }
  }

  lemma AugmentKeepsValues(a: seq<seq<real>>, b: seq<real>)
    requires Square(a, |b|)
    ensures KeepsValues(Augment(a, b), a, |b|, 0)
  {
    hide TakesValues;
    forall z: seq<real> | |z| == |b| ensures TakesValues(Augment(a, b), a, z) { AugmentTakesValues(a, b, z); }
  }

  lemma StepKeepsValues(rows: seq<seq<real>>, a: seq<seq<real>>, col: nat, p: nat)
    requires Augmented(rows, |rows|) && Square(a, |rows|) && col <= p < |rows| && KeepsValues(rows, a, |rows|, col)
    ensures KeepsValues(Cleared(Swapped(rows, col, p), col), a, |rows|, col + 1)
  {
    var n, after := |rows|, Cleared(Swapped(rows, col, p), col);
    hide TakesValues, Value, Cleared, Swapped;
    forall z: seq<real> | |z| == n && forall c | 0 <= c < col + 1 :: Value(after[c], z, n) == 0.0
      ensures TakesValues(after, a, z)
    {
      StepTakesValues(rows, a, col, p, z);
    }
  }

  /** The vector that the first `col` rows of a reduced system send to zero, with a one at `col`. */
  ghost function Kernel(rows: seq<seq<real>>, n: nat, col: nat): (z: seq<real>)
    requires Augmented(rows, n) && col < n && Reduced(rows, n, col)
    ensures |z| == n && z[col] == 1.0
  {
    seq(n, c requires 0 <= c < n => if c < col then -(rows[c][col] / rows[c][c]) else if c == col then 1.0 else 0.0)
  }

  lemma {:induction false} ValueOnKernel(rows: seq<seq<real>>, n: nat, col: nat, r: nat, k: nat)
    requires Augmented(rows, n) && col < n && Reduced(rows, n, col) && r < n && k <= n
    ensures Value(rows[r], Kernel(rows, n, col), k)
         == (if r < col && r < k then -rows[r][col] else 0.0) + if col < k then rows[r][col] else 0.0
  {
    if k > 0 {
      var c, z := k - 1, Kernel(rows, n, col);
      ValueOnKernel(rows, n, col, r, k - 1);
      if c < col && c == r {
        QuotientSolves(rows[c][c], -z[c], rows[c][col]);
        assert rows[c][c] * z[c] == -(rows[c][c] * -z[c]);
      }
      if c < col && c != r { assert rows[r][c] == 0.0; }
    }
  }

  /** A refused matrix is next to singular: it sends a vector with an entry of one to something everywhere below the
      tolerance. */
  lemma RefusedIsNearlySingular(a: seq<seq<real>>, b: seq<real>) returns (z: seq<real>, col: nat)
    requires Square(a, |b|) && !Solvable(a, b)
    ensures |z| == |b| && col < |b| && z[col] == 1.0
    ensures forall i | 0 <= i < |b| :: Abs(Value(a[i], z, |b|)) < 0.000000000001
  {
    col := FirstRefused(a, b);
    var n, rows := |b|, Eliminated(a, b, col);
    EliminationIsSound(a, b, col);
    EliminationKeepsValues(a, b, col);
    z := Kernel(rows, n, col);
    forall r | 0 <= r < n ensures Value(rows[r], z, n) == if r < col then 0.0 else rows[r][col] {
      ValueOnKernel(rows, n, col, r, n);
    }
    hide Value, Kernel, Eliminated;
    assert TakesValues(rows, a, z);
    forall i | 0 <= i < n ensures Abs(Value(a[i], z, n)) < PIVOT_TOLERANCE {
      assert Takes(rows, z, Value(a[i], z, n));
      var r :| 0 <= r < n && Value(rows[r], z, n) == Value(a[i], z, n);
      assert r >= col ==> !(Abs(Eliminated(a, b, col)[r][col]) >= PIVOT_TOLERANCE);
    }
  }

  lemma FirstRefused(a: seq<seq<real>>, b: seq<real>) returns (col: nat)
    requires Square(a, |b|) && !Solvable(a, b)
    ensures col < |b| && !HasPivot(a, b, col) && forall c | 0 <= c < col :: HasPivot(a, b, c)
  {
    col := 0;
    while HasPivot(a, b, col)
      invariant col < |b| && forall c | 0 <= c < col :: HasPivot(a, b, c)
      decreases |b| - col
    {
      if col == |b| - 1 {
        assert forall c | 0 <= c < |b| :: HasPivot(a, b, c);
        assert false;
      }
      col := col + 1;
    }
  }

  // ----- reduced systems -----

  lemma {:induction false} ValueOfDiagonal(row: seq<real>, d: nat, x: seq<real>, k: nat)
    requires d < |x| && |row| == |x| + 1 && k <= |x|
    requires forall c | 0 <= c < |x| && c != d :: row[c] == 0.0
    ensures Value(row, x, k) == if d < k then row[d] * x[d] else 0.0
  {
    if k > 0 { ValueOfDiagonal(row, d, x, k - 1); }
  }

  lemma QuotientSolves(k: real, x: real, v: real)
    requires k != 0.0
    ensures k * x == v <==> x == v / k
  {
    var q := v / k;
    assert k * q == v;
    if k * x == v {
      assert k * (x - q) == 0.0;
      assert x - q == 0.0;
    }
  }

  lemma DiagonalRowHolds(row: seq<real>, d: nat, x: seq<real>)
    requires d < |x| && |row| == |x| + 1
    requires forall c | 0 <= c < |x| && c != d :: row[c] == 0.0
    ensures Holds(row, x) <==> row[d] * x[d] == row[|x|]
  {
    ValueOfDiagonal(row, d, x, |x|);
  }

  /** A fully reduced system is solved by the quotients and by nothing else. */
  lemma ReducedIsSolved(rows: seq<seq<real>>, a: seq<seq<real>>, b: seq<real>, q: seq<real>)
    requires Square(a, |b|) && Augmented(rows, |b|) && Equivalent(rows, a, b) && Reduced(rows, |b|, |b|)
    requires |q| == |b| && forall i | 0 <= i < |b| :: q[i] == rows[i][|b|] / rows[i][i]
    ensures forall x: seq<real> | |x| == |b| :: Solves(a, b, x) <==> x == q
  {
    hide Holds, Solves;
    forall x: seq<real> | |x| == |b| ensures Solves(a, b, x) <==> x == q {
      forall i | 0 <= i < |b| ensures Holds(rows[i], x) <==> x[i] == q[i] {
        DiagonalRowHolds(rows[i], i, x);
        QuotientSolves(rows[i][i], x[i], rows[i][|b|]);
      }
      assert SolvesRows(rows, x) <==> forall i | 0 <= i < |b| :: x[i] == q[i];
    }
  }

  // ----- the algorithm -----

  /** The first row of the largest entry of column `col`, from the diagonal down. */
  method FindPivot(m: array<seq<real>>, col: nat) returns (piv: nat)
    requires col < m.Length && Augmented(m[..], m.Length)
    ensures col <= piv < m.Length && piv == PivotRow(m[..], col, m.Length)
    ensures forall r | col <= r < m.Length :: Abs(m[r][col]) <= Abs(m[piv][col])
  {
    piv := col;
    assert forall i | 0 <= i < m.Length :: m[i] == m[..][i];
    for r := col + 1 to m.Length
      invariant col <= piv < r && piv == PivotRow(m[..], col, r)
    {
      if Abs(m[r][col]) > Abs(m[piv][col]) { piv := r; }
    }
  }

  /** Clears column `col` of row `r` with the pivot row, from the pivot column rightwards. */
  method EliminateRow(m: array<seq<real>>, col: nat, r: nat, f: real)
    requires col < m.Length && r < m.Length && r != col && Augmented(m[..], m.Length)
    requires forall c | 0 <= c < col :: m[col][c] == 0.0
    modifies m
    ensures m[..] == old(m[..])[r := Minus(old(m[r]), f, old(m[col]))]
  {
    var n := m.Length;
    ghost var row, pivot := m[r], m[col];
    assert forall i | 0 <= i < n :: m[i] == m[..][i];
    for c := col to n + 1
      invariant |m[r]| == n + 1
      invariant forall j | 0 <= j <= n :: m[r][j] == if col <= j < c then row[j] - f * pivot[j] else row[j]
      invariant forall i | 0 <= i < n && i != r :: m[i] == old(m[i])
    {
      m[r] := m[r][c := m[r][c] - f * m[col][c]];
    }
    ghost var cleared := Minus(row, f, pivot);
    forall j | 0 <= j <= n ensures m[r][j] == cleared[j] {
      if j < col { assert pivot[j] == 0.0 && f * pivot[j] == 0.0; }
    }
    assert m[r] == cleared;
  }

  lemma MinusNothing(row: seq<real>, pivot: seq<real>)
    requires |row| == |pivot|
    ensures Minus(row, 0.0, pivot) == row
  {
  }

  /** One outer step after the pivot is in place: every other row loses column `col`. */
  method ClearColumn(m: array<seq<real>>, col: nat, d: real)
    requires Augmented(m[..], m.Length) && col < m.Length && Reduced(m[..], m.Length, col)
    requires m[col][col] == d && d != 0.0
    modifies m
    ensures m[..] == Cleared(old(m[..]), col)
  {
    var n := m.Length;
    ghost var before := m[..];
    ghost var after := Cleared(before, col);
    hide Cleared, Minus;
    for r := 0 to n
      invariant forall i | 0 <= i < n :: m[i] == if i < r then after[i] else before[i]
      invariant m[col] == before[col]
    {
      if r == col { continue; }
      var f := m[r][col] / d;
      ClearedRow(before, col, r);
      assert Augmented(m[..], n);
      if f == 0.0 {
        MinusNothing(before[r], before[col]);
        continue;
      }
      ghost var now := m[..];
      EliminateRow(m, col, r, f);
      assert m[..] == now[r := after[r]];
    }
    assert m[..] == after;
  }

  lemma ClearedRow(rows: seq<seq<real>>, col: nat, r: nat)
    requires Augmented(rows, |rows|) && col < |rows| && r < |rows| && r != col && rows[col][col] != 0.0
    ensures Cleared(rows, col)[r] == Minus(rows[r], rows[r][col] / rows[col][col], rows[col])
  {
  }

  method SwapRows(m: array<seq<real>>, i: nat, j: nat)
    requires i < m.Length && j < m.Length
    modifies m
    ensures m[..] == Swapped(old(m[..]), i, j) && m[i] == old(m[j])
  {
    m[i], m[j] := m[j], m[i];
  }

  lemma NoEquations(a: seq<seq<real>>, b: seq<real>)
    requires Square(a, |b|) && |b| == 0
    ensures Solvable(a, b) && forall y: seq<real> | |y| == |b| :: Solves(a, b, y) <==> y == []
  {
    assert forall y: seq<real> | |y| == 0 :: y == [];
  }

  /** The elimination loop: whether it gets through all columns, and then the reduced system. */
  method Eliminate(m: array<seq<real>>, ghost a: seq<seq<real>>, ghost b: seq<real>) returns (through: bool)
    requires Square(a, |b|) && m.Length == |b| && m[..] == Augment(a, b)
    modifies m
    ensures through <==> Solvable(a, b)
    ensures through ==> m[..] == Eliminated(a, b, |b|)
  {
    hide Equivalent, Cleared, HasPivot, Swapped, PivotRow, Solves, Reduced, Augment, Abs;
    for col := 0 to m.Length
      invariant m[..] == Eliminated(a, b, col) && forall c | 0 <= c < col :: HasPivot(a, b, c)
    {
      EliminationIsSound(a, b, col);
      var piv := FindPivot(m, col);
      PivotDecides(a, b, col);
      if Abs(m[piv][col]) < PIVOT_TOLERANCE { return false; }
      TolerancePositive(m[piv][col]);
      SwapKeepsReduced(m[..], m.Length, col, piv);
      SwapRows(m, col, piv);
      var d := m[col][col];
      ClearColumn(m, col, d);
    }
    return true;
  }

  lemma TolerancePositive(x: real)
    ensures Abs(x) >= PIVOT_TOLERANCE ==> x != 0.0
  {
  }

  /** A non-null answer is the solution of `A x = b` for the matrix passed in, and the only one. Null is given exactly
      when elimination with partial pivoting comes to a column without an entry of at least the tolerance. */
  method SolveLinear(a: seq<seq<real>>, b: seq<real>) returns (x: Option<seq<real>>)
    requires Square(a, |b|)
    ensures x.Some? <==> Solvable(a, b)
    ensures x.Some? ==> |x.value| == |b| && forall y: seq<real> | |y| == |b| :: Solves(a, b, y) <==> y == x.value
  {
    hide Equivalent, HasPivot, Solves, Eliminated;
    var n := |b|;
    if n == 0 {
      NoEquations(a, b);
      return Some([]);
    }
    var m := new seq<real>[n](i requires 0 <= i < n => a[i] + [b[i]]);
    assert m[..] == Augment(a, b);
    var through := Eliminate(m, a, b);
    if !through { return None; }
    EliminationIsSound(a, b, n);
    var q := seq(n, i requires 0 <= i < n && |m[i]| == n + 1 && m[i][i] != 0.0 reads m => m[i][n] / m[i][i]);
    ReducedIsSolved(m[..], a, b, q);
    return Some(q);
  }

  lemma SwapKeepsReduced(rows: seq<seq<real>>, n: nat, col: nat, piv: nat)
    requires Augmented(rows, n) && col <= piv < n && Reduced(rows, n, col)
    ensures Reduced(Swapped(rows, col, piv), n, col)
  {
  }

  /** The largest entry tells whether there is a pivot. */
  lemma PivotDecides(a: seq<seq<real>>, b: seq<real>, col: nat)
    requires Square(a, |b|) && col < |b|
    ensures var rows := Eliminated(a, b, col);
            HasPivot(a, b, col) <==> Abs(rows[PivotRow(rows, col, |b|)][col]) >= PIVOT_TOLERANCE
  {
  }

  ghost function Plus(x: seq<real>, z: seq<real>): (y: seq<real>)
    requires |x| == |z|
    ensures |y| == |x|
  {
    seq(|x|, i requires 0 <= i < |x| => x[i] + z[i])
  }

  lemma {:induction false} ValueOfPlus(row: seq<real>, x: seq<real>, z: seq<real>, k: nat)
    requires |row| == |x| == |z| && k <= |x|
    ensures Value(row, Plus(x, z), k) == Value(row, x, k) + Value(row, z, k)
  {
    if k > 0 { ValueOfPlus(row, x, z, k - 1); }
  }

  /** So a singular matrix, one that sends some non-zero vector to zero, is never given an answer. */
  lemma UniqueSolutionMeansRegular(a: seq<seq<real>>, b: seq<real>, x: seq<real>, z: seq<real>)
    requires Square(a, |b|) && |x| == |b| && forall y: seq<real> | |y| == |b| :: Solves(a, b, y) <==> y == x
    requires |z| == |b| && forall i | 0 <= i < |b| :: Value(a[i], z, |b|) == 0.0
    ensures forall i | 0 <= i < |b| :: z[i] == 0.0
  {
    hide Value;
    assert Solves(a, b, x);
    forall i | 0 <= i < |b| ensures Value(a[i], Plus(x, z), |b|) == b[i] { ValueOfPlus(a[i], x, z, |b|); }
    assert Solves(a, b, Plus(x, z));
    forall i | 0 <= i < |b| ensures z[i] == 0.0 { assert Plus(x, z)[i] == x[i]; }
  }
}
