/** The long-only Kelly direction: an active set of markets is solved for and pruned until it is stable. */
module KellyDirection {
  import opened Wrappers
  import opened LinearSolver
  import opened Reals

  const WEIGHT_FLOOR: real := 0.000000001
  const SUM_FLOOR: real := 0.000000000001
  const MAX_PASSES: nat := 4

  function Positive(x: real): real { if x > 0.0 then x else 0.0 }

  ghost predicate Ascending(active: seq<nat>, n: nat) {
    && (forall k | 0 <= k < |active| :: active[k] < n)
    && (forall j, k | 0 <= j < k < |active| :: active[j] < active[k])
  }

  ghost predicate ZeroOff(w: seq<real>, active: seq<nat>) {
    forall i | 0 <= i < |w| && i !in active :: w[i] == 0.0
  }

  /** `w` solves the equations of the active markets and leaves every other market out. */
  ghost predicate SolvesOn(s: seq<seq<real>>, mu: seq<real>, active: seq<nat>, w: seq<real>)
    requires Square(s, |mu|)
  {
    && |w| == |mu| && Ascending(active, |mu|) && ZeroOff(w, active)
    && forall i | i in active :: Value(s[i], w, |mu|) == mu[i]
  }

  /** The active equations are not refused, and `w` is the one vector that solves them and leaves the rest out. */
  ghost predicate OnlySolutionOn(s: seq<seq<real>>, mu: seq<real>, active: seq<nat>, w: seq<real>)
    requires Square(s, |mu|)
  {
    && SolvesOn(s, mu, active, w) && !Refused(s, mu, active)
    && forall y: seq<real> | SolvesOn(s, mu, active, y) :: y == w
  }

  // ----- sub-systems -----

  ghost function SubMatrix(s: seq<seq<real>>, active: seq<nat>): (r: seq<seq<real>>)
    requires Square(s, |s|) && Ascending(active, |s|)
    ensures Square(r, |active|)
  {
    seq(|active|, k requires 0 <= k < |active| => SubRow(s[active[k]], active))
  }

  /** Elimination on the equations of the active markets comes to a column without a usable pivot. */
  ghost predicate Refused(s: seq<seq<real>>, mu: seq<real>, active: seq<nat>)
    requires Square(s, |mu|) && Ascending(active, |mu|)
  {
    !Solvable(SubMatrix(s, active), SubRow(mu, active))
  }

  /** What the fallback gives an active market. */
  function Fallback(s: seq<seq<real>>, mu: seq<real>, i: nat): real
    requires i < |mu| && |s| == |mu| && |s[i]| == |mu|
  {
    if s[i][i] > 0.000000000001 then Positive(mu[i] / s[i][i]) else 0.0
  }

  /** The fallback solves each active market's own equation, on its own, as far as that has a solution that is not
      negative. */
  lemma FallbackSolvesDiagonal(s: seq<seq<real>>, mu: seq<real>, i: nat)
    requires i < |mu| && |s| == |mu| && |s[i]| == |mu|
    ensures s[i][i] > 0.000000000001 ==> Times(s[i][i], Fallback(s, mu, i)) == if mu[i] > 0.0 then mu[i] else 0.0
    ensures s[i][i] <= 0.000000000001 ==> Fallback(s, mu, i) == 0.0
  {
    if s[i][i] > 0.000000000001 {
      DivideThenMultiply(mu[i], s[i][i]);
      if mu[i] > 0.0 { assert mu[i] / s[i][i] > 0.0; } else { assert mu[i] / s[i][i] <= 0.0; }
    }
  }

  // ----- one run of the loop -----

  /** How the pruning loop ended. */
  datatype Exit = Stable | Singular | NoneLeft | PassLimit

  /** `next` is what is left of `active` when the weights that solve its equations are pruned. */
  ghost predicate Prunes(s: seq<seq<real>>, mu: seq<real>, active: seq<nat>, next: seq<nat>)
    requires Square(s, |mu|)
  {
    exists w: seq<real> :: OnlySolutionOn(s, mu, active, w) && Survive(w, active, next)
  }

  ghost predicate Survive(w: seq<real>, active: seq<nat>, next: seq<nat>) {
    Ascending(next, |w|) && forall i: nat :: i in next <==> i in active && i < |w| && w[i] > 0.000000001
  }

  /** The active sets of the passes: all markets at first, then each pruned to the next, never to nothing. */
  ghost predicate Passes(s: seq<seq<real>>, mu: seq<real>, sets: seq<seq<nat>>)
    requires Square(s, |mu|)
  {
    && 0 < |sets| <= 4 && sets[0] == seq(|mu|, i => i)
    && (forall k | 0 <= k < |sets| :: sets[k] != [] && Ascending(sets[k], |mu|))
    && (forall k | 0 < k < |sets| :: |sets[k]| < |sets[k - 1]| && Prunes(s, mu, sets[k - 1], sets[k]))
  }

  /** The weights of the last pass, before clamping, and why it was the last: nothing was pruned, the sub-matrix was
      refused, everything was pruned, or the passes were used up with something still to prune. */
  ghost predicate Traced(s: seq<seq<real>>, mu: seq<real>, sets: seq<seq<nat>>, w: seq<real>, exit: Exit)
    requires Square(s, |mu|)
  {
    && |w| == |mu| && Passes(s, mu, sets)
    && var active := sets[|sets| - 1];
       match exit
       case Stable => OnlySolutionOn(s, mu, active, w) && forall i | i in active :: w[i] > 0.000000001
       case Singular =>
         && Refused(s, mu, active) && ZeroOff(w, active)
         && forall i | i in active :: w[i] == Fallback(s, mu, i)
       case NoneLeft => OnlySolutionOn(s, mu, active, w) && forall i | i in active :: w[i] <= 0.000000001
       case PassLimit =>
         && OnlySolutionOn(s, mu, active, w) && |sets| == 4
         && (exists i :: i in active && w[i] > 0.000000001) && exists i :: i in active && w[i] <= 0.000000001
  }

  // ----- row values and scattering -----

  lemma {:induction false} ValueOfUpdate(row: seq<real>, w: seq<real>, j: nat, v: real, k: nat)
    requires |row| == |w| && j < |w| && k <= |w|
    ensures Value(row, w[j := v], k) == Value(row, w, k) + (if j < k then row[j] * (v - w[j]) else 0.0)
  {
    if k > 0 { ValueOfUpdate(row, w, j, v, k - 1); }
  }

  lemma {:induction false} ValueOfZeros(row: seq<real>, w: seq<real>, k: nat)
    requires |row| == |w| && k <= |w| && forall i | 0 <= i < |w| :: w[i] == 0.0
    ensures Value(row, w, k) == 0.0
  {
    if k > 0 { ValueOfZeros(row, w, k - 1); }
  }

  ghost function SubRow(row: seq<real>, active: seq<nat>): (r: seq<real>)
    requires Ascending(active, |row|)
    ensures |r| == |active|
  {
    seq(|active|, k requires 0 <= k < |active| => row[active[k]])
  }

  /** Puts the entries of `sol` at their markets. */
  method Scatter(n: nat, active: seq<nat>, sol: seq<real>) returns (w: seq<real>)
    requires Ascending(active, n) && |sol| == |active|
    ensures |w| == n && ZeroOff(w, active)
    ensures forall k | 0 <= k < |active| :: w[active[k]] == sol[k]
  {
    w := seq(n, _ => 0.0);
    for k := 0 to |active|
      invariant |w| == n
      invariant forall i | 0 <= i < n && i !in active[..k] :: w[i] == 0.0
      invariant forall j | 0 <= j < k :: w[active[j]] == sol[j]
    {
      assert active[..k + 1] == active[..k] + [active[k]];
      w := w[active[k] := sol[k]];
    }
    assert active[..|active|] == active;
  }

  // ----- solutions of the sub-system -----

  lemma {:induction false} ValueOfPrefix(row: seq<real>, x: seq<real>, row': seq<real>, x': seq<real>, k: nat)
    requires k <= |row| && k <= |x| && k <= |row'| && k <= |x'|
    requires forall i | 0 <= i < k :: row[i] == row'[i] && x[i] == x'[i]
    ensures Value(row, x, k) == Value(row', x', k)
  {
    if k > 0 { ValueOfPrefix(row, x, row', x', k - 1); }
  }

  lemma ValueOfLast(row: seq<real>, x: seq<real>, k: nat)
    requires k < |row| && k < |x|
    ensures Value(row, x, k + 1) == Value(row, x, k) + Times(row[k], x[k])
  {
  }

  /** A vector that leaves the other markets out has the row values of its own sub-vector. */
  lemma {:induction false} ValueOfSub(row: seq<real>, y: seq<real>, active: seq<nat>)
    requires |row| == |y| && Ascending(active, |y|) && ZeroOff(y, active)
    ensures Value(row, y, |y|) == Value(SubRow(row, active), SubRow(y, active), |active|)
    decreases |active|
  {
    hide Value, Times;
    if active == [] {
      ValueOfZeros(row, y, |y|);
      ValueOfZeros([], [], 0);
    } else {
      var m := |active| - 1;
      var a, rest := active[m], active[..m];
      var z := y[a := 0.0];
      assert active == rest + [a];
      ValueOfSub(row, z, rest);
      ValueWithout(row, y, a);
      ValueOfPrefix(SubRow(row, rest), SubRow(z, rest), SubRow(row, active), SubRow(y, active), m);
      ValueOfLast(SubRow(row, active), SubRow(y, active), m);
    }
  }

  /** Setting an entry to zero takes its term out. */
  lemma ValueWithout(row: seq<real>, y: seq<real>, a: nat)
    requires |row| == |y| && a < |y|
    ensures Value(row, y, |y|) == Value(row, y[a := 0.0], |y|) + Times(row[a], y[a])
  {
    ValueOfUpdate(row, y, a, 0.0, |y|);
    assert row[a] * (0.0 - y[a]) == -(row[a] * y[a]);
  }

  lemma {:induction false} SolvesOnIff(s: seq<seq<real>>, mu: seq<real>, active: seq<nat>, y: seq<real>)
    requires Square(s, |mu|) && Ascending(active, |mu|) && |y| == |mu| && ZeroOff(y, active)
    ensures SolvesOn(s, mu, active, y) <==> Solves(SubMatrix(s, active), SubRow(mu, active), SubRow(y, active))
  {
    hide Value;
    forall k | 0 <= k < |active|
      ensures Value(s[active[k]], y, |mu|) == Value(SubMatrix(s, active)[k], SubRow(y, active), |active|)
    {
      ValueOfSub(s[active[k]], y, active);
    }
    if Solves(SubMatrix(s, active), SubRow(mu, active), SubRow(y, active)) {
      forall i | i in active ensures Value(s[i], y, |mu|) == mu[i] {
        var k :| 0 <= k < |active| && active[k] == i;
        assert SubRow(mu, active)[k] == mu[i];
      }
    }
    if SolvesOn(s, mu, active, y) {
      forall k | 0 <= k < |active|
        ensures Value(SubMatrix(s, active)[k], SubRow(y, active), |active|) == SubRow(mu, active)[k]
      {
        assert active[k] in active;
      }
    }
  }

  /** The only solution of the sub-system, scattered, is the only solution on the active markets. */
  lemma ScatteredIsOnly(s: seq<seq<real>>, mu: seq<real>, active: seq<nat>, sol: seq<real>, w: seq<real>)
    requires Square(s, |mu|) && Ascending(active, |mu|) && |w| == |mu| && ZeroOff(w, active) && |sol| == |active|
    requires forall k | 0 <= k < |active| :: w[active[k]] == sol[k]
    requires forall x: seq<real> | |x| == |active| ::
               Solves(SubMatrix(s, active), SubRow(mu, active), x) <==> x == sol
    requires !Refused(s, mu, active)
    ensures OnlySolutionOn(s, mu, active, w)
  {
    hide Solves, Value, SubMatrix, Refused;
    assert SubRow(w, active) == sol;
    SolvesOnIff(s, mu, active, w);
    forall y: seq<real> | SolvesOn(s, mu, active, y) ensures y == w {
      SolvesOnIff(s, mu, active, y);
      assert SubRow(y, active) == sol;
      forall i | 0 <= i < |w| ensures y[i] == w[i] {
        if i in active {
          var k :| 0 <= k < |active| && active[k] == i;
          assert SubRow(y, active)[k] == y[i];
        }
      }
    }
  }

  // ----- the pruning loop -----

  /** The weights before clamping, the active sets they went through, and how the loop ended. */
  method ActiveSetWeights(s: seq<seq<real>>, mu: seq<real>)
    returns (w: seq<real>, ghost sets: seq<seq<nat>>, ghost exit: Exit)
    requires Square(s, |mu|) && |mu| > 0
    ensures Traced(s, mu, sets, w, exit)
  {
    hide OnlySolutionOn, Refused, Prunes, SubRow, SubMatrix, Fallback;
    var n := |mu|;
    w := seq(n, _ => 0.0);
    var active: seq<nat> := seq(n, i => i);
    sets, exit := [active], PassLimit;
    var pass := 0;
    while pass < MAX_PASSES && |active| > 0
      invariant |w| == n && Ascending(active, n) && pass <= MAX_PASSES
      invariant pass == 0 ==> sets == [active] && active == seq(n, i => i)
      invariant pass > 0 ==> |sets| == pass && Passes(s, mu, sets) && |active| < |sets[pass - 1]|
      invariant pass > 0 ==> OnlySolutionOn(s, mu, sets[pass - 1], w) && Survive(w, sets[pass - 1], active)
      decreases MAX_PASSES - pass
    {
      ghost var done := sets;
      if pass > 0 {
        sets := sets + [active];
        PassesGrow(s, mu, done, w, active);
      }
      assert Passes(s, mu, sets) && sets[pass] == active && |sets| == pass + 1;
      var sol := SolveActive(s, mu, active);
      if sol.None? {
        w := DiagonalFallback(s, mu, active);
        exit := Singular;
        return;
      }
      w := sol.value;
      var survivors := Survivors(w, active);
      if |survivors| == |active| {
        exit := Stable;
        return;
      }
      active := survivors;
      pass := pass + 1;
    }
    if |active| == 0 {
      exit := NoneLeft;
    } else {
      assert active[0] in active;
      SomePruned(w, sets[|sets| - 1], active);
    }
  }

  lemma PassesGrow(s: seq<seq<real>>, mu: seq<real>, sets: seq<seq<nat>>, w: seq<real>, next: seq<nat>)
    requires Square(s, |mu|) && Passes(s, mu, sets) && |sets| < MAX_PASSES
    requires var active := sets[|sets| - 1];
             && OnlySolutionOn(s, mu, active, w) && Survive(w, active, next) && 0 < |next| < |active|
    ensures Passes(s, mu, sets + [next])
  {
    hide OnlySolutionOn;
    assert |w| == |mu| by { WeightsHaveLength(s, mu, sets[|sets| - 1], w); }
    var more := sets + [next];
    assert Prunes(s, mu, sets[|sets| - 1], next);
    forall k | 0 < k < |more| ensures |more[k]| < |more[k - 1]| && Prunes(s, mu, more[k - 1], more[k]) {
      if k < |sets| { assert more[k] == sets[k] && more[k - 1] == sets[k - 1]; }
    }
  }

  lemma WeightsHaveLength(s: seq<seq<real>>, mu: seq<real>, active: seq<nat>, w: seq<real>)
    requires Square(s, |mu|) && OnlySolutionOn(s, mu, active, w)
    ensures |w| == |mu|
  {
  }

  /** If fewer markets survive than were active, one was pruned. */
  lemma SomePruned(w: seq<real>, active: seq<nat>, next: seq<nat>)
    requires Ascending(active, |w|) && Survive(w, active, next) && |next| < |active|
    ensures exists i :: i in active && w[i] <= WEIGHT_FLOOR
  {
    if forall i | i in active :: w[i] > WEIGHT_FLOOR {
      AscendingWithin(active, next, |w|, |active|);
      assert false;
    }
  }

  /** An ascending list whose entries are all in another is no longer than it. */
  lemma {:induction false} AscendingWithin(a: seq<nat>, b: seq<nat>, n: nat, k: nat)
    requires Ascending(a, n) && Ascending(b, n) && k <= |a| && forall i | i in a :: i in b
    ensures k <= |b| && (k > 0 ==> b[k - 1] <= a[k - 1])
  {
    if k > 0 {
      AscendingWithin(a, b, n, k - 1);
      assert a[k - 1] in b;
      var j :| 0 <= j < |b| && b[j] == a[k - 1];
      if k > 1 { assert b[k - 2] <= a[k - 2] < b[j]; }
    }
  }

  /** The equations of the active markets, solved and scattered, unless elimination refuses them. */
  method SolveActive(s: seq<seq<real>>, mu: seq<real>, active: seq<nat>) returns (w: Option<seq<real>>)
    requires Square(s, |mu|) && Ascending(active, |mu|)
    ensures w.Some? ==> |w.value| == |mu| && OnlySolutionOn(s, mu, active, w.value)
    ensures w.None? ==> Refused(s, mu, active)
  {
    hide Solves, Solvable, Value, OnlySolutionOn;
    var subS := seq(|active|, k requires 0 <= k < |active| =>
      seq(|active|, l requires 0 <= l < |active| => s[active[k]][active[l]]));
    var subMu := seq(|active|, k requires 0 <= k < |active| => mu[active[k]]);
    assert subMu == SubRow(mu, active);
    forall k | 0 <= k < |active| ensures subS[k] == SubRow(s[active[k]], active) {}
    assert subS == SubMatrix(s, active);
    var sol := SolveLinear(subS, subMu);
    if sol.None? { return None; }
    var x := Scatter(|mu|, active, sol.value);
    ScatteredIsOnly(s, mu, active, sol.value, x);
    return Some(x);
  }

  method DiagonalFallback(s: seq<seq<real>>, mu: seq<real>, active: seq<nat>) returns (w: seq<real>)
    requires Square(s, |mu|) && Ascending(active, |mu|)
    ensures |w| == |mu| && ZeroOff(w, active)
    ensures forall i | i in active :: w[i] == Fallback(s, mu, i)
  {
    w := seq(|mu|, _ => 0.0);
    for k := 0 to |active|
      invariant |w| == |mu|
      invariant forall i | 0 <= i < |mu| && i !in active[..k] :: w[i] == 0.0
      invariant forall i | i in active[..k] :: w[i] == Fallback(s, mu, i)
    {
      var i := active[k];
      w := w[i := if s[i][i] > SUM_FLOOR then Positive(mu[i] / s[i][i]) else 0.0];
      assert active[..k + 1] == active[..k] + [i];
    }
    assert active[..|active|] == active;
  }

  // ----- the run is determined -----

  /** Two ascending lists with the same entries are the same. */
  lemma SameEntries(a: seq<nat>, b: seq<nat>, n: nat)
    requires Ascending(a, n) && Ascending(b, n) && forall i: nat :: i in a <==> i in b
    ensures a == b
  {
    AscendingWithin(a, b, n, |a|);
    AscendingWithin(b, a, n, |b|);
    forall k | 0 <= k < |a| ensures a[k] == b[k] {
      AscendingWithin(a, b, n, k + 1);
      AscendingWithin(b, a, n, k + 1);
    }
  }

  lemma PruningIsDetermined(s: seq<seq<real>>, mu: seq<real>, active: seq<nat>, a: seq<nat>, b: seq<nat>)
    requires Square(s, |mu|) && Prunes(s, mu, active, a) && Prunes(s, mu, active, b)
    ensures a == b
  {
    hide Refused;
    var v: seq<real> :| OnlySolutionOn(s, mu, active, v) && Survive(v, active, a);
    var w: seq<real> :| OnlySolutionOn(s, mu, active, w) && Survive(w, active, b);
    assert v == w;
    SameEntries(a, b, |w|);
  }

  lemma {:induction false} SamePasses(s: seq<seq<real>>, mu: seq<real>, p: seq<seq<nat>>, q: seq<seq<nat>>, k: nat)
    requires Square(s, |mu|) && Passes(s, mu, p) && Passes(s, mu, q) && k < |p| && k < |q|
    ensures p[k] == q[k]
  {
    if k > 0 {
      SamePasses(s, mu, p, q, k - 1);
      hide Prunes;
      PruningIsDetermined(s, mu, p[k - 1], p[k], q[k]);
    }
  }

  /** A run that has ended at a pass does not go on from it. */
  lemma EndedIsLast(s: seq<seq<real>>, mu: seq<real>, p: seq<seq<nat>>, w: seq<real>, exit: Exit, q: seq<seq<nat>>)
    requires Square(s, |mu|) && Traced(s, mu, p, w, exit) && Passes(s, mu, q)
    ensures |q| <= |p|
  {
    if |p| < |q| {
      var k := |p| - 1;
      SamePasses(s, mu, p, q, k);
      var active, next := p[k], q[k + 1];
      assert Prunes(s, mu, active, next);
      var v: seq<real> :| OnlySolutionOn(s, mu, active, v) && Survive(v, active, next);
      NextIsProper(active, next, v);
      assert false;
    }
  }

  lemma NextIsProper(active: seq<nat>, next: seq<nat>, w: seq<real>)
    requires Ascending(active, |w|) && Survive(w, active, next) && next != [] && |next| < |active|
    ensures exists i :: i in active && w[i] > WEIGHT_FLOOR
    ensures exists i :: i in active && w[i] <= WEIGHT_FLOOR
  {
    assert next[0] in next;
    SomePruned(w, active, next);
  }

  /** The loop can end in one way only: the trace fixes the passes, the weights and the reason. */
  lemma TraceIsDetermined(s: seq<seq<real>>, mu: seq<real>, p: seq<seq<nat>>, v: seq<real>, d: Exit,
                          q: seq<seq<nat>>, w: seq<real>, e: Exit)
    requires Square(s, |mu|) && Traced(s, mu, p, v, d) && Traced(s, mu, q, w, e)
    ensures p == q && v == w && d == e
  {
    EndedIsLast(s, mu, p, v, d, q);
    EndedIsLast(s, mu, q, w, e, p);
    forall k | 0 <= k < |p| ensures p[k] == q[k] { SamePasses(s, mu, p, q, k); }
    assert p == q;
    hide Refused, Passes, Fallback;
    var active := p[|p| - 1];
    assert active[0] in active;
    if d == Singular {
      forall i | 0 <= i < |mu| ensures v[i] == w[i] {}
    }
  }

  /** When the equations of all markets have one solution and every weight in it clears the floor, nothing is pruned:
      the loop ends at once with that solution. */
  lemma PositiveSolutionIsKept(s: seq<seq<real>>, mu: seq<real>, y: seq<real>, sets: seq<seq<nat>>, w: seq<real>,
                               exit: Exit)
    requires Square(s, |mu|) && mu != [] && Traced(s, mu, sets, w, exit)
    requires OnlySolutionOn(s, mu, seq(|mu|, i => i), y) && forall i | 0 <= i < |mu| :: y[i] > 0.000000001
    ensures sets == [seq(|mu|, i => i)] && w == y && exit == Stable
  {
    var all := seq(|mu|, i => i);
    hide OnlySolutionOn, Prunes;
    assert |y| == |mu| by { WeightsHaveLength(s, mu, all, y); }
    assert Passes(s, mu, [all]);
    TraceIsDetermined(s, mu, [all], y, Stable, sets, w, exit);
  }

  /** The active markets whose weight clears the floor, in order. */
  method Survivors(w: seq<real>, active: seq<nat>) returns (r: seq<nat>)
    requires Ascending(active, |w|)
    ensures Survive(w, active, r) && |r| <= |active|
    ensures |r| == |active| ==> r == active
  {
    r := [];
    for k := 0 to |active|
      invariant |r| <= k && Ascending(r, |w|)
      invariant forall i | i in r :: i in active[..k]
      invariant forall i :: i in r <==> i in active[..k] && w[i] > WEIGHT_FLOOR
      invariant |r| == k ==> r == active[..k]
    {
      assert active[..k + 1] == active[..k] + [active[k]];
      forall j | 0 <= j < |r| ensures r[j] < active[k] {
        assert r[j] in r;
        var l :| 0 <= l < k && active[l] == r[j];
      }
      if w[active[k]] > WEIGHT_FLOOR { r := r + [active[k]]; }
    }
    assert active[..|active|] == active;
  }

  // ----- the direction -----

  /** Negative weights set to zero, the rest scaled to sum to one; nothing at all when too little is left. */
  ghost predicate Normalised(raw: seq<real>, w: seq<real>) {
    && |w| == |raw|
    && var clamped := seq(|raw|, i requires 0 <= i < |raw| => Positive(raw[i]));
       var total := Sum(clamped, |raw|);
       if total > 0.000000000001
       then forall i | 0 <= i < |w| :: w[i] == clamped[i] / total
       else forall i | 0 <= i < |w| :: w[i] == 0.0
  }

  ghost predicate IsDistribution(w: seq<real>) {
    && (forall i | 0 <= i < |w| :: w[i] >= 0.0)
    && (Sum(w, |w|) == 1.0 || forall i | 0 <= i < |w| :: w[i] == 0.0)
  }

  lemma {:induction false} SumScaled(c: seq<real>, w: seq<real>, total: real, k: nat)
    requires |w| == |c| && total > 0.0 && k <= |c| && forall i | 0 <= i < |c| :: w[i] == c[i] / total
    ensures Sum(w, k) == Sum(c, k) / total
  {
    if k > 0 { SumScaled(c, w, total, k - 1); }
  }

  lemma EmptyIsDistribution()
    ensures IsDistribution([])
  {
  }

  lemma NormalisedIsDistribution(raw: seq<real>, w: seq<real>)
    requires Normalised(raw, w)
    ensures IsDistribution(w)
  {
    var clamped := seq(|raw|, i requires 0 <= i < |raw| => Positive(raw[i]));
    var total := Sum(clamped, |raw|);
    if total > SUM_FLOOR {
      SumScaled(clamped, w, total, |raw|);
      assert Sum(clamped, |raw|) / total == 1.0;
      forall i | 0 <= i < |w| ensures w[i] >= 0.0 {}
    }
  }

  ghost predicate ScaledBy(k: real, w: seq<real>, raw: seq<real>) {
    |w| == |raw| && forall i | 0 <= i < |w| :: Times(k, w[i]) == raw[i]
  }

  lemma DivideThenMultiply(x: real, k: real)
    requires k > 0.0
    ensures Times(k, x / k) == x
  {
  }

  /** Stable weights survive clamping and are scaled by their sum. */
  lemma StableWeightsAreScaled(raw: seq<real>, solved: seq<nat>, w: seq<real>)
    requires Normalised(raw, w) && ZeroOff(raw, solved) && solved != [] && Ascending(solved, |raw|)
    requires forall i | i in solved :: raw[i] > WEIGHT_FLOOR
    ensures Sum(raw, |raw|) > SUM_FLOOR && ScaledBy(Sum(raw, |raw|), w, raw)
  {
    hide Sum, Times;
    var clamped := seq(|raw|, i requires 0 <= i < |raw| => Positive(raw[i]));
    forall i | 0 <= i < |raw| ensures clamped[i] == raw[i] { if i !in solved { assert raw[i] == 0.0; } }
    assert clamped == raw;
    assert solved[0] in solved;
    forall i | 0 <= i < |raw| ensures raw[i] >= 0.0 { if i !in solved { assert raw[i] == 0.0; } }
    SumAtLeast(raw, solved[0], |raw|);
    forall i | 0 <= i < |raw| ensures Times(Sum(raw, |raw|), w[i]) == raw[i] {
      DivideThenMultiply(raw[i], Sum(raw, |raw|));
    }
  }

  /** When the active set was stable, the direction is a positive multiple of the exact solution on it, so it
      solves the active equations for proportionally scaled returns. */
  lemma StableDirectionSolves(s: seq<seq<real>>, mu: seq<real>, active: seq<nat>, raw: seq<real>, w: seq<real>)
    requires Square(s, |mu|) && active != [] && SolvesOn(s, mu, active, raw) && Normalised(raw, w)
    requires forall i | i in active :: raw[i] > WEIGHT_FLOOR
    ensures var k := Sum(raw, |mu|); k > 0.0 && forall i | i in active :: Times(k, Value(s[i], w, |mu|)) == mu[i]
  {
    assert |w| == |mu|;
    hide Value, Sum, Normalised, ScaledBy, Times;
    StableWeightsAreScaled(raw, active, w);
    var k := Sum(raw, |mu|);
    forall i | i in active ensures Times(k, Value(s[i], w, |mu|)) == mu[i] { ValueScaled(s[i], raw, w, k, |mu|); }
  }

  lemma {:induction false} SumAtLeast(raw: seq<real>, j: nat, k: nat)
    requires j < |raw| && k <= |raw| && forall i | 0 <= i < |raw| :: raw[i] >= 0.0
    ensures Sum(raw, k) >= if j < k then raw[j] else 0.0
  {
    if k > 0 { SumAtLeast(raw, j, k - 1); }
  }

  lemma {:induction false} ValueScaled(row: seq<real>, raw: seq<real>, w: seq<real>, total: real, k: nat)
    requires |row| == |raw| == |w| && k <= |raw| && ScaledBy(total, w, raw)
    ensures Times(total, Value(row, w, k)) == Value(row, raw, k)
  {
    if k > 0 {
      ValueScaled(row, raw, w, total, k - 1);
      assert Times(total, w[k - 1]) == raw[k - 1];
      assert total * (row[k - 1] * w[k - 1]) == row[k - 1] * (total * w[k - 1]);
    }
  }

  lemma StableTraceSolves(s: seq<seq<real>>, mu: seq<real>, sets: seq<seq<nat>>, raw: seq<real>, w: seq<real>)
    requires Square(s, |mu|) && Traced(s, mu, sets, raw, Stable) && Normalised(raw, w)
    ensures var k := Sum(raw, |mu|);
            k > 0.0 && forall i | i in sets[|sets| - 1] :: Times(k, Value(s[i], w, |mu|)) == mu[i]
  {
    StableDirectionSolves(s, mu, sets[|sets| - 1], raw, w);
  }

  /** Clamps the weights and scales them to sum to one, or gives nothing. */
  method Normalise(raw: seq<real>) returns (w: seq<real>)
    ensures Normalised(raw, w)
  {
    var n := |raw|;
    var clamped := seq(n, i requires 0 <= i < n => Positive(raw[i]));
    var sum := 0.0;
    for i := 0 to n
      invariant sum == Sum(clamped, i)
    {
      sum := sum + clamped[i];
    }
    w := if sum > SUM_FLOOR then seq(n, i requires 0 <= i < n => clamped[i] / sum) else seq(n, _ => 0.0);
  }

  /** The direction is a distribution or nothing. It is the clamped and scaled weights of the last pass, and when that
      pass pruned nothing it solves the equations of the active markets up to one positive factor. */
  method Direction(s: seq<seq<real>>, mu: seq<real>)
    returns (w: seq<real>, ghost raw: seq<real>, ghost sets: seq<seq<nat>>, ghost exit: Exit)
    requires Square(s, |mu|)
    ensures |w| == |mu| && IsDistribution(w)
    ensures mu != [] ==> Traced(s, mu, sets, raw, exit) && Normalised(raw, w)
    ensures mu != [] && exit == Stable ==>
              var k := Sum(raw, |mu|);
              k > 0.0 && forall i | i in sets[|sets| - 1] :: Times(k, Value(s[i], w, |mu|)) == mu[i]
  {
    hide Passes, OnlySolutionOn, Normalised, IsDistribution, Sum, Value, Times;
    raw, sets, exit := [], [], NoneLeft;
    if |mu| == 0 {
      w := [];
      EmptyIsDistribution();
      return;
    }
    var weights: seq<real>;
    weights, sets, exit := ActiveSetWeights(s, mu);
    raw := weights;
    w := Normalise(weights);
    NormalisedIsDistribution(raw, w);
    if exit == Stable { StableTraceSolves(s, mu, sets, raw, w); }
  }
}
