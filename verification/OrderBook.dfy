/** The ask side of an order book: a market buy simulated greedily, and the depth within a slippage bound. */
module OrderBook {
  import opened Sorting
  import Reals

  /** Amounts below this stop the walk, and budgets left below `EPS` count as filled. */
  const TINY: real := 0.000000000001
  const EPS: real := 0.000000001

  datatype Level = Level(price: real, size: real)

  datatype Simulation = Simulation(fullyFilled: bool, filledShares: real, spentUsd: real, worstPrice: real,
                                   avgPrice: real)

  // ----- sums over levels -----

  function Sum(s: seq<Level>, f: Level -> real): real {
    if s == [] then 0.0 else f(s[0]) + Sum(s[1..], f)
  }

  lemma {:induction false} SumOfInsert(x: Level, s: seq<Level>, le: (Level, Level) -> bool, f: Level -> real)
    ensures Sum(Insert(x, s, le), f) == f(x) + Sum(s, f)
  {
    if s == [] || le(x, s[0]) {
      assert ([x] + s)[1..] == s;
    } else {
      SumOfInsert(x, s[1..], le, f);
      assert ([s[0]] + Insert(x, s[1..], le))[1..] == Insert(x, s[1..], le);
    }
  }

  lemma {:induction false} SumOfSort(s: seq<Level>, le: (Level, Level) -> bool, f: Level -> real)
    ensures Sum(Sort(s, le), f) == Sum(s, f)
  {
    if s != [] {
      SumOfSort(s[1..], le, f);
      SumOfInsert(s[0], Sort(s[1..], le), le, f);
    }
  }

  lemma {:induction false} SumNonNegative(s: seq<Level>, f: Level -> real)
    requires forall l :: f(l) >= 0.0
    ensures Sum(s, f) >= 0.0
  {
    if s != [] { SumNonNegative(s[1..], f); }
  }

  function Over(a: real, b: real): real
    requires b > 0.0
  {
    a / b
  }

  function Cost(l: Level): real { Reals.Times(l.price, l.size) }

  predicate Good(l: Level) { l.price > 0.0 && l.size > 0.0 }

  /** What the good levels cost together. */
  function DepthOf(): Level -> real { (l: Level) => if Good(l) then Cost(l) else 0.0 }

  /** What the good levels up to a price cost together. */
  function DepthBelow(max: real): Level -> real { (l: Level) => if Good(l) && l.price <= max then Cost(l) else 0.0 }

  /** What a buyer to whom a share is worth `v` gains on the good levels. */
  function SurplusAt(v: real): Level -> real {
    (l: Level) => if Good(l) && l.price < v then Reals.Times(l.size, v - l.price) else 0.0
  }

  lemma TimesSign(a: real, b: real)
    requires a >= 0.0 && b >= 0.0
    ensures Reals.Times(a, b) >= 0.0
    ensures a > 0.0 && b > 0.0 ==> Reals.Times(a, b) > 0.0
  {
  }

  lemma SummandsNonNegative(l: Level, v: real)
    ensures DepthOf()(l) >= 0.0 && DepthBelow(v)(l) >= 0.0 && SurplusAt(v)(l) >= 0.0
  {
    if Good(l) { TimesSign(l.price, l.size); }
    if Good(l) && l.price < v { TimesSign(l.size, v - l.price); }
  }

  // ----- the walk -----

  function GoodLevels(book: seq<Level>): seq<Level> {
    if book == [] then [] else (if Good(book[0]) then [book[0]] else []) + GoodLevels(book[1..])
  }

  predicate Cheaper(a: Level, b: Level) { a.price <= b.price }

  function Asks(book: seq<Level>): seq<Level> { Sort(GoodLevels(book), Cheaper) }

  datatype Walk = Walk(remaining: real, filled: real, worst: real)

  function Take(w: Walk, l: Level): Walk
    requires Good(l)
  {
    if w.remaining >= Cost(l) then Walk(w.remaining - Cost(l), w.filled + l.size, l.price)
    else Walk(0.0, w.filled + Over(w.remaining, l.price), l.price)
  }

  ghost predicate AllGood(s: seq<Level>) { forall i | 0 <= i < |s| :: Good(s[i]) }

  function WalkAsks(asks: seq<Level>, w: Walk): Walk
    requires AllGood(asks)
  {
    if asks == [] || w.remaining <= TINY then w else WalkAsks(asks[1..], Take(w, asks[0]))
  }

  lemma {:induction false} GoodLevelsAreGood(book: seq<Level>)
    ensures AllGood(GoodLevels(book))
  {
    if book != [] { GoodLevelsAreGood(book[1..]); }
  }

  lemma AsksAreSorted(book: seq<Level>)
    ensures AllGood(Asks(book)) && SortedBy(Asks(book), Cheaper)
    ensures multiset(Asks(book)) == multiset(GoodLevels(book))
  {
    GoodLevelsAreGood(book);
    SortSorts(GoodLevels(book), Cheaper);
    forall i | 0 <= i < |Asks(book)| ensures Good(Asks(book)[i]) {
      assert Asks(book)[i] in multiset(GoodLevels(book));
    }
  }

  lemma {:induction false} SumOfGoodLevels(book: seq<Level>, f: Level -> real)
    requires forall l :: !Good(l) ==> f(l) == 0.0
    ensures Sum(GoodLevels(book), f) == Sum(book, f)
  {
    if book != [] {
      SumOfGoodLevels(book[1..], f);
      if Good(book[0]) {
        assert GoodLevels(book)[1..] == GoodLevels(book[1..]);
      } else {
        assert GoodLevels(book) == GoodLevels(book[1..]) && f(book[0]) == 0.0;
      }
    }
  }

  lemma SumOfAsks(book: seq<Level>, f: Level -> real)
    requires forall l :: !Good(l) ==> f(l) == 0.0
    ensures Sum(Asks(book), f) == Sum(book, f)
  {
    SumOfSort(GoodLevels(book), Cheaper, f);
    SumOfGoodLevels(book, f);
  }

  function Simulate(book: seq<Level>, budget: real): Simulation {
    AsksAreSorted(book);
    var w := WalkAsks(Asks(book), Walk(budget, 0.0, 0.0));
    var spent := budget - if w.remaining > 0.0 then w.remaining else 0.0;
    Simulation(w.remaining <= EPS, w.filled, spent, w.worst, if w.filled > 0.0 then Over(spent, w.filled) else 0.0)
  }

  // ----- what the walk achieves -----

  /** The levels still ahead cost no less than the last one taken. */
  ghost predicate Ahead(asks: seq<Level>, w: Walk) {
    && AllGood(asks) && SortedBy(asks, Cheaper) && w.worst >= 0.0
    && forall i | 0 <= i < |asks| :: w.worst <= asks[i].price
  }

  lemma OverTimes(a: real, b: real)
    requires b > 0.0
    ensures Reals.Times(b, Over(a, b)) == a
    ensures a > 0.0 ==> Over(a, b) > 0.0
  {
  }

  lemma {:induction false} SumZero(s: seq<Level>, f: Level -> real)
    requires forall i | 0 <= i < |s| :: f(s[i]) == 0.0
    ensures Sum(s, f) == 0.0
  {
    if s != [] {
      assert f(s[0]) == 0.0;
      assert forall i | 0 <= i < |s[1..]| :: s[1..][i] == s[i + 1];
      SumZero(s[1..], f);
    }
  }

  lemma TakeKeepsAhead(asks: seq<Level>, w: Walk)
    requires asks != [] && Ahead(asks, w)
    ensures Ahead(asks[1..], Take(w, asks[0])) && Take(w, asks[0]).worst == asks[0].price >= w.worst
  {
    hide Cost, Over;
    assert forall i | 0 <= i < |asks[1..]| :: asks[1..][i] == asks[i + 1];
    forall i | 0 < i < |asks| ensures asks[0].price <= asks[i].price { assert Cheaper(asks[0], asks[i]); }
  }

  /** The walk buys at least as much as it did, at prices that only rise, and never overspends. */
  lemma {:induction false} WalkGrows(asks: seq<Level>, w: Walk)
    requires Ahead(asks, w)
    ensures var r := WalkAsks(asks, w);
            && r.worst >= w.worst && r.filled >= w.filled && r.remaining <= w.remaining
            && (w.remaining >= 0.0 ==> r.remaining >= 0.0)
            && (r.filled == w.filled ==> r == w)
            && (w.remaining <= TINY ==> r == w)
  {
    if asks != [] && w.remaining > TINY {
      TimesSign(asks[0].price, asks[0].size);
      OverTimes(w.remaining, asks[0].price);
      TakeKeepsAhead(asks, w);
      WalkGrows(asks[1..], Take(w, asks[0]));
    }
  }

  lemma SurplusOfTake(w: Walk, l: Level, v: real)
    requires Good(l) && w.remaining > TINY && l.price <= v
    requires w.remaining >= Cost(l) || v == l.price
    ensures var t := Take(w, l);
            Reals.Times(v, t.filled - w.filled) - (w.remaining - t.remaining) == SurplusAt(v)(l)
  {
    if w.remaining < Cost(l) { OverTimes(w.remaining, l.price); }
  }

  lemma TimesAdds(v: real, a: real, b: real)
    ensures Reals.Times(v, a) + Reals.Times(v, b) == Reals.Times(v, a + b)
  {
  }

  /** At the last price paid, the walk collects the whole surplus of the book. */
  lemma {:induction false} WalkTakesSurplus(asks: seq<Level>, w: Walk)
    requires Ahead(asks, w)
    ensures var r := WalkAsks(asks, w);
            Reals.Times(r.worst, r.filled - w.filled) - (w.remaining - r.remaining) == Sum(asks, SurplusAt(r.worst))
  {
    hide Take, SurplusAt;
    var r := WalkAsks(asks, w);
    if asks == [] || w.remaining <= TINY {
      NoSurplus(asks, w.worst);
      TimesAdds(w.worst, 0.0, 0.0);
    } else {
      var t := Take(w, asks[0]);
      TakeKeepsAhead(asks, w);
      WalkGrows(asks[1..], t);
      WalkTakesSurplus(asks[1..], t);
      PartialTakeIsLast(asks, w);
      SurplusOfTake(w, asks[0], r.worst);
      TimesAdds(r.worst, t.filled - w.filled, r.filled - t.filled);
    }
  }

  lemma NoSurplus(asks: seq<Level>, v: real)
    requires forall i | 0 <= i < |asks| :: v <= asks[i].price
    ensures Sum(asks, SurplusAt(v)) == 0.0
  {
    SumZero(asks, SurplusAt(v));
  }

  lemma PartialTakeIsLast(asks: seq<Level>, w: Walk)
    requires asks != [] && AllGood(asks) && w.remaining > TINY
    ensures w.remaining < Cost(asks[0]) ==> WalkAsks(asks, w) == Take(w, asks[0])
  {
  }

  /** The budget counts as filled exactly when the depth covers it to `EPS`. */
  lemma {:induction false} WalkFillsIff(asks: seq<Level>, w: Walk)
    requires AllGood(asks)
    ensures WalkAsks(asks, w).remaining <= EPS <==> Sum(asks, DepthOf()) >= w.remaining - EPS
  {
    forall l ensures DepthOf()(l) >= 0.0 { SummandsNonNegative(l, 0.0); }
    SumNonNegative(asks, DepthOf());
    if asks != [] && w.remaining > TINY {
      SumNonNegative(asks[1..], DepthOf());
      TimesSign(asks[0].price, asks[0].size);
      PartialTakeIsLast(asks, w);
      WalkFillsIff(asks[1..], Take(w, asks[0]));
    }
  }

  /** The walk goes above a price exactly when there is a level above it and the levels up to it leave money. */
  lemma {:induction false} WalkExceedsIff(asks: seq<Level>, w: Walk, max: real)
    requires Ahead(asks, w) && w.worst <= max
    ensures WalkAsks(asks, w).worst > max
       <==> (exists i :: 0 <= i < |asks| && asks[i].price > max) && w.remaining - Sum(asks, DepthBelow(max)) > TINY
  {
    forall l ensures DepthBelow(max)(l) >= 0.0 { SummandsNonNegative(l, max); }
    SumNonNegative(asks, DepthBelow(max));
    if asks != [] && w.remaining > TINY {
      var t := Take(w, asks[0]);
      TakeKeepsAhead(asks, w);
      WalkGrows(asks[1..], t);
      PartialTakeIsLast(asks, w);
      SumNonNegative(asks[1..], DepthBelow(max));
      if asks[0].price <= max {
        WalkExceedsIff(asks[1..], t, max);
        assert forall i | 0 <= i < |asks[1..]| :: asks[1..][i] == asks[i + 1];
        assert (exists i :: 0 <= i < |asks| && asks[i].price > max)
          <==> exists i :: 0 <= i < |asks[1..]| && asks[1..][i].price > max by {
          if i :| 0 <= i < |asks| && asks[i].price > max { assert asks[1..][i - 1] == asks[i]; }
        }
      } else {
        forall i | 0 <= i < |asks| ensures DepthBelow(max)(asks[i]) == 0.0 {
          assert i > 0 ==> Cheaper(asks[0], asks[i]);
        }
        SumZero(asks, DepthBelow(max));
      }
    }
  }

  // ----- plans -----

  /** A plan buys part of each good level. */
  ghost predicate Fits(book: seq<Level>, plan: seq<real>) {
    |plan| == |book| && forall i | 0 <= i < |book| :: 0.0 <= plan[i] <= if Good(book[i]) then book[i].size else 0.0
  }

  function Shares(plan: seq<real>): real { if plan == [] then 0.0 else plan[0] + Shares(plan[1..]) }

  function PlanCost(book: seq<Level>, plan: seq<real>): real
    requires |plan| == |book|
  {
    if book == [] then 0.0 else Reals.Times(book[0].price, plan[0]) + PlanCost(book[1..], plan[1..])
  }

  lemma GainOnLevel(l: Level, x: real, v: real)
    requires 0.0 <= x <= if Good(l) then l.size else 0.0
    ensures Reals.Times(v, x) - Reals.Times(l.price, x) <= SurplusAt(v)(l)
    ensures Reals.Times(l.price, x) >= 0.0 && (Reals.Times(l.price, x) == 0.0 ==> x == 0.0)
  {
    if Good(l) && x > 0.0 { TimesSign(l.price, x); }
    if Good(l) && l.price < v {
      assert x * (v - l.price) <= l.size * (v - l.price);
    } else if Good(l) {
      assert x * (v - l.price) <= 0.0;
    }
  }

  /** No plan gains more than the book's surplus; only a plan that buys nothing is free. */
  lemma {:induction false} PlanGain(book: seq<Level>, plan: seq<real>, v: real)
    requires Fits(book, plan)
    ensures Reals.Times(v, Shares(plan)) - PlanCost(book, plan) <= Sum(book, SurplusAt(v))
    ensures PlanCost(book, plan) >= 0.0 && (PlanCost(book, plan) == 0.0 ==> Shares(plan) == 0.0)
  {
    hide SurplusAt, Reals.Times;
    if book == [] {
      TimesAdds(v, 0.0, 0.0);
    } else {
      GainOnLevel(book[0], plan[0], v);
      PlanGain(book[1..], plan[1..], v);
      TimesAdds(v, plan[0], Shares(plan[1..]));
    }
  }

  lemma LessTimes(v: real, a: real, b: real)
    requires v > 0.0 && Reals.Times(v, a) <= Reals.Times(v, b)
    ensures a <= b
  {
  }

  lemma StartIsAhead(book: seq<Level>, budget: real)
    ensures Ahead(Asks(book), Walk(budget, 0.0, 0.0))
  {
    AsksAreSorted(book);
  }

  /** The walk spends nothing before it pays a first price. */
  lemma {:induction false} WorstIsPositive(asks: seq<Level>, w: Walk)
    requires Ahead(asks, w) && w.remaining > TINY && asks != []
    ensures WalkAsks(asks, w).worst > 0.0 && WalkAsks(asks, w).filled > w.filled
  {
    TimesSign(asks[0].price, asks[0].size);
    OverTimes(w.remaining, asks[0].price);
    TakeKeepsAhead(asks, w);
    WalkGrows(asks[1..], Take(w, asks[0]));
  }

  /** Greedy is optimal: no purchase plan that costs at most what was spent gets more shares. */
  lemma NoPlanBeatsGreedy(book: seq<Level>, budget: real, plan: seq<real>)
    requires Fits(book, plan) && PlanCost(book, plan) <= Simulate(book, budget).spentUsd
    ensures Shares(plan) <= Simulate(book, budget).filledShares
  {
    hide SurplusAt, Reals.Times, Sort, GoodLevels;
    var w, sim := Walk(budget, 0.0, 0.0), Simulate(book, budget);
    StartIsAhead(book, budget);
    var r := WalkAsks(Asks(book), w);
    WalkGrows(Asks(book), w);
    PlanGain(book, plan, r.worst);
    if budget > TINY && Asks(book) != [] {
      WorstIsPositive(Asks(book), w);
      WalkTakesSurplus(Asks(book), w);
      SurplusSum(book, r.worst);
      LessTimes(r.worst, Shares(plan), r.filled);
    }
  }

  lemma SurplusSum(book: seq<Level>, v: real)
    ensures Sum(Asks(book), SurplusAt(v)) == Sum(book, SurplusAt(v))
  {
    SumOfAsks(book, SurplusAt(v));
  }

  // ----- a plan for what the walk buys -----

  lemma {:induction false} WalkPlan(asks: seq<Level>, w: Walk) returns (plan: seq<real>)
    requires AllGood(asks) && w.remaining >= 0.0
    ensures Fits(asks, plan)
    ensures var r := WalkAsks(asks, w);
            Shares(plan) == r.filled - w.filled && PlanCost(asks, plan) == w.remaining - r.remaining
  {
    hide Reals.Times;
    if asks == [] {
      plan := [];
    } else {
      var l, rest := asks[0], asks[1..];
      var t := if w.remaining <= TINY then Walk(0.0, w.filled, w.worst) else Take(w, l);
      var x := t.filled - w.filled;
      OverTimes(w.remaining, l.price);
      TimesAdds(l.price, 0.0, 0.0);
      PartialFits(w, l);
      var more := WalkPlan(rest, t);
      plan := [x] + more;
      assert plan[1..] == more;
    }
  }

  lemma PartialFits(w: Walk, l: Level)
    requires Good(l) && w.remaining >= 0.0
    ensures Over(w.remaining, l.price) >= 0.0
    ensures w.remaining < Cost(l) ==> Over(w.remaining, l.price) <= l.size
  {
    OverTimes(w.remaining, l.price);
    if w.remaining < Cost(l) && Over(w.remaining, l.price) > l.size {
      TimesSign(l.price, Over(w.remaining, l.price) - l.size);
    }
  }

  /** A plan for a list with one level inserted is a plan for that level and the list. */
  lemma {:induction false} UninsertPlan(x: Level, s: seq<Level>, plan: seq<real>) returns (a: real, rest: seq<real>)
    requires Fits(Insert(x, s, Cheaper), plan)
    ensures Fits([x] + s, [a] + rest)
    ensures Shares(plan) == Shares([a] + rest) && PlanCost(Insert(x, s, Cheaper), plan) == PlanCost([x] + s, [a] + rest)
  {
    hide Reals.Times, Good;
    if s == [] || Cheaper(x, s[0]) {
      a, rest := plan[0], plan[1..];
      assert [a] + rest == plan;
    } else {
      var t := Insert(x, s[1..], Cheaper);
      assert ([s[0]] + t)[1..] == t;
      var more: seq<real>;
      a, more := UninsertPlan(x, s[1..], plan[1..]);
      rest := [plan[0]] + more;
      Swap(x, s, a, plan[0], more);
    }
  }

  lemma Swap(x: Level, s: seq<Level>, a: real, b: real, more: seq<real>)
    requires s != [] && |more| + 1 == |s| && Fits([x] + s[1..], [a] + more)
    requires 0.0 <= b <= if Good(s[0]) then s[0].size else 0.0
    ensures Fits([x] + s, [a, b] + more) && [a, b] + more == [a] + ([b] + more)
    ensures Shares([a, b] + more) == b + Shares([a] + more)
    ensures PlanCost([x] + s, [a, b] + more) == Reals.Times(s[0].price, b) + PlanCost([x] + s[1..], [a] + more)
  {
    hide Reals.Times, Good, Fits, Shares, PlanCost;
    var l, rest := s[0], s[1..];
    assert s == [l] + rest && [a, b] + more == [a] + ([b] + more);
    PlanTail(x, rest, [a] + more);
    assert ([a] + more)[1..] == more;
    PlanCons(x, rest, a, more);
    PlanCons(l, rest, b, more);
    PlanCons(x, s, a, [b] + more);
  }

  /** A plan with one level put in front. */
  lemma PlanCons(l: Level, s: seq<Level>, x: real, plan: seq<real>)
    requires Fits(s, plan) && 0.0 <= x <= if Good(l) then l.size else 0.0
    ensures Fits([l] + s, [x] + plan) && Shares([x] + plan) == x + Shares(plan)
    ensures PlanCost([l] + s, [x] + plan) == Reals.Times(l.price, x) + PlanCost(s, plan)
  {
    hide Reals.Times, Good;
    assert ([x] + plan)[1..] == plan && ([l] + s)[1..] == s;
    forall i | 0 <= i < |s| + 1
      ensures 0.0 <= ([x] + plan)[i] <= if Good(([l] + s)[i]) then ([l] + s)[i].size else 0.0
    {
      if i > 0 { assert ([x] + plan)[i] == plan[i - 1] && ([l] + s)[i] == s[i - 1]; }
    }
  }

  /** A plan without its first level. */
  lemma PlanTail(l: Level, s: seq<Level>, plan: seq<real>)
    requires Fits([l] + s, plan)
    ensures plan == [plan[0]] + plan[1..] && Fits(s, plan[1..])
    ensures 0.0 <= plan[0] <= if Good(l) then l.size else 0.0
  {
    hide Good;
    var t := [l] + s;
    assert t[0] == l;
    forall i | 0 <= i < |s| ensures 0.0 <= plan[1..][i] <= if Good(s[i]) then s[i].size else 0.0 {
      assert s[i] == t[i + 1] && plan[1..][i] == plan[i + 1];
    }
  }

  lemma {:induction false} UnsortPlan(s: seq<Level>, plan: seq<real>) returns (r: seq<real>)
    requires Fits(Sort(s, Cheaper), plan)
    ensures Fits(s, r) && Shares(r) == Shares(plan) && PlanCost(s, r) == PlanCost(Sort(s, Cheaper), plan)
  {
    if s == [] {
      r := plan;
    } else {
      hide Reals.Times, Good, Fits, Shares, PlanCost, Insert, Sort;
      var l, rest, t := s[0], s[1..], Sort(s[1..], Cheaper);
      SortUnfolds(s);
      var x, more := UninsertPlan(l, t, plan);
      PlanTail(l, t, [x] + more);
      assert ([x] + more)[1..] == more;
      PlanCons(l, t, x, more);
      var q := UnsortPlan(rest, more);
      PlanCons(l, rest, x, q);
      assert s == [l] + rest;
      r := [x] + q;
    }
  }

  lemma SortUnfolds(s: seq<Level>)
    requires s != []
    ensures Sort(s, Cheaper) == Insert(s[0], Sort(s[1..], Cheaper), Cheaper)
  {
  }

  lemma GoodLevelsUnfold(book: seq<Level>)
    requires book != []
    ensures GoodLevels(book)
         == if Good(book[0]) then [book[0]] + GoodLevels(book[1..]) else GoodLevels(book[1..])
  {
    assert [] + GoodLevels(book[1..]) == GoodLevels(book[1..]);
  }

  lemma {:induction false} UnfilterPlan(book: seq<Level>, plan: seq<real>) returns (r: seq<real>)
    requires Fits(GoodLevels(book), plan)
    ensures Fits(book, r) && Shares(r) == Shares(plan) && PlanCost(book, r) == PlanCost(GoodLevels(book), plan)
  {
    if book == [] {
      r := plan;
    } else {
      var l, rest := book[0], book[1..];
      GoodLevelsUnfold(book);
      TimesAdds(l.price, 0.0, 0.0);
      assert Reals.Times(l.price, 0.0) == 0.0;
      assert book == [l] + rest;
      hide Reals.Times, Fits, Shares, PlanCost, GoodLevels;
      if Good(l) {
        PlanTail(l, GoodLevels(rest), plan);
        PlanCons(l, GoodLevels(rest), plan[0], plan[1..]);
        var q := UnfilterPlan(rest, plan[1..]);
        PlanCons(l, rest, plan[0], q);
        r := [plan[0]] + q;
      } else {
        var q := UnfilterPlan(rest, plan);
        PlanCons(l, rest, 0.0, q);
        r := [0.0] + q;
      }
    }
  }

  /** For a budget that is not negative, what the simulation reports is the outcome of a plan. */
  lemma GreedyIsAPlan(book: seq<Level>, budget: real) returns (plan: seq<real>)
    requires budget >= 0.0
    ensures Fits(book, plan)
    ensures Shares(plan) == Simulate(book, budget).filledShares
    ensures PlanCost(book, plan) == Simulate(book, budget).spentUsd
  {
    var w := Walk(budget, 0.0, 0.0);
    StartIsAhead(book, budget);
    WalkGrows(Asks(book), w);
    plan := WalkPlan(Asks(book), w);
    plan := UnsortPlan(GoodLevels(book), plan);
    plan := UnfilterPlan(book, plan);
  }

  /** The budget counts as filled exactly when the whole depth covers it to `EPS`. */
  lemma FullyFilledIff(book: seq<Level>, budget: real)
    ensures Simulate(book, budget).fullyFilled <==> Sum(book, DepthOf()) >= budget - 0.000000001
  {
    StartIsAhead(book, budget);
    WalkFillsIff(Asks(book), Walk(budget, 0.0, 0.0));
    SumOfAsks(book, DepthOf());
  }

  /** The walk spends the depth, or all but `TINY` of its money. */
  lemma {:induction false} WalkSpends(asks: seq<Level>, w: Walk)
    requires AllGood(asks) && w.remaining >= 0.0
    ensures var r := WalkAsks(asks, w);
            && 0.0 <= r.remaining && w.remaining - r.remaining <= Sum(asks, DepthOf())
            && (r.remaining <= TINY || w.remaining - r.remaining == Sum(asks, DepthOf()))
  {
    forall l ensures DepthOf()(l) >= 0.0 { SummandsNonNegative(l, 0.0); }
    SumNonNegative(asks, DepthOf());
    hide Over, Cost;
    if asks != [] && w.remaining > TINY {
      SumNonNegative(asks[1..], DepthOf());
      assert forall i | 0 <= i < |asks[1..]| :: asks[1..][i] == asks[i + 1];
      WalkSpends(asks[1..], Take(w, asks[0]));
      PartialTakeIsLast(asks, w);
    }
  }

  /** What is spent is the budget or the whole depth, whichever is less, to 1e-12 and never more. */
  lemma SpendsWhatItCan(book: seq<Level>, budget: real)
    requires budget >= 0.0
    ensures var spent, depth := Simulate(book, budget).spentUsd, Sum(book, DepthOf());
            && spent <= budget && spent <= depth
            && (spent >= budget - 0.000000000001 || spent == depth)
  {
    StartIsAhead(book, budget);
    WalkSpends(Asks(book), Walk(budget, 0.0, 0.0));
    SumOfAsks(book, DepthOf());
    hide WalkAsks, Asks;
  }

  /** The average price pays for exactly the shares bought with exactly the money spent. */
  lemma AveragePays(book: seq<Level>, budget: real)
    ensures var sim := Simulate(book, budget);
            && sim.filledShares >= 0.0
            && (sim.filledShares > 0.0 ==> Reals.Times(sim.filledShares, sim.avgPrice) == sim.spentUsd)
            && (sim.filledShares == 0.0 ==> sim.avgPrice == 0.0)
  {
    var w := Walk(budget, 0.0, 0.0);
    StartIsAhead(book, budget);
    WalkGrows(Asks(book), w);
    var sim := Simulate(book, budget);
    if sim.filledShares > 0.0 { OverTimes(sim.spentUsd, sim.filledShares); }
  }

  /** The average price lies between nothing and the worst price. */
  lemma AverageIsAtMostWorst(book: seq<Level>, budget: real)
    ensures var sim := Simulate(book, budget); 0.0 <= sim.avgPrice <= sim.worstPrice
  {
    var w := Walk(budget, 0.0, 0.0);
    StartIsAhead(book, budget);
    var r := WalkAsks(Asks(book), w);
    WalkGrows(Asks(book), w);
    if r.filled > 0.0 {
      WalkTakesSurplus(Asks(book), w);
      forall l ensures SurplusAt(r.worst)(l) >= 0.0 { SummandsNonNegative(l, r.worst); }
      SumNonNegative(Asks(book), SurplusAt(r.worst));
      Quotient(budget - r.remaining, r.filled, r.worst);
    }
  }

  lemma Quotient(s: real, f: real, v: real)
    requires f > 0.0 && 0.0 <= s <= Reals.Times(v, f)
    ensures 0.0 <= Over(s, f) <= v
  {
  }

  /** The worst price stays within a bound exactly when no good level lies above it or the good levels up to it leave no
      money over. */
  lemma WorstPriceWithinIff(book: seq<Level>, budget: real, max: real)
    requires max >= 0.0
    ensures Simulate(book, budget).worstPrice <= max
       <==> (forall l | l in book && Good(l) :: l.price <= max) || Sum(book, DepthBelow(max)) >= budget - 0.000000000001
  {
    var asks := Asks(book);
    StartIsAhead(book, budget);
    WalkExceedsIff(asks, Walk(budget, 0.0, 0.0), max);
    SumOfAsks(book, DepthBelow(max));
    AsksAreSorted(book);
    GoodLevelsMembers(book);
    if i :| 0 <= i < |asks| && asks[i].price > max {
      assert asks[i] in multiset(GoodLevels(book));
    }
    if l :| l in book && Good(l) && l.price > max {
      assert l in multiset(asks);
    }
  }

  lemma {:induction false} GoodLevelsMembers(book: seq<Level>)
    ensures forall l :: l in GoodLevels(book) <==> l in book && Good(l)
  {
    if book != [] {
      GoodLevelsMembers(book[1..]);
      assert book == [book[0]] + book[1..];
    }
  }

  // ----- the loops -----

  /** `simulateMarketBuy`. */
  method SimulateMarketBuy(book: seq<Level>, budgetUsd: real) returns (sim: Simulation)
    ensures sim == Simulate(book, budgetUsd)
  {
    hide Sort, GoodLevels, Cost, Reals.Times, Over;
    AsksAreSorted(book);
    var asks := Asks(book);
    var remaining, filledShares, worstPrice := budgetUsd, 0.0, 0.0;
    var i := 0;
    while i < |asks|
      invariant 0 <= i <= |asks|
      invariant WalkAsks(asks, Walk(budgetUsd, 0.0, 0.0))
             == WalkAsks(asks[i..], Walk(remaining, filledShares, worstPrice))
    {
      if remaining <= TINY { break; }
      var level := asks[i];
      assert Good(asks[i]);
      assert asks[i..][1..] == asks[i + 1..];
      i := i + 1;
      var levelCost := Cost(level);
      worstPrice := level.price;
      if remaining >= levelCost {
        filledShares := filledShares + level.size;
        remaining := remaining - levelCost;
      } else {
        filledShares := filledShares + Over(remaining, level.price);
        remaining := 0.0;
        break;
      }
    }
    var spentUsd := budgetUsd - if remaining > 0.0 then remaining else 0.0;
    return Simulation(remaining <= EPS, filledShares, spentUsd, worstPrice,
                      if filledShares > 0.0 then Over(spentUsd, filledShares) else 0.0);
  }

  /** What every level up to a price costs, good or not. */
  function CostBelow(max: real): Level -> real { (l: Level) => if l.price <= max then Cost(l) else 0.0 }

  lemma NothingBelow(asks: seq<Level>, max: real)
    requires SortedBy(asks, Cheaper) && asks != [] && asks[0].price > max
    ensures Sum(asks, CostBelow(max)) == 0.0
  {
    forall j | 0 <= j < |asks| ensures CostBelow(max)(asks[j]) == 0.0 { assert j > 0 ==> Cheaper(asks[0], asks[j]); }
    SumZero(asks, CostBelow(max));
  }

  /** `calculateDepthAtSlippage`: the cost of all levels within the slippage of the reference price. */
  method CalculateDepthAtSlippage(book: seq<Level>, refPrice: real, slippagePct: real) returns (depth: real)
    ensures depth == Sum(book, CostBelow(refPrice * (1.0 + slippagePct)))
  {
    var maxPrice := refPrice * (1.0 + slippagePct);
    hide Sort, Cost;
    var asks := Sort(book, Cheaper);
    SortSorts(book, Cheaper);
    SumOfSort(book, Cheaper, CostBelow(maxPrice));
    depth := 0.0;
    var i := 0;
    while i < |asks|
      invariant 0 <= i <= |asks|
      invariant depth + Sum(asks[i..], CostBelow(maxPrice)) == Sum(asks, CostBelow(maxPrice))
    {
      if asks[i].price > maxPrice {
        NothingBelow(asks[i..], maxPrice);
        break;
      }
      assert asks[i..][1..] == asks[i + 1..];
      depth := depth + Cost(asks[i]);
      i := i + 1;
    }
  }

  /** On a book of good levels, depth within the slippage that covers the budget keeps the whole buy within it. */
  lemma CoveredBudgetStaysWithinSlippage(book: seq<Level>, budget: real, refPrice: real, slippagePct: real)
    requires AllGood(book)
    ensures var max := refPrice * (1.0 + slippagePct);
            max >= 0.0 && Sum(book, CostBelow(max)) >= budget ==> Simulate(book, budget).worstPrice <= max
  {
    var max := refPrice * (1.0 + slippagePct);
    SameOnGood(book, max);
    if max >= 0.0 { WorstPriceWithinIff(book, budget, max); }
  }

  lemma {:induction false} SameOnGood(book: seq<Level>, max: real)
    requires AllGood(book)
    ensures Sum(book, CostBelow(max)) == Sum(book, DepthBelow(max))
  {
    if book != [] {
      assert forall i | 0 <= i < |book[1..]| :: book[1..][i] == book[i + 1];
      SameOnGood(book[1..], max);
    }
  }
}
