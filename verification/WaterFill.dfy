/** Water-filling a budget into capped markets in proportion to their weights, over the reals. */
module WaterFill {
  import opened Reals

  const CAP_TOLERANCE: real := 0.000000001
  const BUDGET_TOLERANCE: real := 0.000001
  const WEIGHT_TOLERANCE: real := 0.000000000001

  /** Which limit a market's amount ends at. */
  datatype Limit = Unbound | Liquidity | Depth | CorrGroup | PerMarket | PerEvent | PerCluster | TotalExposure

  function Min(a: real, b: real): real { if a <= b then a else b }
  function Max(a: real, b: real): real { if a <= b then b else a }

  // ----- sums -----

  lemma {:induction false} SumOfUpdate(a: seq<real>, i: nat, v: real, k: nat)
    requires i < |a| && k <= |a|
    ensures Sum(a[i := v], k) == Sum(a, k) + (if i < k then v - a[i] else 0.0)
  {
    if k > 0 { SumOfUpdate(a, i, v, k - 1); }
  }

  lemma {:induction false} SumOfZeros(a: seq<real>, k: nat)
    requires k <= |a| && forall i | 0 <= i < |a| :: a[i] == 0.0
    ensures Sum(a, k) == 0.0
  {
    if k > 0 { SumOfZeros(a, k - 1); }
  }

  ghost function CountTrue(c: seq<bool>, k: nat): (n: nat)
    requires k <= |c|
    ensures n <= k
  {
    if k == 0 then 0 else CountTrue(c, k - 1) + (if c[k - 1] then 1 else 0)
  }

  lemma {:induction false} CountOfUpdate(c: seq<bool>, i: nat, k: nat)
    requires i < |c| && k <= |c| && !c[i]
    ensures CountTrue(c[i := true], k) == CountTrue(c, k) + (if i < k then 1 else 0)
  {
    if k > 0 { CountOfUpdate(c, i, k - 1); }
  }

  /** Weight of the markets below `k` that are positive and were open at the start of the round. */
  ghost function OpenWeight(w: seq<real>, closed: seq<bool>, k: nat): real
    requires |w| == |closed| && k <= |w|
  {
    if k == 0 then 0.0
    else OpenWeight(w, closed, k - 1) + (if !closed[k - 1] && w[k - 1] > 0.0 then w[k - 1] else 0.0)
  }

  // ----- what the water level means -----

  /** Where a level takes a market of this weight. */
  function Water(level: real, weight: real): real { level * weight }

  /** A market still open stands exactly at the level, strictly below its cap; a market at its cap would be
      pushed there by the level, to the tolerance. */
  ghost predicate AtLevel(cap: real, weight: real, amount: real, full: bool, level: real) {
    if weight <= 0.0 then amount == 0.0 && !full
    else if full then amount == cap && cap <= Water(level, weight) + CAP_TOLERANCE
    else amount == Water(level, weight) && (level == 0.0 || amount < cap - CAP_TOLERANCE)
  }

  /** All markets are at one common level. */
  ghost predicate Levelled(caps: seq<real>, w: seq<real>, amounts: seq<real>, capped: seq<bool>, level: real) {
    && |caps| == |w| == |amounts| == |capped| && level >= 0.0
    && forall i | 0 <= i < |w| :: AtLevel(caps[i], w[i], amounts[i], capped[i], level)
  }

  /** A market is labelled with the term behind its cap exactly when it is capped. */
  ghost predicate Labelled(binding: seq<Limit>, capped: seq<bool>, sources: seq<Limit>) {
    && |binding| == |capped| == |sources|
    && forall i | 0 <= i < |binding| :: binding[i] == if capped[i] then sources[i] else Unbound
  }

  /** The closed form: every amount is `min(cap, level * weight)`, exactly where the market is still open and
      to the tolerance where it is capped. */
  lemma ClosedForm(caps: seq<real>, w: seq<real>, amounts: seq<real>, capped: seq<bool>, level: real, i: nat)
    requires Levelled(caps, w, amounts, capped, level) && i < |w| && caps[i] >= 0.0
    ensures w[i] <= 0.0 ==> amounts[i] == 0.0
    ensures w[i] > 0.0 ==> Min(caps[i], level * w[i]) <= amounts[i] <= Min(caps[i], level * w[i]) + 0.000000001
    ensures w[i] > 0.0 && !capped[i] ==> amounts[i] == Min(caps[i], level * w[i])
    ensures 0.0 <= amounts[i] && (w[i] > 0.0 ==> amounts[i] <= caps[i])
  {
    assert AtLevel(caps[i], w[i], amounts[i], capped[i], level);
    if w[i] > 0.0 { assert level * w[i] >= 0.0; }
  }

  // ----- one market in one round -----

  /** Raising the level by `share` takes an open market to its cap, or further up below it. */
  lemma VisitOpen(cap: real, weight: real, amount: real, level: real, share: real, give: real)
    requires cap >= 0.0 && weight > 0.0 && level >= 0.0 && share > 0.0 && give == Water(share, weight)
    requires AtLevel(cap, weight, amount, false, level)
    ensures give >= cap - amount - CAP_TOLERANCE ==>
              AtLevel(cap, weight, cap, true, level + share) && cap <= amount + Water(share, weight) + CAP_TOLERANCE
    ensures give < cap - amount - CAP_TOLERANCE ==> AtLevel(cap, weight, amount + give, false, level + share)
  {
    assert (level + share) * weight == level * weight + share * weight;
    assert share * weight > 0.0;
  }

  lemma VisitClosed(cap: real, weight: real, amount: real, full: bool, level: real, share: real)
    requires share > 0.0 && (full || weight <= 0.0) && AtLevel(cap, weight, amount, full, level)
    ensures AtLevel(cap, weight, amount, full, level + share)
  {
    assert (level + share) * weight == level * weight + share * weight;
    if weight > 0.0 { assert share * weight > 0.0; }
  }

  /** What a market of this weight is offered out of what remains. */
  function Offer(remaining: real, weight: real, total: real): real
    requires total > 0.0
  {
    remaining * (weight / total)
  }

  /** How far a round raises the level. */
  function Rise(remaining: real, total: real): real
    requires total > 0.0
  {
    remaining / total
  }

  lemma OfferIsRise(remaining: real, weight: real, total: real)
    requires total > 0.0
    ensures Offer(remaining, weight, total) == Water(Rise(remaining, total), weight)
    ensures Water(Rise(remaining, total), total) == remaining
    ensures remaining > 0.0 ==> Rise(remaining, total) > 0.0
  {
  }

  // ----- one round -----

  /** What newly capped markets may overspend. */
  function Slack(markets: int): real { markets as real * CAP_TOLERANCE }

  lemma SlackAdds(a: int, b: int)
    ensures Slack(a + b) == Slack(a) + Slack(b)
    ensures Slack(1) == CAP_TOLERANCE && Slack(0) == 0.0 && (a >= 0 ==> Slack(a) >= 0.0)
  {
    assert (a + b) as real == a as real + b as real;
  }

  /** What has been given out after the markets below `k`, at `share` per unit of weight. */
  ghost predicate Given(w: seq<real>, before: seq<real>, closed: seq<bool>, amounts: seq<real>, capped: seq<bool>,
                        share: real, k: nat)
    requires |w| == |before| == |closed| == |amounts| == |capped| && k <= |w|
  {
    var newly := CountTrue(capped, |w|) - CountTrue(closed, |w|);
    var target := Sum(before, |w|) + Water(share, OpenWeight(w, closed, k));
    newly >= 0 && Sum(amounts, |w|) <= target + Slack(newly) && (newly == 0 ==> Sum(amounts, |w|) == target)
  }

  lemma GiveStep(w: seq<real>, before: seq<real>, closed: seq<bool>, amounts: seq<real>, capped: seq<bool>,
                 share: real, k: nat, v: real, full: bool)
    requires |w| == |before| == |closed| == |amounts| == |capped| && k < |w| && !closed[k] && !capped[k] && w[k] > 0.0
    requires Given(w, before, closed, amounts, capped, share, k)
    requires if full then v <= amounts[k] + Water(share, w[k]) + CAP_TOLERANCE else v == amounts[k] + Water(share, w[k])
    ensures Given(w, before, closed, amounts[k := v], if full then capped[k := true] else capped, share, k + 1)
  {
    SumOfUpdate(amounts, k, v, |w|);
    if full { CountOfUpdate(capped, k, |w|); }
    SlackAdds(CountTrue(capped, |w|) - CountTrue(closed, |w|), 1);
    WaterAdds(share, OpenWeight(w, closed, k), w[k]);
    hide Water, Slack;
  }

  lemma WaterAdds(share: real, a: real, b: real)
    ensures Water(share, a + b) == Water(share, a) + Water(share, b)
  {
  }

  lemma GivenAtStart(w: seq<real>, before: seq<real>, closed: seq<bool>, share: real)
    requires |w| == |before| == |closed|
    ensures Given(w, before, closed, before, closed, share, 0)
  {
    SlackAdds(0, 0);
    assert Water(share, 0.0) == 0.0;
  }

  lemma GiveNothing(w: seq<real>, before: seq<real>, closed: seq<bool>, amounts: seq<real>, capped: seq<bool>,
                    share: real, k: nat)
    requires |w| == |before| == |closed| == |amounts| == |capped| && k < |w| && (closed[k] || w[k] <= 0.0)
    requires Given(w, before, closed, amounts, capped, share, k)
    ensures Given(w, before, closed, amounts, capped, share, k + 1)
  {
  }

  ghost predicate ActiveList(active: seq<nat>, w: seq<real>, closed: seq<bool>) {
    |w| == |closed| && forall i: nat :: i in active <==> i < |w| && !closed[i] && w[i] > 0.0
  }

  ghost predicate Ascends(active: seq<nat>) { forall j, k | 0 <= j < k < |active| :: active[j] < active[k] }

  /** The first market after the `j`-th visit. */
  ghost function After(active: seq<nat>, j: nat): nat
    requires j <= |active|
  {
    if j == 0 then 0 else active[j - 1] + 1
  }

  lemma Listed(active: seq<nat>, w: seq<real>, closed: seq<bool>, j: nat)
    requires ActiveList(active, w, closed) && Ascends(active) && j < |active|
    ensures After(active, j) <= active[j] < |w| && !closed[active[j]] && w[active[j]] > 0.0
  {
    assert active[j] in active;
  }

  /** No market between two visits is open with a positive weight. */
  lemma UnlistedBetween(active: seq<nat>, w: seq<real>, closed: seq<bool>, j: nat)
    requires ActiveList(active, w, closed) && Ascends(active) && j <= |active|
    ensures After(active, j) <= |w|
    ensures forall k | After(active, j) <= k < (if j < |active| then active[j] else |w|) && k < |w| ::
              closed[k] || w[k] <= 0.0
  {
    if j > 0 { Listed(active, w, closed, j - 1); }
    assert forall m | 0 <= m < |active| :: active[m] < After(active, j) || (j < |active| && active[m] >= active[j]);
    assert forall k: nat | After(active, j) <= k < (if j < |active| then active[j] else |w|) :: k !in active;
  }

  /** The markets a round visits, and their weight. */
  method ActiveMarkets(w: seq<real>, capped: array<bool>) returns (active: seq<nat>, sumW: real)
    requires capped.Length == |w|
    ensures ActiveList(active, w, capped[..])
    ensures Ascends(active)
    ensures sumW == OpenWeight(w, capped[..], |w|)
  {
    active, sumW := [], 0.0;
    for i := 0 to |w|
      invariant forall j: nat :: j in active <==> j < i && !capped[j] && w[j] > 0.0
      invariant forall j, k | 0 <= j < k < |active| :: active[j] < active[k]
      invariant sumW == OpenWeight(w, capped[..], i)
    {
      forall j | 0 <= j < |active| ensures active[j] < i { assert active[j] in active; }
      if !capped[i] && w[i] > 0.0 {
        active := active + [i];
        sumW := sumW + w[i];
      }
    }
  }

  lemma LabelStep(binding: seq<Limit>, capped: seq<bool>, sources: seq<Limit>, k: nat, full: bool)
    requires Labelled(binding, capped, sources) && k < |binding|
    ensures full ==> Labelled(binding[k := sources[k]], capped[k := true], sources)
  {
  }

  /** Part of a round: the markets below `k` are at the next level, the others as they were. */
  ghost predicate Partly(caps: seq<real>, w: seq<real>, before: seq<real>, closed: seq<bool>,
                         amounts: seq<real>, capped: seq<bool>, next: real, k: nat)
  {
    && |caps| == |w| == |before| == |closed| == |amounts| == |capped| && k <= |w|
    && (forall i | 0 <= i < k :: AtLevel(caps[i], w[i], amounts[i], capped[i], next))
    && (forall i | k <= i < |w| :: amounts[i] == before[i] && capped[i] == closed[i])
  }

  lemma PartlyStep(caps: seq<real>, w: seq<real>, before: seq<real>, closed: seq<bool>,
                   amounts: seq<real>, capped: seq<bool>, next: real, k: nat, v: real, full: bool)
    requires Partly(caps, w, before, closed, amounts, capped, next, k) && k < |w|
    requires AtLevel(caps[k], w[k], v, full, next)
    ensures Partly(caps, w, before, closed, amounts[k := v], capped[k := full], next, k + 1)
  {
    hide AtLevel;
  }

  /** Everything known part-way through a round. */
  ghost predicate SoFar(caps: seq<real>, sources: seq<Limit>, w: seq<real>, before: seq<real>, closed: seq<bool>,
                        amounts: seq<real>, capped: seq<bool>, binding: seq<Limit>, level: real, share: real, k: nat)
  {
    && Partly(caps, w, before, closed, amounts, capped, level + share, k)
    && Given(w, before, closed, amounts, capped, share, k)
    && Labelled(binding, capped, sources)
  }

  lemma ServedStep(caps: seq<real>, sources: seq<Limit>, w: seq<real>, before: seq<real>, closed: seq<bool>,
                   amounts: seq<real>, capped: seq<bool>, binding: seq<Limit>, level: real, share: real,
                   k: nat, give: real)
    requires SoFar(caps, sources, w, before, closed, amounts, capped, binding, level, share, k) && k < |w|
    requires caps[k] >= 0.0 && level >= 0.0 && share > 0.0 && !closed[k] && w[k] > 0.0 && give == Water(share, w[k])
    requires AtLevel(caps[k], w[k], before[k], closed[k], level)
    ensures give >= caps[k] - amounts[k] - CAP_TOLERANCE ==>
              SoFar(caps, sources, w, before, closed,
                    amounts[k := caps[k]], capped[k := true], binding[k := sources[k]],
                    level, share, k + 1)
    ensures give < caps[k] - amounts[k] - CAP_TOLERANCE ==>
              SoFar(caps, sources, w, before, closed,
                    amounts[k := amounts[k] + give], capped, binding, level, share, k + 1)
  {
    VisitOpen(caps[k], w[k], before[k], level, share, give);
    var full := give >= caps[k] - amounts[k] - CAP_TOLERANCE;
    var v := if full then caps[k] else amounts[k] + give;
    GiveStep(w, before, closed, amounts, capped, share, k, v, full);
    PartlyStep(caps, w, before, closed, amounts, capped, level + share, k, v, full);
    assert capped[k := full] == if full then capped[k := true] else capped;
    LabelStep(binding, capped, sources, k, full);
  }

  lemma SkippedStep(caps: seq<real>, sources: seq<Limit>, w: seq<real>, before: seq<real>, closed: seq<bool>,
                    amounts: seq<real>, capped: seq<bool>, binding: seq<Limit>, level: real, share: real, k: nat)
    requires SoFar(caps, sources, w, before, closed, amounts, capped, binding, level, share, k) && k < |w|
    requires share > 0.0 && (closed[k] || w[k] <= 0.0) && AtLevel(caps[k], w[k], before[k], closed[k], level)
    ensures SoFar(caps, sources, w, before, closed, amounts, capped, binding, level, share, k + 1)
  {
    VisitClosed(caps[k], w[k], before[k], closed[k], level, share);
    GiveNothing(w, before, closed, amounts, capped, share, k);
    PartlyStep(caps, w, before, closed, amounts, capped, level + share, k, amounts[k], capped[k]);
    assert amounts[k := amounts[k]] == amounts && capped[k := capped[k]] == capped;
  }

  /** Gives one market its share, or closes it at its cap. */
  method Serve(i: nat, cap: real, source: Limit, give: real, amounts: array<real>, capped: array<bool>,
               binding: array<Limit>) returns (full: bool)
    requires i < amounts.Length == capped.Length == binding.Length
    modifies amounts, capped, binding
    ensures full <==> give >= cap - old(amounts[i]) - CAP_TOLERANCE
    ensures amounts[..] == old(amounts[..])[i := if full then cap else old(amounts[i]) + give]
    ensures capped[..] == if full then old(capped[..])[i := true] else old(capped[..])
    ensures binding[..] == if full then old(binding[..])[i := source] else old(binding[..])
  {
    var room := cap - amounts[i];
    full := give >= room - CAP_TOLERANCE;
    if full {
      amounts[i] := cap;
      capped[i] := true;
      binding[i] := source;
    } else {
      amounts[i] := amounts[i] + give;
    }
  }

  /** One round: every active market gets its share of what remains, or its cap. */
  method FillRound(caps: seq<real>, sources: seq<Limit>, w: seq<real>, active: seq<nat>, sumW: real, remaining: real,
                   amounts: array<real>, capped: array<bool>, binding: array<Limit>, ghost level: real)
    returns (newlyCapped: bool)
    requires amounts.Length == capped.Length == binding.Length == |w| == |sources|
    requires Levelled(caps, w, amounts[..], capped[..], level) && Labelled(binding[..], capped[..], sources)
    requires forall i | 0 <= i < |w| :: caps[i] >= 0.0
    requires ActiveList(active, w, capped[..]) && Ascends(active) && sumW > 0.0 && remaining > 0.0
    modifies amounts, capped, binding
    ensures Levelled(caps, w, amounts[..], capped[..], level + Rise(remaining, sumW))
    ensures Given(w, old(amounts[..]), old(capped[..]), amounts[..], capped[..], Rise(remaining, sumW), |w|)
    ensures newlyCapped <==> CountTrue(capped[..], |w|) > CountTrue(old(capped[..]), |w|)
    ensures Labelled(binding[..], capped[..], sources)
  {
    hide *;
    newlyCapped := false;
    ghost var before, closed, share := amounts[..], capped[..], Rise(remaining, sumW);
    OfferIsRise(remaining, 0.0, sumW);
    RoundStarts(caps, sources, w, before, closed, binding[..], level, share, active);
    for j := 0 to |active|
      invariant SoFar(caps, sources, w, before, closed, amounts[..], capped[..], binding[..], level, share,
                      After(active, j))
      invariant CountTrue(capped[..], |w|) >= CountTrue(closed, |w|)
      invariant newlyCapped <==> CountTrue(capped[..], |w|) > CountTrue(closed, |w|)
    {
      Listed(active, w, closed, j);
      var i := active[j];
      var give := Offer(remaining, w[i], sumW);
      OfferIsRise(remaining, w[i], sumW);
      VisitStep(caps, sources, w, before, closed, amounts[..], capped[..], binding[..], level, share, active, j, give);
      var full := Serve(i, caps[i], sources[i], give, amounts, capped, binding);
      if full { newlyCapped := true; }
    }
    UnlistedBetween(active, w, closed, |active|);
    SkipTo(caps, sources, w, before, closed, amounts[..], capped[..], binding[..], level, share,
           After(active, |active|), |w|);
    RoundIsDone(caps, sources, w, before, closed, amounts[..], capped[..], binding[..], level, share);
  }

  lemma RoundStarts(caps: seq<real>, sources: seq<Limit>, w: seq<real>, before: seq<real>, closed: seq<bool>,
                    binding: seq<Limit>, level: real, share: real, active: seq<nat>)
    requires Levelled(caps, w, before, closed, level) && Labelled(binding, closed, sources)
    ensures SoFar(caps, sources, w, before, closed, before, closed, binding, level, share, After(active, 0))
    ensures |caps| == |w| == |before| == |closed| && level >= 0.0
  {
    GivenAtStart(w, before, closed, share);
    PartlyAtStart(caps, w, before, closed, level + share);
  }

  lemma VisitStep(caps: seq<real>, sources: seq<Limit>, w: seq<real>, before: seq<real>, closed: seq<bool>,
                  a: seq<real>, c: seq<bool>, b: seq<Limit>, level: real, share: real,
                  active: seq<nat>, j: nat, give: real)
    requires ActiveList(active, w, closed) && Ascends(active) && j < |active|
    requires SoFar(caps, sources, w, before, closed, a, c, b, level, share, After(active, j))
    requires share > 0.0 && Levelled(caps, w, before, closed, level) && forall i | 0 <= i < |w| :: caps[i] >= 0.0
    requires active[j] < |w| == |sources| == |a| == |b| == |c| && give == Water(share, w[active[j]])
    ensures var i := active[j];
            var full := give >= caps[i] - a[i] - CAP_TOLERANCE;
            && SoFar(caps, sources, w, before, closed, a[i := if full then caps[i] else a[i] + give],
                     if full then c[i := true] else c, if full then b[i := sources[i]] else b, level, share,
                     After(active, j + 1))
            && CountTrue(if full then c[i := true] else c, |w|) == CountTrue(c, |w|) + if full then 1 else 0
  {
    hide Water, ActiveList, Ascends, After, SoFar, CountTrue;
    var i := active[j];
    Listed(active, w, closed, j);
    UnlistedBetween(active, w, closed, j);
    SkipTo(caps, sources, w, before, closed, a, c, b, level, share, After(active, j), i);
    Untouched(caps, sources, w, before, closed, a, c, b, level, share, i);
    ServedStep(caps, sources, w, before, closed, a, c, b, level, share, i, give);
    CountOfUpdate(c, i, |w|);
    NextVisit(active, j);
  }

  lemma NextVisit(active: seq<nat>, j: nat)
    requires j < |active|
    ensures After(active, j + 1) == active[j] + 1
  {
  }

  /** Markets that are not visited are at the next level as they are. */
  lemma {:induction false} SkipTo(caps: seq<real>, sources: seq<Limit>, w: seq<real>, before: seq<real>,
                                  closed: seq<bool>, amounts: seq<real>, capped: seq<bool>, binding: seq<Limit>,
                                  level: real, share: real, k: nat, end: nat)
    requires SoFar(caps, sources, w, before, closed, amounts, capped, binding, level, share, k) && k <= end <= |w|
    requires share > 0.0 && Levelled(caps, w, before, closed, level)
    requires forall i | k <= i < end :: closed[i] || w[i] <= 0.0
    ensures SoFar(caps, sources, w, before, closed, amounts, capped, binding, level, share, end)
    decreases end - k
  {
    if k < end {
      SkippedStep(caps, sources, w, before, closed, amounts, capped, binding, level, share, k);
      SkipTo(caps, sources, w, before, closed, amounts, capped, binding, level, share, k + 1, end);
    }
  }

  lemma Untouched(caps: seq<real>, sources: seq<Limit>, w: seq<real>, before: seq<real>, closed: seq<bool>,
                  amounts: seq<real>, capped: seq<bool>, binding: seq<Limit>, level: real, share: real, k: nat)
    requires SoFar(caps, sources, w, before, closed, amounts, capped, binding, level, share, k) && k < |w|
    requires Levelled(caps, w, before, closed, level)
    ensures |amounts| == |capped| == |w| && amounts[k] == before[k] && capped[k] == closed[k]
    ensures AtLevel(caps[k], w[k], before[k], closed[k], level)
  {
  }

  lemma RoundIsDone(caps: seq<real>, sources: seq<Limit>, w: seq<real>, before: seq<real>, closed: seq<bool>,
                    amounts: seq<real>, capped: seq<bool>, binding: seq<Limit>, level: real, share: real)
    requires SoFar(caps, sources, w, before, closed, amounts, capped, binding, level, share, |w|)
    requires level + share >= 0.0
    ensures Levelled(caps, w, amounts, capped, level + share) && Given(w, before, closed, amounts, capped, share, |w|)
    ensures Labelled(binding, capped, sources)
  {
    PartlyAtEnd(caps, w, before, closed, amounts, capped, level + share);
  }

  lemma PartlyAtStart(caps: seq<real>, w: seq<real>, before: seq<real>, closed: seq<bool>, next: real)
    requires |caps| == |w| == |before| == |closed|
    ensures Partly(caps, w, before, closed, before, closed, next, 0)
  {
  }

  lemma PartlyAtEnd(caps: seq<real>, w: seq<real>, before: seq<real>, closed: seq<bool>,
                    amounts: seq<real>, capped: seq<bool>, level: real)
    requires Partly(caps, w, before, closed, amounts, capped, level, |w|) && level >= 0.0
    ensures Levelled(caps, w, amounts, capped, level)
  {
  }

  // ----- the loop -----

  /** Water-fills `budget`. At the end all markets are at one level, the budget is overspent by at most the
      tolerance for each capped market, and the loop has not stopped early: the budget is spent to the
      tolerance, or no market of positive weight is left open, or the open weight is negligible. */
  method Fill(caps: seq<real>, sources: seq<Limit>, w: seq<real>, budget: real, amounts: array<real>,
              binding: array<Limit>)
    returns (capped: array<bool>, ghost level: real)
    requires |caps| == |sources| == |w| == amounts.Length == binding.Length
    requires forall i | 0 <= i < |w| :: caps[i] >= 0.0
    requires forall i | 0 <= i < |w| :: amounts[i] == 0.0 && binding[i] == Unbound
    modifies amounts, binding
    ensures fresh(capped) && capped.Length == |w| && Levelled(caps, w, amounts[..], capped[..], level)
    ensures Sum(amounts[..], |w|) <= Max(budget, 0.0) + Slack(CountTrue(capped[..], |w|))
    ensures || Sum(amounts[..], |w|) >= budget - 0.000001
            || (forall i | 0 <= i < |w| && w[i] > 0.0 :: capped[i])
            || OpenWeight(w, capped[..], |w|) <= 0.000000000001
    ensures Labelled(binding[..], capped[..], sources)
  {
    var n := |w|;
    capped := new bool[n](_ => false);
    level := 0.0;
    var remaining := budget;
    SumOfZeros(amounts[..], n);
    SlackAdds(CountTrue(capped[..], n), 0);
    forall i | 0 <= i < n ensures Water(0.0, w[i]) == 0.0 {}
    hide Water, Slack, Rise, Offer;
    var iter := 0;
    while iter <= n
      invariant fresh(capped) && capped.Length == n
      invariant Levelled(caps, w, amounts[..], capped[..], level)
      invariant remaining == budget - Sum(amounts[..], n)
      invariant Sum(amounts[..], n) <= Max(budget, 0.0) + Slack(CountTrue(capped[..], n))
      invariant CountTrue(capped[..], n) >= iter
      invariant Labelled(binding[..], capped[..], sources)
      decreases n + 1 - iter
    {
      var active, sumW := ActiveMarkets(w, capped);
      if |active| == 0 {
        assert active == [];
        break;
      }
      if sumW <= WEIGHT_TOLERANCE || remaining <= BUDGET_TOLERANCE { break; }
      ghost var before, closed := amounts[..], capped[..];
      var newlyCapped := FillRound(caps, sources, w, active, sumW, remaining, amounts, capped, binding, level);
      OfferIsRise(remaining, 0.0, sumW);
      RoundSpends(CountTrue(closed, n), CountTrue(capped[..], n));
      level := level + Rise(remaining, sumW);
      var spent := Total(amounts);
      remaining := budget - spent;
      if !newlyCapped { break; }
      iter := iter + 1;
    }
  }

  lemma RoundSpends(c: nat, c': nat)
    requires c <= c'
    ensures 0.0 <= Slack(c' - c) <= Slack(c')
  {
    SlackAdds(c' - c, c);
    SlackAdds(c, 0);
  }

  method Total(a: array<real>) returns (sum: real)
    ensures sum == Sum(a[..], a.Length)
  {
    sum := 0.0;
    for i := 0 to a.Length
      invariant sum == Sum(a[..], i)
    {
      sum := sum + a[i];
    }
  }

  // ----- why one level is the right answer -----

  /** A way to spend within the caps. */
  ghost predicate Plan(caps: seq<real>, w: seq<real>, y: seq<real>) {
    && |y| == |caps| == |w|
    && forall i | 0 <= i < |y| :: 0.0 <= y[i] && (if w[i] <= 0.0 then y[i] == 0.0 else y[i] <= caps[i])
  }

  /** The amounts the loop leaves are max-min fair: a plan within the caps that spends no more and gives some market
      more takes it from a market that stands, to the tolerance, no higher per unit of weight than that market did. */
  lemma LevelledIsMaxMin(caps: seq<real>, w: seq<real>, amounts: seq<real>, capped: seq<bool>, level: real,
                         y: seq<real>, i: nat)
    requires Levelled(caps, w, amounts, capped, level) && Plan(caps, w, y) && forall k | 0 <= k < |w| :: caps[k] >= 0.0
    requires i < |w| && y[i] > amounts[i] && Sum(y, |w|) <= Sum(amounts, |w|)
    ensures amounts[i] == Water(level, w[i])
    ensures exists j :: 0 <= j < |w| && y[j] < amounts[j] <= Water(level, w[j]) + 0.000000001
  {
    hide Water;
    if forall j | 0 <= j < |w| :: y[j] >= amounts[j] {
      SumDominates(y, amounts, i, |w|);
      assert false;
    }
    var j :| 0 <= j < |w| && y[j] < amounts[j];
    assert AtLevel(caps[j], w[j], amounts[j], capped[j], level);
    assert AtLevel(caps[i], w[i], amounts[i], capped[i], level);
  }

  lemma {:induction false} SumDominates(y: seq<real>, f: seq<real>, i: nat, k: nat)
    requires |y| == |f| && i < |y| && k <= |y| && (forall j | 0 <= j < |y| :: y[j] >= f[j]) && y[i] > f[i]
    ensures Sum(y, k) >= Sum(f, k) && (i < k ==> Sum(y, k) > Sum(f, k))
  {
    if k > 0 { SumDominates(y, f, i, k - 1); }
  }
}
