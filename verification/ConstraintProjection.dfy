/** From target weights to amounts: correlation-shrunk market caps, water-filling, then the event, cluster and
    total limits. Floats are reals; the engine's tolerances keep their values. */
module ConstraintProjection {
  import opened Wrappers
  import opened Reals
  import opened Text
  import opened WaterFill
  import opened CorrelationBurden
  import opened GroupCaps

  const MAX_EXPOSURE: real := 0.80
  const MAX_PER_MARKET: real := 0.08
  const MAX_PER_EVENT: real := 0.15
  const MAX_PER_CLUSTER: real := 0.25
  const MAX_BY_LIQUIDITY: real := 0.10
  const MAX_BY_DEPTH: real := 0.50
  const CORR_CAP_PENALTY: real := 0.70
  const CORR_CAP_FLOOR: real := 0.30
  const HAIRCUT_SHOWN: real := 0.999

  datatype Market = Market(eventId: Option<JsString>, clusterId: Option<JsString>, liquidity: real, depth: real)

  // ----- caps -----

  /** The cap of one market and the term that sets it. */
  function CapOf(m: Market, burden: real, nav: real): (real, Limit) {
    var haircut := Clamp(1.0 - CORR_CAP_PENALTY * burden, CORR_CAP_FLOOR, 1.0);
    var byMarket := Times(nav * MAX_PER_MARKET, haircut);
    var byLiquidity := m.liquidity * MAX_BY_LIQUIDITY;
    var byDepth := m.depth * MAX_BY_DEPTH;
    var cap := Min(byMarket, Min(byLiquidity, byDepth));
    (cap, if cap == byLiquidity then Liquidity
          else if cap == byDepth then Depth
          else if haircut < HAIRCUT_SHOWN then CorrGroup else PerMarket)
  }

  /** A cap never passes 8 % of NAV, the liquidity share or the depth share; correlation costs at most 70 %
      of the 8 %, and nothing at all without a burden. */
  lemma CapBounds(m: Market, burden: real, nav: real)
    requires nav > 0.0 && m.liquidity >= 0.0 && m.depth >= 0.0 && 0.0 <= burden <= 1.0
    ensures var cap := CapOf(m, burden, nav).0;
            && 0.0 <= cap <= nav * MAX_PER_MARKET
            && cap <= m.liquidity * MAX_BY_LIQUIDITY && cap <= m.depth * MAX_BY_DEPTH
            && cap >= Min(Times(nav * MAX_PER_MARKET, CORR_CAP_FLOOR),
                          Min(m.liquidity * MAX_BY_LIQUIDITY, m.depth * MAX_BY_DEPTH))
            && (burden == 0.0 ==>
                  cap == Min(nav * MAX_PER_MARKET, Min(m.liquidity * MAX_BY_LIQUIDITY, m.depth * MAX_BY_DEPTH)))
  {
    var haircut := Clamp(1.0 - CORR_CAP_PENALTY * burden, CORR_CAP_FLOOR, 1.0);
    var top := nav * MAX_PER_MARKET;
    PartOfTop(top, haircut);
    PartOfTop(top, 1.0);
    hide Times;
    MinBetween(Times(top, haircut), Times(top, CORR_CAP_FLOOR), top,
               m.liquidity * MAX_BY_LIQUIDITY, m.depth * MAX_BY_DEPTH);
  }

  /** The cap is the least of 8 % of NAV shrunk by 70 % of the burden, 10 % of the liquidity and half of the depth, and
      it is put down to the liquidity if that sets it, else to the depth, else to correlation if that costs more than a
      thousandth, else to the market. */
  lemma CapIs(m: Market, burden: real, nav: real)
    requires 0.0 <= burden <= 1.0
    ensures var top := Times(nav * 0.08, 1.0 - 0.70 * burden);
            var cap := Min(top, Min(m.liquidity * 0.10, m.depth * 0.50));
            && CapOf(m, burden, nav).0 == cap
            && CapOf(m, burden, nav).1
               == if cap == m.liquidity * 0.10 then Liquidity
                  else if cap == m.depth * 0.50 then Depth
                  else if 0.70 * burden > 0.001 then CorrGroup else PerMarket
  {
    hide Times;
  }

  /** A market that duplicates all its peers gets at most 2.4 % of NAV. */
  lemma DuplicateCap(m: Market, w: seq<real>, row: seq<real>, i: nat, nav: real)
    requires |row| == |w| && HasPeers(w, i) && forall j: nat | Peer(w, i, j) :: row[j] == 1.0
    ensures CapOf(m, Burden(w, row, i), nav).0 <= nav * 0.024
  {
    FullBurdenIff(w, row, i);
    CapIs(m, 1.0, nav);
  }

  lemma MinBetween(x: real, lo: real, hi: real, l: real, d: real)
    requires 0.0 <= lo <= x <= hi && l >= 0.0 && d >= 0.0
    ensures var m := Min(x, Min(l, d)); 0.0 <= m <= hi && m <= l && m <= d && Min(lo, Min(l, d)) <= m
  {
  }

  lemma PartOfTop(top: real, haircut: real)
    requires top > 0.0 && CORR_CAP_FLOOR <= haircut <= 1.0
    ensures 0.0 <= Times(top, CORR_CAP_FLOOR) <= Times(top, haircut) <= top && Times(top, 1.0) == top
  {
    assert top * (1.0 - haircut) == top - top * haircut;
    assert top * (haircut - CORR_CAP_FLOOR) == top * haircut - top * CORR_CAP_FLOOR;
  }

  // ----- the whole projection -----

  ghost predicate WellFormed(prepared: seq<Market>, w: seq<real>, corr: seq<seq<real>>) {
    && |w| == |prepared| == |corr|
    && (forall i | 0 <= i < |w| :: |corr[i]| == |w| && prepared[i].liquidity >= 0.0 && prepared[i].depth >= 0.0)
  }

  ghost function Caps(prepared: seq<Market>, w: seq<real>, nav: real, corr: seq<seq<real>>): (r: seq<real>)
    requires WellFormed(prepared, w, corr)
    ensures |r| == |w|
  {
    seq(|w|, i requires 0 <= i < |w| => CapOf(prepared[i], Burden(w, corr[i], i), nav).0)
  }

  ghost function Sources(prepared: seq<Market>, w: seq<real>, nav: real, corr: seq<seq<real>>): (r: seq<Limit>)
    requires WellFormed(prepared, w, corr)
    ensures |r| == |w|
  {
    seq(|w|, i requires 0 <= i < |w| => CapOf(prepared[i], Burden(w, corr[i], i), nav).1)
  }

  function Events(prepared: seq<Market>): (r: seq<Option<GroupKey>>)
    ensures |r| == |prepared|
  {
    seq(|prepared|, i requires 0 <= i < |prepared| => GroupOf(prepared[i].eventId))
  }

  function Clusters(prepared: seq<Market>): (r: seq<Option<GroupKey>>)
    ensures |r| == |prepared|
  {
    seq(|prepared|, i requires 0 <= i < |prepared| => GroupOf(prepared[i].clusterId))
  }

  /** The three limit passes after the fill. */
  ghost function Limited(fill: seq<real>, prepared: seq<Market>, nav: real): (r: seq<real>)
    requires |fill| == |prepared|
    ensures |r| == |fill|
  {
    var byEvent := ScaledByGroup(fill, Events(prepared), nav * MAX_PER_EVENT);
    var byCluster := ScaledByGroup(byEvent, Clusters(prepared), nav * MAX_PER_CLUSTER);
    ScaledInTotal(byCluster, nav * MAX_EXPOSURE)
  }

  /** What each market is reported as bound by: the last pass that scaled it, else its cap, else nothing. */
  ghost function Reported(fill: seq<real>, capped: seq<bool>, sources: seq<Limit>, prepared: seq<Market>,
                          nav: real): (r: seq<Limit>)
    requires |fill| == |capped| == |sources| == |prepared|
    ensures |r| == |fill|
  {
    var byCap := seq(|fill|, i requires 0 <= i < |fill| => if capped[i] then sources[i] else Unbound);
    var byEvent := ScaledByGroup(fill, Events(prepared), nav * MAX_PER_EVENT);
    var byCluster := ScaledByGroup(byEvent, Clusters(prepared), nav * MAX_PER_CLUSTER);
    if IsOver(Sum(byCluster, |fill|), nav * MAX_EXPOSURE) then seq(|fill|, _ => TotalExposure)
    else LabelledByGroup(byEvent, Clusters(prepared), nav * MAX_PER_CLUSTER,
                         LabelledByGroup(fill, Events(prepared), nav * MAX_PER_EVENT, byCap, PerEvent), PerCluster)
  }

  /** The trimmed key a market goes by in a pass; the empty one stands for none. */
  function KeyOf(raw: Option<JsString>): JsString { if raw.Some? then Trim(raw.value) else [] }

  /** What the first `k` markets hold of one event. */
  ghost function EventSum(a: seq<real>, prepared: seq<Market>, key: JsString, k: nat): real
    requires |a| == |prepared| && k <= |a|
  {
    if k == 0 then 0.0
    else EventSum(a, prepared, key, k - 1) + if KeyOf(prepared[k - 1].eventId) == key then a[k - 1] else 0.0
  }

  /** What the first `k` markets hold of one cluster. */
  ghost function ClusterSum(a: seq<real>, prepared: seq<Market>, key: JsString, k: nat): real
    requires |a| == |prepared| && k <= |a|
  {
    if k == 0 then 0.0
    else ClusterSum(a, prepared, key, k - 1) + if KeyOf(prepared[k - 1].clusterId) == key then a[k - 1] else 0.0
  }

  lemma {:induction false} SumsAreGroupSums(a: seq<real>, prepared: seq<Market>, key: JsString, k: nat)
    requires |a| == |prepared| && k <= |a| && key != []
    ensures EventSum(a, prepared, key, k) == GroupSum(a, Events(prepared), GroupKey(key), k)
    ensures ClusterSum(a, prepared, key, k) == GroupSum(a, Clusters(prepared), GroupKey(key), k)
  {
    hide Trim;
    if k > 0 { SumsAreGroupSums(a, prepared, key, k - 1); }
  }

  /** All limits at once: no market above its cap and 8 % of NAV, no event above 15 %, no cluster above 25 %, not all of
      them above 80 %; nothing for a market without a weight. */
  ghost predicate WithinLimits(a: seq<real>, caps: seq<real>, prepared: seq<Market>, w: seq<real>, nav: real) {
    && |a| == |caps| == |prepared| == |w|
    && (forall i | 0 <= i < |a| ::
          0.0 <= a[i] <= caps[i] && a[i] <= nav * 0.08 && (w[i] <= 0.0 ==> a[i] == 0.0))
    && (forall key: JsString | key != [] :: EventSum(a, prepared, key, |a|) <= nav * 0.15 + 0.000000001)
    && (forall key: JsString | key != [] :: ClusterSum(a, prepared, key, |a|) <= nav * 0.25 + 0.000000001)
    && Sum(a, |a|) <= nav * 0.80 + 0.000000001
  }

  lemma ShrinksTransitive(a: seq<real>, b: seq<real>, c: seq<real>)
    requires Shrinks(a, b) && Shrinks(b, c)
    ensures Shrinks(a, c) && NonNegative(b) && NonNegative(c)
  {
  }

  /** No later pass breaks an earlier limit, however events and clusters overlap. */
  lemma PassesKeepLimits(fill: seq<real>, caps: seq<real>, prepared: seq<Market>, w: seq<real>, nav: real)
    requires |fill| == |caps| == |prepared| == |w| && nav > 0.0
    requires forall i | 0 <= i < |fill| ::
               0.0 <= fill[i] <= caps[i] <= nav * MAX_PER_MARKET && (w[i] <= 0.0 ==> fill[i] == 0.0)
    ensures WithinLimits(Limited(fill, prepared, nav), caps, prepared, w, nav)
    ensures Shrinks(fill, Limited(fill, prepared, nav))
  {
    hide ScaledByGroup, ScaledInTotal, GroupSum, Sum, Events, Clusters, EventSum, ClusterSum;
    var events, clusters := Events(prepared), Clusters(prepared);
    var e := ScaledByGroup(fill, events, nav * MAX_PER_EVENT);
    var c := ScaledByGroup(e, clusters, nav * MAX_PER_CLUSTER);
    var t := ScaledInTotal(c, nav * MAX_EXPOSURE);
    GroupPassShrinks(fill, events, nav * MAX_PER_EVENT);
    GroupPassShrinks(e, clusters, nav * MAX_PER_CLUSTER);
    TotalPassLimits(c, nav * MAX_EXPOSURE);
    ShrinksTransitive(e, c, t);
    ShrinksTransitive(fill, e, t);
    forall key: JsString | key != [] ensures EventSum(t, prepared, key, |t|) <= nav * MAX_PER_EVENT + LIMIT_TOLERANCE {
      GroupPassLimits(fill, events, nav * MAX_PER_EVENT, GroupKey(key));
      GroupSumShrinks(e, t, events, GroupKey(key), |t|);
      SumsAreGroupSums(t, prepared, key, |t|);
    }
    forall key: JsString | key != []
      ensures ClusterSum(t, prepared, key, |t|) <= nav * MAX_PER_CLUSTER + LIMIT_TOLERANCE
    {
      GroupPassLimits(e, clusters, nav * MAX_PER_CLUSTER, GroupKey(key));
      GroupSumShrinks(c, t, clusters, GroupKey(key), |t|);
      SumsAreGroupSums(t, prepared, key, |t|);
    }
  }

  /** The fill that the projection starts from: one water level, and the loop not stopped early. */
  ghost predicate IsFill(caps: seq<real>, w: seq<real>, budget: real, fill: seq<real>, capped: seq<bool>, level: real) {
    && Levelled(caps, w, fill, capped, level)
    && Sum(fill, |w|) <= Max(budget, 0.0) + CountTrue(capped, |w|) as real * 0.000000001
    && (|| Sum(fill, |w|) >= budget - 0.000001
        || (forall i | 0 <= i < |w| && w[i] > 0.0 :: capped[i])
        || OpenWeight(w, capped, |w|) <= 0.000000000001)
  }

  method MarketCaps(prepared: seq<Market>, w: seq<real>, nav: real, corr: seq<seq<real>>)
    returns (caps: seq<real>, sources: seq<Limit>)
    requires WellFormed(prepared, w, corr) && nav > 0.0
    ensures caps == Caps(prepared, w, nav, corr) && sources == Sources(prepared, w, nav, corr)
    ensures forall i | 0 <= i < |w| :: 0.0 <= caps[i] <= nav * MAX_PER_MARKET
  {
    caps, sources := [], [];
    for i := 0 to |w|
      invariant |caps| == |sources| == i
      invariant forall j | 0 <= j < i :: (caps[j], sources[j]) == CapOf(prepared[j], Burden(w, corr[j], j), nav)
      invariant forall j | 0 <= j < i :: 0.0 <= caps[j] <= nav * MAX_PER_MARKET
    {
      var burden := CorrBurden(w, corr[i], i);
      CapBounds(prepared[i], burden, nav);
      var (cap, source) := CapOf(prepared[i], burden, nav);
      caps, sources := caps + [cap], sources + [source];
    }
  }

  /** The projected amounts respect every limit at once, and are exactly the limit passes applied to a fill at
      one water level under the markets' caps. */
  method ProjectConstraints(prepared: seq<Market>, w: seq<real>, nav: real, gross: real, corr: seq<seq<real>>)
    returns (amounts: array<real>, binding: array<Limit>,
             ghost fill: seq<real>, ghost capped: seq<bool>, ghost level: real)
    requires WellFormed(prepared, w, corr) && nav > 0.0
    ensures fresh(amounts) && fresh(binding) && amounts.Length == binding.Length == |prepared|
    ensures IsFill(Caps(prepared, w, nav, corr), w, nav * gross, fill, capped, level)
    ensures amounts[..] == Limited(fill, prepared, nav) && Shrinks(fill, amounts[..])
    ensures binding[..] == Reported(fill, capped, Sources(prepared, w, nav, corr), prepared, nav)
    ensures WithinLimits(amounts[..], Caps(prepared, w, nav, corr), prepared, w, nav)
    ensures forall i: nat | i < |w| && HasPeers(w, i) && (forall j: nat | Peer(w, i, j) :: corr[i][j] == 1.0) ::
              amounts[i] <= nav * 0.024
  {
    hide CapOf, Burden, HasPeers, Peer, WithinLimits, Limited, Reported, Levelled, Labelled, Slack, OpenWeight,
         CountTrue, GroupSum, Sum, IsOver, Events, Clusters, Caps, Sources, Shrinks, ScaledByGroup, ScaledInTotal,
         LabelledByGroup;
    var n := |prepared|;
    amounts := new real[n](_ => 0.0);
    binding := new Limit[n](_ => Unbound);
    var caps, sources := MarketCaps(prepared, w, nav, corr);
    var full;
    full, level := Fill(caps, sources, w, nav * gross, amounts, binding);
    fill, capped := amounts[..], full[..];
    SlackIs(CountTrue(capped, |w|));
    ghost var tags := binding[..];
    FillIsWithinCaps(caps, w, fill, capped, level, nav);
    ApplyGroup(Events(prepared), nav * MAX_PER_EVENT, PerEvent, amounts, binding);
    ApplyGroup(Clusters(prepared), nav * MAX_PER_CLUSTER, PerCluster, amounts, binding);
    ApplyTotal(nav * MAX_EXPOSURE, amounts, binding);
    LimitedIs(fill, prepared, nav);
    ReportedIs(fill, capped, sources, tags, prepared, nav);
    PassesKeepLimits(fill, caps, prepared, w, nav);
    DuplicatesAreHeldBack(amounts[..], prepared, w, nav, corr);
  }

  lemma DuplicatesAreHeldBack(a: seq<real>, prepared: seq<Market>, w: seq<real>, nav: real, corr: seq<seq<real>>)
    requires WellFormed(prepared, w, corr) && WithinLimits(a, Caps(prepared, w, nav, corr), prepared, w, nav)
    ensures forall i: nat | i < |w| && HasPeers(w, i) && (forall j: nat | Peer(w, i, j) :: corr[i][j] == 1.0) ::
              a[i] <= nav * 0.024
  {
    hide CapOf, Burden, HasPeers, EventSum, ClusterSum, Sum;
    forall i: nat | i < |w| && HasPeers(w, i) && (forall j: nat | Peer(w, i, j) :: corr[i][j] == 1.0)
      ensures a[i] <= nav * 0.024
    {
      DuplicateCap(prepared[i], w, corr[i], i, nav);
      assert a[i] <= Caps(prepared, w, nav, corr)[i];
    }
  }

  lemma SlackIs(markets: nat)
    ensures Slack(markets) == markets as real * 0.000000001
  {
  }

  lemma LimitedIs(fill: seq<real>, prepared: seq<Market>, nav: real)
    requires |fill| == |prepared|
    ensures Limited(fill, prepared, nav) ==
            ScaledInTotal(ScaledByGroup(ScaledByGroup(fill, Events(prepared), nav * MAX_PER_EVENT),
                                        Clusters(prepared), nav * MAX_PER_CLUSTER), nav * MAX_EXPOSURE)
  {
  }

  lemma ReportedIs(fill: seq<real>, capped: seq<bool>, sources: seq<Limit>, tags: seq<Limit>, prepared: seq<Market>,
                   nav: real)
    requires |fill| == |capped| == |sources| == |prepared| && Labelled(tags, capped, sources)
    ensures var byEvent := ScaledByGroup(fill, Events(prepared), nav * MAX_PER_EVENT);
            var byCluster := ScaledByGroup(byEvent, Clusters(prepared), nav * MAX_PER_CLUSTER);
            Reported(fill, capped, sources, prepared, nav) ==
            if IsOver(Sum(byCluster, |fill|), nav * MAX_EXPOSURE) then seq(|fill|, _ => TotalExposure)
            else LabelledByGroup(byEvent, Clusters(prepared), nav * MAX_PER_CLUSTER,
                                 LabelledByGroup(fill, Events(prepared), nav * MAX_PER_EVENT, tags, PerEvent),
                                 PerCluster)
  {
    hide ScaledByGroup, LabelledByGroup, IsOver;
    assert tags == seq(|fill|, i requires 0 <= i < |fill| => if capped[i] then sources[i] else Unbound);
  }

  lemma FillIsWithinCaps(caps: seq<real>, w: seq<real>, fill: seq<real>, capped: seq<bool>, level: real, nav: real)
    requires Levelled(caps, w, fill, capped, level)
    requires forall i | 0 <= i < |caps| :: 0.0 <= caps[i] <= nav * MAX_PER_MARKET
    ensures |fill| == |w| && forall i | 0 <= i < |w| :: 0.0 <= fill[i] <= caps[i] && (w[i] <= 0.0 ==> fill[i] == 0.0)
  {
    forall i | 0 <= i < |w| ensures 0.0 <= fill[i] <= caps[i] && (w[i] <= 0.0 ==> fill[i] == 0.0) {
      ClosedForm(caps, w, fill, capped, level, i);
    }
  }
}
