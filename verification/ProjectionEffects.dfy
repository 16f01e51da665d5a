/** What the limit passes of the constraint projection do to each market, in terms of its event, its cluster and the
    sums the passes meet. */
module ProjectionEffects {
  import opened Reals
  import opened Wrappers
  import opened Text
  import opened WaterFill
  import opened GroupCaps
  import opened ConstraintProjection

  /** A sum is over its budget. */
  predicate Over(sum: real, budget: real) { sum > budget + 0.000000001 && sum > 0.0 }

  /** `x` is scaled by what brings the sum down to the budget, if the sum is over it. */
  ghost predicate Brought(x: real, y: real, sum: real, budget: real) {
    if Over(sum, budget) then Times(y, sum) == Times(x, budget) else y == x
  }

  /** Every market of an event over its budget is scaled with that event; all others stay. */
  ghost predicate EventPass(a: seq<real>, b: seq<real>, prepared: seq<Market>, budget: real) {
    && |a| == |b| == |prepared|
    && forall i | 0 <= i < |a| ::
         var key := KeyOf(prepared[i].eventId);
         if key == [] then b[i] == a[i] else Brought(a[i], b[i], EventSum(a, prepared, key, |a|), budget)
  }

  ghost predicate ClusterPass(a: seq<real>, b: seq<real>, prepared: seq<Market>, budget: real) {
    && |a| == |b| == |prepared|
    && forall i | 0 <= i < |a| ::
         var key := KeyOf(prepared[i].clusterId);
         if key == [] then b[i] == a[i] else Brought(a[i], b[i], ClusterSum(a, prepared, key, |a|), budget)
  }

  ghost predicate TotalPass(a: seq<real>, b: seq<real>, budget: real) {
    |a| == |b| && forall i | 0 <= i < |a| :: Brought(a[i], b[i], Sum(a, |a|), budget)
  }

  lemma ScaledIsBrought(x: real, sum: real, budget: real)
    ensures Brought(x, Times(x, Scale(sum, budget)), sum, budget)
  {
    if Over(sum, budget) { assert x * (budget / sum) * sum == x * budget; }
  }

  lemma EventPassIs(a: seq<real>, prepared: seq<Market>, budget: real)
    requires |a| == |prepared|
    ensures EventPass(a, ScaledByGroup(a, Events(prepared), budget), prepared, budget)
  {
    hide Times, Scale, Brought, EventSum, GroupSum, Trim;
    var b := ScaledByGroup(a, Events(prepared), budget);
    forall i | 0 <= i < |a|
      ensures var key := KeyOf(prepared[i].eventId);
              if key == [] then b[i] == a[i] else Brought(a[i], b[i], EventSum(a, prepared, key, |a|), budget)
    {
      var key := KeyOf(prepared[i].eventId);
      if key != [] {
        SumsAreGroupSums(a, prepared, key, |a|);
        ScaledIsBrought(a[i], EventSum(a, prepared, key, |a|), budget);
      }
    }
  }

  lemma ClusterPassIs(a: seq<real>, prepared: seq<Market>, budget: real)
    requires |a| == |prepared|
    ensures ClusterPass(a, ScaledByGroup(a, Clusters(prepared), budget), prepared, budget)
  {
    hide Times, Scale, Brought, ClusterSum, GroupSum, Trim;
    var b := ScaledByGroup(a, Clusters(prepared), budget);
    forall i | 0 <= i < |a|
      ensures var key := KeyOf(prepared[i].clusterId);
              if key == [] then b[i] == a[i] else Brought(a[i], b[i], ClusterSum(a, prepared, key, |a|), budget)
    {
      var key := KeyOf(prepared[i].clusterId);
      if key != [] {
        SumsAreGroupSums(a, prepared, key, |a|);
        ScaledIsBrought(a[i], ClusterSum(a, prepared, key, |a|), budget);
      }
    }
  }

  lemma TotalPassIs(a: seq<real>, budget: real)
    ensures TotalPass(a, ScaledInTotal(a, budget), budget)
  {
    hide Times, Scale, Brought, Sum;
    forall i | 0 <= i < |a| ensures Brought(a[i], ScaledInTotal(a, budget)[i], Sum(a, |a|), budget) {
      ScaledIsBrought(a[i], Sum(a, |a|), budget);
    }
  }

  /** The last pass that scaled a market, else what set its cap if it reached that. */
  ghost function LastLimit(fill: seq<real>, byEvent: seq<real>, byCluster: seq<real>, capped: seq<bool>,
                           sources: seq<Limit>, prepared: seq<Market>, nav: real, i: nat): Limit
    requires i < |fill| == |byEvent| == |byCluster| == |capped| == |sources| == |prepared|
  {
    var event, cluster := KeyOf(prepared[i].eventId), KeyOf(prepared[i].clusterId);
    if Over(Sum(byCluster, |fill|), nav * 0.80) then TotalExposure
    else if cluster != [] && Over(ClusterSum(byEvent, prepared, cluster, |fill|), nav * 0.25) then PerCluster
    else if event != [] && Over(EventSum(fill, prepared, event, |fill|), nav * 0.15) then PerEvent
    else if capped[i] then sources[i] else Unbound
  }

  /** The amounts are the fill after the events at 15 % of NAV, then the clusters at 25 %, then the whole book at 80 %,
      each pass on what the one before it left, and each market is reported as bound by the last limit that bound it. */
  lemma PassesAre(fill: seq<real>, capped: seq<bool>, sources: seq<Limit>, prepared: seq<Market>, nav: real)
    returns (byEvent: seq<real>, byCluster: seq<real>)
    requires |fill| == |capped| == |sources| == |prepared|
    ensures EventPass(fill, byEvent, prepared, nav * 0.15)
    ensures ClusterPass(byEvent, byCluster, prepared, nav * 0.25)
    ensures TotalPass(byCluster, Limited(fill, prepared, nav), nav * 0.80)
    ensures |byEvent| == |byCluster| == |fill|
    ensures forall i: nat | i < |fill| ::
              Reported(fill, capped, sources, prepared, nav)[i]
              == LastLimit(fill, byEvent, byCluster, capped, sources, prepared, nav, i)
  {
    byEvent := ScaledByGroup(fill, Events(prepared), nav * MAX_PER_EVENT);
    byCluster := ScaledByGroup(byEvent, Clusters(prepared), nav * MAX_PER_CLUSTER);
    EventPassIs(fill, prepared, nav * 0.15);
    ClusterPassIs(byEvent, prepared, nav * 0.25);
    TotalPassIs(byCluster, nav * 0.80);
    LimitedIs(fill, prepared, nav);
    hide ScaledByGroup, ScaledInTotal, EventPass, ClusterPass, TotalPass, Limited, Reported, LastLimit, Events,
         Clusters;
    forall i: nat | i < |fill|
      ensures Reported(fill, capped, sources, prepared, nav)[i]
           == LastLimit(fill, byEvent, byCluster, capped, sources, prepared, nav, i)
    {
      ReportIs(fill, byEvent, byCluster, capped, sources, prepared, nav, i);
    }
  }

  lemma ReportIs(fill: seq<real>, byEvent: seq<real>, byCluster: seq<real>, capped: seq<bool>, sources: seq<Limit>,
                 prepared: seq<Market>, nav: real, i: nat)
    requires i < |fill| == |capped| == |sources| == |prepared|
    requires byEvent == ScaledByGroup(fill, Events(prepared), nav * MAX_PER_EVENT)
    requires byCluster == ScaledByGroup(byEvent, Clusters(prepared), nav * MAX_PER_CLUSTER)
    ensures Reported(fill, capped, sources, prepared, nav)[i]
         == LastLimit(fill, byEvent, byCluster, capped, sources, prepared, nav, i)
  {
    var event, cluster := KeyOf(prepared[i].eventId), KeyOf(prepared[i].clusterId);
    ReportedAt(fill, byEvent, byCluster, capped, sources, prepared, nav, i);
    hide Reported, ScaledByGroup;
    if event != [] { SumsAreGroupSums(fill, prepared, event, |fill|); }
    if cluster != [] { SumsAreGroupSums(byEvent, prepared, cluster, |fill|); }
    KeyIsGroup(prepared[i].eventId);
    KeyIsGroup(prepared[i].clusterId);
    hide Sum, EventSum, ClusterSum, GroupSum, Events, Clusters, GroupOf, KeyOf;
  }

  lemma ReportedAt(fill: seq<real>, byEvent: seq<real>, byCluster: seq<real>, capped: seq<bool>, sources: seq<Limit>,
                   prepared: seq<Market>, nav: real, i: nat)
    requires i < |fill| == |capped| == |sources| == |prepared|
    requires byEvent == ScaledByGroup(fill, Events(prepared), nav * MAX_PER_EVENT)
    requires byCluster == ScaledByGroup(byEvent, Clusters(prepared), nav * MAX_PER_CLUSTER)
    ensures var event, cluster := GroupOf(prepared[i].eventId), GroupOf(prepared[i].clusterId);
            Reported(fill, capped, sources, prepared, nav)[i]
            == if IsOver(Sum(byCluster, |fill|), nav * MAX_EXPOSURE) then TotalExposure
               else if cluster.Some?
                       && IsOver(GroupSum(byEvent, Clusters(prepared), cluster.value, |fill|), nav * MAX_PER_CLUSTER)
                 then PerCluster
               else if event.Some? && IsOver(GroupSum(fill, Events(prepared), event.value, |fill|), nav * MAX_PER_EVENT)
                 then PerEvent
               else if capped[i] then sources[i] else Unbound
  {
    hide ScaledByGroup, IsOver, Sum, GroupSum, GroupOf;
  }

  lemma KeyIsGroup(raw: Option<JsString>)
    ensures GroupOf(raw) == if KeyOf(raw) == [] then None else Some(GroupKey(KeyOf(raw)))
  {
    hide Trim;
  }

  /** A pass leaves an event over its budget with exactly the budget, and any other as it was. */
  lemma EventEndsAtBudget(a: seq<real>, prepared: seq<Market>, budget: real, key: JsString)
    requires |a| == |prepared| && key != []
    ensures var sum := EventSum(a, prepared, key, |a|);
            EventSum(ScaledByGroup(a, Events(prepared), budget), prepared, key, |a|)
            == if Over(sum, budget) then budget else sum
  {
    var b := ScaledByGroup(a, Events(prepared), budget);
    SumsAreGroupSums(a, prepared, key, |a|);
    SumsAreGroupSums(b, prepared, key, |a|);
    GroupSumScales(a, Events(prepared), budget, GroupKey(key), |a|);
    hide GroupSum, EventSum, Events, ScaledByGroup, Scale, Times;
    SumIsBrought(EventSum(a, prepared, key, |a|), budget);
  }

  lemma SumIsBrought(sum: real, budget: real)
    ensures Times(sum, Scale(sum, budget)) == if Over(sum, budget) then budget else sum
  {
  }
}
