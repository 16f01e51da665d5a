/** The limit passes after water-filling: groups of markets, then the whole book, are scaled down to their budgets. */
module GroupCaps {
  import opened Wrappers
  import opened Reals
  import opened Text
  import opened WaterFill

  const LIMIT_TOLERANCE: real := 0.000000001

  /** A trimmed key. */
  datatype GroupKey = GroupKey(text: JsString)

  /** The group a raw key names: `key?.trim()`, and no group when that is missing or empty. */
  function GroupOf(raw: Option<JsString>): Option<GroupKey> {
    match raw
    case None => None
    case Some(key) => if Trim(key) == [] then None else Some(GroupKey(Trim(key)))
  }

  // ----- the specification of one pass -----

  /** What the markets of a group hold, among the first `k`. */
  ghost function GroupSum(a: seq<real>, groups: seq<Option<GroupKey>>, g: GroupKey, k: nat): real
    requires |a| == |groups| && k <= |a|
  {
    if k == 0 then 0.0
    else GroupSum(a, groups, g, k - 1) + (if groups[k - 1] == Some(g) then a[k - 1] else 0.0)
  }

  function IsOver(sum: real, budget: real): bool { sum > budget + LIMIT_TOLERANCE && sum > 0.0 }

  /** The factor that brings a sum down to its budget. */
  function Scale(sum: real, budget: real): real { if IsOver(sum, budget) then budget / sum else 1.0 }

  /** A group pass: every member of an over-full group is scaled by its group's factor. */
  ghost function ScaledByGroup(a: seq<real>, groups: seq<Option<GroupKey>>, budget: real): (r: seq<real>)
    requires |a| == |groups|
    ensures |r| == |a|
  {
    seq(|a|, i requires 0 <= i < |a| =>
      if groups[i].Some? then Times(a[i], Scale(GroupSum(a, groups, groups[i].value, |a|), budget)) else a[i])
  }

  /** The label a group pass leaves: its own on every market it scaled. */
  ghost function LabelledByGroup(a: seq<real>, groups: seq<Option<GroupKey>>, budget: real, b: seq<Limit>,
                                 tag: Limit): (r: seq<Limit>)
    requires |a| == |groups| == |b|
    ensures |r| == |b|
  {
    seq(|b|, i requires 0 <= i < |b| =>
      if groups[i].Some? && IsOver(GroupSum(a, groups, groups[i].value, |a|), budget) then tag else b[i])
  }

  ghost function ScaledInTotal(a: seq<real>, budget: real): (r: seq<real>)
    ensures |r| == |a|
  {
    seq(|a|, i requires 0 <= i < |a| => Times(a[i], Scale(Sum(a, |a|), budget)))
  }

  // ----- what the passes guarantee -----

  ghost predicate Shrinks(a: seq<real>, a': seq<real>) {
    |a| == |a'| && forall i | 0 <= i < |a| :: 0.0 <= a'[i] <= a[i]
  }

  ghost predicate NonNegative(a: seq<real>) { forall i | 0 <= i < |a| :: a[i] >= 0.0 }

  lemma ScaleIsFraction(sum: real, budget: real)
    requires budget >= 0.0
    ensures 0.0 <= Scale(sum, budget) <= 1.0
    ensures Times(sum, Scale(sum, budget)) <= budget + LIMIT_TOLERANCE
  {
  }

  lemma FractionShrinks(x: real, f: real)
    requires x >= 0.0 && 0.0 <= f <= 1.0
    ensures 0.0 <= Times(x, f) <= x
  {
  }

  lemma GroupPassShrinks(a: seq<real>, groups: seq<Option<GroupKey>>, budget: real)
    requires |a| == |groups| && NonNegative(a) && budget >= 0.0
    ensures Shrinks(a, ScaledByGroup(a, groups, budget))
  {
    hide Times, Scale;
    var b := ScaledByGroup(a, groups, budget);
    forall i | 0 <= i < |a| ensures 0.0 <= b[i] <= a[i] {
      if groups[i].Some? {
        var sum := GroupSum(a, groups, groups[i].value, |a|);
        ScaleIsFraction(sum, budget);
        FractionShrinks(a[i], Scale(sum, budget));
      }
    }
  }

  lemma {:induction false} GroupSumShrinks(a: seq<real>, a': seq<real>, groups: seq<Option<GroupKey>>, g: GroupKey,
                                           k: nat)
    requires Shrinks(a, a') && |a| == |groups| && k <= |a|
    ensures 0.0 <= GroupSum(a', groups, g, k) <= GroupSum(a, groups, g, k)
  {
    if k > 0 { GroupSumShrinks(a, a', groups, g, k - 1); }
  }

  lemma {:induction false} GroupSumScales(a: seq<real>, groups: seq<Option<GroupKey>>, budget: real, g: GroupKey,
                                          k: nat)
    requires |a| == |groups| && k <= |a|
    ensures GroupSum(ScaledByGroup(a, groups, budget), groups, g, k)
            == Times(GroupSum(a, groups, g, k), Scale(GroupSum(a, groups, g, |a|), budget))
  {
    if k > 0 {
      GroupSumScales(a, groups, budget, g, k - 1);
      hide Scale, Times;
      var f := Scale(GroupSum(a, groups, g, |a|), budget);
      Distribute(GroupSum(a, groups, g, k - 1), a[k - 1], f);
    }
  }

  lemma Distribute(x: real, y: real, f: real)
    ensures Times(x + y, f) == Times(x, f) + Times(y, f)
  {
  }

  /** After a group pass every group of that pass is within its budget. */
  lemma GroupPassLimits(a: seq<real>, groups: seq<Option<GroupKey>>, budget: real, g: GroupKey)
    requires |a| == |groups| && budget >= 0.0
    ensures GroupSum(ScaledByGroup(a, groups, budget), groups, g, |a|) <= budget + LIMIT_TOLERANCE
  {
    GroupSumScales(a, groups, budget, g, |a|);
    hide Times, Scale;
    ScaleIsFraction(GroupSum(a, groups, g, |a|), budget);
  }

  lemma {:induction false} SumScales(a: seq<real>, b: seq<real>, f: real, k: nat)
    requires |a| == |b| && k <= |a| && forall i | 0 <= i < |a| :: b[i] == Times(a[i], f)
    ensures Sum(b, k) == Times(Sum(a, k), f)
  {
    if k > 0 {
      SumScales(a, b, f, k - 1);
      hide Times;
      Distribute(Sum(a, k - 1), a[k - 1], f);
    }
  }

  lemma TotalPassLimits(a: seq<real>, budget: real)
    requires NonNegative(a) && budget >= 0.0
    ensures Shrinks(a, ScaledInTotal(a, budget))
    ensures Sum(ScaledInTotal(a, budget), |a|) <= budget + LIMIT_TOLERANCE
  {
    hide Times, Scale;
    var f := Scale(Sum(a, |a|), budget);
    SumScales(a, ScaledInTotal(a, budget), f, |a|);
    ScaleIsFraction(Sum(a, |a|), budget);
    forall i | 0 <= i < |a| ensures 0.0 <= Times(a[i], f) <= a[i] { FractionShrinks(a[i], f); }
  }

  // ----- the group pass as the loops compute it -----

  /** The members of a group among the first `k` markets, in order. */
  ghost function Members(groups: seq<Option<GroupKey>>, g: GroupKey, k: nat): seq<nat>
    requires k <= |groups|
  {
    if k == 0 then []
    else Members(groups, g, k - 1) + (if groups[k - 1] == Some(g) then [k - 1] else [])
  }

  lemma {:induction false} MembersAre(groups: seq<Option<GroupKey>>, g: GroupKey, k: nat)
    requires k <= |groups|
    ensures forall i: nat :: i in Members(groups, g, k) <==> i < k && groups[i] == Some(g)
    ensures forall j, l | 0 <= j < l < |Members(groups, g, k)| :: Members(groups, g, k)[j] < Members(groups, g, k)[l]
  {
    if k > 0 {
      MembersAre(groups, g, k - 1);
      var m := Members(groups, g, k - 1);
      forall j | 0 <= j < |m| ensures m[j] < k - 1 { assert m[j] in m; }
    }
  }

  ghost predicate Within(idxs: seq<nat>, n: nat) { forall j | 0 <= j < |idxs| :: idxs[j] < n }

  ghost function SumAt(a: seq<real>, idxs: seq<nat>, k: nat): real
    requires k <= |idxs| && Within(idxs, |a|)
  {
    if k == 0 then 0.0 else SumAt(a, idxs, k - 1) + a[idxs[k - 1]]
  }

  lemma {:induction false} SumAtPrefix(a: seq<real>, idxs: seq<nat>, more: seq<nat>, k: nat)
    requires k <= |idxs| && Within(idxs, |a|) && Within(idxs + more, |a|)
    ensures SumAt(a, idxs + more, k) == SumAt(a, idxs, k)
  {
    if k > 0 { SumAtPrefix(a, idxs, more, k - 1); }
  }

  lemma {:induction false} SumOfMembers(a: seq<real>, groups: seq<Option<GroupKey>>, g: GroupKey, k: nat)
    requires |a| == |groups| && k <= |a|
    ensures Within(Members(groups, g, k), k)
    ensures SumAt(a, Members(groups, g, k), |Members(groups, g, k)|) == GroupSum(a, groups, g, k)
  {
    if k > 0 {
      SumOfMembers(a, groups, g, k - 1);
      var m := Members(groups, g, k - 1);
      if groups[k - 1] == Some(g) {
        var m' := m + [k - 1];
        assert m' == Members(groups, g, k) && Within(m', k);
        SumAtPrefix(a, m, [k - 1], |m|);
        assert SumAt(a, m', |m'|) == SumAt(a, m', |m|) + a[m'[|m|]];
      } else {
        assert Members(groups, g, k) == m;
      }
    }
  }

  lemma {:induction false} SumAtAgrees(a: seq<real>, a': seq<real>, idxs: seq<nat>, k: nat)
    requires |a| == |a'| && k <= |idxs| && Within(idxs, |a|) && forall j | 0 <= j < |idxs| :: a[idxs[j]] == a'[idxs[j]]
    ensures SumAt(a, idxs, k) == SumAt(a', idxs, k)
  {
    if k > 0 { SumAtAgrees(a, a', idxs, k - 1); }
  }

  /** The map and the order hold exactly the groups of the first `k` markets. */
  ghost predicate Collected(groups: seq<Option<GroupKey>>, members: map<GroupKey, seq<nat>>, order: seq<GroupKey>,
                            k: nat)
    requires k <= |groups|
  {
    Gathers(groups, members, k) && Lists(order, members.Keys)
  }

  ghost predicate Gathers(groups: seq<Option<GroupKey>>, members: map<GroupKey, seq<nat>>, k: nat)
    requires k <= |groups|
  {
    && (forall i | 0 <= i < k && groups[i].Some? :: groups[i].value in members)
    && (forall g: GroupKey | g in members :: members[g] == Members(groups, g, k))
  }

  lemma GatherStep(groups: seq<Option<GroupKey>>, members: map<GroupKey, seq<nat>>, k: nat, g: GroupKey, v: seq<nat>)
    requires k < |groups| && Gathers(groups, members, k) && groups[k] == Some(g) && v == Members(groups, g, k + 1)
    ensures Gathers(groups, members[g := v], k + 1)
  {
    hide Members;
    var more := members[g := v];
    forall h: GroupKey | h in more ensures more[h] == Members(groups, h, k + 1) {
      if h != g { MembersStep(groups, h, k); }
    }
  }

  /** The list holds each element of the set once. */
  ghost predicate Lists(order: seq<GroupKey>, keys: set<GroupKey>) {
    && (forall g: GroupKey | g in keys :: g in order)
    && (forall j | 0 <= j < |order| :: order[j] in keys)
    && (forall i, j | 0 <= i < j < |order| :: order[i] != order[j])
  }

  lemma ListsMore(order: seq<GroupKey>, keys: set<GroupKey>, g: GroupKey)
    requires Lists(order, keys)
    ensures Lists(if g in keys then order else order + [g], keys + {g})
  {
    if g in keys {
      assert keys + {g} == keys;
    } else {
      var more := order + [g];
      assert more[|order|] == g;
      forall h: GroupKey | h in keys ensures h in more { assert h in order; }
    }
  }

  lemma {:induction false} NoMembers(groups: seq<Option<GroupKey>>, g: GroupKey, k: nat)
    requires k <= |groups| && forall i | 0 <= i < k :: groups[i] != Some(g)
    ensures Members(groups, g, k) == []
  {
    if k > 0 { NoMembers(groups, g, k - 1); }
  }

  lemma CollectStep(groups: seq<Option<GroupKey>>, members: map<GroupKey, seq<nat>>, order: seq<GroupKey>, k: nat,
                    members': map<GroupKey, seq<nat>>, order': seq<GroupKey>)
    requires k < |groups| && Collected(groups, members, order, k) && groups[k].Some?
    requires order' == if groups[k].value in members then order else order + [groups[k].value]
    requires members' == members[groups[k].value :=
               (if groups[k].value in members then members[groups[k].value] else []) + [k]]
    ensures Collected(groups, members', order', k + 1)
  {
    var g := groups[k].value;
    var v := (if g in members then members[g] else []) + [k];
    MembersGrow(groups, members, k, g, v);
    hide Members, Lists, Gathers;
    GatherStep(groups, members, k, g, v);
    ListsMore(order, members.Keys, g);
    assert members'.Keys == members.Keys + {g};
  }

  lemma MembersGrow(groups: seq<Option<GroupKey>>, members: map<GroupKey, seq<nat>>, k: nat, g: GroupKey, v: seq<nat>)
    requires k < |groups| && Gathers(groups, members, k) && groups[k] == Some(g)
    requires v == (if g in members then members[g] else []) + [k]
    ensures v == Members(groups, g, k + 1)
  {
    hide Members;
    if g !in members { NoMembers(groups, g, k); }
    MembersStep(groups, g, k);
  }

  lemma MembersStep(groups: seq<Option<GroupKey>>, g: GroupKey, k: nat)
    requires k < |groups|
    ensures Members(groups, g, k + 1)
         == if groups[k] == Some(g) then Members(groups, g, k) + [k] else Members(groups, g, k)
  {
    assert Members(groups, g, k) + [] == Members(groups, g, k);
  }

  lemma NothingCollected(groups: seq<Option<GroupKey>>)
    ensures Collected(groups, map[], [], 0)
  {
  }

  /** Collects the markets of every group, and the groups in order of first appearance. */
  method Collect(groups: seq<Option<GroupKey>>) returns (members: map<GroupKey, seq<nat>>, order: seq<GroupKey>)
    ensures Collected(groups, members, order, |groups|)
  {
    members, order := map[], [];
    NothingCollected(groups);
    hide Collected;
    for i := 0 to |groups|
      invariant Collected(groups, members, order, i)
    {
      if groups[i].Some? {
        var g := groups[i].value;
        ghost var m, o := members, order;
        if g !in members { order := order + [g]; }
        members := members[g := (if g in members then members[g] else []) + [i]];
        CollectStep(groups, m, o, i, members, order);
      } else {
        CollectNothing(groups, members, order, i);
      }
    }
  }

  lemma CollectNothing(groups: seq<Option<GroupKey>>, members: map<GroupKey, seq<nat>>, order: seq<GroupKey>, k: nat)
    requires k < |groups| && Collected(groups, members, order, k) && groups[k].None?
    ensures Collected(groups, members, order, k + 1)
  {
    forall h: GroupKey | h in members ensures members[h] == Members(groups, h, k + 1) {
      assert Members(groups, h, k) + [] == Members(groups, h, k);
    }
  }

  method SumGroup(a: array<real>, idxs: seq<nat>) returns (sum: real)
    requires Within(idxs, a.Length)
    ensures sum == SumAt(a[..], idxs, |idxs|)
  {
    sum := 0.0;
    for j := 0 to |idxs|
      invariant sum == SumAt(a[..], idxs, j)
    {
      sum := sum + a[idxs[j]];
    }
  }

  /** Multiplies the amounts at the given places, and labels them. */
  method ScaleGroup(a: array<real>, binding: array<Limit>, idxs: seq<nat>, f: real, tag: Limit)
    requires a.Length == binding.Length && Within(idxs, a.Length)
    requires forall j, k | 0 <= j < k < |idxs| :: idxs[j] < idxs[k]
    modifies a, binding
    ensures forall i: nat | i < a.Length :: a[i] == if i in idxs then Times(old(a[i]), f) else old(a[i])
    ensures forall i: nat | i < a.Length :: binding[i] == if i in idxs then tag else old(binding[i])
  {
    hide Times;
    for j := 0 to |idxs|
      invariant forall i: nat | i < a.Length :: a[i] == if i in idxs[..j] then Times(old(a[i]), f) else old(a[i])
      invariant forall i: nat | i < a.Length :: binding[i] == if i in idxs[..j] then tag else old(binding[i])
    {
      assert idxs[j] !in idxs[..j];
      assert idxs[..j + 1] == idxs[..j] + [idxs[j]];
      a[idxs[j]] := Times(a[idxs[j]], f);
      binding[idxs[j]] := tag;
    }
    assert idxs[..|idxs|] == idxs;
  }

  /** Groups in `done` are scaled and labelled, the others are as they were. */
  ghost predicate PassedOver(groups: seq<Option<GroupKey>>, done: seq<GroupKey>, a: seq<real>, a': seq<real>,
                             now: seq<real>) {
    && |a| == |a'| == |now| == |groups|
    && forall i | 0 <= i < |groups| :: now[i] == if InGroups(groups[i], done) then a'[i] else a[i]
  }

  ghost predicate TaggedOver(groups: seq<Option<GroupKey>>, done: seq<GroupKey>, b: seq<Limit>, b': seq<Limit>,
                             now: seq<Limit>) {
    && |b| == |b'| == |now| == |groups|
    && forall i | 0 <= i < |groups| :: now[i] == if InGroups(groups[i], done) then b'[i] else b[i]
  }

  /** One group pass in place: exactly the specified scaling, whatever order the groups come in. */
  method ApplyGroup(groups: seq<Option<GroupKey>>, budget: real, tag: Limit, amounts: array<real>,
                    binding: array<Limit>)
    requires |groups| == amounts.Length == binding.Length
    modifies amounts, binding
    ensures amounts[..] == ScaledByGroup(old(amounts[..]), groups, budget)
    ensures binding[..] == LabelledByGroup(old(amounts[..]), groups, budget, old(binding[..]), tag)
  {
    hide Times;
    ghost var a, b := amounts[..], binding[..];
    ghost var a', b' := ScaledByGroup(a, groups, budget), LabelledByGroup(a, groups, budget, b, tag);
    var members, order := Collect(groups);
    for k := 0 to |order|
      invariant PassedOver(groups, order[..k], a, a', amounts[..])
      invariant TaggedOver(groups, order[..k], b, b', binding[..])
    {
      ghost var now, tags := amounts[..], binding[..];
      var idxs := GroupMembers(groups, members, order, k, a, a', now);
      var sum := SumGroup(amounts, idxs);
      if sum > budget + LIMIT_TOLERANCE && sum > 0.0 {
        ScaleGroup(amounts, binding, idxs, budget / sum, tag);
      }
      GroupStep(groups, budget, tag, order, k, idxs, a, b, now, tags, amounts[..], binding[..]);
    }
    AllGroupsPassed(groups, budget, tag, members, order, a, b, amounts[..], binding[..]);
  }

  /** The places of the next group, whose amounts are still as they were before the pass. */
  method GroupMembers(groups: seq<Option<GroupKey>>, members: map<GroupKey, seq<nat>>, order: seq<GroupKey>, k: nat,
                      ghost a: seq<real>, ghost a': seq<real>, ghost now: seq<real>) returns (idxs: seq<nat>)
    requires k < |order| && Collected(groups, members, order, |groups|) && PassedOver(groups, order[..k], a, a', now)
    ensures Within(idxs, |groups|) && (forall i, j | 0 <= i < j < |idxs| :: idxs[i] < idxs[j])
    ensures forall i: nat :: i in idxs <==> i < |groups| && groups[i] == Some(order[k])
    ensures SumAt(now, idxs, |idxs|) == GroupSum(a, groups, order[k], |groups|)
  {
    idxs := members[order[k]];
    MembersAre(groups, order[k], |groups|);
    SumOfMembers(a, groups, order[k], |groups|);
    forall j | 0 <= j < |idxs| ensures now[idxs[j]] == a[idxs[j]] {
      assert idxs[j] in idxs;
      assert order[k] !in order[..k];
    }
    SumAtAgrees(now, a, idxs, |idxs|);
  }

  lemma GroupStep(groups: seq<Option<GroupKey>>, budget: real, tag: Limit, order: seq<GroupKey>, k: nat, idxs: seq<nat>,
                  a: seq<real>, b: seq<Limit>, now: seq<real>, tags: seq<Limit>, now': seq<real>, tags': seq<Limit>)
    requires |groups| == |a| == |b| == |now'| == |tags'| && k < |order|
    requires PassedOver(groups, order[..k], a, ScaledByGroup(a, groups, budget), now)
    requires TaggedOver(groups, order[..k], b, LabelledByGroup(a, groups, budget, b, tag), tags)
    requires forall i: nat :: i in idxs <==> i < |groups| && groups[i] == Some(order[k])
    requires order[k] !in order[..k]
    requires var sum := GroupSum(a, groups, order[k], |groups|);
             forall i: nat | i < |groups| ::
               && now'[i] == (if i in idxs && IsOver(sum, budget) then Times(now[i], budget / sum) else now[i])
               && tags'[i] == (if i in idxs && IsOver(sum, budget) then tag else tags[i])
    ensures PassedOver(groups, order[..k + 1], a, ScaledByGroup(a, groups, budget), now')
    ensures TaggedOver(groups, order[..k + 1], b, LabelledByGroup(a, groups, budget, b, tag), tags')
  {
    var g := order[k];
    var sum := GroupSum(a, groups, g, |groups|);
    assert order[..k + 1] == order[..k] + [g];
    assert forall x: real :: Times(x, 1.0) == x;
    hide Times;
    forall i: nat | i < |groups|
      ensures now'[i] == if InGroups(groups[i], order[..k + 1]) then ScaledByGroup(a, groups, budget)[i] else a[i]
      ensures tags'[i]
           == if InGroups(groups[i], order[..k + 1]) then LabelledByGroup(a, groups, budget, b, tag)[i] else b[i]
    {
      if groups[i] == Some(g) {
        assert i in idxs;
        assert !InGroups(groups[i], order[..k]);
      } else {
        assert i !in idxs;
      }
    }
  }

  lemma AllGroupsPassed(groups: seq<Option<GroupKey>>, budget: real, tag: Limit, members: map<GroupKey, seq<nat>>,
                        order: seq<GroupKey>, a: seq<real>, b: seq<Limit>, now: seq<real>, tags: seq<Limit>)
    requires |groups| == |a| == |b| && Collected(groups, members, order, |groups|)
    requires PassedOver(groups, order[..|order|], a, ScaledByGroup(a, groups, budget), now)
    requires TaggedOver(groups, order[..|order|], b, LabelledByGroup(a, groups, budget, b, tag), tags)
    ensures now == ScaledByGroup(a, groups, budget) && tags == LabelledByGroup(a, groups, budget, b, tag)
  {
    assert order[..|order|] == order;
    hide Times;
  }

  ghost predicate InGroups(g: Option<GroupKey>, gs: seq<GroupKey>) { g.Some? && g.value in gs }

  /** The whole-book pass in place. */
  method ApplyTotal(budget: real, amounts: array<real>, binding: array<Limit>)
    requires amounts.Length == binding.Length
    modifies amounts, binding
    ensures amounts[..] == ScaledInTotal(old(amounts[..]), budget)
    ensures binding[..] == (if IsOver(Sum(old(amounts[..]), amounts.Length), budget)
                            then seq(binding.Length, _ => TotalExposure) else old(binding[..]))
  {
    var n := amounts.Length;
    ghost var a, b := amounts[..], binding[..];
    var total := Total(amounts);
    assert forall x: real :: Times(x, 1.0) == x;
    hide Times;
    if total > budget + LIMIT_TOLERANCE && total > 0.0 {
      var f := budget / total;
      for i := 0 to n
        invariant forall j | 0 <= j < n :: amounts[j] == if j < i then Times(a[j], f) else a[j]
        invariant forall j | 0 <= j < i :: binding[j] == TotalExposure
      {
        amounts[i] := Times(amounts[i], f);
        binding[i] := TotalExposure;
      }
    }
    assert amounts[..] == ScaledInTotal(a, budget);
  }
}
