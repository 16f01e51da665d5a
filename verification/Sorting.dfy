/** Stable insertion sort by a comparison, as the specification of `Array.prototype.sort`. */
module Sorting {

  function Insert<T>(x: T, s: seq<T>, le: (T, T) -> bool): (r: seq<T>)
    ensures |r| == |s| + 1
  {
    if s == [] || le(x, s[0]) then [x] + s else [s[0]] + Insert(x, s[1..], le)
  }

  function Sort<T>(s: seq<T>, le: (T, T) -> bool): (r: seq<T>)
    ensures |r| == |s|
  {
    if s == [] then [] else Insert(s[0], Sort(s[1..], le), le)
  }

  ghost predicate TotalPreorder<T(!new)>(le: (T, T) -> bool) {
    && (forall x, y :: le(x, y) || le(y, x))
    && (forall x, y, z :: le(x, y) && le(y, z) ==> le(x, z))
  }

  ghost predicate SortedBy<T>(s: seq<T>, le: (T, T) -> bool) {
    forall i, j | 0 <= i < j < |s| :: le(s[i], s[j])
  }

  lemma {:induction false} InsertSorts<T(!new)>(x: T, s: seq<T>, le: (T, T) -> bool)
    requires TotalPreorder(le) && SortedBy(s, le)
    ensures SortedBy(Insert(x, s, le), le)
    ensures multiset(Insert(x, s, le)) == multiset{x} + multiset(s)
  {
    var r := Insert(x, s, le);
    if s == [] {
    } else if le(x, s[0]) {
      forall i, j | 0 <= i < j < |r| ensures le(r[i], r[j]) {
        assert r[j] == s[j - 1];
        if i == 0 && j > 1 { assert le(s[0], s[j - 1]); }
      }
    } else {
      InsertSorts(x, s[1..], le);
      assert s == [s[0]] + s[1..];
      var t := Insert(x, s[1..], le);
      forall j | 0 <= j < |t| ensures le(s[0], t[j]) {
        assert t[j] in multiset(t);
        if t[j] != x { assert t[j] in s[1..]; }
      }
    }
  }

  /** Two sorted arrangements of the same elements are the same when no two different elements tie. */
  lemma {:induction false} SortedArrangementIsUnique<T(!new)>(a: seq<T>, b: seq<T>, le: (T, T) -> bool)
    requires SortedBy(a, le) && SortedBy(b, le) && multiset(a) == multiset(b)
    requires forall x, y :: le(x, y) && le(y, x) ==> x == y
    ensures a == b
  {
    assert |b| == |multiset(b)| == |a|;
    if a != [] {
      SameFirst(a, b, le);
      WithoutFirst(a);
      WithoutFirst(b);
      SortedArrangementIsUnique(a[1..], b[1..], le);
    }
  }

  lemma WithoutFirst<T>(s: seq<T>)
    requires s != []
    ensures s == [s[0]] + s[1..] && multiset(s[1..]) == multiset(s) - multiset{s[0]}
  {
  }

  lemma SameFirst<T(!new)>(a: seq<T>, b: seq<T>, le: (T, T) -> bool)
    requires SortedBy(a, le) && SortedBy(b, le) && multiset(a) == multiset(b) && a != [] && b != []
    requires forall x, y :: le(x, y) && le(y, x) ==> x == y
    ensures a[0] == b[0]
  {
    assert a[0] in multiset(b) && b[0] in multiset(a);
    var i :| 0 <= i < |b| && b[i] == a[0];
    var j :| 0 <= j < |a| && a[j] == b[0];
    if i != 0 && j != 0 { assert le(b[0], b[i]) && le(a[0], a[j]); }
  }

  /** Sorting orders the elements and keeps them all. */
  lemma {:induction false} SortSorts<T(!new)>(s: seq<T>, le: (T, T) -> bool)
    requires TotalPreorder(le)
    ensures SortedBy(Sort(s, le), le) && multiset(Sort(s, le)) == multiset(s)
  {
    if s != [] {
      SortSorts(s[1..], le);
      InsertSorts(s[0], Sort(s[1..], le), le);
      assert s == [s[0]] + s[1..];
    }
  }
}
