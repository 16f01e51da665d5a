/** Canonical JSON text. A finite number stands for its `Number::toString` text, which the language makes the same
    exactly for equal numbers. */
module StableJson {
  import opened Sorting
  import opened Text
  import opened Wrappers

  const QUOTE: Unit := 0x22
  const COMMA: Unit := 0x2c
  const COLON: Unit := 0x3a
  const BACKSLASH: Unit := 0x5c
  const OPEN_ARRAY: Unit := 0x5b
  const CLOSE_ARRAY: Unit := 0x5d
  const OPEN_OBJECT: Unit := 0x7b
  const CLOSE_OBJECT: Unit := 0x7d
  const NULL_TEXT: JsString := [0x6e, 0x75, 0x6c, 0x6c]
  const TRUE_TEXT: JsString := [0x74, 0x72, 0x75, 0x65]
  const FALSE_TEXT: JsString := [0x66, 0x61, 0x6c, 0x73, 0x65]

  /** A character of a printed number: a digit or one of `+ - . e`. */
  predicate IsNumberUnit(u: Unit) { IsDigit(u) || u in {0x2b, 0x2d, 0x2e, 0x65} }

  predicate IsNumberText(t: JsString) {
    t != [] && (IsDigit(t[0]) || t[0] == 0x2d) && forall i | 0 <= i < |t| :: IsNumberUnit(t[i])
  }

  type NumberText = t: JsString | IsNumberText(t) witness [0x30]

  /** The values `stableJson` is given. An object lists its own keys in the order it holds them. */
  datatype Json =
    | Null | Bool(b: bool) | Number(text: NumberText) | NonFinite | BigInt(n: int)
    | String(s: JsString) | Array(items: seq<Json>) | Object(entries: seq<(JsString, Json)>)

  /** What a value means as JSON: objects are maps, big integers are their decimal strings, and `NaN` and the
      infinities are null. */
  datatype Value =
    | VNull | VBool(b: bool) | VNumber(text: NumberText) | VString(s: JsString)
    | VArray(items: seq<Value>) | VObject(fields: map<JsString, Value>)

  // ----- key order -----

  /** Strictly before, by code units. */
  predicate Before(a: JsString, b: JsString) {
    b != [] && (a == [] || a[0] < b[0] || (a[0] == b[0] && Before(a[1..], b[1..])))
  }

  predicate NotAfter(a: JsString, b: JsString) { a == b || Before(a, b) }

  lemma {:induction false} BeforeIsStrict(a: JsString, b: JsString)
    ensures a == b || Before(a, b) || Before(b, a)
    ensures !(Before(a, b) && Before(b, a)) && !Before(a, a)
  {
    if a != [] && b != [] && a[0] == b[0] {
      BeforeIsStrict(a[1..], b[1..]);
      assert a == [a[0]] + a[1..] && b == [b[0]] + b[1..];
    }
    if a != [] { BeforeIsStrict(a[1..], a[1..]); }
  }

  lemma {:induction false} BeforeIsTransitive(a: JsString, b: JsString, c: JsString)
    requires Before(a, b) && Before(b, c)
    ensures Before(a, c)
  {
    if a != [] && a[0] == b[0] && b[0] == c[0] { BeforeIsTransitive(a[1..], b[1..], c[1..]); }
  }

  lemma KeyOrder()
    ensures TotalPreorder(NotAfter)
  {
    forall a, b ensures NotAfter(a, b) || NotAfter(b, a) { BeforeIsStrict(a, b); }
    forall a, b, c | NotAfter(a, b) && NotAfter(b, c) ensures NotAfter(a, c) {
      if Before(a, b) && Before(b, c) { BeforeIsTransitive(a, b, c); }
    }
  }

  /** At the first place where two texts differ, the one that has ended or has the smaller code unit comes first. */
  ghost predicate FirstDifference(a: JsString, b: JsString, d: nat) {
    && d <= |a| && d < |b| && a[..d] == b[..d] && (d == |a| || a[d] < b[d])
  }

  lemma {:induction false} BeforeIff(a: JsString, b: JsString)
    ensures Before(a, b) <==> exists d: nat :: FirstDifference(a, b, d)
  {
    if b != [] && a == [] { assert FirstDifference(a, b, 0); }
    if b != [] && a != [] {
      if a[0] == b[0] {
        BeforeIff(a[1..], b[1..]);
        if d: nat :| FirstDifference(a[1..], b[1..], d) {
          assert a[..d + 1] == [a[0]] + a[1..][..d] && b[..d + 1] == [b[0]] + b[1..][..d];
          assert FirstDifference(a, b, d + 1);
        }
        if d: nat :| FirstDifference(a, b, d) {
          assert d > 0;
          assert a[1..][..d - 1] == a[..d][1..] && b[1..][..d - 1] == b[..d][1..];
          assert FirstDifference(a[1..], b[1..], d - 1);
        }
      } else if a[0] < b[0] {
        assert FirstDifference(a, b, 0);
      } else {
        forall d: nat ensures !FirstDifference(a, b, d) {
          if 0 < d <= |a| && d < |b| { assert a[..d][0] == a[0] && b[..d][0] == b[0]; }
        }
      }
    }
  }

  // ----- objects -----

  function Keys(entries: seq<(JsString, Json)>): (r: seq<JsString>)
    ensures |r| == |entries|
  {
    seq(|entries|, i requires 0 <= i < |entries| => entries[i].0)
  }

  function KeySet(entries: seq<(JsString, Json)>): set<JsString> {
    set i | 0 <= i < |entries| :: entries[i].0
  }

  function IndexOf(entries: seq<(JsString, Json)>, key: JsString): (i: nat)
    requires key in KeySet(entries)
    ensures i < |entries| && entries[i].0 == key
  {
    if entries[0].0 == key then 0
    else
      assert entries == [entries[0]] + entries[1..];
      1 + IndexOf(entries[1..], key)
  }

  /** `value[key]`. */
  function ValueAt(j: Json, key: JsString): (v: Json)
    requires j.Object? && key in KeySet(j.entries)
    ensures j decreases to v
  {
    j.entries[IndexOf(j.entries, key)].1
  }

  /** `Object.keys(value).sort()`. */
  function SortedKeys(entries: seq<(JsString, Json)>): (r: seq<JsString>)
    ensures forall k :: k in r <==> k in KeySet(entries)
  {
    KeyOrder();
    SortSorts(Keys(entries), NotAfter);
    assert forall k :: k in KeySet(entries) ==> k in Keys(entries) by {
      forall k | k in KeySet(entries) ensures k in Keys(entries) {
        assert Keys(entries)[IndexOf(entries, k)] == k;
      }
    }
    assert forall k :: k in Sort(Keys(entries), NotAfter) <==> k in multiset(Keys(entries));
    Sort(Keys(entries), NotAfter)
  }

  predicate DistinctKeys(entries: seq<(JsString, Json)>) {
    forall i, k | 0 <= i < k < |entries| :: entries[i].0 != entries[k].0
  }

  /** The keys of every object are distinct, as the language guarantees. */
  ghost predicate WellFormed(j: Json) {
    match j
    case Array(items) => forall i | 0 <= i < |items| :: WellFormed(items[i])
    case Object(entries) => DistinctKeys(entries) && forall i | 0 <= i < |entries| :: WellFormed(entries[i].1)
    case _ => true
  }

  lemma {:induction false} DistinctKeysOnce(entries: seq<(JsString, Json)>)
    requires DistinctKeys(entries)
    ensures multiset(Keys(entries)) == multiset(KeySet(entries))
  {
    if entries != [] {
      var rest := entries[1..];
      DistinctKeysOnce(rest);
      assert Keys(entries) == [entries[0].0] + Keys(rest);
      assert entries == [entries[0]] + rest;
      assert KeySet(entries) == {entries[0].0} + KeySet(rest);
      assert entries[0].0 !in KeySet(rest);
    }
  }

  /** The order in which an object holds its keys does not reach `SortedKeys`. */
  lemma SortedKeysByKeySet(a: seq<(JsString, Json)>, b: seq<(JsString, Json)>)
    requires DistinctKeys(a) && DistinctKeys(b) && KeySet(a) == KeySet(b)
    ensures SortedKeys(a) == SortedKeys(b)
  {
    DistinctKeysOnce(a);
    DistinctKeysOnce(b);
    KeyOrder();
    SortSorts(Keys(a), NotAfter);
    SortSorts(Keys(b), NotAfter);
    forall x, y | NotAfter(x, y) && NotAfter(y, x) ensures x == y { BeforeIsStrict(x, y); }
    SortedArrangementIsUnique(SortedKeys(a), SortedKeys(b), NotAfter);
  }

  /** An object's keys are printed in ascending order of their code units. */
  lemma KeysAscend(entries: seq<(JsString, Json)>, i: nat, j: nat)
    requires DistinctKeys(entries) && i < j < |SortedKeys(entries)|
    ensures exists d: nat :: FirstDifference(SortedKeys(entries)[i], SortedKeys(entries)[j], d)
  {
    KeyOrder();
    SortSorts(Keys(entries), NotAfter);
    DistinctKeysOnce(entries);
    var keys := SortedKeys(entries);
    if keys[i] == keys[j] {
      TwiceInMultiset(keys, i, j);
      assert false;
    }
    assert NotAfter(keys[i], keys[j]);
    BeforeIff(keys[i], keys[j]);
  }

  lemma TwiceInMultiset(s: seq<JsString>, i: nat, j: nat)
    requires i < j < |s| && s[i] == s[j]
    ensures multiset(s)[s[i]] >= 2
  {
    assert s == s[..j] + [s[j]] + s[j + 1..];
    assert s[..j][i] == s[i] && s[i] in s[..j];
    assert multiset(s) == multiset(s[..j]) + multiset{s[j]} + multiset(s[j + 1..]);
  }

  // ----- strings -----

  predicate IsHigh(u: Unit) { 0xd800 <= u <= 0xdbff }

  predicate IsLow(u: Unit) { 0xdc00 <= u <= 0xdfff }

  function HexDigit(d: nat): Unit
    requires d < 16
  {
    if d < 10 then 0x30 + d else 0x57 + d
  }

  function Hex4(u: Unit): JsString {
    [HexDigit(u / 0x1000), HexDigit(u / 0x100 % 16), HexDigit(u / 0x10 % 16), HexDigit(u % 16)]
  }

  /** The letter of a two-character escape. */
  function ShortEscape(u: Unit): Option<Unit> {
    match u
    case 0x08 => Some(0x62)
    case 0x09 => Some(0x74)
    case 0x0a => Some(0x6e)
    case 0x0c => Some(0x66)
    case 0x0d => Some(0x72)
    case 0x22 => Some(QUOTE)
    case 0x5c => Some(BACKSLASH)
    case _ => None
  }

  /** How many code units make up the first character: a surrogate pair is one character. */
  function FirstLength(s: JsString): (n: nat)
    requires s != []
    ensures 0 < n <= |s| && n <= 2
  {
    if |s| > 1 && IsHigh(s[0]) && IsLow(s[1]) then 2 else 1
  }

  /** The first character as `JSON.stringify` writes it: control characters and lone surrogates are escaped. */
  function Piece(s: JsString): (r: JsString)
    requires s != []
    ensures r != [] && r[0] != QUOTE
  {
    if FirstLength(s) == 2 then s[..2]
    else if ShortEscape(s[0]).Some? then [BACKSLASH, ShortEscape(s[0]).value]
    else if s[0] < 0x20 || IsHigh(s[0]) || IsLow(s[0]) then [BACKSLASH, 0x75] + Hex4(s[0])
    else [s[0]]
  }

  function Escape(s: JsString): JsString {
    if s == [] then [] else Piece(s) + Escape(s[FirstLength(s)..])
  }

  /** `JSON.stringify` of a string. */
  function Quote(s: JsString): JsString { [QUOTE] + Escape(s) + [QUOTE] }

  lemma HexDigits(u: Unit)
    ensures u == 0x1000 * (u / 0x1000) + 0x100 * (u / 0x100 % 16) + 0x10 * (u / 0x10 % 16) + u % 16
  {
    assert u / 0x100 / 16 == u / 0x1000 && u / 0x10 / 16 == u / 0x100;
  }

  /** An escaped string with its closing quote and what follows. */
  function Closed(a: JsString, x: JsString): (t: JsString)
    ensures t != []
  {
    Escape(a) + [QUOTE] + x
  }

  lemma ClosedStep(a: JsString, x: JsString)
    ensures Closed(a, x)[0] == QUOTE <==> a == []
    ensures a == [] ==> Closed(a, x) == [QUOTE] + x
    ensures a != [] ==> Closed(a, x) == Piece(a) + Closed(a[FirstLength(a)..], x)
  {
    hide Piece, FirstLength;
    if a != [] {
      var t := Escape(a[FirstLength(a)..]);
      assert Piece(a) + t + [QUOTE] + x == Piece(a) + (t + [QUOTE] + x);
    }
  }

  lemma AfterQuote(a: JsString, x: JsString)
    ensures (Quote(a) + x)[1..] == Closed(a, x)
  {
    hide Escape;
  }

  // ----- the text -----

  function Rest(parts: seq<JsString>): JsString {
    if parts == [] then [] else [COMMA] + parts[0] + Rest(parts[1..])
  }

  /** `parts.join(",")`. */
  function Join(parts: seq<JsString>): JsString {
    if parts == [] then [] else parts[0] + Rest(parts[1..])
  }

  function Stable(j: Json): JsString {
    match j
    case Null => NULL_TEXT
    case NonFinite => NULL_TEXT
    case Bool(b) => if b then TRUE_TEXT else FALSE_TEXT
    case Number(text) => text
    case BigInt(n) => Quote(IntText(n))
    case String(s) => Quote(s)
    case Array(items) => [OPEN_ARRAY] + Join(StableAll(items)) + [CLOSE_ARRAY]
    case Object(entries) => [OPEN_OBJECT] + Join(StableFields(j, SortedKeys(entries))) + [CLOSE_OBJECT]
  }

  /** `value.map(stableJson)`. */
  function StableAll(items: seq<Json>): (r: seq<JsString>)
    ensures |r| == |items|
  {
    seq(|items|, i requires 0 <= i < |items| => Stable(items[i]))
  }

  /** `keys.map((key) => ...)`. */
  function StableFields(j: Json, keys: seq<JsString>): (r: seq<JsString>)
    requires j.Object? && forall k | k in keys :: k in KeySet(j.entries)
    ensures |r| == |keys|
    decreases j, |keys|
  {
    seq(|keys|, i requires 0 <= i < |keys| => Quote(keys[i]) + [COLON] + Stable(ValueAt(j, keys[i])))
  }

  ghost function Meaning(j: Json): Value {
    match j
    case Null => VNull
    case NonFinite => VNull
    case Bool(b) => VBool(b)
    case Number(text) => VNumber(text)
    case BigInt(n) => VString(IntText(n))
    case String(s) => VString(s)
    case Array(items) => VArray(seq(|items|, i requires 0 <= i < |items| => Meaning(items[i])))
    case Object(entries) => VObject(map k | k in KeySet(entries) :: Meaning(ValueAt(j, k)))
  }

  // ----- canonical -----

  /** Values that mean the same print the same. */
  lemma {:induction false} SameMeaningSameText(a: Json, b: Json)
    requires WellFormed(a) && WellFormed(b) && Meaning(a) == Meaning(b)
    ensures Stable(a) == Stable(b)
  {
    hide Quote, IsNumberUnit, SortedKeys, IndexOf, Join, IntText;
    match a {
      case Array(xs) =>
        var ys := b.items;
        assert |Meaning(a).items| == |xs| && |Meaning(b).items| == |ys|;
        forall i | 0 <= i < |xs| ensures Stable(xs[i]) == Stable(ys[i]) {
          assert Meaning(a).items[i] == Meaning(xs[i]) && Meaning(b).items[i] == Meaning(ys[i]);
          SameMeaningSameText(xs[i], ys[i]);
        }
        assert StableAll(xs) == StableAll(ys);
      case Object(xs) =>
        var ys := b.entries;
        assert KeySet(xs) == Meaning(a).fields.Keys && KeySet(ys) == Meaning(b).fields.Keys;
        SortedKeysByKeySet(xs, ys);
        forall k | k in KeySet(xs) ensures Stable(ValueAt(a, k)) == Stable(ValueAt(b, k)) {
          assert Meaning(a).fields[k] == Meaning(b).fields[k];
          SameMeaningSameText(ValueAt(a, k), ValueAt(b, k));
        }
        assert StableFields(a, SortedKeys(xs)) == StableFields(b, SortedKeys(ys));
      case _ =>
    }
  }

  /** What may stand after a value: the end of the text, a comma or a closing bracket. */
  predicate Ends(r: JsString) { r == [] || r[0] in {COMMA, CLOSE_ARRAY, CLOSE_OBJECT} }

  /** The first character tells the kind of value. */
  function Head(v: Value): set<Unit> {
    match v
    case VNull => {0x6e}
    case VBool(b) => if b then {0x74} else {0x66}
    case VNumber(_) => {0x2d, 0x30, 0x31, 0x32, 0x33, 0x34, 0x35, 0x36, 0x37, 0x38, 0x39}
    case VString(_) => {QUOTE}
    case VArray(_) => {OPEN_ARRAY}
    case VObject(_) => {OPEN_OBJECT}
  }

  lemma HeadOfText(j: Json)
    ensures Stable(j) != [] && Stable(j)[0] in Head(Meaning(j))
  {
  }

  /** A joined list with its closing bracket and what follows, after a first element. */
  function Tail(parts: seq<JsString>, close: Unit, x: JsString): JsString { Rest(parts) + [close] + x }

  lemma TailStep(parts: seq<JsString>, close: Unit, x: JsString)
    requires close == CLOSE_ARRAY || close == CLOSE_OBJECT
    ensures Tail(parts, close, x) != [] && Ends(Tail(parts, close, x))
    ensures Tail(parts, close, x)[0] == close <==> parts == []
    ensures parts == [] ==> Tail(parts, close, x) == [close] + x
    ensures parts != [] ==> Tail(parts, close, x) == [COMMA] + (parts[0] + Tail(parts[1..], close, x))
  {
    if parts != [] {
      var t := Rest(parts[1..]);
      assert [COMMA] + parts[0] + t + [close] + x == [COMMA] + (parts[0] + (t + [close] + x));
    }
  }

  /** A joined list with its closing bracket and what follows, after the opening bracket. */
  function Body(parts: seq<JsString>, close: Unit, x: JsString): JsString {
    if parts == [] then [close] + x else parts[0] + Tail(parts[1..], close, x)
  }

  lemma BodyOf(open: Unit, parts: seq<JsString>, close: Unit, x: JsString)
    ensures ([open] + Join(parts) + [close] + x)[1..] == Body(parts, close, x)
    ensures Body(parts, close, x) != [] && Body([], close, x)[1..] == x
    ensures parts != [] && parts[0] != [] ==> Body(parts, close, x)[0] == parts[0][0]
    ensures parts == [] ==> Body(parts, close, x)[0] == close
  {
    assert ([close] + x)[1..] == x;
    if parts != [] {
      var t := Rest(parts[1..]);
      assert ([open] + (parts[0] + t) + [close] + x)[1..] == parts[0] + (t + [close] + x);
    }
  }

  lemma FieldHead(j: Json, keys: seq<JsString>)
    requires j.Object? && keys != [] && forall k | k in keys :: k in KeySet(j.entries)
    ensures StableFields(j, keys)[0] != [] && StableFields(j, keys)[0][0] == QUOTE
  {
  }
}
