/** JavaScript strings as sequences of UTF-16 code units, and the runtime's string helpers. */
module Text {

  type Unit = u: int | 0 <= u < 0x1_0000
  type JsString = seq<Unit>

  const DOT: Unit := 0x2e
  const MINUS: Unit := 0x2d
  const DIGIT_ZERO: Unit := 0x30

  // ----- trim -----

  /** The characters `String.prototype.trim` removes. */
  predicate IsSpace(u: Unit) {
    0x09 <= u <= 0x0d || u == 0x20 || u == 0xa0 || u == 0x1680 || 0x2000 <= u <= 0x200a || u == 0x2028 || u == 0x2029
    || u == 0x202f || u == 0x205f || u == 0x3000 || u == 0xfeff
  }

  function TrimStart(s: JsString): JsString {
    if s != [] && IsSpace(s[0]) then TrimStart(s[1..]) else s
  }

  function TrimEnd(s: JsString): JsString {
    if s != [] && IsSpace(s[|s| - 1]) then TrimEnd(s[..|s| - 1]) else s
  }

  function Trim(s: JsString): JsString { TrimEnd(TrimStart(s)) }

  /** A string without spaces at its ends is left alone. */
  lemma TrimKeeps(s: JsString)
    requires s == [] || (!IsSpace(s[0]) && !IsSpace(s[|s| - 1]))
    ensures Trim(s) == s
  {
  }

  /** Trimming cuts the spaces at both ends and nothing else. */
  lemma {:induction false} TrimIs(s: JsString) returns (i: nat, j: nat)
    ensures i <= j <= |s| && Trim(s) == s[i..j]
    ensures forall k | 0 <= k < i || j <= k < |s| :: IsSpace(s[k])
    ensures i < j ==> !IsSpace(s[i]) && !IsSpace(s[j - 1])
  {
    i := TrimStartIs(s);
    j := TrimEndIs(s[i..]);
    j := i + j;
    assert s[i..][..j - i] == s[i..j];
    forall k | j <= k < |s| ensures IsSpace(s[k]) { assert s[k] == s[i..][k - i]; }
    if i < j { assert s[i] == s[i..][0] && s[j - 1] == s[i..][j - i - 1]; }
  }

  lemma {:induction false} TrimStartIs(s: JsString) returns (i: nat)
    ensures i <= |s| && TrimStart(s) == s[i..] && forall k | 0 <= k < i :: IsSpace(s[k])
    ensures i < |s| ==> !IsSpace(s[i])
  {
    i := 0;
    if s != [] && IsSpace(s[0]) {
      i := TrimStartIs(s[1..]);
      forall k | 0 < k < i + 1 ensures IsSpace(s[k]) { assert s[k] == s[1..][k - 1]; }
      i := i + 1;
    }
  }

  lemma {:induction false} TrimEndIs(s: JsString) returns (j: nat)
    ensures j <= |s| && TrimEnd(s) == s[..j] && forall k | j <= k < |s| :: IsSpace(s[k])
    ensures 0 < j ==> !IsSpace(s[j - 1])
  {
    j := |s|;
    if s != [] && IsSpace(s[|s| - 1]) { j := TrimEndIs(s[..|s| - 1]); }
  }

  // ----- decimal digits -----

  predicate IsDigit(u: Unit) { 0x30 <= u <= 0x39 }

  predicate AllDigits(s: JsString) { forall i | 0 <= i < |s| :: IsDigit(s[i]) }

  function Pow10(n: nat): (r: nat)
    ensures r > 0
  {
    if n == 0 then 1 else 10 * Pow10(n - 1)
  }

  /** The digits of a natural number, without leading zeros. */
  function Digits(n: nat): (r: JsString)
    ensures r != [] && AllDigits(r)
  {
    if n < 10 then [DIGIT_ZERO + n] else Digits(n / 10) + [DIGIT_ZERO + n % 10]
  }

  /** `toString()` of a big integer. */
  function IntText(n: int): JsString { if n < 0 then [MINUS] + Digits(-n) else Digits(n) }

  /** `BigInt(s)` of a string of digits; the empty string is zero. */
  function Value(s: JsString): nat
    requires AllDigits(s)
  {
    if s == [] then 0 else 10 * Value(s[..|s| - 1]) + (s[|s| - 1] - DIGIT_ZERO)
  }

  lemma {:induction false} ValueOfDigits(n: nat)
    ensures Value(Digits(n)) == n
  {
    var s := Digits(n);
    if n >= 10 {
      ValueOfDigits(n / 10);
      assert s[..|s| - 1] == Digits(n / 10);
    } else {
      assert s[..|s| - 1] == [];
    }
  }

  lemma {:induction false} ValueBound(s: JsString)
    requires AllDigits(s)
    ensures Value(s) < Pow10(|s|)
  {
    if s != [] { ValueBound(s[..|s| - 1]); }
  }

  lemma TenTimes(x: int, p: int)
    ensures x * (10 * p) == 10 * (x * p)
  {
  }

  lemma {:induction false} ValueConcat(a: JsString, b: JsString)
    requires AllDigits(a) && AllDigits(b)
    ensures AllDigits(a + b) && Value(a + b) == Value(a) * Pow10(|b|) + Value(b)
  {
    if b == [] {
      assert a + b == a;
    } else {
      var c := b[..|b| - 1];
      ValueConcat(a, c);
      var s, p := a + b, Pow10(|c|);
      assert s[..|s| - 1] == a + c && s[|s| - 1] == b[|b| - 1];
      TenTimes(Value(a), p);
    }
  }

  /** Digits without a leading zero are the digits of their value. */
  lemma {:induction false} DigitsOfValue(s: JsString)
    requires s != [] && AllDigits(s) && (|s| == 1 || s[0] != DIGIT_ZERO)
    ensures Digits(Value(s)) == s
    ensures s[0] != DIGIT_ZERO ==> Value(s) > 0
  {
    var c, d := s[..|s| - 1], s[|s| - 1] - DIGIT_ZERO;
    assert s == c + [DIGIT_ZERO + d];
    ValueUnfolds(s);
    hide Value, Digits;
    if |s| > 1 {
      DigitsOfValue(c);
      DigitsUnfold(Value(c), d);
    } else {
      NoDigits();
      assert c == [];
      OneDigit(d);
    }
  }

  lemma ValueUnfolds(s: JsString)
    requires s != [] && AllDigits(s)
    ensures AllDigits(s[..|s| - 1]) && Value(s) == 10 * Value(s[..|s| - 1]) + (s[|s| - 1] - DIGIT_ZERO)
  {
  }

  lemma DigitsUnfold(n: nat, d: nat)
    requires n > 0 && d < 10
    ensures Digits(10 * n + d) == Digits(n) + [DIGIT_ZERO + d]
  {
    assert (10 * n + d) / 10 == n && (10 * n + d) % 10 == d;
  }

  lemma NoDigits()
    ensures Value([]) == 0
  {
  }

  lemma OneDigit(d: nat)
    requires d < 10
    ensures Digits(d) == [DIGIT_ZERO + d]
  {
  }

  /** Different integers have different texts. */
  lemma IntTextIsInjective(m: int, n: int)
    requires IntText(m) == IntText(n)
    ensures m == n
  {
    var s, t := Digits(if m < 0 then -m else m), Digits(if n < 0 then -n else n);
    assert IsDigit(s[0]) && IsDigit(t[0]);
    assert IntText(m)[0] == MINUS <==> m < 0;
    assert IntText(n)[0] == MINUS <==> n < 0;
    if m < 0 { assert s == IntText(m)[1..] && t == IntText(n)[1..]; }
    ValueOfDigits(if m < 0 then -m else m);
    ValueOfDigits(if n < 0 then -n else n);
  }
}
