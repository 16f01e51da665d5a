/** Decimal text and base units. */
module Money {
  import opened MulDiv
  import opened Text

  datatype Error = InvalidAmount | TooManyDecimals

  datatype Result = Ok(value: int) | Err(error: Error)

  // ----- text -----

  /** Where the first dot stands, or the length. */
  function DotAt(s: JsString): (k: nat)
    ensures k <= |s| && (forall i | 0 <= i < k :: s[i] != DOT) && (k < |s| ==> s[k] == DOT)
  {
    if s == [] || s[0] == DOT then 0 else 1 + DotAt(s[1..])
  }

  function Whole(s: JsString): JsString { s[..DotAt(s)] }

  function Fraction(s: JsString): JsString { if DotAt(s) < |s| then s[DotAt(s) + 1..] else [] }

  /** The pattern `^\d+(\.\d+)?$`. */
  predicate IsDecimal(s: JsString) {
    && Whole(s) != [] && AllDigits(Whole(s)) && AllDigits(Fraction(s))
    && (DotAt(s) < |s| ==> Fraction(s) != [])
  }

  function Zeros(n: nat): (r: JsString)
    ensures |r| == n && AllDigits(r)
  {
    if n == 0 then [] else Zeros(n - 1) + [DIGIT_ZERO]
  }

  /** `s.slice(0, n)`. */
  function Take(s: JsString, n: nat): JsString { if |s| <= n then s else s[..n] }

  /** `s.slice(n)`. */
  function Drop(s: JsString, n: nat): JsString { if |s| <= n then [] else s[n..] }

  predicate HasNonZero(s: JsString) { exists i :: 0 <= i < |s| && 0x31 <= s[i] <= 0x39 }

  /** The first `decimals` digits of a fraction, filled up with zeros. */
  function Padded(fraction: JsString, decimals: nat): JsString {
    Take(Take(fraction, decimals) + Zeros(decimals), decimals)
  }

  /** `decimalToBaseUnits`. */
  function DecimalToBaseUnits(value: JsString, decimals: nat): Result {
    var raw := Trim(value);
    if !IsDecimal(raw) then Err(InvalidAmount)
    else if HasNonZero(Drop(Fraction(raw), decimals)) then Err(TooManyDecimals)
    else
      PaddedIs(Fraction(raw), decimals);
      Ok(Times(Value(Whole(raw)), Pow10(decimals)) + Value(Padded(Fraction(raw), decimals)))
  }

  /** `replace(/0+$/, "")`. */
  function StripZeros(s: JsString): JsString {
    if s != [] && s[|s| - 1] == DIGIT_ZERO then StripZeros(s[..|s| - 1]) else s
  }

  /** `padStart(n, "0")`. */
  function PadStart(s: JsString, n: nat): JsString { if |s| >= n then s else Zeros(n - |s|) + s }

  /** Division and remainder of big integers truncate towards zero. */
  function Quotient(a: int, b: nat): int
    requires b > 0
  {
    if a < 0 then -(-a / b) else a / b
  }

  function Remainder(a: int, b: nat): int
    requires b > 0
  {
    if a < 0 then -(-a % b) else a % b
  }

  /** `baseUnitsToDecimal`. */
  function BaseUnitsToDecimal(value: int, decimals: nat): JsString {
    var whole := IntText(Quotient(value, Pow10(decimals)));
    var fraction := StripZeros(PadStart(IntText(Remainder(value, Pow10(decimals))), decimals));
    if fraction != [] then whole + [DOT] + fraction else whole
  }

  // ----- zeros -----

  lemma {:induction false} ZerosAre(n: nat)
    ensures Value(Zeros(n)) == 0 && forall i | 0 <= i < n :: Zeros(n)[i] == DIGIT_ZERO
  {
    if n > 0 {
      ZerosAre(n - 1);
      assert Zeros(n)[..n - 1] == Zeros(n - 1);
    }
  }

  /** A padded fraction shifts the value of the kept digits up. */
  lemma PaddedIs(fraction: JsString, decimals: nat)
    requires AllDigits(fraction)
    ensures |Padded(fraction, decimals)| == decimals && AllDigits(Padded(fraction, decimals))
    ensures |fraction| <= decimals ==>
              Padded(fraction, decimals) == fraction + Zeros(decimals - |fraction|)
    ensures |fraction| > decimals ==> Padded(fraction, decimals) == fraction[..decimals]
  {
    var z := Zeros(decimals);
    if |fraction| <= decimals {
      var k := decimals - |fraction|;
      ZerosPrefix(decimals, k);
      TakeOfSum(fraction, z, decimals);
      DigitsJoin(fraction, Zeros(k));
    } else {
      TakeOfSum(fraction[..decimals], z, decimals);
    }
  }

  lemma {:induction false} ZerosPrefix(n: nat, k: nat)
    requires k <= n
    ensures Zeros(n)[..k] == Zeros(k)
  {
    if k < n { ZerosPrefix(n - 1, k); } else { assert Zeros(n)[..n] == Zeros(n); }
  }

  lemma TakeOfSum(s: JsString, t: JsString, n: nat)
    requires |s| <= n <= |s| + |t|
    ensures Take(s + t, n) == s + t[..n - |s|]
  {
  }

  lemma DigitsJoin(s: JsString, t: JsString)
    requires AllDigits(s) && AllDigits(t)
    ensures AllDigits(s + t)
  {
  }

  lemma {:induction false} ValueZeroIff(s: JsString)
    requires AllDigits(s)
    ensures Value(s) == 0 <==> !HasNonZero(s)
    ensures !HasNonZero(s) ==> s == Zeros(|s|)
  {
    if s != [] {
      var c := s[..|s| - 1];
      ValueZeroIff(c);
      assert s == c + [s[|s| - 1]];
      assert HasNonZero(s) <==> HasNonZero(c) || s[|s| - 1] != DIGIT_ZERO by {
        if HasNonZero(c) {
          var i :| 0 <= i < |c| && 0x31 <= c[i] <= 0x39;
          assert s[i] == c[i];
        }
        if s[|s| - 1] != DIGIT_ZERO { assert IsDigit(s[|s| - 1]); }
        if HasNonZero(s) && s[|s| - 1] == DIGIT_ZERO {
          var i :| 0 <= i < |s| && 0x31 <= s[i] <= 0x39;
          assert c[i] == s[i];
        }
      }
    }
  }

  // ----- parsing -----

  /** A decimal text without its dot, read as a whole number. */
  function Unscaled(raw: JsString): nat
    requires IsDecimal(raw)
  {
    ValueConcat(Whole(raw), Fraction(raw));
    Value(Whole(raw) + Fraction(raw))
  }

  lemma Pow10Add(a: nat, b: nat)
    ensures Pow10(a + b) == Pow10(a) * Pow10(b)
  {
    if a > 0 {
      Pow10Add(a - 1, b);
      assert 10 * Pow10(a - 1) * Pow10(b) == 10 * (Pow10(a - 1) * Pow10(b));
    }
  }

  /** `v` units of `10^-decimals` are `n` units of `10^-scale`. */
  predicate SameAmount(v: int, decimals: nat, n: nat, scale: nat) {
    Times(v, Pow10(scale)) == Times(n, Pow10(decimals))
  }

  lemma Distributes(a: int, b: int, c: int)
    ensures Times(a + b, c) == Times(a, c) + Times(b, c)
  {
  }

  lemma Cancels(a: int, b: int, c: int)
    requires c > 0
    ensures Times(a, c) == Times(b, c) <==> a == b
  {
    assert (a - b) * c == a * c - b * c;
  }

  lemma NoRemainder(v: int, x: int, q: int, e: nat)
    requires e < q
    ensures Times(v, q) == Times(x, q) + e <==> e == 0 && v == x
  {
    var d := v - x;
    assert d * q == v * q - x * q;
    assert d >= 1 ==> (d - 1) * q >= 0;
    assert d <= -1 ==> (d + 1) * q <= 0;
  }

  lemma ShortScales(w: nat, f: nat, p: int, q: int, v: int)
    requires p > 0
    ensures Times(v, p) == Times(Times(w, p) + f, Times(p, q)) <==> v == Times(w, Times(p, q)) + Times(f, q)
  {
    hide Times;
    var x := Times(w, p) + f;
    Regroup(x, p, q);
    Distributes(Times(w, p), f, q);
    Regroup(w, p, q);
    Cancels(v, Times(x, q), p);
  }

  lemma LongScales(w: nat, a: nat, e: nat, p: int, q: int, v: int)
    requires p > 0 && e < q
    ensures Times(v, Times(p, q)) == Times(Times(w, Times(p, q)) + (Times(a, q) + e), p)
       <==> e == 0 && v == Times(w, p) + a
  {
    hide Times;
    var x := Times(w, p) + a;
    Regroup(v, p, q);
    Distributes(Times(w, p), a, q);
    Regroup(w, p, q);
    Cancels(Times(v, q), Times(x, q) + e, p);
    NoRemainder(v, x, q, e);
  }

  lemma ValueJoins(a: JsString, b: JsString)
    requires AllDigits(a) && AllDigits(b)
    ensures AllDigits(a + b) && Value(a + b) == Times(Value(a), Pow10(|b|)) + Value(b)
  {
    ValueConcat(a, b);
  }

  lemma PowersMultiply(a: nat, b: nat)
    ensures Pow10(a + b) == Times(Pow10(a), Pow10(b))
  {
    Pow10Add(a, b);
  }

  lemma ShortFraction(w: JsString, f: JsString, decimals: nat, v: int)
    requires AllDigits(w) && AllDigits(f) && AllDigits(w + f) && |f| <= decimals && AllDigits(Padded(f, decimals))
    ensures SameAmount(v, decimals, Value(w + f), |f|)
       <==> v == Times(Value(w), Pow10(decimals)) + Value(Padded(f, decimals))
  {
    hide Pow10, Padded, Value, Times, Zeros;
    var n := decimals - |f|;
    PaddedIs(f, decimals);
    ValueJoins(w, f);
    ValueJoins(f, Zeros(n));
    ZerosAre(n);
    PowersMultiply(|f|, n);
    ShortScales(Value(w), Value(f), Pow10(|f|), Pow10(n), v);
  }

  lemma LongFraction(w: JsString, a: JsString, e: JsString, v: int)
    requires AllDigits(w) && AllDigits(a) && AllDigits(e) && AllDigits(w + (a + e))
    ensures SameAmount(v, |a|, Value(w + (a + e)), |a + e|)
       <==> !HasNonZero(e) && v == Times(Value(w), Pow10(|a|)) + Value(a)
  {
    hide Pow10, HasNonZero, Value, Times;
    ValueJoins(a, e);
    ValueJoins(w, a + e);
    ValueBound(e);
    ValueZeroIff(e);
    PowersMultiply(|a|, |e|);
    LongScales(Value(w), Value(a), Value(e), Pow10(|a|), Pow10(|e|), v);
  }

  lemma ParsesTo(value: JsString, raw: JsString, decimals: nat)
    requires Trim(value) == raw && IsDecimal(raw) && AllDigits(Whole(raw)) && AllDigits(Padded(Fraction(raw), decimals))
    ensures DecimalToBaseUnits(value, decimals)
         == if HasNonZero(Drop(Fraction(raw), decimals)) then Err(TooManyDecimals)
            else Ok(Times(Value(Whole(raw)), Pow10(decimals)) + Value(Padded(Fraction(raw), decimals)))
  {
    hide Trim, IsDecimal, Whole, Fraction, Padded, Drop, HasNonZero, Times, Value, Pow10, AllDigits;
  }

  lemma ScalesIff(w: JsString, f: JsString, decimals: nat, v: int)
    requires AllDigits(w) && AllDigits(f) && AllDigits(w + f) && AllDigits(Padded(f, decimals))
    ensures SameAmount(v, decimals, Value(w + f), |f|)
       <==> !HasNonZero(Drop(f, decimals)) && v == Times(Value(w), Pow10(decimals)) + Value(Padded(f, decimals))
  {
    hide HasNonZero, SameAmount, Times, Value, Pow10, Padded;
    if |f| <= decimals {
      ValueZeroIff([]);
      NoValue();
      ShortFraction(w, f, decimals, v);
    } else {
      assert f == f[..decimals] + f[decimals..];
      PaddedIs(f, decimals);
      LongFraction(w, f[..decimals], f[decimals..], v);
    }
  }

  lemma NoValue()
    ensures Value([]) == 0
  {
  }

  lemma DecimalParts(raw: JsString)
    requires IsDecimal(raw)
    ensures Whole(raw) != [] && AllDigits(Whole(raw)) && AllDigits(Fraction(raw))
    ensures AllDigits(Whole(raw) + Fraction(raw)) && Unscaled(raw) == Value(Whole(raw) + Fraction(raw))
  {
    ValueConcat(Whole(raw), Fraction(raw));
  }

  lemma Refused(value: JsString, decimals: nat)
    requires !IsDecimal(Trim(value))
    ensures DecimalToBaseUnits(value, decimals) == Err(InvalidAmount)
  {
  }

  /** A decimal is a row of digits, or two with a dot between them. */
  lemma DecimalIff(s: JsString)
    ensures IsDecimal(s) <==>
            || (s != [] && AllDigits(s))
            || (exists d :: 0 < d < |s| - 1 && s[d] == 0x2e && AllDigits(s[..d]) && AllDigits(s[d + 1..]))
  {
    var k := DotAt(s);
    if IsDecimal(s) && k == |s| { assert s[..k] == s; }
    if d :| 0 < d < |s| - 1 && s[d] == 0x2e && AllDigits(s[..d]) && AllDigits(s[d + 1..]) {
      assert forall i | 0 <= i < d :: s[i] == s[..d][i];
      assert k == d;
    }
    if s != [] && AllDigits(s) { assert k == |s| && s[..k] == s; }
  }

  /** It refuses what is no decimal as an invalid amount, and a decimal with a digit too fine as too many decimals. */
  lemma RefusalIs(value: JsString, decimals: nat)
    ensures DecimalToBaseUnits(value, decimals) == Err(InvalidAmount) <==> !IsDecimal(Trim(value))
    ensures DecimalToBaseUnits(value, decimals) == Err(TooManyDecimals)
       <==> IsDecimal(Trim(value)) && exists i :: decimals <= i < |Fraction(Trim(value))|
                                                  && Fraction(Trim(value))[i] != 0x30
  {
    var f := Fraction(Trim(value));
    var rest := Drop(f, decimals);
    if IsDecimal(Trim(value)) {
      assert forall i | decimals <= i < |f| :: rest[i - decimals] == f[i] && IsDigit(f[i]);
      if i :| 0 <= i < |rest| && 0x31 <= rest[i] <= 0x39 { assert f[decimals + i] == rest[i]; }
    }
    hide Trim, IsDecimal, Fraction, Padded, Value, Pow10, Times;
  }

  /** Parsing accepts exactly the unsigned decimals that are whole numbers of base units, and gives that number. */
  lemma ParsesIff(value: JsString, decimals: nat, v: int)
    ensures DecimalToBaseUnits(value, decimals) == Ok(v)
       <==> IsDecimal(Trim(value)) && SameAmount(v, decimals, Unscaled(Trim(value)), |Fraction(Trim(value))|)
  {
    hide *;
    var raw := Trim(value);
    if IsDecimal(raw) {
      DecimalParts(raw);
      PaddedIs(Fraction(raw), decimals);
      ParsesTo(value, raw, decimals);
      ScalesIff(Whole(raw), Fraction(raw), decimals, v);
    } else {
      Refused(value, decimals);
    }
  }

  // ----- printing -----

  lemma {:induction false} DigitsShort(n: nat, d: nat)
    requires d > 0 && n < Pow10(d)
    ensures |Digits(n)| <= d
  {
    if n >= 10 { DigitsShort(n / 10, d - 1); }
  }

  lemma ZerosFront(n: nat)
    requires n > 0
    ensures Zeros(n) == [DIGIT_ZERO] + Zeros(n - 1)
  {
    ZerosAre(n);
    ZerosAre(n - 1);
  }

  /** Padding the digits of a value to the length of the text it was read from restores the text. */
  lemma {:induction false} PadRestores(s: JsString)
    requires s != [] && AllDigits(s)
    ensures PadStart(Digits(Value(s)), |s|) == s
  {
    if |s| > 1 && s[0] == DIGIT_ZERO {
      var rest := s[1..];
      LeadingZero(s);
      hide Value, Digits, Pow10;
      PadRestores(rest);
      ValueBound(rest);
      DigitsShort(Value(rest), |rest|);
      ZerosFront(|s| - |Digits(Value(rest))|);
      assert s == [DIGIT_ZERO] + rest;
    } else {
      DigitsOfValue(s);
    }
  }

  lemma LeadingZero(s: JsString)
    requires s != [] && s[0] == DIGIT_ZERO && AllDigits(s)
    ensures Value(s[1..]) == Value(s)
  {
    assert s == [DIGIT_ZERO] + s[1..];
    ValueConcat([DIGIT_ZERO], s[1..]);
    assert [DIGIT_ZERO][..0] == [];
  }

  lemma {:induction false} StripRestores(s: JsString)
    requires AllDigits(s)
    ensures |StripZeros(s)| <= |s| && s == StripZeros(s) + Zeros(|s| - |StripZeros(s)|) && AllDigits(StripZeros(s))
  {
    if s != [] && s[|s| - 1] == DIGIT_ZERO {
      var c := s[..|s| - 1];
      StripRestores(c);
      assert s == c + [DIGIT_ZERO];
    }
  }

  lemma {:induction false} StripIgnoresZeros(s: JsString, n: nat)
    ensures StripZeros(s + Zeros(n)) == StripZeros(s)
  {
    if n == 0 {
      assert s + Zeros(0) == s;
    } else {
      var t := s + Zeros(n);
      assert t[..|t| - 1] == s + Zeros(n - 1);
      StripIgnoresZeros(s, n - 1);
    }
  }

  lemma DivMod(w: nat, a: nat, b: nat)
    requires a < b
    ensures Quotient(Times(w, b) + a, b) == w && Remainder(Times(w, b) + a, b) == a
  {
    assert w * b >= 0;
    var n := w * b + a;
    assert n == (n / b) * b + n % b;
    NoRemainder(n / b, w, b, if n % b >= a then n % b - a else a - n % b);
    if n % b >= a {
      NoRemainder(w, n / b, b, n % b - a);
    }
  }

  /** A text from its whole part and its fraction, with a dot only if there is a fraction. */
  function Joined(w: JsString, g: JsString): JsString { if g != [] then w + [DOT] + g else w }

  /** What is printed for `w` whole units and the fraction digits `f`. */
  lemma PrintedText(w: nat, f: JsString)
    requires AllDigits(f)
    ensures BaseUnitsToDecimal(Times(w, Pow10(|f|)) + Value(f), |f|) == Joined(Digits(w), StripZeros(f))
  {
    hide *;
    var v := Times(w, Pow10(|f|)) + Value(f);
    ValueBound(f);
    DivMod(w, Value(f), Pow10(|f|));
    PrintsTo(v, |f|);
    NaturalText(w);
    NaturalText(Value(f));
    FractionText(f);
  }

  lemma PrintsTo(value: int, decimals: nat)
    ensures BaseUnitsToDecimal(value, decimals)
         == Joined(IntText(Quotient(value, Pow10(decimals))),
                   StripZeros(PadStart(IntText(Remainder(value, Pow10(decimals))), decimals)))
  {
    hide IntText, Quotient, Remainder, PadStart, StripZeros, Pow10;
  }

  lemma NaturalText(n: nat)
    ensures IntText(n) == Digits(n)
  {
  }

  lemma FractionText(f: JsString)
    requires AllDigits(f)
    ensures StripZeros(PadStart(Digits(Value(f)), |f|)) == StripZeros(f)
  {
    if f != [] {
      PadRestores(f);
    } else {
      assert [DIGIT_ZERO][..0] == [];
    }
  }

  /** A plain text splits where its dot is. */
  lemma SplitsAt(w: JsString, g: JsString)
    requires w != [] && AllDigits(w) && AllDigits(g)
    ensures var s := Joined(w, g);
            Trim(s) == s && IsDecimal(s) && Whole(s) == w && Fraction(s) == g
  {
    var s := Joined(w, g);
    assert IsDigit(w[0]);
    assert s[0] == w[0] && s[|s| - 1] == (if g != [] then g[|g| - 1] else w[|w| - 1]);
    TrimKeeps(s);
    DotAfter(w, if g != [] then [DOT] + g else []);
    if g != [] { assert w + [DOT] + g == w + ([DOT] + g); }
    assert s[..|w|] == w;
  }

  lemma {:induction false} DotAfter(w: JsString, t: JsString)
    requires AllDigits(w) && (t == [] || t[0] == DOT)
    ensures DotAt(w + t) == |w|
  {
    if w != [] {
      assert IsDigit(w[0]);
      assert (w + t)[1..] == w[1..] + t;
      DotAfter(w[1..], t);
    } else {
      assert w + t == t;
    }
  }

  /** Every fraction of base units has its digits. */
  lemma DigitsFill(a: nat, decimals: nat) returns (f: JsString)
    requires a < Pow10(decimals)
    ensures |f| == decimals && AllDigits(f) && Value(f) == a
  {
    if decimals == 0 {
      f := [];
    } else {
      DigitsShort(a, decimals);
      var z := Zeros(decimals - |Digits(a)|);
      ZerosAre(decimals - |Digits(a)|);
      ValueConcat(z, Digits(a));
      ValueOfDigits(a);
      hide Value;
      assert Times(0, Pow10(|Digits(a)|)) == 0;
      f := z + Digits(a);
    }
  }

  lemma ParsesJoined(w: JsString, g: JsString, decimals: nat)
    requires w != [] && AllDigits(w) && AllDigits(g) && |g| <= decimals && AllDigits(g + Zeros(decimals - |g|))
    ensures DecimalToBaseUnits(Joined(w, g), decimals)
         == Ok(Times(Value(w), Pow10(decimals)) + Value(g + Zeros(decimals - |g|)))
  {
    hide *;
    var s := Joined(w, g);
    SplitsAt(w, g);
    PaddedIs(g, decimals);
    NoExtra(g, decimals);
    ParsesTo(s, s, decimals);
  }

  lemma NoExtra(f: JsString, decimals: nat)
    requires |f| <= decimals
    ensures !HasNonZero(Drop(f, decimals))
  {
  }

  /** What is printed parses back to the amount. */
  lemma RoundTrip(v: nat, decimals: nat)
    ensures DecimalToBaseUnits(BaseUnitsToDecimal(v, decimals), decimals) == Ok(v)
  {
    hide BaseUnitsToDecimal, DecimalToBaseUnits, Digits, Value, StripZeros, Pow10;
    var p := Pow10(decimals);
    var w, a := v / p, v % p;
    assert v == Times(w, p) + a;
    hide Times;
    var f := DigitsFill(a, decimals);
    var g := StripZeros(f);
    PrintedText(w, f);
    StripRestores(f);
    ParsesJoined(Digits(w), g, decimals);
    ValueOfDigits(w);
  }

  // ----- negative amounts -----

  lemma {:induction false} StripKeeps(s: JsString, x: Unit)
    requires x in s && x != DIGIT_ZERO
    ensures x in StripZeros(s)
  {
    if s[|s| - 1] == DIGIT_ZERO {
      assert s == s[..|s| - 1] + [s[|s| - 1]];
      StripKeeps(s[..|s| - 1], x);
    }
  }

  lemma {:induction false} TrimStartKeeps(s: JsString, x: Unit)
    requires x in s && !IsSpace(x)
    ensures x in TrimStart(s)
  {
    if IsSpace(s[0]) {
      assert s == [s[0]] + s[1..];
      TrimStartKeeps(s[1..], x);
    }
  }

  lemma {:induction false} TrimEndKeeps(s: JsString, x: Unit)
    requires x in s && !IsSpace(x)
    ensures x in TrimEnd(s)
  {
    if IsSpace(s[|s| - 1]) {
      assert s == s[..|s| - 1] + [s[|s| - 1]];
      TrimEndKeeps(s[..|s| - 1], x);
    }
  }

  lemma DecimalHasNoMinus(s: JsString)
    requires IsDecimal(s)
    ensures MINUS !in s
  {
    var k := DotAt(s);
    forall i | 0 <= i < |s| ensures s[i] != MINUS {
      if i < k { assert IsDigit(Whole(s)[i]); }
      if i > k { assert IsDigit(Fraction(s)[i - k - 1]); }
    }
  }

  lemma NegativePrintsMinus(v: int, decimals: nat)
    requires v < 0
    ensures MINUS in BaseUnitsToDecimal(v, decimals)
  {
    var p := Pow10(decimals);
    var r := Remainder(v, p);
    if r < 0 {
      var padded := PadStart(IntText(r), decimals);
      assert IntText(r)[0] == MINUS;
      assert padded[|padded| - |IntText(r)|] == MINUS;
      StripKeeps(padded, MINUS);
    } else {
      assert -v == (-v / p) * p + -v % p;
      assert Quotient(v, p) != 0;
      assert IntText(Quotient(v, p))[0] == MINUS;
    }
  }

  /** Printing and parsing are inverse exactly on the amounts that are not negative: a negative amount prints a text
      that parsing refuses. */
  lemma RoundTripIff(v: int, decimals: nat)
    ensures DecimalToBaseUnits(BaseUnitsToDecimal(v, decimals), decimals)
         == if v >= 0 then Ok(v) else Err(InvalidAmount)
  {
    if v >= 0 {
      RoundTrip(v, decimals);
    } else {
      var s := BaseUnitsToDecimal(v, decimals);
      NegativePrintsMinus(v, decimals);
      TrimStartKeeps(s, MINUS);
      TrimEndKeeps(TrimStart(s), MINUS);
      if IsDecimal(Trim(s)) { DecimalHasNoMinus(Trim(s)); }
    }
  }

  // ----- normal form -----

  lemma MinusFifteenTenths()
    ensures BaseUnitsToDecimal(-15, 1) == [MINUS, 0x31, DOT, MINUS, 0x35]
  {
    assert Pow10(1) == 10;
    hide Pow10;
    assert Quotient(-15, 10) == -1 && Remainder(-15, 10) == -5;
    hide Quotient, Remainder;
    var five: JsString := [MINUS, 0x35];
    assert IntText(-5) == five && IntText(-1) == [MINUS, 0x31];
    hide IntText;
    assert PadStart(five, 1) == five && StripZeros(five) == five;
  }

  /** For instance, -15 tenths print as `-1.-5`, which does not parse. */
  lemma NegativeDoesNotParse()
    ensures BaseUnitsToDecimal(-15, 1) == [MINUS, 0x31, DOT, MINUS, 0x35]
    ensures DecimalToBaseUnits(BaseUnitsToDecimal(-15, 1), 1) == Err(InvalidAmount)
  {
    hide *;
    MinusFifteenTenths();
    RoundTripIff(-15, 1);
  }

  function StripLeading(s: JsString): JsString {
    if |s| > 1 && s[0] == DIGIT_ZERO then StripLeading(s[1..]) else s
  }

  /** A decimal text without leading zeros, trailing zeros and an idle dot. */
  function Normal(raw: JsString): JsString {
    Joined(StripLeading(Whole(raw)), StripZeros(Fraction(raw)))
  }

  lemma {:induction false} DigitsAreStripped(s: JsString)
    requires s != [] && AllDigits(s)
    ensures Digits(Value(s)) == StripLeading(s)
  {
    if |s| > 1 && s[0] == DIGIT_ZERO {
      LeadingZero(s);
      DigitsAreStripped(s[1..]);
    } else {
      DigitsOfValue(s);
    }
  }

  lemma PaddingIsStripped(f: JsString, decimals: nat)
    requires AllDigits(f) && !HasNonZero(Drop(f, decimals))
    ensures StripZeros(Padded(f, decimals)) == StripZeros(f)
  {
    hide StripZeros, Padded, Zeros, Value;
    PaddedIs(f, decimals);
    if |f| <= decimals {
      StripIgnoresZeros(f, decimals - |f|);
    } else {
      ValueZeroIff(f[decimals..]);
      assert f == f[..decimals] + f[decimals..];
      StripIgnoresZeros(f[..decimals], |f| - decimals);
    }
  }

  /** Printing a parsed text gives its normal form. */
  lemma PrintsNormalForm(value: JsString, decimals: nat)
    ensures var r := DecimalToBaseUnits(value, decimals);
            r.Ok? ==> r.value >= 0 && BaseUnitsToDecimal(r.value, decimals) == Normal(Trim(value))
  {
    hide BaseUnitsToDecimal, Digits, Value, Trim, Whole, Fraction, StripZeros, Padded, Pow10, StripLeading, HasNonZero;
    var r := DecimalToBaseUnits(value, decimals);
    if r.Ok? {
      var w, f := Whole(Trim(value)), Fraction(Trim(value));
      PaddedIs(f, decimals);
      PaddingIsStripped(f, decimals);
      DigitsAreStripped(w);
      PrintedText(Value(w), Padded(f, decimals));
      assert Times(Value(w), Pow10(decimals)) >= 0;
    }
  }
}
