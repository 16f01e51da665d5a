/** A reader of JSON text, written from the grammar of RFC 8259, and the proof that what `stableJson` prints is JSON
    that reads back as what it means. */
module JsonReader {
  import opened Text
  import opened Wrappers
  import opened StableJson

  // ----- strings (section 7) -----

  /** The character a two-character escape stands for. */
  function Unescaped(letter: Unit): Option<Unit> {
    match letter
    case 0x22 => Some(0x22)
    case 0x5c => Some(0x5c)
    case 0x2f => Some(0x2f)
    case 0x62 => Some(0x08)
    case 0x66 => Some(0x0c)
    case 0x6e => Some(0x0a)
    case 0x72 => Some(0x0d)
    case 0x74 => Some(0x09)
    case _ => None
  }

  function HexValue(u: Unit): (d: Option<nat>)
    ensures d.Some? ==> d.value < 16
  {
    if 0x30 <= u <= 0x39 then Some(u - 0x30)
    else if 0x41 <= u <= 0x46 then Some(u - 0x37)
    else if 0x61 <= u <= 0x66 then Some(u - 0x57)
    else None
  }

  /** The code unit that four hexadecimal digits name. */
  function HexUnit(t: JsString): Option<Unit>
    requires |t| == 4
  {
    var a, b, c, d := HexValue(t[0]), HexValue(t[1]), HexValue(t[2]), HexValue(t[3]);
    if a.Some? && b.Some? && c.Some? && d.Some?
    then Some(0x1000 * a.value + 0x100 * b.value + 0x10 * c.value + d.value) else None
  }

  function After(c: JsString, r: Option<(JsString, JsString)>): Option<(JsString, JsString)> {
    if r.Some? then Some((c + r.value.0, r.value.1)) else None
  }

  /** Reads a string after its opening quote, and gives the rest of the text. */
  function ReadString(t: JsString): (r: Option<(JsString, JsString)>)
    ensures r.Some? ==> |r.value.1| < |t|
  {
    if t == [] || t[0] < 0x20 then None
    else if t[0] == 0x22 then Some(([], t[1..]))
    else if t[0] != 0x5c then After([t[0]], ReadString(t[1..]))
    else if |t| >= 2 && Unescaped(t[1]).Some? then After([Unescaped(t[1]).value], ReadString(t[2..]))
    else if |t| >= 6 && t[1] == 0x75 && HexUnit(t[2..6]).Some?
      then After([HexUnit(t[2..6]).value], ReadString(t[6..]))
    else None
  }

  // ----- values (sections 3 to 6) -----

  /** How far a number goes on: digits, signs, the dot and the exponent mark. */
  function NumberLength(t: JsString): (n: nat)
    ensures n <= |t|
  {
    if t != [] && (0x30 <= t[0] <= 0x39 || t[0] in {0x2b, 0x2d, 0x2e, 0x65}) then 1 + NumberLength(t[1..]) else 0
  }

  predicate Starts(t: JsString, word: JsString) { |word| <= |t| && t[..|word|] == word }

  function ReadValue(t: JsString): (r: Option<(Value, JsString)>)
    ensures r.Some? ==> |r.value.1| < |t|
    decreases |t|, 0
  {
    if t == [] then None
    else if t[0] == 0x22 then
      var r := ReadString(t[1..]);
      if r.Some? then Some((VString(r.value.0), r.value.1)) else None
    else if t[0] == 0x5b then
      if |t| > 1 && t[1] == 0x5d then Some((VArray([]), t[2..]))
      else
        var r := ReadItems(t[1..]);
        if r.Some? then Some((VArray(r.value.0), r.value.1)) else None
    else if t[0] == 0x7b then
      if |t| > 1 && t[1] == 0x7d then Some((VObject(map[]), t[2..]))
      else
        var r := ReadFields(t[1..]);
        if r.Some? then Some((VObject(r.value.0), r.value.1)) else None
    else if Starts(t, [0x6e, 0x75, 0x6c, 0x6c]) then Some((VNull, t[4..]))
    else if Starts(t, [0x74, 0x72, 0x75, 0x65]) then Some((VBool(true), t[4..]))
    else if Starts(t, [0x66, 0x61, 0x6c, 0x73, 0x65]) then Some((VBool(false), t[5..]))
    else
      var n := NumberLength(t);
      if IsNumberText(t[..n]) then Some((VNumber(t[..n]), t[n..])) else None
  }

  /** Reads the elements of an array and its closing bracket. */
  function ReadItems(t: JsString): (r: Option<(seq<Value>, JsString)>)
    ensures r.Some? ==> |r.value.1| < |t|
    decreases |t|, 1
  {
    var r := ReadValue(t);
    if r.None? || r.value.1 == [] then None
    else
      var (v, rest) := r.value;
      if rest[0] == 0x5d then Some(([v], rest[1..]))
      else if rest[0] != 0x2c then None
      else
        var more := ReadItems(rest[1..]);
        if more.Some? then Some(([v] + more.value.0, more.value.1)) else None
  }

  /** Reads the members of an object and its closing brace; of two with one name the later counts. */
  function ReadFields(t: JsString): (r: Option<(map<JsString, Value>, JsString)>)
    ensures r.Some? ==> |r.value.1| < |t|
    decreases |t|, 1
  {
    if t == [] || t[0] != 0x22 then None
    else
      var name := ReadString(t[1..]);
      if name.None? || name.value.1 == [] || name.value.1[0] != 0x3a then None
      else
        var r := ReadValue(name.value.1[1..]);
        if r.None? || r.value.1 == [] then None
        else
          var (v, rest) := r.value;
          if rest[0] == 0x7d then Some((map[name.value.0 := v], rest[1..]))
          else if rest[0] != 0x2c then None
          else
            var more := ReadFields(rest[1..]);
            if more.Some? then Some((map[name.value.0 := v] + more.value.0, more.value.1)) else None
  }

  // ----- printed strings read back -----

  lemma HexReads(u: Unit)
    ensures HexUnit(Hex4(u)) == Some(u)
  {
    HexDigits(u);
  }

  lemma PlainReads(u: Unit, y: JsString)
    requires u >= 0x20 && u != QUOTE && u != BACKSLASH
    ensures ReadString([u] + y) == After([u], ReadString(y))
  {
    assert ([u] + y)[1..] == y;
  }

  lemma ShortReads(u: Unit, y: JsString)
    requires ShortEscape(u).Some?
    ensures ReadString([BACKSLASH, ShortEscape(u).value] + y) == After([u], ReadString(y))
  {
    assert ([BACKSLASH, ShortEscape(u).value] + y)[2..] == y;
  }

  lemma LongReads(u: Unit, y: JsString)
    ensures ReadString([BACKSLASH, 0x75] + Hex4(u) + y) == After([u], ReadString(y))
  {
    var t := [BACKSLASH, 0x75] + Hex4(u) + y;
    HexReads(u);
    assert t[0] == BACKSLASH && t[1] == 0x75 && t[2..6] == Hex4(u) && t[6..] == y;
    hide Hex4, HexUnit;
  }

  lemma AfterTwice(c: JsString, d: JsString, r: Option<(JsString, JsString)>)
    ensures After(c, After(d, r)) == After(c + d, r)
  {
    if r.Some? { assert c + (d + r.value.0) == c + d + r.value.0; }
  }

  lemma PieceReads(s: JsString, y: JsString)
    requires s != []
    ensures ReadString(Piece(s) + y) == After(s[..FirstLength(s)], ReadString(y))
  {
    hide ReadString, After, Hex4;
    if FirstLength(s) == 2 {
      assert s[..2] + y == [s[0]] + ([s[1]] + y) && s[..2] == [s[0]] + [s[1]];
      PlainReads(s[0], [s[1]] + y);
      PlainReads(s[1], y);
      AfterTwice([s[0]], [s[1]], ReadString(y));
    } else {
      assert s[..1] == [s[0]];
      if ShortEscape(s[0]).Some? {
        ShortReads(s[0], y);
      } else if s[0] < 0x20 || IsHigh(s[0]) || IsLow(s[0]) {
        LongReads(s[0], y);
      } else {
        PlainReads(s[0], y);
      }
    }
  }

  lemma {:induction false} StringReads(s: JsString, x: JsString)
    ensures ReadString(Closed(s, x)) == Some((s, x))
  {
    hide Piece, FirstLength, Closed;
    ClosedStep(s, x);
    if s == [] {
      assert ([QUOTE] + x)[1..] == x;
    } else {
      var n := FirstLength(s);
      StringReads(s[n..], x);
      PieceReads(s, Closed(s[n..], x));
      assert s == s[..n] + s[n..];
    }
  }

  lemma QuoteReads(s: JsString, x: JsString)
    ensures Quote(s) + x != [] && (Quote(s) + x)[0] == 0x22 && ReadString((Quote(s) + x)[1..]) == Some((s, x))
  {
    AfterQuote(s, x);
    StringReads(s, x);
    hide ReadString, Closed, Escape;
  }

  // ----- printed values read back -----

  lemma {:induction false} NumberEnds(t: JsString, x: JsString)
    requires Ends(x) && forall i | 0 <= i < |t| :: IsNumberUnit(t[i])
    ensures NumberLength(t + x) == |t|
  {
    if t == [] {
      assert t + x == x;
    } else {
      assert (t + x)[0] == t[0] && (t + x)[1..] == t[1..] + x;
      NumberEnds(t[1..], x);
    }
  }

  lemma NumberReads(text: NumberText, x: JsString)
    requires Ends(x)
    ensures ReadValue(text + x) == Some((VNumber(text), x))
  {
    var t := text + x;
    NumberEnds(text, x);
    assert t[..|text|] == text && t[|text|..] == x && t[0] == text[0];
  }

  lemma WordReads(word: JsString, x: JsString)
    ensures Starts(word + x, word) && (word + x)[|word|..] == x
    ensures word != [] ==> (word + x)[0] == word[0]
  {
  }

  lemma AtomReads(j: Json, x: JsString)
    requires !j.Array? && !j.Object? && Ends(x)
    ensures ReadValue(Stable(j) + x) == Some((Meaning(j), x))
  {
    hide Quote, IntText, IsNumberUnit;
    match j {
      case Number(text) => NumberReads(text, x);
      case BigInt(n) => QuoteReads(IntText(n), x);
      case String(s) => QuoteReads(s, x);
      case Null => WordReads([0x6e, 0x75, 0x6c, 0x6c], x);
      case NonFinite => WordReads([0x6e, 0x75, 0x6c, 0x6c], x);
      case Bool(b) =>
        if b { WordReads([0x74, 0x72, 0x75, 0x65], x); } else { WordReads([0x66, 0x61, 0x6c, 0x73, 0x65], x); }
    }
  }

  ghost function Meanings(items: seq<Json>): seq<Value> {
    seq(|items|, i requires 0 <= i < |items| => Meaning(items[i]))
  }

  /** What `stableJson` prints, up to anything that ends a value, reads back as what the value means. */
  lemma {:induction false} ReadsBack(j: Json, x: JsString)
    requires Ends(x)
    ensures ReadValue(Stable(j) + x) == Some((Meaning(j), x))
    decreases j
  {
    match j {
      case Array(items) => ArrayReads(j, x);
      case Object(entries) => ObjectReads(j, x);
      case _ => AtomReads(j, x);
    }
  }

  lemma {:induction false} ArrayReads(j: Json, x: JsString)
    requires j.Array?
    ensures ReadValue(Stable(j) + x) == Some((Meaning(j), x))
    decreases j, 0
  {
    var parts := StableAll(j.items);
    var t := Stable(j) + x;
    BodyOf(OPEN_ARRAY, parts, CLOSE_ARRAY, x);
    assert t[0] == 0x5b && t[1..] == Body(parts, CLOSE_ARRAY, x) && t[1] == t[1..][0] && t[2..] == t[1..][1..];
    assert Meaning(j) == VArray(Meanings(j.items));
    if j.items != [] {
      HeadOfText(j.items[0]);
      assert parts[0] == Stable(j.items[0]) && t[1] == parts[0][0];
      HeadIsNoBracket(j.items[0]);
      hide Stable, Meaning, Join, Body, ReadItems;
      ItemsRead(j.items, x);
    } else {
      assert Meanings(j.items) == [];
      hide Join;
    }
  }

  lemma HeadIsNoBracket(j: Json)
    ensures Stable(j) != [] && Stable(j)[0] != 0x5d
  {
    HeadOfText(j);
  }

  lemma LastItem(t: JsString, v: Value, x: JsString)
    requires ReadValue(t) == Some((v, [CLOSE_ARRAY] + x))
    ensures ReadItems(t) == Some(([v], x))
  {
    assert ([CLOSE_ARRAY] + x)[1..] == x;
  }

  lemma NextItem(t: JsString, v: Value, more: JsString, vs: seq<Value>, x: JsString)
    requires ReadValue(t) == Some((v, [COMMA] + more)) && ReadItems(more) == Some((vs, x))
    ensures ReadItems(t) == Some(([v] + vs, x))
  {
    assert ([COMMA] + more)[1..] == more;
  }

  lemma {:induction false} ItemsRead(items: seq<Json>, x: JsString)
    requires items != []
    ensures ReadItems(Body(StableAll(items), CLOSE_ARRAY, x)) == Some((Meanings(items), x))
    decreases items, 0
  {
    hide Stable, Meaning, Tail, ReadValue, ReadItems;
    var parts, rest, v := StableAll(items), items[1..], Meaning(items[0]);
    assert parts[1..] == StableAll(rest);
    var t, tail := Body(parts, CLOSE_ARRAY, x), Tail(parts[1..], CLOSE_ARRAY, x);
    TailStep(parts[1..], CLOSE_ARRAY, x);
    ReadsBack(items[0], tail);
    if rest == [] {
      assert Meanings(items) == [v];
      LastItem(t, v, x);
    } else {
      assert Meanings(items) == [v] + Meanings(rest);
      ItemsRead(rest, x);
      NextItem(t, v, Body(parts[1..], CLOSE_ARRAY, x), Meanings(rest), x);
    }
  }

  lemma {:induction false} ObjectReads(j: Json, x: JsString)
    requires j.Object?
    ensures ReadValue(Stable(j) + x) == Some((Meaning(j), x))
    decreases j, |SortedKeys(j.entries)|, 1
  {
    var keys := SortedKeys(j.entries);
    var parts := StableFields(j, keys);
    var t := Stable(j) + x;
    BodyOf(OPEN_OBJECT, parts, CLOSE_OBJECT, x);
    assert t[0] == 0x7b && t[1..] == Body(parts, CLOSE_OBJECT, x) && t[1] == t[1..][0] && t[2..] == t[1..][1..];
    MeaningOfFields(j);
    if keys != [] {
      FieldHead(j, keys);
      hide Stable, Meaning, Join, Body, ReadFields, StableFields, SortedKeys;
      FieldsRead(j, keys, x);
    } else {
      hide Join;
    }
  }

  ghost function FieldMeanings(j: Json, keys: seq<JsString>): map<JsString, Value>
    requires j.Object? && forall k | k in keys :: k in KeySet(j.entries)
  {
    map k | k in keys :: Meaning(ValueAt(j, k))
  }

  lemma MeaningOfFields(j: Json)
    requires j.Object?
    ensures Meaning(j) == VObject(FieldMeanings(j, SortedKeys(j.entries)))
  {
    assert Meaning(j).fields == FieldMeanings(j, SortedKeys(j.entries));
  }

  lemma LastField(k: JsString, t: JsString, v: Value, x: JsString)
    requires ReadValue(t) == Some((v, [CLOSE_OBJECT] + x))
    ensures ReadFields(Quote(k) + ([COLON] + t)) == Some((map[k := v], x))
  {
    QuoteReads(k, [COLON] + t);
    hide ReadValue, ReadString, Quote;
    assert ([COLON] + t)[1..] == t && ([CLOSE_OBJECT] + x)[1..] == x;
  }

  lemma NextField(k: JsString, t: JsString, v: Value, more: JsString, fields: map<JsString, Value>, x: JsString)
    requires ReadValue(t) == Some((v, [COMMA] + more)) && ReadFields(more) == Some((fields, x))
    ensures ReadFields(Quote(k) + ([COLON] + t)) == Some((map[k := v] + fields, x))
  {
    QuoteReads(k, [COLON] + t);
    hide ReadValue, ReadString, Quote;
    assert ([COLON] + t)[1..] == t && ([COMMA] + more)[1..] == more;
  }

  lemma FirstFieldOf(j: Json, keys: seq<JsString>, x: JsString)
    requires j.Object? && keys != [] && forall k | k in keys :: k in KeySet(j.entries)
    ensures var parts := StableFields(j, keys);
            && parts[1..] == StableFields(j, keys[1..])
            && Body(parts, CLOSE_OBJECT, x)
               == Quote(keys[0]) + ([COLON] + (Stable(ValueAt(j, keys[0])) + Tail(parts[1..], CLOSE_OBJECT, x)))
  {
    hide Quote, Stable, Tail;
  }

  lemma {:induction false} FieldsRead(j: Json, keys: seq<JsString>, x: JsString)
    requires j.Object? && keys != [] && forall k | k in keys :: k in KeySet(j.entries)
    ensures ReadFields(Body(StableFields(j, keys), CLOSE_OBJECT, x)) == Some((FieldMeanings(j, keys), x))
    decreases j, |keys|, 0
  {
    hide Stable, Meaning, Tail, Body, ReadValue, ReadFields, Quote, StableFields;
    var parts, rest, k, v := StableFields(j, keys), keys[1..], keys[0], ValueAt(j, keys[0]);
    FirstFieldOf(j, keys, x);
    var tail := Tail(parts[1..], CLOSE_OBJECT, x);
    TailStep(parts[1..], CLOSE_OBJECT, x);
    ReadsBack(v, tail);
    if rest == [] {
      assert FieldMeanings(j, keys) == map[k := Meaning(v)];
      LastField(k, Stable(v) + tail, Meaning(v), x);
    } else {
      assert FieldMeanings(j, keys) == map[k := Meaning(v)] + FieldMeanings(j, rest);
      FieldsRead(j, rest, x);
      BodyIs(parts[1..], CLOSE_OBJECT, x);
      NextField(k, Stable(v) + tail, Meaning(v), Body(parts[1..], CLOSE_OBJECT, x), FieldMeanings(j, rest), x);
    }
  }

  lemma BodyIs(parts: seq<JsString>, close: Unit, x: JsString)
    ensures parts != [] ==> Body(parts, close, x) == parts[0] + Tail(parts[1..], close, x)
  {
  }

  /** The whole text of a value reads back as what it means, and nothing is left. */
  lemma TextReadsBack(j: Json)
    ensures ReadValue(Stable(j)) == Some((Meaning(j), []))
  {
    ReadsBack(j, []);
    assert Stable(j) + [] == Stable(j);
  }

  // ----- what follows -----

  /** So a value's text fixes its meaning and where it stops, whatever ends it. */
  lemma TextIsPrefixFree(a: Json, b: Json, x: JsString, y: JsString)
    requires Ends(x) && Ends(y) && Stable(a) + x == Stable(b) + y
    ensures Meaning(a) == Meaning(b) && x == y
  {
    ReadsBack(a, x);
    ReadsBack(b, y);
  }

  /** And an escaped string with its closing quote fixes the string and its end. */
  lemma EscapeIsPrefixFree(a: JsString, b: JsString, x: JsString, y: JsString)
    requires Escape(a) + [QUOTE] + x == Escape(b) + [QUOTE] + y
    ensures a == b && x == y
  {
    StringReads(a, x);
    StringReads(b, y);
  }

  /** The text is canonical: it says exactly what the value means. */
  lemma StableIsCanonical(a: Json, b: Json)
    requires WellFormed(a) && WellFormed(b)
    ensures Stable(a) == Stable(b) <==> Meaning(a) == Meaning(b)
  {
    if Meaning(a) == Meaning(b) { SameMeaningSameText(a, b); }
    if Stable(a) == Stable(b) {
      TextReadsBack(a);
      TextReadsBack(b);
    }
  }

  /** A big integer shares its text with exactly one string: its decimal digits. */
  lemma BigIntCollidesWithItsDigits(n: int, j: Json)
    requires WellFormed(j)
    ensures Stable(BigInt(n)) == Stable(j) <==> j == BigInt(n) || j == String(IntText(n))
  {
    StableIsCanonical(BigInt(n), j);
    if j.BigInt? && IntText(n) == IntText(j.n) { IntTextIsInjective(n, j.n); }
  }

  /** For instance, the big integer 12 and the string `12` both print as `"12"`. */
  lemma TwelvePrintsTwice()
    ensures Stable(BigInt(12)) == Stable(String([0x31, 0x32])) == [QUOTE, 0x31, 0x32, QUOTE]
  {
    assert Digits(12) == Digits(1) + [0x32];
    var text: JsString := [0x31, 0x32];
    assert IntText(12) == text;
    BigIntCollidesWithItsDigits(12, String(text));
    assert Quote(text) == [QUOTE, 0x31, 0x32, QUOTE];
  }
}
