/** Which of its forms the encoder takes (`toon.py`): every document below would also be read back in
    another form, so these are what the round trip leaves open. */
module ToonChoices {
  import opened Wrappers
  import opened Text
  import opened Toon
  import opened ToonDecoder
  import opened ToonTokens
  import ToonExactness

  // ---- tables ----

  /** One set of keys, and each key's values all primitive or a table in turn. */
  ghost predicate Uniform(items: seq<Json>)
    requires items != []
    decreases items[0]
  {
    && (forall x | x in items :: x.Obj? && x.fields != [])
    && (forall x, y, k | x in items && y in items && k in Keys(x.fields) :: k in Keys(y.fields))
    && forall k | k in Keys(items[0].fields) :: UniformAt(items, k)
  }

  ghost predicate UniformAt(items: seq<Json>, key: string)
    requires items != [] && forall x | x in items :: x.Obj? && key in Keys(x.fields)
    decreases items[0], 0
  {
    var column := ColumnOf(items, key);
    assert column[0] < items[0] by { assert Member(key, column[0]) in items[0].fields; }
    (forall v | v in column :: !v.List? && !v.Obj?) || Uniform(column)
  }

  lemma ShapeIsSame(items: seq<Json>)
    requires items != []
    ensures SameShape(items) <==>
      && (forall x | x in items :: x.Obj? && x.fields != [])
      && (forall x, y, k | x in items && y in items && k in Keys(x.fields) :: k in Keys(y.fields))
  {
    assert items[0] in items;
    if forall x | x in items :: x.Obj? && x.fields != [] {
      if forall x, y, k | x in items && y in items && k in Keys(x.fields) :: k in Keys(y.fields) {
        forall x | x in items ensures Keys(x.fields) == Keys(items[0].fields) {
        }
      }
    }
  }

  /** An array is a table exactly if its items are uniform. */
  lemma {:induction false} TableExactly(items: seq<Json>)
    requires items != []
    ensures Columns(items).Some? <==> Uniform(items)
    decreases items[0], 1, 0
  {
    ShapeIsSame(items);
    if SameShape(items) {
      HeaderExactly(items, items[0].fields);
    }
  }

  lemma {:induction false} ColumnExactly(items: seq<Json>, key: string)
    requires items != [] && SameShape(items) && key in Keys(items[0].fields)
    ensures ColumnFor(items, key).Some? <==> UniformAt(items, key)
    decreases items[0], 0, 0
  {
    var column := ColumnOf(items, key);
    assert column[0] < items[0] by { assert Member(key, column[0]) in items[0].fields; }
    TableExactly(column);
  }

  lemma {:induction false} HeaderExactly(items: seq<Json>, fields: seq<Member>)
    requires items != [] && SameShape(items) && Keys(fields) <= Keys(items[0].fields)
    ensures ColumnsFor(items, fields).Some? <==> forall k | k in Keys(fields) :: UniformAt(items, k)
    decreases items[0], 0, |fields|
  {
    if fields != [] {
      assert fields[0].key in Keys(fields) && Keys(fields[1..]) <= Keys(fields);
      assert Keys(fields) == {fields[0].key} + Keys(fields[1..]) by { ConsTail(fields); }
      ColumnExactly(items, fields[0].key);
      HeaderExactly(items, fields[1..]);
    }
  }

  /** A header names the first item's keys in order; a column of primitives is a leaf, any other a group with
      the header of its own values. */
  lemma HeaderNames(items: seq<Json>, i: nat)
    requires items != [] && Columns(items).Some? && i < |items[0].fields|
    ensures var cs, key := Columns(items).value, items[0].fields[i].key;
      |cs| == |items[0].fields| && key in Keys(items[0].fields) && SameShape(items)
      && ColumnIs(cs[i], key, ColumnOf(items, key))
  {
    ColumnsForFit(items, items[0].fields);
    ToonExactness.ColumnAt(items, items[0].fields, i);
    var column := ColumnOf(items, items[0].fields[i].key);
    if Columns(column).Some? {
      TableIsNotFlat(column);
    }
  }

  ghost predicate ColumnIs(c: Column, key: string, column: seq<Json>)
    requires column != []
  {
    c == if forall v | v in column :: !v.List? && !v.Obj? then Leaf(key)
         else if Columns(column).Some? then Group(key, Columns(column).value)
         else Leaf("")
  }

  lemma TableIsNotFlat(items: seq<Json>)
    requires items != [] && Columns(items).Some?
    ensures !AllPrimitive(items)
  {
    assert items[0] in items;
  }

  lemma Opens(rest: string)
    ensures ": " <= ": " + rest && !("{" <= ": " + rest) && ": " + rest != ":"
    ensures "{" <= "{" + rest && !(": " <= "{" + rest) && "{" + rest != ":"
    ensures !(": " <= ":") && !("{" <= ":")
  {
    assert (": " + rest)[0] == ':' && ("{" + rest)[0] == '{' && "{"[0] == '{' && ": "[0] == ':';
    assert |": " + rest| >= 2;
  }

  lemma FlatExactly(items: seq<Json>)
    requires items != []
    ensures AllPrimitive(items) <==> forall x | x in items :: !x.List? && !x.Obj?
    ensures AllPrimitive(items) ==> Columns(items).None?
  {
    if Columns(items).Some? {
      TableIsNotFlat(items);
    }
  }

  /** What follows the count of an array: a row if all its items are primitive, a header if they are
      uniform, and a list otherwise. */
  lemma LayoutExactly(items: seq<Json>)
    requires items != []
    ensures ": " <= ShapeText(items) <==> forall x | x in items :: !x.List? && !x.Obj?
    ensures "{" <= ShapeText(items) <==> Uniform(items)
    ensures ShapeText(items) == ":" <==> !Uniform(items) && exists x :: x in items && (x.List? || x.Obj?)
  {
    TableExactly(items);
    FlatExactly(items);
    Opens(if AllPrimitive(items) then Join(",", ScalarTexts(items))
          else if Columns(items).Some? then Join(",", ColumnTexts(Columns(items).value)) + ("}" + ":")
          else "");
  }

  // ---- numerals ----

  lemma AsciiIsDigit(c: char)
    requires c as int < 0x80
    ensures IsDecimal(c) <==> '0' <= c <= '9'
  {
  }

  predicate AllDecimal(s: string) { forall c | c in s :: IsDecimal(c) }

  predicate Sign(s: string) { s == "" || s == "+" || s == "-" }

  /** `.` and digits, or nothing. */
  predicate Fraction(s: string) { s == "" || (s[0] == '.' && AllDecimal(s[1..])) }

  /** `e`, a sign and digits, or nothing. */
  predicate Exponent(s: string) {
    s == "" || ((s[0] == 'e' || s[0] == 'E') && AfterSign(s[1..]) != "" && AllDecimal(AfterSign(s[1..])))
  }

  predicate Parts(t: string, sign: string, whole: string, fraction: string, exponent: string, end: string) {
    && t == sign + (whole + (fraction + (exponent + end)))
    && Sign(sign) && AllDecimal(whole) && Fraction(fraction) && Exponent(exponent) && AtDollar(end)
    && (whole != "" || |fraction| > 1)
  }

  /** What a reader takes for a number, and with a newline after it. */
  ghost predicate Numeral(t: string) {
    exists sign, whole, fraction, exponent, end :: Parts(t, sign, whole, fraction, exponent, end)
  }

  lemma NotDecimal(c: char)
    requires c == '+' || c == '-' || c == '.' || c == 'e' || c == 'E' || c == '\n'
    ensures !IsDecimal(c)
  {
    AsciiIsDigit(c);
  }

  lemma SignFirst(sign: string, rest: string)
    requires Sign(sign) && (sign != "" || rest == "" || (rest[0] != '+' && rest[0] != '-'))
    ensures AfterSign(sign + rest) == rest
  {
  }

  lemma ExponentReads(exponent: string, end: string)
    requires Exponent(exponent) && AtDollar(end)
    ensures ExponentTail(exponent + end)
  {
    if exponent == "" {
      NilRight(end);
    } else {
      var t, digits := exponent + end, AfterSign(exponent[1..]);
      assert t[0] == exponent[0] && t[1..] == exponent[1..] + end;
      if digits == exponent[1..] {
        assert digits[0] in digits;
        NotDecimal('+');
        NotDecimal('-');
        assert AfterSign(t[1..]) == digits + end;
      } else {
        assert AfterSign(t[1..]) == digits + end;
      }
      NotDecimal('\n');
      RunStops(IsDecimal, digits, end);
      assert (digits + end)[|digits|..] == end;
    }
  }

  lemma FractionReads(whole: string, fraction: string, rest: string)
    requires AllDecimal(whole) && Fraction(fraction) && (whole != "" || |fraction| > 1)
    requires ExponentTail(rest) && (rest == "" || (!IsDecimal(rest[0]) && rest[0] != '.'))
    ensures var u := whole + (fraction + rest); u != "" && AfterSign(u) == u ==> LooksNumeric(u)
  {
    var u := whole + (fraction + rest);
    NotDecimal('.');
    if fraction == "" {
      NilRight(rest);
      RunStops(IsDecimal, whole, rest);
      assert u[|whole|..] == rest;
    } else {
      var digits := fraction[1..];
      assert fraction + rest == ['.'] + (digits + rest);
      RunStops(IsDecimal, whole, fraction + rest);
      assert u[|whole|..] == fraction + rest && (fraction + rest)[1..] == digits + rest;
      RunStops(IsDecimal, digits, rest);
      assert (digits + rest)[|digits|..] == rest;
    }
  }

  lemma SpelledNumeral(t: string, sign: string, whole: string, fraction: string, exponent: string, end: string)
    requires Parts(t, sign, whole, fraction, exponent, end)
    ensures LooksNumeric(t)
  {
    var rest := exponent + end;
    var u := whole + (fraction + rest);
    ExponentReads(exponent, end);
    NotDecimal('e');
    NotDecimal('E');
    NotDecimal('\n');
    NotDecimal('+');
    NotDecimal('-');
    assert rest != "" ==> rest[0] == if exponent == "" then end[0] else exponent[0];
    assert u != "" && u[0] == if whole != "" then whole[0] else fraction[0];
    assert whole != "" ==> whole[0] in whole;
    SignFirst(sign, u);
    SignFirst("", u);
    NilRight(u);
    FractionReads(whole, fraction, rest);
    SignedLooks(t, u);
  }

  lemma SignedLooks(t: string, u: string)
    requires AfterSign(t) == u && AfterSign(u) == u
    ensures LooksNumeric(t) == LooksNumeric(u)
  {
  }

  lemma SignParts(t: string) returns (sign: string)
    ensures t == sign + AfterSign(t) && Sign(sign)
  {
    sign := t[..|t| - |AfterSign(t)|];
  }

  lemma PowerParts(t: string, sign: string, u: string, k: nat) returns (exponent: string, end: string)
    requires t != "" && t[1..] == sign + u && k <= |u|
    ensures t == exponent + end && end == u[k..] && exponent != "" && exponent[0] == t[0]
    ensures exponent[1..] == sign + u[..k]
  {
    exponent, end := [t[0]] + (sign + u[..k]), u[k..];
    ConsParts(t[0], sign + u[..k]);
    ConsTail(t);
    assert u == u[..k] + end;
    Assoc(sign, u[..k], end);
    Assoc([t[0]], sign + u[..k], end);
  }

  lemma PowerIsExponent(exponent: string, sign: string, digits: string)
    requires exponent != "" && (exponent[0] == 'e' || exponent[0] == 'E') && exponent[1..] == sign + digits
    requires Sign(sign) && digits != "" && AllDecimal(digits)
    ensures Exponent(exponent)
  {
    assert digits[0] in digits;
    NotDecimal('+');
    NotDecimal('-');
    SignFirst(sign, digits);
  }

  lemma ExponentParts(t: string) returns (exponent: string, end: string)
    requires ExponentTail(t)
    ensures t == exponent + end && Exponent(exponent) && AtDollar(end)
  {
    if AtDollar(t) {
      exponent, end := "", t;
      NilRight(t);
    } else {
      var u := AfterSign(t[1..]);
      var sign := SignParts(t[1..]);
      exponent, end := PowerParts(t, sign, u, Run(IsDecimal, u));
      PowerIsExponent(exponent, sign, u[..Run(IsDecimal, u)]);
    }
  }

  lemma PointedParts(w: string, rest: string) returns (fraction: string)
    requires w != "" && w[0] == '.' && rest == w[1..][Run(IsDecimal, w[1..])..]
    ensures w == fraction + rest && Fraction(fraction) && |fraction| == 1 + Run(IsDecimal, w[1..])
  {
    var x, m := w[1..], Run(IsDecimal, w[1..]);
    fraction := w[..m + 1];
    assert fraction[1..] == x[..m];
    assert w == w[..m + 1] + w[m + 1..] && w[m + 1..] == x[m..];
  }

  lemma UnsignedParts(t: string, u: string) returns (whole: string, fraction: string, rest: string)
    requires u == AfterSign(t) && LooksNumeric(t)
    ensures u == whole + (fraction + rest) && AllDecimal(whole) && Fraction(fraction) && ExponentTail(rest)
    ensures whole != "" || |fraction| > 1
  {
    var k := Run(IsDecimal, u);
    var w := u[k..];
    whole, fraction, rest := u[..k], "", w;
    assert u == u[..k] + u[k..];
    if w != "" && w[0] == '.' {
      rest := w[1..][Run(IsDecimal, w[1..])..];
      fraction := PointedParts(w, rest);
    } else {
      NilRight(w);
    }
  }

  lemma NumeralHasParts(t: string)
    requires LooksNumeric(t)
    ensures Numeral(t)
  {
    var sign := SignParts(t);
    var whole, fraction, rest := UnsignedParts(t, AfterSign(t));
    var exponent, end := ExponentParts(rest);
    assert Parts(t, sign, whole, fraction, exponent, end);
  }

  /** A text looks numeric exactly if it is a sign, digits with a point among or before them, and an
      exponent, each but the digits optional; a newline may follow. */
  lemma NumeralExactly(t: string)
    ensures LooksNumeric(t) <==> Numeral(t)
  {
    if LooksNumeric(t) {
      NumeralHasParts(t);
    }
    if sign, whole, fraction, exponent, end :| Parts(t, sign, whole, fraction, exponent, end) {
      SpelledNumeral(t, sign, whole, fraction, exponent, end);
    }
  }

  // ---- strings ----

  const STRUCTURE: string := ":\"\\[]{},"

  /** Nothing that structure is made of, and no control character. */
  predicate Unstructured(t: string) { forall c | c in t :: c >= ' ' && c !in STRUCTURE }

  lemma StructureIs(c: char)
    ensures c in STRUCTURE <==> ForcesQuotes(c)
  {
    assert STRUCTURE[0] == ':' && STRUCTURE[1] == '"' && STRUCTURE[2] == '\\' && STRUCTURE[3] == '[';
    assert STRUCTURE[4] == ']' && STRUCTURE[5] == '{' && STRUCTURE[6] == '}' && STRUCTURE[7] == ',';
  }

  lemma QuietExactly(t: string)
    ensures Quiet(t) <==> Unstructured(t)
  {
    forall c ensures c in STRUCTURE <==> ForcesQuotes(c) {
      StructureIs(c);
    }
  }

  /** No space at either end. */
  predicate Trim(t: string) { t != "" && !IsSpace(t[0]) && !IsSpace(t[|t| - 1]) }

  lemma TrimExactly(t: string)
    ensures t != "" && t == Strip(t) <==> Trim(t)
  {
    if Trim(t) {
      StripFixes(t);
    } else if t != "" {
      var k := Run(IsSpace, t);
      assert |Strip(t)| <= |LStrip(t)| == |t| - k;
      assert k == 0 ==> LStrip(t) == t;
    }
  }

  lemma QuotesShow(t: string)
    ensures Quoted(t) != t
  {
    EscapedIsLonger(t);
  }

  lemma {:induction false} EscapedIsLonger(t: string)
    ensures |Escaped(t)| >= |t|
  {
    if t != "" {
      EscapedIsLonger(t[1..]);
    }
  }

  /** A string is written without quotes exactly if it has no space at its ends, no `-` or `#` in front, nothing
      that structure is made of, and is neither a word of the format nor a number ... */
  lemma BareExactly(t: string)
    ensures StringText(t) == t <==>
      Trim(t) && t[0] != '-' && t[0] != '#' && Unstructured(t) && !Reserved(t) && !Numeral(t)
  {
    TrimExactly(t);
    QuietExactly(t);
    NumeralExactly(t);
    QuotesShow(t);
  }

  /** ... so exactly if the bare token would be read back as it, and nothing in front or around it misleads. */
  lemma BareIfReadBack(t: string)
    ensures StringText(t) == t <==> Trim(t) && t[0] != '-' && t[0] != '#' && Interpret(t) == Some(Str(t))
  {
    TrimExactly(t);
    QuotesShow(t);
  }

  /** An escape is as long as it must be: one character stays itself unless it is a quote, a backslash or a
      control character; five of these have an escape of two characters, and the rest one of six. */
  lemma EscapesExactly(c: char)
    ensures Escape(c) == [c] <==> c >= ' ' && c != '"' && c != '\\'
    ensures |Escape(c)| == 2 <==> c == '"' || c == '\\' || c == '\n' || c == '\r' || c == '\t'
    ensures |Escape(c)| == 1 || |Escape(c)| == 2 || |Escape(c)| == 6
  {
  }

  /** A whole number has no sign but a minus and no zero in front. */
  lemma {:induction false} NoLeadingZero(n: nat)
    ensures NatText(n)[0] == '0' <==> n == 0
    ensures n == 0 ==> NatText(n) == "0"
  {
    if n >= 10 {
      NoLeadingZero(n / 10);
    }
  }

  // ---- keys ----

  predicate WordChar(c: char) { 'a' <= c <= 'z' || 'A' <= c <= 'Z' || c == '_' }

  /** A letter or underscore, and letters, digits, underscores and dots after it. */
  predicate Word(t: string) {
    t != "" && WordChar(t[0]) && forall c | c in t :: WordChar(c) || '0' <= c <= '9' || c == '.'
  }

  /** A key is written without quotes exactly if it is a word, or a word and a newline. */
  lemma KeyBareExactly(key: string)
    ensures KeyText(key) == key <==> Word(key) || exists word :: Word(word) && key == word + "\n"
  {
    QuotesShow(key);
    WordsAreBare(key);
    if NewlineKey(key) {
      var word := key[..|key| - 1];
      WordsAreBare(word);
      assert key == word + "\n";
    }
    if word :| Word(word) && key == word + "\n" {
      WordsAreBare(word);
      assert key[..|key| - 1] == word;
    }
  }

  lemma WordsAreBare(t: string)
    ensures Word(t) <==> Bare(t)
  {
  }
}
