/** The decoder reads back every token the encoder writes: strings, scalars, rows, keys, headers.

    Each result is about one token with anything allowed after it, so that larger layouts can be
    put together from these. */
module ToonTokens {
  import opened Wrappers
  import opened Text
  import opened Toon
  import opened ToonDecoder

  // ---- strings ----

  lemma QuotedStep(c: char, u: string, s: string, rest: string)
    requires ReadQuoted(u) == Some((s, rest))
    ensures ReadQuoted(Escape(c) + u) == Some(([c] + s, rest))
  {
    var e := Escape(c);
    assert (e + u)[|e|..] == u && (e + u)[0] == e[0];
  }

  lemma {:induction false} QuotedReads(s: string, rest: string)
    ensures ReadQuoted(Escaped(s) + ("\"" + rest)) == Some((s, rest))
  {
    var tail := "\"" + rest;
    if s == "" {
      NilRight(tail);
      ConsParts('"', rest);
    } else {
      QuotedReads(s[1..], rest);
      QuotedStep(s[0], Escaped(s[1..]) + tail, s[1..], rest);
      Assoc(Escape(s[0]), Escaped(s[1..]), tail);
      ConsTail(s);
    }
  }

  lemma OpensWith(body: string, rest: string)
    ensures (("\"" + body) + "\"") + rest == ['"'] + (body + ("\"" + rest))
    ensures ((("\"" + body) + "\"") + rest)[1..] == body + ("\"" + rest)
  {
    Assoc("\"" + body, "\"", rest);
    Assoc("\"", body, "\"" + rest);
    ConsParts('"', body + ("\"" + rest));
  }

  lemma QuotedOpens(s: string, rest: string)
    ensures Quoted(s) + rest != "" && (Quoted(s) + rest)[0] == '"'
    ensures ReadQuoted((Quoted(s) + rest)[1..]) == Some((s, rest))
  {
    QuotedReads(s, rest);
    OpensWith(Escaped(s), rest);
  }

  // ---- scalars ----

  lemma DigitsLookNumeric(s: string)
    requires s != "" && forall c | c in s :: IsDigit(c)
    ensures LooksNumeric(s) && LooksNumeric("-" + s)
  {
    assert AfterSign(s) == s by { assert s[0] in s; }
    assert AfterSign("-" + s) == s;
  }

  lemma IntReads(s: string)
    requires s != "" && AllDigits(s)
    ensures ReadInt(s) == Some(Int(NatValue(s)))
    ensures ReadInt("-" + s) == Some(Int(0 - NatValue(s)))
  {
    assert s[0] in s;
    var m := "-" + s;
    assert m[0] == '-' && m[1..] == s;
  }

  lemma NumeralReads(t: string)
    requires t != "" && Quiet(t) && !Reserved(t) && LooksNumeric(t)
    ensures Interpret(t) == ReadInt(t)
  {
  }

  lemma MinusQuiet(s: string)
    requires AllDigits(s)
    ensures Quiet(s) && Quiet("-" + s) && ("-" + s)[0] == '-'
  {
  }

  lemma DigitsRead(s: string)
    requires s != "" && AllDigits(s)
    ensures Interpret(s) == Some(Int(NatValue(s)))
    ensures Interpret("-" + s) == Some(Int(0 - NatValue(s)))
  {
    DigitsLookNumeric(s);
    IntReads(s);
    assert IsDigit(s[0]) by { assert s[0] in s; }
    var m := "-" + s;
    MinusQuiet(s);
    NotReserved(s);
    NotReserved(m);
    NumeralReads(s);
    NumeralReads(m);
  }

  lemma NotReserved(t: string)
    requires t != "" && t[0] != 'n' && t[0] != 't' && t[0] != 'f'
    ensures !Reserved(t)
  {
  }

  lemma IntShape(n: int)
    ensures PlainToken(IntText(n)) && Interpret(IntText(n)) == Some(Int(n))
  {
    var k := if n < 0 then -n else n;
    var digits := NatText(k);
    NatTextValue(k);
    DigitsRead(digits);
    assert digits[0] in digits;
    assert forall c | c in "-" + digits :: c == '-' || c in digits;
  }

  /** A scalar either is a quoted string or is a plain token. */
  predicate PlainToken(t: string) { t != "" && t[0] != ' ' && Quiet(t) }

  lemma StringShape(s: string)
    requires !NeedsQuotes(s)
    ensures PlainToken(s) && Interpret(s) == Some(Str(s))
  {
  }

  predicate IsQuoted(v: Json) { v.Str? && NeedsQuotes(v.s) }

  lemma ScalarShape(v: Json)
    requires IsPrimitive(v) && !IsQuoted(v)
    ensures PlainToken(ScalarText(v)) && ScalarText(v)[0] != '"' && Interpret(ScalarText(v)) == Some(v)
  {
    match v {
      case Str(s) => StringShape(s);
      case Int(n) => IntShape(n);
      case Bool(b) =>
      case Null =>
    }
    assert ScalarText(v)[0] in ScalarText(v);
  }

  lemma PlainTokenReads(t: string, v: Json, rest: string)
    requires PlainToken(t) && t[0] != '"' && Interpret(t) == Some(v)
    requires rest == "" || rest[0] == ','
    ensures ReadToken(t + rest) == Some((v, rest))
  {
    assert forall c | c in t :: NotComma(c);
    RunStops(NotComma, t, rest);
    assert (t + rest)[..|t|] == t && (t + rest)[|t|..] == rest;
    assert (t + rest)[0] == t[0];
  }

  lemma TokenReads(v: Json, rest: string)
    requires IsPrimitive(v)
    requires rest == "" || rest[0] == ','
    ensures ReadToken(ScalarText(v) + rest) == Some((v, rest))
  {
    if IsQuoted(v) {
      QuotedOpens(v.s, rest);
    } else {
      ScalarShape(v);
      PlainTokenReads(ScalarText(v), v, rest);
    }
  }

  lemma ScalarReads(v: Json)
    requires IsPrimitive(v)
    ensures ReadScalar(ScalarText(v)) == Some(v)
  {
    TokenReads(v, "");
    assert ScalarText(v) + "" == ScalarText(v);
  }

  lemma JoinCons(parts: seq<string>)
    requires |parts| > 1
    ensures Join(",", parts) == parts[0] + ("," + Join(",", parts[1..]))
  {
  }

  lemma {:induction false} CellsRead(vs: seq<Json>)
    requires vs != [] && AllPrimitive(vs)
    ensures ReadCells(Join(",", ScalarTexts(vs))) == Some(vs)
  {
    var texts := ScalarTexts(vs);
    if |vs| == 1 {
      TokenReads(vs[0], "");
      assert texts == [ScalarText(vs[0])] && ScalarText(vs[0]) + "" == ScalarText(vs[0]);
      JoinOne(texts[0]);
      assert vs == [vs[0]];
    } else {
      ConsParts(ScalarText(vs[0]), ScalarTexts(vs[1..]));
      CellsRead(vs[1..]);
      var tail := Join(",", texts[1..]);
      TokenReads(vs[0], "," + tail);
      JoinCons(texts);
      ConsTail(vs);
    }
  }

  // ---- keys and headers ----

  /** What can follow a key: it ends a run of key characters. */
  predicate EndsKey(rest: string) { rest == "" || !KeyChar(rest[0]) }

  lemma BareRuns(key: string, rest: string)
    requires Bare(key) && EndsKey(rest)
    ensures (key + rest) != "" && (key + rest)[0] != '"'
    ensures Run(KeyChar, key + rest) == |key|
    ensures (key + rest)[..|key|] == key && (key + rest)[|key|..] == rest
  {
    RunStops(KeyChar, key, rest);
    assert (key + rest)[0] == key[0];
  }

  lemma KeyReads(key: string, rest: string)
    requires !NewlineKey(key) && EndsKey(rest)
    ensures ReadKey(KeyText(key) + rest) == Some((key, rest))
  {
    if Bare(key) {
      BareRuns(key, rest);
    } else {
      QuotedOpens(key, rest);
    }
  }

  lemma KeyOpens(key: string, rest: string)
    ensures KeyText(key) + rest != "" && (KeyText(key) + rest)[0] == KeyText(key)[0]
    ensures KeyStart(KeyText(key)[0]) || KeyText(key)[0] == '"'
  {
  }

  lemma EntryReads(key: string, rest: string)
    requires !NewlineKey(key)
    requires rest != "" && (rest[0] == ':' || rest[0] == '[')
    ensures ReadEntry(KeyText(key) + rest) == Some(Keyed(key, rest))
  {
    if Bare(key) {
      BareRuns(key, rest);
      assert (key + rest)[|key|] == rest[0];
    } else {
      QuotedOpens(key, rest);
    }
  }

  lemma PlainReads(v: Json)
    requires IsPrimitive(v)
    ensures ReadEntry(ScalarText(v)) == Some(Plain(v))
  {
    var t := ScalarText(v);
    if IsQuoted(v) {
      QuotedOpens(v.s, "");
      assert Quoted(v.s) + "" == t;
    } else {
      ScalarShape(v);
      var k := Run(KeyChar, t);
      if k < |t| {
        assert t[k] in t;
      }
    }
  }

  /** No key of the header is one the encoder leaves bare with its newline, and none repeats. */
  ghost predicate GoodColumns(cs: seq<Column>) {
    DistinctColumns(cs) && forall c | c in cs :: GoodColumn(c)
  }

  ghost predicate GoodColumn(c: Column) {
    !NewlineKey(c.key) && (c.Group? ==> c.sub != [] && GoodColumns(c.sub))
  }

  lemma {:induction false} ColumnReads(c: Column, rest: string)
    requires GoodColumn(c)
    requires rest != "" && (rest[0] == ',' || rest[0] == '}')
    ensures ReadColumn(ColumnText(c) + rest) == Some((c, rest))
    decreases c, 1
  {
    if c.Leaf? {
      KeyReads(c.key, rest);
    } else {
      var inner := Join(",", ColumnTexts(c.sub)) + ("}" + rest);
      ColumnsRead(c.sub, rest);
      assert ColumnText(c) + rest == KeyText(c.key) + ("{" + inner);
      KeyReads(c.key, "{" + inner);
      assert ("{" + inner)[1..] == inner;
    }
  }

  lemma HeaderCons(texts: seq<string>, rest: string)
    requires |texts| > 1
    ensures Join(",", texts) + rest == texts[0] + ("," + (Join(",", texts[1..]) + rest))
  {
  }

  lemma GoodTail(cs: seq<Column>)
    requires cs != [] && GoodColumns(cs)
    ensures GoodColumn(cs[0]) && GoodColumns(cs[1..]) && DistinctColumns([cs[0]] + cs[1..])
  {
  }

  lemma {:induction false} ColumnsRead(cs: seq<Column>, rest: string)
    requires cs != [] && GoodColumns(cs)
    ensures ReadColumns(Join(",", ColumnTexts(cs)) + ("}" + rest)) == Some((cs, rest))
    decreases cs, 0
  {
    var c := cs[0];
    GoodTail(cs);
    var texts := ColumnTexts(cs);
    var t := Join(",", texts) + ("}" + rest);
    if |cs| == 1 {
      ColumnReads(c, "}" + rest);
      assert texts == [ColumnText(c)];
      JoinOne(ColumnText(c));
      assert [c] == cs;
    } else {
      assert texts[1..] == ColumnTexts(cs[1..]);
      HeaderCons(texts, "}" + rest);
      var tail := Join(",", texts[1..]) + ("}" + rest);
      ColumnsRead(cs[1..], rest);
      ColumnReads(c, "," + tail);
    }
    assert [c] + cs[1..] == cs;
  }

  // ---- rows ----

  /** The cells of one row, left to right. */
  function Leaves(item: Json, cs: seq<Column>): seq<Json>
    requires FitsRow(item, cs)
    decreases cs
  {
    if cs == [] then []
    else
      assert FitsColumn(item, cs[0]);
      var v := Lookup(item.fields, cs[0].key);
      (match cs[0] case Leaf(_) => [v] case Group(_, sub) => Leaves(v, sub)) + Leaves(item, cs[1..])
  }

  /** The item with its keys in header order, which is how a table hands it back. */
  function Project(item: Json, cs: seq<Column>): seq<Member>
    requires FitsRow(item, cs)
    decreases cs
  {
    if cs == [] then []
    else
      assert FitsColumn(item, cs[0]);
      var v := Lookup(item.fields, cs[0].key);
      [Member(cs[0].key, match cs[0] case Leaf(_) => v case Group(_, sub) => Obj(Project(v, sub)))]
      + Project(item, cs[1..])
  }

  lemma JoinAppend(a: seq<string>, b: seq<string>)
    ensures a != [] && b != [] ==> Join(",", a + b) == Join(",", [Join(",", a)] + b)
  {
    if a != [] && b != [] {
      if |a| == 1 {
        assert a == [Join(",", a)];
      } else {
        JoinAppend(a[1..], b);
        assert (a + b)[1..] == a[1..] + b;
        assert ([Join(",", a)] + b)[1..] == b;
        assert ([Join(",", a[1..])] + b)[1..] == b;
        calc {
          Join(",", a + b);
          a[0] + "," + Join(",", a[1..] + b);
          a[0] + "," + (Join(",", a[1..]) + "," + Join(",", b));
          Join(",", a) + "," + Join(",", b);
        }
      }
    }
  }

  /** The leaves of the first column. */
  function Head(item: Json, cs: seq<Column>): seq<Json>
    requires FitsRow(item, cs) && cs != []
  {
    assert FitsColumn(item, cs[0]);
    var v := Lookup(item.fields, cs[0].key);
    match cs[0] case Leaf(_) => [v] case Group(_, sub) => Leaves(v, sub)
  }

  lemma JoinOne(t: string)
    ensures Join(",", [t]) == t
  {
  }

  lemma {:induction false} LeavesShape(item: Json, cs: seq<Column>)
    requires FitsRow(item, cs)
    ensures AllPrimitive(Leaves(item, cs))
    ensures cs != [] ==> Leaves(item, cs) != []
    ensures RowText(item, cs) == Join(",", ScalarTexts(Leaves(item, cs)))
    decreases cs
  {
    if cs != [] {
      var head, tail := Head(item, cs), Leaves(item, cs[1..]);
      assert AllPrimitive(head) && head != [] && RowCells(item, cs)[0] == Join(",", ScalarTexts(head)) by {
        assert FitsColumn(item, cs[0]);
        if cs[0].Group? {
          LeavesShape(Lookup(item.fields, cs[0].key), cs[0].sub);
        } else {
          JoinOne(ScalarText(head[0]));
          assert ScalarTexts(head) == [ScalarText(head[0])];
        }
      }
      LeavesShape(item, cs[1..]);
      RowTextStep(item, cs, head, tail);
    }
  }

  lemma {:induction false} TextsAppend(a: seq<Json>, b: seq<Json>)
    requires AllPrimitive(a) && AllPrimitive(b)
    ensures ScalarTexts(a + b) == ScalarTexts(a) + ScalarTexts(b)
  {
    if a == [] {
      NilRight(b);
      NilRight(ScalarTexts(b));
    } else {
      ConsTail(a);
      Assoc([a[0]], a[1..], b);
      ConsParts(a[0], a[1..] + b);
      TextsAppend(a[1..], b);
      Assoc([ScalarText(a[0])], ScalarTexts(a[1..]), ScalarTexts(b));
    }
  }

  lemma RowTextStep(item: Json, cs: seq<Column>, head: seq<Json>, tail: seq<Json>)
    requires FitsRow(item, cs) && cs != [] && head != []
    requires tail == Leaves(item, cs[1..]) && Leaves(item, cs) == head + tail
    requires AllPrimitive(head) && AllPrimitive(tail)
    requires cs[1..] != [] ==> tail != []
    requires RowCells(item, cs)[0] == Join(",", ScalarTexts(head))
    requires RowText(item, cs[1..]) == Join(",", ScalarTexts(tail))
    ensures RowText(item, cs) == Join(",", ScalarTexts(Leaves(item, cs)))
  {
    var cell, more := RowCells(item, cs)[0], RowCells(item, cs[1..]);
    ConsParts(cell, more);
    TextsAppend(head, tail);
    if |cs| == 1 {
      assert tail == [] && more == [];
      NilRight(ScalarTexts(head));
      JoinOne(cell);
    } else {
      JoinAppend(ScalarTexts(head), ScalarTexts(tail));
      ConsParts(cell, ScalarTexts(tail));
      JoinCons([cell] + more);
      JoinCons([cell] + ScalarTexts(tail));
    }
  }

  lemma {:induction false} FillReads(item: Json, cs: seq<Column>, more: seq<Json>)
    requires FitsRow(item, cs)
    ensures Fill(cs, Leaves(item, cs) + more) == Some((Project(item, cs), more))
    decreases cs
  {
    var cells := Leaves(item, cs) + more;
    if cs == [] {
      assert cells == more;
    } else {
      var tail := Leaves(item, cs[1..]) + more;
      FillReads(item, cs[1..], more);
      assert cells == Head(item, cs) + tail;
      var m := Project(item, cs)[0];
      assert FitsColumn(item, cs[0]);
      if cs[0].Group? {
        FillReads(Lookup(item.fields, cs[0].key), cs[0].sub, tail);
      }
    }
  }

  /** Every row has exactly the header's leaf cells, and reads back as the item. */
  lemma RowReads(item: Json, cs: seq<Column>)
    requires cs != [] && FitsRow(item, cs)
    ensures ReadRow(cs, RowText(item, cs)) == Some(Obj(Project(item, cs)))
    ensures ReadCells(RowText(item, cs)) == Some(Leaves(item, cs))
  {
    LeavesShape(item, cs);
    CellsRead(Leaves(item, cs));
    FillReads(item, cs, []);
    assert Leaves(item, cs) + [] == Leaves(item, cs);
  }
}
