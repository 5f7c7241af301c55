/** Whole documents: `encode` is inverted by the strict decoder when no key ends in a newline.

    What is added to the bodies is lines: the indentation is read back, and no line is broken. */
module ToonDocuments {
  import opened Wrappers
  import opened Text
  import opened Toon
  import opened ToonDecoder
  import opened ToonTokens
  import opened ToonRoundTrip

  // ---- every line is one line ----

  /** Text that can stand on a line after its indentation. */
  predicate Solid(t: string) { t != "" && t[0] != ' ' && '\n' !in t }

  ghost predicate AllSolid(ls: Lines) { forall l | l in ls :: Solid(l.text) }

  lemma {:induction false} EscapedOneLine(s: string)
    ensures '\n' !in Escaped(s)
  {
    if s != "" {
      EscapedOneLine(s[1..]);
      assert '\n' !in Escape(s[0]);
    }
  }

  lemma ScalarSolid(v: Json)
    requires IsPrimitive(v)
    ensures Solid(ScalarText(v))
  {
    if IsQuoted(v) {
      EscapedOneLine(v.s);
    } else {
      ScalarShape(v);
    }
  }

  lemma KeySolid(key: string)
    requires !NewlineKey(key)
    ensures Solid(KeyText(key)) && FieldStart(KeyText(key))
  {
    if !Bare(key) {
      EscapedOneLine(key);
    }
  }

  /** What a field line opens with. */
  predicate FieldStart(t: string) { t != "" && (KeyStart(t[0]) || t[0] == '"') }

  lemma {:induction false} JoinOneLine(parts: seq<string>)
    requires forall p | p in parts :: '\n' !in p
    ensures '\n' !in Join(",", parts)
  {
    if |parts| > 1 {
      JoinOneLine(parts[1..]);
    }
  }

  lemma {:induction false} JoinSolid(parts: seq<string>)
    requires parts != [] && forall p | p in parts :: Solid(p)
    ensures Solid(Join(",", parts))
  {
    JoinOneLine(parts);
    assert Solid(parts[0]);
    if |parts| > 1 {
      JoinCons(parts);
    }
  }

  lemma {:induction false} TextsSolid(vs: seq<Json>)
    requires AllPrimitive(vs)
    ensures forall p | p in ScalarTexts(vs) :: Solid(p)
  {
    if vs != [] {
      ScalarSolid(vs[0]);
      TextsSolid(vs[1..]);
    }
  }

  lemma ScalarsSolid(vs: seq<Json>)
    requires vs != [] && AllPrimitive(vs)
    ensures Solid(Join(",", ScalarTexts(vs)))
  {
    TextsSolid(vs);
    JoinSolid(ScalarTexts(vs));
  }

  lemma {:induction false} ColumnOneLine(c: Column)
    requires GoodColumn(c)
    ensures '\n' !in ColumnText(c)
    decreases c, 1
  {
    KeySolid(c.key);
    if c.Group? {
      ColumnsOneLine(c.sub);
      JoinOneLine(ColumnTexts(c.sub));
    }
  }

  lemma {:induction false} ColumnsOneLine(cs: seq<Column>)
    requires GoodColumns(cs)
    ensures forall p | p in ColumnTexts(cs) :: '\n' !in p
    decreases cs, 0
  {
    if cs != [] {
      GoodTail(cs);
      ColumnOneLine(cs[0]);
      ColumnsOneLine(cs[1..]);
    }
  }

  lemma ShapeOneLine(items: seq<Json>)
    requires items != [] && Good(List(items))
    ensures '\n' !in ShapeText(items)
  {
    if AllPrimitive(items) {
      ScalarsSolid(items);
    } else if Columns(items).Some? {
      ColumnsGood(items);
      ColumnsOneLine(Columns(items).value);
      JoinOneLine(ColumnTexts(Columns(items).value));
    }
  }

  lemma HeadOneLine(v: Json, keyed: bool)
    requires Good(v)
    ensures '\n' !in HeadText(v, keyed)
  {
    if IsPrimitive(v) {
      ScalarSolid(v);
    } else if v.List? && v.items != [] {
      assert '\n' !in NatText(|v.items|);
      ShapeOneLine(v.items);
    }
  }

  lemma FieldLineSolid(m: Member)
    requires GoodMember(m)
    ensures Solid(KeyText(m.key) + HeadText(m.value, true)) && FieldStart(KeyText(m.key) + HeadText(m.value, true))
  {
    KeySolid(m.key);
    HeadOneLine(m.value, true);
    KeyOpens(m.key, HeadText(m.value, true));
  }

  lemma {:induction false} RowsSolid(items: seq<Json>, cs: seq<Column>, depth: nat)
    requires cs != [] && AllFit(items, cs)
    ensures AllSolid(RowLines(items, cs, depth))
  {
    if items != [] {
      RowsSolid(items[1..], cs, depth);
      LeavesShape(items[0], cs);
      ScalarsSolid(Leaves(items[0], cs));
    }
  }

  lemma {:induction false} BodySolid(v: Json, depth: nat)
    requires Good(v)
    ensures AllSolid(BodySpec(v, depth))
    decreases v, 0
  {
    GoodParts(v);
    match v
    case Obj(fields) => FieldsSolid(fields, depth + 1);
    case List(items) =>
      if items == [] || AllPrimitive(items) {
      } else if Columns(items).Some? {
        ColumnsFit(items);
        RowsSolid(items, Columns(items).value, depth + 1);
      } else {
        ItemsSolid(items, depth + 1);
      }
    case _ =>
  }

  lemma {:induction false} FieldsSolid(fields: seq<Member>, depth: nat)
    requires forall m | m in fields :: GoodMember(m)
    ensures AllSolid(ObjectSpec(fields, depth))
    decreases fields, 0
  {
    if fields != [] {
      assert GoodMember(fields[0]);
      FieldLineSolid(fields[0]);
      BodySolid(fields[0].value, depth);
      FieldsSolid(fields[1..], depth);
    }
  }

  lemma {:induction false} ItemsSolid(items: seq<Json>, depth: nat)
    requires forall x | x in items :: Good(x)
    ensures AllSolid(ItemsSpec(items, depth))
    decreases items, 0
  {
    if items != [] {
      ItemSolid(items[0], depth);
      ItemsSolid(items[1..], depth);
    }
  }

  lemma {:induction false} ItemSolid(item: Json, depth: nat)
    requires Good(item)
    ensures AllSolid(ItemSpec(item, depth))
    decreases item, 1
  {
    GoodParts(item);
    match item
    case List(_) =>
      HeadOneLine(item, false);
      BodySolid(item, depth + 1);
    case Obj(fields) =>
      if fields != [] {
        assert GoodMember(fields[0]);
        FieldLineSolid(fields[0]);
        BodySolid(fields[0].value, depth + 1);
        FieldsSolid(fields[1..], depth + 1);
      }
    case _ => ScalarSolid(item);
  }

  // ---- lines and documents ----

  lemma LineReads(l: Line)
    requires Solid(l.text)
    ensures ReadLine(Render(l)) == Some(l) && Render(l) != "" && '\n' !in Render(l)
  {
    PadIsBlank(l.depth);
    RunStops(IsBlank, Pad(l.depth), l.text);
    assert Render(l)[2 * l.depth..] == l.text;
  }

  lemma {:induction false} LinesRead(ls: Lines)
    requires AllSolid(ls)
    ensures ReadLines(RenderAll(ls)) == Some(ls)
    ensures forall p | p in RenderAll(ls) :: p != "" && '\n' !in p
  {
    var raws := RenderAll(ls);
    if ls != [] {
      LineReads(ls[0]);
      ConsParts(Render(ls[0]), RenderAll(ls[1..]));
      LinesRead(ls[1..]);
      ConsTail(ls);
    }
  }

  lemma PagesRead(ls: Lines)
    requires ls != [] && AllSolid(ls)
    ensures Decode(Join("\n", RenderAll(ls))) == DecodeLines(ls)
  {
    LinesRead(ls);
    SplitJoin('\n', RenderAll(ls));
    assert RenderAll(ls)[0] != "" by { assert RenderAll(ls)[0] in RenderAll(ls); }
  }

  lemma RootObject(ls: Lines, key: string, rest: string, fields: seq<Member>)
    requires ls != [] && ls[0].depth == 0
    requires ls[0].text == KeyText(key) + rest && ReadEntry(ls[0].text) == Some(Keyed(key, rest))
    requires ReadFields(ls, 0) == Some((fields, []))
    ensures DecodeLines(ls) == Some(Obj(fields))
  {
  }

  lemma ObjectDocument(fields: seq<Member>)
    requires fields != [] && Good(Obj(fields))
    ensures Decode(Document(Obj(fields))) == Some(Obj(ReorderedFields(fields)))
  {
    GoodParts(Obj(fields));
    var ls, m := ObjectSpec(fields, 0), fields[0];
    var head := HeadText(m.value, true);
    FieldsSolid(fields, 0);
    assert GoodMember(m);
    assert FieldSpec(m, 0)[0] == Line(0, KeyText(m.key) + head) && ls[0] == FieldSpec(m, 0)[0];
    PagesRead(ls);
    FieldsRead(fields, 0, []);
    NilRight(ls);
    HeadOpens(m.value);
    EntryReads(m.key, head);
    RootObject(ls, m.key, head, ReorderedFields(fields));
  }

  lemma RootArray(text: string, tail: Lines, v: Json)
    requires text != "" && text[0] == '[' && ReadValue(text, false, tail, 0) == Some((v, []))
    ensures DecodeLines([Line(0, text)] + tail) == Some(v)
  {
  }

  lemma ListDocument(v: Json)
    requires v.List? && Good(v)
    ensures Decode(Document(v)) == Some(Reordered(v))
  {
    var text, tail := HeadText(v, false), BodySpec(v, 0);
    HeadOpens(v);
    HeadOneLine(v, false);
    BodySolid(v, 0);
    PagesRead(ArraySpec(v, 0));
    ValueReads(v, false, 0, []);
    NilRight(tail);
    RootArray(text, tail, Reordered(v));
  }

  lemma ScalarDocument(v: Json)
    requires IsPrimitive(v)
    ensures Decode(Document(v)) == Some(v)
  {
    var l := Line(0, ScalarText(v));
    ScalarSolid(v);
    PagesRead([l]);
    assert RenderAll([l]) == [l.text] by { assert Render(l) == l.text; }
    PlainReads(v);
    if !IsQuoted(v) {
      ScalarShape(v);
      assert l.text[0] in l.text;
    }
  }

  /** Whatever the layout, the document of a value with no newline key reads back as that value. */
  lemma DecodeEncode(v: Json)
    requires Good(v)
    ensures Decode(Document(v)) == Some(Reordered(v))
  {
    match v
    case Obj(fields) =>
      if fields != [] {
        ObjectDocument(fields);
      }
    case List(_) => ListDocument(v);
    case _ => ScalarDocument(v);
  }
}
