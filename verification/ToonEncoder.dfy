/** The loops of `toon.py`, each shown to print the lines its layout prescribes. */
module ToonEncoder {
  import opened Wrappers
  import opened Text
  import opened Toon

  lemma {:induction false} StripPad(depth: nat, t: string)
    requires t == "" || !IsSpace(t[0])
    ensures LStrip(Pad(depth) + t) == t
  {
    PadIsBlank(depth);
    RunStops(IsSpace, Pad(depth), t);
    assert (Pad(depth) + t)[2 * depth..] == t;
  }

  function Prefixed(cs: seq<Column>, rest: Option<seq<Column>>): Option<seq<Column>> {
    match rest
    case None => None
    case Some(more) => Some(cs + more)
  }

  /** One turn of the loop over the first item's keys. */
  lemma ColumnTurn(items: seq<Json>, fields: seq<Member>, cs: seq<Column>)
    requires items != [] && SameShape(items) && fields != [] && Keys(fields) <= Keys(items[0].fields)
    ensures fields[0].key in Keys(items[0].fields) && Keys(fields[1..]) <= Keys(items[0].fields)
    ensures Prefixed(cs, ColumnsFor(items, fields)) ==
            match ColumnFor(items, fields[0].key)
            case None => None
            case Some(c) => Prefixed(cs + [c], ColumnsFor(items, fields[1..]))
  {
    assert fields[0].key in Keys(fields) && Keys(fields[1..]) <= Keys(fields);
    if ColumnsFor(items, fields).Some? {
      var c, rest := ColumnsForCons(items, fields);
      Assoc(cs, [c], rest);
    }
  }

  method TabularField(items: seq<Json>, key: string) returns (r: Option<Column>)
    requires items != [] && SameShape(items) && key in Keys(items[0].fields)
    ensures r == ColumnFor(items, key)
    decreases items[0], 0
  {
    var column := ColumnOf(items, key);
    assert column[0] < items[0] by { assert Member(key, column[0]) in items[0].fields; }
    if AllPrimitive(column) {
      return Some(Leaf(key));
    }
    var nested := TabularFields(column);
    r := match nested case None => None case Some(sub) => Some(Group(key, sub));
  }

  method TabularFields(items: seq<Json>) returns (r: Option<seq<Column>>)
    requires items != []
    ensures r == Columns(items)
    decreases items[0], 1
  {
    if !SameShape(items) {
      return None;
    }
    var cs, left := [], items[0].fields;
    ghost var whole := ColumnsFor(items, left);
    if whole.Some? {
      NilRight(whole.value);
    }
    while left != []
      invariant Keys(left) <= Keys(items[0].fields)
      invariant Prefixed(cs, ColumnsFor(items, left)) == whole
      decreases |left|
    {
      ColumnTurn(items, left, cs);
      var c := TabularField(items, left[0].key);
      if c == None {
        return None;
      }
      cs, left := cs + [c.value], left[1..];
    }
    NilRight(cs);
    return Some(cs);
  }

  method ObjectLines(fields: seq<Member>, depth: nat) returns (lines: seq<string>)
    ensures lines == RenderAll(ObjectSpec(fields, depth))
    decreases fields, 0
  {
    lines := [];
    for i := 0 to |fields|
      invariant lines + RenderAll(ObjectSpec(fields[i..], depth)) == RenderAll(ObjectSpec(fields, depth))
    {
      var rest := fields[i..];
      assert rest[0] == fields[i] && rest[1..] == fields[i + 1..];
      RenderConcat(FieldSpec(rest[0], depth), ObjectSpec(rest[1..], depth));
      var field := FieldLines(KeyText(fields[i].key), fields[i].value, depth);
      Assoc(lines, field, RenderAll(ObjectSpec(fields[i + 1..], depth)));
      lines := lines + field;
    }
  }

  method FieldLines(key: string, v: Json, depth: nat) returns (lines: seq<string>)
    requires key != ""
    ensures lines == RenderAll([Line(depth, key + HeadText(v, true))] + BodySpec(v, depth))
    decreases v, 2
  {
    RenderCons(Line(depth, key + HeadText(v, true)), BodySpec(v, depth));
    match v
    case Obj(fields) =>
      if fields == [] {
        lines := [Pad(depth) + (key + ":")];
        return;
      }
      var nested := ObjectLines(fields, depth + 1);
      lines := [Pad(depth) + (key + ":")] + nested;
    case List(items) =>
      lines := ArrayLines(Some(key), items, depth);
    case _ =>
      lines := [Pad(depth) + (key + (": " + ScalarText(v)))];
  }

  method ArrayLines(key: Option<string>, items: seq<Json>, depth: nat) returns (lines: seq<string>)
    requires key.Some? ==> key.value != ""
    ensures var name := if key.Some? then key.value else "";
            lines == RenderAll([Line(depth, name + HeadText(List(items), key.Some?))] + BodySpec(List(items), depth))
    decreases items, 1
  {
    var pad := Pad(depth);
    var head := if key.Some? then key.value else "";
    RenderCons(Line(depth, head + HeadText(List(items), key.Some?)), BodySpec(List(items), depth));
    if items == [] {
      lines := if key.Some? then [pad + (head + ": []")] else [pad + (head + "[]")];
      return;
    }
    if AllPrimitive(items) {
      lines := [pad + (head + ("[" + (NatText(|items|) + ("]" + (": " + Join(",", ScalarTexts(items)))))))];
      return;
    }
    var cs := TabularFields(items);
    if cs != None {
      ColumnsFit(items);
      var header := Join(",", ColumnTexts(cs.value));
      lines := [pad + (head + ("[" + (NatText(|items|) + ("]" + ("{" + (header + ("}" + ":")))))))];
      lines := lines + RenderAll(RowLines(items, cs.value, depth + 1));
      return;
    }
    lines := [pad + (head + ("[" + (NatText(|items|) + ("]" + ":"))))];
    var entries := ListLines(items, depth + 1);
    lines := lines + entries;
  }

  /** The list form: one entry after the other. */
  method ListLines(items: seq<Json>, depth: nat) returns (lines: seq<string>)
    ensures lines == RenderAll(ItemsSpec(items, depth))
    decreases items, 0
  {
    lines := [];
    for i := 0 to |items|
      invariant lines + RenderAll(ItemsSpec(items[i..], depth)) == RenderAll(ItemsSpec(items, depth))
    {
      assert items[i..][0] == items[i] && items[i..][1..] == items[i + 1..];
      RenderConcat(ItemSpec(items[i], depth), ItemsSpec(items[i + 1..], depth));
      var entry := ItemLines(items[i], depth);
      Assoc(lines, entry, RenderAll(ItemsSpec(items[i + 1..], depth)));
      lines := lines + entry;
    }
  }

  lemma HyphenHead(item: Json, depth: nat)
    requires item.List?
    ensures var inner := RenderAll([Line(depth + 1, HeadText(item, false))] + BodySpec(item, depth + 1));
      [Pad(depth) + ("- " + LStrip(inner[0]))] + inner[1..] == RenderAll(ItemSpec(item, depth))
  {
    var text, body := HeadText(item, false), BodySpec(item, depth + 1);
    assert text[0] == '[';
    StripPad(depth + 1, text);
    RenderCons(Line(depth + 1, text), body);
    ConsParts(Render(Line(depth + 1, text)), RenderAll(body));
    RenderCons(Line(depth, ItemText(item)), body);
  }

  /** A list as an entry of a list: its head line goes after the hyphen. */
  method HyphenLines(items: seq<Json>, depth: nat) returns (lines: seq<string>)
    ensures lines == RenderAll(ItemSpec(List(items), depth))
    decreases items, 2
  {
    var inner := ArrayLines(None, items, depth + 1);
    NilRight(HeadText(List(items), false));
    HyphenHead(List(items), depth);
    lines := [Pad(depth) + ("- " + LStrip(inner[0]))] + inner[1..];
  }

  method ItemLines(item: Json, depth: nat) returns (lines: seq<string>)
    ensures lines == RenderAll(ItemSpec(item, depth))
    decreases item, 3
  {
    var pad := Pad(depth);
    match item
    case List(items) =>
      lines := HyphenLines(items, depth);
    case Obj(fields) =>
      if fields == [] {
        lines := [pad + "-"];
        RenderCons(Line(depth, "-"), []);
        return;
      }
      lines := EntryLines(fields, depth);
    case _ =>
      lines := [pad + ("- " + ScalarText(item))];
      RenderCons(Line(depth, ItemText(item)), []);
  }

  /** The entry for a non-empty object: its first field goes on the hyphen line. */
  method EntryLines(fields: seq<Member>, depth: nat) returns (lines: seq<string>)
    requires fields != []
    ensures lines == RenderAll(ItemSpec(Obj(fields), depth))
    decreases fields, 1
  {
    lines := [];
    for i := 0 to |fields|
      invariant i == 0 ==> lines == []
      invariant i > 0 ==>
        lines + RenderAll(ObjectSpec(fields[i..], depth + 1)) == RenderAll(ItemSpec(Obj(fields), depth))
    {
      var m := fields[i];
      var field := FieldLines(KeyText(m.key), m.value, depth + 1);
      if i == 0 {
        FirstField(fields, depth);
        lines := [Pad(depth) + ("- " + LStrip(field[0]))] + field[1..];
      } else {
        assert fields[i..][0] == m && fields[i..][1..] == fields[i + 1..];
        RenderConcat(FieldSpec(m, depth + 1), ObjectSpec(fields[i + 1..], depth + 1));
        Assoc(lines, field, RenderAll(ObjectSpec(fields[i + 1..], depth + 1)));
        lines := lines + field;
      }
    }
    NilRight(lines);
  }

  lemma RenderCons(l: Line, ls: seq<Line>)
    ensures RenderAll([l] + ls) == [Render(l)] + RenderAll(ls)
  {
  }

  lemma FirstField(fields: seq<Member>, depth: nat)
    requires fields != []
    ensures var field := RenderAll(FieldSpec(fields[0], depth + 1));
      [Pad(depth) + ("- " + LStrip(field[0]))] + field[1..] + RenderAll(ObjectSpec(fields[1..], depth + 1))
      == RenderAll(ItemSpec(Obj(fields), depth))
  {
    var m := fields[0];
    var text := KeyText(m.key) + HeadText(m.value, true);
    var body, more := BodySpec(m.value, depth + 1), ObjectSpec(fields[1..], depth + 1);
    StripPad(depth + 1, text);
    RenderCons(Line(depth + 1, text), body);
    ConsParts(Render(Line(depth + 1, text)), RenderAll(body));
    RenderCons(Line(depth, ItemText(Obj(fields))), body + more);
    RenderConcat(body, more);
    Assoc([Pad(depth) + ("- " + text)], RenderAll(body), RenderAll(more));
  }

  /** `encode`: the document whose exactness `ToonExactness` settles. */
  method Encode(v: Json) returns (text: string)
    ensures text == Document(v)
  {
    match v
    case Obj(fields) =>
      var lines := ObjectLines(fields, 0);
      text := Join("\n", lines);
    case List(items) =>
      var lines := ArrayLines(None, items, 0);
      NilRight(HeadText(v, false));
      text := Join("\n", lines);
    case _ => text := ScalarText(v);
  }
}
