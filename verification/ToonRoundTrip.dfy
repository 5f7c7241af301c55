/** Decoding inverts encoding, up to the order of the keys a table puts in its header.

    The proof follows the encoder: what stands on a value's first line, then the rows, entries and
    fields under it, in each of the four layouts. */
module ToonRoundTrip {
  import opened Wrappers
  import opened Text
  import opened Toon
  import opened ToonDecoder
  import opened ToonTokens

  /** No key, at any depth, is a bare key with a newline after it. */
  ghost predicate Clean(v: Json) {
    match v
    case List(items) => forall x | x in items :: Clean(x)
    case Obj(fields) => forall m | m in fields :: !NewlineKey(m.key) && Clean(m.value)
    case _ => true
  }

  ghost predicate Good(v: Json) { IsJson(v) && Clean(v) }

  ghost predicate GoodMember(m: Member) { !NewlineKey(m.key) && Good(m.value) }

  lemma GoodParts(v: Json)
    requires Good(v)
    ensures v.List? ==> forall x | x in v.items :: Good(x)
    ensures v.Obj? ==> Distinct(v.fields) && forall m | m in v.fields :: GoodMember(m)
  {
  }

  // ---- what comes back ----

  /** The value with every table's rows in the order of its header. */
  function Reordered(v: Json): Json
    decreases v, 0
  {
    match v
    case List(items) =>
      if items != [] && !AllPrimitive(items) && Columns(items).Some? then
        ColumnsFit(items);
        List(Projected(items, Columns(items).value))
      else List(ReorderedItems(items))
    case Obj(fields) => Obj(ReorderedFields(fields))
    case _ => v
  }

  function Projected(items: seq<Json>, cs: seq<Column>): seq<Json>
    requires AllFit(items, cs)
  {
    if items == [] then [] else [Obj(Project(items[0], cs))] + Projected(items[1..], cs)
  }

  function ReorderedItems(items: seq<Json>): (r: seq<Json>)
    ensures |r| == |items|
    decreases items, 0
  {
    if items == [] then [] else [Reordered(items[0])] + ReorderedItems(items[1..])
  }

  function ReorderedFields(fields: seq<Member>): (r: seq<Member>)
    ensures |r| == |fields| && forall i | 0 <= i < |r| :: r[i].key == fields[i].key
    decreases fields, 0
  {
    if fields == [] then []
    else [Member(fields[0].key, Reordered(fields[0].value))] + ReorderedFields(fields[1..])
  }

  lemma ReorderedKeys(fields: seq<Member>)
    ensures Keys(ReorderedFields(fields)) == Keys(fields)
  {
  }

  lemma {:induction false} PrimitivesStay(items: seq<Json>)
    requires AllPrimitive(items)
    ensures ReorderedItems(items) == items
  {
    if items != [] {
      PrimitivesStay(items[1..]);
      assert IsPrimitive(items[0]);
      assert [items[0]] + items[1..] == items;
    }
  }

  // ---- first lines ----

  function HeadOf(v: Json): Head {
    match v
    case Obj(_) => Nested
    case List(items) =>
      if items == [] then EmptyList
      else if AllPrimitive(items) then Inline(items)
      else if Columns(items).Some? then Table(|items|, Columns(items).value)
      else Items(|items|)
    case _ => Scalar(v)
  }

  lemma {:induction false} ColumnsGood(items: seq<Json>)
    requires items != [] && Columns(items).Some?
    requires forall x | x in items :: Good(x)
    ensures GoodColumns(Columns(items).value) && Columns(items).value != []
    decreases items[0], 1, 0
  {
    GoodParts(items[0]);
    ColumnsForGood(items, items[0].fields);
    ColumnsForFit(items, items[0].fields);
  }

  lemma GoodColumnOf(items: seq<Json>, key: string)
    requires forall x | x in items :: Good(x) && x.Obj? && key in Keys(x.fields)
    ensures forall y | y in ColumnOf(items, key) :: Good(y)
  {
  }

  lemma {:induction false} ColumnForGood(items: seq<Json>, key: string, c: Column)
    requires items != [] && SameShape(items) && forall x | x in items :: Good(x)
    requires key in Keys(items[0].fields) && ColumnFor(items, key) == Some(c) && !NewlineKey(key)
    ensures GoodColumn(c)
    decreases items[0], 0, 0
  {
    var column := ColumnOf(items, key);
    assert column[0] < items[0] by { assert Member(key, column[0]) in items[0].fields; }
    GoodColumnOf(items, key);
    if !AllPrimitive(column) {
      ColumnsGood(column);
    }
  }

  lemma {:induction false} ColumnsForGood(items: seq<Json>, fields: seq<Member>)
    requires items != [] && SameShape(items)
    requires Keys(fields) <= Keys(items[0].fields)
    requires ColumnsFor(items, fields).Some?
    requires forall x | x in items :: Good(x)
    requires Distinct(fields) && forall m | m in fields :: GoodMember(m)
    ensures GoodColumns(ColumnsFor(items, fields).value)
    decreases items[0], 0, |fields|
  {
    if fields != [] {
      assert GoodMember(fields[0]);
      ColumnsForFit(items, fields);
      var c, rest := ColumnsForCons(items, fields);
      ColumnsForGood(items, fields[1..]);
      ColumnForGood(items, fields[0].key, c);
    }
  }

  lemma CountReads(n: nat, rest: string)
    ensures var t := NatText(n) + ("]" + rest);
            var k := Run(IsDigit, t);
            k == |NatText(n)| && k > 0 && t[..k] == NatText(n) && k < |t| && t[k] == ']' && t[k + 1..] == rest
    ensures NatValue(NatText(n)) == n
  {
    RunStops(IsDigit, NatText(n), "]" + rest);
    NatTextValue(n);
  }

  /** After the key or the hyphen, an array's head line opens with its count. */
  lemma BracketHead(n: nat, rest: string, keyed: bool)
    ensures ReadHead("[" + (NatText(n) + rest), keyed) == ReadArray(NatText(n) + rest)
  {
    ConsParts('[', NatText(n) + rest);
  }

  lemma InlineReads(items: seq<Json>, row: string)
    requires ReadCells(row) == Some(items)
    ensures ReadArray(NatText(|items|) + ("]" + (": " + row))) == Some(Inline(items))
  {
    var rest := ": " + row;
    CountReads(|items|, rest);
    assert rest[1] == ' ' && rest[2..] == row;
  }

  lemma TableReads(n: nat, cs: seq<Column>, header: string)
    requires ReadColumns(header) == Some((cs, ":"))
    ensures ReadArray(NatText(n) + ("]" + ("{" + header))) == Some(Table(n, cs))
  {
    var rest := "{" + header;
    CountReads(n, rest);
    assert rest[0] == '{' && rest[1..] == header;
  }

  lemma InlineShapeReads(items: seq<Json>, shape: string)
    requires items != [] && Good(List(items)) && AllPrimitive(items)
    requires shape == ShapeText(items)
    ensures ReadArray(NatText(|items|) + ("]" + shape)) == Some(Inline(items))
  {
    CellsRead(items);
    InlineReads(items, Join(",", ScalarTexts(items)));
  }

  lemma TableShapeReads(items: seq<Json>, cs: seq<Column>, shape: string)
    requires items != [] && Good(List(items)) && !AllPrimitive(items)
    requires Columns(items) == Some(cs) && shape == ShapeText(items)
    ensures ReadArray(NatText(|items|) + ("]" + shape)) == Some(Table(|items|, cs))
  {
    ColumnsGood(items);
    ColumnsRead(cs, ":");
    TableReads(|items|, cs, Join(",", ColumnTexts(cs)) + ("}" + ":"));
  }

  lemma ListHeadReads(items: seq<Json>, keyed: bool)
    requires items != [] && Good(List(items))
    ensures ReadHead(HeadText(List(items), keyed), keyed) == Some(HeadOf(List(items)))
  {
    BracketHead(|items|, "]" + ShapeText(items), keyed);
    if AllPrimitive(items) {
      InlineShapeReads(items, ShapeText(items));
    } else if Columns(items).Some? {
      TableShapeReads(items, Columns(items).value, ShapeText(items));
    } else {
      CountReads(|items|, ":");
    }
  }

  lemma ScalarOpens(v: Json)
    requires IsPrimitive(v)
    ensures ScalarText(v) != "" && ScalarText(v)[0] != '['
  {
    if !IsQuoted(v) {
      ScalarShape(v);
      assert ScalarText(v)[0] in ScalarText(v);
    }
  }

  lemma ColonHead(t: string)
    requires t != "" && t[0] != '['
    ensures ReadHead(": " + t, true) == match ReadScalar(t) case None => None case Some(v) => Some(Scalar(v))
  {
    var u := ": " + t;
    assert u[2..] == t && u[1] == ' ' && u[2] == t[0];
    assert u != ": []" by { assert ": []"[2] == '['; }
  }

  lemma ScalarHeadReads(v: Json)
    requires IsPrimitive(v)
    ensures ReadHead(": " + ScalarText(v), true) == Some(Scalar(v))
  {
    ScalarReads(v);
    ScalarOpens(v);
    ColonHead(ScalarText(v));
  }

  lemma HeadReads(v: Json, keyed: bool)
    requires Good(v) && (keyed || v.List?)
    ensures ReadHead(HeadText(v, keyed), keyed) == Some(HeadOf(v))
  {
    if v.List? && v.items != [] {
      ListHeadReads(v.items, keyed);
    } else if IsPrimitive(v) {
      ScalarHeadReads(v);
    }
  }

  lemma HeadOpens(v: Json)
    ensures HeadText(v, true) != "" && (HeadText(v, true)[0] == ':' || HeadText(v, true)[0] == '[')
    ensures v.List? ==> HeadText(v, false) != "" && HeadText(v, false)[0] == '['
  {
  }

  // ---- structure ----

  ghost predicate Stops(rest: Lines, depth: int) { rest == [] || rest[0].depth <= depth }

  lemma {:induction false} RowsRead(items: seq<Json>, cs: seq<Column>, depth: nat, rest: Lines)
    requires cs != [] && AllFit(items, cs)
    ensures ReadRows(|items|, cs, RowLines(items, cs, depth) + rest, depth) == Some((Projected(items, cs), rest))
  {
    if items == [] {
      NilRight(rest);
    } else {
      var l, tail := Line(depth, RowText(items[0], cs)), RowLines(items[1..], cs, depth) + rest;
      RowReads(items[0], cs);
      RowsRead(items[1..], cs, depth, rest);
      Assoc([l], RowLines(items[1..], cs, depth), rest);
    }
  }

  /** An array whose lines, if it has any, are no entries: empty, inline or a table. */
  lemma CompactReads(items: seq<Json>, depth: nat, rest: Lines)
    requires items == [] || AllPrimitive(items) || Columns(items).Some?
    ensures ReadBody(HeadOf(List(items)), BodySpec(List(items), depth) + rest, depth)
         == Some((Reordered(List(items)), rest))
  {
    if items == [] || AllPrimitive(items) {
      PrimitivesStay(items);
      assert BodySpec(List(items), depth) == [];
      NilRight(rest);
    } else {
      var cs := Columns(items).value;
      ColumnsFit(items);
      RowsRead(items, cs, depth + 1, rest);
      assert BodySpec(List(items), depth) == RowLines(items, cs, depth + 1);
      assert HeadOf(List(items)) == Table(|items|, cs);
      assert Reordered(List(items)) == List(Projected(items, cs));
    }
  }

  lemma {:induction false} BodyReads(v: Json, depth: nat, rest: Lines)
    requires Good(v) && Stops(rest, depth)
    ensures ReadBody(HeadOf(v), BodySpec(v, depth) + rest, depth) == Some((Reordered(v), rest))
    decreases v, 0
  {
    GoodParts(v);
    match v
    case Obj(fields) => FieldsRead(fields, depth + 1, rest);
    case List(items) =>
      if items == [] || AllPrimitive(items) || Columns(items).Some? {
        CompactReads(items, depth, rest);
      } else {
        ItemsRead(items, depth + 1, rest);
        assert HeadOf(v) == Items(|items|) && BodySpec(v, depth) == ItemsSpec(items, depth + 1);
      }
    case _ =>
      NilRight(rest);
  }

  lemma {:induction false} ValueReads(v: Json, keyed: bool, depth: nat, rest: Lines)
    requires Good(v) && (keyed || v.List?) && Stops(rest, depth)
    ensures ReadValue(HeadText(v, keyed), keyed, BodySpec(v, depth) + rest, depth) == Some((Reordered(v), rest))
    decreases v, 1
  {
    HeadReads(v, keyed);
    BodyReads(v, depth, rest);
  }

  lemma FieldsStep(l: Line, key: string, text: string, tail: Lines, v: Json, mid: Lines,
                   fields: seq<Member>, rest: Lines)
    requires ReadEntry(l.text) == Some(Keyed(key, text))
    requires ReadValue(text, true, tail, l.depth) == Some((v, mid)) && |mid| <= |tail|
    requires ReadFields(mid, l.depth) == Some((fields, rest)) && key !in Keys(fields)
    ensures ReadFields([l] + tail, l.depth) == Some(([Member(key, v)] + fields, rest))
  {
  }

  lemma StopsLater(fields: seq<Member>, depth: nat, rest: Lines)
    requires Stops(rest, depth)
    ensures Stops(ObjectSpec(fields, depth) + rest, depth)
  {
  }

  lemma FreshKey(fields: seq<Member>)
    requires fields != [] && Distinct(fields)
    ensures fields[0].key !in Keys(fields[1..]) && Distinct(fields[1..])
  {
  }

  lemma {:induction false} FieldsRead(fields: seq<Member>, depth: nat, rest: Lines)
    requires Distinct(fields) && forall m | m in fields :: GoodMember(m)
    requires Stops(rest, depth - 1)
    ensures ReadFields(ObjectSpec(fields, depth) + rest, depth) == Some((ReorderedFields(fields), rest))
    decreases fields, 0
  {
    if fields == [] {
      NilRight(rest);
    } else {
      var m := fields[0];
      assert GoodMember(m);
      FreshKey(fields);
      var mid := ObjectSpec(fields[1..], depth) + rest;
      FieldsRead(fields[1..], depth, rest);
      StopsLater(fields[1..], depth, rest);
      ValueReads(m.value, true, depth, mid);
      HeadOpens(m.value);
      EntryReads(m.key, HeadText(m.value, true));
      ReorderedKeys(fields[1..]);
      var l := Line(depth, KeyText(m.key) + HeadText(m.value, true));
      FieldsStep(l, m.key, HeadText(m.value, true), BodySpec(m.value, depth) + mid, Reordered(m.value), mid,
                 ReorderedFields(fields[1..]), rest);
      Assoc([l] + BodySpec(m.value, depth), ObjectSpec(fields[1..], depth), rest);
      Assoc([l], BodySpec(m.value, depth), mid);
    }
  }

  lemma PlainItemReads(v: Json, ls: Lines, depth: nat)
    requires IsPrimitive(v)
    ensures ReadItem("- " + ScalarText(v), ls, depth) == Some((v, ls))
  {
    PlainReads(v);
    if !IsQuoted(v) {
      ScalarShape(v);
      assert ScalarText(v)[0] in ScalarText(v);
    }
  }

  lemma ObjectItemStep(key: string, text: string, tail: Lines, depth: nat, v: Json, mid: Lines,
                       fields: seq<Member>, rest: Lines)
    requires !NewlineKey(key) && text != "" && (text[0] == ':' || text[0] == '[')
    requires ReadValue(text, true, tail, depth + 1) == Some((v, mid)) && |mid| <= |tail|
    requires ReadFields(mid, depth + 1) == Some((fields, rest)) && key !in Keys(fields)
    ensures ReadItem("- " + (KeyText(key) + text), tail, depth) == Some((Obj([Member(key, v)] + fields), rest))
  {
    EntryReads(key, text);
    KeyOpens(key, text);
    EntryItem(KeyText(key) + text, key, text, tail, depth);
  }

  lemma EntryItem(t: string, key: string, text: string, tail: Lines, depth: nat)
    requires t != "" && t[0] != '[' && ReadEntry(t) == Some(Keyed(key, text))
    ensures ReadItem("- " + t, tail, depth) ==
      match ReadValue(text, true, tail, depth + 1)
      case None => None
      case Some((v, mid)) =>
        match ReadFields(mid, depth + 1)
        case None => None
        case Some((fields, rest)) =>
          if key in Keys(fields) then None else Some((Obj([Member(key, v)] + fields), rest))
  {
  }

  lemma {:induction false} ObjectItemReads(fields: seq<Member>, depth: nat, rest: Lines)
    requires fields != [] && Distinct(fields) && forall m | m in fields :: GoodMember(m)
    requires Stops(rest, depth)
    ensures ReadItem("- " + (KeyText(fields[0].key) + HeadText(fields[0].value, true)),
                     BodySpec(fields[0].value, depth + 1) + (ObjectSpec(fields[1..], depth + 1) + rest), depth)
         == Some((Obj(ReorderedFields(fields)), rest))
    decreases fields, 1
  {
    var m := fields[0];
    assert GoodMember(m);
    FreshKey(fields);
    var mid := ObjectSpec(fields[1..], depth + 1) + rest;
    FieldsRead(fields[1..], depth + 1, rest);
    StopsLater(fields[1..], depth + 1, rest);
    ValueReads(m.value, true, depth + 1, mid);
    HeadOpens(m.value);
    ReorderedKeys(fields[1..]);
    ObjectItemStep(m.key, HeadText(m.value, true), BodySpec(m.value, depth + 1) + mid, depth,
                   Reordered(m.value), mid, ReorderedFields(fields[1..]), rest);
  }

  lemma {:induction false} ItemReads(item: Json, depth: nat, rest: Lines)
    requires Good(item) && Stops(rest, depth)
    ensures ReadItem(ItemText(item), ItemTail(item, depth) + rest, depth) == Some((Reordered(item), rest))
    decreases item, 2
  {
    GoodParts(item);
    match item
    case List(_) =>
      ValueReads(item, false, depth + 1, rest);
    case Obj(fields) =>
      if fields == [] {
        NilRight(rest);
      } else {
        ObjectItemReads(fields, depth, rest);
        var body, more := BodySpec(fields[0].value, depth + 1), ObjectSpec(fields[1..], depth + 1);
        Assoc(body, more, rest);
      }
    case _ =>
      PlainItemReads(item, rest, depth);
      NilRight(rest);
  }

  lemma ItemsStep(n: nat, l: Line, tail: Lines, v: Json, mid: Lines, vs: seq<Json>, rest: Lines)
    requires n > 0 && ReadItem(l.text, tail, l.depth) == Some((v, mid)) && |mid| <= |tail|
    requires ReadItems(n - 1, mid, l.depth) == Some((vs, rest))
    ensures ReadItems(n, [l] + tail, l.depth) == Some(([v] + vs, rest))
  {
    ConsParts(l, tail);
  }

  lemma {:induction false} ItemsRead(items: seq<Json>, depth: nat, rest: Lines)
    requires forall x | x in items :: Good(x)
    requires Stops(rest, depth - 1)
    ensures ReadItems(|items|, ItemsSpec(items, depth) + rest, depth) == Some((ReorderedItems(items), rest))
    decreases items, 1
  {
    if items == [] {
      NilRight(rest);
    } else {
      var mid := ItemsSpec(items[1..], depth) + rest;
      ItemsRead(items[1..], depth, rest);
      ItemReads(items[0], depth, mid);
      var l, tail := Line(depth, ItemText(items[0])), ItemTail(items[0], depth);
      ItemsStep(|items|, l, tail + mid, Reordered(items[0]), mid, ReorderedItems(items[1..]), rest);
      Assoc([l] + tail, ItemsSpec(items[1..], depth), rest);
      Assoc([l], tail, mid);
    }
  }

}
