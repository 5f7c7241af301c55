/** What a document means, and the exact condition under which it keeps its value's meaning: that
    no key is bare but for a final newline. */
module ToonExactness {
  import opened Wrappers
  import opened Text
  import opened Toon
  import opened ToonDecoder
  import opened ToonTokens
  import opened ToonRoundTrip
  import opened ToonDocuments

  // ---- meaning: objects without the order of their keys ----

  /** JSON as a reader compares it: an object is a map. */
  datatype Value =
    | VNull
    | VBool(b: bool)
    | VInt(n: int)
    | VStr(s: string)
    | VList(items: seq<Value>)
    | VObj(fields: map<string, Value>)

  ghost function Meaning(v: Json): Value
    decreases v, 0
  {
    match v
    case Null => VNull
    case Bool(b) => VBool(b)
    case Int(n) => VInt(n)
    case Str(s) => VStr(s)
    case List(items) => VList(MeaningItems(items))
    case Obj(fields) => VObj(MeaningFields(fields))
  }

  ghost function MeaningItems(items: seq<Json>): (r: seq<Value>)
    decreases items, 0
  {
    if items == [] then [] else [Meaning(items[0])] + MeaningItems(items[1..])
  }

  ghost function MeaningFields(fields: seq<Member>): (r: map<string, Value>)
    decreases fields, 0
  {
    if fields == [] then map[] else MeaningFields(fields[1..])[fields[0].key := Meaning(fields[0].value)]
  }

  lemma {:induction false} MeaningKeys(fields: seq<Member>)
    ensures MeaningFields(fields).Keys == Keys(fields)
    ensures forall k | k in Keys(fields) :: MeaningFields(fields)[k] == Meaning(Lookup(fields, k))
  {
    if fields != [] {
      MeaningKeys(fields[1..]);
      assert Keys(fields) == {fields[0].key} + Keys(fields[1..]) by {
        assert fields == [fields[0]] + fields[1..];
      }
    }
  }

  lemma SameMeaning(a: seq<Member>, b: seq<Member>)
    requires Keys(a) == Keys(b)
    requires forall k | k in Keys(a) :: Meaning(Lookup(a, k)) == Meaning(Lookup(b, k))
    ensures MeaningFields(a) == MeaningFields(b)
  {
    MeaningKeys(a);
    MeaningKeys(b);
  }

  /** The header names each of the item's keys once, at every level. */
  ghost predicate Covers(item: Json, cs: seq<Column>)
    requires FitsRow(item, cs)
    decreases cs, 1
  {
    && ColumnKeys(cs) == Keys(item.fields)
    && DistinctColumns(cs)
    && CoversAll(item, cs)
  }

  ghost predicate CoversAll(item: Json, cs: seq<Column>)
    requires FitsRow(item, cs)
    decreases cs, 0
  {
    forall c | c in cs :: FitsColumn(item, c) && CoversColumn(item, c)
  }

  ghost predicate CoversColumn(item: Json, c: Column)
    requires item.Obj? && FitsColumn(item, c)
    decreases c, 2
  {
    c.Group? ==> Covers(Lookup(item.fields, c.key), c.sub)
  }

  function ColumnKeys(cs: seq<Column>): set<string> { set c | c in cs :: c.key }

  lemma {:induction false} ColumnsCover(items: seq<Json>)
    requires items != [] && Columns(items).Some? && forall x | x in items :: IsJson(x)
    ensures forall x | x in items :: FitsRow(x, Columns(items).value) && Covers(x, Columns(items).value)
    decreases items[0], 1, 0
  {
    var cs := Columns(items).value;
    var fields := items[0].fields;
    ColumnsFit(items);
    ColumnsForFit(items, fields);
    ColumnsForCover(items, fields);
    forall k ensures k in ColumnKeys(cs) <==> k in Keys(fields) {
      if k in ColumnKeys(cs) {
        var i :| 0 <= i < |cs| && cs[i].key == k;
        assert fields[i] in fields;
      }
      if k in Keys(fields) {
        var i :| 0 <= i < |fields| && fields[i].key == k;
        assert cs[i] in cs;
      }
    }
  }

  lemma GroupCovers(items: seq<Json>, x: Json, key: string, sub: seq<Column>)
    requires forall y | y in items :: y.Obj? && key in Keys(y.fields)
    requires sub != [] && x in items
    requires forall y | y in ColumnOf(items, key) :: FitsRow(y, sub) && Covers(y, sub)
    ensures FitsColumn(x, Group(key, sub)) && CoversColumn(x, Group(key, sub))
  {
  }

  lemma {:induction false} ColumnForCovers(items: seq<Json>, key: string, c: Column)
    requires items != [] && SameShape(items) && forall x | x in items :: IsJson(x)
    requires key in Keys(items[0].fields) && ColumnFor(items, key) == Some(c)
    ensures forall x | x in items :: FitsColumn(x, c) && CoversColumn(x, c)
    decreases items[0], 0, 0
  {
    var column := ColumnOf(items, key);
    assert column[0] < items[0] by { assert Member(key, column[0]) in items[0].fields; }
    ColumnForFits(items, key, c);
    if !AllPrimitive(column) {
      JsonColumn(items, key);
      ColumnsFit(column);
      ColumnsCover(column);
      forall x | x in items ensures CoversColumn(x, c) {
        GroupCovers(items, x, key, c.sub);
      }
    }
  }

  lemma CoverCons(items: seq<Json>, c: Column, cs: seq<Column>)
    requires forall x | x in items :: x.Obj? && FitsColumn(x, c) && CoversColumn(x, c)
    requires forall x | x in items :: FitsRow(x, cs) && CoversAll(x, cs)
    ensures forall x | x in items :: FitsRow(x, [c] + cs) && CoversAll(x, [c] + cs)
  {
  }

  lemma {:induction false} ColumnsForCover(items: seq<Json>, fields: seq<Member>)
    requires items != [] && SameShape(items) && forall x | x in items :: IsJson(x)
    requires Keys(fields) <= Keys(items[0].fields) && Distinct(fields)
    requires ColumnsFor(items, fields).Some?
    ensures DistinctColumns(ColumnsFor(items, fields).value)
    ensures forall x | x in items :: FitsRow(x, ColumnsFor(items, fields).value)
    ensures forall x | x in items :: CoversAll(x, ColumnsFor(items, fields).value)
    decreases items[0], 0, |fields|
  {
    if fields != [] {
      ColumnsForFit(items, fields);
      var c, rest := ColumnsForCons(items, fields);
      ColumnsForCover(items, fields[1..]);
      ColumnForCovers(items, fields[0].key, c);
      CoverCons(items, c, rest);
    }
  }

  lemma JsonColumn(items: seq<Json>, key: string)
    requires forall x | x in items :: IsJson(x) && x.Obj? && key in Keys(x.fields)
    ensures forall y | y in ColumnOf(items, key) :: IsJson(y)
  {
  }

  lemma {:induction false} ProjectKeys(item: Json, cs: seq<Column>)
    requires FitsRow(item, cs)
    ensures Keys(Project(item, cs)) == ColumnKeys(cs)
  {
    if cs != [] {
      assert FitsColumn(item, cs[0]);
      ProjectKeys(item, cs[1..]);
      assert ColumnKeys(cs) == {cs[0].key} + ColumnKeys(cs[1..]) by { assert cs == [cs[0]] + cs[1..]; }
      var ms := Project(item, cs);
      assert Keys(ms) == {ms[0].key} + Keys(ms[1..]) by { assert ms == [ms[0]] + ms[1..]; }
    }
  }

  lemma {:induction false} ProjectMeans(item: Json, cs: seq<Column>, key: string)
    requires FitsRow(item, cs) && DistinctColumns(cs) && CoversAll(item, cs)
    requires key in ColumnKeys(cs)
    ensures key in Keys(Project(item, cs)) && key in Keys(item.fields)
    ensures Meaning(Lookup(Project(item, cs), key)) == Meaning(Lookup(item.fields, key))
    decreases cs, 0
  {
    ProjectKeys(item, cs);
    var c := cs[0];
    assert FitsColumn(item, c) && CoversColumn(item, c);
    if c.key == key {
      if c.Group? {
        RowMeans(Lookup(item.fields, key), c.sub);
      }
    } else {
      assert key in ColumnKeys(cs[1..]) by { assert cs == [c] + cs[1..]; }
      ProjectMeans(item, cs[1..], key);
      assert Project(item, cs)[1..] == Project(item, cs[1..]);
    }
  }

  lemma {:induction false} RowMeans(item: Json, cs: seq<Column>)
    requires FitsRow(item, cs) && Covers(item, cs)
    ensures Meaning(Obj(Project(item, cs))) == Meaning(item)
    decreases cs, 1
  {
    ProjectKeys(item, cs);
    forall k | k in ColumnKeys(cs)
      ensures k in Keys(Project(item, cs)) && Meaning(Lookup(Project(item, cs), k)) == Meaning(Lookup(item.fields, k))
    {
      ProjectMeans(item, cs, k);
    }
    SameMeaning(Project(item, cs), item.fields);
  }

  lemma {:induction false} RowsMean(items: seq<Json>, cs: seq<Column>)
    requires AllFit(items, cs) && forall x | x in items :: FitsRow(x, cs) && Covers(x, cs)
    ensures MeaningItems(Projected(items, cs)) == MeaningItems(items)
  {
    if items != [] {
      RowMeans(items[0], cs);
      RowsMean(items[1..], cs);
      assert Projected(items, cs)[1..] == Projected(items[1..], cs);
    }
  }

  /** Reordering the keys of table rows changes no value. */
  lemma {:induction false} ReorderedMeans(v: Json)
    requires IsJson(v)
    ensures Meaning(Reordered(v)) == Meaning(v)
    decreases v, 0
  {
    match v
    case List(items) =>
      if items != [] && !AllPrimitive(items) && Columns(items).Some? {
        ColumnsFit(items);
        ColumnsCover(items);
        RowsMean(items, Columns(items).value);
      } else {
        ItemsMean(items);
      }
    case Obj(fields) => FieldsMean(fields);
    case _ =>
  }

  lemma {:induction false} ItemsMean(items: seq<Json>)
    requires forall x | x in items :: IsJson(x)
    ensures MeaningItems(ReorderedItems(items)) == MeaningItems(items)
    decreases items, 0
  {
    if items != [] {
      ReorderedMeans(items[0]);
      ItemsMean(items[1..]);
      assert ReorderedItems(items)[1..] == ReorderedItems(items[1..]);
    }
  }

  lemma {:induction false} FieldsMean(fields: seq<Member>)
    requires forall m | m in fields :: IsJson(m.value)
    ensures MeaningFields(ReorderedFields(fields)) == MeaningFields(fields)
    decreases fields, 0
  {
    if fields != [] {
      ReorderedMeans(fields[0].value);
      FieldsMean(fields[1..]);
      assert ReorderedFields(fields)[1..] == ReorderedFields(fields[1..]);
    }
  }

  // ---- what a strict reader accepts after a newline ----

  /** A newline, and then a character no line can begin with. */
  ghost predicate BreaksAt(t: string, i: int) {
    0 <= i < |t| - 1 && t[i] == '\n' && NoLineStart(t[i + 1])
  }

  predicate NoLineStart(c: char) { c == ':' || c == '[' || c == ',' || c == '{' || c == '}' }

  ghost predicate Breaks(t: string) { exists i :: BreaksAt(t, i) }

  lemma BreaksAfter(a: string, t: string)
    requires Breaks(t)
    ensures Breaks(a + t)
  {
    var i :| BreaksAt(t, i);
    assert BreaksAt(a + t, |a| + i);
  }

  lemma BreaksBefore(t: string, b: string)
    requires Breaks(t)
    ensures Breaks(t + b)
  {
    var i :| BreaksAt(t, i);
    assert BreaksAt(t + b, i);
  }

  /** Lines a reader of fields at `depth` may take. */
  ghost predicate Low(l: Line, depth: nat) { l.depth > depth || (l.depth == depth && FieldStart(l.text)) }

  ghost predicate TookDeep(ls: Lines, rest: Lines, depth: nat) {
    |rest| <= |ls| && rest == ls[|ls| - |rest|..] && forall i | 0 <= i < |ls| - |rest| :: ls[i].depth >= depth
  }

  ghost predicate TookLow(ls: Lines, rest: Lines, depth: nat) {
    |rest| <= |ls| && rest == ls[|ls| - |rest|..] && forall i | 0 <= i < |ls| - |rest| :: Low(ls[i], depth)
  }

  lemma DeepDeep(ls: Lines, mid: Lines, rest: Lines, depth: nat)
    requires TookDeep(ls, mid, depth) && TookDeep(mid, rest, depth)
    ensures TookDeep(ls, rest, depth)
  {
  }

  lemma DeepOne(ls: Lines, rest: Lines, depth: nat)
    requires ls != [] && ls[0].depth >= depth && TookDeep(ls[1..], rest, depth)
    ensures TookDeep(ls, rest, depth)
  {
  }

  lemma LowThenLow(ls: Lines, mid: Lines, rest: Lines, depth: nat)
    requires ls != [] && Low(ls[0], depth) && TookDeep(ls[1..], mid, depth + 1) && TookLow(mid, rest, depth)
    ensures TookLow(ls, rest, depth)
  {
  }

  lemma LowIsDeep(ls: Lines, rest: Lines, depth: nat)
    requires TookLow(ls, rest, depth)
    ensures TookDeep(ls, rest, depth)
  {
  }

  lemma {:induction false} RowsTake(n: nat, cs: seq<Column>, ls: Lines, depth: nat)
    requires ReadRows(n, cs, ls, depth).Some?
    ensures TookDeep(ls, ReadRows(n, cs, ls, depth).value.1, depth)
  {
    if n > 0 {
      RowsTake(n - 1, cs, ls[1..], depth);
      DeepOne(ls, ReadRows(n, cs, ls, depth).value.1, depth);
    }
  }

  lemma {:induction false} ValueTakes(text: string, keyed: bool, ls: Lines, depth: nat)
    requires ReadValue(text, keyed, ls, depth).Some?
    ensures TookDeep(ls, ReadValue(text, keyed, ls, depth).value.1, depth + 1)
    decreases |ls|, 2, 0
  {
    var rest := ReadValue(text, keyed, ls, depth).value.1;
    match ReadHead(text, keyed).value
    case Nested =>
      FieldsTake(ls, depth + 1);
      LowIsDeep(ls, rest, depth + 1);
    case Table(n, cs) => RowsTake(n, cs, ls, depth + 1);
    case Items(n) => ItemsTake(n, ls, depth + 1);
    case _ =>
  }

  /** Reading fields reads one, and then fields again. */
  lemma FieldsGoOn(ls: Lines, depth: nat) returns (text: string, mid: Lines, rest: Lines)
    requires ReadFields(ls, depth).Some? && ls != [] && ls[0].depth == depth
    ensures Low(ls[0], depth)
    ensures ReadValue(text, true, ls[1..], depth).Some? && mid == ReadValue(text, true, ls[1..], depth).value.1
    ensures ReadFields(mid, depth).Some? && rest == ReadFields(mid, depth).value.1 == ReadFields(ls, depth).value.1
  {
    text := ReadEntry(ls[0].text).value.rest;
    mid := ReadValue(text, true, ls[1..], depth).value.1;
    rest := ReadFields(mid, depth).value.1;
  }

  lemma {:induction false} FieldsTake(ls: Lines, depth: nat)
    requires ReadFields(ls, depth).Some?
    ensures TookLow(ls, ReadFields(ls, depth).value.1, depth)
    decreases |ls|, 0, 0
  {
    if ls != [] && ls[0].depth == depth {
      var text, mid, rest := FieldsGoOn(ls, depth);
      ValueTakes(text, true, ls[1..], depth);
      FieldsTake(mid, depth);
      LowThenLow(ls, mid, rest, depth);
    }
  }

  lemma {:induction false} ItemTakes(text: string, ls: Lines, depth: nat)
    requires ReadItem(text, ls, depth).Some?
    ensures TookDeep(ls, ReadItem(text, ls, depth).value.1, depth + 1)
    decreases |ls|, 3, 0
  {
    if text != "-" {
      var t := text[2..];
      if t != "" && t[0] == '[' {
        ValueTakes(t, false, ls, depth + 1);
      } else if ReadEntry(t).value.Keyed? {
        var u := ReadEntry(t).value.rest;
        ValueTakes(u, true, ls, depth + 1);
        var mid := ReadValue(u, true, ls, depth + 1).value.1;
        FieldsTake(mid, depth + 1);
        var rest := ReadItem(text, ls, depth).value.1;
        LowIsDeep(mid, rest, depth + 1);
        DeepDeep(ls, mid, rest, depth + 1);
      }
    }
  }

  lemma OneThenMore(ls: Lines, mid: Lines, rest: Lines, depth: nat)
    requires ls != [] && ls[0].depth == depth
    requires TookDeep(ls[1..], mid, depth + 1) && TookDeep(mid, rest, depth)
    ensures TookDeep(ls, rest, depth)
  {
    DeepDeep(ls[1..], mid, rest, depth);
    DeepOne(ls, rest, depth);
  }

  /** Reading items reads one, and then items again. */
  lemma ItemsGoOn(n: nat, ls: Lines, depth: nat) returns (text: string, mid: Lines, rest: Lines)
    requires ReadItems(n, ls, depth).Some? && n > 0
    ensures ls != [] && ls[0].depth == depth
    ensures ReadItem(text, ls[1..], depth).Some? && mid == ReadItem(text, ls[1..], depth).value.1
    ensures |mid| < |ls| && ReadItems(n - 1, mid, depth).Some?
    ensures rest == ReadItems(n - 1, mid, depth).value.1 == ReadItems(n, ls, depth).value.1
  {
    text := ls[0].text;
    mid := ReadItem(text, ls[1..], depth).value.1;
    rest := ReadItems(n - 1, mid, depth).value.1;
  }

  lemma {:induction false} FirstItemTakes(n: nat, ls: Lines, depth: nat) returns (mid: Lines, rest: Lines)
    requires ReadItems(n, ls, depth).Some? && n > 0
    ensures ls != [] && ls[0].depth == depth && |mid| < |ls| && TookDeep(ls[1..], mid, depth + 1)
    ensures ReadItems(n - 1, mid, depth).Some?
    ensures rest == ReadItems(n - 1, mid, depth).value.1 == ReadItems(n, ls, depth).value.1
    decreases |ls|, 0, 0
  {
    var text;
    text, mid, rest := ItemsGoOn(n, ls, depth);
    ItemTakes(text, ls[1..], depth);
  }

  lemma {:induction false} ItemsTake(n: nat, ls: Lines, depth: nat)
    requires ReadItems(n, ls, depth).Some?
    ensures TookDeep(ls, ReadItems(n, ls, depth).value.1, depth)
    decreases |ls|, 0, n
  {
    if n > 0 {
      var mid, rest := FirstItemTakes(n, ls, depth);
      ItemsTake(n - 1, mid, depth);
      OneThenMore(ls, mid, rest, depth);
    }
  }

  /** Every line after the first is indented or opens with a key. */
  lemma LaterLines(ls: Lines)
    requires ls != [] && DecodeLines(ls).Some?
    ensures forall i | 1 <= i < |ls| :: Low(ls[i], 0)
  {
    if "[" <= ls[0].text {
      ValueTakes(ls[0].text, false, ls[1..], 0);
      forall i | 1 <= i < |ls| ensures Low(ls[i], 0) {
        assert ls[i] == ls[1..][i - 1];
      }
    } else if ReadEntry(ls[0].text).value.Keyed? {
      FieldsTake(ls, 0);
    }
  }

  lemma {:induction false} BreakStartsLine(t: string)
    requires Breaks(t)
    ensures exists j :: 1 <= j < |Split('\n', t)| && Split('\n', t)[j] != "" && NoLineStart(Split('\n', t)[j][0])
  {
    var i :| BreaksAt(t, i);
    var rest, parts := Split('\n', t[1..]), Split('\n', t);
    if i == 0 {
      assert t[1..][0] == t[1];
      assert parts[1] == rest[0];
      assert rest[0] != "" && rest[0][0] == t[1];
    } else {
      assert BreaksAt(t[1..], i - 1);
      BreakStartsLine(t[1..]);
      var j :| 1 <= j < |rest| && rest[j] != "" && NoLineStart(rest[j][0]);
      if t[0] == '\n' {
        assert parts[j + 1] == rest[j];
      } else {
        assert parts[j] == rest[j];
      }
    }
  }

  lemma NoLowLine(raw: string, l: Line)
    requires raw != "" && NoLineStart(raw[0]) && ReadLine(raw) == Some(l)
    ensures !Low(l, 0)
  {
  }

  /** A strict reader refuses a document with a newline in the middle of a key's line. */
  lemma BreaksRefused(t: string)
    requires Breaks(t)
    ensures Decode(t) == None
  {
    BreakStartsLine(t);
    var raws := Split('\n', t);
    var j :| 1 <= j < |raws| && raws[j] != "" && NoLineStart(raws[j][0]);
    if ReadLines(raws).Some? && DecodeLines(ReadLines(raws).value).Some? {
      LaterLines(ReadLines(raws).value);
      NoLowLine(raws[j], ReadLines(raws).value[j]);
      assert false;
    }
  }

  // ---- where a newline key ends up ----

  ghost predicate BreaksSome(ls: Lines) { exists l | l in ls :: Breaks(l.text) }

  lemma KeyBreaks(key: string, rest: string)
    requires NewlineKey(key) && rest != "" && NoLineStart(rest[0])
    ensures Breaks(KeyText(key) + rest)
  {
    assert BreaksAt(KeyText(key) + rest, |key| - 1);
  }

  /** A column's text breaks when what can follow a column follows it. */
  ghost predicate BreaksColumn(t: string) { forall b | b != "" && NoLineStart(b[0]) :: Breaks(t + b) }

  lemma {:induction false} HeaderBreaks(parts: seq<string>, i: nat, rest: string)
    requires i < |parts| && BreaksColumn(parts[i])
    requires rest != "" && NoLineStart(rest[0])
    ensures Breaks(Join(",", parts) + rest)
  {
    if |parts| == 1 {
      assert Join(",", parts) == parts[0];
    } else {
      var tail := Join(",", parts[1..]) + rest;
      HeaderCons(parts, rest);
      if i == 0 {
        assert ("," + tail)[0] == ',';
      } else {
        HeaderBreaks(parts[1..], i - 1, rest);
        BreaksAfter(",", tail);
        BreaksAfter(parts[0], "," + tail);
      }
    }
  }

  lemma {:induction false} ColumnTextAt(cs: seq<Column>, i: nat)
    requires i < |cs|
    ensures ColumnTexts(cs)[i] == ColumnText(cs[i])
  {
    if i > 0 {
      ColumnTextAt(cs[1..], i - 1);
    }
  }

  lemma KeyColumnBreaks(c: Column)
    requires NewlineKey(c.key)
    ensures BreaksColumn(ColumnText(c))
  {
    var k := |c.key|;
    forall b | b != "" && NoLineStart(b[0]) ensures Breaks(ColumnText(c) + b) {
      var t := ColumnText(c) + b;
      assert t[k - 1] == c.key[k - 1];
      assert t[k] == if c.Leaf? then b[0] else '{';
      assert BreaksAt(t, k - 1);
    }
  }

  lemma GroupColumnBreaks(c: Column)
    requires c.Group? && Breaks(Join(",", ColumnTexts(c.sub)) + "}")
    ensures BreaksColumn(ColumnText(c))
  {
    BreaksAfter(KeyText(c.key) + "{", Join(",", ColumnTexts(c.sub)) + "}");
    Assoc(KeyText(c.key) + "{", Join(",", ColumnTexts(c.sub)), "}");
    forall b | b != "" && NoLineStart(b[0]) ensures Breaks(ColumnText(c) + b) {
      BreaksBefore(ColumnText(c), b);
    }
  }

  lemma {:induction false} ColumnsBreak(items: seq<Json>, x: Json)
    requires items != [] && Columns(items).Some? && forall y | y in items :: IsJson(y)
    requires x in items && !Clean(x)
    ensures Breaks(Join(",", ColumnTexts(Columns(items).value)) + "}")
    decreases x
  {
    var cs, fields := Columns(items).value, items[0].fields;
    var m :| m in x.fields && (NewlineKey(m.key) || !Clean(m.value));
    assert m.key in Keys(x.fields) && m.key in Keys(fields);
    var i :| 0 <= i < |fields| && fields[i].key == m.key;
    ColumnAt(items, fields, i);
    ColumnTextAt(cs, i);
    if NewlineKey(m.key) {
      KeyColumnBreaks(cs[i]);
    } else {
      var column := ColumnOf(items, m.key);
      var j :| 0 <= j < |items| && items[j] == x;
      assert column[j] == m.value && column[j] in column;
      assert !AllPrimitive(column);
      JsonColumn(items, m.key);
      ColumnsBreak(column, m.value);
      GroupColumnBreaks(cs[i]);
    }
    HeaderBreaks(ColumnTexts(cs), i, "}");
  }

  /** The column at an index is made from that key's column of values. */
  lemma {:induction false} ColumnAt(items: seq<Json>, fields: seq<Member>, i: nat)
    requires items != [] && SameShape(items) && Keys(fields) <= Keys(items[0].fields)
    requires ColumnsFor(items, fields).Some? && i < |fields|
    ensures i < |ColumnsFor(items, fields).value| && fields[i].key in Keys(items[0].fields)
    ensures var c, column := ColumnsFor(items, fields).value[i], ColumnOf(items, fields[i].key);
            (c == Leaf(fields[i].key) && AllPrimitive(column))
            || (Columns(column).Some? && c == Group(fields[i].key, Columns(column).value))
  {
    assert fields[0] in fields && fields[0].key in Keys(fields);
    assert Keys(fields[1..]) <= Keys(fields);
    if i > 0 {
      ColumnAt(items, fields[1..], i - 1);
    }
  }

  lemma HeadBreaks(items: seq<Json>, keyed: bool, x: Json)
    requires items != [] && Columns(items).Some? && !AllPrimitive(items)
    requires x in items && !Clean(x) && forall y | y in items :: IsJson(y)
    ensures Breaks(HeadText(List(items), keyed))
  {
    ColumnsBreak(items, x);
    var header := Join(",", ColumnTexts(Columns(items).value));
    BreaksBefore(header + "}", ":");
    Assoc(header, "}", ":");
    BreaksAfter("{", header + ("}" + ":"));
    BreaksAfter("]", ShapeText(items));
    BreaksAfter(NatText(|items|), "]" + ShapeText(items));
    BreaksAfter("[", NatText(|items|) + ("]" + ShapeText(items)));
  }

  lemma {:induction false} ValueBreaks(v: Json, keyed: bool, depth: nat)
    requires IsJson(v) && !Clean(v)
    ensures Breaks(HeadText(v, keyed)) || BreaksSome(BodySpec(v, depth))
    decreases v, 0
  {
    match v
    case Obj(fields) =>
      var m :| m in fields && (NewlineKey(m.key) || !Clean(m.value));
      FieldsBreak(fields, m, depth + 1);
    case List(items) =>
      var x :| x in items && !Clean(x);
      assert !AllPrimitive(items);
      if Columns(items).Some? {
        HeadBreaks(items, keyed, x);
      } else {
        ItemsBreak(items, x, depth + 1);
      }
    case _ =>
  }

  /** A field whose key or value is not clean puts a break on its own line or below it. */
  lemma {:induction false} MemberBreaks(m: Member, depth: nat)
    requires IsJson(m.value) && (NewlineKey(m.key) || !Clean(m.value))
    ensures Breaks(KeyText(m.key) + HeadText(m.value, true)) || BreaksSome(BodySpec(m.value, depth))
    decreases m, 0
  {
    if NewlineKey(m.key) {
      HeadOpens(m.value);
      KeyBreaks(m.key, HeadText(m.value, true));
    } else {
      ValueBreaks(m.value, true, depth);
      if Breaks(HeadText(m.value, true)) {
        BreaksAfter(KeyText(m.key), HeadText(m.value, true));
      }
    }
  }

  lemma {:induction false} FieldsBreak(fields: seq<Member>, m: Member, depth: nat)
    requires m in fields && IsJson(m.value) && (NewlineKey(m.key) || !Clean(m.value))
    ensures BreaksSome(ObjectSpec(fields, depth))
    decreases fields, 0
  {
    var first, rest := FieldSpec(fields[0], depth), ObjectSpec(fields[1..], depth);
    if fields[0] == m {
      MemberBreaks(m, depth);
      SomeIn(first, BodySpec(m.value, depth));
      assert first[0] in first;
      SomeIn(ObjectSpec(fields, depth), first);
    } else {
      FieldsBreak(fields[1..], m, depth);
      SomeIn(ObjectSpec(fields, depth), rest);
    }
  }

  lemma SomeIn(ls: Lines, part: Lines)
    requires forall l | l in part :: l in ls
    ensures BreaksSome(part) ==> BreaksSome(ls)
  {
  }

  lemma {:induction false} ItemsBreak(items: seq<Json>, x: Json, depth: nat)
    requires x in items && IsJson(x) && !Clean(x)
    ensures BreaksSome(ItemsSpec(items, depth))
    decreases items, 0
  {
    var first, rest := ItemSpec(items[0], depth), ItemsSpec(items[1..], depth);
    if items[0] == x {
      ItemBreaks(x, depth);
      SomeIn(ItemsSpec(items, depth), first);
    } else {
      ItemsBreak(items[1..], x, depth);
      SomeIn(ItemsSpec(items, depth), rest);
    }
  }

  lemma {:induction false} ItemBreaks(item: Json, depth: nat)
    requires IsJson(item) && !Clean(item)
    ensures BreaksSome(ItemSpec(item, depth))
    decreases item, 1
  {
    var ls := ItemSpec(item, depth);
    assert ls[0] in ls && ls[0].text == ItemText(item);
    SomeIn(ls, ItemTail(item, depth));
    match item
    case List(_) =>
      ValueBreaks(item, false, depth + 1);
      if Breaks(HeadText(item, false)) {
        BreaksAfter("- ", HeadText(item, false));
      }
    case Obj(fields) =>
      var m :| m in fields && (NewlineKey(m.key) || !Clean(m.value));
      var body, more := BodySpec(fields[0].value, depth + 1), ObjectSpec(fields[1..], depth + 1);
      if fields[0] == m {
        MemberBreaks(m, depth + 1);
        SomeIn(ItemTail(item, depth), body);
        if Breaks(KeyText(m.key) + HeadText(m.value, true)) {
          BreaksAfter("- ", KeyText(m.key) + HeadText(m.value, true));
        }
      } else {
        FieldsBreak(fields[1..], m, depth + 1);
        SomeIn(ItemTail(item, depth), more);
      }
    case _ =>
  }

  lemma {:induction false} JoinedBreaks(ls: Lines, l: Line)
    requires l in ls && Breaks(l.text)
    ensures Breaks(Join("\n", RenderAll(ls)))
  {
    var raws := RenderAll(ls);
    ConsParts(Render(ls[0]), RenderAll(ls[1..]));
    var rest := if |ls| == 1 then "" else "\n" + Join("\n", raws[1..]);
    assert Join("\n", raws) == raws[0] + rest by {
      NilRight(raws[0]);
      if |ls| > 1 {
        Assoc(raws[0], "\n", Join("\n", raws[1..]));
      }
    }
    if ls[0] == l {
      BreaksAfter(Pad(l.depth), l.text);
      BreaksBefore(raws[0], rest);
    } else {
      JoinedBreaks(ls[1..], l);
      BreaksAfter("\n", Join("\n", raws[1..]));
      BreaksAfter(raws[0], rest);
    }
  }

  lemma DirtyDocument(v: Json)
    requires IsJson(v) && !Clean(v)
    ensures Breaks(Document(v))
  {
    match v
    case Obj(fields) =>
      var m :| m in fields && (NewlineKey(m.key) || !Clean(m.value));
      FieldsBreak(fields, m, 0);
      var l :| l in ObjectSpec(fields, 0) && Breaks(l.text);
      JoinedBreaks(ObjectSpec(fields, 0), l);
    case List(_) =>
      var ls := ArraySpec(v, 0);
      ValueBreaks(v, false, 0);
      assert ls[0] in ls;
      SomeIn(ls, BodySpec(v, 0));
      var l :| l in ls && Breaks(l.text);
      JoinedBreaks(ls, l);
    case _ =>
  }

  // ---- the main results ----

  /** The document can be read back strictly, and then as the same JSON value. */
  ghost predicate Survives(v: Json) {
    Decode(Document(v)).Some? && Meaning(Decode(Document(v)).value) == Meaning(v)
  }

  /** The promise of `toon.py`, with the one condition it needs: no key that is bare but for a final newline. */
  lemma StrictlyDecodable(v: Json)
    requires IsJson(v)
    ensures Survives(v) <==> Clean(v)
    ensures !Clean(v) ==> Decode(Document(v)) == None
  {
    if Clean(v) {
      DecodeEncode(v);
      ReorderedMeans(v);
    } else {
      DirtyDocument(v);
      BreaksRefused(Document(v));
    }
  }

  lemma OneField(key: string, n: nat)
    requires n < 10
    ensures Document(Obj([Member(key, Int(n))])) == KeyText(key) + (": " + [DigitChar(n)])
  {
    var m := Member(key, Int(n));
    var l := Line(0, KeyText(key) + HeadText(m.value, true));
    assert HeadText(m.value, true) == ": " + [DigitChar(n)];
    assert ObjectSpec([m], 0) == FieldSpec(m, 0) + ObjectSpec([m][1..], 0) == [l];
    assert Render(l) == l.text;
    assert RenderAll([l]) == [l.text];
  }

  /** A payload whose document is refused. */
  lemma NewlineKeyIsLost()
    ensures var v := Obj([Member("a\n", Int(1))]);
            IsJson(v) && Document(v) == "a\n: 1" && Decode(Document(v)) == None
  {
    var v := Obj([Member("a\n", Int(1))]);
    assert "a\n"[..1] == "a";
    NewlineFieldIsNotClean("a\n", 1);
    StrictlyDecodable(v);
    OneField("a\n", 1);
    NewlineFieldText();
  }

  lemma NewlineFieldText()
    ensures KeyText("a\n") + (": " + [DigitChar(1)]) == "a\n: 1"
  {
    assert "a\n"[..1] == "a";
    assert KeyText("a\n") == "a\n";
  }

  lemma NewlineFieldIsNotClean(key: string, n: nat)
    requires NewlineKey(key)
    ensures IsJson(Obj([Member(key, Int(n))])) && !Clean(Obj([Member(key, Int(n))]))
  {
    assert Member(key, Int(n)) in [Member(key, Int(n))];
  }
}
