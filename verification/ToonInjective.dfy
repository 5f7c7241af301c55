/** The encoder never gives two payloads of different meaning one document, newline keys or not.

    No strict reader takes a document with a newline key, so the proof closes such keys: each of their
    newlines becomes more dots than any key of the payload is long. The same change can be made on
    the document without knowing the payload, and it leads to the document of the changed payload, which
    does read back. */
module ToonInjective {
  import opened Wrappers
  import opened Text
  import opened Toon
  import opened ToonDecoder
  import opened ToonTokens
  import opened ToonRoundTrip
  import opened ToonDocuments
  import opened ToonExactness

  // ---- the payload closed ----

  function Dots(n: nat): (m: string)
    ensures |m| == n && forall c | c in m :: c == '.'
  {
    if n == 0 then "" else "." + Dots(n - 1)
  }

  function ClosedKey(n: nat, key: string): string {
    if NewlineKey(key) then key[..|key| - 1] + Dots(n) else key
  }

  function Closed(n: nat, v: Json): Json
    decreases v, 0
  {
    match v
    case List(items) => List(ClosedItems(n, items))
    case Obj(fields) => Obj(ClosedFields(n, fields))
    case _ => v
  }

  function ClosedItems(n: nat, items: seq<Json>): (r: seq<Json>)
    ensures |r| == |items| && forall i | 0 <= i < |r| :: r[i] == Closed(n, items[i])
    decreases items, 0
  {
    if items == [] then [] else [Closed(n, items[0])] + ClosedItems(n, items[1..])
  }

  function ClosedFields(n: nat, fields: seq<Member>): (r: seq<Member>)
    ensures |r| == |fields|
    ensures forall i | 0 <= i < |r| :: r[i] == Member(ClosedKey(n, fields[i].key), Closed(n, fields[i].value))
    decreases fields, 0
  {
    if fields == [] then []
    else [Member(ClosedKey(n, fields[0].key), Closed(n, fields[0].value))] + ClosedFields(n, fields[1..])
  }

  function ClosedColumn(n: nat, c: Column): Column
    decreases c, 1
  {
    match c
    case Leaf(key) => Leaf(ClosedKey(n, key))
    case Group(key, sub) => Group(ClosedKey(n, key), ClosedColumns(n, sub))
  }

  function ClosedColumns(n: nat, cs: seq<Column>): (r: seq<Column>)
    ensures |r| == |cs| && forall i | 0 <= i < |r| :: r[i] == ClosedColumn(n, cs[i])
    decreases cs, 0
  {
    if cs == [] then [] else [ClosedColumn(n, cs[0])] + ClosedColumns(n, cs[1..])
  }

  function ClosedHeader(n: nat, header: Option<seq<Column>>): Option<seq<Column>> {
    match header
    case None => None
    case Some(cs) => Some(ClosedColumns(n, cs))
  }

  /** No key of the payload is longer than `n`. */
  ghost predicate Short(n: nat, v: Json) {
    match v
    case List(items) => forall x | x in items :: Short(n, x)
    case Obj(fields) => ShortFields(n, fields)
    case _ => true
  }

  ghost predicate ShortFields(n: nat, fields: seq<Member>) {
    forall m | m in fields :: |m.key| <= n && Short(n, m.value)
  }

  lemma {:induction false} ShortGrows(v: Json, n: nat, k: nat)
    requires Short(n, v) && n <= k
    ensures Short(k, v)
  {
    match v
    case List(items) =>
      forall x | x in items ensures Short(k, x) {
        ShortGrows(x, n, k);
      }
    case Obj(fields) =>
      forall m | m in fields ensures |m.key| <= k && Short(k, m.value) {
        ShortGrows(m.value, n, k);
      }
    case _ =>
  }

  lemma {:induction false} BoundItems(items: seq<Json>) returns (n: nat)
    ensures forall x | x in items :: Short(n, x)
    decreases items, 0
  {
    n := 0;
    if items != [] {
      var a := Bound(items[0]);
      var b := BoundItems(items[1..]);
      n := if a < b then b else a;
      forall x | x in items ensures Short(n, x) {
        ShortGrows(x, if x == items[0] then a else b, n);
      }
    }
  }

  lemma {:induction false} BoundFields(fields: seq<Member>) returns (n: nat)
    ensures ShortFields(n, fields)
    decreases fields, 0
  {
    n := 0;
    if fields != [] {
      var a := Bound(fields[0].value);
      var b := BoundFields(fields[1..]);
      n := |fields[0].key| + a + b;
      forall m | m in fields ensures |m.key| <= n && Short(n, m.value) {
        ShortGrows(m.value, if m == fields[0] then a else b, n);
      }
    }
  }

  lemma {:induction false} Bound(v: Json) returns (n: nat)
    ensures Short(n, v)
    decreases v, 0
  {
    n := 0;
    match v
    case List(items) => n := BoundItems(items);
    case Obj(fields) => n := BoundFields(fields);
    case _ =>
  }

  // ---- what closing keeps ----

  lemma ClosedKeyShape(n: nat, key: string)
    ensures !NewlineKey(ClosedKey(n, key)) && KeyText(ClosedKey(n, key)) != ""
    ensures NewlineKey(key) ==> Bare(ClosedKey(n, key)) && |ClosedKey(n, key)| > n
  {
    if NewlineKey(key) {
      var k := key[..|key| - 1];
      assert forall c | c in k + Dots(n) :: KeyChar(c);
      assert (k + Dots(n))[0] == k[0];
      assert Bare(ClosedKey(n, key));
      var last := ClosedKey(n, key)[|ClosedKey(n, key)| - 1];
      assert KeyChar(last);
    }
  }

  lemma SameStart(a: string, b: string, m: string)
    requires a != "" && b != "" && a[|a| - 1] == b[|b| - 1] && a[..|a| - 1] + m == b[..|b| - 1] + m
    ensures a == b
  {
    var c := a[..|a| - 1] + m;
    assert a[..|a| - 1] == c[..|c| - |m|] == b[..|b| - 1];
    assert a == a[..|a| - 1] + [a[|a| - 1]] && b == b[..|b| - 1] + [b[|b| - 1]];
  }

  /** Closing short keys keeps them apart. */
  lemma ClosedKeysDiffer(n: nat, a: string, b: string)
    requires |a| <= n && |b| <= n && ClosedKey(n, a) == ClosedKey(n, b)
    ensures a == b
  {
    ClosedKeyShape(n, a);
    ClosedKeyShape(n, b);
    if NewlineKey(a) && NewlineKey(b) {
      SameStart(a, b, Dots(n));
    }
  }

  lemma {:induction false} LookupClosed(n: nat, fields: seq<Member>, key: string)
    requires ShortFields(n, fields) && key in Keys(fields)
    ensures ClosedKey(n, key) in Keys(ClosedFields(n, fields))
    ensures Lookup(ClosedFields(n, fields), ClosedKey(n, key)) == Closed(n, Lookup(fields, key))
  {
    var closed := ClosedFields(n, fields);
    var i :| 0 <= i < |fields| && fields[i].key == key;
    assert closed[i] in closed;
    assert fields[0] in fields && fields[i] in fields;
    if fields[0].key != key {
      if closed[0].key == ClosedKey(n, key) {
        ClosedKeysDiffer(n, fields[0].key, key);
      }
      assert fields[1..][i - 1].key == key;
      LookupClosed(n, fields[1..], key);
      assert closed[1..] == ClosedFields(n, fields[1..]);
    }
  }

  lemma KeysClosed(n: nat, fields: seq<Member>, key: string)
    requires ShortFields(n, fields) && |key| <= n
    ensures ClosedKey(n, key) in Keys(ClosedFields(n, fields)) <==> key in Keys(fields)
  {
    var closed := ClosedFields(n, fields);
    if ClosedKey(n, key) in Keys(closed) {
      var i :| 0 <= i < |closed| && closed[i].key == ClosedKey(n, key);
      assert fields[i] in fields;
      ClosedKeysDiffer(n, fields[i].key, key);
    }
    if key in Keys(fields) {
      LookupClosed(n, fields, key);
    }
  }

  lemma FromClosed(n: nat, fields: seq<Member>, k: string) returns (key: string)
    requires ShortFields(n, fields) && k in Keys(ClosedFields(n, fields))
    ensures key in Keys(fields) && |key| <= n && k == ClosedKey(n, key)
  {
    var i :| 0 <= i < |fields| && ClosedFields(n, fields)[i].key == k;
    assert fields[i] in fields;
    key := fields[i].key;
  }

  lemma SameKeysClosed(n: nat, a: seq<Member>, b: seq<Member>)
    requires ShortFields(n, a) && ShortFields(n, b)
    ensures Keys(ClosedFields(n, a)) == Keys(ClosedFields(n, b)) <==> Keys(a) == Keys(b)
  {
    if Keys(a) == Keys(b) {
      forall k ensures k in Keys(ClosedFields(n, a)) <==> k in Keys(ClosedFields(n, b)) {
        if k in Keys(ClosedFields(n, a)) {
          var key := FromClosed(n, a, k);
          KeysClosed(n, b, key);
        }
        if k in Keys(ClosedFields(n, b)) {
          var key := FromClosed(n, b, k);
          KeysClosed(n, a, key);
        }
      }
    }
    if Keys(ClosedFields(n, a)) == Keys(ClosedFields(n, b)) {
      forall key ensures key in Keys(a) <==> key in Keys(b) {
        if key in Keys(a) || key in Keys(b) {
          KeysClosed(n, a, key);
          KeysClosed(n, b, key);
        }
      }
    }
  }

  ghost predicate AllShort(n: nat, items: seq<Json>) { forall x | x in items :: Short(n, x) }

  lemma SameShapeClosed(n: nat, items: seq<Json>)
    requires items != [] && AllShort(n, items)
    ensures SameShape(ClosedItems(n, items)) <==> SameShape(items)
  {
    var closed := ClosedItems(n, items);
    assert items[0] in items && closed[0] in closed;
    forall i | 0 <= i < |items|
      ensures (closed[i].Obj? && closed[i].fields != []) <==> (items[i].Obj? && items[i].fields != [])
      ensures items[i].Obj? && items[0].Obj? ==>
        (Keys(closed[i].fields) == Keys(closed[0].fields) <==> Keys(items[i].fields) == Keys(items[0].fields))
    {
      assert items[i] in items;
      if items[i].Obj? && items[0].Obj? {
        SameKeysClosed(n, items[i].fields, items[0].fields);
      }
    }
    if SameShape(items) {
      forall x | x in closed ensures x.Obj? && x.fields != [] && Keys(x.fields) == Keys(closed[0].fields) {
        var i :| 0 <= i < |closed| && closed[i] == x;
        assert items[i] in items;
      }
    }
    if SameShape(closed) {
      forall x | x in items ensures x.Obj? && x.fields != [] && Keys(x.fields) == Keys(items[0].fields) {
        var i :| 0 <= i < |items| && items[i] == x;
        assert closed[i] in closed;
      }
    }
  }

  lemma PrimitivesClosed(n: nat, items: seq<Json>)
    ensures AllPrimitive(ClosedItems(n, items)) <==> AllPrimitive(items)
    ensures AllPrimitive(items) ==> ClosedItems(n, items) == items
  {
    var closed := ClosedItems(n, items);
    if AllPrimitive(items) {
      forall i | 0 <= i < |items| ensures closed[i] == items[i] {
        assert IsPrimitive(items[i]);
      }
    }
    if AllPrimitive(closed) {
      forall x | x in items ensures IsPrimitive(x) {
        var i :| 0 <= i < |items| && items[i] == x;
        assert IsPrimitive(closed[i]);
      }
    }
  }

  lemma ColumnOfClosed(n: nat, items: seq<Json>, key: string)
    requires AllShort(n, items) && forall x | x in items :: x.Obj? && key in Keys(x.fields)
    ensures forall x | x in ClosedItems(n, items) :: x.Obj? && ClosedKey(n, key) in Keys(x.fields)
    ensures ColumnOf(ClosedItems(n, items), ClosedKey(n, key)) == ClosedItems(n, ColumnOf(items, key))
    ensures AllShort(n, ColumnOf(items, key))
  {
    var closed := ClosedItems(n, items);
    forall i | 0 <= i < |items|
      ensures closed[i].Obj? && ClosedKey(n, key) in Keys(closed[i].fields) && Short(n, ColumnOf(items, key)[i])
      ensures Lookup(closed[i].fields, ClosedKey(n, key)) == Closed(n, Lookup(items[i].fields, key))
    {
      assert items[i] in items;
      LookupClosed(n, items[i].fields, key);
      assert Member(key, Lookup(items[i].fields, key)) in items[i].fields;
    }
  }

  /** A table stays a table, and its header is closed with it. */
  lemma {:induction false} ColumnsClosed(n: nat, items: seq<Json>)
    requires items != [] && AllShort(n, items)
    ensures Columns(ClosedItems(n, items)) == ClosedHeader(n, Columns(items))
    decreases items[0], 1, 0
  {
    SameShapeClosed(n, items);
    if SameShape(items) {
      ColumnsForClosed(n, items, items[0].fields);
    }
  }

  lemma {:induction false} ColumnForClosed(n: nat, items: seq<Json>, key: string, closed: seq<Json>, k: string)
    requires items != [] && SameShape(items) && AllShort(n, items) && key in Keys(items[0].fields)
    requires closed == ClosedItems(n, items) && k == ClosedKey(n, key)
    ensures SameShape(closed) && k in Keys(closed[0].fields)
    ensures ColumnFor(closed, k).Some? <==> ColumnFor(items, key).Some?
    ensures ColumnFor(items, key).Some? ==> ColumnFor(closed, k).value == ClosedColumn(n, ColumnFor(items, key).value)
    decreases items[0], 0, 0
  {
    var column := ColumnOf(items, key);
    assert column[0] < items[0] by { assert Member(key, column[0]) in items[0].fields; }
    SameShapeClosed(n, items);
    ColumnOfClosed(n, items, key);
    assert closed[0] in closed;
    PrimitivesClosed(n, column);
    ColumnsClosed(n, column);
  }

  /** The header with the first column in front, as `ColumnsFor` puts it together. */
  function WithFirst(c: Option<Column>, rest: Option<seq<Column>>): Option<seq<Column>> {
    if c.Some? && rest.Some? then Some([c.value] + rest.value) else None
  }

  lemma OneMoreColumn(items: seq<Json>, m: Member, fields: seq<Member>)
    requires items != [] && SameShape(items)
    requires m.key in Keys(items[0].fields) && Keys(fields) <= Keys(items[0].fields)
    ensures Keys([m] + fields) <= Keys(items[0].fields)
    ensures ColumnsFor(items, [m] + fields) == WithFirst(ColumnFor(items, m.key), ColumnsFor(items, fields))
  {
    ConsParts(m, fields);
  }

  lemma HeaderStep(n: nat, c: Option<Column>, rest: Option<seq<Column>>)
    ensures ClosedHeader(n, WithFirst(c, rest))
            == WithFirst(if c.Some? then Some(ClosedColumn(n, c.value)) else None, ClosedHeader(n, rest))
  {
    if c.Some? && rest.Some? {
      ConsParts(c.value, rest.value);
    }
  }

  lemma {:induction false} ColumnsForClosed(n: nat, items: seq<Json>, fields: seq<Member>)
    requires items != [] && SameShape(items) && AllShort(n, items)
    requires Keys(fields) <= Keys(items[0].fields)
    ensures SameShape(ClosedItems(n, items))
    ensures Keys(ClosedFields(n, fields)) <= Keys(ClosedItems(n, items)[0].fields)
    ensures ColumnsFor(ClosedItems(n, items), ClosedFields(n, fields))
            == ClosedHeader(n, ColumnsFor(items, fields))
    decreases items[0], 0, |fields|
  {
    SameShapeClosed(n, items);
    if fields != [] {
      assert fields[0].key in Keys(fields) && Keys(fields[1..]) <= Keys(fields);
      var first := Member(ClosedKey(n, fields[0].key), Closed(n, fields[0].value));
      ColumnForClosed(n, items, fields[0].key, ClosedItems(n, items), first.key);
      ColumnsForClosed(n, items, fields[1..]);
      HeaderStep(n, ColumnFor(items, fields[0].key), ColumnsFor(items, fields[1..]));
      ConsTail(fields);
      OneMoreColumn(items, fields[0], fields[1..]);
      OneMoreColumn(ClosedItems(n, items), first, ClosedFields(n, fields[1..]));
    }
  }

  // ---- rows ----

  lemma {:induction false} RowClosed(n: nat, item: Json, cs: seq<Column>)
    requires FitsRow(item, cs) && Short(n, item)
    ensures FitsRow(Closed(n, item), ClosedColumns(n, cs))
    ensures RowCells(Closed(n, item), ClosedColumns(n, cs)) == RowCells(item, cs)
    decreases cs, 0
  {
    if cs != [] {
      var c := cs[0];
      assert FitsColumn(item, c);
      CellClosed(n, item, c);
      RowClosed(n, item, cs[1..]);
      ConsParts(ClosedColumn(n, c), ClosedColumns(n, cs[1..]));
      FitsCons(Closed(n, item), ClosedColumn(n, c), ClosedColumns(n, cs[1..]));
    }
  }

  lemma FitsCons(item: Json, c: Column, cs: seq<Column>)
    requires item.Obj? && FitsColumn(item, c) && FitsRow(item, cs)
    ensures FitsRow(item, [c] + cs)
  {
  }

  lemma {:induction false} CellClosed(n: nat, item: Json, c: Column)
    requires item.Obj? && FitsColumn(item, c) && Short(n, item)
    ensures FitsColumn(Closed(n, item), ClosedColumn(n, c))
    ensures ClosedKey(n, c.key) in Keys(Closed(n, item).fields)
    ensures Lookup(Closed(n, item).fields, ClosedKey(n, c.key)) == Closed(n, Lookup(item.fields, c.key))
    ensures c.Group? ==> RowCells(Closed(n, Lookup(item.fields, c.key)), ClosedColumns(n, c.sub))
                         == RowCells(Lookup(item.fields, c.key), c.sub)
    decreases c, 1
  {
    LookupClosed(n, item.fields, c.key);
    if c.Group? {
      var x := Lookup(item.fields, c.key);
      assert Member(c.key, x) in item.fields;
      RowClosed(n, x, c.sub);
    }
  }

  lemma {:induction false} RowsClosed(n: nat, items: seq<Json>, cs: seq<Column>, depth: nat)
    requires AllFit(items, cs) && AllShort(n, items)
    ensures AllFit(ClosedItems(n, items), ClosedColumns(n, cs))
    ensures RowLines(ClosedItems(n, items), ClosedColumns(n, cs), depth) == RowLines(items, cs, depth)
  {
    if items != [] {
      assert items[0] in items;
      RowClosed(n, items[0], cs);
      RowsClosed(n, items[1..], cs, depth);
      ConsParts(Closed(n, items[0]), ClosedItems(n, items[1..]));
    }
  }

  // ---- the text closed ----

  /** The text with dots for every newline that a line cannot go on from. */
  function ClosedText(n: nat, t: string): string {
    if t == "" then ""
    else if t[0] == '\n' && |t| > 1 && NoLineStart(t[1]) then Dots(n) + ClosedText(n, t[1..])
    else [t[0]] + ClosedText(n, t[1..])
  }

  /** Closing the one text gives the other, whatever follows. */
  ghost predicate Closes(n: nat, a: string, b: string) {
    forall t :: ClosedText(n, a + t) == b + ClosedText(n, t)
  }

  predicate GoesOn(t: string) { t != "" && NoLineStart(t[0]) }

  /** The same if what follows cannot begin a line. */
  ghost predicate ClosesInside(n: nat, a: string, b: string) {
    forall t | GoesOn(t) :: ClosedText(n, a + t) == b + ClosedText(n, t)
  }

  lemma {:induction false} PlainStep(n: nat, a: string, t: string)
    requires '\n' !in a
    ensures ClosedText(n, a + t) == a + ClosedText(n, t)
  {
    if a == "" {
      NilRight(t);
      NilRight(ClosedText(n, t));
    } else {
      ConsTail(a);
      Assoc([a[0]], a[1..], t);
      ConsParts(a[0], a[1..] + t);
      PlainStep(n, a[1..], t);
      Assoc([a[0]], a[1..], ClosedText(n, t));
    }
  }

  lemma PlainCloses(n: nat, a: string)
    requires '\n' !in a
    ensures Closes(n, a, a)
  {
    forall t ensures ClosedText(n, a + t) == a + ClosedText(n, t) {
      PlainStep(n, a, t);
    }
  }

  lemma Both(n: nat, a: string, b: string, c: string, d: string)
    requires Closes(n, a, b) && Closes(n, c, d)
    ensures Closes(n, a + c, b + d)
  {
    forall t ensures ClosedText(n, (a + c) + t) == (b + d) + ClosedText(n, t) {
      Assoc(a, c, t);
      Assoc(b, d, ClosedText(n, t));
      assert ClosedText(n, a + (c + t)) == b + ClosedText(n, c + t);
    }
  }

  lemma BothInside(n: nat, a: string, b: string, c: string, d: string)
    requires ClosesInside(n, a, b) && GoesOn(c)
    ensures ClosesInside(n, c, d) ==> ClosesInside(n, a + c, b + d)
    ensures Closes(n, c, d) ==> Closes(n, a + c, b + d)
  {
    forall t ensures ClosedText(n, c + t) == d + ClosedText(n, t) ==>
        ClosedText(n, (a + c) + t) == (b + d) + ClosedText(n, t)
    {
      Assoc(a, c, t);
      Assoc(b, d, ClosedText(n, t));
      assert GoesOn(c + t);
      assert ClosedText(n, a + (c + t)) == b + ClosedText(n, c + t);
    }
  }

  lemma AlsoInside(n: nat, a: string, b: string)
    requires Closes(n, a, b)
    ensures ClosesInside(n, a, b)
  {
  }

  lemma ThenInside(n: nat, a: string, b: string, c: string, d: string)
    requires Closes(n, a, b) && ClosesInside(n, c, d)
    ensures ClosesInside(n, a + c, b + d)
  {
    forall t | GoesOn(t) ensures ClosedText(n, (a + c) + t) == (b + d) + ClosedText(n, t) {
      Assoc(a, c, t);
      Assoc(b, d, ClosedText(n, t));
      assert ClosedText(n, a + (c + t)) == b + ClosedText(n, c + t);
    }
  }

  lemma KeyCloses(n: nat, key: string)
    ensures ClosesInside(n, KeyText(key), KeyText(ClosedKey(n, key)))
  {
    ClosedKeyShape(n, key);
    if NewlineKey(key) {
      var k := key[..|key| - 1];
      assert '\n' !in k by { assert forall c | c in k :: KeyChar(c); }
      assert key == k + "\n";
      forall t | GoesOn(t)
        ensures ClosedText(n, KeyText(key) + t) == KeyText(ClosedKey(n, key)) + ClosedText(n, t)
      {
        Assoc(k, "\n", t);
        PlainStep(n, k, "\n" + t);
        ConsParts('\n', t);
        assert ClosedText(n, "\n" + t) == Dots(n) + ClosedText(n, t);
        Assoc(k, Dots(n), ClosedText(n, t));
      }
    } else {
      KeySolid(key);
      PlainCloses(n, KeyText(key));
    }
  }

  // ---- first lines ----

  lemma {:induction false} ColumnCloses(n: nat, c: Column)
    ensures ClosesInside(n, ColumnText(c), ColumnText(ClosedColumn(n, c)))
    decreases c, 1
  {
    KeyCloses(n, c.key);
    if c.Group? {
      var header, closed := Join(",", ColumnTexts(c.sub)), Join(",", ColumnTexts(ClosedColumns(n, c.sub)));
      var key, k := KeyText(c.key), KeyText(ClosedKey(n, c.key));
      PlainCloses(n, "{");
      PlainCloses(n, "}");
      BothInside(n, key, k, "{", "{");
      HeaderCloses(n, c.sub);
      ThenInside(n, key + "{", k + "{", header, closed);
      BothInside(n, key + "{" + header, k + "{" + closed, "}", "}");
      AlsoInside(n, key + "{" + header + "}", k + "{" + closed + "}");
    }
  }

  lemma {:induction false} HeaderCloses(n: nat, cs: seq<Column>)
    ensures ClosesInside(n, Join(",", ColumnTexts(cs)), Join(",", ColumnTexts(ClosedColumns(n, cs))))
    decreases cs, 0
  {
    if cs != [] {
      var first, rest := ColumnText(cs[0]), ColumnTexts(cs[1..]);
      var cfirst, crest := ColumnText(ClosedColumn(n, cs[0])), ColumnTexts(ClosedColumns(n, cs[1..]));
      ColumnCloses(n, cs[0]);
      ConsParts(first, rest);
      ConsParts(cfirst, crest);
      ConsParts(ClosedColumn(n, cs[0]), ClosedColumns(n, cs[1..]));
      if |cs| > 1 {
        HeaderCloses(n, cs[1..]);
        PlainCloses(n, ",");
        BothInside(n, first, cfirst, ",", ",");
        ThenInside(n, first + ",", cfirst + ",", Join(",", rest), Join(",", crest));
      }
    } else {
      PlainCloses(n, "");
      AlsoInside(n, "", "");
    }
  }

  lemma ShapeCloses(n: nat, items: seq<Json>, closed: seq<Json>)
    requires items != [] && AllShort(n, items) && closed == ClosedItems(n, items)
    ensures Closes(n, ShapeText(items), ShapeText(closed))
  {
    PrimitivesClosed(n, items);
    if AllPrimitive(items) {
      ScalarsSolid(items);
      PlainCloses(n, ShapeText(items));
    } else {
      ColumnsClosed(n, items);
      PlainCloses(n, ":");
      if Columns(items).Some? {
        var cs := Columns(items).value;
        HeaderCloses(n, cs);
        PlainCloses(n, "{");
        PlainCloses(n, "}" + ":");
        var a, b := Join(",", ColumnTexts(cs)), Join(",", ColumnTexts(ClosedColumns(n, cs)));
        BothInside(n, a, b, "}" + ":", "}" + ":");
        Both(n, "{", "{", a + ("}" + ":"), b + ("}" + ":"));
      }
    }
  }

  lemma BracketCloses(n: nat, count: string, a: string, b: string)
    requires '\n' !in count && Closes(n, a, b)
    ensures Closes(n, "[" + (count + ("]" + a)), "[" + (count + ("]" + b)))
  {
    PlainCloses(n, "[");
    PlainCloses(n, "]");
    PlainCloses(n, count);
    Both(n, "]", "]", a, b);
    Both(n, count, count, "]" + a, "]" + b);
    Both(n, "[", "[", count + ("]" + a), count + ("]" + b));
  }

  lemma FlatHeadCloses(n: nat, v: Json, keyed: bool)
    requires !v.List? || v.items == []
    ensures Closes(n, HeadText(v, keyed), HeadText(Closed(n, v), keyed))
  {
    if IsPrimitive(v) {
      ScalarSolid(v);
    }
    PlainCloses(n, HeadText(v, keyed));
  }

  lemma ListHeadText(v: Json, keyed: bool)
    requires v.List? && v.items != []
    ensures HeadText(v, keyed) == "[" + (NatText(|v.items|) + ("]" + ShapeText(v.items)))
  {
  }

  lemma ListHeadCloses(n: nat, items: seq<Json>, closed: seq<Json>, a: string, b: string)
    requires items != [] && AllShort(n, items) && closed == ClosedItems(n, items)
    requires a == ShapeText(items) && b == ShapeText(closed)
    ensures Closes(n, "[" + (NatText(|items|) + ("]" + a)), "[" + (NatText(|closed|) + ("]" + b)))
  {
    ShapeCloses(n, items, closed);
    BracketCloses(n, NatText(|items|), a, b);
  }

  lemma HeadCloses(n: nat, v: Json, keyed: bool)
    requires Short(n, v)
    ensures Closes(n, HeadText(v, keyed), HeadText(Closed(n, v), keyed))
  {
    if v.List? && v.items != [] {
      var closed := ClosedItems(n, v.items);
      ListHeadText(v, keyed);
      ListHeadText(Closed(n, v), keyed);
      ListHeadCloses(n, v.items, closed, ShapeText(v.items), ShapeText(closed));
    } else {
      FlatHeadCloses(n, v, keyed);
    }
  }

  // ---- lines ----

  ghost predicate Opens(l: Line) { l.depth > 0 || (l.text != "" && !NoLineStart(l.text[0])) }

  ghost predicate LineCloses(n: nat, a: Line, b: Line) {
    a.depth == b.depth && Opens(a) && Closes(n, a.text, b.text)
  }

  ghost predicate LinesClose(n: nat, a: Lines, b: Lines) {
    |a| == |b| && forall i | 0 <= i < |a| :: LineCloses(n, a[i], b[i])
  }

  lemma LinesBoth(n: nat, a: Lines, b: Lines, c: Lines, d: Lines)
    requires LinesClose(n, a, b) && LinesClose(n, c, d)
    ensures LinesClose(n, a + c, b + d)
  {
  }

  lemma LineThen(n: nat, a: Line, b: Line, c: Lines, d: Lines)
    requires LineCloses(n, a, b) && LinesClose(n, c, d)
    ensures LinesClose(n, [a] + c, [b] + d)
  {
  }

  lemma {:induction false} RowsClose(n: nat, items: seq<Json>, cs: seq<Column>, depth: nat)
    requires cs != [] && AllFit(items, cs) && depth > 0
    ensures LinesClose(n, RowLines(items, cs, depth), RowLines(items, cs, depth))
  {
    if items != [] {
      RowsClose(n, items[1..], cs, depth);
      LeavesShape(items[0], cs);
      ScalarsSolid(Leaves(items[0], cs));
      PlainCloses(n, RowText(items[0], cs));
      var l := Line(depth, RowText(items[0], cs));
      LineThen(n, l, l, RowLines(items[1..], cs, depth), RowLines(items[1..], cs, depth));
    }
  }

  lemma KeyOpensLine(key: string, rest: string)
    ensures KeyText(key) + rest != "" && !NoLineStart((KeyText(key) + rest)[0])
  {
    if NewlineKey(key) {
      assert key[0] == key[..|key| - 1][0];
    }
  }

  lemma FieldText(n: nat, m: Member, head: string, closed: string)
    requires Short(n, m.value)
    requires head == HeadText(m.value, true) && closed == HeadText(Closed(n, m.value), true)
    ensures Closes(n, KeyText(m.key) + head, KeyText(ClosedKey(n, m.key)) + closed)
    ensures KeyText(m.key) + head != "" && !NoLineStart((KeyText(m.key) + head)[0])
  {
    KeyCloses(n, m.key);
    HeadCloses(n, m.value, true);
    HeadOpens(m.value);
    KeyOpensLine(m.key, head);
    BothInside(n, KeyText(m.key), KeyText(ClosedKey(n, m.key)), head, closed);
  }

  lemma {:induction false} BodyCloses(n: nat, v: Json, depth: nat)
    requires Short(n, v)
    ensures LinesClose(n, BodySpec(v, depth), BodySpec(Closed(n, v), depth))
    decreases v, 0
  {
    match v
    case Obj(fields) => FieldsClose(n, fields, depth + 1);
    case List(items) =>
      if items != [] {
        PrimitivesClosed(n, items);
        ColumnsClosed(n, items);
        if AllPrimitive(items) {
        } else if Columns(items).Some? {
          ColumnsFit(items);
          RowsClosed(n, items, Columns(items).value, depth + 1);
          RowsClose(n, items, Columns(items).value, depth + 1);
        } else {
          ItemsClose(n, items, depth + 1);
        }
      }
    case _ =>
  }

  lemma {:induction false} FieldsClose(n: nat, fields: seq<Member>, depth: nat)
    requires ShortFields(n, fields)
    ensures LinesClose(n, ObjectSpec(fields, depth), ObjectSpec(ClosedFields(n, fields), depth))
    decreases fields, 0
  {
    if fields != [] {
      var m := fields[0];
      assert m in fields;
      var k := Member(ClosedKey(n, m.key), Closed(n, m.value));
      FieldText(n, m, HeadText(m.value, true), HeadText(Closed(n, m.value), true));
      BodyCloses(n, m.value, depth);
      FieldsClose(n, fields[1..], depth);
      LineThen(n, FieldSpec(m, depth)[0], FieldSpec(k, depth)[0], BodySpec(m.value, depth), BodySpec(k.value, depth));
      ConsParts(k, ClosedFields(n, fields[1..]));
      LinesBoth(n, FieldSpec(m, depth), FieldSpec(k, depth),
                ObjectSpec(fields[1..], depth), ObjectSpec(ClosedFields(n, fields[1..]), depth));
    }
  }

  lemma {:induction false} ItemsClose(n: nat, items: seq<Json>, depth: nat)
    requires AllShort(n, items) && depth > 0
    ensures LinesClose(n, ItemsSpec(items, depth), ItemsSpec(ClosedItems(n, items), depth))
    decreases items, 0
  {
    if items != [] {
      assert items[0] in items;
      ItemCloses(n, items[0], depth);
      ItemsClose(n, items[1..], depth);
      ConsParts(Closed(n, items[0]), ClosedItems(n, items[1..]));
      LinesBoth(n, ItemSpec(items[0], depth), ItemSpec(Closed(n, items[0]), depth),
                ItemsSpec(items[1..], depth), ItemsSpec(ClosedItems(n, items[1..]), depth));
    }
  }

  lemma HyphenCloses(n: nat, a: string, b: string)
    requires Closes(n, a, b)
    ensures Closes(n, "- " + a, "- " + b)
  {
    PlainCloses(n, "- ");
    Both(n, "- ", "- ", a, b);
  }

  lemma FirstFieldCloses(n: nat, m: Member, key: string, k: string, head: string, closed: string)
    requires Short(n, m.value) && key == KeyText(m.key) && k == KeyText(ClosedKey(n, m.key))
    requires head == HeadText(m.value, true) && closed == HeadText(Closed(n, m.value), true)
    ensures Closes(n, "- " + (key + head), "- " + (k + closed))
  {
    FieldText(n, m, head, closed);
    HyphenCloses(n, key + head, k + closed);
  }

  lemma ScalarItemCloses(n: nat, item: Json)
    requires IsPrimitive(item)
    ensures Closes(n, ItemText(item), ItemText(Closed(n, item)))
  {
    ScalarSolid(item);
    PlainCloses(n, "- " + ScalarText(item));
  }

  lemma ObjectItemText(fields: seq<Member>, key: string, head: string)
    requires fields != [] && key == KeyText(fields[0].key) && head == HeadText(fields[0].value, true)
    ensures ItemText(Obj(fields)) == "- " + (key + head)
  {
  }

  lemma ObjectItemCloses(n: nat, fields: seq<Member>, m: Member, key: string, k: string, head: string, closed: string)
    requires fields != [] && m == fields[0] && ShortFields(n, fields)
    requires key == KeyText(m.key) && k == KeyText(ClosedKey(n, m.key))
    requires head == HeadText(m.value, true) && closed == HeadText(Closed(n, m.value), true)
    ensures Closes(n, ItemText(Obj(fields)), ItemText(Obj(ClosedFields(n, fields))))
  {
    assert m in fields;
    FirstFieldCloses(n, m, key, k, head, closed);
    ObjectItemText(fields, key, head);
    ObjectItemText(ClosedFields(n, fields), k, closed);
  }

  lemma ItemTextCloses(n: nat, item: Json)
    requires Short(n, item)
    ensures Closes(n, ItemText(item), ItemText(Closed(n, item)))
  {
    match item
    case List(_) =>
      HeadCloses(n, item, false);
      HyphenCloses(n, HeadText(item, false), HeadText(Closed(n, item), false));
    case Obj(fields) =>
      if fields == [] {
        PlainCloses(n, "-");
      } else {
        var m := fields[0];
        ObjectItemCloses(n, fields, m, KeyText(m.key), KeyText(ClosedKey(n, m.key)),
                         HeadText(m.value, true), HeadText(Closed(n, m.value), true));
      }
    case _ => ScalarItemCloses(n, item);
  }

  lemma {:induction false} ItemCloses(n: nat, item: Json, depth: nat)
    requires Short(n, item) && depth > 0
    ensures LinesClose(n, ItemSpec(item, depth), ItemSpec(Closed(n, item), depth))
    decreases item, 2
  {
    ItemTextCloses(n, item);
    TailCloses(n, item, depth);
    LineThen(n, Line(depth, ItemText(item)), Line(depth, ItemText(Closed(n, item))),
             ItemTail(item, depth), ItemTail(Closed(n, item), depth));
  }

  lemma {:induction false} TailCloses(n: nat, item: Json, depth: nat)
    requires Short(n, item)
    ensures LinesClose(n, ItemTail(item, depth), ItemTail(Closed(n, item), depth))
    decreases item, 1
  {
    match item
    case List(_) => BodyCloses(n, item, depth + 1);
    case Obj(fields) =>
      if fields != [] {
        var m := fields[0];
        assert m in fields;
        BodyCloses(n, m.value, depth + 1);
        FieldsClose(n, fields[1..], depth + 1);
        ConsParts(Member(ClosedKey(n, m.key), Closed(n, m.value)), ClosedFields(n, fields[1..]));
        LinesBoth(n, BodySpec(m.value, depth + 1), BodySpec(Closed(n, m.value), depth + 1),
                  ObjectSpec(fields[1..], depth + 1), ObjectSpec(ClosedFields(n, fields[1..]), depth + 1));
      }
    case _ =>
  }

  // ---- documents ----

  /** Lines that are not the first, each with the newline before it. */
  function Later(ls: Lines): string {
    if ls == [] then "" else ("\n" + Render(ls[0])) + Later(ls[1..])
  }

  lemma {:induction false} JoinLater(l: Line, ls: Lines)
    ensures Join("\n", RenderAll([l] + ls)) == Render(l) + Later(ls)
    decreases ls
  {
    ConsParts(l, ls);
    ConsParts(Render(l), RenderAll(ls));
    if ls == [] {
      NilRight(Render(l));
    } else {
      JoinLater(ls[0], ls[1..]);
      ConsTail(ls);
      Assoc("\n", Render(ls[0]), Later(ls[1..]));
      Assoc(Render(l), "\n", Render(ls[0]) + Later(ls[1..]));
    }
  }

  lemma BreakCloses(n: nat, a: string, b: string)
    requires Closes(n, a, b) && a != "" && !NoLineStart(a[0])
    ensures Closes(n, "\n" + a, "\n" + b)
  {
    forall t ensures ClosedText(n, ("\n" + a) + t) == ("\n" + b) + ClosedText(n, t) {
      Assoc("\n", a, t);
      ConsParts('\n', a + t);
      Assoc("\n", b, ClosedText(n, t));
    }
  }

  lemma RenderCloses(n: nat, a: Line, b: Line)
    requires a.depth == b.depth && Closes(n, a.text, b.text)
    ensures Closes(n, Render(a), Render(b))
    ensures Opens(a) ==> Render(a) != "" && !NoLineStart(Render(a)[0])
  {
    PadIsBlank(a.depth);
    PlainCloses(n, Pad(a.depth));
    Both(n, Pad(a.depth), Pad(a.depth), a.text, b.text);
    if a.depth == 0 {
      NilRight(a.text);
    } else {
      assert Pad(a.depth)[0] == ' ';
    }
  }

  lemma {:induction false} LaterCloses(n: nat, a: Lines, b: Lines)
    requires LinesClose(n, a, b)
    ensures Closes(n, Later(a), Later(b))
  {
    if a == [] {
      PlainCloses(n, "");
    } else {
      assert LineCloses(n, a[0], b[0]);
      RenderCloses(n, a[0], b[0]);
      BreakCloses(n, Render(a[0]), Render(b[0]));
      LaterCloses(n, a[1..], b[1..]);
      Both(n, "\n" + Render(a[0]), "\n" + Render(b[0]), Later(a[1..]), Later(b[1..]));
    }
  }

  lemma PageCloses(n: nat, a: Line, b: Line, c: Lines, d: Lines)
    requires a.depth == b.depth && Closes(n, a.text, b.text) && LinesClose(n, c, d)
    ensures ClosedText(n, Join("\n", RenderAll([a] + c))) == Join("\n", RenderAll([b] + d))
  {
    RenderCloses(n, a, b);
    LaterCloses(n, c, d);
    Both(n, Render(a), Render(b), Later(c), Later(d));
    JoinLater(a, c);
    JoinLater(b, d);
    NilRight(Render(a) + Later(c));
    NilRight(Render(b) + Later(d));
    assert ClosedText(n, (Render(a) + Later(c)) + "") == (Render(b) + Later(d)) + ClosedText(n, "");
  }

  /** Closing the document needs only its text, and gives the document of the closed payload. */
  lemma DocumentCloses(n: nat, v: Json)
    requires Short(n, v)
    ensures ClosedText(n, Document(v)) == Document(Closed(n, v))
  {
    match v
    case Obj(fields) =>
      FieldsClose(n, fields, 0);
      var ls, ks := ObjectSpec(fields, 0), ObjectSpec(ClosedFields(n, fields), 0);
      if ls != [] {
        assert LineCloses(n, ls[0], ks[0]);
        ConsTail(ls);
        ConsTail(ks);
        PageCloses(n, ls[0], ks[0], ls[1..], ks[1..]);
      }
    case List(_) =>
      var w := Closed(n, v);
      HeadCloses(n, v, false);
      BodyCloses(n, v, 0);
      PageCloses(n, Line(0, HeadText(v, false)), Line(0, HeadText(w, false)), BodySpec(v, 0), BodySpec(w, 0));
    case _ =>
      ScalarSolid(v);
      PlainStep(n, Document(v), "");
      NilRight(Document(v));
  }

  // ---- meaning ----

  lemma {:induction false} ClosedIsGood(n: nat, v: Json)
    requires IsJson(v) && Short(n, v)
    ensures Good(Closed(n, v))
    decreases v, 0
  {
    match v
    case List(items) => ItemsAreGood(n, items);
    case Obj(fields) =>
      FieldsAreGood(n, fields);
      ClosedDistinct(n, fields, ClosedFields(n, fields));
    case _ =>
  }

  lemma {:induction false} ItemsAreGood(n: nat, items: seq<Json>)
    requires AllShort(n, items) && forall x | x in items :: IsJson(x)
    ensures forall x | x in ClosedItems(n, items) :: Good(x)
    decreases items, 0
  {
    if items != [] {
      assert items[0] in items;
      ClosedIsGood(n, items[0]);
      ItemsAreGood(n, items[1..]);
    }
  }

  lemma {:induction false} FieldsAreGood(n: nat, fields: seq<Member>)
    requires ShortFields(n, fields) && forall m | m in fields :: IsJson(m.value)
    ensures forall m | m in ClosedFields(n, fields) :: GoodMember(m)
    decreases fields, 0
  {
    if fields != [] {
      assert fields[0] in fields;
      ClosedKeyShape(n, fields[0].key);
      ClosedIsGood(n, fields[0].value);
      FieldsAreGood(n, fields[1..]);
    }
  }

  lemma ClosedDistinct(n: nat, fields: seq<Member>, closed: seq<Member>)
    requires ShortFields(n, fields) && Distinct(fields) && closed == ClosedFields(n, fields)
    ensures Distinct(closed)
  {
    forall i, j | 0 <= i < j < |closed| ensures closed[i].key != closed[j].key {
      assert fields[i] in fields && fields[j] in fields;
      if closed[i].key == closed[j].key {
        ClosedKeysDiffer(n, fields[i].key, fields[j].key);
      }
    }
  }

  /** Closing keeps different meanings different. */
  lemma {:induction false} MeaningBack(n: nat, v: Json, w: Json)
    requires Short(n, v) && Short(n, w) && Meaning(Closed(n, v)) == Meaning(Closed(n, w))
    ensures Meaning(v) == Meaning(w)
    decreases v, 0
  {
    match v
    case List(items) => ItemsBack(n, items, w.items);
    case Obj(fields) =>
      var a, b := ClosedFields(n, fields), ClosedFields(n, w.fields);
      MeaningKeys(a);
      MeaningKeys(b);
      assert Keys(a) == Keys(b);
      SameKeysClosed(n, fields, w.fields);
      forall k | k in Keys(fields) ensures Meaning(Lookup(fields, k)) == Meaning(Lookup(w.fields, k)) {
        LookupClosed(n, fields, k);
        LookupClosed(n, w.fields, k);
        assert Member(k, Lookup(fields, k)) in fields && Member(k, Lookup(w.fields, k)) in w.fields;
        MeaningBack(n, Lookup(fields, k), Lookup(w.fields, k));
      }
      SameMeaning(fields, w.fields);
    case _ =>
  }

  lemma {:induction false} ItemsBack(n: nat, a: seq<Json>, b: seq<Json>)
    requires AllShort(n, a) && AllShort(n, b)
    requires MeaningItems(ClosedItems(n, a)) == MeaningItems(ClosedItems(n, b))
    ensures MeaningItems(a) == MeaningItems(b)
    decreases a, 0
  {
    var x, y := ClosedItems(n, a), ClosedItems(n, b);
    if a != [] && b != [] {
      ConsParts(Closed(n, a[0]), ClosedItems(n, a[1..]));
      ConsParts(Closed(n, b[0]), ClosedItems(n, b[1..]));
      ConsParts(Meaning(x[0]), MeaningItems(x[1..]));
      ConsParts(Meaning(y[0]), MeaningItems(y[1..]));
      assert a[0] in a && b[0] in b;
      MeaningBack(n, a[0], b[0]);
      ItemsBack(n, a[1..], b[1..]);
    }
  }

  /** Payloads of different meaning never share a document. */
  lemma EncodingIsInjective(v: Json, w: Json)
    requires IsJson(v) && IsJson(w) && Document(v) == Document(w)
    ensures Meaning(v) == Meaning(w)
  {
    var a := Bound(v);
    var b := Bound(w);
    var n := a + b;
    ShortGrows(v, a, n);
    ShortGrows(w, b, n);
    DocumentCloses(n, v);
    DocumentCloses(n, w);
    ClosedIsGood(n, v);
    ClosedIsGood(n, w);
    StrictlyDecodable(Closed(n, v));
    StrictlyDecodable(Closed(n, w));
    MeaningBack(n, v, w);
  }
}
