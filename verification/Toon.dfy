/** The TOON encoder of `toon.py`: its quoting rules and its four layouts.

    These functions say which lines a document has; the loops that print them are methods of
    `ToonEncoder`, proved against the functions. */
module Toon {
  import opened Wrappers
  import opened Text

  /** A JSON value as Python holds it: objects keep the order their keys were inserted in. */
  datatype Json =
    | Null
    | Bool(b: bool)
    | Int(n: int)
    | Str(s: string)
    | List(items: seq<Json>)
    | Obj(fields: seq<Member>)
  datatype Member = Member(key: string, value: Json)

  predicate IsPrimitive(v: Json) { !v.List? && !v.Obj? }

  /** What a Python `dict` guarantees: no key twice, at any depth. */
  ghost predicate IsJson(v: Json) {
    match v
    case List(items) => forall x | x in items :: IsJson(x)
    case Obj(fields) => Distinct(fields) && forall m | m in fields :: IsJson(m.value)
    case _ => true
  }

  ghost predicate Distinct(fields: seq<Member>) {
    forall i, j | 0 <= i < j < |fields| :: fields[i].key != fields[j].key
  }

  function Keys(fields: seq<Member>): set<string> { set m | m in fields :: m.key }

  /** `item[key]`. */
  function Lookup(fields: seq<Member>, key: string): (v: Json)
    requires key in Keys(fields)
    ensures Member(key, v) in fields
  {
    if fields[0].key == key then fields[0].value
    else
      assert forall m | m in fields :: m == fields[0] || m in fields[1..];
      Lookup(fields[1..], key)
  }

  // ---- scalars ----

  /** `\d` for a `str` pattern: Unicode category Nd, as blocks of ten. */
  const ND_BLOCKS: seq<int> := [
    0x660, 0x6f0, 0x7c0, 0x966, 0x9e6, 0xa66, 0xae6, 0xb66, 0xbe6, 0xc66, 0xce6, 0xd66, 0xde6, 0xe50,
    0xed0, 0xf20, 0x1040, 0x1090, 0x17e0, 0x1810, 0x1946, 0x19d0, 0x1a80, 0x1a90, 0x1b50, 0x1bb0,
    0x1c40, 0x1c50, 0xa620, 0xa8d0, 0xa900, 0xa9d0, 0xa9f0, 0xaa50, 0xabf0, 0xff10, 0x104a0, 0x10d30,
    0x11066, 0x110f0, 0x11136, 0x111d0, 0x112f0, 0x11450, 0x114d0, 0x11650, 0x116c0, 0x11730, 0x118e0,
    0x11950, 0x11c50, 0x11d50, 0x11da0, 0x16a60, 0x16ac0, 0x16b50, 0x1d7ce, 0x1d7d8, 0x1d7e2, 0x1d7ec,
    0x1d7f6, 0x1e140, 0x1e2f0, 0x1e950, 0x1fbf0]

  const FIRST_BLOCK := 0x660

  predicate IsDecimal(c: char) { IsDigit(c) || IsWideDecimal(c) }

  predicate IsWideDecimal(c: char) {
    c as int >= FIRST_BLOCK && exists i | 0 <= i < |ND_BLOCKS| :: ND_BLOCKS[i] <= c as int < ND_BLOCKS[i] + 10
  }

  function AfterSign(t: string): string { if t != "" && (t[0] == '+' || t[0] == '-') then t[1..] else t }

  /** Where a pattern ending in `$` may stop: the end, or just before a final newline. */
  predicate AtDollar(t: string) { t == "" || t == "\n" }

  predicate ExponentTail(t: string) {
    AtDollar(t) ||
    ((t[0] == 'e' || t[0] == 'E') && var u := AfterSign(t[1..]); var k := Run(IsDecimal, u); k > 0 && AtDollar(u[k..]))
  }

  /** `LOOKS_NUMERIC.match(t)`; every choice in the pattern is settled by the next character. */
  predicate LooksNumeric(t: string) {
    var u := AfterSign(t);
    var k := Run(IsDecimal, u);
    var w := u[k..];
    if w != "" && w[0] == '.' then
      var x := w[1..];
      var m := Run(IsDecimal, x);
      (k > 0 || m > 0) && ExponentTail(x[m..])
    else
      k > 0 && ExponentTail(w)
  }

  predicate ForcesQuotes(c: char) {
    c == ':' || c == '"' || c == '\\' || c == '[' || c == ']' || c == '{' || c == '}' || c == ','
  }

  predicate IsControl(c: char) { c as int < 0x20 }

  predicate Reserved(t: string) { t == "true" || t == "false" || t == "null" }

  /** No character that forces quotes wherever it stands. */
  predicate Quiet(t: string) { forall c | c in t :: !ForcesQuotes(c) && !IsControl(c) }

  predicate NeedsQuotes(t: string) {
    || t == ""
    || t != Strip(t)
    || Reserved(t)
    || LooksNumeric(t)
    || t[0] == '-' || t[0] == '#'
    || !Quiet(t)
  }

  function Escape(c: char): string {
    if c == '\\' then "\\\\"
    else if c == '"' then "\\\""
    else if c == '\n' then "\\n"
    else if c == '\r' then "\\r"
    else if c == '\t' then "\\t"
    else if IsControl(c) then "\\u00" + [HexDigit(c as int / 16), HexDigit(c as int % 16)]
    else [c]
  }

  function Escaped(t: string): string {
    if t == "" then "" else Escape(t[0]) + Escaped(t[1..])
  }

  function Quoted(t: string): string { "\"" + Escaped(t) + "\"" }

  function StringText(t: string): string { if NeedsQuotes(t) then Quoted(t) else t }

  function IntText(n: int): string { if n < 0 then "-" + NatText(-n) else NatText(n) }

  function ScalarText(v: Json): string
    requires IsPrimitive(v)
  {
    match v
    case Null => "null"
    case Bool(b) => if b then "true" else "false"
    case Int(n) => IntText(n)
    case Str(s) => StringText(s)
  }

  function ScalarTexts(vs: seq<Json>): (r: seq<string>)
    requires forall v | v in vs :: IsPrimitive(v)
    ensures |r| == |vs|
  {
    if vs == [] then [] else [ScalarText(vs[0])] + ScalarTexts(vs[1..])
  }

  // ---- keys ----

  predicate KeyStart(c: char) { IsLetter(c) || c == '_' }

  predicate KeyChar(c: char) { KeyStart(c) || IsDigit(c) || c == '.' }

  /** What `BARE_KEY` was meant to accept. */
  predicate Bare(t: string) { t != "" && KeyStart(t[0]) && forall c | c in t :: KeyChar(c) }

  /** What it also accepts, because `$` matches before a final newline. */
  predicate NewlineKey(t: string) { t != "" && t[|t| - 1] == '\n' && Bare(t[..|t| - 1]) }

  function KeyText(key: string): string {
    if Bare(key) || NewlineKey(key) then key else Quoted(key)
  }

  // ---- tables ----

  /** One header column: a cell, or a nested group of columns. */
  datatype Column = Leaf(key: string) | Group(key: string, sub: seq<Column>)

  predicate AllPrimitive(items: seq<Json>) { forall x | x in items :: IsPrimitive(x) }

  /** Every item a non-empty object, and all of them with the first one's keys. */
  predicate SameShape(items: seq<Json>)
    requires items != []
  {
    && (forall x | x in items :: x.Obj? && x.fields != [])
    && (forall x | x in items :: Keys(x.fields) == Keys(items[0].fields))
  }

  /** `[item[key] for item in items]`. */
  function ColumnOf(items: seq<Json>, key: string): (c: seq<Json>)
    requires forall x | x in items :: x.Obj? && key in Keys(x.fields)
    ensures |c| == |items| && forall i | 0 <= i < |c| :: c[i] == Lookup(items[i].fields, key)
  {
    seq(|items|, i requires 0 <= i < |items| => Lookup(items[i].fields, key))
  }

  /** The header of a table over `items`, or `None` when they make none. */
  function Columns(items: seq<Json>): Option<seq<Column>>
    requires items != []
    decreases items[0], 1, 0
  {
    if SameShape(items) then ColumnsFor(items, items[0].fields) else None
  }

  /** The column for one key: a leaf, or a group if its values make a table in turn. */
  function ColumnFor(items: seq<Json>, key: string): Option<Column>
    requires items != [] && SameShape(items) && key in Keys(items[0].fields)
    decreases items[0], 0, 0
  {
    var column := ColumnOf(items, key);
    assert column[0] < items[0] by { assert Member(key, column[0]) in items[0].fields; }
    if AllPrimitive(column) then Some(Leaf(key))
    else match Columns(column)
      case None => None
      case Some(sub) => Some(Group(key, sub))
  }

  /** The columns for the keys of `fields`, which is what is left to do of the first item. */
  function ColumnsFor(items: seq<Json>, fields: seq<Member>): Option<seq<Column>>
    requires items != [] && SameShape(items)
    requires Keys(fields) <= Keys(items[0].fields)
    decreases items[0], 0, |fields|
  {
    if fields == [] then Some([])
    else
      assert fields[0].key in Keys(fields) && Keys(fields[1..]) <= Keys(fields);
      match ColumnFor(items, fields[0].key)
      case None => None
      case Some(c) =>
        match ColumnsFor(items, fields[1..])
        case None => None
        case Some(rest) => Some([c] + rest)
  }

  function ColumnText(c: Column): string {
    match c
    case Leaf(key) => KeyText(key)
    case Group(key, sub) => KeyText(key) + "{" + Join(",", ColumnTexts(sub)) + "}"
  }

  function ColumnTexts(cs: seq<Column>): (r: seq<string>)
    ensures |r| == |cs|
  {
    if cs == [] then [] else [ColumnText(cs[0])] + ColumnTexts(cs[1..])
  }

  /** The item has a cell for every leaf of the header. */
  ghost predicate FitsRow(item: Json, cs: seq<Column>) {
    item.Obj? && forall c | c in cs :: FitsColumn(item, c)
  }

  ghost predicate FitsColumn(item: Json, c: Column)
    requires item.Obj?
  {
    c.key in Keys(item.fields) &&
    match c
    case Leaf(key) => IsPrimitive(Lookup(item.fields, key))
    case Group(key, sub) => sub != [] && FitsRow(Lookup(item.fields, key), sub)
  }

  ghost predicate AllFit(items: seq<Json>, cs: seq<Column>) {
    items == [] || (FitsRow(items[0], cs) && AllFit(items[1..], cs))
  }

  lemma {:induction false} EachFits(items: seq<Json>, cs: seq<Column>)
    requires forall x | x in items :: FitsRow(x, cs)
    ensures AllFit(items, cs)
  {
    if items != [] {
      EachFits(items[1..], cs);
    }
  }

  /** One row: cells in header order, nested groups flattened depth first. */
  function RowText(item: Json, cs: seq<Column>): string
    requires FitsRow(item, cs)
    decreases cs, 1
  {
    Join(",", RowCells(item, cs))
  }

  function RowCells(item: Json, cs: seq<Column>): seq<string>
    requires FitsRow(item, cs)
    decreases cs, 0
  {
    if cs == [] then []
    else
      assert FitsColumn(item, cs[0]);
      var v := Lookup(item.fields, cs[0].key);
      var cell := match cs[0]
        case Leaf(_) => ScalarText(v)
        case Group(_, sub) => RowText(v, sub);
      [cell] + RowCells(item, cs[1..])
  }

  /** `Columns` only names columns every item fills. */
  lemma {:induction false} ColumnsFit(items: seq<Json>)
    requires items != [] && Columns(items).Some?
    ensures Columns(items).value != []
    ensures forall x | x in items :: FitsRow(x, Columns(items).value)
    ensures AllFit(items, Columns(items).value)
    decreases items[0], 1, 0
  {
    ColumnsForFit(items, items[0].fields);
    EachFits(items, Columns(items).value);
  }

  /** A column of primitives is a leaf every item fills. */
  lemma LeafFits(items: seq<Json>, x: Json, key: string)
    requires forall y | y in items :: y.Obj? && key in Keys(y.fields)
    requires x in items && AllPrimitive(ColumnOf(items, key))
    ensures FitsColumn(x, Leaf(key))
  {
  }

  /** A column of objects that share a header is a group every item fills. */
  lemma GroupFits(items: seq<Json>, x: Json, key: string, sub: seq<Column>)
    requires forall y | y in items :: y.Obj? && key in Keys(y.fields)
    requires sub != [] && x in items
    requires forall y | y in ColumnOf(items, key) :: FitsRow(y, sub)
    ensures FitsColumn(x, Group(key, sub)) && Lookup(x.fields, key) in ColumnOf(items, key)
  {
  }

  lemma FitCons(items: seq<Json>, c: Column, cs: seq<Column>)
    requires forall x | x in items :: x.Obj? && FitsColumn(x, c) && FitsRow(x, cs)
    ensures forall x | x in items :: FitsRow(x, [c] + cs)
  {
  }

  /** The columns of some fields are that of the first and those of the rest. */
  lemma ColumnsForCons(items: seq<Json>, fields: seq<Member>) returns (c: Column, rest: seq<Column>)
    requires items != [] && SameShape(items) && fields != []
    requires Keys(fields) <= Keys(items[0].fields)
    requires ColumnsFor(items, fields).Some?
    ensures fields[0].key in Keys(items[0].fields) && Keys(fields[1..]) <= Keys(items[0].fields)
    ensures ColumnFor(items, fields[0].key) == Some(c) && ColumnsFor(items, fields[1..]) == Some(rest)
    ensures ColumnsFor(items, fields) == Some([c] + rest)
  {
    assert fields[0].key in Keys(fields) && Keys(fields[1..]) <= Keys(fields);
    c, rest := ColumnFor(items, fields[0].key).value, ColumnsFor(items, fields[1..]).value;
  }

  lemma {:induction false} ColumnForFits(items: seq<Json>, key: string, c: Column)
    requires items != [] && SameShape(items) && key in Keys(items[0].fields) && ColumnFor(items, key) == Some(c)
    ensures c.key == key && forall x | x in items :: FitsColumn(x, c)
    decreases items[0], 0, 0
  {
    var column := ColumnOf(items, key);
    assert column[0] < items[0] by { assert Member(key, column[0]) in items[0].fields; }
    if !AllPrimitive(column) {
      ColumnsFit(column);
    }
    forall x | x in items ensures FitsColumn(x, c) {
      if AllPrimitive(column) {
        LeafFits(items, x, key);
      } else {
        GroupFits(items, x, key, c.sub);
      }
    }
  }

  lemma {:induction false} ColumnsForFit(items: seq<Json>, fields: seq<Member>)
    requires items != [] && SameShape(items)
    requires Keys(fields) <= Keys(items[0].fields)
    requires ColumnsFor(items, fields).Some?
    ensures |ColumnsFor(items, fields).value| == |fields|
    ensures forall i | 0 <= i < |fields| :: ColumnsFor(items, fields).value[i].key == fields[i].key
    ensures forall x | x in items :: FitsRow(x, ColumnsFor(items, fields).value)
    decreases items[0], 0, |fields|
  {
    if fields != [] {
      var c, rest := ColumnsForCons(items, fields);
      ColumnsForFit(items, fields[1..]);
      ColumnForFits(items, fields[0].key, c);
      FitCons(items, c, rest);
    }
  }

  // ---- layouts ----

  /** One output line: how many levels it is indented, and what follows the indentation. */
  datatype Line = Line(depth: nat, text: string)

  function Pad(depth: nat): string { if depth == 0 then "" else "  " + Pad(depth - 1) }

  lemma {:induction false} PadIsBlank(depth: nat)
    ensures |Pad(depth)| == 2 * depth && forall c | c in Pad(depth) :: c == ' '
  {
    if depth > 0 {
      PadIsBlank(depth - 1);
    }
  }

  function Render(l: Line): string { Pad(l.depth) + l.text }

  function RenderAll(ls: seq<Line>): (r: seq<string>)
    ensures |r| == |ls|
  {
    if ls == [] then [] else [Render(ls[0])] + RenderAll(ls[1..])
  }

  lemma {:induction false} RenderConcat(a: seq<Line>, b: seq<Line>)
    ensures RenderAll(a + b) == RenderAll(a) + RenderAll(b)
  {
    if a == [] {
      assert a + b == b;
    } else {
      assert (a + b)[1..] == a[1..] + b;
      RenderConcat(a[1..], b);
    }
  }

  /** What follows the count of a non-empty array: an inline row, a header, or nothing. */
  function ShapeText(items: seq<Json>): string
    requires items != []
  {
    if AllPrimitive(items) then ": " + Join(",", ScalarTexts(items))
    else if Columns(items).Some? then "{" + (Join(",", ColumnTexts(Columns(items).value)) + ("}" + ":"))
    else ":"
  }

  /** What stands on the value's first line, after its key or after `- `. */
  function HeadText(v: Json, keyed: bool): string {
    match v
    case Obj(_) => ":"
    case List(items) =>
      if items == [] then (if keyed then ": []" else "[]")
      else "[" + (NatText(|items|) + ("]" + ShapeText(items)))
    case _ => ": " + ScalarText(v)
  }

  function RowLines(items: seq<Json>, cs: seq<Column>, depth: nat): seq<Line>
    requires AllFit(items, cs)
  {
    if items == [] then [] else [Line(depth, RowText(items[0], cs))] + RowLines(items[1..], cs, depth)
  }

  /** The lines under a value whose first line is at `depth`. */
  function BodySpec(v: Json, depth: nat): seq<Line>
    decreases v, 0
  {
    match v
    case Obj(fields) => ObjectSpec(fields, depth + 1)
    case List(items) =>
      if items == [] || AllPrimitive(items) then []
      else if Columns(items).Some? then
        ColumnsFit(items);
        RowLines(items, Columns(items).value, depth + 1)
      else ItemsSpec(items, depth + 1)
    case _ => []
  }

  function FieldSpec(m: Member, depth: nat): seq<Line>
    decreases m, 0
  {
    [Line(depth, KeyText(m.key) + HeadText(m.value, true))] + BodySpec(m.value, depth)
  }

  function ObjectSpec(fields: seq<Member>, depth: nat): seq<Line>
    decreases fields, 0
  {
    if fields == [] then [] else FieldSpec(fields[0], depth) + ObjectSpec(fields[1..], depth)
  }

  /** The hyphen line of a list entry; an object's first field stands on it. */
  function ItemText(item: Json): string {
    match item
    case List(_) => "- " + HeadText(item, false)
    case Obj(fields) =>
      if fields == [] then "-" else "- " + (KeyText(fields[0].key) + HeadText(fields[0].value, true))
    case _ => "- " + ScalarText(item)
  }

  /** The lines under it. */
  function ItemTail(item: Json, depth: nat): seq<Line>
    decreases item, 1
  {
    match item
    case List(_) => BodySpec(item, depth + 1)
    case Obj(fields) =>
      if fields == [] then []
      else BodySpec(fields[0].value, depth + 1) + ObjectSpec(fields[1..], depth + 1)
    case _ => []
  }

  function ItemSpec(item: Json, depth: nat): seq<Line>
    decreases item, 2
  {
    [Line(depth, ItemText(item))] + ItemTail(item, depth)
  }

  function ItemsSpec(items: seq<Json>, depth: nat): seq<Line>
    decreases items, 0
  {
    if items == [] then [] else ItemSpec(items[0], depth) + ItemsSpec(items[1..], depth)
  }

  function ArraySpec(v: Json, depth: nat): seq<Line>
    requires v.List?
  {
    [Line(depth, HeadText(v, false))] + BodySpec(v, depth)
  }

  /** The document `encode` returns. */
  function Document(v: Json): string {
    match v
    case Obj(fields) => Join("\n", RenderAll(ObjectSpec(fields, 0)))
    case List(_) => Join("\n", RenderAll(ArraySpec(v, 0)))
    case _ => ScalarText(v)
  }
}
