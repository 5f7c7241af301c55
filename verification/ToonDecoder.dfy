/** A strict decoder for the documents `toon.py` promises are strictly decodable.

    The repository has none.  This one reads the layouts the encoder writes and refuses what they
    rule out: a wrong count or indentation, a key given twice, a token that is not whole. */
module ToonDecoder {
  import opened Wrappers
  import opened Text
  import opened Toon

  // ---- tokens ----

  function HexValue(c: char): Option<nat> {
    if IsDigit(c) then Some(c as int - '0' as int)
    else if 'a' <= c <= 'f' then Some(c as int - 'a' as int + 10)
    else None
  }

  /** The character an escape stands for, given what follows the backslash, and how much that takes. */
  function ReadEscape(t: string): (r: Option<(char, nat)>)
    ensures r.Some? ==> 0 < r.value.1 <= |t|
  {
    if t == "" then None
    else if t[0] == '\\' || t[0] == '"' then Some((t[0], 1))
    else if t[0] == 'n' then Some(('\n', 1))
    else if t[0] == 'r' then Some(('\r', 1))
    else if t[0] == 't' then Some(('\t', 1))
    else if |t| < 5 || t[0] != 'u' || t[1] != '0' || t[2] != '0' then None
    else match (HexValue(t[3]), HexValue(t[4]))
      case (Some(a), Some(b)) => Some(((16 * a + b) as char, 5))
      case _ => None
  }

  /** One character of a quoted string, and how much of `t` spells it. */
  function ReadChar(t: string): (r: Option<(char, nat)>)
    requires t != ""
    ensures r.Some? ==> 0 < r.value.1 <= |t|
  {
    if t[0] != '\\' then (if IsControl(t[0]) then None else Some((t[0], 1)))
    else match ReadEscape(t[1..])
      case None => None
      case Some((c, n)) => Some((c, n + 1))
  }

  /** The rest of a quoted string, after its opening quote, and what follows the closing one. */
  function ReadQuoted(t: string): (r: Option<(string, string)>)
    ensures r.Some? ==> |r.value.1| < |t|
    decreases |t|
  {
    if t == "" then None
    else if t[0] == '"' then Some(("", t[1..]))
    else
      match ReadChar(t)
      case None => None
      case Some((c, n)) =>
        match ReadQuoted(t[n..])
        case None => None
        case Some((s, rest)) => Some(([c] + s, rest))
  }

  /** An unquoted token. A numeral that is not an integer is not in the modelled fragment. */
  function Interpret(t: string): Option<Json> {
    if t == "" || !Quiet(t) then None
    else if t == "null" then Some(Null)
    else if t == "true" then Some(Bool(true))
    else if t == "false" then Some(Bool(false))
    else if LooksNumeric(t) then ReadInt(t)
    else Some(Str(t))
  }

  predicate AllDigits(t: string) { forall c | c in t :: IsDigit(c) }

  function ReadInt(t: string): Option<Json> {
    var negative := t != "" && t[0] == '-';
    var digits := if negative then t[1..] else t;
    if digits == "" || !AllDigits(digits) then None
    else Some(Int(if negative then 0 - NatValue(digits) else NatValue(digits)))
  }

  predicate NotComma(c: char) { c != ',' }

  /** A cell, and what follows it. */
  function ReadToken(t: string): (r: Option<(Json, string)>)
    ensures r.Some? ==> |r.value.1| <= |t|
  {
    if t != "" && t[0] == '"' then
      match ReadQuoted(t[1..])
      case None => None
      case Some((s, rest)) => Some((Str(s), rest))
    else
      var k := Run(NotComma, t);
      match Interpret(t[..k])
      case None => None
      case Some(v) => Some((v, t[k..]))
  }

  /** A whole text that is one scalar. */
  function ReadScalar(t: string): Option<Json> {
    match ReadToken(t)
    case Some((v, rest)) => if rest == "" then Some(v) else None
    case None => None
  }

  function ReadCells(t: string): Option<seq<Json>>
    decreases |t|
  {
    match ReadToken(t)
    case None => None
    case Some((v, rest)) =>
      if rest == "" then Some([v])
      else if rest[0] != ',' then None
      else match ReadCells(rest[1..])
        case None => None
        case Some(vs) => Some([v] + vs)
  }

  function ReadKey(t: string): (r: Option<(string, string)>)
    ensures r.Some? ==> |r.value.1| < |t|
  {
    if t == "" then None
    else if t[0] == '"' then ReadQuoted(t[1..])
    else
      var k := Run(KeyChar, t);
      if Bare(t[..k]) then Some((t[..k], t[k..])) else None
  }

  predicate DistinctColumns(cs: seq<Column>) {
    forall i, j | 0 <= i < j < |cs| :: cs[i].key != cs[j].key
  }

  /** One column, with its group if it has one, and what follows. */
  function ReadColumn(t: string): (r: Option<(Column, string)>)
    ensures r.Some? ==> |r.value.1| < |t|
    decreases |t|, 0
  {
    match ReadKey(t)
    case None => None
    case Some((key, u)) =>
      if u == "" || u[0] != '{' then Some((Leaf(key), u))
      else match ReadColumns(u[1..])
        case None => None
        case Some((sub, rest)) => Some((Group(key, sub), rest))
  }

  /** The columns of a header, after its opening brace, and what follows the closing one. */
  function ReadColumns(t: string): (r: Option<(seq<Column>, string)>)
    ensures r.Some? ==> |r.value.1| < |t|
    decreases |t|, 1
  {
    match ReadColumn(t)
    case None => None
    case Some((c, u)) =>
      if u == "" then None
      else if u[0] == '}' then Some(([c], u[1..]))
      else if u[0] != ',' then None
      else match ReadColumns(u[1..])
        case None => None
        case Some((cs, rest)) => if DistinctColumns([c] + cs) then Some(([c] + cs, rest)) else None
  }

  // ---- first lines ----

  /** What a value's first line says about it. */
  datatype Head =
    | Nested
    | Scalar(v: Json)
    | EmptyList
    | Inline(cells: seq<Json>)
    | Table(n: nat, cs: seq<Column>)
    | Items(n: nat)

  function ReadArray(t: string): Option<Head> {
    var k := Run(IsDigit, t);
    if k == 0 || k == |t| || t[k] != ']' then None
    else
      var n := NatValue(t[..k]);
      var u := t[k + 1..];
      if u == ":" then Some(Items(n))
      else if ": " <= u then
        match ReadCells(u[2..])
        case None => None
        case Some(vs) => if |vs| == n then Some(Inline(vs)) else None
      else if "{" <= u then
        match ReadColumns(u[1..])
        case None => None
        case Some((cs, rest)) => if rest == ":" then Some(Table(n, cs)) else None
      else None
  }

  function ReadHead(t: string, keyed: bool): Option<Head> {
    if keyed && t == ":" then Some(Nested)
    else if t == (if keyed then ": []" else "[]") then Some(EmptyList)
    else if keyed && ": " <= t then
      match ReadScalar(t[2..])
      case None => None
      case Some(v) => Some(Scalar(v))
    else if "[" <= t then ReadArray(t[1..])
    else None
  }

  /** A line that may be a field or a bare scalar. */
  datatype Entry = Plain(v: Json) | Keyed(key: string, rest: string)

  function ReadEntry(t: string): Option<Entry> {
    if t != "" && t[0] == '"' then
      match ReadQuoted(t[1..])
      case None => None
      case Some((s, rest)) => Some(if rest == "" then Plain(Str(s)) else Keyed(s, rest))
    else
      var k := Run(KeyChar, t);
      if k < |t| && (t[k] == ':' || t[k] == '[') then
        if Bare(t[..k]) then Some(Keyed(t[..k], t[k..])) else None
      else match Interpret(t)
        case None => None
        case Some(v) => Some(Plain(v))
  }

  // ---- structure ----

  /** Spread a row's cells over the header. Nothing may be missing; what is left over is returned. */
  function Fill(cs: seq<Column>, cells: seq<Json>): Option<(seq<Member>, seq<Json>)>
    decreases cs
  {
    if cs == [] then Some(([], cells))
    else
      var first: Option<(Member, seq<Json>)> :=
        match cs[0]
        case Leaf(key) => if cells == [] then None else Some((Member(key, cells[0]), cells[1..]))
        case Group(key, sub) =>
          match Fill(sub, cells)
          case None => None
          case Some((ms, rest)) => Some((Member(key, Obj(ms)), rest));
      match first
      case None => None
      case Some((m, rest)) =>
        match Fill(cs[1..], rest)
        case None => None
        case Some((ms, rest')) => Some(([m] + ms, rest'))
  }

  function ReadRow(cs: seq<Column>, t: string): Option<Json> {
    match ReadCells(t)
    case None => None
    case Some(cells) =>
      match Fill(cs, cells)
      case None => None
      case Some((ms, rest)) => if rest == [] then Some(Obj(ms)) else None
  }

  type Lines = seq<Line>

  function ReadRows(n: nat, cs: seq<Column>, ls: Lines, depth: nat): (r: Option<(seq<Json>, Lines)>)
    ensures r.Some? ==> |r.value.0| == n && |r.value.1| <= |ls|
  {
    if n == 0 then Some(([], ls))
    else if ls == [] || ls[0].depth != depth then None
    else match ReadRow(cs, ls[0].text)
      case None => None
      case Some(v) =>
        match ReadRows(n - 1, cs, ls[1..], depth)
        case None => None
        case Some((vs, rest)) => Some(([v] + vs, rest))
  }

  /** The value whose first line, at `depth`, read as `h`; `ls` is what follows that line. */
  function ReadBody(h: Head, ls: Lines, depth: nat): (r: Option<(Json, Lines)>)
    ensures r.Some? ==> |r.value.1| <= |ls|
    ensures r.Some? && (h.Table? || h.Items?) ==> r.value.0.List? && |r.value.0.items| == h.n
    decreases |ls|, 1, 0
  {
    match h
    case Nested =>
      (match ReadFields(ls, depth + 1)
      case None => None
      case Some((fields, rest)) => Some((Obj(fields), rest)))
    case Scalar(v) => Some((v, ls))
    case EmptyList => Some((List([]), ls))
    case Inline(cells) => Some((List(cells), ls))
    case Table(n, cs) =>
      (match ReadRows(n, cs, ls, depth + 1)
      case None => None
      case Some((items, rest)) => Some((List(items), rest)))
    case Items(n) =>
      match ReadItems(n, ls, depth + 1)
      case None => None
      case Some((items, rest)) => Some((List(items), rest))
  }

  function ReadValue(text: string, keyed: bool, ls: Lines, depth: nat): (r: Option<(Json, Lines)>)
    ensures r.Some? ==> |r.value.1| <= |ls|
    decreases |ls|, 2, 0
  {
    match ReadHead(text, keyed)
    case None => None
    case Some(h) => ReadBody(h, ls, depth)
  }

  /** The fields at `depth`, up to the first line indented less. */
  function ReadFields(ls: Lines, depth: nat): (r: Option<(seq<Member>, Lines)>)
    ensures r.Some? ==> |r.value.1| <= |ls|
    decreases |ls|, 0, 0
  {
    if ls == [] || ls[0].depth < depth then Some(([], ls))
    else if ls[0].depth > depth then None
    else match ReadEntry(ls[0].text)
      case Some(Keyed(key, text)) =>
        (match ReadValue(text, true, ls[1..], depth)
        case None => None
        case Some((v, rest)) =>
          match ReadFields(rest, depth)
          case None => None
          case Some((fields, rest')) =>
            if key in Keys(fields) then None else Some(([Member(key, v)] + fields, rest')))
      case _ => None
  }

  /** One list entry: the line at `depth` with its hyphen, and what belongs to it in `ls`. */
  function ReadItem(text: string, ls: Lines, depth: nat): (r: Option<(Json, Lines)>)
    ensures r.Some? ==> |r.value.1| <= |ls|
    decreases |ls|, 3, 0
  {
    if text == "-" then Some((Obj([]), ls))
    else if !("- " <= text) then None
    else
      var t := text[2..];
      if t != "" && t[0] == '[' then ReadValue(t, false, ls, depth + 1)
      else match ReadEntry(t)
        case None => None
        case Some(Plain(v)) => Some((v, ls))
        case Some(Keyed(key, u)) =>
          match ReadValue(u, true, ls, depth + 1)
          case None => None
          case Some((v, rest)) =>
            match ReadFields(rest, depth + 1)
            case None => None
            case Some((fields, rest')) =>
              if key in Keys(fields) then None else Some((Obj([Member(key, v)] + fields), rest'))
  }

  function ReadItems(n: nat, ls: Lines, depth: nat): (r: Option<(seq<Json>, Lines)>)
    ensures r.Some? ==> |r.value.0| == n && |r.value.1| <= |ls|
    decreases |ls|, 0, n
  {
    if n == 0 then Some(([], ls))
    else if ls == [] || ls[0].depth != depth then None
    else match ReadItem(ls[0].text, ls[1..], depth)
      case None => None
      case Some((v, rest)) =>
        match ReadItems(n - 1, rest, depth)
        case None => None
        case Some((vs, rest')) => Some(([v] + vs, rest'))
  }

  // ---- documents ----

  predicate IsBlank(c: char) { c == ' ' }

  /** Split off the indentation, which is two spaces per level; a blank line is refused. */
  function ReadLine(raw: string): Option<Line> {
    var k := Run(IsBlank, raw);
    if k == |raw| || k % 2 != 0 then None else Some(Line(k / 2, raw[k..]))
  }

  function ReadLines(raws: seq<string>): (r: Option<Lines>)
    ensures r.Some? ==> |r.value| == |raws| && forall i | 0 <= i < |raws| :: ReadLine(raws[i]) == Some(r.value[i])
  {
    if raws == [] then Some([])
    else match (ReadLine(raws[0]), ReadLines(raws[1..]))
      case (Some(l), Some(ls)) => Some([l] + ls)
      case _ => None
  }

  function Whole<T>(r: Option<(T, Lines)>): Option<T> {
    match r
    case Some((v, rest)) => if rest == [] then Some(v) else None
    case None => None
  }

  function DecodeLines(ls: Lines): Option<Json>
    requires ls != []
  {
    if ls[0].depth != 0 then None
    else if "[" <= ls[0].text then Whole(ReadValue(ls[0].text, false, ls[1..], 0))
    else match ReadEntry(ls[0].text)
      case None => None
      case Some(Plain(v)) => if |ls| == 1 then Some(v) else None
      case Some(Keyed(_, _)) =>
        match Whole(ReadFields(ls, 0))
        case None => None
        case Some(fields) => Some(Obj(fields))
  }

  /** The value a document spells, or `None` when a strict reader must refuse it. */
  function Decode(text: string): Option<Json> {
    if text == "" then Some(Obj([]))
    else match ReadLines(Split('\n', text))
      case None => None
      case Some(ls) => DecodeLines(ls)
  }
}
