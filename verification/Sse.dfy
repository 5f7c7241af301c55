/** Server-Sent Events, written (`transport_http.py`) and read (`mcp_http.py`). */
module Sse {
  import opened Wrappers
  import opened Text
  import opened Utf8

  // ---- bytes: each stands as the character with its number ----

  function OfBytes(b: seq<byte>): string {
    if b == [] then "" else [b[0] as char] + OfBytes(b[1..])
  }

  function ToBytes(s: string): seq<byte> {
    if s == "" then [] else [s[0] as int % 256] + ToBytes(s[1..])
  }

  /** `s.encode("utf-8")`. */
  function Octets(s: string): string { OfBytes(Encode(s)) }

  /** `s.decode("utf-8", errors="replace")`. */
  function Decoded(s: string): string { Decode(ToBytes(s)) }

  lemma {:induction false} BytesBack(b: seq<byte>)
    ensures ToBytes(OfBytes(b)) == b
  {
    if b != [] {
      BytesBack(b[1..]);
    }
  }

  lemma {:induction false} BytesConcat(a: seq<byte>, b: seq<byte>)
    ensures OfBytes(a + b) == OfBytes(a) + OfBytes(b)
  {
    if a == [] {
      NilRight(b);
      NilRight(OfBytes(b));
    } else {
      assert (a + b)[1..] == a[1..] + b;
      BytesConcat(a[1..], b);
      Assoc([a[0] as char], OfBytes(a[1..]), OfBytes(b));
    }
  }

  lemma OctetsRead(s: string)
    ensures Decoded(Octets(s)) == s
  {
    BytesBack(Encode(s));
    DecodeEncode(s);
  }

  lemma OctetsConcat(a: string, b: string)
    ensures Octets(a + b) == Octets(a) + Octets(b)
  {
    EncodeConcat(a, b);
    BytesConcat(Encode(a), Encode(b));
  }

  /** A character below 128 is one byte; any other has no byte below 128. */
  lemma OctetsOne(c: char)
    ensures c as int < 0x80 ==> Octets([c]) == [c]
    ensures c as int >= 0x80 ==> forall o | o in Octets([c]) :: o as int >= 0x80
    ensures Octets([c]) != ""
  {
    var b := EncodeChar(c);
    assert [c][1..] == "" && Encode([c]) == b + [];
    NilRight(b);
    if c as int >= 0x80 {
      HighBytes(b);
    } else {
      assert b == [c as int] && b[1..] == [];
      assert OfBytes(b) == [b[0] as char] + OfBytes([]);
      NilRight([c]);
    }
  }

  lemma {:induction false} HighBytes(b: seq<byte>)
    requires forall i | 0 <= i < |b| :: b[i] >= 0x80
    ensures forall o | o in OfBytes(b) :: o as int >= 0x80
  {
    if b != [] {
      HighBytes(b[1..]);
    }
  }

  // ---- writing ----

  /** Each line with its newline. */
  function Terminated(lines: seq<string>): string {
    if lines == [] then "" else lines[0] + ("\n" + Terminated(lines[1..]))
  }

  function DataLines(lines: seq<string>): (r: seq<string>)
    ensures |r| == |lines|
  {
    if lines == [] then [] else ["data: " + lines[0]] + DataLines(lines[1..])
  }

  function FrameLines(data: string, id: Option<nat>): seq<string> {
    (if id.Some? then ["id: " + NatText(id.value)] else []) + DataLines(Split('\n', data)) + [""]
  }

  /** `sse_frame`. */
  function SseFrame(data: string, id: Option<nat>): string { Terminated(FrameLines(data, id)) }

  const KEEPALIVE := ": keepalive\n\n"

  /** What a stream may carry. */
  datatype Item = Frame(data: string, id: Option<nat>) | Keepalive

  function ItemText(i: Item): string {
    match i case Frame(data, id) => SseFrame(data, id) case Keepalive => KEEPALIVE
  }

  function Wire(items: seq<Item>): string {
    if items == [] then "" else ItemText(items[0]) + Wire(items[1..])
  }

  // ---- reading ----

  datatype Event = Event(id: Option<string>, data: string)

  /** The variables `events` carries from line to line. */
  datatype Parser = Parser(data: seq<string>, id: Option<string>, name: string)

  const START := Parser([], None, "")

  /** `rstrip(b"\r")`. */
  function WithoutReturns(s: string): (r: string)
    ensures r <= s && (r == "" || r[|r| - 1] != '\r')
  {
    if s == "" || s[|s| - 1] != '\r' then s else WithoutReturns(s[..|s| - 1])
  }

  /** One line as it is read: without its carriage returns, then decoded. */
  function LineOf(raw: string): string { Decoded(WithoutReturns(raw)) }

  function LinesOf(raws: seq<string>): seq<string> {
    if raws == [] then [] else [LineOf(raws[0])] + LinesOf(raws[1..])
  }

  /** What follows the colon, without the one space that may begin it. */
  function ValueAfter(after: string): string { if " " <= after then after[1..] else after }

  function SetField(p: Parser, key: string, value: string): Parser {
    if key == "data" then p.(data := p.data + [value])
    else if key == "event" then p.(name := value)
    else if key == "id" then p.(id := Some(value))
    else p
  }

  function ReadField(p: Parser, line: string): Parser {
    var k := Run(NotColon, line);
    SetField(p, line[..k], ValueAfter(if k < |line| then line[k + 1..] else ""))
  }

  function ReadLine(p: Parser, line: string): (Parser, seq<Event>) {
    if line == "" then
      (Parser([], p.id, ""),
       if p.data != [] && (p.name == "" || p.name == "message") then [Event(p.id, Join("\n", p.data))] else [])
    else if line[0] == ':' then (p, [])
    else (ReadField(p, line), [])
  }

  function ReadLines(p: Parser, lines: seq<string>): (Parser, seq<Event>)
    decreases |lines|
  {
    if lines == [] then (p, [])
    else
      var (q, now) := ReadLine(p, lines[0]);
      var (r, later) := ReadLines(q, lines[1..]);
      (r, now + later)
  }

  /** The complete lines of a body, and what is left after the last newline. */
  function Complete(s: string): seq<string> { var parts := Split('\n', s); parts[..|parts| - 1] }

  function Partial(s: string): string { var parts := Split('\n', s); parts[|parts| - 1] }

  /** The events of a whole body, read in one piece. */
  function EventsOf(body: string): seq<Event> { ReadLines(START, LinesOf(Complete(body))).1 }

  /** Chunk `k` does not make the unfinished line, with that chunk, longer than the limit. */
  predicate FitsAt(chunks: seq<string>, k: nat, limit: nat)
    requires k < |chunks|
  {
    |Partial(Concat(chunks[..k]))| + |chunks[k]| <= limit
  }

  predicate Fits(chunks: seq<string>, limit: nat) {
    forall k: nat | k < |chunks| :: FitsAt(chunks, k, limit)
  }

  lemma LineFirst(line: string, tail: string)
    requires '\n' !in line
    ensures Complete(line + ("\n" + tail)) == [line] + Complete(tail)
    ensures Partial(line + ("\n" + tail)) == Partial(tail)
  {
    SplitAppend('\n', line, "\n" + tail);
    ConsParts('\n', tail);
    var parts := Split('\n', tail);
    ConsParts("", parts);
    NilRight(line);
    var all := [line] + parts;
    assert Split('\n', line + ("\n" + tail)) == all;
    assert all[..|all| - 1] == [line] + parts[..|parts| - 1] && all[|all| - 1] == parts[|parts| - 1];
  }

  /** Whole lines in front of a text are its first complete lines. */
  lemma {:induction false} CompleteTerminated(lines: seq<string>, rest: string)
    requires forall l | l in lines :: '\n' !in l
    ensures Complete(Terminated(lines) + rest) == lines + Complete(rest)
    ensures Partial(Terminated(lines) + rest) == Partial(rest)
    decreases |lines|
  {
    if lines == [] {
      NilRight(rest);
      NilRight(Complete(rest));
    } else {
      var tail := Terminated(lines[1..]) + rest;
      CompleteTerminated(lines[1..], rest);
      Assoc(lines[0], "\n" + Terminated(lines[1..]), rest);
      Assoc("\n", Terminated(lines[1..]), rest);
      LineFirst(lines[0], tail);
      ConsTail(lines);
      Assoc([lines[0]], lines[1..], Complete(rest));
    }
  }

  lemma {:induction false} JoinIsTerminated(parts: seq<string>)
    requires parts != []
    ensures Join("\n", parts) == Terminated(parts[..|parts| - 1]) + parts[|parts| - 1]
    decreases |parts|
  {
    if |parts| == 1 {
      NilRight(parts[0]);
    } else {
      var rest := parts[1..];
      JoinIsTerminated(rest);
      assert parts[..|parts| - 1] == [parts[0]] + rest[..|rest| - 1];
      ConsParts(parts[0], rest[..|rest| - 1]);
      var t := Terminated(rest[..|rest| - 1]);
      Assoc(parts[0], "\n", t + rest[|rest| - 1]);
      Assoc("\n", t, rest[|rest| - 1]);
      Assoc(parts[0], "\n" + t, rest[|rest| - 1]);
    }
  }

  /** A body read up to a point, and read on from there, is read as one. */
  lemma SplitAcross(a: string, b: string)
    ensures Complete(a + b) == Complete(a) + Complete(Partial(a) + b)
    ensures Partial(a + b) == Partial(Partial(a) + b)
  {
    JoinSplit('\n', a);
    JoinIsTerminated(Split('\n', a));
    Assoc(Terminated(Complete(a)), Partial(a), b);
    CompleteTerminated(Complete(a), Partial(a) + b);
  }

  lemma {:induction false} LinesAcross(p: Parser, a: seq<string>, b: seq<string>)
    ensures var (q, now) := ReadLines(p, a);
      ReadLines(p, a + b) == (ReadLines(q, b).0, now + ReadLines(q, b).1)
    decreases |a|
  {
    if a == [] {
      NilRight(b);
      NilRight(ReadLines(p, b).1);
    } else {
      var (q, now) := ReadLine(p, a[0]);
      assert (a + b)[1..] == a[1..] + b;
      LinesAcross(q, a[1..], b);
      var (r, later) := ReadLines(q, a[1..]);
      Assoc(now, later, ReadLines(r, b).1);
    }
  }

  lemma {:induction false} LinesOfConcat(a: seq<string>, b: seq<string>)
    ensures LinesOf(a + b) == LinesOf(a) + LinesOf(b)
    decreases |a|
  {
    if a == [] {
      NilRight(b);
      NilRight(LinesOf(b));
    } else {
      assert (a + b)[1..] == a[1..] + b;
      LinesOfConcat(a[1..], b);
      Assoc([LineOf(a[0])], LinesOf(a[1..]), LinesOf(b));
    }
  }

  /** Where the reader of a body stands after it: the parser, and the events so far. */
  predicate Stands(body: string, p: Parser, out: seq<Event>) {
    (p, out) == ReadLines(START, LinesOf(Complete(body)))
  }

  lemma FeedOne(before: string, chunk: string, p: Parser, out: seq<Event>, q: Parser, now: seq<Event>)
    requires Stands(before, p, out)
    requires (q, now) == ReadLines(p, LinesOf(Complete(Partial(before) + chunk)))
    ensures Stands(before + chunk, q, out + now)
    ensures Partial(before + chunk) == Partial(Partial(before) + chunk)
  {
    SplitAcross(before, chunk);
    var fed := Complete(Partial(before) + chunk);
    LinesOfConcat(Complete(before), fed);
    LinesAcross(START, LinesOf(Complete(before)), LinesOf(fed));
  }

  /** The complete lines of the buffer are read, the rest stays. */
  method TakeLines(buffer: string, p: Parser) returns (q: Parser, now: seq<Event>, rest: string)
    ensures (q, now) == ReadLines(p, LinesOf(Complete(buffer))) && rest == Partial(buffer)
  {
    var parts := Split('\n', buffer);
    var read := ReadLines(p, LinesOf(parts[..|parts| - 1]));
    q, now, rest := read.0, read.1, parts[|parts| - 1];
  }

  /** The first `n` chunks have been read within the limit, up to this buffer, parser and events. */
  ghost predicate HasRead(chunks: seq<string>, n: nat, limit: nat, buffer: string, p: Parser, out: seq<Event>) {
    && n <= |chunks|
    && (forall k: nat | k < n :: FitsAt(chunks, k, limit))
    && buffer == Partial(Concat(chunks[..n])) && Stands(Concat(chunks[..n]), p, out)
  }

  /** The loop of `events`: it stops with an error as soon as a chunk overruns the limit. */
  method Events(chunks: seq<string>, limit: nat) returns (out: seq<Event>, overrun: bool)
    ensures overrun <==> !Fits(chunks, limit)
    ensures !overrun ==> out == EventsOf(Concat(chunks))
  {
    var buffer, p := "", START;
    out, overrun := [], false;
    NothingRead(chunks, limit);
    for i := 0 to |chunks|
      invariant !overrun && HasRead(chunks, i, limit, buffer, p, out)
    {
      Overruns(chunks, i, limit, buffer, p, out);
      buffer := buffer + chunks[i];
      if |buffer| > limit {
        return out, true;
      }
      var q, now, rest := TakeLines(buffer, p);
      ReadNext(chunks, i, limit, p, out, q, now);
      p, out, buffer := q, out + now, rest;
    }
    AllRead(chunks, limit, buffer, p, out);
  }

  lemma NothingRead(chunks: seq<string>, limit: nat)
    ensures HasRead(chunks, 0, limit, "", START, [])
  {
    NothingStands();
    assert chunks[..0] == [];
  }

  lemma Overruns(chunks: seq<string>, i: nat, limit: nat, buffer: string, p: Parser, out: seq<Event>)
    requires i < |chunks| && HasRead(chunks, i, limit, buffer, p, out)
    ensures |buffer + chunks[i]| > limit ==> !Fits(chunks, limit)
  {
    assert FitsAt(chunks, i, limit) <==> |buffer + chunks[i]| <= limit;
  }

  lemma ReadNext(chunks: seq<string>, i: nat, limit: nat, p: Parser, out: seq<Event>, q: Parser, now: seq<Event>)
    requires i < |chunks| && HasRead(chunks, i, limit, Partial(Concat(chunks[..i])), p, out)
    requires |Partial(Concat(chunks[..i])) + chunks[i]| <= limit
    requires (q, now) == ReadLines(p, LinesOf(Complete(Partial(Concat(chunks[..i])) + chunks[i])))
    ensures HasRead(chunks, i + 1, limit, Partial(Partial(Concat(chunks[..i])) + chunks[i]), q, out + now)
  {
    assert FitsAt(chunks, i, limit);
    OneChunkMore(chunks, i);
    FeedOne(Concat(chunks[..i]), chunks[i], p, out, q, now);
  }

  lemma AllRead(chunks: seq<string>, limit: nat, buffer: string, p: Parser, out: seq<Event>)
    requires HasRead(chunks, |chunks|, limit, buffer, p, out)
    ensures Fits(chunks, limit) && out == EventsOf(Concat(chunks))
  {
    assert chunks[..|chunks|] == chunks;
  }

  lemma NothingStands()
    ensures Stands("", START, []) && Partial("") == ""
  {
    assert Split('\n', "") == [""];
    assert Complete("") == [];
  }

  lemma OneChunkMore(chunks: seq<string>, i: nat)
    requires i < |chunks|
    ensures Concat(chunks[..i + 1]) == Concat(chunks[..i]) + chunks[i]
  {
    assert chunks[..i + 1][..i] == chunks[..i] && chunks[..i + 1][i] == chunks[i];
  }

  /** Lines that complete no event only move the parser on. */
  lemma QuietLines(p: Parser, a: seq<string>, q: Parser, b: seq<string>)
    requires ReadLines(p, a) == (q, [])
    ensures ReadLines(p, a + b) == ReadLines(q, b)
  {
    LinesAcross(p, a, b);
    NilRight(ReadLines(q, b).1);
  }

  lemma QuietLine(p: Parser, line: string, q: Parser, b: seq<string>)
    requires ReadLine(p, line) == (q, [])
    ensures ReadLines(p, [line] + b) == ReadLines(q, b)
  {
    ConsParts(line, b);
    NilRight(ReadLines(q, b).1);
  }

  /** How a body is cut into chunks does not show. */
  method CutsDoNotShow(a: seq<string>, b: seq<string>, limit: nat) returns (x: seq<Event>, y: seq<Event>)
    requires Concat(a) == Concat(b) && Fits(a, limit) && Fits(b, limit)
    ensures x == y == EventsOf(Concat(a))
  {
    var failed;
    x, failed := Events(a, limit);
    y, failed := Events(b, limit);
  }

  // ---- reading what was written ----

  function Undressed(lines: seq<string>): (r: seq<string>)
    ensures |r| == |lines|
  {
    if lines == [] then [] else [WithoutReturns(lines[0])] + Undressed(lines[1..])
  }

  /** What arrives of a message: each line without the carriage returns at its end. */
  function Delivered(data: string): string { Join("\n", Undressed(Split('\n', data))) }

  /** The events a stream of frames and keepalives means; an unnumbered frame keeps the last id. */
  function Meant(items: seq<Item>, id: Option<string>): seq<Event> {
    if items == [] then []
    else match items[0]
      case Keepalive => Meant(items[1..], id)
      case Frame(data, n) =>
        var now := if n.Some? then Some(NatText(n.value)) else id;
        [Event(now, Delivered(data))] + Meant(items[1..], now)
  }

  lemma {:induction false} DataLinesWhole(lines: seq<string>)
    requires forall l | l in lines :: '\n' !in l
    ensures forall l | l in DataLines(lines) :: '\n' !in l
  {
    if lines != [] {
      DataLinesWhole(lines[1..]);
    }
  }

  lemma FrameLinesWhole(data: string, id: Option<nat>)
    ensures forall l | l in FrameLines(data, id) :: '\n' !in l
  {
    JoinSplit('\n', data);
    DataLinesWhole(Split('\n', data));
    if id.Some? {
      assert '\n' !in "id: " + NatText(id.value);
    }
  }

  lemma {:induction false} ReturnsStripped(a: string, s: string)
    requires a != "" && a[|a| - 1] != '\r'
    ensures WithoutReturns(a + s) == a + WithoutReturns(s)
    decreases |s|
  {
    if s == "" {
      NilRight(a);
    } else if s[|s| - 1] == '\r' {
      assert (a + s)[..|a + s| - 1] == a + s[..|s| - 1];
      ReturnsStripped(a, s[..|s| - 1]);
    }
  }

  lemma LineParts(key: string, value: string)
    requires key != "" && ':' !in key
    ensures var line := key + (": " + value);
      line != "" && line[0] != ':' && Run(NotColon, line) == |key| < |line| &&
      line[..|key|] == key && line[|key| + 1..] == " " + value
  {
    assert forall c | c in key :: NotColon(c);
    RunStops(NotColon, key, ": " + value);
    assert key[0] in key;
  }

  lemma StripLine(key: string, value: string)
    ensures WithoutReturns(key + (": " + value)) == key + (": " + WithoutReturns(value))
  {
    Assoc(key, ": ", value);
    ReturnsStripped(key + ": ", value);
    Assoc(key, ": ", WithoutReturns(value));
  }

  /** A `name: value` line sets its field. */
  lemma FieldReads(p: Parser, key: string, value: string)
    requires key == "data" || key == "id"
    ensures ReadLine(p, WithoutReturns(key + (": " + value))) ==
      (if key == "data" then p.(data := p.data + [WithoutReturns(value)])
       else p.(id := Some(WithoutReturns(value))), [])
  {
    var v := WithoutReturns(value);
    StripLine(key, value);
    LineParts(key, v);
    ConsParts(' ', v);
    assert "id" != "data" by { assert |"id"| != |"data"|; }
  }

  lemma {:induction false} DataReads(p: Parser, lines: seq<string>)
    ensures ReadLines(p, Undressed(DataLines(lines))) == (p.(data := p.data + Undressed(lines)), [])
    decreases |lines|
  {
    if lines == [] {
      assert Undressed(lines) == [];
      NilRight(p.data);
    } else {
      assert "data: " + lines[0] == "data" + (": " + lines[0]);
      FieldReads(p, "data", lines[0]);
      var q := p.(data := p.data + [WithoutReturns(lines[0])]);
      DataReads(q, lines[1..]);
      ConsParts("data: " + lines[0], DataLines(lines[1..]));
      QuietLine(p, WithoutReturns("data: " + lines[0]), q, Undressed(DataLines(lines[1..])));
      Assoc(p.data, [WithoutReturns(lines[0])], Undressed(lines[1..]));
    }
  }

  lemma {:induction false} NoReturns(s: string)
    requires '\r' !in s
    ensures WithoutReturns(s) == s
  {
  }

  lemma BlankReads(p: Parser)
    ensures ReadLines(p, [""]) == (Parser([], p.id, ""),
      if p.data != [] && (p.name == "" || p.name == "message") then [Event(p.id, Join("\n", p.data))] else [])
  {
    assert [""][1..] == [];
    var (q, now) := ReadLine(p, "");
    assert ReadLines(q, []) == (q, []);
    NilRight(now);
  }

  /** Between events, a frame is read as the one event it carries. */
  lemma FrameReads(id: Option<string>, data: string, n: Option<nat>)
    ensures var now := if n.Some? then Some(NatText(n.value)) else id;
      ReadLines(Parser([], id, ""), Undressed(FrameLines(data, n)))
      == (Parser([], now, ""), [Event(now, Delivered(data))])
  {
    var now := if n.Some? then Some(NatText(n.value)) else id;
    var p, q := Parser([], id, ""), Parser([], now, "");
    var ids := if n.Some? then ["id: " + NatText(n.value)] else [];
    var lines := Split('\n', data);
    var full := q.(data := Undressed(lines));
    IdReads(p, n);
    DataReads(q, lines);
    NilRight(Undressed(lines));
    UndressedConcat(ids, DataLines(lines));
    UndressedConcat(ids + DataLines(lines), [""]);
    UndressedBlank();
    QuietLines(p, Undressed(ids), q, Undressed(DataLines(lines)));
    QuietLines(p, Undressed(ids) + Undressed(DataLines(lines)), full, [""]);
    BlankReads(full);
  }

  lemma UndressedBlank()
    ensures Undressed([""]) == [""]
  {
    assert [""][1..] == [];
  }

  lemma {:induction false} UndressedConcat(a: seq<string>, b: seq<string>)
    ensures Undressed(a + b) == Undressed(a) + Undressed(b)
    decreases |a|
  {
    if a == [] {
      NilRight(b);
      NilRight(Undressed(b));
    } else {
      assert (a + b)[1..] == a[1..] + b;
      UndressedConcat(a[1..], b);
      Assoc([WithoutReturns(a[0])], Undressed(a[1..]), Undressed(b));
    }
  }

  lemma IdReads(p: Parser, n: Option<nat>)
    ensures ReadLines(p, Undressed(if n.Some? then ["id: " + NatText(n.value)] else []))
         == (if n.Some? then p.(id := Some(NatText(n.value))) else p, [])
  {
    if n.Some? {
      var v := NatText(n.value);
      assert "id: " + v == "id" + (": " + v);
      FieldReads(p, "id", v);
      assert '\r' !in v;
      NoReturns(v);
      var line := WithoutReturns("id: " + v);
      QuietLine(p, line, p.(id := Some(v)), []);
      assert ["id: " + v][1..] == [] && [line] + [] == [line];
    }
  }

  lemma KeepaliveLines()
    ensures KEEPALIVE == Terminated([": keepalive", ""])
    ensures Undressed([": keepalive", ""]) == [": keepalive"] + [""]
  {
    assert [": keepalive", ""][1..] == [""];
    assert Terminated([""]) == "" + ("\n" + "") by { assert [""][1..] == []; }
    NoReturns(": keepalive");
    UndressedBlank();
  }

  lemma CommentReads(p: Parser, line: string)
    requires line != "" && line[0] == ':'
    ensures ReadLine(p, line) == (p, [])
  {
  }

  lemma KeepaliveReads(id: Option<string>)
    ensures ReadLines(Parser([], id, ""), Undressed([": keepalive", ""])) == (Parser([], id, ""), [])
  {
    var p := Parser([], id, "");
    KeepaliveLines();
    CommentReads(p, ": keepalive");
    QuietLine(p, ": keepalive", p, [""]);
    BlankReads(p);
  }

  lemma {:induction false} WireReads(items: seq<Item>, id: Option<string>)
    ensures ReadLines(Parser([], id, ""), Undressed(Complete(Wire(items)))).1 == Meant(items, id)
    decreases |items|
  {
    var p := Parser([], id, "");
    if items == [] {
      assert Split('\n', "") == [""] && Complete("") == [];
    } else {
      var rest := Complete(Wire(items[1..]));
      match items[0]
      case Keepalive =>
        KeepaliveReads(id);
        KeepaliveLines();
        CompleteTerminated([": keepalive", ""], Wire(items[1..]));
        UndressedConcat([": keepalive", ""], rest);
        QuietLines(p, Undressed([": keepalive", ""]), p, Undressed(rest));
        WireReads(items[1..], id);
      case Frame(data, n) =>
        var now := if n.Some? then Some(NatText(n.value)) else id;
        FrameReads(id, data, n);
        FrameLinesWhole(data, n);
        CompleteTerminated(FrameLines(data, n), Wire(items[1..]));
        UndressedConcat(FrameLines(data, n), rest);
        LinesAcross(p, Undressed(FrameLines(data, n)), Undressed(rest));
        WireReads(items[1..], now);
    }
  }

  // ---- through UTF-8 ----

  function EachOctets(parts: seq<string>): (r: seq<string>)
    ensures |r| == |parts|
  {
    if parts == [] then [] else [Octets(parts[0])] + EachOctets(parts[1..])
  }

  lemma {:induction false} EachAt(parts: seq<string>, k: nat)
    requires k <= |parts|
    ensures EachOctets(parts[..k]) == EachOctets(parts)[..k]
  {
    if k > 0 {
      EachAt(parts[1..], k - 1);
      assert parts[..k][1..] == parts[1..][..k - 1];
      assert EachOctets(parts)[..k] == [Octets(parts[0])] + EachOctets(parts[1..])[..k - 1];
    }
  }

  /** No character but the newline brings a newline byte: the lines of the bytes are the bytes of
      the lines. */
  lemma {:induction false} SplitOctets(s: string)
    ensures Split('\n', Octets(s)) == EachOctets(Split('\n', s))
  {
    if s != "" {
      SplitOctets(s[1..]);
      ConsTail(s);
      OctetsConcat([s[0]], s[1..]);
      OctetsOne(s[0]);
      var rest := Split('\n', s[1..]);
      if s[0] == '\n' {
        ConsParts('\n', Octets(s[1..]));
        ConsParts("", rest);
      } else {
        SplitAppend('\n', Octets([s[0]]), Octets(s[1..]));
        OctetsConcat([s[0]], rest[0]);
        ConsParts([s[0]] + rest[0], rest[1..]);
        ConsTail(EachOctets(rest));
      }
    }
  }

  lemma CompleteOctets(s: string)
    ensures Complete(Octets(s)) == EachOctets(Complete(s))
  {
    SplitOctets(s);
    var parts := Split('\n', s);
    EachAt(parts, |parts| - 1);
  }

  lemma LastOctet(init: string, c: char)
    ensures
      var t := Octets(init + [c]);
      && t != ""
      && (c == '\r' ==> t == Octets(init) + "\r")
      && (c != '\r' ==> t[|t| - 1] != '\r')
  {
    OctetsConcat(init, [c]);
    OctetsOne(c);
    var o := Octets([c]);
    assert o[|o| - 1] in o;
  }

  lemma StripsOne(s: string)
    ensures WithoutReturns(s + "\r") == WithoutReturns(s)
  {
    assert (s + "\r")[..|s|] == s;
  }

  /** Nor does any but the carriage return bring its byte. */
  lemma {:induction false} ReturnsOctets(s: string)
    ensures WithoutReturns(Octets(s)) == Octets(WithoutReturns(s))
  {
    if s != "" {
      var init, c := s[..|s| - 1], s[|s| - 1];
      assert s == init + [c];
      LastOctet(init, c);
      if c == '\r' {
        StripsOne(Octets(init));
        ReturnsOctets(init);
      }
    }
  }

  lemma {:induction false} LinesThrough(lines: seq<string>)
    ensures LinesOf(EachOctets(lines)) == Undressed(lines)
    decreases |lines|
  {
    if lines != [] {
      LinesThrough(lines[1..]);
      ReturnsOctets(lines[0]);
      OctetsRead(WithoutReturns(lines[0]));
      ConsParts(Octets(lines[0]), EachOctets(lines[1..]));
    }
  }

  /** However the bytes of a stream of frames and keepalives are cut, inside a character or not, the
      reader yields exactly the events it means. */
  method FramesArrive(items: seq<Item>, chunks: seq<string>, limit: nat) returns (out: seq<Event>)
    requires Concat(chunks) == Octets(Wire(items)) && Fits(chunks, limit)
    ensures out == Meant(items, None)
  {
    var overrun;
    out, overrun := Events(chunks, limit);
    CompleteOctets(Wire(items));
    LinesThrough(Complete(Wire(items)));
    WireReads(items, None);
  }

  // ---- which messages arrive unchanged ----

  ghost predicate EndsInReturn(s: string) { s != "" && s[|s| - 1] == '\r' }

  lemma {:induction false} UndressedSame(lines: seq<string>)
    ensures Undressed(lines) == lines <==> forall l | l in lines :: !EndsInReturn(l)
    ensures forall l | l in Undressed(lines) :: exists m :: m in lines && l <= m
  {
    if lines != [] {
      UndressedSame(lines[1..]);
      ConsTail(lines);
      assert WithoutReturns(lines[0]) == lines[0] <==> !EndsInReturn(lines[0]);
      assert Undressed(lines)[0] == WithoutReturns(lines[0]) && Undressed(lines)[1..] == Undressed(lines[1..]);
      forall l | l in Undressed(lines) ensures exists m :: m in lines && l <= m {
        if l in Undressed(lines[1..]) {
          var m :| m in lines[1..] && l <= m;
          assert m in lines;
        } else {
          assert lines[0] in lines && l <= lines[0];
        }
      }
    }
  }

  /** A message arrives as it was sent exactly when none of its lines ends in a carriage return. */
  lemma DeliveredExactly(data: string)
    ensures Delivered(data) == data <==> forall l | l in Split('\n', data) :: !EndsInReturn(l)
  {
    var lines := Split('\n', data);
    JoinSplit('\n', data);
    UndressedSame(lines);
    forall l | l in Undressed(lines) ensures '\n' !in l {
      var m :| m in lines && l <= m;
      assert forall i | 0 <= i < |l| :: l[i] == m[i];
    }
    SplitJoin('\n', Undressed(lines));
  }

  /** Numbered frames: the ids and messages come back as written, in order, under that condition. */
  lemma {:induction false} NumberedFramesArrive(items: seq<Item>, id: Option<string>)
    requires forall i | i in items :: i.Frame? ==> i.id.Some? && forall l | l in Split('\n', i.data) :: !EndsInReturn(l)
    ensures Meant(items, id) == Sent(items)
    decreases |items|
  {
    if items != [] {
      var i := items[0];
      assert i in items;
      if i.Frame? {
        DeliveredExactly(i.data);
        NumberedFramesArrive(items[1..], Some(NatText(i.id.value)));
      } else {
        NumberedFramesArrive(items[1..], id);
      }
    }
  }

  function Sent(items: seq<Item>): seq<Event> {
    if items == [] then []
    else match items[0]
      case Frame(data, Some(n)) => [Event(Some(NatText(n)), data)] + Sent(items[1..])
      case _ => Sent(items[1..])
  }
}
