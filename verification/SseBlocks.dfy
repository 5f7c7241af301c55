/** Event streams as other servers write them (`mcp_http.py`). */
module SseBlocks {
  import opened Wrappers
  import opened Text
  import opened Sse

  /** A line of a block: a comment, a field with or without the space after its colon, or a name alone. */
  datatype Line = Comment(text: string) | Field(name: string, space: bool, value: string) | Bare(name: string)

  function LineText(l: Line): string {
    match l
    case Comment(text) => [':'] + text
    case Field(name, space, value) => name + ([':'] + (if space then [' '] + value else value))
    case Bare(name) => name
  }

  predicate GoodName(name: string) { name != "" && ':' !in name }

  predicate WholeLine(s: string) { s != "" && '\n' !in s && s[|s| - 1] != '\r' }

  /** A line says what it is meant to: a value written without the space does not begin with one. */
  predicate Good(l: Line) {
    && WholeLine(LineText(l))
    && match l
       case Comment(_) => true
       case Field(name, space, value) => GoodName(name) && (!space ==> value == "" || value[0] != ' ')
       case Bare(name) => GoodName(name)
  }

  /** The value a line gives to one name, if it does. */
  function Share(l: Line, name: string): seq<string> {
    match l
    case Comment(_) => []
    case Field(n, _, value) => if n == name then [value] else []
    case Bare(n) => if n == name then [""] else []
  }

  /** The values a block gives to one name, in order. */
  function Given(block: seq<Line>, name: string): seq<string> {
    if block == [] then []
    else Share(block[0], name) + Given(block[1..], name)
  }

  function Last(values: seq<string>, other: string): string {
    if values == [] then other else values[|values| - 1]
  }

  function LastId(block: seq<Line>, id: Option<string>): Option<string> {
    if Given(block, ID) == [] then id else Some(Last(Given(block, ID), ""))
  }

  /** The one event of a block, if it has data and is addressed to us. */
  function EventIn(block: seq<Line>, id: Option<string>): seq<Event> {
    var name := Last(Given(block, EVENT), "");
    if Given(block, DATA) != [] && (name == "" || name == "message")
    then [Event(LastId(block, id), Join("\n", Given(block, DATA)))]
    else []
  }

  /** The events a stream of blocks means. */
  function Means(blocks: seq<seq<Line>>, id: Option<string>): seq<Event> {
    if blocks == [] then [] else EventIn(blocks[0], id) + Means(blocks[1..], LastId(blocks[0], id))
  }

  const DATA: string := "data"
  const EVENT: string := "event"
  const ID: string := "id"

  // ---- one line ----

  lemma NamesDiffer()
    ensures DATA != EVENT && DATA != ID && EVENT != ID
  {
    assert |DATA| == 4 && |EVENT| == 5 && |ID| == 2;
  }

  lemma NameParts(name: string, after: string)
    requires GoodName(name)
    ensures var line := name + ([':'] + after);
      line != "" && line[0] != ':' && Run(NotColon, line) == |name| < |line|
      && line[..|name|] == name && line[|name| + 1..] == after
  {
    var line := name + ([':'] + after);
    assert forall c | c in name :: NotColon(c);
    assert name[0] in name;
    RunStops(NotColon, name, [':'] + after);
    assert line[|name|..] == [':'] + after && line[|name| + 1..] == line[|name|..][1..];
  }

  lemma BareParts(name: string)
    requires GoodName(name)
    ensures name[0] != ':' && Run(NotColon, name) == |name| && name[..|name|] == name
  {
    assert forall c | c in name :: NotColon(c);
    assert name[0] in name;
    RunStops(NotColon, name, "");
    NilRight(name);
  }

  /** What a field of this name and value does. */
  function Set(p: Parser, name: string, value: string): Parser {
    p.(data := if name == DATA then p.data + [value] else p.data,
       id := if name == ID then Some(value) else p.id,
       name := if name == EVENT then value else p.name)
  }

  lemma NamedSets(p: Parser, name: string, value: string)
    ensures SetField(p, name, value) == Set(p, name, value)
  {
    NamesDiffer();
  }

  lemma SpaceSkipped(space: bool, value: string)
    requires !space ==> value == "" || value[0] != ' '
    ensures ValueAfter(if space then [' '] + value else value) == value
  {
    if space {
      ConsParts(' ', value);
    }
  }

  lemma FieldSets(p: Parser, name: string, space: bool, value: string)
    requires GoodName(name) && (!space ==> value == "" || value[0] != ' ')
    ensures ReadLine(p, LineText(Field(name, space, value))) == (Set(p, name, value), [])
  {
    var after := if space then [' '] + value else value;
    NameParts(name, after);
    SpaceSkipped(space, value);
    NamedSets(p, name, value);
  }

  lemma BareSets(p: Parser, name: string)
    requires GoodName(name)
    ensures ReadLine(p, name) == (Set(p, name, ""), [])
  {
    BareParts(name);
    SpaceSkipped(false, "");
    NamedSets(p, name, "");
  }

  // ---- one block ----

  function Texts(block: seq<Line>): (r: seq<string>)
    ensures |r| == |block|
  {
    if block == [] then [] else [LineText(block[0])] + Texts(block[1..])
  }

  predicate AllGood(block: seq<Line>) { forall l | l in block :: Good(l) }

  /** The variables of the loop after a block that began at `p`. */
  function Gathered(p: Parser, block: seq<Line>): Parser {
    Parser(p.data + Given(block, DATA), LastId(block, p.id), Last(Given(block, EVENT), p.name))
  }

  lemma LastOf(first: seq<string>, rest: seq<string>, other: string)
    ensures Last(first + rest, other) == Last(rest, Last(first, other))
    ensures first + rest == [] <==> first == [] && rest == []
  {
  }

  /** The variables after one line. */
  function Shared(p: Parser, l: Line): Parser {
    Parser(p.data + Share(l, DATA), if Share(l, ID) == [] then p.id else Some(Last(Share(l, ID), "")),
           Last(Share(l, EVENT), p.name))
  }

  lemma GatherMore(p: Parser, block: seq<Line>)
    requires block != []
    ensures Gathered(Shared(p, block[0]), block[1..]) == Gathered(p, block)
  {
    var l, rest := block[0], block[1..];
    Assoc(p.data, Share(l, DATA), Given(rest, DATA));
    LastOf(Share(l, EVENT), Given(rest, EVENT), p.name);
    LastOf(Share(l, ID), Given(rest, ID), "");
  }

  lemma SetShares(p: Parser, l: Line, name: string, value: string)
    requires !l.Comment? && name == l.name && value == (if l.Field? then l.value else "")
    ensures Set(p, name, value) == Shared(p, l)
  {
    NamesDiffer();
    NilRight(p.data);
  }

  lemma LineGathers(p: Parser, l: Line)
    requires Good(l)
    ensures ReadLine(p, LineText(l)) == (Shared(p, l), [])
  {
    match l
    case Comment(text) =>
      CommentReads(p, [':'] + text);
      NilRight(p.data);
    case Field(name, space, value) =>
      FieldSets(p, name, space, value);
      SetShares(p, l, name, value);
    case Bare(name) =>
      BareSets(p, name);
      SetShares(p, l, name, "");
  }

  lemma {:induction false} BlockGathers(p: Parser, block: seq<Line>)
    requires AllGood(block)
    ensures ReadLines(p, Texts(block)) == (Gathered(p, block), [])
    decreases |block|
  {
    if block == [] {
      NilRight(p.data);
    } else {
      assert block[0] in block && forall l | l in block[1..] :: l in block;
      var q := Shared(p, block[0]);
      LineGathers(p, block[0]);
      GatherMore(p, block);
      BlockGathers(q, block[1..]);
      QuietLine(p, LineText(block[0]), q, Texts(block[1..]));
    }
  }

  /** Any block of field lines, with the blank line after it, is read as the event it means: one if it has
      data and its last event name is empty or `message`, and none otherwise; the id stays. */
  lemma BlockReads(block: seq<Line>, id: Option<string>)
    requires AllGood(block)
    ensures ReadLines(Parser([], id, ""), Texts(block) + [""])
            == (Parser([], LastId(block, id), ""), EventIn(block, id))
  {
    var p := Parser([], id, "");
    BlockGathers(p, block);
    QuietLines(p, Texts(block), Gathered(p, block), [""]);
    BlankReads(Gathered(p, block));
    NilRight(Given(block, DATA));
  }

  // ---- a stream of blocks, through bytes and cuts ----

  function StreamTexts(blocks: seq<seq<Line>>): seq<string> {
    if blocks == [] then [] else (Texts(blocks[0]) + [""]) + StreamTexts(blocks[1..])
  }

  /** The lines as they are sent: a newline ends each, and a carriage return may stand before it. */
  function Raw(lines: seq<string>, carriage: bool): (r: seq<string>)
    ensures |r| == |lines|
  {
    if lines == [] then [] else [if carriage then lines[0] + ['\r'] else lines[0]] + Raw(lines[1..], carriage)
  }

  function Stream(blocks: seq<seq<Line>>, carriage: bool): string { Terminated(Raw(StreamTexts(blocks), carriage)) }

  ghost predicate StreamGood(blocks: seq<seq<Line>>) { forall b | b in blocks :: AllGood(b) }

  predicate Kept(s: string) { '\n' !in s && (s == "" || s[|s| - 1] != '\r') }

  lemma {:induction false} TextsKept(block: seq<Line>)
    requires AllGood(block)
    ensures forall t | t in Texts(block) :: Kept(t)
  {
    if block != [] {
      assert block[0] in block && forall l | l in block[1..] :: l in block;
      assert Kept(LineText(block[0]));
      TextsKept(block[1..]);
    }
  }

  lemma {:induction false} StreamKept(blocks: seq<seq<Line>>)
    requires StreamGood(blocks)
    ensures forall t | t in StreamTexts(blocks) :: Kept(t)
  {
    if blocks != [] {
      assert blocks[0] in blocks && forall b | b in blocks[1..] :: b in blocks;
      TextsKept(blocks[0]);
      StreamKept(blocks[1..]);
    }
  }

  lemma {:induction false} RawReads(lines: seq<string>, carriage: bool)
    requires forall t | t in lines :: Kept(t)
    ensures Undressed(Raw(lines, carriage)) == lines
    ensures forall l | l in Raw(lines, carriage) :: '\n' !in l
  {
    if lines != [] {
      assert lines[0] in lines && forall t | t in lines[1..] :: t in lines;
      StripsOne(lines[0]);
      RawReads(lines[1..], carriage);
      var first := if carriage then lines[0] + ['\r'] else lines[0];
      ConsParts(first, Raw(lines[1..], carriage));
      ConsTail(lines);
    }
  }

  lemma {:induction false} StreamReads(blocks: seq<seq<Line>>, id: Option<string>)
    requires StreamGood(blocks)
    ensures ReadLines(Parser([], id, ""), StreamTexts(blocks)).1 == Means(blocks, id)
    decreases |blocks|
  {
    if blocks != [] {
      assert blocks[0] in blocks && forall b | b in blocks[1..] :: b in blocks;
      BlockReads(blocks[0], id);
      StreamReads(blocks[1..], LastId(blocks[0], id));
      LinesAcross(Parser([], id, ""), Texts(blocks[0]) + [""], StreamTexts(blocks[1..]));
    }
  }

  /** However the bytes of a stream of blocks are cut, and whichever of the two line ends it has, the
      reader yields exactly the events it means. */
  method BlocksArrive(blocks: seq<seq<Line>>, carriage: bool, chunks: seq<string>, limit: nat)
    returns (out: seq<Event>)
    requires StreamGood(blocks)
    requires Concat(chunks) == Octets(Stream(blocks, carriage)) && Fits(chunks, limit)
    ensures out == Means(blocks, None)
  {
    var overrun;
    out, overrun := Events(chunks, limit);
    var raws := Raw(StreamTexts(blocks), carriage);
    StreamKept(blocks);
    RawReads(StreamTexts(blocks), carriage);
    CompleteOctets(Stream(blocks, carriage));
    NilRight(Terminated(raws));
    CompleteTerminated(raws, "");
    NothingStands();
    NilRight(raws);
    LinesThrough(raws);
    StreamReads(blocks, None);
  }
}
