/** Request heads (`transport_http.py`).  Bytes decoded as latin-1 are characters below 256. */
module HttpHeads {
  import opened Wrappers
  import opened Text
  import opened Naming

  const MAX_BODY_BYTES := 50 * 1024 * 1024

  /** `int` refuses longer numerals. */
  const MAX_STR_DIGITS := 4300

  datatype Head = Head(verb: string, target: string, headers: map<string, string>)

  /** `str.upper` and `str.lower` on latin-1 text. */
  function UpperChar(c: char): string {
    if 'a' <= c <= 'z' || ('\U{e0}' <= c <= '\U{fe}' && c != '\U{f7}') then [c - ' ']
    else if c == '\U{df}' then "SS"
    else if c == '\U{ff}' then "\U{178}"
    else if c == '\U{b5}' then "\U{39c}"
    else [c]
  }

  function Upper(s: string): string {
    if s == "" then "" else UpperChar(s[0]) + Upper(s[1..])
  }

  function LowerLatin(s: string): string {
    if s == "" then ""
    else
      [if 'A' <= s[0] <= 'Z' || ('\U{c0}' <= s[0] <= '\U{de}' && s[0] != '\U{d7}') then s[0] + ' ' else s[0]]
      + LowerLatin(s[1..])
  }

  /** `text.split("\r\n")`. */
  function SplitLines(s: string): (lines: seq<string>)
    ensures |lines| >= 1
  {
    if s == "" then [""]
    else if |s| >= 2 && s[0] == '\r' && s[1] == '\n' then [""] + SplitLines(s[2..])
    else
      var rest := SplitLines(s[1..]);
      [[s[0]] + rest[0]] + rest[1..]
  }

  /** One header line: skipped, refused, or added to what is there. */
  function AddHeader(headers: map<string, string>, line: string): Option<map<string, string>> {
    if line == "" then Some(headers)
    else
      var n := Run(NotColon, line);
      if n == |line| then None
      else
        var key := LowerLatin(Strip(line[..n]));
        var value := Strip(line[n + 1..]);
        Some(headers[key := if key in headers then headers[key] + ", " + value else value])
  }

  function Headers(lines: seq<string>): Option<map<string, string>> {
    if lines == [] then Some(map[])
    else
      match Headers(lines[..|lines| - 1])
      case None => None
      case Some(headers) => AddHeader(headers, lines[|lines| - 1])
  }

  const PROTOCOL: string := "HTTP/"

  function ReadHead(raw: string): Option<Head> {
    var lines := SplitLines(raw);
    var request := Split(' ', lines[0]);
    if |request| != 3 || !(PROTOCOL <= request[2]) then None
    else
      match Headers(lines[1..])
      case None => None
      case Some(headers) => Some(Head(Upper(request[0]), request[1], headers))
  }

  /** `parse_head`. */
  method ParseHead(raw: string) returns (head: Option<Head>)
    ensures head == ReadHead(raw)
  {
    var lines := SplitLines(raw);
    var request := Split(' ', lines[0]);
    if |request| != 3 || !(PROTOCOL <= request[2]) {
      return None;
    }
    var rest := lines[1..];
    var headers: map<string, string> := map[];
    for i := 0 to |rest|
      invariant Headers(rest[..i]) == Some(headers)
    {
      HeadersGrow(rest, i);
      var line := rest[i];
      if line == "" {
        continue;
      }
      var added := AddHeader(headers, line);
      if added.None? {
        HeadersFail(rest, i + 1);
        return None;
      }
      headers := added.value;
    }
    assert rest[..|rest|] == rest;
    head := Some(Head(Upper(request[0]), request[1], headers));
  }

  lemma HeadersGrow(lines: seq<string>, i: nat)
    requires i < |lines| && Headers(lines[..i]).Some?
    ensures Headers(lines[..i + 1]) == AddHeader(Headers(lines[..i]).value, lines[i])
  {
    assert lines[..i + 1][..i] == lines[..i];
  }

  lemma {:induction false} HeadersFail(lines: seq<string>, i: nat)
    requires i <= |lines| && Headers(lines[..i]).None?
    ensures Headers(lines).None?
    decreases |lines| - i
  {
    if i == |lines| {
      assert lines[..i] == lines;
    } else {
      assert lines[..i + 1][..i] == lines[..i];
      HeadersFail(lines, i + 1);
    }
  }

  // ---------------------------------------------------------------- what a head says

  predicate IsField(line: string) { Run(NotColon, line) < |line| }

  function NameOf(line: string): string
    requires IsField(line)
  {
    LowerLatin(Strip(line[..Run(NotColon, line)]))
  }

  function ValueOf(line: string): string
    requires IsField(line)
  {
    Strip(line[Run(NotColon, line) + 1..])
  }

  /** The value a line gives to one name, if it does. */
  function Given(line: string, name: string): seq<string> {
    if IsField(line) && NameOf(line) == name then [ValueOf(line)] else []
  }

  /** The values the lines give to one name, in order. */
  function Values(lines: seq<string>, name: string): seq<string> {
    if lines == [] then [] else Values(lines[..|lines| - 1], name) + Given(lines[|lines| - 1], name)
  }

  lemma ValuesSnoc(lines: seq<string>, line: string, name: string)
    ensures Values(lines + [line], name) == Values(lines, name) + Given(line, name)
  {
    assert (lines + [line])[..|lines|] == lines;
  }

  lemma {:induction false} JoinSnoc(sep: string, parts: seq<string>, last: string)
    requires parts != []
    ensures Join(sep, parts + [last]) == Join(sep, parts) + sep + last
  {
    if |parts| == 1 {
      assert (parts + [last])[1..] == [last];
    } else {
      assert (parts + [last])[1..] == parts[1..] + [last];
      JoinSnoc(sep, parts[1..], last);
      assert Join(sep, parts + [last]) == parts[0] + sep + (Join(sep, parts[1..]) + sep + last);
      assert parts[0] + sep + (Join(sep, parts[1..]) + sep + last)
             == (parts[0] + sep + Join(sep, parts[1..])) + sep + last;
    }
  }

  /** A name has the values given to it, joined in order, and no others are there. */
  ghost predicate Tells(headers: map<string, string>, lines: seq<string>) {
    forall name :: Told(headers, lines, name)
  }

  predicate Told(headers: map<string, string>, lines: seq<string>, name: string) {
    && (name in headers <==> Values(lines, name) != [])
    && (name in headers ==> headers[name] == Join(", ", Values(lines, name)))
  }

  predicate AllFields(lines: seq<string>) {
    forall line | line in lines :: line == "" || IsField(line)
  }

  /** One line more, for one name. */
  lemma OneMoreTold(headers: map<string, string>, more: map<string, string>, before: seq<string>, line: string,
                    name: string)
    requires Told(headers, before, name) && IsField(line)
    requires AddHeader(headers, line) == Some(more)
    ensures Told(more, before + [line], name)
  {
    ValuesSnoc(before, line, name);
    NilRight(Values(before, name));
    if name == NameOf(line) {
      if Values(before, name) == [] {
        assert Values(before + [line], name) == [ValueOf(line)];
      } else {
        JoinSnoc(", ", Values(before, name), ValueOf(line));
      }
    }
  }

  lemma AddHeaderTells(headers: map<string, string>, before: seq<string>, line: string)
    requires Tells(headers, before) && IsField(line)
    ensures AddHeader(headers, line).Some? && Tells(AddHeader(headers, line).value, before + [line])
  {
    var more := AddHeader(headers, line).value;
    forall name ensures Told(more, before + [line], name) {
      assert Told(headers, before, name);
      OneMoreTold(headers, more, before, line, name);
    }
  }

  /** Header lines are read exactly if each is blank or has a colon, and then each name has its
      values, joined in order. */
  lemma {:induction false} HeadersTell(lines: seq<string>)
    ensures Headers(lines).Some? <==> AllFields(lines)
    ensures Headers(lines).Some? ==> Tells(Headers(lines).value, lines)
  {
    if lines != [] {
      var before, line := lines[..|lines| - 1], lines[|lines| - 1];
      HeadersTell(before);
      assert lines == before + [line];
      if line == "" {
        forall name | Headers(lines).Some? ensures Told(Headers(lines).value, lines, name) {
          assert Told(Headers(before).value, before, name);
          ValuesSnoc(before, line, name);
          NilRight(Values(before, name));
        }
      } else if IsField(line) && Headers(before).Some? {
        AddHeaderTells(Headers(before).value, before, line);
      }
    }
  }

  /** A head is read exactly if its first line has three parts, the last one a version of HTTP, and
      every other line is blank or has a colon; a header has all the values given to its name, in
      order, whatever the case of the name. */
  lemma ReadExactly(raw: string)
    ensures
      var lines := SplitLines(raw);
      var request := Split(' ', lines[0]);
      && (ReadHead(raw).Some? <==> |request| == 3 && PROTOCOL <= request[2] && AllFields(lines[1..]))
      && (ReadHead(raw).Some? ==>
            var head := ReadHead(raw).value;
            head.verb == Upper(request[0]) && head.target == request[1] && Tells(head.headers, lines[1..]))
  {
    HeadersTell(SplitLines(raw)[1..]);
  }

  // ---------------------------------------------------------------- a head that was written

  datatype Field = Field(name: string, value: string)

  function FieldLine(f: Field): string { f.name + ":" + f.value }

  function FieldLines(fields: seq<Field>): (lines: seq<string>)
    ensures |lines| == |fields|
  {
    if fields == [] then [] else [FieldLine(fields[0])] + FieldLines(fields[1..])
  }

  function RequestLine(verb: string, target: string, version: string): string {
    Join(" ", [verb, target, version])
  }

  function PrintedHead(verb: string, target: string, version: string, fields: seq<Field>): string {
    Join("\r\n", [RequestLine(verb, target, version)] + FieldLines(fields))
  }

  /** What may stand in a line of the head. */
  predicate OneLine(s: string) { '\r' !in s }

  predicate GoodField(f: Field) { OneLine(f.name) && OneLine(f.value) && ':' !in f.name }

  lemma {:induction false} LineIsOne(a: string)
    requires OneLine(a)
    ensures SplitLines(a) == [a]
  {
    if a != "" {
      assert a[0] in a && forall c | c in a[1..] :: c in a;
      LineIsOne(a[1..]);
      ConsTail(a);
    }
  }

  lemma {:induction false} LineThenMore(a: string, s: string)
    requires OneLine(a)
    ensures SplitLines(a + ("\r\n" + s)) == [a] + SplitLines(s)
  {
    var t := "\r\n" + s;
    if a == "" {
      NilRight(t);
      assert t[0] == '\r' && t[1] == '\n' && t[2..] == s;
    } else {
      assert a[0] in a && forall c | c in a[1..] :: c in a;
      assert (a + t)[0] == a[0] && (a + t)[1..] == a[1..] + t;
      LineThenMore(a[1..], s);
      ConsTail(a);
    }
  }

  lemma {:induction false} LinesSplit(lines: seq<string>)
    requires lines != [] && forall l | l in lines :: OneLine(l)
    ensures SplitLines(Join("\r\n", lines)) == lines
    decreases |lines|
  {
    assert lines[0] in lines;
    if |lines| == 1 {
      LineIsOne(lines[0]);
    } else {
      assert forall l | l in lines[1..] :: l in lines;
      LinesSplit(lines[1..]);
      LineThenMore(lines[0], Join("\r\n", lines[1..]));
      Assoc(lines[0], "\r\n", Join("\r\n", lines[1..]));
      ConsTail(lines);
    }
  }

  /** Lines may hold a carriage return or a newline by itself. */
  predicate Unbroken(s: string) {
    (s == "" || s[|s| - 1] != '\r') && forall i | 0 <= i < |s| - 1 :: !(s[i] == '\r' && s[i + 1] == '\n')
  }

  lemma {:induction false} AnyLineThenMore(a: string, more: Option<string>)
    requires Unbroken(a)
    ensures SplitLines(a + (if more.Some? then "\r\n" + more.value else "")) ==
      [a] + (if more.Some? then SplitLines(more.value) else [])
  {
    var t := if more.Some? then "\r\n" + more.value else "";
    if a == "" {
      NilRight(t);
      assert more.Some? ==> t[0] == '\r' && t[1] == '\n' && t[2..] == more.value;
    } else {
      assert (a + t)[0] == a[0] && (a + t)[1..] == a[1..] + t;
      assert |a| > 1 ==> (a + t)[1] == a[1];
      assert Unbroken(a[1..]) by {
        assert forall i | 0 <= i < |a| - 1 :: a[1..][i] == a[i + 1];
      }
      AnyLineThenMore(a[1..], more);
      ConsTail(a);
    }
  }

  /** Only the two together end a line of a head. */
  lemma {:induction false} LinesSplitExactly(lines: seq<string>)
    requires lines != [] && forall l | l in lines :: Unbroken(l)
    ensures SplitLines(Join("\r\n", lines)) == lines
    decreases |lines|
  {
    assert lines[0] in lines;
    if |lines| == 1 {
      AnyLineThenMore(lines[0], None);
      NilRight(lines[0]);
    } else {
      assert forall l | l in lines[1..] :: l in lines;
      LinesSplitExactly(lines[1..]);
      AnyLineThenMore(lines[0], Some(Join("\r\n", lines[1..])));
      Assoc(lines[0], "\r\n", Join("\r\n", lines[1..]));
      ConsTail(lines);
    }
  }

  lemma FieldLineReads(f: Field)
    requires GoodField(f)
    ensures OneLine(FieldLine(f)) && IsField(FieldLine(f))
    ensures NameOf(FieldLine(f)) == LowerLatin(Strip(f.name)) && ValueOf(FieldLine(f)) == Strip(f.value)
  {
    var line := FieldLine(f);
    Assoc(f.name, ":", f.value);
    assert forall c | c in f.name :: NotColon(c);
    RunStops(NotColon, f.name, ":" + f.value);
    assert line[..|f.name|] == f.name && line[|f.name| + 1..] == f.value;
  }

  lemma {:induction false} FieldLinesRead(fields: seq<Field>)
    requires forall f | f in fields :: GoodField(f)
    ensures forall l | l in FieldLines(fields) :: OneLine(l) && IsField(l)
  {
    if fields != [] {
      assert fields[0] in fields && forall f | f in fields[1..] :: f in fields;
      FieldLineReads(fields[0]);
      FieldLinesRead(fields[1..]);
    }
  }

  lemma RequestLineReads(verb: string, target: string, version: string)
    requires ' ' !in verb && ' ' !in target && ' ' !in version
    requires OneLine(verb) && OneLine(target) && OneLine(version)
    ensures Split(' ', RequestLine(verb, target, version)) == [verb, target, version]
    ensures OneLine(RequestLine(verb, target, version))
  {
    var parts := [verb, target, version];
    assert [' '] == " ";
    SplitJoin(' ', parts);
    JoinIsOneLine(" ", parts);
  }

  lemma {:induction false} JoinIsOneLine(sep: string, parts: seq<string>)
    requires OneLine(sep) && forall p | p in parts :: OneLine(p)
    ensures OneLine(Join(sep, parts))
  {
    if |parts| > 1 {
      assert parts[0] in parts && forall p | p in parts[1..] :: p in parts;
      JoinIsOneLine(sep, parts[1..]);
    } else if |parts| == 1 {
      assert parts[0] in parts;
    }
  }

  /** The values of one name in a list of fields, in order. */
  function ValuesIn(fields: seq<Field>, name: string): seq<string> {
    if fields == [] then []
    else
      (if LowerLatin(Strip(fields[0].name)) == name then [Strip(fields[0].value)] else [])
      + ValuesIn(fields[1..], name)
  }

  lemma {:induction false} ValuesCons(line: string, lines: seq<string>, name: string)
    ensures Values([line] + lines, name) == Given(line, name) + Values(lines, name)
    decreases |lines|
  {
    if lines == [] {
      ValuesSnoc([], line, name);
      assert [line] + lines == [] + [line];
      NilRight(Given(line, name));
    } else {
      var before, last := lines[..|lines| - 1], lines[|lines| - 1];
      assert lines == before + [last];
      Assoc([line], before, [last]);
      ValuesSnoc([line] + before, last, name);
      ValuesCons(line, before, name);
      Assoc(Given(line, name), Values(before, name), Given(last, name));
    }
  }

  lemma {:induction false} ValuesOfFields(fields: seq<Field>, name: string)
    requires forall f | f in fields :: GoodField(f)
    ensures Values(FieldLines(fields), name) == ValuesIn(fields, name)
  {
    if fields != [] {
      assert fields[0] in fields && forall f | f in fields[1..] :: f in fields;
      FieldLineReads(fields[0]);
      ValuesOfFields(fields[1..], name);
      ValuesCons(FieldLine(fields[0]), FieldLines(fields[1..]), name);
    }
  }

  /** A head that was written is read back: the verb in capitals, the target, and for every name
      all its values, joined in order. */
  lemma WrittenHeadReads(verb: string, target: string, version: string, fields: seq<Field>)
    requires ' ' !in verb && ' ' !in target && ' ' !in version
    requires OneLine(verb) && OneLine(target) && OneLine(version) && PROTOCOL <= version
    requires forall f | f in fields :: GoodField(f)
    ensures ReadHead(PrintedHead(verb, target, version, fields)).Some?
    ensures
      var head := ReadHead(PrintedHead(verb, target, version, fields)).value;
      && head.verb == Upper(verb)
      && head.target == target
      && (forall name :: name in head.headers <==> ValuesIn(fields, name) != [])
      && (forall name | name in head.headers :: head.headers[name] == Join(", ", ValuesIn(fields, name)))
  {
    var request, rest := RequestLine(verb, target, version), FieldLines(fields);
    var lines, raw := [request] + rest, PrintedHead(verb, target, version, fields);
    RequestLineReads(verb, target, version);
    FieldLinesRead(fields);
    LinesSplit(lines);
    ConsParts(request, rest);
    ReadExactly(raw);
    var headers := ReadHead(raw).value.headers;
    forall name
      ensures name in headers <==> ValuesIn(fields, name) != []
      ensures name in headers ==> headers[name] == Join(", ", ValuesIn(fields, name))
    {
      ValuesOfFields(fields, name);
      assert Told(headers, rest, name);
    }
  }

  /** The digits of a numeral, if single underscores are all that parts them. */
  function Digits(s: string): Option<string> {
    if s == "" || !IsDigit(s[0]) then None
    else if |s| == 1 then Some(s)
    else
      match Digits(if s[1] == '_' then s[2..] else s[1..])
      case None => None
      case Some(rest) => Some([s[0]] + rest)
  }

  lemma {:induction false} DigitsAreDigits(s: string)
    ensures Digits(s).Some? ==> forall c | c in Digits(s).value :: IsDigit(c)
  {
    if s != "" && |s| > 1 && IsDigit(s[0]) {
      DigitsAreDigits(if s[1] == '_' then s[2..] else s[1..]);
    }
  }

  /** `int(s)`; `None` when it raises. */
  function IntOf(s: string): Option<int> {
    var t := Strip(s);
    var signed := t != "" && (t[0] == '+' || t[0] == '-');
    match Digits(if signed then t[1..] else t)
    case None => None
    case Some(digits) =>
      if |digits| > MAX_STR_DIGITS then None
      else
        DigitsAreDigits(if signed then t[1..] else t);
        var n: int := NatValue(digits);
        Some(if signed && t[0] == '-' then -n else n)
  }

  function ContentLength(head: Head): int {
    if "content-length" !in head.headers then 0
    else
      match IntOf(head.headers["content-length"])
      case None => -1
      case Some(n) => n
  }

  function Contains(needle: string, s: string): bool {
    needle <= s || (s != "" && Contains(needle, s[1..]))
  }

  predicate InPath(c: char) { c != '?' && c != '#' }

  predicate InHost(c: char) { c != '/' && c != '?' && c != '#' }

  /** `urlsplit(target).path or "/"`. */
  function PathOf(target: string): string {
    var u := WithoutBreaks(target[Run(AtMostSpace, target)..]);
    var colon := Run(NotColon, u);
    var afterScheme := if SchemeOf(target) == "" || colon == |u| then u else u[colon + 1..];
    var afterHost :=
      if "//" <= afterScheme then afterScheme[2..][Run(InHost, afterScheme[2..])..] else afterScheme;
    var path := afterHost[..Run(InPath, afterHost)];
    if path == "" then "/" else path
  }

  /** `_is_plain_http_mcp`. */
  predicate PlainHttpMcp(head: Option<Head>) {
    && head.Some?
    && !("upgrade" in head.value.headers && Contains("websocket", LowerLatin(head.value.headers["upgrade"])))
    && PathOf(head.value.target) == "/mcp"
  }
}
