/** The credential file (`secrets.py`): `KEY=VALUE` lines, parsed strictly, so that a line is read as it
    was meant or the file is refused. */
module Dotenv {
  import opened Wrappers
  import opened Text
  import opened Interpolation

  /** Where `str.splitlines` ends a line. */
  predicate Breaks(c: char) {
    '\n' <= c <= '\r' || '\U{1c}' <= c <= '\U{1e}' || c == '\U{85}' || c == '\U{2028}' || c == '\U{2029}'
  }

  /** A break no escape of the file format can write. */
  predicate HardBreak(c: char) {
    Breaks(c) && c != '\n' && c != '\r'
  }

  predicate Unbroken(c: char) {
    !Breaks(c)
  }

  function BreakLength(s: string): (n: nat)
    requires s != ""
    ensures 1 <= n <= |s|
  {
    if |s| >= 2 && s[0] == '\r' && s[1] == '\n' then 2 else 1
  }

  function Lines(s: string): seq<string>
    decreases |s|
  {
    var n := Run(Unbroken, s);
    if s == "" then []
    else if n == |s| then [s]
    else [s[..n]] + Lines(s[n..][BreakLength(s[n..])..])
  }

  datatype Entry = Entry(key: string, value: string)

  datatype Reason = NoEquals | BadKey | Duplicate | BadEscape

  /** What one line says, before duplicates are looked for. */
  datatype Reading = Skipped | Bad(reason: Reason) | Holds(key: string, value: Option<string>)

  predicate KeyOk(key: string) {
    key != "" && NameStart(key[0]) && forall c | c in key :: NameChar(c)
  }

  function Escapes(c: char): Option<char> {
    if c == 'n' then Some('\n')
    else if c == 't' then Some('\t')
    else if c == 'r' then Some('\r')
    else if c == '\\' then Some('\\')
    else if c == '"' then Some('"')
    else None
  }

  /** A double-quoted body; a last backslash stands for itself. */
  function Unescape(body: string): Option<string> {
    if body == "" then Some("")
    else if body[0] == '\\' && |body| > 1 then
      if Escapes(body[1]).None? then None
      else
        match Unescape(body[2..])
        case None => None
        case Some(rest) => Some([Escapes(body[1]).value] + rest)
    else
      match Unescape(body[1..])
      case None => None
      case Some(rest) => Some([body[0]] + rest)
  }

  predicate QuotedBy(raw: string, q: char) {
    |raw| >= 2 && raw[0] == q && raw[|raw| - 1] == q
  }

  function Unquoted(raw: string): Option<string> {
    if QuotedBy(raw, '\'') then Some(raw[1..|raw| - 1])
    else if QuotedBy(raw, '"') then Unescape(raw[1..|raw| - 1])
    else Some(Strip(raw))
  }

  const EXPORT: string := "export "

  /** The line without surrounding space and without a leading `export`. */
  function Assignment(raw: string): string {
    var line := Strip(raw);
    if EXPORT <= line then LStrip(line[|EXPORT|..]) else line
  }

  predicate NotEquals(c: char) {
    c != '='
  }

  /** `partition("=")`. */
  function Partition(line: string): Option<(string, string)> {
    var n := Run(NotEquals, line);
    if n == |line| then None else Some((line[..n], line[n + 1..]))
  }

  function Assigned(line: string): Reading {
    match Partition(line)
    case None => Bad(NoEquals)
    case Some((key, value)) => if KeyOk(Strip(key)) then Holds(Strip(key), Unquoted(Strip(value))) else Bad(BadKey)
  }

  function Read(raw: string): Reading {
    if Strip(raw) == "" || Strip(raw)[0] == '#' then Skipped
    else Assigned(Assignment(raw))
  }

  // ---------------------------------------------------------------- the whole file

  datatype Outcome = Parsed(entries: seq<Entry>) | Refused(line: nat, reason: Reason)

  predicate HasKey(entries: seq<Entry>, key: string) {
    exists i :: 0 <= i < |entries| && entries[i].key == key
  }

  /** What line number `n` adds. */
  function Add(sofar: Outcome, n: nat, reading: Reading): Outcome {
    match sofar
    case Refused(_, _) => sofar
    case Parsed(entries) =>
      match reading
      case Skipped => sofar
      case Bad(reason) => Refused(n, reason)
      case Holds(key, value) =>
        if HasKey(entries, key) then Refused(n, Duplicate)
        else if value.None? then Refused(n, BadEscape)
        else Parsed(entries + [Entry(key, value.value)])
  }

  /** The lines in order, up to the first that is refused. */
  function Taken(readings: seq<Reading>): Outcome {
    if readings == [] then Parsed([])
    else Add(Taken(readings[..|readings| - 1]), |readings|, readings[|readings| - 1])
  }

  function Readings(lines: seq<string>): (readings: seq<Reading>)
    ensures |readings| == |lines|
  {
    if lines == [] then [] else [Read(lines[0])] + Readings(lines[1..])
  }

  lemma {:induction false} ReadingAt(lines: seq<string>, i: nat)
    requires i < |lines|
    ensures Readings(lines)[i] == Read(lines[i])
  {
    if i > 0 {
      ReadingAt(lines[1..], i - 1);
    }
  }

  /** What the text of a file says. */
  function Contents(text: string): Outcome {
    Taken(Readings(Lines(text)))
  }

  function AsMap(entries: seq<Entry>): map<string, string> {
    if entries == [] then map[]
    else AsMap(entries[..|entries| - 1])[entries[|entries| - 1].key := entries[|entries| - 1].value]
  }

  lemma OneMoreEntry(entries: seq<Entry>, e: Entry, key: string)
    ensures HasKey(entries + [e], key) <==> HasKey(entries, key) || e.key == key
  {
    var all := entries + [e];
    assert all[|entries|] == e;
    assert forall i | 0 <= i < |entries| :: all[i] == entries[i];
  }

  lemma {:induction false} AsMapKeys(entries: seq<Entry>, key: string)
    ensures key in AsMap(entries) <==> HasKey(entries, key)
  {
    if entries != [] {
      var n := |entries| - 1;
      AsMapKeys(entries[..n], key);
      OneMoreEntry(entries[..n], entries[n], key);
      assert entries == entries[..n] + [entries[n]];
    }
  }

  function Prefixed(out: string, rest: Option<string>): Option<string> {
    if rest.None? then None else Some(out + rest.value)
  }

  /** The double-quoted half of `_unquote`. */
  method UnquoteBody(body: string) returns (value: Option<string>)
    ensures value == Unescape(body)
  {
    var out, index := "", 0;
    assert body[0..] == body;
    if Unescape(body).Some? {
      NilRight(Unescape(body).value);
    }
    while index < |body|
      invariant 0 <= index <= |body|
      invariant Unescape(body) == Prefixed(out, Unescape(body[index..]))
    {
      assert body[index..][1..] == body[index + 1..];
      if body[index] == '\\' && index + 1 < |body| {
        assert body[index..][2..] == body[index + 2..];
        var escape := Escapes(body[index + 1]);
        if escape.None? {
          return None;
        }
        Regroup(out, escape.value, Unescape(body[index + 2..]));
        out := out + [escape.value];
        index := index + 2;
      } else {
        Regroup(out, body[index], Unescape(body[index + 1..]));
        out := out + [body[index]];
        index := index + 1;
      }
    }
    NilRight(out);
    value := Some(out);
  }

  lemma Regroup(out: string, c: char, rest: Option<string>)
    ensures rest.Some? ==> out + ([c] + rest.value) == (out + [c]) + rest.value
  {
  }

  method Unquote(raw: string) returns (value: Option<string>)
    ensures value == Unquoted(raw)
  {
    if QuotedBy(raw, '\'') {
      value := Some(raw[1..|raw| - 1]);
    } else if QuotedBy(raw, '"') {
      value := UnquoteBody(raw[1..|raw| - 1]);
    } else {
      value := Some(Strip(raw));
    }
  }

  /** One turn of the loop of `parse`, up to the search for a duplicate. */
  method ReadLine(raw: string) returns (reading: Reading)
    ensures reading == Read(raw)
  {
    var line := Strip(raw);
    if line == "" || line[0] == '#' {
      return Skipped;
    }
    if EXPORT <= line {
      line := LStrip(line[|EXPORT|..]);
    }
    reading := ReadAssignment(line);
  }

  method ReadAssignment(line: string) returns (reading: Reading)
    ensures reading == Assigned(line)
  {
    var parts := Partition(line);
    if parts.None? {
      return Bad(NoEquals);
    }
    var key := Strip(parts.value.0);
    if !KeyOk(key) {
      return Bad(BadKey);
    }
    var value := Unquote(Strip(parts.value.1));
    reading := Holds(key, value);
  }

  lemma AsMapGrows(entries: seq<Entry>, e: Entry)
    ensures AsMap(entries + [e]) == AsMap(entries)[e.key := e.value]
  {
    assert (entries + [e])[..|entries|] == entries;
  }

  /** The rest of that turn: the line is skipped, refused, or adds a value. */
  method AddLine(line: Reading, n: nat, values: map<string, string>, ghost entries: seq<Entry>)
    returns (more: map<string, string>, refused: Option<Reason>, ghost after: seq<Entry>)
    requires values == AsMap(entries)
    ensures Add(Parsed(entries), n, line) == if refused.Some? then Refused(n, refused.value) else Parsed(after)
    ensures refused == None ==> more == AsMap(after)
  {
    more, refused, after := values, None, entries;
    match line
    case Skipped =>
    case Bad(reason) => refused := Some(reason);
    case Holds(key, value) =>
      AsMapKeys(entries, key);
      if key in values {
        refused := Some(Duplicate);
      } else if value.None? {
        refused := Some(BadEscape);
      } else {
        AsMapGrows(entries, Entry(key, value.value));
        more := values[key := value.value];
        after := entries + [Entry(key, value.value)];
      }
  }

  /** `parse`: the values, or the line that is refused and why. */
  method Parse(text: string) returns (values: map<string, string>, refused: Option<(nat, Reason)>)
    ensures Contents(text).Parsed? ==> refused == None && values == AsMap(Contents(text).entries)
    ensures Contents(text).Refused? ==> refused == Some((Contents(text).line, Contents(text).reason))
  {
    var lines := Lines(text);
    forall i | 0 <= i < |lines| ensures Readings(lines)[i] == Read(lines[i]) {
      ReadingAt(lines, i);
    }
    values, refused := ParseLines(lines, Readings(lines));
  }

  method ParseLines(lines: seq<string>, ghost readings: seq<Reading>)
    returns (values: map<string, string>, refused: Option<(nat, Reason)>)
    requires |readings| == |lines| && forall i | 0 <= i < |lines| :: readings[i] == Read(lines[i])
    ensures Taken(readings).Parsed? ==> refused == None && values == AsMap(Taken(readings).entries)
    ensures Taken(readings).Refused? ==> refused == Some((Taken(readings).line, Taken(readings).reason))
  {
    ghost var entries := [];
    values, refused := map[], None;
    for i := 0 to |lines|
      invariant Taken(readings[..i]) == Parsed(entries) && values == AsMap(entries)
    {
      TakenGrows(readings, i);
      var line := ReadLine(lines[i]);
      var why;
      values, why, entries := AddLine(line, i + 1, values, entries);
      if why.Some? {
        RefusedForGood(readings, i + 1);
        return values, Some((i + 1, why.value));
      }
    }
    assert readings[..|lines|] == readings;
  }

  lemma TakenGrows(readings: seq<Reading>, i: nat)
    requires i < |readings|
    ensures Taken(readings[..i + 1]) == Add(Taken(readings[..i]), i + 1, readings[i])
  {
    assert readings[..i + 1][..i] == readings[..i];
  }

  lemma {:induction false} RefusedForGood(readings: seq<Reading>, k: nat)
    requires k <= |readings| && Taken(readings[..k]).Refused?
    ensures Taken(readings) == Taken(readings[..k])
    decreases |readings|
  {
    if k == |readings| {
      assert readings[..k] == readings;
    } else {
      assert readings[..|readings| - 1][..k] == readings[..k];
      RefusedForGood(readings[..|readings| - 1], k);
    }
  }

  // ---------------------------------------------------------------- which files are accepted

  predicate Sets(reading: Reading, key: string) {
    reading.Holds? && reading.key == key
  }

  /** Two lines set the same key. */
  predicate SameKey(readings: seq<Reading>, i: int, j: int) {
    0 <= i < j < |readings| && readings[i].Holds? && Sets(readings[j], readings[i].key)
  }

  predicate LineOk(reading: Reading) {
    reading.Skipped? || (reading.Holds? && reading.value.Some?)
  }

  ghost predicate AllOk(readings: seq<Reading>) {
    && (forall i | 0 <= i < |readings| :: LineOk(readings[i]))
    && (forall i, j :: !SameKey(readings, i, j))
  }

  ghost predicate SetIn(readings: seq<Reading>, key: string) {
    exists i :: 0 <= i < |readings| && Sets(readings[i], key)
  }

  /** The keys taken are those the lines set. */
  lemma {:induction false} TakenKeys(readings: seq<Reading>, key: string)
    requires Taken(readings).Parsed?
    ensures HasKey(Taken(readings).entries, key) <==> SetIn(readings, key)
  {
    if readings != [] {
      var n := |readings| - 1;
      var before := Taken(readings[..n]).entries;
      TakenKeys(readings[..n], key);
      if readings[n].Holds? {
        OneMoreEntry(before, Entry(readings[n].key, readings[n].value.value), key);
      }
    }
  }

  lemma AllOkSplits(readings: seq<Reading>)
    requires readings != []
    ensures
      var n := |readings| - 1;
      AllOk(readings) <==>
      AllOk(readings[..n]) && LineOk(readings[n]) && (readings[n].Holds? ==> !SetIn(readings[..n], readings[n].key))
  {
    var n := |readings| - 1;
    var before := readings[..n];
    assert forall i | 0 <= i < n :: before[i] == readings[i];
    assert forall i, j | SameKey(before, i, j) :: SameKey(readings, i, j);
    assert forall i, j | SameKey(readings, i, j) && j < n :: SameKey(before, i, j);
    if readings[n].Holds? && SetIn(before, readings[n].key) {
      var i :| 0 <= i < n && Sets(before[i], readings[n].key);
      assert SameKey(readings, i, n);
    }
    forall i | SameKey(readings, i, n) ensures SetIn(before, readings[n].key) {
      assert Sets(before[i], readings[n].key);
    }
  }

  /** A file is accepted exactly when every line is blank, a comment or a good assignment and
      no key is set twice; so a repeated key is always an error. */
  lemma {:induction false} AcceptedExactly(readings: seq<Reading>)
    ensures Taken(readings).Parsed? <==> AllOk(readings)
  {
    if readings != [] {
      var n := |readings| - 1;
      AcceptedExactly(readings[..n]);
      AllOkSplits(readings);
      if Taken(readings[..n]).Parsed? && readings[n].Holds? {
        TakenKeys(readings[..n], readings[n].key);
      }
    }
  }

  // ---------------------------------------------------------------- writing a file

  function EscapeChar(c: char): string {
    if c == '\n' then ['\\', 'n']
    else if c == '\t' then ['\\', 't']
    else if c == '\r' then ['\\', 'r']
    else if c == '\\' then ['\\', '\\']
    else if c == '"' then ['\\', '"']
    else [c]
  }

  function EscapeValue(value: string): string {
    if value == "" then "" else EscapeChar(value[0]) + EscapeValue(value[1..])
  }

  /** `KEY="escaped value"`. */
  function Written(e: Entry): string {
    e.key + (['='] + Quoted(EscapeValue(e.value)))
  }

  function Quoted(body: string): string {
    ['"'] + (body + ['"'])
  }

  function File(entries: seq<Entry>): string {
    if entries == [] then "" else Written(entries[0]) + (['\n'] + File(entries[1..]))
  }

  predicate Clean(value: string) {
    forall c | c in value :: !HardBreak(c)
  }

  predicate OneLine(s: string) {
    forall c | c in s :: !Breaks(c)
  }

  lemma {:induction false} EscapedValueReads(value: string)
    ensures Unescape(EscapeValue(value)) == Some(value)
  {
    if value != "" {
      EscapedValueReads(value[1..]);
      var c, rest := value[0], EscapeValue(value[1..]);
      EscapedCharReads(c, rest, value[1..]);
      ConsTail(value);
    }
  }

  lemma EscapedCharReads(c: char, rest: string, value: string)
    requires Unescape(rest) == Some(value)
    ensures Unescape(EscapeChar(c) + rest) == Some([c] + value)
  {
  }

  lemma {:induction false} EscapedIsOneLine(value: string)
    requires Clean(value)
    ensures OneLine(EscapeValue(value))
  {
    if value != "" {
      assert value[0] in value && forall c | c in value[1..] :: c in value;
      EscapedIsOneLine(value[1..]);
    }
  }

  lemma NameIsWord(key: string)
    requires KeyOk(key)
    ensures forall c | c in key :: !IsSpace(c) && c != '=' && !Breaks(c)
    ensures Strip(key) == key && key[0] != '#'
  {
  }

  lemma NotExported(key: string, rest: string)
    requires KeyOk(key)
    ensures !(EXPORT <= key + (['='] + rest))
  {
    var line := key + (['='] + rest);
    assert line[|key|] == '=';
    assert EXPORT[6] == ' ' && forall i | 0 <= i < 7 :: EXPORT[i] != '=';
    assert |key| > 6 ==> line[6] == key[6] && key[6] in key;
  }

  lemma QuotedReads(body: string)
    ensures Strip(Quoted(body)) == Quoted(body) && Unquoted(Quoted(body)) == Unescape(body)
  {
    var t := Quoted(body);
    ConsParts('"', body + ['"']);
    assert t[|t| - 1] == '"' && t[1..|t| - 1] == body;
    StripFixes(t);
  }

  lemma WrittenIsAssignment(key: string, body: string)
    requires KeyOk(key)
    ensures var line := key + (['='] + Quoted(body));
      Strip(line) == line && line[0] != '#' && Assignment(line) == line
  {
    var line := key + (['='] + Quoted(body));
    NameIsWord(key);
    assert line[0] == key[0] && key[0] in key;
    assert line[|line| - 1] == '"';
    StripFixes(line);
    NotExported(key, Quoted(body));
  }

  lemma PartitionWritten(key: string, rest: string)
    requires KeyOk(key)
    ensures Partition(key + (['='] + rest)) == Some((key, rest))
  {
    var line := key + (['='] + rest);
    NameIsWord(key);
    ConsParts('=', rest);
    RunStops(NotEquals, key, ['='] + rest);
    assert line[..|key|] == key && line[|key| + 1..] == rest;
  }

  /** A written line is read as what was written. */
  lemma WrittenReads(e: Entry)
    requires KeyOk(e.key)
    ensures Read(Written(e)) == Holds(e.key, Some(e.value))
  {
    var body := EscapeValue(e.value);
    WrittenIsAssignment(e.key, body);
    PartitionWritten(e.key, Quoted(body));
    NameIsWord(e.key);
    QuotedReads(body);
    EscapedValueReads(e.value);
  }

  lemma LinesOfOne(line: string, rest: string)
    requires OneLine(line)
    ensures Lines(line + (['\n'] + rest)) == [line] + Lines(rest)
  {
    var s := line + (['\n'] + rest);
    ConsParts('\n', rest);
    RunStops(Unbroken, line, ['\n'] + rest);
    assert s[..|line|] == line && s[|line|..] == ['\n'] + rest;
  }

  lemma WrittenIsOneLine(e: Entry)
    requires KeyOk(e.key) && Clean(e.value)
    ensures OneLine(Written(e))
  {
    NameIsWord(e.key);
    EscapedIsOneLine(e.value);
  }

  function WrittenLines(entries: seq<Entry>): (lines: seq<string>)
    ensures |lines| == |entries| && forall i | 0 <= i < |entries| :: lines[i] == Written(entries[i])
  {
    if entries == [] then [] else [Written(entries[0])] + WrittenLines(entries[1..])
  }

  /** The lines of a file are the lines written. */
  lemma {:induction false} FileLines(entries: seq<Entry>)
    requires forall e | e in entries :: KeyOk(e.key) && Clean(e.value)
    ensures Lines(File(entries)) == WrittenLines(entries)
  {
    if entries != [] {
      assert entries[0] in entries && forall e | e in entries[1..] :: e in entries;
      WrittenIsOneLine(entries[0]);
      LinesOfOne(Written(entries[0]), File(entries[1..]));
      FileLines(entries[1..]);
    }
  }

  predicate DistinctKeys(entries: seq<Entry>) {
    forall i, j | 0 <= i < j < |entries| :: entries[i].key != entries[j].key
  }

  lemma {:induction false} TakenAll(readings: seq<Reading>, entries: seq<Entry>)
    requires |readings| == |entries| && DistinctKeys(entries)
    requires forall i | 0 <= i < |entries| :: readings[i] == Holds(entries[i].key, Some(entries[i].value))
    ensures Taken(readings) == Parsed(entries)
  {
    if entries != [] {
      var n := |entries| - 1;
      TakenAll(readings[..n], entries[..n]);
      assert entries == entries[..n] + [entries[n]];
      assert !HasKey(entries[..n], entries[n].key);
    }
  }

  predicate Writable(entries: seq<Entry>) {
    DistinctKeys(entries) && forall e | e in entries :: KeyOk(e.key)
  }

  lemma CleanFileReads(entries: seq<Entry>)
    requires Writable(entries) && forall e | e in entries :: Clean(e.value)
    ensures Contents(File(entries)) == Parsed(entries)
  {
    FileLines(entries);
    var readings := Readings(Lines(File(entries)));
    forall i | 0 <= i < |entries| ensures readings[i] == Holds(entries[i].key, Some(entries[i].value)) {
      ReadingAt(Lines(File(entries)), i);
      WrittenReads(entries[i]);
    }
    TakenAll(readings, entries);
  }

  lemma {:induction false} LinesAreLines(s: string)
    ensures forall line | line in Lines(s) :: OneLine(line)
    decreases |s|
  {
    var n := Run(Unbroken, s);
    if s != "" && n < |s| {
      LinesAreLines(s[n..][BreakLength(s[n..])..]);
    }
  }

  lemma StripIsPart(s: string)
    ensures forall c | c in Strip(s) :: c in s
  {
  }

  lemma {:induction false} UnescapeIsClean(body: string)
    requires Clean(body) && Unescape(body).Some?
    ensures Clean(Unescape(body).value)
  {
    if body != "" {
      assert body[0] in body;
      if body[0] == '\\' && |body| > 1 {
        assert forall c | c in body[2..] :: c in body;
        UnescapeIsClean(body[2..]);
      } else {
        assert forall c | c in body[1..] :: c in body;
        UnescapeIsClean(body[1..]);
      }
    }
  }

  lemma UnquotedIsClean(raw: string)
    requires Clean(raw) && Unquoted(raw).Some?
    ensures Clean(Unquoted(raw).value)
  {
    StripIsPart(raw);
    if |raw| >= 2 {
      var body := raw[1..|raw| - 1];
      assert forall c | c in body :: c in raw;
      if Unescape(body).Some? {
        UnescapeIsClean(body);
      }
    }
  }

  lemma AssignmentIsPart(line: string)
    ensures forall c | c in Assignment(line) :: c in line
  {
  }

  /** What is read from one line has no hard break. */
  lemma ReadIsClean(line: string)
    requires OneLine(line)
    ensures Read(line).Holds? && Read(line).value.Some? ==> Clean(Read(line).value.value)
  {
    AssignmentIsPart(line);
    var rest := Assignment(line);
    var parts := Partition(rest);
    if parts.Some? {
      var raw := parts.value.1;
      assert forall c | c in raw :: c in rest;
      StripIsPart(raw);
      if Unquoted(Strip(raw)).Some? {
        UnquotedIsClean(Strip(raw));
      }
    }
  }

  lemma {:induction false} TakenIsRead(readings: seq<Reading>, e: Entry)
    requires Taken(readings).Parsed? && e in Taken(readings).entries
    ensures Holds(e.key, Some(e.value)) in readings
  {
    var n := |readings| - 1;
    if e in Taken(readings[..n]).entries {
      TakenIsRead(readings[..n], e);
    } else {
      assert readings[n] in readings;
    }
  }

  /** No accepted file gives a value with a hard break. */
  lemma ValuesAreClean(text: string, e: Entry)
    requires Contents(text).Parsed? && e in Contents(text).entries
    ensures Clean(e.value)
  {
    var lines := Lines(text);
    TakenIsRead(Readings(lines), e);
    var i :| 0 <= i < |lines| && Readings(lines)[i] == Holds(e.key, Some(e.value));
    LinesAreLines(text);
    ReadingAt(lines, i);
    assert lines[i] in lines;
    ReadIsClean(lines[i]);
  }

  /** Parsing undoes writing exactly when no value holds a line break other than `\n` and `\r`. */
  lemma FileRoundTrip(entries: seq<Entry>)
    requires Writable(entries)
    ensures Contents(File(entries)) == Parsed(entries) <==> forall e | e in entries :: Clean(e.value)
  {
    if forall e | e in entries :: Clean(e.value) {
      CleanFileReads(entries);
    } else if Contents(File(entries)) == Parsed(entries) {
      forall e | e in entries ensures Clean(e.value) {
        ValuesAreClean(File(entries), e);
      }
    }
  }
}
