/** Lines of the credential file as people write them (`secrets.py`). */
module DotenvLines {
  import opened Wrappers
  import opened Text
  import opened Interpolation
  import opened Dotenv

  /** How a line is laid out: blanks before it, `export` and what follows it, the key, blanks around
      the equals sign, and blanks after the value. */
  datatype Form = Form(pre: string, exported: Option<string>, key: string, before: string, after: string, post: string)

  predicate Blank(s: string) { forall c | c in s :: IsSpace(c) }

  predicate Stripped(s: string) { s == "" || (!IsSpace(s[0]) && !IsSpace(s[|s| - 1])) }

  predicate GoodForm(f: Form) {
    && Blank(f.pre) && Blank(f.before) && Blank(f.after) && Blank(f.post)
    && (f.exported.Some? ==> Blank(f.exported.value))
    && KeyOk(f.key)
  }

  function Opening(f: Form): string {
    if f.exported.Some? then EXPORT + f.exported.value else ""
  }

  /** The line in that layout, with this text for the value. */
  function Spelled(f: Form, raw: string): string {
    f.pre + (Opening(f) + (f.key + (f.before + (['='] + (f.after + (raw + f.post))))))
  }

  /** The key is itself `export`, and a blank after it makes it read as the keyword. */
  predicate TakenForExport(f: Form) {
    f.exported.None? && f.key == "export" && f.before != "" && f.before[0] == ' '
  }

  lemma {:induction false} EndStripped(s: string, post: string)
    requires Blank(post) && (s == "" || !IsSpace(s[|s| - 1]))
    ensures RStrip(s + post) == s
    decreases |post|
  {
    if post == "" {
      NilRight(s);
    } else {
      var init := post[..|post| - 1];
      assert (s + post)[..|s + post| - 1] == s + init;
      EndStripped(s, init);
    }
  }

  lemma FrontStripped(pre: string, s: string)
    requires Blank(pre) && (s == "" || !IsSpace(s[0]))
    ensures LStrip(pre + s) == s
  {
    RunStops(IsSpace, pre, s);
  }

  lemma BlanksStripped(pre: string, s: string, post: string)
    requires Blank(pre) && Blank(post) && Stripped(s)
    ensures Strip(pre + (s + post)) == s
  {
    if s == "" {
      NilRight(post);
      NilRight(pre + post);
      FrontStripped(pre + post, "");
    } else {
      FrontStripped(pre, s + post);
      EndStripped(s, post);
    }
  }

  /** What is left of the part after the equals sign once the line is stripped. */
  function Kept(f: Form, raw: string): string {
    if raw == "" then "" else f.after + raw
  }

  lemma SpelledParts(f: Form, raw: string, kept: string, post: string)
    requires kept == Kept(f, raw) && post == if raw == "" then f.after + f.post else f.post
    ensures Spelled(f, raw) == f.pre + ((Opening(f) + (f.key + (f.before + (['='] + kept)))) + post)
  {
    assert f.after + (raw + f.post) == kept + post;
    Assoc(['='], kept, post);
    Assoc(f.before, ['='] + kept, post);
    Assoc(f.key, f.before + (['='] + kept), post);
    Assoc(Opening(f), f.key + (f.before + (['='] + kept)), post);
  }

  lemma SpelledStrips(f: Form, raw: string, kept: string)
    requires GoodForm(f) && Stripped(raw) && kept == Kept(f, raw)
    ensures var line := Opening(f) + (f.key + (f.before + (['='] + kept)));
            Strip(Spelled(f, raw)) == line && line != "" && line[0] != '#'
  {
    var line := Opening(f) + (f.key + (f.before + (['='] + kept)));
    var post := if raw == "" then f.after + f.post else f.post;
    NameIsWord(f.key);
    assert f.key[0] in f.key;
    assert line[0] == if f.exported.Some? then 'e' else f.key[0];
    assert line[|line| - 1] == if raw == "" then '=' else raw[|raw| - 1];
    SpelledParts(f, raw, kept, post);
    BlanksStripped(f.pre, line, post);
  }

  lemma SameHead(a: string, s: string, k: nat)
    requires k <= |a| && k <= |s|
    ensures a <= s ==> a[..k] == s[..k]
  {
  }

  /** A name and what is not in one stand where `export` and a blank would. */
  lemma NoOther(key: string, rest: string)
    requires KeyOk(key) && key != "export" && rest != "" && (rest[0] == '=' || IsSpace(rest[0]))
    ensures !(EXPORT <= key + rest)
  {
    var line, n := key + rest, |key|;
    NameIsWord(key);
    assert line[n] == rest[0];
    if n < 6 {
      assert !IsSpace(EXPORT[n]) && EXPORT[n] != '=';
    } else if n > 6 {
      assert line[6] == key[6] && key[6] in key && EXPORT[6] == ' ';
    } else {
      assert line[..6] == key && EXPORT[..6] == "export";
      SameHead(EXPORT, line, 6);
    }
  }

  lemma TheKeyword(rest: string)
    requires rest != ""
    ensures EXPORT <= "export" + rest <==> rest[0] == ' '
  {
    var line := "export" + rest;
    assert line[6] == rest[0] && EXPORT[6] == ' ' && EXPORT[..6] == "export" == line[..6];
    assert line[..7] == line[..6] + [line[6]] && EXPORT == EXPORT[..6] + [EXPORT[6]];
  }

  lemma ExportedExactly(f: Form, rest: string)
    requires GoodForm(f) && f.exported.None?
    ensures EXPORT <= f.key + (f.before + (['='] + rest)) <==> TakenForExport(f)
  {
    var after := f.before + (['='] + rest);
    assert after[0] == if f.before == "" then '=' else f.before[0];
    assert f.before != "" ==> f.before[0] in f.before;
    if f.key == "export" {
      TheKeyword(after);
    } else {
      NoOther(f.key, after);
    }
  }

  lemma ExportedAssigns(f: Form, core: string)
    requires GoodForm(f) && f.exported.Some? && core != "" && !IsSpace(core[0])
    ensures EXPORT <= Opening(f) + core && LStrip((Opening(f) + core)[|EXPORT|..]) == core
  {
    Assoc(EXPORT, f.exported.value, core);
    assert (EXPORT + (f.exported.value + core))[|EXPORT|..] == f.exported.value + core;
    FrontStripped(f.exported.value, core);
  }

  lemma TakenAssigns(f: Form, rest: string)
    requires GoodForm(f) && TakenForExport(f)
    ensures var core := f.key + (f.before + (['='] + rest)); |core| >= 7 && LStrip(core[7..]) == ['='] + rest
  {
    var core, more := f.key + (f.before + (['='] + rest)), f.before[1..] + (['='] + rest);
    assert core[7..] == more;
    FrontStripped(f.before[1..], ['='] + rest);
  }

  lemma BareAssigns(f: Form, rest: string, core: string)
    requires GoodForm(f) && f.exported.None? && core == f.key + (f.before + (['='] + rest))
    ensures (if EXPORT <= core then LStrip(core[|EXPORT|..]) else core) ==
      if TakenForExport(f) then ['='] + rest else core
  {
    ExportedExactly(f, rest);
    if TakenForExport(f) {
      TakenAssigns(f, rest);
    }
  }

  lemma StrippedAssigns(f: Form, rest: string, line: string, core: string)
    requires GoodForm(f) && core == f.key + (f.before + (['='] + rest)) && Strip(line) == Opening(f) + core
    ensures Assignment(line) == if TakenForExport(f) then ['='] + rest else core
  {
    NameIsStripped(f.key);
    assert core[0] == f.key[0];
    if f.exported.Some? {
      ExportedAssigns(f, core);
    } else {
      NilRight(core);
      BareAssigns(f, rest, core);
    }
  }

  lemma CorePartition(name: string, kept: string)
    requires forall c | c in name :: c != '='
    ensures Partition(name + (['='] + kept)) == Some((name, kept))
  {
    var line := name + (['='] + kept);
    ConsParts('=', kept);
    RunStops(NotEquals, name, ['='] + kept);
    assert line[..|name|] == name && line[|name|..] == ['='] + kept && line[|name| + 1..] == line[|name|..][1..];
  }

  lemma EqualsNotIn(name: string, blanks: string)
    requires KeyOk(name) && Blank(blanks)
    ensures forall c | c in name + blanks :: c != '='
  {
  }

  lemma BlanksAfter(s: string, blanks: string)
    requires Stripped(s) && Blank(blanks)
    ensures Strip(s + blanks) == s
  {
    BlanksStripped("", s, blanks);
    NilRight(s + blanks);
  }

  lemma NameStrips(f: Form)
    requires GoodForm(f)
    ensures Strip(f.key + f.before) == f.key && forall c | c in f.key + f.before :: c != '='
  {
    NameIsStripped(f.key);
    BlanksAfter(f.key, f.before);
    EqualsNotIn(f.key, f.before);
  }

  lemma NameIsStripped(key: string)
    requires KeyOk(key)
    ensures Stripped(key)
  {
    NameIsWord(key);
    assert key[0] in key && key[|key| - 1] in key;
  }

  lemma KeptStrips(f: Form, raw: string)
    requires GoodForm(f) && Stripped(raw)
    ensures Strip(Kept(f, raw)) == raw
  {
    NilRight(raw);
    if raw == "" {
      BlanksStripped("", "", "");
    } else {
      BlanksStripped(f.after, raw, "");
    }
  }

  lemma CoreReads(f: Form, raw: string, kept: string)
    requires GoodForm(f) && Stripped(raw) && kept == Kept(f, raw)
    ensures Assigned(f.key + (f.before + (['='] + kept))) == Holds(f.key, Unquoted(raw))
  {
    Assoc(f.key, f.before, ['='] + kept);
    NameStrips(f);
    CorePartition(f.key + f.before, kept);
    KeptStrips(f, raw);
  }

  lemma KeylessReads(kept: string)
    ensures Assigned(['='] + kept) == Bad(BadKey)
  {
    CorePartition("", kept);
    NilRight(['='] + kept);
    BlanksStripped("", "", "");
  }

  lemma LineReads(f: Form, raw: string, kept: string, line: string)
    requires GoodForm(f) && Stripped(raw) && kept == Kept(f, raw)
    requires Strip(line) == Opening(f) + (f.key + (f.before + (['='] + kept)))
    requires Strip(line) != "" && Strip(line)[0] != '#'
    ensures Read(line) == if TakenForExport(f) then Bad(BadKey) else Holds(f.key, Unquoted(raw))
  {
    StrippedAssigns(f, kept, line, f.key + (f.before + (['='] + kept)));
    if TakenForExport(f) {
      KeylessReads(kept);
    } else {
      CoreReads(f, raw, kept);
    }
  }

  /** A line is read as its key and the value its text spells, whatever blanks and `export` stand
      around them: exactly if the key is not itself `export` with a blank after it. */
  lemma SpelledReads(f: Form, raw: string)
    requires GoodForm(f) && Stripped(raw)
    ensures !TakenForExport(f) ==> Read(Spelled(f, raw)) == Holds(f.key, Unquoted(raw))
    ensures TakenForExport(f) ==> Read(Spelled(f, raw)) == Bad(BadKey)
  {
    SpelledStrips(f, raw, Kept(f, raw));
    LineReads(f, raw, Kept(f, raw), Spelled(f, raw));
  }

  /** A value with no quotes around it is itself. */
  lemma PlainValueReads(f: Form, value: string)
    requires GoodForm(f) && !TakenForExport(f)
    requires Stripped(value) && !QuotedBy(value, '\'') && !QuotedBy(value, '"')
    ensures Read(Spelled(f, value)) == Holds(f.key, Some(value))
  {
    SpelledReads(f, value);
    BlanksStripped("", value, "");
    NilRight(value);
  }

  /** Single quotes are literal, backslashes included. */
  lemma SingleQuotedReads(f: Form, body: string)
    requires GoodForm(f) && !TakenForExport(f)
    ensures Read(Spelled(f, ['\''] + (body + ['\'']))) == Holds(f.key, Some(body))
  {
    var raw := ['\''] + (body + ['\'']);
    ConsParts('\'', body + ['\'']);
    assert raw[|raw| - 1] == '\'' && raw[1..|raw| - 1] == body;
    SpelledReads(f, raw);
  }

  /** A key is a letter or underscore, and letters, digits and underscores after it. */
  lemma KeysAreWords(key: string)
    ensures KeyOk(key) <==> Word(key)
  {
    WordIsName(key);
  }

  // ---- what double quotes spell ----

  /** One step of a double-quoted body: a character, or a backslash and a character. */
  datatype Piece = Itself(c: char) | Escape(c: char)

  function Spelling(piece: Piece): string {
    match piece case Itself(c) => [c] case Escape(c) => ['\\', c]
  }

  function Body(pieces: seq<Piece>): string {
    if pieces == [] then "" else Spelling(pieces[0]) + Body(pieces[1..])
  }

  /** What a step stands for; the escapes are those the printer writes. */
  predicate Means(piece: Piece, c: char) {
    match piece case Itself(d) => c == d case Escape(d) => EscapeChar(c) == ['\\', d]
  }

  ghost predicate Legal(piece: Piece) { exists c :: Means(piece, c) }

  ghost predicate SpelledBy(value: string, pieces: seq<Piece>) {
    |value| == |pieces| && forall i | 0 <= i < |pieces| :: Means(pieces[i], value[i])
  }

  /** A backslash stands for itself only at the very end. */
  function Tail(last: bool): string { if last then ['\\'] else "" }

  predicate Stepped(pieces: seq<Piece>) { forall i | 0 <= i < |pieces| :: pieces[i] != Itself('\\') }

  lemma EscapeMeans(d: char, c: char)
    ensures Escapes(d) == Some(c) <==> Means(Escape(d), c)
  {
  }

  lemma UnescapeStep(piece: Piece, rest: string, c: char)
    requires piece != Itself('\\')
    ensures Means(piece, c) ==> Unescape(Spelling(piece) + rest) == Prefixed([c], Unescape(rest))
    ensures !Legal(piece) ==> Unescape(Spelling(piece) + rest) == None
  {
    match piece
    case Itself(d) =>
      assert Spelling(piece) == [d];
      ConsParts(d, rest);
      assert Means(piece, d);
    case Escape(d) =>
      assert Spelling(piece) == ['\\', d];
      var t := ['\\', d] + rest;
      assert t[0] == '\\' && t[1] == d && t[2..] == rest;
      EscapeMeans(d, c);
      if Escapes(d).Some? {
        EscapeMeans(d, Escapes(d).value);
      }
  }

  lemma BodyCons(pieces: seq<Piece>, last: bool)
    requires pieces != []
    ensures Body(pieces) + Tail(last) == Spelling(pieces[0]) + (Body(pieces[1..]) + Tail(last))
  {
    Assoc(Spelling(pieces[0]), Body(pieces[1..]), Tail(last));
  }

  /** A double-quoted body has the characters its steps stand for, in order ... */
  lemma {:induction false} BodyReads(pieces: seq<Piece>, last: bool, value: string)
    requires Stepped(pieces) && SpelledBy(value, pieces)
    ensures Unescape(Body(pieces) + Tail(last)) == Some(value + Tail(last))
  {
    if pieces == [] {
      NilRight(Tail(last));
      assert value == "";
    } else {
      BodyReads(pieces[1..], last, value[1..]);
      BodyCons(pieces, last);
      UnescapeStep(pieces[0], Body(pieces[1..]) + Tail(last), value[0]);
      ConsTail(value);
      Assoc([value[0]], value[1..], Tail(last));
    }
  }

  /** ... is refused if one of them stands for nothing ... */
  lemma {:induction false} BodyRefused(pieces: seq<Piece>, last: bool, i: nat)
    requires Stepped(pieces) && i < |pieces| && !Legal(pieces[i])
    ensures Unescape(Body(pieces) + Tail(last)) == None
  {
    var rest := Body(pieces[1..]) + Tail(last);
    BodyCons(pieces, last);
    if i == 0 {
      UnescapeStep(pieces[0], rest, 'n');
    } else {
      BodyRefused(pieces[1..], last, i - 1);
      if Legal(pieces[0]) {
        var c :| Means(pieces[0], c);
        UnescapeStep(pieces[0], rest, c);
      } else {
        UnescapeStep(pieces[0], rest, 'n');
      }
    }
  }

  /** ... and every body is such steps. */
  lemma {:induction false} BodyIsSteps(body: string) returns (pieces: seq<Piece>, last: bool)
    ensures Stepped(pieces) && body == Body(pieces) + Tail(last)
  {
    pieces, last := [], body == ['\\'];
    if body == "" || last {
      NilRight(body);
    } else {
      var n := if body[0] == '\\' then 2 else 1;
      var rest;
      rest, last := BodyIsSteps(body[n..]);
      var first := if n == 2 then Escape(body[1]) else Itself(body[0]);
      pieces := [first] + rest;
      ConsParts(first, rest);
      assert body == body[..n] + body[n..];
      assert Spelling(first) == body[..n];
      BodyCons(pieces, last);
    }
  }

  /** Double quotes escape: the line is read as what the steps between them stand for. */
  lemma DoubleQuotedReads(f: Form, pieces: seq<Piece>, last: bool, value: string)
    requires GoodForm(f) && !TakenForExport(f) && Stepped(pieces) && SpelledBy(value, pieces)
    ensures Read(Spelled(f, Quoted(Body(pieces) + Tail(last)))) == Holds(f.key, Some(value + Tail(last)))
  {
    var body := Body(pieces) + Tail(last);
    QuotedReads(body);
    ConsParts('"', body + ['"']);
    SpelledReads(f, Quoted(body));
    BodyReads(pieces, last, value);
  }

  // ---- the lines of a text ----

  /** A line and the break that ends it. */
  datatype LineEnd = LineEnd(line: string, end: string)

  /** The lines with their breaks, and what follows the last of them. */
  function Ended(parts: seq<LineEnd>, last: string): string {
    if parts == [] then last else parts[0].line + (parts[0].end + Ended(parts[1..], last))
  }

  function LinesIn(parts: seq<LineEnd>): (lines: seq<string>)
    ensures |lines| == |parts| && forall i | 0 <= i < |parts| :: lines[i] == parts[i].line
  {
    if parts == [] then [] else [parts[0].line] + LinesIn(parts[1..])
  }

  /** A carriage return and a newline after it are one break. */
  ghost predicate EndsWell(parts: seq<LineEnd>) {
    forall i | 0 <= i < |parts| :: OneLine(parts[i].line) && IsBreak(parts[i].end)
      && (parts[i].end == ['\r'] && i + 1 < |parts| && parts[i + 1].line == "" ==> !(['\n'] <= parts[i + 1].end))
  }

  predicate IsBreak(end: string) { end == ['\r', '\n'] || (|end| == 1 && Breaks(end[0])) }

  lemma LinesCons(line: string, end: string, rest: string)
    requires OneLine(line) && IsBreak(end) && (end == ['\r'] ==> rest == "" || rest[0] != '\n')
    ensures Lines(line + (end + rest)) == [line] + Lines(rest)
  {
    var s := line + (end + rest);
    assert (end + rest)[0] == end[0];
    RunStops(Unbroken, line, end + rest);
    assert s[..|line|] == line && s[|line|..] == end + rest;
    assert (end + rest)[|end|..] == rest;
    assert |end + rest| >= 2 ==> (end + rest)[1] == if |end| == 2 then end[1] else rest[0];
  }

  lemma EndsWellOn(parts: seq<LineEnd>)
    requires parts != [] && EndsWell(parts)
    ensures EndsWell(parts[1..]) && OneLine(parts[0].line) && IsBreak(parts[0].end)
  {
    assert forall i | 0 <= i < |parts[1..]| :: parts[1..][i] == parts[i + 1];
  }

  /** A text has the lines it was put together from, whichever breaks end them; nothing after the
      last break is no line. */
  lemma {:induction false} TextLines(parts: seq<LineEnd>, last: string)
    requires EndsWell(parts) && OneLine(last)
    ensures Lines(Ended(parts, last)) == LinesIn(parts) + (if last == "" then [] else [last])
  {
    if parts == [] {
      NilRight(last);
      RunStops(Unbroken, last, "");
    } else {
      var rest := Ended(parts[1..], last);
      EndsWellOn(parts);
      TextLines(parts[1..], last);
      StartsWell(parts, last);
      LinesCons(parts[0].line, parts[0].end, rest);
      Assoc([parts[0].line], LinesIn(parts[1..]), if last == "" then [] else [last]);
    }
  }

  lemma StartsWell(parts: seq<LineEnd>, last: string)
    requires parts != [] && EndsWell(parts) && OneLine(last)
    ensures parts[0].end == ['\r'] ==> Ended(parts[1..], last) == "" || Ended(parts[1..], last)[0] != '\n'
  {
    if |parts| > 1 {
      var next := parts[1];
      assert Ended(parts[1..], last)[0] == if next.line == "" then next.end[0] else next.line[0];
      assert next.line != "" ==> next.line[0] in next.line;
    } else if last != "" {
      assert last[0] in last;
    }
  }

  // ---- what is skipped, and what is refused ----

  /** Blank lines and comments say nothing. */
  lemma CommentIsSkipped(pre: string, text: string)
    requires Blank(pre)
    ensures Read(pre) == Skipped && Read(pre + (['#'] + text)) == Skipped
  {
    BlanksAfter("", pre);
    NilRight(pre);
    FrontStripped(pre, ['#'] + text);
    FirstStays(['#'] + text);
  }

  lemma {:induction false} FirstStays(s: string)
    requires s != "" && !IsSpace(s[0])
    ensures RStrip(s) != "" && RStrip(s)[0] == s[0]
    decreases |s|
  {
    if IsSpace(s[|s| - 1]) {
      FirstStays(s[..|s| - 1]);
    }
  }

  /** Any other line without an equals sign is an error. */
  lemma NoEqualsIsRefused(pre: string, text: string, post: string)
    requires Blank(pre) && Blank(post) && Stripped(text) && text != "" && text[0] != '#' && '=' !in text
    ensures Read(pre + (text + post)) == Bad(NoEquals)
  {
    BlanksStripped(pre, text, post);
    var rest := Assignment(pre + (text + post));
    assert forall c | c in rest :: c in text;
    AllRun(NotEquals, rest);
  }

  lemma {:induction false} AllRun(p: char -> bool, s: string)
    requires forall c | c in s :: p(c)
    ensures Run(p, s) == |s|
  {
    NilRight(s);
    RunStops(p, s, "");
  }

  /** A file is refused at its first line that is wrong: it is not a good assignment, or it sets a key
      again. */
  lemma {:induction false} RefusedAtFirst(readings: seq<Reading>)
    requires Taken(readings).Refused?
    ensures var n := Taken(readings).line;
      && 1 <= n <= |readings|
      && AllOk(readings[..n - 1]) && !AllOk(readings[..n])
      && var line, reason := readings[n - 1], Taken(readings).reason;
         || line == Bad(reason)
         || (line.Holds? && reason == if SetIn(readings[..n - 1], line.key) then Duplicate else BadEscape)
  {
    var k := |readings| - 1;
    if Taken(readings[..k]).Refused? {
      RefusedAtFirst(readings[..k]);
      var n := Taken(readings).line;
      assert readings[..k][..n - 1] == readings[..n - 1] && readings[..k][..n] == readings[..n];
    } else {
      assert readings[..k + 1] == readings;
      AcceptedExactly(readings[..k]);
      AcceptedExactly(readings);
      if readings[k].Holds? {
        TakenKeys(readings[..k], readings[k].key);
      }
    }
  }
}
