/** What becomes of a request that was written (`transport_ws.py`). */
module Requests {
  import opened Wrappers
  import opened Text
  import opened Naming
  import opened HttpHeads
  import opened Fragments

  // ---------------------------------------------------------------- names and words in any case

  predicate LowerWord(w: string) { forall c | c in w :: 'a' <= c <= 'z' || c == '-' }

  function LowerChar(c: char): char {
    if 'A' <= c <= 'Z' || ('\U{c0}' <= c <= '\U{de}' && c != '\U{d7}') then c + ' ' else c
  }

  lemma {:induction false} LowerAt(s: string)
    ensures |LowerLatin(s)| == |s| && forall k | 0 <= k < |s| :: LowerLatin(s)[k] == LowerChar(s[k])
  {
    if s != "" {
      LowerAt(s[1..]);
    }
  }

  lemma LowerIs(s: string, w: string)
    requires LowerWord(w)
    ensures LowerLatin(s) == w <==> SameUpToCase(s, w)
  {
    var low := LowerLatin(s);
    LowerAt(s);
    assert low == w <==> |low| == |w| && forall i | 0 <= i < |w| :: low[i] == w[i];
    if |s| == |w| {
      forall i | 0 <= i < |w| ensures low[i] == w[i] <==> SameLetter(s[i], w[i]) {
        assert w[i] in w;
      }
    }
  }

  lemma LowerParts(s: string, i: nat, j: nat)
    requires i <= j <= |s|
    ensures |LowerLatin(s)| == |s| && LowerLatin(s)[i..j] == LowerLatin(s[i..j])
  {
    LowerAt(s);
    LowerAt(s[i..j]);
  }

  lemma {:induction false} ContainsOccurs(w: string, s: string)
    ensures Contains(w, s) <==> Occurs(w, s)
  {
    if w <= s {
      assert OccursAt(w, s, 0);
    }
    if s != "" {
      ContainsOccurs(w, s[1..]);
      OccursInTail(w, s, 1);
      if Occurs(w, s) && !(w <= s) {
        var i :| OccursAt(w, s, i);
        assert OccursAt(w, s[1..], i - 1);
      }
    }
  }

  /** The word stands in the text, in any case. */
  ghost predicate Mentions(w: string, s: string) {
    exists i :: MentionsAt(w, s, i)
  }

  predicate MentionsAt(w: string, s: string, i: int) {
    0 <= i <= |s| - |w| && SameUpToCase(s[i..i + |w|], w)
  }

  lemma LowerMentions(w: string, s: string)
    requires LowerWord(w)
    ensures Occurs(w, LowerLatin(s)) <==> Mentions(w, s)
  {
    LowerAt(s);
    forall i ensures OccursAt(w, LowerLatin(s), i) <==> MentionsAt(w, s, i) {
      if 0 <= i <= |s| - |w| {
        LowerParts(s, i, i + |w|);
        LowerIs(s[i..i + |w|], w);
      }
    }
  }

  predicate Capital(c: char, of: char) {
    !('a' <= c <= 'z') && (of == c || ('a' <= of <= 'z' && of as int == c as int + 32))
  }

  /** The verb of a head is the same letters in capitals. */
  lemma {:induction false} VerbInCapitals(verb: string)
    requires forall c | c in verb :: c as int < 0x80
    ensures |Upper(verb)| == |verb| && forall i | 0 <= i < |verb| :: Capital(Upper(verb)[i], verb[i])
  {
    if verb != "" {
      assert verb[0] in verb && forall c | c in verb[1..] :: c in verb;
      VerbInCapitals(verb[1..]);
      var first := UpperChar(verb[0]);
      assert |first| == 1 && Capital(first[0], verb[0]);
      assert Upper(verb)[1..] == Upper(verb[1..]);
    }
  }

  // ---------------------------------------------------------------- in a list of values

  lemma OccursAround(w: string, a: string, r: string)
    requires w != "" && ',' !in w && ' ' !in w
    ensures Occurs(w, a + ", " + r) <==> Occurs(w, a) || Occurs(w, r)
  {
    var s := a + ", " + r;
    assert s[|a|] == ',' && s[|a| + 1] == ' ' && s[|a| + 2..] == r && s[..|a|] == a;
    if Occurs(w, s) {
      var i :| OccursAt(w, s, i);
      CharsAt(w, s, i, |a| - i);
      CharsAt(w, s, i, |a| + 1 - i);
      if i + |w| <= |a| {
        assert a[i..i + |w|] == s[i..i + |w|];
        assert OccursAt(w, a, i);
      } else {
        assert i >= |a| + 2;
        assert r[i - |a| - 2..i - |a| - 2 + |w|] == s[i..i + |w|];
        assert OccursAt(w, r, i - |a| - 2);
      }
    }
    if Occurs(w, a) {
      var i :| OccursAt(w, a, i);
      assert s[i..i + |w|] == a[i..i + |w|];
      assert OccursAt(w, s, i);
    }
    OccursInTail(w, s, |a| + 2);
  }

  lemma {:induction false} OccursInJoin(w: string, vs: seq<string>)
    requires w != "" && ',' !in w && ' ' !in w
    ensures Occurs(w, Join(", ", vs)) <==> exists v :: v in vs && Occurs(w, v)
  {
    if vs == [] {
      assert !Occurs(w, "");
    } else if |vs| == 1 {
      assert vs[0] in vs;
    } else {
      OccursInJoin(w, vs[1..]);
      OccursAround(w, vs[0], Join(", ", vs[1..]));
      ConsTail(vs);
    }
  }

  lemma {:induction false} LowerConcat(a: string, b: string)
    ensures LowerLatin(a + b) == LowerLatin(a) + LowerLatin(b)
  {
    if a == "" {
      NilRight(b);
      NilRight(LowerLatin(b));
    } else {
      assert (a + b)[1..] == a[1..] + b;
      LowerConcat(a[1..], b);
    }
  }

  function LowerEach(vs: seq<string>): (r: seq<string>)
    ensures |r| == |vs| && forall i | 0 <= i < |vs| :: r[i] == LowerLatin(vs[i])
  {
    if vs == [] then [] else [LowerLatin(vs[0])] + LowerEach(vs[1..])
  }

  lemma {:induction false} LowerJoin(vs: seq<string>)
    ensures LowerLatin(Join(", ", vs)) == Join(", ", LowerEach(vs))
  {
    if |vs| > 1 {
      LowerJoin(vs[1..]);
      ConsParts(LowerLatin(vs[0]), LowerEach(vs[1..]));
      LowerConcat(vs[0] + ", ", Join(", ", vs[1..]));
      LowerConcat(vs[0], ", ");
      LowerComma();
    }
  }

  lemma LowerComma()
    ensures LowerLatin(", ") == ", "
  {
    assert ", "[1..] == " " && " "[1..] == "";
  }

  // ---------------------------------------------------------------- fields by name

  predicate Named(f: Field, name: string) { SameUpToCase(Strip(f.name), name) }

  lemma {:induction false} ValuesAre(fields: seq<Field>, name: string, v: string)
    requires LowerWord(name)
    ensures v in ValuesIn(fields, name) <==> exists f :: f in fields && Named(f, name) && Strip(f.value) == v
  {
    if fields != [] {
      ValuesAre(fields[1..], name, v);
      LowerIs(Strip(fields[0].name), name);
      ConsTail(fields);
    }
  }

  /** Some field asks for an upgrade to WebSocket. */
  ghost predicate AsksUpgrade(fields: seq<Field>) {
    exists f :: f in fields && Named(f, UPGRADE) && Mentions(WEBSOCKET, Strip(f.value))
  }

  const UPGRADE: string := "upgrade"
  const WEBSOCKET: string := "websocket"

  lemma LowerSome(w: string, vs: seq<string>)
    requires LowerWord(w)
    ensures (exists v :: v in LowerEach(vs) && Occurs(w, v)) <==> exists v :: v in vs && Mentions(w, v)
  {
    forall v ensures Occurs(w, LowerLatin(v)) <==> Mentions(w, v) {
      LowerMentions(w, v);
    }
    var low := LowerEach(vs);
    if v :| v in low && Occurs(w, v) {
      var i :| 0 <= i < |low| && low[i] == v;
      assert vs[i] in vs && Mentions(w, vs[i]);
    }
    if v :| v in vs && Mentions(w, v) {
      var i :| 0 <= i < |vs| && vs[i] == v;
      assert low[i] in low && Occurs(w, low[i]);
    }
  }

  lemma SomeMention(fields: seq<Field>, name: string, w: string)
    requires LowerWord(name)
    ensures (exists v :: v in ValuesIn(fields, name) && Mentions(w, v))
            <==> exists f :: f in fields && Named(f, name) && Mentions(w, Strip(f.value))
  {
    if v :| v in ValuesIn(fields, name) && Mentions(w, v) {
      ValuesAre(fields, name, v);
    }
    if f :| f in fields && Named(f, name) && Mentions(w, Strip(f.value)) {
      ValuesAre(fields, name, Strip(f.value));
    }
  }

  lemma MentionRead(fields: seq<Field>, name: string, w: string, joined: string)
    requires LowerWord(name) && LowerWord(w) && w != ""
    requires joined == Join(", ", ValuesIn(fields, name))
    ensures Contains(w, LowerLatin(joined))
            <==> exists f :: f in fields && Named(f, name) && Mentions(w, Strip(f.value))
  {
    var vs := ValuesIn(fields, name);
    LowerJoin(vs);
    ContainsOccurs(w, LowerLatin(joined));
    OccursInJoin(w, LowerEach(vs));
    LowerSome(w, vs);
    SomeMention(fields, name, w);
  }

  lemma UpgradeRead(fields: seq<Field>, joined: string)
    requires joined == Join(", ", ValuesIn(fields, UPGRADE))
    ensures Contains(WEBSOCKET, LowerLatin(joined)) <==> AsksUpgrade(fields)
    ensures ValuesIn(fields, UPGRADE) == [] ==> !AsksUpgrade(fields)
  {
    assert LowerWord(UPGRADE) && LowerWord(WEBSOCKET);
    MentionRead(fields, UPGRADE, WEBSOCKET, joined);
    SomeMention(fields, UPGRADE, WEBSOCKET);
  }

  // ---------------------------------------------------------------- the path

  predicate PathChar(c: char) { c > ' ' && InPath(c) }

  /** A path of one host, as clients write it. */
  predicate PlainPath(path: string) {
    path != "" && path[0] == '/' && !("//" <= path) && forall c | c in path :: PathChar(c)
  }

  /** What may follow it: nothing, a query or a fragment. */
  predicate AfterPath(rest: string) { rest == "" || rest[0] == '?' || rest[0] == '#' }

  lemma NoHost(path: string, rest: string)
    requires PlainPath(path) && AfterPath(rest)
    ensures !("//" <= path + rest)
  {
    var u := path + rest;
    assert |u| >= 2 ==> u[1] == if |path| >= 2 then path[1] else rest[0];
    assert |path| >= 2 ==> path[..2] == [path[0], path[1]];
    assert |u| >= 2 ==> u[1] != '/';
    assert "//"[1] == '/';
  }

  lemma PathReads(path: string, rest: string)
    requires PlainPath(path) && AfterPath(rest)
    ensures PathOf(path + rest) == path
  {
    var target, kept := path + rest, WithoutBreaks(rest);
    assert target[0] == '/' && Run(AtMostSpace, target) == 0 && target[0..] == target;
    assert forall c | c in path :: c != '\t' && c != '\r' && c != '\n';
    KeepsPrefix(path, rest);
    var u := path + kept;
    assert u[0] == '/' && SchemeOf(target) == "";
    assert kept == "" || kept[0] == rest[0];
    NoHost(path, kept);
    RunStops(InPath, path, kept);
    assert u[..|path|] == path;
  }

  /** A target may name a host, and a scheme before it. */
  predicate HostPart(scheme: string, host: string) {
    && (forall c | c in scheme :: 'a' <= c <= 'z' || 'A' <= c <= 'Z')
    && (forall c | c in host :: c > ' ' && c != '/' && c != '?' && c != '#')
  }

  function WithHost(scheme: string, host: string, rest: string): string {
    (if scheme == "" then "" else scheme + ":") + ("//" + (host + rest))
  }

  lemma HostSkipped(host: string, rest: string)
    requires (forall c | c in host :: c != '/' && c != '?' && c != '#') && (AfterPath(rest) || rest[0] == '/')
    ensures Run(InHost, host + rest) == |host| && (host + rest)[|host|..] == rest
  {
    assert forall c | c in host :: InHost(c);
    RunStops(InHost, host, rest);
  }

  lemma SchemeCut(scheme: string, tail: string)
    requires scheme != "" && (forall c | c in scheme :: 'a' <= c <= 'z' || 'A' <= c <= 'Z')
    ensures var u := scheme + (":" + tail);
      Run(NotColon, u) == |scheme| < |u| && u[|scheme| + 1..] == tail && Run(AtMostSpace, u) == 0 && u[0..] == u
  {
    var u := scheme + (":" + tail);
    assert scheme[0] in scheme && u[0] == scheme[0];
    assert forall c | c in scheme :: NotColon(c);
    assert (":" + tail)[0] == ':';
    RunStops(NotColon, scheme, ":" + tail);
  }

  lemma SchemeKept(scheme: string, tail: string)
    requires forall c | c in scheme :: 'a' <= c <= 'z' || 'A' <= c <= 'Z'
    ensures WithoutBreaks(scheme + (":" + tail)) == scheme + (":" + WithoutBreaks(tail))
  {
    KeepsPrefix(scheme, ":" + tail);
    KeepsPrefix(":", tail);
  }

  lemma SchemeNamed(scheme: string, tail: string)
    requires scheme != "" && (forall c | c in scheme :: 'a' <= c <= 'z' || 'A' <= c <= 'Z')
    ensures SchemeOf(scheme + (":" + tail)) != ""
  {
    assert (":" + tail)[0] == ':';
    LettersRead(scheme, ":" + tail);
    LowerLength(scheme);
  }

  lemma {:induction false} LowerLength(s: string)
    ensures |Lower(s)| == |s|
  {
    if s != "" {
      LowerLength(s[1..]);
    }
  }

  lemma PathAfterHost(host: string, path: string, kept: string)
    requires (forall c | c in host :: c != '/' && c != '?' && c != '#')
    requires (path == "" || path[0] == '/') && (forall c | c in path :: PathChar(c)) && AfterPath(kept)
    ensures var u := "//" + (host + (path + kept));
      "//" <= u && u[2..] == host + (path + kept)
      && var after := u[2..][Run(InHost, u[2..])..]; after == path + kept && after[..Run(InPath, after)] == path
  {
    var u := "//" + (host + (path + kept));
    assert u[2..] == host + (path + kept);
    if path == "" {
      NilRight(kept);
    }
    HostSkipped(host, path + kept);
    RunStops(InPath, path, kept);
  }

  lemma HostKept(host: string, path: string, rest: string)
    requires (forall c | c in host :: c > ' ') && forall c | c in path :: c > ' '
    ensures WithoutBreaks("//" + (host + (path + rest))) == "//" + (host + (path + WithoutBreaks(rest)))
  {
    KeepsPrefix("//", host + (path + rest));
    KeepsPrefix(host, path + rest);
    KeepsPrefix(path, rest);
  }

  lemma PathComputed(target: string, u: string, tail: string, after: string, path: string)
    requires u == WithoutBreaks(target[Run(AtMostSpace, target)..]) && "//" <= tail
    requires tail == if SchemeOf(target) == "" || Run(NotColon, u) == |u| then u else u[Run(NotColon, u) + 1..]
    requires after == tail[2..][Run(InHost, tail[2..])..] && path == after[..Run(InPath, after)]
    ensures PathOf(target) == if path == "" then "/" else path
  {
  }

  /** The host is not part of the path, and a target without a path means the root. */
  lemma PathWithHost(scheme: string, host: string, path: string, rest: string)
    requires HostPart(scheme, host) && AfterPath(rest)
    requires (path == "" || path[0] == '/') && forall c | c in path :: PathChar(c)
    ensures PathOf(WithHost(scheme, host, path + rest)) == if path == "" then "/" else path
  {
    var tail, kept := "//" + (host + (path + rest)), "//" + (host + (path + WithoutBreaks(rest)));
    RestKept(rest);
    HostKept(host, path, rest);
    PathAfterHost(host, path, WithoutBreaks(rest));
    if scheme == "" {
      NilRight(tail);
      NoScheme(tail);
      PathComputed(tail, kept, kept, path + WithoutBreaks(rest), path);
    } else {
      Assoc(scheme, ":", tail);
      SchemeNamed(scheme, tail);
      SchemeKept(scheme, tail);
      SchemeCut(scheme, tail);
      SchemeCut(scheme, kept);
      PathComputed(scheme + (":" + tail), scheme + (":" + kept), kept, path + WithoutBreaks(rest), path);
    }
  }

  lemma RestKept(rest: string)
    requires AfterPath(rest)
    ensures AfterPath(WithoutBreaks(rest))
  {
  }

  lemma NoScheme(tail: string)
    requires "//" <= tail
    ensures SchemeOf(tail) == "" && Run(AtMostSpace, tail) == 0 && tail[0..] == tail
  {
    assert tail[0] == "//"[0] == '/';
    KeepsPrefix("//", tail[2..]);
    assert tail == "//" + tail[2..];
    assert WithoutBreaks(tail)[0] == "//"[0];
  }

  // ---------------------------------------------------------------- which way a request goes

  /** A request line and fields that may be written. */
  predicate Writable(verb: string, target: string, version: string, fields: seq<Field>) {
    && ' ' !in verb && ' ' !in target && ' ' !in version
    && OneLine(verb) && OneLine(target) && OneLine(version) && PROTOCOL <= version
    && forall f | f in fields :: GoodField(f)
  }

  lemma HeadDiverts(head: Head, fields: seq<Field>, path: string, rest: string)
    requires head.target == path + rest && PlainPath(path) && AfterPath(rest)
    requires UPGRADE in head.headers <==> ValuesIn(fields, UPGRADE) != []
    requires UPGRADE in head.headers ==> head.headers[UPGRADE] == Join(", ", ValuesIn(fields, UPGRADE))
    ensures PlainHttpMcp(Some(head)) <==> path == "/mcp" && !AsksUpgrade(fields)
  {
    PathReads(path, rest);
    UpgradeRead(fields, Join(", ", ValuesIn(fields, UPGRADE)));
  }

  /** A request leaves the WebSocket library exactly if its path is `/mcp` and no `Upgrade` of it, in any
      case, mentions WebSocket. */
  lemma DivertedExactly(verb: string, path: string, rest: string, version: string, fields: seq<Field>)
    requires Writable(verb, path + rest, version, fields) && PlainPath(path) && AfterPath(rest)
    ensures PlainHttpMcp(ReadHead(PrintedHead(verb, path + rest, version, fields)))
            <==> path == "/mcp" && !AsksUpgrade(fields)
  {
    WrittenHeadReads(verb, path + rest, version, fields);
    HeadDiverts(ReadHead(PrintedHead(verb, path + rest, version, fields)).value, fields, path, rest);
  }

  // ---------------------------------------------------------------- where the head ends

  lemma {:induction false} EndAfter(a: string, t: string)
    requires OneLine(a) && FindEnd(t) >= 0
    ensures FindEnd(a + t) == |a| + FindEnd(t)
  {
    if a == "" {
      NilRight(t);
    } else {
      assert a[0] in a && forall c | c in a[1..] :: c in a;
      assert (a + t)[0] == a[0] && (a + t)[1..] == a[1..] + t;
      EndAfter(a[1..], t);
    }
  }

  lemma EndAfterBreak(line: string, t: string)
    requires line != "" && OneLine(line) && FindEnd(line + t) >= 0
    ensures FindEnd("\r\n" + (line + t)) == 2 + FindEnd(line + t)
  {
    var u := line + t;
    var s := "\r\n" + u;
    assert line[0] in line && u[0] == line[0];
    assert s[0] == '\r' && s[1] == '\n' && s[2] == u[0] && s[1..] == "\n" + u && ("\n" + u)[1..] == u;
  }

  const BLANK_LINE: string := "\r\n\r\n"

  lemma EndHere(rest: string)
    ensures FindEnd(BLANK_LINE + rest) == 0
  {
    var s := BLANK_LINE + rest;
    assert s[0] == '\r' && s[1] == '\n' && s[2] == '\r' && s[3] == '\n';
  }

  lemma {:induction false} EndAfterLines(lines: seq<string>, rest: string)
    requires lines != [] && forall l | l in lines :: l != "" && OneLine(l)
    ensures FindEnd(Join("\r\n", lines) + (BLANK_LINE + rest)) == |Join("\r\n", lines)|
    decreases |lines|
  {
    var t := BLANK_LINE + rest;
    assert lines[0] in lines;
    EndHere(rest);
    if |lines| == 1 {
      EndAfter(lines[0], t);
    } else {
      assert lines[1] in lines && forall l | l in lines[1..] :: l in lines;
      var more := Join("\r\n", lines[1..]);
      EndAfterLines(lines[1..], rest);
      EndAfterMore(lines[1..], t);
      EndAfter(lines[0], "\r\n" + (more + t));
      Assoc(lines[0], "\r\n", more);
      Assoc(lines[0], "\r\n" + more, t);
      Assoc("\r\n", more, t);
    }
  }

  lemma EndAfterMore(lines: seq<string>, t: string)
    requires lines != [] && lines[0] != "" && OneLine(lines[0]) && FindEnd(Join("\r\n", lines) + t) >= 0
    ensures FindEnd("\r\n" + (Join("\r\n", lines) + t)) == 2 + FindEnd(Join("\r\n", lines) + t)
  {
    if |lines| == 1 {
      EndAfterBreak(lines[0], t);
    } else {
      var more := "\r\n" + Join("\r\n", lines[1..]);
      Assoc(lines[0], "\r\n", Join("\r\n", lines[1..]));
      Assoc(lines[0], more, t);
      EndAfterBreak(lines[0], more + t);
    }
  }

  lemma RequestLineIsLine(verb: string, target: string, version: string, fields: seq<Field>)
    requires Writable(verb, target, version, fields)
    ensures RequestLine(verb, target, version) != "" && OneLine(RequestLine(verb, target, version))
    ensures forall l | l in FieldLines(fields) :: l != "" && OneLine(l)
  {
    RequestLineReads(verb, target, version);
    assert [verb, target, version][1..] == [target, version];
    FieldLinesRead(fields);
  }

  /** A written head with a blank line after it ends there, whatever follows. */
  lemma HeadParts(verb: string, target: string, version: string, fields: seq<Field>, rest: string)
    requires Writable(verb, target, version, fields)
    ensures var head := PrintedHead(verb, target, version, fields);
      FindEnd(head + (BLANK_LINE + rest)) == |head| && Parts(head + (BLANK_LINE + rest)) == Some((head, rest))
  {
    var lines := [RequestLine(verb, target, version)] + FieldLines(fields);
    var head := PrintedHead(verb, target, version, fields);
    var all := head + (BLANK_LINE + rest);
    RequestLineIsLine(verb, target, version, fields);
    EndAfterLines(lines, rest);
    assert all[..|head|] == head && all[|head|..] == BLANK_LINE + rest;
    assert all[|head| + 4..] == all[|head|..][4..] == rest;
  }

  // ---------------------------------------------------------------- how long the body is

  const LENGTH: string := "content-length"

  lemma {:induction false} NoSuchValues(fields: seq<Field>, name: string)
    requires LowerWord(name) && forall f | f in fields :: !Named(f, name)
    ensures ValuesIn(fields, name) == []
  {
    if fields != [] {
      assert fields[0] in fields && forall f | f in fields[1..] :: f in fields;
      LowerIs(Strip(fields[0].name), name);
      NoSuchValues(fields[1..], name);
    }
  }

  lemma ValuesMore(f: Field, fields: seq<Field>, name: string)
    requires LowerWord(name)
    ensures ValuesIn([f] + fields, name) == (if Named(f, name) then [Strip(f.value)] else []) + ValuesIn(fields, name)
  {
    ConsParts(f, fields);
    LowerIs(Strip(f.name), name);
  }

  lemma {:induction false} OneSuchValue(before: seq<Field>, f: Field, after: seq<Field>, name: string)
    requires LowerWord(name) && Named(f, name)
    requires (forall g | g in before :: !Named(g, name)) && (forall g | g in after :: !Named(g, name))
    ensures ValuesIn(before + ([f] + after), name) == [Strip(f.value)]
  {
    if before == [] {
      NilRight([f] + after);
      ValuesMore(f, after, name);
      NoSuchValues(after, name);
    } else {
      assert before[0] in before && forall g | g in before[1..] :: g in before;
      ConsTail(before);
      Assoc([before[0]], before[1..], [f] + after);
      ValuesMore(before[0], before[1..] + ([f] + after), name);
      OneSuchValue(before[1..], f, after, name);
      NilRight([Strip(f.value)]);
    }
  }

  lemma {:induction false} DigitsRead(s: string)
    requires s != "" && forall c | c in s :: IsDigit(c)
    ensures Digits(s) == Some(s)
  {
    assert s[0] in s;
    if |s| > 1 {
      assert s[1] in s && forall c | c in s[1..] :: c in s;
      DigitsRead(s[1..]);
      ConsTail(s);
    }
  }

  lemma {:induction false} NatTextShort(n: nat, k: nat)
    requires k >= 1 && n < Tenfold(k)
    ensures |NatText(n)| <= k
  {
    assert Tenfold(1) == 10 * Tenfold(0);
    if n >= 10 {
      NatTextShort(n / 10, k - 1);
    }
  }

  function Tenfold(k: nat): nat { if k == 0 then 1 else 10 * Tenfold(k - 1) }

  lemma IntReads(n: nat)
    requires |NatText(n)| <= MAX_STR_DIGITS
    ensures IntOf(NatText(n)) == Some(n)
  {
    var t := NatText(n);
    assert t[0] in t && t[|t| - 1] in t;
    StripFixes(t);
    DigitsRead(t);
    NatTextValue(n);
  }

  lemma SignedStays(t: string)
    requires t != "" && forall c | c in t :: IsDigit(c)
    ensures Strip(['-'] + t) == ['-'] + t && (['-'] + t)[0] == '-' && (['-'] + t)[1..] == t
  {
    var u := ['-'] + t;
    assert t[|t| - 1] in t && u[|u| - 1] == t[|t| - 1];
    StripFixes(u);
  }

  lemma IntOfSigned(u: string)
    requires u != "" && u[0] == '-' && Strip(u) == u
    requires Digits(u[1..]) == Some(u[1..]) && |u[1..]| <= MAX_STR_DIGITS
    ensures (forall c | c in u[1..] :: IsDigit(c)) && IntOf(u) == Some(0 - NatValue(u[1..]) as int)
  {
    DigitsAreDigits(u[1..]);
  }

  lemma NegativeOf(t: string, n: int)
    requires t != "" && (forall c | c in t :: IsDigit(c)) && |t| <= MAX_STR_DIGITS && NatValue(t) == n
    ensures IntOf(['-'] + t) == Some(-n)
  {
    SignedStays(t);
    DigitsRead(t);
    IntOfSigned(['-'] + t);
  }

  lemma NegativeReads(n: int)
    requires n >= 0 && |NatText(n)| <= MAX_STR_DIGITS
    ensures IntOf(['-'] + NatText(n)) == Some(-n)
  {
    NatTextValue(n);
    NegativeOf(NatText(n), n);
  }

  /** Nothing but digits, underscores, a sign in front and blanks around makes a length. */
  lemma {:induction false} NoDigits(s: string, c: char)
    requires c in s && !IsDigit(c) && c != '_'
    ensures Digits(s) == None
  {
    if |s| > 1 && IsDigit(s[0]) {
      ConsTail(s);
      ConsTail(s[1..]);
      assert s[1..][1..] == s[2..];
      NoDigits(if s[1] == '_' then s[2..] else s[1..], c);
    }
  }

  /** What becomes of a request whose head gives this length, when `rest` has arrived after it. */
  function Outcome(head: Head, length: Option<int>, rest: string): Request {
    match length
    case None => Answered(400)
    case Some(n) =>
      if n < 0 then Answered(400)
      else if n > 50 * 1024 * 1024 then Answered(413)
      else if |rest| < n then Waiting(head, rest)
      else Dispatched(head, rest[..n])
  }

  /** The length some fields give: none of them, one that is a numeral, or one that is not. */
  ghost predicate LengthIs(fields: seq<Field>, length: Option<int>) {
    || (length == Some(0) && forall f | f in fields :: !Named(f, LENGTH))
    || (exists before, f, after :: fields == before + ([f] + after) && OneLength(before, f, after)
                                   && Spells(Strip(f.value), length))
  }

  predicate OneLength(before: seq<Field>, f: Field, after: seq<Field>) {
    && Named(f, LENGTH)
    && (forall g | g in before :: !Named(g, LENGTH)) && (forall g | g in after :: !Named(g, LENGTH))
  }

  /** No sign in front, no digit and no underscore. */
  predicate Foreign(value: string, i: int) {
    0 <= i < |value| && !IsDigit(value[i]) && value[i] != '_' && (i == 0 ==> value[0] != '+' && value[0] != '-')
  }

  /** A numeral of at most 4300 digits, or a text that is none. */
  ghost predicate Spells(value: string, length: Option<int>) {
    match length
    case None => value == "" || exists i :: Foreign(value, i)
    case Some(n) =>
      |NatText(if n < 0 then -n else n)| <= 4300 && value == if n < 0 then ['-'] + NatText(-n) else NatText(n)
  }

  lemma SpelledLength(value: string, length: Option<int>)
    requires Spells(value, length) && Strip(value) == value
    ensures IntOf(value) == length
  {
    match length
    case Some(n) => if n < 0 { NegativeReads(-n); } else { IntReads(n); }
    case None =>
      if value != "" {
        var i :| Foreign(value, i);
        NoDigits(value, value[i]);
        if value[0] == '+' || value[0] == '-' {
          assert value[1..][i - 1] == value[i];
          NoDigits(value[1..], value[i]);
        }
      }
  }

  lemma OneValueRead(before: seq<Field>, f: Field, after: seq<Field>, name: string, length: Option<int>)
    requires LowerWord(name) && Named(f, name) && Spells(Strip(f.value), length)
    requires (forall g | g in before :: !Named(g, name)) && (forall g | g in after :: !Named(g, name))
    ensures ValuesIn(before + ([f] + after), name) != []
    ensures IntOf(Join(", ", ValuesIn(before + ([f] + after), name))) == length
  {
    OneSuchValue(before, f, after, name);
    StripTwice(f.value);
    SpelledLength(Strip(f.value), length);
  }

  lemma GivenLength(head: Head, joined: string, length: Option<int>)
    requires LENGTH in head.headers && head.headers[LENGTH] == joined && IntOf(joined) == length
    ensures ContentLength(head) == if length.Some? then length.value else -1
  {
  }

  lemma OneLengthRead(before: seq<Field>, f: Field, after: seq<Field>, length: Option<int>)
    requires OneLength(before, f, after) && Spells(Strip(f.value), length)
    ensures ValuesIn(before + ([f] + after), LENGTH) != []
    ensures IntOf(Join(", ", ValuesIn(before + ([f] + after), LENGTH))) == length
  {
    assert LowerWord(LENGTH);
    OneValueRead(before, f, after, LENGTH, length);
  }

  lemma NoLengthRead(head: Head, fields: seq<Field>)
    requires forall f | f in fields :: !Named(f, LENGTH)
    requires ValuesIn(fields, LENGTH) == [] ==> LENGTH !in head.headers
    ensures ContentLength(head) == 0
  {
    assert LowerWord(LENGTH);
    NoSuchValues(fields, LENGTH);
  }

  lemma LengthRead(head: Head, fields: seq<Field>, length: Option<int>)
    requires LengthIs(fields, length)
    requires LENGTH in head.headers <==> ValuesIn(fields, LENGTH) != []
    requires LENGTH in head.headers ==> head.headers[LENGTH] == Join(", ", ValuesIn(fields, LENGTH))
    ensures ContentLength(head) == if length.Some? then length.value else -1
  {
    if length == Some(0) && forall f | f in fields :: !Named(f, LENGTH) {
      NoLengthRead(head, fields);
    } else {
      var before, f, after :| fields == before + ([f] + after) && OneLength(before, f, after)
                              && Spells(Strip(f.value), length);
      OneLengthRead(before, f, after, length);
      GivenLength(head, Join(", ", ValuesIn(fields, LENGTH)), length);
    }
  }

  lemma {:induction false} EndsClean(s: string)
    ensures RStrip(s) != "" ==> !IsSpace(RStrip(s)[|RStrip(s)| - 1]) && RStrip(s)[0] == s[0]
  {
    if s != "" && IsSpace(s[|s| - 1]) {
      EndsClean(s[..|s| - 1]);
    }
  }

  lemma StripTwice(s: string)
    ensures Strip(Strip(s)) == Strip(s)
  {
    EndsClean(LStrip(s));
    if Strip(s) != "" {
      StripFixes(Strip(s));
    }
  }

  lemma HeadBecomes(head: Head, length: Option<int>, rest: string)
    requires ContentLength(head) == if length.Some? then length.value else -1
    ensures AfterHead(Some(head), rest) == Outcome(head, length, rest)
  {
  }

  /** A written request comes to what its length says: refused, waited for, or dispatched with exactly
      as many bytes of what follows the head. */
  lemma RequestBecomes(verb: string, target: string, version: string, fields: seq<Field>, length: Option<int>,
                       rest: string)
    requires Writable(verb, target, version, fields) && LengthIs(fields, length)
    ensures
      var head := PrintedHead(verb, target, version, fields);
      ReadHead(head).Some? && OneShot(head + (BLANK_LINE + rest)) == Outcome(ReadHead(head).value, length, rest)
  {
    var head := PrintedHead(verb, target, version, fields);
    WrittenHeadReads(verb, target, version, fields);
    HeadParts(verb, target, version, fields, rest);
    LengthRead(ReadHead(head).value, fields, length);
    HeadBecomes(ReadHead(head).value, length, rest);
  }

  lemma HeadArrives(head: string, read: Head, length: Option<int>, rest: string, pieces: seq<string>)
    requires Concat(pieces) == head + (BLANK_LINE + rest) && |head| + 3 <= HEAD_LIMIT
    requires FindEnd(head + (BLANK_LINE + rest)) == |head| && ReadHead(head) == Some(read)
    requires AfterHead(Some(read), rest) == Outcome(read, length, rest)
    ensures ReceiveAll(FRESH, pieces) ==
      if PlainHttpMcp(Some(read)) then Http(Outcome(read, length, rest)) else Library(Concat(pieces))
  {
    var all := head + (BLANK_LINE + rest);
    assert all[..|head|] == head && all[|head|..] == BLANK_LINE + rest && all[|head| + 4..] == all[|head|..][4..];
    AnyPieces(pieces);
    RouteDecides(all, |head|, Some(read), rest);
  }

  /** However it is cut, a written request whose head fits takes the way its path and its fields say:
      to our own HTTP, which makes of it what its length says, or with every byte to the library. */
  lemma RequestArrives(verb: string, path: string, after: string, version: string, fields: seq<Field>,
                       length: Option<int>, rest: string, pieces: seq<string>, head: string)
    requires Writable(verb, path + after, version, fields) && PlainPath(path) && AfterPath(after)
    requires LengthIs(fields, length) && head == PrintedHead(verb, path + after, version, fields)
    requires Concat(pieces) == head + (BLANK_LINE + rest) && |head| + 3 <= HEAD_LIMIT
    ensures ReadHead(head).Some?
    ensures ReceiveAll(FRESH, pieces) ==
      if path == "/mcp" && !AsksUpgrade(fields) then Http(Outcome(ReadHead(head).value, length, rest))
      else Library(Concat(pieces))
  {
    WrittenHeadReads(verb, path + after, version, fields);
    var read := ReadHead(head).value;
    HeadParts(verb, path + after, version, fields, rest);
    LengthRead(read, fields, length);
    HeadBecomes(read, length, rest);
    HeadDiverts(read, fields, path, after);
    HeadArrives(head, read, length, rest, pieces);
  }

  /** So a body of up to 50 MiB that is announced is handed over whole, and nothing after it. */
  lemma BodyArrives(verb: string, after: string, version: string, before: seq<Field>, f: Field, more: seq<Field>,
                    body: string, extra: string, pieces: seq<string>, head: string)
    requires Writable(verb, "/mcp" + after, version, before + ([f] + more)) && AfterPath(after)
    requires OneLength(before, f, more) && Strip(f.value) == NatText(|body|) && |body| <= 50 * 1024 * 1024
    requires !AsksUpgrade(before + ([f] + more))
    requires head == PrintedHead(verb, "/mcp" + after, version, before + ([f] + more))
    requires Concat(pieces) == head + (BLANK_LINE + (body + extra)) && |head| + 3 <= HEAD_LIMIT
    ensures ReadHead(head).Some? && ReceiveAll(FRESH, pieces) == Http(Dispatched(ReadHead(head).value, body))
  {
    var fields, n := before + ([f] + more), |body|;
    EightDigits(n);
    assert fields == before + ([f] + more) && OneLength(before, f, more) && Spells(Strip(f.value), Some(n));
    assert (body + extra)[..n] == body;
    McpIsPlain();
    RequestArrives(verb, "/mcp", after, version, fields, Some(n), body + extra, pieces, head);
  }

  lemma McpIsPlain()
    ensures PlainPath("/mcp")
  {
    var path := "/mcp";
    assert path[0] == '/' && path[1] == 'm' && path[2] == 'c' && path[3] == 'p';
    assert path[..2][1] == 'm';
  }

  lemma EightDigits(n: nat)
    requires n <= MAX_BODY_BYTES
    ensures |NatText(n)| <= MAX_STR_DIGITS
  {
    assert Tenfold(2) == 100 && Tenfold(4) == 10_000 && Tenfold(6) == 1_000_000;
    NatTextShort(n, 8);
  }
}
