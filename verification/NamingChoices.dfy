/** Names and addresses, spelled out (`naming.py`). */
module NamingChoices {
  import opened Wrappers
  import opened Text
  import opened Utf8
  import opened Naming

  // ---- server names ----

  predicate Plain(c: char) { 'a' <= c <= 'z' || 'A' <= c <= 'Z' || '0' <= c <= '9' }

  /** A letter or digit, and letters, digits, underscores and hyphens after it. */
  predicate Slug(word: string) {
    word != "" && Plain(word[0]) && forall c | c in word :: Plain(c) || c == '_' || c == '-'
  }

  lemma SlugIsIdentifier(word: string)
    ensures Slug(word) <==> Identifier(word)
  {
  }

  const DOUBLE: string := "__"

  lemma SeparatorFound(t: string)
    ensures FindSeparator(t) >= 0 <==> Occurs(DOUBLE, t)
  {
    var k := FindSeparator(t);
    if k >= 0 {
      assert t[k..k + 2] == DOUBLE;
      assert OccursAt(DOUBLE, t, k);
    }
    if i :| OccursAt(DOUBLE, t, i) {
      CharsAt(DOUBLE, t, i, 0);
      CharsAt(DOUBLE, t, i, 1);
    }
  }

  /** A server may be called what is no longer than thirty-two characters, no double underscore and not the
      gateway's own name, and is a slug: or a slug and a newline. */
  lemma ValidExactly(name: string)
    ensures ValidServer(name) <==>
      && |name| <= 32 && !Occurs(DOUBLE, name) && name != "gateway"
      && (Slug(name) || exists word :: Slug(word) && name == word + "\n")
  {
    SeparatorFound(name);
    SlugIsIdentifier(name);
    SlugIsIdentifier(BeforeDollar(name));
    DollarExactly(name);
  }

  lemma DollarExactly(name: string)
    ensures Slug(BeforeDollar(name)) <==> Slug(name) || exists word :: Slug(word) && name == word + "\n"
  {
    if BeforeDollar(name) != name {
      assert name == BeforeDollar(name) + "\n";
      assert name[|name| - 1] in name;
    }
    if word :| Slug(word) && name == word + "\n" {
      assert BeforeDollar(name) == word;
    }
  }

  // ---- what is quoted ----

  /** What an address may hold as it is. */
  predicate Safe(c: char) { Plain(c) || c == '_' || c == '.' || c == '-' || c == '~' }

  lemma QuoteByteIs(b: byte)
    ensures |QuoteByte(b)| == if Safe(b as char) then 1 else 3
    ensures forall c | c in QuoteByte(b) :: Safe(c) || c == '%'
    ensures Safe(b as char) ==> QuoteByte(b) == [b as char]
  {
  }

  lemma {:induction false} QuoteBytesAre(b: seq<byte>)
    ensures forall c | c in QuoteBytes(b) :: Safe(c) || c == '%'
    ensures |QuoteBytes(b)| >= |b|
    ensures |QuoteBytes(b)| == |b| ==> forall x | x in b :: Safe(x as char)
  {
    if b != [] {
      QuoteByteIs(b[0]);
      QuoteBytesAre(b[1..]);
      ConsTail(b);
    }
  }

  lemma {:induction false} SafeStays(s: string, b: seq<byte>)
    requires |b| == |s| && forall i | 0 <= i < |s| :: b[i] == s[i] as int && Safe(s[i])
    ensures QuoteBytes(b) == s
  {
    if s != "" {
      QuoteByteIs(b[0]);
      SafeStays(s[1..], b[1..]);
      ConsTail(s);
    }
  }

  lemma {:induction false} EncodeGrows(s: string)
    ensures |Encode(s)| >= |s|
  {
    if s != "" {
      EncodeGrows(s[1..]);
    }
  }

  lemma SafeIsKept(s: string)
    requires forall c | c in s :: Safe(c)
    ensures Quote(s) == s
  {
    assert forall c | c in s :: c as int < 0x80;
    AsciiEncodes(s);
    SafeStays(s, Encode(s));
  }

  lemma KeptIsSafe(s: string)
    requires Quote(s) == s
    ensures forall c | c in s :: Safe(c)
  {
    QuoteBytesAre(Encode(s));
    assert forall c | c in s :: c as int < 0x80;
    AsciiEncodes(s);
    forall c | c in s ensures Safe(c) {
      var i :| 0 <= i < |s| && s[i] == c;
      assert Encode(s)[i] in Encode(s);
    }
  }

  /** A text is quoted to letters, digits, `_.-~` and percent signs, and stays as it is exactly if it holds
      nothing but the first. */
  lemma QuoteExactly(s: string)
    ensures forall c | c in Quote(s) :: Safe(c) || c == '%'
    ensures Quote(s) == s <==> forall c | c in s :: Safe(c)
  {
    QuoteBytesAre(Encode(s));
    if forall c | c in s :: Safe(c) {
      SafeIsKept(s);
    }
    if Quote(s) == s {
      KeptIsSafe(s);
    }
  }

  // ---- templates ----

  /** A text without an opening brace, and an expression without braces that follows it. */
  datatype Part = Part(text: string, expression: string)

  predicate GoodPart(p: Part) { '{' !in p.text && forall c | c in p.expression :: NotBrace(c) }

  function InBraces(e: string): string { ['{'] + (e + ['}']) }

  function Written(parts: seq<Part>, last: string): string {
    if parts == [] then last
    else parts[0].text + (InBraces(parts[0].expression) + Written(parts[1..], last))
  }

  /** The address path: the texts quoted, the expressions as they are. */
  function PublishedBy(quote: string -> string, parts: seq<Part>, last: string): string {
    if parts == [] then quote(last)
    else quote(parts[0].text) + (InBraces(parts[0].expression) + PublishedBy(quote, parts[1..], last))
  }

  /** A finder passes over what is no opening brace, and takes an expression where it stands. */
  ghost predicate Passes(find: Finder) {
    forall s | s != "" && s[0] != '{' ::
      find(s) == match find(s[1..]) case None => None case Some((i, j)) => Some((i + 1, j + 1))
  }

  ghost predicate Takes(find: Finder) {
    && find("") == None
    && forall e, rest | (forall c | c in e :: NotBrace(c)) :: find(InBraces(e) + rest) == Some((0, |e| + 2))
  }

  lemma ExpressionHere(e: string, rest: string)
    requires forall c | c in e :: NotBrace(c)
    ensures FirstExpression(InBraces(e) + rest) == Some((0, |e| + 2))
  {
    var u := InBraces(e) + rest;
    assert u == ['{'] + (e + (['}'] + rest));
    ConsParts('{', e + (['}'] + rest));
    RunStops(NotBrace, e, ['}'] + rest);
    assert u[|e| + 1] == '}';
  }

  lemma PassesOver(s: string)
    requires s != "" && s[0] != '{'
    ensures FirstExpression(s) ==
      match FirstExpression(s[1..]) case None => None case Some((i, j)) => Some((i + 1, j + 1))
  {
  }

  lemma ExpressionsAreFound()
    ensures Passes(FirstExpression) && Takes(FirstExpression)
  {
    forall s | s != "" && s[0] != '{'
      ensures FirstExpression(s) ==
        match FirstExpression(s[1..]) case None => None case Some((i, j)) => Some((i + 1, j + 1))
    {
      PassesOver(s);
    }
    forall e, rest | (forall c | c in e :: NotBrace(c))
      ensures FirstExpression(InBraces(e) + rest) == Some((0, |e| + 2))
    {
      ExpressionHere(e, rest);
    }
  }

  lemma {:induction false} FoundAfter(find: Finder, text: string, u: string, n: nat)
    requires Passes(find) && '{' !in text && find(u) == Some((0, n))
    ensures find(text + u) == Some((|text|, |text| + n))
  {
    if text == "" {
      NilRight(u);
    } else {
      assert text[0] in text && forall c | c in text[1..] :: c in text;
      assert (text + u)[0] == text[0] && (text + u)[1..] == text[1..] + u;
      FoundAfter(find, text[1..], u, n);
    }
  }

  lemma {:induction false} NothingFound(find: Finder, text: string)
    requires Passes(find) && Takes(find) && '{' !in text
    ensures find(text) == None
  {
    if text != "" {
      assert text[0] in text && forall c | c in text[1..] :: c in text;
      NothingFound(find, text[1..]);
    }
  }

  lemma CutAt(a: string, b: string, c: string)
    ensures (a + (b + c))[..|a|] == a && (a + (b + c))[|a|..|a| + |b|] == b && (a + (b + c))[|a| + |b|..] == c
  {
  }

  lemma PathCut(find: Finder, quote: string -> string, u: string, i: nat, j: nat, a: string, b: string, c: string)
    requires find(u) == Some((i, j)) && i < j <= |u| && a == u[..i] && b == u[i..j] && c == u[j..]
    ensures PathBy(find, quote, u) == quote(a) + (b + PathBy(find, quote, c))
  {
  }

  lemma PathAround(find: Finder, quote: string -> string, text: string, e: string, rest: string)
    requires Passes(find) && Takes(find) && '{' !in text && forall c | c in e :: NotBrace(c)
    ensures PathBy(find, quote, text + (InBraces(e) + rest)) == quote(text) + (InBraces(e) + PathBy(find, quote, rest))
  {
    var kept := InBraces(e);
    FoundAfter(find, text, kept + rest, |kept|);
    CutAt(text, kept, rest);
    PathCut(find, quote, text + (kept + rest), |text|, |text| + |kept|, text, kept, rest);
  }

  lemma {:induction false} KeptBy(find: Finder, quote: string -> string, parts: seq<Part>, last: string)
    requires Passes(find) && Takes(find) && (forall p | p in parts :: GoodPart(p)) && '{' !in last
    ensures PathBy(find, quote, Written(parts, last)) == PublishedBy(quote, parts, last)
  {
    if parts == [] {
      NothingFound(find, last);
    } else {
      assert parts[0] in parts && forall p | p in parts[1..] :: p in parts;
      KeptBy(find, quote, parts[1..], last);
      PathAround(find, quote, parts[0].text, parts[0].expression, Written(parts[1..], last));
    }
  }

  /** A template keeps each of its expressions as the backend wrote it; all the rest is quoted. */
  lemma TemplatesAreKept(parts: seq<Part>, last: string)
    requires (forall p | p in parts :: GoodPart(p)) && '{' !in last
    ensures EncodedPath(Written(parts, last)) == PublishedBy(Quote, parts, last)
  {
    ExpressionsAreFound();
    KeptBy(FirstExpression, Quote, parts, last);
  }

  // ---- addresses ----

  const SCHEME: string := "mcpgw"

  lemma {:induction false} LowerAt(s: string)
    ensures |Lower(s)| == |s|
    ensures forall i | 0 <= i < |s| :: Lower(s)[i] == if 'A' <= s[i] <= 'Z' then s[i] + ' ' else s[i]
  {
    if s != "" {
      LowerAt(s[1..]);
    }
  }

  lemma LowerIs(s: string, w: string)
    requires forall c | c in w :: 'a' <= c <= 'z'
    ensures Lower(s) == w <==> SameUpToCase(s, w)
  {
    var low := Lower(s);
    LowerAt(s);
    assert low == w <==> |low| == |w| && forall i | 0 <= i < |w| :: low[i] == w[i];
    if |s| == |w| {
      forall i | 0 <= i < |w| ensures low[i] == w[i] <==> SameLetter(s[i], w[i]) {
        assert w[i] in w;
      }
    }
  }

  lemma SchemeLetters(scheme: string)
    requires SameUpToCase(scheme, SCHEME)
    ensures |scheme| == 5 && forall c | c in scheme :: IsLetter(c)
  {
    assert forall i | 0 <= i < 5 :: 'a' <= SCHEME[i] <= 'z';
    assert forall i | 0 <= i < |scheme| :: SameLetter(scheme[i], SCHEME[i]);
  }

  /** Ours, in any case, and a text after the slashes. */
  lemma SchemeRead(scheme: string, rest: string)
    requires SameUpToCase(scheme, SCHEME)
    ensures SchemeOf(scheme + ("://" + rest)) == RESOURCE_SCHEME
  {
    SchemeLetters(scheme);
    assert ("://" + rest)[0] == ':';
    LettersRead(scheme, "://" + rest);
    LowerIs(scheme, SCHEME);
  }

  /** What a scheme may be: a letter, and letters, digits, plus, minus and dot after it. */
  predicate SchemeName(name: string) {
    name != "" && ('a' <= name[0] <= 'z' || 'A' <= name[0] <= 'Z')
    && forall c | c in name :: Plain(c) || c == '+' || c == '-' || c == '.'
  }

  lemma NameRead(name: string, more: string)
    requires name != "" && ':' !in name && more != "" && more[0] == ':'
    ensures Run(NotColon, name + more) == |name| && (name + more)[..|name|] == name
  {
    assert forall c | c in name :: NotColon(c);
    RunStops(NotColon, name, more);
  }

  lemma AllSchemeChars(name: string)
    ensures SchemeName(name) <==> name != "" && IsLetter(name[0]) && Run(SchemeChar, name) == |name|
  {
    if SchemeName(name) {
      assert forall c | c in name :: SchemeChar(c);
      RunStops(SchemeChar, name, "");
      NilRight(name);
    }
  }

  lemma {:induction false} SpacesSkipped(blanks: string, s: string)
    requires (forall c | c in blanks :: c <= ' ') && s != "" && s[0] > ' '
    ensures (blanks + s)[Run(AtMostSpace, blanks + s)..] == s
  {
    assert forall c | c in blanks :: AtMostSpace(c);
    RunStops(AtMostSpace, blanks, s);
  }

  /** What stands before the first colon is the scheme, in small letters, if it may be one, and there is none
      otherwise; blanks in front do not count. */
  lemma SchemeExactly(blanks: string, name: string, rest: string)
    requires (forall c | c in blanks :: c <= ' ') && name != "" && name[0] > ' ' && ':' !in name
    requires forall c | c in name :: c != '\t' && c != '\r' && c != '\n'
    ensures SchemeOf(blanks + (name + (":" + rest))) == if SchemeName(name) then Lower(name) else ""
  {
    var s, more := name + (":" + rest), WithoutBreaks(":" + rest);
    assert s[0] == name[0];
    SpacesSkipped(blanks, s);
    KeepsPrefix(name, ":" + rest);
    KeepsPrefix(":", rest);
    assert more[0] == ':';
    NameRead(name, more);
    AllSchemeChars(name);
    assert (name + more)[0] == name[0];
  }

  /** Tabs and line breaks anywhere in an address do not count either. */
  lemma {:induction false} BreaksDoNotCount(a: string, c: char, b: string)
    requires a != "" && a[0] > ' ' && (c == '\t' || c == '\r' || c == '\n')
    ensures SchemeOf(a + ([c] + b)) == SchemeOf(a + b)
  {
    BreakGone(a, c, b);
    assert (a + ([c] + b))[0] == a[0] && (a + b)[0] == a[0];
    SpacesSkipped("", a + ([c] + b));
    SpacesSkipped("", a + b);
    NilRight(a + ([c] + b));
    NilRight(a + b);
  }

  lemma {:induction false} BreakGone(a: string, c: char, b: string)
    requires c == '\t' || c == '\r' || c == '\n'
    ensures WithoutBreaks(a + ([c] + b)) == WithoutBreaks(a + b)
  {
    if a == "" {
      NilRight([c] + b);
      NilRight(b);
      ConsParts(c, b);
    } else {
      assert (a + ([c] + b))[1..] == a[1..] + ([c] + b) && (a + b)[1..] == a[1..] + b;
      BreakGone(a[1..], c, b);
    }
  }

  lemma RestRead(scheme: string, rest: string, public: string)
    requires SameUpToCase(scheme, SCHEME) && public == scheme + ("://" + rest)
    ensures SchemeOf(public) == RESOURCE_SCHEME && |public| >= 8 && public[8..] == rest
  {
    SchemeRead(scheme, rest);
    Assoc(scheme, "://", rest);
    assert (scheme + "://" + rest)[|scheme + "://"|..] == rest;
  }

  lemma ServerRead(server: string, end: string)
    requires '/' !in server && (end == "" || end[0] == '/')
    ensures Run(NotSlash, server + end) == |server| && (server + end)[..|server|] == server
  {
    assert forall c | c in server :: NotSlash(c);
    RunStops(NotSlash, server, end);
  }

  lemma PathAfter(server: string, path: string)
    ensures (server + (['/'] + path))[|server| + 1..] == path
  {
  }

  lemma LocatedRead(public: string, rest: string, k: nat)
    requires SchemeOf(public) == RESOURCE_SCHEME && |public| >= 8 && public[8..] == rest
    requires 0 < k == Run(NotSlash, rest) < |rest|
    ensures DecodeResourceUri(public) == Ok((rest[..k], Unquote(rest[k + 1..])))
  {
  }

  /** An address of the gateway, in capitals or not, names what stands between the slashes and, unquoted, what
      follows ... */
  lemma AddressReads(scheme: string, server: string, path: string)
    requires SameUpToCase(scheme, SCHEME) && '/' !in server && server != ""
    ensures DecodeResourceUri(scheme + ("://" + (server + (['/'] + path)))) == Ok((server, Unquote(path)))
  {
    var rest := server + (['/'] + path);
    RestRead(scheme, rest, scheme + ("://" + rest));
    ServerRead(server, ['/'] + path);
    PathAfter(server, path);
    LocatedRead(scheme + ("://" + rest), rest, |server|);
  }

  /** ... with nothing before the slash it names no backend ... */
  lemma NoBackendRead(scheme: string, rest: string)
    requires SameUpToCase(scheme, SCHEME) && (rest == "" || rest[0] == '/')
    ensures DecodeResourceUri(scheme + ("://" + rest)) == Err(NoBackend)
  {
    RestRead(scheme, rest, scheme + ("://" + rest));
  }

  /** ... and without the slash no resource. */
  lemma NoResourceRead(scheme: string, server: string)
    requires SameUpToCase(scheme, SCHEME) && '/' !in server && server != ""
    ensures DecodeResourceUri(scheme + ("://" + server)) == Err(NoResource)
  {
    RestRead(scheme, server, scheme + ("://" + server));
    ServerRead(server, "");
    NilRight(server);
  }

  lemma {:induction false} StaysWhole(s: string)
    requires forall c | c in s :: c > ' '
    ensures WithoutBreaks(s) == s
  {
    KeepsPrefix(s, "");
    NilRight(s);
  }

  lemma SchemeOfWhole(public: string)
    requires forall c | c in public :: c > ' '
    ensures SchemeOf(public) != "" ==>
      var k := Run(NotColon, public); k < |public| && SchemeOf(public) == Lower(public[..k])
  {
    assert public != "" ==> public[0] in public;
    assert Run(AtMostSpace, public) == 0 && public[0..] == public;
    StaysWhole(public);
  }

  /** Any other text without blanks and breaks is no address of the gateway. */
  lemma OtherSchemes(public: string)
    requires forall c | c in public :: c > ' '
    requires !(|public| > 5 && SameUpToCase(public[..5], SCHEME) && public[5] == ':')
    ensures DecodeResourceUri(public) == Err(WrongScheme)
  {
    SchemeOfWhole(public);
    var k := Run(NotColon, public);
    LowerIs(public[..k], SCHEME);
    assert RESOURCE_SCHEME == SCHEME && |SCHEME| == 5;
  }
}
