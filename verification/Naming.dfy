/** `naming.py`: public names, and resource URIs in the gateway's own address space. */
module Naming {
  import opened Wrappers
  import opened Text
  import opened Utf8

  const SEPARATOR := "__"
  const RESOURCE_SCHEME := "mcpgw"
  const SERVER_NAME_MAX := 32

  datatype NamingError =
    | EmptyName | TooLong | HasSeparator | BadCharacters | ReservedName
    | NotNamespaced | WrongScheme | NoBackend | NoResource

  datatype Outcome<+T> = Ok(value: T) | Err(error: NamingError)

  // ---- server names ----

  predicate NameStart(c: char) { IsLetter(c) || IsDigit(c) }

  predicate NameChar(c: char) { NameStart(c) || c == '_' || c == '-' }

  /** The text `$` anchors to: without one final newline. */
  function BeforeDollar(t: string): string {
    if t != "" && t[|t| - 1] == '\n' then t[..|t| - 1] else t
  }

  predicate Identifier(t: string) { t != "" && NameStart(t[0]) && forall c | c in t :: NameChar(c) }

  /** `sep in t`, by the first place it stands. */
  function FindSeparator(t: string): (k: int)
    ensures -1 <= k && (k >= 0 ==> k + 2 <= |t| && t[k] == '_' && t[k + 1] == '_')
    ensures forall i | 0 <= i < (if k < 0 then |t| - 1 else k) :: !(t[i] == '_' && t[i + 1] == '_')
  {
    if |t| < 2 then -1
    else if t[0] == '_' && t[1] == '_' then 0
    else
      var k := FindSeparator(t[1..]);
      assert forall i | 0 <= i < |t| - 1 :: t[1..][i] == t[i + 1];
      if k < 0 then -1 else k + 1
  }

  /** `validate_server_name`, its checks in order. */
  function ValidateServerName(name: string): Outcome<()> {
    if name == "" then Err(EmptyName)
    else if |name| > SERVER_NAME_MAX then Err(TooLong)
    else if FindSeparator(name) >= 0 then Err(HasSeparator)
    else if !Identifier(BeforeDollar(name)) then Err(BadCharacters)
    else if name == "gateway" then Err(ReservedName)
    else Ok(())
  }

  predicate ValidServer(name: string) { ValidateServerName(name).Ok? }

  lemma ValidServerShape(name: string)
    requires ValidServer(name)
    ensures name != "" && '/' !in name && FindSeparator(name) < 0
  {
    forall c | c in name ensures c != '/' {
      var i :| 0 <= i < |name| && name[i] == c;
      assert c == '\n' || (BeforeDollar(name)[i] == c && c in BeforeDollar(name));
    }
  }

  // ---- public names ----

  function Compose(server: string, name: string): string { server + SEPARATOR + name }

  /** `split`, which cuts at the first separator. */
  function SplitName(public: string): Outcome<(string, string)> {
    var k := FindSeparator(public);
    if k < 0 || k == 0 || k + 2 == |public| then Err(NotNamespaced)
    else Ok((public[..k], public[k + 2..]))
  }

  /** What `split` needs of a server name, beyond what `validate_server_name` asks. */
  predicate Routable(server: string) { FindSeparator(server) < 0 && (server != "" ==> server[|server| - 1] != '_') }

  /** Where the first separator of a composed name is. */
  lemma ComposedSeparator(server: string, name: string)
    ensures FindSeparator(Compose(server, name)) == |server| <==> Routable(server)
    ensures 0 <= FindSeparator(Compose(server, name)) <= |server|
  {
    var p, n := Compose(server, name), |server|;
    var k := FindSeparator(p);
    assert p[n] == '_' && p[n + 1] == '_';
    assert forall i | 0 <= i < n :: p[i] == server[i];
    var j := FindSeparator(server);
  }

  /** A public name splits back into what it was composed of exactly when the server's name is routable. */
  lemma SplitCompose(server: string, name: string)
    requires server != "" && name != ""
    ensures SplitName(Compose(server, name)) == Ok((server, name)) <==> Routable(server)
  {
    ComposedSeparator(server, name);
    var p, n := Compose(server, name), |server|;
    var k := FindSeparator(p);
    if k == n {
      assert p[..n] == server && p[n + 2..] == name;
    } else if SplitName(p).Ok? {
      assert |SplitName(p).value.0| == k;
    }
  }

  /** Whatever splits, composes back: no public name is routed to two spellings. */
  lemma ComposeSplit(public: string)
    requires SplitName(public).Ok?
    ensures Compose(SplitName(public).value.0, SplitName(public).value.1) == public
    ensures SplitName(public).value.0 != "" && SplitName(public).value.1 != ""
  {
  }

  /** A valid name that ends in an underscore is not routable, and shares public names with another server. */
  lemma TrailingUnderscoreMisroutes()
    ensures ValidServer("a_") && ValidServer("a") && Compose("a_", "b") == Compose("a", "_b")
    ensures SplitName(Compose("a_", "b")) == Ok(("a", "_b"))
  {
    assert Compose("a_", "b") == "a___b" == Compose("a", "_b");
    assert BeforeDollar("a_") == "a_";
    SplitCompose("a", "_b");
    assert FindSeparator("a") < 0;
  }

  // ---- percent-encoding ----

  predicate Unreserved(b: byte) {
    var c := b as char;
    IsLetter(c) || IsDigit(c) || c == '_' || c == '.' || c == '-' || c == '~'
  }

  function HexUpper(n: nat): char
    requires n < 16
  {
    if n < 10 then '0' + n as char else 'A' + (n - 10) as char
  }

  function HexOf(b: byte): int {
    if '0' as int <= b <= '9' as int then b - '0' as int
    else if 'a' as int <= b <= 'f' as int then b - 'a' as int + 10
    else if 'A' as int <= b <= 'F' as int then b - 'A' as int + 10
    else -1
  }

  function QuoteByte(b: byte): string {
    if Unreserved(b) then [b as char] else ['%', HexUpper(b / 16), HexUpper(b % 16)]
  }

  function QuoteBytes(b: seq<byte>): string {
    if b == [] then "" else QuoteByte(b[0]) + QuoteBytes(b[1..])
  }

  /** `quote(s, safe="")`. */
  function Quote(s: string): string { QuoteBytes(Encode(s)) }

  /** `%hh` at the head of these bytes. */
  predicate EscapeAt(b: seq<byte>) { |b| >= 3 && b[0] == '%' as int && HexOf(b[1]) >= 0 && HexOf(b[2]) >= 0 }

  function UnquoteBytes(b: seq<byte>): seq<byte>
    decreases |b|
  {
    if b == [] then []
    else if EscapeAt(b) then [16 * HexOf(b[1]) + HexOf(b[2])] + UnquoteBytes(b[3..])
    else [b[0]] + UnquoteBytes(b[1..])
  }

  /** `unquote(s)`. A literal non-ASCII character begins with a lead byte and so joins no escape next to it. */
  function Unquote(s: string): string { Decode(UnquoteBytes(Encode(s))) }

  // ---- templates ----

  predicate NotBrace(c: char) { c != '{' && c != '}' }

  /** How long the `{...}` with no brace inside is that `u` begins with; 0 if there is none. */
  function ExpressionAt(u: string): (k: nat)
    ensures k > 0 ==> Braced(u, 0, k)
  {
    if u == "" || u[0] != '{' then 0
    else
      var k := 1 + Run(NotBrace, u[1..]);
      if k < |u| && u[k] == '}' then k + 1 else 0
  }

  predicate Braced(u: string, i: nat, j: nat) { i + 2 <= j <= |u| && u[i] == '{' && u[j - 1] == '}' }

  lemma BracedLater(u: string, i: nat, j: nat)
    requires u != "" && Braced(u[1..], i, j)
    ensures Braced(u, i + 1, j + 1)
  {
  }

  lemma BracedEnds(u: string, i: nat, j: nat)
    requires Braced(u, i, j)
    ensures u[i..j] != "" && u[i..j][j - i - 1] == '}'
  {
  }

  /** Where the first such expression starts and ends. */
  function FirstExpression(u: string): (r: Option<(nat, nat)>)
    ensures r.Some? ==> Braced(u, r.value.0, r.value.1)
  {
    if u == "" then None
    else if ExpressionAt(u) > 0 then Some((0, ExpressionAt(u)))
    else match FirstExpression(u[1..])
      case None => None
      case Some((i, j)) => BracedLater(u, i, j); Some((i + 1, j + 1))
  }

  type Finder = string -> Option<(nat, nat)>

  /** Where the first stretch that is to be left as it is starts and ends. */
  function Found(find: Finder, u: string): (r: Option<(nat, nat)>)
    ensures r.Some? ==> r.value.0 < r.value.1 <= |u|
  {
    if find(u).Some? && find(u).value.0 < find(u).value.1 <= |u| then find(u) else None
  }

  /** Everything quoted but what is found. */
  function PathBy(find: Finder, quote: string -> string, u: string): string
    decreases |u|
  {
    match Found(find, u)
    case None => quote(u)
    case Some((i, j)) => quote(u[..i]) + (u[i..j] + PathBy(find, quote, u[j..]))
  }

  /** The path of the public URI: everything quoted but the template expressions. */
  function EncodedPath(u: string): string { PathBy(FirstExpression, Quote, u) }

  function EncodeResourceUri(server: string, uri: string): string {
    RESOURCE_SCHEME + "://" + (server + ("/" + EncodedPath(uri)))
  }

  lemma PathAtExpression(u: string)
    ensures FirstExpression(u).None? ==> EncodedPath(u) == Quote(u)
    ensures FirstExpression(u).Some? ==>
      var m := FirstExpression(u).value;
      EncodedPath(u) == Quote(u[..m.0]) + (u[m.0..m.1] + EncodedPath(u[m.1..]))
  {
  }

  /** What `finditer` yields from `pos` on, by where each match starts and ends. */
  function Spans(find: Finder, u: string, pos: nat): seq<(nat, nat)>
    requires pos <= |u|
    decreases |u| - pos
  {
    match Found(find, u[pos..])
    case None => []
    case Some((i, j)) => [(pos + i, pos + j)] + Spans(find, u, pos + j)
  }

  predicate InOrder(u: string, pos: nat, spans: seq<(nat, nat)>)
    decreases |spans|
  {
    if spans == [] then pos <= |u|
    else pos <= spans[0].0 <= spans[0].1 <= |u| && InOrder(u, spans[0].1, spans[1..])
  }

  /** The text from `pos` on, quoted but for these stretches. */
  function Written(quote: string -> string, u: string, pos: nat, spans: seq<(nat, nat)>): string
    requires InOrder(u, pos, spans)
    decreases |spans|
  {
    if spans == [] then quote(u[pos..])
    else quote(u[pos..spans[0].0]) + (u[spans[0].0..spans[0].1] + Written(quote, u, spans[0].1, spans[1..]))
  }

  predicate ArePath(quote: string -> string, u: string, pos: nat, spans: seq<(nat, nat)>, path: string) {
    InOrder(u, pos, spans) && Written(quote, u, pos, spans) == path
  }

  lemma OneSpanMore(quote: string -> string, u: string, pos: nat, i: nat, j: nat, rest: seq<(nat, nat)>, path: string,
                    spans: seq<(nat, nat)>, whole: string)
    requires pos <= i <= j <= |u| && ArePath(quote, u, j, rest, path)
    requires spans == [(i, j)] + rest && whole == quote(u[pos..i]) + (u[i..j] + path)
    ensures ArePath(quote, u, pos, spans, whole)
  {
  }

  lemma PathFrom(find: Finder, quote: string -> string, u: string, pos: nat, i: nat, j: nat, path: string)
    requires pos <= |u| && Found(find, u[pos..]) == Some((i, j)) && path == PathBy(find, quote, u[pos + j..])
    ensures PathBy(find, quote, u[pos..]) == quote(u[pos..pos + i]) + (u[pos + i..pos + j] + path)
  {
    assert u[pos..][..i] == u[pos..pos + i] && u[pos..][i..j] == u[pos + i..pos + j];
    assert u[pos..][j..] == u[pos + j..];
  }

  lemma SpansFrom(find: Finder, u: string, pos: nat, i: nat, j: nat, rest: seq<(nat, nat)>)
    requires pos <= |u| && Found(find, u[pos..]) == Some((i, j)) && rest == Spans(find, u, pos + j)
    ensures Spans(find, u, pos) == [(pos + i, pos + j)] + rest
  {
  }

  lemma PathStep(find: Finder, quote: string -> string, u: string, pos: nat, i: nat, j: nat,
                 rest: seq<(nat, nat)>, path: string)
    requires pos <= |u| && Found(find, u[pos..]) == Some((i, j))
    requires rest == Spans(find, u, pos + j) && path == PathBy(find, quote, u[pos + j..])
    requires ArePath(quote, u, pos + j, rest, path)
    ensures ArePath(quote, u, pos, Spans(find, u, pos), PathBy(find, quote, u[pos..]))
  {
    SpansFrom(find, u, pos, i, j, rest);
    PathFrom(find, quote, u, pos, i, j, path);
    OneSpanMore(quote, u, pos, pos + i, pos + j, rest, path, Spans(find, u, pos), PathBy(find, quote, u[pos..]));
  }

  /** Writing what is found one by one is the recursive path. */
  lemma {:induction false} SpansArePath(find: Finder, quote: string -> string, u: string, pos: nat)
    requires pos <= |u|
    ensures ArePath(quote, u, pos, Spans(find, u, pos), PathBy(find, quote, u[pos..]))
    decreases |u| - pos
  {
    match Found(find, u[pos..])
    case None =>
    case Some((i, j)) =>
      SpansArePath(find, quote, u, pos + j);
      PathStep(find, quote, u, pos, i, j, Spans(find, u, pos + j), PathBy(find, quote, u[pos + j..]));
  }

  lemma TwoMore(out: string, a: string, b: string, rest: string)
    ensures out + (a + (b + rest)) == ((out + a) + b) + rest
  {
    Assoc(out, a, b + rest);
    Assoc(out + a, b, rest);
  }

  /** The loop of `encode_resource_uri`, over the matches left to right. */
  method EncodeUriLoop(server: string, uri: string) returns (r: string)
    ensures r == EncodeResourceUri(server, uri)
  {
    var out, pos, left := "", 0, Spans(FirstExpression, uri, 0);
    SpansArePath(FirstExpression, Quote, uri, 0);
    assert uri[0..] == uri;
    ghost var path := EncodedPath(uri);
    NilRight(path);
    while left != []
      invariant pos <= |uri| && InOrder(uri, pos, left)
      invariant out + Written(Quote, uri, pos, left) == path
      decreases |left|
    {
      var (i, j) := left[0];
      TwoMore(out, Quote(uri[pos..i]), uri[i..j], Written(Quote, uri, j, left[1..]));
      out := out + Quote(uri[pos..i]);
      out := out + uri[i..j];
      pos, left := j, left[1..];
    }
    out := out + Quote(uri[pos..]);
    r := RESOURCE_SCHEME + "://" + (server + ("/" + out));
  }

  // ---- decoding ----

  predicate NotSlash(c: char) { c != '/' }

  predicate SchemeChar(c: char) { IsLetter(c) || IsDigit(c) || c == '+' || c == '-' || c == '.' }

  predicate AtMostSpace(c: char) { c <= ' ' }

  function WithoutBreaks(s: string): string {
    if s == "" then ""
    else if s[0] == '\t' || s[0] == '\r' || s[0] == '\n' then WithoutBreaks(s[1..])
    else [s[0]] + WithoutBreaks(s[1..])
  }

  function Lower(s: string): string {
    if s == "" then "" else [if 'A' <= s[0] <= 'Z' then s[0] + ' ' else s[0]] + Lower(s[1..])
  }

  /** `urlsplit(url).scheme`. */
  function SchemeOf(url: string): string {
    var u := WithoutBreaks(url[Run(AtMostSpace, url)..]);
    var k := Run(NotColon, u);
    if 0 < k < |u| && IsLetter(u[0]) && Run(SchemeChar, u[..k]) == k then Lower(u[..k]) else ""
  }

  function DecodeResourceUri(public: string): Outcome<(string, string)> {
    var skip := |RESOURCE_SCHEME| + 3;
    if SchemeOf(public) != RESOURCE_SCHEME then Err(WrongScheme)
    else
      var rest := if skip <= |public| then public[skip..] else "";
      var k := Run(NotSlash, rest);
      if k == 0 then Err(NoBackend)
      else if k == |rest| then Err(NoResource)
      else Ok((rest[..k], Unquote(rest[k + 1..])))
  }

  lemma OurScheme(rest: string)
    ensures SchemeOf(RESOURCE_SCHEME + "://" + rest) == RESOURCE_SCHEME
  {
    var tail := "://" + rest;
    Assoc(RESOURCE_SCHEME, "://", rest);
    SchemeBefore(RESOURCE_SCHEME, tail);
  }

  /** A lower-case scheme at the start of a text, up to its colon. */
  lemma SchemeBefore(scheme: string, tail: string)
    requires scheme != "" && tail != "" && tail[0] == ':' && forall c | c in scheme :: 'a' <= c <= 'z'
    ensures SchemeOf(scheme + tail) == scheme
  {
    LettersRead(scheme, tail);
    LowerKeeps(scheme);
  }

  lemma {:induction false} KeepsPrefix(a: string, b: string)
    requires forall c | c in a :: c != '\t' && c != '\r' && c != '\n'
    ensures WithoutBreaks(a + b) == a + WithoutBreaks(b)
  {
    if a == "" {
      NilRight(b);
      NilRight(WithoutBreaks(b));
    } else {
      assert (a + b)[1..] == a[1..] + b;
      assert forall c | c in a[1..] :: c in a;
      assert a[0] in a;
      KeepsPrefix(a[1..], b);
      ConsTail(a);
      Assoc([a[0]], a[1..], WithoutBreaks(b));
    }
  }

  lemma {:induction false} LowerKeeps(s: string)
    requires forall c | c in s :: !('A' <= c <= 'Z')
    ensures Lower(s) == s
  {
    if s != "" {
      assert forall c | c in s[1..] :: c in s;
      assert s[0] in s;
      LowerKeeps(s[1..]);
      ConsTail(s);
    }
  }

  /** A scheme of letters at the start of a text, up to its colon. */
  lemma LettersRead(scheme: string, tail: string)
    requires scheme != "" && (forall c | c in scheme :: IsLetter(c)) && tail != "" && tail[0] == ':'
    ensures SchemeOf(scheme + tail) == Lower(scheme)
  {
    var url, more := scheme + tail, WithoutBreaks(tail);
    assert scheme[0] in scheme && url[0] == scheme[0] && Run(AtMostSpace, url) == 0 && url[0..] == url;
    KeepsPrefix(scheme, tail);
    assert more[0] == ':';
    RunStops(NotColon, scheme, more);
    assert (scheme + more)[..|scheme|] == scheme && (scheme + more)[0] == scheme[0];
    RunStops(SchemeChar, scheme, "");
    NilRight(scheme);
  }

  /** An address decodes to its own server, and to the unquoted path. */
  lemma DecodesTo(server: string, path: string)
    requires server != "" && '/' !in server
    ensures DecodeResourceUri(RESOURCE_SCHEME + "://" + (server + ("/" + path))) == Ok((server, Unquote(path)))
  {
    var rest := server + ("/" + path);
    var public := RESOURCE_SCHEME + "://" + rest;
    OurScheme(rest);
    assert public[8..] == rest;
    RunStops(NotSlash, server, "/" + path);
    assert rest[..|server|] == server && rest[|server| + 1..] == path;
  }

  lemma DecodesToPath(server: string, uri: string)
    requires server != "" && '/' !in server
    ensures DecodeResourceUri(EncodeResourceUri(server, uri)) == Ok((server, Unquote(EncodedPath(uri))))
  {
    DecodesTo(server, EncodedPath(uri));
  }

  // ---- the path: what unquoting undoes ----

  lemma {:induction false} AsciiEncodes(s: string)
    requires forall c | c in s :: c as int < 0x80
    ensures |Encode(s)| == |s| && forall i | 0 <= i < |s| :: Encode(s)[i] == s[i] as int
  {
    if s != "" {
      assert forall c | c in s[1..] :: c in s;
      assert s[0] in s;
      AsciiEncodes(s[1..]);
    }
  }

  lemma HexRoundTrip(n: nat)
    requires n < 16
    ensures HexOf(HexUpper(n) as int) == n
  {
  }

  lemma QuotedByteUnquotes(b: byte, rest: seq<byte>)
    ensures UnquoteBytes(Encode(QuoteByte(b)) + rest) == [b] + UnquoteBytes(rest)
  {
    var q := QuoteByte(b);
    AsciiEncodes(q);
    var t := Encode(q) + rest;
    assert t[0] == q[0] as int && t[|q|..] == rest;
    if !Unreserved(b) {
      HexRoundTrip(b / 16);
      HexRoundTrip(b % 16);
      assert t[1] == q[1] as int && t[2] == q[2] as int;
    }
  }

  lemma {:induction false} QuotedBytesUnquote(b: seq<byte>, rest: seq<byte>)
    ensures UnquoteBytes(Encode(QuoteBytes(b)) + rest) == b + UnquoteBytes(rest)
  {
    if b == [] {
      NilRight(rest);
      NilRight(UnquoteBytes(rest));
    } else {
      var q, more := QuoteByte(b[0]), QuoteBytes(b[1..]);
      EncodeConcat(q, more);
      Assoc(Encode(q), Encode(more), rest);
      QuotedBytesUnquote(b[1..], rest);
      QuotedByteUnquotes(b[0], Encode(more) + rest);
      ConsTail(b);
      Assoc([b[0]], b[1..], UnquoteBytes(rest));
    }
  }

  /** A `%` with two hexadecimal digits after it. */
  ghost predicate HasEscape(e: string) { exists i :: EscapeIn(e, i) }

  ghost predicate EscapeIn(e: string, i: int) {
    0 <= i && i + 2 < |e| && e[i] == '%' && IsHex(e[i + 1]) && IsHex(e[i + 2])
  }

  predicate IsHex(c: char) { IsDigit(c) || 'a' <= c <= 'f' || 'A' <= c <= 'F' }

  lemma HexIsHex(c: char)
    ensures c as int < 256 ==> (IsHex(c) <==> HexOf(c as int) >= 0)
    ensures IsHex(c) ==> EncodeChar(c) == [c as int]
    ensures HexOf(EncodeChar(c)[0]) >= 0 ==> IsHex(c)
  {
  }

  lemma AsciiFirst(e: string, rest: seq<byte>)
    requires e != ""
    ensures Encode(e) != [] && (Encode(e) + rest)[0] == EncodeChar(e[0])[0]
    ensures e[0] as int < 0x80 ==> Encode(e) + rest == [e[0] as int] + (Encode(e[1..]) + rest)
  {
    Assoc(EncodeChar(e[0]), Encode(e[1..]), rest);
  }

  lemma ThreeParts(a: byte, b: byte, c: byte, rest: seq<byte>)
    ensures var t := [a] + ([b] + ([c] + rest)); t[1] == b && t[2] == c && t[3..] == rest
  {
  }

  /** Whether the bytes of `e` begin with an escape is settled by its first three characters. */
  lemma EscapeAtHead(e: string, rest: seq<byte>)
    requires e != "" && e[|e| - 1] == '}'
    ensures EscapeAt(Encode(e) + rest) <==> EscapeIn(e, 0)
    ensures EscapeIn(e, 0) ==> |e| > 3 && (Encode(e) + rest)[3..] == Encode(e[3..]) + rest
    ensures EscapeIn(e, 0) ==> (Encode(e) + rest)[1] == e[1] as int && (Encode(e) + rest)[2] == e[2] as int
  {
    AsciiFirst(e, rest);
    if e[0] == '%' {
      assert |e| > 1;
      var e1 := e[1..];
      var t1 := Encode(e1) + rest;
      AsciiFirst(e1, rest);
      HexIsHex(e[1]);
      if IsHex(e[1]) {
        assert |e| > 2;
        var e2 := e1[1..];
        var t2 := Encode(e2) + rest;
        AsciiFirst(e2, rest);
        HexIsHex(e[2]);
        assert e2[0] == e[2] && e2[1..] == e[3..];
        if IsHex(e[2]) {
          ThreeParts(0x25, e[1] as int, e[2] as int, Encode(e[3..]) + rest);
        }
      }
    }
  }

  /** A character whose encoding begins no escape is passed through. */
  lemma PassesThrough(c: char, rest: seq<byte>)
    requires !EscapeAt(EncodeChar(c) + rest)
    ensures UnquoteBytes(EncodeChar(c) + rest) == EncodeChar(c) + UnquoteBytes(rest)
  {
    HighBytesPass(EncodeChar(c), rest);
  }

  lemma {:induction false} HighBytesPass(b: seq<byte>, rest: seq<byte>)
    requires !EscapeAt(b + rest) && (|b| > 1 ==> forall i | 0 <= i < |b| :: b[i] >= 0x80)
    ensures UnquoteBytes(b + rest) == b + UnquoteBytes(rest)
    decreases |b|
  {
    if b == [] {
      NilRight(rest);
      NilRight(UnquoteBytes(rest));
    } else {
      assert (b + rest)[1..] == b[1..] + rest;
      if |b| > 1 {
        assert (b[1..] + rest)[0] == b[1] >= 0x80;
        HighBytesPass(b[1..], rest);
      } else {
        assert b[1..] + rest == rest;
        NilRight(UnquoteBytes(rest));
        assert b == [b[0]];
      }
      ConsTail(b);
      Assoc([b[0]], b[1..], UnquoteBytes(rest));
    }
  }

  /** What is left of a template expression by unquoting, by characters. */
  function ExpressionBytes(e: string): seq<byte>
    requires e != "" && e[|e| - 1] == '}'
    decreases |e|
  {
    if |e| == 1 then Encode(e)
    else if |e| > 3 && e[0] == '%' && IsHex(e[1]) && IsHex(e[2]) then
      HexIsHex(e[1]);
      HexIsHex(e[2]);
      [16 * HexOf(e[1] as int) + HexOf(e[2] as int)] + ExpressionBytes(e[3..])
    else EncodeChar(e[0]) + ExpressionBytes(e[1..])
  }

  lemma UnquotesEscape(e: string, rest: seq<byte>, tail: seq<byte>, read: seq<byte>)
    requires e != "" && e[|e| - 1] == '}' && EscapeIn(e, 0) && |e| > 3
    requires tail == Encode(e[3..]) + rest && UnquoteBytes(tail) == read
    ensures HexOf(e[1] as int) >= 0 && HexOf(e[2] as int) >= 0
    ensures UnquoteBytes(Encode(e) + rest) == [16 * HexOf(e[1] as int) + HexOf(e[2] as int)] + read
  {
    EscapeAtHead(e, rest);
    HexIsHex(e[1]);
    HexIsHex(e[2]);
  }

  lemma UnquotesChar(e: string, rest: seq<byte>, tail: seq<byte>, read: seq<byte>)
    requires e != "" && e[|e| - 1] == '}' && !EscapeIn(e, 0)
    requires tail == Encode(e[1..]) + rest && UnquoteBytes(tail) == read
    ensures UnquoteBytes(Encode(e) + rest) == EncodeChar(e[0]) + read
  {
    EscapeAtHead(e, rest);
    Assoc(EncodeChar(e[0]), Encode(e[1..]), rest);
    PassesThrough(e[0], tail);
  }

  lemma {:induction false} ExpressionUnquotes(e: string, rest: seq<byte>)
    requires e != "" && e[|e| - 1] == '}'
    ensures UnquoteBytes(Encode(e) + rest) == ExpressionBytes(e) + UnquoteBytes(rest)
    decreases |e|
  {
    var more := UnquoteBytes(rest);
    if EscapeIn(e, 0) {
      EscapeAtHead(e, rest);
      ExpressionUnquotes(e[3..], rest);
      UnquotesEscape(e, rest, Encode(e[3..]) + rest, ExpressionBytes(e[3..]) + more);
      Assoc([16 * HexOf(e[1] as int) + HexOf(e[2] as int)], ExpressionBytes(e[3..]), more);
    } else if |e| == 1 {
      NilRight(rest);
      NilRight(EncodeChar(e[0]));
      assert e[1..] == "";
      UnquotesChar(e, rest, rest, more);
    } else {
      ExpressionUnquotes(e[1..], rest);
      UnquotesChar(e, rest, Encode(e[1..]) + rest, ExpressionBytes(e[1..]) + more);
      Assoc(EncodeChar(e[0]), ExpressionBytes(e[1..]), more);
    }
  }

  lemma EscapeLater(e: string)
    requires e != "" && !EscapeIn(e, 0)
    ensures HasEscape(e) <==> HasEscape(e[1..])
  {
    if HasEscape(e) {
      var i :| EscapeIn(e, i);
      assert EscapeIn(e[1..], i - 1);
    }
    if HasEscape(e[1..]) {
      var i :| EscapeIn(e[1..], i);
      assert EscapeIn(e, i + 1);
    }
  }

  /** What these bytes read as: the text itself if it is plain, and otherwise something shorter. */
  predicate ReadsAs(bytes: seq<byte>, u: string, plain: bool) {
    if plain then Decode(bytes) == u else |Decode(bytes)| < |u|
  }

  lemma EscapeReads(x: byte, bytes: seq<byte>, e: string, plain: bool)
    requires |e| > 3 && ReadsAs(bytes, e[3..], plain)
    ensures ReadsAs([x] + bytes, e, false)
  {
    OneByteMore(x, bytes);
  }

  lemma CharReads(bytes: seq<byte>, e: string, plain: bool)
    requires e != "" && ReadsAs(bytes, e[1..], plain)
    ensures ReadsAs(EncodeChar(e[0]) + bytes, e, plain)
  {
    DecodeCons(e[0], bytes);
    ConsTail(e);
  }

  /** Unquoting an expression changes nothing without an escape, and shortens it with one. */
  lemma {:induction false} ExpressionReads(e: string)
    requires e != "" && e[|e| - 1] == '}'
    ensures ReadsAs(ExpressionBytes(e), e, !HasEscape(e))
    decreases |e|
  {
    if EscapeIn(e, 0) {
      assert HasEscape(e) && |e| > 3;
      ExpressionReads(e[3..]);
      HexIsHex(e[1]);
      HexIsHex(e[2]);
      EscapeReads(16 * HexOf(e[1] as int) + HexOf(e[2] as int), ExpressionBytes(e[3..]), e, !HasEscape(e[3..]));
    } else {
      EscapeLater(e);
      if |e| == 1 {
        DecodeEncode(e);
        assert !HasEscape(e[1..]);
      } else {
        ExpressionReads(e[1..]);
        CharReads(ExpressionBytes(e[1..]), e, !HasEscape(e[1..]));
      }
    }
  }

  /** No template expression of the URI holds a `%hh`. */
  ghost predicate PlainTemplates(u: string)
    decreases |u|
  {
    match FirstExpression(u)
    case None => true
    case Some((i, j)) => !HasEscape(u[i..j]) && PlainTemplates(u[j..])
  }

  /** The bytes an address's path unquotes to. */
  function PathBytes(u: string): seq<byte>
    decreases |u|
  {
    match FirstExpression(u)
    case None => Encode(u)
    case Some((i, j)) =>
      BracedEnds(u, i, j);
      Encode(u[..i]) + (ExpressionBytes(u[i..j]) + PathBytes(u[j..]))
  }

  lemma ExpressionStep(pre: string, e: string, tail: string)
    requires e != "" && e[|e| - 1] == '}'
    ensures UnquoteBytes(Encode(Quote(pre) + (e + tail)))
         == Encode(pre) + (ExpressionBytes(e) + UnquoteBytes(Encode(tail)))
  {
    EncodeConcat(Quote(pre), e + tail);
    EncodeConcat(e, tail);
    QuotedBytesUnquote(Encode(pre), Encode(e) + Encode(tail));
    ExpressionUnquotes(e, Encode(tail));
  }

  lemma UnquotesPieces(pre: string, e: string, path: string, bytes: seq<byte>, whole: string, all: seq<byte>)
    requires e != "" && e[|e| - 1] == '}' && UnquoteBytes(Encode(path)) == bytes
    requires whole == Quote(pre) + (e + path) && all == Encode(pre) + (ExpressionBytes(e) + bytes)
    ensures UnquoteBytes(Encode(whole)) == all
  {
    ExpressionStep(pre, e, path);
  }

  lemma PathBytesAt(u: string, i: nat, j: nat, bytes: seq<byte>)
    requires FirstExpression(u) == Some((i, j)) && bytes == PathBytes(u[j..])
    ensures u[i..j] != "" && u[i..j][j - i - 1] == '}'
    ensures PathBytes(u) == Encode(u[..i]) + (ExpressionBytes(u[i..j]) + bytes)
  {
    BracedEnds(u, i, j);
  }

  lemma UnquotesAtExpression(u: string, i: nat, j: nat, path: string, bytes: seq<byte>)
    requires FirstExpression(u) == Some((i, j))
    requires path == EncodedPath(u[j..]) && bytes == PathBytes(u[j..]) && UnquoteBytes(Encode(path)) == bytes
    ensures UnquoteBytes(Encode(EncodedPath(u))) == PathBytes(u)
  {
    PathAtExpression(u);
    PathBytesAt(u, i, j, bytes);
    UnquotesPieces(u[..i], u[i..j], path, bytes, EncodedPath(u), PathBytes(u));
  }

  lemma {:induction false} PathUnquotes(u: string)
    ensures UnquoteBytes(Encode(EncodedPath(u))) == PathBytes(u)
    decreases |u|
  {
    match FirstExpression(u)
    case None =>
      PathAtExpression(u);
      QuotedBytesUnquote(Encode(u), []);
      NilRight(Encode(Quote(u)));
      NilRight(Encode(u));
    case Some((i, j)) =>
      PathUnquotes(u[j..]);
      UnquotesAtExpression(u, i, j, EncodedPath(u[j..]), PathBytes(u[j..]));
  }

  lemma EncodeStartsClean(s: string, rest: seq<byte>)
    requires StartsClean(rest)
    ensures StartsClean(Encode(s) + rest)
  {
    if s == "" {
      NilRight(rest);
    } else {
      EncodeCharReads(s[0], []);
    }
  }

  lemma ExpressionStartsClean(e: string, rest: seq<byte>)
    requires |e| > 1 && e[0] == '{' && e[|e| - 1] == '}'
    ensures StartsClean(ExpressionBytes(e) + rest)
  {
    assert ExpressionBytes(e) == EncodeChar('{') + ExpressionBytes(e[1..]);
  }

  lemma PathStartsClean(u: string)
    ensures StartsClean(PathBytes(u))
  {
    match FirstExpression(u)
    case None =>
      EncodeStartsClean(u, []);
      NilRight(Encode(u));
    case Some((i, j)) =>
      BracedEnds(u, i, j);
      ExpressionStartsClean(u[i..j], PathBytes(u[j..]));
      EncodeStartsClean(u[..i], ExpressionBytes(u[i..j]) + PathBytes(u[j..]));
  }

  lemma DecodeStep(pre: string, e: seq<byte>, tail: seq<byte>)
    requires StartsClean(tail)
    ensures Decode(Encode(pre) + (e + tail)) == pre + (Decode(e) + Decode(tail))
  {
    DecodeAppend(pre, e + tail);
    Resynchronises(e, tail);
  }

  lemma Cut(u: string, i: nat, j: nat)
    requires i <= j <= |u|
    ensures u[..i] + (u[i..j] + u[j..]) == u
  {
  }

  lemma ReadsOn(pre: string, e: string, rest: string, bytes: seq<byte>, plain: bool)
    requires e != "" && e[|e| - 1] == '}' && StartsClean(bytes) && ReadsAs(bytes, rest, plain)
    ensures ReadsAs(Encode(pre) + (ExpressionBytes(e) + bytes), pre + (e + rest), !HasEscape(e) && plain)
  {
    ExpressionReads(e);
    DecodeStep(pre, ExpressionBytes(e), bytes);
    DecodeEncode(e);
  }

  lemma ReadsAtExpression(u: string, bytes: seq<byte>, plain: bool)
    requires FirstExpression(u).Some?
    requires bytes == PathBytes(u[FirstExpression(u).value.1..])
    requires plain == PlainTemplates(u[FirstExpression(u).value.1..])
    requires ReadsAs(bytes, u[FirstExpression(u).value.1..], plain)
    ensures ReadsAs(PathBytes(u), u, PlainTemplates(u))
  {
    var (i, j) := FirstExpression(u).value;
    BracedEnds(u, i, j);
    PathStartsClean(u[j..]);
    ReadsOn(u[..i], u[i..j], u[j..], bytes, plain);
    Cut(u, i, j);
  }

  lemma {:induction false} PathReads(u: string)
    ensures ReadsAs(PathBytes(u), u, PlainTemplates(u))
    decreases |u|
  {
    match FirstExpression(u)
    case None => DecodeEncode(u);
    case Some((i, j)) =>
      PathReads(u[j..]);
      ReadsAtExpression(u, PathBytes(u[j..]), PlainTemplates(u[j..]));
  }

  /**
   * An address gives back the server and the URI it was made from exactly when no template expression
   * holds a percent escape; otherwise what comes back is shorter than what went in.
   */
  lemma AddressRoundTrip(server: string, uri: string)
    requires server != "" && '/' !in server
    ensures DecodeResourceUri(EncodeResourceUri(server, uri)) == Ok((server, uri)) <==> PlainTemplates(uri)
    ensures DecodeResourceUri(EncodeResourceUri(server, uri)).Ok?
    ensures DecodeResourceUri(EncodeResourceUri(server, uri)).value.0 == server
  {
    DecodesToPath(server, uri);
    PathUnquotes(uri);
    PathReads(uri);
  }

  // ---- addresses tell resources apart, escapes or not ----

  lemma {:induction false} QuotedHasNoBrace(b: seq<byte>)
    ensures forall c | c in QuoteBytes(b) :: NotBrace(c)
  {
    if b != [] {
      QuotedHasNoBrace(b[1..]);
    }
  }

  lemma QuoteIsInjective(s: string, t: string)
    requires Quote(s) == Quote(t)
    ensures s == t
  {
    QuotedBytesUnquote(Encode(s), []);
    QuotedBytesUnquote(Encode(t), []);
    NilRight(Encode(s));
    NilRight(Encode(t));
    DecodeEncode(s);
    DecodeEncode(t);
  }

  predicate IsExpression(e: string) {
    |e| >= 2 && e[0] == '{' && e[|e| - 1] == '}' && forall c | c in e[1..|e| - 1] :: NotBrace(c)
  }

  lemma ExpressionIsOne(u: string)
    ensures ExpressionAt(u) > 0 ==> IsExpression(u[..ExpressionAt(u)])
  {
    if ExpressionAt(u) > 0 {
      var e, k := u[..ExpressionAt(u)], ExpressionAt(u) - 1;
      forall c | c in e[1..k] ensures NotBrace(c) {
        var i :| 1 <= i < k && e[i] == c;
        assert u[1..][i - 1] == c;
      }
    }
  }

  lemma Shifted(u: string, i: nat, j: nat)
    requires u != "" && i <= j < |u|
    ensures u[1..][i..j] == u[i + 1..j + 1]
  {
  }

  /** The first expression of `u`, as a text. */
  function FirstText(u: string): (e: string)
    requires FirstExpression(u).Some?
  {
    u[FirstExpression(u).value.0..FirstExpression(u).value.1]
  }

  lemma FirstTextLater(u: string)
    requires u != "" && ExpressionAt(u) == 0 && FirstExpression(u[1..]).Some?
    ensures FirstExpression(u).Some? && FirstText(u) == FirstText(u[1..])
  {
    var (i, j) := FirstExpression(u[1..]).value;
    Shifted(u, i, j);
  }

  lemma {:induction false} FirstIsExpression(u: string)
    ensures FirstExpression(u).Some? ==> IsExpression(FirstText(u))
  {
    if u != "" {
      ExpressionIsOne(u);
      if ExpressionAt(u) == 0 && FirstExpression(u[1..]).Some? {
        FirstIsExpression(u[1..]);
        FirstTextLater(u);
      }
    }
  }

  lemma SameHead(a: string, x: string, b: string, y: string)
    requires (forall c | c in a :: NotBrace(c)) && (forall c | c in b :: NotBrace(c))
    requires x != "" && !NotBrace(x[0]) && y != "" && !NotBrace(y[0])
    requires a + x == b + y
    ensures a == b && x == y
  {
    RunStops(NotBrace, a, x);
    RunStops(NotBrace, b, y);
    assert a == (a + x)[..|a|] && x == (a + x)[|a|..];
    assert b == (b + y)[..|b|] && y == (b + y)[|b|..];
  }

  /** An expression ends at its first closing brace. */
  lemma SameExpression(e: string, x: string, f: string, y: string)
    requires IsExpression(e) && IsExpression(f) && e + x == f + y
    ensures e == f && x == y
  {
    var a, b := e[1..|e| - 1], f[1..|f| - 1];
    assert e == ['{'] + (a + ['}']) && f == ['{'] + (b + ['}']);
    Assoc(['{'], a + ['}'], x);
    Assoc(['{'], b + ['}'], y);
    Assoc(a, ['}'], x);
    Assoc(b, ['}'], y);
    ConsParts('{', a + (['}'] + x));
    ConsParts('{', b + (['}'] + y));
    SameHead(a, ['}'] + x, b, ['}'] + y);
    ConsParts('}', x);
    ConsParts('}', y);
  }

  /** A path that begins with an expression begins with no other and is no quoted text. */
  lemma OneReading(a: string, e: string, x: string, b: string, f: string, y: string)
    requires IsExpression(e) && IsExpression(f) && Quote(a) + (e + x) == Quote(b) + (f + y)
    ensures a == b && e == f && x == y
  {
    QuotedHasNoBrace(Encode(a));
    QuotedHasNoBrace(Encode(b));
    SameHead(Quote(a), e + x, Quote(b), f + y);
    QuoteIsInjective(a, b);
    SameExpression(e, x, f, y);
  }

  lemma NoQuotedText(a: string, e: string, x: string, b: string)
    requires IsExpression(e)
    ensures Quote(a) + (e + x) != Quote(b)
  {
    QuotedHasNoBrace(Encode(b));
    assert (Quote(a) + (e + x))[|Quote(a)|] == '{' && '{' in Quote(a) + (e + x);
  }

  lemma {:induction false} PathsAreDistinct(u: string, v: string)
    requires EncodedPath(u) == EncodedPath(v)
    ensures u == v
    decreases |u|
  {
    PathAtExpression(u);
    PathAtExpression(v);
    FirstIsExpression(u);
    FirstIsExpression(v);
    match (FirstExpression(u), FirstExpression(v))
    case (None, None) => QuoteIsInjective(u, v);
    case (Some((i, j)), None) => NoQuotedText(u[..i], u[i..j], EncodedPath(u[j..]), v);
    case (None, Some((k, l))) => NoQuotedText(v[..k], v[k..l], EncodedPath(v[l..]), u);
    case (Some((i, j)), Some((k, l))) =>
      OneReading(u[..i], u[i..j], EncodedPath(u[j..]), v[..k], v[k..l], EncodedPath(v[l..]));
      PathsAreDistinct(u[j..], v[l..]);
      Cut(u, i, j);
      Cut(v, k, l);
  }

  lemma AddressEnds(server: string, uri: string)
    ensures EncodeResourceUri(server, uri)[|RESOURCE_SCHEME| + 3 + |server| + 1..] == EncodedPath(uri)
  {
    var head := RESOURCE_SCHEME + "://" + server + "/";
    assert EncodeResourceUri(server, uri) == head + EncodedPath(uri);
  }

  /** Distinct resources of valid servers never share an address, whether or not it gives them back. */
  lemma AddressesAreDistinct(s1: string, u1: string, s2: string, u2: string)
    requires ValidServer(s1) && ValidServer(s2)
    requires EncodeResourceUri(s1, u1) == EncodeResourceUri(s2, u2)
    ensures s1 == s2 && u1 == u2
  {
    ValidServerShape(s1);
    ValidServerShape(s2);
    AddressRoundTrip(s1, u1);
    AddressRoundTrip(s2, u2);
    AddressEnds(s1, u1);
    AddressEnds(s2, u2);
    PathsAreDistinct(u1, u2);
  }

  /** An address with an escape in an expression is not given back, though its server is. */
  lemma EscapedTemplateIsChanged()
    ensures !PlainTemplates("{%41}")
    ensures DecodeResourceUri(EncodeResourceUri("a", "{%41}")) != Ok(("a", "{%41}"))
  {
    var u := "{%41}";
    RunStops(NotBrace, "%41", "}");
    assert u[1..] == "%41" + "}";
    assert FirstExpression(u) == Some((0, 5)) && u[0..5] == u;
    assert EscapeIn(u, 1);
    AddressRoundTrip("a", u);
  }
}
