/** References to secrets in the configuration (`secrets.py`): `${NAME}` stands for a stored value, and
    `$${NAME}` for the text itself. */
module Interpolation {
  import opened Wrappers
  import opened Text

  // `${NAME}` is replaced from the store, `$${NAME}` stands for `${NAME}`.

  type Store = map<string, string>

  predicate NameStart(c: char) { IsLetter(c) || c == '_' }

  predicate NameChar(c: char) { IsLetter(c) || IsDigit(c) || c == '_' }

  /** How many name characters `s` starts with. */
  function NameLength(s: string): (n: nat)
    ensures n <= |s|
  {
    if s == "" || !NameChar(s[0]) then 0 else 1 + NameLength(s[1..])
  }

  lemma {:induction false} NameStops(name: string, s: string)
    requires forall c | c in name :: NameChar(c)
    requires s == "" || !NameChar(s[0])
    ensures NameLength(name + s) == |name|
  {
    if name == "" {
      NilRight(s);
    } else {
      assert (name + s)[1..] == name[1..] + s;
      NameStops(name[1..], s);
    }
  }

  lemma {:induction false} NameHolds(s: string)
    ensures forall i | 0 <= i < NameLength(s) :: NameChar(s[i])
  {
    if s != "" && NameChar(s[0]) {
      NameHolds(s[1..]);
      assert forall i | 0 < i < NameLength(s) :: s[i] == s[1..][i - 1];
    }
  }

  /** The name, if `s` starts with `{NAME}`. */
  function Braced(s: string): (name: Option<string>)
    ensures name.Some? ==> |name.value| >= 1 && |s| >= |name.value| + 2
  {
    if |s| < 3 || s[0] != '{' || !NameStart(s[1]) then None
    else
      var n := NameLength(s[1..]);
      if n + 1 < |s| && s[n + 1] == '}' then Some(s[1..n + 1]) else None
  }

  function Braces(name: string, rest: string): string {
    ['{'] + (name + (['}'] + rest))
  }

  datatype Token = Plain(c: char) | Reference(name: string) | Escaped(name: string)

  datatype Match = Match(token: Token, length: nat)

  /** The reference pattern, tried at the head of `s`: the optional second `$` is greedy. */
  function MatchAt(s: string): (m: Option<Match>)
    ensures m.Some? ==> 0 < m.value.length <= |s| && !m.value.token.Plain?
  {
    if |s| < 2 || s[0] != '$' then None
    else if s[1] == '$' && Braced(s[2..]).Some? then
      Some(Match(Escaped(Braced(s[2..]).value), |Braced(s[2..]).value| + 4))
    else if Braced(s[1..]).Some? then
      Some(Match(Reference(Braced(s[1..]).value), |Braced(s[1..]).value| + 3))
    else None
  }

  /** A pattern tried at the head of a text. */
  ghost predicate Sound(p: string -> Option<Match>) {
    forall s :: p(s).Some? ==> 0 < p(s).value.length <= |s| && !p(s).value.token.Plain?
  }

  function Nowhere(s: string): Option<Match> {
    None
  }

  type Pattern = p: string -> Option<Match> | Sound(p) witness Nowhere

  const REFERENCE: Pattern := MatchAt

  /** The reference reading: one pass over the template, before any value is known. */
  function TokensBy(p: Pattern, s: string): seq<Token>
    decreases |s|
  {
    if s == "" then []
    else
      match p(s)
      case Some(m) => [m.token] + TokensBy(p, s[m.length..])
      case None => [Plain(s[0])] + TokensBy(p, s[1..])
  }

  function Tokens(s: string): seq<Token> {
    TokensBy(REFERENCE, s)
  }

  function Shown(token: Token, store: Store): string {
    match token
    case Plain(c) => [c]
    case Escaped(name) => ['$'] + Braces(name, "")
    case Reference(name) => if name in store then store[name] else ""
  }

  /** What the tokens stand for: values go in as they are. */
  function Render(tokens: seq<Token>, store: Store): string {
    if tokens == [] then "" else Shown(tokens[0], store) + Render(tokens[1..], store)
  }

  function Lack(token: Token, store: Store): seq<string> {
    if token.Reference? && token.name !in store then [token.name] else []
  }

  /** The references the store does not hold, in order and with repetitions. */
  function Absent(tokens: seq<Token>, store: Store): seq<string> {
    if tokens == [] then [] else Lack(tokens[0], store) + Absent(tokens[1..], store)
  }

  // ---------------------------------------------------------------- the loop

  datatype Found = Found(start: nat, hit: Match)

  /** The matches `finditer` yields from position `i` on. */
  function FindIter(p: Pattern, s: string, i: nat): seq<Found>
    requires i <= |s|
    decreases |s| - i
  {
    if i == |s| then []
    else
      match p(s[i..])
      case Some(m) => [Found(i, m)] + FindIter(p, s, i + m.length)
      case None => FindIter(p, s, i + 1)
  }

  /** The matches lie in `s` one after the other, none before `i`. */
  predicate Placed(s: string, i: nat, found: seq<Found>)
    requires i <= |s|
    decreases |found|
  {
    found == [] ||
    (var f := found[0];
     i <= f.start && f.start + f.hit.length <= |s| && !f.hit.token.Plain? &&
     Placed(s, f.start + f.hit.length, found[1..]))
  }

  /** The text from `i` on with the matches replaced, and what they lack. */
  function Spliced(s: string, i: nat, found: seq<Found>, store: Store): string
    requires i <= |s| && Placed(s, i, found)
    decreases |found|
  {
    if found == [] then s[i..]
    else
      s[i..found[0].start]
      + (Shown(found[0].hit.token, store)
         + Spliced(s, found[0].start + found[0].hit.length, found[1..], store))
  }

  function Lacking(found: seq<Found>, store: Store): seq<string> {
    if found == [] then [] else Lack(found[0].hit.token, store) + Lacking(found[1..], store)
  }

  lemma SplicedFromNext(s: string, i: nat, found: seq<Found>, store: Store)
    requires i < |s| && Placed(s, i + 1, found)
    ensures Placed(s, i, found) && Spliced(s, i, found, store) == [s[i]] + Spliced(s, i + 1, found, store)
  {
  }

  lemma HeadSplits(token: Token, rest: seq<Token>, store: Store)
    ensures Render([token] + rest, store) == Shown(token, store) + Render(rest, store)
    ensures Absent([token] + rest, store) ==
            Lack(token, store) + Absent(rest, store)
  {
  }

  lemma SplicedAtMatch(s: string, i: nat, m: Match, rest: seq<Found>, store: Store)
    requires i + m.length <= |s| && !m.token.Plain? && Placed(s, i + m.length, rest)
    ensures Placed(s, i, [Found(i, m)] + rest)
    ensures Spliced(s, i, [Found(i, m)] + rest, store) == Shown(m.token, store) + Spliced(s, i + m.length, rest, store)
    ensures Lacking([Found(i, m)] + rest, store) == Lack(m.token, store) + Lacking(rest, store)
  {
  }

  /** From `i` on, replacing these matches one by one is what these tokens stand for. */
  predicate Agree(s: string, i: nat, found: seq<Found>, tokens: seq<Token>, store: Store)
    requires i <= |s|
  {
    && Placed(s, i, found)
    && Spliced(s, i, found, store) == Render(tokens, store)
    && Lacking(found, store) == Absent(tokens, store)
  }

  lemma AgreeAtMatch(s: string, i: nat, m: Match, found: seq<Found>, tokens: seq<Token>, store: Store,
                     allFound: seq<Found>, allTokens: seq<Token>)
    requires i + m.length <= |s| && !m.token.Plain? && Agree(s, i + m.length, found, tokens, store)
    requires allFound == [Found(i, m)] + found && allTokens == [m.token] + tokens
    ensures Agree(s, i, allFound, allTokens, store)
  {
    SplicedAtMatch(s, i, m, found, store);
    HeadSplits(m.token, tokens, store);
  }

  lemma AgreeAtPlain(s: string, i: nat, found: seq<Found>, tokens: seq<Token>, store: Store, allTokens: seq<Token>)
    requires i < |s| && Agree(s, i + 1, found, tokens, store)
    requires allTokens == [Plain(s[i])] + tokens
    ensures Agree(s, i, found, allTokens, store)
  {
    SplicedFromNext(s, i, found, store);
    HeadSplits(Plain(s[i]), tokens, store);
    NilRight(Absent(tokens, store));
  }

  lemma FoundAtMatch(p: Pattern, s: string, i: nat, m: Match, found: seq<Found>)
    requires i < |s| && p(s[i..]) == Some(m) && i + m.length <= |s| && found == FindIter(p, s, i + m.length)
    ensures FindIter(p, s, i) == [Found(i, m)] + found
  {
  }

  lemma TokensAtMatch(p: Pattern, s: string, i: nat, m: Match, tokens: seq<Token>)
    requires i < |s| && p(s[i..]) == Some(m) && i + m.length <= |s| && tokens == TokensBy(p, s[i + m.length..])
    ensures TokensBy(p, s[i..]) == [m.token] + tokens
  {
    assert s[i..][m.length..] == s[i + m.length..];
  }

  lemma TokensAtPlain(p: Pattern, s: string, i: nat, tokens: seq<Token>)
    requires i < |s| && p(s[i..]) == None && tokens == TokensBy(p, s[i + 1..])
    ensures TokensBy(p, s[i..]) == [Plain(s[i])] + tokens
  {
    assert s[i..][1..] == s[i + 1..];
  }

  /** From `i` on, replacing the matches found is rendering the tokens. */
  predicate Rendered(p: Pattern, s: string, i: nat, store: Store) {
    i <= |s| && Agree(s, i, FindIter(p, s, i), TokensBy(p, s[i..]), store)
  }

  lemma RenderedFromMatch(p: Pattern, s: string, i: nat, m: Match, store: Store)
    requires i < |s| && p(s[i..]) == Some(m) && i + m.length <= |s| && Rendered(p, s, i + m.length, store)
    ensures Rendered(p, s, i, store)
  {
    var found, tokens := FindIter(p, s, i + m.length), TokensBy(p, s[i + m.length..]);
    TokensAtMatch(p, s, i, m, tokens);
    FoundAtMatch(p, s, i, m, found);
    AgreeAtMatch(s, i, m, found, tokens, store, FindIter(p, s, i), TokensBy(p, s[i..]));
  }

  lemma RenderedFromPlain(p: Pattern, s: string, i: nat, store: Store)
    requires i < |s| && p(s[i..]) == None && Rendered(p, s, i + 1, store)
    ensures Rendered(p, s, i, store)
  {
    var tokens := TokensBy(p, s[i + 1..]);
    TokensAtPlain(p, s, i, tokens);
    AgreeAtPlain(s, i, FindIter(p, s, i + 1), tokens, store, TokensBy(p, s[i..]));
  }

  lemma {:induction false} SplicedIsRendered(p: Pattern, s: string, i: nat, store: Store)
    requires i <= |s|
    ensures Rendered(p, s, i, store)
    decreases |s| - i
  {
    if i < |s| {
      match p(s[i..])
      case Some(m) =>
        SplicedIsRendered(p, s, i + m.length, store);
        RenderedFromMatch(p, s, i, m, store);
      case None =>
        SplicedIsRendered(p, s, i + 1, store);
        RenderedFromPlain(p, s, i, store);
    }
  }

  /** The loop, as it adds to what it has. */
  function SpliceOn(s: string, i: nat, left: seq<Found>, store: Store, collect: bool, out: string, missing: seq<string>)
    : (Option<string>, seq<string>)
    requires i <= |s| && Placed(s, i, left)
    decreases |left|
  {
    if left == [] then (Some(out + s[i..]), missing)
    else
      var f := left[0];
      var lack := Lack(f.hit.token, store);
      if !collect && lack != [] then (None, lack)
      else
        SpliceOn(s, f.start + f.hit.length, left[1..], store, collect,
                 (out + s[i..f.start]) + Shown(f.hit.token, store), missing + lack)
  }

  function Verdict(text: string, lacking: seq<string>, collect: bool): (Option<string>, seq<string>) {
    if collect || lacking == [] then (Some(text), lacking) else (None, [lacking[0]])
  }

  lemma {:induction false} SpliceOnIsSpliced(s: string, i: nat, left: seq<Found>, store: Store, collect: bool,
                                             out: string, missing: seq<string>)
    requires i <= |s| && Placed(s, i, left) && (!collect ==> missing == [])
    ensures SpliceOn(s, i, left, store, collect, out, missing) ==
            Verdict(out + Spliced(s, i, left, store), missing + Lacking(left, store), collect)
    decreases |left|
  {
    if left == [] {
      NilRight(missing);
    } else {
      var f := left[0];
      var shown, lack := Shown(f.hit.token, store), Lack(f.hit.token, store);
      var next := f.start + f.hit.length;
      var before, rest := s[i..f.start], Spliced(s, next, left[1..], store);
      Assoc(out, before, shown + rest);
      Assoc(out + before, shown, rest);
      Assoc(missing, lack, Lacking(left[1..], store));
      NilRight(missing);
      if collect || lack == [] {
        SpliceOnIsSpliced(s, next, left[1..], store, collect, (out + before) + shown, missing + lack);
      }
    }
  }

  /** `interpolate`: with `collect`, absent references read as empty and are all listed;
      without it the first one is an error. */
  method Interpolate(template: string, store: Store, collect: bool)
    returns (value: Option<string>, missing: seq<string>)
    ensures (value, missing) == Verdict(Render(Tokens(template), store), Absent(Tokens(template), store), collect)
  {
    var matches := FindIter(REFERENCE, template, 0);
    SplicedIsRendered(REFERENCE, template, 0, store);
    assert template[0..] == template;
    SpliceOnIsSpliced(template, 0, matches, store, collect, "", []);
    NilRight(Spliced(template, 0, matches, store));
    NilRight(Lacking(matches, store));
    value, missing := Splice(template, matches, store, collect);
  }

  /** The loop over the matches. */
  method Splice(template: string, matches: seq<Found>, store: Store, collect: bool)
    returns (value: Option<string>, missing: seq<string>)
    requires Placed(template, 0, matches)
    ensures (value, missing) == SpliceOn(template, 0, matches, store, collect, "", [])
  {
    var out, index, left := "", 0, matches;
    missing := [];
    while left != []
      invariant 0 <= index <= |template| && Placed(template, index, left)
      invariant SpliceOn(template, index, left, store, collect, out, missing)
                == SpliceOn(template, 0, matches, store, collect, "", [])
      decreases |left|
    {
      var f := left[0];
      var shown, lack := Turn(f.hit.token, store);
      if !collect && lack != [] {
        return None, lack;
      }
      out, missing := (out + template[index..f.start]) + shown, missing + lack;
      index, left := f.start + f.hit.length, left[1..];
    }
    value := Some(out + template[index..]);
  }

  /** What a match adds to the output and to the list. */
  method Turn(token: Token, store: Store) returns (shown: string, lack: seq<string>)
    requires !token.Plain?
    ensures shown == Shown(token, store) && lack == Lack(token, store)
  {
    if token.Escaped? {
      shown, lack := ['$'] + Braces(token.name, ""), [];
    } else if token.name !in store {
      shown, lack := "", [token.name];
    } else {
      shown, lack := store[token.name], [];
    }
  }

  // ---------------------------------------------------------------- escaping

  /** A `$` put before every `${NAME}`. */
  function Escape(s: string): string {
    if s == "" then ""
    else if s[0] == '$' && Braced(s[1..]).Some? then
      var name := Braced(s[1..]).value;
      ['$'] + (['$'] + Braces(name, Escape(s[|name| + 3..])))
    else [s[0]] + Escape(s[1..])
  }

  predicate IsName(name: string) {
    name != "" && NameStart(name[0]) && forall c | c in name :: NameChar(c)
  }

  lemma BracesParts(name: string, rest: string)
    ensures var t := Braces(name, rest);
      && |t| == |name| + 2 + |rest| && t[0] == '{' && t[1..] == name + (['}'] + rest)
      && t[|name| + 2..] == rest
  {
  }

  lemma BracedReads(name: string, rest: string)
    requires IsName(name)
    ensures Braced(Braces(name, rest)) == Some(name)
  {
    BracesParts(name, rest);
    NameStops(name, ['}'] + rest);
    assert (name + (['}'] + rest))[..|name|] == name;
    assert Braces(name, rest)[1..|name| + 1] == Braces(name, rest)[1..][..|name|];
  }

  lemma BracedShape(s: string)
    requires Braced(s).Some?
    ensures IsName(Braced(s).value) && s == Braces(Braced(s).value, s[|Braced(s).value| + 2..])
  {
    NameHolds(s[1..]);
    var n := NameLength(s[1..]);
    var name := s[1..n + 1];
    assert forall i | 0 <= i < n :: name[i] == s[1..][i];
    assert s[n + 1..] == ['}'] + s[n + 2..];
    assert s[1..] == name + s[n + 1..];
    ConsTail(s);
  }

  lemma {:induction false} EscapeSkips(a: string, s: string)
    requires '$' !in a
    ensures Escape(a + s) == a + Escape(s)
  {
    if a == "" {
      NilRight(s);
      NilRight(Escape(s));
    } else {
      EscapeSkips(a[1..], s);
      ConsTail(a);
      Assoc([a[0]], a[1..], s);
      ConsParts(a[0], a[1..] + s);
      Assoc([a[0]], a[1..], Escape(s));
    }
  }

  lemma {:induction false} EscapeUnskips(s: string, a: string, rest: string)
    requires '$' !in a && Escape(s) == a + rest
    ensures |a| <= |s| && s == a + s[|a|..]
  {
    if a == "" {
      NilRight(s);
    } else {
      ConsTail(a);
      Assoc([a[0]], a[1..], rest);
      ConsParts(a[0], a[1..] + rest);
      ConsParts(s[0], Escape(s[1..]));
      EscapeUnskips(s[1..], a[1..], rest);
      ConsTail(s);
      Assoc([a[0]], a[1..], s[|a|..]);
    }
  }

  /** Escaping neither makes nor breaks a `{NAME}` at the head of a text. */
  lemma EscapeKeepsBraces(s: string)
    ensures Braced(Escape(s)) == Braced(s)
  {
    if Braced(s).Some? {
      var name := Braced(s).value;
      var rest := s[|name| + 2..];
      BracedShape(s);
      AssocBraces(name, rest);
      EscapeSkips(Braces(name, ""), rest);
      AssocBraces(name, Escape(rest));
      BracedReads(name, Escape(rest));
    } else if Braced(Escape(s)).Some? {
      var name := Braced(Escape(s)).value;
      var rest := Escape(s)[|name| + 2..];
      BracedShape(Escape(s));
      AssocBraces(name, rest);
      EscapeUnskips(s, Braces(name, ""), rest);
      AssocBraces(name, s[|name| + 2..]);
      BracedReads(name, s[|name| + 2..]);
    }
  }

  lemma AssocBraces(name: string, rest: string)
    ensures Braces(name, rest) == Braces(name, "") + rest && |Braces(name, "")| == |name| + 2
    ensures IsName(name) ==> '$' !in Braces(name, "")
  {
  }

  /** Nothing at the head of an escaped text reads as a reference unless it was one. */
  lemma EscapedHeadIsPlain(s: string)
    requires s != "" && !(s[0] == '$' && Braced(s[1..]).Some?)
    ensures MatchAt([s[0]] + Escape(s[1..])) == None
  {
    var t := s[1..];
    var e := [s[0]] + Escape(t);
    ConsParts(s[0], Escape(t));
    EscapeKeepsBraces(t);
    if t != "" && t[0] == '$' {
      EscapeKeepsBraces(t[1..]);
      assert e[2..] == Escape(t)[1..];
      if Braced(t[1..]).Some? {
        ConsParts('$', ['$'] + Braces(Braced(t[1..]).value, Escape(t[|Braced(t[1..]).value| + 3..])));
      } else {
        ConsParts(t[0], Escape(t[1..]));
      }
    } else if t != "" {
      ConsParts(t[0], Escape(t[1..]));
    }
  }

  lemma EscapedReferenceIsRead(name: string, rest: string)
    requires IsName(name)
    ensures var e := ['$'] + (['$'] + Braces(name, rest));
      && MatchAt(e) == Some(Match(Escaped(name), |name| + 4))
      && e[|name| + 4..] == rest
  {
    var t := Braces(name, rest);
    var e := ['$'] + (['$'] + t);
    BracedReads(name, rest);
    BracesParts(name, rest);
    assert e[0] == '$' && e[1] == '$' && e[2..] == t;
    assert e[|name| + 4..] == e[2..][|name| + 2..];
  }

  /** A reference alone is its value. */
  lemma ReferenceIsValue(name: string, store: Store)
    requires IsName(name) && name in store
    ensures Render(Tokens(['$'] + Braces(name, "")), store) == store[name]
  {
    var t := Braces(name, "");
    var e := ['$'] + t;
    BracedReads(name, "");
    BracesParts(name, "");
    ConsParts('$', t);
    assert e[1] == t[0];
    assert e[|name| + 3..] == "";
    HeadSplits(Reference(name), Tokens(""), store);
    NilRight(store[name]);
  }

  lemma EscapedIsShown(name: string, rest: string, store: Store)
    requires IsName(name)
    ensures var tokens := Tokens(['$'] + (['$'] + Braces(name, rest)));
      && Render(tokens, store) == (['$'] + Braces(name, "")) + Render(Tokens(rest), store)
      && Absent(tokens, store) == Absent(Tokens(rest), store)
  {
    EscapedReferenceIsRead(name, rest);
    HeadSplits(Escaped(name), Tokens(rest), store);
    NilRight(Absent(Tokens(rest), store));
  }

  lemma EscapedPlain(s: string, store: Store)
    requires s != "" && !(s[0] == '$' && Braced(s[1..]).Some?)
    ensures Render(Tokens(Escape(s)), store) == [s[0]] + Render(Tokens(Escape(s[1..])), store)
    ensures Absent(Tokens(Escape(s)), store) == Absent(Tokens(Escape(s[1..])), store)
  {
    EscapedHeadIsPlain(s);
    ConsParts(s[0], Escape(s[1..]));
    HeadSplits(Plain(s[0]), Tokens(Escape(s[1..])), store);
    NilRight(Absent(Tokens(Escape(s[1..])), store));
  }

  lemma ReferenceShape(s: string)
    requires s != "" && s[0] == '$' && Braced(s[1..]).Some?
    ensures var name := Braced(s[1..]).value;
      IsName(name) && |name| + 3 <= |s| && s == (['$'] + Braces(name, "")) + s[|name| + 3..]
  {
    BracedShape(s[1..]);
    var name := Braced(s[1..]).value;
    assert s[1..][|name| + 2..] == s[|name| + 3..];
    AssocBraces(name, s[|name| + 3..]);
    Assoc(['$'], Braces(name, ""), s[|name| + 3..]);
    ConsTail(s);
  }

  /** Escaping undoes interpolation: with a `$` before every `${NAME}` any text comes back as it
      was, from every store, and nothing is missing. */
  lemma {:induction false} EscapeIsLiteral(s: string, store: Store)
    ensures Render(Tokens(Escape(s)), store) == s
    ensures Absent(Tokens(Escape(s)), store) == []
  {
    if s == "" {
    } else if s[0] == '$' && Braced(s[1..]).Some? {
      var name := Braced(s[1..]).value;
      ReferenceShape(s);
      EscapedIsShown(name, Escape(s[|name| + 3..]), store);
      EscapeIsLiteral(s[|name| + 3..], store);
    } else {
      EscapedPlain(s, store);
      EscapeIsLiteral(s[1..], store);
      ConsTail(s);
    }
  }

  /** A template is its own value, for every store, exactly when it holds no reference. */
  lemma {:induction false} LiteralExactly(s: string)
    ensures (forall store: Store :: Render(Tokens(s), store) == s) <==> forall t | t in Tokens(s) :: t.Plain?
  {
    if forall t | t in Tokens(s) :: t.Plain? {
      forall store: Store ensures Render(Tokens(s), store) == s {
        PlainIsItself(s, store);
      }
    } else {
      ReferenceShrinks(s);
      assert |Render(Tokens(s), map[])| < |s|;
    }
  }

  lemma {:induction false} PlainIsItself(s: string, store: Store)
    requires forall t | t in Tokens(s) :: t.Plain?
    ensures Render(Tokens(s), store) == s
  {
    if s != "" {
      var tokens := Tokens(s);
      assert tokens[0] in tokens && forall t | t in tokens[1..] :: t in tokens;
      assert MatchAt(s).None?;
      ConsParts(Plain(s[0]), Tokens(s[1..]));
      PlainIsItself(s[1..], store);
      ConsTail(s);
    }
  }

  /** With an empty store every token but a plain one is shorter than its text. */
  lemma {:induction false} ReferenceShrinks(s: string)
    ensures |Render(Tokens(s), map[])| <= |s|
    ensures |Render(Tokens(s), map[])| == |s| ==> forall t | t in Tokens(s) :: t.Plain?
  {
    if s != "" {
      match MatchAt(s)
      case Some(m) =>
        ConsParts(m.token, Tokens(s[m.length..]));
        ReferenceShrinks(s[m.length..]);
        assert |Shown(m.token, map[])| < m.length;
      case None =>
        ConsParts(Plain(s[0]), Tokens(s[1..]));
        ReferenceShrinks(s[1..]);
    }
  }

  // ---------------------------------------------------------------- templates as people write them

  /** A template put together from characters, references and escaped references. */
  datatype Part = Char(c: char) | Use(name: string) | Literal(name: string)

  /** A letter or underscore, and letters, digits and underscores after it. */
  predicate Word(name: string) {
    name != "" && !('0' <= name[0] <= '9')
    && forall c | c in name :: 'a' <= c <= 'z' || 'A' <= c <= 'Z' || c == '_' || '0' <= c <= '9'
  }

  function PartText(part: Part): string {
    match part
    case Char(c) => [c]
    case Use(name) => ['$'] + Braces(name, "")
    case Literal(name) => ['$'] + (['$'] + Braces(name, ""))
  }

  function TemplateOf(parts: seq<Part>): string {
    if parts == [] then "" else PartText(parts[0]) + TemplateOf(parts[1..])
  }

  /** A `$` among the characters does not stand before a brace or another `$`. */
  predicate GoodParts(parts: seq<Part>) {
    parts == [] ||
    (GoodParts(parts[1..]) &&
     match parts[0]
     case Char(c) => c == '$' ==> var rest := TemplateOf(parts[1..]); rest == "" || (rest[0] != '{' && rest[0] != '$')
     case Use(name) => Word(name)
     case Literal(name) => Word(name))
  }

  function Value(store: Store, name: string): string { if name in store then store[name] else "" }

  /** What the template stands for. */
  function Meant(parts: seq<Part>, store: Store): string {
    if parts == [] then ""
    else
      (match parts[0]
       case Char(c) => [c]
       case Use(name) => Value(store, name)
       case Literal(name) => ['$'] + (['{'] + (name + ['}']))) + Meant(parts[1..], store)
  }

  /** The names it uses that the store does not hold. */
  function Missing(parts: seq<Part>, store: Store): seq<string> {
    if parts == [] then []
    else (if parts[0].Use? && parts[0].name !in store then [parts[0].name] else []) + Missing(parts[1..], store)
  }

  lemma WordIsName(name: string)
    ensures Word(name) <==> IsName(name)
  {
    assert name != "" ==> name[0] in name;
  }

  lemma UseReads(name: string, rest: string, t: string)
    requires IsName(name) && t == ['$'] + Braces(name, rest)
    ensures t != "" && MatchAt(t) == Some(Match(Reference(name), |name| + 3)) && t[|name| + 3..] == rest
  {
    BracedReads(name, rest);
    BracesParts(name, rest);
    ConsParts('$', Braces(name, rest));
    assert t[1] == '{';
    assert t[|name| + 3..] == t[1..][|name| + 2..];
  }

  lemma CharReads(c: char, rest: string)
    requires c == '$' ==> rest == "" || (rest[0] != '{' && rest[0] != '$')
    ensures MatchAt([c] + rest) == None && ([c] + rest)[1..] == rest
  {
    ConsParts(c, rest);
  }

  lemma CharMeans(c: char, rest: string, store: Store)
    requires c == '$' ==> rest == "" || (rest[0] != '{' && rest[0] != '$')
    ensures var tokens := Tokens([c] + rest);
      Render(tokens, store) == [c] + Render(Tokens(rest), store) && Absent(tokens, store) == Absent(Tokens(rest), store)
  {
    CharReads(c, rest);
    HeadSplits(Plain(c), Tokens(rest), store);
    NilRight(Absent(Tokens(rest), store));
  }

  lemma UseMeans(name: string, rest: string, store: Store)
    requires IsName(name)
    ensures var tokens := Tokens((['$'] + Braces(name, "")) + rest);
      && Render(tokens, store) == Value(store, name) + Render(Tokens(rest), store)
      && Absent(tokens, store) == (if name in store then [] else [name]) + Absent(Tokens(rest), store)
  {
    AssocBraces(name, rest);
    Assoc(['$'], Braces(name, ""), rest);
    UseReads(name, rest, ['$'] + Braces(name, rest));
    HeadSplits(Reference(name), Tokens(rest), store);
  }

  lemma LiteralMeans(name: string, rest: string, store: Store)
    requires IsName(name)
    ensures var tokens := Tokens((['$'] + (['$'] + Braces(name, ""))) + rest);
      && Render(tokens, store) == (['$'] + (['{'] + (name + ['}']))) + Render(Tokens(rest), store)
      && Absent(tokens, store) == Absent(Tokens(rest), store)
  {
    AssocBraces(name, rest);
    Assoc(['$'], ['$'] + Braces(name, ""), rest);
    Assoc(['$'], Braces(name, ""), rest);
    EscapedIsShown(name, rest, store);
    NilRight(['}']);
  }

  /** A template means what it was put together from, whatever stands between and around its references. */
  lemma {:induction false} TemplateMeans(parts: seq<Part>, store: Store)
    requires GoodParts(parts)
    ensures Render(Tokens(TemplateOf(parts)), store) == Meant(parts, store)
    ensures Absent(Tokens(TemplateOf(parts)), store) == Missing(parts, store)
  {
    if parts != [] {
      var rest := TemplateOf(parts[1..]);
      TemplateMeans(parts[1..], store);
      NilRight(Missing(parts[1..], store));
      match parts[0]
      case Char(c) => CharMeans(c, rest, store);
      case Use(name) =>
        WordIsName(name);
        UseMeans(name, rest, store);
      case Literal(name) =>
        WordIsName(name);
        LiteralMeans(name, rest, store);
    }
  }

  /** So `interpolate` gives its meaning, or names the first reference that has no value. */
  method InterpolateWritten(parts: seq<Part>, store: Store, collect: bool)
    returns (value: Option<string>, missing: seq<string>)
    requires GoodParts(parts)
    ensures collect || Missing(parts, store) == [] ==>
      value == Some(Meant(parts, store)) && missing == Missing(parts, store)
    ensures !collect && Missing(parts, store) != [] ==> value == None && missing == [Missing(parts, store)[0]]
  {
    TemplateMeans(parts, store);
    value, missing := Interpolate(TemplateOf(parts), store, collect);
  }
}
