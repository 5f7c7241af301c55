/** The line a handler prints from a scrubbed record. */
module LogLines {
  import opened Wrappers
  import opened Text
  import opened Redaction

  predicate NotPercent(c: char) { c != '%' }

  /** What stands in the printed line: a stretch of the message, the sign `%%` stands for, or an
      argument put in for `%s`. */
  datatype Piece = Literal(text: string) | Sign | Given(a: Arg)

  function Shown(a: Arg): string {
    match a case Str(s) => s case Other(shown) => shown
  }

  function TextOf(piece: Piece): string {
    match piece case Literal(text) => text case Sign => "%" case Given(a) => Shown(a)
  }

  /** `message % items`; `None` where that raises, and for directives other than `%s` and `%%`. */
  function Formatted(message: string, items: seq<Arg>): Option<seq<Piece>>
    decreases |message|
  {
    var k := Run(NotPercent, message);
    if k == |message| then (if items == [] then Some([Literal(message)]) else None)
    else if k + 1 == |message| then None
    else if message[k + 1] == 's' && items != [] then
      Then([Literal(message[..k]), Given(items[0])], Formatted(message[k + 2..], items[1..]))
    else if message[k + 1] == '%' then Then([Literal(message[..k]), Sign], Formatted(message[k + 2..], items))
    else None
  }

  function Then(first: seq<Piece>, rest: Option<seq<Piece>>): Option<seq<Piece>> {
    match rest case None => None case Some(pieces) => Some(first + pieces)
  }

  /** `getMessage`: without arguments the message is printed as it is. */
  function Line(msg: Arg, args: Args): Option<seq<Piece>> {
    match args
    case Absent => Some([Literal(Shown(msg))])
    case Tuple(items) => if items == [] then Some([Literal(Shown(msg))]) else Formatted(Shown(msg), items)
    case Dict(_) => None
  }

  function Texts(pieces: seq<Piece>): seq<string> {
    if pieces == [] then [] else Texts(pieces[..|pieces| - 1]) + [TextOf(pieces[|pieces| - 1])]
  }

  function Printed(pieces: seq<Piece>): string {
    Concat(Texts(pieces))
  }

  /** An occurrence begins in `a` and ends in `b`. */
  ghost predicate Crosses(p: string, a: string, b: string) {
    exists i :: OccursAt(p, a + b, i) && i < |a| < i + |p|
  }

  /** An occurrence begins in one part and ends in a later one. */
  ghost predicate Straddles(p: string, parts: seq<string>) {
    parts != [] &&
    (Crosses(p, Concat(parts[..|parts| - 1]), parts[|parts| - 1]) || Straddles(p, parts[..|parts| - 1]))
  }

  ghost predicate InOne(p: string, parts: seq<string>) {
    exists part | part in parts :: Occurs(p, part)
  }

  lemma OccursInTwo(p: string, a: string, b: string)
    ensures Occurs(p, a + b) <==> Occurs(p, a) || Occurs(p, b) || Crosses(p, a, b)
  {
    var s := a + b;
    if Occurs(p, s) {
      var i :| OccursAt(p, s, i);
      if i + |p| <= |a| {
        assert OccursAt(p, a, i) by { assert a[i..i + |p|] == s[i..i + |p|]; }
      } else if i >= |a| {
        assert OccursAt(p, b, i - |a|) by { assert b[i - |a|..i - |a| + |p|] == s[i..i + |p|]; }
      }
    }
    if Occurs(p, a) {
      var i :| OccursAt(p, a, i);
      assert OccursAt(p, s, i) by { assert a[i..i + |p|] == s[i..i + |p|]; }
    }
    if Occurs(p, b) {
      assert s[|a|..] == b;
      OccursInTail(p, s, |a|);
    }
  }

  lemma {:induction false} OccursInParts(p: string, parts: seq<string>)
    requires p != ""
    ensures Occurs(p, Concat(parts)) <==> InOne(p, parts) || Straddles(p, parts)
  {
    if parts != [] {
      var before, last := parts[..|parts| - 1], parts[|parts| - 1];
      OccursInParts(p, before);
      OccursInTwo(p, Concat(before), last);
      assert parts == before + [last];
      assert forall part :: part in parts <==> part in before || part == last;
    }
  }

  /** The pieces the filter has not looked into. */
  predicate Unscrubbed(msg: Arg, piece: Piece) {
    (piece.Given? && piece.a.Other?) || (piece.Literal? && msg.Other?)
  }

  ghost predicate Held(msg: Arg, pieces: seq<Piece>, p: string) {
    exists piece | piece in pieces :: Unscrubbed(msg, piece) && Occurs(p, TextOf(piece))
  }

  /** A literal is a stretch of the message, an argument is one of the record's. */
  predicate ComesFrom(message: string, items: seq<Arg>, piece: Piece) {
    match piece
    case Literal(text) => exists i, j {:trigger message[i..j]} | 0 <= i <= j <= |message| :: message[i..j] == text
    case Sign => true
    case Given(a) => a in items
  }

  lemma LaterPiece(message: string, items: seq<Arg>, k: nat, later: seq<Arg>, piece: Piece)
    requires k <= |message| && ComesFrom(message[k..], later, piece) && forall a | a in later :: a in items
    ensures ComesFrom(message, items, piece)
  {
    if piece.Literal? {
      var i, j :| 0 <= i <= j <= |message[k..]| && message[k..][i..j] == piece.text;
      assert message[k + i..k + j] == piece.text;
    }
  }

  ghost predicate AllComeFrom(message: string, items: seq<Arg>, pieces: seq<Piece>) {
    forall piece | piece in pieces :: ComesFrom(message, items, piece)
  }

  lemma MorePieces(message: string, items: seq<Arg>, k: nat, later: seq<Arg>, first: seq<Piece>, rest: seq<Piece>)
    requires k <= |message| && AllComeFrom(message[k..], later, rest) && forall a | a in later :: a in items
    requires AllComeFrom(message, items, first)
    ensures AllComeFrom(message, items, first + rest)
  {
    forall piece | piece in first + rest ensures ComesFrom(message, items, piece) {
      if piece in rest {
        LaterPiece(message, items, k, later, piece);
      }
    }
  }

  lemma StretchComesFrom(message: string, items: seq<Arg>, k: nat)
    requires k <= |message|
    ensures ComesFrom(message, items, Literal(message[..k]))
  {
    assert message[0..k] == message[..k];
  }

  /** Up to a directive, and then on. */
  lemma FormattedGoesOn(message: string, items: seq<Arg>)
    returns (n: nat, first: seq<Piece>, later: seq<Arg>, rest: seq<Piece>)
    requires Formatted(message, items).Some? && Run(NotPercent, message) < |message|
    ensures 0 < n <= |message| && (forall a | a in later :: a in items) && AllComeFrom(message, items, first)
    ensures Formatted(message[n..], later) == Some(rest) && Formatted(message, items) == Some(first + rest)
  {
    var k := Run(NotPercent, message);
    StretchComesFrom(message, items, k);
    n := k + 2;
    if message[k + 1] == 's' && items != [] {
      first, later := [Literal(message[..k]), Given(items[0])], items[1..];
    } else {
      first, later := [Literal(message[..k]), Sign], items;
    }
    rest := Formatted(message[n..], later).value;
  }

  lemma {:induction false} PiecesComeFrom(message: string, items: seq<Arg>)
    requires Formatted(message, items).Some?
    ensures AllComeFrom(message, items, Formatted(message, items).value)
    decreases |message|
  {
    var k := Run(NotPercent, message);
    if k == |message| {
      StretchComesFrom(message, items, k);
      assert message[..k] == message;
    } else {
      var n, first, later, rest := FormattedGoesOn(message, items);
      PiecesComeFrom(message[n..], later);
      MorePieces(message, items, n, later, first, rest);
    }
  }

  lemma StretchHides(p: string, s: string, i: nat, j: nat)
    requires i <= j <= |s| && Occurs(p, s[i..j])
    ensures Occurs(p, s)
  {
    var t := s[..j];
    assert t[i..] == s[i..j];
    OccursInTail(p, t, i);
    var n :| OccursAt(p, t, n);
    assert OccursAt(p, s, n) by { assert s[n..n + |p|] == t[n..n + |p|]; }
  }

  ghost predicate LeaksFrom(piece: Piece, msg: Arg, items: seq<Arg>, p: string) {
    ComesFrom(Shown(msg), items, piece) && Occurs(p, TextOf(piece))
  }

  /** A piece of a scrubbed record that holds a secret was not scrubbed. */
  lemma OnlyUnscrubbedLeaks(msg: Arg, items: seq<Arg>, secrets: seq<string>, p: string, piece: Piece)
    requires Hides(msg, secrets) && (forall a | a in items :: Hides(a, secrets))
    requires p in secrets && |p| >= MIN_REDACTABLE_LENGTH && LeaksFrom(piece, msg, items, p)
    ensures Unscrubbed(msg, piece)
  {
    match piece
    case Literal(text) =>
      var i, j :| 0 <= i <= j <= |Shown(msg)| && Shown(msg)[i..j] == text;
      StretchHides(p, Shown(msg), i, j);
    case Sign =>
    case Given(a) =>
  }

  lemma {:induction false} TextsAt(pieces: seq<Piece>)
    ensures |Texts(pieces)| == |pieces| && forall i | 0 <= i < |pieces| :: Texts(pieces)[i] == TextOf(pieces[i])
  {
    if pieces != [] {
      TextsAt(pieces[..|pieces| - 1]);
    }
  }

  lemma TextsOf(pieces: seq<Piece>, text: string)
    ensures text in Texts(pieces) <==> exists piece | piece in pieces :: TextOf(piece) == text
  {
    TextsAt(pieces);
    if text in Texts(pieces) {
      var i :| 0 <= i < |pieces| && Texts(pieces)[i] == text;
      assert pieces[i] in pieces;
    }
    if exists piece | piece in pieces :: TextOf(piece) == text {
      var piece :| piece in pieces && TextOf(piece) == text;
      var i :| 0 <= i < |pieces| && pieces[i] == piece;
      assert Texts(pieces)[i] == text;
    }
  }

  function ItemsOf(args: Args): seq<Arg> {
    if args.Tuple? then args.items else []
  }

  lemma LineComesFrom(msg: Arg, args: Args)
    requires Line(msg, args).Some?
    ensures AllComeFrom(Shown(msg), ItemsOf(args), Line(msg, args).value)
  {
    assert Shown(msg)[0..|Shown(msg)|] == Shown(msg);
    if args.Tuple? && args.items != [] {
      PiecesComeFrom(Shown(msg), args.items);
    }
  }

  lemma ScrubbedHides(msg: Arg, args: Args, secrets: seq<string>)
    requires AllCovered(secrets)
    ensures Hides(ScrubbedArg(msg, secrets), secrets)
    ensures forall a | a in ItemsOf(ScrubbedArgs(args, secrets)) :: Hides(a, secrets)
  {
    FilteredHides(msg, secrets);
    forall a | a in ItemsOf(ScrubbedArgs(args, secrets)) ensures Hides(a, secrets) {
      var i :| 0 <= i < |args.items| && ScrubbedArg(args.items[i], secrets) == a;
      FilteredHides(args.items[i], secrets);
    }
  }

  /** A part of the line that holds a secret is a piece that was not scrubbed. */
  lemma OnePartIsHeld(msg: Arg, items: seq<Arg>, pieces: seq<Piece>, secrets: seq<string>, p: string)
    requires Hides(msg, secrets) && (forall a | a in items :: Hides(a, secrets))
    requires p in secrets && |p| >= MIN_REDACTABLE_LENGTH && AllComeFrom(Shown(msg), items, pieces)
    ensures InOne(p, Texts(pieces)) <==> Held(msg, pieces, p)
  {
    if InOne(p, Texts(pieces)) {
      var text :| text in Texts(pieces) && Occurs(p, text);
      TextsOf(pieces, text);
      var piece :| piece in pieces && TextOf(piece) == text;
      assert LeaksFrom(piece, msg, items, p);
      OnlyUnscrubbedLeaks(msg, items, secrets, p, piece);
    }
    if Held(msg, pieces, p) {
      var piece :| piece in pieces && Unscrubbed(msg, piece) && Occurs(p, TextOf(piece));
      TextsOf(pieces, TextOf(piece));
    }
  }

  /** The line a handler prints from a scrubbed record holds a secret exactly when a value that is
      not a string brings it, or when it is spelled across the pieces of the line: the message
      and its arguments are scrubbed apart and put together afterwards. */
  lemma LineLeaksExactly(msg: Arg, args: Args, secrets: seq<string>, p: string)
    requires AllCovered(secrets) && p in secrets && |p| >= MIN_REDACTABLE_LENGTH
    requires Line(ScrubbedArg(msg, secrets), ScrubbedArgs(args, secrets)).Some?
    ensures
      var pieces := Line(ScrubbedArg(msg, secrets), ScrubbedArgs(args, secrets)).value;
      Occurs(p, Printed(pieces)) <==> Held(msg, pieces, p) || Straddles(p, Texts(pieces))
  {
    var m, scrubbed := ScrubbedArg(msg, secrets), ScrubbedArgs(args, secrets);
    var pieces := Line(m, scrubbed).value;
    ScrubbedHides(msg, args, secrets);
    LineComesFrom(m, scrubbed);
    OnePartIsHeld(m, ItemsOf(scrubbed), pieces, secrets, p);
    OccursInParts(p, Texts(pieces));
    SameHeld(msg, m, pieces, p);
  }

  lemma SameHeld(msg: Arg, scrubbed: Arg, pieces: seq<Piece>, p: string)
    requires msg.Other? == scrubbed.Other?
    ensures Held(msg, pieces, p) <==> Held(scrubbed, pieces, p)
  {
    assert forall piece :: Unscrubbed(msg, piece) == Unscrubbed(scrubbed, piece);
  }

  /** Each edge between parts has a character beside it that the secret does not hold. */
  predicate Guarded(p: string, parts: seq<string>) {
    parts == [] ||
    (var before, last := Concat(parts[..|parts| - 1]), parts[|parts| - 1];
     && (before == "" || last == "" || before[|before| - 1] !in p || last[0] !in p)
     && Guarded(p, parts[..|parts| - 1]))
  }

  lemma CrossingHoldsBoth(p: string, before: string, last: string)
    requires Crosses(p, before, last)
    ensures before != "" && last != "" && before[|before| - 1] in p && last[0] in p
  {
    var s := before + last;
    var i :| OccursAt(p, s, i) && i < |before| < i + |p|;
    CharsAt(p, s, i, |before| - 1 - i);
    CharsAt(p, s, i, |before| - i);
    assert s[|before| - 1] == before[|before| - 1] && s[|before|] == last[0];
  }

  /** So a message whose directives stand between characters no secret holds spells none. */
  lemma {:induction false} GuardedIsWhole(p: string, parts: seq<string>)
    requires Guarded(p, parts)
    ensures !Straddles(p, parts)
  {
    if parts != [] {
      var before, last := Concat(parts[..|parts| - 1]), parts[|parts| - 1];
      GuardedIsWhole(p, parts[..|parts| - 1]);
      if Crosses(p, before, last) {
        CrossingHoldsBoth(p, before, last);
      }
    }
  }

  lemma OneDirective(a: string, arg: Arg)
    requires '%' !in a
    ensures Formatted(a + "%s", [arg]) == Some([Literal(a), Given(arg)] + [Literal("")])
  {
    var message := a + "%s";
    RunStops(NotPercent, a, "%s");
    assert message[..|a|] == a && message[|a| + 2..] == "" && [arg][1..] == [];
    assert Formatted("", []) == Some([Literal("")]);
  }

  lemma PrintedSnoc(pieces: seq<Piece>, piece: Piece)
    ensures Printed(pieces + [piece]) == Printed(pieces) + TextOf(piece)
  {
    assert (pieces + [piece])[..|pieces|] == pieces;
    assert (Texts(pieces) + [TextOf(piece)])[..|Texts(pieces)|] == Texts(pieces);
  }

  lemma PrintedTwo(a: string, arg: Arg)
    ensures Printed([Literal(a), Given(arg)] + [Literal("")]) == a + Shown(arg)
  {
    PrintedSnoc([], Literal(a));
    PrintedSnoc([Literal(a)], Given(arg));
    PrintedSnoc([Literal(a), Given(arg)], Literal(""));
    assert [] + [Literal(a)] == [Literal(a)] && [Literal(a)] + [Given(arg)] == [Literal(a), Given(arg)];
    assert "" + a == a && (a + Shown(arg)) + "" == a + Shown(arg);
  }

  lemma ShorterHides(a: string, p: string)
    requires |a| < |p|
    ensures Hides(Str(a), [p])
  {
    assert forall q | q in [p] :: q == p;
  }

  /** Any secret without stars can be spelled half by the message and half by its argument, `tok%s`
      and `en123` say: both are clean and left as they are, and the line is the secret. */
  lemma SpelledAcross(a: string, b: string)
    requires a != "" && |b| > 2 && '%' !in a && '*' !in a + b
    ensures
      var msg, args, secrets := Str(a + "%s"), Tuple([Str(b)]), [a + b];
      && AllSound(secrets)
      && ScrubbedArg(msg, secrets) == msg
      && ScrubbedArgs(args, secrets) == args
      && Line(msg, args).Some?
      && Printed(Line(msg, args).value) == a + b
  {
    var secrets := [a + b];
    StarlessIsSound(a + b);
    OneSoundIsCovered(a + b);
    assert forall q | q in secrets :: q == a + b;
    ShorterHides(a + "%s", a + b);
    FilteredHides(Str(a + "%s"), secrets);
    ShorterHides(b, a + b);
    FilteredHides(Str(b), secrets);
    assert ScrubbedArgs(Tuple([Str(b)]), secrets).items == [Str(b)];
    OneDirective(a, Str(b));
    PrintedTwo(a, Str(b));
  }

  // ---- which templates are safe ----

  /** The texts between the `%s` of a template, with `%%` read; `None` for any other directive. */
  function Literals(message: string): (r: Option<seq<string>>)
    ensures r.Some? ==> r.value != []
    decreases |message|
  {
    if message == "" then Some([""])
    else if message[0] != '%' then Before([message[0]], Literals(message[1..]))
    else if |message| == 1 then None
    else if message[1] == 's' then
      match Literals(message[2..]) case None => None case Some(ls) => Some([""] + ls)
    else if message[1] == '%' then Before("%", Literals(message[2..]))
    else None
  }

  /** More text in front of the first literal. */
  function Before(a: string, r: Option<seq<string>>): (more: Option<seq<string>>)
    requires r.Some? ==> r.value != []
    ensures more.Some? ==> more.value != []
  {
    match r case None => None case Some(ls) => Some([a + ls[0]] + ls[1..])
  }

  /** The arguments put between the literals. */
  function Fill(ls: seq<string>, xs: seq<string>): string
    requires |ls| == |xs| + 1
    decreases |xs|
  {
    if xs == [] then ls[0] else ls[0] + (xs[0] + Fill(ls[1..], xs[1..]))
  }

  /** The literal ends with a start of `p`, `k` characters of it. */
  predicate EndsIntoAt(p: string, l: string, k: int) {
    0 < k < |p| && k <= |l| && l[|l| - k..] == p[..k]
  }

  /** The literal starts with an end of `p`, all but `k` characters of it. */
  predicate StartsOutAt(p: string, l: string, k: int) {
    0 < k < |p| && |p| - k <= |l| && l[..|p| - k] == p[k..]
  }

  /** The literal stands in `p`, from `k` on, with something before it and something after it. */
  predicate InsideAt(p: string, l: string, k: int) {
    0 < k && k + |l| < |p| && p[k..k + |l|] == l
  }

  ghost predicate EndsInto(p: string, l: string) { exists k :: EndsIntoAt(p, l, k) }

  ghost predicate StartsOut(p: string, l: string) { exists k :: StartsOutAt(p, l, k) }

  ghost predicate Inside(p: string, l: string) { exists k :: InsideAt(p, l, k) }

  /** What literal `i` must not do: hold `p`, end into it before an argument, start out of it after
      one, or stand inside it between two. */
  ghost predicate SafeAt(p: string, ls: seq<string>, i: int)
    requires 0 <= i < |ls|
  {
    && !Occurs(p, ls[i])
    && (i + 1 < |ls| ==> !EndsInto(p, ls[i]))
    && (0 < i ==> !StartsOut(p, ls[i]))
    && (0 < i && i + 1 < |ls| ==> !Inside(p, ls[i]))
  }

  ghost predicate Safe(p: string, ls: seq<string>) {
    forall i | 0 <= i < |ls| :: SafeAt(p, ls, i)
  }

  lemma SafeTail(p: string, ls: seq<string>)
    requires |ls| > 1 && Safe(p, ls)
    ensures Safe(p, ls[1..])
  {
    forall i | 0 <= i < |ls[1..]| ensures SafeAt(p, ls[1..], i) {
      assert SafeAt(p, ls, i + 1);
    }
  }

  /** An occurrence across an edge is a part of each side. */
  lemma OccurrenceEnds(p: string, a: string, b: string, i: int)
    requires OccursAt(p, a + b, i) && i < |a| < i + |p|
    ensures 0 < |a| - i < |p| && |p| - (|a| - i) <= |b|
    ensures a[i..] == p[..|a| - i] && b[..|p| - (|a| - i)] == p[|a| - i..]
  {
    var s := a + b;
    assert forall m | 0 <= m < |p| :: s[i + m] == p[m] by {
      forall m | 0 <= m < |p| ensures s[i + m] == p[m] {
        CharsAt(p, s, i, m);
      }
    }
    assert forall m | 0 <= m < |a| - i :: a[i..][m] == s[i + m];
    assert forall m | 0 <= m < |p| - (|a| - i) :: b[m] == s[|a| + m];
  }

  /** An occurrence that begins in an argument ends in the literal after it or covers it. */
  lemma CrossesIntoLiteral(p: string, x: string, l: string, more: string)
    requires Crosses(p, x, l + more)
    ensures StartsOut(p, l) || (Inside(p, l) && more != "")
  {
    var r := l + more;
    var i :| OccursAt(p, x + r, i) && i < |x| < i + |p|;
    var k := |x| - i;
    OccurrenceEnds(p, x, r, i);
    if |p| - k <= |l| {
      assert l[..|p| - k] == r[..|p| - k];
      assert StartsOutAt(p, l, k);
    } else {
      assert p[k..][..|l|] == p[k..k + |l|];
      assert r[..|p| - k][..|l|] == l;
      assert InsideAt(p, l, k);
    }
  }

  lemma CrossesFromLiteral(p: string, l: string, more: string)
    requires Crosses(p, l, more)
    ensures EndsInto(p, l)
  {
    var i :| OccursAt(p, l + more, i) && i < |l| < i + |p|;
    OccurrenceEnds(p, l, more, i);
    assert EndsIntoAt(p, l, |l| - i);
  }

  /** What a filled template begins with. */
  lemma FillBegins(ls: seq<string>, xs: seq<string>) returns (more: string)
    requires |ls| == |xs| + 1
    ensures Fill(ls, xs) == ls[0] + more && (xs == [] ==> more == "")
  {
    if xs == [] {
      more := "";
      NilRight(ls[0]);
    } else {
      more := xs[0] + Fill(ls[1..], xs[1..]);
    }
  }

  /** A safe template puts no arguments free of `p` together to `p`. */
  lemma {:induction false} SafeFills(p: string, ls: seq<string>, xs: seq<string>)
    requires p != "" && |ls| == |xs| + 1 && Safe(p, ls) && forall x | x in xs :: !Occurs(p, x)
    ensures !Occurs(p, Fill(ls, xs))
    decreases |xs|
  {
    assert SafeAt(p, ls, 0);
    if xs != [] {
      var rest := Fill(ls[1..], xs[1..]);
      SafeTail(p, ls);
      assert xs[0] in xs && forall x | x in xs[1..] :: x in xs;
      SafeFills(p, ls[1..], xs[1..]);
      var more := FillBegins(ls[1..], xs[1..]);
      assert SafeAt(p, ls, 1);
      if Crosses(p, xs[0], rest) {
        CrossesIntoLiteral(p, xs[0], ls[1], more);
      }
      OccursInTwo(p, xs[0], rest);
      if Crosses(p, ls[0], xs[0] + rest) {
        CrossesFromLiteral(p, ls[0], xs[0] + rest);
      }
      OccursInTwo(p, ls[0], xs[0] + rest);
    }
  }

  /** Nothing but `u` before literal `i` and `v` after it. */
  function Around(n: nat, i: nat, u: string, v: string): (xs: seq<string>)
    ensures |xs| == n
    ensures forall j | 0 <= j < n :: xs[j] == if j + 1 == i then u else if j == i then v else ""
  {
    seq(n, j => if j + 1 == i then u else if j == i then v else "")
  }

  /** Literal `i` with the arguments on both sides stands in the filled template. */
  lemma {:induction false} FillHoldsAt(ls: seq<string>, xs: seq<string>, i: nat)
    requires |ls| == |xs| + 1 && i < |ls|
    ensures
      var u, v := if i > 0 then xs[i - 1] else "", if i < |xs| then xs[i] else "";
      Occurs(u + (ls[i] + v), Fill(ls, xs))
    decreases |xs|
  {
    var u, v := if i > 0 then xs[i - 1] else "", if i < |xs| then xs[i] else "";
    if i == 0 {
      NilRight(ls[0] + v);
      if xs == [] {
        NilRight(ls[0]);
        Stands("", ls[0], "");
      } else {
        var rest := Fill(ls[1..], xs[1..]);
        Assoc(ls[0], v, rest);
        NilRight((ls[0] + v) + rest);
        Stands("", ls[0] + v, rest);
      }
    } else if i == 1 {
      var rest := AfterFirst(ls[1..], xs[1..], v);
      Assoc(xs[0], ls[1] + v, rest);
      assert Fill(ls, xs) == ls[0] + ((u + (ls[1] + v)) + rest);
      Stands(ls[0], u + (ls[1] + v), rest);
    } else {
      FillHoldsAt(ls[1..], xs[1..], i - 1);
      assert xs[1..][i - 2] == u && (i < |xs| ==> xs[1..][i - 1] == v) && ls[1..][i - 1] == ls[i];
      var rest := Fill(ls[1..], xs[1..]);
      OccursLater(u + (ls[i] + v), xs[0], rest);
      OccursLater(u + (ls[i] + v), ls[0], xs[0] + rest);
    }
  }

  lemma OccursLater(w: string, a: string, s: string)
    requires Occurs(w, s)
    ensures Occurs(w, a + s)
  {
    assert (a + s)[|a|..] == s;
    OccursInTail(w, a + s, |a|);
  }

  lemma AfterFirst(ls: seq<string>, xs: seq<string>, v: string) returns (rest: string)
    requires |ls| == |xs| + 1 && v == if xs == [] then "" else xs[0]
    ensures Fill(ls, xs) == (ls[0] + v) + rest
  {
    if xs == [] {
      rest := "";
      NilRight(ls[0]);
    } else {
      rest := Fill(ls[1..], xs[1..]);
      Assoc(ls[0], v, rest);
    }
  }

  /** A text stands where it was put. */
  lemma Stands(a: string, s: string, b: string)
    ensures Occurs(s, a + (s + b))
  {
    assert (a + (s + b))[|a|..|a| + |s|] == s;
    assert OccursAt(s, a + (s + b), |a|);
  }

  /** A start of `p` at the end of a literal, and the rest after it. */
  lemma EndsIntoFills(p: string, l: string, k: nat)
    requires EndsIntoAt(p, l, k)
    ensures Occurs(p, l + p[k..])
  {
    assert l + p[k..] == l[..|l| - k] + (p + "") by {
      assert l == l[..|l| - k] + p[..k] && p == p[..k] + p[k..];
    }
    Stands(l[..|l| - k], p, "");
  }

  lemma StartsOutFills(p: string, l: string, k: nat)
    requires StartsOutAt(p, l, k)
    ensures Occurs(p, p[..k] + l)
  {
    assert p[..k] + l == "" + (p + l[|p| - k..]) by {
      assert l == p[k..] + l[|p| - k..] && p == p[..k] + p[k..];
    }
    Stands("", p, l[|p| - k..]);
  }

  lemma InsideFills(p: string, l: string, k: nat)
    requires InsideAt(p, l, k)
    ensures p[..k] + (l + p[k + |l|..]) == p
  {
    assert p == p[..k] + (p[k..k + |l|] + p[k + |l|..]);
  }

  /** An unsafe template puts fragments of `p`, or nothing, together to `p`. */
  lemma UnsafeFills(p: string, ls: seq<string>) returns (i: nat, u: string, v: string)
    requires p != "" && ls != [] && !Safe(p, ls)
    ensures i < |ls| && |u| < |p| && |v| < |p| && Occurs(u, p) && Occurs(v, p)
    ensures Occurs(p, Fill(ls, Around(|ls| - 1, i, u, v)))
  {
    i :| 0 <= i < |ls| && !SafeAt(p, ls, i);
    u, v := Unsafe(p, ls, i);
    SegmentHolds(p, ls, i, u, v);
  }

  lemma Unsafe(p: string, ls: seq<string>, i: nat) returns (u: string, v: string)
    requires p != "" && i < |ls| && !SafeAt(p, ls, i)
    ensures |u| < |p| && |v| < |p| && Occurs(u, p) && Occurs(v, p)
    ensures Occurs(p, (if i > 0 then u else "") + (ls[i] + if i + 1 < |ls| then v else ""))
  {
    var l := ls[i];
    u, v := "", "";
    EmptyOccurs(p);
    NilRight(l);
    if Occurs(p, l) {
    } else if i + 1 < |ls| && EndsInto(p, l) {
      var k :| EndsIntoAt(p, l, k);
      v := p[k..];
      Halves(p, k);
      EndsIntoFills(p, l, k);
      NilRight(l + v);
    } else if 0 < i && StartsOut(p, l) {
      var k :| StartsOutAt(p, l, k);
      u := p[..k];
      Halves(p, k);
      StartsOutFills(p, l, k);
    } else {
      var k :| InsideAt(p, l, k);
      u, v := p[..k], p[k + |l|..];
      Halves(p, k);
      Halves(p, k + |l|);
      InsideFills(p, l, k);
      assert OccursAt(p, p, 0);
    }
  }

  lemma Halves(p: string, k: nat)
    requires k <= |p|
    ensures Occurs(p[..k], p) && Occurs(p[k..], p)
  {
    assert p == "" + (p[..k] + p[k..]) && p == p[..k] + (p[k..] + "");
    Stands("", p[..k], p[k..]);
    Stands(p[..k], p[k..], "");
  }

  lemma SegmentHolds(p: string, ls: seq<string>, i: nat, u: string, v: string)
    requires i < |ls|
    requires Occurs(p, (if i > 0 then u else "") + (ls[i] + if i + 1 < |ls| then v else ""))
    ensures Occurs(p, Fill(ls, Around(|ls| - 1, i, u, v)))
  {
    var xs := Around(|ls| - 1, i, u, v);
    FillHoldsAt(ls, xs, i);
    OccursWithin(p, (if i > 0 then u else "") + (ls[i] + if i + 1 < |ls| then v else ""), Fill(ls, xs));
  }

  // ---- a filled template is what is printed ----

  function ShownAll(items: seq<Arg>): (xs: seq<string>)
    ensures |xs| == |items|
  {
    if items == [] then [] else [Shown(items[0])] + ShownAll(items[1..])
  }

  lemma {:induction false} PrintedConcat(a: seq<Piece>, b: seq<Piece>)
    ensures Printed(a + b) == Printed(a) + Printed(b)
    decreases |b|
  {
    if b == [] {
      NilRight(a);
      NilRight(Printed(a));
    } else {
      var init, last := b[..|b| - 1], b[|b| - 1];
      PrintedConcat(a, init);
      Assoc(a, init, [last]);
      assert b == init + [last];
      PrintedSnoc(a + init, last);
      PrintedSnoc(init, last);
      Assoc(Printed(a), Printed(init), TextOf(last));
    }
  }

  lemma PrintedPair(first: Piece, second: Piece, rest: seq<Piece>)
    ensures Printed([first, second] + rest) == TextOf(first) + (TextOf(second) + Printed(rest))
  {
    PrintedConcat([first, second], rest);
    PrintedSnoc([], first);
    PrintedSnoc([first], second);
    assert [] + [first] == [first] && [first] + [second] == [first, second];
    assert Printed([]) + TextOf(first) == TextOf(first);
    Assoc(TextOf(first), TextOf(second), Printed(rest));
  }

  lemma {:induction false} LiteralsSkip(a: string, rest: string)
    requires '%' !in a
    ensures Literals(a + rest) == Before(a, Literals(rest))
  {
    if a == "" {
      NilRight(rest);
      if Literals(rest).Some? {
        var ls := Literals(rest).value;
        NilRight(ls[0]);
        ConsTail(ls);
      }
    } else {
      assert a[0] in a && forall c | c in a[1..] :: c in a;
      assert (a + rest)[0] == a[0] && (a + rest)[1..] == a[1..] + rest;
      LiteralsSkip(a[1..], rest);
      if Literals(rest).Some? {
        BeforeBefore([a[0]], a[1..], Literals(rest).value);
      }
      ConsTail(a);
    }
  }

  lemma BeforeBefore(a: string, b: string, ls: seq<string>)
    requires ls != []
    ensures Before(a, Before(b, Some(ls))) == Before(a + b, Some(ls))
  {
    ConsParts(b + ls[0], ls[1..]);
    Assoc(a, b, ls[0]);
  }

  lemma FillBefore(a: string, ls: seq<string>, xs: seq<string>)
    requires |ls| == |xs| + 1
    ensures |Before(a, Some(ls)).value| == |xs| + 1 && Fill(Before(a, Some(ls)).value, xs) == a + Fill(ls, xs)
  {
    ConsParts(a + ls[0], ls[1..]);
    if xs != [] {
      Assoc(a, ls[0], xs[0] + Fill(ls[1..], xs[1..]));
    }
  }

  /** What `Literals` and `Fill` say of a message and its arguments is what is formatted. */
  predicate FilledAs(message: string, items: seq<Arg>) {
    var pieces, ls := Formatted(message, items), Literals(message);
    && (pieces.Some? <==> ls.Some? && |ls.value| == |items| + 1)
    && (pieces.Some? ==> Printed(pieces.value) == Fill(ls.value, ShownAll(items)))
  }

  lemma LiteralsPlain(message: string)
    requires '%' !in message
    ensures Literals(message) == Some([message])
  {
    LiteralsSkip(message, "");
    NilRight(message);
    assert [""][1..] == [] && [message] + [] == [message];
  }

  lemma FormattedPlain(message: string, items: seq<Arg>)
    requires Run(NotPercent, message) == |message|
    ensures Formatted(message, items) == if items == [] then Some([Literal(message)]) else None
    ensures '%' !in message
  {
  }

  lemma PrintedOne(piece: Piece)
    ensures Printed([piece]) == TextOf(piece)
  {
    PrintedSnoc([], piece);
    assert [] + [piece] == [piece];
    assert Printed([]) + TextOf(piece) == TextOf(piece);
  }

  lemma FilledPlain(message: string, items: seq<Arg>)
    requires Run(NotPercent, message) == |message|
    ensures FilledAs(message, items)
  {
    FormattedPlain(message, items);
    LiteralsPlain(message);
    PrintedOne(Literal(message));
  }

  /** At a directive: the literal before it, and what it stands for. */
  lemma LiteralsAt(a: string, tail: string)
    requires '%' !in a && |tail| > 1 && tail[0] == '%'
    ensures tail[1] == '%' ==> Literals(a + tail) == Before(a, Before("%", Literals(tail[2..])))
    ensures tail[1] == 's' ==>
      Literals(a + tail) == Before(a, match Literals(tail[2..]) case None => None case Some(ls) => Some([""] + ls))
    ensures tail[1] != '%' && tail[1] != 's' ==> Literals(a + tail) == None
  {
    LiteralsSkip(a, tail);
  }

  lemma DirectiveAt(message: string, k: nat)
    requires k == Run(NotPercent, message) < |message|
    ensures '%' !in message[..k] && message == message[..k] + message[k..] && message[k..][0] == '%'
    ensures k + 1 < |message| ==> message[k..][1] == message[k + 1] && message[k..][2..] == message[k + 2..]
  {
    TailParts(message, k);
    forall c | c in message[..k] ensures c != '%' {
      var i :| 0 <= i < k && message[i] == c;
      assert NotPercent(message[i]);
    }
  }

  lemma TailParts(s: string, k: nat)
    requires k <= |s|
    ensures s == s[..k] + s[k..] && (k + 2 <= |s| ==> s[k..][2..] == s[k + 2..])
  {
  }

  lemma LiteralsAtArgument(message: string, k: nat, rest: Option<seq<string>>)
    requires k == Run(NotPercent, message) && k + 1 < |message| && message[k + 1] == 's'
    requires rest == Literals(message[k + 2..])
    ensures Literals(message) == match rest case None => None case Some(ls) => Some([message[..k]] + ls)
  {
    DirectiveAt(message, k);
    LiteralsAt(message[..k], message[k..]);
    NilRight(message[..k]);
    if rest.Some? {
      ConsParts("", rest.value);
    }
  }

  lemma LiteralsAtSign(message: string, k: nat, rest: Option<seq<string>>)
    requires k == Run(NotPercent, message) && k + 1 < |message| && message[k + 1] == '%'
    requires rest == Literals(message[k + 2..])
    ensures Literals(message) == Before(message[..k] + "%", rest)
  {
    DirectiveAt(message, k);
    LiteralsAt(message[..k], message[k..]);
    if rest.Some? {
      BeforeBefore(message[..k], "%", rest.value);
    }
  }

  lemma FormattedAt(message: string, items: seq<Arg>, k: nat)
    requires k == Run(NotPercent, message) && k + 1 < |message|
    ensures message[k + 1] == 's' && items != [] ==>
      Formatted(message, items) ==
      Then([Literal(message[..k]), Given(items[0])], Formatted(message[k + 2..], items[1..]))
    ensures message[k + 1] == '%' ==>
      Formatted(message, items) == Then([Literal(message[..k]), Sign], Formatted(message[k + 2..], items))
  {
  }

  lemma FillCons(a: string, ls: seq<string>, x: string, xs: seq<string>)
    requires |ls| == |xs| + 1
    ensures Fill([a] + ls, [x] + xs) == a + (x + Fill(ls, xs))
  {
    ConsParts(a, ls);
    ConsParts(x, xs);
  }

  lemma FilledArgument(message: string, items: seq<Arg>, k: nat)
    requires k == Run(NotPercent, message) && k + 1 < |message| && message[k + 1] == 's' && items != []
    requires FilledAs(message[k + 2..], items[1..])
    ensures FilledAs(message, items)
  {
    var rest, pieces := Literals(message[k + 2..]), Formatted(message[k + 2..], items[1..]);
    LiteralsAtArgument(message, k, rest);
    FormattedAt(message, items, k);
    if pieces.Some? {
      FillCons(message[..k], rest.value, Shown(items[0]), ShownAll(items[1..]));
      PrintedPair(Literal(message[..k]), Given(items[0]), pieces.value);
    }
  }

  lemma FilledSign(message: string, items: seq<Arg>, k: nat)
    requires k == Run(NotPercent, message) && k + 1 < |message| && message[k + 1] == '%'
    requires FilledAs(message[k + 2..], items)
    ensures FilledAs(message, items)
  {
    var rest, pieces := Literals(message[k + 2..]), Formatted(message[k + 2..], items);
    LiteralsAtSign(message, k, rest);
    FormattedAt(message, items, k);
    if pieces.Some? {
      FillBefore(message[..k] + "%", rest.value, ShownAll(items));
      PrintedPair(Literal(message[..k]), Sign, pieces.value);
      Assoc(message[..k], "%", Fill(rest.value, ShownAll(items)));
    }
  }

  /** Any other directive, or a message that ends in `%`, is formatted by neither. */
  lemma NeitherFormats(message: string, items: seq<Arg>, k: nat)
    requires k == Run(NotPercent, message) < |message|
    requires k + 1 < |message| ==> message[k + 1] != '%' && (message[k + 1] == 's' ==> items == [])
    ensures FilledAs(message, items)
  {
    DirectiveAt(message, k);
    if k + 1 < |message| {
      LiteralsAt(message[..k], message[k..]);
      if message[k + 1] == 's' {
        LiteralsAtArgument(message, k, Literals(message[k + 2..]));
      }
    } else {
      LiteralsSkip(message[..k], message[k..]);
      assert |message[k..]| == 1;
    }
  }

  lemma {:induction false} FormattedIsFilled(message: string, items: seq<Arg>)
    ensures FilledAs(message, items)
    decreases |message|
  {
    var k := Run(NotPercent, message);
    if k == |message| {
      FilledPlain(message, items);
    } else if k + 1 < |message| && message[k + 1] == 's' && items != [] {
      FormattedIsFilled(message[k + 2..], items[1..]);
      FilledArgument(message, items, k);
    } else if k + 1 < |message| && message[k + 1] == '%' {
      FormattedIsFilled(message[k + 2..], items);
      FilledSign(message, items, k);
    } else {
      NeitherFormats(message, items, k);
    }
  }

  // ---- for a list of secrets ----

  /** No other secret of the list stands in `p`. */
  ghost predicate Minimal(p: string, secrets: seq<string>) {
    forall q | q in secrets :: Occurs(q, p) ==> q == p
  }

  lemma OccursIsShorter(q: string, p: string)
    requires Occurs(q, p)
    ensures |q| <= |p| && (|q| == |p| ==> q == p)
  {
    var i :| OccursAt(q, p, i);
    assert |q| == |p| ==> p[0..|p|] == p;
  }

  /** A minimal secret stands in every secret. */
  lemma {:induction false} HoldsMinimal(p: string, secrets: seq<string>) returns (q: string)
    requires p in secrets
    ensures q in secrets && Minimal(q, secrets) && Occurs(q, p)
    decreases |p|
  {
    if Minimal(p, secrets) {
      q := p;
      assert OccursAt(p, p, 0);
    } else {
      var r :| r in secrets && Occurs(r, p) && r != p;
      OccursIsShorter(r, p);
      q := HoldsMinimal(r, secrets);
      OccursWithin(q, r, p);
    }
  }

  predicate AllStrings(items: seq<Arg>) {
    forall a | a in items :: a.Str?
  }

  /** The line printed from the scrubbed record, and no secret in it. */
  ghost predicate LineHides(message: string, items: seq<Arg>, secrets: seq<string>)
    requires "" !in secrets
  {
    var line := Line(ScrubbedArg(Str(message), secrets), ScrubbedArgs(Tuple(items), secrets));
    line.Some? && forall p | p in secrets :: !Occurs(p, Printed(line.value))
  }

  /** The line is the filled template. */
  lemma LineIsFilled(message: string, items: seq<Arg>, secrets: seq<string>, ls: seq<string>)
    requires "" !in secrets && items != []
    requires Literals(Scrubbed(message, secrets)) == Some(ls) && |ls| == |items| + 1
    ensures
      var args := ScrubbedArgs(Tuple(items), secrets);
      var line := Line(ScrubbedArg(Str(message), secrets), args);
      line.Some? && Printed(line.value) == Fill(ls, ShownAll(args.items))
  {
    FormattedIsFilled(Scrubbed(message, secrets), ScrubbedArgs(Tuple(items), secrets).items);
  }

  lemma {:induction false} ShownAt(items: seq<Arg>, i: nat)
    requires i < |items|
    ensures ShownAll(items)[i] == Shown(items[i])
  {
    if i > 0 {
      ShownAt(items[1..], i - 1);
    }
  }

  /** Scrubbed strings show no secret. */
  lemma ScrubbedShowsNone(items: seq<Arg>, secrets: seq<string>, p: string)
    requires AllCovered(secrets) && AllStrings(items) && p in secrets
    ensures forall x | x in ShownAll(ScrubbedArgs(Tuple(items), secrets).items) :: !Occurs(p, x)
  {
    var scrubbed := ScrubbedArgs(Tuple(items), secrets).items;
    forall x | x in ShownAll(scrubbed) ensures !Occurs(p, x) {
      var i :| 0 <= i < |items| && ShownAll(scrubbed)[i] == x;
      ShownAt(scrubbed, i);
      assert items[i] in items;
      NoSecretSurvives(items[i].s, secrets);
    }
  }

  lemma SafeHides(message: string, items: seq<Arg>, secrets: seq<string>, ls: seq<string>)
    requires AllCovered(secrets) && AllStrings(items) && items != []
    requires Literals(Scrubbed(message, secrets)) == Some(ls) && |ls| == |items| + 1
    requires forall p | p in secrets && Minimal(p, secrets) :: Safe(p, ls)
    ensures LineHides(message, items, secrets)
  {
    LineIsFilled(message, items, secrets, ls);
    var xs := ShownAll(ScrubbedArgs(Tuple(items), secrets).items);
    forall p | p in secrets ensures !Occurs(p, Fill(ls, xs)) {
      var q := HoldsMinimal(p, secrets);
      ScrubbedShowsNone(items, secrets, q);
      SafeFills(q, ls, xs);
      if Occurs(p, Fill(ls, xs)) {
        OccursWithin(q, p, Fill(ls, xs));
      }
    }
  }

  function Strings(xs: seq<string>): (items: seq<Arg>)
    ensures |items| == |xs| && forall i | 0 <= i < |xs| :: items[i] == Str(xs[i])
  {
    seq(|xs|, i requires 0 <= i < |xs| => Str(xs[i]))
  }

  /** A fragment of a minimal secret is left as it is. */
  lemma FragmentIsKept(x: string, p: string, secrets: seq<string>)
    requires "" !in secrets && p in secrets && Minimal(p, secrets) && |x| < |p| && Occurs(x, p)
    ensures Scrubbed(x, secrets) == x
  {
    forall q | q in secrets ensures !Occurs(q, x) {
      if Occurs(q, x) {
        OccursWithin(q, x, p);
        OccursIsShorter(q, x);
      }
    }
    CleanTextIsKept(x, secrets);
  }

  /** The arguments that make an unsafe template print a minimal secret. */
  lemma UnsafeLeaks(message: string, secrets: seq<string>, ls: seq<string>, p: string) returns (items: seq<Arg>)
    requires "" !in secrets && p in secrets && Minimal(p, secrets)
    requires Literals(Scrubbed(message, secrets)) == Some(ls) && |ls| > 1 && !Safe(p, ls)
    ensures AllStrings(items) && |items| == |ls| - 1 && !LineHides(message, items, secrets)
  {
    var i, u, v := UnsafeFills(p, ls);
    var xs := Around(|ls| - 1, i, u, v);
    items := Strings(xs);
    LineIsFilled(message, items, secrets, ls);
    var scrubbed := ScrubbedArgs(Tuple(items), secrets).items;
    EmptyOccurs(p);
    FragmentIsKept("", p, secrets);
    FragmentIsKept(u, p, secrets);
    FragmentIsKept(v, p, secrets);
    forall j | 0 <= j < |xs| ensures ShownAll(scrubbed)[j] == xs[j] {
      ShownAt(scrubbed, j);
    }
    assert ShownAll(scrubbed) == xs;
  }

  /** A template hides every secret, whatever strings are put into it, exactly when each secret that
      holds no other finds it safe: no literal holds the secret, ends into it before an argument,
      starts out of it after one, or stands inside it between two.  All of this can be read off
      the scrubbed message and the secrets before anything is logged. */
  lemma TemplateHidesExactly(message: string, secrets: seq<string>, ls: seq<string>)
    requires AllCovered(secrets)
    requires Literals(Scrubbed(message, secrets)) == Some(ls) && |ls| > 1
    ensures
      (forall items: seq<Arg> | AllStrings(items) && |items| == |ls| - 1 :: LineHides(message, items, secrets))
      <==> (forall p | p in secrets && Minimal(p, secrets) :: Safe(p, ls))
  {
    if forall p | p in secrets && Minimal(p, secrets) :: Safe(p, ls) {
      forall items: seq<Arg> | AllStrings(items) && |items| == |ls| - 1 ensures LineHides(message, items, secrets) {
        SafeHides(message, items, secrets, ls);
      }
    } else {
      var p :| p in secrets && Minimal(p, secrets) && !Safe(p, ls);
      var items := UnsafeLeaks(message, secrets, ls, p);
    }
  }
}
