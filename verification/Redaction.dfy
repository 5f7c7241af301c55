/** `logging_redaction.py`: known secret values are replaced, longest first, in every log record. */
module Redaction {
  import opened Text

  const PLACEHOLDER := "***"
  const MIN_REDACTABLE_LENGTH := 4

  /** `s.replace(p, PLACEHOLDER)`: leftmost, non-overlapping. */
  function Replace(s: string, p: string): string
    requires p != ""
    decreases |s|
  {
    if s == "" then ""
    else if p <= s then PLACEHOLDER + Replace(s[|p|..], p)
    else [s[0]] + Replace(s[1..], p)
  }

  /** Every secret in turn, which is what `_scrub` does. */
  function Scrubbed(s: string, secrets: seq<string>): string
    requires "" !in secrets
    decreases |secrets|
  {
    if secrets == [] then s else Scrubbed(Replace(s, secrets[0]), secrets[1..])
  }

  // ---- what a replacement is: cut at the needle, join with the placeholder ----

  function Pieces(s: string, p: string): (parts: seq<string>)
    requires p != ""
    ensures |parts| >= 1
    decreases |s|
  {
    if s == "" then [""]
    else if p <= s then [""] + Pieces(s[|p|..], p)
    else
      var rest := Pieces(s[1..], p);
      [[s[0]] + rest[0]] + rest[1..]
  }

  lemma {:induction false} FirstPiece(s: string, p: string)
    requires p != ""
    ensures Pieces(s, p)[0] <= s
    decreases |s|
  {
    if s != "" && !(p <= s) {
      FirstPiece(s[1..], p);
    }
  }

  lemma JoinHead(sep: string, a: string, parts: seq<string>)
    requires parts != []
    ensures Join(sep, [a + parts[0]] + parts[1..]) == a + Join(sep, parts)
  {
  }

  lemma JoinEmpty(sep: string, parts: seq<string>)
    requires parts != []
    ensures Join(sep, [""] + parts) == sep + Join(sep, parts)
  {
  }

  lemma ConsHoldsNone(p: string, c: char, rest: string)
    requires !(p <= [c] + rest) && !Occurs(p, rest)
    ensures !Occurs(p, [c] + rest)
  {
    var q := [c] + rest;
    assert q[1..] == rest;
    forall i ensures !OccursAt(p, q, i) {
      assert OccursAt(p, q, 0) ==> p <= q;
      assert OccursAt(p, q, i) && i > 0 ==> OccursAt(p, rest, i - 1);
    }
  }

  lemma FirstPieceHoldsNone(s: string, p: string)
    requires p != "" && s != "" && !(p <= s) && !Occurs(p, Pieces(s[1..], p)[0])
    ensures !Occurs(p, Pieces(s, p)[0])
  {
    FirstPiece(s, p);
    var rest := Pieces(s[1..], p)[0];
    assert Pieces(s, p)[0] == [s[0]] + rest;
    ConsHoldsNone(p, s[0], rest);
  }

  /** The text is its pieces around the secret, none of which holds it; the result is the same pieces around `***`. */
  lemma {:induction false} ReplaceKeepsTheRest(s: string, p: string)
    requires p != ""
    ensures Join(p, Pieces(s, p)) == s
    ensures Join(PLACEHOLDER, Pieces(s, p)) == Replace(s, p)
    ensures forall q | q in Pieces(s, p) :: !Occurs(p, q)
    decreases |s|
  {
    if p <= s {
      var rest := Pieces(s[|p|..], p);
      ReplaceKeepsTheRest(s[|p|..], p);
      JoinEmpty(p, rest);
      JoinEmpty(PLACEHOLDER, rest);
      assert s == p + s[|p|..];
    } else if s != "" {
      var rest := Pieces(s[1..], p);
      ReplaceKeepsTheRest(s[1..], p);
      JoinHead(p, [s[0]], rest);
      JoinHead(PLACEHOLDER, [s[0]], rest);
      ConsTail(s);
      FirstPieceHoldsNone(s, p);
    }
  }

  // ---- no secret survives ----

  /** A secret no placeholder can help to spell: no `*` at either end, and no `***` inside. */
  ghost predicate Sound(p: string) {
    p != "" && p[0] != '*' && p[|p| - 1] != '*' && !Occurs(PLACEHOLDER, p)
  }

  lemma UnderStars(w: string, t: string)
    requires w <= PLACEHOLDER + t
    ensures w == "" || w[|w| - 1] == '*' || Occurs(PLACEHOLDER, w)
  {
    assert forall j | 0 <= j < |w| :: w[j] == (PLACEHOLDER + t)[j];
    assert |w| >= 3 ==> OccursAt(PLACEHOLDER, w, 0);
  }

  lemma TailPrefix(w: string, c: char, r: string)
    requires w != "" && w <= [c] + r
    ensures w[0] == c && w[1..] <= r
    ensures |w| > 1 ==> w[1..][|w| - 2] == w[|w| - 1]
  {
    ConsParts(c, r);
    assert w[1..] <= ([c] + r)[1..];
  }

  lemma {:induction false} PrefixIsOriginal(w: string, s: string, p: string)
    requires p != "" && w <= Replace(s, p)
    requires !Occurs(PLACEHOLDER, w) && (w != "" ==> w[|w| - 1] != '*')
    ensures w <= s
    decreases |s|
  {
    if p <= s {
      UnderStars(w, Replace(s[|p|..], p));
    } else if w != "" {
      TailPrefix(w, s[0], Replace(s[1..], p));
      OccursInTail(PLACEHOLDER, w, 1);
      PrefixIsOriginal(w[1..], s[1..], p);
      ConsTail(w);
      ConsTail(s);
    }
  }

  /** A replacement creates no sound word that was not there, and removes its own. */
  lemma {:induction false} ReplaceCreatesNothing(w: string, s: string, p: string, i: int)
    requires p != "" && Sound(w)
    requires OccursAt(w, Replace(s, p), i)
    ensures Occurs(w, s) && w != p
    decreases |s|
  {
    if p <= s {
      ReplaceCreatesNothing(w, s[|p|..], p, i - 3);
      OccursInTail(w, s, |p|);
    } else if i == 0 {
      assert w <= Replace(s, p);
      PrefixIsOriginal(w, s, p);
      assert OccursAt(w, s, 0);
    } else {
      assert Replace(s, p)[1..] == Replace(s[1..], p);
      ReplaceCreatesNothing(w, s[1..], p, i - 1);
      OccursInTail(w, s, 1);
    }
  }

  ghost predicate AllSound(secrets: seq<string>) { "" !in secrets && forall p | p in secrets :: Sound(p) }

  lemma {:induction false} ScrubCreatesNothing(w: string, s: string, secrets: seq<string>)
    requires "" !in secrets && Sound(w) && Occurs(w, Scrubbed(s, secrets))
    ensures Occurs(w, s) && w !in secrets
    decreases |secrets|
  {
    if secrets != [] {
      ScrubCreatesNothing(w, Replace(s, secrets[0]), secrets[1..]);
      var i :| OccursAt(w, Replace(s, secrets[0]), i);
      ReplaceCreatesNothing(w, s, secrets[0], i);
    }
  }

  /** A sound secret of the list stands in `p`, which may be that secret itself. */
  ghost predicate HoldsSound(p: string, secrets: seq<string>) {
    exists q | q in secrets :: Sound(q) && Occurs(q, p)
  }

  ghost predicate AllCovered(secrets: seq<string>) {
    "" !in secrets && forall p | p in secrets :: HoldsSound(p, secrets)
  }

  lemma SoundIsCovered(secrets: seq<string>)
    requires AllSound(secrets)
    ensures AllCovered(secrets)
  {
    forall p | p in secrets ensures HoldsSound(p, secrets) {
      assert OccursAt(p, p, 0);
    }
  }

  /** Once a sound secret of the list stands in `p`, `p` is not left in the output. */
  lemma CoveredDoesNotSurvive(s: string, secrets: seq<string>, p: string)
    requires "" !in secrets && HoldsSound(p, secrets)
    ensures !Occurs(p, Scrubbed(s, secrets))
  {
    var q :| q in secrets && Sound(q) && Occurs(q, p);
    if Occurs(p, Scrubbed(s, secrets)) {
      OccursWithin(q, p, Scrubbed(s, secrets));
      ScrubCreatesNothing(q, s, secrets);
    }
  }

  /** No known secret is left in the output, whatever the text and the order of the secrets, if each
      of them is sound or holds a sound one of the list. */
  lemma NoSecretSurvives(s: string, secrets: seq<string>)
    requires AllCovered(secrets)
    ensures forall p | p in secrets :: !Occurs(p, Scrubbed(s, secrets))
  {
    forall p | p in secrets ensures !Occurs(p, Scrubbed(s, secrets)) {
      CoveredDoesNotSurvive(s, secrets, p);
    }
  }

  /** The usual credential: no `*` in it at all. */
  lemma StarlessIsSound(p: string)
    requires p != "" && '*' !in p
    ensures Sound(p)
  {
    forall i ensures !OccursAt(PLACEHOLDER, p, i) {
      CharsAt(PLACEHOLDER, p, i, 0);
      assert 0 <= i < |p| ==> p[i] in p;
    }
  }

  lemma {:induction false} ReplaceNothing(s: string, p: string)
    requires p != "" && !Occurs(p, s)
    ensures Replace(s, p) == s
  {
    if s != "" {
      assert p <= s ==> OccursAt(p, s, 0);
      OccursInTail(p, s, 1);
      ReplaceNothing(s[1..], p);
      ConsTail(s);
    }
  }

  /** A line with no secret in it is not touched. */
  lemma {:induction false} CleanTextIsKept(s: string, secrets: seq<string>)
    requires "" !in secrets && forall p | p in secrets :: !Occurs(p, s)
    ensures Scrubbed(s, secrets) == s
    decreases |secrets|
  {
    if secrets != [] {
      ReplaceNothing(s, secrets[0]);
      CleanTextIsKept(s, secrets[1..]);
    }
  }

  /** Scrubbing a scrubbed line again changes nothing. */
  lemma ScrubIsIdempotent(s: string, secrets: seq<string>)
    requires AllCovered(secrets)
    ensures Scrubbed(Scrubbed(s, secrets), secrets) == Scrubbed(s, secrets)
  {
    NoSecretSurvives(s, secrets);
    CleanTextIsKept(Scrubbed(s, secrets), secrets);
  }

  // ---- and the condition is exact ----

  lemma {:induction false} ReplaceFrom(a: string, p: string, b: string)
    requires p != "" && |b| < |p|
    requires forall i | 0 <= i < |a| :: !OccursAt(p, a + p + b, i)
    ensures Replace(a + p + b, p) == a + (PLACEHOLDER + b)
    decreases |a|
  {
    var s := a + p + b;
    if a == "" {
      assert s[|p|..] == b && p <= s;
      ReplaceNothing(b, p);
      NilRight(PLACEHOLDER + b);
    } else {
      assert p <= s ==> OccursAt(p, s, 0);
      assert s[1..] == a[1..] + p + b;
      forall i | 0 <= i < |a| - 1 ensures !OccursAt(p, s[1..], i) {
        assert OccursAt(p, s[1..], i) ==> OccursAt(p, s, i + 1);
      }
      ReplaceFrom(a[1..], p, b);
      assert s[0] == a[0];
      ConsTail(a);
      Assoc([a[0]], a[1..], PLACEHOLDER + b);
    }
  }

  /** A secret that begins with `*` can be spelled by a placeholder and what follows it. */
  lemma StarFirstSurvives(p: string) returns (s: string)
    requires p != "" && p[0] == '*'
    ensures Occurs(p, Replace(s, p))
  {
    var b := p[1..];
    s := "" + p + b;
    ReplaceFrom("", p, b);
    assert ("" + (PLACEHOLDER + b))[2..2 + |p|] == p;
    assert OccursAt(p, Replace(s, p), 2);
  }

  /** One that ends with `*`, by what precedes a placeholder and its first star. */
  lemma StarLastSurvives(p: string) returns (s: string)
    requires p != "" && p[0] != '*' && p[|p| - 1] == '*'
    ensures Occurs(p, Replace(s, p))
  {
    var n := |p| - 1;
    var a := p[..n];
    s := a + p + "";
    forall i | 0 <= i < |a| ensures !OccursAt(p, s, i) {
      assert s[i] == p[i] && s[i + n] == p[i];
      CharsAt(p, s, i, 0);
      CharsAt(p, s, i, n);
    }
    ReplaceFrom(a, p, "");
    assert (a + (PLACEHOLDER + ""))[0..0 + |p|] == p;
    assert OccursAt(p, Replace(s, p), 0);
  }

  lemma Middle(a: string, p: string, b: string, j: int)
    requires 0 <= j < |p|
    ensures (a + p + b)[|a| + j] == p[j]
  {
  }

  /** With the first stars of `p` at `k`, `p` does not occur before its own place. */
  lemma NotBefore(p: string, k: nat, b: string, i: nat)
    requires k + 3 <= |p| && p[k] == p[k + 1] == p[k + 2] == '*' && i < k && !OccursAt(PLACEHOLDER, p, i)
    ensures !OccursAt(p, p[..k] + p + b, i)
  {
    var s := p[..k] + p + b;
    if OccursAt(p, s, i) {
      CharsAt(p, s, i, k);
      CharsAt(p, s, i, k + 1);
      CharsAt(p, s, i, k + 2);
      Middle(p[..k], p, b, i);
      Middle(p[..k], p, b, i + 1);
      Middle(p[..k], p, b, i + 2);
      StarsAt(p, i);
    }
  }

  /** One with `***` inside, by a placeholder in the same place. */
  lemma StarsInsideSurvive(p: string) returns (s: string)
    requires p != "" && p[0] != '*' && p[|p| - 1] != '*' && Occurs(PLACEHOLDER, p)
    ensures Occurs(p, Replace(s, p))
  {
    var k := FirstStars(p);
    var a, b := p[..k], p[k + 3..];
    s := a + p + b;
    forall i | 0 <= i < |a| ensures !OccursAt(p, s, i) {
      NotBefore(p, k, b, i);
    }
    ReplaceFrom(a, p, b);
    StarsBetween(p, k);
    assert OccursAt(p, p, 0);
  }

  lemma StarsBetween(p: string, k: nat)
    requires k + 3 <= |p| && p[k] == p[k + 1] == p[k + 2] == '*'
    ensures p[..k] + (PLACEHOLDER + p[k + 3..]) == p
  {
    assert p[k..k + 3] == PLACEHOLDER;
    assert p == p[..k] + (p[k..k + 3] + p[k + 3..]);
  }

  lemma StarsAt(p: string, i: int)
    ensures 0 <= i && i + 2 < |p| ==> (OccursAt(PLACEHOLDER, p, i) <==> p[i] == p[i + 1] == p[i + 2] == '*')
  {
  }

  /** The first `***`, with no star just before it. */
  lemma FirstStars(p: string) returns (k: nat)
    requires p != "" && p[0] != '*' && p[|p| - 1] != '*' && Occurs(PLACEHOLDER, p)
    ensures 0 < k && k + 3 < |p| && p[k] == p[k + 1] == p[k + 2] == '*' && p[k - 1] != '*'
    ensures forall i | 0 <= i < k :: !OccursAt(PLACEHOLDER, p, i)
  {
    var n :| OccursAt(PLACEHOLDER, p, n);
    k := 0;
    while !OccursAt(PLACEHOLDER, p, k)
      invariant k <= n
      invariant forall i | 0 <= i < k :: !OccursAt(PLACEHOLDER, p, i)
      decreases n - k
    {
      k := k + 1;
    }
    StarsAt(p, k);
    StarsAt(p, k - 1);
  }

  ghost predicate Leaks(p: string, s: string)
    requires p != ""
  {
    Occurs(p, Replace(s, p))
  }

  lemma UnsoundLeaks(p: string) returns (s: string)
    requires p != "" && !Sound(p)
    ensures Leaks(p, s)
  {
    if p[0] == '*' {
      s := StarFirstSurvives(p);
    } else if p[|p| - 1] == '*' {
      s := StarLastSurvives(p);
    } else {
      s := StarsInsideSurvive(p);
    }
  }

  lemma OneSoundIsCovered(p: string)
    requires Sound(p)
    ensures AllCovered([p])
  {
    assert forall q | q in [p] :: q == p;
    SoundIsCovered([p]);
  }

  /** One secret is removed from every text exactly when it is sound. */
  lemma SoundIsExact(p: string)
    requires p != ""
    ensures Sound(p) <==> forall s :: !Leaks(p, s)
  {
    if Sound(p) {
      forall s ensures !Leaks(p, s) {
        OneSoundIsCovered(p);
        NoSecretSurvives(s, [p]);
        assert Scrubbed(s, [p]) == Scrubbed(Replace(s, p), [p][1..]) == Replace(s, p);
        assert p in [p];
      }
    } else {
      var s := UnsoundLeaks(p);
    }
  }

  /** A failing input: a four-star secret is read out of two placeholders. */
  lemma FourStarsLeak()
    ensures Occurs("****", Scrubbed("********", ["****"]))
  {
    var p := "****";
    assert "********" == p + (p + "");
    assert "********"[4..] == p && p[4..] == "";
    assert Replace("********", p) == "***" + ("***" + "");
    assert Scrubbed("********", [p]) == Scrubbed(Replace("********", p), [p][1..]);
    assert ("***" + ("***" + ""))[0..4] == p;
    assert OccursAt(p, Scrubbed("********", [p]), 0);
  }

  // ---- the filter ----

  /** A logging argument: only strings are looked into; any other value shows as some text. */
  datatype Arg = Str(s: string) | Other(shown: string)
  datatype Args = Tuple(items: seq<Arg>) | Dict(entries: map<string, Arg>) | Absent

  class LogRecord {
    var msg: Arg
    var args: Args

    constructor (msg: Arg, args: Args)
      ensures this.msg == msg && this.args == args
    {
      this.msg, this.args := msg, args;
    }
  }

  function ScrubbedArg(a: Arg, secrets: seq<string>): Arg
    requires "" !in secrets
  {
    match a case Str(s) => Str(Scrubbed(s, secrets)) case Other(_) => a
  }

  /** One level deep: a tuple's items, or a dictionary's values. */
  function ScrubbedArgs(args: Args, secrets: seq<string>): Args
    requires "" !in secrets
  {
    match args
    case Absent => Absent
    case Tuple(items) => Tuple(seq(|items|, i requires 0 <= i < |items| => ScrubbedArg(items[i], secrets)))
    case Dict(entries) => Dict(map k | k in entries :: ScrubbedArg(entries[k], secrets))
  }

  /** No secret in anything a handler can print from this argument. */
  ghost predicate Hides(a: Arg, secrets: seq<string>) {
    a.Str? ==> forall p | p in secrets :: !Occurs(p, a.s)
  }

  /** Longest first, and each value once. */
  ghost predicate LongestFirst(vs: seq<string>) {
    vs == [] || (LongestFirst(vs[1..]) && forall w | w in vs[1..] :: |vs[0]| >= |w| && w != vs[0])
  }

  /** Where the sort puts one more value. */
  function Inserted(vs: seq<string>, v: string): (r: seq<string>)
    ensures |r| == |vs| + 1
    ensures forall w :: w in r <==> w in vs || w == v
  {
    if vs == [] then [v]
    else if |vs[0]| >= |v| then [vs[0]] + Inserted(vs[1..], v)
    else [v] + vs
  }

  lemma {:induction false} InsertedSorts(vs: seq<string>, v: string)
    requires LongestFirst(vs) && v !in vs
    ensures LongestFirst(Inserted(vs, v))
  {
    if vs == [] {
    } else if |vs[0]| >= |v| {
      InsertedSorts(vs[1..], v);
      ConsParts(vs[0], Inserted(vs[1..], v));
    } else {
      ConsParts(v, vs);
      assert forall w | w in vs :: w == vs[0] || w in vs[1..];
    }
  }

  class RedactingFilter {
    var values: seq<string>

    ghost predicate Valid()
      reads this
    {
      && (forall v | v in values :: |v| >= MIN_REDACTABLE_LENGTH)
      && LongestFirst(values)
    }

    /** `sorted(values, key=len, reverse=True)` over the union, one value at a time. */
    constructor (store: seq<string>, extra: seq<string>)
      ensures Valid()
      ensures forall v :: v in values <==> (v in store || v in extra) && |v| >= 4
    {
      values := [];
      new;
      var all := store + extra;
      for i := 0 to |all|
        invariant Valid()
        invariant forall v :: v in values <==> v in all[..i] && |v| >= MIN_REDACTABLE_LENGTH
      {
        assert forall v :: v in all[..i + 1] <==> v in all[..i] || v == all[i];
        if |all[i]| >= MIN_REDACTABLE_LENGTH && all[i] !in values {
          InsertedSorts(values, all[i]);
          values := Inserted(values, all[i]);
        }
      }
      assert all[..|all|] == all;
    }

    method Scrub(value: Arg) returns (r: Arg)
      requires Valid()
      ensures "" !in values && r == ScrubbedArg(value, values)
    {
      match value
      case Other(_) => r := value;
      case Str(text) =>
        var s := text;
        for i := 0 to |values|
          invariant Scrubbed(text, values) == Scrubbed(s, values[i..])
        {
          assert values[i..][0] == values[i] && values[i..][1..] == values[i + 1..];
          s := Replace(s, values[i]);
        }
        r := Str(s);
    }

    /** Scrub a record in place: the message and, one level deep, each argument. */
    method Filter(record: LogRecord) returns (keep: bool)
      requires Valid()
      modifies record
      ensures keep && "" !in values
      ensures record.msg == ScrubbedArg(old(record.msg), values)
      ensures record.args == ScrubbedArgs(old(record.args), values)
    {
      record.msg := Scrub(record.msg);
      record.args := ScrubbedArgs(record.args, values);
      return true;
    }
  }

  /** After the filter no string of the record holds a known secret, and clean ones are as they were. */
  lemma FilteredHides(a: Arg, secrets: seq<string>)
    requires AllCovered(secrets)
    ensures Hides(ScrubbedArg(a, secrets), secrets)
    ensures Hides(a, secrets) ==> ScrubbedArg(a, secrets) == a
  {
    if a.Str? {
      NoSecretSurvives(a.s, secrets);
      if Hides(a, secrets) {
        CleanTextIsKept(a.s, secrets);
      }
    }
  }
}
