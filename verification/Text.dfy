/** The results the models below return instead of raising. */
module Wrappers {
  datatype Option<+T> = None | Some(value: T)
}

/** Python's string operations, on sequences of code points, and the facts about them the models share. */
module Text {

  lemma Assoc<T>(a: seq<T>, b: seq<T>, c: seq<T>)
    ensures (a + b) + c == a + (b + c)
  {
  }

  lemma ConsTail<T>(s: seq<T>)
    requires s != []
    ensures s == [s[0]] + s[1..]
  {
  }

  lemma ConsParts<T>(x: T, s: seq<T>)
    ensures ([x] + s)[0] == x && ([x] + s)[1..] == s
  {
  }

  lemma NilRight<T>(s: seq<T>)
    ensures s + [] == s && [] + s == s
  {
  }

  /** `"".join(parts)`, or the bytes received so far. */
  function Concat<T>(parts: seq<seq<T>>): seq<T> {
    if parts == [] then [] else Concat(parts[..|parts| - 1]) + parts[|parts| - 1]
  }

  /** `sep.join(parts)`. */
  function Join(sep: string, parts: seq<string>): string {
    if |parts| == 0 then ""
    else if |parts| == 1 then parts[0]
    else parts[0] + sep + Join(sep, parts[1..])
  }

  /** `s.split(c)` for a one-character separator: always at least one piece. */
  function Split(c: char, s: string): (parts: seq<string>)
    ensures |parts| >= 1
  {
    if s == "" then [""]
    else
      var rest := Split(c, s[1..]);
      if s[0] == c then [""] + rest else [[s[0]] + rest[0]] + rest[1..]
  }

  lemma {:induction false} SplitAppend(c: char, a: string, s: string)
    requires c !in a
    ensures Split(c, a + s) == [a + Split(c, s)[0]] + Split(c, s)[1..]
  {
    if a == "" {
      assert a + s == s && a + Split(c, s)[0] == Split(c, s)[0];
    } else {
      assert (a + s)[1..] == a[1..] + s;
      SplitAppend(c, a[1..], s);
      assert a + Split(c, s)[0] == [a[0]] + (a[1..] + Split(c, s)[0]);
    }
  }

  lemma {:induction false} SplitJoin(c: char, parts: seq<string>)
    requires |parts| >= 1
    requires forall p | p in parts :: c !in p
    ensures Split(c, Join([c], parts)) == parts
  {
    if |parts| == 1 {
      SplitAppend(c, parts[0], "");
      assert parts[0] + "" == parts[0];
    } else {
      var tail := Join([c], parts[1..]);
      SplitJoin(c, parts[1..]);
      assert ([c] + tail)[1..] == tail;
      SplitAppend(c, parts[0], [c] + tail);
      assert Join([c], parts) == parts[0] + ([c] + tail);
      assert parts[0] + "" == parts[0];
    }
  }

  lemma {:induction false} JoinSplit(c: char, s: string)
    ensures Join([c], Split(c, s)) == s
    ensures forall p | p in Split(c, s) :: c !in p
  {
    if s != "" {
      JoinSplit(c, s[1..]);
      var rest := Split(c, s[1..]);
      if s[0] == c {
        assert ([""] + rest)[1..] == rest;
      } else {
        var parts := [[s[0]] + rest[0]] + rest[1..];
        if |rest| > 1 {
          assert parts[1..] == rest[1..];
        }
      }
    }
  }

  /** How many leading characters of `s` satisfy `p`. */
  function Run(p: char -> bool, s: string): (k: nat)
    ensures k <= |s|
    ensures forall i | 0 <= i < k :: p(s[i])
    ensures k < |s| ==> !p(s[k])
  {
    if s == "" || !p(s[0]) then 0 else 1 + Run(p, s[1..])
  }

  lemma {:induction false} RunStops(p: char -> bool, a: string, s: string)
    requires forall c | c in a :: p(c)
    requires s == "" || !p(s[0])
    ensures Run(p, a + s) == |a|
  {
    if a == "" {
      assert a + s == s;
    } else {
      assert (a + s)[1..] == a[1..] + s;
      RunStops(p, a[1..], s);
    }
  }

  predicate NotColon(c: char) { c != ':' }

  // ---- ASCII classes ----

  predicate IsDigit(c: char) { '0' <= c <= '9' }

  predicate IsLetter(c: char) { 'a' <= c <= 'z' || 'A' <= c <= 'Z' }

  /** `str.isspace` for one code point, and so what `strip` removes. */
  predicate IsSpace(c: char) {
    '\t' <= c <= '\r' || '\U{1c}' <= c <= ' ' || IsWideSpace(c)
  }

  predicate IsWideSpace(c: char) {
    var n := c as int;
    n == 0x85 || n == 0xa0 || n == 0x1680 || 0x2000 <= n <= 0x200a || n == 0x2028 || n == 0x2029
    || n == 0x202f || n == 0x205f || n == 0x3000
  }

  function LStrip(s: string): string { s[Run(IsSpace, s)..] }

  function RStrip(s: string): (r: string)
    ensures r <= s
    ensures r == "" || !IsSpace(r[|r| - 1])
  {
    if s == "" || !IsSpace(s[|s| - 1]) then s else RStrip(s[..|s| - 1])
  }

  function Strip(s: string): string { RStrip(LStrip(s)) }

  lemma StripFixes(s: string)
    requires s != "" && !IsSpace(s[0]) && !IsSpace(s[|s| - 1])
    ensures Strip(s) == s
  {
  }

  function HexDigit(n: nat): char
    requires n < 16
  {
    if n < 10 then '0' + n as char else 'a' + (n - 10) as char
  }

  // ---- decimal numerals ----

  function DigitChar(n: nat): (c: char)
    requires n < 10
    ensures IsDigit(c)
  {
    '0' + n as char
  }

  /** `str(n)` for a natural number. */
  function NatText(n: nat): (s: string)
    ensures s != "" && forall c | c in s :: IsDigit(c)
  {
    if n < 10 then [DigitChar(n)] else NatText(n / 10) + [DigitChar(n % 10)]
  }

  /** The value of a run of ASCII digits. */
  function NatValue(s: string): nat
    requires forall c | c in s :: IsDigit(c)
  {
    if s == "" then 0 else assert IsDigit(s[|s| - 1]); 10 * NatValue(s[..|s| - 1]) + (s[|s| - 1] as int - '0' as int)
  }

  lemma {:induction false} NatTextValue(n: nat)
    ensures NatValue(NatText(n)) == n
  {
    if n < 10 {
      assert NatText(n)[..0] == "";
    } else {
      NatTextValue(n / 10);
      assert NatText(n)[..|NatText(n)| - 1] == NatText(n / 10);
    }
  }

  /** `needle in hay`, with the position that shows it. */
  ghost predicate OccursAt(needle: string, hay: string, i: int) {
    0 <= i <= |hay| - |needle| && hay[i..i + |needle|] == needle
  }

  ghost predicate Occurs(needle: string, hay: string) {
    exists i :: OccursAt(needle, hay, i)
  }

  lemma OccursInTail(w: string, s: string, k: nat)
    requires k <= |s|
    ensures Occurs(w, s[k..]) ==> Occurs(w, s)
  {
    if Occurs(w, s[k..]) {
      var i :| OccursAt(w, s[k..], i);
      assert OccursAt(w, s, i + k);
    }
  }

  lemma EmptyOccurs(s: string)
    ensures Occurs("", s)
  {
    assert OccursAt("", s, 0);
  }

  lemma OccursWithin(w: string, s: string, t: string)
    requires Occurs(w, s) && Occurs(s, t)
    ensures Occurs(w, t)
  {
    var i :| OccursAt(w, s, i);
    var j :| OccursAt(s, t, j);
    assert forall m | 0 <= m < |w| :: t[j + i + m] == t[j..j + |s|][i + m] == w[m];
    assert OccursAt(w, t, j + i) by { assert t[j + i..j + i + |w|] == w; }
  }

  lemma CharsAt(w: string, s: string, i: int, j: int)
    ensures OccursAt(w, s, i) && 0 <= j < |w| ==> s[i + j] == w[j]
  {
  }

  // ---- letters up to case ----

  predicate SameLetter(c: char, w: char) { c == w || ('a' <= w <= 'z' && c as int + 32 == w as int) }

  /** The same word, with capitals or not; `w` is written in small letters. */
  predicate SameUpToCase(s: string, w: string) {
    |s| == |w| && forall i | 0 <= i < |s| :: SameLetter(s[i], w[i])
  }
}
