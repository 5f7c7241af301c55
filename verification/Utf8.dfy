/** UTF-8 as CPython reads and writes it, malformed input included (`errors="replace"`).

    A sequence that breaks off is one U+FFFD, and decoding goes on with the byte that broke it;
    a byte that begins nothing is one U+FFFD as well. */
module Utf8 {
  import opened Text

  type byte = n: nat | n < 256

  const REPLACEMENT: char := '\U{fffd}'

  function EncodeChar(c: char): (b: seq<byte>)
    ensures 1 <= |b| <= 4
  {
    var n := c as int;
    if n < 0x80 then [n]
    else if n < 0x800 then [0xc0 + n / 64, 0x80 + n % 64]
    else if n < 0x10000 then [0xe0 + n / 4096, 0x80 + n / 64 % 64, 0x80 + n % 64]
    else [0xf0 + n / 262144, 0x80 + n / 4096 % 64, 0x80 + n / 64 % 64, 0x80 + n % 64]
  }

  function Encode(s: string): seq<byte> {
    if s == "" then [] else EncodeChar(s[0]) + Encode(s[1..])
  }

  predicate IsCont(b: byte) { 0x80 <= b < 0xc0 }

  /** Nothing here continues a sequence begun before. */
  predicate StartsClean(b: seq<byte>) { b == [] || !IsCont(b[0]) }

  /** The second bytes a lead byte admits: no overlong form, no surrogate, nothing past U+10FFFF. */
  predicate Second(lead: byte, b: byte) {
    IsCont(b)
    && (lead == 0xe0 ==> b >= 0xa0) && (lead == 0xed ==> b < 0xa0)
    && (lead == 0xf0 ==> b >= 0x90) && (lead == 0xf4 ==> b < 0x90)
  }

  /** How many bytes after `lead` a complete sequence has; 0 also for a byte that leads nothing. */
  function Trail(lead: byte): nat {
    if 0xc2 <= lead < 0xe0 then 1 else if 0xe0 <= lead < 0xf0 then 2 else if 0xf0 <= lead < 0xf5 then 3 else 0
  }

  /** How many of the bytes after the lead belong to its sequence, which may stop early. */
  function Follows(b: seq<byte>): (k: nat)
    requires b != []
    ensures k <= Trail(b[0]) && k < |b|
    ensures forall i | 1 <= i <= k :: IsCont(b[i])
  {
    if Trail(b[0]) < 1 || |b| < 2 || !Second(b[0], b[1]) then 0
    else if Trail(b[0]) < 2 || |b| < 3 || !IsCont(b[2]) then 1
    else if Trail(b[0]) < 3 || |b| < 4 || !IsCont(b[3]) then 2
    else 3
  }

  /** The code point of a complete sequence. */
  function CodePoint(b: seq<byte>): int
    requires b != [] && Follows(b) == Trail(b[0])
  {
    var lead: int := b[0];
    if Trail(b[0]) == 0 then lead
    else if Trail(b[0]) == 1 then (lead - 0xc0) * 64 + Low(b[1])
    else if Trail(b[0]) == 2 then (lead - 0xe0) * 4096 + Low(b[1]) * 64 + Low(b[2])
    else (lead - 0xf0) * 262144 + Low(b[1]) * 4096 + Low(b[2]) * 64 + Low(b[3])
  }

  function Low(b: byte): int { b as int - 0x80 }

  /** The next character; a sequence that is cut short, or a stray byte, reads as U+FFFD. */
  function DecodeChar(b: seq<byte>): char
    requires b != []
  {
    if b[0] < 0x80 || (Trail(b[0]) > 0 && Follows(b) == Trail(b[0])) then CodePoint(b) as char else REPLACEMENT
  }

  function Decode(b: seq<byte>): string
    decreases |b|
  {
    if b == [] then "" else [DecodeChar(b)] + Decode(b[1 + Follows(b)..])
  }

  lemma ThreeBytes(n: int, b: seq<byte>)
    requires 0x800 <= n < 0x10000 && !(0xd800 <= n < 0xe000) && |b| >= 3
    requires b[0] == 0xe0 + n / 4096 && b[1] == 0x80 + n / 64 % 64 && b[2] == 0x80 + n % 64
    ensures Follows(b) == 2 == Trail(b[0]) && CodePoint(b) == n
  {
  }

  lemma Sextets(n: nat)
    ensures n / 64 / 64 == n / 4096 && n / 4096 / 64 == n / 262144
    ensures n / 4096 == n / 262144 * 64 + n / 4096 % 64
    ensures n == n / 4096 * 4096 + n / 64 % 64 * 64 + n % 64
  {
  }

  lemma FourBytes(n: int, b: seq<byte>)
    requires 0x10000 <= n < 0x110000 && |b| >= 4
    requires b[0] == 0xf0 + n / 262144 && b[1] == 0x80 + n / 4096 % 64
    requires b[2] == 0x80 + n / 64 % 64 && b[3] == 0x80 + n % 64
    ensures Follows(b) == 3 == Trail(b[0]) && CodePoint(b) == n
  {
    Sextets(n);
    FourParts(n, n / 262144, n / 4096 % 64, n / 64 % 64, n % 64, b);
  }

  /** The same with the four parts of the code point given. */
  lemma FourParts(n: int, a: nat, x: nat, y: nat, z: nat, b: seq<byte>)
    requires 0x10000 <= n < 0x110000 && |b| >= 4 && x < 64 && y < 64 && z < 64
    requires n == (a * 64 + x) * 4096 + y * 64 + z
    requires b[0] == 0xf0 + a && b[1] == 0x80 + x && b[2] == 0x80 + y && b[3] == 0x80 + z
    ensures Follows(b) == 3 == Trail(b[0]) && CodePoint(b) == n
  {
  }

  lemma EncodeCharReads(c: char, rest: seq<byte>)
    ensures StartsClean(EncodeChar(c))
    ensures Follows(EncodeChar(c) + rest) == |EncodeChar(c)| - 1
    ensures DecodeChar(EncodeChar(c) + rest) == c
  {
    var n := c as int;
    var b := EncodeChar(c) + rest;
    assert forall i | 0 <= i < |EncodeChar(c)| :: b[i] == EncodeChar(c)[i];
    if n < 0x80 {
    } else if n < 0x800 {
    } else if n < 0x10000 {
      ThreeBytes(n, b);
    } else {
      FourBytes(n, b);
    }
  }

  lemma DecodeCons(c: char, rest: seq<byte>)
    ensures Decode(EncodeChar(c) + rest) == [c] + Decode(rest)
  {
    var b := EncodeChar(c) + rest;
    EncodeCharReads(c, rest);
    assert b[|EncodeChar(c)|..] == rest;
  }

  lemma {:induction false} DecodeAppend(s: string, rest: seq<byte>)
    ensures Decode(Encode(s) + rest) == s + Decode(rest)
  {
    if s == "" {
      assert Encode(s) + rest == rest;
      NilRight(Decode(rest));
    } else {
      DecodeAppend(s[1..], rest);
      DecodeCons(s[0], Encode(s[1..]) + rest);
      Assoc(EncodeChar(s[0]), Encode(s[1..]), rest);
      ConsTail(s);
      Assoc([s[0]], s[1..], Decode(rest));
    }
  }

  /** What is encoded decodes to itself. */
  lemma DecodeEncode(s: string)
    ensures Decode(Encode(s)) == s
  {
    DecodeAppend(s, []);
    NilRight(Encode(s));
    NilRight(s);
  }

  lemma {:induction false} EncodeConcat(a: string, b: string)
    ensures Encode(a + b) == Encode(a) + Encode(b)
  {
    if a == "" {
      NilRight(b);
      NilRight(Encode(b));
    } else {
      assert (a + b)[1..] == a[1..] + b;
      EncodeConcat(a[1..], b);
      Assoc(EncodeChar(a[0]), Encode(a[1..]), Encode(b));
    }
  }

  // ---- malformed input: the decoder resynchronises, and never grows its input ----

  lemma FollowsStays(a: seq<byte>, b: seq<byte>)
    requires a != [] && StartsClean(b)
    ensures Follows(a + b) == Follows(a) && DecodeChar(a + b) == DecodeChar(a)
  {
  }

  lemma DecodeFrom(b: seq<byte>, rest: seq<byte>)
    requires b != [] && rest == b[1 + Follows(b)..]
    ensures Decode(b) == [DecodeChar(b)] + Decode(rest)
  {
  }

  /** A byte that continues nothing separates what is before it from what follows. */
  lemma {:induction false} Resynchronises(a: seq<byte>, b: seq<byte>)
    requires StartsClean(b)
    ensures Decode(a + b) == Decode(a) + Decode(b)
    decreases |a|
  {
    if a == [] {
      NilRight(b);
      NilRight(Decode(b));
    } else {
      FollowsStays(a, b);
      var rest := a[1 + Follows(a)..];
      assert (a + b)[1 + Follows(a)..] == rest + b;
      DecodeFrom(a + b, rest + b);
      DecodeFrom(a, rest);
      Resynchronises(rest, b);
      Assoc([DecodeChar(a)], Decode(rest), Decode(b));
    }
  }

  lemma {:induction false} StrayBytes(b: seq<byte>, j: nat)
    requires j <= |b| && forall i | 0 <= i < j :: IsCont(b[i])
    ensures |Decode(b)| == j + |Decode(b[j..])|
  {
    if j > 0 {
      StrayBytes(b[1..], j - 1);
      assert b[1..][j - 1..] == b[j..];
    }
  }

  /** One more byte in front is at most one more character. */
  lemma OneByteMore(x: byte, b: seq<byte>)
    ensures |Decode([x] + b)| <= 1 + |Decode(b)|
  {
    var xb := [x] + b;
    var j := Follows(xb);
    assert forall i | 0 <= i < j :: b[i] == xb[i + 1];
    StrayBytes(b, j);
    assert xb[1 + j..] == b[j..];
  }
}
