/** What UTF-8 decoding makes of any bytes, told by the encoding alone. */
module Utf8Exact {
  import opened Text
  import opened Utf8

  /** The bytes begin some character and stop short of its end. */
  ghost predicate Unfinished(b: seq<byte>) { exists c :: b < EncodeChar(c) }

  ghost predicate Begins(b: seq<byte>) { exists c :: EncodeChar(c) <= b }

  lemma Digits2(a: nat, x: nat)
    requires x < 64
    ensures (a * 64 + x) / 64 == a && (a * 64 + x) % 64 == x
  {
  }

  lemma Digits3(a: nat, x: nat, y: nat)
    requires x < 64 && y < 64
    ensures var n := a * 4096 + x * 64 + y; n / 4096 == a && n / 64 % 64 == x && n % 64 == y
  {
    Digits2(a * 64 + x, y);
    Digits2(a, x);
    assert a * 4096 + x * 64 + y == (a * 64 + x) * 64 + y;
    Sextets(a * 4096 + x * 64 + y);
  }

  lemma Digits4(a: nat, x: nat, y: nat, z: nat)
    requires x < 64 && y < 64 && z < 64
    ensures var n := a * 262144 + x * 4096 + y * 64 + z;
      n / 262144 == a && n / 4096 % 64 == x && n / 64 % 64 == y && n % 64 == z
  {
    var n := a * 262144 + x * 4096 + y * 64 + z;
    Digits3(a * 64 + x, y, z);
    assert n == (a * 64 + x) * 4096 + y * 64 + z;
    Digits2(a, x);
    Sextets(n);
  }

  /** A complete sequence is the encoding of its code point. */
  lemma CompleteIsChar(b: seq<byte>) returns (c: char)
    requires b != [] && Trail(b[0]) > 0 && Follows(b) == Trail(b[0])
    ensures EncodeChar(c) == b[..Trail(b[0]) + 1]
  {
    if Trail(b[0]) == 1 {
      c := TwoIsChar(b);
    } else if Trail(b[0]) == 2 {
      c := ThreeIsChar(b);
    } else {
      c := FourIsChar(b);
    }
  }

  lemma TwoIsChar(b: seq<byte>) returns (c: char)
    requires |b| >= 2 && Trail(b[0]) == 1 && IsCont(b[1])
    ensures EncodeChar(c) == b[..2]
  {
    var a, x := b[0] as int - 0xc0, Low(b[1]);
    Digits2(a, x);
    c := (a * 64 + x) as char;
  }

  lemma ThreeIsChar(b: seq<byte>) returns (c: char)
    requires |b| >= 3 && Trail(b[0]) == 2 && Second(b[0], b[1]) && IsCont(b[2])
    ensures EncodeChar(c) == b[..3]
  {
    var a, x, y := b[0] as int - 0xe0, Low(b[1]), Low(b[2]);
    Digits3(a, x, y);
    var n := a * 4096 + x * 64 + y;
    assert 0x800 <= n < 0x10000 && !(0xd800 <= n < 0xe000);
    c := n as char;
  }

  lemma FourIsChar(b: seq<byte>) returns (c: char)
    requires |b| >= 4 && Trail(b[0]) == 3 && Second(b[0], b[1]) && IsCont(b[2]) && IsCont(b[3])
    ensures EncodeChar(c) == b[..4]
  {
    var a, x, y, z := b[0] as int - 0xf0, Low(b[1]), Low(b[2]), Low(b[3]);
    Digits4(a, x, y, z);
    var n := a * 262144 + x * 4096 + y * 64 + z;
    assert 0x10000 <= n < 0x110000;
    c := n as char;
  }

  /** Bytes that a character's encoding shares follow their lead. */
  lemma SharedFollow(c: char, b: seq<byte>, j: nat)
    requires 1 <= j <= |b| && b[..j] <= EncodeChar(c)
    ensures Follows(b) >= j - 1 && (c as int >= 0x80 ==> Trail(b[0]) + 1 == |EncodeChar(c)|)
    ensures c as int < 0x80 ==> b[0] as int == c as int && Trail(b[0]) == 0
  {
    var e := EncodeChar(c);
    EncodeCharReads(c, []);
    NilRight(e);
    assert forall i | 0 <= i < j :: b[i] == b[..j][i] == e[i];
  }

  /** What may follow a lead that the next byte does not. */
  function Filler(lead: byte): byte {
    if lead == 0xe0 then 0xa0 else if lead == 0xf0 then 0x90 else 0x80
  }

  /** A sequence that breaks off can be finished. */
  lemma BrokenOff(b: seq<byte>)
    requires b != [] && Follows(b) < Trail(b[0])
    ensures Unfinished(b[..Follows(b) + 1])
  {
    var k, n := Follows(b), Trail(b[0]);
    var more: seq<byte> := if k == 0 then [Filler(b[0])] + [0x80, 0x80][..n - 1] else [0x80, 0x80][..n - k];
    var whole := b[..k + 1] + more;
    assert forall i | 0 <= i <= k :: whole[i] == b[i];
    assert forall i | k < i <= n :: whole[i] == more[i - k - 1];
    assert |whole| == n + 1 && Follows(whole) == n;
    var c := CompleteIsChar(whole);
    assert whole[..n + 1] == whole;
    assert b[..k + 1] < EncodeChar(c);
  }

  lemma NothingLonger(b: seq<byte>, j: nat)
    requires b != [] && Follows(b) + 1 < j <= |b|
    ensures !Unfinished(b[..j])
  {
    if c :| b[..j] < EncodeChar(c) {
      SharedFollow(c, b, j);
    }
  }

  lemma PlainBegins(b: seq<byte>)
    requires b != [] && b[0] < 0x80
    ensures Begins(b)
  {
    var c := b[0] as char;
    assert EncodeChar(c) == [b[0]] <= b;
  }

  lemma CompleteBegins(b: seq<byte>)
    requires b != [] && Trail(b[0]) > 0 && Follows(b) == Trail(b[0])
    ensures Begins(b)
  {
    var c := CompleteIsChar(b);
    assert EncodeChar(c) <= b;
  }

  /** Where the decoder goes on after bytes that begin no character: after the longest part that an encoding could
      begin with, and after one byte at least. */
  ghost predicate Skips(b: seq<byte>, m: nat) {
    && 1 <= m <= |b|
    && (m > 1 ==> Unfinished(b[..m]))
    && forall j | m < j <= |b| :: !Unfinished(b[..j])
  }

  /** A character stands for its encoding ... */
  lemma CharDecodes(b: seq<byte>, c: char)
    requires EncodeChar(c) <= b
    ensures Decode(b) == [c] + Decode(b[|EncodeChar(c)|..])
  {
    var rest := b[|EncodeChar(c)|..];
    assert b == EncodeChar(c) + rest;
    DecodeCons(c, rest);
  }

  /** ... and anything else is one U+FFFD for each longest part that could begin a character. */
  lemma MalformedDecodes(b: seq<byte>)
    requires b != [] && !Begins(b)
    ensures exists m: nat :: Skips(b, m) && Decode(b) == [REPLACEMENT] + Decode(b[m..])
  {
    var m := Follows(b) + 1;
    forall j | m < j <= |b| ensures !Unfinished(b[..j]) {
      NothingLonger(b, j);
    }
    if b[0] < 0x80 {
      PlainBegins(b);
    } else if Trail(b[0]) > 0 {
      if Follows(b) == Trail(b[0]) {
        CompleteBegins(b);
      } else {
        BrokenOff(b);
      }
    }
    assert Skips(b, m);
    DecodeFrom(b, b[m..]);
  }

  /** There is one such place only. */
  lemma OnePlace(b: seq<byte>, m: nat, n: nat)
    requires Skips(b, m) && Skips(b, n)
    ensures m == n
  {
  }
}
