/** Chunked transfer coding (section 7.1 of RFC 9112), as `mcp_http.py` takes it off a response body. */
module Chunked {
  import opened Wrappers
  import opened Text
  import opened Sse

  datatype Body = Whole(chunks: seq<string>) | TooLarge(size: nat) | Malformed | Truncated

  // ---- hexadecimal sizes ----

  function HexValue(c: char): int {
    if IsDigit(c) then c as int - '0' as int
    else if 'a' <= c <= 'f' then c as int - 'a' as int + 10
    else if 'A' <= c <= 'F' then c as int - 'A' as int + 10
    else -1
  }

  function HexText(n: nat): (s: string)
    ensures s != "" && forall c | c in s :: HexValue(c) >= 0
  {
    if n < 16 then [HexDigit(n)] else HexText(n / 16) + [HexDigit(n % 16)]
  }

  /** `int(text, 16)` on plain hexadecimal digits. */
  function ReadHex(s: string): Option<nat> {
    if s == "" then None
    else
      var d := HexValue(s[|s| - 1]);
      if d < 0 then None
      else if |s| == 1 then Some(d)
      else match ReadHex(s[..|s| - 1])
        case None => None
        case Some(n) => Some(16 * n + d)
  }

  /** Every size has a text; longer ones, and capitals, read as the same size. */
  lemma {:induction false} HexReads(n: nat)
    ensures ReadHex(HexText(n)) == Some(n)
  {
    if n >= 16 {
      HexReads(n / 16);
      assert HexText(n)[..|HexText(n)| - 1] == HexText(n / 16);
    }
  }

  lemma HexLetter(c: char, d: nat)
    requires d < 16 && SameLetter(c, HexDigit(d))
    ensures HexValue(c) == d
  {
  }

  /** A size may be spelled with capitals ... */
  lemma {:induction false} HexAnyCase(n: nat, s: string)
    requires SameUpToCase(s, HexText(n))
    ensures ReadHex(s) == Some(n)
  {
    var k := |s| - 1;
    HexLetter(s[k], n % 16);
    if n >= 16 {
      var init := HexText(n / 16);
      assert HexText(n)[..k] == init && HexText(n)[k] == HexDigit(n % 16);
      assert forall i | 0 <= i < k :: s[..k][i] == s[i] && init[i] == HexText(n)[i];
      HexAnyCase(n / 16, s[..k]);
    }
  }

  /** ... and with zeros in front. */
  lemma {:induction false} HexZeros(s: string)
    requires ReadHex(s).Some?
    ensures ReadHex(['0'] + s) == ReadHex(s)
    decreases |s|
  {
    var t := ['0'] + s;
    assert t[|t| - 1] == s[|s| - 1] && t[..|t| - 1] == ['0'] + s[..|s| - 1];
    if |s| > 1 {
      HexZeros(s[..|s| - 1]);
    } else {
      assert t[..|t| - 1] == ['0'];
    }
  }

  // ---- framing ----

  predicate NotSemicolon(c: char) { c != ';' }

  /** ASCII whitespace, which is what `bytes.strip` removes. */
  predicate IsAsciiSpace(c: char) { c == ' ' || '\t' <= c <= '\r' }

  function StripLeft(s: string): string { s[Run(IsAsciiSpace, s)..] }

  function StripRight(s: string): string {
    if s == "" || !IsAsciiSpace(s[|s| - 1]) then s else StripRight(s[..|s| - 1])
  }

  /** Where the first CRLF starts, if there is one. */
  function FindCrlf(s: string): (k: int)
    ensures -1 <= k && (k >= 0 ==> k + 2 <= |s| && s[k] == '\r' && s[k + 1] == '\n')
  {
    if |s| < 2 then -1
    else if s[0] == '\r' && s[1] == '\n' then 0
    else
      var k := FindCrlf(s[1..]);
      if k < 0 then -1 else k + 1
  }

  /** The size a size line announces; an empty one announces 0. */
  function LineSize(line: string): Option<nat> {
    var text := StripRight(StripLeft(line[..Run(NotSemicolon, line)]));
    if text == "" then Some(0) else ReadHex(text)
  }

  datatype Next = Stop(body: Body) | Take(data: string, rest: string)

  /** One turn of the loop: a chunk and what follows it, or the end. */
  function NextChunk(s: string, limit: nat): (r: Next)
    ensures r.Take? ==> 0 < |r.data| <= limit && |r.rest| < |s|
  {
    var k := FindCrlf(s);
    if k < 0 then Stop(Truncated)
    else match LineSize(s[..k + 2])
      case None => Stop(Malformed)
      case Some(size) =>
        if size == 0 then Stop(Whole([]))
        else if size > limit then Stop(TooLarge(size))
        else
          var after := s[k + 2..];
          if |after| < size + 2 then Stop(Truncated) else Take(after[..size], after[size + 2..])
  }

  /** What `chunks` yields from a chunked body, and how it ends. */
  function ReadChunked(s: string, limit: nat): Body
    decreases |s|
  {
    match NextChunk(s, limit)
    case Stop(body) => body
    case Take(data, rest) =>
      match ReadChunked(rest, limit)
      case Whole(more) => Whole([data] + more)
      case failed => failed
  }

  /** `more` read after `out`. */
  function After(out: seq<string>, more: Body): Body {
    match more case Whole(chunks) => Whole(out + chunks) case failed => failed
  }

  lemma AfterOne(out: seq<string>, data: string, rest: Body)
    ensures After(out + [data], rest) == After(out, After([data], rest))
  {
  }

  lemma AfterNone(out: seq<string>, end: Body)
    ensures After([], end) == end && After(out, Whole([])) == Whole(out)
  {
  }

  /** The loop, as it adds to what it has yielded. */
  function ReadOn(s: string, limit: nat, out: seq<string>): (seq<string>, Body)
    decreases |s|
  {
    match NextChunk(s, limit)
    case Stop(why) => (out, why)
    case Take(data, rest) => ReadOn(rest, limit, out + [data])
  }

  lemma {:induction false} ReadOnIsRead(s: string, limit: nat, out: seq<string>)
    requires forall c | c in out :: 0 < |c| <= limit
    ensures var (yielded, end) := ReadOn(s, limit, out);
      && After(yielded, end) == After(out, ReadChunked(s, limit))
      && (forall c | c in yielded :: 0 < |c| <= limit)
    decreases |s|
  {
    match NextChunk(s, limit)
    case Stop(why) =>
    case Take(data, rest) =>
      ReadOnIsRead(rest, limit, out + [data]);
      AfterOne(out, data, ReadChunked(rest, limit));
  }

  /** The loop of `chunks`: what it yields before it stops, and why it stops. */
  method ChunkLoop(body: string, limit: nat) returns (out: seq<string>, end: Body)
    ensures ReadChunked(body, limit) == After(out, end)
    ensures end.Whole? ==> ReadChunked(body, limit) == Whole(out)
    ensures forall c | c in out :: 0 < |c| <= limit
  {
    ReadOnIsRead(body, limit, []);
    AfterNone([], ReadChunked(body, limit));
    out, end := ChunkTurns(body, limit);
    WholeIsEmpty(body, limit, []);
    AfterNone(out, end);
  }

  lemma {:induction false} WholeIsEmpty(s: string, limit: nat, out: seq<string>)
    ensures ReadOn(s, limit, out).1.Whole? ==> ReadOn(s, limit, out).1 == Whole([])
    decreases |s|
  {
    match NextChunk(s, limit)
    case Stop(why) =>
    case Take(data, rest) => WholeIsEmpty(rest, limit, out + [data]);
  }

  method ChunkTurns(body: string, limit: nat) returns (out: seq<string>, end: Body)
    ensures (out, end) == ReadOn(body, limit, [])
  {
    out := [];
    var rest := body;
    while true
      invariant ReadOn(rest, limit, out) == ReadOn(body, limit, [])
      decreases |rest|
    {
      match NextChunk(rest, limit)
      case Stop(why) =>
        return out, why;
      case Take(data, more) =>
        out, rest := out + [data], more;
    }
  }

  // ---- what a conforming sender writes ----

  /** A chunk as it is sent: its size may be spelled in any case and with leading zeros. */
  datatype Piece = Piece(data: string, size: string, extension: string)

  predicate Blank(c: char) { c == ' ' || c == '\t' }

  /** An extension as RFC 9112 allows it, after blanks or not, and no CR in it. */
  predicate GoodExtension(e: string) {
    '\r' !in e && (Run(Blank, e) == |e| || e[Run(Blank, e)] == ';')
  }

  predicate GoodPiece(p: Piece, limit: nat) {
    0 < |p.data| <= limit && ReadHex(p.size) == Some(|p.data|) && GoodExtension(p.extension)
  }

  /** The last chunk has any spelling of zero for its size, and may have an extension. */
  predicate GoodLast(zero: string, extension: string) {
    ReadHex(zero) == Some(0) && GoodExtension(extension)
  }

  function SizeLine(size: string, extension: string): string { size + (extension + "\r\n") }

  /** The chunks, the last chunk, and a trailer. */
  function Framed(pieces: seq<Piece>, zero: string, extension: string, trailer: string): string {
    if pieces == [] then SizeLine(zero, extension) + trailer
    else
      SizeLine(pieces[0].size, pieces[0].extension)
      + (pieces[0].data + ("\r\n" + Framed(pieces[1..], zero, extension, trailer)))
  }

  function Payloads(pieces: seq<Piece>): seq<string> {
    if pieces == [] then [] else [pieces[0].data] + Payloads(pieces[1..])
  }

  lemma {:induction false} CrlfAfter(a: string, rest: string)
    requires '\r' !in a
    ensures FindCrlf(a + ("\r\n" + rest)) == |a|
  {
    var t := "\r\n" + rest;
    if a == "" {
      NilRight(t);
      assert t[0] == '\r' && t[1] == '\n';
    } else {
      assert (a + t)[0] == a[0] && a[0] in a;
      assert (a + t)[1..] == a[1..] + t;
      assert forall c | c in a[1..] :: c in a;
      CrlfAfter(a[1..], rest);
    }
  }

  lemma {:induction false} StripRightKeeps(a: string, s: string)
    requires a != "" && !IsAsciiSpace(a[|a| - 1]) && forall c | c in s :: IsAsciiSpace(c)
    ensures StripRight(a + s) == a
    decreases |s|
  {
    if s == "" {
      NilRight(a);
    } else {
      assert s[|s| - 1] in s;
      assert (a + s)[..|a + s| - 1] == a + s[..|s| - 1];
      StripRightKeeps(a, s[..|s| - 1]);
    }
  }

  /** What reads as a size is hexadecimal digits and nothing else. */
  lemma {:induction false} SizeIsDigits(s: string)
    requires ReadHex(s).Some?
    ensures s != "" && forall c | c in s :: HexValue(c) >= 0
  {
    if |s| > 1 {
      SizeIsDigits(s[..|s| - 1]);
      assert s == s[..|s| - 1] + [s[|s| - 1]];
    }
  }

  lemma SizeIsPlain(s: string)
    requires ReadHex(s).Some?
    ensures s != "" && '\r' !in s && forall c | c in s :: !IsAsciiSpace(c) && NotSemicolon(c)
  {
    SizeIsDigits(s);
  }

  /** Stripping what blanks there are around a size leaves the size. */
  lemma SizeStripped(h: string, blanks: string)
    requires h != "" && !IsAsciiSpace(h[0]) && !IsAsciiSpace(h[|h| - 1]) && forall c | c in blanks :: IsAsciiSpace(c)
    ensures StripRight(StripLeft(h + blanks)) == h
  {
    assert (h + blanks)[0] == h[0] && (h + blanks)[0..] == h + blanks;
    StripRightKeeps(h, blanks);
  }

  /** The blanks and the line's end before the extension proper. */
  lemma ExtensionParts(e: string) returns (blanks: string, rest: string)
    requires GoodExtension(e)
    ensures e + "\r\n" == blanks + rest && (rest == "" || rest[0] == ';')
    ensures forall c | c in blanks :: IsAsciiSpace(c) && NotSemicolon(c)
  {
    var k := Run(Blank, e);
    if k == |e| {
      blanks, rest := e + "\r\n", "";
      assert forall i | 0 <= i < |e| :: Blank(e[i]);
    } else {
      blanks, rest := e[..k], e[k..] + "\r\n";
      assert forall i | 0 <= i < k :: Blank(e[i]);
    }
  }

  /** What stands before the extension of a size line, without the line's end. */
  lemma SizeText(h: string, extension: string)
    requires ReadHex(h).Some? && GoodExtension(extension)
    ensures var line := SizeLine(h, extension);
      StripRight(StripLeft(line[..Run(NotSemicolon, line)])) == h
  {
    SizeIsPlain(h);
    var blanks, rest := ExtensionParts(extension);
    Assoc(h, blanks, rest);
    assert h[0] in h && h[|h| - 1] in h;
    RunStops(NotSemicolon, h + blanks, rest);
    assert ((h + blanks) + rest)[..|h + blanks|] == h + blanks;
    SizeStripped(h, blanks);
  }

  lemma SizeLineReads(size: string, extension: string)
    requires ReadHex(size).Some? && GoodExtension(extension)
    ensures LineSize(SizeLine(size, extension)) == ReadHex(size)
  {
    SizeIsPlain(size);
    SizeText(size, extension);
  }

  lemma LineStep(size: string, extension: string, rest: string)
    requires ReadHex(size).Some? && GoodExtension(extension)
    ensures var s, line := SizeLine(size, extension) + rest, SizeLine(size, extension);
      FindCrlf(s) + 2 == |line| && s[..|line|] == line && s[|line|..] == rest && FindCrlf(s) >= 0
  {
    var a := size + extension;
    SizeIsPlain(size);
    Assoc(size, extension, "\r\n");
    Assoc(a, "\r\n", rest);
    CrlfAfter(a, rest);
  }

  lemma PieceReads(p: Piece, more: string, limit: nat)
    requires GoodPiece(p, limit)
    ensures NextChunk(SizeLine(p.size, p.extension) + (p.data + ("\r\n" + more)), limit) == Take(p.data, more)
  {
    var after := p.data + ("\r\n" + more);
    LineStep(p.size, p.extension, after);
    SizeLineReads(p.size, p.extension);
    assert after[..|p.data|] == p.data && after[|p.data| + 2..] == more;
  }

  lemma LastReads(zero: string, extension: string, trailer: string, limit: nat)
    requires GoodLast(zero, extension)
    ensures NextChunk(SizeLine(zero, extension) + trailer, limit) == Stop(Whole([]))
  {
    LineStep(zero, extension, trailer);
    SizeLineReads(zero, extension);
  }

  /** A body framed in non-empty chunks of at most the limit reads back as those chunks, however
      the sizes are spelled and whatever the extensions and the trailer. */
  lemma {:induction false} ChunksRead(pieces: seq<Piece>, zero: string, extension: string, trailer: string, limit: nat)
    requires (forall p | p in pieces :: GoodPiece(p, limit)) && GoodLast(zero, extension)
    ensures ReadChunked(Framed(pieces, zero, extension, trailer), limit) == Whole(Payloads(pieces))
    decreases |pieces|
  {
    if pieces == [] {
      LastReads(zero, extension, trailer, limit);
    } else {
      assert pieces[0] in pieces;
      ChunksRead(pieces[1..], zero, extension, trailer, limit);
      PieceReads(pieces[0], Framed(pieces[1..], zero, extension, trailer), limit);
    }
  }

  // ---- bodies that do not end well ----

  function PieceText(p: Piece): string { SizeLine(p.size, p.extension) + (p.data + "\r\n") }

  function PieceTexts(pieces: seq<Piece>): string {
    if pieces == [] then "" else PieceText(pieces[0]) + PieceTexts(pieces[1..])
  }

  lemma PieceFirst(p: Piece, more: string)
    ensures PieceText(p) + more == SizeLine(p.size, p.extension) + (p.data + ("\r\n" + more))
  {
    Assoc(SizeLine(p.size, p.extension), p.data + "\r\n", more);
    Assoc(p.data, "\r\n", more);
  }

  lemma {:induction false} FramedParts(pieces: seq<Piece>, zero: string, extension: string, trailer: string)
    ensures Framed(pieces, zero, extension, trailer) == PieceTexts(pieces) + (SizeLine(zero, extension) + trailer)
  {
    var last := SizeLine(zero, extension) + trailer;
    if pieces == [] {
      NilRight(last);
    } else {
      FramedParts(pieces[1..], zero, extension, trailer);
      PieceFirst(pieces[0], PieceTexts(pieces[1..]) + last);
      Assoc(PieceText(pieces[0]), PieceTexts(pieces[1..]), last);
    }
  }

  /** After whole chunks the loop is where it would be at the start of what follows them. */
  lemma {:induction false} ReadOnPast(pieces: seq<Piece>, tail: string, limit: nat, out: seq<string>)
    requires forall p | p in pieces :: GoodPiece(p, limit)
    ensures ReadOn(PieceTexts(pieces) + tail, limit, out) == ReadOn(tail, limit, out + Payloads(pieces))
    decreases |pieces|
  {
    if pieces == [] {
      NilRight(tail);
      NilRight(out);
    } else {
      assert pieces[0] in pieces && forall p | p in pieces[1..] :: p in pieces;
      var more := PieceTexts(pieces[1..]) + tail;
      Assoc(PieceText(pieces[0]), PieceTexts(pieces[1..]), tail);
      PieceFirst(pieces[0], more);
      PieceReads(pieces[0], more, limit);
      ReadOnPast(pieces[1..], tail, limit, out + [pieces[0].data]);
      Assoc(out, [pieces[0].data], Payloads(pieces[1..]));
    }
  }

  lemma ReadOnStops(pieces: seq<Piece>, tail: string, limit: nat, why: Body)
    requires (forall p | p in pieces :: GoodPiece(p, limit)) && NextChunk(tail, limit) == Stop(why)
    ensures ReadOn(PieceTexts(pieces) + tail, limit, []) == (Payloads(pieces), why)
  {
    ReadOnPast(pieces, tail, limit, []);
    NilRight(Payloads(pieces));
  }

  lemma NoCrlf(a: string, n: nat)
    requires '\r' !in a && n <= |a| + 1
    ensures FindCrlf((a + "\r\n")[..n]) < 0
  {
    var s := (a + "\r\n")[..n];
    assert forall i | 0 <= i < |s| && i < |a| :: s[i] == a[i] && a[i] in a;
  }

  /** A part of a chunk's size line is no chunk ... */
  lemma CutLineStops(size: string, extension: string, n: nat, limit: nat)
    requires ReadHex(size).Some? && GoodExtension(extension) && n < |SizeLine(size, extension)|
    ensures NextChunk(SizeLine(size, extension)[..n], limit) == Stop(Truncated)
  {
    SizeIsPlain(size);
    Assoc(size, extension, "\r\n");
    NoCrlf(size + extension, n);
  }

  /** ... and neither is a whole line with less data and line end after it than it announces. */
  lemma CutDataStops(p: Piece, part: string, limit: nat)
    requires GoodPiece(p, limit) && |part| < |p.data| + 2
    ensures NextChunk(SizeLine(p.size, p.extension) + part, limit) == Stop(Truncated)
  {
    LineStep(p.size, p.extension, part);
    SizeLineReads(p.size, p.extension);
  }

  lemma CutPieceStops(p: Piece, n: nat, limit: nat)
    requires GoodPiece(p, limit) && n < |PieceText(p)|
    ensures NextChunk(PieceText(p)[..n], limit) == Stop(Truncated)
  {
    var line, after := SizeLine(p.size, p.extension), p.data + "\r\n";
    if n < |line| {
      assert PieceText(p)[..n] == line[..n];
      CutLineStops(p.size, p.extension, n, limit);
    } else {
      assert PieceText(p)[..n] == line + after[..n - |line|];
      CutDataStops(p, after[..n - |line|], limit);
    }
  }

  /** How many chunks have come whole in the first `n` characters. */
  function Arrived(pieces: seq<Piece>, n: nat): (m: nat)
    ensures m <= |pieces|
  {
    if pieces == [] || n < |PieceText(pieces[0])| then 0 else 1 + Arrived(pieces[1..], n - |PieceText(pieces[0])|)
  }

  lemma CutAfter(a: string, b: string, n: nat)
    requires |a| <= n <= |a + b|
    ensures (a + b)[..n] == a + b[..n - |a|]
  {
  }

  lemma CutInFirst(p: Piece, more: string, n: nat, limit: nat, out: seq<string>)
    requires GoodPiece(p, limit) && n < |PieceText(p)|
    ensures ReadOn((PieceText(p) + more)[..n], limit, out) == (out, Truncated)
  {
    assert (PieceText(p) + more)[..n] == PieceText(p)[..n];
    CutPieceStops(p, n, limit);
  }

  lemma CutInRest(p: Piece, more: string, n: nat, limit: nat, out: seq<string>)
    requires GoodPiece(p, limit) && |PieceText(p)| <= n <= |PieceText(p) + more|
    ensures ReadOn((PieceText(p) + more)[..n], limit, out) == ReadOn(more[..n - |PieceText(p)|], limit, out + [p.data])
  {
    var rest := more[..n - |PieceText(p)|];
    CutAfter(PieceText(p), more, n);
    PieceFirst(p, rest);
    PieceReads(p, rest, limit);
  }

  lemma PayloadsMore(pieces: seq<Piece>, m: nat, out: seq<string>)
    requires pieces != [] && m < |pieces|
    ensures (out + [pieces[0].data]) + Payloads(pieces[1..][..m]) == out + Payloads(pieces[..m + 1])
  {
    assert pieces[..m + 1][1..] == pieces[1..][..m];
    Assoc(out, [pieces[0].data], Payloads(pieces[1..][..m]));
  }

  lemma FramedFirst(pieces: seq<Piece>, zero: string, extension: string)
    requires pieces != []
    ensures Framed(pieces, zero, extension, "") == PieceText(pieces[0]) + Framed(pieces[1..], zero, extension, "")
  {
    PieceFirst(pieces[0], Framed(pieces[1..], zero, extension, ""));
  }

  lemma CutInLast(zero: string, extension: string, n: nat, limit: nat, out: seq<string>)
    requires GoodLast(zero, extension) && n < |Framed([], zero, extension, "")|
    ensures ReadOn(Framed([], zero, extension, "")[..n], limit, out) == (out, Truncated)
  {
    NilRight(SizeLine(zero, extension));
    CutLineStops(zero, extension, n, limit);
  }

  lemma NoneArrived(pieces: seq<Piece>, n: nat, out: seq<string>)
    requires pieces == [] || n < |PieceText(pieces[0])|
    ensures out + Payloads(pieces[..Arrived(pieces, n)]) == out
  {
    NilRight(out);
  }

  /** A connection that is lost before the last chunk's size line has come is an error, wherever it
      is cut: the chunks that came whole were yielded, and the body does not count as read. */
  lemma {:induction false} CutIsTruncated(pieces: seq<Piece>, zero: string, extension: string, n: nat, limit: nat,
                                          out: seq<string>)
    requires (forall p | p in pieces :: GoodPiece(p, limit)) && GoodLast(zero, extension)
    requires n < |Framed(pieces, zero, extension, "")|
    ensures ReadOn(Framed(pieces, zero, extension, "")[..n], limit, out)
            == (out + Payloads(pieces[..Arrived(pieces, n)]), Truncated)
    decreases |pieces|, 1
  {
    if pieces == [] {
      NoneArrived(pieces, n, out);
      CutInLast(zero, extension, n, limit, out);
    } else {
      assert pieces[0] in pieces && forall p | p in pieces[1..] :: p in pieces;
      FramedFirst(pieces, zero, extension);
      CutFurther(pieces, zero, extension, Framed(pieces[1..], zero, extension, ""), n, limit, out);
    }
  }

  lemma {:induction false} CutFurther(pieces: seq<Piece>, zero: string, extension: string, more: string, n: nat,
                                      limit: nat, out: seq<string>)
    requires pieces != [] && GoodPiece(pieces[0], limit) && forall p | p in pieces[1..] :: GoodPiece(p, limit)
    requires GoodLast(zero, extension) && more == Framed(pieces[1..], zero, extension, "")
    requires n < |PieceText(pieces[0]) + more|
    ensures ReadOn((PieceText(pieces[0]) + more)[..n], limit, out)
            == (out + Payloads(pieces[..Arrived(pieces, n)]), Truncated)
    decreases |pieces|, 0
  {
    var k := |PieceText(pieces[0])|;
    if n < k {
      CutInFirst(pieces[0], more, n, limit, out);
      NoneArrived(pieces, n, out);
    } else {
      CutInRest(pieces[0], more, n, limit, out);
      CutIsTruncated(pieces[1..], zero, extension, n - k, limit, out + [pieces[0].data]);
      OneArrived(pieces, n, n - k, out);
    }
  }

  lemma OneArrived(pieces: seq<Piece>, n: nat, rest: nat, out: seq<string>)
    requires pieces != [] && n == |PieceText(pieces[0])| + rest
    ensures out + Payloads(pieces[..Arrived(pieces, n)])
            == (out + [pieces[0].data]) + Payloads(pieces[1..][..Arrived(pieces[1..], rest)])
  {
    PayloadsMore(pieces, Arrived(pieces[1..], rest), out);
  }

  /** A chunk over the limit stops the loop before its data is read ... */
  lemma OverLimitStops(pieces: seq<Piece>, size: string, extension: string, more: string, limit: nat)
    requires (forall p | p in pieces :: GoodPiece(p, limit)) && GoodExtension(extension)
    requires ReadHex(size).Some? && ReadHex(size).value > limit
    ensures ReadOn(PieceTexts(pieces) + (SizeLine(size, extension) + more), limit, [])
            == (Payloads(pieces), TooLarge(ReadHex(size).value))
  {
    LineStep(size, extension, more);
    SizeLineReads(size, extension);
    ReadOnStops(pieces, SizeLine(size, extension) + more, limit, TooLarge(ReadHex(size).value));
  }

  lemma NoSize(word: string)
    requires ReadHex(word).None? && word != "" && forall c | c in word :: !IsAsciiSpace(c) && NotSemicolon(c)
    ensures LineSize(word + "\r\n") == None
  {
    assert word[0] in word && word[|word| - 1] in word;
    RunStops(NotSemicolon, word + "\r\n", "");
    NilRight(word + "\r\n");
    SizeStripped(word, "\r\n");
  }

  /** ... and so does a size that is no number. */
  lemma NoSizeStops(pieces: seq<Piece>, word: string, more: string, limit: nat)
    requires forall p | p in pieces :: GoodPiece(p, limit)
    requires ReadHex(word).None? && word != "" && forall c | c in word :: !IsAsciiSpace(c) && NotSemicolon(c)
    ensures ReadOn(PieceTexts(pieces) + (word + ("\r\n" + more)), limit, []) == (Payloads(pieces), Malformed)
  {
    var tail := word + ("\r\n" + more);
    CrlfAfter(word, more);
    assert tail[..|word| + 2] == word + "\r\n";
    NoSize(word);
    ReadOnStops(pieces, tail, limit, Malformed);
  }

  /** A size line without a size ends the body like a last chunk. */
  lemma NoSizeEnds(pieces: seq<Piece>, extension: string, more: string, limit: nat)
    requires (forall p | p in pieces :: GoodPiece(p, limit)) && GoodExtension(extension)
    ensures ReadOn(PieceTexts(pieces) + (extension + ("\r\n" + more)), limit, []) == (Payloads(pieces), Whole([]))
  {
    var tail := extension + ("\r\n" + more);
    CrlfAfter(extension, more);
    assert tail[..|extension| + 2] == extension + "\r\n";
    var blanks, rest := ExtensionParts(extension);
    RunStops(NotSemicolon, blanks, rest);
    assert (blanks + rest)[..|blanks|] == blanks;
    AllStripped(blanks);
    ReadOnStops(pieces, tail, limit, Whole([]));
  }

  lemma AllStripped(blanks: string)
    requires forall c | c in blanks :: IsAsciiSpace(c)
    ensures StripRight(StripLeft(blanks)) == ""
  {
    RunStops(IsAsciiSpace, blanks, "");
    NilRight(blanks);
  }

  /** A numbered event stream sent through chunked framing, in any pieces of its bytes, arrives as
      the messages it carried. */
  method StreamThroughChunks(items: seq<Item>, pieces: seq<Piece>, zero: string, extension: string, trailer: string,
                             limit: nat)
    returns (events: seq<Event>)
    requires (forall p | p in pieces :: GoodPiece(p, limit)) && GoodLast(zero, extension)
    requires Concat(Payloads(pieces)) == Octets(Wire(items)) && Fits(Payloads(pieces), limit)
    requires forall i | i in items :: i.Frame? ==> i.id.Some? && forall l | l in Split('\n', i.data) :: !EndsInReturn(l)
    ensures events == Sent(items)
  {
    ChunksRead(pieces, zero, extension, trailer, limit);
    var chunks, end := ChunkLoop(Framed(pieces, zero, extension, trailer), limit);
    events := FramesArrive(items, chunks, limit);
    NumberedFramesArrive(items, None);
  }
}
