/** One connection, in whatever pieces it arrives (`transport_ws.py`, `transport_http.py`). */
module Fragments {
  import opened Wrappers
  import opened Text
  import opened HttpHeads

  const HEAD_LIMIT := 64 * 1024

  predicate HeadEndsHere(s: string) {
    |s| >= 4 && s[0] == '\r' && s[1] == '\n' && s[2] == '\r' && s[3] == '\n'
  }

  /** `find(b"\r\n\r\n")`. */
  function FindEnd(s: string): (end: int)
    ensures -1 <= end && (end >= 0 ==> end + 4 <= |s|)
  {
    if |s| < 4 then -1
    else if HeadEndsHere(s) then 0
    else
      var end := FindEnd(s[1..]);
      if end < 0 then -1 else end + 1
  }

  /** An end that is found stays where it is; one that comes later is at most three bytes back. */
  lemma {:induction false} FindEndAppend(s: string, t: string)
    ensures FindEnd(s) >= 0 ==> FindEnd(s + t) == FindEnd(s)
    ensures FindEnd(s) < 0 && FindEnd(s + t) >= 0 ==> FindEnd(s + t) + 3 >= |s|
  {
    if |s| >= 4 {
      assert HeadEndsHere(s + t) == HeadEndsHere(s);
      assert (s + t)[1..] == s[1..] + t;
      FindEndAppend(s[1..], t);
    }
  }

  // ---------------------------------------------------------------- the request

  datatype Request =
    | Reading(buffer: string)
    | Waiting(head: Head, buffer: string)
    | Dispatched(head: Head, body: string)
    | Answered(status: int)

  function AfterHead(head: Option<Head>, rest: string): Request {
    if head.None? then Answered(400)
    else
      var length := ContentLength(head.value);
      if length < 0 then Answered(400)
      else if length > MAX_BODY_BYTES then Answered(413)
      else if |rest| < length then Waiting(head.value, rest)
      else Dispatched(head.value, rest[..length])
  }

  /** What a request comes to when all of it arrives at once. */
  function OneShot(s: string): Request {
    match Parts(s)
    case Some((head, rest)) => AfterHead(ReadHead(head), rest)
    case None => if |s| > HEAD_LIMIT then Answered(400) else Reading(s)
  }

  /** The head and what follows it. */
  function Parts(s: string): Option<(string, string)> {
    var end := FindEnd(s);
    if end < 0 then None else Some((s[..end], s[end + 4..]))
  }

  lemma PartsGrow(s: string, data: string)
    ensures Parts(s).Some? ==> Parts(s + data) == Some((Parts(s).value.0, Parts(s).value.1 + data))
  {
    FindEndAppend(s, data);
    var end := FindEnd(s);
    if end >= 0 {
      assert (s + data)[..end] == s[..end];
      assert (s + data)[end + 4..] == s[end + 4..] + data;
    }
  }

  /** `HttpProtocol.data_received`; a closed transport delivers nothing more. */
  function Feed(r: Request, data: string): Request {
    match r
    case Reading(buffer) => OneShot(buffer + data)
    case Waiting(head, buffer) => AfterHead(Some(head), buffer + data)
    case Dispatched(_, _) => r
    case Answered(_) => r
  }

  /** Once the head is known, more of the body only adds to what is waited for. */
  lemma BodyGrows(head: Option<Head>, rest: string, data: string)
    ensures Feed(AfterHead(head, rest), data) == AfterHead(head, rest + data)
  {
    if head.Some? {
      var length := ContentLength(head.value);
      if 0 <= length <= |rest| {
        assert (rest + data)[..length] == rest[..length];
      }
    }
  }

  /** Feeding the next piece is what one shot makes of both. */
  lemma FeedIsOneShot(s: string, data: string)
    requires FindEnd(s) >= 0 || |s| <= HEAD_LIMIT
    ensures Feed(OneShot(s), data) == OneShot(s + data)
  {
    PartsGrow(s, data);
    match Parts(s)
    case None =>
    case Some((head, rest)) => BodyGrows(ReadHead(head), rest, data);
  }

  /** A head that does not end within 64 KiB is refused, and until then it is waited for. */
  lemma UnendedHead(s: string)
    requires FindEnd(s) < 0
    ensures Feed(Reading(""), s) == if |s| > 65536 then Answered(400) else Reading(s)
  {
    assert "" + s == s;
  }

  // ---------------------------------------------------------------- the connection

  /** Where the bytes go: not decided, to the WebSocket library, or to our own HTTP. */
  datatype Connection =
    | Sniffing(buffer: string)
    | Library(passed: string)
    | Http(request: Request)
    | Closed

  /** What the first complete head decides. */
  function Decide(all: string, end: nat): Connection
    requires end <= |all|
  {
    if PlainHttpMcp(ReadHead(all[..end])) then Http(Feed(Reading(""), all)) else Library(all)
  }

  /** `DivertingConnection.data_received`, and the protocol put in its place. */
  function Receive(c: Connection, data: string): Connection {
    match c
    case Sniffing(buffer) =>
      var all := buffer + data;
      if FindEnd(all) >= 0 then Decide(all, FindEnd(all))
      else if |all| > HEAD_LIMIT then Closed
      else Sniffing(all)
    case Library(passed) => Library(passed + data)
    case Http(request) => Http(Feed(request, data))
    case Closed => Closed
  }

  function ReceiveAll(c: Connection, pieces: seq<string>): Connection {
    if pieces == [] then c else Receive(ReceiveAll(c, pieces[..|pieces| - 1]), pieces[|pieces| - 1])
  }

  const FRESH: Connection := Sniffing("")

  /** The connection when everything arrives at once. */
  function Route(all: string): Connection {
    Receive(FRESH, all)
  }

  /** The head is short enough that no proper part of it passes the limit. */
  predicate Fits(all: string) {
    FindEnd(all) + 3 <= HEAD_LIMIT
  }

  lemma ReceiveIsRoute(all: string, data: string)
    requires Fits(all + data)
    ensures Receive(Route(all), data) == Route(all + data)
  {
    FindEndAppend(all, data);
    assert "" + all == all && "" + (all + data) == all + data;
    var end := FindEnd(all);
    if end >= 0 {
      assert (all + data)[..end] == all[..end];
      FeedIsOneShot(all, data);
    }
  }

  lemma FitsPrefix(all: string, data: string)
    requires Fits(all + data)
    ensures Fits(all)
  {
    FindEndAppend(all, data);
  }

  lemma {:induction false} AnyPieces(pieces: seq<string>)
    requires Fits(Concat(pieces))
    ensures ReceiveAll(FRESH, pieces) == Route(Concat(pieces))
  {
    if pieces == [] {
      assert Concat(pieces) == "";
    } else {
      var before := pieces[..|pieces| - 1];
      FitsPrefix(Concat(before), pieces[|pieces| - 1]);
      AnyPieces(before);
      ReceiveIsRoute(Concat(before), pieces[|pieces| - 1]);
    }
  }

  ghost predicate CutsDoNotShow(all: string) {
    forall pieces: seq<string> :: Concat(pieces) == all ==> ReceiveAll(FRESH, pieces) == Route(all)
  }

  /** However the bytes are cut, the connection takes the same way with the same result, exactly
      when the head up to its last byte stays within 64 KiB. */
  lemma FragmentsDoNotShow(all: string)
    ensures CutsDoNotShow(all) <==> Fits(all)
  {
    if Fits(all) {
      forall pieces: seq<string> | Concat(pieces) == all ensures ReceiveAll(FRESH, pieces) == Route(all) {
        AnyPieces(pieces);
      }
    } else {
      LongHeadShows(all);
    }
  }

  lemma TwoPieces(first: string, second: string)
    ensures Concat([first, second]) == first + second
    ensures ReceiveAll(FRESH, [first, second]) == Receive(Receive(FRESH, first), second)
  {
    var pieces := [first, second];
    assert pieces[..1] == [first] && [first][..0] == [];
    assert Concat([first]) == first && ReceiveAll(FRESH, [first]) == Receive(FRESH, first);
  }

  /** More than the limit without the end of a head in it closes the connection. */
  lemma LongStartCloses(first: string, second: string)
    requires FindEnd(first) < 0 && |first| > HEAD_LIMIT
    ensures Receive(Receive(FRESH, first), second) == Closed
  {
    assert "" + first == first;
  }

  lemma CompleteHeadIsTaken(all: string)
    requires FindEnd(all) >= 0
    ensures Route(all) != Closed
  {
    assert "" + all == all;
  }

  lemma LongHeadShows(all: string)
    requires !Fits(all)
    ensures !CutsDoNotShow(all)
  {
    var k := HEAD_LIMIT + 1;
    var first, second := all[..k], all[k..];
    assert all == first + second;
    FindEndAppend(first, second);
    TwoPieces(first, second);
    LongStartCloses(first, second);
    CompleteHeadIsTaken(all);
    assert Concat([first, second]) == all && ReceiveAll(FRESH, [first, second]) != Route(all);
  }

  lemma OneShotParts(s: string, head: string, rest: string)
    requires Parts(s) == Some((head, rest))
    ensures Feed(Reading(""), s) == AfterHead(ReadHead(head), rest)
  {
    assert "" + s == s;
  }

  lemma RouteIsDecided(all: string, end: nat)
    requires FindEnd(all) == end
    ensures Route(all) == Decide(all, end)
  {
    assert "" + all == all;
  }

  lemma RouteDecides(all: string, end: nat, head: Option<Head>, rest: string)
    requires FindEnd(all) == end && head == ReadHead(all[..end]) && rest == all[end + 4..]
    ensures Route(all) == if PlainHttpMcp(head) then Http(AfterHead(head, rest)) else Library(all)
  {
    RouteIsDecided(all, end);
    OneShotParts(all, all[..end], rest);
  }

  /** What the two ends see, whatever the cuts: the library gets every byte in order, and our own
      HTTP dispatches the head and the body a single read would have given. */
  lemma WhatArrives(pieces: seq<string>)
    requires Fits(Concat(pieces)) && FindEnd(Concat(pieces)) >= 0
    ensures
      var all := Concat(pieces);
      var end := FindEnd(all);
      var head := ReadHead(all[..end]);
      var rest := all[end + 4..];
      && (!PlainHttpMcp(head) ==> ReceiveAll(FRESH, pieces) == Library(all))
      && (PlainHttpMcp(head) && 0 <= ContentLength(head.value) <= MAX_BODY_BYTES
          && ContentLength(head.value) <= |rest| ==>
            ReceiveAll(FRESH, pieces) == Http(Dispatched(head.value, rest[..ContentLength(head.value)])))
  {
    AnyPieces(pieces);
    var all := Concat(pieces);
    var end := FindEnd(all);
    RouteDecides(all, end, ReadHead(all[..end]), all[end + 4..]);
  }

  /** A request is dispatched once: nothing that comes later changes it. */
  lemma {:induction false} DispatchedOnce(head: Head, body: string, pieces: seq<string>)
    ensures ReceiveAll(Http(Dispatched(head, body)), pieces) == Http(Dispatched(head, body))
  {
    if pieces != [] {
      DispatchedOnce(head, body, pieces[..|pieces| - 1]);
    }
  }
}

/** The same on the fields of `HttpProtocol` and `DivertingConnection`. */
module FragmentObjects {
  import opened Wrappers
  import opened HttpHeads
  import opened Fragments

  class HttpProtocol {
    var buffer: string
    var head: Option<Head>
    var task: Option<(Head, string)>
    var answered: Option<int>

    ghost function View(): Request
      reads this
    {
      if task.Some? then Dispatched(task.value.0, task.value.1)
      else if answered.Some? then Answered(answered.value)
      else if head.Some? then Waiting(head.value, buffer)
      else Reading(buffer)
    }

    constructor ()
      ensures View() == Reading("")
    {
      buffer, head, task, answered := "", None, None, None;
    }

    method DataReceived(data: string)
      modifies this
      ensures View() == Feed(old(View()), data)
    {
      if task.Some? || answered.Some? {
        return;
      }
      buffer := buffer + data;
      if head.None? {
        var end := FindEnd(buffer);
        if end < 0 {
          if |buffer| > HEAD_LIMIT {
            answered := Some(400);
          }
          return;
        }
        head := ParseHead(buffer[..end]);
        buffer := buffer[end + 4..];
        if head.None? {
          answered := Some(400);
          return;
        }
      }
      var length := ContentLength(head.value);
      if length < 0 {
        answered := Some(400);
        return;
      }
      if length > MAX_BODY_BYTES {
        answered := Some(413);
        return;
      }
      if |buffer| < length {
        return;
      }
      task := Some((head.value, buffer[..length]));
    }
  }

  class DivertingConnection {
    var sniffed: string
    var decided: bool
    var closed: bool
    var passed: string
    var protocol: HttpProtocol?

    ghost predicate Valid()
      reads this, protocol
    {
      && (protocol != null ==> decided && passed == "")
      && (closed ==> !decided)
    }

    ghost function View(): Connection
      reads this, protocol
    {
      if closed then Closed
      else if !decided then Sniffing(sniffed)
      else if protocol != null then Http(protocol.View())
      else Library(passed)
    }

    constructor ()
      ensures Valid() && View() == FRESH && protocol == null
    {
      sniffed, decided, closed, passed, protocol := "", false, false, "", null;
    }

    /** The transport calls this until another protocol is set, and then that one. */
    method DataReceived(data: string)
      requires Valid()
      modifies this, protocol
      ensures Valid() && View() == Receive(old(View()), data)
    {
      if closed {
        return;
      }
      if protocol != null {
        protocol.DataReceived(data);
        return;
      }
      if decided {
        passed := passed + data;
        return;
      }
      sniffed := sniffed + data;
      var end := FindEnd(sniffed);
      if end < 0 {
        if |sniffed| > HEAD_LIMIT {
          closed := true;
        }
        return;
      }
      decided := true;
      var buffered := sniffed;
      sniffed := "";
      var head := ParseHead(buffered[..end]);
      if !PlainHttpMcp(head) {
        passed := buffered;
        return;
      }
      var http := new HttpProtocol();
      http.DataReceived(buffered);
      passed, protocol := "", http;
    }
  }
}
