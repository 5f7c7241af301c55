/** The bounded queue of one HTTP client, and its streams (`transport_http.py`). */
module LinkRuns {

  const BACKLOG := 64

  /** Messages are named by the order they were sent in.  `written` is what went out on any
      stream, `waiting` counts the messages sent since the last stream was lost. */
  datatype Link = Link(sent: nat, pending: seq<nat>, written: seq<nat>, streaming: bool, waiting: nat)

  datatype Action = Send | Attach(open: bool) | Lose

  function Queue<T>(pending: seq<T>, m: T): seq<T> {
    if |pending| + 1 > BACKLOG then (pending + [m])[1..] else pending + [m]
  }

  /** `Lose` is every way to be without a writable stream: its socket closes, the link is
      closed, or the current stream is detached. */
  function Step(k: Link, a: Action): Link {
    match a
    case Send =>
      if k.streaming then k.(sent := k.sent + 1, written := k.written + [k.sent])
      else k.(sent := k.sent + 1, pending := Queue(k.pending, k.sent), waiting := k.waiting + 1)
    case Attach(open) =>
      Link(k.sent, [], if open then k.written + k.pending else k.written, open, 0)
    case Lose => k.(streaming := false)
  }

  const NEW: Link := Link(0, [], [], false, 0)

  function After(k: Link, run: seq<Action>): Link {
    if run == [] then k else Step(After(k, run[..|run| - 1]), run[|run| - 1])
  }

  predicate Increasing(s: seq<nat>) {
    forall i, j | 0 <= i < j < |s| :: s[i] < s[j]
  }

  /** The numbers from `a` up to `b`. */
  function Range(a: nat, b: nat): (s: seq<nat>)
    requires a <= b
    ensures |s| == b - a && forall i | 0 <= i < |s| :: s[i] == a + i
    decreases b - a
  {
    if a == b then [] else [a] + Range(a + 1, b)
  }

  function Min(a: nat, b: nat): nat {
    if a < b then a else b
  }

  predicate Valid(k: Link) {
    && |k.pending| == Min(k.waiting, BACKLOG) <= k.sent
    && k.pending == Range(k.sent - |k.pending|, k.sent)
    && Increasing(k.written)
    && (forall m | m in k.written :: m < k.sent - |k.pending|)
    && (k.streaming ==> k.pending == [])
  }

  lemma QueueIsRange(a: nat, b: nat)
    requires a <= b
    ensures Range(a, b) + [b] == Range(a, b + 1)
    ensures (Range(a, b) + [b])[1..] == Range(a + 1, b + 1)
  {
  }

  lemma Appends(s: seq<nat>, t: seq<nat>, bound: nat)
    requires Increasing(s) && Increasing(t)
    requires (forall m | m in s :: m < bound) && forall m | m in t :: bound <= m
    ensures Increasing(s + t)
  {
    var all := s + t;
    forall i, j | 0 <= i < j < |all| ensures all[i] < all[j] {
      if i < |s| <= j {
        assert s[i] in s && t[j - |s|] in t;
      }
    }
  }

  lemma SendKeeps(k: Link)
    requires Valid(k)
    ensures Valid(Step(k, Send))
  {
    if k.streaming {
      Appends(k.written, [k.sent], k.sent);
    } else {
      QueueIsRange(k.sent - |k.pending|, k.sent);
    }
  }

  lemma AttachKeeps(k: Link, open: bool)
    requires Valid(k)
    ensures Valid(Step(k, Attach(open)))
  {
    Appends(k.written, k.pending, k.sent - |k.pending|);
  }

  lemma StepKeeps(k: Link, a: Action)
    requires Valid(k)
    ensures Valid(Step(k, a))
  {
    match a
    case Send => SendKeeps(k);
    case Attach(open) => AttachKeeps(k, open);
    case Lose =>
  }

  lemma {:induction false} RunKeeps(k: Link, run: seq<Action>)
    requires Valid(k)
    ensures Valid(After(k, run))
  {
    if run != [] {
      RunKeeps(k, run[..|run| - 1]);
      StepKeeps(After(k, run[..|run| - 1]), run[|run| - 1]);
    }
  }

  /** Over every run: what was written on all the streams together is in the order of sending
      and without repetition, and what waits is the latest of what was sent meanwhile. */
  lemma InOrderAndLatest(run: seq<Action>)
    ensures
      var k := After(NEW, run);
      && Increasing(k.written)
      && |k.pending| == Min(k.waiting, 64) <= k.sent
      && k.pending == Range(k.sent - |k.pending|, k.sent)
      && (forall m | m in k.written :: m !in k.pending)
  {
    RunKeeps(NEW, run);
  }

  /** How many sends since the last stream was lost, counted from the end of the run. */
  function Unstreamed(run: seq<Action>): nat {
    if run == [] then 0
    else
      var before := run[..|run| - 1];
      match run[|run| - 1]
      case Send => if After(NEW, before).streaming then 0 else Unstreamed(before) + 1
      case Attach(_) => 0
      case Lose => Unstreamed(before)
  }

  lemma {:induction false} WaitingIsUnstreamed(run: seq<Action>)
    ensures After(NEW, run).waiting == Unstreamed(run)
  {
    if run != [] {
      var before := run[..|run| - 1];
      WaitingIsUnstreamed(before);
      RunKeeps(NEW, before);
    }
  }

  predicate AllOpen(run: seq<Action>) {
    forall a | a in run :: a.Attach? ==> a.open
  }

  /** What the queue dropped along a run. */
  function Dropped(run: seq<Action>): nat {
    if run == [] then 0
    else
      var before := run[..|run| - 1];
      var k := After(NEW, before);
      Dropped(before) + (if run[|run| - 1].Send? && !k.streaming && |k.pending| == BACKLOG then 1 else 0)
  }

  /** Nothing is lost but what the full queue dropped, when every stream is open at attach. */
  lemma {:induction false} Conserved(run: seq<Action>)
    requires AllOpen(run)
    ensures var k := After(NEW, run); k.sent == |k.written| + |k.pending| + Dropped(run)
  {
    if run != [] {
      var before := run[..|run| - 1];
      assert forall a | a in before :: a in run;
      assert run[|run| - 1] in run;
      Conserved(before);
      RunKeeps(NEW, before);
    }
  }

  /** Taking a stream over loses what waits exactly when the stream is already dead. */
  lemma AttachLosesExactly(k: Link, open: bool)
    requires Valid(k)
    ensures (forall m | m in k.pending :: m in Step(k, Attach(open)).written) <==> open || k.pending == []
  {
    if !open && k.pending != [] {
      assert k.pending[0] in k.pending;
      assert k.pending[0] !in k.written;
    }
  }
}

/** The same in place: the link, its stream and the transport the stream writes to. */
module HttpLinks {
  import opened Text
  import opened LinkRuns

  type Message = string

  datatype Frame = Frame(id: nat, message: Message)

  class Transport {
    var closing: bool
    var wire: seq<Frame>

    constructor ()
      ensures !closing && wire == []
    {
      closing, wire := false, [];
    }
  }

  class SseStream {
    const transport: Transport
    var nextId: nat
    var closed: bool

    constructor (transport: Transport)
      ensures this.transport == transport && nextId == 0 && !closed
    {
      this.transport := transport;
      nextId, closed := 0, false;
    }

    predicate Writable()
      reads this, transport
    {
      !closed && !transport.closing
    }

    method Write(message: Message)
      modifies this`nextId, transport`wire
      ensures old(Writable()) ==>
        nextId == old(nextId) + 1 && transport.wire == old(transport.wire) + [Frame(nextId, message)]
      ensures !old(Writable()) ==> nextId == old(nextId) && transport.wire == old(transport.wire)
    {
      if !Writable() {
        return;
      }
      nextId := nextId + 1;
      transport.wire := transport.wire + [Frame(nextId, message)];
    }

    method Close()
      modifies this`closed, transport`closing
      ensures closed && transport.closing
    {
      closed := true;
      transport.closing := true;
    }
  }

  /** `messages` framed with the ids that follow `nextId`. */
  function Framed(nextId: nat, messages: seq<Message>): (r: seq<Frame>)
    ensures |r| == |messages|
    decreases |messages|
  {
    if messages == [] then [] else [Frame(nextId + 1, messages[0])] + Framed(nextId + 1, messages[1..])
  }

  lemma {:induction false} FramedConcat(nextId: nat, a: seq<Message>, b: seq<Message>)
    ensures Framed(nextId, a + b) == Framed(nextId, a) + Framed(nextId + |a|, b)
    decreases |a|
  {
    if a == [] {
      assert a + b == b;
    } else {
      assert (a + b)[0] == a[0] && (a + b)[1..] == a[1..] + b;
      FramedConcat(nextId + 1, a[1..], b);
    }
  }

  /** What went out on one stream: the frames of `messages` after those it had before. */
  predicate Carries(wire: seq<Frame>, nextId: nat, base: seq<Frame>, firstId: nat, messages: seq<Message>) {
    wire == base + Framed(firstId, messages) && nextId == firstId + |messages|
  }

  lemma CarriesMore(wire: seq<Frame>, nextId: nat, base: seq<Frame>, firstId: nat, a: seq<Message>, b: seq<Message>)
    requires Carries(wire, nextId, base, firstId, a)
    ensures Carries(wire + Framed(nextId, b), nextId + |b|, base, firstId, a + b)
  {
    FramedConcat(firstId, a, b);
    Assoc(base, Framed(firstId, a), Framed(nextId, b));
  }

  /** What a link has been through: every message sent, those written on any stream, those written
      on the last one after the frames it had and its id then, and where the counts stand. */
  datatype Story = Story(log: seq<Message>, told: seq<Message>, carried: seq<Message>, base: seq<Frame>, firstId: nat,
                         at: Link)

  function Lost(y: Story): Story {
    y.(at := Step(y.at, Lose))
  }

  function Streamed(y: Story, message: Message): Story {
    y.(log := y.log + [message], told := y.told + [message], carried := y.carried + [message],
    at := Step(y.at, Action.Send))
  }

  function Kept(y: Story, message: Message): Story {
    y.(log := y.log + [message], at := Step(y.at, Action.Send))
  }

  /** A stream takes over, with these frames and this id on it. */
  function TakenOver(y: Story, pending: seq<Message>, open: bool, base: seq<Frame>, firstId: nat): Story {
    var more := if open then pending else [];
    Story(y.log, y.told + more, more, base, firstId, Step(y.at, Attach(open)))
  }

  /** Each message told is the one the counts name, and what waits is the end of the log. */
  predicate Holds(y: Story, pending: seq<Message>) {
    && LinkRuns.Valid(y.at)
    && |y.log| == y.at.sent && |pending| == |y.at.pending|
    && pending == y.log[|y.log| - |pending|..]
    && |y.told| == |y.at.written|
    && (forall i | 0 <= i < |y.told| :: y.at.written[i] < |y.log| && y.told[i] == y.log[y.at.written[i]])
    && |y.carried| <= |y.told| && y.told[|y.told| - |y.carried|..] == y.carried
  }

  lemma NothingHolds()
    ensures Holds(Story([], [], [], [], 0, NEW), [])
  {
    RunKeeps(NEW, []);
  }

  lemma LostHolds(y: Story, pending: seq<Message>)
    requires Holds(y, pending)
    ensures Holds(Lost(y), pending)
  {
    StepKeeps(y.at, Lose);
  }

  lemma StreamedHolds(y: Story, pending: seq<Message>, message: Message)
    requires Holds(y, pending) && y.at.streaming
    ensures Holds(Streamed(y, message), pending)
  {
    StepKeeps(y.at, Action.Send);
    assert (y.told + [message])[|y.told| - |y.carried|..] == y.told[|y.told| - |y.carried|..] + [message];
  }

  lemma KeptHolds(y: Story, pending: seq<Message>, message: Message)
    requires Holds(y, pending) && !y.at.streaming
    ensures Holds(Kept(y, message), Queue(pending, message))
  {
    StepKeeps(y.at, Action.Send);
    assert pending + [message] == (y.log + [message])[|y.log| - |pending|..];
  }

  lemma TakenOverHolds(y: Story, pending: seq<Message>, open: bool, base: seq<Frame>, firstId: nat)
    requires Holds(y, pending)
    ensures Holds(TakenOver(y, pending, open, base, firstId), [])
  {
    StepKeeps(y.at, Attach(open));
    var next := TakenOver(y, pending, open, base, firstId);
    assert next.told[|y.told|..] == next.carried;
    forall i | 0 <= i < |next.told|
      ensures next.at.written[i] < |y.log| && next.told[i] == y.log[next.at.written[i]]
    {
      assert open && i >= |y.told| ==> pending[i - |y.told|] == y.log[y.at.pending[i - |y.told|]];
    }
  }

  lemma FramedOne(nextId: nat, message: Message)
    ensures Framed(nextId, [message]) == [Frame(nextId + 1, message)]
  {
  }

  class HttpLink {
    var stream: SseStream?
    var pending: seq<Message>
    ghost var story: Story

    /** The story follows the real link, message by message; a socket may have closed since. */
    ghost predicate Valid()
      reads this, stream, if stream == null then {} else {stream.transport}
    {
      && Holds(story, pending)
      && (stream != null ==>
            && Carries(stream.transport.wire, stream.nextId, story.base, story.firstId, story.carried)
            && (stream.Writable() ==> story.at.streaming))
    }

    /** The story once a lost stream is noticed. */
    ghost function Seen(): Story
      reads this, stream, if stream == null then {} else {stream.transport}
    {
      if stream != null && stream.Writable() then story else Lost(story)
    }

    constructor ()
      ensures Valid() && stream == null && pending == [] && story == Story([], [], [], [], 0, NEW)
    {
      stream, pending, story := null, [], Story([], [], [], [], 0, NEW);
      NothingHolds();
    }

    method Send(message: Message)
      requires Valid()
      modifies this`pending, this`story
      modifies stream, if stream == null then {} else {stream.transport}
      ensures Valid() && stream == old(stream)
      ensures story == if old(stream != null && stream.Writable()) then Streamed(old(story), message)
                       else Kept(Lost(old(story)), message)
      ensures stream != null && old(stream.Writable()) ==>
        && stream.transport.wire == old(stream.transport.wire) + [Frame(stream.nextId, message)]
        && stream.nextId == old(stream.nextId) + 1
      ensures stream != null && !old(stream.Writable()) ==> stream.transport.wire == old(stream.transport.wire)
    {
      if stream != null && stream.Writable() {
        WriteOn(stream, message);
      } else {
        Enqueue(message);
      }
    }

    method WriteOn(current: SseStream, message: Message)
      requires Holds(story, pending) && story.at.streaming && current.Writable()
      requires Carries(current.transport.wire, current.nextId, story.base, story.firstId, story.carried)
      modifies this`story, current`nextId, current.transport`wire
      ensures story == Streamed(old(story), message) && Holds(story, pending)
      ensures Carries(current.transport.wire, current.nextId, story.base, story.firstId, story.carried)
      ensures current.transport.wire == old(current.transport.wire) + [Frame(current.nextId, message)]
      ensures current.nextId == old(current.nextId) + 1
    {
      StreamedHolds(story, pending, message);
      CarriesMore(current.transport.wire, current.nextId, story.base, story.firstId, story.carried, [message]);
      FramedOne(current.nextId, message);
      story := Streamed(story, message);
      current.Write(message);
    }

    method Enqueue(message: Message)
      requires Holds(story, pending)
      modifies this`pending, this`story
      ensures story == Kept(Lost(old(story)), message) && Holds(story, pending)
    {
      LostHolds(story, pending);
      KeptHolds(Lost(story), pending, message);
      story := Kept(Lost(story), message);
      pending := pending + [message];
      if |pending| > BACKLOG {
        pending := pending[1..];
      }
    }

    /** `attach`: the old stream is closed, the new one takes what was waiting. */
    method Attach(next: SseStream)
      requires Valid()
      requires stream != null ==> next != stream && next.transport != stream.transport
      modifies this
      modifies stream, if stream == null then {} else {stream.transport}
      modifies next`nextId, next.transport`wire
      ensures Valid() && stream == next && pending == []
      ensures story == TakenOver(old(Seen()), old(pending), old(next.Writable()), old(next.transport.wire),
                                 old(next.nextId))
      ensures next.transport.wire ==
              old(next.transport.wire) + if old(next.Writable()) then Framed(old(next.nextId), old(pending)) else []
      ensures old(stream) != null ==> !old(stream).Writable()
    {
      ghost var seen := Seen();
      LostHolds(story, pending);
      if stream != null {
        stream.Close();
      }
      TakeOver(next, seen);
    }

    method TakeOver(next: SseStream, ghost seen: Story)
      requires Holds(seen, pending)
      modifies this, next`nextId, next.transport`wire
      ensures Valid() && stream == next && pending == []
      ensures story == TakenOver(seen, old(pending), old(next.Writable()), old(next.transport.wire), old(next.nextId))
      ensures next.transport.wire ==
              old(next.transport.wire) + if old(next.Writable()) then Framed(old(next.nextId), old(pending)) else []
    {
      TakenOverHolds(seen, pending, next.Writable(), next.transport.wire, next.nextId);
      stream := next;
      story := TakenOver(seen, pending, next.Writable(), next.transport.wire, next.nextId);
      WriteAll(next, pending);
      pending := [];
    }

    method WriteAll(next: SseStream, messages: seq<Message>)
      modifies next`nextId, next.transport`wire
      ensures next.transport.wire ==
              old(next.transport.wire) + if old(next.Writable()) then Framed(old(next.nextId), messages) else []
      ensures next.nextId == old(next.nextId) + if old(next.Writable()) then |messages| else 0
    {
      var left := messages;
      ghost var first, wire, open := next.nextId, next.transport.wire, next.Writable();
      while left != []
        invariant next.Writable() == open && |left| <= |messages|
        invariant next.nextId == first + if open then |messages| - |left| else 0
        invariant open ==> next.transport.wire + Framed(next.nextId, left) == wire + Framed(first, messages)
        invariant !open ==> next.transport.wire == wire
        decreases |left|
      {
        ghost var w := next.transport.wire;
        next.Write(left[0]);
        assert open ==> (w + [Frame(next.nextId, left[0])]) + Framed(next.nextId, left[1..])
                        == w + ([Frame(next.nextId, left[0])] + Framed(next.nextId, left[1..]));
        left := left[1..];
      }
    }

    /** `detach`: the stream's own connection went away; a successor is left alone. */
    method Detach(gone: SseStream)
      requires Valid()
      modifies this`stream, this`story
      ensures Valid() && pending == old(pending)
      ensures stream == if old(stream) == gone then null else old(stream)
      ensures story == if old(stream) == gone then Lost(old(story)) else old(story)
    {
      if stream == gone {
        LostHolds(story, pending);
        stream := null;
        story := Lost(story);
      }
    }

    method Close()
      requires Valid()
      modifies this`stream, this`story, stream, if stream == null then {} else {stream.transport}
      ensures Valid() && stream == null && pending == old(pending) && story == Lost(old(story))
      ensures old(stream) != null ==> !old(stream).Writable()
    {
      if stream != null {
        stream.Close();
        stream := null;
      }
      LostHolds(story, pending);
      story := Lost(story);
    }
  }

  /** What has gone out on all the streams of a link is some of the messages sent, in the order of
      sending and each once; what went out on the last stream stands on its wire, numbered from its
      own id on; and what waits is the latest, none of it written. */
  lemma WrittenInOrder(link: HttpLink)
    requires link.Valid()
    ensures
      var y := link.story;
      && |y.told| == |y.at.written|
      && (forall i, j | 0 <= i < j < |y.told| :: y.at.written[i] < y.at.written[j])
      && (forall i | 0 <= i < |y.told| ::
            y.at.written[i] < |y.log| - |link.pending| && y.told[i] == y.log[y.at.written[i]])
      && link.pending == y.log[|y.log| - |link.pending|..]
      && |link.pending| == Min(y.at.waiting, BACKLOG)
    ensures
      var y := link.story;
      link.stream != null ==>
        && y.told[|y.told| - |y.carried|..] == y.carried
        && link.stream.transport.wire == y.base + Framed(y.firstId, y.carried)
  {
    var y := link.story;
    forall i | 0 <= i < |y.told| ensures y.at.written[i] < |y.log| - |link.pending| {
      assert y.at.written[i] in y.at.written;
    }
  }
}
