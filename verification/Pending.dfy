/** Requests in flight over one MCP session (`mcp_stdio.py`): ids, futures and replies. */
module Pending {
  import opened Wrappers

  // `Step` is the specification: one action is what the event loop does between two `await`s.
  // `Client` does the same in place on the id counter, the table of futures and the futures.

  /** The `id` member of a reply, as JSON has it. */
  datatype JsonId = Absent | Number(value: real) | Flag(on: bool) | Text(text: string)

  datatype Message = Message(id: JsonId, body: string)

  /** The key a dictionary with integer keys looks `id` up under: numbers compare by value,
      and so do `true` and `false`. */
  function KeyOf(id: JsonId): Option<int> {
    match id
    case Absent => None
    case Number(value) => if value == value.Floor as real then Some(value.Floor) else None
    case Flag(on) => Some(if on then 1 else 0)
    case Text(_) => None
  }

  datatype Outcome = Open | Replied(message: Message) | Failed | Cancelled

  /** Where `request` is: writing under the lock, waiting, telling the server to stop, over. */
  datatype Phase = Writing | Waiting | Abandoning | Over

  datatype Request = Request(phase: Phase, outcome: Outcome, handshake: bool)

  datatype Table = Table(last: nat, writer: Option<nat>, pending: set<int>, requests: map<int, Request>)

  datatype Action =
    | Issue(handshake: bool)
    | Written(n: int)
    | WriteFailed(n: int)
    | Receive(message: Message)
    | Expire(n: int)          // the timeout strikes, or the caller is cancelled
    | Abandon(n: int)
    | Noticed(n: int)
    | Finish(n: int)
    | FailOne(n: int)         // the HTTP exchange of this request failed
    | FailAll                 // the transport is gone

  predicate In(t: Table, n: int, phase: Phase) {
    n in t.requests && t.requests[n].phase == phase
  }

  predicate Enabled(t: Table, a: Action) {
    match a
    case Issue(_) => t.writer == None
    case Written(n) => In(t, n, Writing)
    case WriteFailed(n) => In(t, n, Writing)
    case Receive(_) => true
    case Expire(n) => In(t, n, Waiting) && t.requests[n].outcome == Open
    case Abandon(n) => In(t, n, Waiting) && t.requests[n].outcome == Cancelled
    case Noticed(n) => In(t, n, Abandoning)
    case Finish(n) => In(t, n, Waiting) && (t.requests[n].outcome.Replied? || t.requests[n].outcome.Failed?)
    case FailOne(n) => n in t.pending && n in t.requests && t.requests[n].outcome == Open
    case FailAll => true
  }

  function Move(t: Table, n: int, phase: Phase): Table
    requires n in t.requests
  {
    t.(requests := t.requests[n := t.requests[n].(phase := phase)])
  }

  function Drop(t: Table, n: int): Table {
    t.(pending := t.pending - {n})
  }

  /** A future is settled only if it is not done. */
  function Settle(t: Table, n: int, outcome: Outcome): Table
    requires n in t.requests
  {
    if t.requests[n].outcome == Open then t.(requests := t.requests[n := t.requests[n].(outcome := outcome)])
    else t
  }

  function Received(t: Table, message: Message): Table {
    var key := KeyOf(message.id);
    if key.Some? && key.value in t.pending && key.value in t.requests then
      Settle(Drop(t, key.value), key.value, Replied(message))
    else t
  }

  function AllFailed(t: Table): Table {
    t.(pending := {},
    requests := map n | n in t.requests ::
      if n in t.pending && t.requests[n].outcome == Open then t.requests[n].(outcome := Failed)
      else t.requests[n])
  }

  function Step(t: Table, a: Action): Table
    requires Enabled(t, a)
  {
    match a
    case Issue(handshake) =>
      Table(t.last + 1, Some(t.last + 1), t.pending + {t.last + 1},
            t.requests[t.last + 1 := Request(Writing, Open, handshake)])
    case Written(n) => Move(t, n, Waiting).(writer := None)
    case WriteFailed(n) => Drop(Move(t, n, Over), n).(writer := None)
    case Receive(message) => Received(t, message)
    case Expire(n) => Settle(t, n, Cancelled)
    case Abandon(n) => Drop(Move(t, n, if t.requests[n].handshake then Over else Abandoning), n)
    case Noticed(n) => Drop(Move(t, n, Over), n)
    case Finish(n) => Drop(Move(t, n, Over), n)
    case FailOne(n) => Settle(t, n, Failed)
    case FailAll => AllFailed(t)
  }

  const EMPTY: Table := Table(0, None, {}, map[])

  predicate Runs(t: Table, run: seq<Action>)
    decreases |run|
  {
    run == [] || (Enabled(t, run[0]) && Runs(Step(t, run[0]), run[1..]))
  }

  function After(t: Table, run: seq<Action>): Table
    requires Runs(t, run)
    decreases |run|
  {
    if run == [] then t else After(Step(t, run[0]), run[1..])
  }

  // ---------------------------------------------------------------- what every step keeps

  predicate Live(r: Request) {
    r.phase == Writing || r.phase == Waiting
  }

  predicate RequestOk(t: Table, n: int)
    requires n in t.requests
  {
    var r := t.requests[n];
    && 1 <= n <= t.last
    && (n in t.pending ==> Live(r) && !r.outcome.Replied?)
    && (Live(r) && r.outcome == Open ==> n in t.pending)
    && (r.outcome.Replied? ==> KeyOf(r.outcome.message.id) == Some(n))
    && (r.phase == Writing <==> t.writer == Some(n))
    && (r.phase == Abandoning ==> r.outcome == Cancelled)
  }

  predicate Invariant(t: Table) {
    && t.pending <= t.requests.Keys
    && (t.writer.Some? ==> t.writer.value in t.requests)
    && forall n | n in t.requests :: RequestOk(t, n)
  }

  lemma StepKeeps(t: Table, a: Action)
    requires Invariant(t) && Enabled(t, a)
    ensures Invariant(Step(t, a))
  {
  }

  lemma {:induction false} RunKeeps(t: Table, run: seq<Action>)
    requires Invariant(t) && Runs(t, run)
    ensures Invariant(After(t, run))
    decreases |run|
  {
    if run != [] {
      StepKeeps(t, run[0]);
      RunKeeps(Step(t, run[0]), run[1..]);
    }
  }

  // ---------------------------------------------------------------- main results

  /** The ids handed out along a run, in order. */
  function Issued(t: Table, run: seq<Action>): seq<int>
    requires Runs(t, run)
    decreases |run|
  {
    if run == [] then []
    else (if run[0].Issue? then [t.last + 1] else []) + Issued(Step(t, run[0]), run[1..])
  }

  /** Ids never repeat: along any run they are counted up from the last one. */
  lemma {:induction false} IdsCountUp(t: Table, run: seq<Action>)
    requires Runs(t, run)
    ensures forall i | 0 <= i < |Issued(t, run)| :: Issued(t, run)[i] == t.last + 1 + i
    ensures After(t, run).last == t.last + |Issued(t, run)|
    decreases |run|
  {
    if run != [] {
      IdsCountUp(Step(t, run[0]), run[1..]);
    }
  }

  /** What may settle the future of request `n`: a reply carrying its id, its own timeout or
      cancellation, or a failure while it is pending. */
  predicate MaySettle(t: Table, a: Action, n: int, outcome: Outcome) {
    || (a.Receive? && outcome == Replied(a.message) && KeyOf(a.message.id) == Some(n) && n in t.pending)
    || (a == Expire(n) && outcome == Cancelled)
    || (a == FailOne(n) && outcome == Failed)
    || (a == FailAll && outcome == Failed && n in t.pending)
  }

  /** A step settles a future exactly when it is open and the step may settle it. */
  lemma SettledOnlyByItsOwn(t: Table, a: Action, n: int, outcome: Outcome)
    requires Invariant(t) && Enabled(t, a) && n in t.requests && outcome != Open
    ensures n in Step(t, a).requests
    ensures Step(t, a).requests[n].outcome == outcome <==>
      t.requests[n].outcome == outcome || (t.requests[n].outcome == Open && MaySettle(t, a, n, outcome))
  {
  }

  /** Settled at most once: over any further run a settled future keeps its outcome, and an
      id that is no longer pending never is again. */
  lemma {:induction false} SettledForGood(t: Table, run: seq<Action>, n: int)
    requires Invariant(t) && Runs(t, run) && n in t.requests
    ensures n in After(t, run).requests
    ensures t.requests[n].outcome != Open ==> After(t, run).requests[n].outcome == t.requests[n].outcome
    ensures n !in t.pending ==> n !in After(t, run).pending
    decreases |run|
  {
    if run != [] {
      assert RequestOk(t, n);
      var next := Step(t, run[0]);
      StepKeeps(t, run[0]);
      if t.requests[n].outcome != Open {
        SettledOnlyByItsOwn(t, run[0], n, t.requests[n].outcome);
      }
      assert run[0].Issue? ==> n != t.last + 1;
      SettledForGood(next, run[1..], n);
    }
  }

  /** In every state of every run the pending ids whose future is not done are exactly the
      requests issued and neither settled nor abandoned; nobody pending has been answered. */
  lemma PendingIsExact(run: seq<Action>)
    requires Runs(EMPTY, run)
    ensures
      var t := After(EMPTY, run);
      && t.pending <= t.requests.Keys
      && (forall n | n in t.requests ::
            (n in t.pending && t.requests[n].outcome == Open) <==>
            (Live(t.requests[n]) && t.requests[n].outcome == Open))
      && (forall n | n in t.pending :: Live(t.requests[n]) && !t.requests[n].outcome.Replied?)
  {
    RunKeeps(EMPTY, run);
    var t := After(EMPTY, run);
    forall n | n in t.requests
      ensures n in t.pending ==> Live(t.requests[n]) && !t.requests[n].outcome.Replied?
      ensures Live(t.requests[n]) && t.requests[n].outcome == Open ==> n in t.pending
    {
      assert RequestOk(t, n);
    }
  }

  /** A reply changes nothing exactly when its id is not pending: unknown, a duplicate of one
      already taken, or forgotten by a request that gave up. */
  lemma StrayRepliesAreDiscarded(t: Table, message: Message)
    requires Invariant(t)
    ensures Received(t, message) == t <==> (KeyOf(message.id).None? || KeyOf(message.id).value !in t.pending)
  {
  }

  /** Replies to different requests may come in any order. */
  lemma RepliesCommute(t: Table, first: Message, second: Message)
    requires Invariant(t) && KeyOf(first.id) != KeyOf(second.id)
    ensures Received(Received(t, first), second) == Received(Received(t, second), first)
  {
  }

  /** Of two replies to one request the first counts and the second is discarded. */
  lemma FirstReplyWins(t: Table, first: Message, second: Message)
    requires Invariant(t) && KeyOf(first.id) == KeyOf(second.id)
    ensures Received(Received(t, first), second) == Received(t, first)
  {
  }

  /** Section 5 of JSON-RPC 2.0 wants the id of the request back.  Every request but the first
      is answered by its number alone; the first is answered by `true` as well. */
  lemma AcceptedIds(run: seq<Action>, n: int, id: JsonId)
    requires Runs(EMPTY, run) && n in After(EMPTY, run).pending
    ensures KeyOf(id) == Some(n) <==> id == Number(n as real) || (n == 1 && id == Flag(true))
  {
    RunKeeps(EMPTY, run);
    assert RequestOk(After(EMPTY, run), n);
    if id.Number? {
      assert (n as real).Floor == n;
    }
  }

  /** A request that is not over can always go on: once it is written it waits, and it leaves the wait as soon as its
      future is done, by its own way out. */
  lemma NeverStuck(t: Table, n: int)
    requires Invariant(t) && n in t.requests
    ensures var r := t.requests[n];
      && (r.phase == Writing ==> Enabled(t, Written(n)) && Enabled(t, WriteFailed(n)))
      && (r.phase == Waiting && r.outcome == Open ==> Enabled(t, Expire(n)))
      && (r.phase == Waiting && r.outcome == Cancelled ==> Enabled(t, Abandon(n)))
      && (r.phase == Waiting && (r.outcome.Replied? || r.outcome == Failed) ==> Enabled(t, Finish(n)))
      && (r.phase == Abandoning ==> Enabled(t, Noticed(n)))
    ensures Enabled(t, FailAll) && forall message :: Enabled(t, Receive(message))
    ensures (exists a: Action :: a.Issue? && Enabled(t, a)) <==>
      forall m | m in t.requests :: t.requests[m].phase != Writing
  {
    assert RequestOk(t, n);
    if t.writer == None {
      assert Enabled(t, Issue(false));
      forall m | m in t.requests ensures t.requests[m].phase != Writing {
        assert RequestOk(t, m);
      }
    } else {
      assert RequestOk(t, t.writer.value);
    }
  }

  /** The handshake flags of the requests issued along a run, in order. */
  function Kinds(run: seq<Action>): seq<bool> {
    if run == [] then [] else (if run[0].Issue? then [run[0].handshake] else []) + Kinds(run[1..])
  }

  lemma KindMoves(t: Table, a: Action, n: int)
    requires Invariant(t) && Enabled(t, a) && n in t.requests
    ensures n in Step(t, a).requests && Step(t, a).requests[n].handshake == t.requests[n].handshake
    ensures Step(t, a).requests[n].phase == Abandoning || a == Noticed(n) <==>
      t.requests[n].phase == Abandoning || (a == Abandon(n) && !t.requests[n].handshake)
  {
    assert RequestOk(t, n);
  }

  /** From its issue on a request keeps its kind, and the server is told to stop exactly if it is given up and is
      not the handshake. */
  lemma {:induction false} ToldFrom(t: Table, run: seq<Action>, n: int)
    requires Invariant(t) && Runs(t, run) && n in t.requests
    ensures n in After(t, run).requests && After(t, run).requests[n].handshake == t.requests[n].handshake
    ensures After(t, run).requests[n].phase == Abandoning || Noticed(n) in run <==>
      t.requests[n].phase == Abandoning || (Abandon(n) in run && !t.requests[n].handshake)
    decreases |run|
  {
    if run != [] {
      assert run == [run[0]] + run[1..];
      KindMoves(t, run[0], n);
      StepKeeps(t, run[0]);
      ToldFrom(Step(t, run[0]), run[1..], n);
    }
  }

  /** Over every run: request `n` is the `n`th issued, and the server is told to stop working on it exactly if
      it was given up and is not the handshake. */
  lemma {:induction false} ToldExactly(t: Table, run: seq<Action>, n: int)
    requires Invariant(t) && Runs(t, run) && n > t.last
    ensures n in After(t, run).requests ==>
      && n - t.last <= |Kinds(run)|
      && var handshake := Kinds(run)[n - t.last - 1];
         After(t, run).requests[n].phase == Abandoning || Noticed(n) in run <==> Abandon(n) in run && !handshake
    decreases |run|
  {
    if run != [] {
      var next := Step(t, run[0]);
      assert run == [run[0]] + run[1..];
      assert n in t.requests ==> RequestOk(t, n);
      StepKeeps(t, run[0]);
      if n in next.requests {
        ToldFrom(next, run[1..], n);
      } else {
        ToldExactly(next, run[1..], n);
      }
    } else {
      assert n in t.requests ==> RequestOk(t, n);
    }
  }

  lemma SameMap<T>(m: map<int, T>, n: map<int, T>)
    requires m.Keys == n.Keys && forall k | k in m :: k in n && m[k] == n[k]
    ensures m == n
  {
    assert forall k | k in m :: k in n && m[k] == n[k];
  }

  /** Tables are the same if they are so request by request. */
  lemma SameTable(t: Table, u: Table)
    requires t.last == u.last && t.writer == u.writer && t.pending == u.pending
    requires t.requests.Keys == u.requests.Keys
    requires forall n | n in t.requests :: n in u.requests && t.requests[n] == u.requests[n]
    ensures t == u
  {
    SameMap(t.requests, u.requests);
  }

  lemma Inhabited(left: set<int>)
    ensures left == {} || exists n :: n in left
  {
    if forall n :: n !in left {
      assert left == {};
    }
  }
}

/** The same in place: the fields of `MCPClient` and the futures it hands out. */
module PendingClient {
  import opened Wrappers
  import opened Pending

  class Future {
    var outcome: Outcome

    constructor ()
      ensures outcome == Open
    {
      outcome := Open;
    }
  }

  class Client {
    var id: nat
    var pending: map<int, Future>
    ghost var issued: map<int, Future>
    ghost var phases: map<int, (Phase, bool)>
    ghost var writer: Option<nat>

    ghost predicate Valid()
      reads this
    {
      && issued.Keys == phases.Keys
      && pending.Keys <= issued.Keys
      && (forall n | n in pending :: pending[n] == issued[n])
      && (forall n | n in issued :: n <= id)
      && forall m, n | m in issued && n in issued && m != n :: issued[m] != issued[n]
    }

    ghost function Futures(): set<object>
      reads this
    {
      set n | n in issued :: issued[n]
    }

    /** The abstract table. */
    ghost function View(): Table
      requires Valid()
      reads this, Futures()
    {
      Table(id, writer, pending.Keys,
            map n | n in issued :: Request(phases[n].0, issued[n].outcome, phases[n].1))
    }

    constructor ()
      ensures Valid() && View() == EMPTY
    {
      id := 0;
      pending := map[];
      issued := map[];
      phases := map[];
      writer := None;
    }

    /** `request` up to its write. */
    method Issue(handshake: bool) returns (n: nat, future: Future)
      requires Valid() && Enabled(View(), Action.Issue(handshake))
      modifies this
      ensures Valid() && View() == Step(old(View()), Action.Issue(handshake))
      ensures fresh(future) && n == id && n in pending && pending[n] == future
    {
      future := new Future();
      n := id + 1;
      Add(n, future, handshake);
    }

    method Add(n: nat, future: Future, handshake: bool)
      requires Valid() && n == id + 1 && future.outcome == Open
      requires forall m | m in issued :: issued[m] != future
      modifies this
      ensures Valid() && id == n && n in pending && pending[n] == future
      ensures View() == Table(n, Some(n), old(View()).pending + {n},
                              old(View()).requests[n := Request(Writing, Open, handshake)])
    {
      ghost var was := View();
      id := n;
      pending := pending[n := future];
      issued := issued[n := future];
      phases := phases[n := (Writing, handshake)];
      writer := Some(n);
      SameTable(View(), Table(n, Some(n), was.pending + {n}, was.requests[n := Request(Writing, Open, handshake)]));
    }

    method Forget(n: int)
      requires Valid()
      modifies `pending
      ensures Valid() && View() == Drop(old(View()), n)
    {
      pending := pending - {n};
    }

    /** The `except BaseException` of the write. */
    method WriteFailed(n: int)
      requires Valid() && Enabled(View(), Action.WriteFailed(n))
      modifies this
      ensures Valid() && View() == Step(old(View()), Action.WriteFailed(n))
    {
      ghost var was := View();
      phases := phases[n := (Over, phases[n].1)];
      writer := None;
      Forget(n);
      SameTable(View(), Step(was, Action.WriteFailed(n)));
    }

    /** `_resolve_response`. */
    method Resolve(message: Message)
      requires Valid()
      modifies `pending, Futures()
      ensures Valid() && View() == Step(old(View()), Receive(message))
    {
      var key := KeyOf(message.id);
      if key.None? || key.value !in pending {
        return;
      }
      ghost var was := View();
      var future := pending[key.value];
      pending := pending - {key.value};
      if future.outcome == Open {
        future.outcome := Replied(message);
      }
      SameTable(View(), Received(was, message));
    }

    /** What `wait_for` does to the future of request `n` when time is up or the caller is
        cancelled; the table still names it. */
    method Expire(n: int, future: Future)
      requires Valid() && Enabled(View(), Action.Expire(n)) && future == issued[n]
      modifies future
      ensures Valid() && View() == Step(old(View()), Action.Expire(n))
    {
      ghost var was := View();
      future.outcome := Cancelled;
      SameTable(View(), Settle(was, n, Cancelled));
    }

    /** `_abandon`: forget first, then tell the server, unless it is the handshake. */
    method Abandon(n: int)
      requires Valid() && Enabled(View(), Action.Abandon(n))
      modifies this
      ensures Valid() && View() == Step(old(View()), Action.Abandon(n))
    {
      ghost var was := View();
      phases := phases[n := (if phases[n].1 then Over else Abandoning, phases[n].1)];
      Forget(n);
      SameTable(View(), Step(was, Action.Abandon(n)));
    }

    /** The `finally` of `request`, after a reply or a failure. */
    method Finish(n: int)
      requires Valid() && Enabled(View(), Action.Finish(n))
      modifies this
      ensures Valid() && View() == Step(old(View()), Action.Finish(n))
    {
      ghost var was := View();
      phases := phases[n := (Over, phases[n].1)];
      Forget(n);
      SameTable(View(), Step(was, Action.Finish(n)));
    }

    /** `_fail_pending`: the table is swapped for an empty one, then its futures fail. */
    method FailPending()
      requires Valid()
      modifies `pending, Futures()
      ensures Valid() && View() == Step(old(View()), FailAll)
    {
      ghost var was := View();
      var taken := pending;
      pending := map[];
      FailEach(taken);
      SameTable(View(), AllFailed(was));
    }

    method FailEach(taken: map<int, Future>)
      requires Valid() && taken.Keys <= issued.Keys && forall n | n in taken :: taken[n] == issued[n]
      modifies Futures()
      ensures forall n | n in issued ::
        issued[n].outcome == if n in taken && old(issued[n].outcome) == Open then Failed else old(issued[n].outcome)
    {
      var left: set<int> := taken.Keys;
      while left != {}
        invariant left <= taken.Keys
        invariant forall n | n in issued ::
          issued[n].outcome == if n in taken && n !in left && old(issued[n].outcome) == Open then Failed
                               else old(issued[n].outcome)
        decreases |left|
      {
        Inhabited(left);
        var n :| n in left;
        left := left - {n};
        var future := taken[n];
        if future.outcome == Open {
          future.outcome := Failed;
        }
      }
    }
  }
}
