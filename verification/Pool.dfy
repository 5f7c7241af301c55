/** One backend of the pool (`supervisor.py`, `backend.py`, `router.py`). */
module Pool {
  import opened Wrappers

  // Calls wake it, a lock makes one of them start it, and the idle sweep puts it to sleep.  A step
  // system: one action is what one task does between two `await`s.  Backends share no state, so
  // one stands for each.  `restart`, `stop` and `reload` are not among the actions.

  type Session = nat

  datatype Status = IDLE | STARTING | RUNNING | FAILED

  /** Where a task is: queued on the wake lock, holding it while the backend starts, with its
      call in flight, over or cancelled, or told that the backend is not running. */
  datatype Pc = Queued | Starting | Calling | Over | Refused

  /** A forwarded call, or a `listing` that only wakes the backend to ask what it offers. */
  datatype Call = Call(session: Session, listing: bool, pc: Pc)

  /** `naps` counts the times the backend was left asleep, `spawns` the processes started. */
  datatype Backend = Backend(status: Status, client: bool, lock: Option<nat>, calls: map<nat, Call>,
                             counter: map<Session, nat>, clock: int, lastCall: Option<int>,
                             startedAt: Option<int>, sweep: Option<int>, falling: bool,
                             naps: nat, spawns: nat)

  datatype Action =
    | Arrive(t: nat, session: Session, listing: bool)
    | Acquire(t: nat)
    | StartSucceeds(t: nat)
    | StartFails(t: nat)
    | CallEnds(t: nat)
    | Cancel(t: nat)
    | Tick(seconds: nat)
    | SweepBegins
    | SweepLooks(ttl: Option<int>, exempt: bool)
    | SleepEnds

  predicate At(b: Backend, t: nat, pc: Pc) {
    t in b.calls && b.calls[t].pc == pc
  }

  predicate Ended(pc: Pc) {
    pc == Over || pc == Refused
  }

  predicate Running(b: Backend) {
    b.status == RUNNING && b.client
  }

  predicate Enabled(b: Backend, a: Action) {
    match a
    case Arrive(t, _, _) => t !in b.calls
    case Acquire(t) => At(b, t, Queued) && b.lock == None
    case StartSucceeds(t) => At(b, t, Starting)
    case StartFails(t) => At(b, t, Starting)
    case CallEnds(t) => At(b, t, Calling)
    case Cancel(t) => t in b.calls && !Ended(b.calls[t].pc)
    case Tick(_) => true
    case SweepBegins => b.sweep == None
    case SweepLooks(_, _) => b.sweep.Some? && !b.falling
    case SleepEnds => b.falling
  }

  function Count(counter: map<Session, nat>, session: Session): nat {
    if session in counter then counter[session] else 0
  }

  /** `serving` on the way in and on the way out. */
  function Enter(counter: map<Session, nat>, session: Session): map<Session, nat> {
    counter[session := Count(counter, session) + 1]
  }

  function Leave(counter: map<Session, nat>, session: Session): map<Session, nat> {
    if Count(counter, session) <= 1 then counter - {session}
    else counter[session := Count(counter, session) - 1]
  }

  function Put(b: Backend, t: nat, call: Call): Backend {
    b.(calls := b.calls[t := call])
  }

  /** `touch`, then `serving`, then the call goes out: nothing is awaited in between. */
  function Open(b: Backend, t: nat, call: Call): Backend {
    if call.listing then Put(b, t, call.(pc := Over))
    else Put(b, t, call.(pc := Calling)).(counter := Enter(b.counter, call.session), lastCall := Some(b.clock))
  }

  /** `_awake` or `_fetch` up to the wake lock. */
  function Arrived(b: Backend, t: nat, call: Call): Backend {
    if b.status == IDLE || (b.status == STARTING && !call.listing) then Put(b, t, call)
    else if Running(b) then Open(b, t, call)
    else Put(b, t, call.(pc := Refused))
  }

  /** `wake` under the lock: only a sleeping backend is started. */
  function Acquired(b: Backend, t: nat): Backend
    requires t in b.calls
  {
    var call := b.calls[t];
    if Running(b) then Open(b, t, call)
    else if b.status != IDLE then Put(b, t, call.(pc := Refused))
    else Put(b, t, call.(pc := Starting)).(status := STARTING, lock := Some(t), spawns := b.spawns + 1)
  }

  /** A cancelled start leaves the status as it is. */
  function Cancelled(b: Backend, t: nat): Backend
    requires t in b.calls
  {
    var call := b.calls[t];
    Put(b, t, call.(pc := Over)).(
    lock := if call.pc == Starting then None else b.lock,
    counter := if call.pc == Calling then Leave(b.counter, call.session) else b.counter)
  }

  /** `idle_for`, by the clock reading `now`. */
  function IdleFor(b: Backend, now: int): int {
    match (if b.lastCall.Some? then b.lastCall else b.startedAt)
    case None => 0
    case Some(since) => if now - since > 0 then now - since else 0
  }

  predicate Sleeps(b: Backend, ttl: Option<int>, exempt: bool)
    requires b.sweep.Some?
  {
    ttl.Some? && Running(b) && !exempt && b.counter == map[] && IdleFor(b, b.sweep.value) >= ttl.value
  }

  function Step(b: Backend, a: Action): Backend
    requires Enabled(b, a)
  {
    match a
    case Arrive(t, session, listing) => Arrived(b, t, Call(session, listing, Queued))
    case Acquire(t) => Acquired(b, t)
    case StartSucceeds(t) =>
      Open(b, t, b.calls[t]).(status := RUNNING, client := true, lock := None, startedAt := Some(b.clock))
    case StartFails(t) =>
      Put(b, t, b.calls[t].(pc := Refused)).(status := FAILED, client := false, lock := None, startedAt := None)
    case CallEnds(t) =>
      Put(b, t, b.calls[t].(pc := Over)).(counter := Leave(b.counter, b.calls[t].session))
    case Cancel(t) => Cancelled(b, t)
    case Tick(seconds) => b.(clock := b.clock + seconds)
    case SweepBegins => b.(sweep := Some(b.clock))
    case SweepLooks(ttl, exempt) =>
      if Sleeps(b, ttl, exempt) then b.(client := false, startedAt := None, falling := true)
      else b.(sweep := None)
    case SleepEnds => b.(status := IDLE, falling := false, sweep := None, naps := b.naps + 1)
  }

  /** A lazy backend begins asleep, any other one running since `clock`. */
  function Boot(asleep: bool, clock: int): Backend {
    Backend(if asleep then IDLE else RUNNING, !asleep, None, map[], map[], clock, None,
            if asleep then None else Some(clock), None, false, if asleep then 1 else 0, 0)
  }

  predicate Runs(b: Backend, run: seq<Action>)
    decreases |run|
  {
    run == [] || (Enabled(b, run[0]) && Runs(Step(b, run[0]), run[1..]))
  }

  function After(b: Backend, run: seq<Action>): Backend
    requires Runs(b, run)
    decreases |run|
  {
    if run == [] then b else After(Step(b, run[0]), run[1..])
  }

  // ---------------------------------------------------------------- what every step keeps

  /** The calls `session` has in flight. */
  ghost function InFlight(calls: map<nat, Call>, session: Session): set<nat> {
    set t | t in calls && calls[t].session == session && calls[t].pc == Calling
  }

  ghost predicate CountedIn(calls: map<nat, Call>, counter: map<Session, nat>, session: Session) {
    && Count(counter, session) == |InFlight(calls, session)|
    && (session in counter ==> counter[session] > 0)
  }

  ghost predicate Counted(b: Backend, session: Session) {
    CountedIn(b.calls, b.counter, session)
  }

  predicate Placed(b: Backend, t: nat)
    requires t in b.calls
  {
    && (b.calls[t].pc == Calling ==> Running(b))
    && (b.lock == Some(t) <==> b.calls[t].pc == Starting)
  }

  predicate Quiet(b: Backend) {
    && (b.lock.Some? ==> b.lock.value in b.calls && b.status == STARTING)
    && (b.falling ==> b.status == RUNNING && !b.client && b.sweep.Some?)
    && (b.status == RUNNING && !b.falling ==> b.client)
    && (b.client ==> b.status == RUNNING)
    && (b.sweep.Some? ==> b.sweep.value <= b.clock)
    && (b.lastCall.Some? ==> b.lastCall.value <= b.clock)
    && (b.startedAt.Some? ==> b.startedAt.value <= b.clock)
    && (Running(b) ==> b.startedAt.Some?)
    && b.spawns <= b.naps <= b.spawns + 1
    && (b.status == IDLE ==> b.naps == b.spawns + 1)
    && (b.status == STARTING || b.status == FAILED ==> b.naps == b.spawns)
    && (b.status == RUNNING ==> b.naps == b.spawns)
  }

  ghost predicate Invariant(b: Backend) {
    && Quiet(b)
    && (forall t | t in b.calls :: Placed(b, t))
    && forall session: Session :: Counted(b, session)
  }

  lemma InFlightMoves(calls: map<nat, Call>, t: nat, call: Call, session: Session)
    ensures InFlight(calls[t := call], session) ==
            if call.session == session && call.pc == Calling then InFlight(calls, session) + {t}
            else InFlight(calls, session) - {t}
  {
  }

  /** The action moves one call. */
  predicate Moves(a: Action) {
    a.Arrive? || a.Acquire? || a.StartSucceeds? || a.StartFails? || a.CallEnds? || a.Cancel?
  }

  predicate Advances(a: Action) {
    a.StartSucceeds? || a.StartFails? || a.CallEnds? || a.Cancel?
  }

  predicate InCall(b: Backend, t: nat) {
    At(b, t, Calling)
  }

  /** Only the call that moves is changed, and it stays its session's. */
  lemma OneCallMoves(b: Backend, a: Action)
    requires Enabled(b, a) && Moves(a)
    ensures a.t in Step(b, a).calls
    ensures Step(b, a).calls == b.calls[a.t := Step(b, a).calls[a.t]]
    ensures a.t in b.calls ==> b.calls[a.t].session == Step(b, a).calls[a.t].session
  {
  }

  /** The counter moves with the call: in, out, or not at all. */
  predicate CounterMoves(b: Backend, t: nat, next: Backend)
    requires t in next.calls
  {
    var session := next.calls[t].session;
    next.counter == if InCall(b, t) && !InCall(next, t) then Leave(b.counter, session)
                    else if !InCall(b, t) && InCall(next, t) then Enter(b.counter, session)
                    else b.counter
  }

  lemma ArrivalCounts(b: Backend, t: nat, call: Call)
    requires t !in b.calls && call.pc == Queued
    ensures t in Arrived(b, t, call).calls && CounterMoves(b, t, Arrived(b, t, call))
  {
  }

  lemma AcquireCounts(b: Backend, t: nat)
    requires At(b, t, Queued)
    ensures t in Acquired(b, t).calls && CounterMoves(b, t, Acquired(b, t))
  {
  }

  lemma AdvanceCounts(b: Backend, a: Action)
    requires Enabled(b, a) && Advances(a)
    ensures a.t in Step(b, a).calls && CounterMoves(b, a.t, Step(b, a))
  {
  }

  lemma CounterFollows(b: Backend, a: Action)
    requires Enabled(b, a) && Moves(a)
    ensures a.t in Step(b, a).calls && CounterMoves(b, a.t, Step(b, a))
  {
    if Advances(a) {
      AdvanceCounts(b, a);
    } else if a.Acquire? {
      AcquireCounts(b, a.t);
    } else {
      ArrivalCounts(b, a.t, Call(a.session, a.listing, Queued));
    }
  }

  lemma CountMoves(calls: map<nat, Call>, counter: map<Session, nat>, t: nat, call: Call, session: Session)
    requires t in calls ==> calls[t].session == call.session
    requires CountedIn(calls, counter, session) && CountedIn(calls, counter, call.session)
    ensures
      var was := t in calls && calls[t].pc == Calling;
      CountedIn(calls[t := call],
                if was && call.pc != Calling then Leave(counter, call.session)
                else if !was && call.pc == Calling then Enter(counter, call.session)
                else counter, session)
  {
    InFlightMoves(calls, t, call, session);
    assert t in InFlight(calls, session) <==> t in calls && calls[t].session == session && calls[t].pc == Calling;
  }

  lemma CounterKeeps(b: Backend, a: Action, session: Session)
    requires Enabled(b, a) && forall other: Session :: Counted(b, other)
    ensures Counted(Step(b, a), session)
  {
    if Moves(a) {
      var call := Step(b, a).calls[a.t];
      OneCallMoves(b, a);
      CounterFollows(b, a);
      assert Counted(b, session) && Counted(b, call.session);
      CountMoves(b.calls, b.counter, a.t, call, session);
    } else {
      assert Counted(b, session);
    }
  }

  lemma AdvanceKeeps(b: Backend, a: Action)
    requires Quiet(b) && Enabled(b, a) && Advances(a) && Placed(b, a.t)
    ensures a.t in Step(b, a).calls && Placed(Step(b, a), a.t) && Quiet(Step(b, a))
  {
  }

  lemma AcquireKeeps(b: Backend, a: Action)
    requires Quiet(b) && Enabled(b, a) && a.Acquire? && Placed(b, a.t)
    ensures a.t in Step(b, a).calls && Placed(Step(b, a), a.t) && Quiet(Step(b, a))
  {
  }

  lemma ArrivalPlaces(b: Backend, t: nat, call: Call)
    requires Quiet(b) && t !in b.calls && call.pc == Queued
    ensures t in Arrived(b, t, call).calls && Placed(Arrived(b, t, call), t)
  {
    assert b.lock.Some? ==> b.lock.value in b.calls && b.lock.value != t;
  }

  lemma ArrivalIsQuiet(b: Backend, t: nat, call: Call)
    requires Quiet(b) && t !in b.calls && call.pc == Queued
    ensures Quiet(Arrived(b, t, call))
  {
    assert b.lock.Some? ==> b.lock.value in b.calls;
  }

  /** A running backend keeps running, and the lock changes hands only with the call that moves. */
  lemma MoverSpares(b: Backend, a: Action, t: nat)
    requires Quiet(b) && Enabled(b, a) && Moves(a) && a.t != t && (a.t in b.calls ==> Placed(b, a.t))
    ensures Running(b) ==> Running(Step(b, a))
    ensures Step(b, a).lock == Some(t) <==> b.lock == Some(t)
  {
  }

  lemma MoverLeaves(b: Backend, a: Action, t: nat)
    requires Quiet(b) && Enabled(b, a) && Moves(a) && t in b.calls && Placed(b, t)
    requires a.t != t && (a.t in b.calls ==> Placed(b, a.t))
    ensures t in Step(b, a).calls && Placed(Step(b, a), t)
  {
    MoverSpares(b, a, t);
    OneCallMoves(b, a);
  }

  lemma SweeperLeaves(b: Backend, a: Action, t: nat)
    requires Quiet(b) && Enabled(b, a) && !Moves(a) && t in b.calls && Placed(b, t) && Counted(b, b.calls[t].session)
    ensures t in Step(b, a).calls && Placed(Step(b, a), t)
  {
    if a.SweepLooks? && Sleeps(b, a.ttl, a.exempt) {
      assert |InFlight(b.calls, b.calls[t].session)| == 0;
      assert t !in InFlight(b.calls, b.calls[t].session);
    }
  }

  lemma SweepKeeps(b: Backend, a: Action)
    requires Quiet(b) && Enabled(b, a) && !Moves(a)
    ensures Quiet(Step(b, a))
  {
  }

  lemma CallsGrow(b: Backend, a: Action)
    requires Enabled(b, a)
    ensures forall t | t in Step(b, a).calls :: t in b.calls || (Moves(a) && a.t == t)
  {
  }

  lemma StepKeeps(b: Backend, a: Action)
    requires Invariant(b) && Enabled(b, a)
    ensures Invariant(Step(b, a))
  {
    var next := Step(b, a);
    forall session: Session ensures Counted(next, session) {
      CounterKeeps(b, a, session);
    }
    if !Moves(a) {
      SweepKeeps(b, a);
    } else if Advances(a) {
      AdvanceKeeps(b, a);
    } else if a.Acquire? {
      AcquireKeeps(b, a);
    } else {
      ArrivalPlaces(b, a.t, Call(a.session, a.listing, Queued));
      ArrivalIsQuiet(b, a.t, Call(a.session, a.listing, Queued));
    }
    forall t | t in b.calls && !(Moves(a) && a.t == t) ensures t in next.calls && Placed(next, t) {
      assert Counted(b, b.calls[t].session);
      if Moves(a) {
        MoverLeaves(b, a, t);
      } else {
        SweeperLeaves(b, a, t);
      }
    }
    CallsGrow(b, a);
  }

  lemma {:induction false} RunKeeps(b: Backend, run: seq<Action>)
    requires Invariant(b) && Runs(b, run)
    ensures Invariant(After(b, run))
    decreases |run|
  {
    if run != [] {
      StepKeeps(b, run[0]);
      RunKeeps(Step(b, run[0]), run[1..]);
    }
  }

  /** Some run of a freshly built backend ends in `b`. */
  ghost predicate Reachable(b: Backend) {
    exists asleep: bool, clock: int, run: seq<Action> :: RunsTo(asleep, clock, run, b)
  }

  predicate RunsTo(asleep: bool, clock: int, run: seq<Action>, b: Backend) {
    Runs(Boot(asleep, clock), run) && After(Boot(asleep, clock), run) == b
  }

  lemma ReachableIsGood(b: Backend)
    requires Reachable(b)
    ensures Invariant(b)
  {
    var asleep, clock, run :| RunsTo(asleep, clock, run, b);
    RunKeeps(Boot(asleep, clock), run);
  }

  // ---------------------------------------------------------------- main results

  /** `_calls` counts exactly the open calls of each session. */
  lemma CallsAreCounted(b: Backend, session: Session)
    requires Reachable(b)
    ensures Count(b.counter, session) == |InFlight(b.calls, session)|
    ensures session in b.counter <==> InFlight(b.calls, session) != {}
  {
    ReachableIsGood(b);
    assert Counted(b, session);
  }

  /** `origin_session`: the one session in the counter, if there is just one. */
  ghost function OriginSession(b: Backend): Option<Session> {
    if |b.counter| == 1 then
      var session :| session in b.counter;
      Some(session)
    else None
  }

  /** A server's question goes to `session` exactly when it alone has calls in flight. */
  lemma OriginIsTheOnlyCaller(b: Backend, session: Session)
    requires Reachable(b)
    ensures OriginSession(b) == Some(session) <==>
      InFlight(b.calls, session) != {} && forall other: Session | other != session :: InFlight(b.calls, other) == {}
  {
    forall other: Session ensures other in b.counter <==> InFlight(b.calls, other) != {} {
      CallsAreCounted(b, other);
    }
    if |b.counter| == 1 {
      var only :| only in b.counter;
      assert |b.counter.Keys - {only}| == 0;
      assert b.counter.Keys == {only};
    }
    if InFlight(b.calls, session) != {} && forall other: Session | other != session :: InFlight(b.calls, other) == {} {
      assert b.counter.Keys == {session};
      assert |b.counter| == |b.counter.Keys|;
    }
  }

  /** When the backend last did something. */
  function LastUse(b: Backend): Option<int> {
    if b.lastCall.Some? then b.lastCall else b.startedAt
  }

  lemma StaysUp(b: Backend, a: Action)
    requires Invariant(b) && Enabled(b, a) && Running(b) && !a.SweepLooks?
    ensures Running(Step(b, a))
  {
  }

  /** The only step that takes a running client away is the sweep, and it takes none that has
      an open call or was used within its time to live, though its clock reading is stale. */
  lemma SweepSparesTheBusy(b: Backend, a: Action)
    requires Reachable(b) && Enabled(b, a) && Running(b) && !Running(Step(b, a))
    ensures a.SweepLooks? && a.ttl.Some? && !a.exempt
    ensures forall t | t in b.calls :: b.calls[t].pc != Calling
    ensures LastUse(b).Some? && b.clock - LastUse(b).value >= a.ttl.value
  {
    ReachableIsGood(b);
    if !a.SweepLooks? {
      StaysUp(b, a);
    }
    forall t | t in b.calls ensures b.calls[t].pc != Calling {
      assert Counted(b, b.calls[t].session);
      assert t in InFlight(b.calls, b.calls[t].session) <==> b.calls[t].pc == Calling;
    }
  }

  /** And it takes one away exactly if there is a time to live, the backend is not exempt, no call is open,
      and by the reading the sweep began with the last use is at least that long ago. */
  lemma SweptExactly(b: Backend, ttl: Option<int>, exempt: bool)
    requires Reachable(b) && Enabled(b, SweepLooks(ttl, exempt)) && Running(b)
    ensures LastUse(b).Some?
    ensures !Running(Step(b, SweepLooks(ttl, exempt))) <==>
      && ttl.Some? && !exempt
      && (forall t | t in b.calls :: b.calls[t].pc != Calling)
      && (b.sweep.value - LastUse(b).value >= ttl.value || ttl.value <= 0)
  {
    ReachableIsGood(b);
    if forall t | t in b.calls :: b.calls[t].pc != Calling {
      NobodyCounted(b);
    } else {
      var t :| t in b.calls && b.calls[t].pc == Calling;
      assert Counted(b, b.calls[t].session);
      assert t in InFlight(b.calls, b.calls[t].session);
    }
  }

  lemma NobodyCounted(b: Backend)
    requires Invariant(b) && forall t | t in b.calls :: b.calls[t].pc != Calling
    ensures b.counter == map[]
  {
    forall session: Session ensures session !in b.counter {
      assert Counted(b, session);
      assert InFlight(b.calls, session) == {};
    }
  }

  /** The action opens a call. */
  predicate Opens(b: Backend, a: Action)
    requires Enabled(b, a)
  {
    Moves(a) && !InCall(b, a.t) && InCall(Step(b, a), a.t)
  }

  /** When a call was last opened along a run, if one was; before it, `seen`. */
  function LastOpened(b: Backend, run: seq<Action>, seen: Option<int>): Option<int>
    requires Runs(b, run)
    decreases |run|
  {
    if run == [] then seen
    else LastOpened(Step(b, run[0]), run[1..], if Opens(b, run[0]) then Some(b.clock) else seen)
  }

  /** The time the sweep measures from is that of the last call opened, over every run. */
  lemma {:induction false} TouchedByEveryCall(b: Backend, run: seq<Action>)
    requires Runs(b, run)
    ensures After(b, run).lastCall == LastOpened(b, run, b.lastCall)
    decreases |run|
  {
    if run != [] {
      var a := run[0];
      assert Step(b, a).lastCall == if Opens(b, a) then Some(b.clock) else b.lastCall;
      TouchedByEveryCall(Step(b, a), run[1..]);
    }
  }

  /** A call in flight always has a client, through every interleaving. */
  lemma OpenCallsHaveAClient(b: Backend, t: nat)
    requires Reachable(b) && At(b, t, Calling)
    ensures Running(b)
  {
    ReachableIsGood(b);
    assert Placed(b, t);
  }

  /** However many calls land on a sleeping backend, each sleep is followed by one spawn at
      most, and only one call starts the process at a time. */
  lemma OneSpawnPerSleep(b: Backend)
    requires Reachable(b)
    ensures b.spawns == b.naps - (if b.status == IDLE then 1 else 0)
    ensures b.client ==> b.status == RUNNING
    ensures forall t, u | At(b, t, Starting) && At(b, u, Starting) :: t == u
  {
    ReachableIsGood(b);
    forall t | t in b.calls ensures At(b, t, Starting) ==> b.lock == Some(t) {
      assert Placed(b, t);
    }
  }

  /** Nobody starts it, and no one ever will. */
  predicate Stranded(b: Backend) {
    b.status == STARTING && b.lock == None
  }

  /** Cancelling the call that is starting the backend strands it, and nothing else does. */
  lemma StrandedByCancel(b: Backend, a: Action)
    requires Reachable(b) && Enabled(b, a) && !Stranded(b)
    ensures Stranded(Step(b, a)) <==> a.Cancel? && At(b, a.t, Starting)
  {
    ReachableIsGood(b);
    assert Moves(a) && a.t in b.calls ==> Placed(b, a.t);
    assert b.lock.Some? ==> Placed(b, b.lock.value);
  }

  /** A stranded backend stays so: no call, wake or sweep gets it running again. */
  lemma {:induction false} StrandedForever(b: Backend, run: seq<Action>)
    requires Invariant(b) && Stranded(b) && Runs(b, run)
    ensures Stranded(After(b, run)) && After(b, run).spawns == b.spawns
    decreases |run|
  {
    if run != [] {
      StepKeeps(b, run[0]);
      var a := run[0];
      if a.StartSucceeds? || a.StartFails? || a.Cancel? {
        assert Placed(b, a.t);
      }
      StrandedForever(Step(b, a), run[1..]);
    }
  }

  /** Such a run: a call arrives at a sleeping backend and is cancelled while it starts. */
  lemma CancelledStartStrands(session: Session, clock: int)
    ensures exists b: Backend :: Reachable(b) && Stranded(b)
  {
    var b := Boot(true, clock);
    var run := [Arrive(0, session, false), Acquire(0), Action.Cancel(0)];
    var b1 := Step(b, run[0]);
    var b2 := Step(b1, run[1]);
    var b3 := Step(b2, run[2]);
    assert Runs(b3, []);
    assert run[1..][1..] == [Action.Cancel(0)];
    assert Runs(b2, [Action.Cancel(0)]) && After(b2, [Action.Cancel(0)]) == b3;
    assert Runs(b1, run[1..]) && After(b1, run[1..]) == b3;
    assert RunsTo(true, clock, run, b3);
    assert Reachable(b3) && Stranded(b3);
  }

  /** A call is refused on arrival exactly when the backend failed or is falling asleep: in the
      second case it would have been woken a moment later.  A listing is also refused while the
      backend starts. */
  lemma RefusedOnArrival(b: Backend, t: nat, session: Session, listing: bool)
    requires Reachable(b) && t !in b.calls
    ensures At(Step(b, Arrive(t, session, listing)), t, Refused) <==>
      b.status == FAILED || b.falling || (listing && b.status == STARTING)
    ensures At(Step(b, Arrive(t, session, listing)), t, Queued) <==>
      b.status == IDLE || (b.status == STARTING && !listing)
  {
    ReachableIsGood(b);
  }

  /** One that waited for the wake lock is refused when it gets it exactly when the backend failed
      or was stranded in the meantime, or has run and is falling asleep again. */
  lemma RefusedUnderTheLock(b: Backend, t: nat)
    requires Reachable(b) && Enabled(b, Acquire(t))
    ensures At(Step(b, Acquire(t)), t, Refused) <==> b.status == FAILED || Stranded(b) || b.falling
  {
    ReachableIsGood(b);
  }

  lemma ArrivalOpens(b: Backend, t: nat, call: Call)
    requires t !in b.calls && call.pc == Queued
    ensures InCall(Arrived(b, t, call), t) <==> Running(b) && !call.listing
  {
  }

  lemma AcquireOpens(b: Backend, t: nat)
    requires At(b, t, Queued)
    ensures InCall(Acquired(b, t), t) <==> Running(b) && !b.calls[t].listing
  {
  }

  lemma AdvanceOpens(b: Backend, a: Action)
    requires Enabled(b, a) && Advances(a) && !InCall(b, a.t)
    ensures InCall(Step(b, a), a.t) <==> a.StartSucceeds? && !b.calls[a.t].listing
  {
  }

  /** A call goes out exactly when its turn comes and the backend runs: on arrival, under the lock, or when its own
      start succeeds.  A listing only wakes the backend. */
  lemma OpenedExactly(b: Backend, a: Action)
    requires Enabled(b, a) && Moves(a) && !InCall(b, a.t)
    ensures InCall(Step(b, a), a.t) <==>
      && !(if a.Arrive? then a.listing else b.calls[a.t].listing)
      && (a.StartSucceeds? || ((a.Arrive? || a.Acquire?) && Running(b)))
  {
    if Advances(a) {
      AdvanceOpens(b, a);
    } else if a.Acquire? {
      AcquireOpens(b, a.t);
    } else {
      ArrivalOpens(b, a.t, Call(a.session, a.listing, Queued));
    }
  }
}
