/** One server through its reloads (`supervisor.py`, `router.py`). */
module Handover {
  import opened Wrappers

  // A step system for one server name over any number of reloads, its backend replaced or removed
  // while it is used: one action is what one task does between two `await`s.  Calls arrive, wake the
  // backend and end, the sweep puts it to sleep, and the reload drains it, stops it and starts
  // another.  Objects are numbered in the order they are built; the wake lock belongs to the name,
  // and so is shared by all of them.

  datatype Status = IDLE | STARTING | RUNNING | FAILED | STOPPED | RESTARTING | DISABLED

  datatype Object = Object(status: Status, client: bool)

  /** Where a call is, and the object it found in the pool when it arrived: told that its name is unknown if
      it found none, or that the backend is not running. */
  datatype Pc = Queued(o: nat) | Starting(o: nat) | Calling(o: nat) | Over | Unknown | Refused

  /** The idle sweep: at rest, about to look at an object, or waiting for its process to end. */
  datatype Sweep = Still | Looking(o: nat) | Sleeping(o: nat)

  /** What the reload is at with this name: nothing, waiting for its calls or for its process to end, with
      the name out of the pool until it is built `again`, or starting the new object. */
  datatype Phase = Free | Draining(o: nat) | Stopping(o: nat, again: bool) | Gone | Launching(o: nat)

  datatype State = State(objects: seq<Object>, current: Option<nat>, calls: map<nat, Pc>, lock: Option<nat>,
                         sweep: Sweep, phase: Phase)

  datatype Action =
    | Arrive(t: nat)
    | Acquire(t: nat)
    | StartSucceeds(t: nat)
    | StartFails(t: nat)
    | CallEnds(t: nat)
    | Cancel(t: nat)
    | SweepBegins
    | SweepLooks(idle: bool)
    | SleepEnds
    | Reload(turn: Turn)

  /** The steps of a reload that touch this name; a reload that keeps it has none. */
  datatype Turn =
    | Remove
    | Replace
    | DrainLooks(late: bool)
    | StopEnds
    | Build(enabled: bool, refused: bool)
    | LaunchSucceeds
    | LaunchFails

  predicate At(s: State, t: nat, pc: Pc) {
    t in s.calls && s.calls[t] == pc
  }

  predicate Ended(pc: Pc) {
    pc == Over || pc == Unknown || pc == Refused
  }

  predicate Running(x: Object) {
    x.status == RUNNING && x.client
  }

  /** `_calls` is not empty, by `Pool.CallsAreCounted`. */
  ghost predicate Busy(s: State, o: nat) {
    exists t :: At(s, t, Calling(o))
  }

  predicate Due(s: State, turn: Turn) {
    match turn
    case Remove => s.phase == Free && s.current.Some?
    case Replace => s.phase == Free && s.current.Some?
    case DrainLooks(_) => s.phase.Draining?
    case StopEnds => s.phase.Stopping?
    case Build(_, _) => s.current == None && (s.phase == Free || s.phase == Gone)
    case LaunchSucceeds => s.phase.Launching?
    case LaunchFails => s.phase.Launching?
  }

  predicate Enabled(s: State, a: Action) {
    match a
    case Arrive(t) => t !in s.calls
    case Acquire(t) => t in s.calls && s.calls[t].Queued? && s.lock == None
    case StartSucceeds(t) => t in s.calls && s.calls[t].Starting?
    case StartFails(t) => t in s.calls && s.calls[t].Starting?
    case CallEnds(t) => t in s.calls && s.calls[t].Calling?
    case Cancel(t) => t in s.calls && !Ended(s.calls[t])
    case SweepBegins => s.sweep == Still && s.current.Some?
    case SweepLooks(_) => s.sweep.Looking?
    case SleepEnds => s.sweep.Sleeping?
    case Reload(turn) => Due(s, turn)
  }

  /** Every number names an object, and the reload takes its name out before it stops anything. */
  predicate Numbered(s: State) {
    && (s.current.Some? ==> s.current.value < |s.objects| && (s.phase == Free || s.phase == Launching(s.current.value)))
    && (s.phase.Draining? || s.phase.Stopping? || s.phase.Launching? ==> s.phase.o < |s.objects|)
    && (s.phase.Launching? ==> s.current == Some(s.phase.o))
    && (!s.sweep.Still? ==> s.sweep.o < |s.objects|)
    && forall t | t in s.calls :: !Ended(s.calls[t]) ==> s.calls[t].o < |s.objects|
  }

  function Set(s: State, o: nat, x: Object): State
    requires o < |s.objects|
  {
    s.(objects := s.objects[o := x])
  }

  function Move(s: State, t: nat, pc: Pc): State {
    s.(calls := s.calls[t := pc])
  }

  /** `_awake` up to the wake lock. */
  function Arrived(s: State, t: nat): State
    requires Numbered(s)
  {
    match s.current
    case None => Move(s, t, Unknown)
    case Some(o) =>
      var x := s.objects[o];
      if x.status == IDLE || x.status == STARTING then Move(s, t, Queued(o))
      else if Running(x) then Move(s, t, Calling(o))
      else Move(s, t, Refused)
  }

  /** `wake` under the lock, on the object found on arrival. */
  function Acquired(s: State, t: nat, o: nat): State
    requires o < |s.objects|
  {
    var x := s.objects[o];
    if Running(x) then Move(s, t, Calling(o))
    else if x.status != IDLE then Move(s, t, Refused)
    else Move(Set(s, o, x.(status := STARTING)), t, Starting(o)).(lock := Some(t))
  }

  /** `stop` up to its `await`, which there is only if it has a client to stop. */
  function BeginStop(s: State, o: nat, again: bool): State
    requires o < |s.objects|
  {
    var x := s.objects[o];
    if x.client then Set(s, o, x.(client := false)).(phase := Stopping(o, again))
    else Set(s, o, Stopped(x)).(phase := if again then Gone else Free)
  }

  function Stopped(x: Object): Object {
    if x.status == DISABLED then x else x.(status := STOPPED)
  }

  /** The new object, up to the `await` of its start. */
  function Built(s: State, enabled: bool, refused: bool): State {
    var o := |s.objects|;
    var status := if !enabled then DISABLED else if refused then FAILED else STARTING;
    s.(objects := s.objects + [Object(status, false)], current := Some(o),
    phase := if status == STARTING then Launching(o) else Free)
  }

  ghost function Reloaded(s: State, turn: Turn): State
    requires Numbered(s) && Due(s, turn)
  {
    match turn
    case Remove => BeginStop(s.(current := None), s.current.value, false)
    case Replace =>
      var o := s.current.value;
      var next := Set(s, o, s.objects[o].(status := RESTARTING)).(current := None);
      if Busy(s, o) then next.(phase := Draining(o)) else BeginStop(next, o, true)
    case DrainLooks(late) => if Busy(s, s.phase.o) && !late then s else BeginStop(s, s.phase.o, true)
    case StopEnds =>
      Set(s, s.phase.o, Stopped(s.objects[s.phase.o])).(phase := if s.phase.again then Gone else Free)
    case Build(enabled, refused) => Built(s, enabled, refused)
    case LaunchSucceeds => Set(s, s.phase.o, Object(RUNNING, true)).(phase := Free)
    case LaunchFails => Set(s, s.phase.o, Object(FAILED, false)).(phase := Free)
  }

  ghost function Swept(s: State, idle: bool): State
    requires Numbered(s) && s.sweep.Looking?
  {
    var o := s.sweep.o;
    var x := s.objects[o];
    if Running(x) && !Busy(s, o) && idle then Set(s, o, x.(client := false)).(sweep := Sleeping(o))
    else s.(sweep := Still)
  }

  ghost function Step(s: State, a: Action): State
    requires Numbered(s) && Enabled(s, a)
  {
    match a
    case Arrive(t) => Arrived(s, t)
    case Acquire(t) => Acquired(s, t, s.calls[t].o)
    case StartSucceeds(t) =>
      var o := s.calls[t].o;
      Move(Set(s, o, Object(RUNNING, true)), t, Calling(o)).(lock := None)
    case StartFails(t) => Move(Set(s, s.calls[t].o, Object(FAILED, false)), t, Refused).(lock := None)
    case CallEnds(t) => Move(s, t, Over)
    case Cancel(t) => Move(s, t, Over).(lock := if s.calls[t].Starting? then None else s.lock)
    case SweepBegins => s.(sweep := Looking(s.current.value))
    case SweepLooks(idle) => Swept(s, idle)
    case SleepEnds => Set(s, s.sweep.o, s.objects[s.sweep.o].(status := IDLE)).(sweep := Still)
    case Reload(turn) => Reloaded(s, turn)
  }

  /** A server that is not configured, or one that is: asleep, running, failed or disabled. */
  predicate Initial(s: State) {
    && s.calls == map[] && s.lock == None && s.sweep == Still && s.phase == Free
    && (s.current == None ==> s.objects == [])
    && (s.current.Some? ==> s.current == Some(0) && |s.objects| == 1 && First(s.objects[0]))
  }

  predicate First(x: Object) {
    x in [Object(IDLE, false), Object(RUNNING, true), Object(FAILED, false), Object(DISABLED, false)]
  }

  // ---------------------------------------------------------------- what every step keeps

  /** Its stop has begun: it has let go of the client it had, and will let go of no other. */
  predicate Out(s: State, o: nat) {
    o < |s.objects| && s.current != Some(o) && s.phase != Draining(o)
  }

  predicate CallOk(s: State, t: nat)
    requires Numbered(s) && t in s.calls
  {
    && (s.lock == Some(t) <==> s.calls[t].Starting?)
    && match s.calls[t]
       case Starting(o) =>
         && (s.objects[o] == Object(STARTING, false) || (s.objects[o] == Object(STOPPED, false) && Out(s, o)))
         && s.sweep != Sleeping(o) && s.phase != Launching(o)
       case Calling(o) => s.objects[o].client || Out(s, o)
       case Queued(o) => s.objects[o].status != DISABLED
       case _ => true
  }

  predicate ObjectOk(s: State, o: nat)
    requires o < |s.objects|
  {
    var x := s.objects[o];
    && (x.status == IDLE || x.status == STARTING ==> !x.client)
    && (x.status == IDLE ==> s.sweep != Sleeping(o))
    && (s.sweep == Sleeping(o) ==> !x.client && (x.status == RUNNING || (x.status == STOPPED && Out(s, o))))
    && (s.current == Some(o) ==> x.status != STOPPED && x.status != RESTARTING)
    && (s.current == Some(o) && s.sweep != Sleeping(o) ==> (x.client <==> x.status == RUNNING))
    && (s.phase == Launching(o) ==> x == Object(STARTING, false))
    && (s.phase == Draining(o) ==> x == Object(RESTARTING, true))
  }

  ghost predicate Invariant(s: State) {
    && Numbered(s)
    && (s.lock.Some? ==> s.lock.value in s.calls)
    && (forall t | t in s.calls :: CallOk(s, t))
    && forall o | 0 <= o < |s.objects| :: ObjectOk(s, o)
  }

  /** The action moves one call. */
  predicate Moves(a: Action) { a.Arrive? || a.Acquire? || Advances(a) }

  predicate Advances(a: Action) { a.StartSucceeds? || a.StartFails? || a.CallEnds? || a.Cancel? }

  lemma MoverIsNumbered(s: State, a: Action)
    requires Numbered(s) && Enabled(s, a) && Moves(a)
    ensures Numbered(Step(s, a)) && |Step(s, a).objects| == |s.objects|
  {
  }

  lemma NumberedKeeps(s: State, a: Action)
    requires Numbered(s) && Enabled(s, a)
    ensures Numbered(Step(s, a)) && |s.objects| <= |Step(s, a).objects|
  {
    if Moves(a) {
      MoverIsNumbered(s, a);
    }
  }

  /** What is known of the objects and calls an action looks at. */
  ghost predicate Known(s: State, a: Action)
    requires Numbered(s) && Enabled(s, a)
  {
    && (Moves(a) && a.t in s.calls ==>
          CallOk(s, a.t) && (!Ended(s.calls[a.t]) ==> ObjectOk(s, s.calls[a.t].o)))
    && (s.current.Some? ==>
          ObjectOk(s, s.current.value) && (Busy(s, s.current.value) ==> s.objects[s.current.value].client))
    && (s.phase.Draining? || s.phase.Stopping? || s.phase.Launching? ==> ObjectOk(s, s.phase.o))
    && (!s.sweep.Still? ==> ObjectOk(s, s.sweep.o))
  }

  lemma InvariantKnows(s: State, a: Action)
    requires Invariant(s) && Enabled(s, a)
    ensures Known(s, a)
  {
    if s.current.Some? && Busy(s, s.current.value) {
      var t :| At(s, t, Calling(s.current.value));
      assert CallOk(s, t);
    }
  }

  lemma MoverKeeps(s: State, a: Action)
    requires Numbered(s) && Enabled(s, a) && Moves(a) && Known(s, a) && Numbered(Step(s, a))
    requires s.lock.Some? ==> s.lock.value in s.calls
    ensures a.t in Step(s, a).calls && CallOk(Step(s, a), a.t)
    ensures Step(s, a).lock.Some? ==> Step(s, a).lock.value in Step(s, a).calls
  {
  }

  lemma AdvanceLeavesCalls(s: State, a: Action, t: nat)
    requires Numbered(s) && Enabled(s, a) && Advances(a) && Known(s, a) && Numbered(Step(s, a))
    requires t in s.calls && t != a.t && CallOk(s, t)
    ensures CallOk(Step(s, a), t)
  {
  }

  lemma MoverLeavesCalls(s: State, a: Action, t: nat)
    requires Numbered(s) && Enabled(s, a) && Moves(a) && Known(s, a) && Numbered(Step(s, a))
    requires t in s.calls && t != a.t && CallOk(s, t)
    ensures CallOk(Step(s, a), t)
  {
    if Advances(a) {
      AdvanceLeavesCalls(s, a, t);
    }
  }

  lemma MoverLeavesObjects(s: State, a: Action, o: nat)
    requires Numbered(s) && Enabled(s, a) && Moves(a) && Known(s, a) && o < |s.objects| && ObjectOk(s, o)
    ensures o < |Step(s, a).objects| && ObjectOk(Step(s, a), o)
  {
  }

  lemma SweepLeavesCalls(s: State, a: Action, t: nat)
    requires Numbered(s) && Enabled(s, a) && !Moves(a) && !a.Reload? && Known(s, a) && Numbered(Step(s, a))
    requires t in s.calls && CallOk(s, t)
    ensures CallOk(Step(s, a), t)
  {
    assert s.calls[t].Calling? ==> At(s, t, Calling(s.calls[t].o));
  }

  lemma SweepLeavesObjects(s: State, a: Action, o: nat)
    requires Numbered(s) && Enabled(s, a) && !Moves(a) && !a.Reload? && Known(s, a)
    requires o < |s.objects| && ObjectOk(s, o)
    ensures o < |Step(s, a).objects| && ObjectOk(Step(s, a), o)
  {
  }

  lemma ReloadLeavesCalls(s: State, turn: Turn, t: nat)
    requires Numbered(s) && Due(s, turn) && Known(s, Reload(turn)) && Numbered(Reloaded(s, turn))
    requires t in s.calls && CallOk(s, t)
    ensures CallOk(Reloaded(s, turn), t)
  {
  }

  lemma ReloadLeavesObjects(s: State, turn: Turn, o: nat)
    requires Numbered(s) && Due(s, turn) && Known(s, Reload(turn)) && Numbered(Reloaded(s, turn))
    requires o < |Reloaded(s, turn).objects| && (o < |s.objects| ==> ObjectOk(s, o))
    ensures ObjectOk(Reloaded(s, turn), o)
  {
  }

  lemma CallsGrow(s: State, a: Action)
    requires Numbered(s) && Enabled(s, a)
    ensures forall t | t in Step(s, a).calls :: t in s.calls || (Moves(a) && a.t == t)
    ensures forall t | t in s.calls :: t in Step(s, a).calls
    ensures !Moves(a) ==> Step(s, a).lock == s.lock
  {
  }

  lemma CallKeeps(s: State, a: Action, t: nat)
    requires Invariant(s) && Enabled(s, a) && Known(s, a) && Numbered(Step(s, a)) && t in s.calls
    requires !(Moves(a) && a.t == t)
    ensures t in Step(s, a).calls && CallOk(Step(s, a), t)
  {
    CallsGrow(s, a);
    assert CallOk(s, t);
    if Moves(a) {
      MoverLeavesCalls(s, a, t);
    } else if a.Reload? {
      ReloadLeavesCalls(s, a.turn, t);
    } else {
      SweepLeavesCalls(s, a, t);
    }
  }

  lemma ObjectKeeps(s: State, a: Action, o: nat)
    requires Invariant(s) && Enabled(s, a) && Known(s, a) && Numbered(Step(s, a)) && o < |Step(s, a).objects|
    ensures ObjectOk(Step(s, a), o)
  {
    if a.Reload? {
      ReloadLeavesObjects(s, a.turn, o);
    } else if Moves(a) {
      MoverIsNumbered(s, a);
      MoverLeavesObjects(s, a, o);
    } else {
      SweepLeavesObjects(s, a, o);
    }
  }

  lemma StepKeeps(s: State, a: Action)
    requires Invariant(s) && Enabled(s, a)
    ensures Invariant(Step(s, a))
  {
    InvariantKnows(s, a);
    NumberedKeeps(s, a);
    CallsGrow(s, a);
    if Moves(a) {
      MoverKeeps(s, a);
    }
    forall t | t in s.calls && !(Moves(a) && a.t == t) ensures t in Step(s, a).calls && CallOk(Step(s, a), t) {
      CallKeeps(s, a, t);
    }
    forall o | 0 <= o < |Step(s, a).objects| ensures ObjectOk(Step(s, a), o) {
      ObjectKeeps(s, a, o);
    }
  }

  ghost predicate Runs(s: State, run: seq<Action>)
    requires Numbered(s)
    decreases |run|
  {
    run == [] || (Enabled(s, run[0]) && (NumberedKeeps(s, run[0]); Runs(Step(s, run[0]), run[1..])))
  }

  ghost function After(s: State, run: seq<Action>): (r: State)
    requires Numbered(s) && Runs(s, run)
    ensures Numbered(r)
    decreases |run|
  {
    if run == [] then s
    else
      NumberedKeeps(s, run[0]);
      After(Step(s, run[0]), run[1..])
  }

  /** Calls, wakes, sweeps and reloads in any order keep what is known of each object and call. */
  lemma {:induction false} RunKeeps(s: State, run: seq<Action>)
    requires Invariant(s) && Runs(s, run)
    ensures Invariant(After(s, run))
    decreases |run|
  {
    if run != [] {
      StepKeeps(s, run[0]);
      RunKeeps(Step(s, run[0]), run[1..]);
    }
  }

  ghost predicate RunsTo(first: State, run: seq<Action>, s: State) {
    Initial(first) && Runs(first, run) && After(first, run) == s
  }

  ghost predicate Reachable(s: State) {
    exists first, run :: RunsTo(first, run, s)
  }

  lemma InitialIsGood(s: State)
    requires Initial(s)
    ensures Invariant(s)
  {
  }

  lemma ReachableIsGood(s: State)
    requires Reachable(s)
    ensures Invariant(s)
  {
    var first, run :| RunsTo(first, run, s);
    InitialIsGood(first);
    RunKeeps(first, run);
  }

  // ---------------------------------------------------------------- calls that are cut off

  ghost predicate Client(s: State, o: nat) { o < |s.objects| && s.objects[o].client }

  lemma MoverSparesClient(s: State, a: Action, o: nat)
    requires Numbered(s) && Enabled(s, a) && Moves(a) && Known(s, a) && Client(s, o)
    ensures Numbered(Step(s, a)) && Client(Step(s, a), o)
  {
    MoverIsNumbered(s, a);
  }

  lemma SweepSparesBusy(s: State, a: Action, o: nat)
    requires Numbered(s) && Enabled(s, a) && !Moves(a) && !a.Reload? && Known(s, a) && Client(s, o) && Busy(s, o)
    ensures Numbered(Step(s, a)) && Client(Step(s, a), o)
  {
  }

  lemma ReloadCuts(s: State, turn: Turn, o: nat)
    requires Numbered(s) && Due(s, turn) && Known(s, Reload(turn)) && Client(s, o) && Busy(s, o)
    ensures !Client(Reloaded(s, turn), o) <==>
      (turn == Remove && s.current == Some(o)) || (turn == DrainLooks(true) && s.phase == Draining(o))
  {
  }

  /** A call in flight loses its process exactly when its server is removed, or when it is replaced
      and the drain has run out of time. */
  lemma CutOffExactly(s: State, a: Action, t: nat, o: nat)
    requires Reachable(s) && Enabled(s, a) && At(s, t, Calling(o)) && Client(s, o)
    ensures Numbered(s)
    ensures !Client(Step(s, a), o) <==>
      (a == Reload(Remove) && s.current == Some(o)) || (a == Reload(DrainLooks(true)) && s.phase == Draining(o))
  {
    ReachableIsGood(s);
    InvariantKnows(s, a);
    if a.Reload? {
      ReloadCuts(s, a.turn, o);
    } else if Moves(a) {
      MoverSparesClient(s, a, o);
    } else {
      SweepSparesBusy(s, a, o);
    }
  }

  /** A reload that keeps the server leaves its object in the pool, and every call its process. */
  lemma {:induction false} KeptIsLeftAlone(s: State, run: seq<Action>)
    requires Invariant(s) && Runs(s, run) && s.phase == Free && s.current.Some?
    requires forall a | a in run :: !a.Reload?
    ensures After(s, run).current == s.current && After(s, run).phase == Free
    ensures forall t | At(After(s, run), t, Calling(s.current.value)) :: Client(After(s, run), s.current.value)
    decreases |run|
  {
    if run == [] {
      forall t | At(s, t, Calling(s.current.value)) ensures Client(s, s.current.value) {
        assert CallOk(s, t);
      }
    } else {
      assert run[0] in run && forall a | a in run[1..] :: a in run;
      StepKeeps(s, run[0]);
      KeptIsLeftAlone(Step(s, run[0]), run[1..]);
    }
  }

  /** The sweep takes a process exactly if its object runs, no call is out on it, and it has been idle. */
  lemma SweptExactly(s: State, idle: bool, o: nat)
    requires Reachable(s) && Enabled(s, SweepLooks(idle)) && s.sweep == Looking(o)
    ensures Numbered(s)
    ensures Client(s, o) && !Client(Step(s, SweepLooks(idle)), o) <==>
      idle && Client(s, o) && s.objects[o].status == RUNNING && forall t :: !At(s, t, Calling(o))
  {
    ReachableIsGood(s);
  }

  /** An entry that is disabled is built and left alone; any other is started, or fails at once. */
  lemma BuildTells(s: State, enabled: bool, refused: bool)
    requires Reachable(s) && Enabled(s, Reload(Build(enabled, refused)))
    ensures Numbered(s)
    ensures
      var next, o := Step(s, Reload(Build(enabled, refused))), |s.objects|;
      && next.current == Some(o) && |next.objects| == o + 1 && !next.objects[o].client
      && (!enabled ==> next.objects[o].status == DISABLED && next.phase == Free)
      && (enabled && refused ==> next.objects[o].status == FAILED && next.phase == Free)
      && (enabled && !refused ==> next.objects[o].status == STARTING && next.phase == Launching(o))
  {
  }

  /** Nobody has anything to do with the object. */
  ghost predicate Dormant(s: State, o: nat) {
    && o < |s.objects| && !s.objects[o].client
    && s.objects[o].status != IDLE && s.objects[o].status != STARTING
    && s.sweep != Sleeping(o) && s.phase != Launching(o)
    && forall t :: !At(s, t, Queued(o)) && !At(s, t, Starting(o))
  }

  lemma DormantCalls(s: State, a: Action, o: nat, t: nat)
    requires Numbered(s) && Enabled(s, a) && Dormant(s, o)
    ensures !At(Step(s, a), t, Queued(o)) && !At(Step(s, a), t, Starting(o))
  {
    assert !At(s, t, Queued(o)) && !At(s, t, Starting(o));
  }

  lemma DormantObject(s: State, a: Action, o: nat)
    requires Numbered(s) && Enabled(s, a) && Dormant(s, o)
    ensures var next := Step(s, a);
      && o < |next.objects| && !next.objects[o].client
      && next.objects[o].status != IDLE && next.objects[o].status != STARTING
      && next.sweep != Sleeping(o) && next.phase != Launching(o)
  {
    if Moves(a) && a.t in s.calls && !Ended(s.calls[a.t]) {
      assert !At(s, a.t, Queued(o)) && !At(s, a.t, Starting(o));
    }
  }

  /** So an object that was built disabled, or that failed, never has a process, whatever follows. */
  lemma {:induction false} DormantForGood(s: State, run: seq<Action>, o: nat)
    requires Numbered(s) && Runs(s, run) && Dormant(s, o)
    ensures !Client(After(s, run), o)
    decreases |run|
  {
    if run != [] {
      var next := Step(s, run[0]);
      NumberedKeeps(s, run[0]);
      DormantObject(s, run[0], o);
      forall t ensures !At(next, t, Queued(o)) && !At(next, t, Starting(o)) {
        DormantCalls(s, run[0], o, t);
      }
      DormantForGood(next, run[1..], o);
    }
  }

  // ---------------------------------------------------------------- processes that are left over

  /** A process nobody will stop: the stop of its object has begun, and has let go of another one. */
  predicate Orphan(s: State, o: nat) {
    Out(s, o) && s.objects[o].client
  }

  /** Orphans come from starts that succeed after their object was stopped, and from nothing else. */
  lemma OrphanedExactly(s: State, a: Action, o: nat)
    requires Reachable(s) && Enabled(s, a) && !Orphan(s, o)
    ensures Numbered(s)
    ensures Orphan(Step(s, a), o) <==> a.StartSucceeds? && s.calls[a.t] == Starting(o) && Out(s, o)
  {
    ReachableIsGood(s);
    InvariantKnows(s, a);
    NumberedKeeps(s, a);
    if Moves(a) {
      OrphanedByMove(s, a, o);
    } else if a.Reload? {
      OrphanedByReload(s, a.turn, o);
    }
  }

  lemma OrphanedByMove(s: State, a: Action, o: nat)
    requires Numbered(s) && Enabled(s, a) && Moves(a) && !Orphan(s, o)
    ensures Orphan(Step(s, a), o) <==> a.StartSucceeds? && s.calls[a.t] == Starting(o) && Out(s, o)
  {
  }

  lemma OrphanedByReload(s: State, turn: Turn, o: nat)
    requires Numbered(s) && Due(s, turn) && Known(s, Reload(turn)) && !Orphan(s, o)
    ensures !Orphan(Reloaded(s, turn), o)
  {
  }

  lemma StaysOut(s: State, a: Action, o: nat)
    requires Invariant(s) && Enabled(s, a) && Out(s, o)
    ensures Out(Step(s, a), o)
  {
    NumberedKeeps(s, a);
  }

  /** No later call, sweep or reload ends an orphan, unless the sweep had its object in hand already. */
  lemma {:induction false} OrphansStay(s: State, run: seq<Action>, o: nat)
    requires Invariant(s) && Runs(s, run) && Orphan(s, o) && s.sweep != Looking(o)
    ensures Orphan(After(s, run), o)
    decreases |run|
  {
    if run != [] {
      var a := run[0];
      StepKeeps(s, a);
      StaysOut(s, a, o);
      OrphanStep(s, a, o);
      OrphansStay(Step(s, a), run[1..], o);
    }
  }

  lemma OrphanStep(s: State, a: Action, o: nat)
    requires Invariant(s) && Enabled(s, a) && Orphan(s, o) && s.sweep != Looking(o) && Out(Step(s, a), o)
    ensures Orphan(Step(s, a), o) && Step(s, a).sweep != Looking(o)
  {
    InvariantKnows(s, a);
    assert ObjectOk(s, o);
  }

  /** Somebody is starting it, or waits for it while it is asleep or falling asleep. */
  ghost predicate MayStart(s: State, o: nat)
    requires o < |s.objects|
  {
    || (exists t :: At(s, t, Starting(o)))
    || ((exists t :: At(s, t, Queued(o))) && (s.objects[o].status == IDLE || s.sweep == Sleeping(o)))
  }

  lemma NobodyNew(s: State, a: Action, o: nat, t: nat)
    requires Numbered(s) && Enabled(s, a) && Out(s, o)
    ensures At(Step(s, a), t, Queued(o)) ==> At(s, t, Queued(o))
    ensures At(Step(s, a), t, Starting(o)) ==>
      At(s, t, Starting(o)) || (At(s, t, Queued(o)) && s.objects[o].status == IDLE)
  {
  }

  lemma DeadMove(s: State, a: Action, o: nat)
    requires Numbered(s) && Enabled(s, a) && Moves(a) && Known(s, a) && Out(s, o) && !s.objects[o].client
    requires forall t :: !At(s, t, Starting(o))
    ensures Out(Step(s, a), o) && !Step(s, a).objects[o].client && Step(s, a).sweep == s.sweep
    ensures Step(s, a).objects[o].status == IDLE ==> s.objects[o].status == IDLE
  {
    if a.StartSucceeds? {
      assert !At(s, a.t, Starting(o));
    }
  }

  lemma DeadObject(s: State, a: Action, o: nat)
    requires Numbered(s) && Enabled(s, a) && Known(s, a) && Out(s, o) && !s.objects[o].client
    requires forall t :: !At(s, t, Starting(o))
    ensures Out(Step(s, a), o) && !Step(s, a).objects[o].client
    ensures Step(s, a).objects[o].status == IDLE || Step(s, a).sweep == Sleeping(o) ==>
      s.objects[o].status == IDLE || s.sweep == Sleeping(o)
  {
    if Moves(a) {
      DeadMove(s, a, o);
    }
  }

  lemma DeadStep(s: State, a: Action, o: nat)
    requires Invariant(s) && Enabled(s, a) && Out(s, o) && !s.objects[o].client && !MayStart(s, o)
    ensures Out(Step(s, a), o) && !Step(s, a).objects[o].client && !MayStart(Step(s, a), o)
  {
    var next := Step(s, a);
    InvariantKnows(s, a);
    DeadObject(s, a, o);
    forall t ensures !At(next, t, Starting(o)) {
      NobodyNew(s, a, o, t);
    }
    forall t ensures At(next, t, Queued(o)) ==> At(s, t, Queued(o)) {
      NobodyNew(s, a, o, t);
    }
  }

  lemma {:induction false} DeadStays(s: State, run: seq<Action>, o: nat)
    requires Invariant(s) && Runs(s, run) && Out(s, o) && !s.objects[o].client && !MayStart(s, o)
    ensures Out(After(s, run), o) && !After(s, run).objects[o].client
    decreases |run|
  {
    if run != [] {
      StepKeeps(s, run[0]);
      DeadStep(s, run[0], o);
      DeadStays(Step(s, run[0]), run[1..], o);
    }
  }

  /** Some run gives the object a process. */
  ghost predicate MayLive(s: State, o: nat)
    requires Numbered(s)
  {
    exists run :: Runs(s, run) && Client(After(s, run), o)
  }

  lemma Earlier(s: State, a: Action, o: nat)
    requires Numbered(s) && Enabled(s, a) && Numbered(Step(s, a)) && MayLive(Step(s, a), o)
    ensures MayLive(s, o)
  {
    var run :| Runs(Step(s, a), run) && Client(After(Step(s, a), run), o);
    assert ([a] + run)[1..] == run;
    assert Runs(s, [a] + run) && After(s, [a] + run) == After(Step(s, a), run);
  }

  lemma StarterLives(s: State, t: nat, o: nat)
    requires Numbered(s) && At(s, t, Starting(o))
    ensures MayLive(s, o)
  {
    var next := Step(s, StartSucceeds(t));
    NumberedKeeps(s, StartSucceeds(t));
    assert Runs(next, []) && Client(After(next, []), o);
    Earlier(s, StartSucceeds(t), o);
  }

  lemma SleeperLives(s: State, t: nat, o: nat)
    requires Numbered(s) && At(s, t, Queued(o)) && s.lock == None && s.objects[o].status == IDLE
    ensures MayLive(s, o)
  {
    NumberedKeeps(s, Acquire(t));
    StarterLives(Step(s, Acquire(t)), t, o);
    Earlier(s, Acquire(t), o);
  }

  lemma WaiterLives(s: State, t: nat, o: nat)
    requires Numbered(s) && At(s, t, Queued(o)) && s.lock == None
    requires s.objects[o].status == IDLE || s.sweep == Sleeping(o)
    ensures MayLive(s, o)
  {
    if s.objects[o].status == IDLE {
      SleeperLives(s, t, o);
    } else {
      NumberedKeeps(s, SleepEnds);
      SleeperLives(Step(s, SleepEnds), t, o);
      Earlier(s, SleepEnds, o);
    }
  }

  lemma MayStartLives(s: State, o: nat)
    requires Invariant(s) && o < |s.objects| && MayStart(s, o)
    ensures MayLive(s, o)
  {
    if t :| At(s, t, Starting(o)) {
      StarterLives(s, t, o);
    } else {
      var t :| At(s, t, Queued(o));
      if s.lock == None {
        WaiterLives(s, t, o);
      } else {
        var a := Action.Cancel(s.lock.value);
        assert CallOk(s, s.lock.value);
        NumberedKeeps(s, a);
        WaiterLives(Step(s, a), t, o);
        Earlier(s, a, o);
      }
    }
  }

  /** The turn begins to stop `o`. */
  ghost predicate Stops(s: State, turn: Turn, o: nat) {
    match turn
    case Remove => s.current == Some(o)
    case Replace => s.current == Some(o) && !Busy(s, o)
    case DrainLooks(late) => s.phase == Draining(o) && (late || !Busy(s, o))
    case _ => false
  }

  /** What a reload stops stays without a process, whatever runs later, exactly when nobody was starting
      it at that moment and nobody was waiting for it while it fell asleep. */
  lemma StoppedForGoodExactly(s: State, turn: Turn, o: nat)
    requires Reachable(s) && Enabled(s, Reload(turn)) && Stops(s, turn, o)
    ensures Numbered(s) && Numbered(Step(s, Reload(turn)))
    ensures MayLive(Step(s, Reload(turn)), o) <==>
      (exists t :: At(s, t, Starting(o))) || (s.sweep == Sleeping(o) && exists t :: At(s, t, Queued(o)))
  {
    var next := Step(s, Reload(turn));
    ReachableIsGood(s);
    StepKeeps(s, Reload(turn));
    StopClears(s, turn, o);
    assert forall t, pc :: At(next, t, pc) <==> At(s, t, pc);
    if MayStart(next, o) {
      MayStartLives(next, o);
    } else if MayLive(next, o) {
      var run :| Runs(next, run) && Client(After(next, run), o);
      DeadStays(next, run, o);
      assert false;
    }
  }

  lemma StopClears(s: State, turn: Turn, o: nat)
    requires Invariant(s) && Due(s, turn) && Stops(s, turn, o)
    ensures var next := Reloaded(s, turn);
            Out(next, o) && !next.objects[o].client && next.calls == s.calls && next.sweep == s.sweep
            && next.objects[o].status != IDLE
  {
    assert ObjectOk(s, o);
  }

  /** The run of a call that is starting the backend when the reload removes it. */
  lemma RemovedRun(s: State)
    requires s == State([Object(STARTING, false)], Some(0), map[0 := Starting(0)], Some(0), Still, Free)
    ensures Runs(s, [Reload(Remove), StartSucceeds(0)])
    ensures After(s, [Reload(Remove), StartSucceeds(0)])
            == State([Object(RUNNING, true)], None, map[0 := Calling(0)], None, Still, Free)
  {
    var removed := State([Object(STOPPED, false)], None, map[0 := Starting(0)], Some(0), Still, Free);
    var end := State([Object(RUNNING, true)], None, map[0 := Calling(0)], None, Still, Free);
    assert Step(s, Reload(Remove)) == removed && Step(removed, StartSucceeds(0)) == end;
    assert Runs(end, []) && After(end, []) == end;
    Longer(removed, StartSucceeds(0), [], end);
    Longer(s, Reload(Remove), [StartSucceeds(0)], end);
  }

  lemma WokenRun(s: State, run: seq<Action>)
    requires s == State([Object(IDLE, false)], Some(0), map[], None, Still, Free)
    requires run == [Arrive(0), Acquire(0)]
    ensures Runs(s, run)
    ensures After(s, run) == State([Object(STARTING, false)], Some(0), map[0 := Starting(0)], Some(0), Still, Free)
  {
    var queued := s.(calls := map[0 := Queued(0)]);
    var end := State([Object(STARTING, false)], Some(0), map[0 := Starting(0)], Some(0), Still, Free);
    assert Step(s, Arrive(0)) == queued && Step(queued, Acquire(0)) == end;
    assert Runs(end, []) && After(end, []) == end;
    Longer(queued, Acquire(0), [], end);
    Longer(s, Arrive(0), [Acquire(0)], end);
  }

  lemma {:induction false} RunsJoin(s: State, run: seq<Action>, more: seq<Action>)
    requires Numbered(s) && Runs(s, run) && Runs(After(s, run), more)
    ensures Runs(s, run + more) && After(s, run + more) == After(After(s, run), more)
    decreases |run|
  {
    if run == [] {
      assert run + more == more;
    } else {
      assert (run + more)[1..] == run[1..] + more;
      NumberedKeeps(s, run[0]);
      RunsJoin(Step(s, run[0]), run[1..], more);
    }
  }

  /** A server can be removed, and its process go on with nobody to stop it. */
  lemma RemovedButRunning()
    ensures exists s :: Reachable(s) && s.current == None && s.phase == Free && s.sweep == Still && Orphan(s, 0)
  {
    var first := State([Object(IDLE, false)], Some(0), map[], None, Still, Free);
    var run, more := [Arrive(0), Acquire(0)], [Reload(Remove), StartSucceeds(0)];
    WokenRun(first, run);
    RemovedRun(After(first, run));
    RunsJoin(first, run, more);
    assert RunsTo(first, run + more, After(first, run + more));
    assert Orphan(After(first, run + more), 0);
  }

  lemma Longer(s: State, a: Action, run: seq<Action>, end: State)
    requires Numbered(s) && Enabled(s, a) && Numbered(Step(s, a)) && Runs(Step(s, a), run)
    requires After(Step(s, a), run) == end
    ensures Runs(s, [a] + run) && After(s, [a] + run) == end
  {
    assert ([a] + run)[1..] == run;
  }

  // ---------------------------------------------------------------- calls that are turned away

  /** A call that waited for the object in the pool is refused exactly when that failed, is falling
      asleep, or is starting: by the reload, which holds no lock, or left so by a cancelled call. */
  lemma WaiterRefusedExactly(s: State, t: nat, o: nat)
    requires Reachable(s) && Enabled(s, Acquire(t)) && At(s, t, Queued(o)) && s.current == Some(o)
    ensures Numbered(s)
    ensures At(Step(s, Acquire(t)), t, Refused) <==>
      s.objects[o].status == FAILED || s.objects[o].status == STARTING || s.sweep == Sleeping(o)
  {
    ReachableIsGood(s);
    assert CallOk(s, t) && ObjectOk(s, o);
  }

  /** A call that arrives while the reload starts the new object is told to wait, and is then refused
      because the lock is free, though the start may yet succeed. */
  lemma TurnedAwayWhileLaunching(s: State, t: nat, o: nat)
    requires Reachable(s) && s.phase == Launching(o) && s.lock == None && t !in s.calls
    ensures Numbered(s) && Runs(s, [Arrive(t), Acquire(t), Reload(LaunchSucceeds)])
    ensures var end := After(s, [Arrive(t), Acquire(t), Reload(LaunchSucceeds)]);
            At(end, t, Refused) && end.current == Some(o) && Running(end.objects[o])
  {
    ReachableIsGood(s);
    var s1 := Step(s, Arrive(t));
    StepKeeps(s, Arrive(t));
    assert ObjectOk(s, o) && At(s1, t, Queued(o));
    var s2 := Step(s1, Acquire(t));
    StepKeeps(s1, Acquire(t));
    var s3 := Step(s2, Reload(LaunchSucceeds));
    StepKeeps(s2, Reload(LaunchSucceeds));
    assert Runs(s3, []) && After(s3, []) == s3;
    Longer(s2, Reload(LaunchSucceeds), [], s3);
    Longer(s1, Acquire(t), [Reload(LaunchSucceeds)], s3);
    Longer(s, Arrive(t), [Acquire(t), Reload(LaunchSucceeds)], s3);
    assert [Arrive(t)] + [Acquire(t), Reload(LaunchSucceeds)] == [Arrive(t), Acquire(t), Reload(LaunchSucceeds)];
  }

  /** A call that arrives goes out at once exactly if its server's object runs and is not falling asleep, waits exactly
      if that is asleep or starting, and finds no such server exactly if there is none in the pool. */
  lemma ArrivesExactly(s: State, t: nat, o: nat)
    requires Reachable(s) && t !in s.calls
    ensures Numbered(s)
    ensures At(Step(s, Arrive(t)), t, Calling(o)) <==>
      s.current == Some(o) && s.objects[o].status == RUNNING && s.sweep != Sleeping(o)
    ensures At(Step(s, Arrive(t)), t, Queued(o)) <==>
      s.current == Some(o) && (s.objects[o].status == IDLE || s.objects[o].status == STARTING)
    ensures At(Step(s, Arrive(t)), t, Unknown) <==> s.current == None
  {
    ReachableIsGood(s);
    if s.current.Some? {
      assert ObjectOk(s, s.current.value);
    }
  }

  /** From the turn that takes a server out until it is built again, a call is told that there is no
      such server, not that it is restarting. */
  lemma UnknownWhileReplaced(s: State, t: nat)
    requires Reachable(s) && t !in s.calls && (s.phase.Draining? || s.phase.Stopping? || s.phase.Gone?)
    ensures Numbered(s) && At(Step(s, Arrive(t)), t, Unknown)
  {
  }
}
