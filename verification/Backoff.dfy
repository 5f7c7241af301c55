/** Starting one backend again and again (`backend.py`): the delay after failed starts. */
module Backoff {
  import opened Wrappers

  // Time is the monotonic clock as a real number; powers of two are exact as floats.

  const CAP := 60.0

  /** `2.0 ** n` is an `OverflowError` from here on. */
  const FLOAT_EXPONENTS := 1024

  function Pow2(n: nat): (p: real)
    ensures p >= 1.0
  {
    if n == 0 then 1.0 else 2.0 * Pow2(n - 1)
  }

  /** `restart_backoff_seconds`; `None` when it raises. */
  function Delay(failures: nat): Option<real> {
    if failures < 2 then Some(0.0)
    else if failures - 2 >= FLOAT_EXPONENTS then None
    else Some(if Pow2(failures - 2) < CAP then Pow2(failures - 2) else CAP)
  }

  datatype Status = DISABLED | STARTING | RUNNING | FAILED | STOPPED | RESTARTING | IDLE

  datatype State = State(status: Status, error: Option<string>, client: bool, startedAt: Option<real>,
                         restartCount: nat, failures: nat, retryAt: Option<real>)

  datatype Answer = Serving | NotServing | Raised

  predicate Refused(s: State, now: real) {
    s.retryAt.Some? && s.retryAt.value > now
  }

  /** `_fail` at time `over`. */
  function Fail(s: State, reason: string, over: real): (State, Answer) {
    var failed := s.(status := FAILED, error := Some(reason), client := false, startedAt := None,
      failures := s.failures + 1);
    match Delay(s.failures + 1)
    case None => (failed, Raised)
    case Some(delay) => (failed.(retryAt := Some(over + delay)), NotServing)
  }

  /** `start` up to its handshake, and whether there is to be one. */
  function Begin(s: State, enabled: bool, now: real): (State, bool) {
    if !enabled then (s.(status := DISABLED), false)
    else if Refused(s, now) then (s, false)
    else (s.(status := STARTING, error := None), true)
  }

  /** `start` from the end of its handshake; `failure` is why the client did not come up. */
  function End(s: State, failure: Option<string>, over: real): (State, Answer) {
    match failure
    case Some(reason) => Fail(s, reason, over)
    case None =>
      (s.(client := true, status := RUNNING, startedAt := Some(over), failures := 0, retryAt := None), Serving)
  }

  /** `start` with nothing in between. */
  function Start(s: State, enabled: bool, now: real, failure: Option<string>, over: real): (State, Answer) {
    var (begun, tries) := Begin(s, enabled, now);
    if tries then End(begun, failure, over) else (begun, NotServing)
  }

  /** `stop` and `sleep` up to the wait for the client to go ... */
  function LetGo(s: State): State {
    s.(client := false, startedAt := None)
  }

  /** ... and from there on. */
  function Halt(s: State): State {
    s.(status := if s.status == DISABLED then DISABLED else STOPPED)
  }

  function Stop(s: State): State {
    Halt(LetGo(s))
  }

  function Nap(s: State): State {
    s.(status := IDLE)
  }

  function Sleep(s: State): State {
    if s.status != RUNNING then s else Nap(LetGo(s))
  }

  /** `restart` from the point where the old client is gone: it starts like any other caller. */
  function GoOn(s: State, enabled: bool, now: real): (State, bool) {
    var stopped := Halt(s);
    Begin(stopped.(restartCount := stopped.restartCount + 1), enabled, now)
  }

  /** `restart` with nothing in between. */
  function Restart(s: State, enabled: bool, now: real, failure: Option<string>, over: real): (State, Answer) {
    if Refused(s, now) then (s, NotServing)
    else
      var (begun, tries) := GoOn(LetGo(s.(status := RESTARTING)), enabled, now);
      if tries then End(begun, failure, over) else (begun, NotServing)
  }

  // ---------------------------------------------------------------- callers side by side

  /** Where a call waits.  A handshake keeps when it began and how many had ended by then. */
  datatype Phase = Handshaking(began: real, ends: nat) | Stopping(restarts: bool) | Napping

  /** A failed attempt: when it was over, and whether no other ended while it was under way. */
  datatype Failure = Failure(over: real, alone: bool)

  /** One backend and the calls on it that are under way: nothing keeps them apart.  `ends` counts
      the attempts that came to an end, `fails` are those that failed since one last worked. */
  datatype System = System(enabled: bool, backend: State, clock: real, open: map<nat, Phase>, ends: nat,
                           fails: seq<Failure>)

  datatype Action =
    | DoStart(t: nat, now: real)
    | DoRestart(t: nat, now: real)
    | DoStop(t: nat)
    | DoSleep(t: nat)
    | Stopped(t: nat, now: real)
    | Over(t: nat, failure: Option<string>, over: real)
    | Cancel(t: nat)

  predicate Tries(sys: System, t: nat) {
    t in sys.open && sys.open[t].Handshaking?
  }

  predicate Enabled(sys: System, a: Action) {
    match a
    case DoStart(t, now) => t !in sys.open && sys.clock <= now
    case DoRestart(t, now) => t !in sys.open && sys.clock <= now
    case DoStop(t) => t !in sys.open
    case DoSleep(t) => t !in sys.open
    case Stopped(t, now) => t in sys.open && !sys.open[t].Handshaking? && sys.clock <= now
    case Over(t, _, over) => Tries(sys, t) && sys.clock <= over
    case Cancel(t) => t in sys.open
  }

  function Waits(sys: System, t: nat, phase: Phase, s: State): System {
    sys.(backend := s, open := sys.open[t := phase])
  }

  function Leaves(sys: System, t: nat, s: State): System {
    sys.(backend := s, open := sys.open - {t})
  }

  /** A call that has come to the handshake, or to its end without one. */
  function Begun(sys: System, t: nat, now: real, begun: (State, bool)): System {
    if begun.1 then Waits(sys, t, Handshaking(now, sys.ends), begun.0).(clock := now)
    else Leaves(sys, t, begun.0).(clock := now)
  }

  /** A call that lets the client go waits for it only if there is one. */
  function Restarting(sys: System, t: nat, now: real): System {
    var s := LetGo(sys.backend.(status := RESTARTING));
    if Refused(sys.backend, now) then sys.(clock := now)
    else if sys.backend.client then Waits(sys, t, Stopping(true), s).(clock := now)
    else Begun(sys, t, now, GoOn(s, sys.enabled, now))
  }

  function Halting(sys: System, t: nat): System {
    var s := LetGo(sys.backend);
    if sys.backend.client then Waits(sys, t, Stopping(false), s) else Leaves(sys, t, Halt(s))
  }

  function Dozing(sys: System, t: nat): System {
    var s := LetGo(sys.backend);
    if sys.backend.status != RUNNING then sys
    else if sys.backend.client then Waits(sys, t, Napping, s)
    else Leaves(sys, t, Nap(s))
  }

  function Gone(sys: System, t: nat, now: real): System
    requires t in sys.open
  {
    if sys.open[t].Napping? then Leaves(sys, t, Nap(sys.backend)).(clock := now)
    else if sys.open[t] == Stopping(true) then Begun(sys, t, now, GoOn(sys.backend, sys.enabled, now))
    else Leaves(sys, t, Halt(sys.backend)).(clock := now)
  }

  function Ended(sys: System, t: nat, failure: Option<string>, over: real): System
    requires Tries(sys, t)
  {
    Leaves(sys, t, End(sys.backend, failure, over).0).(
    clock := over,
    ends := sys.ends + 1,
    fails := if failure.None? then [] else sys.fails + [Failure(over, sys.open[t].ends == sys.ends)])
  }

  function Step(sys: System, a: Action): System
    requires Enabled(sys, a)
  {
    match a
    case DoStart(t, now) => Begun(sys, t, now, Begin(sys.backend, sys.enabled, now))
    case DoRestart(t, now) => Restarting(sys, t, now)
    case DoStop(t) => Halting(sys, t)
    case DoSleep(t) => Dozing(sys, t)
    case Stopped(t, now) => Gone(sys, t, now)
    case Over(t, failure, over) => Ended(sys, t, failure, over)
    case Cancel(t) => Leaves(sys, t, sys.backend)
  }

  const NEW: State := State(STOPPED, None, false, None, 0, 0, None)

  /** A backend as it is built, or left asleep; nobody has called it yet. */
  function First(enabled: bool, status: Status, clock: real): System {
    System(enabled, NEW.(status := status), clock, map[], 0, [])
  }

  predicate Runs(sys: System, run: seq<Action>)
    decreases |run|
  {
    run == [] || (Enabled(sys, run[0]) && Runs(Step(sys, run[0]), run[1..]))
  }

  function After(sys: System, run: seq<Action>): System
    requires Runs(sys, run)
    decreases |run|
  {
    if run == [] then sys else After(Step(sys, run[0]), run[1..])
  }

  /** What `k` failures in a row take at least. */
  function Span(k: nat): real {
    if k < 2 then 0.0 else if k <= 8 then Pow2(k - 2) - 1.0 else 63.0 + 60.0 * (k - 8) as real
  }

  lemma SmallPowers()
    ensures Pow2(0) == 1.0 && Pow2(1) == 2.0 && Pow2(2) == 4.0 && Pow2(3) == 8.0
    ensures Pow2(4) == 16.0 && Pow2(5) == 32.0 && Pow2(6) == 64.0
  {
  }

  lemma {:induction false} BigPowers(n: nat)
    requires n >= 6
    ensures Pow2(n) >= 64.0
  {
    if n == 6 {
      SmallPowers();
    } else {
      BigPowers(n - 1);
    }
  }

  lemma SpanGrows(k: nat)
    requires 1 <= k && Delay(k).Some?
    ensures Span(k + 1) == Span(k) + Delay(k).value
  {
    SmallPowers();
    if k >= 8 {
      BigPowers(k - 2);
    }
  }

  // ---------------------------------------------------------------- what every step keeps

  /** The floor is that of the last failure. */
  predicate FloorStands(s: State, fails: seq<Failure>, clock: real) {
    && s.failures == |fails|
    && (fails == [] ==> s.retryAt == None)
    && (1 <= |fails| <= FLOAT_EXPONENTS + 1 ==>
          Delay(|fails|).Some? && s.retryAt == Some(fails[|fails| - 1].over + Delay(|fails|).value))
    && (fails != [] ==> fails[|fails| - 1].over <= clock)
  }

  /** An attempt under way was not refused, and as long as no other has ended since, the floor it
      passed still stands. */
  predicate Passed(phase: Phase, s: State, clock: real, ends: nat)
    requires phase.Handshaking?
  {
    phase.began <= clock && phase.ends <= ends && (phase.ends == ends ==> !Refused(s, phase.began))
  }

  ghost predicate AllPassed(sys: System) {
    forall t | Tries(sys, t) :: Passed(sys.open[t], sys.backend, sys.clock, sys.ends)
  }

  /** A failure follows another: not before it, and if it was alone, at least its delay after. */
  predicate Follows(fails: seq<Failure>, j: nat)
    requires 1 <= j < |fails|
  {
    && fails[j - 1].over <= fails[j].over
    && (j <= FLOAT_EXPONENTS + 1 && fails[j].alone ==>
          Delay(j).Some? && fails[j - 1].over + Delay(j).value <= fails[j].over)
  }

  predicate Spaced(fails: seq<Failure>) {
    forall j | 1 <= j < |fails| :: Follows(fails, j)
  }

  ghost predicate Good(sys: System) {
    FloorStands(sys.backend, sys.fails, sys.clock) && AllPassed(sys) && Spaced(sys.fails)
  }

  lemma FloorMoves(s: State, fails: seq<Failure>, clock: real, reason: string, next: Failure)
    requires FloorStands(s, fails, clock)
    ensures FloorStands(Fail(s, reason, next.over).0, fails + [next], next.over)
  {
  }

  lemma MoreSpaced(fails: seq<Failure>, next: Failure)
    requires Spaced(fails)
    requires fails != [] ==> Follows(fails + [next], |fails|)
    ensures Spaced(fails + [next])
  {
    forall j | 1 <= j < |fails + [next]| ensures Follows(fails + [next], j) {
      assert j < |fails| ==> Follows(fails, j);
    }
  }

  /** The one place where the time an attempt began meets the floor. */
  lemma FailureFollows(s: State, fails: seq<Failure>, phase: Phase, clock: real, ends: nat, next: Failure)
    requires FloorStands(s, fails, clock) && fails != []
    requires phase.Handshaking? && Passed(phase, s, clock, ends)
    requires clock <= next.over && next.alone == (phase.ends == ends)
    ensures Follows(fails + [next], |fails|)
  {
  }

  lemma OverKeeps(sys: System, t: nat, failure: Option<string>, over: real)
    requires Good(sys) && Enabled(sys, Over(t, failure, over))
    ensures Good(Ended(sys, t, failure, over))
  {
    var next := Failure(over, sys.open[t].ends == sys.ends);
    if failure.Some? {
      FloorMoves(sys.backend, sys.fails, sys.clock, failure.value, next);
      if sys.fails != [] {
        FailureFollows(sys.backend, sys.fails, sys.open[t], sys.clock, sys.ends, next);
      }
      MoreSpaced(sys.fails, next);
    }
    OthersPass(sys, t, failure, over);
  }

  lemma OthersPass(sys: System, t: nat, failure: Option<string>, over: real)
    requires AllPassed(sys) && Enabled(sys, Over(t, failure, over))
    ensures AllPassed(Ended(sys, t, failure, over))
  {
    var next := Ended(sys, t, failure, over);
    forall u | Tries(next, u) ensures Passed(next.open[u], next.backend, next.clock, next.ends) {
      assert Tries(sys, u) && next.open[u] == sys.open[u];
    }
  }

  /** What an action that ends no attempt leaves alone. */
  lemma NothingEnds(sys: System, a: Action)
    requires Enabled(sys, a) && !a.Over?
    ensures
      var next := Step(sys, a);
      && next.fails == sys.fails
      && next.ends == sys.ends
      && next.backend.failures == sys.backend.failures
      && next.backend.retryAt == sys.backend.retryAt
      && sys.clock <= next.clock
      && (forall u | u != a.t && Tries(next, u) :: Tries(sys, u) && next.open[u] == sys.open[u])
  {
  }

  /** Nor does it leave a call in its handshake that was not refused just now. */
  lemma CallerPasses(sys: System, a: Action)
    requires Enabled(sys, a) && !a.Over?
    ensures
      var next := Step(sys, a);
      Tries(next, a.t) ==>
        !Tries(sys, a.t) && next.open[a.t] == Handshaking(next.clock, next.ends) && !Refused(next.backend, next.clock)
  {
  }

  lemma StepKeeps(sys: System, a: Action)
    requires Good(sys) && Enabled(sys, a)
    ensures Good(Step(sys, a))
  {
    if a.Over? {
      OverKeeps(sys, a.t, a.failure, a.over);
    } else {
      NothingEnds(sys, a);
      CallerPasses(sys, a);
    }
  }

  /** Over all runs, however the calls interleave. */
  lemma {:induction false} RunKeeps(sys: System, run: seq<Action>)
    requires Good(sys) && Runs(sys, run)
    ensures Good(After(sys, run))
    decreases |run|
  {
    if run != [] {
      StepKeeps(sys, run[0]);
      RunKeeps(Step(sys, run[0]), run[1..]);
    }
  }

  /** Some run from a backend nobody has called yet ends here. */
  ghost predicate Reachable(sys: System) {
    exists enabled: bool, status: Status, clock: real, run: seq<Action> ::
      RunsTo(First(enabled, status, clock), run, sys)
  }

  predicate RunsTo(first: System, run: seq<Action>, sys: System) {
    Runs(first, run) && After(first, run) == sys
  }

  lemma ReachableIsGood(sys: System)
    requires Reachable(sys)
    ensures Good(sys)
  {
    var enabled, status, clock, run :| RunsTo(First(enabled, status, clock), run, sys);
    RunKeeps(First(enabled, status, clock), run);
  }

  // ---------------------------------------------------------------- main results

  /** In every run, whatever overlaps, a failed attempt during which no other ended came at least
      the delay after the failure before it; one that overlapped others came no earlier. */
  lemma LoneFailuresWait(sys: System, j: nat)
    requires Reachable(sys) && 1 <= j < |sys.fails|
    ensures sys.fails[j - 1].over <= sys.fails[j].over
    ensures sys.fails[j].alone && j <= 1025 ==>
      Delay(j).Some? && sys.fails[j].over - sys.fails[j - 1].over >= Delay(j).value
  {
    ReachableIsGood(sys);
    assert Follows(sys.fails, j);
  }

  /** An attempt begins: a call comes to its handshake. */
  predicate Begins(sys: System, a: Action) {
    Enabled(sys, a) && !Tries(sys, a.t) && Tries(Step(sys, a), a.t)
  }

  predicate NoneTries(sys: System) {
    forall t | t in sys.open :: !Tries(sys, t)
  }

  /** No attempt begins while another is under way. */
  predicate OneAtATime(sys: System, run: seq<Action>)
    requires Runs(sys, run)
    decreases |run|
  {
    run == [] ||
    ((Begins(sys, run[0]) ==> NoneTries(sys)) && OneAtATime(Step(sys, run[0]), run[1..]))
  }

  /** Then at most one is under way, and every failure was alone. */
  ghost predicate Single(sys: System) {
    && (forall t, u | Tries(sys, t) && Tries(sys, u) :: t == u)
    && (forall t | Tries(sys, t) :: sys.open[t].ends == sys.ends)
    && forall f | f in sys.fails :: f.alone
  }

  lemma StepIsSingle(sys: System, a: Action)
    requires Single(sys) && Enabled(sys, a) && (Begins(sys, a) ==> NoneTries(sys))
    ensures Single(Step(sys, a))
  {
    if a.Over? {
      assert forall u | Tries(Step(sys, a), u) :: Tries(sys, u);
    } else {
      NothingEnds(sys, a);
      CallerPasses(sys, a);
    }
  }

  lemma {:induction false} RunIsSingle(sys: System, run: seq<Action>)
    requires Single(sys) && Runs(sys, run) && OneAtATime(sys, run)
    ensures Single(After(sys, run))
    decreases |run|
  {
    if run != [] {
      StepIsSingle(sys, run[0]);
      RunIsSingle(Step(sys, run[0]), run[1..]);
    }
  }

  lemma {:induction false} AloneIsSpread(fails: seq<Failure>, k: nat)
    requires Spaced(fails) && (forall f | f in fails :: f.alone)
    requires 1 <= k <= |fails| && k <= FLOAT_EXPONENTS + 2
    ensures fails[k - 1].over - fails[0].over >= Span(k)
  {
    if k > 1 {
      AloneIsSpread(fails, k - 1);
      SpanGrows(k - 1);
      assert fails[k - 1] in fails && Follows(fails, k - 1);
    }
  }

  /** If no attempt begins while another is under way, `k` failed starts in a row are spread over at
      least `2^(k-2) - 1` seconds up to eight, and `63 + 60 (k - 8)` beyond, however many refused
      attempts, stops and sleeps fall between; from the first to the 1026th, whose own delay is the
      first not to be had. */
  lemma FailuresAreSpread(enabled: bool, status: Status, clock: real, run: seq<Action>, k: nat)
    requires Runs(First(enabled, status, clock), run) && OneAtATime(First(enabled, status, clock), run)
    requires 2 <= k <= |After(First(enabled, status, clock), run).fails| && k <= 1026
    ensures
      var sys := After(First(enabled, status, clock), run);
      && |sys.fails| == sys.backend.failures
      && sys.fails[k - 1].over - sys.fails[0].over >=
           if k <= 8 then Pow2(k - 2) - 1.0 else 63.0 + 60.0 * (k - 8) as real
  {
    var first := First(enabled, status, clock);
    RunKeeps(first, run);
    RunIsSingle(first, run);
    AloneIsSpread(After(first, run).fails, k);
    assert After(first, run).fails[k - 1].over - After(first, run).fails[0].over >= Span(k);
  }

  /** A refusal is not an attempt: nothing about the backend changes and nothing is begun, and it
      happens exactly before the floor. */
  lemma RefusalChangesNothing(sys: System, t: nat, now: real)
    requires Reachable(sys) && sys.enabled && t !in sys.open && sys.clock <= now
    ensures Refused(sys.backend, now) ==> Step(sys, DoRestart(t, now)) == sys.(clock := now)
    ensures Refused(sys.backend, now) ==>
      var next := Step(sys, DoStart(t, now)); next.backend == sys.backend && next.open == sys.open
    ensures !Refused(sys.backend, now) ==>
      Begins(sys, DoStart(t, now)) && (Begins(sys, DoRestart(t, now)) <==> !sys.backend.client)
    ensures 1 <= |sys.fails| <= 1025 ==>
      Delay(|sys.fails|).Some? &&
      (Refused(sys.backend, now) <==> now < sys.fails[|sys.fails| - 1].over + Delay(|sys.fails|).value)
  {
    ReachableIsGood(sys);
    assert sys.open - {t} == sys.open;
  }

  /** The delay can be computed exactly up to 1025 failures.  The next failure raises instead and
      leaves the floor where it was. */
  lemma DelayOverflows(s: State, reason: string, over: real)
    ensures Fail(s, reason, over).1 == Raised <==> s.failures >= 1025
    ensures s.failures >= 1025 ==> Fail(s, reason, over).0.retryAt == s.retryAt
  {
  }

  function Capped(seconds: real): real { if seconds < 60.0 then seconds else 60.0 }

  /** No delay after the first failure, a second after the second, twice as long after each further one, and
      never more than a minute. */
  lemma DelaySchedule(failures: nat)
    ensures failures < 2 ==> Delay(failures) == Some(0.0)
    ensures Delay(2) == Some(1.0)
    ensures 2 <= failures < 1025 ==>
      Delay(failures).Some? && Delay(failures + 1) == Some(Capped(2.0 * Delay(failures).value))
  {
    SmallPowers();
    if failures >= 8 {
      BigPowers(failures - 2);
      BigPowers(failures - 1);
    }
  }

  lemma DisabledStays(sys: System, a: Action)
    requires Enabled(sys, a) && !sys.enabled && !sys.backend.client
    requires forall t | t in sys.open :: !sys.open[t].Handshaking?
    ensures !Step(sys, a).enabled && !Step(sys, a).backend.client
    ensures forall t | t in Step(sys, a).open :: !Step(sys, a).open[t].Handshaking?
  {
  }

  /** A disabled backend is never started: over every run it has no client and no handshake. */
  lemma {:induction false} DisabledNeverStarts(sys: System, run: seq<Action>)
    requires Runs(sys, run) && !sys.enabled && !sys.backend.client
    requires forall t | t in sys.open :: !sys.open[t].Handshaking?
    ensures !After(sys, run).backend.client && forall t :: !Tries(After(sys, run), t)
    decreases |run|
  {
    if run != [] {
      DisabledStays(sys, run[0]);
      DisabledNeverStarts(Step(sys, run[0]), run[1..]);
    }
  }

  /** What the status says: a failed backend has no client, no start time and a reason, one that serves has
      a start time. */
  predicate Told(s: State) {
    && (s.status == FAILED ==> !s.client && s.startedAt.None? && s.error.Some?)
    && (s.client ==> s.startedAt.Some?)
  }

  lemma ToldStays(sys: System, a: Action)
    requires Enabled(sys, a) && Told(sys.backend)
    ensures Told(Step(sys, a).backend)
  {
  }

  lemma {:induction false} StatusTells(sys: System, run: seq<Action>)
    requires Runs(sys, run) && Told(sys.backend)
    ensures Told(After(sys, run).backend)
    decreases |run|
  {
    if run != [] {
      ToldStays(sys, run[0]);
      StatusTells(Step(sys, run[0]), run[1..]);
    }
  }

  // ---------------------------------------------------------------- what a call comes to

  /** Nothing but these members is touched. */
  predicate KeepsCounts(s: State, r: State) {
    r.failures == s.failures && r.retryAt == s.retryAt && r.restartCount == s.restartCount && r.error == s.error
  }

  /** A stop lets the client go, and a disabled backend stays disabled. */
  lemma StopTells(s: State)
    ensures var r := Stop(s);
      && !r.client && r.startedAt == None && KeepsCounts(s, r)
      && r.status == if s.status == DISABLED then DISABLED else STOPPED
  {
  }

  /** Only a running backend is put to sleep. */
  lemma SleepTells(s: State)
    ensures s.status != RUNNING ==> Sleep(s) == s
    ensures s.status == RUNNING ==>
      var r := Sleep(s); r.status == IDLE && !r.client && r.startedAt == None && KeepsCounts(s, r)
  {
  }

  /** An attempt that is made ends serving, with its failures forgotten, or failed, with one more and no client. */
  predicate Attempted(s: State, r: State, answer: Answer, failure: Option<string>, over: real) {
    match failure
    case None =>
      answer == Serving && r.status == RUNNING && r.client && r.startedAt == Some(over)
      && r.failures == 0 && r.retryAt == None && r.error == None
    case Some(reason) =>
      answer != Serving && r.status == FAILED && !r.client && r.startedAt == None
      && r.failures == s.failures + 1 && r.error == Some(reason)
      && r.retryAt == if Delay(r.failures).Some? then Some(over + Delay(r.failures).value) else s.retryAt
  }

  lemma StartTells(s: State, enabled: bool, now: real, failure: Option<string>, over: real)
    ensures var (r, answer) := Start(s, enabled, now, failure, over);
      && r.restartCount == s.restartCount
      && (!enabled ==> answer == NotServing && r == s.(status := DISABLED))
      && (enabled && Refused(s, now) ==> answer == NotServing && r == s)
      && (enabled && !Refused(s, now) ==> Attempted(s, r, answer, failure, over))
  {
  }

  /** A restart is refused before anything is torn down, and otherwise counted and attempted. */
  lemma RestartTells(s: State, enabled: bool, now: real, failure: Option<string>, over: real)
    ensures var (r, answer) := Restart(s, enabled, now, failure, over);
      && (Refused(s, now) ==> answer == NotServing && r == s)
      && (!Refused(s, now) ==> r.restartCount == s.restartCount + 1)
      && (!Refused(s, now) && !enabled ==> answer == NotServing && r.status == DISABLED && !r.client)
      && (!Refused(s, now) && enabled ==> Attempted(s, r, answer, failure, over))
  {
  }

  lemma Runs1(sys: System, a: Action)
    requires Enabled(sys, a)
    ensures Runs(sys, [a]) && After(sys, [a]) == Step(sys, a)
  {
    assert [a][1..] == [];
  }

  lemma Runs2(sys: System, a: Action, run: seq<Action>)
    requires Enabled(sys, a) && Runs(Step(sys, a), run)
    ensures Runs(sys, [a] + run) && After(sys, [a] + run) == After(Step(sys, a), run)
  {
    assert ([a] + run)[1..] == run;
  }

  /** With nothing in between, a stop, a sleep and a restart that wait for the old client do what they do
      without one. */
  lemma InOneGo(sys: System, t: nat, now: real)
    requires t !in sys.open && sys.clock <= now && sys.backend.client
    ensures Runs(sys, [DoStop(t), Stopped(t, now)])
            && After(sys, [DoStop(t), Stopped(t, now)]).backend == Stop(sys.backend)
    ensures sys.backend.status == RUNNING ==>
      Runs(sys, [DoSleep(t), Stopped(t, now)])
      && After(sys, [DoSleep(t), Stopped(t, now)]).backend == Sleep(sys.backend)
    ensures sys.backend.status != RUNNING ==> Step(sys, DoSleep(t)) == sys
  {
    Runs1(Step(sys, DoStop(t)), Stopped(t, now));
    Runs2(sys, DoStop(t), [Stopped(t, now)]);
    assert [DoStop(t)] + [Stopped(t, now)] == [DoStop(t), Stopped(t, now)];
    if sys.backend.status == RUNNING {
      Runs1(Step(sys, DoSleep(t)), Stopped(t, now));
      Runs2(sys, DoSleep(t), [Stopped(t, now)]);
      assert [DoSleep(t)] + [Stopped(t, now)] == [DoSleep(t), Stopped(t, now)];
    }
  }

  /** Without a client they do not wait. */
  lemma AtOnce(sys: System, t: nat, now: real)
    requires t !in sys.open && sys.clock <= now && !sys.backend.client
    ensures Step(sys, DoStop(t)).backend == Stop(sys.backend) && t !in Step(sys, DoStop(t)).open
    ensures Step(sys, DoSleep(t)).backend == Sleep(sys.backend) && t !in Step(sys, DoSleep(t)).open
  {
  }

  /** A restart that is not refused comes to its handshake, and from there to its end. */
  lemma RestartInOneGo(sys: System, t: nat, now: real, failure: Option<string>, over: real)
    requires t !in sys.open && sys.clock <= now <= over && sys.enabled && !Refused(sys.backend, now)
    ensures var run := if sys.backend.client then [DoRestart(t, now), Stopped(t, now), Over(t, failure, over)]
                       else [DoRestart(t, now), Over(t, failure, over)];
      Runs(sys, run) && After(sys, run).backend == Restart(sys.backend, true, now, failure, over).0
  {
    var a, b, c := DoRestart(t, now), Stopped(t, now), Over(t, failure, over);
    var s1 := Step(sys, a);
    if sys.backend.client {
      Runs1(Step(s1, b), c);
      Runs2(s1, b, [c]);
      Runs2(sys, a, [b] + [c]);
      assert [a] + ([b] + [c]) == [a, b, c];
    } else {
      Runs1(s1, c);
      Runs2(sys, a, [c]);
      assert [a] + [c] == [a, c];
    }
  }

  /** And so does a start. */
  lemma StartInOneGo(sys: System, t: nat, now: real, failure: Option<string>, over: real)
    requires t !in sys.open && sys.clock <= now <= over && sys.enabled && !Refused(sys.backend, now)
    ensures Runs(sys, [DoStart(t, now), Over(t, failure, over)])
    ensures After(sys, [DoStart(t, now), Over(t, failure, over)]).backend
            == Start(sys.backend, true, now, failure, over).0
  {
    var a, c := DoStart(t, now), Over(t, failure, over);
    Runs1(Step(sys, a), c);
    Runs2(sys, a, [c]);
    assert [a] + [c] == [a, c];
  }

  // ---------------------------------------------------------------- what overlapping attempts do

  /** With two attempts under way and one failure behind them, both can fail at one instant: the
      second owed a delay of at least a second. */
  lemma OverlapBreaksTheDelay(sys: System, t: nat, u: nat, reason: string)
    requires Reachable(sys) && Tries(sys, t) && Tries(sys, u) && t != u && 1 <= |sys.fails| < 1025
    ensures
      var a, b := Over(t, Some(reason), sys.clock), Over(u, Some(reason), sys.clock);
      && Enabled(sys, a)
      && Enabled(Step(sys, a), b)
      && var fails := Step(Step(sys, a), b).fails;
      && |fails| == |sys.fails| + 2
      && fails[|fails| - 1].over == fails[|fails| - 2].over
      && Delay(|fails| - 1).Some?
      && Delay(|fails| - 1).value >= 1.0
  {
    var a := Over(t, Some(reason), sys.clock);
    var next := Step(sys, a);
    assert Tries(next, u) && next.open[u] == sys.open[u];
    SmallPowers();
  }

  lemma {:induction false} RunGrows(sys: System, run: seq<Action>, a: Action)
    requires Runs(sys, run) && Enabled(After(sys, run), a)
    ensures Runs(sys, run + [a]) && After(sys, run + [a]) == Step(After(sys, run), a)
    decreases |run|
  {
    if run == [] {
      assert [a][1..] == [];
      assert run + [a] == [a];
    } else {
      assert (run + [a])[1..] == run[1..] + [a];
      RunGrows(Step(sys, run[0]), run[1..], a);
    }
  }

  lemma Reaches(sys: System, a: Action) returns (next: System)
    requires Reachable(sys) && Enabled(sys, a)
    ensures Reachable(next) && next == Step(sys, a)
  {
    var enabled, status, clock, run :| RunsTo(First(enabled, status, clock), run, sys);
    RunGrows(First(enabled, status, clock), run, a);
    next := Step(sys, a);
    assert RunsTo(First(enabled, status, clock), run + [a], next);
  }

  /** `n` restarts are asked for at once ... */
  lemma {:induction false} AllBegin(n: nat) returns (sys: System)
    ensures Reachable(sys) && sys.enabled && sys.clock == 0.0 && sys.fails == []
    ensures !sys.backend.client && sys.backend.retryAt == None
    ensures forall t: nat :: t in sys.open <==> t < n
    ensures forall t | t in sys.open :: Tries(sys, t)
  {
    if n == 0 {
      sys := First(true, STOPPED, 0.0);
      assert RunsTo(First(true, STOPPED, 0.0), [], sys);
    } else {
      var before := AllBegin(n - 1);
      sys := Reaches(before, DoRestart(n - 1, 0.0));
      assert forall t | t in before.open :: Tries(before, t) && sys.open[t] == before.open[t];
    }
  }

  /** ... and all fail at once. */
  lemma {:induction false} AllFail(n: nat, k: nat, reason: string) returns (sys: System)
    requires k <= n
    ensures Reachable(sys) && sys.clock == 0.0 && |sys.fails| == k
    ensures forall f | f in sys.fails :: f.over == 0.0
    ensures forall t: nat | k <= t < n :: Tries(sys, t)
  {
    if k == 0 {
      sys := AllBegin(n);
    } else {
      var before := AllFail(n, k - 1, reason);
      sys := Reaches(before, Over(k - 1, Some(reason), 0.0));
      forall t: nat | k <= t < n ensures Tries(sys, t) {
        assert Tries(before, t) && sys.open[t] == before.open[t];
      }
    }
  }

  /** So without that condition there is no spacing at all: for every `k`, some run has `k` failures
      in a row at one instant. */
  lemma AnyNumberAtOnce(k: nat, reason: string)
    ensures exists sys: System ::
      Reachable(sys) && |sys.fails| == k && forall f | f in sys.fails :: f.over == 0.0
  {
    var sys := AllFail(k, k, reason);
  }

  // ---------------------------------------------------------------- callers that look at the status

  predicate UnderWay(status: Status) {
    status == STARTING || status == RESTARTING
  }

  /** A caller that looks at the status first: it starts and restarts only a backend on which
      neither is under way. */
  predicate Looks(sys: System, a: Action) {
    a.DoStart? || a.DoRestart? ==> !UnderWay(sys.backend.status)
  }

  predicate AllLook(sys: System, run: seq<Action>)
    requires Runs(sys, run)
    decreases |run|
  {
    run == [] || (Looks(sys, run[0]) && AllLook(Step(sys, run[0]), run[1..]))
  }

  predicate NeverStopped(run: seq<Action>) {
    forall a | a in run :: !a.DoStop? && !a.DoSleep?
  }

  /** At most one call is under way, and the status says so. */
  predicate Lone(sys: System) {
    && (forall t, u | t in sys.open && u in sys.open :: t == u)
    && forall t | t in sys.open :: UnderWay(sys.backend.status) && (Tries(sys, t) || sys.open[t] == Stopping(true))
  }

  lemma StepIsLone(sys: System, a: Action)
    requires Lone(sys) && Enabled(sys, a) && Looks(sys, a) && !a.DoStop? && !a.DoSleep?
    ensures Lone(Step(sys, a)) && (Begins(sys, a) ==> NoneTries(sys))
  {
    assert forall u | u in Step(sys, a).open :: u == a.t || u in sys.open;
  }

  /** While nobody stops the backend or puts it to sleep, looking at the status is enough. */
  lemma {:induction false} LookingIsEnough(sys: System, run: seq<Action>)
    requires Lone(sys) && Runs(sys, run) && AllLook(sys, run) && NeverStopped(run)
    ensures OneAtATime(sys, run)
    decreases |run|
  {
    if run != [] {
      assert run[0] in run && forall a | a in run[1..] :: a in run;
      StepIsLone(sys, run[0]);
      LookingIsEnough(Step(sys, run[0]), run[1..]);
    }
  }

  /** A backend serves ... */
  lemma ServingAtOnce() returns (sys: System)
    ensures Reachable(sys) && sys.open == map[] && sys.enabled && sys.clock == 0.0
    ensures sys.backend.status == RUNNING && sys.backend.client && sys.backend.retryAt == None
  {
    sys := First(true, STOPPED, 0.0);
    assert RunsTo(sys, [], sys);
    sys := Reaches(sys, DoStart(0, 0.0));
    sys := Reaches(sys, Over(0, None, 0.0));
  }

  /** ... is put to sleep, and restarted while its client goes ... */
  lemma RestartedAsleep() returns (sys: System)
    ensures Reachable(sys) && Tries(sys, 0) && sys.backend.status == IDLE
    ensures sys.enabled && sys.clock == 0.0 && sys.backend.retryAt == None && 2 !in sys.open
  {
    sys := ServingAtOnce();
    sys := Reaches(sys, DoSleep(1));
    assert Looks(sys, DoRestart(0, 0.0));
    sys := Reaches(sys, DoRestart(0, 0.0));
    sys := Reaches(sys, Stopped(1, 0.0));
  }

  /** ... so it reads as asleep while its handshake is out, and a call that looks at the status and
      wakes it begins a second attempt. */
  lemma SleepHidesAnAttempt()
    ensures exists sys: System, a: Action ::
      Reachable(sys) && Enabled(sys, a) && Looks(sys, a) && Begins(sys, a) && !NoneTries(sys)
  {
    var sys := RestartedAsleep();
    assert Looks(sys, DoStart(2, 0.0)) && Begins(sys, DoStart(2, 0.0));
  }
}

/** The same on the fields of `Backend`. */
module BackendObjects {
  import opened Wrappers
  import opened Backoff
  import opened Launches

  /** A backend as it is built, before anything starts it. */
  function Built(spec: Spec): State {
    NEW.(status := if spec.enabled then STOPPED else DISABLED)
  }

  class Backend {
    var spec: Spec
    var store: Store
    var status: Status
    var error: Option<string>
    var client: bool
    var startedAt: Option<real>
    var restartCount: nat
    var failures: nat
    var retryAt: Option<real>

    ghost function View(): State
      reads this
    {
      State(status, error, client, startedAt, restartCount, failures, retryAt)
    }

    constructor (spec: Spec, store: Store)
      ensures this.spec == spec && this.store == store
      ensures View() == Built(spec)
    {
      this.spec, this.store := spec, store;
      status := if spec.enabled then STOPPED else DISABLED;
      error, client, startedAt, restartCount, failures, retryAt := None, false, None, 0, 0, None;
    }

    method Fail(reason: string, over: real) returns (answer: Answer)
      modifies this
      ensures unchanged(`spec, `store)
      ensures (View(), answer) == Backoff.Fail(old(View()), reason, over)
    {
      status, error, client, startedAt := FAILED, Some(reason), false, None;
      failures := failures + 1;
      var delay := Delay(failures);
      if delay.None? {
        return Raised;
      }
      retryAt := Some(over + delay.value);
      answer := NotServing;
    }

    /** `start` up to its handshake. */
    method BeginStart(now: real) returns (tries: bool)
      modifies this
      ensures unchanged(`spec, `store)
      ensures (View(), tries) == Begin(old(View()), spec.enabled, now)
    {
      if !spec.enabled {
        status := DISABLED;
        return false;
      }
      if retryAt.Some? && retryAt.value > now {
        return false;
      }
      status, error := STARTING, None;
      tries := true;
    }

    /** `start` from the end of its handshake. */
    method EndStart(failure: Option<string>, over: real) returns (answer: Answer)
      modifies this
      ensures unchanged(`spec, `store)
      ensures (View(), answer) == End(old(View()), failure, over)
    {
      if failure.Some? {
        answer := Fail(failure.value, over);
        return;
      }
      client, status, startedAt, failures, retryAt := true, RUNNING, Some(over), 0, None;
      answer := Serving;
    }

    /** `start` with nothing in between. */
    method Start(now: real, failure: Option<string>, over: real) returns (answer: Answer)
      modifies this
      ensures unchanged(`spec, `store)
      ensures (View(), answer) == Backoff.Start(old(View()), spec.enabled, now, failure, over)
    {
      var tries := BeginStart(now);
      if !tries {
        return NotServing;
      }
      answer := EndStart(failure, over);
    }

    /** `stop` up to the wait for the client; `waits` tells whether there is one. */
    method BeginStop() returns (waits: bool)
      modifies this
      ensures unchanged(`spec, `store)
      ensures View() == LetGo(old(View())) && waits == old(client)
    {
      waits := client;
      client, startedAt := false, None;
    }

    /** `stop` from there on. */
    method EndStop()
      modifies this
      ensures unchanged(`spec, `store)
      ensures View() == Halt(old(View()))
    {
      if status != DISABLED {
        status := STOPPED;
      }
    }

    method Stop()
      modifies this
      ensures unchanged(`spec, `store)
      ensures View() == Backoff.Stop(old(View()))
    {
      var waits := BeginStop();
      EndStop();
    }

    method Sleep()
      modifies this
      ensures unchanged(`spec, `store)
      ensures View() == Backoff.Sleep(old(View()))
    {
      if status != RUNNING {
        return;
      }
      var waits := BeginStop();
      status := IDLE;
    }

    /** `restart` from the point where the old client is gone, up to the handshake. */
    method RestartOn(now: real) returns (tries: bool)
      modifies this
      ensures unchanged(`spec, `store)
      ensures (View(), tries) == GoOn(old(View()), spec.enabled, now)
    {
      EndStop();
      restartCount := restartCount + 1;
      tries := BeginStart(now);
    }

    /** `restart` with nothing in between. */
    method Restart(now: real, failure: Option<string>, over: real) returns (answer: Answer)
      modifies this
      ensures unchanged(`spec, `store)
      ensures (View(), answer) == Backoff.Restart(old(View()), spec.enabled, now, failure, over)
    {
      if retryAt.Some? && retryAt.value > now {
        return NotServing;
      }
      status := RESTARTING;
      var waits := BeginStop();
      var tries := RestartOn(now);
      if !tries {
        return NotServing;
      }
      answer := EndStart(failure, over);
    }
  }
}
