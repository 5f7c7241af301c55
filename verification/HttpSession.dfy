/** The session of the Streamable HTTP client (`mcp_http.py`). */
module HttpSession {
  import opened Wrappers

  // Requests are sent in a session the server named, a 404 says that the session is gone, and one
  // renewal runs at a time under a lock.  The protocol is a step system: one action is what one
  // task does between two `await`s.  Each task is one `_exchange` of a request other than
  // `initialize`.  Server ids are numbers, and an `initialize` is always answered with an id not
  // handed out before.

  type Id = nat

  /** What became of the caller's future. */
  datatype Fate = Waiting | Settled | Abandoned

  datatype Pc =
    | Entering                      // the task has not run yet
    | Queued                        // waits for the renewal in flight
    | Looping                       // at the top of the loop
    | Connecting                    // the id is read, the connection is opening
    | Sent                          // the request is out
    | Refused                       // it was answered 404
    | WantLock(stale: Option<Id>)   // `_renew_session(stale)` waits for the lock
    | Renewing                      // holds the lock, `initialize` is out
    | Adopted                       // holds the lock, the new id is stored
    | Done(cancelled: bool)

  /** One `_exchange`.  `sentWith` and `stale` are its own variables (`stale` is set when
      `retried` is); the others record what went over the wire: the id on the last request,
      the id on the last request answered 404, and how many requests went out. */
  datatype Task = Task(pc: Pc, sentWith: Option<Id>, header: Option<Id>, refused: Option<Option<Id>>,
                       stale: Option<Option<Id>>, sends: nat, fate: Fate)

  /** `orphans` counts renewal handshakes whose caller stopped waiting before the answer:
      an `initialize` is never cancelled, so its exchange stays and may still adopt an id. */
  datatype State = State(session: Option<Id>, lost: bool, lock: Option<nat>, tasks: map<nat, Task>,
                         minted: set<Id>, orphans: nat)

  datatype Action =
    | Begin(t: nat)
    | Enter(t: nat)
    | LockFreed(t: nat)
    | ReadId(t: nat)
    | Connected(t: nat)
    | ConnectFailed(t: nat)
    | Answer404(t: nat)
    | Handle404(t: nat)
    | AnswerEnds(t: nat)
    | TakeLock(t: nat)
    | Adopt(t: nat, answer: Option<Id>)
    | HandshakeDone(t: nat)
    | HandshakeFails(t: nat, timedOut: bool)
    | Reply(t: nat)
    | GiveUp(t: nat)
    | Cancel(t: nat)
    | LateAdopt(answer: Option<Id>)

  function Fresh(): Task {
    Task(Entering, None, None, None, None, 0, Waiting)
  }

  predicate At(s: State, t: nat, pc: Pc) {
    t in s.tasks && s.tasks[t].pc == pc
  }

  predicate HoldsLock(k: Task) {
    k.pc == Renewing || k.pc == Adopted
  }

  /** An id that was not handed out before, or none. */
  predicate New(s: State, answer: Option<Id>) {
    answer.Some? ==> answer.value !in s.minted
  }

  predicate Enabled(s: State, a: Action) {
    match a
    case Begin(t) => t !in s.tasks
    case Enter(t) => At(s, t, Entering)
    case LockFreed(t) => At(s, t, Queued) && s.lock == None
    case ReadId(t) => At(s, t, Looping)
    case Connected(t) => At(s, t, Connecting)
    case ConnectFailed(t) => At(s, t, Connecting) || At(s, t, Sent)
    case Answer404(t) => At(s, t, Sent)
    case Handle404(t) => At(s, t, Refused)
    case AnswerEnds(t) => At(s, t, Sent)
    case TakeLock(t) => t in s.tasks && s.tasks[t].pc.WantLock? && s.lock == None
    case Adopt(t, answer) => At(s, t, Renewing) && New(s, answer)
    case HandshakeDone(t) => At(s, t, Adopted)
    case HandshakeFails(t, timedOut) => At(s, t, Renewing) || At(s, t, Adopted)
    case Reply(t) => t in s.tasks && s.tasks[t].fate == Waiting
    case GiveUp(t) => t in s.tasks && s.tasks[t].fate == Waiting
    case Cancel(t) => t in s.tasks && !s.tasks[t].pc.Done?
    case LateAdopt(answer) => s.orphans > 0 && New(s, answer)
  }

  /** The handler every failure ends in: it settles the caller's future unless that is done or
      forgotten. */
  function Fail(k: Task): Task {
    k.(pc := Done(false), fate := if k.fate == Waiting then Settled else k.fate)
  }

  /** A response that was read to its end: an answer that is still awaited is a failure. */
  function Ended(k: Task): Task {
    if k.fate == Waiting then Fail(k) else k.(pc := Done(false))
  }

  function Put(s: State, t: nat, k: Task): State {
    s.(tasks := s.tasks[t := k])
  }

  function Mint(s: State, answer: Option<Id>): State {
    s.(session := answer, minted := if answer.Some? then s.minted + {answer.value} else s.minted)
  }

  function Entered(s: State, k: Task): Task {
    k.(pc := if s.lost then WantLock(None) else if s.lock.Some? then Queued else Looping)
  }

  /** A 404 is worth a renewal once, and only if there was a session to lose. */
  function Handled(s: State, k: Task): Task {
    if k.stale.Some? || !(k.sentWith.Some? || s.lost) then Fail(k)
    else k.(pc := WantLock(k.sentWith), stale := Some(k.sentWith))
  }

  /** The guard of `_renew_session`: somebody else already renewed it. */
  predicate AlreadyRenewed(s: State, stale: Option<Id>) {
    s.session != stale && !s.lost
  }

  function Locked(s: State, t: nat): State
    requires t in s.tasks && s.tasks[t].pc.WantLock?
  {
    var k := s.tasks[t];
    if AlreadyRenewed(s, k.pc.stale) then Put(s, t, k.(pc := Looping))
    else Put(s, t, k.(pc := Renewing)).(session := None, lost := true, lock := Some(t))
  }

  function Cancelled(s: State, t: nat): State
    requires t in s.tasks
  {
    var k := s.tasks[t];
    Put(s, t, k.(pc := Done(true))).(
    lock := if HoldsLock(k) then None else s.lock,
    orphans := if k.pc == Renewing then s.orphans + 1 else s.orphans)
  }

  function Step(s: State, a: Action): State
    requires Enabled(s, a)
  {
    match a
    case Begin(t) => Put(s, t, Fresh())
    case Enter(t) => Put(s, t, Entered(s, s.tasks[t]))
    case LockFreed(t) => Put(s, t, s.tasks[t].(pc := Looping))
    case ReadId(t) => Put(s, t, s.tasks[t].(pc := Connecting, sentWith := s.session))
    case Connected(t) =>
      var k := s.tasks[t];
      Put(s, t, k.(pc := Sent, header := s.session, sends := k.sends + 1))
    case ConnectFailed(t) => Put(s, t, Fail(s.tasks[t]))
    case Answer404(t) => Put(s, t, s.tasks[t].(pc := Refused, refused := Some(s.tasks[t].header)))
    case Handle404(t) => Put(s, t, Handled(s, s.tasks[t]))
    case AnswerEnds(t) => Put(s, t, Ended(s.tasks[t]))
    case TakeLock(t) => Locked(s, t)
    case Adopt(t, answer) => Put(Mint(s, answer), t, s.tasks[t].(pc := Adopted))
    case HandshakeDone(t) => Put(s, t, s.tasks[t].(pc := Looping)).(lost := false, lock := None)
    case HandshakeFails(t, timedOut) =>
      var k := s.tasks[t];
      Put(s, t, Fail(k)).(
      lock := None,
      orphans := if timedOut && k.pc == Renewing then s.orphans + 1 else s.orphans)
    case Reply(t) => Put(s, t, s.tasks[t].(fate := Settled))
    case GiveUp(t) => Put(s, t, s.tasks[t].(fate := Abandoned))
    case Cancel(t) => Cancelled(s, t)
    case LateAdopt(answer) => Mint(s, answer).(orphans := s.orphans - 1)
  }

  /** After the first handshake, before any request: the server named a session, or did not. */
  function Start(session: Option<Id>): State {
    State(session, false, None, map[], if session.Some? then {session.value} else {}, 0)
  }

  predicate Runs(s: State, run: seq<Action>)
    decreases |run|
  {
    run == [] || (Enabled(s, run[0]) && Runs(Step(s, run[0]), run[1..]))
  }

  function After(s: State, run: seq<Action>): State
    requires Runs(s, run)
    decreases |run|
  {
    if run == [] then s else After(Step(s, run[0]), run[1..])
  }

  // ---------------------------------------------------------------- what every step keeps

  predicate Known(s: State, id: Option<Id>) {
    id.Some? ==> id.value in s.minted
  }

  predicate IdsKnown(s: State, k: Task) {
    && Known(s, k.sentWith)
    && Known(s, k.header)
    && (k.refused.Some? ==> Known(s, k.refused.value))
    && (k.stale.Some? ==> Known(s, k.stale.value))
  }

  /** While the session is the one a request read before connecting, it is also the one the
      request carried; a retry never sees the id it gave up. */
  predicate OwnSession(s: State, k: Task) {
    && ((k.pc == Sent || k.pc == Refused || k.pc.WantLock?) && k.sentWith.Some? && s.session == k.sentWith
        ==> k.header == k.sentWith)
    && (k.pc == Refused ==> k.refused == Some(k.header))
    && (k.pc.WantLock? ==> k.pc.stale == k.sentWith)
    && (k.pc.WantLock? && k.stale.Some? ==> k.stale == Some(k.sentWith) && k.refused == Some(k.header))
    && (k.pc.WantLock? && k.stale.None? ==> k.sentWith.None?)
    && (!k.pc.WantLock? && !k.pc.Done? && k.stale.Some? && k.stale.value.Some?
        ==> s.session != k.stale.value)
    && (k.pc == Sent && k.stale.Some? && k.stale.value.Some? ==> k.header != k.stale.value)
  }

  function Out(k: Task): nat {
    (if k.stale.Some? then 1 else 0) + (if k.pc == Sent || k.pc == Refused then 1 else 0)
  }

  predicate Counted(k: Task) {
    && (if k.pc.Done? then k.sends <= 2 else k.sends == Out(k))
    && (k.pc == Entering || k.pc == Queued ==> k.stale.None? && k.sentWith.None?)
    && (k.pc == Done(false) ==> k.fate != Waiting)
  }

  predicate TaskOk(s: State, t: nat)
    requires t in s.tasks
  {
    && IdsKnown(s, s.tasks[t])
    && OwnSession(s, s.tasks[t])
    && Counted(s.tasks[t])
    && (s.lock == Some(t) <==> HoldsLock(s.tasks[t]))
  }

  predicate Invariant(s: State) {
    && Known(s, s.session)
    && (s.lock.Some? ==> s.lock.value in s.tasks && s.lost)
    && forall t | t in s.tasks :: TaskOk(s, t)
  }

  predicate Renewal(a: Action) {
    a.TakeLock? || a.Adopt? || a.HandshakeDone? || a.HandshakeFails?
  }

  predicate Refusal(a: Action) {
    a.Answer404? || a.Handle404?
  }

  predicate Ending(a: Action) {
    a.ConnectFailed? || a.AnswerEnds? || a.Reply? || a.GiveUp? || a.Cancel?
  }

  /** The invariant as far as task `t` can see it. */
  predicate Seen(s: State, t: nat) {
    && Known(s, s.session)
    && (s.lock.Some? ==> s.lost)
    && (s.lock == Some(t) ==> t in s.tasks)
    && (t in s.tasks ==> TaskOk(s, t))
  }

  /** Every action keeps the invariant of the task that takes it: on the way out ... */
  lemma SenderKeeps(s: State, a: Action, t: nat)
    requires Seen(s, t) && Enabled(s, a)
    requires !a.LateAdopt? && a.t == t && !Renewal(a) && !Refusal(a) && !Ending(a)
    ensures t in Step(s, a).tasks && TaskOk(Step(s, a), t)
  {
  }

  /** ... at a 404 ... */
  lemma RefusedKeeps(s: State, a: Action, t: nat)
    requires Seen(s, t) && Enabled(s, a)
    requires Refusal(a) && a.t == t
    ensures t in Step(s, a).tasks && TaskOk(Step(s, a), t)
  {
  }

  /** ... at the end ... */
  lemma EnderKeeps(s: State, a: Action, t: nat)
    requires Seen(s, t) && Enabled(s, a)
    requires Ending(a) && a.t == t
    ensures t in Step(s, a).tasks && TaskOk(Step(s, a), t)
  {
    if a.Cancel? {
      assert TaskOk(Cancelled(s, t), t);
    }
  }

  /** ... under the lock ... */
  lemma RenewerKeeps(s: State, a: Action, t: nat)
    requires Seen(s, t) && Enabled(s, a)
    requires Renewal(a) && a.t == t
    ensures t in Step(s, a).tasks && TaskOk(Step(s, a), t)
  {
    if a.TakeLock? {
      assert TaskOk(Locked(s, t), t);
    } else if a.Adopt? {
      assert TaskOk(Put(Mint(s, a.answer), t, s.tasks[t].(pc := Adopted)), t);
    }
  }

  /** The handshake that brought the current id lacks only its last step. */
  predicate NearlyRenewed(s: State) {
    s.lock.Some? && At(s, s.lock.value, Adopted)
  }

  /** What an action means for the other tasks: the session may be replaced under them. */
  lemma Elsewhere(s: State, a: Action, u: nat)
    requires Enabled(s, a) && u in s.tasks && (a.LateAdopt? || a.t != u) && (s.lock.Some? ==> s.lost)
    requires !a.LateAdopt? && a.t in s.tasks && HoldsLock(s.tasks[a.t]) ==> s.lock == Some(a.t)
    ensures
      var next := Step(s, a);
      && u in next.tasks
      && next.tasks[u] == s.tasks[u]
      && s.minted <= next.minted
      && (next.lock == Some(u) <==> s.lock == Some(u))
      && (next.session == s.session || New(s, next.session))
      && (!s.lost && next.lost ==> next.session.None?)
      && (s.lost && !NearlyRenewed(s) ==> (next.lost && !NearlyRenewed(next)) || New(s, next.session))
  {
  }

  /** ... and of every other task. */
  lemma OthersKeep(s: State, a: Action, u: nat)
    requires Seen(s, u) && Enabled(s, a)
    requires u in s.tasks && (a.LateAdopt? || a.t != u)
    requires !a.LateAdopt? && a.t in s.tasks && HoldsLock(s.tasks[a.t]) ==> s.lock == Some(a.t)
    ensures u in Step(s, a).tasks && TaskOk(Step(s, a), u)
  {
    Elsewhere(s, a, u);
  }

  lemma StepKeeps(s: State, a: Action)
    requires Invariant(s) && Enabled(s, a)
    ensures Invariant(Step(s, a))
  {
    var next := Step(s, a);
    forall t | t in next.tasks ensures TaskOk(next, t) {
      assert Seen(s, t);
      assert !a.LateAdopt? && a.t in s.tasks ==> TaskOk(s, a.t);
      if a.LateAdopt? || a.t != t {
        OthersKeep(s, a, t);
      } else if Renewal(a) {
        RenewerKeeps(s, a, t);
      } else if Refusal(a) {
        RefusedKeeps(s, a, t);
      } else if Ending(a) {
        EnderKeeps(s, a, t);
      } else {
        SenderKeeps(s, a, t);
      }
    }
    assert !a.LateAdopt? && a.t in s.tasks ==> TaskOk(s, a.t);
  }

  /** Over all runs: the invariant holds in every state a run reaches. */
  lemma {:induction false} RunKeeps(s: State, run: seq<Action>)
    requires Invariant(s) && Runs(s, run)
    ensures Invariant(After(s, run))
    decreases |run|
  {
    if run != [] {
      StepKeeps(s, run[0]);
      RunKeeps(Step(s, run[0]), run[1..]);
    }
  }

  /** Some run from some first handshake ends in `s`. */
  ghost predicate Reachable(s: State) {
    exists session: Option<Id>, run: seq<Action> :: RunsTo(session, run, s)
  }

  predicate RunsTo(session: Option<Id>, run: seq<Action>, s: State) {
    Runs(Start(session), run) && After(Start(session), run) == s
  }

  lemma ReachableIsGood(s: State)
    requires Reachable(s)
    ensures Invariant(s)
  {
    var session, run :| RunsTo(session, run, s);
    RunKeeps(Start(session), run);
  }

  // ---------------------------------------------------------------- main results

  /** In every run a request is sent at most twice, no two tasks renew at once, and an
      exchange that was not cancelled ends only with its future settled or abandoned. */
  lemma EveryRunIsBounded(s: State)
    requires Reachable(s)
    ensures forall t | t in s.tasks :: s.tasks[t].sends <= 2
    ensures forall t | t in s.tasks :: s.tasks[t].pc == Done(false) ==> s.tasks[t].fate != Waiting
    ensures forall t, u | t in s.tasks && u in s.tasks && HoldsLock(s.tasks[t]) && HoldsLock(s.tasks[u]) :: t == u
  {
    ReachableIsGood(s);
    forall t | t in s.tasks
      ensures s.tasks[t].sends <= 2
      ensures s.tasks[t].pc == Done(false) ==> s.tasks[t].fate != Waiting
      ensures HoldsLock(s.tasks[t]) ==> s.lock == Some(t)
    {
      assert TaskOk(s, t);
    }
  }

  /** A renewal throws away the id `id`. */
  predicate Replaces(s: State, a: Action, id: Id) {
    a.TakeLock? && Enabled(s, a) && s.session == Some(id) && !AlreadyRenewed(s, s.tasks[a.t].pc.stale)
  }

  /** The task's own request carried `id`, was answered 404, and the task gives `id` up. */
  predicate RefusedWith(s: State, t: nat, id: Id) {
    t in s.tasks && s.tasks[t].refused == Some(Some(id)) && s.tasks[t].stale == Some(Some(id))
  }

  /** An id is replaced in exactly three ways: a renewal throws it away, the renewal's own
      handshake stores its id over one that came late, or an orphaned handshake is answered late.
      A task that gets the lock throws the id in use away exactly if its own request carried this
      id and was answered 404, or if the handshake that brought the id has not finished. */
  lemma OnlyItsOwnRefusal(s: State, a: Action, id: Id)
    requires Reachable(s) && Enabled(s, a) && s.session == Some(id)
    ensures Step(s, a).session != Some(id) <==> Replaces(s, a, id) || a.Adopt? || a.LateAdopt?
    ensures a.TakeLock? ==> (Replaces(s, a, id) <==> s.lost || RefusedWith(s, a.t, id))
    ensures a.Adopt? ==> s.lost
  {
    ReachableIsGood(s);
    if !a.LateAdopt? && a.t in s.tasks {
      assert TaskOk(s, a.t);
    }
  }

  /** The ids renewals throw away along a run, in order. */
  function Replaced(s: State, run: seq<Action>): seq<Id>
    requires Runs(s, run)
    decreases |run|
  {
    if run == [] then []
    else if run[0].TakeLock? && s.session.Some? && Replaces(s, run[0], s.session.value) then
      [s.session.value] + Replaced(Step(s, run[0]), run[1..])
    else Replaced(Step(s, run[0]), run[1..])
  }

  predicate Distinct(ids: seq<Id>) {
    forall i, j | 0 <= i < j < |ids| :: ids[i] != ids[j]
  }

  /** A task told that `id` is stale finds that nobody has renewed it, and does. */
  predicate Renews(s: State, a: Action, id: Id) {
    a.TakeLock? && Enabled(s, a) && s.tasks[a.t].pc.stale == Some(id) && !AlreadyRenewed(s, Some(id))
  }

  /** The lock is let go with the handshake not done. */
  predicate BreaksOff(s: State, a: Action) {
    a.HandshakeFails? || (a.Cancel? && Enabled(s, a) && HoldsLock(s.tasks[a.t]))
  }

  function Renewals(s: State, run: seq<Action>, id: Id): nat
    requires Runs(s, run)
    decreases |run|
  {
    if run == [] then 0
    else (if Renews(s, run[0], id) then 1 else 0) + Renewals(Step(s, run[0]), run[1..], id)
  }

  function BrokenOff(s: State, run: seq<Action>): nat
    requires Runs(s, run)
    decreases |run|
  {
    if run == [] then 0
    else (if BreaksOff(s, run[0]) then 1 else 0) + BrokenOff(Step(s, run[0]), run[1..])
  }

  /** The next task told that `id` is stale would renew. */
  predicate Due(s: State, id: Id) {
    s.session == Some(id) || (s.lost && s.lock == None)
  }

  /** However many requests are refused with one id, together or one after the other, the tasks
      that renew on its account are one, and one more for each handshake that was broken off. */
  lemma {:induction false} OneRenewalPerRefusal(s: State, run: seq<Action>, id: Id)
    requires Invariant(s) && Runs(s, run) && id in s.minted
    ensures Renewals(s, run, id) <= (if Due(s, id) then 1 else 0) + BrokenOff(s, run)
    decreases |run|
  {
    if run != [] {
      var a, next := run[0], Step(s, run[0]);
      StepKeeps(s, a);
      OneRenewalPerRefusal(next, run[1..], id);
      assert !a.LateAdopt? && a.t in s.tasks ==> TaskOk(s, a.t);
    }
  }

  /** An id that was thrown away is never thrown away again. */
  lemma {:induction false} EachIdReplacedOnce(s: State, run: seq<Action>)
    requires Invariant(s) && Runs(s, run)
    ensures Distinct(Replaced(s, run))
    ensures forall i | 0 <= i < |Replaced(s, run)| ::
      Replaced(s, run)[i] in s.minted ==> s.session == Some(Replaced(s, run)[i])
    decreases |run|
  {
    if run != [] {
      var next := Step(s, run[0]);
      StepKeeps(s, run[0]);
      EachIdReplacedOnce(next, run[1..]);
      assert s.minted <= next.minted;
      assert forall id | id in s.minted && next.session == Some(id) :: s.session == Some(id);
    }
  }

  /** The second attempt never carries the id the first attempt read before it connected. */
  lemma RetryIsElsewhere(s: State, t: nat)
    requires Reachable(s)
    requires At(s, t, Sent) && s.tasks[t].sends == 2
    ensures s.tasks[t].stale.Some?
    ensures s.tasks[t].stale.value.Some? ==> s.tasks[t].header != s.tasks[t].stale.value
  {
    ReachableIsGood(s);
    assert TaskOk(s, t);
  }

  /** `t` may take action `a` without being cancelled, given up or answered elsewhere. */
  predicate OwnMove(s: State, t: nat, a: Action) {
    Enabled(s, a) && !a.LateAdopt? && a.t == t && !a.Cancel? && !a.GiveUp? && !a.Reply?
  }

  ghost predicate CanMove(s: State, t: nat) {
    exists a: Action :: OwnMove(s, t, a)
  }

  lemma HolderMoves(s: State)
    requires Invariant(s) && s.lock.Some?
    ensures CanMove(s, s.lock.value)
  {
    assert TaskOk(s, s.lock.value);
    assert OwnMove(s, s.lock.value, HandshakeFails(s.lock.value, false));
  }

  /** No deadlock: a task that has not ended can move, or waits for one other that can. */
  lemma NoDeadlock(s: State, t: nat)
    requires Reachable(s) && t in s.tasks && !s.tasks[t].pc.Done?
    ensures CanMove(s, t) || (s.lock.Some? && s.lock.value != t && CanMove(s, s.lock.value))
  {
    ReachableIsGood(s);
    assert TaskOk(s, t);
    if s.lock.Some? {
      HolderMoves(s);
    }
    var a :=
      match s.tasks[t].pc
      case Entering => Enter(t)
      case Queued => LockFreed(t)
      case Looping => ReadId(t)
      case Connecting => Connected(t)
      case Sent => AnswerEnds(t)
      case Refused => Handle404(t)
      case WantLock(_) => TakeLock(t)
      case _ => HandshakeFails(t, false);
    assert Enabled(s, a) ==> OwnMove(s, t, a);
  }

  // ---------------------------------------------------------------- runs the guard does not cover

  lemma {:induction false} RunGrows(s: State, run: seq<Action>, a: Action)
    requires Runs(s, run) && Enabled(After(s, run), a)
    ensures Runs(s, run + [a]) && After(s, run + [a]) == Step(After(s, run), a)
    decreases |run|
  {
    if run == [] {
      assert [a][1..] == [];
      assert run + [a] == [a];
    } else {
      assert (run + [a])[1..] == run[1..] + [a];
      RunGrows(Step(s, run[0]), run[1..], a);
    }
  }

  lemma Reaches(s: State, a: Action) returns (next: State)
    requires Reachable(s) && Enabled(s, a)
    ensures Reachable(next) && next == Step(s, a)
  {
    var session, run :| RunsTo(session, run, s);
    RunGrows(Start(session), run, a);
    next := Step(s, a);
    assert RunsTo(session, run + [a], next);
  }

  /** A request goes out in the session `id` ... */
  lemma GoesOut(s: State, t: nat, id: Id) returns (next: State)
    requires Reachable(s) && t !in s.tasks
    requires s.session == Some(id) && !s.lost && s.lock == None
    ensures Reachable(next)
    ensures next == Put(s, t, Task(Sent, Some(id), Some(id), None, None, 1, Waiting))
  {
    next := Reaches(s, Begin(t));
    next := Reaches(next, Enter(t));
    next := Reaches(next, ReadId(t));
    next := Reaches(next, Connected(t));
    assert next.tasks == s.tasks[t := Task(Sent, Some(id), Some(id), None, None, 1, Waiting)];
  }

  /** ... is answered 404, so its task asks for a renewal ... */
  lemma ComesBack(s: State, t: nat) returns (next: State)
    requires Reachable(s) && At(s, t, Sent) && s.tasks[t].stale.None? && s.tasks[t].sentWith.Some?
    ensures Reachable(next)
    ensures var k := s.tasks[t];
      next == Put(s, t, k.(pc := WantLock(k.sentWith), stale := Some(k.sentWith), refused := Some(k.header)))
  {
    var k := s.tasks[t];
    next := Reaches(s, Answer404(t));
    next := Reaches(next, Handle404(t));
    var k1 := k.(pc := WantLock(k.sentWith), stale := Some(k.sentWith), refused := Some(k.header));
    assert next.tasks == s.tasks[t := k1];
  }

  /** ... and renews. */
  lemma RefusedOnce(s: State, t: nat, id: Id) returns (next: State)
    requires Reachable(s) && t !in s.tasks
    requires s.session == Some(id) && !s.lost && s.lock == None
    ensures Reachable(next)
    ensures next == Put(s, t, Task(Renewing, Some(id), Some(id), Some(Some(id)), Some(Some(id)), 1, Waiting)).(
                    session := None, lost := true, lock := Some(t))
  {
    next := GoesOut(s, t, id);
    next := ComesBack(next, t);
    next := Reaches(next, TakeLock(t));
    assert next.tasks ==
           s.tasks[t := Task(Renewing, Some(id), Some(id), Some(Some(id)), Some(Some(id)), 1, Waiting)];
  }

  /** The renewal's handshake is answered with the new id. */
  lemma Brought(s: State, t: nat, id: Id) returns (next: State)
    requires Reachable(s) && At(s, t, Renewing) && id !in s.minted
    ensures Reachable(next)
    ensures next == Put(s, t, s.tasks[t].(pc := Adopted)).(session := Some(id), minted := s.minted + {id})
  {
    next := Reaches(s, Adopt(t, Some(id)));
  }

  /** While the session is lost, the next request renews it ... */
  lemma AsksFirst(s: State, t: nat) returns (next: State)
    requires Reachable(s) && t !in s.tasks && s.session == None && s.lost && s.lock == None
    ensures Reachable(next)
    ensures next == Put(s, t, Fresh().(pc := Renewing)).(lock := Some(t))
  {
    next := Reaches(s, Begin(t));
    next := Reaches(next, Enter(t));
    next := Reaches(next, TakeLock(t));
    assert next.tasks == s.tasks[t := Fresh().(pc := Renewing)];
  }

  /** ... before it is sent. */
  lemma RenewsFirst(s: State, t: nat, id: Id) returns (next: State)
    requires Reachable(s) && t !in s.tasks && id !in s.minted
    requires s.session == None && s.lost && s.lock == None
    ensures Reachable(next)
    ensures next == Put(s, t, Fresh().(pc := Looping)).(
                    session := Some(id), lost := false, minted := s.minted + {id})
  {
    next := AsksFirst(s, t);
    next := Brought(next, t, id);
    next := Reaches(next, HandshakeDone(t));
    assert next.tasks == s.tasks[t := Fresh().(pc := Looping)];
  }

  /** A renewal that times out leaves its handshake behind; when the next request has renewed
      the session, the late answer replaces the good id although nothing was refused. */
  lemma LateAnswerReplacesGoodSession()
    ensures exists s: State, answer: Option<Id> ::
      Reachable(s) && Enabled(s, LateAdopt(answer)) && s.session.Some? && !s.lost &&
      Step(s, LateAdopt(answer)).session != s.session
  {
    var s := Start(Some(0));
    assert RunsTo(Some(0), [], s);
    s := RefusedOnce(s, 0, 0);
    s := Reaches(s, HandshakeFails(0, true));
    s := RenewsFirst(s, 1, 1);
    assert Enabled(s, LateAdopt(Some(2)));
    assert Step(s, LateAdopt(Some(2))).session == Some(2);
  }

  /** A handshake stores its id and then fails, while a request of the older session is out. */
  lemma UnfinishedRenewal() returns (s: State)
    ensures Reachable(s) && s.session == Some(1) && s.lost && s.lock == None
    ensures 1 in s.tasks && s.tasks[1] == Task(Sent, Some(0), Some(0), None, None, 1, Waiting)
  {
    s := Start(Some(0));
    assert RunsTo(Some(0), [], s);
    s := GoesOut(s, 1, 0);
    s := RefusedOnce(s, 0, 0);
    s := Brought(s, 0, 1);
    s := Reaches(s, HandshakeFails(0, false));
  }

  /** A task refused in the older session then throws the new id away, although its own request
      never carried it. */
  lemma OlderRefusalReplacesUnfinished()
    ensures exists s: State, t: nat, id: Id ::
      Reachable(s) && Replaces(s, TakeLock(t), id) && s.tasks[t].refused.Some? && s.tasks[t].refused.value != Some(id)
  {
    var s := UnfinishedRenewal();
    s := ComesBack(s, 1);
    assert Replaces(s, TakeLock(1), 1);
  }

  /** Some run from `s` comes to a renewal that throws `id` away for a task not refused with it. */
  ghost predicate MayBeThrownForAnother(s: State, id: Id) {
    exists run: seq<Action>, t: nat :: Runs(s, run) && ThrownForAnother(After(s, run), t, id)
  }

  predicate ThrownForAnother(s: State, t: nat, id: Id) {
    Replaces(s, TakeLock(t), id) && !RefusedWith(s, t, id)
  }

  /** The id is in use and stands, or it is gone. */
  predicate StandsOrGone(s: State, id: Id) {
    id in s.minted && (s.session == Some(id) ==> !s.lost)
  }

  lemma StaysSo(s: State, a: Action, id: Id)
    requires Invariant(s) && Enabled(s, a) && StandsOrGone(s, id)
    ensures StandsOrGone(Step(s, a), id)
  {
    assert !a.LateAdopt? && a.t in s.tasks ==> TaskOk(s, a.t);
  }

  lemma {:induction false} NotThrownForAnother(s: State, run: seq<Action>, t: nat, id: Id)
    requires Invariant(s) && Runs(s, run) && StandsOrGone(s, id)
    ensures !ThrownForAnother(After(s, run), t, id)
    decreases |run|
  {
    if run == [] {
      assert t in s.tasks ==> TaskOk(s, t);
    } else {
      StepKeeps(s, run[0]);
      StaysSo(s, run[0], id);
      NotThrownForAnother(Step(s, run[0]), run[1..], t, id);
    }
  }

  lemma ThenThrown(s: State, a: Action, id: Id)
    requires Enabled(s, a) && MayBeThrownForAnother(Step(s, a), id)
    ensures MayBeThrownForAnother(s, id)
  {
    var run, t :| Runs(Step(s, a), run) && ThrownForAnother(After(Step(s, a), run), t, id);
    assert ([a] + run)[1..] == run;
    assert Runs(s, [a] + run) && After(s, [a] + run) == After(Step(s, a), run);
  }

  /** With the lock free and the session lost, the next request throws the id away. */
  lemma NewcomerThrows(s: State, t: nat, id: Id)
    requires t !in s.tasks && s.lost && s.lock == None && s.session == Some(id)
    ensures MayBeThrownForAnother(s, id)
  {
    var s1 := Step(s, Begin(t));
    var s2 := Step(s1, Enter(t));
    assert Runs(s2, []) && After(s2, []) == s2 && ThrownForAnother(s2, t, id);
    ThenThrown(s1, Enter(t), id);
    ThenThrown(s, Begin(t), id);
  }

  /** A number nobody has. */
  lemma {:induction false} Newcomer(names: set<nat>) returns (t: nat)
    ensures forall n | n in names :: n < t
    decreases names
  {
    if names == {} {
      t := 0;
    } else {
      var n :| n in names;
      var u := Newcomer(names - {n});
      t := if n < u then u else n + 1;
      assert forall m | m in names :: m == n || m in names - {n};
    }
  }

  /** Over all runs: an id in use can come to be thrown away for a task that was not refused with
      it, a 404 on an older id or none at all, exactly while the session is lost, that is until the
      handshake that brought it has finished.  An id that stands goes for its own 404 only. */
  lemma ThrownForAnotherExactly(s: State, id: Id)
    requires Reachable(s) && s.session == Some(id)
    ensures MayBeThrownForAnother(s, id) <==> s.lost
  {
    ReachableIsGood(s);
    if s.lost {
      var t := Newcomer(s.tasks.Keys);
      if s.lock.Some? {
        var holder := s.lock.value;
        assert TaskOk(s, holder);
        var a := HandshakeFails(holder, false);
        NewcomerThrows(Step(s, a), t, id);
        ThenThrown(s, a, id);
      } else {
        NewcomerThrows(s, t, id);
      }
    } else {
      forall run, t: nat | Runs(s, run) ensures !ThrownForAnother(After(s, run), t, id) {
        NotThrownForAnother(s, run, t, id);
      }
    }
  }

  // ---------------------------------------------------------------- late answers

  /** A renewal's handshake is left behind, and may still be answered. */
  predicate LeavesBehind(s: State, a: Action) {
    (a.HandshakeFails? && a.timedOut && At(s, a.t, Renewing)) || (a.Cancel? && At(s, a.t, Renewing))
  }

  function LeftBehind(s: State, run: seq<Action>): nat
    requires Runs(s, run)
    decreases |run|
  {
    if run == [] then 0
    else (if LeavesBehind(s, run[0]) then 1 else 0) + LeftBehind(Step(s, run[0]), run[1..])
  }

  function LateAdoptions(run: seq<Action>): nat {
    if run == [] then 0 else (if run[0].LateAdopt? then 1 else 0) + LateAdoptions(run[1..])
  }

  /** Over every run: each late adoption is the answer to one handshake left behind, and the
      handshakes still out are those left behind and not yet answered. */
  lemma {:induction false} LateAnswersAreLeftBehind(s: State, run: seq<Action>)
    requires Runs(s, run)
    ensures After(s, run).orphans + LateAdoptions(run) == s.orphans + LeftBehind(s, run)
    decreases |run|
  {
    if run != [] {
      LateAnswersAreLeftBehind(Step(s, run[0]), run[1..]);
    }
  }

  /** So if no renewal is left behind, an id that stands is replaced only for its own 404. */
  lemma NobodyLeftBehind(session: Option<Id>, run: seq<Action>, a: Action, id: Id)
    requires Runs(Start(session), run) && LeftBehind(Start(session), run) == 0
    requires Enabled(After(Start(session), run), a)
    ensures
      var s := After(Start(session), run);
      s.session == Some(id) && !s.lost ==>
        (Step(s, a).session != Some(id) <==> a.TakeLock? && RefusedWith(s, a.t, id))
  {
    var s := After(Start(session), run);
    LateAnswersAreLeftBehind(Start(session), run);
    assert RunsTo(session, run, s);
    if s.session == Some(id) && !s.lost {
      OnlyItsOwnRefusal(s, a, id);
    }
  }

  // ---------------------------------------------------------------- when a retry carries the refused id

  /** `t` has sent its request again, with `id`. */
  predicate Resent(s: State, t: nat, id: Id) {
    At(s, t, Sent) && s.tasks[t].sends == 2 && s.tasks[t].header == Some(id)
  }

  /** Some way of going on from `s` makes `t` send again with `id`. */
  ghost predicate MayResend(s: State, t: nat, id: Id) {
    exists run: seq<Action> :: Runs(s, run) && Resent(After(s, run), t, id)
  }

  /** The id the request carried is in use, the task had read another one before it connected,
      this was its first attempt, and the session stands: it is not lost, or about to be found. */
  predicate TakenForAnother(s: State, t: nat, id: Id)
    requires t in s.tasks
  {
    && s.session == Some(id)
    && s.tasks[t].sentWith != Some(id)
    && s.tasks[t].stale.None?
    && (if s.lost then NearlyRenewed(s) else s.tasks[t].sentWith.Some?)
  }

  /** `t` will never send again with `id`: it is gone for good, or `t` has ended or is about to,
      or `t` gives up this very id, or the session will be renewed before `t` goes on. */
  predicate Spared(s: State, t: nat, id: Id) {
    && t in s.tasks
    && id in s.minted
    && var k := s.tasks[t];
    || (s.session != Some(id) && (k.pc == Sent ==> k.header != Some(id)))
    || k.pc.Done?
    || (k.pc == Refused && k.stale.Some?)
    || k.stale == Some(Some(id))
    || (k.pc == Refused && k.sentWith == Some(id))
    || (k.pc == Refused && k.sentWith.None? && !s.lost)
    || (s.lost && !NearlyRenewed(s) && (k.pc == Refused || k.pc.WantLock? || k.pc == Renewing))
  }

  lemma SparedByItself(s: State, a: Action, t: nat, id: Id)
    requires Seen(s, t) && Enabled(s, a) && Spared(s, t, id) && !a.LateAdopt? && a.t == t
    ensures Spared(Step(s, a), t, id)
  {
  }

  lemma SparedByOthers(s: State, a: Action, t: nat, id: Id)
    requires Seen(s, t) && Enabled(s, a) && Spared(s, t, id) && (a.LateAdopt? || a.t != t)
    requires !a.LateAdopt? && a.t in s.tasks && HoldsLock(s.tasks[a.t]) ==> s.lock == Some(a.t)
    ensures Spared(Step(s, a), t, id)
  {
    Elsewhere(s, a, t);
  }

  lemma StaysSpared(s: State, a: Action, t: nat, id: Id)
    requires Invariant(s) && Enabled(s, a) && Spared(s, t, id)
    ensures Spared(Step(s, a), t, id)
  {
    assert Seen(s, t);
    assert !a.LateAdopt? && a.t in s.tasks ==> TaskOk(s, a.t);
    if !a.LateAdopt? && a.t == t {
      SparedByItself(s, a, t, id);
    } else {
      SparedByOthers(s, a, t, id);
    }
  }

  lemma {:induction false} SparedForGood(s: State, run: seq<Action>, t: nat, id: Id)
    requires Invariant(s) && Runs(s, run) && Spared(s, t, id)
    ensures !Resent(After(s, run), t, id)
    decreases |run|
  {
    if run == [] {
      assert TaskOk(s, t);
    } else {
      StepKeeps(s, run[0]);
      StaysSpared(s, run[0], t, id);
      SparedForGood(Step(s, run[0]), run[1..], t, id);
    }
  }

  /** From a state in which `t` waits for the lock and somebody else renewed the session, `t` is
      told so and sends again with the current id. */
  lemma SendsAgain(s: State, t: nat, id: Id) returns (run: seq<Action>)
    requires t in s.tasks && s.tasks[t].pc.WantLock? && s.tasks[t].sends == 1
    requires s.lock == None && !s.lost && s.session == Some(id) && s.tasks[t].pc.stale != Some(id)
    ensures Runs(s, run) && Resent(After(s, run), t, id)
  {
    var a, b, c := TakeLock(t), ReadId(t), Connected(t);
    run := [a, b, c];
    var s1 := Step(s, a);
    var s2 := Step(s1, b);
    var s3 := Step(s2, c);
    assert run[1..] == [b, c] && run[1..][1..] == [c] && [c][1..] == [];
    assert Runs(s3, []) && Runs(s2, [c]) && Runs(s1, [b, c]);
    assert After(s, run) == After(s1, [b, c]) == After(s2, [c]) == After(s3, []);
  }

  lemma ThenMayResend(s: State, a: Action, t: nat, id: Id)
    requires Enabled(s, a) && MayResend(Step(s, a), t, id)
    ensures MayResend(s, t, id)
  {
    var run :| Runs(Step(s, a), run) && Resent(After(Step(s, a), run), t, id);
    assert ([a] + run)[1..] == run;
    assert Runs(s, [a] + run);
  }

  /** The id is read before the connect and again for the header.  If a renewal comes between, a
      404 on the new id looks like one on the old, and the retry may carry the refused id: in
      exactly the states told apart here, of all that are reachable. */
  lemma RefusedIdIsRepeatedExactly(s: State, t: nat, id: Id)
    requires Reachable(s) && At(s, t, Refused) && s.tasks[t].header == Some(id)
    ensures MayResend(s, t, id) <==> TakenForAnother(s, t, id)
  {
    ReachableIsGood(s);
    assert TaskOk(s, t);
    if TakenForAnother(s, t, id) {
      var s1 := Step(s, Handle404(t));
      if s.lost {
        var holder := s.lock.value;
        var run := SendsAgain(Step(s1, HandshakeDone(holder)), t, id);
        ThenMayResend(s1, HandshakeDone(holder), t, id);
      } else {
        var run := SendsAgain(s1, t, id);
      }
      ThenMayResend(s, Handle404(t), t, id);
    } else {
      forall run | Runs(s, run) ensures !Resent(After(s, run), t, id) {
        SparedForGood(s, run, t, id);
      }
    }
  }

  /** A retry that does carry the refused id never knew: the id it gave up was another. */
  lemma RepeaterGaveUpAnother(s: State, t: nat)
    requires Reachable(s)
    requires At(s, t, Sent) && s.tasks[t].sends == 2 && s.tasks[t].header.Some?
    requires s.tasks[t].refused == Some(s.tasks[t].header)
    ensures s.tasks[t].stale.Some? && s.tasks[t].stale != Some(s.tasks[t].header)
  {
    RetryIsElsewhere(s, t);
  }

  /** A task reads its id, and the session is renewed before it connects. */
  lemma RenewedBetween() returns (s: State)
    ensures Reachable(s) && s.session == Some(1) && !s.lost && s.lock == None
    ensures 1 in s.tasks && s.tasks[1] == Task(Connecting, Some(0), None, None, None, 0, Waiting)
  {
    s := Start(Some(0));
    assert RunsTo(Some(0), [], s);
    s := Reaches(s, Begin(1));
    s := Reaches(s, Enter(1));
    s := Reaches(s, ReadId(1));
    s := RefusedOnce(s, 0, 0);
    s := Brought(s, 0, 1);
    s := Reaches(s, HandshakeDone(0));
  }

  /** So such a retry does go out in some run. */
  lemma RetryMayCarryTheRefusedId()
    ensures exists s: State, t: nat ::
      Reachable(s) && At(s, t, Sent) && s.tasks[t].sends == 2 && s.tasks[t].refused == Some(s.tasks[t].header)
  {
    var s := RenewedBetween();
    s := Reaches(s, Connected(1));
    s := ComesBack(s, 1);
    s := Reaches(s, TakeLock(1));
    s := Reaches(s, ReadId(1));
    s := Reaches(s, Connected(1));
    assert At(s, 1, Sent);
  }

  // ---------------------------------------------------------------- a request refused is sent again

  /** The connection of `t` broke, or its handshake did. */
  predicate Breaks(a: Action, t: nat) {
    a == ConnectFailed(t) || (a.HandshakeFails? && a.t == t)
  }

  /** A task that has ended sent its request twice if it gave up an id, and once if not; it gave
      none up only if no request of its own was refused, or there was no session to lose. */
  predicate SentOut(k: Task) {
    k.pc == Done(false) ==>
      && k.sends == (if k.stale.Some? then 2 else 1)
      && (k.refused.Some? ==> k.stale.Some? || k.sentWith.None?)
  }

  /** Before the end, a refusal is on record only once it is acted on. */
  predicate OnRecord(k: Task) {
    SentOut(k) && (!k.pc.Done? && k.pc != Refused && k.stale.None? ==> k.refused.None?)
  }

  lemma SentOutStays(s: State, a: Action, t: nat)
    requires Invariant(s) && Enabled(s, a) && !Breaks(a, t)
    requires t in s.tasks ==> OnRecord(s.tasks[t])
    ensures t in Step(s, a).tasks ==> OnRecord(Step(s, a).tasks[t])
  {
    if t in s.tasks && !a.LateAdopt? && a.t == t {
      assert TaskOk(s, t);
      SentOutItself(s, a, t);
    }
  }

  lemma SentOutItself(s: State, a: Action, t: nat)
    requires t in s.tasks && TaskOk(s, t) && Enabled(s, a) && !a.LateAdopt? && a.t == t && !Breaks(a, t)
    requires OnRecord(s.tasks[t])
    ensures t in Step(s, a).tasks && OnRecord(Step(s, a).tasks[t])
  {
  }

  lemma {:induction false} SentOutFrom(s: State, run: seq<Action>, t: nat)
    requires Invariant(s) && Runs(s, run) && forall a | a in run :: !Breaks(a, t)
    requires t in s.tasks ==> OnRecord(s.tasks[t])
    ensures t in After(s, run).tasks ==> OnRecord(After(s, run).tasks[t])
    decreases |run|
  {
    if run != [] {
      assert run[0] in run && forall a | a in run[1..] :: a in run;
      StepKeeps(s, run[0]);
      SentOutStays(s, run[0], t);
      SentOutFrom(Step(s, run[0]), run[1..], t);
    }
  }

  /** Over every run: unless its connection or its handshake breaks or it is cancelled, a request that
      was answered 404 in a session is sent a second time before its task ends, and any other is
      sent once. */
  lemma RefusedIsSentAgain(session: Option<Id>, run: seq<Action>, t: nat)
    requires Runs(Start(session), run) && forall a | a in run :: !Breaks(a, t)
    ensures t in After(Start(session), run).tasks ==> SentOut(After(Start(session), run).tasks[t])
  {
    SentOutFrom(Start(session), run, t);
  }

  /** `t` has its request out for the `n`th time, with the id then in use. */
  predicate OutAgain(s: State, t: nat, n: nat) {
    At(s, t, Sent) && s.tasks[t].sends == n && s.tasks[t].header == s.session
  }

  ghost predicate MaySend(s: State, t: nat, n: nat) {
    exists run: seq<Action> :: Runs(s, run) && OutAgain(After(s, run), t, n)
  }

  lemma ThenMaySend(s: State, a: Action, t: nat, n: nat)
    requires Enabled(s, a) && MaySend(Step(s, a), t, n)
    ensures MaySend(s, t, n)
  {
    var run :| Runs(Step(s, a), run) && OutAgain(After(Step(s, a), run), t, n);
    assert ([a] + run)[1..] == run;
    assert Runs(s, [a] + run) && After(s, [a] + run) == After(Step(s, a), run);
  }

  lemma LoopSends(s: State, t: nat)
    requires At(s, t, Looping)
    ensures MaySend(s, t, s.tasks[t].sends + 1)
  {
    var s1 := Step(s, ReadId(t));
    var s2 := Step(s1, Connected(t));
    assert Runs(s2, []) && After(s2, []) == s2 && OutAgain(s2, t, s.tasks[t].sends + 1);
    ThenMaySend(s1, Connected(t), t, s.tasks[t].sends + 1);
    ThenMaySend(s, ReadId(t), t, s.tasks[t].sends + 1);
  }

  /** A task whose handshake brought an id goes on to send its request in the session then in use: for
      the second time after a 404 of its own, for the first time otherwise. */
  lemma RenewerSends(s: State, t: nat)
    requires Reachable(s) && At(s, t, Adopted)
    ensures MaySend(s, t, if s.tasks[t].stale.Some? then 2 else 1)
  {
    ReachableIsGood(s);
    assert TaskOk(s, t);
    LoopSends(Step(s, HandshakeDone(t)), t);
    ThenMaySend(s, HandshakeDone(t), t, s.tasks[t].sends + 1);
  }

  lemma WaiterSends(s: State, t: nat)
    requires t in s.tasks && s.tasks[t].pc.WantLock? && s.lock == None
    ensures MaySend(s, t, s.tasks[t].sends + 1)
  {
    var n := s.tasks[t].sends + 1;
    var s1 := Step(s, TakeLock(t));
    if At(s1, t, Looping) {
      LoopSends(s1, t);
    } else {
      var s2 := Step(s1, Adopt(t, None));
      LoopSends(Step(s2, HandshakeDone(t)), t);
      ThenMaySend(s2, HandshakeDone(t), t, n);
      ThenMaySend(s1, Adopt(t, None), t, n);
    }
    ThenMaySend(s, TakeLock(t), t, n);
  }

  /** And from every state in which a request was answered 404 for the first time and there was a
      session to lose, some run sends it again. */
  lemma RefusedMayBeSentAgain(s: State, t: nat)
    requires Reachable(s) && At(s, t, Refused) && s.tasks[t].stale.None?
    requires s.tasks[t].sentWith.Some? || s.lost
    ensures MaySend(s, t, 2)
  {
    ReachableIsGood(s);
    assert TaskOk(s, t);
    var s1 := Step(s, Handle404(t));
    if s.lock.Some? {
      var a := HandshakeFails(s.lock.value, false);
      assert TaskOk(s, s.lock.value);
      WaiterSends(Step(s1, a), t);
      ThenMaySend(s1, a, t, 2);
    } else {
      WaiterSends(s1, t);
    }
    ThenMaySend(s, Handle404(t), t, 2);
  }

  lemma FateMoves(s: State, a: Action, t: nat)
    requires Enabled(s, a) && t in s.tasks
    ensures t in Step(s, a).tasks
    ensures Step(s, a).tasks[t].fate == Abandoned <==> s.tasks[t].fate == Abandoned || a == GiveUp(t)
    ensures Step(s, a).tasks[t].pc == Done(true) <==> s.tasks[t].pc == Done(true) || a == Action.Cancel(t)
  {
  }

  /** A request is abandoned exactly if its caller gave it up while it waited, and its task ends as
      cancelled exactly if it was. */
  lemma {:induction false} EndsAsTold(s: State, run: seq<Action>, t: nat)
    requires Runs(s, run) && t !in s.tasks
    ensures t in After(s, run).tasks ==>
      && (After(s, run).tasks[t].fate == Abandoned <==> GiveUp(t) in run)
      && (After(s, run).tasks[t].pc == Done(true) <==> Action.Cancel(t) in run)
    decreases |run|
  {
    if run != [] {
      var next := Step(s, run[0]);
      assert run == [run[0]] + run[1..];
      if t in next.tasks {
        EndsFrom(next, run[1..], t);
      } else {
        EndsAsTold(next, run[1..], t);
      }
    }
  }

  lemma {:induction false} EndsFrom(s: State, run: seq<Action>, t: nat)
    requires Runs(s, run) && t in s.tasks
    ensures t in After(s, run).tasks
    ensures After(s, run).tasks[t].fate == Abandoned <==> s.tasks[t].fate == Abandoned || GiveUp(t) in run
    ensures After(s, run).tasks[t].pc == Done(true) <==> s.tasks[t].pc == Done(true) || Action.Cancel(t) in run
    decreases |run|
  {
    if run != [] {
      assert run == [run[0]] + run[1..];
      FateMoves(s, run[0], t);
      EndsFrom(Step(s, run[0]), run[1..], t);
    }
  }
}
