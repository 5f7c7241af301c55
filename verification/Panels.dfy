/** Panel URLs (`panels.py`): each loads one document once, for a short while. */
module Panels {
  import opened Wrappers

  const MAX_LIVE_PER_OWNER := 64

  type Owner = nat

  datatype Panel = Panel(token: string, body: string, policy: string, owner: Owner, expiresAt: int)

  /** The panels `keep` holds of, in order. */
  function Filter(keep: Panel -> bool, panels: seq<Panel>): (r: seq<Panel>)
    ensures |r| <= |panels|
    ensures forall p :: p in r <==> p in panels && keep(p)
  {
    if panels == [] then []
    else if keep(panels[0]) then [panels[0]] + Filter(keep, panels[1..])
    else Filter(keep, panels[1..])
  }

  function Alive(panels: seq<Panel>, now: int): seq<Panel> {
    Filter((p: Panel) => p.expiresAt > now, panels)
  }

  function Except(panels: seq<Panel>, token: string): seq<Panel> {
    Filter((p: Panel) => p.token != token, panels)
  }

  function Others(panels: seq<Panel>, owner: Owner): seq<Panel> {
    Filter((p: Panel) => p.owner != owner, panels)
  }

  function Count(panels: seq<Panel>, owner: Owner): nat {
    if panels == [] then 0 else (if panels[0].owner == owner then 1 else 0) + Count(panels[1..], owner)
  }

  /** The first of the owner's panels with the least expiry. */
  function Oldest(panels: seq<Panel>, owner: Owner): (oldest: Option<Panel>)
    ensures oldest.Some? ==> oldest.value in panels && oldest.value.owner == owner
    ensures oldest.Some? ==> forall p | p in panels && p.owner == owner :: oldest.value.expiresAt <= p.expiresAt
    ensures oldest.None? <==> Count(panels, owner) == 0
  {
    if panels == [] then None
    else
      var rest := Oldest(panels[1..], owner);
      if panels[0].owner == owner && (rest.None? || panels[0].expiresAt <= rest.value.expiresAt) then
        (assert rest.None? ==> forall p | p in panels[1..] :: p.owner != owner by { NoneOf(panels[1..], owner); }
         Some(panels[0]))
      else rest
  }

  lemma {:induction false} NoneOf(panels: seq<Panel>, owner: Owner)
    ensures Count(panels, owner) == 0 <==> forall p | p in panels :: p.owner != owner
  {
    if panels != [] {
      NoneOf(panels[1..], owner);
      assert panels[0] in panels && forall p | p in panels[1..] :: p in panels;
    }
  }

  function Find(panels: seq<Panel>, token: string): Option<Panel> {
    if panels == [] then None
    else if panels[0].token == token then Some(panels[0])
    else Find(panels[1..], token)
  }

  /** Room for one more of this owner's. */
  function Evicted(panels: seq<Panel>, owner: Owner): Option<Panel> {
    if Count(panels, owner) >= MAX_LIVE_PER_OWNER then Oldest(panels, owner) else None
  }

  /** The panels a mint keeps. */
  function Kept(panels: seq<Panel>, now: int, owner: Owner): seq<Panel> {
    var live := Alive(panels, now);
    var out := Evicted(live, owner);
    if out.Some? then Except(live, out.value.token) else live
  }

  function Minted(panels: seq<Panel>, now: int, panel: Panel): seq<Panel> {
    Kept(panels, now, panel.owner) + [panel]
  }

  // ---------------------------------------------------------------- runs

  /** What happened to each token: `minted` is what it was minted for. */
  datatype Store = Store(panels: seq<Panel>, clock: int, minted: map<string, Panel>,
                         spent: set<string>, evicted: set<string>, revoked: set<string>)

  /** Each action reads the clock twice where the source does. */
  datatype Action =
    | Mint(now: int, later: int, token: string, body: string, policy: string, owner: Owner)
    | Take(now: int, later: int, token: string)
    | Revoke(now: int, owner: Owner)

  /** The clock does not go back and a minted token is new. */
  predicate Enabled(s: Store, a: Action) {
    match a
    case Mint(now, later, token, _, _, _) => s.clock <= now <= later && token !in s.minted
    case Take(now, later, _) => s.clock <= now <= later
    case Revoke(now, _) => s.clock <= now
  }

  function MintedPanel(a: Action, ttl: int): Panel
    requires a.Mint?
  {
    Panel(a.token, a.body, a.policy, a.owner, a.later + ttl)
  }

  /** What `take` returns. */
  function Taken(panels: seq<Panel>, now: int, later: int, token: string): Option<Panel> {
    match Find(Alive(panels, now), token)
    case None => None
    case Some(panel) => if panel.expiresAt <= later then None else Some(panel)
  }

  function Step(s: Store, a: Action, ttl: int): Store
    requires Enabled(s, a)
  {
    match a
    case Mint(now, later, token, _, _, owner) =>
      var panel := MintedPanel(a, ttl);
      var out := Evicted(Alive(s.panels, now), owner);
      s.(panels := Minted(s.panels, now, panel), clock := later, minted := s.minted[token := panel],
      evicted := s.evicted + if out.Some? then {out.value.token} else {})
    case Take(now, later, token) =>
      s.(panels := Except(Alive(s.panels, now), token), clock := later,
      spent := s.spent + if Taken(s.panels, now, later, token).Some? then {token} else {})
    case Revoke(now, owner) =>
      s.(panels := Others(s.panels, owner), clock := now,
      revoked := s.revoked + set p | p in s.panels && p.owner == owner :: p.token)
  }

  function Empty(clock: int): Store {
    Store([], clock, map[], {}, {}, {})
  }

  predicate Runs(s: Store, run: seq<Action>, ttl: int)
    decreases |run|
  {
    run == [] || (Enabled(s, run[0]) && Runs(Step(s, run[0], ttl), run[1..], ttl))
  }

  function After(s: Store, run: seq<Action>, ttl: int): Store
    requires Runs(s, run, ttl)
    decreases |run|
  {
    if run == [] then s else After(Step(s, run[0], ttl), run[1..], ttl)
  }

  // ---------------------------------------------------------------- what every step keeps

  predicate Distinct(panels: seq<Panel>) {
    forall i, j | 0 <= i < j < |panels| :: panels[i].token != panels[j].token
  }

  predicate Gone(s: Store, token: string) {
    token in s.spent || token in s.evicted || token in s.revoked
  }

  predicate Has(panels: seq<Panel>, token: string) {
    exists p | p in panels :: p.token == token
  }

  /** Where a minted token is: in the store, gone, or lapsed. */
  predicate Placed(s: Store, token: string)
    requires token in s.minted
  {
    && (Has(s.panels, token) ==> !Gone(s, token))
    && (!Has(s.panels, token) ==> Gone(s, token) || s.minted[token].expiresAt <= s.clock)
    && s.minted[token].token == token
  }

  ghost predicate Invariant(s: Store) {
    && Distinct(s.panels)
    && (forall p | p in s.panels :: p.token in s.minted && s.minted[p.token] == p)
    && (forall token | token in s.minted :: Placed(s, token))
    && (forall token :: Gone(s, token) ==> token in s.minted)
    && (forall owner :: Count(s.panels, owner) <= MAX_LIVE_PER_OWNER)
  }

  lemma {:induction false} FilterKeeps(keep: Panel -> bool, panels: seq<Panel>, owner: Owner)
    ensures Distinct(panels) ==> Distinct(Filter(keep, panels))
    ensures Count(Filter(keep, panels), owner) <= Count(panels, owner)
  {
    if panels != [] {
      var rest := Filter(keep, panels[1..]);
      FilterKeeps(keep, panels[1..], owner);
      if keep(panels[0]) {
        ConsCount(panels[0], rest, owner);
        if Distinct(panels) {
          TailDistinct(panels);
          forall i | 0 <= i < |rest| ensures rest[i].token != panels[0].token {
            assert rest[i] in panels[1..];
          }
        }
      } else if Distinct(panels) {
        TailDistinct(panels);
      }
    }
  }

  lemma ConsCount(p: Panel, rest: seq<Panel>, owner: Owner)
    ensures Count([p] + rest, owner) == (if p.owner == owner then 1 else 0) + Count(rest, owner)
  {
  }

  lemma TailDistinct(panels: seq<Panel>)
    requires panels != [] && Distinct(panels)
    ensures Distinct(panels[1..]) && forall p | p in panels[1..] :: p.token != panels[0].token
  {
  }

  lemma {:induction false} SnocCount(panels: seq<Panel>, p: Panel, owner: Owner)
    ensures Count(panels + [p], owner) == Count(panels, owner) + (if p.owner == owner then 1 else 0)
  {
    if panels == [] {
      assert panels + [p] == [p] && [p][1..] == [];
    } else {
      SnocCount(panels[1..], p, owner);
      assert (panels + [p])[1..] == panels[1..] + [p];
    }
  }

  /** Deleting a panel that is there makes room. */
  lemma {:induction false} ExceptCount(panels: seq<Panel>, p: Panel)
    requires Distinct(panels) && p in panels
    ensures Count(Except(panels, p.token), p.owner) == Count(panels, p.owner) - 1
  {
    TailDistinct(panels);
    var keep := (q: Panel) => q.token != p.token;
    if panels[0] == p {
      FilterAll(keep, panels[1..]);
    } else {
      assert p in panels[1..];
      ExceptCount(panels[1..], p);
      ConsCount(panels[0], Except(panels[1..], p.token), p.owner);
    }
  }

  lemma {:induction false} FilterAll(keep: Panel -> bool, panels: seq<Panel>)
    requires forall p | p in panels :: keep(p)
    ensures Filter(keep, panels) == panels
  {
    if panels != [] {
      assert panels[0] in panels && forall p | p in panels[1..] :: p in panels;
      FilterAll(keep, panels[1..]);
      assert panels == [panels[0]] + panels[1..];
    }
  }

  lemma {:induction false} FindFinds(panels: seq<Panel>, token: string)
    ensures Find(panels, token).Some? <==> Has(panels, token)
    ensures Find(panels, token).Some? ==>
      Find(panels, token).value in panels && Find(panels, token).value.token == token
  {
    if panels != [] {
      FindFinds(panels[1..], token);
      assert panels[0] in panels && forall p | p in panels[1..] :: p in panels;
      assert forall p | p in panels :: p == panels[0] || p in panels[1..];
    }
  }

  /** What is left of a valid store when the clock moves on and some panels go. */
  predicate Remains(s: Store, base: seq<Panel>, out: set<string>, clock: int) {
    && (forall p | p in base :: p in s.panels && p.token !in out)
    && (forall p | p in s.panels && p !in base :: p.token in out || p.expiresAt <= clock)
  }

  lemma TokensPlaced(s: Store, next: Store, token: string)
    requires Invariant(s) && token in s.minted
    requires token in next.minted && next.minted[token] == s.minted[token] && s.clock <= next.clock
    requires s.spent <= next.spent && s.evicted <= next.evicted && s.revoked <= next.revoked
    requires Remains(s, next.panels, (next.spent - s.spent) + (next.evicted - s.evicted) + (next.revoked - s.revoked),
                     next.clock)
    ensures Placed(next, token)
  {
  }

  lemma {:induction false} SweepKeeps(s: Store, now: int, owner: Owner)
    requires Invariant(s)
    ensures Distinct(Alive(s.panels, now)) && Count(Alive(s.panels, now), owner) <= MAX_LIVE_PER_OWNER
  {
    FilterKeeps((p: Panel) => p.expiresAt > now, s.panels, owner);
  }

  /** There is room among them. */
  lemma RoomIsMade(s: Store, now: int, owner: Owner)
    requires Invariant(s)
    ensures Distinct(Kept(s.panels, now, owner)) && Count(Kept(s.panels, now, owner), owner) < MAX_LIVE_PER_OWNER
  {
    var live := Alive(s.panels, now);
    SweepKeeps(s, now, owner);
    var out := Evicted(live, owner);
    if out.Some? {
      FilterKeeps((p: Panel) => p.token != out.value.token, live, owner);
      ExceptCount(live, out.value);
    }
  }

  lemma NobodyGains(s: Store, now: int, owner: Owner, other: Owner)
    requires Invariant(s)
    ensures Count(Kept(s.panels, now, owner), other) <= MAX_LIVE_PER_OWNER
  {
    var live := Alive(s.panels, now);
    SweepKeeps(s, now, other);
    var out := Evicted(live, owner);
    if out.Some? {
      FilterKeeps((p: Panel) => p.token != out.value.token, live, other);
    }
  }

  lemma SnocDistinct(panels: seq<Panel>, p: Panel)
    requires Distinct(panels) && forall q | q in panels :: q.token != p.token
    ensures Distinct(panels + [p])
  {
  }

  lemma MintKeepsCounts(s: Store, a: Action, ttl: int, other: Owner)
    requires Invariant(s) && Enabled(s, a) && a.Mint?
    ensures Distinct(Step(s, a, ttl).panels) && Count(Step(s, a, ttl).panels, other) <= MAX_LIVE_PER_OWNER
  {
    var panel, base := MintedPanel(a, ttl), Kept(s.panels, a.now, a.owner);
    RoomIsMade(s, a.now, a.owner);
    NobodyGains(s, a.now, a.owner, other);
    SnocDistinct(base, panel);
    SnocCount(base, panel, other);
  }

  lemma MintKeepsOldTokens(s: Store, a: Action, ttl: int, token: string)
    requires Invariant(s) && Enabled(s, a) && a.Mint? && token in s.minted
    ensures Placed(Step(s, a, ttl), token)
  {
  }

  lemma MintPlacesNew(s: Store, a: Action, ttl: int)
    requires Invariant(s) && Enabled(s, a) && a.Mint?
    ensures Placed(Step(s, a, ttl), a.token)
  {
    assert MintedPanel(a, ttl) in Step(s, a, ttl).panels;
  }

  lemma MintKeeps(s: Store, a: Action, ttl: int)
    requires Invariant(s) && Enabled(s, a) && a.Mint?
    ensures Invariant(Step(s, a, ttl))
  {
    var next := Step(s, a, ttl);
    forall owner ensures Count(next.panels, owner) <= MAX_LIVE_PER_OWNER && Distinct(next.panels) {
      MintKeepsCounts(s, a, ttl, owner);
    }
    MintKeepsCounts(s, a, ttl, 0);
    forall token | token in next.minted ensures Placed(next, token) {
      if token == a.token {
        MintPlacesNew(s, a, ttl);
      } else {
        MintKeepsOldTokens(s, a, ttl, token);
      }
    }
  }

  lemma TakeKeepsCounts(s: Store, a: Action, ttl: int, owner: Owner)
    requires Invariant(s) && Enabled(s, a) && a.Take?
    ensures Distinct(Step(s, a, ttl).panels) && Count(Step(s, a, ttl).panels, owner) <= MAX_LIVE_PER_OWNER
  {
    var live := Alive(s.panels, a.now);
    SweepKeeps(s, a.now, owner);
    FilterKeeps((p: Panel) => p.token != a.token, live, owner);
    FindFinds(live, a.token);
  }

  /** A panel that a load takes out was the one asked for, or had lapsed. */
  lemma TakesOnlyItsOwn(s: Store, a: Action, ttl: int, p: Panel)
    requires Invariant(s) && Enabled(s, a) && a.Take?
    requires p in s.panels && p !in Step(s, a, ttl).panels
    ensures var next := Step(s, a, ttl); p.token in next.spent - s.spent || p.expiresAt <= next.clock
  {
    var live := Alive(s.panels, a.now);
    FindFinds(live, a.token);
    assert Placed(s, p.token) && Has(s.panels, p.token);
    if p in live {
      assert Find(live, a.token).value == p by {
        assert s.minted[p.token] == p;
      }
    }
  }

  lemma TakeKeeps(s: Store, a: Action, ttl: int)
    requires Invariant(s) && Enabled(s, a) && a.Take?
    ensures Invariant(Step(s, a, ttl))
  {
    var next := Step(s, a, ttl);
    forall owner ensures Count(next.panels, owner) <= MAX_LIVE_PER_OWNER && Distinct(next.panels) {
      TakeKeepsCounts(s, a, ttl, owner);
    }
    TakeKeepsCounts(s, a, ttl, 0);
    FindFinds(Alive(s.panels, a.now), a.token);
    forall token | token in s.minted ensures Placed(next, token) {
      TakeKeepsToken(s, a, ttl, token);
    }
  }

  lemma TakeKeepsToken(s: Store, a: Action, ttl: int, token: string)
    requires Invariant(s) && Enabled(s, a) && a.Take? && token in s.minted
    ensures Placed(Step(s, a, ttl), token)
  {
    var next := Step(s, a, ttl);
    TakeRemains(s, a, ttl);
    TokensPlaced(s, next, token);
  }

  lemma TakeRemains(s: Store, a: Action, ttl: int)
    requires Invariant(s) && Enabled(s, a) && a.Take?
    ensures var next := Step(s, a, ttl);
      Remains(s, next.panels, (next.spent - s.spent) + (next.evicted - s.evicted) + (next.revoked - s.revoked),
              next.clock)
  {
    var next := Step(s, a, ttl);
    var live := Alive(s.panels, a.now);
    FindFinds(live, a.token);
    forall p | p in next.panels ensures p in s.panels && p.token !in next.spent - s.spent {
      assert p in live && p.token != a.token;
    }
    forall p | p in s.panels && p !in next.panels
      ensures p.token in next.spent - s.spent || p.expiresAt <= next.clock
    {
      TakesOnlyItsOwn(s, a, ttl, p);
    }
  }

  lemma RevokeKeeps(s: Store, a: Action, ttl: int)
    requires Invariant(s) && Enabled(s, a) && a.Revoke?
    ensures Invariant(Step(s, a, ttl))
  {
    var next := Step(s, a, ttl);
    forall owner ensures Count(next.panels, owner) <= MAX_LIVE_PER_OWNER && Distinct(next.panels) {
      FilterKeeps((p: Panel) => p.owner != a.owner, s.panels, owner);
    }
    assert Distinct(next.panels) by { FilterKeeps((p: Panel) => p.owner != a.owner, s.panels, 0); }
    forall p | p in next.panels ensures p.token !in next.revoked - s.revoked {
      assert s.minted[p.token] == p && p.owner != a.owner;
    }
    forall token | token in s.minted ensures Placed(next, token) {
      forall p | p in s.panels && p !in next.panels
        ensures p.token in next.revoked - s.revoked || p.expiresAt <= next.clock
      {
        assert Placed(s, p.token) && Has(s.panels, p.token);
      }
      TokensPlaced(s, next, token);
    }
  }

  lemma StepKeeps(s: Store, a: Action, ttl: int)
    requires Invariant(s) && Enabled(s, a)
    ensures Invariant(Step(s, a, ttl))
  {
    match a
    case Mint(_, _, _, _, _, _) => MintKeeps(s, a, ttl);
    case Take(_, _, _) => TakeKeeps(s, a, ttl);
    case Revoke(_, _) => RevokeKeeps(s, a, ttl);
  }

  lemma {:induction false} RunKeeps(s: Store, run: seq<Action>, ttl: int)
    requires Invariant(s) && Runs(s, run, ttl)
    ensures Invariant(After(s, run, ttl))
    decreases |run|
  {
    if run != [] {
      StepKeeps(s, run[0], ttl);
      RunKeeps(Step(s, run[0], ttl), run[1..], ttl);
    }
  }

  // ---------------------------------------------------------------- main results

  predicate Mints(a: Action, token: string) { a.Mint? && a.token == token }

  /** A minted token stands for what its mint was asked to serve, until `ttl` after the second reading
      of the clock. */
  predicate ServesFor(panel: Panel, a: Action, ttl: int)
    requires a.Mint?
  {
    && panel.token == a.token && panel.body == a.body && panel.policy == a.policy && panel.owner == a.owner
    && panel.expiresAt == a.later + ttl
  }

  lemma {:induction false} StaysMinted(s: Store, run: seq<Action>, ttl: int, token: string)
    requires Runs(s, run, ttl) && token in s.minted
    ensures token in After(s, run, ttl).minted && After(s, run, ttl).minted[token] == s.minted[token]
    ensures forall a | a in run :: !Mints(a, token)
    decreases |run|
  {
    if run != [] {
      StaysMinted(Step(s, run[0], ttl), run[1..], ttl, token);
      assert forall a | a in run :: a == run[0] || a in run[1..];
    }
  }

  /** What is on record of a token is the one action of the run that minted it. */
  lemma {:induction false} MintedByItsOwn(s: Store, run: seq<Action>, ttl: int, token: string)
    requires Runs(s, run, ttl) && token !in s.minted
    ensures token in After(s, run, ttl).minted <==> exists a :: a in run && Mints(a, token)
    ensures forall a | a in run && Mints(a, token) ::
      token in After(s, run, ttl).minted && ServesFor(After(s, run, ttl).minted[token], a, ttl)
    decreases |run|
  {
    if run != [] {
      var next := Step(s, run[0], ttl);
      assert run[0] in run && forall a | a in run :: a == run[0] || a in run[1..];
      assert forall a | a in run[1..] :: a in run;
      if Mints(run[0], token) {
        StaysMinted(next, run[1..], ttl, token);
      } else {
        MintedByItsOwn(next, run[1..], ttl, token);
      }
    }
  }

  /** After any run a token loads exactly when an action of the run minted it, it has not lapsed, and it was
      not loaded, evicted or revoked before; what loads is the document, policy and owner of that action. */
  lemma LoadsExactly(clock: int, run: seq<Action>, ttl: int, now: int, later: int, token: string)
    requires Runs(Empty(clock), run, ttl)
    requires After(Empty(clock), run, ttl).clock <= now <= later
    ensures
      var s := After(Empty(clock), run, ttl);
      var loaded := Taken(s.panels, now, later, token);
      && (loaded.Some? <==> !Gone(s, token) && exists a :: a in run && Mints(a, token) && later < a.later + ttl)
      && (loaded.Some? ==> exists a :: a in run && Mints(a, token) && ServesFor(loaded.value, a, ttl))
  {
    LoadsAsMinted(clock, run, ttl, now, later, token);
    MintedByItsOwn(Empty(clock), run, ttl, token);
  }

  lemma LoadsAsMinted(clock: int, run: seq<Action>, ttl: int, now: int, later: int, token: string)
    requires Runs(Empty(clock), run, ttl)
    requires After(Empty(clock), run, ttl).clock <= now <= later
    ensures
      var s := After(Empty(clock), run, ttl);
      var loaded := Taken(s.panels, now, later, token);
      && (loaded.Some? <==> token in s.minted && !Gone(s, token) && later < s.minted[token].expiresAt)
      && (loaded.Some? ==> loaded.value == s.minted[token])
  {
    RunKeeps(Empty(clock), run, ttl);
    var s := After(Empty(clock), run, ttl);
    var live := Alive(s.panels, now);
    FindFinds(live, token);
    if token in s.minted && !Gone(s, token) && later < s.minted[token].expiresAt {
      assert Placed(s, token);
      var p :| p in s.panels && p.token == token;
      assert s.minted[token] == p && p in live;
      assert Has(live, token);
    }
    if Find(live, token).Some? {
      var p := Find(live, token).value;
      assert p in s.panels && Placed(s, token) && Has(s.panels, token);
    }
  }

  /** The tokens that load along a run, in order. */
  function Loaded(s: Store, run: seq<Action>, ttl: int): seq<string>
    requires Runs(s, run, ttl)
    decreases |run|
  {
    if run == [] then []
    else
      var a := run[0];
      (if a.Take? && Taken(s.panels, a.now, a.later, a.token).Some? then [a.token] else [])
      + Loaded(Step(s, a, ttl), run[1..], ttl)
  }

  /** Over every run a token loads at most once. */
  lemma {:induction false} LoadsOnce(s: Store, run: seq<Action>, ttl: int)
    requires Invariant(s) && Runs(s, run, ttl)
    ensures forall i | 0 <= i < |Loaded(s, run, ttl)| :: !Gone(s, Loaded(s, run, ttl)[i])
    ensures forall i, j | 0 <= i < j < |Loaded(s, run, ttl)| :: Loaded(s, run, ttl)[i] != Loaded(s, run, ttl)[j]
    decreases |run|
  {
    if run != [] {
      var a := run[0];
      var next := Step(s, a, ttl);
      StepKeeps(s, a, ttl);
      LoadsOnce(next, run[1..], ttl);
      assert forall token | Gone(s, token) :: Gone(next, token);
      if a.Take? && Taken(s.panels, a.now, a.later, a.token).Some? {
        FindFinds(Alive(s.panels, a.now), a.token);
        var p := Find(Alive(s.panels, a.now), a.token).value;
        assert Has(s.panels, a.token) && Placed(s, a.token);
        assert Gone(next, a.token);
      }
    }
  }

  /** The tokens that are spent are those that loaded. */
  lemma {:induction false} SpentAreLoaded(s: Store, run: seq<Action>, ttl: int, token: string)
    requires Runs(s, run, ttl)
    ensures token in After(s, run, ttl).spent <==> token in s.spent || token in Loaded(s, run, ttl)
    decreases |run|
  {
    if run != [] {
      SpentAreLoaded(Step(s, run[0], ttl), run[1..], ttl, token);
    }
  }

  /** No owner ever has more than sixty-four live panels. */
  lemma OwnersAreBounded(clock: int, run: seq<Action>, ttl: int, owner: Owner)
    requires Runs(Empty(clock), run, ttl)
    ensures Count(After(Empty(clock), run, ttl).panels, owner) <= 64
  {
    RunKeeps(Empty(clock), run, ttl);
  }

  /** Minting takes away a live panel only from the same owner, only when that owner has
      sixty-four, and only the one that lapses first. */
  lemma EvictionIsFair(s: Store, a: Action, ttl: int, p: Panel)
    requires Invariant(s) && Enabled(s, a) && a.Mint?
    requires p in s.panels && p.expiresAt > a.now
    ensures p !in Step(s, a, ttl).panels <==> Evicted(Alive(s.panels, a.now), a.owner) == Some(p)
    ensures p !in Step(s, a, ttl).panels ==>
      && p.owner == a.owner
      && Count(Alive(s.panels, a.now), a.owner) == 64
      && forall q | q in s.panels && q.owner == a.owner && q.expiresAt > a.now :: p.expiresAt <= q.expiresAt
  {
    var live := Alive(s.panels, a.now);
    SweepKeeps(s, a.now, a.owner);
    var out := Evicted(live, a.owner);
    assert p in live && p.token in s.minted;
    assert out.Some? && out.value.token == p.token ==> out.value == s.minted[p.token] == p;
  }

  /** A closed connection leaves none of its panels and all of everyone else's. */
  lemma RevokeLeavesNone(s: Store, a: Action, ttl: int, p: Panel)
    requires Enabled(s, a) && a.Revoke?
    ensures p in Step(s, a, ttl).panels <==> p in s.panels && p.owner != a.owner
  {
  }
}

/** The store in place: `_panels`, a dictionary kept in insertion order. */
module PanelStores {
  import opened Wrappers
  import opened Panels

  class PanelStore {
    const ttl: int
    var panels: seq<Panel>

    constructor (ttl: int)
      ensures this.ttl == ttl && panels == []
    {
      this.ttl := ttl;
      panels := [];
    }

    method Sweep(now: int)
      modifies this
      ensures panels == Alive(old(panels), now)
    {
      panels := Filter((p: Panel) => p.expiresAt > now, panels);
    }

    method Mint(now: int, later: int, token: string, body: string, policy: string, owner: Owner) returns (panel: Panel)
      modifies this
      ensures panel == MintedPanel(Action.Mint(now, later, token, body, policy, owner), ttl)
      ensures panels == Minted(old(panels), now, panel)
    {
      Sweep(now);
      if Count(panels, owner) >= MAX_LIVE_PER_OWNER {
        var oldest := Oldest(panels, owner);
        panels := Except(panels, oldest.value.token);
      }
      panel := Panel(token, body, policy, owner, later + ttl);
      panels := panels + [panel];
    }

    method Take(now: int, later: int, token: string) returns (panel: Option<Panel>)
      modifies this
      ensures panel == Taken(old(panels), now, later, token)
      ensures panels == Except(Alive(old(panels), now), token)
    {
      Sweep(now);
      panel := Find(panels, token);
      panels := Except(panels, token);
      if panel.Some? && panel.value.expiresAt <= later {
        panel := None;
      }
    }

    method RevokeAll(owner: Owner) returns (revoked: nat)
      modifies this
      ensures panels == Others(old(panels), owner) && revoked == Count(old(panels), owner)
    {
      revoked := Count(panels, owner);
      panels := Others(panels, owner);
    }
  }
}
