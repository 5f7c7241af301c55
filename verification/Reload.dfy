/** Applying a new configuration (`supervisor.py`, `gateway.py`). */
module Reload {
  import opened Wrappers
  import opened Launches
  import opened BackendObjects
  import Backoff

  datatype Plan = Plan(added: set<string>, removed: set<string>, changed: set<string>, kept: set<string>)

  type Config = map<string, Spec>

  type Resolve = string -> string

  /** The entries in both configurations whose launch is the same. */
  function Same(before: Config, was: Resolve, config: Config, now: Resolve, environ: map<string, string>): set<string> {
    set name | name in before && name in config &&
               SpawnIdentity(before[name], was, environ) == SpawnIdentity(config[name], now, environ)
  }

  function PlanOf(before: set<string>, after: set<string>, same: set<string>): Plan {
    Plan(after - before, before - after, (before * after) - same, before * after * same)
  }

  /** `plan_reload`. */
  function PlanReload(before: Config, was: Resolve, config: Config, now: Resolve, environ: map<string, string>): Plan {
    PlanOf(before.Keys, config.Keys, Same(before, was, config, now, environ))
  }

  /** Each old name is removed, changed or kept, each new one added, changed or kept, and in one
      way only. */
  predicate Partitions(plan: Plan, before: set<string>, after: set<string>) {
    && plan.removed + plan.changed + plan.kept == before
    && plan.added + plan.changed + plan.kept == after
    && plan.added !! plan.removed !! plan.changed !! plan.kept
  }

  lemma PlanPartitions(before: set<string>, after: set<string>, same: set<string>)
    ensures Partitions(PlanOf(before, after, same), before, after)
    ensures Pointwise(PlanOf(before, after, same), before, after)
  {
  }

  /** The same, name by name. */
  ghost predicate Pointwise(plan: Plan, before: set<string>, after: set<string>) {
    && (forall n :: n in before <==> n in plan.removed || n in plan.changed || n in plan.kept)
    && (forall n :: n in after <==> n in plan.added || n in plan.changed || n in plan.kept)
    && (forall n :: n in plan.removed || n in plan.changed || n in plan.kept ==> n !in plan.added)
    && (forall n :: n in plan.changed || n in plan.kept ==> n !in plan.removed)
    && (forall n :: n in plan.kept ==> n !in plan.changed)
  }

  /** An entry in both configurations is kept exactly when its launch is the same. */
  lemma KeptExactly(before: Config, was: Resolve, config: Config, now: Resolve, environ: map<string, string>,
                    name: string)
    requires name in before && name in config
    ensures name in PlanReload(before, was, config, now, environ).kept <==>
      SpawnIdentity(before[name], was, environ) == SpawnIdentity(config[name], now, environ)
  {
  }

  /** A stopped backend, marked first when it is to be replaced. */
  function Halted(view: Backoff.State, restarting: bool): Backoff.State {
    Backoff.Stop(if restarting then view.(status := Backoff.RESTARTING) else view)
  }

  /** A backend that a reload takes out has no client and is stopped; only a disabled one that is removed stays
      disabled. */
  lemma HaltedTells(view: Backoff.State, restarting: bool)
    ensures var r := Halted(view, restarting);
      && !r.client && r.startedAt == None && Backoff.KeepsCounts(view, r)
      && r.status == if view.status == Backoff.DISABLED && !restarting then Backoff.DISABLED else Backoff.STOPPED
  {
  }

  class Supervisor {
    const environ: map<string, string>
    var servers: Config
    var store: Store
    var backends: map<string, Backend>

    /** Every entry has its own backend object. */
    ghost predicate Separate()
      reads this
    {
      forall m, n | m in backends && n in backends && m != n :: backends[m] != backends[n]
    }

    ghost predicate Valid()
      reads this, backends.Values
    {
      && backends.Keys == servers.Keys
      && Separate()
      && forall n | n in backends :: backends[n].spec == servers[n] && backends[n].store == store
    }

    constructor (environ: map<string, string>, store: Store)
      ensures Valid() && this.environ == environ && this.store == store && servers == map[]
    {
      this.environ, this.store := environ, store;
      servers, backends := map[], map[];
    }

    /** One turn of the loops that take backends out of the pool and stop them. */
    method StopOne(name: string, restarting: bool)
      requires Separate() && name in backends
      modifies this`backends, backends[name]
      ensures Separate() && forall n :: n in backends <==> n in old(backends) && n != name
      ensures forall n | n in backends :: backends[n] == old(backends[n])
      ensures old(backends[name]).View() == Halted(old(backends[name].View()), restarting)
    {
      var backend := backends[name];
      backends := backends - {name};
      if restarting {
        backend.status := Backoff.RESTARTING;
      }
      backend.Stop();
    }

    /** Takes the named backends out of the pool and stops each. */
    method StopAll(names: set<string>, restarting: bool)
      requires Separate() && names <= backends.Keys
      modifies this`backends, backends.Values
      ensures Separate() && forall n :: n in backends <==> n in old(backends) && n !in names
      ensures forall n | n in backends :: backends[n] == old(backends[n])
      ensures forall n | n in names :: old(backends)[n].View() == Halted(old(backends[n].View()), restarting)
      ensures forall n | n in backends :: unchanged(backends[n])
    {
      var left := names;
      ghost var was := backends;
      ghost var halted := map n | n in names :: Halted(backends[n].View(), restarting);
      while left != {}
        invariant left <= names && Separate() && forall n :: n in backends <==> n in was && (n in names ==> n in left)
        invariant forall n | n in backends :: backends[n] == was[n]
        invariant forall n | n in names && n !in left :: was[n].View() == halted[n]
        invariant forall n | n in backends :: unchanged(backends[n])
        decreases |left|
      {
        var name :| name in left;
        left := left - {name};
        assert forall n | n in was && n != name :: was[n] != was[name];
        StopOne(name, restarting);
      }
    }

    /** What building and starting the backend of `spec` makes of it. */
    function Launched(spec: Spec, failure: Option<string>, now: real, over: real): Backoff.State {
      if spec.enabled then Backoff.Start(Built(spec), true, now, failure, over).0 else Built(spec)
    }

    /** One turn of the loop that builds. */
    method BuildOne(name: string, failure: Option<string>, now: real, over: real, ghost view: Backoff.State)
      returns (failed: bool)
      requires Separate()
      requires name !in backends.Keys
      requires name in servers.Keys
      requires view == Launched(servers[name], failure, now, over)
      modifies this`backends
      ensures Separate() && forall n :: n in backends <==> n in old(backends) || n == name
      ensures forall n | n in old(backends) :: backends[n] == old(backends[n])
      ensures fresh(backends[name]) && Stands(backends[name], servers[name], store, view)
      ensures failed <==> servers[name].enabled && failure.Some?
    {
      var backend := new Backend(servers[name], store);
      backends := backends[name := backend];
      failed := false;
      if backend.spec.enabled {
        var answer := backend.Start(now, failure, over);
        failed := answer != Backoff.Serving;
      }
    }

    /** Every named backend as `Launched` makes it. */
    ghost function LaunchedAll(names: set<string>, failures: map<string, string>, now: real, over: real)
      : (launched: map<string, Backoff.State>)
      requires names <= servers.Keys
      reads this`servers
    {
      map n | n in names :: Launched(servers[n], Failure(failures, n), now, over)
    }

    /** Builds the named backends and starts the enabled ones. */
    method Build(names: set<string>, failures: map<string, string>, now: real, over: real) returns (failed: set<string>)
      requires Separate() && names !! backends.Keys && names <= servers.Keys
      modifies this`backends
      ensures Separate() && forall n :: n in backends <==> n in old(backends) || n in names
      ensures forall n | n in old(backends) :: backends[n] == old(backends[n])
      ensures forall n | n in names ::
        fresh(backends[n]) && Stands(backends[n], servers[n], store, LaunchedAll(names, failures, now, over)[n])
      ensures failed == set n | n in names && servers[n].enabled && n in failures
    {
      var left := names;
      ghost var was := backends;
      ghost var launched := LaunchedAll(names, failures, now, over);
      failed := {};
      while left != {}
        invariant left <= names && (forall n :: n in backends <==> n in was || (n in names && n !in left)) && Separate()
        invariant forall n | n in was :: backends[n] == was[n]
        invariant forall n | n in names && n !in left ::
          fresh(backends[n]) && Stands(backends[n], servers[n], store, launched[n])
        invariant forall n :: n in failed <==> n in names && n !in left && servers[n].enabled && n in failures
        decreases |left|
      {
        var name :| name in left;
        left := left - {name};
        assert name in servers.Keys && name !in backends.Keys;
        assert launched[name] == Launched(servers[name], Failure(failures, name), now, over);
        var bad := BuildOne(name, Failure(failures, name), now, over, launched[name]);
        if bad {
          failed := failed + {name};
        }
      }
    }

    method RefreshOne(name: string)
      requires name in backends && name in servers
      modifies backends[name]
      ensures backends[name].spec == servers[name] && backends[name].store == store
      ensures backends[name].View() == old(backends[name].View())
    {
      var backend := backends[name];
      backend.spec := servers[name];
      backend.store := store;
    }

    /** The unchanged backends keep everything but the entry they report from. */
    method Refresh(names: set<string>)
      requires Separate() && names <= backends.Keys && names <= servers.Keys
      modifies (set n | n in names :: backends[n])
      ensures forall n | n in names ::
        backends[n].spec == servers[n] && backends[n].store == store && backends[n].View() == old(backends[n].View())
      ensures forall n | n in backends && n !in names :: unchanged(backends[n])
    {
      var left := names;
      while left != {}
        invariant left <= names
        invariant forall n | n in names && n !in left ::
          backends[n].spec == servers[n] && backends[n].store == store && backends[n].View() == old(backends[n].View())
        invariant forall n | n in backends && (n in left || n !in names) :: unchanged(backends[n])
        decreases |left|
      {
        var name :| name in left;
        left := left - {name};
        RefreshOne(name);
      }
    }

    /** The first half of a reload: what is removed or changed is taken out and stopped. */
    method TakeOut(plan: Plan, config: Config, given: Store)
      requires Separate() && Pointwise(plan, backends.Keys, config.Keys)
      modifies this`backends, this`servers, this`store, backends.Values
      ensures Separate() && servers == config && store == given
      ensures forall n :: n in backends <==> n in plan.kept
      ensures forall n | n in plan.kept ::
        n in old(backends) && backends[n] == old(backends[n]) && unchanged(backends[n])
      ensures forall n | n in plan.removed || n in plan.changed ::
        n in old(backends) && old(backends[n]).View() == Halted(old(backends[n].View()), n in plan.changed)
    {
      StopAll(plan.removed, false);
      servers, store := config, given;
      StopAll(plan.changed, true);
    }

    /** The second half: what is changed or added is built and started, the rest refreshed. */
    method PutIn(plan: Plan, ghost before: set<string>, failures: map<string, string>, now: real, over: real)
      returns (failed: set<string>)
      requires Separate() && Pointwise(plan, before, servers.Keys)
      requires forall n :: n in backends <==> n in plan.kept
      modifies this`backends, backends.Values
      ensures Valid()
      ensures forall n | n in plan.kept ::
        n in old(backends) && n in backends && backends[n] == old(backends[n])
        && backends[n].View() == old(backends[n].View())
      ensures forall n | n in plan.changed || n in plan.added ::
        n in servers && n in backends && fresh(backends[n])
        && backends[n].View() == Launched(servers[n], Failure(failures, n), now, over)
      ensures forall n :: n in failed <==> (n in plan.changed || n in plan.added) && servers[n].enabled && n in failures
    {
      failed := Build(plan.changed + plan.added, failures, now, over);
      Refresh(plan.kept);
    }

    /** The reload that carries out `plan`. */
    method Apply(plan: Plan, config: Config, given: Store, failures: map<string, string>, now: real, over: real)
      returns (failed: set<string>)
      requires Valid() && Pointwise(plan, servers.Keys, config.Keys)
      modifies this, backends.Values
      ensures Valid() && servers == config && store == given
      ensures forall n | n in plan.kept ::
        n in old(backends) && n in backends && backends[n] == old(backends[n])
        && backends[n].View() == old(backends[n].View())
      ensures forall n | n in plan.removed || n in plan.changed ::
        n in old(backends) && old(backends[n]).View() == Halted(old(backends[n].View()), n in plan.changed)
      ensures forall n | n in plan.changed || n in plan.added ::
        n in config && n in backends && fresh(backends[n])
        && backends[n].View() == Launched(config[n], Failure(failures, n), now, over)
      ensures forall n :: n in failed <==>
        (n in plan.changed || n in plan.added) && n in config && config[n].enabled && n in failures
    {
      ghost var before := servers.Keys;
      TakeOut(plan, config, given);
      assert forall n | n in plan.removed || n in plan.changed :: old(backends)[n] !in backends.Values;
      failed := PutIn(plan, before, failures, now, over);
    }

    /** `reload`: exactly the plan, applied.  What is kept keeps its object, its process and its
        counters; what is removed or changed is stopped; what is changed or added is a new object. */
    method Reload(config: Config, given: Store, failures: map<string, string>, now: real, over: real)
      returns (plan: Plan, failed: set<string>)
      requires Valid()
      modifies this, backends.Values
      ensures plan == PlanReload(old(servers), Resolver(old(store)), config, Resolver(given), environ)
      ensures Valid() && servers == config && store == given
      ensures forall n | n in plan.kept ::
        n in old(backends) && n in backends && backends[n] == old(backends[n])
        && backends[n].View() == old(backends[n].View())
      ensures forall n | n in plan.removed || n in plan.changed ::
        n in old(backends) && old(backends[n]).View() == Halted(old(backends[n].View()), n in plan.changed)
      ensures forall n | n in plan.changed || n in plan.added ::
        n in config && n in backends && fresh(backends[n])
        && backends[n].View() == Launched(config[n], Failure(failures, n), now, over)
      ensures forall n :: n in failed <==>
        (n in plan.changed || n in plan.added) && n in config && config[n].enabled && n in failures
    {
      plan := MakePlan(servers, Resolver(store), config, Resolver(given));
      failed := Apply(plan, config, given, failures, now, over);
    }

    method MakePlan(before: Config, was: Resolve, config: Config, now: Resolve) returns (plan: Plan)
      ensures plan == PlanReload(before, was, config, now, environ) && Pointwise(plan, before.Keys, config.Keys)
    {
      plan := PlanReload(before, was, config, now, environ);
      PlanPartitions(before.Keys, config.Keys, Same(before, was, config, now, environ));
    }
  }

  /** `backend` reports from this entry and store, and stands like this. */
  ghost predicate Stands(backend: Backend, spec: Spec, store: Store, view: Backoff.State)
    reads backend
  {
    backend.spec == spec && backend.store == store && backend.View() == view
  }

  function Failure(failures: map<string, string>, name: string): Option<string> {
    if name in failures then Some(failures[name]) else None
  }
}

/** What the gateway does around it: the registries that name backends. */
module GatewayReload {
  import opened Wrappers
  import opened Launches
  import opened Reload
  import opened SubscriptionIndex

  class Gateway {
    const supervisor: Supervisor
    const subscriptions: Subscriptions
    var hidden: map<string, set<string>>

    constructor (supervisor: Supervisor, subscriptions: Subscriptions)
      ensures this.supervisor == supervisor && this.subscriptions == subscriptions && hidden == map[]
    {
      this.supervisor, this.subscriptions, hidden := supervisor, subscriptions, map[];
    }

    /** What follows the reload of the pool: the removed names are forgotten. */
    method Forget(removed: set<string>)
      requires subscriptions.Valid()
      modifies this`hidden, subscriptions
      ensures subscriptions.Valid()
      ensures forall p :: p in subscriptions.Pairs() <==> p in old(subscriptions.Pairs()) && !UnderAny(removed, p.1)
      ensures forall name :: name in hidden <==> name in old(hidden) && name !in removed
      ensures forall name | name in hidden :: hidden[name] == old(hidden[name])
    {
      var left := removed;
      while left != {}
        invariant left <= removed && subscriptions.Valid()
        invariant forall p :: p in subscriptions.Pairs() <==>
          p in old(subscriptions.Pairs()) && forall name | name in removed && name !in left :: !Under(name, p.1)
        invariant forall name :: name in hidden <==> name in old(hidden) && (name in removed ==> name in left)
        invariant forall name | name in hidden :: hidden[name] == old(hidden[name])
        decreases |left|
      {
        var name :| name in left;
        subscriptions.DropBackend(name);
        hidden := hidden - {name};
        left := left - {name};
      }
    }

    method Reload(config: Config, given: Store, failures: map<string, string>, now: real, over: real)
      returns (plan: Plan, failed: set<string>)
      requires supervisor.Valid() && subscriptions.Valid()
      modifies this`hidden, subscriptions, supervisor, supervisor.backends.Values
      ensures supervisor.Valid() && subscriptions.Valid() && supervisor.servers == config
      ensures forall n :: n in plan.removed <==> n in old(supervisor.servers) && n !in config
      ensures forall p ::
        p in subscriptions.Pairs() <==> p in old(subscriptions.Pairs()) && !UnderAny(plan.removed, p.1)
      ensures forall name :: name in hidden <==> name in old(hidden) && name !in plan.removed
      ensures forall name | name in hidden :: hidden[name] == old(hidden[name])
    {
      plan, failed := ReloadPool(config, given, failures, now, over);
      Forget(plan.removed);
    }

    /** The pool's own reload, which knows nothing of the registries. */
    method ReloadPool(config: Config, given: Store, failures: map<string, string>, now: real, over: real)
      returns (plan: Plan, failed: set<string>)
      requires supervisor.Valid()
      modifies supervisor, supervisor.backends.Values
      ensures supervisor.Valid() && supervisor.servers == config
      ensures forall n :: n in plan.removed <==> n in old(supervisor.servers) && n !in config
    {
      plan, failed := supervisor.Reload(config, given, failures, now, over);
    }
  }

  predicate UnderAny(names: set<string>, uri: string) {
    exists name | name in names :: Under(name, uri)
  }

  /** After a reload no address the gateway writes names a backend that is gone: what is left of
      those subscriptions belongs to the others. */
  lemma NoAddressOfTheRemoved(removed: set<string>, uri: string, name: string)
    requires !UnderAny(removed, uri)
    requires name != "" && '/' !in name && OwnerOf(uri) == Some(name) && ADDRESS <= uri
    ensures name !in removed
  {
    UnderExactly(name, uri);
  }
}
