/**
 * Properties of `enable_plugin` / `disable_plugin` that relate several calls
 * or need an induction over the dependency walk.
 */
module ManagerProofs {
  import opened Results
  import opened Plugins
  import opened Registry
  import opened Deps
  import opened Manager

  /** `name` is registered and so is every name it transitively depends on. */
  ghost predicate Resolvable(reg: Registry, name: string)
  {
    name in reg && forall x :: Reaches(Graph(reg), name, x) ==> x in reg
  }

  /** A resolvable plugin's dependencies are resolvable. */
  lemma ResolvableDeps(reg: Registry, name: string)
    requires Resolvable(reg, name)
    ensures forall d :: d in reg[name].depends ==> Resolvable(reg, d)
  {
    forall d | d in reg[name].depends
      ensures Resolvable(reg, d)
    {
      ReachesByEdge(Graph(reg), name, d);
      forall x | Reaches(Graph(reg), d, x)
        ensures x in reg
      {
        ReachesPrepend(Graph(reg), name, d, x);
      }
    }
  }

  /** check_deps finds nothing unmet for a resolvable plugin, and conversely. */
  lemma NoUnmetIffResolvable(reg: Registry, name: string)
    requires name in reg
    ensures CheckDeps(reg, name).value.unmet == {} <==> Resolvable(reg, name)
  {
  }

  /** With every dependency resolvable, the checked auto-deps walk never raises. */
  lemma {:induction false} CheckedRecSucceeds(st: State, name: string, busy: set<string>)
    requires Resolvable(st.reg, name)
    ensures EnableRec(st, name, true, true, busy).result.Ok?
    decreases |st.reg.Keys - busy|, 2, 0
  {
    if !st.reg[name].enabled && name !in busy {
      NoUnmetIffResolvable(st.reg, name);
      CheckedThenSelfSucceeds(st, name, busy);
    }
  }

  lemma {:induction false} CheckedThenSelfSucceeds(st: State, name: string, busy: set<string>)
    requires Resolvable(st.reg, name) && !st.reg[name].enabled && name !in busy
    ensures EnableDepsThenSelf(st, name, busy).result.Ok?
    decreases |st.reg.Keys - busy|, 1, 0
  {
    OneFewerOutside(st.reg.Keys, busy, name);
    ResolvableDeps(st.reg, name);
    CheckedDepsSucceed(st, st.reg[name].depends, busy + {name});
  }

  lemma {:induction false} CheckedDepsSucceed(st: State, deps: seq<string>, busy: set<string>)
    requires forall d :: d in deps ==> Resolvable(st.reg, d)
    ensures EnableDeps(st, deps, busy).result.Ok?
    decreases |st.reg.Keys - busy|, 3, |deps|
  {
    if deps != [] {
      CheckedRecSucceeds(st, deps[0], busy);
      var first := EnableRec(st, deps[0], true, true, busy);
      assert Graph(first.state.reg) == Graph(st.reg);
      assert forall d :: d in deps[1..] ==> d in deps;
      CheckedDepsSucceed(first.state, deps[1..], busy);
    }
  }

  /** With auto_deps and check_deps on (the defaults), enable_plugin is
      all-or-nothing: it either returns normally, or raises PluginError for
      the unknown target or PluginDependencyError with check_deps' unmet set,
      and in both error cases nothing has changed. */
  lemma CheckedEnableIsAtomic(st: State, name: string)
    ensures var out := EnablePlugin(st, name, true, true);
      out.result.Err? ==>
        && out.state == st
        && (name !in st.reg ==> out.result.error == PluginError(name, Some(name)))
        && (name in st.reg ==> out.result.error == PluginDependencyError(CheckDeps(st.reg, name).value.unmet)
                                && CheckDeps(st.reg, name).value.unmet != {})
  {
    if name in st.reg && !st.reg[name].enabled && CheckDeps(st.reg, name).value.unmet == {} {
      NoUnmetIffResolvable(st.reg, name);
      CheckedRecSucceeds(st, name, {});
    }
  }

  /** With auto_deps on, a plugin whose transitive dependencies are all
      registered is enabled without a raise, whether or not check_deps runs
      first: the dependency walk itself raises only for a missing name. */
  lemma ResolvableEnableSucceeds(st: State, name: string, checkDeps: bool)
    requires Resolvable(st.reg, name)
    ensures EnablePlugin(st, name, true, checkDeps).result.Ok?
  {
    if !st.reg[name].enabled {
      if checkDeps {
        NoUnmetIffResolvable(st.reg, name);
      }
      CheckedThenSelfSucceeds(st, name, {});
    }
  }

  /** With the defaults, enable_plugin raises exactly for an unknown name or a
      disabled plugin with a missing transitive dependency (lines 98-100). */
  lemma CheckedRaisesIffUnresolvable(st: State, name: string)
    ensures EnablePlugin(st, name, true, true).result.Err? <==>
      name !in st.reg || (!st.reg[name].enabled && !Resolvable(st.reg, name))
  {
    if name in st.reg {
      NoUnmetIffResolvable(st.reg, name);
      if Resolvable(st.reg, name) {
        ResolvableEnableSucceeds(st, name, true);
      }
    }
  }

  /** Enabling `name` (any mode) and enabling it again: the second call
      returns false, changes nothing and fires no hook. */
  lemma EnableIdempotent(st: State, name: string, autoDeps: bool, checkDeps: bool, autoDeps': bool, checkDeps': bool)
    requires EnablePlugin(st, name, autoDeps, checkDeps).result.Ok?
    ensures var once := EnablePlugin(st, name, autoDeps, checkDeps).state;
      EnablePlugin(once, name, autoDeps', checkDeps') == Outcome(once, Ok(false))
  {
  }

  /** Disabling twice: the second call returns false, changes nothing and fires no hook. */
  lemma DisableIdempotent(st: State, name: string)
    requires name in st.reg
    ensures var once := DisablePlugin(st, name).state;
      DisablePlugin(once, name) == Outcome(once, Ok(false))
  {
  }

  /** The auto-deps walk keeps "every enabled plugin's dependencies are
      enabled, apart from those in progress" whenever it returns normally. */
  lemma {:induction false} RecKeepsClosed(st: State, name: string, checkDeps: bool, busy: set<string>)
    requires ClosedModulo(st.reg, busy)
    ensures var out := EnableRec(st, name, true, checkDeps, busy);
      out.result.Ok? ==> ClosedModulo(out.state.reg, busy)
    decreases |st.reg.Keys - busy|, 2, 0
  {
    if name in st.reg && !st.reg[name].enabled && name !in busy {
      ThenSelfKeepsClosed(st, name, busy);
    }
  }

  lemma {:induction false} ThenSelfKeepsClosed(st: State, name: string, busy: set<string>)
    requires name in st.reg && !st.reg[name].enabled && name !in busy
    requires ClosedModulo(st.reg, busy)
    ensures var out := EnableDepsThenSelf(st, name, busy);
      out.result.Ok? ==> ClosedModulo(out.state.reg, busy)
    decreases |st.reg.Keys - busy|, 1, 0
  {
    OneFewerOutside(st.reg.Keys, busy, name);
    var deps := st.reg[name].depends;
    ClosedModuloWider(st.reg, busy, busy + {name});
    DepsKeepClosed(st, deps, busy + {name});
    var mid := EnableDeps(st, deps, busy + {name});
    if mid.result.Ok? {
      assert EnableDepsThenSelf(st, name, busy) == Finish(mid.state, name);
      assert mid.state.reg.Keys == st.reg.Keys;
      assert mid.state.reg[name].depends == Graph(mid.state.reg)[name] == Graph(st.reg)[name] == deps;
      FinishKeepsClosed(mid.state, name, busy);
    }
  }

  lemma ClosedModuloWider(reg: Registry, busy: set<string>, more: set<string>)
    requires ClosedModulo(reg, busy) && busy <= more
    ensures ClosedModulo(reg, more)
  {
  }

  /** Enabling `name` once its dependencies are handled closes it off. */
  lemma FinishKeepsClosed(mid: State, name: string, busy: set<string>)
    requires name in mid.reg
    requires ClosedModulo(mid.reg, busy + {name})
    requires forall d :: d in mid.reg[name].depends ==> d in mid.reg && (d in busy + {name} || mid.reg[d].enabled)
    ensures ClosedModulo(Finish(mid, name).state.reg, busy)
  {
  }

  lemma {:induction false} DepsKeepClosed(st: State, deps: seq<string>, busy: set<string>)
    requires ClosedModulo(st.reg, busy)
    ensures var out := EnableDeps(st, deps, busy);
      out.result.Ok? ==> ClosedModulo(out.state.reg, busy)
    decreases |st.reg.Keys - busy|, 3, |deps|
  {
    if deps != [] {
      RecKeepsClosed(st, deps[0], true, busy);
      var first := EnableRec(st, deps[0], true, true, busy);
      if first.result.Ok? {
        DepsKeepClosed(first.state, deps[1..], busy);
        assert EnableDeps(st, deps, busy) == EnableDeps(first.state, deps[1..], busy);
      }
    }
  }

  /** On a registry where every enabled plugin's dependencies are enabled, a
      successful auto-deps enable keeps that so, and leaves the target and
      everything it transitively depends on registered and enabled. */
  lemma AutoDepsEnablesClosure(st: State, name: string, checkDeps: bool)
    requires DepsClosed(st.reg)
    ensures var out := EnablePlugin(st, name, true, checkDeps);
      out.result.Ok? ==>
        && DepsClosed(out.state.reg)
        && (forall x :: Reaches(Graph(st.reg), name, x) ==> x in out.state.reg && out.state.reg[x].enabled)
  {
    var out := EnablePlugin(st, name, true, checkDeps);
    RecKeepsClosed(st, name, checkDeps, {});
    if out.result.Ok? {
      forall x | Reaches(Graph(st.reg), name, x)
        ensures x in out.state.reg && out.state.reg[x].enabled
      {
        EnabledReachesEnabled(out.state.reg, name, x);
      }
    }
  }

  /** An event appended by an enable that returned true, other than the
      target's own two, sits strictly before the target's `OnEnable`. */
  lemma BeforeTarget(st: State, out: State, name: string, x: string)
    requires Grows(st, out) && EndsWithEnable(out.trace, name)
    requires x in st.reg && x != name && !st.reg[x].enabled && out.reg[x].enabled
    ensures exists i :: |st.trace| <= i < |out.trace| - 2 && out.trace[i] == OnEnable(x)
  {
  }

  /** Every direct dependency that the call had to enable fired its enable
      hook before the target's. */
  lemma DependenciesEnabledFirst(st: State, name: string, autoDeps: bool, checkDeps: bool)
    ensures var out := EnablePlugin(st, name, autoDeps, checkDeps);
      out.result == Ok(true) ==>
        forall d :: d in st.reg[name].depends && d != name && d in st.reg && !st.reg[d].enabled ==>
          exists i :: |st.trace| <= i < |out.state.trace| - 2 && out.state.trace[i] == OnEnable(d)
  {
  }

  /** On a dependency-closed registry, every transitive dependency that was
      disabled fires its enable hook before the target's, cycles included. */
  lemma TransitiveDependenciesEnabledFirst(st: State, name: string, checkDeps: bool)
    requires DepsClosed(st.reg)
    ensures var out := EnablePlugin(st, name, true, checkDeps);
      out.result == Ok(true) ==>
        forall x :: Reaches(Graph(st.reg), name, x) && x != name && x in st.reg && !st.reg[x].enabled ==>
          exists i :: |st.trace| <= i < |out.state.trace| - 2 && out.state.trace[i] == OnEnable(x)
  {
    var out := EnablePlugin(st, name, true, checkDeps);
    AutoDepsEnablesClosure(st, name, checkDeps);
    if out.result == Ok(true) {
      forall x | Reaches(Graph(st.reg), name, x) && x != name && x in st.reg && !st.reg[x].enabled
        ensures exists i :: |st.trace| <= i < |out.state.trace| - 2 && out.state.trace[i] == OnEnable(x)
      {
        BeforeTarget(st, out.state, name, x);
      }
    }
  }

  /** Walking dependencies that are all enabled already, or in progress, changes nothing. */
  lemma {:induction false} EnabledDepsNoop(st: State, deps: seq<string>, busy: set<string>)
    requires forall d :: d in deps ==> d in st.reg && (d in busy || st.reg[d].enabled)
    ensures EnableDeps(st, deps, busy) == Outcome(st, Ok(true))
    decreases |deps|
  {
    if deps != [] {
      assert EnableRec(st, deps[0], true, true, busy) == Outcome(st, Ok(false));
      assert forall d :: d in deps[1..] ==> d in deps;
      EnabledDepsNoop(st, deps[1..], busy);
    }
  }

  /** A plugin whose dependencies are all enabled is enabled on its own, in
      every mode: only its flag changes and only its two hooks fire. */
  lemma EnableWithDepsEnabled(st: State, name: string, autoDeps: bool, checkDeps: bool)
    requires name in st.reg && !st.reg[name].enabled
    requires DepsClosed(st.reg)
    requires forall d :: d in st.reg[name].depends ==> d in st.reg && st.reg[d].enabled
    ensures EnablePlugin(st, name, autoDeps, checkDeps) == Finish(st, name)
  {
    if autoDeps {
      if checkDeps {
        EnabledDepsResolvable(st.reg, name);
        NoUnmetIffResolvable(st.reg, name);
      }
      AutoWithDepsEnabled(st, name, checkDeps, {});
    } else {
      assert StrictUnmet(st.reg, st.reg[name].depends) == {};
    }
  }

  lemma AutoWithDepsEnabled(st: State, name: string, checkDeps: bool, busy: set<string>)
    requires name in st.reg && !st.reg[name].enabled && name !in busy
    requires checkDeps ==> CheckDeps(st.reg, name).value.unmet == {}
    requires forall d :: d in st.reg[name].depends ==> d in st.reg && st.reg[d].enabled
    ensures EnableRec(st, name, true, checkDeps, busy) == Finish(st, name)
  {
    EnabledDepsNoop(st, st.reg[name].depends, busy + {name});
    assert EnableDepsThenSelf(st, name, busy) == Finish(st, name);
  }

  /** In a dependency-closed registry, a plugin whose direct dependencies are
      enabled is resolvable. */
  lemma EnabledDepsResolvable(reg: Registry, name: string)
    requires name in reg && DepsClosed(reg)
    requires forall d :: d in reg[name].depends ==> d in reg && reg[d].enabled
    ensures Resolvable(reg, name)
  {
    var on := EnabledPlugins(reg).Keys;
    assert ClosedUnder(Graph(reg), on);
    ReachableInsideClosed(Graph(reg), name, on);
  }

  /** Enabling a plugin whose dependencies are all enabled, then disabling it,
      restores the registry; the trace gains exactly the four hooks. */
  lemma EnableDisableRoundTrip(st: State, name: string, autoDeps: bool, checkDeps: bool)
    requires name in st.reg && !st.reg[name].enabled
    requires DepsClosed(st.reg)
    requires forall d :: d in st.reg[name].depends ==> d in st.reg && st.reg[d].enabled
    ensures var on := EnablePlugin(st, name, autoDeps, checkDeps);
      && on.result == Ok(true)
      && DisablePlugin(on.state, name) ==
           Outcome(State(st.reg, st.trace + [OnEnable(name), OnEnablePlugin(name), OnDisable(name), OnDisablePlugin(name)]), Ok(true))
  {
    EnableWithDepsEnabled(st, name, autoDeps, checkDeps);
    FinishThenDisable(st, name);
  }

  /** Enabling a disabled plugin and disabling it again restores its flag. */
  lemma FinishThenDisable(st: State, name: string)
    requires name in st.reg && !st.reg[name].enabled
    ensures Finish(st, name).result == Ok(true)
    ensures DisablePlugin(Finish(st, name).state, name) ==
      Outcome(State(st.reg, st.trace + [OnEnable(name), OnEnablePlugin(name), OnDisable(name), OnDisablePlugin(name)]), Ok(true))
  {
    var e := Finish(st, name);
    assert e.state.reg[name := e.state.reg[name].(enabled := false)] == st.reg;
    assert e.state.trace + [OnDisable(name), OnDisablePlugin(name)]
        == st.trace + [OnEnable(name), OnEnablePlugin(name), OnDisable(name), OnDisablePlugin(name)];
  }

  /** Every plugin hook that enable_plugin fires (line 168) is directly
      followed by the manager hook for the same plugin (line 124). */
  lemma EnableHooksAdjacent(st: State, name: string, autoDeps: bool, checkDeps: bool)
    ensures var t := EnablePlugin(st, name, autoDeps, checkDeps).state.trace;
      forall i :: |st.trace| <= i < |t| && t[i].OnEnable? ==> i + 1 < |t| && t[i + 1] == OnEnablePlugin(t[i].name)
  {
    var out := EnablePlugin(st, name, autoDeps, checkDeps);
    PairedAdjacent(st, out.state);
  }

  /** Paired appended events, read as positions in the whole trace. */
  lemma PairedAdjacent(s: State, s': State)
    requires s.trace <= s'.trace && Paired(NewEvents(s, s'))
    ensures forall i :: |s.trace| <= i < |s'.trace| && s'.trace[i].OnEnable? ==>
      i + 1 < |s'.trace| && s'.trace[i + 1] == OnEnablePlugin(s'.trace[i].name)
  {
    var t := s'.trace;
    forall i | |s.trace| <= i < |t| && t[i].OnEnable?
      ensures i + 1 < |t| && t[i + 1] == OnEnablePlugin(t[i].name)
    {
      var evs := NewEvents(s, s');
      assert evs[i - |s.trace|] == t[i];
      PairedFollowed(evs, i - |s.trace|);
    }
  }
}
