/**
 * `PluginManager.enable_plugin` / `disable_plugin` over an immutable
 * registry. Lifecycle hooks are recorded as an appended event trace; an
 * exception is an `Err` result whose state is whatever the registry held when
 * it was raised (there is no rollback).
 *
 * Divergences from the code as written, each modelled as its docstring intends:
 *  - the manager hooks are called as `self.on_enable` / `self.on_disable`
 *    (plugin_framework.py:124, 144), which do not exist; the defined hooks
 *    `on_enable_plugin` / `on_disable_plugin` (lines 148-154) are modelled;
 *  - strict mode calls the nonexistent `set.intersect` (line 119); it is
 *    modelled as the intersection of the disabled names with the dependencies;
 *  - `check_deps` is the corrected closure of the `Deps` module;
 *  - once `check_deps` is corrected, the auto-deps recursion (lines 116-117)
 *    never ends on a dependency cycle, because it does not mark the target
 *    before recursing (as written, the recursive `check_deps` raises TypeError
 *    first); here the names whose enabling is in progress are threaded through
 *    as `busy`, and reaching one again returns false without doing anything.
 */
module Manager {
  import opened Results
  import opened Plugins
  import opened Registry
  import opened Deps

  /** `PluginError` (unknown plugin: the name its message reports, and its
      `plugin` attribute) and `PluginDependencyError` (the offending names). */
  datatype Error =
    | PluginError(missing: string, plugin: Option<string>)
    | PluginDependencyError(depends: set<string>)

  /** Hook invocations: the plugin's own `on_enable`/`on_disable` and the
      manager's `on_enable_plugin`/`on_disable_plugin`. */
  datatype Event =
    | OnEnable(name: string)
    | OnEnablePlugin(name: string)
    | OnDisable(name: string)
    | OnDisablePlugin(name: string)

  datatype State = State(reg: Registry, trace: seq<Event>)

  /** The state after an operation and what it returned or raised. */
  datatype Outcome = Outcome(state: State, result: Result<bool, Error>)

  /** The events `s'` appended to `s`'s trace. */
  function NewEvents(s: State, s': State): seq<Event>
    requires s.trace <= s'.trace
  {
    s'.trace[|s.trace|..]
  }

  /** `s'` arises from `s` by enabling plugins only: same names and
      dependencies, no flag cleared, the trace extended, and a plugin's
      `OnEnable` event appended exactly when its flag went from off to on. */
  ghost predicate Grows(s: State, s': State)
  {
    && s'.reg.Keys == s.reg.Keys
    && Graph(s'.reg) == Graph(s.reg)
    && (forall k :: k in s.reg && s.reg[k].enabled ==> s'.reg[k].enabled)
    && s.trace <= s'.trace
    && (forall k :: k in s.reg ==> (!s.reg[k].enabled && s'.reg[k].enabled <==> OnEnable(k) in NewEvents(s, s')))
    && (forall e :: e in NewEvents(s, s') ==> e.OnEnable? || e.OnEnablePlugin?)
  }

  lemma GrowsRefl(s: State)
    ensures Grows(s, s)
  {
  }

  lemma GrowsTrans(s1: State, s2: State, s3: State)
    requires Grows(s1, s2) && Grows(s2, s3)
    ensures Grows(s1, s3)
  {
  }

  /** Every plugin of `busy` that was disabled in `s` is still disabled in `s'`. */
  ghost predicate IdleKept(s: State, s': State, busy: set<string>)
  {
    forall b :: b in busy && b in s.reg && !s.reg[b].enabled ==> b in s'.reg && !s'.reg[b].enabled
  }

  /** The trace ends with the two hooks of enabling `name`: the plugin's own
      (fired inside `Plugin.enable`, line 168) and then the manager's. */
  predicate EndsWithEnable(trace: seq<Event>, name: string)
  {
    |trace| >= 2 && trace[|trace| - 2..] == [OnEnable(name), OnEnablePlugin(name)]
  }

  /** Strict mode (auto_deps off): the dependencies that are registered but disabled. */
  function StrictUnmet(reg: Registry, depends: seq<string>): (unmet: set<string>)
    ensures forall x :: x in unmet <==> x in depends && x in reg && !reg[x].enabled
  {
    DisabledPlugins(reg).Keys * (set x | x in depends)
  }

  /** Lines 123-125: `plugin.enable()`, and the manager hook when it reports a transition. */
  function Finish(st: State, name: string): (out: Outcome)
    requires name in st.reg
    ensures Grows(st, out.state)
    ensures out.result == Ok(!st.reg[name].enabled)
    ensures out.state.reg[name].enabled
    ensures out.result == Ok(true) ==>
      && out.state.reg == st.reg[name := st.reg[name].(enabled := true)]
      && out.state.trace == st.trace + [OnEnable(name), OnEnablePlugin(name)]
    ensures out.result == Ok(false) ==> out.state == st
  {
    var t := Enable(st.reg[name]);
    if t.changed then
      var st' := State(st.reg[name := t.plugin], st.trace + [OnEnable(name), OnEnablePlugin(name)]);
      assert NewEvents(st, st') == [OnEnable(name), OnEnablePlugin(name)];
      Outcome(st', Ok(true))
    else
      GrowsRefl(st);
      Outcome(st, Ok(false))
  }

  /** `enable_plugin(name, auto_deps, check_deps)` with the names whose
      enabling is in progress in `busy`. */
  function EnableRec(st: State, name: string, autoDeps: bool, checkDeps: bool, busy: set<string>): (out: Outcome)
    ensures Grows(st, out.state)
    ensures out.result.Ok? ==> name in st.reg
    ensures out.result.Ok? && name !in busy ==> out.state.reg[name].enabled
    ensures IdleKept(st, out.state, busy)
    ensures out.result.Ok? && name in st.reg && !st.reg[name].enabled && name !in busy ==> out.result == Ok(true)
    ensures out.result.Err? && name in st.reg && !st.reg[name].enabled ==> !out.state.reg[name].enabled
    ensures out.result == Ok(true) ==>
      && !st.reg[name].enabled
      && EndsWithEnable(out.state.trace, name)
      && (forall d :: d in st.reg[name].depends && d in st.reg ==> d in busy || out.state.reg[d].enabled)
      && (autoDeps ==> forall d :: d in st.reg[name].depends ==> d in st.reg)
    decreases |st.reg.Keys - busy|, 2, 0
  {
    if name !in st.reg then
      GrowsRefl(st);
      Outcome(st, Err(PluginError(name, Some(name))))
    else if st.reg[name].enabled || name in busy then
      GrowsRefl(st);
      Outcome(st, Ok(false))
    else if autoDeps then
      var unmet := if checkDeps then CheckDeps(st.reg, name).value.unmet else {};
      if unmet != {} then
        GrowsRefl(st);
        Outcome(st, Err(PluginDependencyError(unmet)))
      else
        EnableDepsThenSelf(st, name, busy)
    else
      var unmet := StrictUnmet(st.reg, st.reg[name].depends);
      if unmet != {} then
        GrowsRefl(st);
        Outcome(st, Err(PluginDependencyError(unmet)))
      else
        Finish(st, name)
  }

  /** Lines 116-117 then 123-125: the dependencies first, then the plugin itself. */
  function EnableDepsThenSelf(st: State, name: string, busy: set<string>): (out: Outcome)
    requires name in st.reg && !st.reg[name].enabled && name !in busy
    ensures Grows(st, out.state)
    ensures out.result.Ok? ==> out.result == Ok(true) && out.state.reg[name].enabled
    ensures out.result.Err? ==> !out.state.reg[name].enabled
    ensures IdleKept(st, out.state, busy)
    ensures out.result == Ok(true) ==>
      && EndsWithEnable(out.state.trace, name)
      && (forall d :: d in st.reg[name].depends ==> d in st.reg && (d in busy || out.state.reg[d].enabled))
    decreases |st.reg.Keys - busy|, 1, 0
  {
    OneFewerOutside(st.reg.Keys, busy, name);
    var mid := EnableDeps(st, st.reg[name].depends, busy + {name});
    if mid.result.Err? then mid
    else
      FinishAfterDeps(st, mid.state, name, busy);
      Finish(mid.state, name)
  }

  /** Enabling `name` once its dependencies are handled: the combined step
      still only enables, and the dependencies stay handled. */
  lemma FinishAfterDeps(st: State, mid: State, name: string, busy: set<string>)
    requires name in st.reg && Grows(st, mid)
    requires forall d :: d in st.reg[name].depends ==> d in st.reg && (d in busy + {name} || mid.reg[d].enabled)
    requires !st.reg[name].enabled && name !in busy && IdleKept(st, mid, busy + {name})
    ensures name in mid.reg
    ensures var out := Finish(mid, name);
      && Grows(st, out.state)
      && out.result == Ok(true)
      && IdleKept(st, out.state, busy)
      && (forall d :: d in st.reg[name].depends ==> d in st.reg && (d in busy || out.state.reg[d].enabled))
  {
    var out := Finish(mid, name);
    GrowsTrans(st, mid, out.state);
  }

  /** Lines 116-117: each dependency in turn, with auto_deps on and check_deps
      at its default (on); the first exception stops the loop. */
  function EnableDeps(st: State, deps: seq<string>, busy: set<string>): (out: Outcome)
    ensures Grows(st, out.state)
    ensures out.result.Ok? ==> forall d :: d in deps ==> d in st.reg && (d in busy || out.state.reg[d].enabled)
    ensures IdleKept(st, out.state, busy)
    decreases |st.reg.Keys - busy|, 3, |deps|
  {
    if deps == [] then
      GrowsRefl(st);
      Outcome(st, Ok(true))
    else
      var first := EnableRec(st, deps[0], true, true, busy);
      if first.result.Err? then first
      else
        var rest := EnableDeps(first.state, deps[1..], busy);
        GrowsTrans(st, first.state, rest.state);
        assert forall d :: d in deps ==> d == deps[0] || d in deps[1..];
        rest
  }

  /** `k` is neither in `deps` nor a transitive dependency of any of them. */
  ghost predicate Beyond(g: DepGraph, deps: seq<string>, k: string)
  {
    k !in deps && forall d :: d in deps ==> !Reaches(g, d, k)
  }

  /** Enabling `name` touches only `name` and its transitive dependencies. */
  lemma {:induction false} RecFrame(st: State, name: string, autoDeps: bool, checkDeps: bool, busy: set<string>)
    ensures var out := EnableRec(st, name, autoDeps, checkDeps, busy);
      forall k :: k in st.reg && k != name && !Reaches(Graph(st.reg), name, k) ==> out.state.reg[k] == st.reg[k]
    decreases |st.reg.Keys - busy|, 2, 0
  {
    if name in st.reg && !st.reg[name].enabled && name !in busy && autoDeps {
      var unmet := if checkDeps then CheckDeps(st.reg, name).value.unmet else {};
      if unmet == {} {
        ThenSelfFrame(st, name, busy);
      }
    }
  }

  lemma {:induction false} ThenSelfFrame(st: State, name: string, busy: set<string>)
    requires name in st.reg && !st.reg[name].enabled && name !in busy
    ensures var out := EnableDepsThenSelf(st, name, busy);
      forall k :: k in st.reg && k != name && !Reaches(Graph(st.reg), name, k) ==> out.state.reg[k] == st.reg[k]
    decreases |st.reg.Keys - busy|, 1, 0
  {
    OneFewerOutside(st.reg.Keys, busy, name);
    var deps := st.reg[name].depends;
    DepsFrame(st, deps, busy + {name});
    var mid := EnableDeps(st, deps, busy + {name});
    if mid.result.Ok? {
      var out := Finish(mid.state, name);
      assert EnableDepsThenSelf(st, name, busy) == out;
      FinishFrame(mid.state, name);
      FrameThroughSelf(st.reg, mid.state.reg, out.state.reg, name);
    } else {
      assert EnableDepsThenSelf(st, name, busy) == mid;
      FrameThroughSelf(st.reg, mid.state.reg, mid.state.reg, name);
    }
  }

  /** Finishing changes no plugin but `name`. */
  lemma FinishFrame(st: State, name: string)
    requires name in st.reg
    ensures forall k :: k in st.reg && k != name ==> Finish(st, name).state.reg[k] == st.reg[k]
  {
  }

  /** The dependency loop's frame, followed by a step that changes at most
      `name`, gives the frame of `name`'s whole walk. */
  lemma FrameThroughSelf(r0: Registry, r1: Registry, r2: Registry, name: string)
    requires name in r0 && r1.Keys == r0.Keys && r2.Keys == r1.Keys
    requires forall k :: k in r0 && Beyond(Graph(r0), r0[name].depends, k) ==> r1[k] == r0[k]
    requires forall k :: k in r1 && k != name ==> r2[k] == r1[k]
    ensures forall k :: k in r0 && k != name && !Reaches(Graph(r0), name, k) ==> r2[k] == r0[k]
  {
    OutsideClosureBeyondDeps(Graph(r0), name);
  }

  /** A name outside `name`'s transitive dependencies is outside those of each direct dependency. */
  lemma OutsideClosureBeyondDeps(g: DepGraph, name: string)
    requires name in g
    ensures forall k :: k != name && !Reaches(g, name, k) ==> Beyond(g, g[name], k)
  {
    forall k | k != name && !Reaches(g, name, k)
      ensures Beyond(g, g[name], k)
    {
      forall d | d in g[name]
        ensures d != k && !Reaches(g, d, k)
      {
        if d == k {
          ReachesByEdge(g, name, d);
        }
        if Reaches(g, d, k) {
          ReachesPrepend(g, name, d, k);
        }
      }
    }
  }

  lemma {:induction false} DepsFrame(st: State, deps: seq<string>, busy: set<string>)
    ensures var out := EnableDeps(st, deps, busy);
      forall k :: k in st.reg && Beyond(Graph(st.reg), deps, k) ==> out.state.reg[k] == st.reg[k]
    decreases |st.reg.Keys - busy|, 3, |deps|
  {
    if deps != [] {
      RecFrame(st, deps[0], true, true, busy);
      var first := EnableRec(st, deps[0], true, true, busy);
      if first.result.Ok? {
        DepsFrame(first.state, deps[1..], busy);
        var rest := EnableDeps(first.state, deps[1..], busy);
        assert EnableDeps(st, deps, busy) == rest;
        DepsFrameStep(st.reg, first.state.reg, rest.state.reg, deps);
      }
    }
  }

  /** The frames of the first dependency's walk and of the rest of the loop combine. */
  lemma DepsFrameStep(r0: Registry, r1: Registry, r2: Registry, deps: seq<string>)
    requires deps != [] && r1.Keys == r0.Keys && r2.Keys == r1.Keys && Graph(r1) == Graph(r0)
    requires forall k :: k in r0 && k != deps[0] && !Reaches(Graph(r0), deps[0], k) ==> r1[k] == r0[k]
    requires forall k :: k in r1 && Beyond(Graph(r1), deps[1..], k) ==> r2[k] == r1[k]
    ensures forall k :: k in r0 && Beyond(Graph(r0), deps, k) ==> r2[k] == r0[k]
  {
    assert forall d :: d in deps[1..] ==> d in deps;
  }

  /** The appended events come in pairs: a plugin's own `OnEnable` hook
      immediately followed by the manager's `OnEnablePlugin` for the same name. */
  predicate Paired(evs: seq<Event>)
    decreases |evs|
  {
    evs == [] || (|evs| >= 2 && evs[0].OnEnable? && evs[1] == OnEnablePlugin(evs[0].name) && Paired(evs[2..]))
  }

  lemma {:induction false} PairedAppend(a: seq<Event>, b: seq<Event>)
    requires Paired(a) && Paired(b)
    ensures Paired(a + b)
    decreases |a|
  {
    if a == [] {
      assert a + b == b;
    } else {
      PairedAppend(a[2..], b);
      assert (a + b)[0] == a[0] && (a + b)[1] == a[1];
      assert (a + b)[2..] == a[2..] + b;
    }
  }

  /** In a paired sequence every `OnEnable(k)` is directly followed by `OnEnablePlugin(k)`. */
  lemma {:induction false} PairedFollowed(evs: seq<Event>, i: nat)
    requires Paired(evs) && i < |evs| && evs[i].OnEnable?
    ensures i + 1 < |evs| && evs[i + 1] == OnEnablePlugin(evs[i].name)
    decreases i
  {
    if i >= 2 {
      PairedFollowed(evs[2..], i - 2);
    }
  }

  lemma NewEventsSplit(s1: State, s2: State, s3: State)
    requires s1.trace <= s2.trace <= s3.trace
    ensures NewEvents(s1, s3) == NewEvents(s1, s2) + NewEvents(s2, s3)
  {
  }

  /** Finishing appends no events or exactly one pair. */
  lemma FinishPaired(st: State, name: string)
    requires name in st.reg
    ensures Paired(NewEvents(st, Finish(st, name).state))
  {
    var out := Finish(st, name);
    var last := NewEvents(st, out.state);
    if out.result == Ok(true) {
      assert last == [OnEnable(name), OnEnablePlugin(name)];
      assert Paired(last[2..]);
    } else {
      assert last == [];
    }
  }

  lemma {:induction false} RecPaired(st: State, name: string, autoDeps: bool, checkDeps: bool, busy: set<string>)
    ensures Paired(NewEvents(st, EnableRec(st, name, autoDeps, checkDeps, busy).state))
    decreases |st.reg.Keys - busy|, 2, 0
  {
    var out := EnableRec(st, name, autoDeps, checkDeps, busy);
    if name in st.reg && !st.reg[name].enabled && name !in busy {
      var unmet := if checkDeps then CheckDeps(st.reg, name).value.unmet else {};
      if autoDeps && unmet == {} {
        ThenSelfPaired(st, name, busy);
      } else if !autoDeps && StrictUnmet(st.reg, st.reg[name].depends) == {} {
        FinishPaired(st, name);
      } else {
        assert NewEvents(st, out.state) == [];
      }
    } else {
      assert NewEvents(st, out.state) == [];
    }
  }

  lemma {:induction false} ThenSelfPaired(st: State, name: string, busy: set<string>)
    requires name in st.reg && !st.reg[name].enabled && name !in busy
    ensures Paired(NewEvents(st, EnableDepsThenSelf(st, name, busy).state))
    decreases |st.reg.Keys - busy|, 1, 0
  {
    OneFewerOutside(st.reg.Keys, busy, name);
    var mid := EnableDeps(st, st.reg[name].depends, busy + {name});
    DepsPaired(st, st.reg[name].depends, busy + {name});
    if mid.result.Ok? {
      var out := Finish(mid.state, name);
      assert EnableDepsThenSelf(st, name, busy) == out;
      FinishPaired(mid.state, name);
      NewEventsSplit(st, mid.state, out.state);
      PairedAppend(NewEvents(st, mid.state), NewEvents(mid.state, out.state));
    }
  }

  lemma {:induction false} DepsPaired(st: State, deps: seq<string>, busy: set<string>)
    ensures Paired(NewEvents(st, EnableDeps(st, deps, busy).state))
    decreases |st.reg.Keys - busy|, 3, |deps|
  {
    if deps == [] {
      assert NewEvents(st, st) == [];
    } else {
      RecPaired(st, deps[0], true, true, busy);
      var first := EnableRec(st, deps[0], true, true, busy);
      if first.result.Ok? {
        DepsPaired(first.state, deps[1..], busy);
        var rest := EnableDeps(first.state, deps[1..], busy);
        assert EnableDeps(st, deps, busy) == rest;
        NewEventsSplit(st, first.state, rest.state);
        PairedAppend(NewEvents(st, first.state), NewEvents(first.state, rest.state));
      }
    }
  }

  /** Every hook names a registered plugin, and no plugin's own hook appears
      twice: a plugin fires it only inside its transition (lines 166-168), and
      a call makes each transition at most once. */
  ghost predicate OnceEach(reg: Registry, evs: seq<Event>)
  {
    && (forall e :: e in evs ==> e.name in reg)
    && (forall k :: multiset(evs)[OnEnable(k)] <= 1)
  }

  /** Two steps that each fire every plugin hook at most once do so together:
      a plugin enabled in the first step is no longer disabled in the second. */
  lemma OnceCompose(s1: State, s2: State, s3: State)
    requires Grows(s1, s2) && Grows(s2, s3)
    requires OnceEach(s1.reg, NewEvents(s1, s2)) && OnceEach(s2.reg, NewEvents(s2, s3))
    ensures OnceEach(s1.reg, NewEvents(s1, s3))
  {
    var a, b := NewEvents(s1, s2), NewEvents(s2, s3);
    NewEventsSplit(s1, s2, s3);
    forall k
      ensures multiset(a + b)[OnEnable(k)] <= 1
    {
      if OnEnable(k) in a {
        assert k in s1.reg && s2.reg[k].enabled;
        assert OnEnable(k) !in b;
      }
    }
  }

  lemma FinishOnce(st: State, name: string)
    requires name in st.reg
    ensures OnceEach(st.reg, NewEvents(st, Finish(st, name).state))
  {
    var out := Finish(st, name);
    if out.result == Ok(true) {
      assert NewEvents(st, out.state) == [OnEnable(name), OnEnablePlugin(name)];
    } else {
      assert NewEvents(st, out.state) == [];
    }
  }

  lemma {:induction false} RecOnce(st: State, name: string, autoDeps: bool, checkDeps: bool, busy: set<string>)
    ensures OnceEach(st.reg, NewEvents(st, EnableRec(st, name, autoDeps, checkDeps, busy).state))
    decreases |st.reg.Keys - busy|, 2, 0
  {
    var out := EnableRec(st, name, autoDeps, checkDeps, busy);
    if name in st.reg && !st.reg[name].enabled && name !in busy {
      var unmet := if checkDeps then CheckDeps(st.reg, name).value.unmet else {};
      if autoDeps && unmet == {} {
        ThenSelfOnce(st, name, busy);
      } else if !autoDeps && StrictUnmet(st.reg, st.reg[name].depends) == {} {
        FinishOnce(st, name);
      } else {
        assert NewEvents(st, out.state) == [];
      }
    } else {
      assert NewEvents(st, out.state) == [];
    }
  }

  lemma {:induction false} ThenSelfOnce(st: State, name: string, busy: set<string>)
    requires name in st.reg && !st.reg[name].enabled && name !in busy
    ensures OnceEach(st.reg, NewEvents(st, EnableDepsThenSelf(st, name, busy).state))
    decreases |st.reg.Keys - busy|, 1, 0
  {
    OneFewerOutside(st.reg.Keys, busy, name);
    var mid := EnableDeps(st, st.reg[name].depends, busy + {name});
    DepsOnce(st, st.reg[name].depends, busy + {name});
    if mid.result.Ok? {
      var out := Finish(mid.state, name);
      assert EnableDepsThenSelf(st, name, busy) == out;
      FinishOnce(mid.state, name);
      OnceCompose(st, mid.state, out.state);
    }
  }

  lemma {:induction false} DepsOnce(st: State, deps: seq<string>, busy: set<string>)
    ensures OnceEach(st.reg, NewEvents(st, EnableDeps(st, deps, busy).state))
    decreases |st.reg.Keys - busy|, 3, |deps|
  {
    if deps == [] {
      assert NewEvents(st, st) == [];
    } else {
      RecOnce(st, deps[0], true, true, busy);
      var first := EnableRec(st, deps[0], true, true, busy);
      if first.result.Ok? {
        DepsOnce(first.state, deps[1..], busy);
        var rest := EnableDeps(first.state, deps[1..], busy);
        assert EnableDeps(st, deps, busy) == rest;
        OnceCompose(st, first.state, rest.state);
      }
    }
  }

  /** The walk started with nothing in progress, on the paths that end
      before any dependency is visited. */
  lemma EnableRecTopCases(st: State, name: string, autoDeps: bool, checkDeps: bool, out: Outcome)
    requires out == EnableRec(st, name, autoDeps, checkDeps, {})
    ensures
      && (name !in st.reg ==> out == Outcome(st, Err(PluginError(name, Some(name)))))
      && (name in st.reg && st.reg[name].enabled ==> out == Outcome(st, Ok(false)))
      && (autoDeps && checkDeps && name in st.reg && !st.reg[name].enabled
            && CheckDeps(st.reg, name).value.unmet != {} ==>
            out == Outcome(st, Err(PluginDependencyError(CheckDeps(st.reg, name).value.unmet))))
      && (!autoDeps && name in st.reg && !st.reg[name].enabled ==>
            var unmet := StrictUnmet(st.reg, st.reg[name].depends);
            && (unmet != {} ==> out == Outcome(st, Err(PluginDependencyError(unmet))))
            && (unmet == {} ==> out.result == Ok(true)
                                && out.state.reg == st.reg[name := st.reg[name].(enabled := true)]
                                && out.state.trace == st.trace + [OnEnable(name), OnEnablePlugin(name)]))
  {
  }

  /** The walk's contract with nothing in progress: a normal return enables the
      target, and on a disabled target it is true; a raise leaves it disabled. */
  lemma EnableRecTopResult(st: State, name: string, autoDeps: bool, checkDeps: bool, out: Outcome)
    requires out == EnableRec(st, name, autoDeps, checkDeps, {})
    ensures
      && (out.result.Ok? ==> name in out.state.reg && out.state.reg[name].enabled)
      && (name in st.reg && !st.reg[name].enabled && out.result.Ok? ==> out.result == Ok(true))
      && (name in st.reg && !st.reg[name].enabled && out.result.Err? ==> !out.state.reg[name].enabled)
      && (out.result == Ok(true) ==>
            && name in st.reg && !st.reg[name].enabled
            && EndsWithEnable(out.state.trace, name)
            && (forall d :: d in st.reg[name].depends && d in st.reg ==> out.state.reg[d].enabled)
            && (autoDeps ==> forall d :: d in st.reg[name].depends ==> d in st.reg))
  {
  }

  /** `enable_plugin(name, auto_deps, check_deps)` on a registry. */
  function EnablePlugin(st: State, name: string, autoDeps: bool, checkDeps: bool): (out: Outcome)
    // only flags are switched on, and only enable hooks fire, for exactly the newly enabled plugins
    ensures Grows(st, out.state)
    // lookup failure (lines 103-106): PluginError naming the plugin, nothing changes
    ensures name !in st.reg ==> out == Outcome(st, Err(PluginError(name, Some(name))))
    // already enabled (lines 108-109): false, nothing changes, no hook fires
    ensures name in st.reg && st.reg[name].enabled ==> out == Outcome(st, Ok(false))
    // unmet dependencies found by check_deps (lines 111-115): raised with exactly that set, nothing changes
    ensures autoDeps && checkDeps && name in st.reg && !st.reg[name].enabled
              && CheckDeps(st.reg, name).value.unmet != {} ==>
              out == Outcome(st, Err(PluginDependencyError(CheckDeps(st.reg, name).value.unmet)))
    // strict mode (lines 118-121): a registered but disabled dependency is refused and nothing
    // changes; otherwise only the target's flag changes
    ensures !autoDeps && name in st.reg && !st.reg[name].enabled ==>
              var unmet := StrictUnmet(st.reg, st.reg[name].depends);
              && (unmet != {} ==> out == Outcome(st, Err(PluginDependencyError(unmet))))
              && (unmet == {} ==> out.result == Ok(true)
                                  && out.state.reg == st.reg[name := st.reg[name].(enabled := true)]
                                  && out.state.trace == st.trace + [OnEnable(name), OnEnablePlugin(name)])
    // a normal return leaves the plugin enabled
    ensures out.result.Ok? ==> name in out.state.reg && out.state.reg[name].enabled
    // "True if a plugin was enabled" (lines 96, 123-126): a normal return on a disabled target is true
    ensures name in st.reg && !st.reg[name].enabled && out.result.Ok? ==> out.result == Ok(true)
    // the target is enabled only at line 123, after the dependency loop: a raise leaves it disabled
    ensures name in st.reg && !st.reg[name].enabled && out.result.Err? ==> !out.state.reg[name].enabled
    // only the target and its transitive dependencies (lines 116-117) can change
    ensures forall k :: k in st.reg && k != name && !Reaches(Graph(st.reg), name, k) ==> out.state.reg[k] == st.reg[k]
    // each plugin's own hook is immediately followed by the manager's for the same plugin
    ensures Paired(NewEvents(st, out.state))
    // and fires for each plugin at most once
    ensures OnceEach(st.reg, NewEvents(st, out.state))
    // a true return: the target's hooks come last, after every registered dependency was enabled
    ensures out.result == Ok(true) ==>
              && name in st.reg && !st.reg[name].enabled
              && EndsWithEnable(out.state.trace, name)
              && (forall d :: d in st.reg[name].depends && d in st.reg ==> out.state.reg[d].enabled)
              && (autoDeps ==> forall d :: d in st.reg[name].depends ==> d in st.reg)
  {
    var out := EnableRec(st, name, autoDeps, checkDeps, {});
    EnableRecTopCases(st, name, autoDeps, checkDeps, out);
    EnableRecTopResult(st, name, autoDeps, checkDeps, out);
    RecFrame(st, name, autoDeps, checkDeps, {});
    RecPaired(st, name, autoDeps, checkDeps, {});
    RecOnce(st, name, autoDeps, checkDeps, {});
    out
  }

  /** `disable_plugin(name)`: no dependency handling and no cascade. */
  function DisablePlugin(st: State, name: string): (out: Outcome)
    // lookup failure (lines 139-142): PluginError whose `plugin` is None (lines 26-28)
    ensures name !in st.reg ==> out == Outcome(st, Err(PluginError(name, None)))
    // true exactly when the plugin was enabled
    ensures name in st.reg ==> out.result == Ok(st.reg[name].enabled)
    // only the target's flag changes; plugins depending on it stay enabled
    ensures name in st.reg ==> out.state.reg == st.reg[name := st.reg[name].(enabled := false)]
    // the plugin's own hook, then the manager's, and only on a transition
    ensures out.result == Ok(true) ==> out.state.trace == st.trace + [OnDisable(name), OnDisablePlugin(name)]
    ensures out.result != Ok(true) ==> out.state.trace == st.trace
  {
    if name !in st.reg then Outcome(st, Err(PluginError(name, None)))
    else
      var t := Disable(st.reg[name]);
      if t.changed then
        Outcome(State(st.reg[name := t.plugin], st.trace + [OnDisable(name), OnDisablePlugin(name)]), Ok(true))
      else
        Outcome(st, Ok(false))
  }
}
