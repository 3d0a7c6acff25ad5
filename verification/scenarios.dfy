/**
 * Small registries on which the general properties are seen at work,
 * including the two behaviours callers can find surprising: no rollback, and
 * no re-walk below an already-enabled dependency.
 */
module Scenarios {
  import opened Results
  import opened Plugins
  import opened Registry
  import opened Deps
  import opened Manager
  import opened ManagerProofs

  // One-step unfoldings of the enable walk, used to follow it on the registries below.

  lemma PluginIsWalk(st: State, name: string, autoDeps: bool, checkDeps: bool)
    ensures EnablePlugin(st, name, autoDeps, checkDeps) == EnableRec(st, name, autoDeps, checkDeps, {})
  {
  }

  lemma RecWalks(st: State, name: string, checkDeps: bool, busy: set<string>)
    requires name in st.reg && !st.reg[name].enabled && name !in busy
    requires checkDeps ==> CheckDeps(st.reg, name).value.unmet == {}
    ensures EnableRec(st, name, true, checkDeps, busy) == EnableDepsThenSelf(st, name, busy)
  {
  }

  lemma ThenSelfUnfold(st: State, name: string, busy: set<string>)
    requires name in st.reg && !st.reg[name].enabled && name !in busy
    ensures var mid := EnableDeps(st, st.reg[name].depends, busy + {name});
      EnableDepsThenSelf(st, name, busy) == if mid.result.Err? then mid else Finish(mid.state, name)
  {
  }

  lemma DepsNil(st: State, busy: set<string>)
    ensures EnableDeps(st, [], busy) == Outcome(st, Ok(true))
  {
  }

  /** A loop over a single dependency ends where that dependency's walk does. */
  lemma DepsSingle(st: State, d: string, busy: set<string>, s1: State)
    requires EnableRec(st, d, true, true, busy) == Outcome(s1, Ok(true))
    ensures EnableDeps(st, [d], busy) == Outcome(s1, Ok(true))
  {
    assert [d][1..] == [];
  }

  lemma DepsCons(st: State, deps: seq<string>, busy: set<string>)
    requires deps != []
    ensures var first := EnableRec(st, deps[0], true, true, busy);
      EnableDeps(st, deps, busy) == if first.result.Err? then first else EnableDeps(first.state, deps[1..], busy)
  {
  }

  /** P depends on X, which is not registered: check_deps reports X unmet, and
      enable_plugin raises PluginDependencyError({X}) and leaves P disabled. */
  lemma MissingDependencyRejected(st: State, p: string, x: string)
    requires st.reg == map[p := Plugin(false, [x])] && p != x
    ensures CheckDeps(st.reg, p) == Some(DepSets({}, {x}))
    ensures EnablePlugin(st, p, true, true) == Outcome(st, Err(PluginDependencyError({x})))
  {
    ReachesByEdge(Graph(st.reg), p, x);
    ReachableInsideClosed(Graph(st.reg), p, {x});
    var r := CheckDeps(st.reg, p).value;
    assert r.unmet == {x};
    assert r.met == {};
  }

  /** P and Q depend on each other: check_deps terminates with both met. */
  lemma CycleCheckDeps(reg: Registry, p: string, q: string)
    requires reg == map[p := Plugin(false, [q]), q := Plugin(false, [p])] && p != q
    ensures CheckDeps(reg, p) == Some(DepSets({p, q}, {}))
    ensures CheckDeps(reg, q).value.unmet == {}
  {
    var g := Graph(reg);
    ReachesByEdge(g, p, q);
    ReachesThroughDeps(g, p, q);
    assert p in g[q];
    assert Reaches(g, p, p);
    ReachableInsideClosed(Graph(reg), p, {p, q});
    ReachableInsideClosed(Graph(reg), q, {p, q});
    var r := CheckDeps(reg, p).value;
    assert r.unmet == {};
    assert r.met == {p, q};
  }

  /** Inside the walk from P: Q's own walk finds P in progress and stops, then Q is enabled. */
  lemma CycleInnerStep(st: State, p: string, q: string)
    requires p in st.reg && q in st.reg && st.reg[q] == Plugin(false, [p]) && p != q
    requires CheckDeps(st.reg, q).value.unmet == {}
    ensures EnableDeps(st, [q], {p}) ==
      Outcome(State(st.reg[q := Plugin(true, [p])], st.trace + [OnEnable(q), OnEnablePlugin(q)]), Ok(true))
  {
    CycleQWalk(st, p, q);
    FinishFresh(st, q);
    var afterQ := State(st.reg[q := Plugin(true, [p])], st.trace + [OnEnable(q), OnEnablePlugin(q)]);
    DepsSingle(st, q, {p}, afterQ);
  }

  /** Q's walk inside P's: P is in progress, so Q's dependency loop does nothing. */
  lemma CycleQWalk(st: State, p: string, q: string)
    requires p in st.reg && q in st.reg && st.reg[q] == Plugin(false, [p]) && p != q
    requires CheckDeps(st.reg, q).value.unmet == {}
    ensures EnableRec(st, q, true, true, {p}) == Finish(st, q)
  {
    assert {p} + {q} == {p, q};
    EnabledDepsNoop(st, [p], {p, q});
    ThenSelfUnfold(st, q, {p});
    RecWalks(st, q, true, {p});
  }

  /** P and Q depend on each other: enabling P enables Q first, then P. */
  lemma CycleEnabled(st: State, p: string, q: string)
    requires st.reg == map[p := Plugin(false, [q]), q := Plugin(false, [p])] && p != q
    ensures EnablePlugin(st, p, true, true) ==
      Outcome(State(st.reg[q := Plugin(true, [p])][p := Plugin(true, [q])],
                    st.trace + [OnEnable(q), OnEnablePlugin(q), OnEnable(p), OnEnablePlugin(p)]),
              Ok(true))
  {
    CycleCheckDeps(st.reg, p, q);
    RecWalks(st, p, true, {});
    CycleThenSelf(st, p, q);
    PluginIsWalk(st, p, true, true);
  }

  lemma CycleThenSelf(st: State, p: string, q: string)
    requires p in st.reg && st.reg[p] == Plugin(false, [q])
    requires q in st.reg && st.reg[q] == Plugin(false, [p]) && p != q
    requires CheckDeps(st.reg, q).value.unmet == {}
    ensures EnableDepsThenSelf(st, p, {}) ==
      Outcome(State(st.reg[q := Plugin(true, [p])][p := Plugin(true, [q])],
                    st.trace + [OnEnable(q), OnEnablePlugin(q), OnEnable(p), OnEnablePlugin(p)]),
              Ok(true))
  {
    CycleInnerStep(st, p, q);
    var none: set<string> := {};
    assert none + {p} == {p};
    assert st.reg[p].depends == [q];
    var mid := EnableDeps(st, [q], {p});
    ThenSelfUnfold(st, p, {});
    var afterQ := State(st.reg[q := Plugin(true, [p])], st.trace + [OnEnable(q), OnEnablePlugin(q)]);
    assert mid.state == afterQ;
    FinishFresh(afterQ, p);
    assert afterQ.reg[p].(enabled := true) == Plugin(true, [q]);
    AppendTwice(st.trace, OnEnable(q), OnEnablePlugin(q), OnEnable(p), OnEnablePlugin(p));
  }

  lemma AppendTwice(t: seq<Event>, a: Event, b: Event, c: Event, d: Event)
    ensures t + [a, b] + [c, d] == t + [a, b, c, d]
  {
  }

  lemma FinishFresh(s: State, name: string)
    requires name in s.reg && !s.reg[name].enabled
    ensures Finish(s, name) ==
      Outcome(State(s.reg[name := s.reg[name].(enabled := true)], s.trace + [OnEnable(name), OnEnablePlugin(name)]), Ok(true))
  {
  }

  /** E is a transitive dependency of P through D, and nothing P reaches is missing. */
  lemma StaleChainGraph(reg: Registry, p: string, d: string, e: string)
    requires reg == map[p := Plugin(false, [d]), d := Plugin(true, [e]), e := Plugin(false, [])]
    requires p != d && d != e && p != e
    ensures Reaches(Graph(reg), p, e)
    ensures CheckDeps(reg, p).value.unmet == {}
  {
    var g := Graph(reg);
    ReachesByEdge(g, p, d);
    ReachesThroughDeps(g, p, d);
    assert e in g[d];
    ReachableInsideClosed(Graph(reg), p, {d, e});
  }

  /** D was enabled while its own dependency E was not: enabling P, which
      depends on D, does not look below D, so E stays disabled although P
      transitively depends on it (see `StaleChainGraph`). */
  lemma EnabledDependencyNotRevisited(st: State, p: string, d: string, e: string)
    requires st.reg == map[p := Plugin(false, [d]), d := Plugin(true, [e]), e := Plugin(false, [])]
    requires p != d && d != e && p != e
    ensures EnablePlugin(st, p, true, true) ==
      Outcome(State(st.reg[p := Plugin(true, [d])], st.trace + [OnEnable(p), OnEnablePlugin(p)]), Ok(true))
  {
    StaleChainGraph(st.reg, p, d, e);
    RecWalks(st, p, true, {});
    StaleThenSelf(st, p, d, e);
    PluginIsWalk(st, p, true, true);
  }

  lemma StaleThenSelf(st: State, p: string, d: string, e: string)
    requires p in st.reg && st.reg[p] == Plugin(false, [d])
    requires d in st.reg && st.reg[d].enabled && p != d
    ensures EnableDepsThenSelf(st, p, {}) ==
      Outcome(State(st.reg[p := Plugin(true, [d])], st.trace + [OnEnable(p), OnEnablePlugin(p)]), Ok(true))
  {
    ThenSelfUnfold(st, p, {});
    StaleDependencyStops(st, p, d, e);
    var none: set<string> := {};
    assert none + {p} == {p};
    FinishFresh(st, p);
  }

  /** P's dependency loop meets the enabled D and returns at once. */
  lemma StaleDependencyStops(st: State, p: string, d: string, e: string)
    requires p in st.reg && st.reg[p] == Plugin(false, [d])
    requires d in st.reg && st.reg[d].enabled && p != d
    ensures EnableDeps(st, [d], {p}) == Outcome(st, Ok(true))
  {
    EnabledDepsNoop(st, [d], {p});
  }

  /** The first dependency A of the call below has no dependencies and is simply enabled. */
  lemma NoRollbackFirst(st: State, p: string, a: string, x: string)
    requires a in st.reg && st.reg[a] == Plugin(false, []) && x !in st.reg && p != a
    ensures EnableRec(st, a, true, true, {p}) ==
      Outcome(State(st.reg[a := Plugin(true, [])], st.trace + [OnEnable(a), OnEnablePlugin(a)]), Ok(true))
  {
    ReachableInsideClosed(Graph(st.reg), a, {});
    assert CheckDeps(st.reg, a).value.unmet == {};
    assert {p} + {a} == {p, a};
    DepsNil(st, {p, a});
    ThenSelfUnfold(st, a, {p});
    RecWalks(st, a, true, {p});
  }

  /** The dependency loop of the call below: A is enabled, then X is looked up and missing. */
  lemma NoRollbackDeps(st: State, p: string, a: string, x: string)
    requires a in st.reg && st.reg[a] == Plugin(false, []) && x !in st.reg && p != a
    ensures EnableDeps(st, [a, x], {p}) ==
      Outcome(State(st.reg[a := Plugin(true, [])], st.trace + [OnEnable(a), OnEnablePlugin(a)]),
              Err(PluginError(x, Some(x))))
  {
    NoRollbackFirst(st, p, a, x);
    var afterA := State(st.reg[a := Plugin(true, [])], st.trace + [OnEnable(a), OnEnablePlugin(a)]);
    SecondMissing(st, a, x, {p}, afterA);
  }

  /** A loop over two dependencies whose first is enabled and whose second is absent. */
  lemma SecondMissing(st: State, a: string, x: string, busy: set<string>, s1: State)
    requires EnableRec(st, a, true, true, busy) == Outcome(s1, Ok(true)) && x !in s1.reg
    ensures EnableDeps(st, [a, x], busy) == Outcome(s1, Err(PluginError(x, Some(x))))
  {
    DepsAfterFirst(st, [a, x], busy, s1);
    assert [a, x][1..] == [x];
    MissingStops(s1, x, busy);
  }

  /** Once the first dependency is enabled, the loop continues with the rest. */
  lemma DepsAfterFirst(st: State, deps: seq<string>, busy: set<string>, s1: State)
    requires deps != [] && EnableRec(st, deps[0], true, true, busy) == Outcome(s1, Ok(true))
    ensures EnableDeps(st, deps, busy) == EnableDeps(s1, deps[1..], busy)
  {
  }

  /** A dependency list holding only an absent name raises PluginError for it. */
  lemma MissingStops(s: State, x: string, busy: set<string>)
    requires x !in s.reg
    ensures EnableDeps(s, [x], busy) == Outcome(s, Err(PluginError(x, Some(x))))
  {
    assert EnableRec(s, x, true, true, busy) == Outcome(s, Err(PluginError(x, Some(x))));
    DepsCons(s, [x], busy);
  }

  /** With check_deps off, the missing second dependency X is only found when
      the walk reaches it: A stays enabled and its hooks have fired, but the
      call raises PluginError for X. */
  lemma NoRollbackWithoutCheck(st: State, p: string, a: string, x: string)
    requires st.reg == map[p := Plugin(false, [a, x]), a := Plugin(false, [])]
    requires p != a && a != x && p != x
    ensures EnablePlugin(st, p, true, false) ==
      Outcome(State(st.reg[a := Plugin(true, [])], st.trace + [OnEnable(a), OnEnablePlugin(a)]),
              Err(PluginError(x, Some(x))))
  {
    NoRollbackThenSelf(st, p, a, x);
    RecWalks(st, p, false, {});
    PluginIsWalk(st, p, true, false);
  }

  lemma NoRollbackThenSelf(st: State, p: string, a: string, x: string)
    requires st.reg == map[p := Plugin(false, [a, x]), a := Plugin(false, [])]
    requires p != a && a != x && p != x
    ensures EnableDepsThenSelf(st, p, {}) ==
      Outcome(State(st.reg[a := Plugin(true, [])], st.trace + [OnEnable(a), OnEnablePlugin(a)]),
              Err(PluginError(x, Some(x))))
  {
    var none: set<string> := {};
    assert none + {p} == {p};
    NoRollbackDeps(st, p, a, x);
    ThenSelfUnfold(st, p, {});
  }

  /** Strict mode only refuses registered dependencies that are disabled: an
      absent dependency does not stop P from being enabled. */
  lemma StrictModeIgnoresAbsentDependency(st: State, p: string, x: string)
    requires st.reg == map[p := Plugin(false, [x])] && p != x
    ensures EnablePlugin(st, p, false, true) ==
      Outcome(State(map[p := Plugin(true, [x])], st.trace + [OnEnable(p), OnEnablePlugin(p)]), Ok(true))
  {
    assert StrictUnmet(st.reg, [x]) == {};
    assert st.reg[p := st.reg[p].(enabled := true)] == map[p := Plugin(true, [x])];
  }
}
