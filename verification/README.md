# plugin_framework in Dafny

A model of the plugin registry of `plugin_framework.py`. The `PluginManager` maps
plugin names to plugins. Each plugin has an `enabled` flag and a `depends` list
naming other plugins, and some of those names may not be registered. The model
covers four parts:

- the per-plugin state machine (`Plugin.enable` / `Plugin.disable`);
- the derived `enabled_plugins` / `disabled_plugins` views;
- the dependency resolver `check_deps`;
- the manager operations `enable_plugin` and `disable_plugin`.

The registry is an immutable `map<string, Plugin>`. Every operation is a pure
function returning an `Outcome`, which holds the new registry, the lifecycle
hooks fired as an appended event trace, and either the returned `bool` or the
raised error (`PluginError` or `PluginDependencyError`). Python raises
exceptions and does no rollback. So an `Err` outcome carries the registry as it
stood when the exception was raised, including any dependencies already enabled.

Modules:

- `Results`: `Option` and `Result`.
- `Plugins`: the plugin state and its two transitions.
- `Registry`: the registry, its views, and the dependency graph with reachability.
- `Deps`: `check_deps`.
- `Manager`: `enable_plugin` and `disable_plugin`.
- `ManagerProofs`: lemmas that relate several calls or need induction over the walk.
- `Scenarios`: small registries that show the behaviour on cycles, missing names and partial failure.
- `AsWritten`: the code as written, wherever it breaks the behaviour its docstrings promise.

Design choices where the code does not run as its docstrings describe:

- `check_deps` is modelled as the closure its docstring promises: a depth-first
  walk in which `met` and `unmet` also serve as the visited set. Its result is
  exactly the set of names reachable from the target through one or more
  `depends` edges. Registered names go to `met` and absent ones to `unmet`.
- Strict mode (`auto_deps` off) is the intersection of the disabled names with
  the dependencies. An absent dependency therefore never blocks strict mode.
- The manager hooks are the defined `on_enable_plugin` / `on_disable_plugin`.
- Once `check_deps` is corrected, the auto-deps recursion (lines 116-117)
  would never end on a dependency cycle, because it does not mark its target
  before recursing. As written, the recursive call leaves `check_deps` at its
  default, true, so each step runs the written `check_deps`. That raises
  TypeError for any plugin with a dependency, and every plugin on a cycle has
  one, so as written a cycle ends in TypeError. The model threads a set of
  names whose enabling is in progress (`busy`). A dependency found in that set
  is skipped, as if the call had returned false, which makes the walk finish
  on a cyclic graph. On an acyclic graph every name in `busy` is an ancestor
  of the current one and so cannot be one of its dependencies, which means the
  skip never fires. That is an argument, not a lemma of the model.
- Hook order follows lines 123-124 and 168. `Plugin.enable` fires the plugin's
  own `on_enable` inside the transition, and only afterwards does the manager
  call its hook. So the trace holds `OnEnable(n)` and then `OnEnablePlugin(n)`.
  Disabling is the mirror image. The initial pass in `reload_plugins`
  (lines 56-58) is left out. It calls `plugin.on_enable_plugin(plugin)` on the
  plugin object, which raises AttributeError, since `Plugin` defines no
  `on_enable_plugin` (lines 160-190), so neither hook runs there.
- The recursive call at line 117 passes only `auto_deps`. Dependencies are
  therefore enabled with `check_deps` at its default, true, whatever the
  caller asked for.
- `disable_plugin` raises `PluginError` with only a message (line 142), so its
  `plugin` attribute takes the constructor's default, None (lines 26-28).
  `enable_plugin` passes the name (line 106). `PluginError` therefore holds the
  name the message reports and an `Option` for the attribute, with `None` for
  Python's None.

## Model

| member | source | states |
|---|---|---|
| `Plugins.Enable` | plugin_framework.py:164-170 | the plugin ends enabled; a transition is reported exactly when it was disabled; the dependencies never change, and nothing changes when there is no transition |
| `Plugins.Disable` | plugin_framework.py:172-178 | the mirror image: ends disabled; a transition is reported exactly when it was enabled; otherwise unchanged |
| `Plugins.TransitionsIdempotentAndInverse` | plugin_framework.py:164-178 | a second enable (or disable) reports no transition and changes nothing; enable then disable on a disabled plugin (and the converse) restores it |
| `Registry.EnabledPlugins` | plugin_framework.py:60-63 | holds exactly the registered names whose flag is set, with their plugins unchanged |
| `Registry.DisabledPlugins` | plugin_framework.py:65-68 | holds exactly the registered names whose flag is clear, with their plugins unchanged |
| `Registry.ViewsPartition` | plugin_framework.py:60-68 | the two views are disjoint, their keys together are the registry's keys, and their union is the registry |
| `Deps.Walk` | plugin_framework.py:77-86 | the walk only grows `met` and `unmet`; everything it records is reachable from the root; `met` is registered and `unmet` is not; every pending name ends classified; every met name's dependencies end classified |
| `Deps.CheckDeps` | plugin_framework.py:70-86 | fails exactly for an unregistered target; otherwise `met` is within the registry, `unmet` is disjoint from it, and a name is in one of them if and only if the target reaches it through `depends` edges; this holds on every graph, cycles and dangling names included |
| `Manager.StrictUnmet` | plugin_framework.py:118-119 | a name is reported exactly when it is a dependency that is registered and disabled |
| `Manager.Finish` | plugin_framework.py:123-125 | returns true exactly when the plugin was disabled; then only its flag changes, and its own hook followed by the manager hook are appended; otherwise nothing changes |
| `Manager.EnableRec` | plugin_framework.py:88-126 | only flags are switched on, only enable hooks are appended, and an `OnEnable` event is appended exactly for each plugin newly enabled; a normal return means the name is registered and, unless its enabling is in progress, enabled, and on a disabled target that is not in progress the return is true; a raise leaves a disabled target disabled; plugins in progress that were disabled stay disabled; a true return means the target was disabled, its hooks come last, and its registered dependencies are enabled or in progress (auto-deps: all registered) |
| `Manager.EnableDepsThenSelf` | plugin_framework.py:116-125 | a normal return is true and leaves the target enabled; a raise from the dependency loop leaves the target disabled, since its flag is only set after the loop; a true return ends with the target's hooks, after all its dependencies are registered and enabled or in progress |
| `Manager.EnableDeps` | plugin_framework.py:116-117 | a normal return means every dependency in the list is registered and enabled or in progress; only enabling happens on the way |
| `Manager.EnablePlugin` | plugin_framework.py:88-126 | an unknown name raises PluginError naming it and changes nothing; an enabled plugin returns false with no change and no hook; with auto_deps and check_deps, a non-empty unmet set is raised as PluginDependencyError carrying exactly that set, with no change; strict mode raises with the disabled dependencies and no change, otherwise changes only the target; a normal return leaves the target enabled, and on a disabled target it is true, so the return is true exactly when the call enabled the target; a raise leaves a disabled target disabled; only the target and its transitive dependencies can change; every new plugin hook is followed by the manager hook for the same plugin; every appended hook names a registered plugin, and no plugin's own hook fires twice; a true return ends with the target's two hooks, and its registered dependencies are enabled |
| `Manager.RecFrame` | plugin_framework.py:116-117 | the walk from a name leaves every plugin that is neither that name nor one of its transitive dependencies exactly as it was |
| `Manager.DepsFrame` | plugin_framework.py:116-117 | the loop over a dependency list leaves every plugin outside those dependencies and their transitive dependencies exactly as it was |
| `Manager.RecPaired` | plugin_framework.py:116-124 | the events a walk appends are pairs: a plugin's `OnEnable` directly followed by the manager's `OnEnablePlugin` for the same plugin |
| `Manager.RecOnce` | plugin_framework.py:116-125 | the events a walk appends name registered plugins only, and no plugin's `OnEnable` appears among them twice |
| `Manager.OnceCompose` | plugin_framework.py:116-117 | two successive enabling steps that each fire a plugin's hook at most once do so together, because a plugin enabled by the first is no longer disabled in the second |
| `ManagerProofs.EnableHooksAdjacent` | plugin_framework.py:123-124 | every `OnEnable` hook fired by enable_plugin is directly followed by `OnEnablePlugin` for the same plugin |
| `Manager.DisablePlugin` | plugin_framework.py:128-146 | an unknown name raises PluginError whose `plugin` attribute is None and changes nothing; returns true exactly when the plugin was enabled; only the target's flag changes, so the plugins that depend on it stay enabled; the two disable hooks are appended exactly on a transition |
| `ManagerProofs.NoUnmetIffResolvable` | plugin_framework.py:111-115 | check_deps reports nothing unmet if and only if every name the target transitively depends on is registered |
| `ManagerProofs.CheckedRecSucceeds` | plugin_framework.py:111-117 | a checked auto-deps enable of a plugin whose transitive dependencies are all registered never raises, at any depth of the walk |
| `ManagerProofs.CheckedEnableIsAtomic` | plugin_framework.py:103-117 | with auto_deps and check_deps on, enable either returns normally or raises with nothing changed: PluginError for an unknown name, or PluginDependencyError with check_deps' unmet set, which is then non-empty |
| `ManagerProofs.ResolvableEnableSucceeds` | plugin_framework.py:98-117 | with auto_deps on, whether check_deps runs or not, enabling a plugin whose transitive dependencies are all registered never raises |
| `ManagerProofs.CheckedRaisesIffUnresolvable` | plugin_framework.py:98-117 | with auto_deps and check_deps on, enable raises exactly when the name is unknown, or the plugin is disabled and some transitive dependency is not registered |
| `ManagerProofs.EnableIdempotent` | plugin_framework.py:108-109 | after a normal enable, enabling again in any mode returns false, changes nothing and fires no hook |
| `ManagerProofs.DisableIdempotent` | plugin_framework.py:143-146 | disabling a registered plugin twice: the second call returns false, changes nothing and fires no hook |
| `ManagerProofs.RecKeepsClosed` | plugin_framework.py:116-125 | an auto-deps walk that returns normally keeps the invariant that every enabled plugin's dependencies are enabled, apart from names in progress |
| `ManagerProofs.AutoDepsEnablesClosure` | plugin_framework.py:111-125 | if every enabled plugin's dependencies were enabled before the call, a normal auto-deps enable keeps that so, and leaves the target and every name it transitively depends on registered and enabled |
| `ManagerProofs.DependenciesEnabledFirst` | plugin_framework.py:116-125 | after a true return, every direct dependency that the call enabled fired its `OnEnable` before the target's |
| `ManagerProofs.TransitiveDependenciesEnabledFirst` | plugin_framework.py:116-125 | on a dependency-closed registry, every transitive dependency that was disabled fires its `OnEnable` before the target's, even on cyclic graphs |
| `ManagerProofs.EnabledDepsNoop` | plugin_framework.py:108-117 | the dependency loop over names that are all registered and either enabled or in progress returns normally and changes nothing, not even the trace |
| `ManagerProofs.EnableWithDepsEnabled` | plugin_framework.py:111-125 | on a dependency-closed registry, a plugin whose dependencies are all enabled is enabled alone in every mode, with exactly its two hooks |
| `ManagerProofs.EnableDisableRoundTrip` | plugin_framework.py:123-146 | in that situation, enable then disable returns true twice and restores the registry, appending exactly the four hooks |
| `Scenarios.MissingDependencyRejected` | plugin_framework.py:111-115 | P depends on an absent X: check_deps gives met {} and unmet {X}, and enable raises PluginDependencyError({X}) with P still disabled |
| `Scenarios.CycleCheckDeps` | plugin_framework.py:70-86 | P and Q depend on each other: check_deps ends with met {P, Q} and unmet {} |
| `Scenarios.CycleEnabled` | plugin_framework.py:111-125 | on that cycle, enabling P enables Q first and then P, and fires Q's hooks before P's |
| `Scenarios.EnabledDependencyNotRevisited` | plugin_framework.py:108-117 | P depends on D, which is enabled, and D depends on E, which is disabled: enabling P changes only P, so E, a transitive dependency, stays disabled |
| `Scenarios.NoRollbackWithoutCheck` | plugin_framework.py:111-117 | with check_deps off, P depends on A and then on an absent X: A stays enabled with its hooks fired, and the call raises PluginError for X |
| `Scenarios.StrictModeIgnoresAbsentDependency` | plugin_framework.py:118-125 | in strict mode, a dependency that is not registered does not stop the plugin from being enabled |
| `AsWritten.CheckDepsAsWritten` | plugin_framework.py:75-86 | as written: an unknown target raises KeyError; a target with any dependency raises TypeError; otherwise both sets are empty |
| `AsWritten.CheckDepsAsWrittenRaises` | plugin_framework.py:80-84 | for every plugin with a dependency, the written check_deps raises, while the intended walk classifies that dependency |
| `AsWritten.EnableStrictAsWritten` | plugin_framework.py:103-121 | as written, strict mode raises AttributeError for every registered disabled plugin |
| `AsWritten.StrictAsWrittenRaises` | plugin_framework.py:118-121 | a disabled plugin without dependencies: strict mode as written raises, and the intended model enables it |
| `AsWritten.FinishAsWritten` | plugin_framework.py:123-126 | as written, enabling a disabled plugin sets its flag and fires its own hook, then raises AttributeError |
| `AsWritten.EnableHookAsWrittenRaises` | plugin_framework.py:123-125 | that enable raises with the plugin left enabled and the manager hook never fired, while the intended step returns true after both hooks |
| `AsWritten.DisablePluginAsWritten` | plugin_framework.py:139-146 | as written, disabling an enabled plugin clears its flag and fires its own hook, then raises AttributeError; the other cases match the intended operation |
| `AsWritten.DisableHookAsWrittenRaises` | plugin_framework.py:143-145 | that disable raises with the flag already cleared, while the intended operation returns true after both hooks |

## Left out

- `reload_plugins` (plugin_framework.py:38-58) is left out: module scanning, class reflection, construction, the load hooks and the initial enable pass. It is discovery and foreign runtime machinery, so the registry is taken as a given map.
- Hook bodies are left out. They are opaque user code. Each call is a trace event, and the model treats hooks as never raising.
- Exception messages and string joining are left out. Only the error kind and its payload are kept.
- Name-versus-instance dispatch (`type(plugin) is str`) is left out, and so is `PluginManager` being a `dict`. Every argument is a name.
- setup.py is packaging metadata only.
- `ManagerProofs.AutoDepsEnablesClosure` promises that all transitive dependencies end enabled only on a registry where every enabled plugin's dependencies are already enabled. The walk does not look below a dependency that is already enabled, and `Scenarios.EnabledDependencyNotRevisited` shows that without this assumption the property is false.
- `ManagerProofs.TransitiveDependenciesEnabledFirst` needs the same assumption, for the same reason. Without it, only direct dependencies are ordered (`ManagerProofs.DependenciesEnabledFirst`).
- `Manager.EnableRec` models the recursion that, once `check_deps` is corrected, does not terminate on a dependency cycle with the in-progress set described above, so there is no behaviour for an infinite recursion or a Python recursion-depth error.

## Findings

| source | as written | input that shows it | evidently intended | confidence | as-written member | corrected member |
|---|---|---|---|---|---|---|
| plugin_framework.py:82-84 | `self.check_deps(self, p)` passes an extra argument and raises TypeError; the `union` results are discarded, so nothing is ever added to `met` or `unmet` | a registered plugin P with `depends = ["X"]` | a cycle-safe walk returning the reachable names split into registered and absent | high (not executed) | `AsWritten.CheckDepsAsWrittenRaises` (on `AsWritten.CheckDepsAsWritten`) | `Deps.CheckDeps` |
| plugin_framework.py:119 | `set(...).intersect(...)`: Python sets have no `intersect`, so AttributeError is raised | `enable_plugin("P", auto_deps=False)` on a disabled P with no dependencies | the intersection of the disabled names with the dependencies | high (not executed) | `AsWritten.StrictAsWrittenRaises` (on `AsWritten.EnableStrictAsWritten`) | `Manager.EnablePlugin` |
| plugin_framework.py:124 | `self.on_enable(plugin)`: the manager defines `on_enable_plugin`, so AttributeError is raised after the flag is set | `enable_plugin("P")` on a disabled P with no dependencies | call `on_enable_plugin` and return true | high (not executed) | `AsWritten.EnableHookAsWrittenRaises` (on `AsWritten.FinishAsWritten`) | `Manager.EnablePlugin` |
| plugin_framework.py:144 | `self.on_disable(plugin)`: the manager defines `on_disable_plugin`, so AttributeError is raised after the flag is cleared | `disable_plugin("P")` on an enabled P | call `on_disable_plugin` and return true | high (not executed) | `AsWritten.DisableHookAsWrittenRaises` (on `AsWritten.DisablePluginAsWritten`) | `Manager.DisablePlugin` |
