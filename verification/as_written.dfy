/**
 * The code of plugin_framework.py as it is written, where it departs from
 * what its docstrings promise, each next to a lemma that exhibits the
 * difference from the intended behaviour modelled in `Deps` and `Manager`.
 */
module AsWritten {
  import opened Results
  import opened Plugins
  import opened Registry
  import opened Deps
  import opened Manager

  /** What the code as written can raise: Python's own errors, or one of the
      framework's. */
  datatype PyError =
    | TypeError
    | AttributeError
    | KeyError
    | Framework(error: Error)

  /** A state together with what was returned or raised. */
  datatype Run = Run(state: State, result: Result<bool, PyError>)

  /** `check_deps` as written (lines 75-86): `met` starts empty, so the first
      dependency is always looked at, and the recursive call
      `self.check_deps(self, p)` passes three arguments to a two-argument
      method, which raises TypeError. Had it not, the `union` results would
      still be discarded: the answer can only ever be two empty sets. */
  function CheckDepsAsWritten(reg: Registry, name: string): (r: Result<DepSets, PyError>)
    ensures name !in reg ==> r == Err(KeyError)
    ensures name in reg && reg[name].depends != [] ==> r == Err(TypeError)
    ensures r.Ok? ==> r.value.met == {} && r.value.unmet == {}
  {
    if name !in reg then Err(KeyError)
    else if reg[name].depends == [] then Ok(DepSets({}, {}))
    else Err(TypeError)
  }

  /** Any plugin with a dependency makes the written `check_deps` raise,
      where the intended walk classifies that dependency. */
  lemma CheckDepsAsWrittenRaises(reg: Registry, name: string)
    requires name in reg && reg[name].depends != []
    ensures CheckDepsAsWritten(reg, name) == Err(TypeError)
    ensures var r := CheckDeps(reg, name).value;
      reg[name].depends[0] in r.met + r.unmet
  {
  }

  /** `enable_plugin` with auto_deps off, as written (lines 103-121): once the
      plugin is found and disabled, `set(...).intersect(...)` raises
      AttributeError (Python sets have `intersection`), whatever the
      dependencies. */
  function EnableStrictAsWritten(st: State, name: string): (out: Run)
    ensures name !in st.reg ==> out == Run(st, Err(Framework(PluginError(name, Some(name)))))
    ensures name in st.reg && !st.reg[name].enabled ==> out == Run(st, Err(AttributeError))
    ensures out.result.Ok? ==> out == Run(st, Ok(false))
  {
    if name !in st.reg then Run(st, Err(Framework(PluginError(name, Some(name)))))
    else if st.reg[name].enabled then Run(st, Ok(false))
    else Run(st, Err(AttributeError))
  }

  /** A disabled plugin with no dependencies cannot be enabled in strict mode
      as written; the intended intersection is empty and the plugin is enabled. */
  lemma StrictAsWrittenRaises(st: State, name: string)
    requires name in st.reg && !st.reg[name].enabled && st.reg[name].depends == []
    ensures EnableStrictAsWritten(st, name) == Run(st, Err(AttributeError))
    ensures EnablePlugin(st, name, false, true).result == Ok(true)
    ensures EnablePlugin(st, name, false, true).state.reg[name].enabled
  {
  }

  /** Lines 123-125 as written: `plugin.enable()` sets the flag and fires the
      plugin's own hook, then `self.on_enable(plugin)` raises AttributeError
      because the manager defines `on_enable_plugin`, not `on_enable`. */
  function FinishAsWritten(st: State, name: string): (out: Run)
    requires name in st.reg
    ensures !st.reg[name].enabled ==>
      && out.result == Err(AttributeError)
      && out.state.reg == st.reg[name := st.reg[name].(enabled := true)]
      && out.state.trace == st.trace + [OnEnable(name)]
    ensures st.reg[name].enabled ==> out == Run(st, Ok(false))
  {
    var t := Enable(st.reg[name]);
    if t.changed then
      Run(State(st.reg[name := t.plugin], st.trace + [OnEnable(name)]), Err(AttributeError))
    else
      Run(st, Ok(false))
  }

  /** Every enable that gets as far as changing the flag raises as written,
      leaving the plugin enabled with the manager hook never called; the
      intended step returns true after both hooks. */
  lemma EnableHookAsWrittenRaises(st: State, name: string)
    requires name in st.reg && !st.reg[name].enabled
    ensures FinishAsWritten(st, name).result == Err(AttributeError)
    ensures FinishAsWritten(st, name).state.reg[name].enabled
    ensures OnEnablePlugin(name) !in FinishAsWritten(st, name).state.trace[|st.trace|..]
    ensures Finish(st, name).result == Ok(true)
    ensures Finish(st, name).state.trace == st.trace + [OnEnable(name), OnEnablePlugin(name)]
  {
  }

  /** `disable_plugin` as written (lines 139-146): `plugin.disable()` clears
      the flag and fires the plugin's own hook, then `self.on_disable(plugin)`
      raises AttributeError (the manager defines `on_disable_plugin`). */
  function DisablePluginAsWritten(st: State, name: string): (out: Run)
    ensures name !in st.reg ==> out == Run(st, Err(Framework(PluginError(name, None))))
    ensures name in st.reg && st.reg[name].enabled ==>
      && out.result == Err(AttributeError)
      && out.state.reg == st.reg[name := st.reg[name].(enabled := false)]
      && out.state.trace == st.trace + [OnDisable(name)]
    ensures name in st.reg && !st.reg[name].enabled ==> out == Run(st, Ok(false))
  {
    if name !in st.reg then Run(st, Err(Framework(PluginError(name, None))))
    else
      var t := Disable(st.reg[name]);
      if t.changed then
        Run(State(st.reg[name := t.plugin], st.trace + [OnDisable(name)]), Err(AttributeError))
      else
        Run(st, Ok(false))
  }

  /** Disabling an enabled plugin raises as written, after its flag is
      already cleared; the intended operation returns true after both hooks. */
  lemma DisableHookAsWrittenRaises(st: State, name: string)
    requires name in st.reg && st.reg[name].enabled
    ensures DisablePluginAsWritten(st, name).result == Err(AttributeError)
    ensures !DisablePluginAsWritten(st, name).state.reg[name].enabled
    ensures DisablePlugin(st, name).result == Ok(true)
    ensures DisablePlugin(st, name).state.trace == st.trace + [OnDisable(name), OnDisablePlugin(name)]
  {
  }
}
