/**
 * A single plugin: its `enabled` flag, its declared dependencies and the
 * two state transitions `Plugin.enable` / `Plugin.disable`.
 */
module Plugins {

  /** The state of one plugin. `depends` names other plugins (possibly absent ones). */
  datatype Plugin = Plugin(enabled: bool, depends: seq<string>)

  /** The plugin after a transition, and whether a transition happened.
      `changed` is exactly the case in which the plugin's own hook fires. */
  datatype Transition = Transition(plugin: Plugin, changed: bool)

  /** `Plugin.enable`: turns a disabled plugin on and reports it; an enabled one is left alone. */
  function Enable(p: Plugin): (t: Transition)
    ensures t.plugin.enabled
    ensures t.changed <==> !p.enabled
    ensures t.plugin.depends == p.depends
    ensures !t.changed ==> t.plugin == p
  {
    if !p.enabled then Transition(p.(enabled := true), true) else Transition(p, false)
  }

  /** `Plugin.disable`: the mirror image of `Enable`. */
  function Disable(p: Plugin): (t: Transition)
    ensures !t.plugin.enabled
    ensures t.changed <==> p.enabled
    ensures t.plugin.depends == p.depends
    ensures !t.changed ==> t.plugin == p
  {
    if p.enabled then Transition(p.(enabled := false), true) else Transition(p, false)
  }

  /** A second transition in the same direction changes nothing, and the two
      transitions undo each other. */
  lemma TransitionsIdempotentAndInverse(p: Plugin)
    ensures Enable(Enable(p).plugin) == Transition(Enable(p).plugin, false)
    ensures Disable(Disable(p).plugin) == Transition(Disable(p).plugin, false)
    ensures !p.enabled ==> Disable(Enable(p).plugin) == Transition(p, true)
    ensures p.enabled ==> Enable(Disable(p).plugin) == Transition(p, true)
  {
  }
}
