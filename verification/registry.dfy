/**
 * The manager's registry (name to plugin), its derived enabled/disabled
 * views, and the dependency graph the `depends` lists span.
 */
module Registry {
  import opened Plugins

  /** The plugin manager's mapping from plugin name to plugin state. */
  type Registry = map<string, Plugin>

  /** `enabled_plugins`: the entries whose flag is set. */
  function EnabledPlugins(reg: Registry): (view: Registry)
    ensures forall k :: k in view <==> k in reg && reg[k].enabled
    ensures forall k :: k in view ==> view[k] == reg[k]
  {
    map k | k in reg && reg[k].enabled :: reg[k]
  }

  /** `disabled_plugins`: the entries whose flag is clear. */
  function DisabledPlugins(reg: Registry): (view: Registry)
    ensures forall k :: k in view <==> k in reg && !reg[k].enabled
    ensures forall k :: k in view ==> view[k] == reg[k]
  {
    map k | k in reg && !reg[k].enabled :: reg[k]
  }

  /** The two views partition the registry: disjoint, and together the whole map. */
  lemma ViewsPartition(reg: Registry)
    ensures EnabledPlugins(reg).Keys !! DisabledPlugins(reg).Keys
    ensures EnabledPlugins(reg).Keys + DisabledPlugins(reg).Keys == reg.Keys
    ensures EnabledPlugins(reg) + DisabledPlugins(reg) == reg
  {
  }

  /** Adding a name of `keys` to `s` leaves fewer names of `keys` outside it. */
  lemma OneFewerOutside(keys: set<string>, s: set<string>, x: string)
    requires x in keys && x !in s
    ensures |keys - (s + {x})| < |keys - s|
  {
    assert keys - (s + {x}) == (keys - s) - {x};
  }

  /** The dependency graph: every registered name with its `depends` list.
      Names that are not registered have no outgoing edges. */
  type DepGraph = map<string, seq<string>>

  function Graph(reg: Registry): (g: DepGraph)
    ensures g.Keys == reg.Keys
    ensures forall k :: k in reg ==> g[k] == reg[k].depends
  {
    map k | k in reg :: reg[k].depends
  }

  /** `a` is registered and declares `b` as a dependency. */
  ghost predicate Edge(g: DepGraph, a: string, b: string)
  {
    a in g && b in g[a]
  }

  /** A chain of at least one `depends` edge. */
  ghost predicate IsPath(g: DepGraph, path: seq<string>)
  {
    |path| >= 2 && forall i :: 1 <= i < |path| ==> Edge(g, path[i - 1], path[i])
  }

  /** `b` is a (transitive) dependency of `a`: reachable by one or more edges. */
  ghost predicate Reaches(g: DepGraph, a: string, b: string)
  {
    exists path :: IsPath(g, path) && path[0] == a && path[|path| - 1] == b
  }

  lemma ReachesByEdge(g: DepGraph, a: string, b: string)
    requires Edge(g, a, b)
    ensures Reaches(g, a, b)
  {
    assert IsPath(g, [a, b]);
  }

  /** Every direct dependency of a reachable registered name is reachable. */
  lemma ReachesThroughDeps(g: DepGraph, a: string, b: string)
    requires Reaches(g, a, b) && b in g
    ensures forall c :: c in g[b] ==> Reaches(g, a, c)
  {
    var path :| IsPath(g, path) && path[0] == a && path[|path| - 1] == b;
    forall c | c in g[b]
      ensures Reaches(g, a, c)
    {
      var longer := path + [c];
      assert IsPath(g, longer);
    }
  }

  /** A dependency's dependencies are dependencies too. */
  lemma ReachesPrepend(g: DepGraph, a: string, b: string, c: string)
    requires Edge(g, a, b) && Reaches(g, b, c)
    ensures Reaches(g, a, c)
  {
    var path :| IsPath(g, path) && path[0] == b && path[|path| - 1] == c;
    var longer := [a] + path;
    forall i | 2 <= i < |longer|
      ensures Edge(g, longer[i - 1], longer[i])
    {
      assert longer[i - 1] == path[i - 2] && longer[i] == path[i - 1];
    }
    assert IsPath(g, longer);
  }

  /** `s` is closed under the edges leaving its registered members. */
  ghost predicate ClosedUnder(g: DepGraph, s: set<string>)
  {
    forall x, y :: x in s && x in g && y in g[x] ==> y in s
  }

  lemma {:induction false} PathStaysInside(g: DepGraph, path: seq<string>, s: set<string>, i: nat)
    requires IsPath(g, path) && ClosedUnder(g, s)
    requires path[0] in g && forall y :: y in g[path[0]] ==> y in s
    requires 1 <= i < |path|
    ensures path[i] in s
    decreases i
  {
    if i > 1 {
      PathStaysInside(g, path, s, i - 1);
      assert Edge(g, path[i - 1], path[i]);
    } else {
      assert Edge(g, path[0], path[1]);
    }
  }

  /** Everything reachable from `a` lies in any edge-closed set holding `a`'s direct dependencies. */
  lemma ReachableInsideClosed(g: DepGraph, a: string, s: set<string>)
    requires a in g && ClosedUnder(g, s)
    requires forall y :: y in g[a] ==> y in s
    ensures forall x :: Reaches(g, a, x) ==> x in s
  {
    forall x | Reaches(g, a, x)
      ensures x in s
    {
      var path :| IsPath(g, path) && path[0] == a && path[|path| - 1] == x;
      PathStaysInside(g, path, s, |path| - 1);
    }
  }

  /** Every enabled plugin's dependencies are registered and enabled, or are in `busy`. */
  ghost predicate ClosedModulo(reg: Registry, busy: set<string>)
  {
    forall m, d :: m in reg && reg[m].enabled && d in reg[m].depends ==>
      d in busy || (d in reg && reg[d].enabled)
  }

  /** Every enabled plugin's dependencies are registered and enabled. */
  ghost predicate DepsClosed(reg: Registry)
  {
    ClosedModulo(reg, {})
  }

  /** In a dependency-closed registry, everything an enabled plugin reaches is enabled. */
  lemma EnabledReachesEnabled(reg: Registry, m: string, x: string)
    requires DepsClosed(reg)
    requires m in reg && reg[m].enabled
    requires Reaches(Graph(reg), m, x)
    ensures x in reg && reg[x].enabled
  {
    var on := EnabledPlugins(reg).Keys;
    assert ClosedUnder(Graph(reg), on);
    ReachableInsideClosed(Graph(reg), m, on);
  }
}
