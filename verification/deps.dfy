/**
 * `PluginManager.check_deps`: the transitive dependencies of a plugin,
 * split into the registered ones (met) and the absent ones (unmet).
 *
 * The source's recursion does not run as intended (plugin_framework.py:82
 * passes the registry itself as an extra argument, and lines 83-84 throw the
 * `union` results away, so nothing is ever added to either set). This module
 * models the closure the docstring promises: a depth-first walk in which the
 * met and unmet sets double as the visited set, so a name already classified
 * is never expanded again and the walk ends on every graph, cyclic or not.
 */
module Deps {
  import opened Results
  import opened Plugins
  import opened Registry

  /** The two halves of `check_deps`'s answer. */
  datatype DepSets = DepSets(met: set<string>, unmet: set<string>)

  /** What holds at every step of the walk from `root`: classified names are
      reachable and correctly classified, pending names are reachable, and
      each met name's own dependencies are classified or pending. */
  ghost predicate WalkInv(reg: Registry, root: string, todo: seq<string>, met: set<string>, unmet: set<string>)
  {
    && met <= reg.Keys
    && unmet !! reg.Keys
    && (forall x :: x in met ==> Reaches(Graph(reg), root, x))
    && (forall x :: x in unmet ==> Reaches(Graph(reg), root, x))
    && (forall x :: x in todo ==> Reaches(Graph(reg), root, x))
    && (forall m, d :: m in met && d in reg[m].depends ==> d in met || d in unmet || d in todo)
  }

  /** Dropping a pending name that is already classified keeps the invariant. */
  lemma SkipStep(reg: Registry, root: string, todo: seq<string>, met: set<string>, unmet: set<string>)
    requires WalkInv(reg, root, todo, met, unmet)
    requires todo != [] && (todo[0] in met || todo[0] in unmet)
    ensures WalkInv(reg, root, todo[1..], met, unmet)
  {
  }

  /** Classifying an absent pending name as unmet keeps the invariant. */
  lemma UnmetStep(reg: Registry, root: string, todo: seq<string>, met: set<string>, unmet: set<string>)
    requires WalkInv(reg, root, todo, met, unmet)
    requires todo != [] && todo[0] !in reg
    ensures WalkInv(reg, root, todo[1..], met, unmet + {todo[0]})
  {
  }

  /** Classifying a registered pending name as met, and scheduling its
      dependencies, keeps the invariant. */
  lemma MetStep(reg: Registry, root: string, todo: seq<string>, met: set<string>, unmet: set<string>)
    requires WalkInv(reg, root, todo, met, unmet)
    requires todo != [] && todo[0] in reg
    ensures WalkInv(reg, root, reg[todo[0]].depends + todo[1..], met + {todo[0]}, unmet)
  {
    var p := todo[0];
    var next := reg[p].depends + todo[1..];
    assert forall x :: x in todo ==> x == p || x in todo[1..];
    ReachesThroughDeps(Graph(reg), root, p);
    assert forall x :: x in next <==> x in reg[p].depends || x in todo[1..];
  }

  /** Depth-first walk over the pending names `todo`; a newly met name's
      dependencies are pushed in front of the remaining work. */
  function Walk(reg: Registry, root: string, todo: seq<string>, met: set<string>, unmet: set<string>): (r: DepSets)
    requires WalkInv(reg, root, todo, met, unmet)
    ensures met <= r.met && unmet <= r.unmet
    ensures WalkInv(reg, root, [], r.met, r.unmet)
    ensures forall x :: x in todo ==> x in r.met || x in r.unmet
    decreases |reg.Keys - met|, |todo|
  {
    if todo == [] then DepSets(met, unmet)
    else
      var p := todo[0];
      assert forall x :: x in todo ==> x == p || x in todo[1..];
      if p in met || p in unmet then
        SkipStep(reg, root, todo, met, unmet);
        Walk(reg, root, todo[1..], met, unmet)
      else if p in reg then
        OneFewerOutside(reg.Keys, met, p);
        MetStep(reg, root, todo, met, unmet);
        Walk(reg, root, reg[p].depends + todo[1..], met + {p}, unmet)
      else
        UnmetStep(reg, root, todo, met, unmet);
        Walk(reg, root, todo[1..], met, unmet + {p})
  }

  lemma DirectDepsReachable(g: DepGraph, a: string)
    requires a in g
    ensures forall d :: d in g[a] ==> Reaches(g, a, d)
  {
    forall d | d in g[a]
      ensures Reaches(g, a, d)
    {
      ReachesByEdge(g, a, d);
    }
  }

  /** A finished walk from `name` has classified everything reachable from it. */
  lemma WalkComplete(reg: Registry, name: string, r: DepSets)
    requires name in reg
    requires WalkInv(reg, name, [], r.met, r.unmet)
    requires forall d :: d in reg[name].depends ==> d in r.met || d in r.unmet
    ensures forall x :: Reaches(Graph(reg), name, x) ==> x in r.met || x in r.unmet
  {
    var seen := r.met + r.unmet;
    assert ClosedUnder(Graph(reg), seen);
    ReachableInsideClosed(Graph(reg), name, seen);
  }

  /** `check_deps(name)`: `None` when `name` is not registered (the lookup's
      KeyError); otherwise every name reachable from `name` through `depends`
      edges, registered ones in `met` and absent ones in `unmet`. */
  function CheckDeps(reg: Registry, name: string): (r: Option<DepSets>)
    ensures r.None? <==> name !in reg
    ensures r.Some? ==> r.value.met <= reg.Keys && r.value.unmet !! reg.Keys
    ensures r.Some? ==> forall x :: x in r.value.met || x in r.value.unmet <==> Reaches(Graph(reg), name, x)
  {
    if name !in reg then None
    else
      DirectDepsReachable(Graph(reg), name);
      var r := Walk(reg, name, reg[name].depends, {}, {});
      WalkComplete(reg, name, r);
      Some(r)
  }
}
