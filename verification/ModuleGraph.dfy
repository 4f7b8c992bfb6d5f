/** The module dependency graph and its closure (shared/src/module-registry.ts:437-476). */
module ModuleGraph {
  import Text
  import Schema = SettingsSchema

  type Id = string

  datatype Def = Def(locked: bool, dependencies: seq<Id>, methods: seq<string>,
                     personalSchema: seq<Schema.Field>, integrationSchema: seq<Schema.Field>,
                     requiredBeforeEnable: seq<string>)

  /** Any finite registry: the ids in declaration order and their definitions. */
  datatype Registry = Registry(order: seq<Id>, defs: map<Id, Def>)

  ghost predicate WellFormed(reg: Registry) {
    forall id :: id in reg.order <==> id in reg.defs
  }

  function Locked(reg: Registry): set<Id> {
    set id | id in reg.defs && reg.defs[id].locked
  }

  /** What a closure starts from: the known ids among the inputs, and the locked modules. */
  function Roots(reg: Registry, ids: seq<Id>): set<Id> {
    (set id | id in ids && id in reg.defs) + Locked(reg)
  }

  // ---------------------------------------------------------------- reachability

  predicate Edge(reg: Registry, a: Id, b: Id) {
    a in reg.defs && b in reg.defs[a].dependencies
  }

  ghost predicate IsPath(reg: Registry, p: seq<Id>) {
    p != [] && forall i :: 0 <= i < |p| - 1 ==> Edge(reg, p[i], p[i + 1])
  }

  ghost predicate Reach(reg: Registry, from: set<Id>, x: Id) {
    exists p :: IsPath(reg, p) && p[0] in from && p[|p| - 1] == x
  }

  ghost predicate Closed(reg: Registry, s: set<Id>) {
    forall a, b :: a in s && Edge(reg, a, b) ==> b in s
  }

  lemma ReachRoot(reg: Registry, from: set<Id>, x: Id)
    requires x in from
    ensures Reach(reg, from, x)
  {
    assert IsPath(reg, [x]);
  }

  lemma ReachStep(reg: Registry, from: set<Id>, a: Id, b: Id)
    requires Reach(reg, from, a) && Edge(reg, a, b)
    ensures Reach(reg, from, b)
  {
    var p :| IsPath(reg, p) && p[0] in from && p[|p| - 1] == a;
    var q := p + [b];
    forall i | 0 <= i < |q| - 1 ensures Edge(reg, q[i], q[i + 1]) {
      assert i < |p| - 1 ==> Edge(reg, p[i], p[i + 1]);
    }
    assert IsPath(reg, q) && q[|q| - 1] == b;
  }

  lemma {:induction false} PathStaysInside(reg: Registry, s: set<Id>, p: seq<Id>)
    requires Closed(reg, s) && IsPath(reg, p) && p[0] in s
    ensures p[|p| - 1] in s
  {
    if |p| > 1 {
      assert Edge(reg, p[0], p[1]);
      forall i | 0 <= i < |p| - 2 ensures Edge(reg, p[1..][i], p[1..][i + 1]) {
        assert Edge(reg, p[i + 1], p[i + 2]);
      }
      PathStaysInside(reg, s, p[1..]);
    }
  }

  /** The reachable ids are the least closed set around the roots. */
  lemma ReachIsLeast(reg: Registry, from: set<Id>, s: set<Id>, x: Id)
    requires Closed(reg, s) && from <= s && Reach(reg, from, x)
    ensures x in s
  {
    var p :| IsPath(reg, p) && p[0] in from && p[|p| - 1] == x;
    PathStaysInside(reg, s, p);
  }

  /** The closure, as an equation: valid inputs, locked modules, and what a module in it depends on; nothing else. */
  lemma ClosureEquation(reg: Registry, ids: seq<Id>, x: Id)
    ensures Reach(reg, Roots(reg, ids), x) <==>
            || (x in reg.defs && (x in ids || reg.defs[x].locked))
            || exists a :: a in reg.defs && Reach(reg, Roots(reg, ids), a) && x in reg.defs[a].dependencies
  {
    var from := Roots(reg, ids);
    if Reach(reg, from, x) {
      var p :| IsPath(reg, p) && p[0] in from && p[|p| - 1] == x;
      if |p| > 1 {
        var q := p[..|p| - 1];
        forall i | 0 <= i < |q| - 1 ensures Edge(reg, q[i], q[i + 1]) {
          assert Edge(reg, p[i], p[i + 1]);
        }
        assert IsPath(reg, q) && Reach(reg, from, q[|q| - 1]);
        assert Edge(reg, p[|p| - 2], p[|p| - 1]);
      }
    }
    if x in reg.defs && (x in ids || reg.defs[x].locked) {
      ReachRoot(reg, from, x);
    }
    if a :| a in reg.defs && Reach(reg, from, a) && x in reg.defs[a].dependencies {
      ReachStep(reg, from, a, x);
    }
  }

  lemma ReachUnion(reg: Registry, s: set<Id>, t: set<Id>, x: Id)
    ensures Reach(reg, s + t, x) <==> Reach(reg, s, x) || Reach(reg, t, x)
  {
    if Reach(reg, s + t, x) {
      var p :| IsPath(reg, p) && p[0] in s + t && p[|p| - 1] == x;
      assert p[0] in s || p[0] in t;
    }
    if Reach(reg, s, x) {
      var p :| IsPath(reg, p) && p[0] in s && p[|p| - 1] == x;
      assert p[0] in s + t;
    }
    if Reach(reg, t, x) {
      var p :| IsPath(reg, p) && p[0] in t && p[|p| - 1] == x;
      assert p[0] in s + t;
    }
  }

  // ---------------------------------------------------------------- resolveDependencies

  ghost predicate NoDup<T>(xs: seq<T>) {
    forall i, j :: 0 <= i < j < |xs| ==> xs[i] != xs[j]
  }

  function Elems<T>(xs: seq<T>): set<T> {
    set x | x in xs
  }

  /** `resolved` lists the closure of `ids`, each id once. */
  ghost predicate Resolves(reg: Registry, ids: seq<Id>, resolved: seq<Id>) {
    NoDup(resolved) && forall x :: x in resolved <==> Reach(reg, Roots(reg, ids), x)
  }

  /** `Set.add` on a set in insertion order. */
  function Add<T(==)>(xs: seq<T>, x: T): (ys: seq<T>)
    ensures NoDup(xs) ==> NoDup(ys)
    ensures Elems(ys) == Elems(xs) + {x}
  {
    if x in xs then xs else xs + [x]
  }

  method EnsureLockedModules(reg: Registry, ids: seq<Id>) returns (r: seq<Id>)
    requires WellFormed(reg)
    ensures NoDup(r) && Elems(r) == Roots(reg, ids)
  {
    r := ValidModules(reg, ids);
    ghost var valid := Elems(r);
    for i := 0 to |reg.order|
      invariant NoDup(r) && Elems(r) == valid + LockedAmong(reg, reg.order[..i])
    {
      LockedSnoc(reg, i);
      if reg.defs[reg.order[i]].locked {
        r := Add(r, reg.order[i]);
      }
    }
    assert reg.order[..|reg.order|] == reg.order;
    assert LockedAmong(reg, reg.order) == Locked(reg);
  }

  ghost function LockedAmong(reg: Registry, ids: seq<Id>): set<Id> {
    set id | id in ids && id in reg.defs && reg.defs[id].locked
  }

  lemma LockedSnoc(reg: Registry, i: nat)
    requires WellFormed(reg) && i < |reg.order|
    ensures reg.order[i] in reg.defs
    ensures LockedAmong(reg, reg.order[..i + 1])
            == LockedAmong(reg, reg.order[..i]) + if reg.defs[reg.order[i]].locked then {reg.order[i]} else {}
  {
    assert reg.order[i] in reg.order;
    assert reg.order[..i + 1] == reg.order[..i] + [reg.order[i]];
  }

  /** The registered ones among the given ids, in order. */
  method ValidModules(reg: Registry, ids: seq<Id>) returns (r: seq<Id>)
    ensures NoDup(r) && Elems(r) == set id | id in ids && id in reg.defs
  {
    r := [];
    for i := 0 to |ids|
      invariant NoDup(r) && Elems(r) == set id | id in ids[..i] && id in reg.defs
    {
      assert ids[..i + 1] == ids[..i] + [ids[i]];
      if ids[i] in reg.defs {
        r := Add(r, ids[i]);
      }
    }
    assert ids[..|ids|] == ids;
  }

  method ResolveDependencies(reg: Registry, ids: seq<Id>) returns (resolved: seq<Id>)
    requires WellFormed(reg)
    ensures Resolves(reg, ids, resolved)
  {
    ghost var roots := Roots(reg, ids);
    ghost var universe := roots + set a, b | a in reg.defs && b in reg.defs[a].dependencies :: b;
    resolved := EnsureLockedModules(reg, ids);
    forall x | x in roots ensures Reach(reg, roots, x) {
      ReachRoot(reg, roots, x);
    }
    var changed := true;
    while changed
      invariant NoDup(resolved) && roots <= Elems(resolved) <= universe
      invariant forall x :: x in resolved ==> Reach(reg, roots, x)
      invariant !changed ==> Closed(reg, Elems(resolved))
      decreases universe - Elems(resolved), changed
    {
      ghost var before := Elems(resolved);
      resolved, changed := ResolvePass(reg, resolved, roots, universe);
      assert changed ==> universe - Elems(resolved) < universe - before;
    }
    forall x | Reach(reg, roots, x) ensures x in resolved {
      ReachIsLeast(reg, roots, Elems(resolved), x);
    }
  }

  /** One sweep over the ids present when it starts. */
  method ResolvePass(reg: Registry, start: seq<Id>, ghost roots: set<Id>, ghost universe: set<Id>)
      returns (resolved: seq<Id>, changed: bool)
    requires NoDup(start) && Elems(start) <= universe
    requires forall a, b :: Edge(reg, a, b) ==> b in universe
    requires forall x :: x in start ==> Reach(reg, roots, x)
    ensures NoDup(resolved) && Elems(start) <= Elems(resolved) <= universe
    ensures forall x :: x in resolved ==> Reach(reg, roots, x)
    ensures changed ==> Elems(start) < Elems(resolved)
    ensures !changed ==> resolved == start && Closed(reg, Elems(resolved))
  {
    resolved, changed := start, false;
    for i := 0 to |start|
      invariant NoDup(resolved) && Elems(start) <= Elems(resolved) <= universe
      invariant forall x :: x in resolved ==> Reach(reg, roots, x)
      invariant changed ==> Elems(start) < Elems(resolved)
      invariant !changed ==> resolved == start
      invariant forall k, b :: 0 <= k < i && Edge(reg, start[k], b) ==> b in resolved
    {
      var id := start[i];
      if id in reg.defs {
        var deps := reg.defs[id].dependencies;
        for j := 0 to |deps|
          invariant NoDup(resolved) && Elems(start) <= Elems(resolved) <= universe
          invariant forall x :: x in resolved ==> Reach(reg, roots, x)
          invariant changed ==> Elems(start) < Elems(resolved)
          invariant !changed ==> resolved == start
          invariant forall k, b :: 0 <= k < i && Edge(reg, start[k], b) ==> b in resolved
          invariant forall b :: b in deps[..j] ==> b in resolved
        {
          if deps[j] !in resolved {
            assert start[i] in start && Edge(reg, id, deps[j]);
            ReachStep(reg, roots, id, deps[j]);
            assert deps[j] !in Elems(start);
            assert deps[j] in Elems(resolved + [deps[j]]);
            resolved := Add(resolved, deps[j]);
            changed := true;
          }
        }
        assert deps[..|deps|] == deps;
      }
    }
  }

  /** Turning a module on additionally enables exactly what it newly reaches. */
  method PreviewEnableCascade(reg: Registry, moduleId: Id, currentlyEnabled: seq<Id>) returns (preview: seq<Id>)
    requires WellFormed(reg)
    ensures Text.Sorted(preview)
    ensures forall x :: x in preview <==>
                          moduleId in reg.defs && x != moduleId && Reach(reg, {moduleId}, x)
                              && !Reach(reg, Roots(reg, currentlyEnabled), x)
  {
    preview := [];
    if moduleId !in reg.defs {
      return;
    }
    var before := ResolveDependencies(reg, currentlyEnabled);
    var after := ResolveDependencies(reg, currentlyEnabled + [moduleId]);
    assert Roots(reg, currentlyEnabled + [moduleId]) == Roots(reg, currentlyEnabled) + {moduleId};
    for i := 0 to |after|
      invariant Text.Sorted(preview)
      invariant forall x :: x in preview <==> x in after[..i] && x !in before && x != moduleId
    {
      if after[i] !in before && after[i] != moduleId {
        preview := Text.InsertSorted(preview, after[i]);
      }
    }
    assert after[..|after|] == after;
    forall x ensures x in after <==> Reach(reg, Roots(reg, currentlyEnabled), x) || Reach(reg, {moduleId}, x) {
      ReachUnion(reg, Roots(reg, currentlyEnabled), {moduleId}, x);
    }
  }

  /** A closure adds nothing when it is closed again, and depends on the set of its inputs only. */
  lemma ClosureOfClosure(reg: Registry, ids: seq<Id>, resolved: seq<Id>, x: Id)
    requires Resolves(reg, ids, resolved)
    ensures Reach(reg, Roots(reg, resolved), x) <==> x in resolved
  {
    var roots := Roots(reg, ids);
    forall a, b | a in Elems(resolved) && Edge(reg, a, b) ensures b in Elems(resolved) {
      ReachStep(reg, roots, a, b);
    }
    forall y | y in roots ensures y in resolved {
      ReachRoot(reg, roots, y);
    }
    if Reach(reg, Roots(reg, resolved), x) {
      ReachIsLeast(reg, Roots(reg, resolved), Elems(resolved), x);
    }
    if x in resolved {
      var p :| IsPath(reg, p) && p[0] in roots && p[|p| - 1] == x;
      assert p[0] in Roots(reg, resolved);
    }
  }
}
