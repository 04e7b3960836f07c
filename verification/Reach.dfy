/** Everything a unit depends on, however far down, and what the layering rules say about it. */
module Reach {
  import opened Bytes
  import opened Graph
  import opened Planner

  /** A path of dependencies leads from one of `from` to `n`. */
  ghost predicate Reaches(g: Deps, from: seq<Name>, n: Name) {
    exists p :: p != [] && p[0] in from && p[|p| - 1] == n && IsPath(g, p)
  }

  lemma ReachesFirst(g: Deps, from: seq<Name>, n: Name)
    requires n in from
    ensures Reaches(g, from, n)
  {
    var p := [n];
    assert p[0] in from && p[|p| - 1] == n && IsPath(g, p);
  }

  lemma ReachesNext(g: Deps, from: seq<Name>, n: Name, d: Name)
    requires Reaches(g, from, n) && Edge(g, n, d)
    ensures Reaches(g, from, d)
  {
    var p :| p != [] && p[0] in from && p[|p| - 1] == n && IsPath(g, p);
    PushPath(g, p, d);
    assert (p + [d])[0] in from && (p + [d])[|p|] == d;
  }

  /** A set that holds the start of a path and all dependencies of its members holds its end. */
  lemma {:induction false} PathStays(g: Deps, s: set<Name>, p: seq<Name>)
    requires p != [] && p[0] in s && IsPath(g, p) && forall n, d | n in s && Edge(g, n, d) :: d in s
    ensures p[|p| - 1] in s
    decreases |p|
  {
    if |p| > 1 {
      assert Edge(g, p[0], p[1]);
      PathStays(g, s, p[1..]);
    }
  }

  /** Every name the walk can meet. */
  ghost function Mentioned(g: Deps, from: seq<Name>): set<Name> {
    (set n | n in from) + set k, n | k in g && n in g[k] :: n
  }

  /** What the worklist loop keeps: everything met is reachable, and every dependency of what was
      seen was seen or waits. */
  ghost predicate Walked(g: Deps, from: seq<Name>, seen: set<Name>, stack: seq<Name>) {
    && (forall n | n in seen :: Reaches(g, from, n))
    && (forall n | n in stack :: Reaches(g, from, n) && n in Mentioned(g, from))
    && (forall n | n in from :: n in seen || n in stack)
    && (forall n, d | n in seen && Edge(g, n, d) :: d in seen || d in stack)
  }

  lemma WalkStarts(g: Deps, from: seq<Name>)
    ensures Walked(g, from, {}, from)
  {
    forall n | n in from ensures Reaches(g, from, n) { ReachesFirst(g, from, n); }
  }

  /** Taking a name that was seen, or seeing a new one and adding its dependencies. */
  lemma WalkStep(g: Deps, from: seq<Name>, seen: set<Name>, stack: seq<Name>, rest: seq<Name>, n: Name)
    requires Walked(g, from, seen, stack) && stack == rest + [n]
    ensures n in Mentioned(g, from)
    ensures if n in seen then Walked(g, from, seen, rest)
            else Walked(g, from, seen + {n}, rest + if n in g then g[n] else [])
  {
    hide Reaches, Mentioned;
    assert stack[|rest|] == n;
    assert forall x | x in stack :: x in rest || x == n;
    assert forall x | x in rest :: x in stack;
    if n !in seen && n in g {
      forall d | d in g[n] ensures Reaches(g, from, d) && d in Mentioned(g, from) {
        ReachesNext(g, from, n, d);
        MentionedEdge(g, from, n, d);
      }
    }
  }

  lemma MentionedEdge(g: Deps, from: seq<Name>, n: Name, d: Name)
    requires Edge(g, n, d)
    ensures d in Mentioned(g, from)
  {
  }

  lemma WalkEnds(g: Deps, from: seq<Name>, seen: set<Name>)
    requires Walked(g, from, seen, [])
    ensures forall n :: n in seen <==> Reaches(g, from, n)
  {
    forall n | Reaches(g, from, n) ensures n in seen {
      var p :| p != [] && p[0] in from && p[|p| - 1] == n && IsPath(g, p);
      PathStays(g, seen, p);
    }
  }

  lemma MoreSeen(all: set<Name>, seen: set<Name>, n: Name)
    requires n in all && n !in seen
    ensures |all - (seen + {n})| < |all - seen|
  {
    assert all - (seen + {n}) == (all - seen) - {n};
  }

  /** `transitive_deps`: exactly the names a path of dependencies leads to. */
  method TransitiveDeps(unit: Unit, ordered: seq<Unit>) returns (seen: set<Name>)
    ensures forall n :: n in seen <==> Reaches(DepsOf(ByName(ordered)), unit.deps, n)
  {
    hide Walked, Mentioned, Reaches, ByName;
    var byName := ByName(ordered);
    ghost var g, all := DepsOf(byName), Mentioned(DepsOf(byName), unit.deps);
    seen := {};
    var stack := unit.deps;
    WalkStarts(g, unit.deps);
    while stack != []
      invariant Walked(g, unit.deps, seen, stack)
      decreases |all - seen|, |stack|
    {
      var name, rest := stack[|stack| - 1], stack[..|stack| - 1];
      WalkStep(g, unit.deps, seen, stack, rest, name);
      if name !in seen {
        MoreSeen(all, seen, name);
        seen := seen + {name};
        rest := rest + if name in byName then byName[name].deps else [];
      }
      stack := rest;
    }
    WalkEnds(g, unit.deps, seen);
  }

  // ---- layering, from edges to reachability ----

  /** Every edge between these units was accepted. */
  ghost predicate Accepted(units: seq<Unit>) { OneProvider(units) && AllEdgesFine(ByName(units), units) }

  /** What an accepted edge says about layers. */
  lemma EdgeRules(units: seq<Unit>, u: Unit, d: Name)
    requires Accepted(units) && u in units && d in u.deps
    ensures var m := ByName(units); d in m && m[d] in units && m[d].name == d
    ensures var v := ByName(units)[d];
      && Rank(v.layer) <= Rank(u.layer)
      && (v.layer == Arch ==> u.layer == Kernel || u.layer == Arch)
      && (u.kind == Module ==> Rank(v.layer) <= Rank(Core) && v.layer != Arch)
  {
    hide ByName;
    assert EdgesFine(ByName(units), u);
    NamedUnit(units, d);
  }

  /** The unit a path leads to exists, lies no higher than where the path starts, and is an
      architecture unit only if the path starts at the kernel or the architecture. */
  lemma {:induction false} PathRules(units: seq<Unit>, u: Unit, p: seq<Name>)
    requires Accepted(units) && u in units && p != [] && p[0] in u.deps && IsPath(DepsOf(ByName(units)), p)
    ensures var m, n := ByName(units), p[|p| - 1]; n in m && m[n] in units
    ensures var v := ByName(units)[p[|p| - 1]];
      && Rank(v.layer) <= Rank(u.layer)
      && (v.layer == Arch ==> u.layer == Kernel || u.layer == Arch)
      && (u.kind == Module ==> Rank(v.layer) <= Rank(Core) && v.layer != Arch)
    decreases |p|
  {
    hide ByName, Accepted;
    EdgeRules(units, u, p[0]);
    if |p| > 1 {
      assert Edge(DepsOf(ByName(units)), p[0], p[1]);
      PathRules(units, ByName(units)[p[0]], p[1..]);
    }
  }

  /** Layering lifts from edges to reachability. Among accepted units, userspace reaches only
      userspace and builtins, a unit outside the kernel and architecture layers never reaches the
      architecture, and a module reaches nothing above core. */
  lemma LayeringLifts(units: seq<Unit>, u: Unit, n: Name)
    requires Accepted(units) && u in units && Reaches(DepsOf(ByName(units)), u.deps, n)
    ensures n in ByName(units)
    ensures var layer := ByName(units)[n].layer;
      && Rank(layer) <= Rank(u.layer)
      && (u.layer == Userspace ==> layer == Userspace || layer == Builtins)
      && (u.layer != Kernel && u.layer != Arch ==> layer != Arch)
      && (u.kind == Module ==> Rank(layer) <= Rank(Core) && layer != Arch)
  {
    hide ByName, Accepted;
    var p :| p != [] && p[0] in u.deps && p[|p| - 1] == n && IsPath(DepsOf(ByName(units)), p);
    PathRules(units, u, p);
  }

  /** The list `plan` returns is accepted, so all of this holds of what is built. */
  lemma PlannedIsAccepted(units: seq<Unit>, ordered: seq<Unit>)
    requires Accepts(units) && multiset(ordered) == multiset(Active(units))
    ensures Accepted(ordered)
  {
    hide Active, ByName, Fault;
    var active := Active(units);
    forall u ensures u in ordered <==> u in active { assert u in multiset(ordered) <==> u in multiset(active); }
    DistinctNames(active, ordered);
    forall u | u in ordered ensures EdgesFine(ByName(ordered), u) {
      assert EdgesFine(ByName(active), u);
      forall d | d in u.deps ensures d in ByName(ordered) && ByName(ordered)[d] == ByName(active)[d] {
        NamedUnit(active, d);
        ByNameIs(ordered, ByName(active)[d]);
      }
    }
  }

  lemma DistinctNames(a: seq<Unit>, b: seq<Unit>)
    requires OneProvider(a) && multiset(a) == multiset(b)
    ensures OneProvider(b)
  {
    forall i, j | 0 <= i < j < |b| ensures b[i].name != b[j].name {
      if b[i].name == b[j].name {
        assert b[i] in multiset(b) && b[j] in multiset(b);
        var x :| 0 <= x < |a| && a[x] == b[i];
        var y :| 0 <= y < |a| && a[y] == b[j];
        Twice(b, i, j);
        CountsOnce(a, b[i]);
      }
    }
  }

  lemma Twice(s: seq<Unit>, i: nat, j: nat)
    requires i < j < |s| && s[i] == s[j]
    ensures multiset(s)[s[i]] >= 2
  {
    assert s == s[..i] + [s[i]] + s[i + 1..j] + [s[j]] + s[j + 1..];
  }
}
