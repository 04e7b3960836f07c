/** `plan`: which units are built, which edges are refused, and what that means for everything a
    unit can reach. */
module Planner {
  import opened Bytes
  import opened Optional
  import opened Graph

  datatype Kind = Lib | Bin | Module | User

  /** Layers in rank order. */
  datatype Layer = Builtins | Userspace | Hal | Loader | Arch | Core | Device | Subsystem | Kernel

  function Rank(l: Layer): nat {
    match l
    case Builtins => 0
    case Userspace => 1
    case Hal => 2
    case Loader => 3
    case Arch => 4
    case Core => 5
    case Device => 6
    case Subsystem => 7
    case Kernel => 8
  }

  /** What a unit's condition came to in the resolved configuration. */
  datatype Tri = N | M | Y

  /** `foreign` units are built for a target of their own. */
  datatype Unit = Unit(name: Name, kind: Kind, deps: seq<Name>, layer: Layer, level: Tri, foreign: bool)

  datatype Error =
    | ModuleBuiltIn(name: Name)
    | NotAModule(name: Name)
    | ProvidedTwice(name: Name)
    | NotInConfiguration(name: Name, dep: Name)
    | BadEdge(name: Name, dep: Name, rule: Rule)
    | Cycle(path: seq<Name>)

  /** What a dependency edge can break. */
  datatype Rule =
    Layering | KernelImage | NotALibrary | ForeignImage | LinksModule | ModuleLinksState | ArchOutsideKernel

  datatype Result<+T> = Ok(value: T) | Err(error: Error)

  // ---- which units are built ----

  datatype Verdict = Skip | Keep | Refuse(error: Error)

  /** `m` enables exactly the units that can be loadable modules. */
  function Judge(u: Unit): Verdict {
    if u.level == N then Skip
    else if u.kind == Module then if u.level == M then Keep else Refuse(ModuleBuiltIn(u.name))
    else if u.level == M then Refuse(NotAModule(u.name))
    else Keep
  }

  predicate Admits(units: seq<Unit>) { forall u | u in units :: !Judge(u).Refuse? }

  /** The units that are built. */
  function Active(units: seq<Unit>): seq<Unit> {
    if units == [] then []
    else (if Judge(units[0]).Keep? then [units[0]] else []) + Active(units[1..])
  }

  // ---- names and edges ----

  predicate OneProvider(units: seq<Unit>) { forall i, j | 0 <= i < j < |units| :: units[i].name != units[j].name }

  /** Units by name, a later one replacing an earlier one. */
  function ByName(units: seq<Unit>): map<Name, Unit> {
    if units == [] then map[]
    else
      var last := units[|units| - 1];
      ByName(units[..|units| - 1])[last.name := last]
  }

  function DepsOf(m: map<Name, Unit>): (g: Deps)
    ensures g.Keys == m.Keys && forall n | n in m :: g[n] == m[n].deps
  {
    map n | n in m :: m[n].deps
  }

  /** The rule a dependency edge breaks, if any. */
  function Fault(u: Unit, dep: Unit): Option<Rule> {
    if Rank(dep.layer) > Rank(u.layer) then Some(Layering)
    else if dep.kind == Bin && !dep.foreign then Some(KernelImage)
    else if u.kind == User && dep.kind != Lib then Some(NotALibrary)
    else if dep.foreign then Some(ForeignImage)
    else if dep.kind == Module then Some(LinksModule)
    else if u.kind == Module && (Rank(dep.layer) > Rank(Core) || dep.layer == Arch) then Some(ModuleLinksState)
    else if dep.layer == Arch && u.layer != Kernel && u.layer != Arch then Some(ArchOutsideKernel)
    else None
  }

  predicate EdgesFine(m: map<Name, Unit>, u: Unit) { forall d | d in u.deps :: d in m && Fault(u, m[d]).None? }

  predicate AllEdgesFine(m: map<Name, Unit>, units: seq<Unit>) { forall u | u in units :: EdgesFine(m, u) }

  /** The report on one edge, if it is refused. */
  function EdgeError(m: map<Name, Unit>, u: Unit, d: Name): Option<Error> {
    if d !in m then Some(NotInConfiguration(u.name, d))
    else if Fault(u, m[d]).Some? then Some(BadEdge(u.name, d, Fault(u, m[d]).value))
    else None
  }

  // ---- what an error says ----

  /** The `i`th unit is the first that is refused, for that reason. */
  ghost predicate FirstRefused(units: seq<Unit>, i: int, e: Error) {
    0 <= i < |units| && Judge(units[i]) == Refuse(e) && Admits(units[..i])
  }

  /** The `i`th unit is the first whose name an earlier one has. */
  ghost predicate FirstRepeat(units: seq<Unit>, i: int, n: Name) {
    && 0 <= i < |units| && units[i].name == n && OneProvider(units[..i])
    && exists j | 0 <= j < i :: units[j].name == n
  }

  /** The `k`th dependency of the `i`th unit is the first edge refused, for that reason. */
  ghost predicate FirstBadEdge(m: map<Name, Unit>, units: seq<Unit>, i: int, k: int, e: Error) {
    && 0 <= i < |units| && 0 <= k < |units[i].deps| && EdgeError(m, units[i], units[i].deps[k]) == Some(e)
    && AllEdgesFine(m, units[..i]) && forall d | d in units[i].deps[..k] :: EdgeError(m, units[i], d).None?
  }

  /** The checks are made in turn, and an error is the first thing the first failing check found. */
  ghost predicate Caused(units: seq<Unit>, e: Error) {
    var active := Active(units);
    match e
    case ModuleBuiltIn(_) => exists i :: FirstRefused(units, i, e)
    case NotAModule(_) => exists i :: FirstRefused(units, i, e)
    case ProvidedTwice(n) => Admits(units) && exists i :: FirstRepeat(active, i, n)
    case NotInConfiguration(_, _) => Edged(units, e)
    case BadEdge(_, _, _) => Edged(units, e)
    case Cycle(path) =>
      Admits(units) && OneProvider(active) && AllEdgesFine(ByName(active), active)
        && IsCycle(DepsOf(ByName(active)), path)
  }

  ghost predicate Edged(units: seq<Unit>, e: Error) {
    var active := Active(units);
    Admits(units) && OneProvider(active) && exists i, k :: FirstBadEdge(ByName(active), active, i, k, e)
  }

  /** What `plan` accepts. */
  ghost predicate Accepts(units: seq<Unit>) {
    var active := Active(units);
    && Admits(units) && OneProvider(active)
    && AllEdgesFine(ByName(active), active)
    && Acyclic(DepsOf(ByName(active)))
  }

  lemma {:induction false} NamedUnit(units: seq<Unit>, n: Name)
    requires n in ByName(units)
    ensures ByName(units)[n] in units && ByName(units)[n].name == n
    decreases |units|
  {
    var last := units[|units| - 1];
    if n != last.name {
      NamedUnit(units[..|units| - 1], n);
      assert forall u | u in units[..|units| - 1] :: u in units;
    }
  }

  lemma {:induction false} UnitNamed(units: seq<Unit>, i: nat)
    requires i < |units|
    ensures units[i].name in ByName(units)
    decreases |units|
  {
    if i < |units| - 1 {
      assert units[..|units| - 1][i] == units[i];
      UnitNamed(units[..|units| - 1], i);
    }
  }

  lemma {:induction false} ByNameIs(units: seq<Unit>, u: Unit)
    requires OneProvider(units) && u in units
    ensures u.name in ByName(units) && ByName(units)[u.name] == u
    decreases |units|
  {
    var n := |units|;
    if u != units[n - 1] {
      assert u in units[..n - 1];
      ByNameIs(units[..n - 1], u);
    }
  }

  lemma FineIsClosed(units: seq<Unit>)
    requires AllEdgesFine(ByName(units), units)
    ensures Closed(DepsOf(ByName(units)))
  {
    hide ByName, Fault;
    var m := ByName(units);
    var g := DepsOf(m);
    forall n | n in g ensures forall d | d in g[n] :: d in g {
      NamedUnit(units, n);
      assert EdgesFine(m, m[n]);
    }
  }

  // ---- plan as it runs ----

  method Select(units: seq<Unit>) returns (r: Result<seq<Unit>>)
    ensures r.Ok? <==> Admits(units)
    ensures r.Ok? ==> r.value == Active(units)
    ensures r.Err? ==> (r.error.ModuleBuiltIn? || r.error.NotAModule?) && exists i :: FirstRefused(units, i, r.error)
  {
    hide Judge, Active;
    var active := [];
    assert units[0..] == units && [] + Active(units) == Active(units);
    for i := 0 to |units|
      invariant forall j | 0 <= j < i :: !Judge(units[j]).Refuse?
      invariant Active(units) == active + Active(units[i..])
    {
      ActiveStep(units, i, active);
      match Judge(units[i]) {
        case Skip =>
        case Refuse(e) =>
          RefusedAt(units, i, e);
          return Err(e);
        case Keep => active := active + [units[i]];
      }
    }
    ActiveEnd(units, active);
    r := Ok(active);
  }

  lemma RefusedAt(units: seq<Unit>, i: nat, e: Error)
    requires i < |units| && Judge(units[i]) == Refuse(e) && forall j | 0 <= j < i :: !Judge(units[j]).Refuse?
    ensures FirstRefused(units, i, e) && (e.ModuleBuiltIn? || e.NotAModule?) && units[i] in units
  {
  }

  lemma ActiveStep(units: seq<Unit>, i: nat, done: seq<Unit>)
    requires i < |units|
    ensures done + Active(units[i..]) ==
      (if Judge(units[i]).Keep? then done + [units[i]] else done) + Active(units[i + 1..])
  {
    hide Judge;
    assert units[i..][0] == units[i] && units[i..][1..] == units[i + 1..];
  }

  lemma ActiveEnd(units: seq<Unit>, done: seq<Unit>)
    ensures done + Active(units[|units|..]) == done
  {
  }

  method Provide(units: seq<Unit>) returns (r: Result<map<Name, Unit>>)
    ensures r.Ok? <==> OneProvider(units)
    ensures r.Ok? ==> r.value == ByName(units)
    ensures r.Err? ==> r.error.ProvidedTwice? && exists i :: FirstRepeat(units, i, r.error.name)
  {
    hide ByName, OneProvider;
    var seen: map<Name, Unit> := map[];
    ProvideNone(units);
    for i := 0 to |units|
      invariant OneProvider(units[..i]) && seen == ByName(units[..i])
    {
      ProviderStep(units, i);
      if units[i].name in seen {
        RepeatAt(units, i);
        return Err(ProvidedTwice(units[i].name));
      }
      seen := seen[units[i].name := units[i]];
    }
    assert units[..|units|] == units;
    r := Ok(seen);
  }

  lemma RepeatAt(units: seq<Unit>, i: nat)
    requires i < |units| && OneProvider(units[..i]) && units[i].name in ByName(units[..i])
    ensures FirstRepeat(units, i, units[i].name)
  {
    hide ByName, OneProvider;
    NamedUnit(units[..i], units[i].name);
    var j :| 0 <= j < i && units[..i][j] == ByName(units[..i])[units[i].name];
    assert units[j].name == units[i].name;
  }

  lemma ProvideNone(units: seq<Unit>)
    ensures OneProvider(units[..0]) && ByName(units[..0]) == map[]
  {
  }

  lemma OneMoreProvider(units: seq<Unit>, before: seq<Unit>, u: Unit)
    requires units == before + [u]
    ensures ByName(units) == ByName(before)[u.name := u]
  {
    assert units[..|units| - 1] == before && units[|units| - 1] == u;
  }

  /** A list keeps one provider for each name exactly as long as a new one's name is new. */
  lemma ProviderStep(units: seq<Unit>, i: nat)
    requires i < |units| && OneProvider(units[..i])
    ensures ByName(units[..i + 1]) == ByName(units[..i])[units[i].name := units[i]]
    ensures if units[i].name in ByName(units[..i]) then !OneProvider(units) else OneProvider(units[..i + 1])
  {
    hide ByName;
    var before := units[..i];
    assert units[..i + 1] == before + [units[i]];
    OneMoreProvider(units[..i + 1], before, units[i]);
    if units[i].name in ByName(before) {
      NamedUnit(before, units[i].name);
      var j :| 0 <= j < i && before[j] == ByName(before)[units[i].name];
      assert units[j].name == units[i].name;
    } else {
      forall j | 0 <= j < i ensures units[j].name != units[i].name { UnitNamed(before, j); }
    }
  }

  method CheckEdges(m: map<Name, Unit>, units: seq<Unit>) returns (r: Option<Error>)
    ensures r.None? <==> AllEdgesFine(m, units)
    ensures r.Some? ==> r.value.NotInConfiguration? || r.value.BadEdge?
    ensures r.Some? ==> exists i, k :: FirstBadEdge(m, units, i, k, r.value)
  {
    hide Fault;
    for i := 0 to |units|
      invariant forall j | 0 <= j < i :: EdgesFine(m, units[j])
    {
      var u := units[i];
      for k := 0 to |u.deps|
        invariant forall j | 0 <= j < k :: u.deps[j] in m && Fault(u, m[u.deps[j]]).None?
      {
        var d := u.deps[k];
        assert u in units && d in u.deps;
        if d !in m {
          assert FirstBadEdge(m, units, i, k, NotInConfiguration(u.name, d)) && !EdgesFine(m, u);
          return Some(NotInConfiguration(u.name, d));
        }
        var fault := Fault(u, m[d]);
        if fault.Some? {
          assert FirstBadEdge(m, units, i, k, BadEdge(u.name, d, fault.value)) && !EdgesFine(m, u);
          return Some(BadEdge(u.name, d, fault.value));
        }
      }
    }
    r := None;
  }

  /** The units of an order of names. */
  function UnitsOf(m: map<Name, Unit>, order: seq<Name>): (r: seq<Unit>)
    requires forall n | n in order :: n in m
    ensures |r| == |order| && forall i | 0 <= i < |r| :: r[i] == m[order[i]]
  {
    seq(|order|, i requires 0 <= i < |order| => m[order[i]])
  }

  /** `plan` succeeds exactly on what it should accept, with a permutation of the enabled units in
      which every dependency stands before its dependents; an error says what the first failing
      check found first, and a cycle it reports is a real one. */
  method Plan(units: seq<Unit>) returns (r: Result<seq<Unit>>)
    ensures r.Ok? <==> Accepts(units)
    ensures r.Ok? ==> multiset(r.value) == multiset(Active(units)) && InOrder(r.value)
    ensures r.Err? ==> Caused(units, r.error)
  {
    hide Judge, Fault, Active, ByName, DepsOf, Acyclic, IsCycle, Closed, AllEdgesFine, OneProvider, Admits, InOrder,
         FirstRefused, FirstRepeat, FirstBadEdge;
    var active := Select(units);
    if active.Err? { return Err(active.error); }
    var byName := Provide(active.value);
    if byName.Err? { return Err(byName.error); }
    var fault := CheckEdges(byName.value, active.value);
    if fault.Some? { return Err(fault.value); }
    FineIsClosed(active.value);
    var order, outcome := TopoSort(DepsOf(byName.value));
    if outcome.CycleFound? { return Err(Cycle(outcome.path)); }
    OrderHas(byName.value, order);
    PlanOrders(active.value, order);
    r := Ok(UnitsOf(byName.value, order));
  }

  lemma OrderHas(m: map<Name, Unit>, order: seq<Name>)
    requires IsOrder(DepsOf(m), order)
    ensures forall n | n in order :: n in m
  {
  }

  /** Every dependency of a unit is the name of an earlier unit. */
  predicate InOrder(units: seq<Unit>) {
    forall i | 0 <= i < |units| :: forall d | d in units[i].deps :: exists j | 0 <= j < i :: units[j].name == d
  }

  lemma PlanOrders(active: seq<Unit>, order: seq<Name>)
    requires OneProvider(active) && IsOrder(DepsOf(ByName(active)), order)
      && forall n | n in order :: n in ByName(active)
    ensures var r := UnitsOf(ByName(active), order); multiset(r) == multiset(active) && InOrder(r)
  {
    hide ByName, OneProvider, IsOrder;
    var m := ByName(active);
    var r := UnitsOf(m, order);
    forall n | n in m ensures m[n].name == n { NamedUnit(active, n); }
    OrderIsInOrder(m, order);
    forall u: Unit ensures u in r <==> u in active { OrderKeeps(active, order, u); }
    OrderNoRepeats(m, order);
    ProviderNoRepeats(active);
    SameMultiset(r, active);
  }

  ghost predicate Distinct<T(!new)>(s: seq<T>) { forall i, j | 0 <= i < j < |s| :: s[i] != s[j] }

  lemma ProviderNoRepeats(active: seq<Unit>)
    requires OneProvider(active)
    ensures Distinct(active)
  {
  }

  lemma OrderNoRepeats(m: map<Name, Unit>, order: seq<Name>)
    requires IsOrder(DepsOf(m), order) && (forall n | n in order :: n in m) && forall n | n in m :: m[n].name == n
    ensures Distinct(UnitsOf(m, order))
  {
    hide DepsFirst;
    var r := UnitsOf(m, order);
    forall i, j | 0 <= i < j < |r| ensures r[i] != r[j] { assert r[i].name == order[i] && r[j].name == order[j]; }
  }

  lemma OrderKeeps(active: seq<Unit>, order: seq<Name>, u: Unit)
    requires OneProvider(active) && IsOrder(DepsOf(ByName(active)), order)
      && forall n | n in order :: n in ByName(active)
    ensures u in UnitsOf(ByName(active), order) <==> u in active
  {
    hide DepsFirst, OneProvider, ByName;
    var m := ByName(active);
    var r := UnitsOf(m, order);
    if u in active {
      ByNameIs(active, u);
      assert u.name in order;
      var i :| 0 <= i < |order| && order[i] == u.name;
      assert r[i] == u;
    }
    if u in r {
      var i :| 0 <= i < |r| && r[i] == u;
      NamedUnit(active, order[i]);
    }
  }

  lemma OrderIsInOrder(m: map<Name, Unit>, order: seq<Name>)
    requires IsOrder(DepsOf(m), order) && (forall n | n in order :: n in m) && forall n | n in m :: m[n].name == n
    ensures InOrder(UnitsOf(m, order))
  {
    var r := UnitsOf(m, order);
    forall i, d | 0 <= i < |r| && d in r[i].deps ensures exists j | 0 <= j < i :: r[j].name == d {
      assert d in order[..i];
      var j :| 0 <= j < i && order[..i][j] == d;
      assert r[j].name == d;
    }
  }

  lemma {:induction false} CountsOnce<T(!new)>(s: seq<T>, x: T)
    requires Distinct(s)
    ensures multiset(s)[x] == if x in s then 1 else 0
    decreases |s|
  {
    if s != [] {
      CountsOnce(s[1..], x);
      assert s == [s[0]] + s[1..];
    }
  }

  lemma SameMultiset<T(!new)>(a: seq<T>, b: seq<T>)
    requires Distinct(a) && Distinct(b) && forall x :: x in a <==> x in b
    ensures multiset(a) == multiset(b)
  {
    forall x ensures multiset(a)[x] == multiset(b)[x] {
      CountsOnce(a, x);
      CountsOnce(b, x);
    }
  }
}
