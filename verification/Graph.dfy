/** Dependency graphs: paths, cycles, and the depth-first topological sort. */
module Graph {
  import opened Bytes
  import Ordered

  /** Names as their UTF-8 bytes, whose order is the order of a `BTreeMap` of strings. */
  type Name = seq<byte>

  /** The names each name depends on. */
  type Deps = map<Name, seq<Name>>

  predicate Edge(g: Deps, a: Name, b: Name) { a in g && b in g[a] }

  /** Every dependency is itself a name of the graph. */
  predicate Closed(g: Deps) { forall n | n in g :: forall d | d in g[n] :: d in g }

  /** Consecutive names are dependency edges. */
  predicate IsPath(g: Deps, p: seq<Name>) { forall i | 0 <= i < |p| - 1 :: Edge(g, p[i], p[i + 1]) }

  predicate IsCycle(g: Deps, p: seq<Name>) { |p| >= 2 && p[0] == p[|p| - 1] && IsPath(g, p) }

  ghost predicate Acyclic(g: Deps) { forall p :: !IsCycle(g, p) }

  predicate NoRepeats(s: seq<Name>) { forall i, j | 0 <= i < j < |s| :: s[i] != s[j] }

  /** Every name's dependencies stand before it. */
  predicate DepsFirst(g: Deps, out: seq<Name>) {
    forall i | 0 <= i < |out| :: out[i] in g && forall d | d in g[out[i]] :: d in out[..i]
  }

  /** An order of all names, each once, dependencies first. */
  ghost predicate IsOrder(g: Deps, out: seq<Name>) {
    NoRepeats(out) && DepsFirst(g, out) && forall n :: n in out <==> n in g
  }

  // ---- orders and cycles exclude one another ----

  function IndexOf(s: seq<Name>, n: Name): (i: nat)
    requires n in s
    ensures i < |s| && s[i] == n && forall j | 0 <= j < i :: s[j] != n
  {
    if s[0] == n then 0 else 1 + IndexOf(s[1..], n)
  }

  /** Along an edge, an order goes back. */
  lemma EdgeGoesBack(g: Deps, out: seq<Name>, a: Name, b: Name)
    requires NoRepeats(out) && DepsFirst(g, out) && Edge(g, a, b) && a in out
    ensures b in out && IndexOf(out, b) < IndexOf(out, a)
  {
    var i := IndexOf(out, a);
    var j :| 0 <= j < i && out[..i][j] == b;
    assert out[j] == b;
  }

  /** Along a path, it goes back by at least the path's length. */
  lemma {:induction false} PathGoesBack(g: Deps, out: seq<Name>, p: seq<Name>)
    requires NoRepeats(out) && DepsFirst(g, out) && IsPath(g, p) && p != [] && p[0] in out
    ensures p[|p| - 1] in out && IndexOf(out, p[|p| - 1]) + |p| - 1 <= IndexOf(out, p[0])
    decreases |p|
  {
    if |p| > 1 {
      EdgeGoesBack(g, out, p[0], p[1]);
      PathGoesBack(g, out, p[1..]);
    }
  }

  lemma OrderedIsAcyclic(g: Deps, out: seq<Name>)
    requires IsOrder(g, out)
    ensures Acyclic(g)
  {
    forall p ensures !IsCycle(g, p) {
      if IsCycle(g, p) {
        assert Edge(g, p[0], p[1]);
        PathGoesBack(g, out, p);
      }
    }
  }

  // ---- the sort as it runs ----

  datatype Outcome = Done | CycleFound(path: seq<Name>)

  /** What a depth-first sort keeps: the stack is a path of names being visited, and everything put
      out stands behind its dependencies. */
  ghost predicate Visited(g: Deps, stack: seq<Name>, out: seq<Name>, state: map<Name, nat>) {
    && (forall n | n in state :: n in g && (state[n] == 1 || state[n] == 2))
    && (forall n :: n in stack <==> n in state && state[n] == 1)
    && (forall n :: n in out <==> n in state && state[n] == 2)
    && NoRepeats(stack) && NoRepeats(out) && DepsFirst(g, out) && IsPath(g, stack)
  }

  class Sorter {
    const g: Deps
    /** Names being visited, innermost last. */
    var stack: seq<Name>
    /** What has been put out, in order. */
    var out: seq<Name>
    /** 1 while a name is being visited, 2 when it is done. */
    var state: map<Name, nat>

    ghost predicate Valid()
      reads this
    {
      Closed(g) && Visited(g, stack, out, state)
    }

    /** Names not yet reached. */
    ghost function Unreached(): set<Name>
      reads this
    {
      g.Keys - state.Keys
    }

    constructor (g: Deps)
      requires Closed(g)
      ensures Valid() && this.g == g && stack == [] && out == []
    {
      this.g := g;
      stack, out, state := [], [], map[];
    }

    /** Visit a name and, before it is put out, everything it depends on. */
    method Visit(name: Name) returns (r: Outcome)
      requires Valid() && name in g && (stack != [] ==> Edge(g, stack[|stack| - 1], name))
      modifies this
      ensures r.CycleFound? ==> IsCycle(g, r.path)
      ensures r.Done? ==> Valid() && stack == old(stack) && name in out && old(out) <= out
      ensures r.Done? ==> Unreached() <= old(Unreached())
      decreases Unreached(), 0
    {
      hide Visited, Closed, Edge, IsCycle;
      VisitedIs(g, stack, out, state, name);
      if name in state && state[name] == 2 { return Done; }
      if name in state {
        var at := IndexOf(stack, name);
        CycleAt(g, stack, at, name);
        return CycleFound(stack[at..] + [name]);
      }
      Push(g, stack, out, state, name);
      ghost var unreached := Unreached();
      state, stack := state[name := 1], stack + [name];
      assert Unreached() == unreached - {name} && name in unreached;
      r := VisitAll(name);
      if r.CycleFound? { return; }
      Pop(g, stack, out, state, name);
      assert (old(stack) + [name])[..|old(stack)|] == old(stack);
      stack, state, out := stack[..|stack| - 1], state[name := 2], out + [name];
    }

    /** Visit the dependencies of the name on top of the stack. */
    method VisitAll(name: Name) returns (r: Outcome)
      requires Valid() && stack != [] && stack[|stack| - 1] == name && name in g
      modifies this
      ensures r.CycleFound? ==> IsCycle(g, r.path)
      ensures r.Done? ==> Valid() && stack == old(stack) && old(out) <= out && Unreached() <= old(Unreached())
      ensures r.Done? ==> forall d | d in g[name] :: d in out
      decreases Unreached(), 1
    {
      hide Visited, IsCycle;
      var deps := g[name];
      for i := 0 to |deps|
        invariant Valid() && stack == old(stack) && old(out) <= out && Unreached() <= old(Unreached())
        invariant forall j | 0 <= j < i :: deps[j] in out
      {
        r := Visit(deps[i]);
        if r.CycleFound? { return; }
      }
      r := Done;
    }
  }

  /** The stack from where a name stands, and the name again, close a cycle. */
  lemma CycleAt(g: Deps, stack: seq<Name>, at: nat, name: Name)
    requires IsPath(g, stack) && at < |stack| && stack[at] == name && Edge(g, stack[|stack| - 1], name)
    ensures IsCycle(g, stack[at..] + [name])
  {
    var p := stack[at..] + [name];
    forall i | 0 <= i < |p| - 1 ensures Edge(g, p[i], p[i + 1]) {
      if i < |p| - 2 { assert p[i] == stack[at + i] && p[i + 1] == stack[at + i + 1]; }
    }
  }

  lemma PushPath(g: Deps, stack: seq<Name>, name: Name)
    requires IsPath(g, stack) && (stack != [] ==> Edge(g, stack[|stack| - 1], name))
    ensures IsPath(g, stack + [name])
  {
    var p := stack + [name];
    forall i | 0 <= i < |p| - 1 ensures Edge(g, p[i], p[i + 1]) {
      if i < |stack| - 1 { assert p[i] == stack[i] && p[i + 1] == stack[i + 1]; }
    }
  }

  lemma PopPath(g: Deps, stack: seq<Name>)
    requires IsPath(g, stack) && stack != []
    ensures IsPath(g, stack[..|stack| - 1])
  {
    var p := stack[..|stack| - 1];
    forall i | 0 <= i < |p| - 1 ensures Edge(g, p[i], p[i + 1]) { assert p[i] == stack[i] && p[i + 1] == stack[i + 1]; }
  }

  lemma PutOut(g: Deps, out: seq<Name>, name: Name)
    requires DepsFirst(g, out) && name in g && forall d | d in g[name] :: d in out
    ensures DepsFirst(g, out + [name])
  {
    var r := out + [name];
    forall i | 0 <= i < |r| ensures r[i] in g && forall d | d in g[r[i]] :: d in r[..i] {
      if i < |out| { assert r[..i] == out[..i]; } else { assert r[..i] == out; }
    }
  }

  lemma NoRepeatsMore(s: seq<Name>, n: Name)
    requires NoRepeats(s) && n !in s
    ensures NoRepeats(s + [n]) && forall x :: x in s + [n] <==> x in s || x == n
  {
  }

  lemma NoRepeatsLess(s: seq<Name>)
    requires NoRepeats(s) && s != []
    ensures NoRepeats(s[..|s| - 1]) && forall x :: x in s[..|s| - 1] <==> x in s && x != s[|s| - 1]
  {
    var t := s[..|s| - 1];
    assert s == t + [s[|s| - 1]];
  }

  lemma VisitedIs(g: Deps, stack: seq<Name>, out: seq<Name>, state: map<Name, nat>, name: Name)
    requires Visited(g, stack, out, state)
    ensures name in stack <==> name in state && state[name] == 1
    ensures name in out <==> name in state && state[name] == 2
    ensures name in state ==> state[name] == 1 || state[name] == 2
    ensures IsPath(g, stack)
  {
  }

  lemma Push(g: Deps, stack: seq<Name>, out: seq<Name>, state: map<Name, nat>, name: Name)
    requires Visited(g, stack, out, state) && name in g && name !in state
      && (stack != [] ==> Edge(g, stack[|stack| - 1], name))
    ensures Visited(g, stack + [name], out, state[name := 1])
  {
    hide IsPath, DepsFirst, Edge, NoRepeats;
    PushPath(g, stack, name);
    NoRepeatsMore(stack, name);
  }

  lemma Pop(g: Deps, stack: seq<Name>, out: seq<Name>, state: map<Name, nat>, name: Name)
    requires Visited(g, stack, out, state) && stack != [] && stack[|stack| - 1] == name && name in g
      && forall d | d in g[name] :: d in out
    ensures name in state && Visited(g, stack[..|stack| - 1], out + [name], state[name := 2])
  {
    hide IsPath, DepsFirst, Edge, NoRepeats;
    PutOut(g, out, name);
    PopPath(g, stack);
    NoRepeatsMore(out, name);
    NoRepeatsLess(stack);
  }

  lemma OutIsOrder(g: Deps, stack: seq<Name>, out: seq<Name>, state: map<Name, nat>)
    requires Visited(g, stack, out, state) && forall n | n in g :: n in out
    ensures IsOrder(g, out)
  {
  }

  /** `topo_sort`: an order when there is no cycle, and else a cycle. */
  method TopoSort(g: Deps) returns (order: seq<Name>, r: Outcome)
    requires Closed(g)
    ensures r.Done? <==> Acyclic(g)
    ensures r.Done? ==> IsOrder(g, order)
    ensures r.CycleFound? ==> IsCycle(g, r.path)
  {
    hide Visited, Closed, Edge, IsCycle, IsOrder, Acyclic, Ordered.Keys, Ordered.Le;
    var s := new Sorter(g);
    var names := Ordered.Keys(g.Keys);
    for i := 0 to |names|
      invariant s.Valid() && s.g == g && s.stack == [] && forall j | 0 <= j < i :: names[j] in s.out
    {
      assert names[i] in names;
      r := s.Visit(names[i]);
      if r.CycleFound? {
        CycleIsCyclic(g, r.path);
        return [], r;
      }
    }
    order, r := s.out, Done;
    forall n | n in g ensures n in order { assert n in names; }
    OutIsOrder(g, s.stack, order, s.state);
    OrderedIsAcyclic(g, order);
  }

  lemma CycleIsCyclic(g: Deps, p: seq<Name>)
    requires IsCycle(g, p)
    ensures !Acyclic(g)
  {
  }
}
