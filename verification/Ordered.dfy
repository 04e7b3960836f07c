/** The key order of a `BTreeMap` over byte strings. */
module Ordered {
  import opened Bytes

  type Key = seq<byte>

  /** Lexicographic order. */
  predicate Le(a: Key, b: Key) {
    a == [] || (b != [] && (a[0] < b[0] || (a[0] == b[0] && Le(a[1..], b[1..]))))
  }

  lemma {:induction false} LeTotal(a: Key, b: Key)
    ensures Le(a, b) || Le(b, a)
  {
    if a != [] && b != [] { LeTotal(a[1..], b[1..]); }
  }

  lemma {:induction false} LeAntisymmetric(a: Key, b: Key)
    requires Le(a, b) && Le(b, a)
    ensures a == b
  {
    if a != [] {
      LeAntisymmetric(a[1..], b[1..]);
      assert a == [a[0]] + a[1..] && b == [b[0]] + b[1..];
    }
  }

  lemma {:induction false} LeTransitive(a: Key, b: Key, c: Key)
    requires Le(a, b) && Le(b, c)
    ensures Le(a, c)
  {
    if a != [] && a[0] == b[0] == c[0] { LeTransitive(a[1..], b[1..], c[1..]); }
  }

  predicate IsLeast(x: Key, s: set<Key>) { x in s && forall y | y in s :: Le(x, y) }

  lemma {:induction false} LeastExists(s: set<Key>) returns (x: Key)
    requires s != {}
    ensures IsLeast(x, s)
    decreases s
  {
    var y :| y in s;
    LeTotal(y, y);
    if s == {y} {
      x := y;
    } else {
      var z := LeastExists(s - {y});
      LeTotal(y, z);
      x := if Le(y, z) then y else z;
      forall w | w in s ensures Le(x, w) {
        if w != y && x == y { LeTransitive(y, z, w); }
      }
    }
  }

  function Least(s: set<Key>): (x: Key)
    requires s != {}
    ensures IsLeast(x, s)
  {
    LeastIsUnique(s);
    var x :| IsLeast(x, s);
    x
  }

  /** The least key exists and is the only one. */
  lemma LeastIsUnique(s: set<Key>)
    requires s != {}
    ensures exists x :: IsLeast(x, s)
    ensures forall x, y | IsLeast(x, s) && IsLeast(y, s) :: x == y
  {
    var _ := LeastExists(s);
    forall x, y | IsLeast(x, s) && IsLeast(y, s) ensures x == y { LeAntisymmetric(x, y); }
  }

  /** The keys in iteration order. */
  function Keys(s: set<Key>): (r: seq<Key>)
    ensures |r| == |s|
    ensures forall k :: k in r <==> k in s
    ensures forall i, j | 0 <= i < j < |r| :: r[i] != r[j] && Le(r[i], r[j])
  {
    if s == {} then []
    else
      var x := Least(s);
      [x] + Keys(s - {x})
  }
}
