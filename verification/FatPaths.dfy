/** Paths as text: how the writer and the reader cut them into components. */
module FatPaths {
  import opened Bytes
  import opened FatResult
  import opened FatNames
  import FatTree

  /** A file to place on a volume. */
  datatype File = File(path: Text, data: seq<byte>)

  /** `split('/')`: at least one component, however empty. */
  function Split(path: Text): (parts: seq<Text>)
    ensures parts != []
    decreases |path|
  {
    var i := IndexOf(path, SLASH);
    if i == |path| then [path] else [path[0..i]] + Split(path[i + 1..|path|])
  }

  /** The components that are not empty, which is what the reader walks. */
  function NonEmpty(parts: seq<Text>): seq<Text> {
    if parts == [] then []
    else if parts[0] == [] then NonEmpty(parts[1..])
    else [parts[0]] + NonEmpty(parts[1..])
  }

  function Parts(path: Text): seq<Text> { NonEmpty(Split(path)) }

  /** The stored names of a path the writer was given. */
  function Route(path: Text): (r: FatTree.Path)
    ensures |r| == |Split(path)| && forall i | 0 <= i < |r| :: r[i] == ShortName(Split(path)[i])
  {
    var parts := Split(path);
    seq(|parts|, i requires 0 <= i < |parts| => ShortName(parts[i]))
  }

  function ItemOf(f: File): FatTree.Item { FatTree.Item(Route(f.path), f.data) }

  function Items(files: seq<File>): (r: seq<FatTree.Item>)
    ensures |r| == |files| && forall i | 0 <= i < |r| :: r[i] == ItemOf(files[i])
  {
    seq(|files|, i requires 0 <= i < |files| => ItemOf(files[i]))
  }

  /** The stored name a query component asks for; one ending in a dot asks for none. */
  function QueryOf(part: Text): Result<Text> {
    if EndsInDot(part) then Err(BadName) else ShortName(part)
  }

  function QueryPath(parts: seq<Text>): (q: FatTree.Path)
    ensures |q| == |parts| && forall i | 0 <= i < |q| :: q[i] == QueryOf(parts[i])
  {
    seq(|parts|, i requires 0 <= i < |parts| => QueryOf(parts[i]))
  }

  lemma {:induction false} NoneEmpty(parts: seq<Text>)
    requires forall i | 0 <= i < |parts| :: parts[i] != []
    ensures NonEmpty(parts) == parts
    decreases |parts|
  {
    if parts != [] { NoneEmpty(parts[1..]); }
  }

  /** A path the writer accepts has no empty component, so the reader cuts it the same way. */
  lemma AcceptedParts(path: Text)
    requires FatTree.Names(Route(path)).Ok?
    ensures Parts(path) == Split(path)
  {
    var parts := Split(path);
    forall i | 0 <= i < |parts| ensures parts[i] != [] {
      assert Route(path)[i].Ok?;
    }
    NoneEmpty(parts);
  }

  /** A path the writer accepts, none of whose components ends in a dot, asks for itself. */
  lemma AsksForItself(path: Text)
    requires FatTree.Names(Route(path)).Ok?
    requires forall c | c in Split(path) :: !EndsInDot(c)
    ensures QueryPath(Parts(path)) == Route(path)
  {
    AcceptedParts(path);
  }

  /** A query with a component that ends in a dot asks for nothing. */
  lemma DottedAsksForNothing(parts: seq<Text>, i: nat)
    requires i < |parts| && EndsInDot(parts[i])
    ensures FatTree.Names(QueryPath(parts)).Err?
  {
    assert QueryPath(parts)[i].Err?;
  }

  // ---- paths that differ in case ----

  lemma UpperIndex(a: Text, b: Text, c: byte)
    requires SameText(a, b) && !IsUpper(c) && !IsLower(c)
    ensures IndexOf(a, c) == IndexOf(b, c)
  {
    assert |Upper(a)| == |Upper(b)|;
    forall i | 0 <= i < |a| ensures a[i] == c <==> b[i] == c {
      assert Upper(a)[i] == Upper(b)[i];
    }
    var i, j := IndexOf(a, c), IndexOf(b, c);
    assert i < |a| ==> b[i] == c;
    assert j < |b| ==> a[j] == c;
  }

  lemma SameSlice(a: Text, b: Text, lo: nat, hi: nat)
    requires SameText(a, b) && lo <= hi <= |a|
    ensures |a| == |b| && SameText(a[lo..hi], b[lo..hi])
  {
    assert |Upper(a)| == |Upper(b)|;
    assert Upper(a[lo..hi]) == Upper(a)[lo..hi];
    assert Upper(b[lo..hi]) == Upper(b)[lo..hi];
  }

  predicate SameTexts(a: seq<Text>, b: seq<Text>) {
    |a| == |b| && forall i | 0 <= i < |a| :: SameText(a[i], b[i])
  }

  lemma SameTextsCons(x: Text, y: Text, a: seq<Text>, b: seq<Text>)
    requires SameText(x, y) && SameTexts(a, b)
    ensures SameTexts([x] + a, [y] + b)
  {
  }

  lemma SplitAt(path: Text, i: nat)
    requires i == IndexOf(path, SLASH)
    ensures i <= |path| && Split(path) == if i == |path| then [path] else [path[0..i]] + Split(path[i + 1..|path|])
  {
  }

  /** Paths that differ only in case split into components that differ only in case. */
  lemma {:induction false} SplitIgnoresCase(a: Text, b: Text)
    requires SameText(a, b)
    ensures SameTexts(Split(a), Split(b))
    decreases |a|
  {
    hide SameText, Split, IndexOf;
    UpperIndex(a, b, SLASH);
    SameSlice(a, b, 0, |a|);
    var i := IndexOf(a, SLASH);
    SplitAt(a, i);
    SplitAt(b, i);
    if i < |a| {
      SameSlice(a, b, 0, i);
      SameSlice(a, b, i + 1, |a|);
      SplitIgnoresCase(a[i + 1..|a|], b[i + 1..|a|]);
      SameTextsCons(a[0..i], b[0..i], Split(a[i + 1..|a|]), Split(b[i + 1..|a|]));
    }
  }

  lemma SameChar(a: Text, b: Text, i: nat)
    requires SameText(a, b) && i < |a|
    ensures i < |b| && UpperChar(a[i]) == UpperChar(b[i])
  {
    assert |Upper(a)| == |Upper(b)| && Upper(a)[i] == Upper(b)[i];
  }

  lemma SameChars(a: Text, b: Text)
    requires SameText(a, b) && NameChars(a)
    ensures NameChars(b)
  {
    forall i | 0 <= i < |b| ensures NameChar(b[i]) {
      SameChar(b, a, i);
      assert NameChar(a[i]);
    }
  }

  lemma SameBases(a: Text, b: Text)
    requires SameText(a, b)
    ensures SameText(BaseOf(a), BaseOf(b)) && SameText(ExtOf(a), ExtOf(b)) && (EndsInDot(a) <==> EndsInDot(b))
  {
    UpperIndex(a, b, DOT);
    SameSlice(a, b, 0, |a|);
    var i := IndexOf(a, DOT);
    SameSlice(a, b, 0, i);
    assert a[..i] == a[0..i] && b[..i] == b[0..i];
    if i < |a| {
      SameSlice(a, b, i + 1, |a|);
      assert a[i + 1..] == a[i + 1..|a|] && b[i + 1..] == b[i + 1..|b|];
    }
    if a != [] { SameChar(a, b, |a| - 1); }
  }

  /** Components that differ only in case have one stored name. */
  lemma NamesIgnoreCase(a: Text, b: Text)
    requires SameText(a, b)
    ensures ShortName(a) == ShortName(b) && QueryOf(a) == QueryOf(b) && (a == [] <==> b == [])
  {
    SameBases(a, b);
    assert |Upper(a)| == |Upper(b)|;
    if Acceptable(a) { SameAcceptable(a, b); }
    if Acceptable(b) { SameAcceptable(b, a); }
  }

  lemma SameAcceptable(a: Text, b: Text)
    requires SameText(BaseOf(a), BaseOf(b)) && SameText(ExtOf(a), ExtOf(b)) && Acceptable(a)
    ensures Acceptable(b) && ShortName(a) == ShortName(b)
  {
    assert |Upper(BaseOf(a))| == |Upper(BaseOf(b))| && |Upper(ExtOf(a))| == |Upper(ExtOf(b))|;
    SameChars(BaseOf(a), BaseOf(b));
    SameChars(ExtOf(a), ExtOf(b));
  }

  lemma {:induction false} NonEmptyIgnoresCase(a: seq<Text>, b: seq<Text>)
    requires SameTexts(a, b)
    ensures SameTexts(NonEmpty(a), NonEmpty(b))
    decreases |a|
  {
    hide SameText, QueryOf, ShortName;
    if a != [] {
      NamesIgnoreCase(a[0], b[0]);
      NonEmptyIgnoresCase(a[1..], b[1..]);
      SameTextsCons(a[0], b[0], NonEmpty(a[1..]), NonEmpty(b[1..]));
    }
  }

  /** Paths that differ only in case ask for the same thing. */
  lemma QueryIgnoresCase(a: Text, b: Text)
    requires SameText(a, b)
    ensures QueryPath(Parts(a)) == QueryPath(Parts(b))
  {
    hide SameText, QueryOf, Split, NonEmpty, QueryPath;
    SplitIgnoresCase(a, b);
    NonEmptyIgnoresCase(Split(a), Split(b));
    var x, y := Parts(a), Parts(b);
    forall i | 0 <= i < |x| ensures QueryPath(x)[i] == QueryPath(y)[i] {
      NamesIgnoreCase(x[i], y[i]);
    }
  }
}
