/** The directory tree a list of files asks for, and what each path names in it. Components
    appear here already encoded, each as its stored name or the refusal it met. */
module FatTree {
  import opened Bytes
  import opened FatResult

  type Text = seq<byte>

  /** A path: one stored name, or refusal, for each component. */
  type Path = seq<Result<Text>>

  /** One file to place, by its path. */
  datatype Item = Item(path: Path, data: seq<byte>)

  datatype Dir = Dir(dirs: map<Text, Dir>, files: map<Text, seq<byte>>)

  const EMPTY := Dir(map[], map[])

  /** `dirs.entry(name).or_default()`. */
  function Child(dir: Dir, name: Text): Dir {
    if name in dir.dirs then dir.dirs[name] else EMPTY
  }

  /** Put one file into the tree, making the directories its path passes through. */
  function Insert(dir: Dir, path: Path, data: seq<byte>): Result<Dir>
    requires path != []
    decreases |path|
  {
    var name :- path[0];
    if |path| == 1 then
      if name in dir.dirs || name in dir.files then Err(Twice)
      else Ok(dir.(files := dir.files[name := data]))
    else if name in dir.files then Err(FileNotDirectory)
    else
      var sub :- Insert(Child(dir, name), path[1..], data);
      Ok(dir.(dirs := dir.dirs[name := sub]))
  }

  ghost predicate Routed(items: seq<Item>) { forall f | f in items :: f.path != [] }

  function InsertAll(dir: Dir, items: seq<Item>): Result<Dir>
    requires Routed(items)
    decreases |items|
  {
    if items == [] then Ok(dir)
    else
      var d :- Insert(dir, items[0].path, items[0].data);
      InsertAll(d, items[1..])
  }

  method BuildTree(items: seq<Item>) returns (r: Result<Dir>)
    requires Routed(items)
    ensures r == InsertAll(EMPTY, items)
  {
    var root := EMPTY;
    for i := 0 to |items|
      invariant InsertAll(EMPTY, items) == InsertAll(root, items[i..])
    {
      assert items[i..][0] == items[i] && items[i..][1..] == items[i + 1..];
      root :- Insert(root, items[i].path, items[i].data);
    }
    r := Ok(root);
  }

  // ---- what every tree keeps ----

  /** No name is both a directory and a file of one directory, and every name satisfies `ok`. */
  ghost predicate Proper(dir: Dir, ok: Text -> bool) {
    && dir.dirs.Keys !! dir.files.Keys
    && (forall n | n in dir.files :: ok(n))
    && (forall n | n in dir.dirs :: ok(n) && Proper(dir.dirs[n], ok))
  }

  ghost predicate PathOk(path: Path, ok: Text -> bool) {
    forall i | 0 <= i < |path| && path[i].Ok? :: ok(path[i].value)
  }

  lemma {:induction false} InsertKeepsProper(dir: Dir, path: Path, data: seq<byte>, ok: Text -> bool)
    requires path != [] && Proper(dir, ok) && PathOk(path, ok) && Insert(dir, path, data).Ok?
    ensures Proper(Insert(dir, path, data).value, ok)
    decreases |path|
  {
    if |path| > 1 {
      InsertKeepsProper(Child(dir, path[0].value), path[1..], data, ok);
    }
  }

  lemma {:induction false} BuildIsProper(dir: Dir, items: seq<Item>, ok: Text -> bool)
    requires Routed(items) && Proper(dir, ok) && InsertAll(dir, items).Ok?
    requires forall f | f in items :: PathOk(f.path, ok)
    ensures Proper(InsertAll(dir, items).value, ok)
    decreases |items|
  {
    if items != [] {
      var f := items[0];
      InsertKeepsProper(dir, f.path, f.data, ok);
      BuildIsProper(Insert(dir, f.path, f.data).value, items[1..], ok);
    }
  }

  // ---- what a path names ----

  datatype Found = Nothing | AFile(data: seq<byte>) | ADir

  /** What the stored names `names` lead to. */
  function Get(dir: Dir, names: seq<Text>): Found
    decreases |names|
  {
    if names == [] then ADir
    else if |names| == 1 && names[0] in dir.files then AFile(dir.files[names[0]])
    else if names[0] in dir.dirs then Get(dir.dirs[names[0]], names[1..])
    else Nothing
  }

  /** The names of a path none of whose components was refused. */
  function Names(path: Path): (r: Result<seq<Text>>)
    ensures r.Ok? ==> |r.value| == |path|
    ensures r.Ok? <==> forall i | 0 <= i < |path| :: path[i].Ok?
    ensures r.Ok? ==> forall i | 0 <= i < |path| :: path[i] == Ok(r.value[i])
  {
    if path == [] then Ok([])
    else
      var n :- path[0];
      var rest :- Names(path[1..]);
      Ok([n] + rest)
  }

  /** What a query names: nothing when it is empty or one of its components was refused. */
  function Resolve(dir: Dir, path: Path): Found {
    if path == [] || Names(path).Err? then Nothing else Get(dir, Names(path).value)
  }

  predicate ProperPrefix(a: seq<Text>, b: seq<Text>) { |a| < |b| && a == b[..|a|] }

  lemma PrefixSteps(a: seq<Text>, b: seq<Text>)
    requires a != [] && b != []
    ensures ProperPrefix(a, b) <==> a[0] == b[0] && ProperPrefix(a[1..], b[1..])
    ensures a == b <==> a[0] == b[0] && a[1..] == b[1..]
  {
    assert a == [a[0]] + a[1..] && b == [b[0]] + b[1..];
    if |a| < |b| {
      assert b[..|a|] == [b[0]] + b[1..][..|a| - 1];
    }
  }

  lemma {:induction false} InsertOkHasNames(dir: Dir, path: Path, data: seq<byte>)
    requires path != [] && Insert(dir, path, data).Ok?
    ensures Names(path).Ok?
    decreases |path|
  {
    if |path| > 1 {
      InsertOkHasNames(Child(dir, path[0].value), path[1..], data);
    }
  }

  lemma GetInEmpty(names: seq<Text>)
    ensures Get(EMPTY, names) == if names == [] then ADir else Nothing
  {
  }

  ghost function GetBelow(dir: Dir, name: Text, names: seq<Text>): Found
  {
    Get(Child(dir, name), names)
  }

  /** Below a name that is not a file, the tree is what its child directory is. */
  lemma GetStep(dir: Dir, names: seq<Text>)
    requires names != [] && names[0] !in dir.files && (names[0] in dir.dirs || |names| > 1)
    ensures Get(dir, names) == GetBelow(dir, names[0], names[1..])
  {
    GetInEmpty(names[1..]);
  }

  /** Inserting a file changes what its own path names, makes the directories above it, and
      changes nothing else; the path named nothing before. */
  lemma {:induction false} InsertGet(dir: Dir, path: Path, data: seq<byte>, names: seq<Text>, ok: Text -> bool)
    requires path != [] && Insert(dir, path, data).Ok? && Proper(dir, ok)
    ensures Names(path).Ok?
    ensures Get(dir, Names(path).value) == Nothing
    ensures Get(Insert(dir, path, data).value, names) ==
            if names == Names(path).value then AFile(data)
            else if ProperPrefix(names, Names(path).value) then ADir
            else Get(dir, names)
    decreases |path|
  {
    InsertOkHasNames(dir, path, data);
    var key, after := Names(path).value, Insert(dir, path, data).value;
    if names != [] { PrefixSteps(names, key); }
    if |path| > 1 {
      assert key[1..] == Names(path[1..]).value;
      var rest := if names == [] then [] else names[1..];
      InsertGet(Child(dir, key[0]), path[1..], data, rest, ok);
      GetStep(dir, key);
      if names != [] && names[0] == key[0] {
        GetStep(after, names);
        GetInEmpty(rest);
      }
    }
  }

  /** A path that holds a file is never a prefix of one that can still be inserted. */
  lemma {:induction false} NothingBelowAFile(dir: Dir, path: Path, data: seq<byte>, names: seq<Text>)
    requires path != [] && Get(dir, names).AFile? && Insert(dir, path, data).Ok?
    ensures Names(path).Ok? && !ProperPrefix(names, Names(path).value)
    decreases |path|
  {
    InsertOkHasNames(dir, path, data);
    var key := Names(path).value;
    PrefixSteps(names, key);
    if ProperPrefix(names, key) {
      assert key[1..] == Names(path[1..]).value;
      if |names| > 1 {
        NothingBelowAFile(Child(dir, key[0]), path[1..], data, names[1..]);
      }
    }
  }

  predicate Holds(items: seq<Item>, names: seq<Text>, data: seq<byte>) {
    exists f | f in items :: Names(f.path) == Ok(names) && f.data == data
  }

  /** In the tree built from `items`, stored names lead to a file exactly when an item has that
      path, and then to that item's bytes. */
  lemma {:induction false} BuildGet(dir: Dir, items: seq<Item>, names: seq<Text>, data: seq<byte>, ok: Text -> bool)
    requires Routed(items) && InsertAll(dir, items).Ok? && Proper(dir, ok)
    requires forall f | f in items :: PathOk(f.path, ok)
    ensures Get(InsertAll(dir, items).value, names) == AFile(data) <==>
            Get(dir, names) == AFile(data) || Holds(items, names, data)
    ensures Holds(items, names, data) ==> Get(dir, names) == Nothing
    decreases |items|
  {
    if items != [] {
      var f, rest := items[0], items[1..];
      var d := Insert(dir, f.path, f.data).value;
      InsertKeepsProper(dir, f.path, f.data, ok);
      InsertGet(dir, f.path, f.data, names, ok);
      BuildGet(d, rest, names, data, ok);
      if Get(dir, names).AFile? { NothingBelowAFile(dir, f.path, f.data, names); }
      HoldsStep(items, names, data);
    }
  }

  lemma HoldsStep(items: seq<Item>, names: seq<Text>, data: seq<byte>)
    requires items != []
    ensures Holds(items, names, data) <==>
            (Names(items[0].path) == Ok(names) && items[0].data == data) || Holds(items[1..], names, data)
  {
    assert forall f | f in items :: f == items[0] || f in items[1..];
  }

  /** Some item lies below the names. */
  ghost predicate Above(items: seq<Item>, names: seq<Text>) {
    exists f | f in items :: Names(f.path).Ok? && ProperPrefix(names, Names(f.path).value)
  }

  lemma AboveStep(items: seq<Item>, names: seq<Text>)
    requires items != []
    ensures Above(items, names) <==>
            (Names(items[0].path).Ok? && ProperPrefix(names, Names(items[0].path).value)) || Above(items[1..], names)
  {
    assert forall f | f in items :: f == items[0] || f in items[1..];
  }

  /** In the tree built from `items`, stored names lead to a directory exactly when an item lies
      below them. */
  lemma {:induction false} BuildGetDir(dir: Dir, items: seq<Item>, names: seq<Text>, ok: Text -> bool)
    requires Routed(items) && InsertAll(dir, items).Ok? && Proper(dir, ok)
    requires forall f | f in items :: PathOk(f.path, ok)
    ensures Get(InsertAll(dir, items).value, names) == ADir <==> Get(dir, names) == ADir || Above(items, names)
    decreases |items|
  {
    if items != [] {
      var f, rest := items[0], items[1..];
      var d := Insert(dir, f.path, f.data).value;
      InsertKeepsProper(dir, f.path, f.data, ok);
      InsertGet(dir, f.path, f.data, names, ok);
      BuildGetDir(d, rest, names, ok);
      BuildGet(d, rest, names, f.data, ok);
      AboveStep(items, names);
    }
  }

  // ---- the order of the files does not matter ----

  /** Both fail, or both give the same value. */
  predicate Same<T(==)>(a: Result<T>, b: Result<T>) { a == b || (a.Err? && b.Err?) }

  function InsertTwo(dir: Dir, f: Item, g: Item): Result<Dir>
    requires f.path != [] && g.path != []
  {
    var d :- Insert(dir, f.path, f.data);
    Insert(d, g.path, g.data)
  }

  /** The conflict rules are symmetric and insertion commutes. */
  lemma {:induction false} InsertCommutes(dir: Dir, f: Item, g: Item)
    requires f.path != [] && g.path != []
    ensures Same(InsertTwo(dir, f, g), InsertTwo(dir, g, f))
    decreases |f.path|
  {
    var m, n := f.path[0], g.path[0];
    if m.Ok? && n.Ok? {
      if m != n {
        DifferentNamesCommute(dir, f, g);
      } else if |f.path| > 1 && |g.path| > 1 && m.value !in dir.files {
        InsertCommutes(Child(dir, m.value), Item(f.path[1..], f.data), Item(g.path[1..], g.data));
        InsertBelow(dir, f, g);
        InsertBelow(dir, g, f);
      }
    }
  }

  /** Two insertions below one directory are two insertions into it. */
  lemma InsertBelow(dir: Dir, f: Item, g: Item)
    requires |f.path| > 1 && |g.path| > 1 && f.path[0].Ok? && f.path[0] == g.path[0]
    requires f.path[0].value !in dir.files
    ensures var name := f.path[0].value;
      var r := InsertTwo(Child(dir, name), Item(f.path[1..], f.data), Item(g.path[1..], g.data));
      InsertTwo(dir, f, g) == if r.Ok? then Ok(dir.(dirs := dir.dirs[name := r.value])) else r
  {
    var name := f.path[0].value;
    var d := Insert(dir, f.path, f.data);
    if d.Ok? {
      assert Child(d.value, name) == Insert(Child(dir, name), f.path[1..], f.data).value;
      var r := Insert(Child(d.value, name), g.path[1..], g.data);
      if r.Ok? {
        assert d.value.dirs[name := r.value] == dir.dirs[name := r.value];
      }
    }
  }

  lemma DifferentNamesCommute(dir: Dir, f: Item, g: Item)
    requires f.path != [] && g.path != [] && f.path[0].Ok? && g.path[0].Ok? && f.path[0] != g.path[0]
    ensures Same(InsertTwo(dir, f, g), InsertTwo(dir, g, f))
  {
    var m, n := f.path[0].value, g.path[0].value;
    var a, b := Insert(dir, f.path, f.data), Insert(dir, g.path, g.data);
    if a.Ok? {
      assert Child(a.value, n) == Child(dir, n);
    }
    if b.Ok? {
      assert Child(b.value, m) == Child(dir, m);
    }
    if a.Ok? && b.Ok? {
      var r, s := InsertTwo(dir, f, g), InsertTwo(dir, g, f);
      assert r.value.dirs == s.value.dirs && r.value.files == s.value.files;
    }
  }

  lemma {:induction false} MoveToFront(dir: Dir, before: seq<Item>, f: Item, after: seq<Item>)
    requires Routed(before + [f] + after)
    ensures Routed([f] + before + after)
    ensures Same(InsertAll(dir, before + [f] + after), InsertAll(dir, [f] + before + after))
    decreases |before|
  {
    assert Routed([f] + before + after) by {
      assert forall x | x in [f] + before + after :: x in before + [f] + after;
    }
    if before == [] {
      assert before + [f] + after == [f] + before + after;
    } else {
      var g, rest := before[0], before[1..];
      assert g in before + [f] + after && f in before + [f] + after;
      assert (before + [f] + after)[1..] == rest + [f] + after;
      assert ([f] + before + after)[1..] == [g] + rest + after;
      assert ([g] + rest + after)[1..] == rest + after;
      assert ([f] + rest + after)[1..] == rest + after;
      var d := Insert(dir, g.path, g.data);
      if d.Ok? {
        MoveToFront(d.value, rest, f, after);
      }
      InsertCommutes(dir, g, f);
    }
  }

  lemma Cancel<T(!new)>(c: multiset<T>, a: multiset<T>, b: multiset<T>)
    requires c + a == c + b
    ensures a == b
  {
    forall x: T ensures a[x] == b[x] {
      assert (c + a)[x] == c[x] + a[x] && (c + b)[x] == c[x] + b[x];
    }
  }

  /** Where the first of `items` stands in a reordering of them, with the rest around it. */
  lemma FindFirst<T(!new)>(items: seq<T>, other: seq<T>) returns (before: seq<T>, after: seq<T>)
    requires multiset(items) == multiset(other) && items != []
    ensures other == before + [items[0]] + after
    ensures multiset(items[1..]) == multiset(before + after)
  {
    var f := items[0];
    assert f in multiset(other);
    var k :| 0 <= k < |other| && other[k] == f;
    before, after := other[..k], other[k + 1..];
    assert other == before + [f] + after && items == [f] + items[1..];
    assert multiset(items) == multiset{f} + multiset(items[1..]);
    assert multiset(other) == multiset(before) + multiset{f} + multiset(after);
    var rest := multiset(before) + multiset(after);
    Cancel(multiset{f}, multiset(items[1..]), rest);
  }

  lemma RoutedReordered(items: seq<Item>, other: seq<Item>)
    requires multiset(items) == multiset(other) && Routed(items)
    ensures Routed(other)
  {
    forall f | f in other ensures f.path != [] {
      assert f in multiset(other);
      assert f in multiset(items);
    }
  }

  /** Any two orders of the same files build the same tree, or neither builds one. */
  lemma {:induction false} BuildIgnoresOrder(dir: Dir, items: seq<Item>, other: seq<Item>)
    requires multiset(items) == multiset(other) && Routed(items) && Routed(other)
    ensures Same(InsertAll(dir, items), InsertAll(dir, other))
    decreases |items|
  {
    if items == [] {
      assert |other| == |multiset(other)| == 0;
    } else {
      var f := items[0];
      var before, after := FindFirst(items, other);
      MoveToFront(dir, before, f, after);
      assert ([f] + before + after)[1..] == before + after;
      RoutedReordered(items[1..], before + after);
      var d := Insert(dir, f.path, f.data);
      if d.Ok? {
        BuildIgnoresOrder(d.value, items[1..], before + after);
      }
    }
  }
}
