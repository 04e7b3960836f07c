/** Exactly when files make a tree. */
module FatConflicts {
  import opened Bytes
  import opened FatResult
  import opened FatTree
  import FatNames
  import FatPaths
  import FatTheorems

  /** Some shorter path than `names`, its own end excepted, holds a file. */
  ghost predicate ThroughFile(dir: Dir, names: seq<Text>) {
    exists k | 0 < k < |names| :: Get(dir, names[..k]).AFile?
  }

  lemma GetChild(dir: Dir, names: seq<Text>)
    requires names != [] && names[0] !in dir.files && |names| > 1
    ensures Get(dir, names) == Get(Child(dir, names[0]), names[1..])
  {
    GetStep(dir, names);
  }

  lemma ThroughChild(dir: Dir, names: seq<Text>)
    requires |names| > 1 && names[0] !in dir.files
    ensures ThroughFile(dir, names) <==> ThroughFile(Child(dir, names[0]), names[1..])
  {
    hide Get, Child;
    var below := names[1..];
    if k :| 0 < k < |names| && Get(dir, names[..k]).AFile? {
      if k == 1 {
        NoFileHere(dir, names);
      } else {
        assert names[..k][1..] == below[..k - 1] && names[..k][0] == names[0];
        GetChild(dir, names[..k]);
        assert Get(Child(dir, names[0]), below[..k - 1]).AFile?;
      }
    }
    if k :| 0 < k < |below| && Get(Child(dir, names[0]), below[..k]).AFile? {
      assert names[..k + 1][1..] == below[..k] && names[..k + 1][0] == names[0];
      GetChild(dir, names[..k + 1]);
      assert Get(dir, names[..k + 1]).AFile?;
    }
  }

  lemma NoFileHere(dir: Dir, names: seq<Text>)
    requires names != [] && names[0] !in dir.files
    ensures !Get(dir, names[..1]).AFile?
  {
    assert names[..1] == [names[0]];
  }

  /** A file is inserted exactly when its path is acceptable, names nothing yet, and passes
      through no file. */
  lemma {:induction false} InsertExact(dir: Dir, path: Path, data: seq<byte>, ok: Text -> bool)
    requires path != [] && Proper(dir, ok)
    ensures Insert(dir, path, data).Ok? <==>
            Names(path).Ok? && Get(dir, Names(path).value) == Nothing && !ThroughFile(dir, Names(path).value)
    decreases |path|
  {
    hide ThroughFile, Get;
    if Names(path).Err? {
      if Insert(dir, path, data).Ok? { InsertOkHasNames(dir, path, data); }
    } else {
      var key := Names(path).value;
      assert path[0] == Ok(key[0]);
      if |path| == 1 {
        OneName(dir, key);
      } else if key[0] in dir.files {
        BlockedAt(dir, key);
      } else {
        assert key[1..] == Names(path[1..]).value;
        ChildIsProper(dir, key[0], ok);
        InsertExact(Child(dir, key[0]), path[1..], data, ok);
        GetChild(dir, key);
        ThroughChild(dir, key);
      }
    }
  }

  lemma ChildIsProper(dir: Dir, name: Text, ok: Text -> bool)
    requires Proper(dir, ok)
    ensures Proper(Child(dir, name), ok)
  {
  }

  lemma OneName(dir: Dir, key: seq<Text>)
    requires |key| == 1
    ensures Get(dir, key) == Nothing <==> key[0] !in dir.dirs && key[0] !in dir.files
    ensures !ThroughFile(dir, key)
  {
    if key[0] in dir.dirs { assert key[1..] == []; }
  }

  lemma BlockedAt(dir: Dir, key: seq<Text>)
    requires |key| > 1 && key[0] in dir.files
    ensures ThroughFile(dir, key)
  {
    assert key[..1] == [key[0]];
    assert Get(dir, key[..1]).AFile?;
  }

  // ---- many files ----

  /** Neither path is a prefix of the other, nor the same. */
  predicate Apart(a: Path, b: Path) { !(a <= b) && !(b <= a) }

  ghost predicate Compatible(items: seq<Item>) {
    && (forall i | 0 <= i < |items| :: Names(items[i].path).Ok?)
    && forall i, j | 0 <= i < j < |items| :: Apart(items[i].path, items[j].path)
  }

  lemma {:induction false} InsertAllAppend(dir: Dir, items: seq<Item>, f: Item)
    requires Routed(items) && f.path != []
    ensures Routed(items + [f])
    ensures InsertAll(dir, items + [f]) ==
            var r := InsertAll(dir, items); if r.Ok? then Insert(r.value, f.path, f.data) else r
    decreases |items|
  {
    hide Insert;
    assert forall x | x in items + [f] :: x in items || x == f;
    if items == [] {
      assert items + [f] == [f] && [f][1..] == [];
    } else {
      assert (items + [f])[1..] == items[1..] + [f];
      var d := Insert(dir, items[0].path, items[0].data);
      if d.Ok? { InsertAllAppend(d.value, items[1..], f); }
    }
  }

  lemma PathNames(a: Path, b: Path)
    requires Names(a).Ok? && Names(b).Ok?
    ensures a <= b <==> Names(a).value <= Names(b).value
  {
    var x, y := Names(a).value, Names(b).value;
    if a <= b {
      forall i | 0 <= i < |x| ensures x[i] == y[i] { assert a[i] == b[i] && a[i] == Ok(x[i]) && b[i] == Ok(y[i]); }
    }
    if x <= y {
      forall i | 0 <= i < |a| ensures a[i] == b[i] { assert a[i] == Ok(x[i]) && b[i] == Ok(y[i]) && x[i] == y[i]; }
    }
  }

  /** Names lead to a file of a built tree exactly when an item has that path. */
  lemma FileAt(items: seq<Item>, names: seq<Text>, ok: Text -> bool)
    requires Routed(items) && InsertAll(EMPTY, items).Ok? && Proper(EMPTY, ok)
      && forall f | f in items :: PathOk(f.path, ok)
    ensures Get(InsertAll(EMPTY, items).value, names).AFile? <==> exists i | 0 <= i < |items| ::
      Names(items[i].path) == Ok(names)
  {
    hide Get, InsertAll, Names, PathOk, Proper;
    GetInEmpty(names);
    var found := Get(InsertAll(EMPTY, items).value, names);
    if found.AFile? {
      BuildGet(EMPTY, items, names, found.data, ok);
      var f :| f in items && Names(f.path) == Ok(names) && f.data == found.data;
      var i :| 0 <= i < |items| && items[i] == f;
    }
    if i :| 0 <= i < |items| && Names(items[i].path) == Ok(names) {
      BuildGet(EMPTY, items, names, items[i].data, ok);
      assert items[i] in items;
    }
  }

  /** What stands in the way of a path among the items placed before it. */
  lemma InTheWay(items: seq<Item>, path: Path, ok: Text -> bool)
    requires Routed(items) && InsertAll(EMPTY, items).Ok? && Proper(EMPTY, ok)
      && forall f | f in items :: PathOk(f.path, ok)
    requires Names(path).Ok? && path != [] && forall i | 0 <= i < |items| :: Names(items[i].path).Ok?
    ensures var d, key := InsertAll(EMPTY, items).value, Names(path).value;
      Get(d, key) == Nothing && !ThroughFile(d, key) <==> forall i | 0 <= i < |items| :: Apart(items[i].path, path)
  {
    hide Get, InsertAll, Names, PathOk, Proper, ThroughFile;
    var d, key := InsertAll(EMPTY, items).value, Names(path).value;
    FileAt(items, key, ok);
    BuildGetDir(EMPTY, items, key, ok);
    GetInEmpty(key);
    ThroughIs(items, key, ok);
    forall i | 0 <= i < |items|
      ensures Apart(items[i].path, path) <==>
              Names(items[i].path).value != key && !ProperPrefix(key, Names(items[i].path).value)
                && !ProperPrefix(Names(items[i].path).value, key)
    {
      PathNames(items[i].path, path);
      PathNames(path, items[i].path);
      PrefixesAre(Names(items[i].path).value, key);
    }
    AboveIs(items, key);
  }

  lemma PrefixesAre(x: seq<Text>, y: seq<Text>)
    ensures x <= y <==> x == y || ProperPrefix(x, y)
    ensures y <= x <==> x == y || ProperPrefix(y, x)
  {
  }

  lemma AboveIs(items: seq<Item>, key: seq<Text>)
    requires forall i | 0 <= i < |items| :: Names(items[i].path).Ok?
    ensures Above(items, key) <==> exists i | 0 <= i < |items| :: ProperPrefix(key, Names(items[i].path).value)
  {
    hide Names, ProperPrefix;
    if Above(items, key) {
      var f :| f in items && Names(f.path).Ok? && ProperPrefix(key, Names(f.path).value);
      var i :| 0 <= i < |items| && items[i] == f;
    }
  }

  lemma ThroughIs(items: seq<Item>, key: seq<Text>, ok: Text -> bool)
    requires Routed(items) && InsertAll(EMPTY, items).Ok? && Proper(EMPTY, ok)
      && forall f | f in items :: PathOk(f.path, ok)
    requires forall i | 0 <= i < |items| :: Names(items[i].path).Ok?
    ensures ThroughFile(InsertAll(EMPTY, items).value, key) <==>
            exists i | 0 <= i < |items| :: ProperPrefix(Names(items[i].path).value, key)
  {
    hide Get, InsertAll, PathOk, Proper, Names;
    var d := InsertAll(EMPTY, items).value;
    if k :| 0 < k < |key| && Get(d, key[..k]).AFile? {
      FileAt(items, key[..k], ok);
      var i :| 0 <= i < |items| && Names(items[i].path) == Ok(key[..k]);
      assert ProperPrefix(Names(items[i].path).value, key);
    }
    if i :| 0 <= i < |items| && ProperPrefix(Names(items[i].path).value, key) {
      var k := |Names(items[i].path).value|;
      NamesNotEmpty(items[i]);
      assert items[i] in items;
      FileAt(items, key[..k], ok);
      assert Get(d, key[..k]).AFile?;
    }
  }

  lemma NamesNotEmpty(f: Item)
    requires Names(f.path).Ok?
    ensures f.path != [] ==> |Names(f.path).value| > 0
  {
  }

  /** Files make a tree exactly when every path is acceptable and none is a prefix of another. */
  lemma {:induction false} BuildExact(items: seq<Item>, ok: Text -> bool)
    requires Routed(items) && Proper(EMPTY, ok) && forall f | f in items :: PathOk(f.path, ok)
    ensures InsertAll(EMPTY, items).Ok? <==> Compatible(items)
    decreases |items|
  {
    hide Insert, InsertAll, Names, PathOk, Proper, Get, ThroughFile, Apart;
    if items == [] {
      NoneBuilt();
    } else {
      var n := |items| - 1;
      var before, f := items[..n], items[n];
      assert items == before + [f] && f in items;
      assert forall x | x in before :: x in items;
      BuildExact(before, ok);
      InsertAllAppend(EMPTY, before, f);
      if InsertAll(EMPTY, before).Ok? {
        var d := InsertAll(EMPTY, before).value;
        BuildIsProper(EMPTY, before, ok);
        InsertExact(d, f.path, f.data, ok);
        if Names(f.path).Ok? { InTheWay(before, f.path, ok); }
      }
      CompatibleStep(items, before, f);
    }
  }

  lemma NoneBuilt()
    ensures InsertAll(EMPTY, []).Ok?
  {
  }

  lemma CompatibleStep(items: seq<Item>, before: seq<Item>, f: Item)
    requires items == before + [f]
    ensures Compatible(items) <==>
            Compatible(before) && Names(f.path).Ok? && forall i | 0 <= i < |before| :: Apart(before[i].path, f.path)
  {
    hide Names, Apart;
    var n := |before|;
    if Compatible(items) {
      forall i | 0 <= i < n ensures Names(before[i].path).Ok? && Apart(before[i].path, f.path) {
        assert items[i] == before[i] && items[n] == f;
      }
      forall i, j | 0 <= i < j < n ensures Apart(before[i].path, before[j].path) {
        assert items[i] == before[i] && items[j] == before[j];
      }
    }
    if Compatible(before) && Names(f.path).Ok? && forall i | 0 <= i < n :: Apart(before[i].path, f.path) {
      forall i | 0 <= i <= n ensures Names(items[i].path).Ok? { if i < n { assert items[i] == before[i]; } }
      forall i, j | 0 <= i < j <= n ensures Apart(items[i].path, items[j].path) {
        assert items[i] == before[i];
        if j < n { assert items[j] == before[j]; }
      }
    }
  }

  /** A list of files makes a tree exactly when `short_name` accepts every component and no file
      has another's path or lies below it. */
  lemma TreeExact(files: seq<FatPaths.File>)
    ensures FatTheorems.Tree(files).Ok? <==>
            (forall f | f in files :: forall c | c in FatPaths.Split(f.path) :: FatNames.ShortName(c).Ok?)
            && forall i, j | 0 <= i < j < |files| :: Apart(FatPaths.Route(files[i].path), FatPaths.Route(files[j].path))
  {
    hide InsertAll, PathOk, Proper, FatNames.ShortName, Apart, FatPaths.Split;
    var items := FatPaths.Items(files);
    FatTheorems.ItemsPlaceable(files);
    FatTheorems.EmptyIsProper(FatTheorems.Stored8);
    BuildExact(items, FatTheorems.Stored8);
    forall i | 0 <= i < |files|
      ensures Names(items[i].path).Ok? <==> forall c | c in FatPaths.Split(files[i].path) :: FatNames.ShortName(c).Ok?
    {
      RouteAccepts(files[i].path);
    }
  }

  lemma RouteAccepts(path: FatNames.Text)
    ensures Names(FatPaths.Route(path)).Ok? <==> forall c | c in FatPaths.Split(path) :: FatNames.ShortName(c).Ok?
  {
    hide FatNames.ShortName, FatPaths.Split;
    var parts := FatPaths.Split(path);
    if Names(FatPaths.Route(path)).Ok? {
      forall c | c in parts ensures FatNames.ShortName(c).Ok? {
        var i :| 0 <= i < |parts| && parts[i] == c;
        assert FatPaths.Route(path)[i].Ok?;
      }
    }
  }
}
