/** What a written volume reads as: the promises `volume`, `open` and `read` keep together. */
module FatTheorems {
  import opened Bytes
  import opened Optional
  import opened FatResult
  import opened FatLayout
  import opened FatNames
  import opened FatPaths
  import opened FatTree
  import opened FatWriter
  import opened FatStored
  import opened FatContents
  import opened FatImage
  import opened FatVolume
  import opened FatRoom
  import opened FatReader
  import opened FatFiles
  import opened FatOpened
  import opened FatView
  import opened FatRoundTrip
  import opened FatLookup
  import Ordered

  // ---- the volume of a list of files ----

  ghost predicate Stored8(n: FatNames.Text) { ValidName(n) }

  lemma RouteOk(path: FatNames.Text)
    ensures PathOk(Route(path), Stored8) && PathOk(Route(path), Eleven)
  {
    forall i | 0 <= i < |Route(path)| && Route(path)[i].Ok?
      ensures Stored8(Route(path)[i].value) && Eleven(Route(path)[i].value)
    {
      assert Route(path)[i] == ShortName(Split(path)[i]);
    }
  }

  /** The paths of files make items that can be placed, or are refused. */
  lemma ItemsPlaceable(files: seq<File>)
    ensures Placeable(Items(files)) && forall f | f in Items(files) :: PathOk(f.path, Stored8)
  {
    hide Route, ShortName, PathOk;
    forall f | f in Items(files) ensures f.path != [] && PathOk(f.path, Eleven) && PathOk(f.path, Stored8) {
      var i :| 0 <= i < |files| && Items(files)[i] == f;
      RouteOk(files[i].path);
    }
  }

  /** The bytes of the volume of shape `p` that holds the files. */
  function VolumeBytes(files: seq<File>, p: Params): Result<seq<byte>>
    requires p.sectorsPerCluster > 0
  {
    ItemsPlaceable(files);
    VolumeOf(Items(files), p)
  }

  /** The tree the files make. */
  ghost function Tree(files: seq<File>): Result<Dir> {
    ItemsPlaceable(files);
    InsertAll(EMPTY, Items(files))
  }

  /** Shapes the reader can be asked about: at least one table, a sector for the boot sector, and
      a label a reader does not take for the end of the root. */
  predicate Sound(p: Params) { Shaped(p) && p.volumeLabel[0] != 0 }

  predicate Shaped(p: Params) { p.sectorsPerCluster > 0 && p.fats >= 1 && p.reserved >= 1 }

  /** The clusters a tree takes have numbers below the marks of the format. */
  predicate TreeLow(dir: Dir, p: Params)
    requires p.sectorsPerCluster > 0
  {
    LayoutOf(p).Ok? ==>
      var g := LayoutOf(p).value;
      LayoutIsLeastAndFits(p);
      SpaceIsValid(p, g);
      Taken(SpaceOf(p, g), dir) <= p.format.BadCluster()
  }

  /** And so do those the files take. */
  ghost predicate Low(files: seq<File>, p: Params)
    requires p.sectorsPerCluster > 0
  {
    Tree(files).Ok? ==> TreeLow(Tree(files).value, p)
  }

  lemma {:induction false} AllFilesNamed(files: seq<Stored>, ok: FatNames.Text -> bool)
    requires forall i | 0 <= i < |files| :: ok(files[i].name)
    ensures FilesNamed(files, ok)
    decreases |files|
  {
    if files != [] { AllFilesNamed(files[1..], ok); }
  }

  lemma FilesAreNamed(pl: Placed, dir: Dir, ok: FatNames.Text -> bool)
    requires Mirrors(pl, dir) && Proper(dir, ok)
    ensures FilesNamed(pl.files, ok)
  {
    AllFilesNamed(pl.files, ok);
  }

  lemma {:induction false} MirrorNamed(pl: Placed, dir: Dir, ok: FatNames.Text -> bool)
    requires Mirrors(pl, dir) && Proper(dir, ok)
    ensures TreeNamed(pl, ok)
    decreases dir, 1, 0
  {
    FilesAreNamed(pl, dir, ok);
    SubsMirrorNamed(pl.subs, dir, Ordered.Keys(dir.dirs.Keys), ok);
  }

  lemma {:induction false} SubsMirrorNamed(subs: seq<Link>, dir: Dir, names: seq<FatNames.Text>,
        ok: FatNames.Text -> bool)
    requires (forall n | n in names :: n in dir.dirs) && SubsMirror(subs, dir, names) && Proper(dir, ok)
    ensures SubsNamed(subs, ok)
    decreases dir, 0, |names|
  {
    if names != [] {
      assert ok(names[0]);
      MirrorNamed(subs[0].dir, dir.dirs[names[0]], ok);
      SubsMirrorNamed(subs[1..], dir, names[1..], ok);
    }
  }

  /** The parts of a volume made from a tree. */
  lemma VolumeParts(dir: Dir, p: Params) returns (g: Layout, d: Disk)
    requires p.sectorsPerCluster > 0 && Proper(dir, Eleven) && VolumeFrom(dir, p).Ok?
    ensures LayoutOf(p) == Ok(g) && Fits(p, g) && p.format.Admits(g.clusters) && SpaceOf(p, g).Valid()
    ensures Fill(SpaceOf(p, g), dir) == Ok(d) && Sized(SpaceOf(p, g), d)
    ensures VolumeFrom(dir, p) == Ok(Finish(p, g, d))
  {
    g := LayoutOf(p).value;
    LayoutIsLeastAndFits(p);
    SpaceIsValid(p, g);
    d := Fill(SpaceOf(p, g), dir).value;
  }

  /** A held tree stands at the root. */
  lemma RootStands(s: Space, d: Disk, pl: Placed, dir: Dir, ok: FatNames.Text -> bool)
    requires DiskHolds(s, d, pl, dir) && Proper(dir, ok) && Encoded(ok) && s.volumeLabel[0] != 0
    ensures Standing(s, d, pl, true, 0, 2 + DirSpan(s, pl, true), dir, ok)
  {
    hide DirStored, InPlace, DirSpan, AllFiles, Encoded, TreeNamed, Mirrors, FreeFrom, SubsPreorder;
    MirrorNamed(pl, dir, ok);
  }

  lemma DiskAddressable(dir: Dir, p: Params, g: Layout, d: Disk)
    requires Shaped(p) && TreeLow(dir, p) && LayoutOf(p) == Ok(g) && Proper(dir, Eleven)
    requires SpaceOf(p, g).Valid() && Fill(SpaceOf(p, g), dir) == Ok(d)
    ensures Addressable(SpaceOf(p, g), d) && SpaceOf(p, g).volumeLabel == p.volumeLabel
  {
    hide Fill, Proper, LayoutOf, Space.Valid, Taken;
    FillRoom(SpaceOf(p, g), dir);
  }

  /** What reading gives for what a query names. */
  function ReadAs(found: Found): Result<Option<seq<byte>>> {
    match found
    case Nothing => Ok(None)
    case AFile(data) => Ok(Some(data))
    case ADir => Err(IsDirectory)
  }

  lemma FoundReads(v: Volume, parts: seq<FatNames.Text>, found: Found)
    requires v.Valid() && Finds(v, FindFrom(v, None, parts), found)
    ensures Read(v, parts) == ReadAs(found)
  {
    hide FindFrom, ChainBytes;
  }

  /** A volume made from a tree opens, and every query reads as what it names in the tree. */
  lemma TreeReads(dir: Dir, p: Params, parts: seq<FatNames.Text>, ok: FatNames.Text -> bool)
    requires Sound(p) && Proper(dir, Eleven) && Proper(dir, ok) && Encoded(ok) && VolumeFrom(dir, p).Ok?
      && TreeLow(dir, p)
    ensures var v := Open(p.format, VolumeFrom(dir, p).value);
      v.Ok? && v.value.Valid() && Read(v.value, parts) == ReadAs(Resolve(dir, QueryPath(parts)))
  {
    hide *;
    SoundParts(p);
    var g, d := VolumeParts(dir, p);
    var s := SpaceOf(p, g);
    var pl := FillHolds(s, dir);
    DiskAddressable(dir, p, g, d);
    FinishOpens(p, g, d);
    FinishShows(p, g, d);
    var v := VolumeFor(p, g, Finish(p, g, d));
    RootStands(s, d, pl, dir, ok);
    StandingParts(s, d, pl, true, 0, 2 + DirSpan(s, pl, true), dir, ok);
    RootRef(pl);
    if parts == [] {
      EmptyQuery(v, dir);
    } else {
      LookupReads(v, s, d, pl, true, 0, 2 + DirSpan(s, pl, true), dir, parts, ok);
      FoundReads(v, parts, Resolve(dir, QueryPath(parts)));
    }
  }

  lemma SoundParts(p: Params)
    requires Sound(p)
    ensures Shaped(p) && p.sectorsPerCluster > 0 && p.fats >= 1 && p.reserved >= 1 && p.volumeLabel[0] != 0
  {
  }

  lemma RootRef(pl: Placed)
    ensures RefOf(pl, true) == None
  {
  }

  lemma EmptyQuery(v: Volume, dir: Dir)
    requires v.Valid()
    ensures Read(v, []) == ReadAs(Resolve(dir, QueryPath([])))
  {
  }

  /** The tree of files that made a volume. */
  lemma TreeOf(files: seq<File>, p: Params) returns (dir: Dir)
    requires p.sectorsPerCluster > 0 && VolumeBytes(files, p).Ok?
    ensures Tree(files) == Ok(dir) && Proper(dir, Eleven) && Proper(dir, Stored8)
    ensures VolumeBytes(files, p) == VolumeFrom(dir, p)
  {
    hide Insert, Route, ShortName, VolumeFrom, Proper, PathOk;
    ItemsPlaceable(files);
    dir := InsertAll(EMPTY, Items(files)).value;
    EmptyIsProper(Eleven);
    EmptyIsProper(Stored8);
    BuildIsProper(EMPTY, Items(files), Eleven);
    BuildIsProper(EMPTY, Items(files), Stored8);
  }

  lemma EmptyIsProper(ok: FatNames.Text -> bool)
    ensures Proper(EMPTY, ok)
  {
  }

  /** What a volume of files reads as, for every query. */
  lemma VolumeReads(files: seq<File>, p: Params, path: FatNames.Text)
    requires Sound(p) && VolumeBytes(files, p).Ok? && Low(files, p)
    ensures Tree(files).Ok?
    ensures var v := Open(p.format, VolumeBytes(files, p).value);
      v.Ok? && v.value.Valid() && Read(v.value, Parts(path)) ==
        ReadAs(Resolve(Tree(files).value, QueryPath(Parts(path))))
  {
    hide *;
    SoundParts(p);
    var dir := TreeOf(files, p);
    LowTree(files, p, dir);
    StoredIsEncoded();
    TreeReads(dir, p, Parts(path), Stored8);
  }

  lemma LowTree(files: seq<File>, p: Params, dir: Dir)
    requires p.sectorsPerCluster > 0 && Low(files, p) && Tree(files) == Ok(dir)
    ensures TreeLow(dir, p)
  {
  }

  lemma StoredIsEncoded()
    ensures Encoded(Stored8)
  {
  }

  /** A query asks for a path's file: each component has the stored name of the path's, and
      none ends in a dot. */
  predicate Asks(query: FatNames.Text, path: FatNames.Text) {
    Names(QueryPath(Parts(query))).Ok? && QueryPath(Parts(query)) == Route(path)
  }

  ghost predicate AsksFor(files: seq<File>, query: FatNames.Text, data: seq<byte>) {
    exists f | f in files :: f.data == data && Asks(query, f.path)
  }

  /** A query asks for a directory that some file lies below. */
  ghost predicate AsksAbove(files: seq<File>, query: FatNames.Text) {
    var q := QueryPath(Parts(query));
    Names(q).Ok? && q != [] && exists f | f in files :: q < Route(f.path)
  }

  lemma SameNames(a: Path, b: Path)
    requires Names(a).Ok?
    ensures a == b <==> Names(b) == Names(a)
  {
    if Names(b) == Names(a) {
      forall i | 0 <= i < |a| ensures a[i] == b[i] { assert a[i] == Ok(Names(a).value[i]); }
    }
  }

  lemma PrefixNames(a: Path, b: Path)
    requires Names(a).Ok? && Names(b).Ok?
    ensures a < b <==> ProperPrefix(Names(a).value, Names(b).value)
  {
    var x, y := Names(a).value, Names(b).value;
    if a < b {
      forall i | 0 <= i < |x| ensures x[i] == y[i] { assert a[i] == b[i] && a[i] == Ok(x[i]) && b[i] == Ok(y[i]); }
    }
    if ProperPrefix(x, y) {
      forall i | 0 <= i < |a| ensures a[i] == b[i] {
        assert a[i] == Ok(x[i]) && b[i] == Ok(y[i]) && x[i] == y[..|x|][i];
      }
    }
  }

  /** Items hold data under a query's names exactly when a file with that data is asked for. */
  lemma HoldsIsAsked(files: seq<File>, query: FatNames.Text, data: seq<byte>)
    requires Names(QueryPath(Parts(query))).Ok?
    ensures Holds(Items(files), Names(QueryPath(Parts(query))).value, data) <==>
            AsksFor(files, query, data)
  {
    hide QueryPath, Route, Parts, Names;
    var q := QueryPath(Parts(query));
    forall f | f in files ensures Asks(query, f.path) <==> Names(Route(f.path)) == Ok(Names(q).value) {
      SameNames(q, Route(f.path));
    }
    if Holds(Items(files), Names(q).value, data) {
      var x :| x in Items(files) && Names(x.path) == Ok(Names(q).value) && x.data == data;
      var i :| 0 <= i < |files| && Items(files)[i] == x;
      assert files[i] in files && Asks(query, files[i].path);
    }
    if exists f | f in files :: f.data == data && Asks(query, f.path) {
      var f :| f in files && f.data == data && Asks(query, f.path);
      var i :| 0 <= i < |files| && files[i] == f;
      assert Items(files)[i] in Items(files) && Items(files)[i] == ItemOf(f);
    }
  }

  /** Every path of the files that made a tree was accepted. */
  lemma {:induction false} BuiltPaths(dir: Dir, items: seq<Item>, i: nat)
    requires Routed(items) && InsertAll(dir, items).Ok? && i < |items|
    ensures Names(items[i].path).Ok?
    decreases |items|
  {
    InsertOkHasNames(dir, items[0].path, items[0].data);
    if i > 0 { BuiltPaths(Insert(dir, items[0].path, items[0].data).value, items[1..], i - 1); }
  }

  lemma AcceptedPath(files: seq<File>, f: File)
    requires Tree(files).Ok? && f in files
    ensures Names(Route(f.path)).Ok?
  {
    hide Route, Names, Insert, InsertAll;
    ItemsPlaceable(files);
    var i :| 0 <= i < |files| && files[i] == f;
    BuiltPaths(EMPTY, Items(files), i);
  }

  /** Items lie below a query's names exactly when a file below it was given. */
  lemma AboveIsReached(files: seq<File>, query: FatNames.Text)
    requires Tree(files).Ok? && Names(QueryPath(Parts(query))).Ok?
    ensures Above(Items(files), Names(QueryPath(Parts(query))).value) <==>
            exists f | f in files :: QueryPath(Parts(query)) < Route(f.path)
  {
    hide QueryPath, Route, Parts, Names, ProperPrefix, Tree;
    var q := QueryPath(Parts(query));
    forall f | f in files
      ensures Names(Route(f.path)).Ok?
      ensures q < Route(f.path) <==> ProperPrefix(Names(q).value, Names(Route(f.path)).value)
    {
      AcceptedPath(files, f);
      PrefixNames(q, Route(f.path));
    }
    if Above(Items(files), Names(q).value) {
      var x :| x in Items(files) && Names(x.path).Ok? && ProperPrefix(Names(q).value, Names(x.path).value);
      var i :| 0 <= i < |files| && Items(files)[i] == x;
      assert files[i] in files && q < Route(files[i].path);
    }
    if exists f | f in files :: q < Route(f.path) {
      var f :| f in files && q < Route(f.path);
      var i :| 0 <= i < |files| && files[i] == f;
      assert Items(files)[i] in Items(files) && Items(files)[i] == ItemOf(f);
    }
  }

  /** What a query names in the tree of the files. */
  lemma ResolveInTree(files: seq<File>, query: FatNames.Text, data: seq<byte>)
    requires Tree(files).Ok?
    ensures var found := Resolve(Tree(files).value, QueryPath(Parts(query)));
      && (found == AFile(data) <==> AsksFor(files, query, data))
      && (found == ADir <==> AsksAbove(files, query))
  {
    hide QueryPath, Route, Parts, InsertAll, Insert, Names, Get, ProperPrefix, PathOk, Proper, EMPTY;
    var q := QueryPath(Parts(query));
    ItemsPlaceable(files);
    EmptyIsProper(Stored8);
    if q == [] {
      forall f | f in files ensures !Asks(query, f.path) { assert |Route(f.path)| > 0; }
    } else if Names(q).Ok? {
      GetInEmpty(Names(q).value);
      BuildGet(EMPTY, Items(files), Names(q).value, data, Stored8);
      BuildGetDir(EMPTY, Items(files), Names(q).value, Stored8);
      HoldsIsAsked(files, query, data);
      AboveIsReached(files, query);
    }
  }

  /** A written volume reads as the files that made it and nothing else. For every query: it
      reads as data exactly when a file with that data is asked for, as a directory exactly when
      a file lies below it, and as nothing exactly when neither. */
  lemma ReadExact(files: seq<File>, p: Params, query: FatNames.Text, data: seq<byte>)
    requires Sound(p) && VolumeBytes(files, p).Ok? && Low(files, p)
    ensures Open(p.format, VolumeBytes(files, p).value).Ok? && Open(p.format, VolumeBytes(files, p).value).value.Valid()
    ensures var r := Read(Open(p.format, VolumeBytes(files, p).value).value, Parts(query));
      && (r == Ok(Some(data)) <==> AsksFor(files, query, data))
      && (r == Err(IsDirectory) <==> AsksAbove(files, query))
      && (r == Ok(None) <==> !AsksAbove(files, query) && forall f | f in files :: !Asks(query, f.path))
  {
    hide Sound, VolumeBytes, Open, Read, Tree, Resolve, AsksAbove, Parts, Asks;
    SoundParts(p);
    VolumeReads(files, p, query);
    var found := Resolve(Tree(files).value, QueryPath(Parts(query)));
    ResolveInTree(files, query, data);
    if found.AFile? { ResolveInTree(files, query, found.data); }
    forall f | f in files ensures Asks(query, f.path) ==> found == AFile(f.data) {
      ResolveInTree(files, query, f.data);
    }
  }

  /** The round trip. A file reads back whole under its own path, in any case, as long as no
      component of the path ends in a dot; a path with such a component reads as nothing. */
  lemma RoundTrip(files: seq<File>, p: Params, f: File, query: FatNames.Text)
    requires Sound(p) && VolumeBytes(files, p).Ok? && Low(files, p) && f in files && SameText(query, f.path)
    ensures Open(p.format, VolumeBytes(files, p).value).Ok? && Open(p.format, VolumeBytes(files, p).value).value.Valid()
    ensures Read(Open(p.format, VolumeBytes(files, p).value).value, Parts(query)) ==
            Ok(if exists c | c in Split(f.path) :: EndsInDot(c) then None else Some(f.data))
  {
    hide Sound, VolumeBytes, Open, Read, Tree, Resolve, Parts, Split, EndsInDot, QueryPath, Route, SameText, Names;
    SoundParts(p);
    VolumeReads(files, p, f.path);
    ReadExact(files, p, query, f.data);
    AcceptedPath(files, f);
    QueryIgnoresCase(query, f.path);
    if exists c | c in Split(f.path) :: EndsInDot(c) {
      DottedPath(f.path);
    } else {
      AsksForItself(f.path);
      assert Asks(query, f.path);
    }
  }

  lemma DottedPath(path: FatNames.Text)
    requires Names(Route(path)).Ok? && exists c | c in Split(path) :: EndsInDot(c)
    ensures Names(QueryPath(Parts(path))).Err?
  {
    hide Names, Route, EndsInDot, QueryPath, Parts, Split;
    AcceptedParts(path);
    var parts := Split(path);
    var i :| 0 <= i < |parts| && EndsInDot(parts[i]);
    DottedAsksForNothing(parts, i);
  }

  lemma ShapedParts(p: Params)
    requires Shaped(p)
    ensures p.sectorsPerCluster > 0 && p.fats >= 1 && p.reserved >= 1
  {
  }

  lemma HeldRoot(s: Space, d: Disk, pl: Placed, dir: Dir)
    requires DiskHolds(s, d, pl, dir)
    ensures s.Valid() && InPlace(s, pl, true) && DirStored(s, d, pl, true, 0, 2 + DirSpan(s, pl, true))
    ensures s.format.Fat32? ==> pl.cluster == 2
  {
    hide DirStored, InPlace, DirSpan, AllFiles, Mirrors, FreeFrom, SubsPreorder;
  }

  lemma EmptyRootReads(v: Volume, parts: seq<FatNames.Text>)
    requires v.Valid() && Entries(v, None) == Ok([])
    ensures Read(v, parts) == Ok(None)
  {
  }

  /** With a label that begins with a zero byte the writer still succeeds, but the volume reads
      as empty: no path names anything. */
  lemma UnlabelledReadsNothing(files: seq<File>, p: Params, parts: seq<FatNames.Text>)
    requires Shaped(p) && p.volumeLabel[0] == 0 && VolumeBytes(files, p).Ok? && Low(files, p)
    ensures var v := Open(p.format, VolumeBytes(files, p).value);
      v.Ok? && v.value.Valid() && Read(v.value, parts) == Ok(None)
  {
    hide *;
    ShapedParts(p);
    var dir := TreeOf(files, p);
    LowTree(files, p, dir);
    var g, d := VolumeParts(dir, p);
    var s, v := SpaceOf(p, g), VolumeFor(p, g, Finish(p, g, d));
    var pl := FillHolds(s, dir);
    DiskAddressable(dir, p, g, d);
    FinishOpens(p, g, d);
    FinishShows(p, g, d);
    HeldRoot(s, d, pl, dir);
    UnlabelledRoot(v, s, d, pl, 0, 2 + DirSpan(s, pl, true));
    EmptyRootReads(v, parts);
  }

  // ---- when a volume is written ----

  /** `volume` succeeds exactly when the files make a tree, the shape has a layout, and the tree
      fits it. */
  lemma VolumeSucceeds(files: seq<File>, p: Params)
    requires p.sectorsPerCluster > 0
    ensures LayoutOf(p).Ok? ==> SpaceOf(p, LayoutOf(p).value).Valid()
    ensures VolumeBytes(files, p).Ok? <==>
            Tree(files).Ok? && LayoutOf(p).Ok? && Room(SpaceOf(p, LayoutOf(p).value), Tree(files).value)
  {
    hide VolumeFrom, Room, Space.Valid, Proper, InsertAll, PathOk;
    ItemsPlaceable(files);
    EmptyIsProper(Eleven);
    if LayoutOf(p).Ok? {
      LayoutIsLeastAndFits(p);
      SpaceIsValid(p, LayoutOf(p).value);
    }
    if Tree(files).Ok? {
      BuildIsProper(EMPTY, Items(files), Eleven);
      VolumeRoom(Tree(files).value, p);
    }
  }

  /** No volume whose cluster numbers stop below the marks takes one above them: every FAT16 volume,
      and every FAT32 volume that keeps to the cluster counts of its specification. */
  lemma SmallIsLow(files: seq<File>, p: Params)
    requires p.sectorsPerCluster > 0 && VolumeBytes(files, p).Ok?
    requires p.format.Fat16? || LayoutOf(p).value.clusters + 2 <= p.format.BadCluster()
    ensures Low(files, p)
  {
    hide VolumeBytes, Tree, Taken, SizesFit;
    VolumeSucceeds(files, p);
    LayoutIsLeastAndFits(p);
  }

  // ---- the order of the files ----

  lemma ItemsConcat(a: seq<File>, b: seq<File>)
    ensures Items(a + b) == Items(a) + Items(b)
  {
  }

  lemma {:induction false} ItemsReordered(files: seq<File>, other: seq<File>)
    requires multiset(files) == multiset(other)
    ensures multiset(Items(files)) == multiset(Items(other))
    decreases |files|
  {
    hide ItemOf;
    if files == [] {
      assert |other| == |multiset(other)| == 0;
    } else {
      var before, after := FindFirst(files, other);
      ItemsReordered(files[1..], before + after);
      ItemsAround([], files[0], files[1..]);
      ItemsAround(before, files[0], after);
      assert files == [] + [files[0]] + files[1..] && [] + files[1..] == files[1..];
    }
  }

  lemma ItemsAround(before: seq<File>, f: File, after: seq<File>)
    ensures multiset(Items(before + [f] + after)) == multiset{ItemOf(f)} + multiset(Items(before + after))
  {
    hide ItemOf;
    ItemsConcat(before, after);
    ItemsConcat(before, [f]);
    ItemsConcat(before + [f], after);
    assert Items([f]) == [ItemOf(f)];
  }

  /** The same files in any order give byte-identical volumes, or none. */
  lemma OrderDoesNotMatter(files: seq<File>, other: seq<File>, p: Params)
    requires p.sectorsPerCluster > 0 && multiset(files) == multiset(other)
    ensures Same(VolumeBytes(files, p), VolumeBytes(other, p))
  {
    hide Items, VolumeOf, Placeable;
    ItemsReordered(files, other);
    ItemsPlaceable(files);
    ItemsPlaceable(other);
    VolumeIgnoresOrder(Items(files), Items(other), p);
  }
}
