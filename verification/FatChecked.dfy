/** `check` on a written volume: no lost clusters, no tables apart, every count right. */
module FatChecked {
  import opened Bytes
  import opened Optional
  import opened FatResult
  import opened FatLayout
  import opened FatNames
  import opened FatPaths
  import opened FatTree
  import opened FatWriter
  import opened FatStored
  import opened FatContents
  import opened FatImage
  import opened FatVolume
  import opened FatReader
  import opened FatFiles
  import opened FatOpened
  import opened FatView
  import opened FatRoundTrip
  import opened FatCheck
  import opened FatClean
  import FatCounts
  import FatRoom
  import FatTheorems
  import Ordered

  // ---- FSInfo ----

  /** The fields of the FSInfo sector as they are stored. */
  lemma FsInfoFields(part: seq<byte>, free: nat, next: nat)
    requires |part| >= 2 * SECTOR && free < U32 && next < U32
    ensures var r := PutFsInfo(part, free, next);
      && At(r, SECTOR, Le32(0x4161_5252)) && At(r, SECTOR + 484, Le32(0x6141_7272))
      && At(r, SECTOR + 488, Le32(free)) && At(r, SECTOR + 508, Le32(0xAA55_0000))
  {
    hide Le32;
    var x := Le32(0x6141_7272) + Le32(free) + Le32(next);
    var a := Splice(part, SECTOR, Le32(0x4161_5252));
    var b := Splice(a, SECTOR + 484, x);
    SpliceAt(part, SECTOR, Le32(0x4161_5252));
    SpliceAt(a, SECTOR + 484, x);
    SpliceAt(b, SECTOR + 508, Le32(0xAA55_0000));
    SpliceKept(a, SECTOR + 484, x, SECTOR, SECTOR + 4);
    SpliceKept(b, SECTOR + 508, Le32(0xAA55_0000), SECTOR, SECTOR + 4);
    SpliceKept(b, SECTOR + 508, Le32(0xAA55_0000), SECTOR + 484, SECTOR + 496);
    var r := PutFsInfo(part, free, next);
    AtWithin(r, SECTOR + 484, x, 0, Le32(0x6141_7272));
    AtWithin(r, SECTOR + 484, x, 4, Le32(free));
  }

  lemma AtKept(a: seq<byte>, b: seq<byte>, hi: nat, at: nat, raw: seq<byte>)
    requires Kept(a, b, 0, hi) && at + |raw| <= hi && At(a, at, raw)
    ensures At(b, at, raw)
  {
    KeptWithin(a, b, 0, hi, at, at + |raw|);
  }

  /** The FSInfo sector of a finished FAT32 volume is signed and counts the free clusters. */
  lemma FinishFsInfo(p: Params, g: Layout, d: Disk)
    requires Fits(p, g) && Sized(SpaceOf(p, g), d) && p.format.Fat32? && p.reserved >= 2
    ensures d.next - 2 <= g.clusters < U32 && 2 * SECTOR <= |Finish(p, g, d)|
    ensures var r := Finish(p, g, d);
      && At(r, SECTOR, Le32(0x4161_5252)) && At(r, SECTOR + 484, Le32(0x6141_7272))
      && At(r, SECTOR + 488, Le32(g.clusters - (d.next - 2))) && At(r, SECTOR + 508, Le32(0xAA55_0000))
  {
    hide Fits, Finish, Le32, PutFsInfo, PutCopies, PutBoot, At, Kept, SpaceOf, TableBytes;
    var boot, info := FinishParts(p, g, d);
    var free, r := g.clusters - (d.next - 2), Finish(p, g, d);
    FsInfoFields(boot, free, d.next);
    CopiesKept(info, TableBytes(p.format, d.fat), p.reserved * SECTOR, g.fatSectors * SECTOR, p.fats, 0, 2 * SECTOR);
    AtKept(info, r, 2 * SECTOR, SECTOR, Le32(0x4161_5252));
    AtKept(info, r, 2 * SECTOR, SECTOR + 484, Le32(0x6141_7272));
    AtKept(info, r, 2 * SECTOR, SECTOR + 488, Le32(free));
    AtKept(info, r, 2 * SECTOR, SECTOR + 508, Le32(0xAA55_0000));
  }

  /** What the reader makes of those fields. */
  lemma FsInfoReads(v: Volume, free: nat)
    requires v.Valid() && v.format.Fat32? && v.fsinfo == SECTOR && free < 0xFFFF_FFFF
    requires At(v.bytes, SECTOR, Le32(0x4161_5252)) && At(v.bytes, SECTOR + 484, Le32(0x6141_7272))
    requires At(v.bytes, SECTOR + 488, Le32(free)) && At(v.bytes, SECTOR + 508, Le32(0xAA55_0000))
    ensures Signed(v) && FsInfoFree(v) == Some(free)
  {
    hide Le32, Get32;
    Get32Slice(v.bytes, SECTOR, 0x4161_5252);
    Get32Slice(v.bytes, SECTOR + 484, 0x6141_7272);
    Get32Slice(v.bytes, SECTOR + 488, free);
    Get32Slice(v.bytes, SECTOR + 508, 0xAA55_0000);
  }

  // ---- the walk of the whole volume ----

  /** A held tree can be walked. */
  lemma RootWalkable(s: Space, d: Disk, pl: Placed, dir: Dir, ok: FatNames.Text -> bool)
    requires DiskHolds(s, d, pl, dir) && Proper(dir, ok) && Encoded(ok) && s.volumeLabel[0] != 0
    ensures Walkable(s, d, pl, true, 0, 2, 2 + DirSpan(s, pl, true), ok)
  {
    hide DirStored, InPlace, DirSpan, AllFiles, Encoded, TreeNamed, Mirrors, FreeFrom, SubsPreorder;
    FatTheorems.MirrorNamed(pl, dir, ok);
  }

  /** The walk of a held tree starts from the root's own clusters. */
  lemma RootClaims(v: Volume, s: Space, d: Disk, pl: Placed, parent: nat, next: nat, ok: FatNames.Text -> bool,
        own: nat)
    requires Shows(v, s, d) && Addressable(s, d) && Walkable(s, d, pl, true, parent, 2, next, ok)
      && own == 2 + OwnSpan(s, pl, true)
    ensures v.Valid() && RootChain(v).Ok? && Elements(RootChain(v).value) == Range(2, own)
  {
    hide OwnSpan, DirStored, TreeNamed, Encoded, InPlace, DirSpan, AllFiles, SubsPreorder, Chain, Run, Elements, Range,
         TablesShow;
    if s.format.Fat16? {
      RootHasNone(s, pl, own);
    } else {
      OwnSpanPositive(s, pl, true);
      RootFits(s, d, pl, parent, next, ok);
      RunIsChain(v, s, d, 2, own - 2);
      ConsecutiveElements(2, own - 2);
    }
  }

  lemma RootHasNone(s: Space, pl: Placed, own: nat)
    requires s.Valid() && s.format.Fat16? && own == 2 + OwnSpan(s, pl, true)
    ensures own == 2 && Elements([]) == Range(2, own)
  {
  }

  lemma RootFits(s: Space, d: Disk, pl: Placed, parent: nat, next: nat, ok: FatNames.Text -> bool)
    requires Walkable(s, d, pl, true, parent, 2, next, ok)
    ensures 2 + OwnSpan(s, pl, true) <= d.next
  {
    hide DirStored, TreeNamed, Encoded, SubsPreorder, InPlace;
  }

  lemma WalkAllIs(v: Volume, limit: nat)
    requires v.Valid() && RootChain(v).Ok?
    ensures var chain := RootChain(v).value; var t := Tally(Elements(chain), 0, 0, |chain|);
      Within(v, t) && WalkAll(v, limit) == WalkDir(v, None, 0, limit, t)
  {
    RootChainWithin(v);
  }

  /** The walk of a written volume succeeds exactly when no directory lies too deep, and has
      then seen exactly the clusters below the next free one. */
  lemma WalkAllStored(v: Volume, s: Space, d: Disk, pl: Placed, dir: Dir, ok: FatNames.Text -> bool, limit: nat)
    requires Shows(v, s, d) && Addressable(s, d) && DiskHolds(s, d, pl, dir) && Proper(dir, ok) && Encoded(ok)
      && s.volumeLabel[0] != 0
    ensures v.Valid() && 2 <= d.next
    ensures var r := WalkAll(v, limit);
      && (r.Ok? <==> Height(pl) <= limit)
      && (r.Ok? ==> r.value.seen == Range(2, d.next) && r.value.files == FileCount(pl) && r.value.dirs == DirCount(pl))
  {
    hide Shows, Addressable, DiskHolds, Proper, Encoded, WalkAll, WalkDir, Height, FileCount, DirCount, Range, DirSpan,
         AllFiles, OwnSpan, Walkable, RootChain, Elements, Within, Volume.Valid, Space.Valid;
    RootWalkable(s, d, pl, dir, ok);
    HeldParts(s, d, pl, dir);
    var own, end := 2 + OwnSpan(s, pl, true), 2 + DirSpan(s, pl, true);
    RootClaims(v, s, d, pl, 0, end, ok, own);
    WalkAllIs(v, limit);
    WalkableSubs(s, d, pl, true, 0, 2, end, ok);
    var chain := RootChain(v).value;
    var t := Tally(Elements(chain), 0, 0, |chain|);
    RootLeaves(t, own, end, d.next);
    WalkStored(v, s, d, pl, true, 0, 2, end, ok, own, end, d.next, 0, limit, t);
    FatTheorems.RootRef(pl);
    if WalkAll(v, limit).Ok? { SeenIsAll(t, WalkAll(v, limit).value, own, end, d.next, FileCount(pl), DirCount(pl)); }
  }

  lemma HeldParts(s: Space, d: Disk, pl: Placed, dir: Dir)
    requires DiskHolds(s, d, pl, dir)
    ensures s.Valid() && d.next == 2 + DirSpan(s, pl, true) + AllFiles(s, pl) && FreeFrom(s, d.fat, d.next)
      && 2 <= d.next <= s.limit
  {
  }

  lemma RootLeaves(t: Tally, own: nat, end: nat, fend: nat)
    requires 2 <= own <= end <= fend && t.seen == Range(2, own)
    ensures Unclaimed(t, own, end) && Unclaimed(t, end, fend)
  {
    hide Range;
  }

  lemma SeenIsAll(t: Tally, u: Tally, own: nat, end: nat, fend: nat, files: nat, dirs: nat)
    requires 2 <= own <= end <= fend && t.seen == Range(2, own) && t.files == 0 && t.dirs == 0
    requires Took(t, u, Two(own, end, end, fend), files, dirs)
    ensures u.seen == Range(2, fend) && u.files == files && u.dirs == dirs
  {
    hide Range;
    assert Range(2, fend) == Range(2, own) + Two(own, end, end, fend);
  }

  // ---- the report ----

  /** The first table of a volume that shows a disk, cluster by cluster. */
  lemma TableIs(v: Volume, s: Space, d: Disk, c: nat)
    requires Shows(v, s, d) && c < s.limit
    ensures FirstTable(v)[c] == d.fat[c] % Modulus(v.format)
  {
    hide Volume.Table;
    assert v.Table(0, c) == d.fat[c] % Modulus(v.format);
  }

  lemma FreeEntry(s: Space, fat: seq<nat>, next: nat, c: nat)
    requires FreeFrom(s, fat, next) && next <= c < s.limit
    ensures fat[c] == 0
  {
    assert fat[next..][c - next] == fat[c];
  }

  /** When exactly the clusters below `next` are in use, none is lost and the rest are free. */
  lemma CountsClean(table: seq<nat>, bad: nat, next: nat)
    requires 2 <= next <= |table| && Used(table, bad, Range(2, next)) && forall c | next <= c < |table| :: table[c] == 0
    ensures Lost(table, bad, Range(2, next), |table|) == {} && Free(table, |table|) == Range(next, |table|)
  {
    hide Range;
  }

  lemma NoneDiffer(v: Volume, s: Space, d: Disk)
    requires Shows(v, s, d)
    ensures Differ(v, v.clusters + 2) == {}
  {
    hide Range, Volume.Table, Volume.Valid, Space.Valid;
    forall c | 2 <= c < v.clusters + 2 ensures !CopiesDiffer(v, c) {
      forall copy | 1 <= copy < v.fats ensures v.Table(copy, c) == v.Table(0, c) {
        assert v.Table(copy, c) == d.fat[c] % Modulus(v.format);
        assert v.Table(0, c) == d.fat[c] % Modulus(v.format);
      }
    }
  }

  /** Nothing lost, no copies apart, and every cluster claimed or free. */
  ghost predicate CleanReport(r: Report, clusters: nat, used: nat) {
    r.lost == 0 && r.differ == 0 && r.claimed == used && r.claimed + r.free == clusters
  }

  lemma SummaryClean(v: Volume, s: Space, d: Disk, t: Tally)
    requires Shows(v, s, d) && FreeFrom(s, d.fat, d.next) && t.seen == Range(2, d.next) && t.claimed == |t.seen|
    requires Used(FirstTable(v), v.format.BadCluster(), t.seen)
    ensures CleanReport(Summary(v, t), v.clusters, d.next - 2)
  {
    hide Volume.Valid, Volume.Table, Space.Valid, FreeFrom, Used, Range, Lost, Free, Differ, TablesShow;
    var table, bad := FirstTable(v), v.format.BadCluster();
    forall c | d.next <= c < |table| ensures table[c] == 0 {
      TableIs(v, s, d, c);
      FreeEntry(s, d.fat, d.next, c);
    }
    CountsClean(table, bad, d.next);
    NoneDiffer(v, s, d);
  }

  /** `check` accepts a written volume exactly when no directory lies too deep, and reports it
      clean. */
  lemma CheckStored(v: Volume, s: Space, d: Disk, pl: Placed, dir: Dir, ok: FatNames.Text -> bool, limit: nat)
    requires Shows(v, s, d) && Addressable(s, d) && DiskHolds(s, d, pl, dir) && Proper(dir, ok) && Encoded(ok)
      && s.volumeLabel[0] != 0
    requires v.Valid() && Signed(v)
    ensures Check(v, limit).Ok? <==> Height(pl) <= limit
    ensures 2 <= d.next && (Check(v, limit).Ok? ==> CleanReport(Check(v, limit).value, v.clusters, d.next - 2))
    ensures Check(v, limit).Ok? ==>
      var r := Check(v, limit).value;
      r.fsinfoFree == FsInfoFree(v) && r.files == FileCount(pl) && r.dirs == DirCount(pl)
  {
    hide Shows, Addressable, DiskHolds, Proper, Encoded, WalkAll, Height, Range, Signed, FsInfoFree, CleanReport,
         Volume.Valid, Space.Valid, FileCount, DirCount, FirstTable, Lost, Free, Differ, FreeFrom;
    WalkAllStored(v, s, d, pl, dir, ok, limit);
    HeldParts(s, d, pl, dir);
    if WalkAll(v, limit).Ok? {
      SeenIsUsed(v, limit);
      SummaryClean(v, s, d, WalkAll(v, limit).value);
    }
  }

  // ---- depth, in terms of paths ----

  /** Directories nest at most `n` deep below this one. */
  ghost predicate Nested(dir: Dir, n: int)
    decreases dir
  {
    forall name | name in dir.dirs :: n > 0 && Nested(dir.dirs[name], n - 1)
  }

  /** The same for the subdirectories of some names. */
  ghost predicate NestedIn(dir: Dir, names: seq<FatNames.Text>, n: nat)
    requires forall k | k in names :: k in dir.dirs
  {
    forall k | k in names :: n > 0 && Nested(dir.dirs[k], n - 1)
  }

  lemma NestedInAll(dir: Dir, n: nat)
    ensures Nested(dir, n) <==> NestedIn(dir, Ordered.Keys(dir.dirs.Keys), n)
  {
    hide Ordered.Keys;
    forall k ensures k in dir.dirs <==> k in Ordered.Keys(dir.dirs.Keys) {
      assert k in dir.dirs <==> k in dir.dirs.Keys;
    }
  }

  lemma NestedInStep(dir: Dir, names: seq<FatNames.Text>, n: nat)
    requires names != [] && forall k | k in names :: k in dir.dirs
    ensures NestedIn(dir, names, n) <==> n > 0 && Nested(dir.dirs[names[0]], n - 1) && NestedIn(dir, names[1..], n)
  {
    hide Nested;
    assert names[0] in names && forall k :: k in names <==> k == names[0] || k in names[1..];
  }

  lemma {:induction false} HeightNested(pl: Placed, dir: Dir, n: nat)
    requires Mirrors(pl, dir)
    ensures Height(pl) <= n <==> Nested(dir, n)
    decreases dir, 1, 0
  {
    hide Nested, NestedIn, SubsMirror, SubsHeight, Ordered.Keys, Ordered.Le;
    SubsHeightNested(pl.subs, dir, Ordered.Keys(dir.dirs.Keys), n);
    NestedInAll(dir, n);
  }

  lemma {:induction false} SubsHeightNested(subs: seq<Link>, dir: Dir, names: seq<FatNames.Text>, n: nat)
    requires (forall k | k in names :: k in dir.dirs) && SubsMirror(subs, dir, names)
    ensures SubsHeight(subs) <= n <==> NestedIn(dir, names, n)
    decreases dir, 0, |names|
  {
    hide Nested, Mirrors, Height;
    if names != [] {
      hide NestedIn;
      SubsHeightNested(subs[1..], dir, names[1..], n);
      NestedInStep(dir, names, n);
      if n > 0 { HeightNested(subs[0].dir, dir.dirs[names[0]], n - 1); }
    }
  }

  lemma {:induction false} NestedBounds(dir: Dir, n: nat, names: seq<FatNames.Text>)
    requires Nested(dir, n) && Get(dir, names) == ADir
    ensures |names| <= n
    decreases |names|
  {
    if names != [] { NestedBounds(dir.dirs[names[0]], n - 1, names[1..]); }
  }

  lemma {:induction false} NestedWitness(dir: Dir, n: nat, ok: FatNames.Text -> bool)
        returns (names: seq<FatNames.Text>)
    requires !Nested(dir, n) && Proper(dir, ok)
    ensures Get(dir, names) == ADir && |names| > n
    decreases dir
  {
    var name :| name in dir.dirs && !(n > 0 && Nested(dir.dirs[name], n - 1));
    var rest := [];
    if n > 0 { rest := NestedWitness(dir.dirs[name], n - 1, ok); }
    names := [name] + rest;
    assert names[1..] == rest;
  }

  /** Directories of the tree nest at most `n` deep exactly when no path has more than `n + 1`
      components. */
  lemma NestedIsShort(files: seq<File>, n: nat)
    requires FatTheorems.Tree(files).Ok?
    ensures Nested(FatTheorems.Tree(files).value, n) <==> forall f | f in files :: |Split(f.path)| <= n + 1
  {
    hide Nested, Route, Insert, PathOk, Get, Split;
    FatTheorems.ItemsPlaceable(files);
    FatTheorems.EmptyIsProper(FatTheorems.Stored8);
    var items, tree := Items(files), FatTheorems.Tree(files).value;
    BuildIsProper(EMPTY, items, FatTheorems.Stored8);
    if Nested(tree, n) {
      forall f | f in files ensures |Split(f.path)| <= n + 1 { ShortPath(files, f, n); }
    } else {
      var names := NestedWitness(tree, n, FatTheorems.Stored8);
      GetInEmpty(names);
      BuildGetDir(EMPTY, items, names, FatTheorems.Stored8);
      var x :| x in items && Names(x.path).Ok? && ProperPrefix(names, Names(x.path).value);
      var i :| 0 <= i < |files| && items[i] == x;
      assert files[i] in files;
    }
  }

  lemma ShortPath(files: seq<File>, f: File, n: nat)
    requires FatTheorems.Tree(files).Ok? && Nested(FatTheorems.Tree(files).value, n) && f in files
    ensures |Split(f.path)| <= n + 1
  {
    hide Nested, Route, Insert, PathOk, Get, Split, Proper;
    FatTheorems.ItemsPlaceable(files);
    FatTheorems.EmptyIsProper(FatTheorems.Stored8);
    FatTheorems.AcceptedPath(files, f);
    var key := Names(Route(f.path)).value;
    var above := key[..|key| - 1];
    var i :| 0 <= i < |files| && files[i] == f;
    assert Items(files)[i] in Items(files) && ProperPrefix(above, key);
    BuildGetDir(EMPTY, Items(files), above, FatTheorems.Stored8);
    NestedBounds(FatTheorems.Tree(files).value, n, above);
  }

  // ---- the theorem ----

  lemma VolumeSigned(p: Params, g: Layout, d: Disk)
    requires Fits(p, g) && Sized(SpaceOf(p, g), d) && p.format.Admits(g.clusters) && p.reserved >= 1 && p.fats >= 1
    requires p.format.Fat32? ==> p.reserved >= 2 && g.clusters < 0xFFFF_FFFF
    ensures var v := VolumeFor(p, g, Finish(p, g, d));
      && v.Valid() && Signed(v)
      && (p.format.Fat32? ==> d.next - 2 <= g.clusters && FsInfoFree(v) == Some(g.clusters - (d.next - 2)))
  {
    hide Finish, Volume.Valid, Le32, Get32, Fits;
    FinishOpens(p, g, d);
    if p.format.Fat32? {
      FinishFsInfo(p, g, d);
      FsInfoReads(VolumeFor(p, g, Finish(p, g, d)), g.clusters - (d.next - 2));
    }
  }

  /** The names a path is stored under. */
  function StoredNames(path: FatNames.Text): seq<FatNames.Text> {
    if Names(Route(path)).Ok? then Names(Route(path)).value else []
  }

  /** The directories the files lie in, each by the names that lead to it. */
  ghost function DirsOf(files: seq<File>): set<seq<FatNames.Text>> {
    set i, k | 0 <= i < |files| && 0 < k < |StoredNames(files[i].path)| :: StoredNames(files[i].path)[..k]
  }

  /** The tree's directories are those the files lie in. */
  lemma DirsAre(files: seq<File>, dir: Dir)
    requires FatTheorems.Tree(files) == Ok(dir) && Proper(dir, FatTheorems.Stored8)
    ensures FatCounts.DirPaths(dir) == DirsOf(files)
  {
    hide Proper, InsertAll, Get, FatCounts.DirPaths, Route, Names, PathOk, FatTheorems.Tree;
    forall q ensures q in FatCounts.DirPaths(dir) <==> q in DirsOf(files) {
      FatCounts.DirPathIs(dir, q, FatTheorems.Stored8);
      DirIsOf(files, dir, q);
    }
  }

  lemma DirIsOf(files: seq<File>, dir: Dir, q: seq<FatNames.Text>)
    requires FatTheorems.Tree(files) == Ok(dir)
    ensures q in DirsOf(files) <==> q != [] && Get(dir, q) == ADir
  {
    hide Proper, InsertAll, Get, Route, Names, PathOk;
    FatTheorems.ItemsPlaceable(files);
    FatTheorems.EmptyIsProper(FatTheorems.Stored8);
    var items := Items(files);
    BuildGetDir(EMPTY, items, q, FatTheorems.Stored8);
    GetInEmpty(q);
    if q != [] && Above(items, q) {
      var x :| x in items && Names(x.path).Ok? && ProperPrefix(q, Names(x.path).value);
      var i :| 0 <= i < |files| && items[i] == x;
      assert q == StoredNames(files[i].path)[..|q|];
    }
    if q in DirsOf(files) {
      var i, k :| 0 <= i < |files| && 0 < k < |StoredNames(files[i].path)| && q == StoredNames(files[i].path)[..k];
      assert items[i] in items && ProperPrefix(q, Names(items[i].path).value);
    }
  }

  /** Everything the writer produces checks clean. `check` accepts the volume exactly when no
      path has more components than the depth limit and one more. It then counts every file and
      every directory the files lie in, claims the clusters that the directories and files need,
      reports no lost cluster and no table copies apart, claimed and free clusters make up the
      volume, and FAT32's FSInfo sector says what the walk counted. */
  lemma WrittenChecksClean(files: seq<File>, p: Params, limit: nat)
    requires FatTheorems.Sound(p) && FatTheorems.VolumeBytes(files, p).Ok? && FatTheorems.Low(files, p)
    ensures FatTheorems.Tree(files).Ok? && LayoutOf(p).Ok? && SpaceOf(p, LayoutOf(p).value).Valid()
    ensures var v := Open(p.format, FatTheorems.VolumeBytes(files, p).value);
      && v.Ok? && v.value.Valid()
      && var r := Check(v.value, limit);
      && (r.Ok? <==> forall f | f in files :: |Split(f.path)| <= limit + 1)
      && (r.Ok? ==> r.value.files == |files| && r.value.dirs == |DirsOf(files)|
                    && var used := FatRoom.Taken(SpaceOf(p, LayoutOf(p).value), FatTheorems.Tree(files).value) - 2;
                       CleanReport(r.value, v.value.clusters, used))
      && (r.Ok? && p.format.Fat32? ==> r.value.fsinfoFree == Some(r.value.free))
  {
    hide *;
    FatTheorems.SoundParts(p);
    var dir := FatTheorems.TreeOf(files, p);
    var g, d := FatTheorems.VolumeParts(dir, p);
    var s, v := SpaceOf(p, g), VolumeFor(p, g, Finish(p, g, d));
    var pl := FillHolds(s, dir);
    FatTheorems.LowTree(files, p, dir);
    FatTheorems.DiskAddressable(dir, p, g, d);
    FatRoom.FillRoom(s, dir);
    FatTheorems.StoredIsEncoded();
    FinishOpens(p, g, d);
    FinishShows(p, g, d);
    if p.format.Fat32? { Fat32Room(p, g); }
    VolumeSigned(p, g, d);
    CheckStored(v, s, d, pl, dir, FatTheorems.Stored8, limit);
    HeldMirrors(s, d, pl, dir);
    HeightNested(pl, dir, limit);
    NestedIsShort(files, limit);
    FatCounts.MirrorCounts(pl, dir);
    FilesCounted(files, dir);
    FatCounts.MirrorDirs(pl, dir, FatTheorems.Stored8);
    DirsAre(files, dir);
    if Check(v, limit).Ok? { ReportsFree(p, g, Finish(p, g, d), Check(v, limit).value, d.next); }
  }

  /** `check` itself, which looks sixteen directories deep: a written volume passes exactly when no
      path has more than seventeen components, and is then reported clean. */
  lemma WrittenPassesCheck(files: seq<File>, p: Params)
    requires FatTheorems.Sound(p) && FatTheorems.VolumeBytes(files, p).Ok? && FatTheorems.Low(files, p)
    ensures var v := Open(p.format, FatTheorems.VolumeBytes(files, p).value);
      && v.Ok? && v.value.Valid()
      && (Check(v.value, MAX_DEPTH).Ok? <==> forall f | f in files :: |Split(f.path)| <= 17)
  {
    hide FatTheorems.VolumeBytes, FatTheorems.Low, FatTheorems.Sound, Open, Check, Split, Volume.Valid;
    WrittenChecksClean(files, p, MAX_DEPTH);
  }

  lemma FilesCounted(files: seq<File>, dir: Dir)
    requires FatTheorems.Tree(files) == Ok(dir)
    ensures FatCounts.TreeFiles(dir) == |files|
  {
    hide InsertAll, FatCounts.TreeFiles;
    FatTheorems.ItemsPlaceable(files);
    FatCounts.BuildCounts(EMPTY, Items(files));
    FatCounts.EmptyHolds();
  }

  lemma Fat32Room(p: Params, g: Layout)
    requires Fits(p, g) && p.format.Fat32?
    ensures p.reserved >= 2 && g.clusters < 0xFFFF_FFFF
  {
  }

  lemma HeldMirrors(s: Space, d: Disk, pl: Placed, dir: Dir)
    requires DiskHolds(s, d, pl, dir)
    ensures Mirrors(pl, dir)
  {
  }

  lemma ReportsFree(p: Params, g: Layout, img: seq<byte>, r: Report, next: nat)
    requires 2 <= next && CleanReport(r, VolumeFor(p, g, img).clusters, next - 2)
    requires p.format.Fat32? ==> next - 2 <= g.clusters && r.fsinfoFree == Some(g.clusters - (next - 2))
    ensures p.format.Fat32? ==> r.fsinfoFree == Some(r.free)
  {
  }
}
