/** Exactly when a volume can be written: the tree, the layout, and room for both. */
module FatRoom {
  import opened Bytes
  import opened FatResult
  import opened FatLayout
  import opened FatTree
  import opened FatWriter
  import opened FatStored
  import opened FatContents
  import opened FatImage
  import opened FatVolume
  import Ordered

  // ---- what a tree takes ----

  /** Clusters a directory's own entries take. */
  function OwnNeed(s: Space, dir: Dir, isRoot: bool): nat
    requires s.Valid()
  {
    if Fixed(s, isRoot) then 0 else Span(s, CountIn(|dir.dirs|, |dir.files|, isRoot) * ENTRY)
  }

  /** Clusters the directories at and below this one take. */
  function DirNeed(s: Space, dir: Dir, isRoot: bool): nat
    requires s.Valid()
    decreases dir, 1, 0
  {
    OwnNeed(s, dir, isRoot) + DirNeeds(s, dir, Ordered.Keys(dir.dirs.Keys))
  }

  function DirNeeds(s: Space, dir: Dir, names: seq<Text>): nat
    requires s.Valid() && forall n | n in names :: n in dir.dirs
    decreases dir, 0, |names|
  {
    if names == [] then 0 else DirNeed(s, dir.dirs[names[0]], false) + DirNeeds(s, dir, names[1..])
  }

  /** Clusters the files at and below a directory take. */
  function DataNeed(s: Space, dir: Dir): nat
    requires s.Valid()
    decreases dir, 1, 0
  {
    FilesSpan(s, Files(dir.files, Ordered.Keys(dir.files.Keys))) + DataNeeds(s, dir, Ordered.Keys(dir.dirs.Keys))
  }

  function DataNeeds(s: Space, dir: Dir, names: seq<Text>): nat
    requires s.Valid() && forall n | n in names :: n in dir.dirs
    decreases dir, 0, |names|
  {
    if names == [] then 0 else DataNeed(s, dir.dirs[names[0]]) + DataNeeds(s, dir, names[1..])
  }

  /** One past the last cluster a tree takes. */
  function Taken(s: Space, dir: Dir): nat
    requires s.Valid()
  {
    2 + DirNeed(s, dir, true) + DataNeed(s, dir)
  }

  /** No file has a size that thirty-two bits cannot hold. */
  ghost predicate SizesFit(dir: Dir) {
    (forall n | n in dir.files :: |dir.files[n]| < U32) && forall n | n in dir.dirs :: SizesFit(dir.dirs[n])
  }

  // ---- assigning clusters ----

  lemma AllocRoom(s: Space, d: Disk, bytes: nat)
    requires s.Valid() && Sized(s, d)
    ensures Alloc(s, d, bytes).Ok? <==> d.next + Span(s, bytes) <= s.limit
    ensures Alloc(s, d, bytes).Ok? ==> Alloc(s, d, bytes).value.0.next == d.next + Span(s, bytes)
  {
  }

  /** A directory's own chain is claimed exactly when it fits. */
  lemma OwnRoom(s: Space, d: Disk, dir: Dir, isRoot: bool) returns (own: Result<(Disk, nat)>)
    requires s.Valid() && Sized(s, d)
    ensures own.Ok? <==> d.next + OwnNeed(s, dir, isRoot) <= s.limit
    ensures own.Ok? ==> Sized(s, own.value.0) && own.value.0.next == d.next + OwnNeed(s, dir, isRoot)
    ensures Assign(s, d, dir, isRoot).Ok? <==>
            own.Ok? && AssignSubs(s, own.value.0, dir, Ordered.Keys(dir.dirs.Keys)).Ok?
    ensures Assign(s, d, dir, isRoot).Ok? ==>
      Assign(s, d, dir, isRoot).value.0 == AssignSubs(s, own.value.0, dir, Ordered.Keys(dir.dirs.Keys)).value.0
  {
    hide Space.Valid, Alloc, Span, AssignSubs;
    var bytes := CountIn(|dir.dirs|, |dir.files|, isRoot) * ENTRY;
    AllocRoom(s, d, bytes);
    own := if Fixed(s, isRoot) then Ok((d, 0)) else Alloc(s, d, bytes);
  }

  /** Assigning succeeds exactly when the directories fit. */
  lemma {:induction false} AssignRoom(s: Space, d: Disk, dir: Dir, isRoot: bool)
    requires s.Valid() && Sized(s, d)
    ensures var r := Assign(s, d, dir, isRoot);
      && (r.Ok? <==> d.next + DirNeed(s, dir, isRoot) <= s.limit)
      && (r.Ok? ==> r.value.0.next == d.next + DirNeed(s, dir, isRoot))
    decreases dir, 1, 0
  {
    hide Space.Valid, Alloc, OwnNeed, Assign, AssignSubs;
    var own := OwnRoom(s, d, dir, isRoot);
    if own.Ok? { AssignSubsRoom(s, own.value.0, dir, Ordered.Keys(dir.dirs.Keys)); }
  }

  lemma {:induction false} AssignSubsRoom(s: Space, d: Disk, dir: Dir, names: seq<Text>)
    requires s.Valid() && Sized(s, d) && forall n | n in names :: n in dir.dirs
    ensures var r := AssignSubs(s, d, dir, names);
      && (r.Ok? <==> d.next + DirNeeds(s, dir, names) <= s.limit)
      && (r.Ok? ==> r.value.0.next == d.next + DirNeeds(s, dir, names))
    decreases dir, 0, |names|
  {
    hide Space.Valid, Assign, DirNeed;
    if names != [] {
      AssignRoom(s, d, dir.dirs[names[0]], false);
      var sub := Assign(s, d, dir.dirs[names[0]], false);
      if sub.Ok? { AssignSubsRoom(s, sub.value.0, dir, names[1..]); }
    }
  }

  // ---- writing ----

  ghost predicate AllSmall(files: seq<Stored>) { forall f | f in files :: |f.data| < U32 }

  /** Files are stored exactly when each has a size that fits and all have room. */
  lemma {:induction false} FilesRoom(s: Space, d: Disk, files: seq<Stored>)
    requires s.Valid() && Sized(s, d) && FilesLabelled(files)
    ensures var r := WriteFiles(s, d, files);
      && (r.Ok? <==> AllSmall(files) && d.next + FilesSpan(s, files) <= s.limit)
      && (r.Ok? ==> r.value.0.next == d.next + FilesSpan(s, files))
    decreases |files|
  {
    hide Space.Valid, Alloc, Span, StoreAt;
    if files != [] {
      var f := files[0];
      assert forall x | x in files :: x == f || x in files[1..];
      AllocRoom(s, d, |f.data|);
      var got := Alloc(s, d, |f.data|);
      if |f.data| < U32 && got.Ok? {
        StoreNext(s, d, got.value.0, got.value.1, f.data);
        FilesRoom(s, StoreAt(s, d, got.value.0, got.value.1, f.data), files[1..]);
      }
    }
  }

  lemma StoreNext(s: Space, before: Disk, d: Disk, first: nat, data: seq<byte>)
    requires s.Valid() && Sized(s, before) && Alloc(s, before, |data|) == Ok((d, first))
    ensures StoreAt(s, before, d, first, data).next == d.next
  {
  }

  /** Every file at and below has a size that fits. */
  ghost predicate TreeSmall(pl: Placed)
    decreases pl
  {
    AllSmall(pl.files) && SubsSmall(pl.subs)
  }

  ghost predicate SubsSmall(subs: seq<Link>)
    decreases subs
  {
    subs == [] || (TreeSmall(subs[0].dir) && SubsSmall(subs[1..]))
  }

  /** A directory is written exactly when a fixed root has entries for it, sizes fit, and the
      files have room. */
  lemma {:induction false} WriteRoom(s: Space, d: Disk, pl: Placed, isRoot: bool, parent: nat)
    requires s.Valid() && Sized(s, d) && InPlace(s, pl, isRoot) && Labelled(pl) && parent < s.limit
    ensures var r := WriteDir(s, d, pl, isRoot, parent);
      && (r.Ok? <==> TreeSmall(pl) && d.next + AllFiles(s, pl) <= s.limit
                     && (Fixed(s, isRoot) ==> CountIn(|pl.subs|, |pl.files|, isRoot) <= s.rootEntries))
      && (r.Ok? ==> r.value.next == d.next + AllFiles(s, pl))
    decreases pl
  {
    hide Space.Valid, WriteFiles, DirSlots, SlotsOk, PutSlots, FilesSpan, AllSmall, InPlace, Labelled;
    WritableParts(s, pl, isRoot);
    FilesRoom(s, d, pl.files);
    var files := WriteFiles(s, d, pl.files);
    if files.Ok? {
      var es := DirSlots(s, pl, isRoot, parent, files.value.1);
      if !(Fixed(s, isRoot) && |es| > s.rootEntries) {
        PutNext(s, files.value.0, pl, isRoot, es);
        WriteSubsRoom(s, PutSlots(s, files.value.0, pl, isRoot, es), pl.subs, Me(pl, isRoot));
      }
    }
  }

  lemma PutNext(s: Space, d: Disk, pl: Placed, isRoot: bool, es: seq<Slot>)
    requires s.Valid() && Sized(s, d) && InPlace(s, pl, isRoot)
    requires SlotsOk(s.format, es) && |es| == CountIn(|pl.subs|, |pl.files|, isRoot)
    requires Fixed(s, isRoot) ==> |es| <= s.rootEntries
    ensures PutSlots(s, d, pl, isRoot, es).next == d.next
  {
  }

  lemma {:induction false} WriteSubsRoom(s: Space, d: Disk, subs: seq<Link>, parent: nat)
    requires s.Valid() && Sized(s, d) && SubsInPlace(s, subs) && SubsLabelled(subs) && parent < s.limit
    ensures var r := WriteSubs(s, d, subs, parent);
      && (r.Ok? <==> SubsSmall(subs) && d.next + SubsFiles(s, subs) <= s.limit)
      && (r.Ok? ==> r.value.next == d.next + SubsFiles(s, subs))
    decreases subs
  {
    hide Space.Valid, WriteDir, InPlace, Labelled, TreeSmall, AllFiles;
    if subs != [] {
      WriteRoom(s, d, subs[0].dir, false, parent);
      NotFixed(s);
      var w := WriteDir(s, d, subs[0].dir, false, parent);
      if w.Ok? { WriteSubsRoom(s, w.value, subs[1..], parent); }
    }
  }

  lemma NotFixed(s: Space)
    ensures !Fixed(s, false)
  {
  }

  // ---- the placed tree takes what the tree needs ----

  lemma {:induction false} MirrorData(s: Space, pl: Placed, dir: Dir)
    requires s.Valid() && Mirrors(pl, dir)
    ensures AllFiles(s, pl) == DataNeed(s, dir) && (TreeSmall(pl) <==> SizesFit(dir))
    decreases dir, 1, 0
  {
    hide FilesSpan, Space.Valid, SubsMirror, DataNeeds, SubsFiles, SubsSmall;
    var names := Ordered.Keys(dir.dirs.Keys);
    SubsMirrorData(s, pl.subs, dir, names);
    SmallFiles(pl, dir);
    assert (forall n | n in names :: SizesFit(dir.dirs[n])) <==> forall n | n in dir.dirs :: SizesFit(dir.dirs[n]);
  }

  lemma SmallFiles(pl: Placed, dir: Dir)
    requires Mirrors(pl, dir)
    ensures AllSmall(pl.files) <==> forall n | n in dir.files :: |dir.files[n]| < U32
  {
    hide SubsMirror;
    var names := Ordered.Keys(dir.files.Keys);
    if AllSmall(pl.files) {
      forall n | n in dir.files ensures |dir.files[n]| < U32 {
        var i :| 0 <= i < |names| && names[i] == n;
        assert pl.files[i] in pl.files;
      }
    }
  }

  lemma {:induction false} SubsMirrorData(s: Space, subs: seq<Link>, dir: Dir, names: seq<Text>)
    requires s.Valid() && (forall n | n in names :: n in dir.dirs) && SubsMirror(subs, dir, names)
    ensures SubsFiles(s, subs) == DataNeeds(s, dir, names)
    ensures SubsSmall(subs) <==> forall n | n in names :: SizesFit(dir.dirs[n])
    decreases dir, 0, |names|
  {
    hide Space.Valid, Mirrors, AllFiles, DataNeed, TreeSmall;
    if names != [] {
      MirrorData(s, subs[0].dir, dir.dirs[names[0]]);
      SubsMirrorData(s, subs[1..], dir, names[1..]);
      assert forall n | n in names :: n == names[0] || n in names[1..];
    }
  }

  // ---- the theorem ----

  /** The tree fits the space: sizes that fit, clusters for every directory and file, and entries
      for a fixed root, its label included. */
  ghost predicate Room(s: Space, dir: Dir)
    requires s.Valid()
  {
    && SizesFit(dir)
    && Taken(s, dir) <= s.limit
    && (s.format.Fat16? ==> |dir.dirs| + |dir.files| + 1 <= s.rootEntries)
  }

  /** A blank disk is filled exactly when the tree fits. */
  lemma FillRoom(s: Space, dir: Dir)
    requires s.Valid() && Proper(dir, Eleven)
    ensures Fill(s, dir).Ok? <==> Room(s, dir)
    ensures Fill(s, dir).Ok? ==> Fill(s, dir).value.next == Taken(s, dir)
  {
    hide Space.Valid, Assign, WriteDir, SizesFit, DirNeed, DataNeed, Proper, InPlace, Labelled, TreeSmall, AllFiles;
    var b := BlankDisk(s);
    AssignRoom(s, b, dir, true);
    BlankNext(s);
    if Assign(s, b, dir, true).Ok? {
      var r := Assign(s, b, dir, true).value;
      AssignedIsWritable(s, dir);
      AssignMirrors(s, b, dir, true);
      AssignPlaces(s, b, dir, true);
      RootPlace(s, r.0.fat, r.1);
      MirrorData(s, r.1, dir);
      MirrorSizes(r.1, dir);
      ZeroInside(s);
      WriteRoom(s, r.0, r.1, true, 0);
    }
  }

  lemma BlankNext(s: Space)
    requires s.Valid()
    ensures BlankDisk(s).next == 2
  {
  }

  lemma ZeroInside(s: Space)
    requires s.Valid()
    ensures 0 < s.limit
  {
  }

  /** On FAT32 the root always lands on cluster 2. */
  lemma RootPlace(s: Space, fat: seq<nat>, pl: Placed)
    requires s.Valid() && Preorder(s, fat, pl, true, 2)
    ensures s.format.Fat32? ==> pl.cluster == ROOT_CLUSTER
  {
    hide SubsPreorder, Run;
  }

  lemma MirrorSizes(pl: Placed, dir: Dir)
    requires Mirrors(pl, dir)
    ensures |pl.subs| == |dir.dirs| && |pl.files| == |dir.files|
  {
    MirrorCount(pl.subs, dir, Ordered.Keys(dir.dirs.Keys));
  }

  /** A volume of a tree is written exactly when its shape has a layout and the tree fits it. */
  lemma VolumeRoom(dir: Dir, p: Params)
    requires p.sectorsPerCluster > 0 && Proper(dir, Eleven)
    ensures LayoutOf(p).Ok? ==> SpaceOf(p, LayoutOf(p).value).Valid()
    ensures VolumeFrom(dir, p).Ok? <==> LayoutOf(p).Ok? && Room(SpaceOf(p, LayoutOf(p).value), dir)
  {
    hide Space.Valid, Fill, Finish, Room, Proper;
    if LayoutOf(p).Ok? {
      LayoutIsLeastAndFits(p);
      SpaceIsValid(p, LayoutOf(p).value);
      FillRoom(SpaceOf(p, LayoutOf(p).value), dir);
    }
  }
}
