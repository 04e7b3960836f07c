/** When a finished volume opens: exactly when a sector is reserved for the boot sector and there is
    a table. With no sector reserved the first table is stored over the boot sector, and what lies
    where the signature was is a link, which never reads as one. */
module FatOpens {
  import opened Bytes
  import opened FatResult
  import opened FatLayout
  import opened FatTree
  import opened FatWriter
  import opened FatStored
  import opened FatContents
  import opened FatImage
  import opened FatVolume
  import opened FatReader
  import opened FatOpened
  import opened FatView
  import opened FatPaths
  import opened FatTheorems
  import Ordered

  // ---- what the table holds ----

  /** Every cluster is free, chained to the next one, or the end of its chain. */
  ghost predicate Linked(s: Space, fat: seq<nat>) {
    forall c | 2 <= c < |fat| :: fat[c] == 0 || fat[c] == c + 1 || fat[c] == s.format.EndMark()
  }

  lemma AllocLinks(s: Space, d: Disk, bytes: nat)
    requires s.Valid() && Sized(s, d) && Linked(s, d.fat) && Alloc(s, d, bytes).Ok?
    ensures Linked(s, Alloc(s, d, bytes).value.0.fat)
  {
  }

  lemma {:induction false} AssignLinks(s: Space, d: Disk, dir: Dir, isRoot: bool)
    requires s.Valid() && Sized(s, d) && Linked(s, d.fat) && Assign(s, d, dir, isRoot).Ok?
    ensures Linked(s, Assign(s, d, dir, isRoot).value.0.fat)
    decreases dir, 1, 0
  {
    hide Alloc, Linked, Space.Valid;
    var bytes := CountIn(|dir.dirs|, |dir.files|, isRoot) * ENTRY;
    if !Fixed(s, isRoot) { AllocLinks(s, d, bytes); }
    var own := if Fixed(s, isRoot) then (d, 0) else Alloc(s, d, bytes).value;
    AssignSubsLinks(s, own.0, dir, Ordered.Keys(dir.dirs.Keys));
  }

  lemma {:induction false} AssignSubsLinks(s: Space, d: Disk, dir: Dir, names: seq<Text>)
    requires s.Valid() && Sized(s, d) && Linked(s, d.fat) && forall n | n in names :: n in dir.dirs
    requires AssignSubs(s, d, dir, names).Ok?
    ensures Linked(s, AssignSubs(s, d, dir, names).value.0.fat)
    decreases dir, 0, |names|
  {
    hide Linked, Space.Valid;
    if names != [] {
      AssignLinks(s, d, dir.dirs[names[0]], false);
      AssignSubsLinks(s, Assign(s, d, dir.dirs[names[0]], false).value.0, dir, names[1..]);
    }
  }

  lemma {:induction false} WriteFilesLinks(s: Space, d: Disk, files: seq<Stored>)
    requires s.Valid() && Sized(s, d) && Linked(s, d.fat) && FilesLabelled(files) && WriteFiles(s, d, files).Ok?
    ensures Linked(s, WriteFiles(s, d, files).value.0.fat)
    decreases |files|
  {
    hide Alloc, Linked, Space.Valid;
    if files != [] {
      AllocLinks(s, d, |files[0].data|);
      var got := Alloc(s, d, |files[0].data|).value;
      WriteFilesLinks(s, StoreAt(s, d, got.0, got.1, files[0].data), files[1..]);
    }
  }

  lemma {:induction false} WriteDirLinks(s: Space, d: Disk, pl: Placed, isRoot: bool, parent: nat)
    requires s.Valid() && Sized(s, d) && InPlace(s, pl, isRoot) && Labelled(pl) && parent < s.limit
    requires Linked(s, d.fat) && WriteDir(s, d, pl, isRoot, parent).Ok?
    ensures Linked(s, WriteDir(s, d, pl, isRoot, parent).value.fat)
    decreases pl
  {
    hide WriteFiles, Linked, Space.Valid, DirSlots;
    WriteFilesLinks(s, d, pl.files);
    var files := WriteFiles(s, d, pl.files).value;
    OwnInside(s, pl, isRoot);
    WriteSubsLinks(s, PutSlots(s, files.0, pl, isRoot, DirSlots(s, pl, isRoot, parent, files.1)), pl.subs,
      Me(pl, isRoot));
  }

  lemma {:induction false} WriteSubsLinks(s: Space, d: Disk, subs: seq<Link>, parent: nat)
    requires s.Valid() && Sized(s, d) && SubsInPlace(s, subs) && SubsLabelled(subs) && parent < s.limit
    requires Linked(s, d.fat) && WriteSubs(s, d, subs, parent).Ok?
    ensures Linked(s, WriteSubs(s, d, subs, parent).value.fat)
    decreases subs
  {
    hide Linked, Space.Valid;
    if subs != [] {
      WriteDirLinks(s, d, subs[0].dir, false, parent);
      WriteSubsLinks(s, WriteDir(s, d, subs[0].dir, false, parent).value, subs[1..], parent);
    }
  }

  lemma FillLinks(s: Space, dir: Dir)
    requires s.Valid() && Proper(dir, Eleven) && Fill(s, dir).Ok?
    ensures Linked(s, Fill(s, dir).value.fat)
  {
    hide Assign, WriteDir, Space.Valid;
    BlankLinks(s);
    AssignLinks(s, BlankDisk(s), dir, true);
    AssignedIsWritable(s, dir);
    var placed := Assign(s, BlankDisk(s), dir, true).value;
    WriteDirLinks(s, placed.0, placed.1, true, 0);
  }

  lemma BlankLinks(s: Space)
    requires s.Valid()
    ensures Linked(s, BlankDisk(s).fat)
  {
  }

  // ---- what opening finds ----

  /** With no tables the boot sector stands as it was stored, and names none. */
  lemma NoTables(p: Params, g: Layout, d: Disk)
    requires Fits(p, g) && Sized(SpaceOf(p, g), d) && p.fats == 0
    ensures Open(p.format, Finish(p, g, d)) == Err(ZeroField)
  {
    hide Fits, PutBoot, ReadBoot, PutFsInfo;
    var boot, info := FinishParts(p, g, d);
    if p.format.Fat32? { FsInfoKept(boot, g.clusters - (d.next - 2), d.next, 0, SECTOR); }
    BootReads(p, g, d.part);
    BootSectorDecides(p.format, boot, info);
  }

  /** With no sector reserved the signature is the link of cluster 255. */
  lemma NoSignature(p: Params, g: Layout, d: Disk)
    requires Fits(p, g) && Sized(SpaceOf(p, g), d) && p.format.Admits(g.clusters) && Linked(SpaceOf(p, g), d.fat)
    requires p.fats >= 1 && p.reserved == 0
    ensures Open(p.format, Finish(p, g, d)) == Err(NoBootSector)
  {
    hide PutBoot, PutFsInfo, TableBytes, PutCopies;
    var _, info := FinishParts(p, g, d);
    CopyReads(info, TableBytes(p.format, d.fat), 0, g.fatSectors * SECTOR, p.fats, 0);
    assert |d.fat| > 255;
    EntryReads(p.format, Finish(p, g, d), 0, d.fat, 255, 510);
  }

  /** A volume opens, exactly when it has a table and a sector for its boot sector. */
  lemma OpensExact(files: seq<File>, p: Params)
    requires p.sectorsPerCluster > 0 && VolumeBytes(files, p).Ok?
    ensures Open(p.format, VolumeBytes(files, p).value).Ok? <==> p.fats >= 1 && p.reserved >= 1
  {
    hide Open, Fits, Fill, Finish, InsertAll, Linked, LayoutOf;
    ItemsPlaceable(files);
    var dir := InsertAll(EMPTY, Items(files)).value;
    BuildIsProper(EMPTY, Items(files), Eleven);
    var g, d := VolumeParts(dir, p);
    FillLinks(SpaceOf(p, g), dir);
    if p.fats == 0 {
      NoTables(p, g, d);
    } else if p.reserved == 0 {
      NoSignature(p, g, d);
    } else {
      FinishOpens(p, g, d);
    }
  }
}
