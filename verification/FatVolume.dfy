/** `volume`: from files to the bytes of a volume. */
module FatVolume {
  import opened Bytes
  import opened FatResult
  import opened FatLayout
  import opened FatTree
  import opened FatWriter
  import opened FatStored
  import opened FatContents
  import opened FatWritten
  import opened FatImage

  /** Names as `short_name` makes them are eleven bytes. */
  ghost predicate Eleven(n: Text) { |n| == 11 }

  ghost predicate Placeable(items: seq<Item>) {
    Routed(items) && forall f | f in items :: PathOk(f.path, Eleven)
  }

  lemma AssignedIsWritable(s: Space, dir: Dir)
    requires s.Valid() && Proper(dir, Eleven) && Assign(s, BlankDisk(s), dir, true).Ok?
    ensures var pl := Assign(s, BlankDisk(s), dir, true).value.1; InPlace(s, pl, true) && Labelled(pl)
  {
    var d := BlankDisk(s);
    var r := Assign(s, d, dir, true).value;
    AssignMoves(s, d, dir, true);
    AssignPlaces(s, d, dir, true);
    AssignMirrors(s, d, dir, true);
    PlacedFits(s, r.0.fat, r.1, true, 2);
    MirrorLabelled(r.1, dir, Eleven);
  }

  /** Place and store a whole tree on a blank disk. */
  function Fill(s: Space, dir: Dir): (r: Result<Disk>)
    requires s.Valid() && Proper(dir, Eleven)
    ensures r.Ok? ==> Sized(s, r.value)
  {
    var placed :- Assign(s, BlankDisk(s), dir, true);
    if s.format.Fat32? && placed.1.cluster != ROOT_CLUSTER then Err(RootMisplaced)
    else
      AssignedIsWritable(s, dir);
      WriteDir(s, placed.0, placed.1, true, 0)
  }

  /** The volume of shape `p` that holds a tree. */
  function VolumeFrom(dir: Dir, p: Params): Result<seq<byte>>
    requires p.sectorsPerCluster > 0 && Proper(dir, Eleven)
  {
    var g :- LayoutOf(p);
    LayoutIsLeastAndFits(p);
    SpaceIsValid(p, g);
    var d :- Fill(SpaceOf(p, g), dir);
    Ok(Finish(p, g, d))
  }

  /** The volume of shape `p` that holds the files. */
  function VolumeOf(items: seq<Item>, p: Params): Result<seq<byte>>
    requires p.sectorsPerCluster > 0 && Placeable(items)
  {
    var dir :- InsertAll(EMPTY, items);
    BuildIsProper(EMPTY, items, Eleven);
    VolumeFrom(dir, p)
  }

  /** The same files in any order give the same bytes, or no volume at all. */
  lemma VolumeIgnoresOrder(items: seq<Item>, other: seq<Item>, p: Params)
    requires p.sectorsPerCluster > 0 && Placeable(items) && Placeable(other)
    requires multiset(items) == multiset(other)
    ensures Same(VolumeOf(items, p), VolumeOf(other, p))
  {
    BuildIgnoresOrder(EMPTY, items, other);
  }

  // ---- the root ----

  /** Nothing is stored outside the root's region and the clusters, and the table past the
      clusters in use is as it was. */
  ghost predicate Around(s: Space, d: Disk, d': Disk) {
    && Sized(s, d) && Sized(s, d') && d.next <= d'.next
    && Kept(d.part, d'.part, 0, s.rootAt)
    && Kept(d.fat, d'.fat, 0, d.next) && Kept(d.fat, d'.fat, d'.next, s.limit)
  }

  /** What lies before the clusters is kept by a step that stored only in clusters. */
  lemma BelowKept(s: Space, d: Disk, m: Disk, end: nat)
    requires s.Valid() && Wrote(s, d, m, 2, 2) && s.rootAt <= end <= s.dataAt
    ensures Kept(d.part, m.part, 0, s.rootAt) && Kept(d.part, m.part, s.rootAt, end)
  {
    KeptWithin(d.part, m.part, 0, s.Off(2), 0, s.rootAt);
    KeptWithin(d.part, m.part, 0, s.Off(2), s.rootAt, end);
  }

  lemma RootPut(s: Space, d: Disk, m: Disk, w: Disk, pl: Placed, e: nat, end: nat)
    requires s.Valid() && Fixed(s, true) && end <= s.dataAt && e == 2 + SubsSpan(s, pl.subs)
    requires Wrote(s, d, m, 2, 2) && Blank(s, d, 2, e) && SubsPreorder(s, d.fat, pl.subs, 2)
    requires m.next == d.next + FilesSpan(s, pl.files) && FilesStored(s, m.part, m.fat, pl.files, d.next)
    requires w.fat == m.fat && w.next == m.next && Kept(m.part, w.part, end, s.size) && |w.part| == s.size
    ensures Blank(s, w, 2, e) && SubsPreorder(s, w.fat, pl.subs, 2)
    ensures FilesStored(s, w.part, w.fat, pl.files, d.next)
  {
    hide SubsPreorder, FilesStored, FilesSpan, SubsSpan, Space.Valid;
    BlankAfter(s, d, m, 2, 2, e);
    SubsPreorderFrame(s, d.fat, m.fat, pl.subs, 2);
    s.OffMono(2, e);
    s.OffMono(e, d.next);
    s.OffMono(d.next, m.next);
    s.OffMono(m.next, s.limit);
    KeptWithin(m.part, w.part, end, s.size, s.Off(2), s.Off(e));
    KeptWithin(m.part, w.part, end, s.size, s.Off(d.next), s.Off(m.next));
    ZeroKept(m.part, w.part, s.Off(2), s.Off(e));
    FilesStoredFrame(s, m, w, pl.files, d.next, m.next);
  }

  /** Subdirectories written, the root's entries, its files and what lies around are kept. */
  lemma RootKept(s: Space, d: Disk, w: Disk, d': Disk, es: seq<Slot>, e: nat, end: nat)
    requires s.Valid() && s.rootAt <= end <= s.dataAt && Sized(s, d) && e <= d.next <= w.next
    requires Listed(s, w.part, s.rootAt, end, es)
    requires Kept(d.part, w.part, 0, s.rootAt) && Kept(d.fat, w.fat, 0, d.next) && Kept(d.fat, w.fat, w.next, s.limit)
    requires Wrote(s, w, d', 2, e)
    ensures Listed(s, d'.part, s.rootAt, end, es) && Around(s, d, d')
    ensures Kept(w.part, d'.part, s.Off(d.next), s.Off(w.next)) && Kept(w.fat, d'.fat, d.next, w.next)
  {
    s.OffMono(e, d.next);
    s.OffMono(d.next, w.next);
    KeptWithin(w.part, d'.part, 0, s.Off(2), s.rootAt, end);
    KeptWithin(w.part, d'.part, 0, s.Off(2), 0, s.rootAt);
    KeptWithin(w.part, d'.part, s.Off(e), s.Off(w.next), s.Off(d.next), s.Off(w.next));
    KeptWithin(w.fat, d'.fat, 0, w.next, 0, d.next);
    KeptWithin(w.fat, d'.fat, 0, w.next, d.next, w.next);
    KeptWithin(d.fat, w.fat, w.next, s.limit, d'.next, s.limit);
    ListedFrame(s, w.part, d'.part, s.rootAt, end, es);
  }

  lemma FixedRootStored(s: Space, d: Disk, pl: Placed, next: nat, mine: nat, es: seq<Slot>, end: nat)
    requires s.Valid() && InPlace(s, pl, true) && Fixed(s, true) && mine == next + FilesSpan(s, pl.files)
    requires end == s.rootAt + s.rootEntries * ENTRY && es == DirList(s, pl, true, 0, next)
    requires Listed(s, d.part, s.rootAt, end, es)
    requires FilesStored(s, d.part, d.fat, pl.files, next) && SubsStored(s, d, pl.subs, 0, mine) && mine <= d.next
    ensures DirStored(s, d, pl, true, 0, next)
  {
    hide InPlace, Listed, FilesStored, SubsStored, FilesSpan, DirList, Space.Valid;
    DirStoredOf(s, d, pl, true, 0, next);
  }

  /** The files and entries of a fixed root. */
  lemma FixedRootOwn(s: Space, d: Disk, pl: Placed, e: nat, end: nat) returns (w: Disk, es: seq<Slot>)
    requires s.Valid() && InPlace(s, pl, true) && Labelled(pl) && Fixed(s, true)
    requires SubsPreorder(s, d.fat, pl.subs, 2) && Blank(s, d, 2, e) && e == 2 + SubsSpan(s, pl.subs)
    requires end == s.rootAt + s.rootEntries * ENTRY && ZeroIn(d.part, s.rootAt, end)
    requires WriteDir(s, d, pl, true, 0).Ok?
    ensures Sized(s, w) && WriteDir(s, d, pl, true, 0) == WriteSubs(s, w, pl.subs, 0)
    ensures Blank(s, w, 2, e) && SubsPreorder(s, w.fat, pl.subs, 2) && w.next == d.next + FilesSpan(s, pl.files)
    ensures FilesStored(s, w.part, w.fat, pl.files, d.next)
    ensures es == DirList(s, pl, true, 0, d.next) && Listed(s, w.part, s.rootAt, end, es)
    ensures Kept(d.part, w.part, 0, s.rootAt) && Kept(d.fat, w.fat, 0, d.next) && Kept(d.fat, w.fat, w.next, s.limit)
  {
    var m;
    m, es := WriteDirParts(s, d, pl, true, 0);
    BelowKept(s, d, m, end);
    ZeroKept(d.part, m.part, s.rootAt, end);
    PutListed(s, m.part, s.rootAt, end, es);
    w := PutSlots(s, m, pl, true, es);
    RootPut(s, d, m, w, pl, e, end);
  }

  /** The fixed root of a FAT16 volume. */
  lemma FixedRootWritten(s: Space, d: Disk, pl: Placed, e: nat, end: nat)
    requires s.Valid() && InPlace(s, pl, true) && Labelled(pl) && Fixed(s, true)
    requires SubsPreorder(s, d.fat, pl.subs, 2) && Blank(s, d, 2, e) && e == 2 + SubsSpan(s, pl.subs)
    requires end == s.rootAt + s.rootEntries * ENTRY && ZeroIn(d.part, s.rootAt, end)
    requires WriteDir(s, d, pl, true, 0).Ok?
    ensures var d' := WriteDir(s, d, pl, true, 0).value;
      && d'.next == d.next + AllFiles(s, pl) && DirStored(s, d', pl, true, 0, d.next) && Around(s, d, d')
  {
    var w, es := FixedRootOwn(s, d, pl, e, end);
    WriteSubsCorrect(s, w, pl.subs, 0, 2, e);
    var d' := WriteSubs(s, w, pl.subs, 0).value;
    RootKept(s, d, w, d', es, e, end);
    FilesStoredFrame(s, w, d', pl.files, d.next, w.next);
    FixedRootStored(s, d', pl, d.next, w.next, es, end);
  }

  /** The chained root of a FAT32 volume. */
  lemma ChainedRootWritten(s: Space, d: Disk, pl: Placed, e: nat)
    requires s.Valid() && InPlace(s, pl, true) && Labelled(pl) && !Fixed(s, true)
    requires Preorder(s, d.fat, pl, true, 2) && Blank(s, d, 2, e) && e == 2 + DirSpan(s, pl, true)
    requires WriteDir(s, d, pl, true, 0).Ok?
    ensures var d' := WriteDir(s, d, pl, true, 0).value;
      && d'.next == d.next + AllFiles(s, pl) && DirStored(s, d', pl, true, 0, d.next) && Around(s, d, d')
  {
    WriteDirCorrect(s, d, pl, true, 0, 2, e);
    var d' := WriteDir(s, d, pl, true, 0).value;
    KeptWithin(d.part, d'.part, 0, s.Off(2), 0, s.rootAt);
  }

  /** The tree stored on a full disk, and where its parts stand. */
  ghost predicate DiskHolds(s: Space, d: Disk, pl: Placed, dir: Dir) {
    && s.Valid() && Sized(s, d) && InPlace(s, pl, true) && Mirrors(pl, dir)
    && Preorder(s, d.fat, pl, true, 2)
    && d.next == 2 + DirSpan(s, pl, true) + AllFiles(s, pl)
    && DirStored(s, d, pl, true, 0, 2 + DirSpan(s, pl, true))
    && FreeFrom(s, d.fat, d.next)
  }

  /** The table calls every cluster from `next` on free. */
  ghost predicate FreeFrom(s: Space, fat: seq<nat>, next: nat) {
    next <= s.limit == |fat| && fat[next..] == NoLinks(s.limit - next)
  }

  lemma BlankDiskIs(s: Space, lo: nat, hi: nat)
    requires s.Valid() && lo <= hi <= s.size
    ensures ZeroIn(BlankDisk(s).part, lo, hi)
  {
  }

  lemma FreeStaysFree(s: Space, a: seq<nat>, b: seq<nat>, next: nat, next': nat)
    requires FreeFrom(s, a, next) && next <= next' && Kept(a, b, next', s.limit)
    ensures FreeFrom(s, b, next')
  {
    SliceOfSlice(a, next, s.limit, next', s.limit);
    assert a[next..] == a[next..s.limit] && a[next'..] == a[next'..s.limit] && b[next'..] == b[next'..s.limit];
    assert NoLinks(s.limit - next)[next' - next..s.limit - next] == NoLinks(s.limit - next');
  }

  /** A disk that was filled holds the tree. */
  lemma FillHolds(s: Space, dir: Dir) returns (pl: Placed)
    requires s.Valid() && Proper(dir, Eleven) && Fill(s, dir).Ok?
    ensures DiskHolds(s, Fill(s, dir).value, pl, dir)
  {
    var b := BlankDisk(s);
    var r := Assign(s, b, dir, true).value;
    pl := r.1;
    AssignMoves(s, b, dir, true);
    AssignPlaces(s, b, dir, true);
    AssignMirrors(s, b, dir, true);
    AssignedIsWritable(s, dir);
    assert FreeFrom(s, b.fat, 2);
    FreeStaysFree(s, b.fat, r.0.fat, 2, r.0.next);
    RootWritten(s, r.0, pl);
    var d := Fill(s, dir).value;
    HoldsAfter(s, r.0, d, pl, dir);
  }

  /** Writing the root of a tree just placed stores the tree, in either format. */
  lemma RootWritten(s: Space, d: Disk, pl: Placed)
    requires s.Valid() && InPlace(s, pl, true) && Labelled(pl) && Sized(s, d)
    requires Preorder(s, d.fat, pl, true, 2) && d.next == 2 + DirSpan(s, pl, true) && d.part == BlankDisk(s).part
    requires WriteDir(s, d, pl, true, 0).Ok?
    ensures var d' := WriteDir(s, d, pl, true, 0).value;
      && d'.next == d.next + AllFiles(s, pl) && DirStored(s, d', pl, true, 0, d.next) && Around(s, d, d')
  {
    s.OffMono(2, d.next);
    s.OffMono(d.next, s.limit);
    BlankDiskIs(s, s.Off(2), s.Off(d.next));
    BlankDiskIs(s, s.rootAt, s.rootAt + s.rootEntries * ENTRY);
    if Fixed(s, true) {
      FixedRootWritten(s, d, pl, d.next, s.rootAt + s.rootEntries * ENTRY);
    } else {
      ChainedRootWritten(s, d, pl, d.next);
    }
  }

  lemma HoldsAfter(s: Space, d: Disk, d': Disk, pl: Placed, dir: Dir)
    requires s.Valid() && InPlace(s, pl, true) && Mirrors(pl, dir) && Around(s, d, d')
    requires Preorder(s, d.fat, pl, true, 2) && d.next == 2 + DirSpan(s, pl, true)
    requires d'.next == d.next + AllFiles(s, pl) && DirStored(s, d', pl, true, 0, d.next)
    requires FreeFrom(s, d.fat, d.next)
    ensures DiskHolds(s, d', pl, dir)
  {
    hide InPlace, Mirrors, Preorder, DirSpan, AllFiles, DirStored, FreeFrom;
    KeptWithin(d.fat, d'.fat, 0, d.next, 2, d.next);
    PreorderFrame(s, d.fat, d'.fat, pl, true, 2);
    FreeStaysFree(s, d.fat, d'.fat, d.next, d'.next);
  }
}
