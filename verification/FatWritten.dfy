/** Writing a placed tree stores all of it. */
module FatWritten {
  import opened Bytes
  import opened FatResult
  import opened FatLayout
  import opened FatTree
  import opened FatWriter
  import opened FatStored
  import opened FatContents

  /** A step that stored only in new clusters stored in no range below them. */
  lemma WroteNone(s: Space, d: Disk, d': Disk, c: nat)
    requires s.Valid() && Wrote(s, d, d', 2, 2) && 2 <= c <= d.next
    ensures Wrote(s, d, d', c, c)
  {
    s.OffMono(2, c);
    s.OffMono(c, d.next);
    KeptWithin(d.part, d'.part, s.Off(2), s.Off(d.next), s.Off(2), s.Off(c));
    KeptWithin(d.part, d'.part, s.Off(2), s.Off(d.next), s.Off(c), s.Off(d.next));
    KeptJoin(d.part, d'.part, 0, s.Off(2), s.Off(c));
  }

  lemma KeptJoin<T>(a: seq<T>, b: seq<T>, lo: nat, mid: nat, hi: nat)
    requires Kept(a, b, lo, mid) && Kept(a, b, mid, hi)
    ensures Kept(a, b, lo, hi)
  {
    SplitSlice(a, lo, mid, hi);
    SplitSlice(b, lo, mid, hi);
  }

  lemma ZeroKept(a: seq<byte>, b: seq<byte>, lo: nat, hi: nat)
    requires ZeroIn(a, lo, hi) && Kept(a, b, lo, hi)
    ensures ZeroIn(b, lo, hi)
  {
  }

  /** Bytes stored in a blank region leave it blank behind them, and keep the rest. */
  lemma PutRaw(part: seq<byte>, at: nat, end: nat, raw: seq<byte>)
    requires at + |raw| <= end <= |part| && ZeroIn(part, at, end)
    ensures var r := Splice(part, at, raw);
      At(r, at, raw) && ZeroIn(r, at + |raw|, end) && Kept(part, r, 0, at) && Kept(part, r, end, |part|)
  {
    SpliceKept(part, at, raw, 0, at);
    SpliceKept(part, at, raw, end, |part|);
    SpliceKept(part, at, raw, at + |raw|, end);
    SpliceAt(part, at, raw);
    ZeroWithin(part, at, end, at + |raw|, end);
    ZeroKept(part, Splice(part, at, raw), at + |raw|, end);
  }

  /** Entries stored in a blank region are listed there, and the rest is kept. */
  lemma PutListed(s: Space, part: seq<byte>, at: nat, end: nat, es: seq<Slot>)
    requires SlotsOk(s.format, es) && at + |es| * ENTRY <= end <= |part| && ZeroIn(part, at, end)
    ensures var r := Splice(part, at, Encode(s.format, es));
      Listed(s, r, at, end, es) && Kept(part, r, 0, at) && Kept(part, r, end, |part|)
  {
    hide Encode, SlotsOk, Splice;
    var raw := Encode(s.format, es);
    PutRaw(part, at, end, raw);
    assert at + |es| * ENTRY == at + |raw|;
    assert ZeroIn(Splice(part, at, raw), at + |es| * ENTRY, end);
  }

  /** The entries of a directory go into its own clusters, zeros staying behind them. */
  lemma PutOwn(s: Space, m: Disk, pl: Placed, isRoot: bool, es: seq<Slot>, own: nat)
    requires s.Valid() && Sized(s, m) && InPlace(s, pl, isRoot) && !Fixed(s, isRoot)
    requires SlotsOk(s.format, es) && |es| == CountIn(|pl.subs|, |pl.files|, isRoot)
    requires own == pl.cluster + OwnSpan(s, pl, isRoot) && own <= m.next
    requires ZeroIn(m.part, s.Off(pl.cluster), s.Off(own))
    ensures var d := PutSlots(s, m, pl, isRoot, es);
      && Wrote(s, m, d, pl.cluster, own) && d.next == m.next && d.fat == m.fat
      && Listed(s, d.part, s.Off(pl.cluster), s.Off(own), es)
  {
    OwnFits(s, pl, isRoot);
    s.OffMono(own, m.next);
    s.OffMono(m.next, s.limit);
    PutListed(s, m.part, s.Off(pl.cluster), s.Off(own), es);
    var r := Splice(m.part, s.Off(pl.cluster), Encode(s.format, es));
    KeptWithin(m.part, r, s.Off(own), s.size, s.Off(own), s.Off(m.next));
    KeptWithin(m.part, r, s.Off(own), s.size, s.Off(m.next), s.size);
  }

  /** Writing a directory is writing its files, its entries and its subdirectories. */
  lemma WriteDirParts(s: Space, d: Disk, pl: Placed, isRoot: bool, parent: nat) returns (m: Disk, es: seq<Slot>)
    requires s.Valid() && Sized(s, d) && InPlace(s, pl, isRoot) && Labelled(pl) && parent < s.limit
    requires WriteDir(s, d, pl, isRoot, parent).Ok?
    ensures Sized(s, m) && m.next == d.next + FilesSpan(s, pl.files) && Wrote(s, d, m, 2, 2)
    ensures FilesStored(s, m.part, m.fat, pl.files, d.next)
    ensures es == DirList(s, pl, isRoot, parent, d.next) && SlotsOk(s.format, es)
    ensures Fixed(s, isRoot) ==> |es| <= s.rootEntries
    ensures pl.cluster < s.limit
    ensures WriteDir(s, d, pl, isRoot, parent) ==
            WriteSubs(s, PutSlots(s, m, pl, isRoot, es), pl.subs, Me(pl, isRoot))
  {
    var files := WriteFiles(s, d, pl.files).value;
    WriteFilesCorrect(s, d, pl.files);
    WriteFilesSlots(s, d, pl.files);
    m, es := files.0, DirSlots(s, pl, isRoot, parent, files.1);
    OwnInside(s, pl, isRoot);
  }

  /** Files written, then the directory's own entries. */
  lemma OwnStep(s: Space, d: Disk, m: Disk, w: Disk, pl: Placed, own: nat)
    requires s.Valid() && Wrote(s, d, m, 2, 2) && Wrote(s, m, w, pl.cluster, own) && own <= d.next && w.next == m.next
    requires m.next == d.next + FilesSpan(s, pl.files) && FilesStored(s, m.part, m.fat, pl.files, d.next)
    ensures Wrote(s, d, w, pl.cluster, own) && FilesStored(s, w.part, w.fat, pl.files, d.next)
  {
    WroteNone(s, d, m, pl.cluster);
    WroteThen(s, d, m, w, pl.cluster, pl.cluster, own);
    FilesStoredFrame(s, m, w, pl.files, d.next, m.next);
  }

  /** Steps below a directory keep its own entries, its chain and its files. */
  lemma OwnKept(s: Space, d: Disk, w: Disk, d': Disk, c: nat, own: nat, e: nat, es: seq<Slot>)
    requires s.Valid() && Wrote(s, d, w, c, own) && Wrote(s, w, d', own, e) && own <= e <= d.next
    requires Run(s, d.fat, c, own - c) && Listed(s, w.part, s.Off(c), s.Off(own), es)
    ensures Wrote(s, d, d', c, e) && Agree(s, w, d', c, own, d.next, w.next)
    ensures Run(s, d'.fat, c, own - c) && Listed(s, d'.part, s.Off(c), s.Off(own), es)
  {
    WroteThen(s, d, w, d', c, own, e);
    ListedFrame(s, w.part, d'.part, s.Off(c), s.Off(own), es);
    KeptWithin(d.fat, d'.fat, 0, d.next, c, own);
  }

  /** What is left after each part of writing a directory makes the directory stored. */
  lemma DirStep(s: Space, d: Disk, w: Disk, d': Disk, pl: Placed, isRoot: bool, parent: nat, own: nat, e: nat)
    requires s.Valid() && InPlace(s, pl, isRoot) && !Fixed(s, isRoot)
      && Run(s, d.fat, pl.cluster, OwnSpan(s, pl, isRoot))
    requires own == pl.cluster + OwnSpan(s, pl, isRoot) && own <= e <= d.next
    requires Wrote(s, d, w, pl.cluster, own) && w.next == d.next + FilesSpan(s, pl.files)
    requires FilesStored(s, w.part, w.fat, pl.files, d.next)
    requires Listed(s, w.part, s.Off(pl.cluster), s.Off(own), DirList(s, pl, isRoot, parent, d.next))
    requires Wrote(s, w, d', own, e) && SubsStored(s, d', pl.subs, Me(pl, isRoot), w.next)
    ensures Wrote(s, d, d', pl.cluster, e) && DirStored(s, d', pl, isRoot, parent, d.next)
  {
    var es := DirList(s, pl, isRoot, parent, d.next);
    OwnKept(s, d, w, d', pl.cluster, own, e, es);
    FilesStoredFrame(s, w, d', pl.files, d.next, w.next);
    ChainedDirStored(s, d', pl, isRoot, parent, d.next, own, w.next, es);
  }

  lemma SubsStep(s: Space, d: Disk, m: Disk, d': Disk, subs: seq<Link>, parent: nat, c: nat, c': nat, e: nat)
    requires s.Valid() && subs != [] && SubsInPlace(s, subs) && Preorder(s, m.fat, subs[0].dir, false, c)
    requires c' == c + DirSpan(s, subs[0].dir, false) && c' <= e <= d.next
    requires Wrote(s, d, m, c, c') && m.next == d.next + AllFiles(s, subs[0].dir)
    requires DirStored(s, m, subs[0].dir, false, parent, d.next)
    requires Wrote(s, m, d', c', e) && SubsStored(s, d', subs[1..], parent, m.next)
    ensures Wrote(s, d, d', c, e) && SubsStored(s, d', subs, parent, d.next)
  {
    hide InPlace, DirStored, Preorder, DirSpan, AllFiles, Space.Valid, SubsStored;
    WroteThen(s, d, m, d', c, c', e);
    DirStoredFrame(s, m, d', subs[0].dir, parent, c, c', d.next, m.next);
    SubsStoredOf(s, d', subs, parent, d.next);
  }

  /** What the clusters of directories still to be written must be like. */
  ghost predicate Blank(s: Space, d: Disk, c: nat, e: nat) {
    Sized(s, d) && 2 <= c <= e <= d.next && ZeroIn(d.part, s.Off(c), s.Off(e))
  }

  lemma BlankWithin(s: Space, d: Disk, c: nat, e: nat, c': nat, e': nat)
    requires s.Valid() && Blank(s, d, c, e) && c <= c' <= e' <= e
    ensures Blank(s, d, c', e')
  {
    s.OffMono(c, c');
    s.OffMono(c', e');
    s.OffMono(e', e);
    ZeroWithin(d.part, s.Off(c), s.Off(e), s.Off(c'), s.Off(e'));
  }

  /** Clusters past those a step stored in are as blank as they were. */
  lemma BlankAfter(s: Space, d: Disk, d': Disk, lo: nat, hi: nat, e: nat)
    requires s.Valid() && Wrote(s, d, d', lo, hi) && hi <= e <= d.next && Blank(s, d, hi, e)
    ensures Blank(s, d', hi, e)
    ensures Kept(d.fat, d'.fat, hi, e)
  {
    s.OffMono(hi, e);
    s.OffMono(e, d.next);
    KeptWithin(d.part, d'.part, s.Off(hi), s.Off(d.next), s.Off(hi), s.Off(e));
    KeptWithin(d.fat, d'.fat, 0, d.next, hi, e);
    ZeroKept(d.part, d'.part, s.Off(hi), s.Off(e));
  }

  /** After a directory's own step its subdirectories still wait, blank and in preorder. */
  lemma IntoSubs(s: Space, d: Disk, w: Disk, pl: Placed, isRoot: bool, c: nat, own: nat, e: nat)
    requires s.Valid() && !Fixed(s, isRoot) && Blank(s, d, c, e) && Preorder(s, d.fat, pl, isRoot, c)
      && Wrote(s, d, w, c, own)
    requires own == c + OwnSpan(s, pl, isRoot) && e == c + DirSpan(s, pl, isRoot)
    ensures Blank(s, w, own, e) && SubsPreorder(s, w.fat, pl.subs, own)
  {
    BlankWithin(s, d, c, e, own, e);
    BlankAfter(s, d, w, c, own, e);
    SubsPreorderFrame(s, d.fat, w.fat, pl.subs, own);
  }

  /** After one subdirectory the others still wait, and it stays in its place. */
  lemma IntoRest(s: Space, d: Disk, m: Disk, subs: seq<Link>, c: nat, c': nat, e: nat)
    requires s.Valid() && subs != [] && Blank(s, d, c, e) && SubsPreorder(s, d.fat, subs, c) && Wrote(s, d, m, c, c')
    requires c' == c + DirSpan(s, subs[0].dir, false) && e == c + SubsSpan(s, subs)
    ensures Blank(s, m, c', e) && SubsPreorder(s, m.fat, subs[1..], c') && Preorder(s, m.fat, subs[0].dir, false, c)
  {
    hide DirSpan, Preorder, Space.Valid;
    BlankWithin(s, d, c, e, c', e);
    BlankAfter(s, d, m, c, c', e);
    SubsPreorderFrame(s, d.fat, m.fat, subs[1..], c');
    KeptWithin(d.fat, m.fat, 0, d.next, c, c');
    PreorderFrame(s, d.fat, m.fat, subs[0].dir, false, c);
  }

  /** Storing files leaves a blank directory blank. */
  lemma OwnReady(s: Space, d: Disk, m: Disk, c: nat, own: nat, e: nat)
    requires s.Valid() && Blank(s, d, c, e) && c <= own <= e && Wrote(s, d, m, 2, 2)
    ensures own <= d.next && ZeroIn(m.part, s.Off(c), s.Off(own))
  {
    WroteNone(s, d, m, c);
    BlankWithin(s, d, c, e, c, own);
    BlankAfter(s, d, m, c, c, own);
  }

  /** Files stored, a directory's own entries go in behind them. */
  lemma OwnWritten(s: Space, d: Disk, m: Disk, pl: Placed, isRoot: bool, es: seq<Slot>, own: nat)
    requires s.Valid() && InPlace(s, pl, isRoot) && !Fixed(s, isRoot)
    requires SlotsOk(s.format, es) && |es| == CountIn(|pl.subs|, |pl.files|, isRoot)
    requires own == pl.cluster + OwnSpan(s, pl, isRoot) && own <= d.next
    requires Wrote(s, d, m, 2, 2) && ZeroIn(m.part, s.Off(pl.cluster), s.Off(own))
    requires m.next == d.next + FilesSpan(s, pl.files) && FilesStored(s, m.part, m.fat, pl.files, d.next)
    ensures var w := PutSlots(s, m, pl, isRoot, es);
      && Wrote(s, d, w, pl.cluster, own) && w.next == m.next
      && FilesStored(s, w.part, w.fat, pl.files, d.next)
      && Listed(s, w.part, s.Off(pl.cluster), s.Off(own), es)
  {
    PutOwn(s, m, pl, isRoot, es, own);
    OwnStep(s, d, m, PutSlots(s, m, pl, isRoot, es), pl, own);
  }

  /** The files and own entries of a directory that has clusters. */
  lemma WriteOwn(s: Space, d: Disk, pl: Placed, isRoot: bool, parent: nat, c: nat, own: nat, e: nat) returns (w: Disk)
    requires s.Valid() && InPlace(s, pl, isRoot) && !Fixed(s, isRoot) && Labelled(pl) && parent < s.limit
    requires Blank(s, d, c, e) && pl.cluster == c && own == c + OwnSpan(s, pl, isRoot) && own <= e
    requires WriteDir(s, d, pl, isRoot, parent).Ok?
    ensures Sized(s, w) && pl.cluster < s.limit
    ensures WriteDir(s, d, pl, isRoot, parent) == WriteSubs(s, w, pl.subs, Me(pl, isRoot))
    ensures Wrote(s, d, w, c, own) && w.next == d.next + FilesSpan(s, pl.files)
    ensures FilesStored(s, w.part, w.fat, pl.files, d.next)
    ensures Listed(s, w.part, s.Off(c), s.Off(own), DirList(s, pl, isRoot, parent, d.next))
  {
    var m, es := WriteDirParts(s, d, pl, isRoot, parent);
    OwnReady(s, d, m, c, own, e);
    OwnWritten(s, d, m, pl, isRoot, es, own);
    w := PutSlots(s, m, pl, isRoot, es);
  }

  /** Writing a directory that has clusters stores it and all below it, and nothing else. */
  lemma {:induction false} WriteDirCorrect(s: Space, d: Disk, pl: Placed, isRoot: bool, parent: nat, c: nat, e: nat)
    requires s.Valid() && InPlace(s, pl, isRoot) && !Fixed(s, isRoot) && Labelled(pl) && parent < s.limit
    requires Blank(s, d, c, e) && Preorder(s, d.fat, pl, isRoot, c) && e == c + DirSpan(s, pl, isRoot)
    requires WriteDir(s, d, pl, isRoot, parent).Ok?
    ensures var d' := WriteDir(s, d, pl, isRoot, parent).value;
      && d'.next == d.next + AllFiles(s, pl)
      && Wrote(s, d, d', c, e)
      && DirStored(s, d', pl, isRoot, parent, d.next)
    decreases pl
  {
    var own := c + OwnSpan(s, pl, isRoot);
    var w := WriteOwn(s, d, pl, isRoot, parent, c, own, e);
    IntoSubs(s, d, w, pl, isRoot, c, own, e);
    WriteSubsCorrect(s, w, pl.subs, Me(pl, isRoot), own, e);
    DirStep(s, d, w, WriteSubs(s, w, pl.subs, Me(pl, isRoot)).value, pl, isRoot, parent, own, e);
  }

  lemma {:induction false} WriteSubsCorrect(s: Space, d: Disk, subs: seq<Link>, parent: nat, c: nat, e: nat)
    requires s.Valid() && SubsInPlace(s, subs) && SubsLabelled(subs) && parent < s.limit
    requires Blank(s, d, c, e) && SubsPreorder(s, d.fat, subs, c) && e == c + SubsSpan(s, subs)
    requires WriteSubs(s, d, subs, parent).Ok?
    ensures var d' := WriteSubs(s, d, subs, parent).value;
      && d'.next == d.next + SubsFiles(s, subs)
      && Wrote(s, d, d', c, e)
      && SubsStored(s, d', subs, parent, d.next)
    decreases subs
  {
    if subs == [] {
      s.OffMono(2, c);
      s.OffMono(c, d.next);
      s.OffMono(d.next, s.limit);
    } else {
      var c' := c + DirSpan(s, subs[0].dir, false);
      var m := WriteDir(s, d, subs[0].dir, false, parent).value;
      BlankWithin(s, d, c, e, c, c');
      WriteDirCorrect(s, d, subs[0].dir, false, parent, c, c');
      IntoRest(s, d, m, subs, c, c', e);
      WriteSubsCorrect(s, m, subs[1..], parent, c', e);
      SubsStep(s, d, m, WriteSubs(s, m, subs[1..], parent).value, subs, parent, c, c', e);
    }
  }
}
