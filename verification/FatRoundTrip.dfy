/** What is written is what is read: every path of a written volume reads as the tree says. */
module FatRoundTrip {
  import opened Bytes
  import opened Optional
  import opened FatResult
  import opened FatLayout
  import opened FatNames
  import opened FatTree
  import opened FatWriter
  import opened FatStored
  import opened FatContents
  import opened FatReader
  import opened FatFiles
  import opened FatView
  import opened FatReadBack
  import Ordered

  // ---- listing a stored directory ----

  /** The name a reader gives a stored name. */
  function Shown(n: FatNames.Text): FatNames.Text { if |n| == 11 then Display(n) else n }

  /** The entries a reader makes of those it does not pass over. */
  function Show(es: seq<Slot>): (r: seq<Named>)
    ensures |r| == |es|
  {
    seq(|es|, i requires 0 <= i < |es| => NamedOf(es[i]))
  }

  function NamedOf(e: Slot): Named { Named(Shown(e.name), e.attr == ATTR_DIRECTORY, e.cluster, e.size) }

  /** Every name in the placed tree satisfies `ok`. */
  ghost predicate TreeNamed(pl: Placed, ok: FatNames.Text -> bool)
    decreases pl
  {
    FilesNamed(pl.files, ok) && SubsNamed(pl.subs, ok)
  }

  ghost predicate SubsNamed(subs: seq<Link>, ok: FatNames.Text -> bool)
    decreases subs
  {
    subs == [] || (ok(subs[0].name) && TreeNamed(subs[0].dir, ok) && SubsNamed(subs[1..], ok))
  }

  ghost predicate FilesNamed(files: seq<Stored>, ok: FatNames.Text -> bool) {
    files == [] || (ok(files[0].name) && FilesNamed(files[1..], ok))
  }

  lemma {:induction false} SubNamedAt(subs: seq<Link>, i: nat, ok: FatNames.Text -> bool)
    requires SubsNamed(subs, ok) && i < |subs|
    ensures ok(subs[i].name) && TreeNamed(subs[i].dir, ok)
    decreases i
  {
    if i > 0 { SubNamedAt(subs[1..], i - 1, ok); }
  }

  lemma {:induction false} FileNamedAt(files: seq<Stored>, i: nat, ok: FatNames.Text -> bool)
    requires FilesNamed(files, ok) && i < |files|
    ensures ok(files[i].name)
    decreases i
  {
    if i > 0 { FileNamedAt(files[1..], i - 1, ok); }
  }

  /** Names that `ShortName` gives. */
  ghost predicate Encoded(ok: FatNames.Text -> bool) { forall n | ok(n) :: ValidName(n) }

  lemma {:induction false} ReadConcat(a: seq<Slot>, b: seq<Slot>)
    ensures ReadSlots(a + b) == ReadSlots(a) + ReadSlots(b)
    decreases |a|
  {
    hide ReadSlot;
    if a == [] {
      assert a + b == b;
    } else {
      ReadConcat(a[1..], b);
      assert (a + b)[1..] == a[1..] + b;
    }
  }

  lemma {:induction false} ReadableConcat(a: seq<Slot>, b: seq<Slot>)
    requires AllReadable(a) && AllReadable(b)
    ensures AllReadable(a + b)
    decreases |a|
  {
    if a == [] {
      assert a + b == b;
    } else {
      ReadableConcat(a[1..], b);
      assert (a + b)[1..] == a[1..] + b;
    }
  }

  lemma OneNamed(e: Slot)
    requires ValidName(e.name) && (e.attr == ATTR_DIRECTORY || e.attr == ATTR_ARCHIVE)
    ensures Readable(e) && ReadSlot(e) == [NamedOf(e)]
  {
    NameIsNoDot(e.name);
  }

  lemma ShowCons(es: seq<Slot>)
    requires es != []
    ensures Show(es) == [NamedOf(es[0])] + Show(es[1..])
  {
  }

  lemma {:induction false} ReadCons(es: seq<Slot>)
    requires es != [] && Readable(es[0]) && ReadSlot(es[0]) == [NamedOf(es[0])]
    requires AllReadable(es[1..]) && ReadSlots(es[1..]) == Show(es[1..])
    ensures AllReadable(es) && ReadSlots(es) == Show(es)
  {
    ShowCons(es);
  }

  /** Where the `i`th of some files placed from `next` on starts. */
  function FileNext(s: Space, files: seq<Stored>, next: nat, i: nat): nat
    requires s.Valid() && i < |files|
    decreases i
  {
    if i == 0 then next else FileNext(s, files[1..], next + Span(s, |files[0].data|), i - 1)
  }

  lemma {:induction false} FileSlotAt(s: Space, files: seq<Stored>, next: nat, i: nat)
    requires s.Valid() && i < |files|
    ensures FileSlots(s, files, next)[i] ==
            Slot(files[i].name, ATTR_ARCHIVE, FirstOf(files[i], FileNext(s, files, next, i)), |files[i].data|)
    decreases i
  {
    if i > 0 { FileSlotAt(s, files[1..], next + Span(s, |files[0].data|), i - 1); }
  }

  lemma {:induction false} SubSlotAt(subs: seq<Link>, i: nat)
    requires i < |subs|
    ensures SubSlots(subs)[i] == Slot(subs[i].name, ATTR_DIRECTORY, subs[i].dir.cluster, 0)
    decreases i
  {
    if i > 0 { SubSlotAt(subs[1..], i - 1); }
  }

  ghost predicate Plain(e: Slot, ok: FatNames.Text -> bool) {
    ok(e.name) && (e.attr == ATTR_DIRECTORY || e.attr == ATTR_ARCHIVE)
  }

  /** Entries with names of their own are all shown. */
  lemma {:induction false} AllShown(es: seq<Slot>, ok: FatNames.Text -> bool)
    requires Encoded(ok) && forall i | 0 <= i < |es| :: Plain(es[i], ok)
    ensures AllReadable(es) && ReadSlots(es) == Show(es)
    decreases |es|
  {
    if es != [] {
      assert Plain(es[0], ok);
      OneNamed(es[0]);
      AllShown(es[1..], ok);
      ReadCons(es);
    }
  }

  lemma VisiblePlain(s: Space, pl: Placed, next: nat, i: nat, ok: FatNames.Text -> bool)
    requires s.Valid() && TreeNamed(pl, ok) && i < |pl.subs| + |pl.files|
    ensures Plain(Visible(s, pl, next)[i], ok)
  {
    if i < |pl.subs| {
      SubNamedAt(pl.subs, i, ok);
      SubSlotAt(pl.subs, i);
    } else {
      FileNamedAt(pl.files, i - |pl.subs|, ok);
      FileSlotAt(s, pl.files, next, i - |pl.subs|);
    }
  }

  /** The entries of a directory that a reader sees: its subdirectories, then its files. */
  function Visible(s: Space, pl: Placed, next: nat): (es: seq<Slot>)
    requires s.Valid()
    ensures |es| == |pl.subs| + |pl.files|
  {
    SubSlots(pl.subs) + FileSlots(s, pl.files, next)
  }

  lemma HeadRead(s: Space, cluster: nat, isRoot: bool, parent: nat)
    requires isRoot ==> s.volumeLabel[0] != 0
    ensures var es := HeadSlots(s, cluster, isRoot, parent); AllReadable(es) && ReadSlots(es) == []
  {
    var es := HeadSlots(s, cluster, isRoot, parent);
    if isRoot {
      assert es[1..] == [];
    } else {
      var last := [es[1]];
      assert last[1..] == [] && AllReadable(last) && ReadSlots(last) == [];
      assert es[1..] == last;
    }
  }

  lemma DirListParts(s: Space, pl: Placed, isRoot: bool, parent: nat, next: nat)
    requires s.Valid()
    ensures DirList(s, pl, isRoot, parent, next) == HeadSlots(s, pl.cluster, isRoot, parent) + Visible(s, pl, next)
  {
  }

  lemma VisibleShown(s: Space, pl: Placed, next: nat, ok: FatNames.Text -> bool)
    requires s.Valid() && TreeNamed(pl, ok) && Encoded(ok)
    ensures var es := Visible(s, pl, next); AllReadable(es) && ReadSlots(es) == Show(es)
  {
    var es := Visible(s, pl, next);
    forall i | 0 <= i < |es| ensures Plain(es[i], ok) { VisiblePlain(s, pl, next, i, ok); }
    AllShown(es, ok);
  }

  lemma DirListRead(s: Space, pl: Placed, isRoot: bool, parent: nat, next: nat, ok: FatNames.Text -> bool)
    requires s.Valid() && TreeNamed(pl, ok) && Encoded(ok) && (isRoot ==> s.volumeLabel[0] != 0)
    ensures var es := DirList(s, pl, isRoot, parent, next);
      AllReadable(es) && ReadSlots(es) == Show(Visible(s, pl, next))
  {
    hide *;
    var head, seen := HeadSlots(s, pl.cluster, isRoot, parent), Visible(s, pl, next);
    DirListParts(s, pl, isRoot, parent, next);
    HeadRead(s, pl.cluster, isRoot, parent);
    VisibleShown(s, pl, next, ok);
    ReadableConcat(head, seen);
    ReadConcat(head, seen);
    assert [] + Show(seen) == Show(seen);
  }

  /** How a reader refers to a directory. */
  function RefOf(pl: Placed, isRoot: bool): Option<nat> { if isRoot then None else Some(pl.cluster) }

  lemma RawAndBlank(part: seq<byte>, at: nat, end: nat, raw: seq<byte>)
    requires At(part, at, raw) && ZeroIn(part, at + |raw|, end)
    ensures part[at..end] == raw + Zeros(end - at - |raw|)
  {
    SplitSlice(part, at, at + |raw|, end);
  }

  lemma ListedRaw(s: Space, part: seq<byte>, at: nat, end: nat, es: seq<Slot>, z: nat)
    requires Listed(s, part, at, end, es) && end == at + |es| * ENTRY + z
    ensures part[at..end] == Encode(s.format, es) + Zeros(z)
  {
    RawAndBlank(part, at, end, Encode(s.format, es));
  }

  lemma ListedShown(v: Volume, s: Space, d: Disk, at: nat, end: nat, es: seq<Slot>)
    requires Shows(v, s, d) && Listed(s, d.part, at, end, es) && s.rootAt <= at
    ensures Listed(s, v.bytes, at, end, es)
  {
    KeptWithin(d.part, v.bytes, s.rootAt, s.size, at, end);
    ListedFrame(s, d.part, v.bytes, at, end, es);
  }

  /** Where a reader finds a directory's raw bytes. */
  lemma DirRaw(v: Volume, s: Space, d: Disk, pl: Placed, isRoot: bool)
    requires Shows(v, s, d) && Addressable(s, d) && InPlace(s, pl, isRoot)
    requires Fixed(s, isRoot) || (Run(s, d.fat, pl.cluster, OwnSpan(s, pl, isRoot))
      && pl.cluster + OwnSpan(s, pl, isRoot) <= d.next)
    requires isRoot && s.format.Fat32? ==> pl.cluster == 2
    ensures var at, end := DirAt(s, pl, isRoot), DirEnd(s, pl, isRoot);
      at <= end <= |v.bytes| && RawDir(v, RefOf(pl, isRoot)) == Ok(v.bytes[at..end])
  {
    hide Space.Off, Run, TablesShow, Addressable, ChainBytes, CeilDiv;
    if Fixed(s, isRoot) {
      s.OffMono(2, s.limit);
    } else {
      RunBytes(v, s, d, pl.cluster, OwnSpan(s, pl, isRoot));
    }
  }

  /** The raw bytes a reader finds: the directory's entries, then zeros. */
  lemma DirBytes(v: Volume, s: Space, d: Disk, pl: Placed, isRoot: bool, parent: nat, next: nat)
        returns (es: seq<Slot>, z: nat)
    requires Shows(v, s, d) && Addressable(s, d) && InPlace(s, pl, isRoot) && DirStored(s, d, pl, isRoot, parent, next)
    requires isRoot && s.format.Fat32? ==> pl.cluster == 2
    ensures es == DirList(s, pl, isRoot, parent, next) && SlotsOk(s.format, es)
    ensures RawDir(v, RefOf(pl, isRoot)) == Ok(Encode(s.format, es) + Zeros(z))
  {
    hide DirStored, InPlace, DirList, Encode, SlotsOk, RawDir, TablesShow, Addressable, Run;
    var at, end := DirAt(s, pl, isRoot), DirEnd(s, pl, isRoot);
    es := DirList(s, pl, isRoot, parent, next);
    DirStoredParts(s, d, pl, isRoot, parent, next);
    DirAbove(s, pl, isRoot);
    ListedShown(v, s, d, at, end, es);
    z := end - (at + |es| * ENTRY);
    ListedRaw(s, v.bytes, at, end, es, z);
    DirRaw(v, s, d, pl, isRoot);
  }

  /** A stored directory lists as it was written. */
  lemma DirReads(v: Volume, s: Space, d: Disk, pl: Placed, isRoot: bool, parent: nat, next: nat,
        ok: FatNames.Text -> bool)
    requires Shows(v, s, d) && Addressable(s, d) && InPlace(s, pl, isRoot) && DirStored(s, d, pl, isRoot, parent, next)
    requires TreeNamed(pl, ok) && Encoded(ok) && (isRoot ==> s.volumeLabel[0] != 0)
      && (isRoot && s.format.Fat32? ==> pl.cluster == 2)
    ensures Entries(v, RefOf(pl, isRoot)) == Ok(Show(Visible(s, pl, next)))
  {
    hide DirStored, InPlace, DirList, Encode, SlotsOk, RawDir, TablesShow, Addressable, TreeNamed, Encoded, AllReadable,
         ReadSlots, Show, Visible, ParseDir;
    var es, z := DirBytes(v, s, d, pl, isRoot, parent, next);
    DirListRead(s, pl, isRoot, parent, next, ok);
    DirParses(s.format, es, z);
  }

  /** A label that begins with a zero ends the root before its first entry. */
  lemma UnlabelledRoot(v: Volume, s: Space, d: Disk, pl: Placed, parent: nat, next: nat)
    requires Shows(v, s, d) && Addressable(s, d) && InPlace(s, pl, true) && DirStored(s, d, pl, true, parent, next)
    requires s.volumeLabel[0] == 0 && (s.format.Fat32? ==> pl.cluster == 2)
    ensures Entries(v, None) == Ok([])
  {
    hide DirStored, InPlace, Encode, SlotsOk, RawDir, TablesShow, Addressable, ParseDir;
    var es, z := DirBytes(v, s, d, pl, true, parent, next);
    LabelFirst(s, pl, parent, next);
    FirstByte(s.format, es);
    StopsAtZero(s.format, Encode(s.format, es) + Zeros(z));
  }

  lemma LabelFirst(s: Space, pl: Placed, parent: nat, next: nat)
    requires s.Valid()
    ensures var es := DirList(s, pl, true, parent, next); es != [] && es[0].name == s.volumeLabel
  {
  }

  lemma FirstByte(format: Format, es: seq<Slot>)
    requires SlotsOk(format, es) && es != []
    ensures |Encode(format, es)| >= ENTRY && Encode(format, es)[0] == es[0].name[0]
  {
  }

  lemma StopsAtZero(format: Format, raw: seq<byte>)
    requires |raw| >= ENTRY && raw[0] == 0
    ensures ParseDir(format, raw) == []
  {
  }

  lemma DirAbove(s: Space, pl: Placed, isRoot: bool)
    requires s.Valid() && InPlace(s, pl, isRoot)
    ensures s.rootAt <= DirAt(s, pl, isRoot)
  {
    if !Fixed(s, isRoot) { s.OffMono(2, pl.cluster); }
  }
}
