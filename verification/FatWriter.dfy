/** The volume writer: clusters claimed in order, directories and files stored through them. */
module FatWriter {
  import opened Bytes
  import opened FatResult
  import opened FatLayout
  import opened FatTree
  import Ordered

  const ATTR_VOLUME_ID: byte := 0x08
  const ATTR_DIRECTORY: byte := 0x10
  const ATTR_ARCHIVE: byte := 0x20

  const DOT_NAME: Text := [46, 32, 32, 32, 32, 32, 32, 32, 32, 32, 32]
  const DOTDOT_NAME: Text := [46, 46, 32, 32, 32, 32, 32, 32, 32, 32, 32]

  /** The space a volume of some shape has, in bytes and clusters. */
  datatype Space = Space(
    format: Format,
    /** Bytes of one cluster. */
    unit: nat,
    /** One past the last cluster number. */
    limit: nat,
    rootAt: nat,
    rootEntries: nat,
    dataAt: nat,
    size: nat,
    volumeLabel: Label)
  {
    /** Root region and clusters follow one another inside the volume. */
    predicate Valid() {
      && unit > 0 && 3 <= limit < U32 && (format.Fat16? ==> limit < U16)
      && rootAt + rootEntries * ENTRY <= dataAt
      && Off(limit) <= size
    }

    /** Where a cluster's bytes start. */
    function Off(cluster: nat): nat {
      if cluster <= 2 then dataAt else unit + Off(cluster - 1)
    }

    /** Clusters start one after another. */
    lemma OffStep(a: nat, n: nat)
      requires a >= 2
      ensures Off(a + n) == Off(a) + n * unit
      decreases n
    {
      if n > 0 {
        OffStep(a, n - 1);
        assert n * unit == (n - 1) * unit + unit;
      }
    }

    lemma OffMono(a: nat, b: nat)
      requires 2 <= a <= b
      ensures dataAt <= Off(a) <= Off(b)
    {
      OffStep(2, a - 2);
      OffStep(a, b - a);
    }
  }

  /** What the writer changes: the volume's bytes, the table and the next free cluster. */
  datatype Disk = Disk(part: seq<byte>, fat: seq<nat>, next: nat)

  ghost predicate Sized(s: Space, d: Disk) {
    && |d.part| == s.size && |d.fat| == s.limit && 2 <= d.next <= s.limit
  }

  // ---- claiming clusters ----

  /** The table with a run of `n` clusters from `first` chained and ended. */
  function LinkRun(fat: seq<nat>, first: nat, n: nat, end: nat): (r: seq<nat>)
    requires first + n <= |fat|
    ensures |r| == |fat|
  {
    seq(|fat|, i requires 0 <= i < |fat| =>
      if first <= i < first + n - 1 then i + 1 else if i == first + n - 1 && n > 0 then end else fat[i])
  }

  /** Claim a chain for `bytes`: its first cluster, or 0 when there is nothing to hold. */
  function Alloc(s: Space, d: Disk, bytes: nat): (r: Result<(Disk, nat)>)
    requires s.Valid() && Sized(s, d)
    ensures r.Ok? ==> Sized(s, r.value.0)
  {
    var n := CeilDiv(bytes, s.unit);
    if n == 0 then Ok((d, 0))
    else if d.next + n - 1 >= s.limit then Err(Full)
    else Ok((Disk(d.part, LinkRun(d.fat, d.next, n, s.format.EndMark()), d.next + n), d.next))
  }

  /** A directory with its first cluster assigned, its children in name order. */
  datatype Placed = Placed(cluster: nat, subs: seq<Link>, files: seq<Stored>)
  datatype Link = Link(name: Text, dir: Placed)
  datatype Stored = Stored(name: Text, data: seq<byte>)

  function CountIn(subs: nat, files: nat, isRoot: bool): nat { subs + files + if isRoot then 1 else 2 }

  /** The root of a FAT16 volume has a region of its own and takes no clusters. */
  predicate Fixed(s: Space, isRoot: bool) { isRoot && s.format.Fat16? }

  function Files(files: map<Text, seq<byte>>, names: seq<Text>): (r: seq<Stored>)
    requires forall n | n in names :: n in files
    ensures |r| == |names|
    ensures forall i | 0 <= i < |names| :: r[i] == Stored(names[i], files[names[i]])
  {
    seq(|names|, i requires 0 <= i < |names| => Stored(names[i], files[names[i]]))
  }

  /** Assign clusters: each directory's own, then its children's. */
  function Assign(s: Space, d: Disk, dir: Dir, isRoot: bool): (r: Result<(Disk, Placed)>)
    requires s.Valid() && Sized(s, d)
    ensures r.Ok? ==> Sized(s, r.value.0)
    decreases dir, 1, 0
  {
    var own :- if Fixed(s, isRoot) then Ok((d, 0))
               else Alloc(s, d, CountIn(|dir.dirs|, |dir.files|, isRoot) * ENTRY);
    var subs :- AssignSubs(s, own.0, dir, Ordered.Keys(dir.dirs.Keys));
    Ok((subs.0, Placed(own.1, subs.1, Files(dir.files, Ordered.Keys(dir.files.Keys)))))
  }

  function AssignSubs(s: Space, d: Disk, dir: Dir, names: seq<Text>): (r: Result<(Disk, seq<Link>)>)
    requires s.Valid() && Sized(s, d) && forall n | n in names :: n in dir.dirs
    ensures r.Ok? ==> Sized(s, r.value.0)
    decreases dir, 0, |names|
  {
    if names == [] then Ok((d, []))
    else
      var sub :- Assign(s, d, dir.dirs[names[0]], false);
      var rest :- AssignSubs(s, sub.0, dir, names[1..]);
      Ok((rest.0, [Link(names[0], sub.1)] + rest.1))
  }

  // ---- directory entries ----

  /** What one directory entry says. */
  datatype Slot = Slot(name: Text, attr: byte, cluster: nat, size: nat)

  predicate SlotOk(format: Format, e: Slot) {
    |e.name| == 11 && e.size < U32 && e.cluster < (if format.Fat16? then U16 else U32)
  }

  /** Byte `i` of a directory entry: every date is the FAT epoch, and FAT32 keeps the first
      cluster in two halves. */
  function EntryByte(format: Format, e: Slot, i: nat): byte
    requires SlotOk(format, e)
  {
    if i < 11 then e.name[i]
    else if i == 11 then e.attr
    else if i == 16 || i == 18 || i == 24 then 33
    else if 20 <= i < 22 && format.Fat32? then Le32(e.cluster)[i - 18]
    else if 26 <= i < 28 then Le32(e.cluster)[i - 26]
    else if 28 <= i < 32 then Le32(e.size)[i - 28]
    else 0
  }

  /** One directory entry as it is stored. */
  function Entry(format: Format, e: Slot): (b: seq<byte>)
    requires SlotOk(format, e)
    ensures |b| == ENTRY
  {
    seq(ENTRY, i requires 0 <= i < ENTRY => EntryByte(format, e, i))
  }

  predicate SlotsOk(format: Format, es: seq<Slot>) {
    es == [] || (SlotOk(format, es[0]) && SlotsOk(format, es[1..]))
  }

  /** Entries as they are stored, one after another. */
  function Encode(format: Format, es: seq<Slot>): (b: seq<byte>)
    requires SlotsOk(format, es)
    ensures |b| == |es| * ENTRY
  {
    if es == [] then [] else Entry(format, es[0]) + Encode(format, es[1..])
  }

  lemma {:induction false} SlotsOkConcat(format: Format, a: seq<Slot>, b: seq<Slot>)
    requires SlotsOk(format, a) && SlotsOk(format, b)
    ensures SlotsOk(format, a + b)
    decreases |a|
  {
    if a == [] {
      assert a + b == b;
    } else {
      SlotsOkConcat(format, a[1..], b);
      assert (a + b)[1..] == a[1..] + b;
    }
  }

  /** Clusters a run of bytes takes. */
  function Span(s: Space, bytes: nat): nat
    requires s.Valid()
  {
    CeilDiv(bytes, s.unit)
  }

  /** Clusters the directory's own entries take. */
  function OwnSpan(s: Space, pl: Placed, isRoot: bool): nat
    requires s.Valid()
  {
    if Fixed(s, isRoot) then 0 else Span(s, CountIn(|pl.subs|, |pl.files|, isRoot) * ENTRY)
  }

  /** Every directory has its clusters inside the volume. */
  ghost predicate InPlace(s: Space, pl: Placed, isRoot: bool)
    requires s.Valid()
    decreases pl
  {
    && (if Fixed(s, isRoot) then pl.cluster == 0
        else 2 <= pl.cluster && pl.cluster + OwnSpan(s, pl, isRoot) <= s.limit)
    && SubsInPlace(s, pl.subs)
  }

  ghost predicate SubsInPlace(s: Space, subs: seq<Link>)
    requires s.Valid()
    decreases subs
  {
    subs == [] || (InPlace(s, subs[0].dir, false) && SubsInPlace(s, subs[1..]))
  }

  /** Every name is eleven bytes. */
  ghost predicate Labelled(pl: Placed)
    decreases pl
  {
    FilesLabelled(pl.files) && SubsLabelled(pl.subs)
  }

  ghost predicate FilesLabelled(files: seq<Stored>) {
    files == [] || (|files[0].name| == 11 && FilesLabelled(files[1..]))
  }

  ghost predicate SubsLabelled(subs: seq<Link>)
    decreases subs
  {
    subs == [] || (|subs[0].name| == 11 && Labelled(subs[0].dir) && SubsLabelled(subs[1..]))
  }

  /** The entries of the subdirectories. */
  function SubSlots(subs: seq<Link>): (es: seq<Slot>)
    ensures |es| == |subs|
    decreases |subs|
  {
    if subs == [] then []
    else [Slot(subs[0].name, ATTR_DIRECTORY, subs[0].dir.cluster, 0)] + SubSlots(subs[1..])
  }

  lemma {:induction false} SubSlotsOk(s: Space, subs: seq<Link>)
    requires s.Valid() && SubsInPlace(s, subs) && SubsLabelled(subs)
    ensures SlotsOk(s.format, SubSlots(subs))
    decreases |subs|
  {
    if subs != [] {
      SubSlotsOk(s, subs[1..]);
      assert SubSlots(subs)[1..] == SubSlots(subs[1..]);
    }
  }

  /** The label of the root, or the two dot entries of any other directory. */
  function HeadSlots(s: Space, cluster: nat, isRoot: bool, parent: nat): (es: seq<Slot>)
    ensures |es| == CountIn(0, 0, isRoot)
  {
    if isRoot then [Slot(s.volumeLabel, ATTR_VOLUME_ID, 0, 0)]
    else [Slot(DOT_NAME, ATTR_DIRECTORY, cluster, 0), Slot(DOTDOT_NAME, ATTR_DIRECTORY, parent, 0)]
  }

  lemma HeadSlotsOk(s: Space, cluster: nat, isRoot: bool, parent: nat)
    requires s.Valid() && cluster < s.limit && parent < s.limit
    ensures SlotsOk(s.format, HeadSlots(s, cluster, isRoot, parent))
  {
    var es := HeadSlots(s, cluster, isRoot, parent);
    if !isRoot { assert es[1..] == [es[1]] && es[1..][1..] == []; } else { assert es[1..] == []; }
  }

  /** Store each file through a chain of its own; the entries that name them. */
  function WriteFiles(s: Space, d: Disk, files: seq<Stored>): (r: Result<(Disk, seq<Slot>)>)
    requires s.Valid() && Sized(s, d) && FilesLabelled(files)
    ensures r.Ok? ==> Sized(s, r.value.0) && |r.value.1| == |files| && SlotsOk(s.format, r.value.1)
    decreases |files|
  {
    if files == [] then Ok((d, []))
    else
      var f := files[0];
      if |f.data| >= U32 then Err(TooLarge)
      else
        var got :- Alloc(s, d, |f.data|);
        var d' := StoreAt(s, d, got.0, got.1, f.data);
        var rest :- WriteFiles(s, d', files[1..]);
        var es := [Slot(f.name, ATTR_ARCHIVE, got.1, |f.data|)] + rest.1;
        assert es[1..] == rest.1;
        Ok((rest.0, es))
  }

  /** The bytes of a file stored from its first cluster on, when it has one. */
  function StoreAt(s: Space, before: Disk, d: Disk, first: nat, data: seq<byte>): (r: Disk)
    requires s.Valid() && Sized(s, before) && Alloc(s, before, |data|) == Ok((d, first))
    ensures Sized(s, r)
  {
    StoreFits(s, before, d, first, data);
    if first == 0 then d else d.(part := Splice(d.part, s.Off(first), data))
  }

  /** Bytes stored from a cluster on stay inside the clusters they span. */
  lemma SpanFits(s: Space, cluster: nat, bytes: nat)
    requires s.Valid() && 2 <= cluster && cluster + Span(s, bytes) <= s.limit
    ensures s.dataAt <= s.Off(cluster) && s.Off(cluster) + bytes <= s.Off(cluster + Span(s, bytes)) <= s.size
  {
    CeilDivBounds(bytes, s.unit);
    s.OffStep(cluster, Span(s, bytes));
    s.OffMono(2, cluster);
    s.OffMono(cluster + Span(s, bytes), s.limit);
  }

  lemma StoreFits(s: Space, before: Disk, d: Disk, first: nat, data: seq<byte>)
    requires s.Valid() && Sized(s, before) && Alloc(s, before, |data|) == Ok((d, first))
    ensures first != 0 ==> first == before.next && d.next == first + Span(s, |data|)
    ensures first != 0 ==> s.Off(first) + |data| <= s.Off(d.next) <= |d.part|
  {
    if first != 0 { SpanFits(s, first, |data|); }
  }

  lemma WritableParts(s: Space, pl: Placed, isRoot: bool)
    requires s.Valid() && InPlace(s, pl, isRoot) && Labelled(pl)
    ensures FilesLabelled(pl.files) && SubsLabelled(pl.subs) && SubsInPlace(s, pl.subs) && Me(pl, isRoot) < s.limit
  {
  }

  lemma OwnFits(s: Space, pl: Placed, isRoot: bool)
    requires s.Valid() && InPlace(s, pl, isRoot) && !Fixed(s, isRoot)
    ensures var end := s.Off(pl.cluster + OwnSpan(s, pl, isRoot));
      s.Off(pl.cluster) + CountIn(|pl.subs|, |pl.files|, isRoot) * ENTRY <= end <= s.size
    ensures s.dataAt <= s.Off(pl.cluster)
  {
    SpanFits(s, pl.cluster, CountIn(|pl.subs|, |pl.files|, isRoot) * ENTRY);
  }

  /** Where a directory's entries go. */
  function DirAt(s: Space, pl: Placed, isRoot: bool): nat
    requires s.Valid() && InPlace(s, pl, isRoot)
  {
    if Fixed(s, isRoot) then s.rootAt else s.Off(pl.cluster)
  }

  lemma DirFits(s: Space, pl: Placed, isRoot: bool)
    requires s.Valid() && InPlace(s, pl, isRoot)
    requires Fixed(s, isRoot) ==> CountIn(|pl.subs|, |pl.files|, isRoot) <= s.rootEntries
    ensures DirAt(s, pl, isRoot) + CountIn(|pl.subs|, |pl.files|, isRoot) * ENTRY <= s.size
  {
    s.OffMono(2, s.limit);
    if !Fixed(s, isRoot) { OwnFits(s, pl, isRoot); }
  }

  /** The entries of a directory: its head, its subdirectories, its files. */
  function DirSlots(s: Space, pl: Placed, isRoot: bool, parent: nat, files: seq<Slot>): (es: seq<Slot>)
    requires s.Valid() && InPlace(s, pl, isRoot) && Labelled(pl) && parent < s.limit
    requires |files| == |pl.files| && SlotsOk(s.format, files)
    ensures SlotsOk(s.format, es) && |es| == CountIn(|pl.subs|, |pl.files|, isRoot)
  {
    var head, subs := HeadSlots(s, pl.cluster, isRoot, parent), SubSlots(pl.subs);
    OwnInside(s, pl, isRoot);
    HeadSlotsOk(s, pl.cluster, isRoot, parent);
    SubSlotsOk(s, pl.subs);
    SlotsOkConcat(s.format, head, subs);
    SlotsOkConcat(s.format, head + subs, files);
    head + subs + files
  }

  lemma OwnInside(s: Space, pl: Placed, isRoot: bool)
    requires s.Valid() && InPlace(s, pl, isRoot)
    ensures pl.cluster < s.limit
  {
  }

  /** What a directory's children call it in `..`: the root is cluster 0 there, wherever it is. */
  function Me(pl: Placed, isRoot: bool): nat { if isRoot then 0 else pl.cluster }

  /** Write a directory's files, its own entries, and its subdirectories. */
  function WriteDir(s: Space, d: Disk, pl: Placed, isRoot: bool, parent: nat): (r: Result<Disk>)
    requires s.Valid() && Sized(s, d) && InPlace(s, pl, isRoot) && Labelled(pl) && parent < s.limit
    ensures r.Ok? ==> Sized(s, r.value)
    decreases pl
  {
    var files :- WriteFiles(s, d, pl.files);
    var es := DirSlots(s, pl, isRoot, parent, files.1);
    if Fixed(s, isRoot) && |es| > s.rootEntries then Err(RootFull)
    else
      OwnInside(s, pl, isRoot);
      WriteSubs(s, PutSlots(s, files.0, pl, isRoot, es), pl.subs, Me(pl, isRoot))
  }

  /** The entries stored where the directory stands. */
  function PutSlots(s: Space, d: Disk, pl: Placed, isRoot: bool, es: seq<Slot>): (r: Disk)
    requires s.Valid() && Sized(s, d) && InPlace(s, pl, isRoot)
    requires SlotsOk(s.format, es) && |es| == CountIn(|pl.subs|, |pl.files|, isRoot)
    requires Fixed(s, isRoot) ==> |es| <= s.rootEntries
    ensures Sized(s, r)
  {
    DirFits(s, pl, isRoot);
    d.(part := Splice(d.part, DirAt(s, pl, isRoot), Encode(s.format, es)))
  }

  function WriteSubs(s: Space, d: Disk, subs: seq<Link>, parent: nat): (r: Result<Disk>)
    requires s.Valid() && Sized(s, d) && SubsInPlace(s, subs) && SubsLabelled(subs) && parent < s.limit
    ensures r.Ok? ==> Sized(s, r.value)
    decreases subs
  {
    if subs == [] then Ok(d)
    else
      var d' :- WriteDir(s, d, subs[0].dir, false, parent);
      WriteSubs(s, d', subs[1..], parent)
  }
}
