/** What the writer stores through the clusters it claims, and what it leaves alone. */
module FatContents {
  import opened Bytes
  import opened FatResult
  import opened FatLayout
  import opened FatTree
  import opened FatWriter
  import opened FatStored

  /** `data` stands at `at`. */
  predicate At(part: seq<byte>, at: nat, data: seq<byte>) {
    at + |data| <= |part| && part[at..at + |data|] == data
  }

  predicate ZeroIn(part: seq<byte>, lo: nat, hi: nat) {
    lo <= hi <= |part| && part[lo..hi] == Zeros(hi - lo)
  }

  lemma ZeroWithin(part: seq<byte>, lo: nat, hi: nat, lo': nat, hi': nat)
    requires ZeroIn(part, lo, hi) && lo <= lo' <= hi' <= hi
    ensures ZeroIn(part, lo', hi')
  {
    SliceOfSlice(part, lo, hi, lo', hi');
  }

  lemma SpliceKept(part: seq<byte>, at: nat, data: seq<byte>, lo: nat, hi: nat)
    requires at + |data| <= |part| && lo <= hi <= |part| && (hi <= at || at + |data| <= lo)
    ensures Kept(part, Splice(part, at, data), lo, hi)
  {
    SpliceKeeps(part, at, data, lo, hi);
  }

  lemma SpliceAt(part: seq<byte>, at: nat, data: seq<byte>)
    requires at + |data| <= |part|
    ensures At(Splice(part, at, data), at, data)
  {
    SpliceReads(part, at, data);
  }

  /** A step that stores only in clusters `lo` up to `hi` and in those it newly claims. */
  ghost predicate Wrote(s: Space, d: Disk, d': Disk, lo: nat, hi: nat) {
    && Sized(s, d) && Sized(s, d')
    && 2 <= lo <= hi <= d.next <= d'.next
    && Kept(d.part, d'.part, 0, s.Off(lo))
    && Kept(d.part, d'.part, s.Off(hi), s.Off(d.next))
    && Kept(d.part, d'.part, s.Off(d'.next), s.size)
    && Kept(d.fat, d'.fat, 0, d.next) && Kept(d.fat, d'.fat, d'.next, s.limit)
  }

  /** Steps in neighbouring ranges make one step, and the second keeps what the first stored. */
  lemma WroteThen(s: Space, d: Disk, m: Disk, d': Disk, lo: nat, mid: nat, hi: nat)
    requires s.Valid() && Wrote(s, d, m, lo, mid) && Wrote(s, m, d', mid, hi) && hi <= d.next
    ensures Wrote(s, d, d', lo, hi)
    ensures Agree(s, m, d', lo, mid, d.next, m.next)
  {
    s.OffMono(2, lo);
    s.OffMono(lo, mid);
    s.OffMono(mid, hi);
    s.OffMono(hi, d.next);
    s.OffMono(d.next, m.next);
    s.OffMono(m.next, d'.next);
    s.OffMono(d'.next, s.limit);
    KeptWithin(m.part, d'.part, 0, s.Off(mid), 0, s.Off(lo));
    KeptWithin(m.part, d'.part, 0, s.Off(mid), s.Off(lo), s.Off(mid));
    KeptWithin(d.part, m.part, s.Off(mid), s.Off(d.next), s.Off(hi), s.Off(d.next));
    KeptWithin(m.part, d'.part, s.Off(hi), s.Off(m.next), s.Off(hi), s.Off(d.next));
    KeptWithin(m.part, d'.part, s.Off(hi), s.Off(m.next), s.Off(d.next), s.Off(m.next));
    KeptWithin(d.part, m.part, s.Off(m.next), s.size, s.Off(d'.next), s.size);
    TablesThen(s, d, m, d', lo, mid);
  }

  lemma TablesThen(s: Space, d: Disk, m: Disk, d': Disk, lo: nat, mid: nat)
    requires Sized(s, d) && Sized(s, m) && Sized(s, d') && lo <= mid <= d.next <= m.next <= d'.next
    requires Kept(d.fat, m.fat, 0, d.next) && Kept(d.fat, m.fat, m.next, s.limit)
    requires Kept(m.fat, d'.fat, 0, m.next) && Kept(m.fat, d'.fat, d'.next, s.limit)
    ensures Kept(d.fat, d'.fat, 0, d.next) && Kept(d.fat, d'.fat, d'.next, s.limit)
    ensures Kept(m.fat, d'.fat, lo, mid) && Kept(m.fat, d'.fat, d.next, m.next)
  {
    KeptWithin(m.fat, d'.fat, 0, m.next, 0, d.next);
    KeptWithin(m.fat, d'.fat, 0, m.next, lo, mid);
    KeptWithin(m.fat, d'.fat, 0, m.next, d.next, m.next);
    KeptWithin(d.fat, m.fat, m.next, s.limit, d'.next, s.limit);
  }

  /** Both disks agree on clusters `c` up to `e` and `next` up to `end`. */
  ghost predicate Agree(s: Space, a: Disk, b: Disk, c: nat, e: nat, next: nat, end: nat) {
    && 2 <= c <= e <= next <= end <= s.limit
    && Kept(a.part, b.part, s.Off(c), s.Off(e)) && Kept(a.part, b.part, s.Off(next), s.Off(end))
    && Kept(a.fat, b.fat, c, e) && Kept(a.fat, b.fat, next, end)
  }

  lemma AgreeWithin(s: Space, a: Disk, b: Disk, c: nat, e: nat, next: nat, end: nat, c': nat, e': nat, next': nat,
        end': nat)
    requires s.Valid() && Agree(s, a, b, c, e, next, end) && c <= c' <= e' <= e && next <= next' <= end' <= end
    ensures Agree(s, a, b, c', e', next', end')
  {
    s.OffMono(c, c');
    s.OffMono(c', e');
    s.OffMono(e', e);
    s.OffMono(next, next');
    s.OffMono(next', end');
    s.OffMono(end', end);
    KeptWithin(a.part, b.part, s.Off(c), s.Off(e), s.Off(c'), s.Off(e'));
    KeptWithin(a.part, b.part, s.Off(next), s.Off(end), s.Off(next'), s.Off(end'));
    KeptWithin(a.fat, b.fat, c, e, c', e');
    KeptWithin(a.fat, b.fat, next, end, next', end');
  }

  // ---- files ----

  function FilesSpan(s: Space, files: seq<Stored>): nat
    requires s.Valid()
  {
    if files == [] then 0 else Span(s, |files[0].data|) + FilesSpan(s, files[1..])
  }

  /** The first cluster of a file placed at `next`. */
  function FirstOf(f: Stored, next: nat): nat { if f.data == [] then 0 else next }

  /** The entries of files placed one after another from `next`. */
  function FileSlots(s: Space, files: seq<Stored>, next: nat): (es: seq<Slot>)
    requires s.Valid()
    ensures |es| == |files|
    decreases |files|
  {
    if files == [] then []
    else [Slot(files[0].name, ATTR_ARCHIVE, FirstOf(files[0], next), |files[0].data|)]
         + FileSlots(s, files[1..], next + Span(s, |files[0].data|))
  }

  lemma {:induction false} FileSlotsTail(s: Space, files: seq<Stored>, next: nat)
    requires s.Valid() && files != []
    ensures FileSlots(s, files, next)[0] == Slot(files[0].name, ATTR_ARCHIVE, FirstOf(files[0], next), |files[0].data|)
    ensures FileSlots(s, files, next)[1..] == FileSlots(s, files[1..], next + Span(s, |files[0].data|))
  {
  }

  /** Each file stands in clusters of its own, linked, from `next` on. */
  ghost predicate FilesStored(s: Space, part: seq<byte>, fat: seq<nat>, files: seq<Stored>, next: nat)
    requires s.Valid()
    decreases |files|
  {
    files == [] || (var n := Span(s, |files[0].data|);
                    && Run(s, fat, next, n)
                    && At(part, s.Off(next), files[0].data)
                    && FilesStored(s, part, fat, files[1..], next + n))
  }

  lemma {:induction false} FilesStoredCons(s: Space, part: seq<byte>, fat: seq<nat>, files: seq<Stored>, next: nat)
    requires s.Valid() && files != [] && Run(s, fat, next, Span(s, |files[0].data|))
      && At(part, s.Off(next), files[0].data)
    requires FilesStored(s, part, fat, files[1..], next + Span(s, |files[0].data|))
    ensures FilesStored(s, part, fat, files, next)
  {
  }

  lemma {:induction false} FilesStoredFrame(s: Space, a: Disk, b: Disk, files: seq<Stored>, next: nat, end: nat)
    requires s.Valid() && FilesStored(s, a.part, a.fat, files, next)
    requires 2 <= next && end == next + FilesSpan(s, files) && end <= s.limit
    requires Kept(a.part, b.part, s.Off(next), s.Off(end)) && Kept(a.fat, b.fat, next, end)
    ensures FilesStored(s, b.part, b.fat, files, next)
    decreases |files|
  {
    if files != [] {
      FirstFileFrame(s, a, b, files[0].data, next, end);
      FilesStoredFrame(s, a, b, files[1..], next + Span(s, |files[0].data|), end);
      FilesStoredCons(s, b.part, b.fat, files, next);
    }
  }

  lemma FirstFileFrame(s: Space, a: Disk, b: Disk, data: seq<byte>, next: nat, end: nat)
    requires s.Valid() && 2 <= next && next + Span(s, |data|) <= end <= s.limit
    requires Run(s, a.fat, next, Span(s, |data|)) && At(a.part, s.Off(next), data)
    requires Kept(a.part, b.part, s.Off(next), s.Off(end)) && Kept(a.fat, b.fat, next, end)
    ensures Run(s, b.fat, next, Span(s, |data|)) && At(b.part, s.Off(next), data)
    ensures Kept(a.part, b.part, s.Off(next + Span(s, |data|)), s.Off(end))
    ensures Kept(a.fat, b.fat, next + Span(s, |data|), end)
  {
    var mid := next + Span(s, |data|);
    SpanFits(s, next, |data|);
    s.OffMono(mid, end);
    KeptWithin(a.part, b.part, s.Off(next), s.Off(end), s.Off(next), s.Off(next) + |data|);
    KeptWithin(a.part, b.part, s.Off(next), s.Off(end), s.Off(mid), s.Off(end));
    KeptWithin(a.fat, b.fat, next, end, next, mid);
    KeptWithin(a.fat, b.fat, next, end, mid, end);
  }

  /** A store inside newly claimed clusters. */
  lemma StoreInNew(s: Space, d: Disk, d': Disk, data: seq<byte>)
    requires s.Valid() && Sized(s, d) && Sized(s, d') && d'.next == d.next + Span(s, |data|)
    requires s.Off(d.next) + |data| <= s.Off(d'.next) <= |d.part|
    requires d'.part == Splice(d.part, s.Off(d.next), data)
    requires Kept(d.fat, d'.fat, 0, d.next) && Kept(d.fat, d'.fat, d'.next, s.limit)
    ensures Wrote(s, d, d', 2, 2) && At(d'.part, s.Off(d.next), data)
  {
    s.OffMono(2, d.next);
    SpliceKept(d.part, s.Off(d.next), data, 0, s.Off(2));
    SpliceKept(d.part, s.Off(d.next), data, s.Off(2), s.Off(d.next));
    SpliceKept(d.part, s.Off(d.next), data, s.Off(d'.next), s.size);
    SpliceAt(d.part, s.Off(d.next), data);
  }

  /** One file's store: a step past `next` that leaves the file there. */
  lemma StoreOne(s: Space, d: Disk, data: seq<byte>)
    requires s.Valid() && Sized(s, d) && Alloc(s, d, |data|).Ok?
    ensures var got := Alloc(s, d, |data|).value; var d' := StoreAt(s, d, got.0, got.1, data);
      && Wrote(s, d, d', 2, 2) && d'.next == d.next + Span(s, |data|)
      && got.1 == (if data == [] then 0 else d.next)
      && Run(s, d'.fat, d.next, Span(s, |data|))
      && At(d'.part, s.Off(d.next), data)
  {
    var got := Alloc(s, d, |data|).value;
    AllocLinks(s, d, |data|);
    SpanFits(s, d.next, |data|);
    assert data == [] ==> Splice(d.part, s.Off(d.next), data) == d.part;
    StoreInNew(s, d, StoreAt(s, d, got.0, got.1, data), data);
  }

  /** Writing files is storing the first and writing the rest. */
  lemma WriteFilesParts(s: Space, d: Disk, files: seq<Stored>) returns (m: Disk, rest: (Disk, seq<Slot>))
    requires s.Valid() && Sized(s, d) && FilesLabelled(files)
    requires files != [] && WriteFiles(s, d, files).Ok?
    ensures Sized(s, m) && WriteFiles(s, m, files[1..]) == Ok(rest)
    ensures Wrote(s, d, m, 2, 2) && m.next == d.next + Span(s, |files[0].data|)
    ensures Run(s, m.fat, d.next, Span(s, |files[0].data|)) && At(m.part, s.Off(d.next), files[0].data)
    ensures WriteFiles(s, d, files) ==
            Ok((rest.0, [Slot(files[0].name, ATTR_ARCHIVE, FirstOf(files[0], d.next), |files[0].data|)] + rest.1))
  {
    var data := files[0].data;
    var got := Alloc(s, d, |data|).value;
    m := StoreAt(s, d, got.0, got.1, data);
    StoreOne(s, d, data);
    rest := WriteFiles(s, m, files[1..]).value;
  }

  /** Writing files stores each of them and nothing else. */
  lemma {:induction false} WriteFilesCorrect(s: Space, d: Disk, files: seq<Stored>)
    requires s.Valid() && Sized(s, d) && FilesLabelled(files) && WriteFiles(s, d, files).Ok?
    ensures var r := WriteFiles(s, d, files).value;
      && r.0.next == d.next + FilesSpan(s, files)
      && Wrote(s, d, r.0, 2, 2)
      && FilesStored(s, r.0.part, r.0.fat, files, d.next)
    decreases |files|
  {
    if files == [] {
      s.OffMono(2, d.next);
      s.OffMono(d.next, s.limit);
    } else {
      var m, rest := WriteFilesParts(s, d, files);
      WriteFilesCorrect(s, m, files[1..]);
      FilesStep(s, d, m, rest.0, files);
    }
  }

  lemma NoFilesWritten(s: Space, d: Disk, files: seq<Stored>)
    requires s.Valid() && Sized(s, d) && FilesLabelled(files) && files == []
    ensures WriteFiles(s, d, files).Ok? && WriteFiles(s, d, files).value.1 == FileSlots(s, files, d.next)
  {
  }

  /** The entries written are those of files placed from `next` on. */
  lemma {:induction false} WriteFilesSlots(s: Space, d: Disk, files: seq<Stored>)
    requires s.Valid() && Sized(s, d) && FilesLabelled(files) && WriteFiles(s, d, files).Ok?
    ensures WriteFiles(s, d, files).value.1 == FileSlots(s, files, d.next)
    decreases |files|
  {
    hide WriteFiles, Span, Space.Valid, Sized;
    if files == [] {
      NoFilesWritten(s, d, files);
    } else {
      var m, rest := WriteFilesParts(s, d, files);
      WriteFilesSlots(s, m, files[1..]);
    }
  }

  lemma {:induction false} FilesStep(s: Space, d: Disk, m: Disk, d': Disk, files: seq<Stored>)
    requires s.Valid() && files != [] && Wrote(s, d, m, 2, 2) && Wrote(s, m, d', 2, 2)
    requires m.next == d.next + Span(s, |files[0].data|) && d'.next == m.next + FilesSpan(s, files[1..])
    requires Run(s, m.fat, d.next, Span(s, |files[0].data|)) && At(m.part, s.Off(d.next), files[0].data)
    requires FilesStored(s, d'.part, d'.fat, files[1..], m.next)
    ensures Wrote(s, d, d', 2, 2) && FilesStored(s, d'.part, d'.fat, files, d.next)
  {
    WroteThen(s, d, m, d', 2, 2, 2);
    FirstFileFrame(s, m, d', files[0].data, d.next, m.next);
    FilesStoredCons(s, d'.part, d'.fat, files, d.next);
  }

  // ---- directories ----

  /** Clusters the files at and below a directory take. */
  function AllFiles(s: Space, pl: Placed): nat
    requires s.Valid()
    decreases pl
  {
    FilesSpan(s, pl.files) + SubsFiles(s, pl.subs)
  }

  function SubsFiles(s: Space, subs: seq<Link>): nat
    requires s.Valid()
    decreases subs
  {
    if subs == [] then 0 else AllFiles(s, subs[0].dir) + SubsFiles(s, subs[1..])
  }

  /** A directory's entries when its files are placed from `next` on. */
  function DirList(s: Space, pl: Placed, isRoot: bool, parent: nat, next: nat): (es: seq<Slot>)
    requires s.Valid()
    ensures |es| == CountIn(|pl.subs|, |pl.files|, isRoot)
  {
    HeadSlots(s, pl.cluster, isRoot, parent) + SubSlots(pl.subs) + FileSlots(s, pl.files, next)
  }

  /** Entries stand at `at`, with nothing but zeros behind them up to `end`. */
  ghost predicate Listed(s: Space, part: seq<byte>, at: nat, end: nat, es: seq<Slot>) {
    SlotsOk(s.format, es) && At(part, at, Encode(s.format, es)) && ZeroIn(part, at + |es| * ENTRY, end)
  }

  /** Where the space for a directory's entries ends. */
  function DirEnd(s: Space, pl: Placed, isRoot: bool): nat
    requires s.Valid()
  {
    if Fixed(s, isRoot) then s.rootAt + s.rootEntries * ENTRY else s.Off(pl.cluster + OwnSpan(s, pl, isRoot))
  }

  /** The directory, its files and everything below it stand in clusters of their own. */
  ghost predicate DirStored(s: Space, d: Disk, pl: Placed, isRoot: bool, parent: nat, next: nat)
    requires s.Valid() && InPlace(s, pl, isRoot)
    decreases pl
  {
    && Listed(s, d.part, DirAt(s, pl, isRoot), DirEnd(s, pl, isRoot), DirList(s, pl, isRoot, parent, next))
    && (Fixed(s, isRoot) || Run(s, d.fat, pl.cluster, OwnSpan(s, pl, isRoot)))
    && FilesStored(s, d.part, d.fat, pl.files, next)
    && Below(s, pl, isRoot, next, d.next)
    && SubsStored(s, d, pl.subs, Me(pl, isRoot), next + FilesSpan(s, pl.files))
  }

  /** The directory's own clusters and its files' are among those taken. */
  ghost predicate Below(s: Space, pl: Placed, isRoot: bool, next: nat, taken: nat)
    requires s.Valid()
  {
    (Fixed(s, isRoot) || pl.cluster + OwnSpan(s, pl, isRoot) <= taken) && next + FilesSpan(s, pl.files) <= taken
  }

  ghost predicate SubsStored(s: Space, d: Disk, subs: seq<Link>, parent: nat, next: nat)
    requires s.Valid() && SubsInPlace(s, subs)
    decreases subs
  {
    subs == [] || (&& DirStored(s, d, subs[0].dir, false, parent, next)
                   && SubsStored(s, d, subs[1..], parent, next + AllFiles(s, subs[0].dir)))
  }

  lemma ListedFrame(s: Space, a: seq<byte>, b: seq<byte>, at: nat, end: nat, es: seq<Slot>)
    requires Listed(s, a, at, end, es) && Kept(a, b, at, end)
    ensures Listed(s, b, at, end, es)
  {
    KeptWithin(a, b, at, end, at, at + |es| * ENTRY);
    KeptWithin(a, b, at, end, at + |es| * ENTRY, end);
  }

  lemma {:induction false} DirStoredOf(s: Space, d: Disk, pl: Placed, isRoot: bool, parent: nat, next: nat)
    requires s.Valid() && InPlace(s, pl, isRoot)
    requires Listed(s, d.part, DirAt(s, pl, isRoot), DirEnd(s, pl, isRoot), DirList(s, pl, isRoot, parent, next))
    requires Fixed(s, isRoot) || Run(s, d.fat, pl.cluster, OwnSpan(s, pl, isRoot))
    requires FilesStored(s, d.part, d.fat, pl.files, next) && Below(s, pl, isRoot, next, d.next)
    requires SubsStored(s, d, pl.subs, Me(pl, isRoot), next + FilesSpan(s, pl.files))
    ensures DirStored(s, d, pl, isRoot, parent, next)
  {
  }

  /** A directory that has clusters is stored when its parts are. */
  lemma {:induction false} ChainedDirStored(s: Space, d: Disk, pl: Placed, isRoot: bool, parent: nat, next: nat,
        own: nat, mine: nat, es: seq<Slot>)
    requires s.Valid() && InPlace(s, pl, isRoot) && !Fixed(s, isRoot)
    requires own == pl.cluster + OwnSpan(s, pl, isRoot) && mine == next + FilesSpan(s, pl.files)
    requires es == DirList(s, pl, isRoot, parent, next) && Listed(s, d.part, s.Off(pl.cluster), s.Off(own), es)
    requires Run(s, d.fat, pl.cluster, own - pl.cluster) && own <= d.next && mine <= d.next
    requires FilesStored(s, d.part, d.fat, pl.files, next) && SubsStored(s, d, pl.subs, Me(pl, isRoot), mine)
    ensures DirStored(s, d, pl, isRoot, parent, next)
  {
    DirStoredOf(s, d, pl, isRoot, parent, next);
  }

  /** The parts of a stored directory. */
  lemma {:induction false} DirStoredParts(s: Space, d: Disk, pl: Placed, isRoot: bool, parent: nat, next: nat)
    requires s.Valid() && InPlace(s, pl, isRoot) && DirStored(s, d, pl, isRoot, parent, next)
    ensures Listed(s, d.part, DirAt(s, pl, isRoot), DirEnd(s, pl, isRoot), DirList(s, pl, isRoot, parent, next))
    ensures Fixed(s, isRoot) || Run(s, d.fat, pl.cluster, OwnSpan(s, pl, isRoot))
    ensures FilesStored(s, d.part, d.fat, pl.files, next) && Below(s, pl, isRoot, next, d.next)
    ensures SubsInPlace(s, pl.subs) && SubsStored(s, d, pl.subs, Me(pl, isRoot), next + FilesSpan(s, pl.files))
    ensures AllFiles(s, pl) == FilesSpan(s, pl.files) + SubsFiles(s, pl.subs)
  {
  }

  lemma {:induction false} SubsStoredOf(s: Space, d: Disk, subs: seq<Link>, parent: nat, next: nat)
    requires s.Valid() && SubsInPlace(s, subs) && subs != []
    requires DirStored(s, d, subs[0].dir, false, parent, next)
    requires SubsStored(s, d, subs[1..], parent, next + AllFiles(s, subs[0].dir))
    ensures SubsStored(s, d, subs, parent, next)
  {
  }

  /** A directory's own entries and chain survive where both disks agree. */
  lemma OwnFrame(s: Space, a: Disk, b: Disk, pl: Placed, es: seq<Slot>, e: nat)
    requires s.Valid() && InPlace(s, pl, false) && pl.cluster + OwnSpan(s, pl, false) <= e <= s.limit
    requires Listed(s, a.part, s.Off(pl.cluster), DirEnd(s, pl, false), es)
    requires Run(s, a.fat, pl.cluster, OwnSpan(s, pl, false))
    requires Kept(a.part, b.part, s.Off(pl.cluster), s.Off(e)) && Kept(a.fat, b.fat, pl.cluster, e)
    ensures Listed(s, b.part, s.Off(pl.cluster), DirEnd(s, pl, false), es)
    ensures Run(s, b.fat, pl.cluster, OwnSpan(s, pl, false))
  {
    var own := pl.cluster + OwnSpan(s, pl, false);
    s.OffMono(pl.cluster, own);
    s.OffMono(own, e);
    KeptWithin(a.part, b.part, s.Off(pl.cluster), s.Off(e), s.Off(pl.cluster), s.Off(own));
    KeptWithin(a.fat, b.fat, pl.cluster, e, pl.cluster, own);
    ListedFrame(s, a.part, b.part, s.Off(pl.cluster), s.Off(own), es);
  }

  /** A directory's own entries, chain and files survive where both disks agree. */
  lemma HereFrame(s: Space, a: Disk, b: Disk, pl: Placed, es: seq<Slot>, own: nat, e: nat, next: nat, mine: nat,
        end: nat)
    requires s.Valid() && InPlace(s, pl, false) && own == pl.cluster + OwnSpan(s, pl, false) && own <= e
    requires mine == next + FilesSpan(s, pl.files) && mine <= end && Agree(s, a, b, pl.cluster, e, next, end)
    requires Listed(s, a.part, s.Off(pl.cluster), s.Off(own), es) && Run(s, a.fat, pl.cluster, own - pl.cluster)
    requires FilesStored(s, a.part, a.fat, pl.files, next)
    ensures Listed(s, b.part, s.Off(pl.cluster), s.Off(own), es) && Run(s, b.fat, pl.cluster, own - pl.cluster)
    ensures FilesStored(s, b.part, b.fat, pl.files, next)
    ensures Agree(s, a, b, own, e, mine, end)
  {
    OwnFrame(s, a, b, pl, es, e);
    AgreeWithin(s, a, b, pl.cluster, e, next, end, pl.cluster, own, next, mine);
    FilesStoredFrame(s, a, b, pl.files, next, mine);
    AgreeWithin(s, a, b, pl.cluster, e, next, end, own, e, mine, end);
  }

  lemma {:induction false} DirStoredFrame(s: Space, a: Disk, b: Disk, pl: Placed, parent: nat, c: nat, e: nat,
        next: nat, end: nat)
    requires s.Valid() && InPlace(s, pl, false) && DirStored(s, a, pl, false, parent, next)
      && Preorder(s, a.fat, pl, false, c)
    requires e == c + DirSpan(s, pl, false) && end == next + AllFiles(s, pl) && Agree(s, a, b, c, e, next, end)
    requires a.next <= b.next
    ensures DirStored(s, b, pl, false, parent, next)
    decreases pl
  {
    var own, mine, es := c + OwnSpan(s, pl, false), next + FilesSpan(s, pl.files), DirList(s, pl, false, parent, next);
    HereFrame(s, a, b, pl, es, own, e, next, mine, end);
    SubsStoredFrame(s, a, b, pl.subs, pl.cluster, own, e, mine, end);
    ChainedDirStored(s, b, pl, false, parent, next, own, mine, es);
  }

  lemma {:induction false} SubsStoredFrame(s: Space, a: Disk, b: Disk, subs: seq<Link>, parent: nat, c: nat, e: nat,
        next: nat, end: nat)
    requires s.Valid() && SubsInPlace(s, subs) && SubsStored(s, a, subs, parent, next)
      && SubsPreorder(s, a.fat, subs, c)
    requires e == c + SubsSpan(s, subs) && end == next + SubsFiles(s, subs) && Agree(s, a, b, c, e, next, end)
    requires a.next <= b.next
    ensures SubsStored(s, b, subs, parent, next)
    decreases subs
  {
    hide Agree, InPlace, DirStored, Preorder, DirSpan, AllFiles, Space.Valid;
    if subs != [] {
      var c', next' := c + DirSpan(s, subs[0].dir, false), next + AllFiles(s, subs[0].dir);
      AgreeWithin(s, a, b, c, e, next, end, c, c', next, next');
      DirStoredFrame(s, a, b, subs[0].dir, parent, c, c', next, next');
      AgreeWithin(s, a, b, c, e, next, end, c', e, next', end);
      SubsStoredFrame(s, a, b, subs[1..], parent, c', e, next', end);
      SubsStoredOf(s, b, subs, parent, next);
    }
  }
}
