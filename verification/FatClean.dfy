/** Everything the writer produces checks clean. */
module FatClean {
  import opened Bytes
  import opened Optional
  import opened FatResult
  import opened FatLayout
  import opened FatNames
  import opened FatWriter
  import opened FatStored
  import opened FatContents
  import opened FatReader
  import opened FatFiles
  import opened FatView
  import opened FatReadBack
  import opened FatRoundTrip
  import opened FatCheck

  /** Between two tallies a walk claimed `clusters` and met so many files and directories. */
  ghost predicate Took(t: Tally, u: Tally, clusters: set<nat>, files: nat, dirs: nat) {
    u.seen == t.seen + clusters && u.files == t.files + files && u.dirs == t.dirs + dirs
  }

  /** No cluster from `lo` up to `hi` was claimed. */
  ghost predicate Unclaimed(t: Tally, lo: nat, hi: nat)
  {
    lo <= hi && t.seen !! Range(lo, hi)
  }

  lemma ConsecutiveElements(first: nat, n: nat)
    ensures Elements(Consecutive(first, n)) == Range(first, first + n)
  {
    var r := Consecutive(first, n);
    forall c | first <= c < first + n ensures c in r { assert r[c - first] == c; }
  }

  lemma ClaimChain(v: Volume, e: Named, chain: seq<nat>, t: Tally)
    requires v.Valid() && e.first != 0 && Chain(v, e.first) == Ok(chain) && t.seen !! Elements(chain)
    requires e.dir || |chain| == CeilDiv(e.size, v.ClusterSize())
    ensures Claim(v, e, t).Ok?
    ensures Took(t, Claim(v, e, t).value, Elements(chain), if e.dir then 0 else 1, if e.dir then 1 else 0)
  {
    hide Chain, CeilDiv, Volume.Valid, Volume.ClusterSize;
  }

  /** A linked run that nothing claimed is claimed by the entry that names it. */
  lemma ClaimRun(v: Volume, s: Space, d: Disk, e: Named, n: nat, end: nat, t: Tally)
    requires Shows(v, s, d) && Addressable(s, d) && Run(s, d.fat, e.first, n) && 2 <= e.first && 1 <= n
    requires end == e.first + n && end <= d.next && Unclaimed(t, e.first, end)
    requires e.dir || n == CeilDiv(e.size, s.unit)
    ensures Claim(v, e, t).Ok?
    ensures Took(t, Claim(v, e, t).value, Range(e.first, end), if e.dir then 0 else 1, if e.dir then 1 else 0)
  {
    hide Run, Chain, CeilDiv, Addressable, Claim, Took, Range, Elements, TablesShow, Volume.Valid, Space.Valid,
         Volume.ClusterSize;
    RunIsChain(v, s, d, e.first, n);
    ConsecutiveElements(e.first, n);
    ClaimChain(v, e, Consecutive(e.first, n), t);
  }

  lemma EmptyRange(lo: nat)
    ensures Range(lo, lo) == {}
  {
  }

  lemma RangeSplits(lo: nat, mid: nat, hi: nat)
    requires lo <= mid <= hi
    ensures Range(lo, hi) == Range(lo, mid) + Range(mid, hi)
  {
    hide Range;
  }

  /** Two neighbouring ranges taken one after the other are one range taken. */
  lemma TookBoth(t: Tally, u: Tally, w: Tally, lo: nat, mid: nat, hi: nat, files: nat, dirs: nat, files': nat,
        dirs': nat)
    requires lo <= mid <= hi && Took(t, u, Range(lo, mid), files, dirs) && Took(u, w, Range(mid, hi), files', dirs')
    ensures Took(t, w, Range(lo, hi), files + files', dirs + dirs')
  {
    hide Range;
    RangeSplits(lo, mid, hi);
  }

  /** A range apart from one that was taken stays unclaimed. */
  lemma StaysUnclaimed(t: Tally, u: Tally, clusters: set<nat>, files: nat, dirs: nat, lo: nat, hi: nat)
    requires Took(t, u, clusters, files, dirs) && Unclaimed(t, lo, hi) && clusters !! Range(lo, hi)
    ensures Unclaimed(u, lo, hi)
  {
  }

  lemma PartUnclaimed(t: Tally, lo: nat, hi: nat, lo': nat, hi': nat)
    requires Unclaimed(t, lo, hi) && lo <= lo' <= hi' <= hi
    ensures Unclaimed(t, lo', hi')
  {
  }

  // ---- files ----

  lemma FileSpanIs(s: Space, data: seq<byte>)
    requires s.Valid()
    ensures Span(s, |data|) == CeilDiv(|data|, s.unit) && (Span(s, |data|) == 0 <==> data == [])
  {
    CeilDivBounds(|data|, s.unit);
  }

  /** The entry of a stored file claims the file's clusters. */
  lemma ClaimFile(v: Volume, s: Space, d: Disk, f: Stored, next: nat, end: nat, t: Tally, e: Named)
    requires Shows(v, s, d) && Addressable(s, d) && end == next + Span(s, |f.data|) && Run(s, d.fat, next, end - next)
    requires 2 <= next && end <= d.next && Unclaimed(t, next, end)
    requires e == NamedOf(Slot(f.name, ATTR_ARCHIVE, FirstOf(f, next), |f.data|))
    ensures Claim(v, e, t).Ok? && Took(t, Claim(v, e, t).value, Range(next, end), 1, 0)
  {
    hide Run, Chain, CeilDiv, Addressable, Shows, Unclaimed, Span, Shown;
    ShowsGives(v, s, d);
    FileSpanIs(s, f.data);
    if f.data == [] {
      EmptyRange(next);
    } else {
      ClaimRun(v, s, d, e, end - next, end, t);
    }
  }

  lemma ShowCut(es: seq<Slot>)
    requires es != []
    ensures Show(es) != [] && Show(es)[0] == NamedOf(es[0]) && Show(es)[1..] == Show(es[1..])
  {
  }

  lemma WalkStep(v: Volume, es: seq<Named>, depth: nat, limit: nat, t: Tally)
    requires v.Valid() && Within(v, t) && es != []
    ensures var u := WalkEntry(v, es[0], depth, limit, t);
      WalkEntries(v, es, depth, limit, t) == if u.Err? then u else WalkEntries(v, es[1..], depth, limit, u.value)
  {
  }

  lemma WalkNone(v: Volume, depth: nat, limit: nat, t: Tally)
    requires v.Valid() && Within(v, t)
    ensures WalkEntries(v, [], depth, limit, t) == Ok(t)
  {
  }

  lemma WalkFileEntry(v: Volume, e: Named, depth: nat, limit: nat, t: Tally)
    requires v.Valid() && Within(v, t) && !e.dir && Claim(v, e, t).Ok?
    ensures WalkEntry(v, e, depth, limit, t) == Claim(v, e, t) && Within(v, Claim(v, e, t).value)
  {
    ClaimGrows(v, e, t);
  }

  lemma FilesStoredHead(s: Space, d: Disk, files: seq<Stored>, next: nat)
    requires s.Valid() && FilesStored(s, d.part, d.fat, files, next) && files != []
    ensures var n := Span(s, |files[0].data|);
      && Run(s, d.fat, next, n) && FilesStored(s, d.part, d.fat, files[1..], next + n)
      && FilesSpan(s, files) == n + FilesSpan(s, files[1..])
  {
  }

  /** Walking the entries of stored files claims exactly their clusters. */
  lemma {:induction false} WalkFiles(v: Volume, s: Space, d: Disk, files: seq<Stored>, next: nat, end: nat, depth: nat,
        limit: nat, t: Tally)
    requires Shows(v, s, d) && Addressable(s, d) && FilesStored(s, d.part, d.fat, files, next)
    requires 2 <= next && end == next + FilesSpan(s, files) && end <= d.next && Within(v, t) && Unclaimed(t, next, end)
    ensures var r := WalkEntries(v, Show(FileSlots(s, files, next)), depth, limit, t);
      r.Ok? && Took(t, r.value, Range(next, end), |files|, 0)
    decreases |files|
  {
    hide *;
    ShowsGives(v, s, d);
    if files == [] {
      NoFiles(s, files, next);
      WalkNone(v, depth, limit, t);
      TookNothing(t, next);
    } else {
      var es, mid := FileSlots(s, files, next), next + Span(s, |files[0].data|);
      FilesStoredHead(s, d, files, next);
      FileSlotsTail(s, files, next);
      ShowCut(es);
      PartUnclaimed(t, next, end, next, mid);
      ClaimFile(v, s, d, files[0], next, mid, t, Show(es)[0]);
      FileIsNoDir(es[0]);
      WalkFileEntry(v, Show(es)[0], depth, limit, t);
      var u := Claim(v, Show(es)[0], t).value;
      WalkStep(v, Show(es), depth, limit, t);
      PartUnclaimed(t, next, end, mid, end);
      RangesApart(next, mid, end);
      StaysUnclaimed(t, u, Range(next, mid), 1, 0, mid, end);
      WalkFiles(v, s, d, files[1..], mid, end, depth, limit, u);
      var w := WalkEntries(v, Show(es[1..]), depth, limit, u).value;
      TookBoth(t, u, w, next, mid, end, 1, 0, |files| - 1, 0);
    }
  }

  lemma ShowsGives(v: Volume, s: Space, d: Disk)
    requires Shows(v, s, d)
    ensures v.Valid() && s.Valid()
  {
  }

  lemma NoFiles(s: Space, files: seq<Stored>, next: nat)
    requires s.Valid() && files == []
    ensures Show(FileSlots(s, files, next)) == [] && FilesSpan(s, files) == 0
  {
  }

  lemma TookNothing(t: Tally, next: nat)
    ensures Took(t, t, Range(next, next), 0, 0)
  {
  }

  lemma RangesApart(lo: nat, mid: nat, hi: nat)
    requires lo <= mid <= hi
    ensures Range(lo, mid) !! Range(mid, hi)
  {
  }

  lemma FileIsNoDir(e: Slot)
    requires e.attr == ATTR_ARCHIVE
    ensures !NamedOf(e).dir
  {
  }

  // ---- directories ----

  /** How many directories lie below one another. */
  function Height(pl: Placed): nat
    decreases pl
  {
    SubsHeight(pl.subs)
  }

  function SubsHeight(subs: seq<Link>): nat
    decreases subs
  {
    if subs == [] then 0
    else
      var here, rest := 1 + Height(subs[0].dir), SubsHeight(subs[1..]);
      if here >= rest then here else rest
  }

  function FileCount(pl: Placed): nat
    decreases pl
  {
    |pl.files| + SubsFileCount(pl.subs)
  }

  function SubsFileCount(subs: seq<Link>): nat
    decreases subs
  {
    if subs == [] then 0 else FileCount(subs[0].dir) + SubsFileCount(subs[1..])
  }

  function DirCount(pl: Placed): nat
    decreases pl
  {
    SubsDirCount(pl.subs)
  }

  function SubsDirCount(subs: seq<Link>): nat
    decreases subs
  {
    if subs == [] then 0 else 1 + DirCount(subs[0].dir) + SubsDirCount(subs[1..])
  }

  /** A stored directory whose own and lower directories stand from cluster `c` and whose files
      stand from `next`, past all of those. */
  ghost predicate Walkable(s: Space, d: Disk, pl: Placed, isRoot: bool, parent: nat, c: nat, next: nat,
        ok: Text -> bool) {
    && s.Valid() && InPlace(s, pl, isRoot) && DirStored(s, d, pl, isRoot, parent, next)
    && TreeNamed(pl, ok) && Encoded(ok) && Preorder(s, d.fat, pl, isRoot, c)
    && 2 <= c && c + DirSpan(s, pl, isRoot) <= next && next + AllFiles(s, pl) <= d.next
    && (isRoot ==> s.volumeLabel[0] != 0 && (s.format.Fat32? ==> pl.cluster == 2))
  }

  ghost predicate SubsWalkable(s: Space, d: Disk, subs: seq<Link>, parent: nat, c: nat, next: nat, ok: Text -> bool) {
    && s.Valid() && SubsInPlace(s, subs) && SubsStored(s, d, subs, parent, next)
    && SubsNamed(subs, ok) && Encoded(ok) && SubsPreorder(s, d.fat, subs, c)
    && 2 <= c && c + SubsSpan(s, subs) <= next && next + SubsFiles(s, subs) <= d.next
  }

  lemma WalkableSubs(s: Space, d: Disk, pl: Placed, isRoot: bool, parent: nat, c: nat, next: nat, ok: Text -> bool)
    requires Walkable(s, d, pl, isRoot, parent, c, next, ok)
    ensures SubsWalkable(s, d, pl.subs, Me(pl, isRoot), c + OwnSpan(s, pl, isRoot), next + FilesSpan(s, pl.files), ok)
    ensures DirSpan(s, pl, isRoot) == OwnSpan(s, pl, isRoot) + SubsSpan(s, pl.subs)
    ensures AllFiles(s, pl) == FilesSpan(s, pl.files) + SubsFiles(s, pl.subs)
    ensures FilesStored(s, d.part, d.fat, pl.files, next)
  {
    hide OwnSpan, FilesSpan, Listed, FilesStored, Run, Encoded;
  }

  lemma SubsWalkableHead(s: Space, d: Disk, subs: seq<Link>, parent: nat, c: nat, next: nat, ok: Text -> bool)
    requires SubsWalkable(s, d, subs, parent, c, next, ok) && subs != []
    ensures var pl := subs[0].dir;
      && Walkable(s, d, pl, false, parent, c, next, ok) && pl.cluster == c
      && SubsWalkable(s, d, subs[1..], parent, c + DirSpan(s, pl, false), next + AllFiles(s, pl), ok)
      && SubsSpan(s, subs) == DirSpan(s, pl, false) + SubsSpan(s, subs[1..])
      && SubsFiles(s, subs) == AllFiles(s, pl) + SubsFiles(s, subs[1..])
  {
    hide DirSpan, AllFiles, DirStored, Encoded, TreeNamed, Run, InPlace;
  }

  lemma WalkDirEntry(v: Volume, e: Named, depth: nat, limit: nat, t: Tally)
    requires v.Valid() && Within(v, t) && e.dir && Claim(v, e, t).Ok?
    ensures Within(v, Claim(v, e, t).value)
    ensures WalkEntry(v, e, depth, limit, t) == WalkDir(v, Some(e.first), depth + 1, limit, Claim(v, e, t).value)
  {
    ClaimGrows(v, e, t);
  }

  lemma WalkListed(v: Volume, dir: Option<nat>, depth: nat, limit: nat, t: Tally, es: seq<Named>)
    requires v.Valid() && Within(v, t) && Entries(v, dir) == Ok(es)
    ensures WalkDir(v, dir, depth, limit, t) ==
      if depth > limit then Err(TooDeep) else WalkEntries(v, es, depth, limit, t)
  {
  }

  lemma {:induction false} WalkConcat(v: Volume, a: seq<Named>, b: seq<Named>, depth: nat, limit: nat, t: Tally)
    requires v.Valid() && Within(v, t)
    ensures var u := WalkEntries(v, a, depth, limit, t);
      WalkEntries(v, a + b, depth, limit, t) == if u.Err? then u else WalkEntries(v, b, depth, limit, u.value)
    decreases |a|
  {
    hide WalkEntries, WalkEntry, Within, Volume.Valid;
    if a == [] {
      assert a + b == b;
      WalkNone(v, depth, limit, t);
    } else {
      WalkStep(v, a, depth, limit, t);
      WalkStep(v, a + b, depth, limit, t);
      assert (a + b)[0] == a[0] && (a + b)[1..] == a[1..] + b;
      var u := WalkEntry(v, a[0], depth, limit, t);
      if u.Ok? { WalkConcat(v, a[1..], b, depth, limit, u.value); }
    }
  }

  lemma ShowConcat(a: seq<Slot>, b: seq<Slot>)
    ensures Show(a + b) == Show(a) + Show(b)
  {
  }

  lemma VisibleIs(s: Space, pl: Placed, next: nat)
    requires s.Valid()
    ensures Show(Visible(s, pl, next)) == Show(SubSlots(pl.subs)) + Show(FileSlots(s, pl.files, next))
  {
    ShowConcat(SubSlots(pl.subs), FileSlots(s, pl.files, next));
  }

  lemma WalkableReads(v: Volume, s: Space, d: Disk, pl: Placed, isRoot: bool, parent: nat, c: nat, next: nat,
        ok: Text -> bool)
    requires Shows(v, s, d) && Addressable(s, d) && Walkable(s, d, pl, isRoot, parent, c, next, ok)
    ensures v.Valid() && s.Valid()
    ensures Entries(v, RefOf(pl, isRoot)) == Ok(Show(SubSlots(pl.subs)) + Show(FileSlots(s, pl.files, next)))
  {
    hide Entries, DirStored, TreeNamed, Encoded, Preorder, InPlace, DirSpan, AllFiles, Show, Visible;
    DirReads(v, s, d, pl, isRoot, parent, next, ok);
    VisibleIs(s, pl, next);
  }

  lemma OwnSpanPositive(s: Space, pl: Placed, isRoot: bool)
    requires s.Valid() && !Fixed(s, isRoot)
    ensures OwnSpan(s, pl, isRoot) >= 1
  {
    CeilDivBounds(CountIn(|pl.subs|, |pl.files|, isRoot) * ENTRY, s.unit);
  }

  /** The entry of a stored subdirectory claims the directory's own clusters. */
  lemma ClaimSub(v: Volume, s: Space, d: Disk, pl: Placed, parent: nat, c: nat, next: nat, ok: Text -> bool, own: nat,
        e: Named, t: Tally)
    requires Shows(v, s, d) && Addressable(s, d) && Walkable(s, d, pl, false, parent, c, next, ok)
    requires own == c + OwnSpan(s, pl, false) && e.dir && e.first == c && Unclaimed(t, c, own)
    ensures Claim(v, e, t).Ok? && Took(t, Claim(v, e, t).value, Range(c, own), 0, 1)
  {
    hide Shows, Addressable, OwnSpan, Unclaimed, Claim, Took, Range, DirStored, TreeNamed, Encoded, InPlace, AllFiles,
         Run;
    OwnSpanPositive(s, pl, false);
    ClaimRun(v, s, d, e, own - c, own, t);
  }

  /** Two ranges: directories and files. */
  ghost function Two(c: nat, c': nat, next: nat, next': nat): set<nat>
    requires c <= c' && next <= next'
  {
    Range(c, c') + Range(next, next')
  }

  lemma TwoApart(c: nat, c': nat, next: nat, next': nat, lo: nat, hi: nat)
    requires c <= c' && next <= next' && lo <= hi && (hi <= c || c' <= lo) && (hi <= next || next' <= lo)
    ensures Two(c, c', next, next') !! Range(lo, hi)
  {
    hide Range;
  }

  lemma DirTakes(t: Tally, u: Tally, w: Tally, c: nat, end: nat, next: nat, mine: nat, fend: nat, f: nat, n: nat,
        f': nat)
    requires c <= end && next <= mine <= fend
    requires Took(t, u, Two(c, end, mine, fend), f, n) && Took(u, w, Range(next, mine), f', 0)
    ensures Took(t, w, Two(c, end, next, fend), f' + f, n)
  {
    hide Range, Two, Took;
    TwoSplits(c, end, next, mine, fend);
    TookUnion(t, u, w, Two(c, end, mine, fend), Range(next, mine), Two(c, end, next, fend), f, n, f', 0);
  }

  lemma TwoSplits(c: nat, end: nat, next: nat, mine: nat, fend: nat)
    requires c <= end && next <= mine <= fend
    ensures Two(c, end, next, fend) == Two(c, end, mine, fend) + Range(next, mine)
  {
    hide Range;
    RangeSplits(next, mine, fend);
  }

  lemma TookUnion(t: Tally, u: Tally, w: Tally, a: set<nat>, b: set<nat>, both: set<nat>, f: nat, n: nat, f': nat,
        n': nat)
    requires Took(t, u, a, f, n) && Took(u, w, b, f', n') && both == a + b
    ensures Took(t, w, both, f + f', n + n')
  {
  }

  /** What a walk of stored directories comes to: it fails only past the depth limit, and else
      has claimed exactly their clusters and counted them. */
  ghost predicate Walks(r: Result<Tally>, t: Tally, fits: bool, clusters: set<nat>, files: nat, dirs: nat) {
    (r.Ok? <==> fits) && (r.Ok? ==> Took(t, r.value, clusters, files, dirs))
  }

  lemma TooDeepWalks(r: Result<Tally>, t: Tally, pl: Placed, depth: nat, limit: nat, clusters: set<nat>)
    requires r.Err? && depth > limit
    ensures Walks(r, t, depth + Height(pl) <= limit, clusters, FileCount(pl), DirCount(pl))
  {
  }

  /** Subdirectories walked, then files walked, is the directory walked. */
  lemma DirWalks(r: Result<Tally>, r': Result<Tally>, t: Tally, pl: Placed, depth: nat, limit: nat,
                 own: nat, end: nat, next: nat, mine: nat, fend: nat)
    requires own <= end && next <= mine <= fend
    requires Walks(r, t, depth + SubsHeight(pl.subs) <= limit, Two(own, end, mine, fend), SubsFileCount(pl.subs),
      SubsDirCount(pl.subs))
    requires r.Ok? ==> r'.Ok? && Took(r.value, r'.value, Range(next, mine), |pl.files|, 0)
    ensures Walks(if r.Err? then r else r', t, depth + Height(pl) <= limit, Two(own, end, next, fend), FileCount(pl),
      DirCount(pl))
  {
    hide Two, Range, Took;
    if r.Ok? {
      DirTakes(t, r.value, r'.value, own, end, next, mine, fend, SubsFileCount(pl.subs), SubsDirCount(pl.subs),
        |pl.files|);
    }
  }

  /** The first subdirectory walked, then the rest, is all of them walked. */
  lemma SubsWalks(r: Result<Tally>, r': Result<Tally>, t: Tally, subs: seq<Link>, depth: nat, limit: nat,
                  c: nat, mid: nat, end: nat, next: nat, fmid: nat, fend: nat)
    requires subs != [] && c <= mid <= end && next <= fmid <= fend
    requires Walks(r, t, depth + 1 + Height(subs[0].dir) <= limit, Two(c, mid, next, fmid), FileCount(subs[0].dir),
      1 + DirCount(subs[0].dir))
    requires r.Ok? ==> Walks(r', r.value, depth + SubsHeight(subs[1..]) <= limit, Two(mid, end, fmid, fend),
      SubsFileCount(subs[1..]), SubsDirCount(subs[1..]))
    ensures Walks(if r.Err? then r else r', t, depth + SubsHeight(subs) <= limit, Two(c, end, next, fend),
      SubsFileCount(subs), SubsDirCount(subs))
  {
    hide Two, Range, Took, Height, FileCount, DirCount;
    if r.Ok? && r'.Ok? {
      var pl := subs[0].dir;
      BothTaken(t, r.value, r'.value, c, mid, end, next, fmid, fend, FileCount(pl), 1 + DirCount(pl),
        SubsFileCount(subs[1..]), SubsDirCount(subs[1..]));
    }
  }

  lemma BothTaken(t: Tally, u: Tally, w: Tally, c: nat, mid: nat, end: nat, next: nat, fmid: nat, fend: nat, f: nat,
        n: nat, f': nat, n': nat)
    requires c <= mid <= end && next <= fmid <= fend
    requires Took(t, u, Two(c, mid, next, fmid), f, n) && Took(u, w, Two(mid, end, fmid, fend), f', n')
    ensures Took(t, w, Two(c, end, next, fend), f + f', n + n')
  {
    hide Range;
    assert Two(c, end, next, fend) == Two(c, mid, next, fmid) + Two(mid, end, fmid, fend);
  }

  /** A subdirectory's own clusters claimed, then the subdirectory walked. */
  lemma SubWalks(t: Tally, u: Tally, r: Result<Tally>, fits: bool, c: nat, own: nat, mid: nat, next: nat, fmid: nat,
        f: nat, n: nat)
    requires c <= own <= mid && next <= fmid && Took(t, u, Range(c, own), 0, 1)
      && Walks(r, u, fits, Two(own, mid, next, fmid), f, n)
    ensures Walks(r, t, fits, Two(c, mid, next, fmid), f, 1 + n)
  {
    hide Range;
    assert Two(c, mid, next, fmid) == Range(c, own) + Two(own, mid, next, fmid);
  }

  lemma WalkableBounds(s: Space, d: Disk, pl: Placed, isRoot: bool, parent: nat, c: nat, next: nat, ok: Text -> bool)
    requires Walkable(s, d, pl, isRoot, parent, c, next, ok)
    ensures 2 <= c && c + DirSpan(s, pl, isRoot) <= next && next + AllFiles(s, pl) <= d.next
  {
  }

  lemma SubsWalkableBounds(s: Space, d: Disk, subs: seq<Link>, parent: nat, c: nat, next: nat, ok: Text -> bool)
    requires SubsWalkable(s, d, subs, parent, c, next, ok)
    ensures 2 <= c && c + SubsSpan(s, subs) <= next && next + SubsFiles(s, subs) <= d.next
  {
  }

  /** What the first subdirectory and its files leave unclaimed. */
  lemma LaterUnclaimed(t: Tally, w: Tally, c: nat, mid: nat, end: nat, next: nat, fmid: nat, fend: nat, f: nat, n: nat)
    requires c <= mid <= end <= next <= fmid <= fend && Took(t, w, Two(c, mid, next, fmid), f, n)
    requires Unclaimed(t, c, end) && Unclaimed(t, next, fend)
    ensures Unclaimed(w, mid, end) && Unclaimed(w, fmid, fend)
  {
    hide Range, Took, Two, Unclaimed;
    PartUnclaimed(t, c, end, mid, end);
    PartUnclaimed(t, next, fend, fmid, fend);
    TwoApart(c, mid, next, fmid, mid, end);
    TwoApart(c, mid, next, fmid, fmid, fend);
    StaysUnclaimed(t, w, Two(c, mid, next, fmid), f, n, mid, end);
    StaysUnclaimed(t, w, Two(c, mid, next, fmid), f, n, fmid, fend);
  }

  /** What a directory's own clusters leave unclaimed. */
  lemma BelowUnclaimed(t: Tally, u: Tally, c: nat, own: nat, mid: nat, next: nat, fmid: nat)
    requires c <= own <= mid <= next <= fmid && Took(t, u, Range(c, own), 0, 1)
    requires Unclaimed(t, c, mid) && Unclaimed(t, next, fmid)
    ensures Unclaimed(u, own, mid) && Unclaimed(u, next, fmid)
  {
    hide Range;
  }

  lemma WalksOk(r: Result<Tally>, t: Tally, fits: bool, clusters: set<nat>, files: nat, dirs: nat)
    requires Walks(r, t, fits, clusters, files, dirs) && r.Ok?
    ensures Took(t, r.value, clusters, files, dirs)
  {
  }

  lemma NoSubs(subs: seq<Link>, t: Tally, depth: nat, limit: nat, c: nat, next: nat)
    requires subs == [] && depth <= limit
    ensures Show(SubSlots(subs)) == []
    ensures Walks(Ok(t), t, depth + SubsHeight(subs) <= limit, Two(c, c, next, next), SubsFileCount(subs),
      SubsDirCount(subs))
  {
  }

  lemma NoSubsSpan(s: Space, subs: seq<Link>)
    requires s.Valid() && subs == []
    ensures SubsSpan(s, subs) == 0 && SubsFiles(s, subs) == 0
  {
  }

  lemma SubSlotsHead(subs: seq<Link>)
    requires subs != []
    ensures var es := Show(SubSlots(subs));
      es != [] && es[0].dir && es[0].first == subs[0].dir.cluster && es[1..] == Show(SubSlots(subs[1..]))
  {
    hide Shown;
    ShowCut(SubSlots(subs));
  }

  /** Walking a stored directory claims exactly the clusters of what lies below it. */
  lemma {:induction false} WalkStored(v: Volume, s: Space, d: Disk, pl: Placed, isRoot: bool, parent: nat, c: nat,
        next: nat, ok: Text -> bool,
                                      own: nat, end: nat, fend: nat, depth: nat, limit: nat, t: Tally)
    requires Shows(v, s, d) && Addressable(s, d) && Walkable(s, d, pl, isRoot, parent, c, next, ok) && Within(v, t)
    requires own == c + OwnSpan(s, pl, isRoot) && end == c + DirSpan(s, pl, isRoot) && fend == next + AllFiles(s, pl)
    requires Unclaimed(t, own, end) && Unclaimed(t, next, fend)
    ensures own <= end && v.Valid()
    ensures Walks(WalkDir(v, RefOf(pl, isRoot), depth, limit, t), t, depth + Height(pl) <= limit,
                  Two(own, end, next, fend), FileCount(pl), DirCount(pl))
    decreases pl, 0
  {
    hide *;
    WalkableReads(v, s, d, pl, isRoot, parent, c, next, ok);
    WalkableSubs(s, d, pl, isRoot, parent, c, next, ok);
    WalkableBounds(s, d, pl, isRoot, parent, c, next, ok);
    var dirs, files, mine := Show(SubSlots(pl.subs)), Show(FileSlots(s, pl.files, next)), next + FilesSpan(s, pl.files);
    WalkListed(v, RefOf(pl, isRoot), depth, limit, t, dirs + files);
    if depth > limit {
      TooDeepWalks(WalkDir(v, RefOf(pl, isRoot), depth, limit, t), t, pl, depth, limit, Two(own, end, next, fend));
    } else {
      WalkConcat(v, dirs, files, depth, limit, t);
      PartUnclaimed(t, next, fend, mine, fend);
      PartUnclaimed(t, next, fend, next, mine);
      WalkSubs(v, s, d, pl.subs, Me(pl, isRoot), own, mine, ok, end, fend, depth, limit, t);
      var r, r' := WalkEntries(v, dirs, depth, limit, t), WalkDir(v, RefOf(pl, isRoot), depth, limit, t);
      if r.Ok? {
        WalksOk(r, t, depth + SubsHeight(pl.subs) <= limit, Two(own, end, mine, fend), SubsFileCount(pl.subs),
          SubsDirCount(pl.subs));
        TwoApart(own, end, mine, fend, next, mine);
        StaysUnclaimed(t, r.value, Two(own, end, mine, fend), SubsFileCount(pl.subs), SubsDirCount(pl.subs), next,
          mine);
        WalkFiles(v, s, d, pl.files, next, mine, depth, limit, r.value);
      }
      DirWalks(r, r', t, pl, depth, limit, own, end, next, mine, fend);
    }
  }

  lemma {:induction false} WalkSubs(v: Volume, s: Space, d: Disk, subs: seq<Link>, parent: nat, c: nat, next: nat,
        ok: Text -> bool,
                                    end: nat, fend: nat, depth: nat, limit: nat, t: Tally)
    requires Shows(v, s, d) && Addressable(s, d) && SubsWalkable(s, d, subs, parent, c, next, ok) && Within(v, t)
      && depth <= limit
    requires end == c + SubsSpan(s, subs) && fend == next + SubsFiles(s, subs)
    requires Unclaimed(t, c, end) && Unclaimed(t, next, fend)
    ensures Walks(WalkEntries(v, Show(SubSlots(subs)), depth, limit, t), t, depth + SubsHeight(subs) <= limit,
                  Two(c, end, next, fend), SubsFileCount(subs), SubsDirCount(subs))
    decreases subs
  {
    hide *;
    ShowsGives(v, s, d);
    var es := Show(SubSlots(subs));
    if subs == [] {
      NoSubsSpan(s, subs);
      NoSubs(subs, t, depth, limit, c, next);
      WalkNone(v, depth, limit, t);
    } else {
      var pl := subs[0].dir;
      var mid, fmid := c + DirSpan(s, pl, false), next + AllFiles(s, pl);
      SubsWalkableHead(s, d, subs, parent, c, next, ok);
      SubsWalkableBounds(s, d, subs, parent, c, next, ok);
      SubSlotsHead(subs);
      WalkStep(v, es, depth, limit, t);
      PartUnclaimed(t, c, end, c, mid);
      PartUnclaimed(t, next, fend, next, fmid);
      WalkSub(v, s, d, pl, parent, c, next, ok, mid, fmid, depth, limit, t, es[0]);
      var r, r' := WalkEntry(v, es[0], depth, limit, t), WalkEntries(v, es, depth, limit, t);
      if r.Ok? {
        WalksOk(r, t, depth + 1 + Height(pl) <= limit, Two(c, mid, next, fmid), FileCount(pl), 1 + DirCount(pl));
        LaterUnclaimed(t, r.value, c, mid, end, next, fmid, fend, FileCount(pl), 1 + DirCount(pl));
        WalkSubs(v, s, d, subs[1..], parent, mid, fmid, ok, end, fend, depth, limit, r.value);
      }
      SubsWalks(r, r', t, subs, depth, limit, c, mid, end, next, fmid, fend);
    }
  }

  lemma {:induction false} WalkSub(v: Volume, s: Space, d: Disk, pl: Placed, parent: nat, c: nat, next: nat,
        ok: Text -> bool,
                                   mid: nat, fmid: nat, depth: nat, limit: nat, t: Tally, e: Named)
    requires Shows(v, s, d) && Addressable(s, d) && Walkable(s, d, pl, false, parent, c, next, ok) && Within(v, t)
    requires mid == c + DirSpan(s, pl, false) && fmid == next + AllFiles(s, pl)
    requires Unclaimed(t, c, mid) && Unclaimed(t, next, fmid) && e.dir && e.first == c == pl.cluster
    ensures v.Valid()
    ensures Walks(WalkEntry(v, e, depth, limit, t), t, depth + 1 + Height(pl) <= limit,
                  Two(c, mid, next, fmid), FileCount(pl), 1 + DirCount(pl))
    decreases pl, 1
  {
    hide *;
    ShowsGives(v, s, d);
    WalkableSubs(s, d, pl, false, parent, c, next, ok);
    WalkableBounds(s, d, pl, false, parent, c, next, ok);
    var own := c + OwnSpan(s, pl, false);
    PartUnclaimed(t, c, mid, c, own);
    ClaimSub(v, s, d, pl, parent, c, next, ok, own, e, t);
    WalkDirEntry(v, e, depth, limit, t);
    var u := Claim(v, e, t).value;
    BelowUnclaimed(t, u, c, own, mid, next, fmid);
    WalkStored(v, s, d, pl, false, parent, c, next, ok, own, mid, fmid, depth + 1, limit, u);
    SubRef(pl);
    SubWalks(t, u, WalkEntry(v, e, depth, limit, t), depth + 1 + Height(pl) <= limit, c, own, mid, next, fmid,
      FileCount(pl), DirCount(pl));
  }

  lemma SubRef(pl: Placed)
    ensures RefOf(pl, false) == Some(pl.cluster)
  {
  }
}
