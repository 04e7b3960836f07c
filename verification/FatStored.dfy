/** What the writer leaves behind: every directory and file linked in the table and stored in
    clusters of its own. */
module FatStored {
  import opened Bytes
  import opened FatResult
  import opened FatLayout
  import opened FatTree
  import opened FatWriter
  import Ordered

  /** The entries of `n` clusters from `first`, chained and ended. */
  function Links(s: Space, first: nat, n: nat): (r: seq<nat>)
    ensures |r| == n && forall i | 0 <= i < n :: r[i] == LinkOf(s, first + i, first + n)
  {
    seq<nat>(n, (i: nat) requires i < n => LinkOf(s, first + i, first + n))
  }

  /** What a cluster's entry says in a chain that ends before `end`. */
  function LinkOf(s: Space, cluster: nat, end: nat): nat {
    if cluster + 1 < end then cluster + 1 else s.format.EndMark()
  }

  /** `n` clusters from `first` are chained and ended. */
  predicate Run(s: Space, fat: seq<nat>, first: nat, n: nat) {
    first + n <= |fat| && fat[first..first + n] == Links(s, first, n)
  }

  /** Both sequences read the same from `lo` up to `hi`. */
  predicate Kept<T(==)>(a: seq<T>, b: seq<T>, lo: nat, hi: nat) {
    |a| == |b| && lo <= hi <= |a| && a[lo..hi] == b[lo..hi]
  }

  lemma KeptWithin<T>(a: seq<T>, b: seq<T>, lo: nat, hi: nat, lo': nat, hi': nat)
    requires Kept(a, b, lo, hi) && lo <= lo' <= hi' <= hi
    ensures Kept(a, b, lo', hi')
  {
    SliceOfSlice(a, lo, hi, lo', hi');
    SliceOfSlice(b, lo, hi, lo', hi');
  }

  /** Claiming a chain links it and leaves the rest of the table alone. */
  lemma AllocLinks(s: Space, d: Disk, bytes: nat)
    requires s.Valid() && Sized(s, d) && Alloc(s, d, bytes).Ok?
    ensures var r := Alloc(s, d, bytes).value;
      && r.0.next == d.next + Span(s, bytes)
      && r.1 == (if bytes == 0 then 0 else d.next)
      && r.0.part == d.part
      && Run(s, r.0.fat, d.next, Span(s, bytes))
      && Kept(d.fat, r.0.fat, 0, d.next) && Kept(d.fat, r.0.fat, r.0.next, s.limit)
  {
    LinkRunIs(s, d.fat, d.next, Span(s, bytes));
  }

  lemma LinkRunIs(s: Space, fat: seq<nat>, first: nat, n: nat)
    requires first + n <= |fat|
    ensures var r := LinkRun(fat, first, n, s.format.EndMark());
      r[first..first + n] == Links(s, first, n) && r[..first] == fat[..first] && r[first + n..] == fat[first + n..]
  {
    var r := LinkRun(fat, first, n, s.format.EndMark());
    forall i | 0 <= i < n ensures r[first..first + n][i] == Links(s, first, n)[i] {
      assert r[first..first + n][i] == r[first + i] == LinkOf(s, first + i, first + n);
      assert Links(s, first, n)[i] == LinkOf(s, first + i, first + n);
    }
  }

  // ---- directories ----

  /** Clusters the directories at and below `pl` take. */
  function DirSpan(s: Space, pl: Placed, isRoot: bool): nat
    requires s.Valid()
    decreases pl
  {
    OwnSpan(s, pl, isRoot) + SubsSpan(s, pl.subs)
  }

  function SubsSpan(s: Space, subs: seq<Link>): nat
    requires s.Valid()
    decreases subs
  {
    if subs == [] then 0 else DirSpan(s, subs[0].dir, false) + SubsSpan(s, subs[1..])
  }

  /** Directories stand in preorder from cluster `c`, each linked. */
  ghost predicate Preorder(s: Space, fat: seq<nat>, pl: Placed, isRoot: bool, c: nat)
    requires s.Valid()
    decreases pl
  {
    && pl.cluster == (if Fixed(s, isRoot) then 0 else c)
    && Run(s, fat, c, OwnSpan(s, pl, isRoot))
    && SubsPreorder(s, fat, pl.subs, c + OwnSpan(s, pl, isRoot))
  }

  ghost predicate SubsPreorder(s: Space, fat: seq<nat>, subs: seq<Link>, c: nat)
    requires s.Valid()
    decreases subs
  {
    subs == [] || (&& Preorder(s, fat, subs[0].dir, false, c)
                   && SubsPreorder(s, fat, subs[1..], c + DirSpan(s, subs[0].dir, false)))
  }

  lemma {:induction false} SubsPreorderCons(s: Space, fat: seq<nat>, name: Text, pl: Placed, rest: seq<Link>, c: nat)
    requires s.Valid() && Preorder(s, fat, pl, false, c) && SubsPreorder(s, fat, rest, c + DirSpan(s, pl, false))
    ensures SubsPreorder(s, fat, [Link(name, pl)] + rest, c)
    ensures SubsSpan(s, [Link(name, pl)] + rest) == DirSpan(s, pl, false) + SubsSpan(s, rest)
  {
    assert ([Link(name, pl)] + rest)[1..] == rest;
  }

  lemma {:induction false} PreorderOf(s: Space, fat: seq<nat>, pl: Placed, isRoot: bool, c: nat)
    requires s.Valid() && pl.cluster == (if Fixed(s, isRoot) then 0 else c)
    requires Run(s, fat, c, OwnSpan(s, pl, isRoot)) && SubsPreorder(s, fat, pl.subs, c + OwnSpan(s, pl, isRoot))
    ensures Preorder(s, fat, pl, isRoot, c)
  {
  }

  lemma {:induction false} PreorderFrame(s: Space, a: seq<nat>, b: seq<nat>, pl: Placed, isRoot: bool, c: nat)
    requires s.Valid() && Preorder(s, a, pl, isRoot, c) && Kept(a, b, c, c + DirSpan(s, pl, isRoot))
    ensures Preorder(s, b, pl, isRoot, c)
    decreases pl
  {
    var own, e := c + OwnSpan(s, pl, isRoot), c + DirSpan(s, pl, isRoot);
    KeptWithin(a, b, c, e, c, own);
    KeptWithin(a, b, c, e, own, e);
    SubsPreorderFrame(s, a, b, pl.subs, own);
    PreorderOf(s, b, pl, isRoot, c);
  }

  lemma {:induction false} SubsPreorderFrame(s: Space, a: seq<nat>, b: seq<nat>, subs: seq<Link>, c: nat)
    requires s.Valid() && SubsPreorder(s, a, subs, c) && Kept(a, b, c, c + SubsSpan(s, subs))
    ensures SubsPreorder(s, b, subs, c)
    decreases subs
  {
    if subs != [] {
      var c', e := c + DirSpan(s, subs[0].dir, false), c + SubsSpan(s, subs);
      KeptWithin(a, b, c, e, c, c');
      KeptWithin(a, b, c, e, c', e);
      PreorderFrame(s, a, b, subs[0].dir, false, c);
      SubsPreorderFrame(s, a, b, subs[1..], c');
    }
  }

  /** The placed tree lists what the tree holds, in name order. */
  ghost predicate Mirrors(pl: Placed, dir: Dir)
    decreases dir, 1, 0
  {
    && pl.files == Files(dir.files, Ordered.Keys(dir.files.Keys))
    && SubsMirror(pl.subs, dir, Ordered.Keys(dir.dirs.Keys))
  }

  ghost predicate SubsMirror(subs: seq<Link>, dir: Dir, names: seq<Text>)
    requires forall n | n in names :: n in dir.dirs
    decreases dir, 0, |names|
  {
    if names == [] then subs == []
    else subs != [] && subs[0].name == names[0] && Mirrors(subs[0].dir, dir.dirs[names[0]])
         && SubsMirror(subs[1..], dir, names[1..])
  }

  lemma {:induction false} MirrorCount(subs: seq<Link>, dir: Dir, names: seq<Text>)
    requires (forall n | n in names :: n in dir.dirs) && SubsMirror(subs, dir, names)
    ensures |subs| == |names|
    decreases |names|
  {
    if names != [] { MirrorCount(subs[1..], dir, names[1..]); }
  }

  /** What a step of cluster assignment has done between two disks. */
  ghost predicate Assigned(s: Space, d: Disk, d': Disk, span: nat)
  {
    && Sized(s, d) && Sized(s, d') && d'.part == d.part && d'.next == d.next + span
    && Kept(d.fat, d'.fat, 0, d.next) && Kept(d.fat, d'.fat, d'.next, s.limit)
  }

  lemma AssignedThen(s: Space, d: Disk, m: Disk, d': Disk, a: nat, b: nat)
    requires Assigned(s, d, m, a) && Assigned(s, m, d', b)
    ensures Assigned(s, d, d', a + b) && Kept(m.fat, d'.fat, d.next, m.next)
  {
    KeptWithin(m.fat, d'.fat, 0, m.next, 0, d.next);
    KeptWithin(m.fat, d'.fat, 0, m.next, d.next, m.next);
    KeptWithin(d.fat, m.fat, m.next, s.limit, d'.next, s.limit);
  }

  lemma {:induction false} AssignMirrors(s: Space, d: Disk, dir: Dir, isRoot: bool)
    requires s.Valid() && Sized(s, d) && Assign(s, d, dir, isRoot).Ok?
    ensures Mirrors(Assign(s, d, dir, isRoot).value.1, dir)
    decreases dir, 1, 0
  {
    var own := if Fixed(s, isRoot) then Ok((d, 0))
               else Alloc(s, d, CountIn(|dir.dirs|, |dir.files|, isRoot) * ENTRY);
    AssignSubsMirror(s, own.value.0, dir, Ordered.Keys(dir.dirs.Keys));
  }

  lemma {:induction false} AssignSubsMirror(s: Space, d: Disk, dir: Dir, names: seq<Text>)
    requires s.Valid() && Sized(s, d) && (forall n | n in names :: n in dir.dirs)
    requires AssignSubs(s, d, dir, names).Ok?
    ensures SubsMirror(AssignSubs(s, d, dir, names).value.1, dir, names)
    decreases dir, 0, |names|
  {
    if names != [] {
      var sub := Assign(s, d, dir.dirs[names[0]], false).value;
      AssignMirrors(s, d, dir.dirs[names[0]], false);
      AssignSubsMirror(s, sub.0, dir, names[1..]);
      var rest := AssignSubs(s, sub.0, dir, names[1..]).value;
      assert ([Link(names[0], sub.1)] + rest.1)[1..] == rest.1;
    }
  }

  /** Assignment takes the next clusters and changes nothing but their links. */
  lemma {:induction false} AssignMoves(s: Space, d: Disk, dir: Dir, isRoot: bool)
    requires s.Valid() && Sized(s, d) && Assign(s, d, dir, isRoot).Ok?
    ensures var r := Assign(s, d, dir, isRoot).value; Assigned(s, d, r.0, DirSpan(s, r.1, isRoot))
    decreases dir, 1, 0
  {
    var own, subs, pl := AssignParts(s, d, dir, isRoot);
    AssignSubsMove(s, own.0, dir, Ordered.Keys(dir.dirs.Keys));
    AssignedThen(s, d, own.0, subs.0, OwnSpan(s, pl, isRoot), SubsSpan(s, subs.1));
  }

  lemma {:induction false} AssignSubsMove(s: Space, d: Disk, dir: Dir, names: seq<Text>)
    requires s.Valid() && Sized(s, d) && (forall n | n in names :: n in dir.dirs)
    requires AssignSubs(s, d, dir, names).Ok?
    ensures var r := AssignSubs(s, d, dir, names).value; Assigned(s, d, r.0, SubsSpan(s, r.1))
    decreases dir, 0, |names|
  {
    if names != [] {
      var sub := Assign(s, d, dir.dirs[names[0]], false).value;
      AssignMoves(s, d, dir.dirs[names[0]], false);
      AssignSubsMove(s, sub.0, dir, names[1..]);
      var rest := AssignSubs(s, sub.0, dir, names[1..]).value;
      assert ([Link(names[0], sub.1)] + rest.1)[1..] == rest.1;
      AssignedThen(s, d, sub.0, rest.0, DirSpan(s, sub.1, false), SubsSpan(s, rest.1));
    }
  }

  /** The parts of one assignment: the directory's own chain, then its children. */
  lemma {:induction false} AssignParts(s: Space, d: Disk, dir: Dir, isRoot: bool)
    returns (own: (Disk, nat), subs: (Disk, seq<Link>), pl: Placed)
    requires s.Valid() && Sized(s, d) && Assign(s, d, dir, isRoot).Ok?
    ensures Assign(s, d, dir, isRoot) == Ok((subs.0, pl)) && pl.subs == subs.1
    ensures Sized(s, own.0) && AssignSubs(s, own.0, dir, Ordered.Keys(dir.dirs.Keys)) == Ok(subs)
    ensures Assigned(s, d, own.0, OwnSpan(s, pl, isRoot)) && Run(s, own.0.fat, d.next, OwnSpan(s, pl, isRoot))
    ensures pl.cluster == own.1 == if Fixed(s, isRoot) then 0 else d.next
  {
    var names := Ordered.Keys(dir.dirs.Keys);
    var bytes := CountIn(|dir.dirs|, |dir.files|, isRoot) * ENTRY;
    if Fixed(s, isRoot) {
      own := (d, 0);
    } else {
      own := Alloc(s, d, bytes).value;
      AllocLinks(s, d, bytes);
    }
    subs := AssignSubs(s, own.0, dir, names).value;
    pl := Assign(s, d, dir, isRoot).value.1;
    AssignSubsMirror(s, own.0, dir, names);
    MirrorCount(subs.1, dir, names);
    assert |pl.files| == |dir.files| && |pl.subs| == |dir.dirs|;
  }

  lemma {:induction false} PlaceOwn(s: Space, d: Disk, m: Disk, d': Disk, pl: Placed, isRoot: bool)
    requires s.Valid() && Assigned(s, d, m, OwnSpan(s, pl, isRoot)) && Assigned(s, m, d', SubsSpan(s, pl.subs))
    requires pl.cluster == (if Fixed(s, isRoot) then 0 else d.next)
    requires Run(s, m.fat, d.next, OwnSpan(s, pl, isRoot)) && SubsPreorder(s, d'.fat, pl.subs, m.next)
    ensures Preorder(s, d'.fat, pl, isRoot, d.next)
  {
    AssignedThen(s, d, m, d', OwnSpan(s, pl, isRoot), SubsSpan(s, pl.subs));
    PreorderOf(s, d'.fat, pl, isRoot, d.next);
  }

  lemma {:induction false} PlaceSub(s: Space, d: Disk, m: Disk, d': Disk, name: Text, pl: Placed, rest: seq<Link>)
    requires s.Valid() && Assigned(s, d, m, DirSpan(s, pl, false)) && Assigned(s, m, d', SubsSpan(s, rest))
    requires Preorder(s, m.fat, pl, false, d.next) && SubsPreorder(s, d'.fat, rest, m.next)
    ensures SubsPreorder(s, d'.fat, [Link(name, pl)] + rest, d.next)
  {
    AssignedThen(s, d, m, d', DirSpan(s, pl, false), SubsSpan(s, rest));
    PreorderFrame(s, m.fat, d'.fat, pl, false, d.next);
    SubsPreorderCons(s, d'.fat, name, pl, rest, d.next);
  }

  /** Directories are assigned in preorder, each linked. */
  lemma {:induction false} AssignPlaces(s: Space, d: Disk, dir: Dir, isRoot: bool)
    requires s.Valid() && Sized(s, d) && Assign(s, d, dir, isRoot).Ok?
    ensures var r := Assign(s, d, dir, isRoot).value; Preorder(s, r.0.fat, r.1, isRoot, d.next)
    decreases dir, 1, 0
  {
    var own, subs, pl := AssignParts(s, d, dir, isRoot);
    var names := Ordered.Keys(dir.dirs.Keys);
    AssignSubsMove(s, own.0, dir, names);
    AssignSubsPlace(s, own.0, dir, names);
    PlaceOwn(s, d, own.0, subs.0, pl, isRoot);
  }

  lemma {:induction false} AssignSubsPlace(s: Space, d: Disk, dir: Dir, names: seq<Text>)
    requires s.Valid() && Sized(s, d) && (forall n | n in names :: n in dir.dirs)
    requires AssignSubs(s, d, dir, names).Ok?
    ensures var r := AssignSubs(s, d, dir, names).value; SubsPreorder(s, r.0.fat, r.1, d.next)
    decreases dir, 0, |names|
  {
    if names != [] {
      var sub := Assign(s, d, dir.dirs[names[0]], false).value;
      var rest := AssignSubs(s, sub.0, dir, names[1..]).value;
      AssignMoves(s, d, dir.dirs[names[0]], false);
      AssignSubsMove(s, sub.0, dir, names[1..]);
      AssignPlaces(s, d, dir.dirs[names[0]], false);
      AssignSubsPlace(s, sub.0, dir, names[1..]);
      PlaceSub(s, d, sub.0, rest.0, names[0], sub.1, rest.1);
    }
  }

  /** Placed trees fit where they were placed. */
  lemma {:induction false} PlacedFits(s: Space, fat: seq<nat>, pl: Placed, isRoot: bool, c: nat)
    requires s.Valid() && Preorder(s, fat, pl, isRoot, c) && 2 <= c && c + DirSpan(s, pl, isRoot) <= s.limit
    ensures InPlace(s, pl, isRoot)
    decreases pl
  {
    SubsFit(s, fat, pl.subs, c + OwnSpan(s, pl, isRoot));
  }

  lemma {:induction false} SubsFit(s: Space, fat: seq<nat>, subs: seq<Link>, c: nat)
    requires s.Valid() && SubsPreorder(s, fat, subs, c) && 2 <= c && c + SubsSpan(s, subs) <= s.limit
    ensures SubsInPlace(s, subs)
    decreases subs
  {
    if subs != [] {
      PlacedFits(s, fat, subs[0].dir, false, c);
      SubsFit(s, fat, subs[1..], c + DirSpan(s, subs[0].dir, false));
    }
  }

  lemma {:induction false} AllLabelled(files: seq<Stored>)
    requires forall f | f in files :: |f.name| == 11
    ensures FilesLabelled(files)
    decreases |files|
  {
    if files != [] { AllLabelled(files[1..]); }
  }

  lemma {:induction false} MirrorLabelled(pl: Placed, dir: Dir, ok: Text -> bool)
    requires Mirrors(pl, dir) && Proper(dir, ok) && forall n | ok(n) :: |n| == 11
    ensures Labelled(pl)
    decreases dir, 1, 0
  {
    forall f | f in pl.files ensures |f.name| == 11 {
      assert ok(f.name);
    }
    AllLabelled(pl.files);
    SubsMirrorLabelled(pl.subs, dir, Ordered.Keys(dir.dirs.Keys), ok);
  }

  lemma {:induction false} SubsMirrorLabelled(subs: seq<Link>, dir: Dir, names: seq<Text>, ok: Text -> bool)
    requires (forall n | n in names :: n in dir.dirs) && SubsMirror(subs, dir, names)
    requires Proper(dir, ok) && forall n | ok(n) :: |n| == 11
    ensures SubsLabelled(subs)
    decreases dir, 0, |names|
  {
    if names != [] {
      assert ok(names[0]);
      MirrorLabelled(subs[0].dir, dir.dirs[names[0]], ok);
      SubsMirrorLabelled(subs[1..], dir, names[1..], ok);
    }
  }
}
