/** `Writer` and `volume` as they run: bytes, table and next cluster changed in place. */
module FatBuilder {
  import opened Bytes
  import opened FatResult
  import opened FatLayout
  import opened FatTree
  import opened FatWriter
  import opened FatStored
  import opened FatContents
  import opened FatImage
  import opened FatVolume
  import FatPaths
  import FatTheorems
  import FatOpened
  import Ordered

  class Writer {
    const space: Space
    const part: array<byte>
    const fat: array<nat>
    var next: nat

    ghost function State(): Disk
      reads this, part, fat
    {
      Disk(part[..], fat[..], next)
    }

    ghost predicate Valid()
      reads this, part, fat
    {
      space.Valid() && Sized(space, State())
    }

    constructor (space: Space)
      requires space.Valid()
      ensures this.space == space && Valid() && State() == BlankDisk(space) && fresh(part) && fresh(fat)
    {
      this.space := space;
      var part := new byte[space.size](_ => 0);
      var fat := new nat[space.limit](_ => 0);
      fat[0], fat[1] := MediaMark(space.format), space.format.EndMark();
      this.part, this.fat, next := part, fat, 2;
      new;
      assert fat[..] == BlankDisk(space).fat && part[..] == BlankDisk(space).part;
    }

    /** Claim a chain of clusters, linking each to the next. */
    method Chain(bytes: nat) returns (r: Result<nat>)
      requires Valid()
      modifies this`next, fat
      ensures Valid()
      ensures var a := Alloc(space, old(State()), bytes);
        if a.Ok? then r == Ok(a.value.1) && State() == a.value.0 else r == Err(a.error)
    {
      var n := CeilDiv(bytes, space.unit);
      if n == 0 { return Ok(0); }
      var first := next;
      var last := first + n - 1;
      if last >= space.limit { return Err(Full); }
      ghost var before := fat[..];
      for c := first to last
        invariant fat.Length == |before|
        invariant forall i | 0 <= i < |before| :: fat[i] == if first <= i < c then i + 1 else before[i]
      {
        fat[c] := c + 1;
      }
      fat[last] := space.format.EndMark();
      next := last + 1;
      assert fat[..] == LinkRun(before, first, n, space.format.EndMark());
      r := Ok(first);
    }

    /** `copy_from_slice` into the volume's bytes. */
    method Store(at: nat, data: seq<byte>)
      requires Valid() && at + |data| <= part.Length
      modifies part
      ensures Valid() && State() == old(State()).(part := Splice(old(part[..]), at, data))
    {
      forall i | 0 <= i < |data| { part[at + i] := data[i]; }
      assert part[..] == Splice(old(part[..]), at, data);
    }

    /** Assign clusters: a directory's own chain, then its children's. */
    method Place(dir: Dir, isRoot: bool) returns (r: Result<Placed>)
      requires Valid()
      modifies this`next, fat
      ensures r.Ok? ==> Valid()
      ensures var a := Assign(space, old(State()), dir, isRoot);
        if a.Ok? then r == Ok(a.value.1) && State() == a.value.0 else r == Err(a.error)
      decreases dir, 1
    {
      hide Space.Valid, Alloc, AssignSubs, CountIn;
      var cluster := 0;
      if !Fixed(space, isRoot) {
        cluster :- Chain(CountIn(|dir.dirs|, |dir.files|, isRoot) * ENTRY);
      }
      var subs :- PlaceSubs(dir, Ordered.Keys(dir.dirs.Keys));
      r := Ok(Placed(cluster, subs, Files(dir.files, Ordered.Keys(dir.files.Keys))));
    }

    /** Assign the children's clusters, in name order. */
    method PlaceSubs(dir: Dir, names: seq<Text>) returns (r: Result<seq<Link>>)
      requires Valid() && forall n | n in names :: n in dir.dirs
      modifies this`next, fat
      ensures r.Ok? ==> Valid()
      ensures var a := AssignSubs(space, old(State()), dir, names);
        if a.Ok? then r == Ok(a.value.1) && State() == a.value.0 else r == Err(a.error)
      decreases dir, 0
    {
      hide Space.Valid, Assign;
      var subs: seq<Link> := [];
      ghost var d := State();
      NoLinksFirst(AssignSubs(space, d, dir, names));
      for i := 0 to |names|
        invariant Valid()
        invariant AssignSubs(space, d, dir, names) == WithLinks(subs, AssignSubs(space, State(), dir, names[i..]))
      {
        assert names[i] in names && names[i..][0] == names[i] && names[i..][1..] == names[i + 1..];
        var sub :- Place(dir.dirs[names[i]], false);
        WithOneMore(subs, Link(names[i], sub), AssignSubs(space, State(), dir, names[i + 1..]));
        subs := subs + [Link(names[i], sub)];
      }
      assert names[|names|..] == [] && subs + [] == subs;
      r := Ok(subs);
    }

    /** Store each file through a chain of its own, and list the entries that name them. */
    method StoreFiles(files: seq<Stored>) returns (r: Result<seq<Slot>>)
      requires Valid() && FilesLabelled(files)
      modifies this`next, fat, part
      ensures r.Ok? ==> Valid()
      ensures var a := WriteFiles(space, old(State()), files);
        if a.Ok? then r == Ok(a.value.1) && State() == a.value.0 else r == Err(a.error)
    {
      hide Space.Valid, Alloc, StoreAt;
      var entries: seq<Slot> := [];
      ghost var d := State();
      NoSlotsFirst(WriteFiles(space, d, files));
      assert files[0..] == files;
      for i := 0 to |files|
        invariant Valid() && FilesLabelled(files[i..])
        invariant WriteFiles(space, d, files) == WithSlots(entries, WriteFiles(space, State(), files[i..]))
      {
        assert files[i..][0] == files[i] && files[i..][1..] == files[i + 1..];
        if |files[i].data| >= U32 { return Err(TooLarge); }
        ghost var before := State();
        var first :- Chain(|files[i].data|);
        StoreFits(space, before, State(), first, files[i].data);
        if first != 0 { Store(space.Off(first), files[i].data); }
        StoredIs(space, before, Alloc(space, before, |files[i].data|).value.0, first, files[i].data, State());
        var slot := Slot(files[i].name, ATTR_ARCHIVE, first, |files[i].data|);
        WithOneMoreSlot(entries, slot, WriteFiles(space, State(), files[i + 1..]));
        entries := entries + [slot];
      }
      assert files[|files|..] == [] && entries + [] == entries;
      r := Ok(entries);
    }

    /** Store directory entries one after another. */
    method PutEntries(at: nat, es: seq<Slot>)
      requires Valid() && SlotsOk(space.format, es) && at + |es| * ENTRY <= part.Length
      modifies part
      ensures Valid() && State() == old(State()).(part := Splice(old(part[..]), at, Encode(space.format, es)))
    {
      hide Splice, Entry, Space.Valid, SlotsOk, Encode;
      ghost var d := State();
      EncodeNone(space.format, d.part, at, es);
      for i := 0 to |es|
        invariant Valid() && SlotsOk(space.format, es[..i])
        invariant State() == d.(part := Splice(d.part, at, Encode(space.format, es[..i])))
      {
        EncodeOneMore(space.format, d.part, at, es, i);
        Store(at + i * ENTRY, Entry(space.format, es[i]));
      }
      assert es[..|es|] == es;
    }

    /** Write a directory: its files, its entries, its subdirectories. */
    method WriteTree(pl: Placed, isRoot: bool, parent: nat) returns (r: Result<()>)
      requires Valid() && InPlace(space, pl, isRoot) && Labelled(pl) && parent < space.limit
      modifies this`next, fat, part
      ensures r.Ok? ==> Valid()
      ensures var a := WriteDir(space, old(State()), pl, isRoot, parent);
        if a.Ok? then r.Ok? && State() == a.value else r == Err(a.error)
      decreases pl
    {
      hide Space.Valid, WriteFiles, WriteSubs, DirSlots, SlotsOk, Encode, InPlace, DirAt, Labelled, Splice;
      WritableParts(space, pl, isRoot);
      var files :- StoreFiles(pl.files);
      var es := DirSlots(space, pl, isRoot, parent, files);
      if Fixed(space, isRoot) && |es| > space.rootEntries { return Err(RootFull); }
      DirFits(space, pl, isRoot);
      PutEntries(DirAt(space, pl, isRoot), es);
      r := WriteChildren(pl.subs, Me(pl, isRoot));
    }

    method WriteChildren(subs: seq<Link>, parent: nat) returns (r: Result<()>)
      requires Valid() && SubsInPlace(space, subs) && SubsLabelled(subs) && parent < space.limit
      modifies this`next, fat, part
      ensures r.Ok? ==> Valid()
      ensures var a := WriteSubs(space, old(State()), subs, parent);
        if a.Ok? then r.Ok? && State() == a.value else r == Err(a.error)
      decreases subs
    {
      hide Space.Valid, WriteDir, InPlace, Labelled;
      ghost var d := State();
      assert subs[0..] == subs;
      for i := 0 to |subs|
        invariant Valid() && SubsInPlace(space, subs[i..]) && SubsLabelled(subs[i..])
        invariant WriteSubs(space, d, subs, parent) == WriteSubs(space, State(), subs[i..], parent)
      {
        assert subs[i..][0] == subs[i] && subs[i..][1..] == subs[i + 1..];
        var _ :- WriteTree(subs[i].dir, false, parent);
      }
      assert subs[|subs|..] == [];
      r := Ok(());
    }

    /** The boot sector, FAT32's FSInfo sector, and every copy of the table. */
    method Seal(p: Params, g: Layout)
      requires Valid() && Fits(p, g) && space == SpaceOf(p, g)
      modifies part
      ensures part[..] == Finish(p, g, old(State()))
    {
      hide Fits, Header, Splice, TableBytes, PutCopies, PutFsInfo, SpaceOf, Space.Valid;
      ghost var d := State();
      FinishFits(p, g, d);
      ghost var boot, info := FatOpened.FinishParts(p, g, d);
      Store(0, Header(p, g));
      Store(510, [0x55, 0xAA]);
      if p.format.Fat32? {
        SealInfo(g.clusters - (next - ROOT_CLUSTER));
      }
      PutTables(TableBytes(p.format, fat[..]), p.reserved * SECTOR, g.fatSectors * SECTOR, p.fats);
    }

    /** Every copy of the table. */
    method PutTables(raw: seq<byte>, at: nat, step: nat, n: nat)
      requires Valid() && |raw| <= step && at + n * step <= part.Length
      modifies part
      ensures Valid() && part[..] == PutCopies(old(part[..]), raw, at, step, n)
    {
      hide Splice, Space.Valid;
      ghost var before := part[..];
      for i := 0 to n
        invariant Valid()
        invariant CopiesRoom(at, step, i, |before|) && part[..] == PutCopies(before, raw, at, step, i)
      {
        CopiesStep(at, step, i, n, |before|);
        Store(at + i * step, raw);
      }
    }

    /** The FSInfo sector: the free count, and where to look for a free cluster. */
    method SealInfo(free: nat)
      requires Valid() && part.Length >= 2 * SECTOR && free < U32 && next < U32
      modifies part
      ensures Valid() && State() == old(State()).(part := PutFsInfo(old(part[..]), free, next))
    {
      hide Splice, Le32;
      Store(SECTOR, Le32(0x4161_5252));
      Store(SECTOR + 484, Le32(0x6141_7272) + Le32(free) + Le32(next));
      Store(SECTOR + 508, Le32(0xAA55_0000));
    }
  }

  // ---- what the loops have gathered so far ----

  ghost function WithLinks(done: seq<Link>, r: Result<(Disk, seq<Link>)>): Result<(Disk, seq<Link>)> {
    if r.Ok? then Ok((r.value.0, done + r.value.1)) else r
  }

  lemma NoLinksFirst(r: Result<(Disk, seq<Link>)>)
    ensures WithLinks([], r) == r
  {
    if r.Ok? { assert [] + r.value.1 == r.value.1; }
  }

  lemma WithOneMore(done: seq<Link>, link: Link, r: Result<(Disk, seq<Link>)>)
    ensures WithLinks(done, WithLinks([link], r)) == WithLinks(done + [link], r)
  {
    if r.Ok? { assert done + ([link] + r.value.1) == done + [link] + r.value.1; }
  }

  ghost function WithSlots(done: seq<Slot>, r: Result<(Disk, seq<Slot>)>): Result<(Disk, seq<Slot>)> {
    if r.Ok? then Ok((r.value.0, done + r.value.1)) else r
  }

  lemma NoSlotsFirst(r: Result<(Disk, seq<Slot>)>)
    ensures WithSlots([], r) == r
  {
    if r.Ok? { assert [] + r.value.1 == r.value.1; }
  }

  lemma WithOneMoreSlot(done: seq<Slot>, slot: Slot, r: Result<(Disk, seq<Slot>)>)
    ensures WithSlots(done, WithSlots([slot], r)) == WithSlots(done + [slot], r)
  {
    if r.Ok? { assert done + ([slot] + r.value.1) == done + [slot] + r.value.1; }
  }

  lemma StoredIs(s: Space, before: Disk, d: Disk, first: nat, data: seq<byte>, after: Disk)
    requires s.Valid() && Sized(s, before) && Alloc(s, before, |data|) == Ok((d, first))
    requires first == 0 || s.Off(first) + |data| <= |d.part|
    requires after == if first == 0 then d else d.(part := Splice(d.part, s.Off(first), data))
    ensures after == StoreAt(s, before, d, first, data)
  {
  }

  // ---- entries stored one after another ----

  lemma EncodeNone(format: Format, part: seq<byte>, at: nat, es: seq<Slot>)
    requires at <= |part|
    ensures SlotsOk(format, es[..0]) && Splice(part, at, Encode(format, es[..0])) == part
  {
  }

  lemma {:induction false} PrefixOk(format: Format, es: seq<Slot>, i: nat)
    requires SlotsOk(format, es) && i <= |es|
    ensures SlotsOk(format, es[..i]) && (i < |es| ==> SlotOk(format, es[i]))
    decreases |es|
  {
    if i > 0 {
      PrefixOk(format, es[1..], i - 1);
      assert es[..i][1..] == es[1..][..i - 1];
    }
  }

  lemma {:induction false} EncodeAppend(format: Format, es: seq<Slot>, e: Slot)
    requires SlotsOk(format, es) && SlotOk(format, e)
    ensures SlotsOk(format, es + [e]) && Encode(format, es + [e]) == Encode(format, es) + Entry(format, e)
    decreases |es|
  {
    hide Entry, SlotOk;
    if es == [] {
      assert es + [e] == [e] && [e][1..] == [];
    } else {
      EncodeAppend(format, es[1..], e);
      assert (es + [e])[1..] == es[1..] + [e];
    }
  }

  lemma SpliceMore(part: seq<byte>, at: nat, a: seq<byte>, b: seq<byte>)
    requires at + |a| + |b| <= |part|
    ensures Splice(Splice(part, at, a), at + |a|, b) == Splice(part, at, a + b)
  {
  }

  lemma EncodeOneMore(format: Format, part: seq<byte>, at: nat, es: seq<Slot>, i: nat)
    requires SlotsOk(format, es) && i < |es| && at + |es| * ENTRY <= |part|
    ensures SlotsOk(format, es[..i]) && SlotOk(format, es[i]) && SlotsOk(format, es[..i + 1])
      && at + (i + 1) * ENTRY <= |part|
    ensures Splice(Splice(part, at, Encode(format, es[..i])), at + i * ENTRY, Entry(format, es[i])) ==
            Splice(part, at, Encode(format, es[..i + 1]))
  {
    hide Entry, SlotOk, SlotsOk, Encode, Splice;
    PrefixOk(format, es, i);
    EncodeAppend(format, es[..i], es[i]);
    assert es[..i + 1] == es[..i] + [es[i]];
    SpliceMore(part, at, Encode(format, es[..i]), Entry(format, es[i]));
  }

  // ---- the copies of the table ----

  ghost predicate CopiesRoom(at: nat, step: nat, n: nat, size: nat) { at + n * step <= size }

  lemma CopiesStep(at: nat, step: nat, i: nat, n: nat, size: nat)
    requires i < n && at + n * step <= size
    ensures at + i * step + step <= size && CopiesRoom(at, step, i, size) && CopiesRoom(at, step, i + 1, size)
    ensures at + (i + 1) * step == at + i * step + step
  {
    assert (i + 1) * step == i * step + step;
    assert n * step == (i + 1) * step + (n - i - 1) * step;
  }

  // ---- the whole of `volume` ----

  /** Build the tree, solve the layout, place, write and seal. */
  method MakeVolume(files: seq<FatPaths.File>, p: Params) returns (r: Result<seq<byte>>)
    requires p.sectorsPerCluster > 0
    ensures r == FatTheorems.VolumeBytes(files, p)
  {
    hide Assign, WriteDir, Space.Valid, Proper, InPlace, Labelled, Fits, Finish, Eleven;
    FatTheorems.ItemsPlaceable(files);
    FatTheorems.EmptyIsProper(Eleven);
    var dir :- BuildTree(FatPaths.Items(files));
    BuildIsProper(EMPTY, FatPaths.Items(files), Eleven);
    var g :- SolveLayout(p);
    LayoutIsLeastAndFits(p);
    SpaceIsValid(p, g);
    var s := SpaceOf(p, g);
    var w := new Writer(s);
    var root :- w.Place(dir, true);
    if p.format.Fat32? && root.cluster != ROOT_CLUSTER { return Err(RootMisplaced); }
    AssignedIsWritable(s, dir);
    var _ :- w.WriteTree(root, true, 0);
    w.Seal(p, g);
    r := Ok(w.part[..]);
  }
}
