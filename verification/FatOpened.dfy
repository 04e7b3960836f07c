/** A finished volume opens with the geometry it was written with, and its tables read as they
    were written. */
module FatOpened {
  import opened Bytes
  import opened FatResult
  import opened FatLayout
  import opened FatWriter
  import opened FatStored
  import opened FatContents
  import opened FatImage
  import opened FatReader

  // ---- what each store keeps ----

  lemma {:induction false} CopiesKept(part: seq<byte>, raw: seq<byte>, at: nat, step: nat, n: nat, lo: nat, hi: nat)
    requires |raw| <= step && at + n * step <= |part| && lo <= hi <= |part|
    requires hi <= at || at + n * step <= lo
    ensures Kept(part, PutCopies(part, raw, at, step, n), lo, hi)
    decreases n
  {
    if n > 0 {
      CopyFits(at, step, n);
      var before, last := PutCopies(part, raw, at, step, n - 1), at + (n - 1) * step;
      CopiesKept(part, raw, at, step, n - 1, lo, hi);
      SpliceKept(before, last, raw, lo, hi);
    }
  }

  lemma {:induction false} CopyReads(part: seq<byte>, raw: seq<byte>, at: nat, step: nat, n: nat, k: nat)
    requires |raw| <= step && at + n * step <= |part| && k < n
    ensures At(PutCopies(part, raw, at, step, n), at + k * step, raw)
    decreases n
  {
    CopyFits(at, step, n);
    var before := PutCopies(part, raw, at, step, n - 1);
    if k == n - 1 {
      SpliceAt(before, at + k * step, raw);
    } else {
      CopyReads(part, raw, at, step, n - 1, k);
      CopyFits(at, step, k + 1);
      TimesMono(k + 1, n - 1, step);
      SpliceKept(before, at + (n - 1) * step, raw, at + k * step, at + k * step + |raw|);
    }
  }

  lemma BootKept(p: Params, g: Layout, part: seq<byte>, lo: nat, hi: nat)
    requires Fits(p, g) && SECTOR <= lo <= hi <= |part|
    ensures Kept(part, PutBoot(p, g, part), lo, hi)
  {
    var a := Splice(part, 0, Header(p, g));
    SpliceKept(part, 0, Header(p, g), lo, hi);
    SpliceKept(a, 510, [0x55, 0xAA], lo, hi);
  }

  lemma FsInfoKept(part: seq<byte>, free: nat, next: nat, lo: nat, hi: nat)
    requires |part| >= 2 * SECTOR && free < U32 && next < U32 && lo <= hi <= |part|
    requires hi <= SECTOR || 2 * SECTOR <= lo
    ensures Kept(part, PutFsInfo(part, free, next), lo, hi)
  {
    var a := Splice(part, SECTOR, Le32(0x4161_5252));
    var raw := Le32(0x6141_7272) + Le32(free) + Le32(next);
    var b := Splice(a, SECTOR + 484, raw);
    SpliceKept(part, SECTOR, Le32(0x4161_5252), lo, hi);
    SpliceKept(a, SECTOR + 484, raw, lo, hi);
    SpliceKept(b, SECTOR + 508, Le32(0xAA55_0000), lo, hi);
  }

  // ---- fields ----

  lemma Get16At(b: seq<byte>, at: nat, v: nat)
    requires at + 2 <= |b| && v < U16 && b[at] == Le16(v)[0] && b[at + 1] == Le16(v)[1]
    ensures Get16(b, at) == v
  {
    Le16RoundTrip(v);
  }

  lemma Get32At(b: seq<byte>, at: nat, v: nat)
    requires at + 4 <= |b| && v < U32
    requires b[at] == Le32(v)[0] && b[at + 1] == Le32(v)[1] && b[at + 2] == Le32(v)[2] && b[at + 3] == Le32(v)[3]
    ensures Get32(b, at) == v
  {
    Le32RoundTrip(v);
  }

  lemma Get32Slice(b: seq<byte>, at: nat, v: nat)
    requires v < U32 && At(b, at, Le32(v))
    ensures Get32(b, at) == v
  {
    var x := b[at..at + 4];
    assert x[0] == b[at] && x[1] == b[at + 1] && x[2] == b[at + 2] && x[3] == b[at + 3];
    Get32At(b, at, v);
  }

  /** The fields a reader finds in the boot sector. */
  function BootOf(p: Params, g: Layout): Boot {
    var chained := p.format.Fat32?;
    Boot(0xAA55, SECTOR, p.sectorsPerCluster, p.reserved, p.fats, p.RootEntries(), g.fatSectors, p.sectors,
         if chained then ROOT_CLUSTER else 0, if chained then FSINFO_SECTOR else 0)
  }

  lemma HeaderAt(p: Params, g: Layout, part: seq<byte>, i: nat)
    requires Fits(p, g) && |part| >= SECTOR && i < HeaderSize(p)
    ensures PutBoot(p, g, part)[i] == HeaderByte(p, g, i)
  {
    assert Splice(part, 0, Header(p, g))[i] == Header(p, g)[i];
  }

  lemma SignatureAt(p: Params, g: Layout, part: seq<byte>)
    requires Fits(p, g) && |part| >= SECTOR
    ensures Get16(PutBoot(p, g, part), 510) == 0xAA55
  {
    var r := PutBoot(p, g, part);
    assert r[510] == 0x55 && r[511] == 0xAA;
  }

  lemma CommonFields(p: Params, g: Layout, part: seq<byte>)
    requires Fits(p, g) && |part| >= SECTOR
    ensures var r := PutBoot(p, g, part);
      && Get16(r, 11) == SECTOR && r[13] == p.sectorsPerCluster && Get16(r, 14) == p.reserved && r[16] == p.fats
      && Get16(r, 17) == p.RootEntries() && Get16(r, 19) == 0 && Get32(r, 32) == p.sectors
  {
    var r := PutBoot(p, g, part);
    forall i: nat | i < 36 ensures r[i] == CommonByte(p, g, i) { HeaderAt(p, g, part, i); }
    Get16At(r, 11, SECTOR);
    assert r[13] == CommonByte(p, g, 13) && r[16] == CommonByte(p, g, 16);
    Get16At(r, 14, p.reserved);
    Get16At(r, 17, p.RootEntries());
    assert r[19] == CommonByte(p, g, 19) && r[20] == CommonByte(p, g, 20);
    Get32At(r, 32, p.sectors);
  }

  lemma Fat32Fields(p: Params, g: Layout, part: seq<byte>)
    requires Fits(p, g) && |part| >= SECTOR && p.format.Fat32?
    ensures var r := PutBoot(p, g, part);
      Get32(r, 36) == g.fatSectors && Get32(r, 44) == ROOT_CLUSTER && Get16(r, 48) == FSINFO_SECTOR
  {
    var r := PutBoot(p, g, part);
    forall i: nat | 36 <= i < 64 ensures r[i] == Fat32Byte(g, i) { HeaderAt(p, g, part, i); }
    Get32At(r, 36, g.fatSectors);
    Get32At(r, 44, ROOT_CLUSTER);
    Get16At(r, 48, FSINFO_SECTOR);
  }

  lemma BootReads(p: Params, g: Layout, part: seq<byte>)
    requires Fits(p, g) && |part| >= SECTOR
    ensures ReadBoot(p.format, PutBoot(p, g, part)) == BootOf(p, g)
  {
    var r := PutBoot(p, g, part);
    CommonFields(p, g, part);
    SignatureAt(p, g, part);
    if p.format.Fat32? {
      Fat32Fields(p, g, part);
    } else {
      HeaderAt(p, g, part, 22);
      HeaderAt(p, g, part, 23);
      Get16At(r, 22, g.fatSectors);
    }
  }

  lemma SameByte(a: seq<byte>, b: seq<byte>, hi: nat, i: nat)
    requires Kept(a, b, 0, hi) && i < hi
    ensures a[i] == b[i]
  {
    assert a[0..hi][i] == b[0..hi][i];
  }

  /** The boot sector alone decides what is read from it. */
  lemma BootSectorDecides(format: Format, a: seq<byte>, b: seq<byte>)
    requires Kept(a, b, 0, SECTOR)
    ensures ReadBoot(format, a) == ReadBoot(format, b)
  {
    forall i | 0 <= i < SECTOR ensures a[i] == b[i] { SameByte(a, b, SECTOR, i); }
  }

  // ---- the finished volume ----

  /** The stores of a finished volume, one after another. */
  lemma FinishParts(p: Params, g: Layout, d: Disk) returns (boot: seq<byte>, info: seq<byte>)
    requires Fits(p, g) && Sized(SpaceOf(p, g), d)
    ensures |d.part| >= SECTOR && boot == PutBoot(p, g, d.part)
    ensures p.format.TableBytes(|d.fat|) <= g.fatSectors * SECTOR
      && p.reserved * SECTOR + p.fats * (g.fatSectors * SECTOR) <= |info|
    ensures p.format.Fat16? ==> info == boot
    ensures p.format.Fat32? ==> && |boot| >= 2 * SECTOR && 2 <= d.next < U32 && d.next - 2 <= g.clusters < U32
                                && info == PutFsInfo(boot, g.clusters - (d.next - 2), d.next)
    ensures Finish(p, g, d) == PutCopies(info, TableBytes(p.format, d.fat), p.reserved * SECTOR, g.fatSectors * SECTOR,
      p.fats)
  {
    SpaceIsValid(p, g);
    FinishFits(p, g, d);
    boot := PutBoot(p, g, d.part);
    info := if p.format.Fat16? then boot else PutFsInfo(boot, g.clusters - (d.next - 2), d.next);
  }

  /** Roots and clusters are as the tree left them. */
  lemma FinishKeepsTree(p: Params, g: Layout, d: Disk)
    requires Fits(p, g) && Sized(SpaceOf(p, g), d) && p.reserved >= 1
    ensures Kept(d.part, Finish(p, g, d), SpaceOf(p, g).rootAt, SpaceOf(p, g).size)
  {
    var boot, info := FinishParts(p, g, d);
    var at, step := p.reserved * SECTOR, g.fatSectors * SECTOR;
    var lo := at + p.fats * step;
    TimesMono(0, p.fats, step);
    HeadKept(p, g, d, boot, info, lo);
    CopiesKept(info, TableBytes(p.format, d.fat), at, step, p.fats, lo, |info|);
  }

  lemma HeadKept(p: Params, g: Layout, d: Disk, boot: seq<byte>, info: seq<byte>, lo: nat)
    requires Fits(p, g) && SECTOR <= lo <= |d.part| && boot == PutBoot(p, g, d.part)
    requires p.format.Fat16? ==> info == boot
    requires p.format.Fat32? ==> && 2 * SECTOR <= lo && 2 <= d.next < U32 && d.next - 2 <= g.clusters < U32
                                 && info == PutFsInfo(boot, g.clusters - (d.next - 2), d.next)
    ensures Kept(d.part, info, lo, |d.part|)
  {
    BootKept(p, g, d.part, lo, |d.part|);
    if p.format.Fat32? { FsInfoKept(boot, g.clusters - (d.next - 2), d.next, lo, |d.part|); }
  }

  /** The boot sector is not overwritten as long as a sector is reserved for it. */
  lemma FinishKeepsBoot(p: Params, g: Layout, d: Disk)
    requires Fits(p, g) && Sized(SpaceOf(p, g), d) && p.reserved >= 1
    ensures |Finish(p, g, d)| >= SECTOR && ReadBoot(p.format, Finish(p, g, d)) == BootOf(p, g)
  {
    var boot, info := FinishParts(p, g, d);
    if p.format.Fat32? { FsInfoKept(boot, g.clusters - (d.next - 2), d.next, 0, SECTOR); }
    CopiesKept(info, TableBytes(p.format, d.fat), p.reserved * SECTOR, g.fatSectors * SECTOR, p.fats, 0, SECTOR);
    BootReads(p, g, d.part);
    BootSectorDecides(p.format, boot, Finish(p, g, d));
  }

  /** The volume a reader sees in a finished image. */
  function VolumeFor(p: Params, g: Layout, bytes: seq<byte>): Volume {
    var s, b := SpaceOf(p, g), BootOf(p, g);
    Volume(p.format, bytes, p.sectorsPerCluster, p.reserved * SECTOR, p.fats, g.fatSectors, s.rootAt,
           p.RootEntries(), s.dataAt, g.clusters, b.root, b.fsinfo * SECTOR)
  }

  lemma ClusterCount(sectors: nat, start: nat, unit: nat)
    requires start <= sectors && unit > 0
    ensures WholeClusters(sectors * SECTOR - start * SECTOR, unit) == (sectors - start) / unit
  {
    assert (sectors * SECTOR - start * SECTOR) / SECTOR == sectors - start;
  }

  lemma StartInBytes(reserved: nat, fats: nat, table: nat, root: nat)
    ensures (reserved + fats * table + root) * SECTOR == reserved * SECTOR + fats * (table * SECTOR) + root * SECTOR
  {
    assert fats * (table * SECTOR) == fats * table * SECTOR;
  }

  /** A finished volume opens when a sector is reserved for the boot sector and there is
      a table. */
  lemma FinishOpens(p: Params, g: Layout, d: Disk)
    requires Fits(p, g) && Sized(SpaceOf(p, g), d) && p.format.Admits(g.clusters) && p.reserved >= 1 && p.fats >= 1
    ensures var v := VolumeFor(p, g, Finish(p, g, d)); Open(p.format, Finish(p, g, d)) == Ok(v) && v.Valid()
  {
    var img := Finish(p, g, d);
    FinishKeepsBoot(p, g, d);
    GeometryOf(p, g, img);
    OpenIsValid(p.format, img);
  }

  lemma GeometryOf(p: Params, g: Layout, img: seq<byte>)
    requires Fits(p, g) && |img| == p.sectors * SECTOR && p.format.Admits(g.clusters) && p.reserved >= 1 && p.fats >= 1
    ensures Geometry(p.format, img, BootOf(p, g)) == Ok(VolumeFor(p, g, img))
  {
    var b, s := BootOf(p, g), SpaceOf(p, g);
    StartInBytes(p.reserved, p.fats, g.fatSectors, g.rootSectors);
    assert DataStart(p.format, b) == s.dataAt == g.dataStart * SECTOR;
    TimesMono(1, g.clusters, p.sectorsPerCluster);
    ClusterCount(p.sectors, g.dataStart, p.sectorsPerCluster);
  }
}
