/** The finished volume: boot sector, FSInfo and table copies around the stored tree. */
module FatImage {
  import opened Bytes
  import opened FatResult
  import opened FatLayout
  import opened FatTree
  import opened FatWriter

  /** The space a solved layout leaves. */
  function SpaceOf(p: Params, g: Layout): Space {
    Space(p.format, p.sectorsPerCluster * SECTOR, g.clusters + 2,
          p.reserved * SECTOR + p.fats * (g.fatSectors * SECTOR), p.RootEntries(),
          p.reserved * SECTOR + p.fats * (g.fatSectors * SECTOR) + g.rootSectors * SECTOR,
          p.sectors * SECTOR, p.volumeLabel)
  }

  /** Sectors in bytes. */
  lemma InBytes(reserved: nat, fats: nat, table: nat, root: nat, clusters: nat, unit: nat, sectors: nat)
    requires reserved + fats * table + root + clusters * unit <= sectors
    ensures reserved * SECTOR + fats * (table * SECTOR) + root * SECTOR + clusters * (unit * SECTOR) <= sectors * SECTOR
  {
    assert fats * (table * SECTOR) == fats * table * SECTOR;
    assert clusters * (unit * SECTOR) == clusters * unit * SECTOR;
  }

  lemma SpaceIsValid(p: Params, g: Layout)
    requires Fits(p, g)
    ensures SpaceOf(p, g).Valid()
  {
    var s := SpaceOf(p, g);
    InBytes(p.reserved, p.fats, g.fatSectors, g.rootSectors, g.clusters, p.sectorsPerCluster, p.sectors);
    s.OffStep(2, g.clusters);
    CeilDivBounds(p.RootEntries() * ENTRY, SECTOR);
  }

  // ---- the boot sector ----

  const OEM: seq<byte> := [75, 73, 78, 84, 65, 78, 69, 32]
  const FAT16_TEXT: seq<byte> := [70, 65, 84, 49, 54, 32, 32, 32]
  const FAT32_TEXT: seq<byte> := [70, 65, 84, 51, 50, 32, 32, 32]

  /** Byte `i` of the fields both formats share, the first 36 bytes. */
  function CommonByte(p: Params, g: Layout, i: nat): byte
    requires Fits(p, g) && i < 36
  {
    if i == 0 then 0xEB else if i == 1 then (if p.format.Fat16? then 0x3C else 0x58) else if i == 2 then 0x90
    else if i < 11 then OEM[i - 3]
    else if i < 13 then Le16(SECTOR)[i - 11]
    else if i == 13 then p.sectorsPerCluster
    else if i < 16 then Le16(p.reserved)[i - 14]
    else if i == 16 then p.fats
    else if i < 19 then Le16(p.RootEntries())[i - 17]
    else if i < 21 then 0
    else if i == 21 then 0xF8
    else if i < 24 then (if p.format.Fat16? then Le16(g.fatSectors)[i - 22] else 0)
    else if i < 26 then Le16(63)[i - 24]
    else if i < 28 then Le16(255)[i - 26]
    else if i < 32 then Le32(p.hidden)[i - 28]
    else Le32(p.sectors)[i - 32]
  }

  /** The fields behind them, the drive number and what follows it. */
  function TailByte(p: Params, text: seq<byte>, i: nat): byte
    requires |text| == 8 && i < 26
  {
    if i == 0 then 0x80 else if i == 1 then 0 else if i == 2 then 0x29
    else if i < 7 then Le32(p.volumeId)[i - 3]
    else if i < 18 then p.volumeLabel[i - 7]
    else text[i - 18]
  }

  function Fat32Byte(g: Layout, i: nat): byte
    requires g.fatSectors < U32 && 36 <= i < 64
  {
    if i < 40 then Le32(g.fatSectors)[i - 36]
    else if i < 44 then 0
    else if i < 48 then Le32(ROOT_CLUSTER)[i - 44]
    else if i < 50 then Le16(FSINFO_SECTOR)[i - 48]
    else if i < 52 then Le16(6)[i - 50]
    else 0
  }

  const ROOT_CLUSTER: nat := 2
  const FSINFO_SECTOR: nat := 1

  function HeaderByte(p: Params, g: Layout, i: nat): byte
    requires Fits(p, g) && i < HeaderSize(p)
  {
    if i < 36 then CommonByte(p, g, i)
    else if p.format.Fat16? then TailByte(p, FAT16_TEXT, i - 36)
    else if i < 64 then Fat32Byte(g, i)
    else TailByte(p, FAT32_TEXT, i - 64)
  }

  function HeaderSize(p: Params): nat { if p.format.Fat16? then 62 else 90 }

  function Header(p: Params, g: Layout): (h: seq<byte>)
    requires Fits(p, g)
    ensures |h| == HeaderSize(p)
    ensures forall i | 0 <= i < |h| :: h[i] == HeaderByte(p, g, i)
  {
    seq(HeaderSize(p), i requires 0 <= i < HeaderSize(p) => HeaderByte(p, g, i))
  }

  function PutBoot(p: Params, g: Layout, part: seq<byte>): (r: seq<byte>)
    requires Fits(p, g) && |part| >= SECTOR
    ensures |r| == |part|
  {
    Splice(Splice(part, 0, Header(p, g)), 510, [0x55, 0xAA])
  }

  /** FSInfo, in the sector after the boot sector. */
  function PutFsInfo(part: seq<byte>, free: nat, next: nat): (r: seq<byte>)
    requires |part| >= 2 * SECTOR && free < U32 && next < U32
    ensures |r| == |part|
  {
    var a := Splice(part, SECTOR, Le32(0x4161_5252));
    var b := Splice(a, SECTOR + 484, Le32(0x6141_7272) + Le32(free) + Le32(next));
    Splice(b, SECTOR + 508, Le32(0xAA55_0000))
  }

  // ---- the tables ----

  /** One table entry as it is stored. */
  function LinkBytes(format: Format, v: nat): (b: seq<byte>)
    ensures |b| == format.Width()
  {
    if format.Fat16? then Le16(v % U16) else Le32(v % U32)
  }

  function TableBytes(format: Format, fat: seq<nat>): (b: seq<byte>)
    ensures |b| == format.TableBytes(|fat|)
  {
    if fat == [] then [] else LinkBytes(format, fat[0]) + TableBytes(format, fat[1..])
  }

  /** `n` copies of `raw` from `at` on, `step` apart. */
  function PutCopies(part: seq<byte>, raw: seq<byte>, at: nat, step: nat, n: nat): (r: seq<byte>)
    requires |raw| <= step && at + n * step <= |part|
    ensures |r| == |part|
  {
    if n == 0 then part
    else
      CopyFits(at, step, n);
      Splice(PutCopies(part, raw, at, step, n - 1), at + (n - 1) * step, raw)
  }

  lemma CopyFits(at: nat, step: nat, n: nat)
    requires n > 0
    ensures at + (n - 1) * step + step == at + n * step
  {
  }

  /** Everything that goes around the stored tree. */
  function Finish(p: Params, g: Layout, d: Disk): (r: seq<byte>)
    requires Fits(p, g) && Sized(SpaceOf(p, g), d)
    ensures |r| == |d.part|
  {
    SpaceIsValid(p, g);
    FinishFits(p, g, d);
    var boot := PutBoot(p, g, d.part);
    var info := if p.format.Fat16? then boot else PutFsInfo(boot, g.clusters - (d.next - ROOT_CLUSTER), d.next);
    PutCopies(info, TableBytes(p.format, d.fat), p.reserved * SECTOR, g.fatSectors * SECTOR, p.fats)
  }

  lemma FinishFits(p: Params, g: Layout, d: Disk)
    requires Fits(p, g) && Sized(SpaceOf(p, g), d)
    ensures |d.part| >= SECTOR && (p.format.Fat32? ==> |d.part| >= 2 * SECTOR)
    ensures p.format.TableBytes(|d.fat|) <= g.fatSectors * SECTOR
    ensures p.reserved * SECTOR + p.fats * (g.fatSectors * SECTOR) <= |d.part|
    ensures d.next - ROOT_CLUSTER <= g.clusters && d.next < U32
  {
    var s := SpaceOf(p, g);
    SpaceIsValid(p, g);
    s.OffMono(2, s.limit);
    assert p.sectors >= g.dataStart + g.clusters * p.sectorsPerCluster;
    assert g.clusters * p.sectorsPerCluster >= 1;
  }

  // ---- the whole of `volume` ----

  /** The disk before anything is placed: blank, with the table's two reserved entries. */
  function BlankDisk(s: Space): (d: Disk)
    requires s.Valid()
    ensures Sized(s, d)
  {
    Disk(Zeros(s.size), [MediaMark(s.format), s.format.EndMark()] + NoLinks(s.limit - 2), 2)
  }

  function MediaMark(format: Format): nat { if format.Fat16? then 0xFFF8 else 0x0FFF_FFF8 }

  function NoLinks(n: nat): (r: seq<nat>)
    ensures |r| == n && forall i | 0 <= i < n :: r[i] == 0
  {
    seq(n, _ => 0)
  }
}
