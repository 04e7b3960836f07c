/** The shape of a FAT16 or FAT32 volume and the layout solved from it. */
module FatLayout {
  import opened Bytes
  import opened FatResult

  type u8 = byte
  type u16 = x: int | 0 <= x < U16
  type u32 = x: int | 0 <= x < U32

  /** An eleven-byte volume label. */
  type Label = s: seq<byte> | |s| == 11 witness Zeros(11)

  const SECTOR: nat := 512
  const ENTRY: nat := 32

  /** The two formats, and the numbers in which they differ. */
  datatype Format = Fat16 | Fat32 {
    /** Bytes of one table entry. */
    function Width(): nat { if Fat16? then 2 else 4 }

    /** Bytes of `n` table entries. */
    function TableBytes(n: nat): nat { if Fat16? then 2 * n else 4 * n }

    /** What the writer ends a chain with. */
    function EndMark(): nat { if Fat16? then 0xFFFF else 0x0FFF_FFFF }

    /** The least value a reader takes as the end of a chain. */
    function ChainEnd(): nat { if Fat16? then 0xFFF8 else 0x0FFF_FFF8 }

    function BadCluster(): nat { if Fat16? then 0xFFF7 else 0x0FFF_FFF7 }

    /** The cluster counts that make a volume this format: its type is its cluster count and
        nothing else (Microsoft FAT32 File System Specification, "FAT Type Determination"). */
    predicate Admits(clusters: nat) {
      if Fat16? then 4085 <= clusters < 65525 else 65525 <= clusters
    }

    /** The largest table size the writer's loop can count to. */
    function MaxTable(): nat { if Fat16? then 0xFFFF else 0xFFFF_FFFF }
  }

  datatype Params = Params(
    format: Format,
    sectors: u32,
    sectorsPerCluster: u8,
    reserved: u16,
    fats: u8,
    fixedRoot: u16,
    hidden: u32,
    volumeLabel: Label,
    volumeId: u32)
  {
    /** FAT32 has no fixed root directory. */
    function RootEntries(): nat { if format.Fat16? then fixedRoot else 0 }

    function RootSectors(): nat { CeilDiv(RootEntries() * ENTRY, SECTOR) }

    /** Bytes in one cluster. */
    function ClusterSize(): nat { sectorsPerCluster * SECTOR }

    /** The sector cluster 2 starts at when each table takes `table` sectors. */
    function DataStart(table: nat): nat { reserved + fats * table + RootSectors() }

    function ClustersLeft(table: nat): nat
      requires sectorsPerCluster > 0
    {
      (if sectors >= DataStart(table) then sectors - DataStart(table) else 0) / sectorsPerCluster
    }

    /** A table of this size has an entry for every cluster left over after it, and the two
        reserved ones. */
    predicate Covers(table: nat)
      requires sectorsPerCluster > 0
    {
      (if format.Fat16? then table * SECTOR / 2 else table * SECTOR / 4) >= ClustersLeft(table) + 2
    }

    /** A 32-bit product or sum of the loop leaves its range. */
    predicate Overflows(table: nat)
      requires sectorsPerCluster > 0
    {
      DataStart(table) >= U32 || table * SECTOR >= U32 || ClustersLeft(table) + 2 >= U32
    }
  }

  datatype Layout = Layout(fatSectors: nat, rootSectors: nat, dataStart: nat, clusters: nat)

  function LayoutAt(p: Params, table: nat): Layout
    requires p.sectorsPerCluster > 0
  {
    Layout(table, p.RootSectors(), p.DataStart(table), p.ClustersLeft(table))
  }

  /** The search for a table size, from `table` up. */
  function LayoutFrom(p: Params, table: nat): Result<Layout>
    requires p.sectorsPerCluster > 0 && table <= p.format.MaxTable()
    decreases p.format.MaxTable() - table
  {
    if p.Overflows(table) then Err(Overflow)
    else if p.Covers(table) then
      if p.format.Admits(p.ClustersLeft(table)) then Ok(LayoutAt(p, table)) else Err(WrongFormat)
    else if table == p.format.MaxTable() then Err(NoTable)
    else LayoutFrom(p, table + 1)
  }

  function LayoutOf(p: Params): Result<Layout>
    requires p.sectorsPerCluster > 0
  {
    if p.format.Fat32? && p.reserved < 2 then Err(NoFsInfoRoom) else LayoutFrom(p, 1)
  }

  method SolveLayout(p: Params) returns (r: Result<Layout>)
    requires p.sectorsPerCluster > 0
    ensures r == LayoutOf(p)
  {
    if p.format.Fat32? && p.reserved < 2 { return Err(NoFsInfoRoom); }
    var table := 1;
    while true
      invariant 1 <= table <= p.format.MaxTable()
      invariant LayoutFrom(p, 1) == LayoutFrom(p, table)
      decreases p.format.MaxTable() - table
    {
      if p.Overflows(table) { return Err(Overflow); }
      if p.Covers(table) {
        if !p.format.Admits(p.ClustersLeft(table)) { return Err(WrongFormat); }
        return Ok(LayoutAt(p, table));
      }
      if table == p.format.MaxTable() { return Err(NoTable); }
      table := table + 1;
    }
  }

  /** `table` is the least size from `from` up that covers the clusters it leaves. */
  ghost predicate Least(p: Params, from: nat, table: nat)
    requires p.sectorsPerCluster > 0
  {
    from <= table && p.Covers(table) && forall t | from <= t < table :: !p.Covers(t)
  }

  lemma {:induction false} SearchFindsLeast(p: Params, table: nat)
    requires p.sectorsPerCluster > 0 && table <= p.format.MaxTable()
    ensures var r := LayoutFrom(p, table);
      && (r.Ok? ==> && Least(p, table, r.value.fatSectors)
                    && r.value.fatSectors <= p.format.MaxTable()
                    && r.value == LayoutAt(p, r.value.fatSectors)
                    && p.format.Admits(r.value.clusters)
                    && !p.Overflows(r.value.fatSectors))
      && (r == Err(WrongFormat) ==> exists t :: Least(p, table, t) && !p.format.Admits(p.ClustersLeft(t)))
      && (r == Err(NoTable) ==> forall t | table <= t <= p.format.MaxTable() :: !p.Covers(t))
    decreases p.format.MaxTable() - table
  {
    if !p.Overflows(table) {
      if p.Covers(table) {
        assert Least(p, table, table);
      } else if table < p.format.MaxTable() {
        SearchFindsLeast(p, table + 1);
        var r := LayoutFrom(p, table + 1);
        if r == Err(WrongFormat) {
          var t :| Least(p, table + 1, t) && !p.format.Admits(p.ClustersLeft(t));
          assert Least(p, table, t);
        }
      }
    }
  }

  lemma DivideDown(n: nat, unit: nat)
    requires unit > 0
    ensures n / unit * unit <= n
  {
  }

  /** What a solved layout promises: the least covering table, a cluster count of the format,
      and regions that follow one another inside the volume. */
  lemma LayoutIsLeastAndFits(p: Params)
    requires p.sectorsPerCluster > 0 && LayoutOf(p).Ok?
    ensures var g := LayoutOf(p).value;
      && Least(p, 1, g.fatSectors)
      && p.format.Admits(g.clusters)
      && Fits(p, g)
  {
    SearchFindsLeast(p, 1);
    var g := LayoutOf(p).value;
    CoveringFits(p, g);
  }

  /** The boot sector and the rest of the reserved region, the tables, the fixed root and the
      clusters follow one another, each inside the space it has. */
  predicate Fits(p: Params, g: Layout) {
    && p.sectorsPerCluster > 0
    && 0 < g.fatSectors <= p.format.MaxTable()
    && p.format.TableBytes(g.clusters + 2) <= g.fatSectors * SECTOR
    && g.dataStart == p.reserved + p.fats * g.fatSectors + g.rootSectors
    && g.rootSectors == p.RootSectors()
    && g.dataStart + g.clusters * p.sectorsPerCluster <= p.sectors
    && g.clusters == (p.sectors - g.dataStart) / p.sectorsPerCluster
    && (p.format.Fat32? ==> p.reserved >= 2)
    && 0 < g.clusters && g.clusters + 2 < U32 && (p.format.Fat16? ==> g.clusters + 2 < U16)
  }

  lemma CoveringFits(p: Params, g: Layout)
    requires p.sectorsPerCluster > 0 && g == LayoutAt(p, g.fatSectors) && g.clusters > 0
    requires p.Covers(g.fatSectors) && 0 < g.fatSectors <= p.format.MaxTable()
    requires p.format.Admits(g.clusters) && !p.Overflows(g.fatSectors)
    requires p.format.Fat32? ==> p.reserved >= 2
    ensures Fits(p, g)
  {
    assert p.sectors >= g.dataStart;
    DivideDown(p.sectors - g.dataStart, p.sectorsPerCluster);
  }
}
