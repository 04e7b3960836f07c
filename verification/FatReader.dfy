/** Reading a volume back: geometry, chains, directories and files, trusting no field. */
module FatReader {
  import opened Bytes
  import opened FatResult
  import opened FatLayout
  import opened FatNames

  /** A table entry: on FAT32 its low 28 bits. */
  function GetLink(format: Format, bytes: seq<byte>, at: nat): nat
    requires at + format.Width() <= |bytes|
  {
    if format.Fat16? then Get16(bytes, at) else Get32(bytes, at) % 0x1000_0000
  }

  /** A volume's bytes, with its geometry read from its boot sector. Positions are in bytes. */
  datatype Volume = Volume(
    format: Format,
    bytes: seq<byte>,
    clusterSectors: nat,
    fatStart: nat,
    fats: nat,
    fatSectors: nat,
    rootStart: nat,
    rootEntries: nat,
    dataStart: nat,
    clusters: nat,
    root: nat,
    fsinfo: nat)
  {
    function ClusterSize(): nat { clusterSectors * SECTOR }

    predicate InVolume(cluster: nat) { 2 <= cluster < clusters + 2 }

    /** What `Open` has checked: every region lies inside the bytes. */
    predicate Valid() {
      && clusterSectors > 0 && fats > 0 && fatSectors > 0
      && format.Admits(clusters)
      && format.TableBytes(clusters + 2) <= fatSectors * SECTOR
      && fatStart + fats * (fatSectors * SECTOR) <= rootStart
      && rootStart + rootEntries * ENTRY <= dataStart
      && dataStart + clusters * ClusterSize() <= |bytes|
      && (format.Fat32? ==> InVolume(root) && fsinfo + SECTOR <= fatStart)
    }

    function TableAt(copy: nat, cluster: nat): nat {
      fatStart + copy * (fatSectors * SECTOR) + format.TableBytes(cluster)
    }

    lemma TableInside(copy: nat, cluster: nat)
      requires Valid() && copy < fats && cluster < clusters + 2
      ensures TableAt(copy, cluster) + format.Width() <= fatStart + (copy + 1) * (fatSectors * SECTOR)
      ensures TableAt(copy, cluster) + format.Width() <= rootStart <= |bytes|
    {
      TimesMono(copy + 1, fats, fatSectors * SECTOR);
      assert (copy + 1) * (fatSectors * SECTOR) == copy * (fatSectors * SECTOR) + fatSectors * SECTOR;
    }

    /** The entry of `cluster` in a copy of the table. */
    function Table(copy: nat, cluster: nat): nat
      requires Valid() && copy < fats && cluster < clusters + 2
    {
      TableInside(copy, cluster);
      GetLink(format, bytes, TableAt(copy, cluster))
    }

    /** The cluster may stand in a chain: inside the volume, neither free nor bad. */
    predicate Usable(cluster: nat)
      requires Valid()
    {
      InVolume(cluster) && Table(0, cluster) != 0 && Table(0, cluster) != format.BadCluster()
    }

    predicate Ends(cluster: nat)
      requires Valid() && InVolume(cluster)
    {
      Table(0, cluster) >= format.ChainEnd()
    }

    function ClusterAt(cluster: nat): nat
      requires cluster >= 2
    {
      dataStart + (cluster - 2) * ClusterSize()
    }

    lemma ClusterInside(cluster: nat)
      requires Valid() && InVolume(cluster)
      ensures ClusterAt(cluster) + ClusterSize() <= |bytes|
    {
      TimesMono(cluster - 1, clusters, ClusterSize());
      assert (cluster - 1) * ClusterSize() == (cluster - 2) * ClusterSize() + ClusterSize();
    }

    function ClusterBytes(cluster: nat): (b: seq<byte>)
      requires Valid() && InVolume(cluster)
      ensures |b| == ClusterSize()
    {
      ClusterInside(cluster);
      bytes[ClusterAt(cluster)..ClusterAt(cluster) + ClusterSize()]
    }
  }

  lemma TimesMono(a: nat, b: nat, unit: nat)
    requires a <= b
    ensures a * unit <= b * unit
  {
  }

  /** The boot sector's fields that a reader uses. */
  datatype Boot = Boot(
    signature: nat, sectorSize: nat, clusterSectors: nat, reserved: nat, fats: nat,
    fixedRoot: nat, fatSectors: nat, total: nat, root: nat, fsinfo: nat)

  function ReadBoot(format: Format, bytes: seq<byte>): Boot
    requires |bytes| >= SECTOR
  {
    Boot(
      Get16(bytes, 510), Get16(bytes, 11), bytes[13], Get16(bytes, 14), bytes[16], Get16(bytes, 17),
      if format.Fat16? then Get16(bytes, 22) else Get32(bytes, 36),
      if format.Fat16? && Get16(bytes, 19) != 0 then Get16(bytes, 19) else Get32(bytes, 32),
      if format.Fat16? then 0 else Get32(bytes, 44) % 0x1000_0000,
      if format.Fat16? then 0 else Get16(bytes, 48))
  }

  /** Where the root would start: after the reserved region and every table. */
  function RootStart(b: Boot): nat { b.reserved * SECTOR + b.fats * (b.fatSectors * SECTOR) }

  function RootEntries(format: Format, b: Boot): nat { if format.Fat16? then b.fixedRoot else 0 }

  function DataStart(format: Format, b: Boot): nat {
    RootStart(b) + CeilDiv(RootEntries(format, b) * ENTRY, SECTOR) * SECTOR
  }

  /** Whole clusters in the bytes left for them. */
  function WholeClusters(room: nat, clusterSectors: nat): nat
    requires clusterSectors > 0
  {
    room / SECTOR / clusterSectors
  }

  function Geometry(format: Format, bytes: seq<byte>, b: Boot): Result<Volume> {
    if b.clusterSectors == 0 || b.reserved < (if format.Fat16? then 1 else 2) || b.fats == 0 || b.fatSectors == 0 then
      Err(ZeroField)
    else if format.Fat32? && b.fixedRoot != 0 then Err(FixedRoot)
    else if b.total * SECTOR > |bytes| || DataStart(format, b) >= b.total * SECTOR then Err(NoDataRegion)
    else
      var clusters := WholeClusters(b.total * SECTOR - DataStart(format, b), b.clusterSectors);
      if !format.Admits(clusters) then Err(WrongFormat)
      else if format.TableBytes(clusters + 2) > b.fatSectors * SECTOR then Err(TableTooSmall)
      else if format.Fat32? && (b.root < 2 || b.root >= clusters + 2) then Err(RootOutside)
      else if format.Fat32? && (b.fsinfo == 0 || b.fsinfo >= b.reserved) then Err(FsInfoOutside)
      else Ok(Volume(format, bytes, b.clusterSectors, b.reserved * SECTOR, b.fats, b.fatSectors, RootStart(b),
                     RootEntries(format, b), DataStart(format, b), clusters, b.root, b.fsinfo * SECTOR))
  }

  /** Read the boot sector and check that the geometry fits. */
  function Open(format: Format, bytes: seq<byte>): Result<Volume> {
    if |bytes| < SECTOR then Err(NoBootSector)
    else
      var b := ReadBoot(format, bytes);
      if b.signature != 0xAA55 then Err(NoBootSector)
      else if b.sectorSize != SECTOR then Err(SectorSize)
      else Geometry(format, bytes, b)
  }

  /** Whatever the bytes, an opened volume's regions are all inside them. */
  lemma OpenIsValid(format: Format, bytes: seq<byte>)
    requires Open(format, bytes).Ok?
    ensures Open(format, bytes).value.Valid()
    ensures Open(format, bytes).value.bytes == bytes && Open(format, bytes).value.format == format
  {
    GeometryIsValid(format, bytes, ReadBoot(format, bytes));
  }

  lemma GeometryIsValid(format: Format, bytes: seq<byte>, b: Boot)
    requires Geometry(format, bytes, b).Ok?
    ensures Geometry(format, bytes, b).value.Valid()
  {
    var v := Geometry(format, bytes, b).value;
    CeilDivBounds(RootEntries(format, b) * ENTRY, SECTOR);
    DataFits(b.total * SECTOR - v.dataStart, v.clusterSectors, v.clusters);
  }

  lemma DataFits(room: nat, unit: nat, clusters: nat)
    requires unit > 0 && clusters == room / SECTOR / unit
    ensures clusters * (unit * SECTOR) <= room
  {
    DivideDown(room, SECTOR);
    DivideDown(room / SECTOR, unit);
    assert clusters * (unit * SECTOR) == clusters * unit * SECTOR;
  }

  // ---- chains ----

  /** The chain from `cluster` by the first table, once `taken` clusters have been followed. */
  function ChainFrom(v: Volume, cluster: nat, taken: nat): Result<seq<nat>>
    requires v.Valid() && taken <= v.clusters
    decreases v.clusters - taken
  {
    if !v.InVolume(cluster) then Err(OutsideVolume)
    else if v.Table(0, cluster) == 0 then Err(FreeInChain)
    else if v.Table(0, cluster) == v.format.BadCluster() then Err(BadInChain)
    else if taken == v.clusters then Err(LoopingChain)
    else if v.Ends(cluster) then Ok([cluster])
    else
      var rest :- ChainFrom(v, v.Table(0, cluster), taken + 1);
      Ok([cluster] + rest)
  }

  function Chain(v: Volume, first: nat): Result<seq<nat>>
    requires v.Valid()
  {
    ChainFrom(v, first, 0)
  }

  /** A chain's outcome once `out` has been followed to where `rest` goes on. */
  function Onward(out: seq<nat>, rest: Result<seq<nat>>): Result<seq<nat>> {
    if rest.Ok? then Ok(out + rest.value) else rest
  }

  /** The loop of `chain`. */
  method FollowChain(v: Volume, first: nat) returns (r: Result<seq<nat>>)
    requires v.Valid()
    ensures r == Chain(v, first)
  {
    var out: seq<nat> := [];
    var cluster: nat := first;
    assert Onward([], Chain(v, first)) == Chain(v, first) by {
      if Chain(v, first).Ok? { assert [] + Chain(v, first).value == Chain(v, first).value; }
    }
    while true
      invariant |out| <= v.clusters
      invariant Chain(v, first) == Onward(out, ChainFrom(v, cluster, |out|))
      decreases v.clusters - |out|
    {
      if !v.InVolume(cluster) { return Err(OutsideVolume); }
      var value := v.Table(0, cluster);
      if value == 0 { return Err(FreeInChain); }
      if value == v.format.BadCluster() { return Err(BadInChain); }
      if |out| + 1 > v.clusters { return Err(LoopingChain); }
      if value >= v.format.ChainEnd() { return Ok(out + [cluster]); }
      OneMore(v, out, cluster);
      out := out + [cluster];
      cluster := value;
    }
  }

  lemma OneMore(v: Volume, out: seq<nat>, cluster: nat)
    requires v.Valid() && |out| < v.clusters && v.Usable(cluster) && !v.Ends(cluster)
    ensures Onward(out, ChainFrom(v, cluster, |out|)) ==
            Onward(out + [cluster], ChainFrom(v, v.Table(0, cluster), |out| + 1))
  {
    var rest := ChainFrom(v, v.Table(0, cluster), |out| + 1);
    if rest.Ok? { assert out + ([cluster] + rest.value) == out + [cluster] + rest.value; }
  }

  /** Consecutive links of the first table through usable clusters. */
  predicate Linked(v: Volume, s: seq<nat>)
    requires v.Valid()
  {
    && s != []
    && (forall i | 0 <= i < |s| :: v.Usable(s[i]))
    && (forall i | 0 <= i < |s| - 1 :: !v.Ends(s[i]) && s[i + 1] == v.Table(0, s[i]))
  }

  /** A whole chain: linked clusters, the last of which carries an end mark. */
  predicate IsChain(v: Volume, s: seq<nat>)
    requires v.Valid()
  {
    Linked(v, s) && v.Ends(s[|s| - 1])
  }

  predicate Distinct(s: seq<nat>) { forall i, j | 0 <= i < j < |s| :: s[i] != s[j] }

  /** The clusters from `lo` up to, not including, `hi`. */
  function Range(lo: nat, hi: nat): (s: set<nat>)
    requires lo <= hi
    ensures forall c :: c in s <==> lo <= c < hi
    ensures |s| == hi - lo
    decreases hi - lo
  {
    if lo == hi then {} else Range(lo, hi - 1) + {hi - 1}
  }

  function Clusters(v: Volume): set<nat> { Range(2, v.clusters + 2) }

  lemma {:induction false} DistinctIsSmall(s: seq<nat>, within: set<nat>)
    requires Distinct(s) && forall c | c in s :: c in within
    ensures |s| <= |within|
    decreases |s|
  {
    if s != [] {
      forall c | c in s[1..] ensures c in within - {s[0]} {
        var i :| 0 <= i < |s[1..]| && s[1..][i] == c;
        assert s[i + 1] == c;
      }
      DistinctIsSmall(s[1..], within - {s[0]});
    }
  }

  /** A chain never meets the same cluster twice: it would go on from there for ever. */
  lemma {:induction false} ChainIsDistinct(v: Volume, s: seq<nat>)
    requires v.Valid() && IsChain(v, s)
    ensures Distinct(s)
  {
    forall i, j | 0 <= i < j < |s| ensures s[i] != s[j] {
      if s[i] == s[j] {
        SameOnward(v, s, i, j, |s| - 1 - j);
      }
    }
  }

  lemma {:induction false} SameOnward(v: Volume, s: seq<nat>, i: nat, j: nat, k: nat)
    requires v.Valid() && Linked(v, s) && i < j && j + k < |s| && s[i] == s[j]
    ensures s[i + k] == s[j + k]
    decreases k
  {
    if k > 0 {
      SameOnward(v, s, i, j, k - 1);
      assert s[i + (k - 1) + 1] == v.Table(0, s[i + (k - 1)]);
    }
  }

  lemma {:induction false} OkIsChain(v: Volume, cluster: nat, taken: nat)
    requires v.Valid() && taken <= v.clusters && ChainFrom(v, cluster, taken).Ok?
    ensures var s := ChainFrom(v, cluster, taken).value;
      IsChain(v, s) && s[0] == cluster
    decreases v.clusters - taken
  {
    if !v.Ends(cluster) {
      OkIsChain(v, v.Table(0, cluster), taken + 1);
    }
  }

  lemma {:induction false} ChainIsOk(v: Volume, s: seq<nat>, taken: nat)
    requires v.Valid() && IsChain(v, s) && taken + |s| <= v.clusters
    ensures ChainFrom(v, s[0], taken) == Ok(s)
    decreases |s|
  {
    if |s| > 1 {
      ChainIsOk(v, s[1..], taken + 1);
      assert s == [s[0]] + s[1..];
    } else {
      assert s == [s[0]];
    }
  }

  /** Following a chain succeeds exactly when the links reach an end mark through usable
      clusters, and gives those clusters, each once. */
  lemma ChainExact(v: Volume, first: nat, s: seq<nat>)
    requires v.Valid()
    ensures Chain(v, first) == Ok(s) <==> IsChain(v, s) && s[0] == first
    ensures Chain(v, first) == Ok(s) ==> Distinct(s) && |s| <= v.clusters
  {
    if Chain(v, first) == Ok(s) {
      OkIsChain(v, first, 0);
    }
    if IsChain(v, s) && s[0] == first {
      ChainIsDistinct(v, s);
      DistinctIsSmall(s, Clusters(v));
      ChainIsOk(v, s, 0);
    }
  }

  /** Links from `first` that come back to a cluster already passed. */
  ghost predicate Loops(v: Volume, first: nat)
    requires v.Valid()
  {
    exists s: seq<nat> :: Linked(v, s) && s[0] == first && !Distinct(s)
  }

  lemma {:induction false} LoopingHasPath(v: Volume, cluster: nat, taken: nat) returns (s: seq<nat>)
    requires v.Valid() && taken <= v.clusters && ChainFrom(v, cluster, taken) == Err(LoopingChain)
    ensures Linked(v, s) && s[0] == cluster && |s| == v.clusters - taken + 1
    decreases v.clusters - taken
  {
    s := [cluster];
    if taken < v.clusters {
      var t := LoopingHasPath(v, v.Table(0, cluster), taken + 1);
      s := [cluster] + t;
    }
  }

  lemma {:induction false} PathIsLooping(v: Volume, s: seq<nat>, taken: nat)
    requires v.Valid() && taken <= v.clusters && Linked(v, s) && |s| == v.clusters - taken + 1
    ensures ChainFrom(v, s[0], taken) == Err(LoopingChain)
    decreases |s|
  {
    if |s| > 1 {
      PathIsLooping(v, s[1..], taken + 1);
    }
  }

  /** Going round a loop gives linked paths of every length. */
  lemma {:induction false} LoopUnrolls(v: Volume, s: seq<nat>, i: nat, j: nat, n: nat) returns (t: seq<nat>)
    requires v.Valid() && Linked(v, s) && i < j < |s| && s[i] == s[j] && n > 0
    ensures Linked(v, t) && t[0] == s[0] && |t| == n
    decreases n
  {
    var at: nat;
    t, at := UnrollTo(v, s, i, j, n);
  }

  lemma {:induction false} UnrollTo(v: Volume, s: seq<nat>, i: nat, j: nat, n: nat) returns (t: seq<nat>, at: nat)
    requires v.Valid() && Linked(v, s) && i < j < |s| && s[i] == s[j] && n > 0
    ensures Linked(v, t) && t[0] == s[0] && |t| == n
    ensures at < j && t[n - 1] == s[at]
    decreases n
  {
    if n == 1 {
      t, at := [s[0]], 0;
    } else {
      t, at := UnrollTo(v, s, i, j, n - 1);
      t := t + [s[at + 1]];
      at := if at + 1 == j then i else at + 1;
    }
  }

  /** A loop is reported exactly when there is one: the pigeonhole on the cluster count. */
  lemma LoopExact(v: Volume, first: nat)
    requires v.Valid()
    ensures Chain(v, first) == Err(LoopingChain) <==> Loops(v, first)
  {
    if Chain(v, first) == Err(LoopingChain) {
      var s := LoopingHasPath(v, first, 0);
      if Distinct(s) { DistinctIsSmall(s, Clusters(v)); }
      assert Loops(v, first);
    }
    if Loops(v, first) {
      var s: seq<nat> :| Linked(v, s) && s[0] == first && !Distinct(s);
      var i, j :| 0 <= i < j < |s| && s[i] == s[j];
      var t := LoopUnrolls(v, s, i, j, v.clusters + 1);
      PathIsLooping(v, t, 0);
    }
  }
}
