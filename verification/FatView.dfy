/** What a reader sees of the tree a writer stored. */
module FatView {
  import opened Bytes
  import opened FatResult
  import opened FatLayout
  import opened FatWriter
  import opened FatStored
  import opened FatContents
  import opened FatImage
  import opened FatReader
  import opened FatOpened

  /** One past the largest value a table entry reads as. */
  function Modulus(format: Format): nat { if format.Fat16? then U16 else 0x1000_0000 }

  /** The volume's geometry is the space's, its clusters hold what the disk holds, and every copy
      of its table says what the disk's says. */
  ghost predicate Shows(v: Volume, s: Space, d: Disk) {
    && v.Valid() && s.Valid() && Sized(s, d)
    && v.format == s.format && v.ClusterSize() == s.unit && v.clusters + 2 == s.limit
    && v.dataStart == s.dataAt && v.rootStart == s.rootAt && v.rootEntries == s.rootEntries
    && |v.bytes| == s.size && (s.format.Fat32? ==> v.root == 2)
    && Kept(d.part, v.bytes, s.rootAt, s.size)
    && TablesShow(v, d.fat)
  }

  ghost predicate TablesShow(v: Volume, fat: seq<nat>)
    requires v.Valid()
  {
    && |fat| == v.clusters + 2
    && forall copy, c | 0 <= copy < v.fats && 0 <= c < |fat| :: v.Table(copy, c) == fat[c] % Modulus(v.format)
  }

  lemma {:induction false} TableConcat(format: Format, a: seq<nat>, b: seq<nat>)
    ensures TableBytes(format, a + b) == TableBytes(format, a) + TableBytes(format, b)
    decreases |a|
  {
    if a == [] {
      assert a + b == b;
    } else {
      TableConcat(format, a[1..], b);
      assert (a + b)[1..] == a[1..] + b;
    }
  }

  lemma ConcatAt(a: seq<byte>, x: seq<byte>, b: seq<byte>)
    ensures At(a + (x + b), |a|, x)
  {
  }

  lemma TableBytesAt(format: Format, fat: seq<nat>, c: nat, pos: nat)
    requires c < |fat| && pos == format.TableBytes(c)
    ensures At(TableBytes(format, fat), pos, LinkBytes(format, fat[c]))
  {
    var before, after := fat[..c], fat[c..];
    assert fat == before + after && after[0] == fat[c];
    TableConcat(format, before, after);
    ConcatAt(TableBytes(format, before), LinkBytes(format, fat[c]), TableBytes(format, after[1..]));
  }

  lemma AtWithin(b: seq<byte>, at: nat, raw: seq<byte>, lo: nat, part: seq<byte>)
    requires At(b, at, raw) && At(raw, lo, part)
    ensures At(b, at + lo, part)
  {
    SliceOfSlice(b, at, at + |raw|, at + lo, at + lo + |part|);
  }

  lemma LinkReads(format: Format, b: seq<byte>, at: nat, v: nat)
    requires At(b, at, LinkBytes(format, v))
    ensures GetLink(format, b, at) == v % Modulus(format)
  {
    if format.Fat16? {
      var x := b[at..at + 2];
      assert x[0] == b[at] && x[1] == b[at + 1];
      Get16At(b, at, v % U16);
    } else {
      Get32Slice(b, at, v % U32);
      Low28(v);
    }
  }

  lemma Low28(v: nat)
    ensures v % U32 % 0x1000_0000 == v % 0x1000_0000
  {
  }

  lemma EntryReads(format: Format, b: seq<byte>, base: nat, fat: seq<nat>, c: nat, pos: nat)
    requires c < |fat| && pos == format.TableBytes(c) && At(b, base, TableBytes(format, fat))
    ensures base + pos + format.Width() <= |b|
    ensures GetLink(format, b, base + pos) == fat[c] % Modulus(format)
  {
    TableBytesAt(format, fat, c, pos);
    AtWithin(b, base, TableBytes(format, fat), pos, LinkBytes(format, fat[c]));
    LinkReads(format, b, base + pos, fat[c]);
  }

  lemma TableReads(v: Volume, fat: seq<nat>, copy: nat, c: nat, base: nat, pos: nat)
    requires v.Valid() && pos == v.format.TableBytes(c) && copy < v.fats && |fat| == v.clusters + 2 && c < |fat|
    requires base == v.fatStart + copy * (v.fatSectors * SECTOR) && At(v.bytes, base, TableBytes(v.format, fat))
    ensures v.Table(copy, c) == fat[c] % Modulus(v.format)
  {
    EntryReads(v.format, v.bytes, base, fat, c, pos);
  }

  /** A finished volume shows the disk it was finished from. */
  lemma FinishShows(p: Params, g: Layout, d: Disk)
    requires Fits(p, g) && Sized(SpaceOf(p, g), d) && p.format.Admits(g.clusters) && p.reserved >= 1 && p.fats >= 1
    ensures Shows(VolumeFor(p, g, Finish(p, g, d)), SpaceOf(p, g), d)
  {
    var v := VolumeFor(p, g, Finish(p, g, d));
    FinishOpens(p, g, d);
    SpaceIsValid(p, g);
    FinishKeepsTree(p, g, d);
    FinishTables(p, g, d, v);
  }

  lemma FinishTables(p: Params, g: Layout, d: Disk, v: Volume)
    requires Fits(p, g) && Sized(SpaceOf(p, g), d) && v == VolumeFor(p, g, Finish(p, g, d)) && v.Valid()
    ensures TablesShow(v, d.fat)
  {
    var boot, info := FinishParts(p, g, d);
    var raw := TableBytes(p.format, d.fat);
    forall copy, c | 0 <= copy < v.fats && 0 <= c < |d.fat|
      ensures v.Table(copy, c) == d.fat[c] % Modulus(v.format)
    {
      CopyReads(info, raw, p.reserved * SECTOR, g.fatSectors * SECTOR, p.fats, copy);
      TableReads(v, d.fat, copy, c, v.TableAt(copy, 0), p.format.TableBytes(c));
    }
  }

  // ---- chains ----

  /** Clusters from `first` on, in order. */
  function Consecutive(first: nat, n: nat): (r: seq<nat>)
    ensures |r| == n && forall i | 0 <= i < n :: r[i] == first + i
  {
    seq(n, (i: nat) requires i < n => first + i)
  }

  lemma RunLink(s: Space, fat: seq<nat>, first: nat, n: nat, c: nat)
    requires Run(s, fat, first, n) && first <= c < first + n
    ensures fat[c] == LinkOf(s, c, first + n)
  {
    assert fat[first..first + n][c - first] == Links(s, first, n)[c - first];
  }

  /** The clusters taken have numbers below the marks of the format. */
  predicate Addressable(s: Space, d: Disk) { d.next <= s.format.BadCluster() }

  lemma ModSmall(x: nat, m: nat)
    requires x < m
    ensures x % m == x
  {
  }

  lemma LinkInRange(s: Space, c: nat, end: nat)
    requires 2 <= c < end <= s.format.BadCluster()
    ensures var link := LinkOf(s, c, end);
      && 0 < link < Modulus(s.format) && link != s.format.BadCluster()
      && (link >= s.format.ChainEnd() <==> c + 1 == end)
      && (c + 1 < end ==> link == c + 1)
  {
  }

  lemma RunReads(v: Volume, s: Space, fat: seq<nat>, first: nat, n: nat, c: nat)
    requires v.Valid() && s.Valid() && v.format == s.format && v.clusters + 2 == s.limit && TablesShow(v, fat)
    requires Run(s, fat, first, n) && 2 <= first <= c < first + n <= s.limit && first + n <= s.format.BadCluster()
    ensures v.Table(0, c) == LinkOf(s, c, first + n)
  {
    RunLink(s, fat, first, n, c);
    LinkInRange(s, c, first + n);
    ModSmall(fat[c], Modulus(v.format));
  }

  /** A cluster of a linked run is usable, and leads to the next one unless it is the last. */
  lemma RunStep(v: Volume, s: Space, d: Disk, first: nat, n: nat, c: nat)
    requires Shows(v, s, d) && Addressable(s, d) && Run(s, d.fat, first, n) && 2 <= first <= c < first + n <= d.next
    ensures v.Usable(c) && (v.Ends(c) <==> c + 1 == first + n) && (c + 1 < first + n ==> v.Table(0, c) == c + 1)
  {
    hide Run, TablesShow, Volume.Valid, Space.Valid, Volume.Table, LinkOf;
    RunReads(v, s, d.fat, first, n, c);
    LinkInRange(s, c, first + n);
  }

  /** A linked run reads back as the chain of its clusters. */
  lemma RunIsChain(v: Volume, s: Space, d: Disk, first: nat, n: nat)
    requires Shows(v, s, d) && Addressable(s, d) && Run(s, d.fat, first, n) && 2 <= first && 1 <= n
      && first + n <= d.next
    ensures Chain(v, first) == Ok(Consecutive(first, n))
  {
    hide Run, TablesShow, Space.Valid, Volume.Table, Volume.Ends, Addressable, Chain;
    var chain := Consecutive(first, n);
    forall i | 0 <= i < n
      ensures v.Usable(chain[i]) && (v.Ends(chain[i]) <==> i == n - 1)
        && (i < n - 1 ==> chain[i + 1] == v.Table(0, chain[i]))
    {
      RunStep(v, s, d, first, n, first + i);
    }
    ChainExact(v, first, chain);
  }
}
