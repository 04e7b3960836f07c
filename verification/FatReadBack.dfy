/** Stored files and directories read back as what was stored. */
module FatReadBack {
  import opened Bytes
  import opened Optional
  import opened FatResult
  import opened FatLayout
  import opened FatNames
  import opened FatWriter
  import opened FatStored
  import opened FatContents
  import opened FatReader
  import opened FatFiles
  import opened FatOpened
  import opened FatView

  // ---- chains of bytes ----

  lemma ClusterStands(v: Volume, s: Space, c: nat)
    requires v.ClusterSize() == s.unit && v.dataStart == s.dataAt && c >= 2
    ensures v.ClusterAt(c) == s.Off(c) && s.Off(c + 1) == s.Off(c) + s.unit
  {
    s.OffStep(2, c - 2);
  }

  /** The geometry a volume and a space share. */
  ghost predicate SameGeometry(v: Volume, s: Space) {
    && v.Valid() && s.Valid() && v.ClusterSize() == s.unit && v.dataStart == s.dataAt && v.clusters + 2 == s.limit
    && |v.bytes| == s.size
  }

  lemma GeometryIs(v: Volume, s: Space)
    requires SameGeometry(v, s)
    ensures v.Valid() && s.Valid() && v.clusters + 2 == s.limit && s.Off(s.limit) <= |v.bytes|
  {
  }

  lemma OneCluster(v: Volume, s: Space, c: nat)
    requires SameGeometry(v, s) && 2 <= c < s.limit
    ensures s.Off(c) <= s.Off(c + 1) <= |v.bytes| && v.ClusterBytes(c) == v.bytes[s.Off(c)..s.Off(c + 1)]
  {
    ClusterStands(v, s, c);
    s.OffMono(c + 1, s.limit);
  }

  lemma {:induction false} RunOfBytes(v: Volume, s: Space, first: nat, n: nat)
    requires SameGeometry(v, s) && 2 <= first && first + n <= s.limit
    ensures s.Off(first) <= s.Off(first + n) <= |v.bytes|
    ensures ClustersBytes(v, Consecutive(first, n)) == v.bytes[s.Off(first)..s.Off(first + n)]
    decreases n
  {
    hide Space.Off, SameGeometry, Volume.ClusterBytes, Consecutive;
    GeometryIs(v, s);
    s.OffMono(first, first + n);
    s.OffMono(first + n, s.limit);
    if n > 0 {
      assert Consecutive(first, n)[1..] == Consecutive(first + 1, n - 1);
      RunOfBytes(v, s, first + 1, n - 1);
      OneCluster(v, s, first);
      SplitSlice(v.bytes, s.Off(first), s.Off(first + 1), s.Off(first + n));
    }
  }

  /** The bytes of a linked run's chain. */
  lemma RunBytes(v: Volume, s: Space, d: Disk, first: nat, n: nat)
    requires Shows(v, s, d) && Addressable(s, d) && Run(s, d.fat, first, n) && 2 <= first && 1 <= n
      && first + n <= d.next
    ensures s.Off(first) <= s.Off(first + n) <= |v.bytes|
    ensures ChainBytes(v, first) == Ok(v.bytes[s.Off(first)..s.Off(first + n)])
  {
    RunIsChain(v, s, d, first, n);
    RunOfBytes(v, s, first, n);
  }

  lemma AtShown(v: Volume, s: Space, d: Disk, at: nat, data: seq<byte>)
    requires Shows(v, s, d) && At(d.part, at, data) && s.rootAt <= at
    ensures At(v.bytes, at, data)
  {
    KeptWithin(d.part, v.bytes, s.rootAt, s.size, at, at + |data|);
  }

  lemma PrefixOfSlice(b: seq<byte>, at: nat, end: nat, data: seq<byte>)
    requires At(b, at, data) && at + |data| <= end <= |b|
    ensures |b[at..end]| >= |data| && b[at..end][..|data|] == data
  {
    SliceOfSlice(b, at, end, at, at + |data|);
  }

  /** A stored file's chain begins with its bytes. */
  lemma FileBytes(v: Volume, s: Space, d: Disk, data: seq<byte>, next: nat, end: nat) returns (raw: seq<byte>)
    requires Shows(v, s, d) && Addressable(s, d) && data != [] && 2 <= next && end == next + Span(s, |data|)
      && end <= d.next
    requires Run(s, d.fat, next, end - next) && At(d.part, s.Off(next), data)
    ensures ChainBytes(v, next) == Ok(raw) && |raw| >= |data| && raw[..|data|] == data
  {
    hide Space.Off, Run, TablesShow, Addressable, ChainBytes, CeilDiv, Volume.Valid;
    RunBytes(v, s, d, next, end - next);
    SpanFits(s, next, |data|);
    s.OffMono(2, next);
    AtShown(v, s, d, s.Off(next), data);
    PrefixOfSlice(v.bytes, s.Off(next), s.Off(end), data);
    raw := v.bytes[s.Off(next)..s.Off(end)];
  }

  /** A stored file reads back whole. */
  lemma FileReads(v: Volume, s: Space, d: Disk, name: Text, data: seq<byte>, next: nat)
    requires Shows(v, s, d) && Addressable(s, d) && 2 <= next && next + Span(s, |data|) <= d.next
    requires Run(s, d.fat, next, Span(s, |data|)) && At(d.part, s.Off(next), data)
    ensures Contents(v, Named(name, false, if data == [] then 0 else next, |data|)) == Ok(data)
  {
    if data != [] {
      var raw := FileBytes(v, s, d, data, next, next + Span(s, |data|));
    }
  }

  // ---- directory entries ----

  /** Entries a reader passes over: the label and the dot entries. */
  predicate Hidden(e: Slot) { e.attr == ATTR_VOLUME_ID || e.name == DOT_NAME || e.name == DOTDOT_NAME }

  /** What a reader makes of an entry. */
  function ReadSlot(e: Slot): seq<Named> {
    if Hidden(e) || |e.name| != 11 then [] else [Named(Display(e.name), e.attr == ATTR_DIRECTORY, e.cluster, e.size)]
  }

  function ReadSlots(es: seq<Slot>): seq<Named> {
    if es == [] then [] else ReadSlot(es[0]) + ReadSlots(es[1..])
  }

  ghost predicate Readable(e: Slot) {
    && |e.name| == 11 && e.name[0] != 0
    && (Hidden(e) || (ValidName(e.name) && (e.attr == ATTR_DIRECTORY || e.attr == ATTR_ARCHIVE)))
  }

  lemma EntryFields(format: Format, e: Slot)
    requires SlotOk(format, e)
    ensures var b := Entry(format, e);
      && b[..11] == e.name && b[11] == e.attr && Get32(b, 28) == e.size
      && (if format.Fat16? then Get16(b, 26) else Get16(b, 20) * 65536 + Get16(b, 26)) == e.cluster
  {
    var b := Entry(format, e);
    forall i | 0 <= i < ENTRY ensures b[i] == EntryByte(format, e, i) {}
    assert b[..11] == e.name;
    Get32At(b, 28, e.size);
    ClusterHalves(format, e, b);
  }

  lemma ClusterHalves(format: Format, e: Slot, b: seq<byte>)
    requires SlotOk(format, e) && |b| == ENTRY && forall i | 0 <= i < ENTRY :: b[i] == EntryByte(format, e, i)
    ensures (if format.Fat16? then Get16(b, 26) else Get16(b, 20) * 65536 + Get16(b, 26)) == e.cluster
  {
    var le := Le32(e.cluster);
    Le32RoundTrip(e.cluster);
    assert b[26] == le[0] && b[27] == le[1];
    if format.Fat32? {
      assert b[20] == le[2] && b[21] == le[3];
    } else {
      assert le[2] == 0 && le[3] == 0;
    }
  }

  lemma NameIsNoDot(n: Text)
    requires ValidName(n)
    ensures TrimEnd(n[..8]) != [] && TrimEnd(n[..8]) != [DOT] && TrimEnd(n[..8]) != [DOT, DOT]
    ensures n[0] != 0 && n[0] != 0xE5 && n != DOT_NAME && n != DOTDOT_NAME
  {
    var b := TrimEnd(n[..8]);
    assert NameChar(b[0]) && b[0] == n[0];
  }

  lemma DotsAreDots()
    ensures TrimEnd(DOT_NAME[..8]) == [DOT] && TrimEnd(DOTDOT_NAME[..8]) == [DOT, DOT]
  {
    TrimSpaces([DOT], 8);
    TrimSpaces([DOT, DOT], 8);
    assert DOT_NAME[..8] == Pad([DOT], 8) && DOTDOT_NAME[..8] == Pad([DOT, DOT], 8);
  }

  lemma {:induction false} TrimSpaces(s: Text, n: nat)
    requires |s| <= n && s != [] && !FatNames.Blank(s[|s| - 1])
    ensures TrimEnd(Pad(s, n)) == s
    decreases n - |s|
  {
    if |s| < n {
      assert Pad(s, n)[..n - 1] == Pad(s, n - 1);
      TrimSpaces(s, n - 1);
    } else {
      assert Pad(s, n) == s;
    }
  }

  /** A hidden entry is passed over. */
  lemma HiddenIsSkipped(format: Format, e: Slot)
    requires SlotOk(format, e) && Hidden(e)
    ensures ReadEntry(format, Entry(format, e)) == None
  {
    var b := Entry(format, e);
    EntryFields(format, e);
    assert b[..8] == b[..11][..8];
    DotsAreDots();
  }

  /** A name that is not a dot name. */
  predicate PlainName(n: Text) {
    |n| == 11 && n[0] != 0xE5 && var b := TrimEnd(n[..8]); b != [] && b != [DOT] && b != [DOT, DOT]
  }

  lemma NamedIsRead(format: Format, e: Slot)
    requires SlotOk(format, e) && PlainName(e.name) && (e.attr == ATTR_DIRECTORY || e.attr == ATTR_ARCHIVE)
    ensures ReadEntry(format, Entry(format, e)) ==
            Some(Named(Display(e.name), e.attr == ATTR_DIRECTORY, e.cluster, e.size))
  {
    var b := Entry(format, e);
    EntryFields(format, e);
    PlainIsRead(format, e, b);
  }

  lemma PlainIsRead(format: Format, e: Slot, b: seq<byte>)
    requires |b| == ENTRY && PlainName(e.name) && (e.attr == ATTR_DIRECTORY || e.attr == ATTR_ARCHIVE)
    requires b[..11] == e.name && b[11] == e.attr && Get32(b, 28) == e.size
    requires (if format.Fat16? then Get16(b, 26) else Get16(b, 20) * 65536 + Get16(b, 26)) == e.cluster
    ensures ReadEntry(format, b) == Some(Named(Display(e.name), e.attr == ATTR_DIRECTORY, e.cluster, e.size))
  {
    assert b[..8] == e.name[..8] && b[0] == e.name[0];
  }

  /** An entry parses to what it was made from. */
  lemma EntryParses(format: Format, e: Slot)
    requires SlotOk(format, e) && Readable(e)
    ensures Entry(format, e)[0] != 0
    ensures ReadSlot(e) == var r := ReadEntry(format, Entry(format, e)); if r.Some? then [r.value] else []
  {
    var b := Entry(format, e);
    assert b[0] == EntryByte(format, e, 0);
    if Hidden(e) {
      HiddenIsSkipped(format, e);
    } else {
      NameIsNoDot(e.name);
      NamedIsRead(format, e);
    }
  }

  ghost predicate AllReadable(es: seq<Slot>) {
    es == [] || (Readable(es[0]) && AllReadable(es[1..]))
  }

  lemma ParseStep(format: Format, e: seq<byte>, rest: seq<byte>)
    requires |e| == ENTRY && e[0] != 0
    ensures ParseDir(format, e + rest) ==
            (var r := ReadEntry(format, e); if r.Some? then [r.value] else []) + ParseDir(format, rest)
  {
    var raw := e + rest;
    assert raw[..ENTRY] == e && raw[ENTRY..] == rest;
  }

  lemma ParseBlank(format: Format, z: nat)
    ensures ParseDir(format, Zeros(z)) == []
  {
  }

  /** A stored directory parses to the entries it was made from. */
  lemma {:induction false} DirParses(format: Format, es: seq<Slot>, z: nat)
    requires SlotsOk(format, es) && AllReadable(es)
    ensures ParseDir(format, Encode(format, es) + Zeros(z)) == ReadSlots(es)
    decreases |es|
  {
    if es == [] {
      assert Encode(format, es) + Zeros(z) == Zeros(z);
      ParseBlank(format, z);
    } else {
      var e, rest := Entry(format, es[0]), Encode(format, es[1..]);
      EntryParses(format, es[0]);
      DirParses(format, es[1..], z);
      assert Encode(format, es) + Zeros(z) == e + (rest + Zeros(z));
      ParseStep(format, e, rest + Zeros(z));
    }
  }
}
