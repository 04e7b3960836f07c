/** Directories and files of a volume, as the reader sees them. */
module FatFiles {
  import opened Bytes
  import opened Optional
  import opened FatResult
  import opened FatLayout
  import opened FatNames
  import opened FatReader

  /** One named entry of a directory. */
  datatype Named = Named(name: Text, dir: bool, first: nat, size: nat)

  predicate LongName(attr: byte) { attr % 16 == 15 }

  predicate VolumeId(attr: byte) { attr / 8 % 2 == 1 }

  predicate Directory(attr: byte) { attr / 16 % 2 == 1 }

  /** The base and extension fields as text. */
  function BaseField(e: seq<byte>): Text
    requires |e| == ENTRY
  {
    TrimEnd(e[..8])
  }

  /** One 32-byte entry: what it names, or nothing for a deleted entry, a long-name part, the
      volume label, a blank name and the two dot entries. */
  function ReadEntry(format: Format, e: seq<byte>): Option<Named>
    requires |e| == ENTRY
  {
    if e[0] == 0xE5 || LongName(e[11]) || VolumeId(e[11])
       || BaseField(e) == [] || BaseField(e) == [DOT] || BaseField(e) == [DOT, DOT]
    then None
    else
      var low := Get16(e, 26);
      Some(Named(Display(e[..11]), Directory(e[11]),
                 if format.Fat16? then low else Get16(e, 20) * 65536 + low, Get32(e, 28)))
  }

  /** The named entries of a directory's raw bytes, up to the first free one. */
  function ParseDir(format: Format, raw: seq<byte>): seq<Named>
    decreases |raw|
  {
    if |raw| < ENTRY || raw[0] == 0 then []
    else
      var e := ReadEntry(format, raw[..ENTRY]);
      (if e.Some? then [e.value] else []) + ParseDir(format, raw[ENTRY..])
  }

  method ListEntries(format: Format, raw: seq<byte>) returns (out: seq<Named>)
    ensures out == ParseDir(format, raw)
  {
    hide ReadEntry, ParseDir;
    out := [];
    assert raw[0..] == raw;
    var at := 0;
    while at + ENTRY <= |raw|
      invariant at <= |raw|
      invariant ParseDir(format, raw) == out + ParseDir(format, raw[at..])
    {
      if raw[at] == 0 { break; }
      ParseStep(format, raw, at);
      var e := ReadEntry(format, raw[at..at + ENTRY]);
      if e.Some? { out := out + [e.value]; }
      at := at + ENTRY;
    }
    ParseEnd(format, raw[at..]);
  }

  lemma ParseStep(format: Format, raw: seq<byte>, at: nat)
    requires at + ENTRY <= |raw| && raw[at] != 0
    ensures var e := ReadEntry(format, raw[at..at + ENTRY]);
      ParseDir(format, raw[at..]) == (if e.Some? then [e.value] else []) + ParseDir(format, raw[at + ENTRY..])
  {
    hide ReadEntry;
    assert raw[at..][..ENTRY] == raw[at..at + ENTRY] && raw[at..][ENTRY..] == raw[at + ENTRY..];
  }

  lemma ParseEnd(format: Format, raw: seq<byte>)
    requires |raw| < ENTRY || raw[0] == 0
    ensures ParseDir(format, raw) == []
  {
  }

  /** The bytes of a list of clusters, one after another. */
  function ClustersBytes(v: Volume, chain: seq<nat>): (b: seq<byte>)
    requires v.Valid() && forall c | c in chain :: v.InVolume(c)
    ensures |b| == |chain| * v.ClusterSize()
  {
    if chain == [] then [] else v.ClusterBytes(chain[0]) + ClustersBytes(v, chain[1..])
  }

  lemma ChainInVolume(v: Volume, first: nat)
    requires v.Valid() && Chain(v, first).Ok?
    ensures forall c | c in Chain(v, first).value :: v.InVolume(c)
  {
    OkIsChain(v, first, 0);
  }

  function ChainBytes(v: Volume, first: nat): Result<seq<byte>>
    requires v.Valid()
  {
    var chain :- Chain(v, first);
    ChainInVolume(v, first);
    Ok(ClustersBytes(v, chain))
  }

  lemma RootInside(v: Volume)
    requires v.Valid()
    ensures v.rootStart + v.rootEntries * ENTRY <= |v.bytes|
  {
  }

  /** The raw bytes of the root, or of the directory whose chain starts at a cluster. */
  function RawDir(v: Volume, dir: Option<nat>): Result<seq<byte>>
    requires v.Valid()
  {
    if dir.Some? then ChainBytes(v, dir.value)
    else if v.format.Fat32? then ChainBytes(v, v.root)
    else
      RootInside(v);
      Ok(v.bytes[v.rootStart..v.rootStart + v.rootEntries * ENTRY])
  }

  function Entries(v: Volume, dir: Option<nat>): Result<seq<Named>>
    requires v.Valid()
  {
    var raw :- RawDir(v, dir);
    Ok(ParseDir(v.format, raw))
  }

  /** The first entry a component names, without regard to case. */
  function Match(es: seq<Named>, part: Text): Option<Named> {
    if es == [] then None
    else if SameText(es[0].name, part) then Some(es[0])
    else Match(es[1..], part)
  }

  /** The entry that the components lead to, from a directory. */
  function FindFrom(v: Volume, dir: Option<nat>, parts: seq<Text>): Result<Option<Named>>
    requires v.Valid()
    decreases |parts|
  {
    if parts == [] then Ok(None)
    else
      var es :- Entries(v, dir);
      var e := Match(es, parts[0]);
      if e.None? || |parts| == 1 then Ok(e)
      else if !e.value.dir then Ok(None)
      else FindFrom(v, Some(e.value.first), parts[1..])
  }

  /** The bytes of the entry, cut to its size. */
  function Contents(v: Volume, e: Named): Result<seq<byte>>
    requires v.Valid()
  {
    if e.dir then Err(IsDirectory)
    else if e.first == 0 then Ok([])
    else
      var data :- ChainBytes(v, e.first);
      if |data| < e.size then Err(ShortChain) else Ok(data[..e.size])
  }

  /** The bytes of the file the components name, nothing if nothing is there. */
  function Read(v: Volume, parts: seq<Text>): Result<Option<seq<byte>>>
    requires v.Valid()
  {
    var e :- FindFrom(v, None, parts);
    if e.None? then Ok(None)
    else
      var data :- Contents(v, e.value);
      Ok(Some(data))
  }

  /** The component loop of `find`. */
  method Find(v: Volume, parts: seq<Text>) returns (r: Result<Option<Named>>)
    requires v.Valid()
    ensures r == FindFrom(v, None, parts)
  {
    var dir: Option<nat> := None;
    for i := 0 to |parts|
      invariant FindFrom(v, None, parts) == FindFrom(v, dir, parts[i..])
    {
      assert parts[i..][0] == parts[i] && parts[i..][1..] == parts[i + 1..];
      var es :- Entries(v, dir);
      var e := Match(es, parts[i]);
      if e.None? || i + 1 == |parts| { return Ok(e); }
      if !e.value.dir { return Ok(None); }
      dir := Some(e.value.first);
    }
    r := Ok(None);
  }
}
