/** IPv4 fragmentation (section 3.2 of RFC 791): two fragments that rejoin to the datagram. */
module Fragments {
  import opened Bytes
  import opened Optional
  import opened InternetChecksum

  /** Header and total length of a frame that carries a whole IPv4 packet. */
  datatype Lengths = Lengths(header: nat, total: nat)

  const ETHERNET: nat := 14

  /** More fragments follow. */
  const MORE: nat := 0x2000

  function Ipv4Header(frame: seq<byte>): (r: Option<Lengths>)
    ensures r.Some? ==> 20 <= r.value.header <= 60 && r.value.header < r.value.total <= ONES
    ensures r.Some? ==> ETHERNET + r.value.total <= |frame|
  {
    if |frame| < 22 || frame[12..14] != [8, 0] then None
    else
      var header, total, flags := frame[14] as int % 16 * 4, Word(frame, 16), Word(frame, 20);
      if header >= 20 && total > header && |frame| >= ETHERNET + total && flags % 0x4000 == 0
      then Some(Lengths(header, total))
      else None
  }

  function Payload(frame: seq<byte>, n: Lengths): seq<byte>
    requires n.header <= n.total && ETHERNET + n.total <= |frame|
  {
    frame[ETHERNET + n.header..ETHERNET + n.total]
  }

  /** Where a payload is cut: at a multiple of eight near the middle, eight bytes from either end. */
  function Cut(n: nat): (cut: nat)
    requires n >= 16
    ensures cut % 8 == 0 && 8 <= cut <= n - 8
  {
    Clamp(n / 2 / 8 * 8, 8, n - 8)
  }

  function Clamp(x: int, lo: int, hi: int): int { if x < lo then lo else if x > hi then hi else x }

  /** One fragment: the packet's header with its own length, offset and checksum. */
  function FragmentOf(frame: seq<byte>, header: nat, part: seq<byte>, offset: nat, more: bool): (f: seq<byte>)
    requires 20 <= header <= 60 && ETHERNET + header <= |frame| && header + |part| <= ONES && offset / 8 < MORE
    ensures |f| == ETHERNET + header + |part|
  {
    var unsummed := Unsummed(frame, header, part, offset, more);
    Splice(unsummed, 24, Be16(Checksum(unsummed[ETHERNET..ETHERNET + header])))
  }

  function Flags(offset: nat, more: bool): (flags: nat)
    requires offset / 8 < MORE
    ensures flags <= ONES && flags % MORE == offset / 8 && (flags / MORE == if more then 1 else 0)
  {
    (if more then MORE else 0) + offset / 8
  }

  /** The fragment with its checksum field still zero. */
  function Unsummed(frame: seq<byte>, header: nat, part: seq<byte>, offset: nat, more: bool): (f: seq<byte>)
    requires 20 <= header <= 60 && ETHERNET + header <= |frame| && header + |part| <= ONES && offset / 8 < MORE
    ensures |f| == ETHERNET + header + |part|
  {
    var whole := frame[..ETHERNET + header] + part;
    var sized := Splice(whole, 16, Be16(header + |part|));
    var flagged := Splice(sized, 20, Be16(Flags(offset, more)));
    Splice(flagged, 24, [0, 0])
  }

  function Split(frame: seq<byte>): Option<seq<seq<byte>>> {
    var n := Ipv4Header(frame);
    if n.None? then None
    else
      var payload, header := Payload(frame, n.value), n.value.header;
      if |payload| < 16 then None
      else
        var cut := Cut(|payload|);
        Some([FragmentOf(frame, header, payload[..cut], 0, true),
          FragmentOf(frame, header, payload[cut..], cut, false)])
  }

  /** One fragment built in a buffer of its own. */
  method BuildFragment(frame: seq<byte>, header: nat, part: seq<byte>, offset: nat, more: bool) returns (f: seq<byte>)
    requires 20 <= header <= 60 && ETHERNET + header <= |frame| && header + |part| <= ONES && offset / 8 < MORE
    ensures f == FragmentOf(frame, header, part, offset, more)
  {
    hide Checksum, Be16, Splice, Flags;
    f := frame[..ETHERNET + header] + part;
    f := Splice(f, 16, Be16(header + |part|));
    f := Splice(f, 20, Be16(Flags(offset, more)));
    f := Splice(f, 24, [0, 0]);
    var sum := ComputeChecksum(f[ETHERNET..ETHERNET + header]);
    f := Splice(f, 24, Be16(sum));
  }

  /** `fragment_datagram` as it runs. */
  method FragmentDatagram(frame: seq<byte>) returns (r: Option<seq<seq<byte>>>)
    ensures r == Split(frame)
  {
    hide FragmentOf, Ipv4Header;
    var n := Ipv4Header(frame);
    if n.None? { return None; }
    var header, payload := n.value.header, Payload(frame, n.value);
    if |payload| < 16 { return None; }
    var cut := Cut(|payload|);
    var first := BuildFragment(frame, header, payload[..cut], 0, true);
    var second := BuildFragment(frame, header, payload[cut..], cut, false);
    r := Some([first, second]);
  }

  // ---- what a fragment says ----

  lemma SpliceByte(s: seq<byte>, at: nat, d: seq<byte>, i: nat)
    requires at + |d| <= |s| && i < |s|
    ensures Splice(s, at, d)[i] == if at <= i < at + |d| then d[i - at] else s[i]
  {
  }

  lemma SpliceWord(s: seq<byte>, at: nat, v: nat)
    requires at + 2 <= |s| && v <= ONES
    ensures Word(Splice(s, at, Be16(v)), at) == v
  {
    SpliceByte(s, at, Be16(v), at);
    SpliceByte(s, at, Be16(v), at + 1);
  }

  lemma SpliceOtherWord(s: seq<byte>, at: nat, d: seq<byte>, other: nat)
    requires at + |d| <= |s| && other + 2 <= |s| && (other + 2 <= at || at + |d| <= other)
    ensures Word(Splice(s, at, d), other) == Word(s, other)
  {
    SpliceByte(s, at, d, other);
    SpliceByte(s, at, d, other + 1);
  }

  /** A store inside a slice is a store into the slice. */
  lemma SpliceSlice(s: seq<byte>, at: nat, d: seq<byte>, lo: nat, hi: nat)
    requires lo <= at && at + |d| <= hi <= |s|
    ensures Splice(s, at, d)[lo..hi] == Splice(s[lo..hi], at - lo, d)
  {
  }

  /** Fields outside the length, flags and checksum are the packet's own. */
  predicate Copied(i: nat) { i !in {16, 17, 20, 21, 24, 25} }

  lemma UnsummedFields(frame: seq<byte>, header: nat, part: seq<byte>, offset: nat, more: bool)
    requires 20 <= header <= 60 && ETHERNET + header <= |frame| && header + |part| <= ONES && offset / 8 < MORE
    ensures var f := Unsummed(frame, header, part, offset, more);
      Word(f, 16) == header + |part| && Word(f, 20) == Flags(offset, more) && Word(f, 24) == 0
  {
    hide Splice, Be16, Flags, Word;
    var whole := frame[..ETHERNET + header] + part;
    var sized := Splice(whole, 16, Be16(header + |part|));
    var flagged := Splice(sized, 20, Be16(Flags(offset, more)));
    var zero: seq<byte> := [0, 0];
    SpliceWord(whole, 16, header + |part|);
    SpliceWord(sized, 20, Flags(offset, more));
    SpliceOtherWord(sized, 20, Be16(Flags(offset, more)), 16);
    SpliceOtherWord(flagged, 24, zero, 16);
    SpliceOtherWord(flagged, 24, zero, 20);
    ZeroWord(flagged);
  }

  lemma ZeroWord(s: seq<byte>)
    requires |s| >= 26
    ensures Word(Splice(s, 24, [0, 0]), 24) == 0
  {
    SpliceByte(s, 24, [0, 0], 24);
    SpliceByte(s, 24, [0, 0], 25);
  }

  lemma UnsummedBytes(frame: seq<byte>, header: nat, part: seq<byte>, offset: nat, more: bool, i: nat)
    requires 20 <= header <= 60 && ETHERNET + header <= |frame| && header + |part| <= ONES && offset / 8 < MORE
    requires Copied(i) && i < ETHERNET + header + |part|
    ensures Unsummed(frame, header, part, offset, more)[i] ==
      if i < ETHERNET + header then frame[i] else part[i - ETHERNET - header]
  {
    hide Splice, Be16, Flags;
    var whole := frame[..ETHERNET + header] + part;
    var sized := Splice(whole, 16, Be16(header + |part|));
    var flagged := Splice(sized, 20, Be16(Flags(offset, more)));
    SpliceByte(whole, 16, Be16(header + |part|), i);
    SpliceByte(sized, 20, Be16(Flags(offset, more)), i);
    SpliceByte(flagged, 24, [0, 0], i);
  }

  /** What a fragment says of itself, and that its header sums to zero. */
  ghost predicate Describes(f: seq<byte>, frame: seq<byte>, header: nat, part: seq<byte>, offset: nat, more: bool)
    requires offset / 8 < MORE
  {
    && |f| == ETHERNET + header + |part| && ETHERNET + header <= |frame| && header >= 20
    && f[ETHERNET + header..] == part
    && Word(f, 16) == header + |part| && Word(f, 20) == Flags(offset, more)
    && Checksum(f[ETHERNET..ETHERNET + header]) == 0
    && forall i | 0 <= i < ETHERNET + header && Copied(i) :: f[i] == frame[i]
  }

  lemma FragmentDescribes(frame: seq<byte>, header: nat, part: seq<byte>, offset: nat, more: bool)
    requires 20 <= header <= 60 && header % 4 == 0 && ETHERNET + header <= |frame| && header + |part| <= ONES
      && offset / 8 < MORE
    ensures Describes(FragmentOf(frame, header, part, offset, more), frame, header, part, offset, more)
  {
    hide Splice, Be16, Flags, Word, Checksum, Unsummed, Copied;
    var u, f := Unsummed(frame, header, part, offset, more), FragmentOf(frame, header, part, offset, more);
    var inside := u[ETHERNET..ETHERNET + header];
    var sum := Be16(Checksum(inside));
    UnsummedFields(frame, header, part, offset, more);
    SpliceOtherWord(u, 24, sum, 16);
    SpliceOtherWord(u, 24, sum, 20);
    SpliceSlice(u, 24, sum, ETHERNET, ETHERNET + header);
    InsideWord(u, header);
    StoredVerifies(inside, 10);
    forall i: nat | i < |f| && Copied(i)
      ensures f[i] == if i < ETHERNET + header then frame[i] else part[i - ETHERNET - header]
    {
      NotSummed(i);
      SpliceByte(u, 24, sum, i);
      UnsummedBytes(frame, header, part, offset, more, i);
    }
    forall i | 0 <= i < |part| ensures f[ETHERNET + header..][i] == part[i] {
      PartCopied(ETHERNET + header + i);
    }
  }

  lemma InsideWord(u: seq<byte>, header: nat)
    requires 20 <= header && ETHERNET + header <= |u|
    ensures Word(u[ETHERNET..ETHERNET + header], 10) == Word(u, 24)
  {
  }

  lemma NotSummed(i: nat)
    requires Copied(i)
    ensures i != 24 && i != 25
  {
  }

  lemma PartCopied(i: nat)
    requires i >= 34
    ensures Copied(i)
  {
  }

  /** Two fragments that are the datagram: their payloads put together are its payload, the first
      is a multiple of eight bytes long and says that more follows, the second says where it
      belongs and that nothing does, and both headers sum to zero. */
  lemma FragmentsRejoin(frame: seq<byte>)
    requires Ipv4Header(frame).Some?
    ensures var n := Ipv4Header(frame).value; var payload := Payload(frame, n);
      if |payload| < 16 then Split(frame) == None
      else
        Split(frame).Some? && |Split(frame).value| == 2
        && var cut := Cut(|payload|); var a, b := Split(frame).value[0], Split(frame).value[1];
        && Describes(a, frame, n.header, payload[..cut], 0, true)
        && Describes(b, frame, n.header, payload[cut..], cut, false)
        && a[ETHERNET + n.header..] + b[ETHERNET + n.header..] == payload
        && cut % 8 == 0 && Word(b, 20) * 8 == cut
  {
    hide FragmentOf, Checksum, Splice, Be16, Word;
    var n := Ipv4Header(frame).value;
    var payload := Payload(frame, n);
    HeaderIsWords(frame);
    if |payload| >= 16 {
      var cut := Cut(|payload|);
      FragmentDescribes(frame, n.header, payload[..cut], 0, true);
      FragmentDescribes(frame, n.header, payload[cut..], cut, false);
      assert payload[..cut] + payload[cut..] == payload;
    }
  }

  lemma HeaderIsWords(frame: seq<byte>)
    requires Ipv4Header(frame).Some?
    ensures Ipv4Header(frame).value.header % 4 == 0
  {
  }

  /** A fragment is read as a fragment: the packet parser takes it for no whole packet. */
  lemma FragmentIsNoPacket(f: seq<byte>, frame: seq<byte>, header: nat, part: seq<byte>, offset: nat, more: bool)
    requires offset / 8 < MORE && Describes(f, frame, header, part, offset, more) && (more || offset >= 8)
    ensures Ipv4Header(f) == None
  {
    hide Checksum;
  }
}
