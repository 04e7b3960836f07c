/** The Internet checksum (RFC 1071): a stored sum always verifies. */
module InternetChecksum {
  import opened Bytes

  const ONES: int := 0xFFFF

  /** The 16-bit words of the data added up, an odd last byte taken as the high half of a word. */
  function SumWords(data: seq<byte>): nat {
    if data == [] then 0
    else if |data| == 1 then data[0] as int * 256
    else data[0] as int * 256 + data[1] as int + SumWords(data[2..])
  }

  /** Carries folded back in until the sum is sixteen bits. */
  function FoldCarries(sum: nat): (r: nat)
    ensures r <= ONES
    decreases sum
  {
    if sum <= ONES then sum else FoldCarries(sum % 65536 + sum / 65536)
  }

  function Checksum(data: seq<byte>): (c: nat)
    ensures c <= ONES
  {
    ONES - FoldCarries(SumWords(data))
  }

  /** `ipv4_checksum` as it runs. */
  method ComputeChecksum(data: seq<byte>) returns (c: nat)
    ensures c == Checksum(data)
  {
    var sum: nat, i: nat := 0, 0;
    while i < |data|
      invariant 0 <= i <= |data| && sum + SumWords(data[i..]) == SumWords(data)
    {
      if i + 1 < |data| {
        assert data[i..][2..] == data[i + 2..];
        sum, i := sum + (data[i] as int * 256 + data[i + 1] as int), i + 2;
      } else {
        sum, i := sum + data[i] as int * 256, i + 1;
      }
    }
    while sum > ONES
      invariant FoldCarries(sum) == FoldCarries(SumWords(data))
    {
      sum := sum % 65536 + sum / 65536;
    }
    c := ONES - sum;
  }

  // ---- one's-complement arithmetic ----

  lemma CarryKeeps(sum: nat)
    ensures (sum % 65536 + sum / 65536) % ONES == sum % ONES
  {
    var q, r := sum / 65536, sum % 65536;
    assert sum == q * 65536 + r;
    assert sum == (r + q) + q * ONES;
    ModMore(r + q, q);
  }

  lemma {:induction false} ModMore(x: int, q: nat)
    ensures (x + q * ONES) % ONES == x % ONES
    decreases q
  {
    if q > 0 {
      ModMore(x, q - 1);
      assert x + q * ONES == x + (q - 1) * ONES + ONES;
    }
  }

  /** Folding keeps the sum modulo 2^16 - 1, and only a zero sum folds to zero. */
  lemma {:induction false} FoldIs(sum: nat)
    ensures FoldCarries(sum) % ONES == sum % ONES && (FoldCarries(sum) == 0 <==> sum == 0)
    decreases sum
  {
    if sum > ONES {
      CarryKeeps(sum);
      FoldIs(sum % 65536 + sum / 65536);
    }
  }

  lemma FoldsToOnes(sum: nat)
    requires sum > 0 && sum % ONES == 0
    ensures FoldCarries(sum) == ONES
  {
    hide FoldCarries;
    FoldIs(sum);
  }

  // ---- a field stored in the data ----

  /** Sixteen bits, big end first. */
  function Be16(v: nat): (b: seq<byte>)
    requires v <= ONES
    ensures |b| == 2
  {
    [v / 256, v % 256]
  }

  function Word(data: seq<byte>, at: nat): nat
    requires at + 2 <= |data|
  {
    data[at] as int * 256 + data[at + 1] as int
  }

  lemma WordOfBe16(v: nat)
    requires v <= ONES
    ensures Word(Be16(v), 0) == v
  {
  }

  /** Changing an aligned word changes the sum by as much. */
  lemma {:induction false} SumSplice(data: seq<byte>, at: nat, v: nat)
    requires at % 2 == 0 && at + 2 <= |data| && v <= ONES
    ensures SumWords(Splice(data, at, Be16(v))) + Word(data, at) == SumWords(data) + v
    decreases at
  {
    var r := Splice(data, at, Be16(v));
    if at == 0 {
      assert r[2..] == data[2..];
      WordOfBe16(v);
    } else {
      assert r[2..] == Splice(data[2..], at - 2, Be16(v)) && r[0] == data[0] && r[1] == data[1];
      SumSplice(data[2..], at - 2, v);
    }
  }

  /** Storing the checksum in a zeroed aligned field makes the whole sum to zero. */
  lemma StoredVerifies(data: seq<byte>, at: nat)
    requires at % 2 == 0 && at + 2 <= |data| && Word(data, at) == 0
    ensures Checksum(Splice(data, at, Be16(Checksum(data)))) == 0
  {
    hide SumWords, FoldCarries, Be16;
    var sum, c := SumWords(data), Checksum(data);
    SumSplice(data, at, c);
    FoldIs(sum);
    ComplementSums(sum, FoldCarries(sum));
    FoldsToOnes(sum + c);
  }

  lemma ComplementSums(sum: nat, folded: nat)
    requires folded <= ONES && folded % ONES == sum % ONES && (folded == 0 <==> sum == 0)
    ensures sum + (ONES - folded) > 0 && (sum + (ONES - folded)) % ONES == 0
  {
    var q := sum / ONES;
    assert sum == q * ONES + sum % ONES;
    if folded == ONES {
      ModMore(0, q);
    } else {
      assert folded == sum % ONES;
      ModMore(0, q + 1);
    }
  }

  /** UDP's substitution (RFC 768): a zero sum is stored as all ones, since zero says there is
      none. */
  function UdpValue(data: seq<byte>): (v: nat)
    ensures 0 < v <= ONES
  {
    if Checksum(data) == 0 then ONES else Checksum(data)
  }

  /** What is stored is never zero, and still verifies. */
  lemma UdpVerifies(data: seq<byte>, at: nat)
    requires at % 2 == 0 && at + 2 <= |data| && Word(data, at) == 0
    ensures Checksum(Splice(data, at, Be16(UdpValue(data)))) == 0
  {
    hide SumWords, FoldCarries, Be16;
    if Checksum(data) != 0 {
      StoredVerifies(data, at);
    } else {
      var sum := SumWords(data);
      SumSplice(data, at, ONES);
      FoldIs(sum);
      ComplementSums(sum, FoldCarries(sum));
      ModMore(sum, 1);
      FoldsToOnes(sum + ONES);
    }
  }

  // ---- a whole UDP frame ----

  /** The pseudo-header and the datagram of a frame with a five-word IPv4 header. */
  function PseudoUdp(frame: seq<byte>): (r: seq<byte>)
    requires |frame| >= 42
    ensures |r| == |frame| - 22
  {
    frame[26..34] + [0, 17] + Be16((|frame| - 34) % 65536) + frame[34..]
  }

  function UdpChecksum(frame: seq<byte>): nat
    requires |frame| >= 42
  {
    UdpValue(PseudoUdp(frame))
  }

  /** A frame whose checksum was stored sums to zero over the pseudo-header. */
  lemma UdpFrameVerifies(frame: seq<byte>)
    requires |frame| >= 42 && Word(frame, 40) == 0
    ensures UdpChecksum(frame) > 0 && Checksum(PseudoUdp(Splice(frame, 40, Be16(UdpChecksum(frame))))) == 0
  {
    hide Checksum, Be16, UdpValue;
    var all, v := PseudoUdp(frame), UdpChecksum(frame);
    var stored := Splice(frame, 40, Be16(v));
    assert all[18..] == frame[40..];
    assert all[18] == frame[40] && all[19] == frame[41];
    UdpVerifies(all, 18);
    PseudoSplice(frame, Be16(v));
  }

  lemma PseudoSplice(frame: seq<byte>, b: seq<byte>)
    requires |frame| >= 42 && |b| == 2
    ensures PseudoUdp(Splice(frame, 40, b)) == Splice(PseudoUdp(frame), 18, b)
  {
    hide Be16;
    var stored := Splice(frame, 40, b);
    var a, c := PseudoUdp(stored), Splice(PseudoUdp(frame), 18, b);
    assert stored[26..34] == frame[26..34];
    forall i | 0 <= i < |a| ensures a[i] == c[i] {
      if i >= 12 { assert a[i] == stored[i + 22]; }
    }
  }
}
