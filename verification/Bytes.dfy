/** Bytes, little-endian fields and in-place stores, shared by every image format here. */
module Bytes {

  type byte = x: int | 0 <= x < 256

  const U16: int := 0x1_0000
  const U32: int := 0x1_0000_0000

  /** How many whole units hold `n`, as `usize::div_ceil` gives it. */
  function CeilDiv(n: nat, unit: nat): (q: nat)
    requires unit > 0
    ensures q == 0 <==> n == 0
  {
    if n == 0 then 0 else if n <= unit then 1 else 1 + CeilDiv(n - unit, unit)
  }

  lemma {:induction false} CeilDivBounds(n: nat, unit: nat)
    requires unit > 0
    ensures n <= CeilDiv(n, unit) * unit < n + unit
    decreases n
  {
    if n > unit { CeilDivBounds(n - unit, unit); }
  }

  function Zeros(n: nat): (z: seq<byte>)
    ensures |z| == n && forall i | 0 <= i < n :: z[i] == 0
  {
    seq(n, _ => 0)
  }

  // ---- little-endian fields ----

  /** Byte `i` of a value, the least significant first. */
  function LeByte(v: nat, i: nat): byte {
    if i == 0 then v % 256
    else if i == 1 then v / 256 % 256
    else if i == 2 then v / 65536 % 256
    else v / 16777216 % 256
  }

  function Le16(v: nat): (b: seq<byte>)
    requires v < U16
    ensures |b| == 2
  {
    seq(2, i requires 0 <= i < 2 => LeByte(v, i))
  }

  function Le32(v: nat): (b: seq<byte>)
    requires v < U32
    ensures |b| == 4
  {
    seq(4, i requires 0 <= i < 4 => LeByte(v, i))
  }

  function Get16(b: seq<byte>, at: nat): (v: nat)
    requires at + 2 <= |b|
    ensures v < U16
  {
    b[at] as int + 256 * b[at + 1] as int
  }

  function Get32(b: seq<byte>, at: nat): (v: nat)
    requires at + 4 <= |b|
    ensures v < U32
  {
    b[at] as int + 256 * b[at + 1] as int + 65536 * b[at + 2] as int + 16777216 * b[at + 3] as int
  }

  lemma Le16RoundTrip(v: nat)
    requires v < U16
    ensures Get16(Le16(v), 0) == v
  {
  }

  lemma Le32RoundTrip(v: nat)
    requires v < U32
    ensures Get32(Le32(v), 0) == v
  {
    var a := v / 256;
    var b := a / 256;
    assert a == v / 256 && b == v / 65536 && b / 256 == v / 16777216;
    assert v / 16777216 < 256;
    assert v == v % 256 + 256 * a;
    assert a == a % 256 + 256 * b;
    assert b == b % 256 + 256 * (b / 256);
  }

  // ---- stores ----

  /** `s` with `d` stored at `at`: what `copy_from_slice` into a range does. */
  function Splice<T>(s: seq<T>, at: nat, d: seq<T>): (r: seq<T>)
    requires at + |d| <= |s|
    ensures |r| == |s|
  {
    s[..at] + d + s[at + |d|..]
  }

  lemma SpliceReads<T>(s: seq<T>, at: nat, d: seq<T>)
    requires at + |d| <= |s|
    ensures Splice(s, at, d)[at..at + |d|] == d
  {
  }

  /** A range that a store does not touch reads as it did. */
  lemma SpliceKeeps<T>(s: seq<T>, at: nat, d: seq<T>, lo: nat, hi: nat)
    requires at + |d| <= |s| && lo <= hi <= |s|
    requires hi <= at || at + |d| <= lo
    ensures Splice(s, at, d)[lo..hi] == s[lo..hi]
  {
  }

  lemma SliceOfSlice<T>(s: seq<T>, lo: nat, hi: nat, lo': nat, hi': nat)
    requires lo <= lo' <= hi' <= hi <= |s|
    ensures s[lo..hi][lo' - lo..hi' - lo] == s[lo'..hi']
  {
    var a := s[lo..hi][lo' - lo..hi' - lo];
    forall i | 0 <= i < |a| ensures a[i] == s[lo'..hi'][i] {
      assert a[i] == s[lo..hi][lo' - lo + i] == s[lo' + i];
    }
  }

  lemma SplitSlice<T>(s: seq<T>, a: nat, b: nat, c: nat)
    requires a <= b <= c <= |s|
    ensures s[a..b] + s[b..c] == s[a..c]
  {
  }
}
