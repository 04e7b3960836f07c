/** SHA-256: the one-shot hash (sections 5.1.1 and 6.2.2 of FIPS 180-4) and the streaming form that
    refines it. */
module Sha256 {
  import opened Bytes

  const U64: int := 0x1_0000_0000_0000_0000

  const BLOCK: nat := 64

  const K: seq<bv32> := [
    0x428a2f98, 0x71374491, 0xb5c0fbcf, 0xe9b5dba5, 0x3956c25b, 0x59f111f1, 0x923f82a4, 0xab1c5ed5,
    0xd807aa98, 0x12835b01, 0x243185be, 0x550c7dc3, 0x72be5d74, 0x80deb1fe, 0x9bdc06a7, 0xc19bf174,
    0xe49b69c1, 0xefbe4786, 0x0fc19dc6, 0x240ca1cc, 0x2de92c6f, 0x4a7484aa, 0x5cb0a9dc, 0x76f988da,
    0x983e5152, 0xa831c66d, 0xb00327c8, 0xbf597fc7, 0xc6e00bf3, 0xd5a79147, 0x06ca6351, 0x14292967,
    0x27b70a85, 0x2e1b2138, 0x4d2c6dfc, 0x53380d13, 0x650a7354, 0x766a0abb, 0x81c2c92e, 0x92722c85,
    0xa2bfe8a1, 0xa81a664b, 0xc24b8b70, 0xc76c51a3, 0xd192e819, 0xd6990624, 0xf40e3585, 0x106aa070,
    0x19a4c116, 0x1e376c08, 0x2748774c, 0x34b0bcb5, 0x391c0cb3, 0x4ed8aa4a, 0x5b9cca4f, 0x682e6ff3,
    0x748f82ee, 0x78a5636f, 0x84c87814, 0x8cc70208, 0x90befffa, 0xa4506ceb, 0xbef9a3f7, 0xc67178f2]

  /** The eight words of a hash value, or of the working variables. */
  datatype Words = Words(a: bv32, b: bv32, c: bv32, d: bv32, e: bv32, f: bv32, g: bv32, h: bv32)

  const H0 := Words(0x6a09e667, 0xbb67ae85, 0x3c6ef372, 0xa54ff53a, 0x510e527f, 0x9b05688c, 0x1f83d9ab, 0x5be0cd19)

  type Block = b: seq<byte> | |b| == BLOCK witness Zeros(64)

  // ---- the functions of section 4.1.2 ----

  function Ch(x: bv32, y: bv32, z: bv32): bv32 { (x & y) ^ (!x & z) }

  function Maj(x: bv32, y: bv32, z: bv32): bv32 { (x & y) ^ (x & z) ^ (y & z) }

  function BigSigma0(x: bv32): bv32 { x.RotateRight(2) ^ x.RotateRight(13) ^ x.RotateRight(22) }

  function BigSigma1(x: bv32): bv32 { x.RotateRight(6) ^ x.RotateRight(11) ^ x.RotateRight(25) }

  function SmallSigma0(x: bv32): bv32 { x.RotateRight(7) ^ x.RotateRight(18) ^ (x >> 3) }

  function SmallSigma1(x: bv32): bv32 { x.RotateRight(17) ^ x.RotateRight(19) ^ (x >> 10) }

  // ---- one block, section 6.2.2 ----

  /** Word `i` of a block, big end first. */
  function BlockWord(block: Block, i: nat): bv32
    requires i < 16
  {
    (block[4 * i] as bv32 << 24) | (block[4 * i + 1] as bv32 << 16)
    | (block[4 * i + 2] as bv32 << 8) | block[4 * i + 3] as bv32
  }

  /** The first `n` words of the message schedule. */
  function Schedule(block: Block, n: nat): (w: seq<bv32>)
    requires n <= 64
    ensures |w| == n
  {
    if n == 0 then []
    else
      var w, t := Schedule(block, n - 1), n - 1;
      w + [NextWord(block, w, t)]
  }

  /** Word `t` of the schedule, given those before it. */
  function NextWord(block: Block, w: seq<bv32>, t: nat): bv32
    requires |w| == t
  {
    if t < 16 then BlockWord(block, t) else Sum4(SmallSigma1(w[t - 2]), w[t - 7], SmallSigma0(w[t - 15]), w[t - 16])
  }

  function Sum4(x: bv32, y: bv32, z: bv32, u: bv32): bv32 { x + y + z + u }

  function Round(v: Words, k: bv32, w: bv32): Words {
    var t1 := v.h + BigSigma1(v.e) + Ch(v.e, v.f, v.g) + k + w;
    var t2 := BigSigma0(v.a) + Maj(v.a, v.b, v.c);
    Words(t1 + t2, v.a, v.b, v.c, v.d + t1, v.e, v.f, v.g)
  }

  /** The working variables after `n` rounds. */
  function Rounds(v: Words, w: seq<bv32>, n: nat): Words
    requires n <= |w| && n <= |K|
  {
    if n == 0 then v else Round(Rounds(v, w, n - 1), K[n - 1], w[n - 1])
  }

  function Sum(x: Words, y: Words): Words {
    Words(x.a + y.a, x.b + y.b, x.c + y.c, x.d + y.d, x.e + y.e, x.f + y.f, x.g + y.g, x.h + y.h)
  }

  lemma SixtyFour()
    ensures |K| == 64
  {
  }

  function Compress(v: Words, block: Block): Words {
    SixtyFour();
    Sum(v, Rounds(v, Schedule(block, 64), 64))
  }

  // ---- whole messages ----

  /** Whole blocks folded into a hash value, what is left over ignored. */
  function Fold(v: Words, data: seq<byte>): Words
    decreases |data|
  {
    if |data| < BLOCK then v else Fold(Compress(v, data[..BLOCK]), data[BLOCK..])
  }

  function Be64Byte(v: nat, i: nat): byte
    requires i < 8
    decreases 8 - i
  {
    if i == 7 then v % 256 else Be64Byte(v / 256, i + 1)
  }

  /** Eight bytes, big end first. */
  function Be64(v: nat): (b: seq<byte>)
    ensures |b| == 8
  {
    seq(8, i requires 0 <= i < 8 => Be64Byte(v, i))
  }

  /** The zeros that bring a message and its end bit to eight bytes short of a block. */
  function ZerosFor(n: nat): nat { (119 - n % BLOCK) % BLOCK }

  /** Section 5.1.1: the end bit, the least number of zeros, and the length in bits. */
  function Padding(n: nat): (p: seq<byte>) { [0x80] + Zeros(ZerosFor(n)) + Be64(8 * n % U64) }

  function WordBytes(w: bv32): (b: seq<byte>)
    ensures |b| == 4
  {
    [(w >> 24) as int % 256, (w >> 16) as int % 256, (w >> 8) as int % 256, w as int % 256]
  }

  function Output(v: Words): (b: seq<byte>)
    ensures |b| == 32
  {
    WordBytes(v.a) + WordBytes(v.b) + WordBytes(v.c) + WordBytes(v.d)
    + WordBytes(v.e) + WordBytes(v.f) + WordBytes(v.g) + WordBytes(v.h)
  }

  /** The hash of a message. */
  function Hash(message: seq<byte>): seq<byte> { Output(Fold(H0, message + Padding(|message|))) }

  /** A padded message is whole blocks, and no shorter padding of this shape would be. */
  lemma PaddingIsLeast(n: nat, k: nat)
    ensures (n + |Padding(n)|) % BLOCK == 0 && |Padding(n)| == 1 + ZerosFor(n) + 8
    ensures (n + 1 + k + 8) % BLOCK == 0 ==> ZerosFor(n) <= k
  {
    var r := n % BLOCK;
    assert n == n / BLOCK * BLOCK + r;
    assert ZerosFor(n) < BLOCK;
    var z := ZerosFor(n);
    assert (r + z + 9) % BLOCK == 0;
    assert (n + 9 + z) % BLOCK == 0;
  }

  // ---- folding ----

  lemma {:induction false} FoldConcat(v: Words, a: seq<byte>, b: seq<byte>)
    requires |a| % BLOCK == 0
    ensures Fold(v, a + b) == Fold(Fold(v, a), b)
    decreases |a|
  {
    hide Compress;
    if a == [] {
      assert a + b == b;
    } else {
      assert (a + b)[..BLOCK] == a[..BLOCK] && (a + b)[BLOCK..] == a[BLOCK..] + b;
      FoldConcat(Compress(v, a[..BLOCK]), a[BLOCK..], b);
    }
  }

  lemma FoldShort(v: Words, a: seq<byte>)
    requires |a| < BLOCK
    ensures Fold(v, a) == v
  {
  }

  lemma FoldOne(v: Words, a: Block)
    ensures Fold(v, a) == Compress(v, a)
  {
    hide Compress;
    assert a[..BLOCK] == a && a[BLOCK..] == [];
  }

  // ---- the stream ----

  /** What a stream remembers: the hash value of the whole blocks fed so far, the bytes left over,
      and the length modulo 2^64. */
  datatype Stream = Stream(value: Words, pending: seq<byte>, len: nat)

  const EMPTY := Stream(H0, [], 0)

  /** Bytes that make no whole block with what is pending. */
  function Whole(n: nat): (m: nat)
    ensures m <= n < m + BLOCK && m % BLOCK == 0
  {
    n - n % BLOCK
  }

  /** More bytes taken into the blocks, whatever they were. */
  function Take(s: Stream, data: seq<byte>): Stream {
    var all := s.pending + data;
    var m := Whole(|all|);
    s.(value := Fold(s.value, all[..m]), pending := all[m..])
  }

  /** `update`: taken, and counted. */
  function Absorb(s: Stream, data: seq<byte>): Stream { Take(s, data).(len := (s.len + |data|) % U64) }

  /** `finish`: the padding taken, and the value put out. */
  function Finish(s: Stream): seq<byte> {
    Output(Take(s, [0x80] + Zeros(ZerosFor(|s.pending|)) + Be64(8 * s.len % U64)).value)
  }

  /** Every chunk absorbed, in order. */
  function AbsorbAll(s: Stream, chunks: seq<seq<byte>>): Stream
    decreases |chunks|
  {
    if chunks == [] then s else AbsorbAll(Absorb(s, chunks[0]), chunks[1..])
  }

  function Joined(chunks: seq<seq<byte>>): seq<byte> {
    if chunks == [] then [] else chunks[0] + Joined(chunks[1..])
  }

  lemma WholeSplits(m: nat, n: nat)
    requires m % BLOCK == 0 && m <= n
    ensures m + Whole(n - m) == Whole(n)
  {
  }

  /** Taking bytes in two steps is taking them in one. */
  lemma TakeTwice(s: Stream, a: seq<byte>, b: seq<byte>)
    ensures Take(Take(s, a), b) == Take(s, a + b)
  {
    hide Fold, Whole;
    var first, all := s.pending + a, s.pending + (a + b);
    assert all == first + b;
    var m := Whole(|first|);
    var next := first[m..] + b;
    WholeSplits(m, |all|);
    var k := Whole(|next|);
    assert all[..m] == first[..m] && all[m..] == next;
    assert all[..m + k] == first[..m] + next[..k] && all[m + k..] == next[k..];
    FoldConcat(s.value, first[..m], next[..k]);
  }

  lemma AddMod(x: nat, y: nat)
    ensures (x % U64 + y) % U64 == (x + y) % U64
  {
    var q := x / U64;
    assert x == q * U64 + x % U64;
    ModMore(x % U64 + y, q);
  }

  lemma {:induction false} ModMore(x: int, q: nat)
    ensures (x + q * U64) % U64 == x % U64
    decreases q
  {
    if q > 0 {
      ModMore(x, q - 1);
      assert x + q * U64 == x + (q - 1) * U64 + U64;
    }
  }

  lemma AbsorbTwice(s: Stream, a: seq<byte>, b: seq<byte>)
    ensures Absorb(Absorb(s, a), b) == Absorb(s, a + b)
  {
    hide Take;
    TakeTwice(s, a, b);
    TakeLength(s, a, (s.len + |a|) % U64, b);
    AddMod(s.len + |a|, |b|);
  }

  lemma TakeLength(s: Stream, a: seq<byte>, len: nat, b: seq<byte>)
    ensures Take(Take(s, a).(len := len), b) == Take(Take(s, a), b).(len := len) && Take(s, a).len == s.len
  {
    hide Fold, Whole;
  }

  lemma {:induction false} AbsorbAllIs(s: Stream, chunks: seq<seq<byte>>)
    requires s.len < U64 && |s.pending| < BLOCK
    ensures AbsorbAll(s, chunks) == Absorb(s, Joined(chunks))
    decreases |chunks|
  {
    if chunks == [] {
      AbsorbNone(s);
    } else {
      hide Take;
      TakeLeaves(s, chunks[0]);
      AbsorbAllIs(Absorb(s, chunks[0]), chunks[1..]);
      AbsorbTwice(s, chunks[0], Joined(chunks[1..]));
    }
  }

  lemma AbsorbNone(s: Stream)
    requires s.len < U64 && |s.pending| < BLOCK
    ensures Absorb(s, []) == s
  {
    assert s.pending + [] == s.pending && s.pending[0..] == s.pending;
  }

  lemma TakeLeaves(s: Stream, data: seq<byte>)
    ensures |Take(s, data).pending| < BLOCK && |Take(s, data).pending| == (|s.pending| + |data|) % BLOCK
  {
    hide Fold;
  }

  lemma EightTimes(n: nat)
    ensures 8 * (n % U64) % U64 == 8 * n % U64
  {
    var q := n / U64;
    assert n == q * U64 + n % U64;
    ModMore(8 * (n % U64), 8 * q);
  }

  /** Finishing a stream that absorbed a message gives the message's hash. */
  lemma FinishIsHash(message: seq<byte>)
    ensures Finish(Absorb(EMPTY, message)) == Hash(message)
  {
    hide Fold, Output, Be64, Zeros;
    var s, n := Absorb(EMPTY, message), |message|;
    TakeLeaves(EMPTY, message);
    EightTimes(n);
    var pad := Padding(n);
    assert ZerosFor(|s.pending|) == ZerosFor(n);
    assert Finish(s) == Output(Take(s, pad).value);
    TakeTwice(EMPTY, message, pad);
    TakeLength(EMPTY, message, s.len, pad);
    PaddingIsLeast(n, 0);
    TakeWhole(EMPTY, message + pad);
  }

  lemma TakeWhole(s: Stream, data: seq<byte>)
    requires s.pending == [] && |data| % BLOCK == 0
    ensures Take(s, data).value == Fold(s.value, data)
  {
    hide Fold;
    assert [] + data == data && data[..|data|] == data;
  }

  /** The stream refines the one-shot hash: however a message is cut into chunks, updating with
      each and finishing gives the hash of the whole. */
  lemma StreamIsHash(chunks: seq<seq<byte>>)
    ensures Finish(AbsorbAll(EMPTY, chunks)) == Hash(Joined(chunks))
  {
    hide Finish, Absorb, Hash, AbsorbAll;
    AbsorbAllIs(EMPTY, chunks);
    FinishIsHash(Joined(chunks));
  }
}
