/** The streaming hash as it runs: value, buffer and length changed in place. */
module Sha256Stream {
  import opened Bytes
  import opened Sha256

  const BLOCK_WORDS: nat := 16

  /** The two schedule loops of `compress`: the block's words, then the words made from them. */
  method MakeSchedule(block: Block, n: nat) returns (w: seq<bv32>)
    requires BLOCK_WORDS <= n <= 64
    ensures w == Schedule(block, n)
  {
    hide Schedule, BlockWord, SmallSigma0, SmallSigma1, Sum4;
    w := [];
    ScheduleNone(block);
    for i := 0 to BLOCK_WORDS
      invariant w == Schedule(block, i)
    {
      ScheduleStep(block, i);
      w := w + [BlockWord(block, i)];
    }
    for i := BLOCK_WORDS to n
      invariant w == Schedule(block, i)
    {
      ScheduleStep(block, i);
      SumOrder(w[i - 16], SmallSigma0(w[i - 15]), w[i - 7], SmallSigma1(w[i - 2]));
      w := w + [Sum4(w[i - 16], SmallSigma0(w[i - 15]), w[i - 7], SmallSigma1(w[i - 2]))];
    }
  }

  lemma ScheduleNone(block: Block)
    ensures Schedule(block, 0) == []
  {
  }

  lemma ScheduleStep(block: Block, i: nat)
    requires i < 64
    ensures Schedule(block, i + 1) == Schedule(block, i) + [NextWord(block, Schedule(block, i), i)]
  {
    hide NextWord;
  }

  /** The round loop of `compress`. */
  method RunRounds(v: Words, w: seq<bv32>, n: nat) returns (r: Words)
    requires n <= |w| && n <= |K|
    ensures r == Rounds(v, w, n)
  {
    hide Round, K;
    r := v;
    for i := 0 to n
      invariant r == Rounds(v, w, i)
    {
      r := Round(r, K[i], w[i]);
    }
  }

  method CompressBlock(v: Words, block: Block) returns (r: Words)
    ensures r == Compress(v, block)
  {
    hide Schedule, Rounds, K;
    SixtyFour();
    var w := MakeSchedule(block, 64);
    r := RunRounds(v, w, 64);
    r := Sum(v, r);
  }

  lemma SumOrder(a: bv32, b: bv32, c: bv32, d: bv32)
    ensures Sum4(a, b, c, d) == Sum4(d, c, b, a)
  {
  }

  class Hasher {
    var value: Words
    const buf: array<byte>
    var buflen: nat
    var len: nat

    ghost predicate Valid()
      reads this
    {
      buf.Length == BLOCK && buflen < BLOCK && len < U64
    }

    ghost function View(): Stream
      requires Valid()
      reads this, buf
    {
      Stream(value, buf[..buflen], len)
    }

    constructor ()
      ensures Valid() && fresh(buf) && View() == EMPTY
    {
      value, buf, buflen, len := H0, new byte[64](_ => 0), 0, 0;
    }

    /** Fill the buffer up, as far as the data goes; what is left of the data. */
    method Fill(data: seq<byte>) returns (rest: seq<byte>)
      requires Valid() && buflen > 0
      modifies this, buf
      ensures Valid() && len == old(len) && (rest != [] ==> buflen == 0)
      ensures Take(View(), rest) == Take(old(View()), data)
    {
      hide Fold, Compress;
      var take := if BLOCK - buflen < |data| then BLOCK - buflen else |data|;
      ghost var s := View();
      forall i | 0 <= i < take { buf[buflen + i] := data[i]; }
      buflen := buflen + take;
      rest := data[take..];
      assert buf[..buflen] == s.pending + data[..take];
      if buflen == BLOCK {
        assert buf[..] == buf[..buflen];
        value := CompressBlock(value, buf[..]);
        buflen := 0;
      }
      Filled(s, data[..take], View());
      assert data == data[..take] + rest;
      TakeTwice(s, data[..take], rest);
    }

    /** Whole blocks straight from the data, then what is left into the buffer. */
    method Update(data: seq<byte>)
      requires Valid()
      modifies this, buf
      ensures Valid() && View() == Absorb(old(View()), data)
    {
      hide Fold, Compress, Take;
      ghost var s := View();
      ghost var counted := s.(len := (s.len + |data|) % U64);
      len := (len + |data|) % U64;
      var rest := data;
      TakeCounts(s, counted, data);
      if buflen > 0 { rest := Fill(data); }
      while |rest| >= BLOCK
        invariant Valid() && (rest != [] ==> buflen == 0) && Take(View(), rest) == Take(counted, data)
        decreases |rest|
      {
        ghost var before, all := View(), rest;
        value := CompressBlock(value, rest[..BLOCK]);
        rest := rest[BLOCK..];
        assert buf[..0] == [];
        BlockTaken(before, all, View());
      }
      if rest != [] {
        assert buf[..0] == [];
        forall i | 0 <= i < |rest| { buf[i] := rest[i]; }
        buflen := |rest|;
        assert buf[..buflen] == rest;
        ShortTaken(View().(pending := []), rest);
      } else {
        ShortTaken(View(), []);
      }
    }

    /** One byte, not counted: the step of the padding loop. */
    method PutByte(x: byte)
      requires Valid()
      modifies this, buf
      ensures Valid() && View() == Take(old(View()), [x])
    {
      hide Fold, Compress;
      ghost var s := View();
      buf[buflen] := x;
      buflen := buflen + 1;
      assert buf[..buflen] == s.pending + [x];
      if buflen == BLOCK {
        assert buf[..] == buf[..buflen];
        value := CompressBlock(value, buf[..]);
        buflen := 0;
      }
      Filled(s, [x], View());
    }

    method PutAll(data: seq<byte>)
      requires Valid()
      modifies this, buf
      ensures Valid() && View() == Take(old(View()), data)
    {
      hide Take;
      ghost var s := View();
      ShortTaken(s, []);
      for i := 0 to |data|
        invariant Valid() && View() == Take(s, data[..i])
      {
        TakeTwice(s, data[..i], [data[i]]);
        assert data[..i + 1] == data[..i] + [data[i]];
        PutByte(data[i]);
      }
      assert data[..|data|] == data;
    }

    /** `finish`: the end bit, zeros until eight bytes are left in the block, the length. */
    method Digest() returns (out: seq<byte>)
      requires Valid()
      modifies this, buf
      ensures out == Finish(old(View()))
    {
      hide Take, Be64, Output, ZerosFor;
      ghost var s := View();
      var bitlen := 8 * len % U64;
      PutByte(0x80);
      ghost var k := 0;
      TakeLeaves(s, [0x80]);
      assert [0x80] + Zeros(0) == [0x80];
      while buflen != 56
        invariant Valid() && View() == Take(s, [0x80] + Zeros(k)) && buflen == (|s.pending| + 1 + k) % BLOCK
        invariant k <= ZerosFor(|s.pending|)
        decreases ZerosFor(|s.pending|) - k
      {
        NotYet(|s.pending|, k);
        TakeTwice(s, [0x80] + Zeros(k), [0x00]);
        assert [0x80] + Zeros(k) + [0x00] == [0x80] + Zeros(k + 1);
        TakeLeaves(s, [0x80] + Zeros(k + 1));
        PutByte(0x00);
        k := k + 1;
      }
      ZerosAre(|s.pending|, k);
      TakeTwice(s, [0x80] + Zeros(k), Be64(bitlen));
      PutAll(Be64(bitlen));
      out := Output(value);
    }
  }

  /** Bytes that at most fill a block. */
  lemma Filled(s: Stream, data: seq<byte>, after: Stream)
    requires |s.pending| + |data| <= BLOCK && after.len == s.len
    requires if |s.pending| + |data| == BLOCK then after.pending == []
      && after.value == Compress(s.value, s.pending + data)
             else after.pending == s.pending + data && after.value == s.value
    ensures after == Take(s, data)
  {
    hide Compress;
    var all := s.pending + data;
    if |all| == BLOCK {
      assert all[..BLOCK] == all && all[BLOCK..] == [];
      FoldOne(s.value, all);
    } else {
      assert all[..0] == [] && all[0..] == all;
      FoldShort(s.value, []);
    }
  }

  lemma TakeCounts(s: Stream, counted: Stream, data: seq<byte>)
    requires counted == s.(len := (s.len + |data|) % U64)
    ensures Take(counted, data) == Absorb(s, data)
  {
    hide Fold;
  }

  /** A whole block at the front of the data. */
  lemma BlockTaken(s: Stream, data: seq<byte>, after: Stream)
    requires s.pending == [] && |data| >= BLOCK && after == s.(value := Compress(s.value, data[..BLOCK]))
    ensures Take(after, data[BLOCK..]) == Take(s, data)
  {
    hide Compress, Fold;
    assert data == data[..BLOCK] + data[BLOCK..];
    TakeTwice(s, data[..BLOCK], data[BLOCK..]);
    TakeWhole(s, data[..BLOCK]);
    FoldOne(s.value, data[..BLOCK]);
    TakeLeaves(s, data[..BLOCK]);
  }

  /** Less than a block only waits. */
  lemma ShortTaken(s: Stream, data: seq<byte>)
    requires |s.pending| + |data| < BLOCK
    ensures Take(s, data) == s.(pending := s.pending + data) && (data == [] ==> Take(s, data) == s)
  {
    hide Compress;
    var all := s.pending + data;
    assert all[..0] == [] && all[0..] == all;
  }

  lemma NotYet(n: nat, k: nat)
    requires k <= ZerosFor(n) && (n + 1 + k) % BLOCK != 56
    ensures k < ZerosFor(n)
  {
  }

  lemma ZerosAre(n: nat, k: nat)
    requires k <= ZerosFor(n) && (n + 1 + k) % BLOCK == 56
    ensures k == ZerosFor(n)
  {
  }

  /** However a message is cut, hashing it chunk by chunk gives the one-shot hash. */
  method HashChunks(chunks: seq<seq<byte>>) returns (out: seq<byte>)
    ensures out == Hash(Joined(chunks))
  {
    hide Absorb, Finish, Hash, AbsorbAll;
    var h := new Hasher();
    assert chunks[0..] == chunks;
    for i := 0 to |chunks|
      invariant h.Valid() && fresh(h) && fresh(h.buf) && AbsorbAll(EMPTY, chunks) == AbsorbAll(h.View(), chunks[i..])
    {
      AbsorbStep(h.View(), chunks, i);
      h.Update(chunks[i]);
    }
    AbsorbEnd(h.View(), chunks);
    out := h.Digest();
    StreamIsHash(chunks);
  }

  lemma AbsorbStep(s: Stream, chunks: seq<seq<byte>>, i: nat)
    requires i < |chunks|
    ensures AbsorbAll(s, chunks[i..]) == AbsorbAll(Absorb(s, chunks[i]), chunks[i + 1..])
  {
    hide Absorb;
    assert chunks[i..][0] == chunks[i] && chunks[i..][1..] == chunks[i + 1..];
  }

  lemma AbsorbEnd(s: Stream, chunks: seq<seq<byte>>)
    ensures AbsorbAll(s, chunks[|chunks|..]) == s
  {
  }
}
