/** Selective acknowledgements: the held runs, nearest first (section 3 of RFC 2018). */
module TcpSack {
  import opened Bytes
  import opened TcpSeq
  import opened Tcp
  import opened TcpSafety
  import opened TcpPieces
  import P = TcpRuns

  /** Runs one acknowledgement names. */
  const SACK_BLOCKS: nat := 3

  /** A half-open run. */
  datatype Span<T> = Span(lo: T, hi: T)

  /** The held segments as runs of sequence numbers, in the order they arrived. */
  function Spans(held: seq<Held>): (r: seq<Span<u32>>)
    ensures |r| == |held| && forall i | 0 <= i < |r| :: r[i] == Span(held[i].at, Add(held[i].at, |held[i].data|))
  {
    seq(|held|, i requires 0 <= i < |held| => Span(held[i].at, Add(held[i].at, |held[i].data|)))
  }

  function Insert(rcvNxt: u32, x: Span<u32>, sorted: seq<Span<u32>>): seq<Span<u32>> {
    if sorted == [] || Sub(x.lo, rcvNxt) <= Sub(sorted[0].lo, rcvNxt) then [x] + sorted
    else [sorted[0]] + Insert(rcvNxt, x, sorted[1..])
  }

  /** A stable sort by the distance from the hole. */
  function SortFrom(rcvNxt: u32, spans: seq<Span<u32>>): seq<Span<u32>> {
    if spans == [] then [] else Insert(rcvNxt, spans[0], SortFrom(rcvNxt, spans[1..]))
  }

  /** Runs that meet joined into one. */
  function Coalesce<T(==)>(done: seq<Span<T>>, rest: seq<Span<T>>): seq<Span<T>>
    decreases |rest|
  {
    if rest == [] then done else Coalesce(Joined(done, rest[0]), rest[1..])
  }

  function Joined<T(==)>(done: seq<Span<T>>, s: Span<T>): seq<Span<T>> {
    if done != [] && done[|done| - 1].hi == s.lo then done[..|done| - 1] + [Span(done[|done| - 1].lo, s.hi)]
    else done + [s]
  }

  function Truncate<T>(s: seq<T>): seq<T> { if |s| <= SACK_BLOCKS then s else s[..SACK_BLOCKS] }

  /** What an acknowledgement of this connection names. */
  function HeldBlocks(c: State): seq<Span<u32>> {
    if !c.sackOk || c.held == [] then []
    else Truncate(Coalesce([], SortFrom(c.rcvNxt, Spans(c.held))))
  }

  /** `held_blocks` as it runs. */
  method NameHeld(c: State) returns (runs: seq<Span<u32>>)
    ensures runs == HeldBlocks(c)
  {
    if !c.sackOk || c.held == [] { return []; }
    var held := SortFrom(c.rcvNxt, Spans(c.held));
    runs := [];
    for i := 0 to |held|
      invariant Coalesce([], held) == Coalesce(runs, held[i..])
    {
      assert held[i..][0] == held[i] && held[i..][1..] == held[i + 1..];
      if runs != [] && runs[|runs| - 1].hi == held[i].lo {
        runs := runs[..|runs| - 1] + [Span(runs[|runs| - 1].lo, held[i].hi)];
      } else {
        runs := runs + [held[i]];
      }
    }
    if |runs| > SACK_BLOCKS { runs := runs[..SACK_BLOCKS]; }
  }

  // ---- the same over piece numbers ----

  function InsertPiece(k: nat, sorted: seq<nat>): (r: seq<nat>)
    ensures |r| == |sorted| + 1
  {
    if sorted == [] || k <= sorted[0] then [k] + sorted else [sorted[0]] + InsertPiece(k, sorted[1..])
  }

  function SortPieces(ks: seq<nat>): (r: seq<nat>)
    ensures |r| == |ks|
  {
    if ks == [] then [] else InsertPiece(ks[0], SortPieces(ks[1..]))
  }

  ghost predicate Ascending(s: seq<nat>) { forall i, j | 0 <= i < j < |s| :: s[i] < s[j] }

  lemma ConsHas(a: nat, r: seq<nat>, x: nat)
    ensures x in [a] + r <==> x == a || x in r
  {
  }

  lemma ConsAscends(a: nat, r: seq<nat>)
    requires Ascending(r) && forall x | x in r :: a < x
    ensures Ascending([a] + r)
  {
    var s := [a] + r;
    forall i, j | 0 <= i < j < |s| ensures s[i] < s[j] { assert s[j] == r[j - 1] && r[j - 1] in r; }
  }

  lemma {:induction false} InsertPieceIs(k: nat, s: seq<nat>)
    requires Ascending(s) && k !in s
    ensures Ascending(InsertPiece(k, s)) && forall x :: x in InsertPiece(k, s) <==> x == k || x in s
    decreases |s|
  {
    if s != [] && k > s[0] {
      var rest := InsertPiece(k, s[1..]);
      InsertPieceIs(k, s[1..]);
      ConsAscends(s[0], rest);
      assert s == [s[0]] + s[1..];
      forall x ensures x in InsertPiece(k, s) <==> x == k || x in s {
        ConsHas(s[0], rest, x);
        ConsHas(s[0], s[1..], x);
      }
    } else {
      assert s != [] ==> s[0] in s;
      ConsAscends(k, s);
      forall x ensures x in InsertPiece(k, s) <==> x == k || x in s { ConsHas(k, s, x); }
    }
  }

  lemma {:induction false} SortPiecesIs(ks: seq<nat>)
    requires Distinct(ks)
    ensures Ascending(SortPieces(ks)) && forall x :: x in SortPieces(ks) <==> x in ks
    decreases |ks|
  {
    if ks != [] {
      assert Distinct(ks[1..]) && ks[0] !in ks[1..];
      SortPiecesIs(ks[1..]);
      InsertPieceIs(ks[0], SortPieces(ks[1..]));
    }
  }

  /** Each piece as a run of its own. */
  function Single(ks: seq<nat>): (r: seq<Span<nat>>)
    ensures |r| == |ks| && forall i | 0 <= i < |r| :: r[i] == Span(ks[i], ks[i] + 1)
  {
    seq(|ks|, i requires 0 <= i < |ks| => Span(ks[i], ks[i] + 1))
  }

  ghost predicate In(runs: seq<Span<nat>>, x: nat) { exists i | 0 <= i < |runs| :: runs[i].lo <= x < runs[i].hi }

  /** Runs in order, none empty, with a gap between any two: no two could be joined. */
  ghost predicate Gapped(runs: seq<Span<nat>>) {
    && (forall i | 0 <= i < |runs| :: runs[i].lo < runs[i].hi)
    && forall i, j | 0 <= i < j < |runs| :: runs[i].hi < runs[j].lo
  }

  ghost predicate EndsBy(runs: seq<Span<nat>>, end: nat) { forall i | 0 <= i < |runs| :: runs[i].hi <= end }

  lemma InAppend(a: seq<Span<nat>>, s: Span<nat>, x: nat)
    ensures In(a + [s], x) <==> In(a, x) || s.lo <= x < s.hi
  {
    var r := a + [s];
    if In(a, x) {
      var i :| 0 <= i < |a| && a[i].lo <= x < a[i].hi;
      assert r[i] == a[i];
    }
    if s.lo <= x < s.hi { assert r[|a|] == s; }
  }

  lemma JoinedIn(done: seq<Span<nat>>, k: nat, x: nat)
    requires Gapped(done) && EndsBy(done, k)
    ensures In(Joined(done, Span(k, k + 1)), x) <==> In(done, x) || x == k
  {
    hide In, EndsBy;
    var n := |done|;
    if n > 0 && done[n - 1].hi == k {
      InAppend(done[..n - 1], Span(done[n - 1].lo, k + 1), x);
      InAppend(done[..n - 1], done[n - 1], x);
      assert done == done[..n - 1] + [done[n - 1]];
    } else {
      InAppend(done, Span(k, k + 1), x);
    }
  }

  lemma JoinedGapped(done: seq<Span<nat>>, k: nat)
    requires Gapped(done) && EndsBy(done, k)
    ensures var r := Joined(done, Span(k, k + 1)); Gapped(r) && EndsBy(r, k + 1)
  {
  }

  /** Joining ascending pieces gives exactly their maximal runs. */
  lemma {:induction false} CoalesceIs(done: seq<Span<nat>>, ks: seq<nat>)
    requires Gapped(done) && Ascending(ks) && (ks != [] ==> EndsBy(done, ks[0]))
    ensures var r := Coalesce(done, Single(ks)); Gapped(r) && forall x: nat :: In(r, x) <==> In(done, x) || x in ks
    decreases |ks|
  {
    hide Gapped, In, Joined;
    if ks != [] {
      JoinedGapped(done, ks[0]);
      var next := Joined(done, Span(ks[0], ks[0] + 1));
      forall x: nat ensures In(next, x) <==> In(done, x) || x == ks[0] { JoinedIn(done, ks[0], x); }
      assert Single(ks)[1..] == Single(ks[1..]);
      if |ks| > 1 { EndsLater(next, ks[0] + 1, ks[1]); }
      CoalesceIs(next, ks[1..]);
      assert forall x :: x in ks <==> x == ks[0] || x in ks[1..];
    }
  }

  lemma EndsLater(runs: seq<Span<nat>>, end: nat, end': nat)
    requires EndsBy(runs, end) && end <= end'
    ensures EndsBy(runs, end')
  {
  }

  // ---- the two agree ----

  /** A run of pieces as the numbers it starts and ends at. */
  ghost function Numbered(f: Flow, s: Span<nat>): Span<u32>
    requires f.Valid() && s.lo <= f.Count() && s.hi <= f.Count()
  {
    Span(f.At(s.lo), f.At(s.hi))
  }

  ghost predicate Fit(f: Flow, runs: seq<Span<nat>>) {
    forall i | 0 <= i < |runs| :: runs[i].lo <= f.Count() && runs[i].hi <= f.Count()
  }

  ghost function Numbers(f: Flow, runs: seq<Span<nat>>): (r: seq<Span<u32>>)
    requires f.Valid() && Fit(f, runs)
    ensures |r| == |runs| && forall i | 0 <= i < |r| :: r[i] == Numbered(f, runs[i])
  {
    seq(|runs|, i requires 0 <= i < |runs| => Numbered(f, runs[i]))
  }

  lemma JoinedNumbers(f: Flow, done: seq<Span<nat>>, s: Span<nat>)
    requires f.Valid() && Fit(f, done) && s.lo <= f.Count() && s.hi <= f.Count()
    ensures Fit(f, Joined(done, s)) && Joined(Numbers(f, done), Numbered(f, s)) == Numbers(f, Joined(done, s))
  {
    hide Flow.At, Flow.Valid;
    var n := |done|;
    if n > 0 { f.Ordered(done[n - 1].hi, s.lo); }
  }

  lemma {:induction false} CoalesceNumbers(f: Flow, done: seq<Span<nat>>, rest: seq<Span<nat>>)
    requires f.Valid() && Fit(f, done) && Fit(f, rest)
    ensures Fit(f, Coalesce(done, rest))
      && Coalesce(Numbers(f, done), Numbers(f, rest)) == Numbers(f, Coalesce(done, rest))
    decreases |rest|
  {
    hide Flow.Valid, Joined, Numbered;
    if rest != [] {
      JoinedNumbers(f, done, rest[0]);
      assert Numbers(f, rest)[1..] == Numbers(f, rest[1..]);
      CoalesceNumbers(f, Joined(done, rest[0]), rest[1..]);
    }
  }

  ghost predicate Behind(f: Flow, ks: seq<nat>, j: nat) { forall i | 0 <= i < |ks| :: j < ks[i] < f.Count() }

  /** A piece's own run of numbers. */
  ghost function PieceSpan(f: Flow, k: nat): Span<u32>
    requires f.Valid() && k < f.Count()
  {
    Span(f.At(k), f.At(k + 1))
  }

  ghost function PieceSpans(f: Flow, ks: seq<nat>, j: nat): (r: seq<Span<u32>>)
    requires f.Valid() && Behind(f, ks, j)
    ensures |r| == |ks| && forall i | 0 <= i < |r| :: r[i] == PieceSpan(f, ks[i])
  {
    seq(|ks|, i requires 0 <= i < |ks| => PieceSpan(f, ks[i]))
  }

  lemma SpansCons(f: Flow, k: nat, ks: seq<nat>, j: nat)
    requires f.Valid() && j < k < f.Count() && Behind(f, ks, j)
    ensures Behind(f, [k] + ks, j) && PieceSpans(f, [k] + ks, j) == [PieceSpan(f, k)] + PieceSpans(f, ks, j)
  {
    hide Flow.Valid, PieceSpan;
  }

  lemma SpansRest(f: Flow, ks: seq<nat>, j: nat)
    requires f.Valid() && Behind(f, ks, j) && ks != []
    ensures Behind(f, ks[1..], j) && PieceSpans(f, ks, j)[1..] == PieceSpans(f, ks[1..], j)
  {
    hide Flow.Valid, PieceSpan;
  }

  lemma FartherIs(f: Flow, j: nat, k: nat, l: nat)
    requires f.Valid() && j < k < f.Count() && j < l < f.Count()
    ensures Sub(PieceSpan(f, k).lo, f.At(j)) <= Sub(PieceSpan(f, l).lo, f.At(j)) <==> k <= l
  {
    f.Past(j, k);
    f.Past(j, l);
  }

  /** Inserting a piece's run is inserting the piece. */
  lemma {:induction false} InsertMatches(f: Flow, j: nat, k: nat, ks: seq<nat>)
    requires f.Valid() && j < k < f.Count() && Behind(f, ks, j)
    ensures Behind(f, InsertPiece(k, ks), j)
    ensures Insert(f.At(j), PieceSpan(f, k), PieceSpans(f, ks, j)) == PieceSpans(f, InsertPiece(k, ks), j)
    decreases |ks|
  {
    hide Flow.Valid, Sub, PieceSpan, Flow.At, PieceSpans;
    if ks == [] {
      SpansCons(f, k, ks, j);
    } else {
      FartherIs(f, j, k, ks[0]);
      if k <= ks[0] {
        SpansCons(f, k, ks, j);
      } else {
        SpansRest(f, ks, j);
        InsertMatches(f, j, k, ks[1..]);
        SpansCons(f, ks[0], InsertPiece(k, ks[1..]), j);
      }
    }
  }

  lemma {:induction false} SortMatches(f: Flow, j: nat, ks: seq<nat>)
    requires f.Valid() && j <= f.Count() && Behind(f, ks, j)
    ensures Behind(f, SortPieces(ks), j)
    ensures SortFrom(f.At(j), PieceSpans(f, ks, j)) == PieceSpans(f, SortPieces(ks), j)
    decreases |ks|
  {
    hide Flow.Valid, Insert, InsertPiece, PieceSpan, Flow.At;
    if ks == [] {
      assert PieceSpans(f, ks, j) == [] && PieceSpans(f, SortPieces(ks), j) == [];
    } else {
      SpansRest(f, ks, j);
      SortMatches(f, j, ks[1..]);
      InsertMatches(f, j, ks[0], SortPieces(ks[1..]));
    }
  }

  lemma SingleNumbers(f: Flow, ks: seq<nat>, j: nat)
    requires f.Valid() && Behind(f, ks, j)
    ensures Fit(f, Single(ks)) && PieceSpans(f, ks, j) == Numbers(f, Single(ks))
  {
  }

  /** Held segments are their pieces' runs. */
  lemma HeldSpans(f: Flow, held: seq<Held>, ks: seq<nat>, j: nat)
    requires f.Valid() && HeldAre(f, held, ks) && Behind(f, ks, j)
    ensures Spans(held) == PieceSpans(f, ks, j)
  {
    hide Flow.Valid, Flow.At, Flow.Bytes, Add;
    forall i | 0 <= i < |ks| ensures Spans(held)[i] == PieceSpans(f, ks, j)[i] { f.EndIs(ks[i]); }
  }

  // ---- exactness ----

  /** Offset `x` of the stream is held: some held segment carries it. */
  ghost predicate HeldByte(f: Flow, c: State, x: nat) {
    exists i, off: nat | 0 <= i < |c.held| ::
      Piece(f.isn, f.stream, c.held[i].at, c.held[i].data, off) && off <= x < off + |c.held[i].data|
  }

  lemma SteadyBehind(f: Flow, c: State, p: Pieces)
    requires Steady(f, c, p)
    ensures f.Valid() && HeldAre(f, c.held, p.held) && Distinct(p.held) && Behind(f, p.held, p.joined)
      && p.joined <= f.Count()
    ensures p.held != [] ==> c.rcvNxt == f.At(p.joined)
    ensures |c.request| == f.cuts[p.joined]
  {
    if p.held != [] { assert p.joined < p.held[0] < f.Count(); }
  }

  /** What is named is the first three maximal runs of held pieces. */
  lemma BlocksOfPieces(f: Flow, c: State, p: Pieces) returns (runs: seq<Span<nat>>)
    requires Steady(f, c, p)
    ensures f.Valid() && Gapped(runs) && Fit(f, runs) && forall x: nat :: In(runs, x) <==> x in p.held
    ensures HeldBlocks(c) == if c.sackOk then Truncate(Numbers(f, runs)) else []
  {
    hide Flow.Valid, Gapped, Fit, In, Steady, HeldAre, Distinct, Behind, SortFrom, Coalesce, Ascending, EndsBy, Numbers,
         Flow.At;
    SteadyBehind(f, c, p);
    var sorted := SortPieces(p.held);
    HeldSpans(f, c.held, p.held, p.joined);
    SortMatches(f, p.joined, p.held);
    SortPiecesIs(p.held);
    NothingIn(sorted);
    CoalesceIs([], sorted);
    SingleNumbers(f, sorted, p.joined);
    NoNumbers(f);
    CoalesceNumbers(f, [], Single(sorted));
    runs := Coalesce([], Single(sorted));
    SameLength(f, c.held, p.held);
    if p.held == [] { NoRuns(f, runs); }
  }

  lemma NothingIn(ks: seq<nat>)
    ensures Gapped([]) && EndsBy([], if ks == [] then 0 else ks[0]) && forall x: nat :: !In([], x)
  {
  }

  lemma NoNumbers(f: Flow)
    requires f.Valid()
    ensures Fit(f, []) && Numbers(f, []) == []
  {
  }

  lemma NoRuns(f: Flow, runs: seq<Span<nat>>)
    requires f.Valid() && Fit(f, runs) && Gapped(runs) && forall x: nat :: !In(runs, x)
    ensures Numbers(f, runs) == []
  {
    if runs != [] { assert In(runs, runs[0].lo); }
  }

  /** The run of pieces as a run of bytes. */
  ghost function ByteRun(f: Flow, s: Span<nat>): Span<nat>
    requires f.Valid() && s.lo <= f.Count() && s.hi <= f.Count()
  {
    Span(f.cuts[s.lo], f.cuts[s.hi])
  }

  ghost function ByteRuns(f: Flow, runs: seq<Span<nat>>): (r: seq<Span<nat>>)
    requires f.Valid() && Fit(f, runs)
    ensures |r| == |runs| && forall i | 0 <= i < |r| :: r[i] == ByteRun(f, runs[i])
  {
    seq(|runs|, i requires 0 <= i < |runs| => ByteRun(f, runs[i]))
  }

  /** A byte of the stream lies in exactly one piece. */
  lemma {:induction false} PieceOf(f: Flow, x: nat, lo: nat, hi: nat) returns (k: nat)
    requires f.Valid() && lo < hi <= f.Count() && f.cuts[lo] <= x < f.cuts[hi]
    ensures lo <= k < hi && f.cuts[k] <= x < f.cuts[k + 1]
    decreases hi - lo
  {
    if x < f.cuts[lo + 1] { k := lo; } else { k := PieceOf(f, x, lo + 1, hi); }
  }

  /** A byte is held exactly when it lies in a held piece. */
  lemma HeldByteIs(f: Flow, c: State, p: Pieces, x: nat)
    requires Steady(f, c, p)
    ensures f.Valid() && (HeldByte(f, c, x) <==> exists k: nat | k in p.held :: PieceHas(f, k, x))
  {
    hide Add, Flow.At, Distinct, AllFrom;
    if HeldByte(f, c, x) {
      var i, off: nat :| 0 <= i < |c.held| && Piece(f.isn, f.stream, c.held[i].at, c.held[i].data, off)
        && off <= x < off + |c.held[i].data|;
      HeldEntry(f, c.held, p.held, i);
      AtIs(f, p.held[i], off);
      assert p.held[i] in p.held && PieceHas(f, p.held[i], x);
    }
    if k: nat :| k in p.held && PieceHas(f, k, x) {
      var i :| 0 <= i < |p.held| && p.held[i] == k;
      HeldEntry(f, c.held, p.held, i);
      PieceIs(f, k);
      assert Piece(f.isn, f.stream, c.held[i].at, c.held[i].data, f.cuts[k]);
    }
  }

  lemma AtIs(f: Flow, k: nat, off: nat)
    requires f.Valid() && k < f.Count() && Piece(f.isn, f.stream, f.At(k), f.Bytes(k), off)
    ensures off == f.cuts[k]
  {
    AddSame(f.isn, 1 + off, 1 + f.cuts[k]);
  }

  lemma PieceIs(f: Flow, k: nat)
    requires f.Valid() && k < f.Count()
    ensures Piece(f.isn, f.stream, f.At(k), f.Bytes(k), f.cuts[k]) && f.cuts[k] + |f.Bytes(k)| == f.cuts[k + 1]
  {
  }

  lemma ByteRunsGapped(f: Flow, runs: seq<Span<nat>>)
    requires f.Valid() && Fit(f, runs) && Gapped(runs)
    ensures Gapped(ByteRuns(f, runs))
  {
  }

  lemma CutsRise(f: Flow, a: nat, b: nat)
    requires f.Valid() && a <= b <= f.Count()
    ensures f.cuts[a] <= f.cuts[b] && (a < b ==> f.cuts[a] < f.cuts[b])
  {
  }

  ghost predicate PieceHas(f: Flow, k: nat, x: nat) { k < f.Count() && f.cuts[k] <= x < f.cuts[k + 1] }

  lemma ByteInPiece(f: Flow, runs: seq<Span<nat>>, x: nat) returns (k: nat)
    requires f.Valid() && Fit(f, runs) && Gapped(runs) && In(ByteRuns(f, runs), x)
    ensures PieceHas(f, k, x) && In(runs, k)
  {
    hide Flow.Valid;
    var r := ByteRuns(f, runs);
    var i :| 0 <= i < |r| && r[i].lo <= x < r[i].hi;
    k := PieceOf(f, x, runs[i].lo, runs[i].hi);
    assert runs[i].lo <= k < runs[i].hi;
  }

  lemma PieceInBytes(f: Flow, runs: seq<Span<nat>>, x: nat, k: nat)
    requires f.Valid() && Fit(f, runs) && In(runs, k) && PieceHas(f, k, x)
    ensures In(ByteRuns(f, runs), x)
  {
    hide Flow.Valid;
    var i :| 0 <= i < |runs| && runs[i].lo <= k < runs[i].hi;
    CutsRise(f, runs[i].lo, k);
    CutsRise(f, k + 1, runs[i].hi);
    var r := ByteRuns(f, runs);
    assert r[i].lo <= x < r[i].hi;
  }

  /** A byte lies in a run of bytes exactly when its piece lies in the run of pieces. */
  lemma ByteRunsHave(f: Flow, runs: seq<Span<nat>>, x: nat)
    requires f.Valid() && Fit(f, runs) && Gapped(runs)
    ensures In(ByteRuns(f, runs), x) <==> exists k: nat :: In(runs, k) && PieceHas(f, k, x)
  {
    hide Flow.Valid, In, Gapped, PieceHas, Fit;
    if In(ByteRuns(f, runs), x) { var k := ByteInPiece(f, runs, x); }
    if k: nat :| In(runs, k) && PieceHas(f, k, x) { PieceInBytes(f, runs, x, k); }
  }

  /** A run of the stream's bytes as sequence numbers. */
  ghost function Wire(f: Flow, runs: seq<Span<nat>>): (r: seq<Span<u32>>)
    ensures |r| == |runs| && forall i | 0 <= i < |r| ::
      r[i] == Span(Add(f.isn, 1 + runs[i].lo), Add(f.isn, 1 + runs[i].hi))
  {
    seq(|runs|, i requires 0 <= i < |runs| => Span(Add(f.isn, 1 + runs[i].lo), Add(f.isn, 1 + runs[i].hi)))
  }

  /** `runs` are the maximal runs of held bytes, nearest first, all strictly past the hole. */
  ghost predicate MaximalRuns(f: Flow, c: State, runs: seq<Span<nat>>) {
    && Gapped(runs)
    && (forall i | 0 <= i < |runs| :: |c.request| < runs[i].lo)
    && forall x: nat :: In(runs, x) <==> HeldByte(f, c, x)
  }

  lemma SteadyBlocks(f: Flow, c: State, p: Pieces) returns (runs: seq<Span<nat>>)
    requires Steady(f, c, p)
    ensures MaximalRuns(f, c, runs) && HeldBlocks(c) == if c.sackOk then Truncate(Wire(f, runs)) else []
  {
    hide Steady, HeldByte, In, Gapped, HeldBlocks, Add, Flow.Valid, Fit, PieceHas;
    SteadyBehind(f, c, p);
    var pieces := BlocksOfPieces(f, c, p);
    runs := ByteRuns(f, pieces);
    ByteRunsGapped(f, pieces);
    forall x: nat ensures In(runs, x) <==> HeldByte(f, c, x) {
      ByteRunsHave(f, pieces, x);
      HeldByteIs(f, c, p, x);
    }
    RunsPast(f, p.held, p.joined, pieces);
    WireIs(f, pieces);
  }

  lemma WireIs(f: Flow, pieces: seq<Span<nat>>)
    requires f.Valid() && Fit(f, pieces)
    ensures Wire(f, ByteRuns(f, pieces)) == Numbers(f, pieces)
  {
  }

  lemma RunsPast(f: Flow, held: seq<nat>, j: nat, pieces: seq<Span<nat>>)
    requires f.Valid() && j <= f.Count() && Behind(f, held, j) && Fit(f, pieces) && Gapped(pieces)
      && forall x: nat :: In(pieces, x) <==> x in held
    ensures forall i | 0 <= i < |pieces| :: f.cuts[j] < ByteRuns(f, pieces)[i].lo
  {
    forall i | 0 <= i < |pieces| ensures f.cuts[j] < ByteRuns(f, pieces)[i].lo {
      assert In(pieces, pieces[i].lo);
    }
  }

  // ---- every run ----

  lemma ArriveSteady(f: Flow, c: State, p: Pieces, e: P.Event) returns (q: Pieces)
    requires Steady(f, c, p) && P.EventOk(f, e)
    ensures f.Valid() && Steady(f, Arrive(c, P.SegmentOf(f, e)), q) && Arrive(c, P.SegmentOf(f, e)).sackOk == c.sackOk
  {
    hide Data, Closing, Add, HeldAre, Distinct, AllFrom, LosesPiece, TakePiece, Matches;
    SteadyBehind(f, c, p);
    q := p;
    if e.Show? {
      f.EndIs(e.k);
      DataSteady(f, c, p, e.k);
      q := if LosesPiece(f, c, e.k) then p else TakePiece(p, e.k);
      if e.fin { P.ClosingMatches(f, Data(c, f.At(e.k), f.Bytes(e.k)), q); }
    } else {
      P.ClosingMatches(f, c, p);
      P.BareFinIs(f);
    }
  }

  lemma {:induction false} RunSteady(f: Flow, c: State, p: Pieces, es: seq<P.Event>) returns (q: Pieces)
    requires f.Valid() && Steady(f, c, p) && P.EventsOk(f, es)
    ensures Steady(f, P.Run(f, c, es), q) && P.Run(f, c, es).sackOk == c.sackOk
    decreases |es|
  {
    hide Steady, Arrive;
    q := p;
    if es != [] {
      assert P.EventOk(f, es[0]);
      q := ArriveSteady(f, c, p, es[0]);
      q := RunSteady(f, Arrive(c, P.SegmentOf(f, es[0])), q, es[1..]);
    }
  }

  /** Exactness. After any run over a fixed segmentation, an acknowledgement names the first
      three of the maximal runs of held bytes, nearest the hole first; and it names none to a
      guest that never offered to read them. */
  lemma SackExact(f: Flow, sackOk: bool, es: seq<P.Event>) returns (runs: seq<Span<nat>>)
    requires f.Valid() && P.EventsOk(f, es)
    ensures var c := ArriveAll(Accept(f.isn, sackOk), P.Segments(f, es));
      MaximalRuns(f, c, runs) && HeldBlocks(c) == if sackOk then Truncate(Wire(f, runs)) else []
  {
    hide Steady, Arrive, HeldBlocks, MaximalRuns, P.Run, ArriveAll;
    AcceptSteady(f, sackOk);
    var q := RunSteady(f, Accept(f.isn, sackOk), Pieces(0, [], 0), es);
    P.RunIs(f, Accept(f.isn, sackOk), es);
    runs := SteadyBlocks(f, P.Run(f, Accept(f.isn, sackOk), es), q);
  }

  lemma AcceptSteady(f: Flow, sackOk: bool)
    requires f.Valid()
    ensures Steady(f, Accept(f.isn, sackOk), Pieces(0, [], 0))
  {
  }
}
