/** A stream cut into fixed pieces: the connection seen as a machine over piece numbers. */
module TcpPieces {
  import opened Bytes
  import opened TcpSeq
  import opened Tcp
  import opened TcpSafety

  /** A stream sent from `isn` in fixed pieces, the `k`th from `cuts[k]` up to `cuts[k + 1]`. */
  datatype Flow = Flow(isn: u32, stream: seq<byte>, cuts: seq<nat>) {
    ghost predicate Valid() {
      && Short(stream) && |cuts| >= 1 && cuts[0] == 0 && cuts[|cuts| - 1] == |stream|
      && forall i, j | 0 <= i < j < |cuts| :: cuts[i] < cuts[j]
    }

    /** How many pieces there are. */
    function Count(): int { |cuts| - 1 }

    ghost function Bytes(k: nat): seq<byte>
      requires Valid() && k < Count()
    {
      stream[cuts[k]..cuts[k + 1]]
    }

    /** The sequence number of a cut. */
    ghost function At(k: nat): u32
      requires Valid() && k <= Count()
    {
      Add(isn, 1 + cuts[k])
    }

    /** The end of a piece is where the next begins. */
    lemma EndIs(k: nat)
      requires Valid() && k < Count()
      ensures Add(At(k), |Bytes(k)|) == At(k + 1) && Bytes(k) != []
    {
      AddAdd(isn, 1 + cuts[k], |Bytes(k)|);
    }

    /** Cuts have different numbers, in the order of the cuts. */
    lemma Ordered(j: nat, k: nat)
      requires Valid() && j <= Count() && k <= Count()
      ensures At(j) == At(k) <==> j == k
      ensures Before(At(j), At(k)) <==> j < k
    {
      AddSame(isn, 1 + cuts[j], 1 + cuts[k]);
      BeforeAdd(isn, 1 + cuts[j], 1 + cuts[k]);
    }

    /** How far a cut lies past another. */
    lemma Past(j: nat, k: nat)
      requires Valid() && j <= Count() && k < Count()
      ensures Sub(At(k), At(j)) < HALF - 1 <==> j <= k
      ensures j <= k ==> Sub(At(k), At(j)) == cuts[k] - cuts[j]
    {
      SubAdd(isn, 1 + cuts[k], 1 + cuts[j]);
      Wrap(cuts[k] as int - cuts[j] as int);
    }

    /** Behind the FIN, no piece is in order or past a hole. */
    lemma PastFin(k: nat)
      requires Valid() && k < Count()
      ensures At(k) != Add(isn, 2 + |stream|) && Sub(At(k), Add(isn, 2 + |stream|)) >= HALF - 1
    {
      AddSame(isn, 1 + cuts[k], 2 + |stream|);
      SubAdd(isn, 1 + cuts[k], 2 + |stream|);
      Wrap(cuts[k] as int - 1 - |stream|);
    }
  }

  /** Which pieces were joined, are held in what order, and how far pieces were seen. */
  datatype Pieces = Pieces(joined: nat, held: seq<nat>, seen: nat)

  function IndexIn(s: seq<nat>, k: nat): (i: nat)
    ensures i <= |s| && (i < |s| ==> s[i] == k) && forall j | 0 <= j < i :: s[j] != k
    ensures i == |s| <==> k !in s
  {
    if s == [] || s[0] == k then 0 else 1 + IndexIn(s[1..], k)
  }

  function Except(s: seq<nat>, i: nat): (r: seq<nat>)
    requires i < |s|
    ensures |r| == |s| - 1
  {
    s[..i] + s[i + 1..]
  }

  function DrainPieces(p: Pieces): Pieces
    decreases |p.held|
  {
    var i := IndexIn(p.held, p.joined);
    if i == |p.held| then p else DrainPieces(p.(joined := p.joined + 1, held := Except(p.held, i)))
  }

  function TakePiece(p: Pieces, k: nat): Pieces {
    if k == p.joined then DrainPieces(p.(joined := p.joined + 1))
    else if k > p.joined && k !in p.held then p.(held := p.held + [k])
    else p
  }

  /** A piece counts as new: it lies at or past what was seen, or the end of what was seen has the
      number zero, which reads as nothing seen. */
  ghost predicate IsNew(f: Flow, p: Pieces, k: nat)
    requires f.Valid() && p.seen <= f.Count()
  {
    f.At(p.seen) == 0 || k >= p.seen
  }

  ghost function SeePiece(f: Flow, p: Pieces, k: nat): Pieces
    requires f.Valid() && p.seen <= f.Count()
  {
    if IsNew(f, p, k) then p.(seen := k + 1) else p
  }

  // ---- the connection refines the piece machine ----

  ghost predicate HeldAre(f: Flow, held: seq<Held>, ks: seq<nat>)
    requires f.Valid()
  {
    |held| == |ks| && forall i | 0 <= i < |ks| :: ks[i] < f.Count() && held[i] == Held(f.At(ks[i]), f.Bytes(ks[i]))
  }

  ghost predicate Distinct(s: seq<nat>) { forall i, j | 0 <= i < j < |s| :: s[i] != s[j] }

  ghost predicate AllFrom(s: seq<nat>, lo: nat) { forall i | 0 <= i < |s| :: lo <= s[i] }

  /** What is joined and held is what the piece machine says, held pieces starting no earlier
      than `lo`. */
  ghost predicate Matches(f: Flow, c: State, p: Pieces, lo: nat) {
    && f.Valid() && p.joined <= f.Count()
    && c.request == f.stream[..f.cuts[p.joined]]
    && c.rcvNxt == (if c.finSeen then Add(f.isn, 2 + |f.stream|) else f.At(p.joined))
    && (c.finSeen ==> p.joined == f.Count())
    && HeldAre(f, c.held, p.held) && Distinct(p.held) && AllFrom(p.held, lo)
  }

  /** Between segments, held pieces lie strictly past the hole. */
  ghost predicate Steady(f: Flow, c: State, p: Pieces) { Matches(f, c, p, p.joined + 1) }

  /** And what was seen is what the piece machine saw. */
  ghost predicate Settled(f: Flow, c: State, p: Pieces) {
    Steady(f, c, p) && p.seen <= f.Count() && c.seenThrough == f.At(p.seen)
  }

  lemma AcceptMatches(f: Flow, sackOk: bool)
    requires f.Valid()
    ensures Settled(f, Accept(f.isn, sackOk), Pieces(0, [], 0))
  {
  }

  /** Looking a piece up among held segments is looking its number up. */
  lemma {:induction false} SameIndex(f: Flow, held: seq<Held>, ks: seq<nat>, k: nat)
    requires f.Valid() && HeldAre(f, held, ks) && k <= f.Count()
    ensures HeldAt(held, f.At(k)) == IndexIn(ks, k)
    decreases |ks|
  {
    if ks != [] {
      f.Ordered(ks[0], k);
      if ks[0] != k { SameIndex(f, held[1..], ks[1..], k); }
    }
  }

  lemma ExceptHolds(f: Flow, held: seq<Held>, ks: seq<nat>, i: nat, lo: nat)
    requires f.Valid() && HeldAre(f, held, ks) && Distinct(ks) && AllFrom(ks, lo) && i < |ks| && ks[i] == lo
    ensures HeldAre(f, Without(held, i), Except(ks, i)) && Distinct(Except(ks, i)) && AllFrom(Except(ks, i), lo + 1)
  {
    var r := Except(ks, i);
    forall j | 0 <= j < |r|
      ensures r[j] == ks[if j < i then j else j + 1] && Without(held, i)[j] == held[if j < i then j else j + 1]
    {
    }
  }

  lemma Tighten(s: seq<nat>, lo: nat)
    requires AllFrom(s, lo) && lo !in s
    ensures AllFrom(s, lo + 1)
  {
    forall i | 0 <= i < |s| ensures lo + 1 <= s[i] { assert s[i] in s; }
  }

  /** A piece joined behind the request. */
  lemma JoinBytes(f: Flow, k: nat)
    requires f.Valid() && k < f.Count()
    ensures f.stream[..f.cuts[k]] + f.Bytes(k) == f.stream[..f.cuts[k + 1]]
  {
  }

  /** Joining what follows on joins the pieces that follow on. */
  lemma {:induction false} DrainMatches(f: Flow, c: State, p: Pieces)
    requires Matches(f, c, p, p.joined) && !c.finSeen
    ensures Steady(f, Drain(c), DrainPieces(p)) && DrainPieces(p).seen == p.seen
    ensures Drain(c) == c.(rcvNxt := Drain(c).rcvNxt, held := Drain(c).held, request := Drain(c).request)
    decreases |p.held|
  {
    hide Add, HeldAt, IndexIn, Flow.Valid, Distinct, AllFrom, HeldAre;
    SameIndex(f, c.held, p.held, p.joined);
    var i := IndexIn(p.held, p.joined);
    SameLength(f, c.held, p.held);
    if i == |p.held| {
      Tighten(p.held, p.joined);
    } else {
      HeldEntry(f, c.held, p.held, i);
      f.EndIs(p.joined);
      JoinBytes(f, p.joined);
      ExceptHolds(f, c.held, p.held, i, p.joined);
      var data := c.held[i].data;
      DrainMatches(f, c.(rcvNxt := Add(c.rcvNxt, |data|), held := Without(c.held, i), request := c.request + data),
                   p.(joined := p.joined + 1, held := Except(p.held, i)));
    }
  }

  lemma SameLength(f: Flow, held: seq<Held>, ks: seq<nat>)
    requires f.Valid() && HeldAre(f, held, ks)
    ensures |held| == |ks|
  {
  }

  lemma HeldEntry(f: Flow, held: seq<Held>, ks: seq<nat>, i: nat)
    requires f.Valid() && HeldAre(f, held, ks) && i < |ks|
    ensures |held| == |ks| && ks[i] < f.Count() && held[i] == Held(f.At(ks[i]), f.Bytes(ks[i]))
  {
  }

  lemma HoldMore(f: Flow, held: seq<Held>, ks: seq<nat>, k: nat, lo: nat)
    requires f.Valid() && HeldAre(f, held, ks) && Distinct(ks) && AllFrom(ks, lo) && lo <= k < f.Count() && k !in ks
    ensures HeldAre(f, held + [Held(f.At(k), f.Bytes(k))], ks + [k]) && Distinct(ks + [k]) && AllFrom(ks + [k], lo)
  {
    forall i, j | 0 <= i < j < |ks| + 1 ensures (ks + [k])[i] != (ks + [k])[j] {
      if j == |ks| { assert ks[i] in ks; }
    }
  }

  /** Taking a piece takes its number. */
  lemma TakeMatches(f: Flow, c: State, p: Pieces, k: nat)
    requires Steady(f, c, p) && k < f.Count()
    ensures Steady(f, Take(c, f.At(k), f.Bytes(k)), TakePiece(p, k)) && TakePiece(p, k).seen == p.seen
    ensures var d := Take(c, f.At(k), f.Bytes(k)); d == c.(rcvNxt := d.rcvNxt, held := d.held, request := d.request)
  {
    hide Add, Sub, HeldAt, IndexIn, Flow.Valid, Distinct, AllFrom, HeldAre, Drain, DrainPieces;
    SameLength(f, c.held, p.held);
    SameIndex(f, c.held, p.held, k);
    if c.finSeen {
      f.PastFin(k);
    } else {
      f.Ordered(k, p.joined);
      f.Past(p.joined, k);
      if k == p.joined {
        f.EndIs(k);
        JoinBytes(f, k);
        DrainMatches(f, c.(rcvNxt := Add(c.rcvNxt, |f.Bytes(k)|), request := c.request + f.Bytes(k)),
          p.(joined := k + 1));
      } else if k > p.joined && k !in p.held {
        HoldMore(f, c.held, p.held, k, p.joined + 1);
      }
    }
  }

  /** A piece is taken for a retransmission exactly when it is not new. */
  lemma AgainIs(f: Flow, c: State, p: Pieces, k: nat)
    requires Settled(f, c, p) && k < f.Count()
    ensures Again(c, f.At(k)) <==> !IsNew(f, p, k)
    ensures See(c, Add(f.At(k), |f.Bytes(k)|)) == c.(seenThrough := f.At(SeePiece(f, p, k).seen))
  {
    hide Add, Before, Flow.Valid, HeldAre, Distinct, AllFrom;
    f.Ordered(k, p.seen);
    f.Ordered(p.seen, k + 1);
    f.EndIs(k);
  }

  /** This end loses piece `k`. */
  ghost predicate LosesPiece(f: Flow, c: State, k: nat)
    requires f.Valid() && k < f.Count()
  {
    Withholds(c, f.At(k), f.Bytes(k))
  }

  /** One piece arriving is one step of the piece machine. It is lost exactly when it counts as new
      and its count is one of those this end loses; a piece that is not new changes no count. */
  lemma DataMatches(f: Flow, c: State, p: Pieces, k: nat)
    requires Settled(f, c, p) && k < f.Count() && !c.outbound
    ensures LosesPiece(f, c, k) <==> IsNew(f, p, k) && Loses(Counted(c, f.Bytes(k)))
    ensures var q := SeePiece(f, p, k); var d := Data(c, f.At(k), f.Bytes(k));
      && Settled(f, d, if LosesPiece(f, c, k) then q else TakePiece(q, k))
      && !d.outbound
      && d.newData == (if IsNew(f, p, k) then c.newData + 1 else c.newData)
      && d.long == (if IsNew(f, p, k) && c.newData == 0 then IsBulk(f.Bytes(k)) else c.long)
  {
    hide Add, Before, Take, TakePiece, IsBulk, Loses, Flow.Valid, HeldAre, Distinct, AllFrom;
    AgainIs(f, c, p, k);
    var seen := See(c, Add(f.At(k), |f.Bytes(k)|));
    var counted := if Again(c, f.At(k)) then seen else Counted(seen, f.Bytes(k));
    assert Settled(f, counted, SeePiece(f, p, k));
    TakeMatches(f, counted, SeePiece(f, p, k), k);
  }

  /** Whatever was seen, one piece arriving is lost or taken. */
  lemma DataSteady(f: Flow, c: State, p: Pieces, k: nat)
    requires Steady(f, c, p) && k < f.Count()
    ensures Steady(f, Data(c, f.At(k), f.Bytes(k)), if LosesPiece(f, c, k) then p else TakePiece(p, k))
    ensures Data(c, f.At(k), f.Bytes(k)).sackOk == c.sackOk
  {
    hide Add, Before, Take, TakePiece, IsBulk, Loses, Flow.Valid, HeldAre, Distinct, AllFrom;
    var seen := See(c, Add(f.At(k), |f.Bytes(k)|));
    var counted := if c.outbound || Again(c, f.At(k)) then seen else Counted(seen, f.Bytes(k));
    assert Steady(f, counted, p);
    TakeMatches(f, counted, p, k);
  }
}
