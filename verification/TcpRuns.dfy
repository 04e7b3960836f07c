/** Runs over a stream cut into fixed pieces: any interleaving, any repetition, any loss. */
module TcpRuns {
  import opened Bytes
  import opened TcpSeq
  import opened Tcp
  import opened TcpSafety
  import opened TcpPieces

  /** What the guest sends: a piece, the last with a FIN or not, or a FIN alone. */
  datatype Event = Show(k: nat, fin: bool) | BareFin

  ghost predicate EventOk(f: Flow, e: Event) { e.Show? ==> e.k < f.Count() && (e.fin ==> e.k == f.Count() - 1) }

  ghost predicate EventsOk(f: Flow, es: seq<Event>) { forall i | 0 <= i < |es| :: EventOk(f, es[i]) }

  ghost function SegmentOf(f: Flow, e: Event): Segment
    requires f.Valid() && EventOk(f, e)
  {
    match e
    case Show(k, fin) => Segment(f.At(k), f.Bytes(k), fin)
    case BareFin => Segment(f.At(f.Count()), [], true)
  }

  ghost function Segments(f: Flow, es: seq<Event>): (r: seq<Segment>)
    requires f.Valid() && EventsOk(f, es)
    ensures |r| == |es| && forall i | 0 <= i < |es| :: r[i] == SegmentOf(f, es[i])
  {
    seq(|es|, i requires 0 <= i < |es| => SegmentOf(f, es[i]))
  }

  ghost function Run(f: Flow, c: State, es: seq<Event>): State
    requires f.Valid() && EventsOk(f, es)
    decreases |es|
  {
    if es == [] then c else Run(f, Arrive(c, SegmentOf(f, es[0])), es[1..])
  }

  /** How often a piece was sent. */
  ghost function Times(es: seq<Event>, k: nat): nat {
    if es == [] then 0 else (if es[0].Show? && es[0].k == k then 1 else 0) + Times(es[1..], k)
  }

  lemma {:induction false} RunIs(f: Flow, c: State, es: seq<Event>)
    requires f.Valid() && EventsOk(f, es)
    ensures Run(f, c, es) == ArriveAll(c, Segments(f, es))
    decreases |es|
  {
    hide Arrive, Flow.Valid;
    if es != [] {
      RunIs(f, Arrive(c, SegmentOf(f, es[0])), es[1..]);
      assert Segments(f, es)[1..] == Segments(f, es[1..]);
    }
  }

  lemma {:induction false} TimesAppend(es: seq<Event>, e: Event, k: nat)
    ensures Times(es + [e], k) == Times(es, k) + if e.Show? && e.k == k then 1 else 0
    decreases |es|
  {
    if es == [] {
      assert es + [e] == [e];
    } else {
      assert (es + [e])[1..] == es[1..] + [e];
      TimesAppend(es[1..], e, k);
    }
  }

  lemma {:induction false} RunAppend(f: Flow, c: State, es: seq<Event>, e: Event)
    requires f.Valid() && EventsOk(f, es) && EventOk(f, e)
    ensures EventsOk(f, es + [e]) && Run(f, c, es + [e]) == Arrive(Run(f, c, es), SegmentOf(f, e))
    decreases |es|
  {
    hide Arrive, Flow.Valid;
    if es == [] {
      assert es + [e] == [e];
    } else {
      assert (es + [e])[1..] == es[1..] + [e];
      RunAppend(f, Arrive(c, SegmentOf(f, es[0])), es[1..], e);
    }
  }

  // ---- what the piece machine keeps ----

  /** Pieces taken are joined or held. */
  ghost predicate Kept(p: Pieces, taken: set<nat>) { forall k | k in taken :: k < p.joined || k in p.held }

  lemma ExceptKeeps(s: seq<nat>, i: nat, x: nat)
    requires i < |s| && x in s && x != s[i]
    ensures x in Except(s, i)
  {
    var j :| 0 <= j < |s| && s[j] == x;
    assert Except(s, i)[if j < i then j else j - 1] == x;
  }

  lemma {:induction false} DrainKeeps(p: Pieces, x: nat)
    ensures var d := DrainPieces(p);
      && d.seen == p.seen && p.joined <= d.joined
      && (x < p.joined || x in p.held ==> x < d.joined || x in d.held)
    decreases |p.held|
  {
    hide IndexIn, Except;
    var i := IndexIn(p.held, p.joined);
    if i < |p.held| {
      if x in p.held && x != p.joined { ExceptKeeps(p.held, i, x); }
      DrainKeeps(p.(joined := p.joined + 1, held := Except(p.held, i)), x);
    }
  }

  lemma TakeKeeps(p: Pieces, k: nat, taken: set<nat>)
    requires Kept(p, taken)
    ensures Kept(TakePiece(p, k), taken + {k})
  {
    var q := p.(joined := p.joined + 1);
    if k == p.joined {
      DrainKeeps(q, k);
      forall x | x in taken ensures x < DrainPieces(q).joined || x in DrainPieces(q).held { DrainKeeps(q, x); }
    }
  }

  lemma SeeKeeps(f: Flow, p: Pieces, k: nat, taken: set<nat>)
    requires f.Valid() && p.seen <= f.Count() && Kept(p, taken)
    ensures Kept(SeePiece(f, p, k), taken)
  {
  }

  lemma ClosingMatches(f: Flow, c: State, p: Pieces)
    requires Steady(f, c, p)
    ensures Steady(f, Closing(c, f.At(f.Count())), p)
    ensures Closing(c, f.At(f.Count())).seenThrough == c.seenThrough && Closing(c, f.At(f.Count())).sackOk == c.sackOk
  {
    hide HeldAre, Distinct, AllFrom, Add;
    if c.finSeen {
      AddSame(f.isn, 1 + |f.stream|, 2 + |f.stream|);
    } else {
      f.Ordered(f.Count(), p.joined);
      AddAdd(f.isn, 1 + |f.stream|, 1);
    }
  }

  lemma SettledIs(f: Flow, c: State, p: Pieces)
    requires Settled(f, c, p)
    ensures f.Valid()
  {
  }

  lemma BareFinIs(f: Flow)
    requires f.Valid()
    ensures Add(f.At(f.Count()), 0) == f.At(f.Count())
  {
  }

  lemma ClosingKeeps(c: State, finAt: u32)
    ensures Closing(c, finAt).outbound == c.outbound
    ensures Closing(c, finAt).newData == c.newData && Closing(c, finAt).long == c.long
  {
  }

  lemma NotHeld(s: seq<nat>, k: nat)
    requires AllFrom(s, k + 1)
    ensures k !in s
  {
  }

  lemma TakeSees(p: Pieces, k: nat)
    ensures TakePiece(p, k).seen == p.seen
  {
    if k == p.joined { DrainKeeps(p.(joined := p.joined + 1), 0); }
  }

  /** The piece machine's step on an event. */
  ghost function After(f: Flow, c: State, p: Pieces, e: Event): Pieces
    requires f.Valid() && EventOk(f, e) && p.seen <= f.Count()
  {
    if e.BareFin? then p
    else if LosesPiece(f, c, e.k) then SeePiece(f, p, e.k)
    else TakePiece(SeePiece(f, p, e.k), e.k)
  }

  /** One event is one step: a piece that was not lost is taken, and one that counts as new moves
      what was seen and the counts. */
  lemma ArriveMatches(f: Flow, c: State, p: Pieces, taken: set<nat>, e: Event) returns (taken': set<nat>)
    requires Settled(f, c, p) && !c.outbound && Kept(p, taken) && EventOk(f, e)
    ensures var d, q := Arrive(c, SegmentOf(f, e)), After(f, c, p, e);
      Settled(f, d, q) && !d.outbound && Kept(q, taken')
    ensures taken' == taken + (if e.Show? && !LosesPiece(f, c, e.k) then {e.k} else {})
    ensures e.Show? ==> (LosesPiece(f, c, e.k) <==> IsNew(f, p, e.k) && Loses(Counted(c, f.Bytes(e.k))))
    ensures var d, new' := Arrive(c, SegmentOf(f, e)), e.Show? && IsNew(f, p, e.k);
      && After(f, c, p, e).seen == (if new' then e.k + 1 else p.seen)
      && d.newData == (if new' then c.newData + 1 else c.newData)
      && d.long == (if new' && c.newData == 0 then IsBulk(f.Bytes(e.k)) else c.long)
  {
    hide Add, Data, Closing, HeldAre, Distinct, AllFrom, LosesPiece, TakePiece, Matches, IsBulk, Loses;
    SettledIs(f, c, p);
    var q := After(f, c, p, e);
    taken' := taken;
    if e.Show? {
      f.EndIs(e.k);
      DataMatches(f, c, p, e.k);
      SeeKeeps(f, p, e.k, taken);
      if !LosesPiece(f, c, e.k) {
        TakeKeeps(SeePiece(f, p, e.k), e.k, taken);
        TakeSees(SeePiece(f, p, e.k), e.k);
        taken' := taken + {e.k};
      }
      if e.fin {
        ClosingMatches(f, Data(c, f.At(e.k), f.Bytes(e.k)), q);
        ClosingKeeps(Data(c, f.At(e.k), f.Bytes(e.k)), f.At(f.Count()));
      }
    } else {
      ClosingMatches(f, c, p);
      ClosingKeeps(c, f.At(f.Count()));
      BareFinIs(f);
    }
  }

  /** When every piece was taken, the stream is joined. */
  lemma AllTaken(f: Flow, c: State, p: Pieces, taken: set<nat>)
    requires Settled(f, c, p) && Kept(p, taken) && forall k: nat | k < f.Count() :: k in taken
    ensures c.request == f.stream
  {
    NotHeld(p.held, p.joined);
    assert p.joined < f.Count() ==> p.joined in taken;
  }
}
