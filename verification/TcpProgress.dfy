/** When a stream gets through: every piece sent twice, whatever the interleaving, joins the whole
    stream, exactly when no zero sequence number can make the connection forget what it saw. */
module TcpProgress {
  import opened Bytes
  import opened TcpSeq
  import opened Tcp
  import opened TcpSafety
  import opened TcpPieces
  import opened TcpRuns

  // ---- the two conditions ----

  /** A bulk piece lies below a cut with the sequence number zero: the connection can lose pieces,
      and its record of what was seen can read as nothing seen. */
  ghost predicate Forgets(f: Flow)
    requires f.Valid()
  {
    exists z: nat, b: nat :: z <= f.Count() && b < z && Forgetful(f, z, b)
  }

  ghost predicate Forgetful(f: Flow, z: nat, b: nat)
    requires f.Valid() && b < z <= f.Count()
  {
    f.At(z) == 0 && IsBulk(f.Bytes(b))
  }

  /** And besides that bulk piece and the last below the zero, some piece is left to lose twice. */
  ghost predicate Exposed(f: Flow)
    requires f.Valid()
  {
    exists z: nat, b: nat :: z <= f.Count() && b < z && Forgetful(f, z, b) && Room(z, b)
  }

  predicate Room(z: nat, b: nat) { z >= 3 || (z == 2 && b == 1) }

  /** Every run that sends every piece twice joins the whole stream. */
  ghost predicate Completes(f: Flow)
    requires f.Valid()
  {
    forall sackOk: bool, es: seq<Event> | EventsOk(f, es) && Doubled(f, es) ::
      ArriveAll(Accept(f.isn, sackOk), Segments(f, es)).request == f.stream
  }

  ghost predicate Doubled(f: Flow, es: seq<Event>) { forall k: nat | k < f.Count() :: Times(es, k) >= 2 }

  /** No run loses a piece that was sent before. */
  ghost predicate Remembers(f: Flow)
    requires f.Valid()
  {
    forall sackOk: bool, es: seq<Event>, k: nat | EventsOk(f, es) && k < f.Count() && Times(es, k) >= 1 ::
      !LosesPiece(f, ArriveAll(Accept(f.isn, sackOk), Segments(f, es)), k)
  }

  // ---- when it holds ----

  /** No cut from `m` on has the number zero. */
  ghost predicate Past(f: Flow, m: nat)
    requires f.Valid()
  {
    forall z: nat | m <= z <= f.Count() :: f.At(z) != 0
  }

  /** Every piece below a zero was taken. */
  ghost predicate Covered(f: Flow, taken: set<nat>)
    requires f.Valid()
  {
    forall z: nat, k: nat | z <= f.Count() && k < z && f.At(z) == 0 :: k in taken
  }

  /** While pieces can be lost, each that was sent is taken or remembered, and a zero ahead can only
      forget pieces that were taken. */
  ghost predicate Secure(f: Flow, n: nat, long: bool, m: nat, shown: set<nat>, taken: set<nat>)
    requires f.Valid() && m <= f.Count()
  {
    if n == 0 then shown == {} && m == 0
    else long ==>
      && (forall k | k in shown :: k in taken || (Past(f, m) && k < m))
      && (Past(f, m) || Covered(f, taken)
          || (n == 1 && m == 1 && 0 in taken && 2 <= f.Count() && f.At(2) == 0))
  }

  /** What a piece does to the counts, given whether it is new. */
  datatype Tally = Tally(n: nat, long: bool, seen: nat)

  ghost function Next(f: Flow, t: Tally, k: nat): Tally
    requires f.Valid() && t.seen <= f.Count() && k < f.Count()
  {
    if f.At(t.seen) == 0 || k >= t.seen then
      Tally(t.n + 1, if t.n == 0 then IsBulk(f.Bytes(k)) else t.long, k + 1)
    else t
  }

  /** The counts at which a piece is lost. */
  ghost predicate Drops(f: Flow, t: Tally, k: nat)
    requires f.Valid() && t.seen <= f.Count() && k < f.Count()
  {
    var u := Next(f, t, k);
    u.n == t.n + 1 && ((u.n == 1 && !u.long) || (u.long && (u.n == 3 || u.n == 7)))
  }

  /** Below a zero the first piece of a bulk transfer is the only one, or the first of two. */
  lemma FirstSecure(f: Flow, k: nat)
    requires f.Valid() && !Exposed(f) && k < f.Count() && IsBulk(f.Bytes(k))
    ensures Secure(f, 1, true, k + 1, {k}, {k})
  {
    hide Flow.At, IsBulk;
    if z: nat :| k + 1 <= z <= f.Count() && f.At(z) == 0 {
      assert Forgetful(f, z, k);
      forall w: nat | w <= f.Count() && f.At(w) == 0 ensures w == z { f.Ordered(w, z); }
    }
  }

  lemma SecondSecure(f: Flow, shown: set<nat>, taken: set<nat>, k: nat)
    requires f.Valid() && 2 <= f.Count() && f.At(2) == 0 && k < f.Count() && f.At(1) != 0
    requires 0 in taken && Secure(f, 1, true, 1, shown, taken)
    requires k >= 1
    ensures Secure(f, 2, true, k + 1, shown + {k}, taken + {k})
  {
    hide Flow.At;
    forall z: nat | z <= f.Count() && f.At(z) == 0 ensures z == 2 { f.Ordered(z, 2); }
  }

  /** One step keeps that, and loses no piece that was sent before and is not taken. */
  lemma SecureStep(f: Flow, t: Tally, shown: set<nat>, taken: set<nat>, k: nat)
    requires f.Valid() && !Exposed(f) && k < f.Count() && t.seen <= f.Count()
    requires Secure(f, t.n, t.long, t.seen, shown, taken)
    ensures Drops(f, t, k) ==> k !in shown || k in taken
    ensures var u := Next(f, t, k);
      Secure(f, u.n, u.long, u.seen, shown + {k}, if Drops(f, t, k) then taken else taken + {k})
  {
    hide Flow.At, IsBulk, Exposed;
    var u := Next(f, t, k);
    if t.n == 0 {
      if u.long { FirstSecure(f, k); }
    } else if t.long && !Past(f, t.seen) && !Covered(f, taken) {
      f.Ordered(1, 2);
      if k >= 1 { SecondSecure(f, shown, taken, k); }
    } else if t.long {
      assert Past(f, t.seen) && k + 1 >= t.seen ==> Past(f, k + 1);
    }
  }

  ghost function TallyOf(c: State, p: Pieces): Tally { Tally(c.newData, c.long, p.seen) }

  /** A piece arriving moves the tally, and is lost where the tally says. */
  lemma TallyStep(f: Flow, c: State, p: Pieces, taken: set<nat>, e: Event) returns (taken': set<nat>)
    requires Settled(f, c, p) && !c.outbound && Kept(p, taken) && EventOk(f, e)
    ensures var d, q := Arrive(c, SegmentOf(f, e)), After(f, c, p, e);
      && Settled(f, d, q) && !d.outbound && Kept(q, taken')
      && TallyOf(d, q) == (if e.Show? then Next(f, TallyOf(c, p), e.k) else TallyOf(c, p))
    ensures e.Show? ==> (LosesPiece(f, c, e.k) <==> Drops(f, TallyOf(c, p), e.k))
    ensures taken' == taken + (if e.Show? && !LosesPiece(f, c, e.k) then {e.k} else {})
  {
    hide Arrive, SegmentOf, After, Kept, LosesPiece, IsBulk, Matches;
    taken' := ArriveMatches(f, c, p, taken, e);
  }

  /** How often a piece must still be sent. */
  ghost function Needs(k: nat, shown: set<nat>, taken: set<nat>): nat {
    if k in taken then 0 else if k in shown then 1 else 2
  }

  lemma {:induction false} RunProgress(f: Flow, c: State, p: Pieces, shown: set<nat>, taken: set<nat>, es: seq<Event>)
    requires Settled(f, c, p) && !Exposed(f) && !c.outbound && Kept(p, taken) && EventsOk(f, es)
    requires Secure(f, c.newData, c.long, p.seen, shown, taken)
    requires forall k: nat | k < f.Count() :: Times(es, k) >= Needs(k, shown, taken)
    ensures Run(f, c, es).request == f.stream
    decreases |es|
  {
    hide Matches, Kept, Arrive, Exposed, LosesPiece, Secure, Drops, Next, After, IsNew;
    SettledIs(f, c, p);
    if es == [] {
      forall k: nat | k < f.Count() ensures k in taken { assert Times(es, k) >= Needs(k, shown, taken); }
      AllTaken(f, c, p, taken);
    } else {
      var e := es[0];
      assert EventOk(f, e);
      var taken' := TallyStep(f, c, p, taken, e);
      var shown' := shown;
      if e.Show? {
        SecureStep(f, TallyOf(c, p), shown, taken, e.k);
        shown' := shown + {e.k};
      }
      assert taken' == taken || (e.Show? && taken' == taken + {e.k});
      forall k: nat | k < f.Count() ensures Times(es[1..], k) >= Needs(k, shown', taken') {
        assert Times(es, k) >= Needs(k, shown, taken);
      }
      RunProgress(f, Arrive(c, SegmentOf(f, e)), After(f, c, p, e), shown', taken', es[1..]);
    }
  }

  /** Once every piece was sent at least twice, in any interleaving, the request is the whole stream. */
  lemma Progress(f: Flow, sackOk: bool, es: seq<Event>)
    requires f.Valid() && !Exposed(f) && EventsOk(f, es) && Doubled(f, es)
    ensures ArriveAll(Accept(f.isn, sackOk), Segments(f, es)).request == f.stream
  {
    hide Exposed, ArriveAll;
    AcceptMatches(f, sackOk);
    RunProgress(f, Accept(f.isn, sackOk), Pieces(0, [], 0), {}, {}, es);
    RunIs(f, Accept(f.isn, sackOk), es);
  }

  // ---- when nothing is forgotten ----

  /** While pieces can be lost, every piece that was sent lies below what was seen, and no zero is ahead. */
  ghost predicate Mindful(f: Flow, t: Tally, shown: set<nat>)
    requires f.Valid()
  {
    if t.n == 0 then shown == {} && t.seen == 0
    else t.long ==> Past(f, t.seen) && forall k | k in shown :: k < t.seen
  }

  lemma MindfulStep(f: Flow, t: Tally, shown: set<nat>, k: nat)
    requires f.Valid() && !Forgets(f) && k < f.Count() && t.seen <= f.Count() && Mindful(f, t, shown)
    ensures Drops(f, t, k) ==> k !in shown
    ensures Mindful(f, Next(f, t, k), shown + {k})
  {
    hide Flow.At, IsBulk;
    if t.n == 0 && IsBulk(f.Bytes(k)) {
      forall z: nat | k + 1 <= z <= f.Count() ensures f.At(z) != 0 { assert !Forgetful(f, z, k); }
    }
  }

  /** Which pieces were sent. */
  ghost function Sent(es: seq<Event>): (r: set<nat>)
    ensures forall k: nat :: k in r <==> Times(es, k) >= 1
  {
    if es == [] then {} else Sent(es[1..]) + if es[0].Show? then {es[0].k} else {}
  }

  lemma {:induction false} RunMindful(f: Flow, c: State, p: Pieces, shown: set<nat>, es: seq<Event>, k: nat)
    requires Settled(f, c, p) && !Forgets(f) && !c.outbound && EventsOk(f, es) && k < f.Count()
    requires Mindful(f, TallyOf(c, p), shown) && (k in shown || k in Sent(es))
    ensures !LosesPiece(f, Run(f, c, es), k)
    decreases |es|
  {
    hide Matches, Arrive, Forgets, LosesPiece, Mindful, Drops, Next, After, IsNew;
    SettledIs(f, c, p);
    if es == [] {
      MindfulStep(f, TallyOf(c, p), shown, k);
      var _ := TallyStep(f, c, p, {}, Show(k, false));
    } else {
      var e := es[0];
      assert EventOk(f, e);
      var _ := TallyStep(f, c, p, {}, e);
      if e.Show? { MindfulStep(f, TallyOf(c, p), shown, e.k); }
      var shown' := shown + if e.Show? then {e.k} else {};
      assert e.BareFin? ==> shown' == shown;
      RunMindful(f, Arrive(c, SegmentOf(f, e)), After(f, c, p, e), shown', es[1..], k);
    }
  }

  /** A piece that was sent before is never lost, unless the connection can forget what it saw. */
  lemma NoRetransmissionLost(f: Flow, sackOk: bool, es: seq<Event>, k: nat)
    requires f.Valid() && !Forgets(f) && EventsOk(f, es) && k < f.Count() && Times(es, k) >= 1
    ensures !LosesPiece(f, ArriveAll(Accept(f.isn, sackOk), Segments(f, es)), k)
  {
    hide Forgets, ArriveAll, LosesPiece;
    AcceptMatches(f, sackOk);
    assert k in Sent(es);
    RunMindful(f, Accept(f.isn, sackOk), Pieces(0, [], 0), {}, es, k);
    RunIs(f, Accept(f.isn, sackOk), es);
  }

  // ---- when it fails ----

  /** The piece `j` is neither joined nor held. */
  ghost predicate Lacks(p: Pieces, j: nat) { p.joined <= j && j !in p.held }

  lemma ExceptLacks(s: seq<nat>, i: nat, j: nat)
    requires i < |s| && j !in s
    ensures j !in Except(s, i)
  {
  }

  lemma {:induction false} DrainLacks(p: Pieces, j: nat)
    requires Lacks(p, j)
    ensures Lacks(DrainPieces(p), j)
    decreases |p.held|
  {
    hide IndexIn, Except;
    var i := IndexIn(p.held, p.joined);
    if i < |p.held| {
      ExceptLacks(p.held, i, j);
      DrainLacks(p.(joined := p.joined + 1, held := Except(p.held, i)), j);
    }
  }

  lemma TakeLacks(p: Pieces, k: nat, j: nat)
    requires Lacks(p, j) && k != j
    ensures Lacks(TakePiece(p, k), j)
  {
    if k == p.joined { DrainLacks(p.(joined := p.joined + 1), j); }
  }

  lemma AfterLacks(f: Flow, c: State, p: Pieces, e: Event, j: nat)
    requires f.Valid() && EventOk(f, e) && p.seen <= f.Count()
    requires Lacks(p, j) && (e.Show? && e.k == j ==> LosesPiece(f, c, j))
    ensures Lacks(After(f, c, p, e), j)
  {
    hide TakePiece, LosesPiece, IsNew;
    if e.Show? && e.k != j { TakeLacks(SeePiece(f, p, e.k), e.k, j); }
  }

  /** A run that never took `j`, as it stands. */
  ghost predicate Reaches(f: Flow, sackOk: bool, es: seq<Event>, p: Pieces, j: nat)
    requires f.Valid()
  {
    EventsOk(f, es) && Lacks(p, j) && var c := Run(f, Accept(f.isn, sackOk), es); Settled(f, c, p) && !c.outbound
  }

  lemma Start(f: Flow, sackOk: bool, j: nat) returns (p: Pieces)
    requires f.Valid()
    ensures Reaches(f, sackOk, [], p, j) && TallyOf(Run(f, Accept(f.isn, sackOk), []), p) == Tally(0, false, 0)
  {
    AcceptMatches(f, sackOk);
    p := Pieces(0, [], 0);
  }

  /** Sending one more piece, another than `j` or one that is lost. */
  lemma Send(f: Flow, sackOk: bool, es: seq<Event>, p: Pieces, j: nat, k: nat) returns (q: Pieces)
    requires f.Valid() && Reaches(f, sackOk, es, p, j) && k < f.Count() && p.seen <= f.Count()
    requires k != j || Drops(f, TallyOf(Run(f, Accept(f.isn, sackOk), es), p), k)
    ensures Reaches(f, sackOk, es + [Show(k, false)], q, j)
    ensures q.seen <= f.Count()
    ensures TallyOf(Run(f, Accept(f.isn, sackOk), es + [Show(k, false)]), q)
         == Next(f, TallyOf(Run(f, Accept(f.isn, sackOk), es), p), k)
  {
    hide Run, Arrive, Matches, After, Drops, Next, LosesPiece, SegmentOf;
    var c := Run(f, Accept(f.isn, sackOk), es);
    var _ := TallyStep(f, c, p, {}, Show(k, false));
    RunAppend(f, Accept(f.isn, sackOk), es, Show(k, false));
    AfterLacks(f, c, p, Show(k, false), j);
    q := After(f, c, p, Show(k, false));
  }

  /** Then every piece below `n` but `j` twice. */
  lemma {:induction false} SendRest(f: Flow, sackOk: bool, es: seq<Event>, p: Pieces, j: nat, n: nat)
      returns (es': seq<Event>, q: Pieces)
    requires f.Valid() && Reaches(f, sackOk, es, p, j) && n <= f.Count() && p.seen <= f.Count()
    ensures Reaches(f, sackOk, es', q, j)
    ensures forall k: nat :: Times(es', k) >= Times(es, k) + if k < n && k != j then 2 else 0
    decreases n
  {
    hide Reaches, Times, Next, Drops;
    es', q := es, p;
    if n > 0 {
      if n - 1 != j {
        var once := es + [Show(n - 1, false)];
        q := Send(f, sackOk, es, p, j, n - 1);
        es' := once + [Show(n - 1, false)];
        q := Send(f, sackOk, once, q, j, n - 1);
        forall k: nat ensures Times(es', k) == Times(es, k) + if k == n - 1 then 2 else 0 {
          TimesAppend(es, Show(n - 1, false), k);
          TimesAppend(once, Show(n - 1, false), k);
        }
      }
      var before := es';
      es', q := SendRest(f, sackOk, es', q, j, n - 1);
      assert forall k: nat :: Times(es', k) >= Times(before, k) + if k < n - 1 && k != j then 2 else 0;
    }
  }

  /** A run that stands at a given tally. */
  ghost predicate Stands(f: Flow, sackOk: bool, es: seq<Event>, p: Pieces, j: nat, n: nat, seen: nat)
    requires f.Valid()
  {
    Reaches(f, sackOk, es, p, j) && TallyOf(Run(f, Accept(f.isn, sackOk), es), p) == Tally(n, true, seen)
  }

  /** Sending a piece that counts as new. */
  lemma SendNew(f: Flow, sackOk: bool, es: seq<Event>, p: Pieces, j: nat, n: nat, seen: nat, k: nat)
      returns (es': seq<Event>, q: Pieces)
    requires f.Valid() && seen <= f.Count() && k < f.Count() && n > 0
    requires Stands(f, sackOk, es, p, j, n, seen)
    requires (f.At(seen) == 0 || k >= seen) && (k != j || n == 2 || n == 6)
    ensures Stands(f, sackOk, es', q, j, n + 1, k + 1)
    ensures forall i: nat :: Times(es', i) == Times(es, i) + if i == k then 1 else 0
  {
    hide Reaches, Run, Times;
    q := Send(f, sackOk, es, p, j, k);
    es' := es + [Show(k, false)];
    forall i: nat ensures Times(es', i) == Times(es, i) + if i == k then 1 else 0 {
      TimesAppend(es, Show(k, false), i);
    }
  }

  /** The bulk piece, then the last below the zero: two pieces, and nothing on record as seen. */
  lemma Forget(f: Flow, sackOk: bool, z: nat, b: nat, j: nat) returns (es: seq<Event>, p: Pieces)
    requires f.Valid() && b < z <= f.Count() && Forgetful(f, z, b) && j != b && j != z - 1
    ensures Stands(f, sackOk, es, p, j, 2, z) && Times(es, b) >= 1
  {
    hide Reaches, Run, Times, Flow.At, IsBulk;
    p := Start(f, sackOk, j);
    p := Send(f, sackOk, [], p, j, b);
    es := [] + [Show(b, false)];
    TimesAppend([], Show(b, false), b);
    es, p := SendNew(f, sackOk, es, p, j, 1, b + 1, z - 1);
  }

  /** Then the bulk piece is lost though it was sent before. */
  lemma ForgetsLoses(f: Flow, sackOk: bool, z: nat, b: nat) returns (es: seq<Event>)
    requires f.Valid() && b < z <= f.Count() && Forgetful(f, z, b)
    ensures EventsOk(f, es) && Times(es, b) >= 1
    ensures LosesPiece(f, ArriveAll(Accept(f.isn, sackOk), Segments(f, es)), b)
  {
    hide Run, Times, Flow.At, IsBulk, Matches, Arrive, After, LosesPiece;
    var p: Pieces;
    es, p := Forget(f, sackOk, z, b, f.Count());
    var _ := TallyStep(f, Run(f, Accept(f.isn, sackOk), es), p, {}, Show(b, false));
    RunIs(f, Accept(f.isn, sackOk), es);
  }

  /** Some piece is lost as the third and again as the seventh, and everything else comes twice. */
  lemma ExposedStalls(f: Flow, sackOk: bool, z: nat, b: nat) returns (es: seq<Event>)
    requires f.Valid() && b < z <= f.Count() && Forgetful(f, z, b) && Room(z, b)
    ensures EventsOk(f, es) && Doubled(f, es)
    ensures ArriveAll(Accept(f.isn, sackOk), Segments(f, es)).request != f.stream
  {
    hide Reaches, Run, Times, Flow.At, IsBulk;
    var p: Pieces;
    var j := if b == 0 then 1 else 0;
    es, p := Forget(f, sackOk, z, b, j);
    es, p := SendNew(f, sackOk, es, p, j, 2, z, j);
    es, p := SendNew(f, sackOk, es, p, j, 3, j + 1, z - 1);
    es, p := SendNew(f, sackOk, es, p, j, 4, z, z - 1);
    es, p := SendNew(f, sackOk, es, p, j, 5, z, z - 1);
    es, p := SendNew(f, sackOk, es, p, j, 6, z, j);
    es, p := SendRest(f, sackOk, es, p, j, f.Count());
    LacksStream(f, sackOk, es, p, j);
  }

  lemma LacksStream(f: Flow, sackOk: bool, es: seq<Event>, p: Pieces, j: nat)
    requires f.Valid() && Reaches(f, sackOk, es, p, j) && j < f.Count()
    ensures EventsOk(f, es) && ArriveAll(Accept(f.isn, sackOk), Segments(f, es)).request != f.stream
  {
    RunIs(f, Accept(f.isn, sackOk), es);
    var c := Run(f, Accept(f.isn, sackOk), es);
    assert |c.request| == f.cuts[p.joined] <= f.cuts[j] < |f.stream|;
  }

  // ---- the two exact statements ----

  /** Every run that sends every piece twice joins the whole stream, exactly when the flow is not exposed. */
  lemma ProgressExact(f: Flow)
    requires f.Valid()
    ensures Completes(f) <==> !Exposed(f)
  {
    hide ArriveAll, Times, Forgetful;
    if Exposed(f) {
      var z: nat, b: nat :| z <= f.Count() && b < z && Forgetful(f, z, b) && Room(z, b);
      var es := ExposedStalls(f, false, z, b);
    } else {
      forall sackOk: bool, es: seq<Event> | EventsOk(f, es) && Doubled(f, es)
        ensures ArriveAll(Accept(f.isn, sackOk), Segments(f, es)).request == f.stream
      {
        Progress(f, sackOk, es);
      }
    }
  }

  /** No piece that was sent before is ever lost, exactly when the connection cannot forget what it saw. */
  lemma RetransmissionExact(f: Flow)
    requires f.Valid()
    ensures Remembers(f) <==> !Forgets(f)
  {
    hide ArriveAll, Times, Forgetful, LosesPiece;
    if Forgets(f) {
      var z: nat, b: nat :| z <= f.Count() && b < z && Forgetful(f, z, b);
      var es := ForgetsLoses(f, false, z, b);
    } else {
      forall sackOk: bool, es: seq<Event>, k: nat | EventsOk(f, es) && k < f.Count() && Times(es, k) >= 1
        ensures !LosesPiece(f, ArriveAll(Accept(f.isn, sackOk), Segments(f, es)), k)
      {
        NoRetransmissionLost(f, sackOk, es, k);
      }
    }
  }

  /** There are such flows: a bulk request and five bytes more, ending where the numbers wrap. */
  lemma ExposedFlow(f: Flow)
    requires f.isn == U32 - 31 && f.cuts == [0, 25, 26, 27, 28, 29, 30] && |f.stream| == 30 && IsBulk(f.stream[0..25])
    ensures f.Valid() && Exposed(f)
  {
    hide IsBulk;
    assert Forgetful(f, 6, 0) && Room(6, 0);
  }
}
