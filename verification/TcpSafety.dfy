/** Whatever arrives of one stream, in any order and however often, what has been joined is a
    prefix of it. */
module TcpSafety {
  import opened Bytes
  import opened TcpSeq
  import opened Tcp

  /** Streams whose every offset, the FIN's included, stays within half the sequence space. */
  ghost predicate Short(stream: seq<byte>) { |stream| < HALF - 1 }

  /** `data` is the stream's from offset `off` on, and `at` is its sequence number. */
  ghost predicate Piece(isn: u32, stream: seq<byte>, at: u32, data: seq<byte>, off: nat) {
    off + |data| <= |stream| && at == Add(isn, 1 + off) && data == stream[off..off + |data|]
  }

  ghost predicate OfStream(isn: u32, stream: seq<byte>, at: u32, data: seq<byte>) {
    exists off: nat :: Piece(isn, stream, at, data, off)
  }

  /** A segment of the stream; a FIN stands at the stream's end. */
  ghost predicate Carries(isn: u32, stream: seq<byte>, s: Segment) {
    exists off: nat :: Piece(isn, stream, s.at, s.payload, off) && (s.fin ==> off + |s.payload| == |stream|)
  }

  ghost predicate AllHeld(isn: u32, stream: seq<byte>, held: seq<Held>) {
    forall i | 0 <= i < |held| :: OfStream(isn, stream, held[i].at, held[i].data)
  }

  /** What every connection keeps: the request is a prefix of the stream, the next number
      expected is the one behind it, or behind the FIN once that was joined, and everything held
      is the stream's. */
  ghost predicate Safe(c: State, isn: u32, stream: seq<byte>) {
    && c.request <= stream
    && c.rcvNxt == Add(isn, 1 + |c.request| + if c.finSeen then 1 else 0)
    && (c.finSeen ==> c.request == stream)
    && AllHeld(isn, stream, c.held)
  }

  lemma AcceptIsSafe(isn: u32, sackOk: bool, stream: seq<byte>)
    ensures Safe(Accept(isn, sackOk), isn, stream)
  {
  }

  /** Data that starts where the request ends makes it a longer prefix. */
  lemma Extends(c: State, isn: u32, stream: seq<byte>, at: u32, data: seq<byte>)
    requires Short(stream) && Safe(c, isn, stream) && OfStream(isn, stream, at, data) && at == c.rcvNxt
    ensures !c.finSeen && c.request + data <= stream
    ensures Add(c.rcvNxt, |data|) == Add(isn, 1 + |c.request + data|)
  {
    var off: nat :| Piece(isn, stream, at, data, off);
    AddSame(isn, 1 + off, 1 + |c.request| + if c.finSeen then 1 else 0);
    AddAdd(isn, 1 + |c.request|, |data|);
    assert c.request + data == stream[..off + |data|];
  }

  lemma {:induction false} DrainIsSafe(c: State, isn: u32, stream: seq<byte>)
    requires Short(stream) && Safe(c, isn, stream) && !c.finSeen
    ensures Safe(Drain(c), isn, stream) && c.request <= Drain(c).request
    ensures Drain(c) == c.(rcvNxt := Drain(c).rcvNxt, held := Drain(c).held, request := Drain(c).request)
    decreases |c.held|
  {
    var k := HeldAt(c.held, c.rcvNxt);
    if k < |c.held| {
      var data := c.held[k].data;
      Extends(c, isn, stream, c.held[k].at, data);
      DrainIsSafe(c.(rcvNxt := Add(c.rcvNxt, |data|), held := Without(c.held, k), request := c.request + data), isn,
        stream);
    }
  }

  lemma TakeIsSafe(c: State, isn: u32, stream: seq<byte>, at: u32, payload: seq<byte>)
    requires Short(stream) && Safe(c, isn, stream) && OfStream(isn, stream, at, payload)
    ensures Safe(Take(c, at, payload), isn, stream) && c.request <= Take(c, at, payload).request
  {
    hide Drain, Add, Sub, HeldAt, OfStream;
    if at == c.rcvNxt {
      Extends(c, isn, stream, at, payload);
      DrainIsSafe(c.(rcvNxt := Add(c.rcvNxt, |payload|), request := c.request + payload), isn, stream);
    }
  }

  /** Counting and losing a segment touch nothing that is joined or held. */
  lemma DataIsSafe(c: State, isn: u32, stream: seq<byte>, at: u32, payload: seq<byte>)
    requires Short(stream) && Safe(c, isn, stream) && OfStream(isn, stream, at, payload)
    ensures Safe(Data(c, at, payload), isn, stream) && c.request <= Data(c, at, payload).request
  {
    hide Take, Add, Before, IsBulk, OfStream, Loses, AllHeld;
    var seen := See(c, Add(at, |payload|));
    var counted := if c.outbound || Again(c, at) then seen else Counted(seen, payload);
    TakeIsSafe(counted, isn, stream, at, payload);
  }

  lemma ClosingIsSafe(c: State, isn: u32, stream: seq<byte>)
    requires Short(stream) && Safe(c, isn, stream)
    ensures Safe(Closing(c, Add(isn, 1 + |stream|)), isn, stream)
    ensures Closing(c, Add(isn, 1 + |stream|)).request == c.request
  {
    var end := 1 + |c.request| + if c.finSeen then 1 else 0;
    AddSame(isn, 1 + |stream|, end);
    AddAdd(isn, end, 1);
  }

  /** Any one segment of the stream keeps the connection safe, and joined bytes stay joined. */
  lemma ArriveIsSafe(c: State, isn: u32, stream: seq<byte>, s: Segment)
    requires Short(stream) && Safe(c, isn, stream) && Carries(isn, stream, s)
    ensures Safe(Arrive(c, s), isn, stream) && c.request <= Arrive(c, s).request
  {
    hide Safe, Data, Closing, Add;
    var off: nat :| Piece(isn, stream, s.at, s.payload, off) && (s.fin ==> off + |s.payload| == |stream|);
    assert OfStream(isn, stream, s.at, s.payload);
    if s.payload != [] { DataIsSafe(c, isn, stream, s.at, s.payload); }
    if s.fin {
      AddAdd(isn, 1 + off, |s.payload|);
      ClosingIsSafe(if s.payload == [] then c else Data(c, s.at, s.payload), isn, stream);
    }
  }

  lemma {:induction false} RunIsSafe(c: State, isn: u32, stream: seq<byte>, segs: seq<Segment>)
    requires Short(stream) && Safe(c, isn, stream) && forall s | s in segs :: Carries(isn, stream, s)
    ensures Safe(ArriveAll(c, segs), isn, stream)
    decreases |segs|
  {
    if segs != [] {
      ArriveIsSafe(c, isn, stream, segs[0]);
      RunIsSafe(Arrive(c, segs[0]), isn, stream, segs[1..]);
    }
  }

  /** Reassembly safety. After any run of segments of one stream, reordered, repeated,
      overlapping or lost, the request is a prefix of the stream and the next number expected is
      the one behind it, one more once the FIN was joined. */
  lemma Reassembly(isn: u32, sackOk: bool, stream: seq<byte>, segs: seq<Segment>)
    requires Short(stream) && forall s | s in segs :: Carries(isn, stream, s)
    ensures var c := ArriveAll(Accept(isn, sackOk), segs);
      && c.request <= stream
      && c.rcvNxt == Add(isn, 1 + |c.request| + if c.finSeen then 1 else 0)
      && (c.finSeen ==> c.request == stream)
  {
    AcceptIsSafe(isn, sackOk, stream);
    RunIsSafe(Accept(isn, sackOk), isn, stream, segs);
  }
}
