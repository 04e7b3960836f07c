/** However the guest behaves, at most two segments of a connection are lost on purpose. */
module TcpLosses {
  import opened Bytes
  import opened TcpSeq
  import opened Tcp

  /** Whether this end loses the segment's data. */
  predicate Lost(c: State, s: Segment) { s.payload != [] && Withholds(c, s.at, s.payload) }

  /** How many segments of a run were lost. */
  function Losses(c: State, segs: seq<Segment>): nat
    decreases |segs|
  {
    if segs == [] then 0 else (if Lost(c, segs[0]) then 1 else 0) + Losses(Arrive(c, segs[0]), segs[1..])
  }

  /** How many losses a connection may still suffer. */
  function Budget(c: State): nat {
    if c.newData == 0 then 2
    else if !c.long then 0
    else (if c.newData < 3 then 1 else 0) + if c.newData < 7 then 1 else 0
  }

  /** Joining and holding touch no count. */
  lemma {:induction false} DrainCounts(c: State)
    ensures Drain(c).newData == c.newData && Drain(c).long == c.long
    decreases |c.held|
  {
    hide HeldAt, Without, Add;
    var k := HeldAt(c.held, c.rcvNxt);
    if k < |c.held| {
      var data := c.held[k].data;
      DrainCounts(c.(rcvNxt := Add(c.rcvNxt, |data|), held := Without(c.held, k), request := c.request + data));
    }
  }

  lemma TakeCounts(c: State, at: u32, payload: seq<byte>)
    ensures Take(c, at, payload).newData == c.newData && Take(c, at, payload).long == c.long
  {
    hide HeldAt, Add, Sub, Drain;
    if at == c.rcvNxt { DrainCounts(c.(rcvNxt := Add(c.rcvNxt, |payload|), request := c.request + payload)); }
  }

  lemma DataSpends(c: State, at: u32, payload: seq<byte>)
    ensures Budget(Data(c, at, payload)) + (if Withholds(c, at, payload) then 1 else 0) <= Budget(c)
  {
    hide Take, Add, Before, IsBulk;
    var seen := See(c, Add(at, |payload|));
    var counted := if c.outbound || Again(c, at) then seen else Counted(seen, payload);
    TakeCounts(counted, at, payload);
  }

  lemma ArriveSpends(c: State, s: Segment)
    ensures Budget(Arrive(c, s)) + (if Lost(c, s) then 1 else 0) <= Budget(c)
  {
    hide Data, Add, Withholds;
    if s.payload != [] { DataSpends(c, s.at, s.payload); }
  }

  lemma {:induction false} RunSpends(c: State, segs: seq<Segment>)
    ensures Losses(c, segs) <= Budget(c)
    decreases |segs|
  {
    hide Budget, Arrive, Lost;
    if segs != [] {
      ArriveSpends(c, segs[0]);
      RunSpends(Arrive(c, segs[0]), segs[1..]);
    }
  }

  /** Whatever arrives, of one stream or of none, at most two segments of a connection are lost. */
  lemma AtMostTwoLost(isn: u32, sackOk: bool, segs: seq<Segment>)
    ensures Losses(Accept(isn, sackOk), segs) <= 2
  {
    RunSpends(Accept(isn, sackOk), segs);
  }
}
