/** One connection of the TCP peer: withheld, held and joined segments. */
module Tcp {
  import opened Bytes
  import opened TcpSeq

  /** A segment held past a hole. */
  datatype Held = Held(at: u32, data: seq<byte>)

  /** What a connection remembers about the guest's stream. `outbound` says this end opened it. */
  datatype State = State(
    rcvNxt: u32, held: seq<Held>, request: seq<byte>, seenThrough: u32, newData: nat, long: bool,
    finSeen: bool, sackOk: bool, outbound: bool)

  /** A connection the guest's SYN opened. */
  function Accept(isn: u32, sackOk: bool): State {
    State(Add(isn, 1), [], [], Add(isn, 1), 0, false, false, sackOk, false)
  }

  /** "kintane-tcp-request bulk ", in ASCII. */
  const BULK_REQUEST: seq<byte> :=
    [107, 105, 110, 116, 97, 110, 101, 45, 116, 99, 112, 45, 114, 101, 113, 117, 101, 115, 116, 32, 98, 117, 108, 107,
      32]

  predicate IsBulk(payload: seq<byte>) { BULK_REQUEST <= payload }

  /** The segment starts below what was seen: the guest is sending it again. */
  predicate Again(c: State, at: u32) { c.seenThrough != 0 && Before(at, c.seenThrough) }

  /** What a segment's end does to what was seen. */
  function See(c: State, end: u32): State {
    if c.seenThrough == 0 || Before(c.seenThrough, end) then c.(seenThrough := end) else c
  }

  /** A new segment counted; the first one tells a bulk round. */
  function Counted(c: State, payload: seq<byte>): State {
    c.(newData := c.newData + 1, long := if c.newData == 0 then IsBulk(payload) else c.long)
  }

  /** The new segment just counted is one this end loses on purpose. */
  predicate Loses(c: State) {
    (c.newData == 1 && !c.long) || (c.long && (c.newData == 3 || c.newData == 7))
  }

  /** The first held segment that starts at `at`, or none. */
  function HeldAt(held: seq<Held>, at: u32): (k: nat)
    ensures k <= |held| && (k < |held| ==> held[k].at == at) && forall j | 0 <= j < k :: held[j].at != at
  {
    if held == [] || held[0].at == at then 0 else 1 + HeldAt(held[1..], at)
  }

  function Without(held: seq<Held>, k: nat): (r: seq<Held>)
    requires k < |held|
    ensures |r| == |held| - 1
  {
    held[..k] + held[k + 1..]
  }

  /** Join whatever was held and now follows on. */
  function Drain(c: State): State
    decreases |c.held|
  {
    var k := HeldAt(c.held, c.rcvNxt);
    if k == |c.held| then c
    else
      var data := c.held[k].data;
      Drain(c.(rcvNxt := Add(c.rcvNxt, |data|), held := Without(c.held, k), request := c.request + data))
  }

  /** Take a segment that was not lost: in order, past a hole, or stale. */
  function Take(c: State, at: u32, payload: seq<byte>): State {
    if at == c.rcvNxt then
      Drain(c.(rcvNxt := Add(c.rcvNxt, |payload|), request := c.request + payload))
    else if Sub(at, c.rcvNxt) < HALF - 1 && HeldAt(c.held, at) == |c.held| then
      c.(held := c.held + [Held(at, payload)])
    else c
  }

  /** This end loses the segment: new data of a connection the guest opened, and one of those
      it disturbs. */
  predicate Withholds(c: State, at: u32, payload: seq<byte>) {
    !c.outbound && !Again(c, at) && Loses(Counted(c, payload))
  }

  /** One data segment. */
  function Data(c: State, at: u32, payload: seq<byte>): State {
    var seen := See(c, Add(at, |payload|));
    var counted := if c.outbound || Again(c, at) then seen else Counted(seen, payload);
    if Withholds(c, at, payload) then counted else Take(counted, at, payload)
  }

  /** A FIN behind the payload, which counts only in order. */
  function Closing(c: State, finAt: u32): State {
    if finAt != c.rcvNxt then c else c.(rcvNxt := Add(c.rcvNxt, 1), finSeen := true)
  }

  datatype Segment = Segment(at: u32, payload: seq<byte>, fin: bool)

  /** One segment of an open connection, neither SYN nor RST. */
  function Arrive(c: State, s: Segment): State {
    var d := if s.payload == [] then c else Data(c, s.at, s.payload);
    if s.fin then Closing(d, Add(s.at, |s.payload|)) else d
  }

  function ArriveAll(c: State, segs: seq<Segment>): State
    decreases |segs|
  {
    if segs == [] then c else ArriveAll(Arrive(c, segs[0]), segs[1..])
  }

  // ---- the connection as it runs ----

  class Conn {
    var rcvNxt: u32
    var held: seq<Held>
    var request: seq<byte>
    var seenThrough: u32
    var newData: nat
    var long: bool
    var finSeen: bool
    var sackOk: bool
    const outbound: bool

    ghost function View(): State
      reads this
    {
      State(rcvNxt, held, request, seenThrough, newData, long, finSeen, sackOk, outbound)
    }

    constructor (isn: u32, sackOk: bool)
      ensures View() == Accept(isn, sackOk)
    {
      rcvNxt, held, request, seenThrough := Add(isn, 1), [], [], Add(isn, 1);
      newData, long, finSeen, this.sackOk, outbound := 0, false, false, sackOk, false;
    }

    /** `data`: whether the segment was answered at all. */
    method Receive(at: u32, payload: seq<byte>) returns (answered: bool)
      modifies this
      ensures View() == Data(old(View()), at, payload)
      ensures answered == !Withholds(old(View()), at, payload)
    {
      hide Take, Before, Add, IsBulk;
      var end := Add(at, |payload|);
      var again := seenThrough != 0 && Before(at, seenThrough);
      if seenThrough == 0 || Before(seenThrough, end) { seenThrough := end; }
      if !outbound && !again {
        newData := newData + 1;
        if newData == 1 {
          long := IsBulk(payload);
          if !long { return false; }
        }
        if long && (newData == 3 || newData == 7) { return false; }
      }
      Put(at, payload);
      answered := true;
    }

    /** A segment that was not lost: in order, past a hole, or stale. */
    method Put(at: u32, payload: seq<byte>)
      modifies this
      ensures View() == Take(old(View()), at, payload)
    {
      hide Drain, Sub, Add, HeldAt;
      if at == rcvNxt {
        rcvNxt, request := Add(rcvNxt, |payload|), request + payload;
        Join();
      } else if Sub(at, rcvNxt) < HALF - 1 {
        if HeldAt(held, at) == |held| { held := held + [Held(at, payload)]; }
      }
    }

    /** The loop that joins held segments. */
    method Join()
      modifies this
      ensures View() == Drain(old(View()))
    {
      hide HeldAt, Without, Add;
      ghost var c := View();
      while HeldAt(held, rcvNxt) < |held|
        invariant Drain(c) == Drain(View())
        decreases |held|
      {
        var k := HeldAt(held, rcvNxt);
        var data := held[k].data;
        held := Without(held, k);
        rcvNxt, request := Add(rcvNxt, |data|), request + data;
      }
    }

    /** `closing`: whether the FIN was in order. */
    method Close(finAt: u32) returns (inOrder: bool)
      modifies this
      ensures View() == Closing(old(View()), finAt) && inOrder == (finAt == old(rcvNxt))
    {
      if finAt != rcvNxt { return false; }
      rcvNxt, finSeen := Add(rcvNxt, 1), true;
      inOrder := true;
    }
  }
}
