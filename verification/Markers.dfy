/** Counting a marker in a stream that arrives in chunks. */
module Markers {
  import opened Bytes

  /** The marker stands at offset `i`. */
  predicate Here(marker: seq<byte>, data: seq<byte>, i: nat) {
    i + |marker| <= |data| && data[i..i + |marker|] == marker
  }

  /** How many times the marker stands in the data, overlaps counted. */
  function Occurrences(marker: seq<byte>, data: seq<byte>): nat
    requires marker != []
    decreases |data|
  {
    if |data| < |marker| then 0
    else (if data[..|marker|] == marker then 1 else 0) + Occurrences(marker, data[1..])
  }

  /** The last bytes a marker could continue from: one fewer than it has. */
  function TailOf(marker: seq<byte>, data: seq<byte>): (t: seq<byte>)
    requires marker != []
    ensures |t| < |marker|
  {
    var keep := if |marker| - 1 < |data| then |marker| - 1 else |data|;
    data[|data| - keep..]
  }

  /** A marker is counted in what was seen, or in what follows together with the tail, and never in
      both. */
  lemma {:induction false} CountSplits(marker: seq<byte>, a: seq<byte>, b: seq<byte>)
    requires marker != []
    ensures Occurrences(marker, a + b) == Occurrences(marker, a) + Occurrences(marker, TailOf(marker, a) + b)
    decreases |a|
  {
    if |a| < |marker| {
      assert TailOf(marker, a) == a;
    } else {
      assert (a + b)[1..] == a[1..] + b && (a + b)[..|marker|] == a[..|marker|];
      assert TailOf(marker, a[1..]) == TailOf(marker, a);
      CountSplits(marker, a[1..], b);
    }
  }

  /** The tail of more data depends on the tail alone. */
  lemma TailStep(marker: seq<byte>, a: seq<byte>, b: seq<byte>)
    requires marker != []
    ensures TailOf(marker, TailOf(marker, a) + b) == TailOf(marker, a + b)
  {
  }

  class MarkerCounter {
    const marker: seq<byte>
    var tail: seq<byte>
    var count: nat
    /** Everything fed so far. */
    ghost var fed: seq<byte>

    /** The count is right and the tail is the stream's. */
    ghost predicate Valid()
      reads this
    {
      marker != [] ==> tail == TailOf(marker, fed) && count == Occurrences(marker, fed)
    }

    constructor (marker: seq<byte>)
      ensures Valid() && this.marker == marker && fed == [] && count == 0
    {
      this.marker, tail, count, fed := marker, [], 0, [];
    }

    /** Feed one chunk; how many markers ended inside it. */
    method Feed(chunk: seq<byte>) returns (found: nat)
      requires Valid()
      modifies this
      ensures Valid() && fed == old(fed) + chunk && count == old(count) + found
      ensures marker == [] ==> found == 0
      ensures marker != [] ==> found == Occurrences(marker, old(fed) + chunk) - Occurrences(marker, old(fed))
    {
      ghost var before := fed;
      fed := fed + chunk;
      if marker == [] { return 0; }
      CountSplits(marker, before, chunk);
      TailStep(marker, before, chunk);
      var window := tail + chunk;
      found := CountWindows(marker, window);
      var keep := if |marker| - 1 < |window| then |marker| - 1 else |window|;
      tail := window[|window| - keep..];
      count := count + found;
    }
  }

  /** `windows(n).filter(…).count()`. */
  method CountWindows(marker: seq<byte>, data: seq<byte>) returns (n: nat)
    requires marker != []
    ensures n == Occurrences(marker, data)
  {
    n := 0;
    var i := 0;
    while i + |marker| <= |data|
      invariant 0 <= i <= |data| && n + Occurrences(marker, data[i..]) == Occurrences(marker, data)
    {
      assert data[i..][1..] == data[i + 1..] && data[i..][..|marker|] == data[i..i + |marker|];
      if data[i..i + |marker|] == marker { n := n + 1; }
      i := i + 1;
    }
  }

  function Joined(chunks: seq<seq<byte>>): seq<byte> {
    if chunks == [] then [] else Joined(chunks[..|chunks| - 1]) + chunks[|chunks| - 1]
  }

  /** However the stream is cut, counting it chunk by chunk counts it whole. */
  method CountChunks(marker: seq<byte>, chunks: seq<seq<byte>>) returns (n: nat)
    ensures n == if marker == [] then 0 else Occurrences(marker, Joined(chunks))
  {
    var c := new MarkerCounter(marker);
    for i := 0 to |chunks|
      invariant c.Valid() && c.marker == marker && c.fed == Joined(chunks[..i]) && (marker == [] ==> c.count == 0)
    {
      assert chunks[..i + 1][..i] == chunks[..i] && chunks[..i + 1][i] == chunks[i];
      var found := c.Feed(chunks[i]);
    }
    assert chunks[..|chunks|] == chunks;
    n := c.count;
  }

  // ---- what the count means ----

  /** The offsets where the marker stands. */
  ghost function Places(marker: seq<byte>, data: seq<byte>): set<nat> {
    set i: nat | i < |data| && Here(marker, data, i)
  }

  /** Places one further on. */
  ghost function Shifted(s: set<nat>): set<nat> { set i | i in s :: i + 1 }

  lemma {:induction false} ShiftedSize(s: set<nat>)
    ensures |Shifted(s)| == |s|
    decreases s
  {
    if s != {} {
      var x :| x in s;
      ShiftedSize(s - {x});
      assert Shifted(s) == Shifted(s - {x}) + {x + 1} by {
        forall y | y in Shifted(s) ensures y in Shifted(s - {x}) + {x + 1} {
          var i :| i in s && y == i + 1;
          assert i != x ==> i in s - {x};
        }
      }
      assert x + 1 !in Shifted(s - {x});
    }
  }

  lemma PlacesStep(marker: seq<byte>, data: seq<byte>)
    requires marker != [] && |data| >= |marker|
    ensures Places(marker, data) == Shifted(Places(marker, data[1..])) + if data[..|marker|] == marker then {0} else {}
  {
    var m := |marker|;
    forall i: nat ensures i in Places(marker, data) <==>
      i in Shifted(Places(marker, data[1..])) + if data[..m] == marker then {0} else {} {
      if i == 0 {
        assert data[0..m] == data[..m];
      } else if i + m <= |data| {
        assert data[1..][i - 1..i - 1 + m] == data[i..i + m];
        assert i - 1 in Places(marker, data[1..]) <==> Here(marker, data[1..], i - 1);
      }
    }
  }

  /** The count is the number of offsets where the marker stands. */
  lemma {:induction false} CountIsPlaces(marker: seq<byte>, data: seq<byte>)
    requires marker != []
    ensures Occurrences(marker, data) == |Places(marker, data)|
    decreases |data|
  {
    if |data| < |marker| {
      assert Places(marker, data) == {};
    } else {
      CountIsPlaces(marker, data[1..]);
      PlacesStep(marker, data);
      ShiftedSize(Places(marker, data[1..]));
    }
  }
}
