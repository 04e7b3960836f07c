/** The line table: every span of every program, sorted, and looked up by address. */
module DwarfTable {
  import opened Optional
  import opened Dwarf

  // ---- one sequence ----

  ghost predicate NonDecreasing(rows: seq<Row>) { forall i, j | 0 <= i < j < |rows| :: rows[i].addr <= rows[j].addr }

  /** Spans that follow one another without gap or overlap from `lo` to `hi`, none of them empty. */
  ghost predicate Tiles(spans: seq<Span>, lo: int, hi: int) {
    if spans == [] then lo == hi
    else
      var last := spans[|spans| - 1];
      last.end == hi && last.start < hi && Tiles(spans[..|spans| - 1], lo, last.start)
  }

  /** The spans of a sequence partition the addresses from its first row to its end. */
  lemma {:induction false} SequenceTiles(rows: seq<Row>)
    requires rows != [] && NonDecreasing(rows)
    ensures Tiles(SequenceSpans(rows), rows[0].addr, rows[|rows| - 1].addr)
    decreases |rows|
  {
    hide Attributed;
    var n := |rows| - 1;
    if n > 0 {
      SequenceTiles(rows[..n]);
      var before, last := SequenceSpans(rows[..n]), Close(Some(Attributed(rows, n - 1)), rows[n].addr);
      AttributedKeepsAddr(rows, n - 1);
      if last == [] {
        assert before + last == before;
      } else {
        var all := before + last;
        assert all[..|all| - 1] == before && all[|all| - 1] == last[0];
      }
    }
  }

  lemma AttributedKeepsAddr(rows: seq<Row>, i: nat)
    requires i < |rows|
    ensures Attributed(rows, i).addr == rows[i].addr
  {
  }

  predicate Has(s: Span, a: int) { s.start <= a < s.end }

  /** Tiles hold every address of their range in exactly one place, and no other address. */
  lemma {:induction false} TilesPartition(spans: seq<Span>, lo: int, hi: int, a: int)
    requires Tiles(spans, lo, hi)
    ensures lo <= hi && (lo <= a < hi <==> exists i | 0 <= i < |spans| :: Has(spans[i], a))
    ensures forall i | 0 <= i < |spans| :: lo <= spans[i].start < spans[i].end <= hi
    ensures forall i, j | 0 <= i < j < |spans| :: spans[i].end <= spans[j].start
    decreases |spans|
  {
    if spans != [] {
      var n := |spans| - 1;
      TilesPartition(spans[..n], lo, spans[n].start, a);
      if i :| 0 <= i < n && Has(spans[..n][i], a) { assert Has(spans[i], a); }
      if Has(spans[n], a) { assert Has(spans[n], a); }
      forall i | 0 <= i < |spans| ensures lo <= spans[i].start < spans[i].end <= hi {
        if i < n { assert spans[..n][i] == spans[i]; }
      }
      forall i, j | 0 <= i < j < |spans| ensures spans[i].end <= spans[j].start {
        assert spans[..n][i] == spans[i];
        if j < n { assert spans[..n][j] == spans[j]; }
      }
      if i :| 0 <= i < |spans| && Has(spans[i], a) {
        if i < n { assert Has(spans[..n][i], a); }
      }
    }
  }

  /** The last row at or below an address. */
  function LastAt(rows: seq<Row>, a: int): (i: nat)
    requires rows != [] && rows[0].addr <= a
    ensures i < |rows| && rows[i].addr <= a && forall j | i < j < |rows| :: rows[j].addr > a
  {
    var n := |rows| - 1;
    if rows[n].addr <= a then n else LastAt(rows[..n], a)
  }

  /** The span from row `i` to the next. */
  function RowSpan(rows: seq<Row>, i: nat): Span
    requires i + 1 < |rows|
  {
    Span(rows[i].addr, rows[i + 1].addr, Attributed(rows, i).file, Attributed(rows, i).line)
  }

  /** Every span of a sequence is some row's. */
  lemma {:induction false} SpanIsRow(rows: seq<Row>, s: Span) returns (i: nat)
    requires s in SequenceSpans(rows)
    ensures i + 1 < |rows| && s == RowSpan(rows, i) && rows[i].addr < rows[i + 1].addr
    decreases |rows|
  {
    hide Attributed;
    var n := |rows| - 1;
    AttributedKeepsAddr(rows, n - 1);
    if s in SequenceSpans(rows[..n]) {
      i := SpanIsRow(rows[..n], s);
      assert rows == rows[..n] + rows[n..];
      NearestPrefix(rows[..n], rows[n..], i);
    } else {
      i := n - 1;
    }
  }

  /** The span that holds an address is the one of the last row at or below it. */
  lemma SpanIsLast(rows: seq<Row>, s: Span, a: int)
    requires NonDecreasing(rows) && s in SequenceSpans(rows) && Has(s, a)
    ensures rows != [] && rows[0].addr <= a < rows[|rows| - 1].addr
    ensures var row := Attributed(rows, LastAt(rows, a)); s.file == row.file && s.line == row.line
  {
    hide Attributed;
    var i := SpanIsRow(rows, s);
    assert rows[0].addr <= rows[i].addr && rows[i + 1].addr <= rows[|rows| - 1].addr;
    var j := LastAt(rows, a);
    assert j == i;
  }

  // ---- sorting ----

  predicate Le(a: Span, b: Span) { a.start < b.start || (a.start == b.start && a.end <= b.end) }

  function Insert(s: Span, sorted: seq<Span>): seq<Span> {
    if sorted == [] || Le(s, sorted[0]) then [s] + sorted else [sorted[0]] + Insert(s, sorted[1..])
  }

  /** A stable sort by start and end. */
  function Sort(spans: seq<Span>): seq<Span> {
    if spans == [] then [] else Insert(spans[0], Sort(spans[1..]))
  }

  ghost predicate Sorted(spans: seq<Span>) { forall i, j | 0 <= i < j < |spans| :: spans[i].start <= spans[j].start }

  ghost predicate From(spans: seq<Span>, lo: int) { forall i | 0 <= i < |spans| :: lo <= spans[i].start }

  lemma {:induction false} InsertFrom(s: Span, sorted: seq<Span>, lo: int)
    requires From(sorted, lo) && lo <= s.start
    ensures From(Insert(s, sorted), lo)
    decreases |sorted|
  {
    if sorted != [] && !Le(s, sorted[0]) { InsertFrom(s, sorted[1..], lo); }
  }

  lemma {:induction false} InsertKeeps(s: Span, sorted: seq<Span>)
    ensures multiset(Insert(s, sorted)) == multiset{s} + multiset(sorted)
    decreases |sorted|
  {
    if sorted != [] && !Le(s, sorted[0]) {
      InsertKeeps(s, sorted[1..]);
      assert sorted == [sorted[0]] + sorted[1..];
    }
  }

  lemma {:induction false} InsertSorts(s: Span, sorted: seq<Span>)
    requires Sorted(sorted)
    ensures Sorted(Insert(s, sorted))
    decreases |sorted|
  {
    if sorted == [] || Le(s, sorted[0]) {
      ConsSorted(s, sorted);
    } else {
      InsertSorts(s, sorted[1..]);
      InsertFrom(s, sorted[1..], sorted[0].start);
      ConsSorted(sorted[0], Insert(s, sorted[1..]));
    }
  }

  lemma ConsSorted(s: Span, rest: seq<Span>)
    requires Sorted(rest) && From(rest, s.start)
    ensures Sorted([s] + rest)
  {
  }

  lemma {:induction false} SortKeeps(spans: seq<Span>)
    ensures Sorted(Sort(spans)) && multiset(Sort(spans)) == multiset(spans)
    decreases |spans|
  {
    if spans != [] {
      SortKeeps(spans[1..]);
      InsertKeeps(spans[0], Sort(spans[1..]));
      InsertSorts(spans[0], Sort(spans[1..]));
      assert spans == [spans[0]] + spans[1..];
    }
  }

  // ---- looking an address up ----

  const STEPS_BACK: nat := 8

  /** How many spans of a sorted table start at or below an address. */
  function PartitionPoint(spans: seq<Span>, a: int): (i: nat)
    ensures i <= |spans| && (forall j | 0 <= j < i :: spans[j].start <= a) && (i < |spans| ==> spans[i].start > a)
  {
    if spans == [] || spans[0].start > a then 0 else 1 + PartitionPoint(spans[1..], a)
  }

  /** The nearest of the last `steps` spans before `i` that ends past the address. */
  function FindBack(spans: seq<Span>, i: nat, steps: nat, a: int): Option<Span>
    requires i <= |spans|
    decreases steps
  {
    if i == 0 || steps == 0 then None
    else if a < spans[i - 1].end then Some(spans[i - 1])
    else FindBack(spans, i - 1, steps - 1, a)
  }

  function Lookup(spans: seq<Span>, a: int): Option<Span> {
    FindBack(spans, PartitionPoint(spans, a), STEPS_BACK, a)
  }

  lemma {:induction false} PartitionIs(spans: seq<Span>, a: int, i: nat)
    requires i <= |spans| && (forall j | 0 <= j < i :: spans[j].start <= a) && (i < |spans| ==> spans[i].start > a)
    ensures PartitionPoint(spans, a) == i
    decreases i
  {
    if i > 0 { PartitionIs(spans[1..], a, i - 1); }
  }

  /** `lookup` as it runs: a binary search, then at most eight steps back. */
  method LookupAddress(spans: seq<Span>, a: int) returns (r: Option<Span>)
    requires Sorted(spans)
    ensures r == Lookup(spans, a)
  {
    hide PartitionPoint;
    var lo, hi := 0, |spans|;
    while lo < hi
      invariant 0 <= lo <= hi <= |spans|
      invariant (forall j | 0 <= j < lo :: spans[j].start <= a) && forall j | hi <= j < |spans| :: spans[j].start > a
    {
      var mid := (lo + hi) / 2;
      if spans[mid].start <= a { lo := mid + 1; } else { hi := mid; }
    }
    PartitionIs(spans, a, lo);
    var i, steps := lo, STEPS_BACK;
    while i > 0 && steps > 0
      invariant 0 <= i <= |spans| && 0 <= steps
      invariant Lookup(spans, a) == FindBack(spans, i, steps, a)
      decreases steps
    {
      if a < spans[i - 1].end { return Some(spans[i - 1]); }
      i, steps := i - 1, steps - 1;
    }
    r := None;
  }

  /** The last span of the table that holds the address. */
  ghost predicate LastHolder(spans: seq<Span>, a: int, k: int) {
    0 <= k < |spans| && Has(spans[k], a) && forall j | k < j < |spans| :: !Has(spans[j], a)
  }

  lemma {:induction false} FindBackIs(spans: seq<Span>, i: nat, steps: nat, a: int, k: nat)
    requires k < i <= |spans| && (forall j | 0 <= j < i :: spans[j].start <= a)
    requires a < spans[k].end && forall j | k < j < i :: a >= spans[j].end
    ensures FindBack(spans, i, steps, a) == if i - k <= steps then Some(spans[k]) else None
    decreases steps
  {
    if i > k + 1 && steps > 0 { FindBackIs(spans, i - 1, steps - 1, a, k); }
  }

  lemma {:induction false} FindBackNone(spans: seq<Span>, i: nat, steps: nat, a: int)
    requires i <= |spans| && forall j | 0 <= j < i :: a >= spans[j].end
    ensures FindBack(spans, i, steps, a).None?
    decreases steps
  {
    if i > 0 && steps > 0 { FindBackNone(spans, i - 1, steps - 1, a); }
  }

  /** In any sorted table, overlapping or not, looking up gives the last span that holds the
      address, exactly when fewer than eight spans that start at or below it come after that one. */
  lemma LookupExact(spans: seq<Span>, a: int)
    requires Sorted(spans)
    ensures forall k | LastHolder(spans, a, k) ::
      Lookup(spans, a) == if PartitionPoint(spans, a) - k <= STEPS_BACK then Some(spans[k]) else None
    ensures (forall s | s in spans :: !Has(s, a)) ==> Lookup(spans, a).None?
  {
    hide PartitionPoint, FindBack;
    var i := PartitionPoint(spans, a);
    forall j | i <= j < |spans| ensures spans[j].start > a { assert spans[i].start <= spans[j].start; }
    forall k | LastHolder(spans, a, k)
      ensures Lookup(spans, a) == if i - k <= STEPS_BACK then Some(spans[k]) else None
    {
      forall j | k < j < i ensures a >= spans[j].end { assert !Has(spans[j], a); }
      FindBackIs(spans, i, STEPS_BACK, a, k);
    }
    if forall s | s in spans :: !Has(s, a) {
      forall j | 0 <= j < i ensures a >= spans[j].end { assert spans[j] in spans; }
      FindBackNone(spans, i, STEPS_BACK, a);
    }
  }

  /** No two different spans overlap, and none is empty. */
  ghost predicate Apart(spans: seq<Span>) {
    && (forall s | s in spans :: s.start < s.end)
    && forall s, t | s in spans && t in spans :: s == t || s.end <= t.start || t.end <= s.start
  }

  lemma {:induction false} FindBackFinds(spans: seq<Span>, i: nat, steps: nat, a: int)
    requires i <= |spans|
    ensures var r := FindBack(spans, i, steps, a);
      r.Some? ==> r.value in spans[..i] && a < r.value.end
    decreases steps
  {
    if i > 0 && steps > 0 && a >= spans[i - 1].end {
      FindBackFinds(spans, i - 1, steps - 1, a);
      assert forall s | s in spans[..i - 1] :: s in spans[..i];
    }
  }

  /** Among spans apart, looking up finds the span that holds the address, and nothing when none
      does: going back eight spans at most loses nothing. */
  lemma LookupApart(spans: seq<Span>, a: int)
    requires Sorted(spans) && Apart(spans)
    ensures var r := Lookup(spans, a);
      && (r.Some? ==> r.value in spans && Has(r.value, a))
      && (r.None? ==> forall s | s in spans :: !Has(s, a))
  {
    hide PartitionPoint, FindBack;
    var i := PartitionPoint(spans, a);
    FindBackFinds(spans, i, STEPS_BACK, a);
    var r := Lookup(spans, a);
    if r.Some? {
      var j :| 0 <= j < i && spans[..i][j] == r.value;
      assert spans[j] == r.value;
    } else {
      forall s | s in spans ensures !Has(s, a) { NotBefore(spans, i, a, s); }
    }
  }

  lemma NotTheLast(spans: seq<Span>, i: nat, a: int)
    requires 0 < i <= |spans| && FindBack(spans, i, STEPS_BACK, a).None?
    ensures a >= spans[i - 1].end
  {
  }

  lemma NotBefore(spans: seq<Span>, i: nat, a: int, s: Span)
    requires Sorted(spans) && Apart(spans) && i == PartitionPoint(spans, a) && s in spans
      && FindBack(spans, i, STEPS_BACK, a).None?
    ensures !Has(s, a)
  {
    hide PartitionPoint, FindBack, Apart;
    var j :| 0 <= j < |spans| && spans[j] == s;
    if j < i {
      NotTheLast(spans, i, a);
      ApartAre(spans, j, i - 1);
    }
  }

  lemma ApartAre(spans: seq<Span>, i: nat, j: nat)
    requires Apart(spans) && i < |spans| && j < |spans|
    ensures spans[i].start < spans[i].end && spans[j].start < spans[j].end
    ensures spans[i] == spans[j] || spans[i].end <= spans[j].start || spans[j].end <= spans[i].start
  {
  }

  // ---- whole tables ----

  /** The sequence covers the address. */
  predicate Covers(rows: seq<Row>, a: int) { rows != [] && rows[0].addr <= a < rows[|rows| - 1].addr }

  /** The span names the place of the last row at or below the address, a row of line 0 counting as
      the nearest earlier one that has a line. */
  ghost predicate Placed(rows: seq<Row>, a: int, s: Span)
    requires Covers(rows, a)
  {
    var row := Attributed(rows, LastAt(rows, a));
    s.file == row.file && s.line == row.line
  }

  /** What the table is for: sequences whose addresses never go back and whose ranges do not
      overlap. */
  ghost predicate WellFormed(m: seq<seq<Row>>) {
    && (forall k | 0 <= k < |m| :: NonDecreasing(m[k]))
    && forall j, k, a | 0 <= j < k < |m| && Covers(m[j], a) :: !Covers(m[k], a)
  }

  lemma {:induction false} SpanOfProgram(m: seq<seq<Row>>, s: Span) returns (k: nat)
    requires s in ProgramSpans(m)
    ensures k < |m| && s in SequenceSpans(m[k])
    decreases |m|
  {
    var n := |m| - 1;
    if s in ProgramSpans(m[..n]) { k := SpanOfProgram(m[..n], s); } else { k := n; }
  }

  lemma {:induction false} ProgramHas(m: seq<seq<Row>>, k: nat, s: Span)
    requires k < |m| && s in SequenceSpans(m[k])
    ensures s in ProgramSpans(m)
    decreases |m|
  {
    if k < |m| - 1 { ProgramHas(m[..|m| - 1], k, s); }
  }

  /** A sequence covers an address exactly when one of its spans holds it. */
  lemma CoversIs(rows: seq<Row>, a: int)
    requires NonDecreasing(rows)
    ensures Covers(rows, a) <==> exists s | s in SequenceSpans(rows) :: Has(s, a)
  {
    if rows != [] {
      SequenceTiles(rows);
      TilesPartition(SequenceSpans(rows), rows[0].addr, rows[|rows| - 1].addr, a);
      if Covers(rows, a) {
        var i :| 0 <= i < |SequenceSpans(rows)| && Has(SequenceSpans(rows)[i], a);
      }
      if s :| s in SequenceSpans(rows) && Has(s, a) {
        var i :| 0 <= i < |SequenceSpans(rows)| && SequenceSpans(rows)[i] == s;
      }
    }
  }

  /** Spans of one sequence are not empty and do not overlap. */
  lemma SequenceApart(rows: seq<Row>)
    requires NonDecreasing(rows)
    ensures Apart(SequenceSpans(rows))
  {
    var spans := SequenceSpans(rows);
    if rows != [] {
      SequenceTiles(rows);
      TilesPartition(spans, rows[0].addr, rows[|rows| - 1].addr, 0);
      forall s, t | s in spans && t in spans ensures s == t || s.end <= t.start || t.end <= s.start {
        var i :| 0 <= i < |spans| && spans[i] == s;
        var j :| 0 <= j < |spans| && spans[j] == t;
      }
    }
  }

  lemma ProgramApart(m: seq<seq<Row>>)
    requires WellFormed(m)
    ensures Apart(ProgramSpans(m))
  {
    hide SequenceSpans, ProgramSpans, Covers;
    var spans := ProgramSpans(m);
    forall s | s in spans ensures s.start < s.end {
      var k := SpanOfProgram(m, s);
      SequenceApart(m[k]);
    }
    forall s, t | s in spans && t in spans ensures s == t || s.end <= t.start || t.end <= s.start {
      var j := SpanOfProgram(m, s);
      var k := SpanOfProgram(m, t);
      SequenceApart(m[j]);
      if j != k {
        var a := if s.start <= t.start then t.start else s.start;
        if Has(s, a) && Has(t, a) {
          CoversIs(m[j], a);
          CoversIs(m[k], a);
        }
      }
    }
  }

  lemma SortedApart(spans: seq<Span>)
    requires Apart(spans)
    ensures Apart(Sort(spans)) && forall s :: s in Sort(spans) <==> s in spans
  {
    SortKeeps(spans);
    forall s ensures s in Sort(spans) <==> s in spans {
      assert s in Sort(spans) <==> s in multiset(Sort(spans));
      assert s in spans <==> s in multiset(spans);
    }
  }

  /** The table refines the rows. An address inside a sequence is looked up as the last row at or
      below it, a row of line 0 counting as the nearest earlier row of its sequence that has a
      line; an address outside every sequence is not found. */
  lemma LookupRefines(m: seq<seq<Row>>, a: int)
    requires WellFormed(m)
    ensures var r := Lookup(Sort(ProgramSpans(m)), a);
      && (forall k | 0 <= k < |m| && Covers(m[k], a) ::
            r.Some? && Placed(m[k], a, r.value))
      && (r.Some? ==> exists k | 0 <= k < |m| :: Covers(m[k], a))
  {
    hide SequenceSpans, ProgramSpans, Sort, Lookup, Attributed, LastAt, Sorted, Apart, Tiles, NonDecreasing;
    var spans := ProgramSpans(m);
    ProgramApart(m);
    SortKeeps(spans);
    SortedApart(spans);
    LookupApart(Sort(spans), a);
    var r := Lookup(Sort(spans), a);
    forall k | 0 <= k < |m| && Covers(m[k], a)
      ensures r.Some? && r.value in SequenceSpans(m[k]) && Has(r.value, a)
    {
      CoversIs(m[k], a);
      var s :| s in SequenceSpans(m[k]) && Has(s, a);
      ProgramHas(m, k, s);
      var j := SpanOfProgram(m, r.value);
      CoversIs(m[j], a);
    }
    forall k | 0 <= k < |m| && Covers(m[k], a)
      ensures Placed(m[k], a, r.value)
    {
      SpanIsLast(m[k], r.value, a);
    }
    if r.Some? {
      var j := SpanOfProgram(m, r.value);
      CoversIs(m[j], a);
    }
  }

  // ---- a whole section ----

  /** One unit: its header, its file table and its program. */
  datatype Unit = Unit(header: Header, files: seq<nat>, ops: seq<Op>)

  predicate UnitsOk(units: seq<Unit>) { forall u | u in units :: u.header.lineRange > 0 }

  /** The rows of every unit's sequences. */
  function AllRows(units: seq<Unit>): seq<seq<Row>>
    requires UnitsOk(units)
    decreases |units|
  {
    if units == [] then []
    else
      var n := |units| - 1;
      AllRows(units[..n]) + Matrix(units[n].header, Initial(units[n].files), units[n].ops)
  }

  lemma {:induction false} ProgramConcat(a: seq<seq<Row>>, b: seq<seq<Row>>)
    ensures ProgramSpans(a + b) == ProgramSpans(a) + ProgramSpans(b)
    decreases |b|
  {
    hide SequenceSpans;
    if b == [] {
      assert a + b == a;
    } else {
      var n := |b| - 1;
      ProgramConcat(a, b[..n]);
      assert (a + b)[..|a + b| - 1] == a + b[..n] && (a + b)[|a + b| - 1] == b[n];
    }
  }

  lemma RowsStep(units: seq<Unit>, i: nat)
    requires UnitsOk(units) && i < |units|
    ensures var u := units[i];
      AllRows(units[..i + 1]) == AllRows(units[..i]) + Matrix(u.header, Initial(u.files), u.ops)
  {
    hide Matrix;
    assert units[..i + 1][..i] == units[..i] && units[..i + 1][i] == units[i];
  }

  /** `parse`: the spans of every unit's program, sorted. */
  method ParseTable(units: seq<Unit>) returns (spans: seq<Span>)
    requires UnitsOk(units)
    ensures Sorted(spans) && spans == Sort(ProgramSpans(AllRows(units)))
  {
    hide AllRows, ProgramSpans, Matrix, Sort, Sorted;
    spans := [];
    ParseNone(units);
    for i := 0 to |units|
      invariant spans == ProgramSpans(AllRows(units[..i]))
    {
      RowsStep(units, i);
      var u := units[i];
      ProgramConcat(AllRows(units[..i]), Matrix(u.header, Initial(u.files), u.ops));
      var machine := new Machine(u.header, u.files);
      machine.Run(u.ops);
      assert [] + ProgramSpans(Matrix(u.header, Initial(u.files), u.ops)) == machine.spans;
      spans := spans + machine.spans;
    }
    assert units[..|units|] == units;
    SortKeeps(spans);
    spans := Sort(spans);
  }

  lemma ParseNone(units: seq<Unit>)
    requires UnitsOk(units)
    ensures UnitsOk(units[..0]) && ProgramSpans(AllRows(units[..0])) == []
  {
  }

  /** From the section to the place: what an address inside a sequence comes from, and nothing for
      any other address. */
  method Locate(units: seq<Unit>, a: int) returns (r: Option<Span>)
    requires UnitsOk(units)
    ensures r == Lookup(Sort(ProgramSpans(AllRows(units))), a)
    ensures WellFormed(AllRows(units)) ==>
      && (forall rows | rows in AllRows(units) && Covers(rows, a) ::
            r.Some? && Placed(rows, a, r.value))
      && (r.Some? ==> exists rows | rows in AllRows(units) :: Covers(rows, a))
  {
    hide AllRows, ProgramSpans, Sort, Lookup, Placed, Covers, WellFormed;
    var spans := ParseTable(units);
    r := LookupAddress(spans, a);
    ghost var m := AllRows(units);
    if WellFormed(m) {
      LookupRefines(m, a);
    }
  }
}
