/** The DWARF line-number machine and the rows it stands for (section 6.2 of DWARF 5). */
module Dwarf {
  import opened Optional

  const U64: int := 0x1_0000_0000_0000_0000
  const U32: int := 0x1_0000_0000

  type u64 = x: int | 0 <= x < U64
  type u8 = x: int | 0 <= x < 256

  /** What a unit's header fixes for its program. */
  datatype Header = Header(minInst: u8, lineBase: int, lineRange: u8, opcodeBase: u8)

  /** Decoded operations. `Other` stands for those that change neither address, file nor line. */
  datatype Op =
    | Special(adj: u8) | EndSequence | SetAddress(to: u64) | DefineFile(id: nat) | Copy | AdvancePc(words: nat)
    | AdvanceLine(delta: int) | SetFile(index: nat) | ConstAddPc | FixedAdvancePc(step: nat) | Other

  /** A row of the line matrix; line 0 for code no line is responsible for. */
  datatype Row = Row(addr: u64, file: nat, line: nat)

  /** The addresses one row covers. */
  datatype Span = Span(start: u64, end: u64, file: nat, line: nat)

  /** Address, file and line registers, and the unit's file table. */
  datatype Regs = Regs(addr: u64, file: nat, line: int, files: seq<nat>)

  function Initial(files: seq<nat>): Regs { Regs(0, 1, 1, files) }

  function Advance(addr: u64, n: nat): u64 { (addr + n) % U64 }

  /** The row the registers describe: an unknown file is file 0, a line no u32 holds is line 0. */
  function RowOf(r: Regs): Row {
    Row(r.addr, if r.file < |r.files| then r.files[r.file] else 0, if 0 <= r.line < U32 then r.line else 0)
  }

  /** `n` instructions of `unit` bytes. */
  function Scaled(n: nat, unit: nat): nat {
    n * unit
  }

  /** The instructions a special opcode steps over. */
  function Steps(h: Header, adj: u8): nat
    requires h.lineRange > 0
  {
    adj / h.lineRange
  }

  /** What an operation does to the registers before any row is emitted. */
  function Update(h: Header, r: Regs, op: Op): Regs
    requires h.lineRange > 0
  {
    match op
    case Special(adj) => r.(addr := Advance(r.addr, Scaled(Steps(h, adj), h.minInst)),
      line := r.line + h.lineBase + adj % h.lineRange)
    case SetAddress(to) => r.(addr := to)
    case DefineFile(id) => r.(files := r.files + [id])
    case AdvancePc(words) => r.(addr := Advance(r.addr, Scaled(words, h.minInst)))
    case AdvanceLine(delta) => r.(line := r.line + delta)
    case SetFile(index) => r.(file := index)
    case ConstAddPc => r.(addr := Advance(r.addr, Scaled(Steps(h, 255 - h.opcodeBase), h.minInst)))
    case FixedAdvancePc(step) => r.(addr := Advance(r.addr, step))
    case _ => r
  }

  predicate Emits(op: Op) { op.Special? || op.Copy? || op.EndSequence? }

  // ---- the machine ----

  /** A row pushed behind the previous one: the span of the previous row closes, and a row of
      line 0 takes the previous row's file and line. */
  function Close(prev: Option<Row>, addr: u64): seq<Span> {
    if prev.Some? && addr > prev.value.addr then [Span(prev.value.addr, addr, prev.value.file, prev.value.line)] else []
  }

  function Inherit(prev: Option<Row>, row: Row): Row {
    if prev.Some? && row.line == 0 && prev.value.line != 0
    then row.(file := prev.value.file, line := prev.value.line)
    else row
  }

  class Machine {
    const h: Header
    var regs: Regs
    var prev: Option<Row>
    var spans: seq<Span>

    constructor (h: Header, files: seq<nat>)
      ensures this.h == h && regs == Initial(files) && prev == None && spans == []
    {
      this.h := h;
      regs, prev, spans := Initial(files), None, [];
    }

    method Emit()
      modifies this
      ensures regs == old(regs) && prev == Some(Inherit(old(prev), RowOf(regs)))
        && spans == old(spans) + Close(old(prev), regs.addr)
    {
      if prev.Some? && regs.addr > prev.value.addr {
        spans := spans + [Span(prev.value.addr, regs.addr, prev.value.file, prev.value.line)];
      }
      var row := RowOf(regs);
      if prev.Some? && row.line == 0 && prev.value.line != 0 {
        row := row.(file := prev.value.file, line := prev.value.line);
      }
      prev := Some(row);
    }

    method Run(ops: seq<Op>)
      requires h.lineRange > 0 && prev.None?
      modifies this
      ensures spans == old(spans) + ProgramSpans(Matrix(h, old(regs), ops))
    {
      hide Update, RowOf, SequenceSpans, ProgramSpans, MatrixFrom, Matrix, LastOf;
      ghost var start, spans0 := regs, spans;
      ghost var done: seq<seq<Row>>, current: seq<Row> := [], [];
      MatrixStart(h, regs, ops);
      SpansOfNone();
      assert ops[0..] == ops;
      for i := 0 to |ops|
        invariant Matrix(h, start, ops) == MatrixFrom(h, regs, ops[i..], done, current)
        invariant prev == LastOf(current) && spans == spans0 + ProgramSpans(done) + SequenceSpans(current)
      {
        MatrixStep(h, regs, ops, i, done, current);
        var op := ops[i];
        regs := Update(h, regs, op);
        if Emits(op) {
          SpansStep(current, RowOf(regs));
          Regroup(spans0 + ProgramSpans(done), SequenceSpans(current), Close(prev, regs.addr));
          RowAddr(regs);
          Emit();
          current := current + [RowOf(regs)];
          if op.EndSequence? {
            EndStep(done, current);
            Regroup(spans0, ProgramSpans(done), SequenceSpans(current));
            done, current := done + [current], [];
            prev, regs := None, Initial(regs.files);
          }
        }
      }
      MatrixEnd(h, regs, ops, done, current);
      EndStep(done, current);
      Regroup(spans0, ProgramSpans(done), SequenceSpans(current));
    }
  }

  // ---- the reference: rows, grouped by sequence ----

  /** The rows of every sequence, in order; the last is left open where the program stops. */
  function Matrix(h: Header, r: Regs, ops: seq<Op>): seq<seq<Row>>
    requires h.lineRange > 0
  {
    MatrixFrom(h, r, ops, [], [])
  }

  function MatrixFrom(h: Header, r: Regs, ops: seq<Op>, done: seq<seq<Row>>, current: seq<Row>): seq<seq<Row>>
    requires h.lineRange > 0
    decreases |ops|
  {
    if ops == [] then done + [current]
    else
      var r' := Update(h, r, ops[0]);
      if ops[0].EndSequence? then MatrixFrom(h, Initial(r'.files), ops[1..], done + [current + [RowOf(r')]], [])
      else if Emits(ops[0]) then MatrixFrom(h, r', ops[1..], done, current + [RowOf(r')])
      else MatrixFrom(h, r', ops[1..], done, current)
  }

  /** Row `i` with a line of its own, or the nearest earlier row of the sequence that has one; the
      row itself when there is none. */
  function Attributed(rows: seq<Row>, i: nat): Row
    requires i < |rows|
  {
    var j := Nearest(rows, i);
    if rows[i].line == 0 && rows[j].line != 0 then rows[i].(file := rows[j].file, line := rows[j].line) else rows[i]
  }

  /** The nearest row at or before `i` whose line is not 0, or `i` itself if there is none. */
  function Nearest(rows: seq<Row>, i: nat): (j: nat)
    requires i < |rows|
    ensures j <= i
    ensures rows[j].line != 0 ==> forall k | j < k <= i :: rows[k].line == 0
    ensures rows[j].line == 0 ==> j == i && forall k | 0 <= k <= i :: rows[k].line == 0
  {
    if rows[i].line != 0 || i == 0 then i
    else
      var j := Nearest(rows, i - 1);
      if rows[j].line != 0 then j else i
  }

  /** The spans of a sequence: one from each row to the next, where that is not empty. */
  function SequenceSpans(rows: seq<Row>): seq<Span> {
    if |rows| < 2 then []
    else
      var n := |rows| - 1;
      SequenceSpans(rows[..n]) + Close(Some(Attributed(rows, n - 1)), rows[n].addr)
  }

  function ProgramSpans(m: seq<seq<Row>>): seq<Span> {
    if m == [] then [] else ProgramSpans(m[..|m| - 1]) + SequenceSpans(m[|m| - 1])
  }

  /** What the machine remembers of a sequence: its last row, attributed. */
  function LastOf(rows: seq<Row>): Option<Row> {
    if rows == [] then None else Some(Attributed(rows, |rows| - 1))
  }

  // ---- the machine keeps up with the reference ----

  lemma {:induction false} NearestPrefix(rows: seq<Row>, more: seq<Row>, i: nat)
    requires i < |rows|
    ensures Nearest(rows + more, i) == Nearest(rows, i) && Attributed(rows + more, i) == Attributed(rows, i)
    decreases i
  {
    if i > 0 { NearestPrefix(rows, more, i - 1); }
  }

  lemma LastStep(rows: seq<Row>, row: Row)
    ensures LastOf(rows + [row]) == Some(Inherit(LastOf(rows), row))
  {
    if rows != [] { NearestPrefix(rows, [row], |rows| - 1); }
  }

  lemma SpansStep(rows: seq<Row>, row: Row)
    ensures SequenceSpans(rows + [row]) == SequenceSpans(rows) + Close(LastOf(rows), row.addr)
    ensures LastOf(rows + [row]) == Some(Inherit(LastOf(rows), row))
  {
    hide Attributed, Inherit, Nearest;
    LastStep(rows, row);
    var all, n := rows + [row], |rows|;
    assert all[..n] == rows && all[n] == row;
    if n > 0 { NearestPrefix(rows, [row], n - 1); }
  }

  lemma Regroup(a: seq<Span>, b: seq<Span>, c: seq<Span>)
    ensures a + b + c == a + (b + c) && a + b + [] == a + b
  {
  }

  lemma RowAddr(r: Regs)
    ensures RowOf(r).addr == r.addr
  {
  }

  lemma SpansOfNone()
    ensures ProgramSpans([]) == [] && SequenceSpans([]) == [] && LastOf([]) == None
  {
  }

  lemma EndStep(done: seq<seq<Row>>, current: seq<Row>)
    ensures ProgramSpans(done + [current]) == ProgramSpans(done) + SequenceSpans(current)
  {
    var m := done + [current];
    assert m[..|m| - 1] == done;
  }

  lemma MatrixStart(h: Header, r: Regs, ops: seq<Op>)
    requires h.lineRange > 0
    ensures Matrix(h, r, ops) == MatrixFrom(h, r, ops, [], [])
  {
  }

  lemma MatrixStep(h: Header, r: Regs, ops: seq<Op>, i: nat, done: seq<seq<Row>>, current: seq<Row>)
    requires h.lineRange > 0 && i < |ops|
    ensures var r' := Update(h, r, ops[i]);
      MatrixFrom(h, r, ops[i..], done, current) ==
      if ops[i].EndSequence? then MatrixFrom(h, Initial(r'.files), ops[i + 1..], done + [current + [RowOf(r')]], [])
      else if Emits(ops[i]) then MatrixFrom(h, r', ops[i + 1..], done, current + [RowOf(r')])
      else MatrixFrom(h, r', ops[i + 1..], done, current)
  {
    assert ops[i..][0] == ops[i] && ops[i..][1..] == ops[i + 1..];
  }

  lemma MatrixEnd(h: Header, r: Regs, ops: seq<Op>, done: seq<seq<Row>>, current: seq<Row>)
    requires h.lineRange > 0
    ensures MatrixFrom(h, r, ops[|ops|..], done, current) == done + [current]
  {
  }

  // ---- shorthand operations ----

  lemma {:induction false} MatrixGoesOn(h: Header, r: Regs, a: seq<Op>, op: Op, b: seq<Op>, done: seq<seq<Row>>,
        current: seq<Row>)
    requires h.lineRange > 0 && a == [op] + b && !Emits(op)
    ensures MatrixFrom(h, r, a, done, current) == MatrixFrom(h, Update(h, r, op), b, done, current)
  {
    assert a[0] == op && a[1..] == b;
  }

  /** A special opcode stands for advancing the address, advancing the line and copying a row. */
  lemma SpecialIsThree(h: Header, r: Regs, adj: u8, rest: seq<Op>, done: seq<seq<Row>>, current: seq<Row>)
    requires h.lineRange > 0
    ensures MatrixFrom(h, r, [Special(adj)] + rest, done, current) ==
            MatrixFrom(h, r, [AdvancePc(adj / h.lineRange), AdvanceLine(h.lineBase + adj % h.lineRange), Copy] + rest,
              done, current)
  {
    hide RowOf, Scaled, Advance;
    var pc, line := AdvancePc(adj / h.lineRange), AdvanceLine(h.lineBase + adj % h.lineRange);
    var two, three := [line, Copy] + rest, [pc, line, Copy] + rest;
    MatrixGoesOn(h, r, three, pc, two, done, current);
    MatrixGoesOn(h, Update(h, r, pc), two, line, [Copy] + rest, done, current);
    assert ([Copy] + rest)[0] == Copy && ([Copy] + rest)[1..] == rest;
    assert ([Special(adj)] + rest)[0] == Special(adj) && ([Special(adj)] + rest)[1..] == rest;
  }
}
