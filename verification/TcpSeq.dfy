/** Sequence numbers: thirty-two bits that wrap. */
module TcpSeq {
  import opened Bytes

  type u32 = x: int | 0 <= x < U32

  const HALF: int := 0x8000_0000

  /** `wrapping_add`. */
  function Add(a: u32, b: int): u32 { (a + b) % U32 }

  /** `wrapping_sub`. */
  function Sub(a: u32, b: u32): u32 { (a - b) % U32 }

  /** `a` comes before `b` in sequence space. */
  predicate Before(a: u32, b: u32) { a != b && Sub(b, a) < HALF }

  lemma Wrap(x: int)
    ensures 0 <= x < U32 ==> x % U32 == x
    ensures U32 <= x < 2 * U32 ==> x % U32 == x - U32
    ensures -U32 <= x < 0 ==> x % U32 == x + U32
  {
  }

  lemma ModOnce(x: int, y: int)
    ensures (x % U32 + y) % U32 == (x + y) % U32
  {
    var q := x / U32;
    assert x == q * U32 + x % U32;
    ModShift(x % U32 + y, q);
  }

  lemma {:induction false} ModShift(x: int, q: int)
    ensures (x + q * U32) % U32 == x % U32
    decreases if q >= 0 then q else -q
  {
    if q > 0 {
      ModShift(x, q - 1);
      ModNext(x + (q - 1) * U32);
    } else if q < 0 {
      ModShift(x, q + 1);
      ModNext(x + q * U32);
    }
  }

  lemma ModNext(x: int)
    ensures (x + U32) % U32 == x % U32
  {
  }

  /** Offsets add up. */
  lemma AddAdd(base: u32, x: int, y: int)
    ensures Add(Add(base, x), y) == Add(base, x + y)
  {
    ModOnce(base + x, y);
  }

  /** The distance between two numbers counted from one base. */
  lemma SubAdd(base: u32, x: int, y: int)
    ensures Sub(Add(base, x), Add(base, y)) == (x - y) % U32
  {
    var a, b := base + x, base + y;
    ModOnce(a, -(b % U32));
    ModOnce(-b, a);
    var q := b / U32;
    assert b == q * U32 + b % U32;
    ModShift(a - b, q);
    assert a - b % U32 == a - b + q * U32;
  }

  /** Numbers less than a wrap apart are equal only if they are one. */
  lemma AddSame(base: u32, x: int, y: int)
    requires -U32 < x - y < U32
    ensures Add(base, x) == Add(base, y) <==> x == y
  {
    SubAdd(base, x, y);
    Wrap(x - y);
  }

  /** Counted from one base, order is the order of the offsets, as long as they stay within half
      the space of one another. */
  lemma BeforeAdd(base: u32, x: int, y: int)
    requires -HALF < x - y < HALF
    ensures Before(Add(base, x), Add(base, y)) <==> x < y
  {
    AddSame(base, x, y);
    SubAdd(base, y, x);
    Wrap(y - x);
  }
}
