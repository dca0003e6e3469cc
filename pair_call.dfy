/**
 * The cost record of one call-graph edge (`PairCall`): an invocation count
 * and four cost metrics. The Go fields are `float32`; here they are exact
 * reals, and `Count` is an unbounded integer.
 */
module PairCalls {

  /** The value of a cost record. */
  datatype Cost = Cost(Count: int, WallTime: real, CpuTime: real, Memory: real, PeakMemory: real)

  /** A freshly allocated record, `new(PairCall)`. */
  const Zero := Cost(0, 0.0, 0.0, 0.0, 0.0)

  /** Elementwise sum of two records, what `Add` leaves in its receiver. */
  function Plus(a: Cost, b: Cost): Cost
  {
    Cost(a.Count + b.Count, a.WallTime + b.WallTime, a.CpuTime + b.CpuTime,
         a.Memory + b.Memory, a.PeakMemory + b.PeakMemory)
  }

  function Abs(x: int): nat
  {
    if x < 0 then -x else x
  }

  /** Go's conversion `int(d)` of a float: the fraction is cut off toward zero. */
  function TruncToInt(d: real): (n: int)
    ensures d >= 1.0 ==> 1 <= n && n as real <= d < n as real + 1.0
    ensures d <= -1.0 ==> n <= -1 && n as real - 1.0 < d <= n as real
  {
    if d >= 0.0 then d.Floor else -((-d).Floor)
  }

  /** Go's integer division `a / b`: the quotient is rounded toward zero. */
  function TruncDiv(a: int, b: int): int
    requires b != 0
  {
    var n := Abs(a) / Abs(b);
    if (a < 0) == (b < 0) then n else -n
  }

  /**
   * The truncating quotient leaves a remainder `a - q * b` smaller than `b`
   * in size and never of the opposite sign of `a`.
   */
  lemma TruncDivSpec(a: int, b: int)
    requires b != 0
    ensures var q := TruncDiv(a, b);
      && Abs(a - q * b) < Abs(b)
      && (a >= 0 ==> a - q * b >= 0)
      && (a <= 0 ==> a - q * b <= 0)
  {
    var n := Abs(a) / Abs(b);
    EuclideanRemainder(Abs(a), Abs(b));
    TruncDivRemainder(a, b, n, TruncDiv(a, b));
  }

  /** Multiplying the signed quotient back gives the magnitude with the sign of `a`. */
  lemma QuotientTimesDivisor(a: int, b: int, n: int, q: int)
    requires b != 0
    requires q == if (a < 0) == (b < 0) then n else -n
    ensures q * b == if a < 0 then -(n * Abs(b)) else n * Abs(b)
  {
    if b < 0 {
      assert Abs(b) == -b;
      assert (-n) * b == n * (-b);
      assert n * b == -(n * (-b));
    } else {
      assert (-n) * b == -(n * b);
    }
  }

  /** The remainder of the truncating division, from that of the Euclidean one. */
  lemma TruncDivRemainder(a: int, b: int, n: int, q: int)
    requires b != 0 && 0 <= Abs(a) - n * Abs(b) < Abs(b)
    requires q == if (a < 0) == (b < 0) then n else -n
    ensures Abs(a - q * b) < Abs(b)
    ensures a >= 0 ==> a - q * b >= 0
    ensures a <= 0 ==> a - q * b <= 0
  {
    var nb := n * Abs(b);
    var qb := q * b;
    QuotientTimesDivisor(a, b, n, q);
    if a < 0 {
      assert qb == -nb;
      assert a - qb == nb - Abs(a);
    } else {
      assert qb == nb;
      assert a - qb == Abs(a) - nb;
    }
  }

  /**
   * What `Divide(d)` leaves in its receiver: `Count` divided by `int(d)`
   * with truncation, the cost metrics divided by `d`. Go panics on an
   * integer division by zero, that is when |d| < 1.
   */
  function Scaled(c: Cost, d: real): Cost
    requires d >= 1.0 || d <= -1.0
  {
    Cost(TruncDiv(c.Count, TruncToInt(d)), c.WallTime / d, c.CpuTime / d,
         c.Memory / d, c.PeakMemory / d)
  }

  /** `Zero` is neutral for `Plus`: copying a record equals adding it to a fresh one. */
  lemma PlusZero(c: Cost)
    ensures Plus(Zero, c) == c && Plus(c, Zero) == c
  {
  }

  /** Accumulation does not depend on order. */
  lemma PlusCommutesAssociates(a: Cost, b: Cost, c: Cost)
    ensures Plus(a, b) == Plus(b, a)
    ensures Plus(a, Plus(b, c)) == Plus(Plus(a, b), c)
  {
  }

  /** Dividing by one changes nothing. */
  lemma ScaledByOne(c: Cost)
    ensures Scaled(c, 1.0) == c
  {
    assert TruncToInt(1.0) == 1;
    assert TruncDiv(c.Count, 1) == c.Count;
  }

  /**
   * Dividing by a whole number `n >= 1` undoes `n`-fold accumulation: the
   * four cost metrics multiply back to the originals, and the count is
   * Go's truncated quotient: the remainder is below `n` in size and has the
   * sign of the count, so for a non-negative count it is the floor.
   */
  lemma ScaledByWhole(c: Cost, n: int)
    requires n >= 1
    ensures var s := Scaled(c, n as real);
      && s.WallTime * (n as real) == c.WallTime
      && s.CpuTime * (n as real) == c.CpuTime
      && s.Memory * (n as real) == c.Memory
      && s.PeakMemory * (n as real) == c.PeakMemory
    ensures var q := Scaled(c, n as real).Count;
      && Abs(c.Count - q * n) < n
      && (c.Count >= 0 ==> 0 <= c.Count - q * n && q == c.Count / n)
      && (c.Count <= 0 ==> c.Count - q * n <= 0)
  {
    var q := Scaled(c, n as real).Count;
    assert TruncToInt(n as real) == n;
    TruncDivSpec(c.Count, n);
    if c.Count >= 0 {
      DivUnique(c.Count, n, q);
    }
  }

  /** Go's quotient of a multiple of `n` by `n` is exact, whatever the sign. */
  lemma TruncDivOfMultiple(a: int, n: int)
    requires n >= 1
    ensures TruncDiv(a * n, n) == a
  {
    var q := TruncDiv(a * n, n);
    TruncDivSpec(a * n, n);
    var d := a - q;
    assert a * n - q * n == d * n;
    if d >= 1 {
      MulMonotone(1, d, n);
    } else if d <= -1 {
      MulMonotone(d, -1, n);
    }
  }

  /** A quotient with a remainder in [0, n) is the Euclidean quotient. */
  lemma DivUnique(a: int, n: int, q: int)
    requires n >= 1 && 0 <= a - q * n < n
    ensures q == a / n
  {
    var e := a / n;
    EuclideanRemainder(a, n);
    if q < e {
      MulMonotone(q + 1, e, n);
    } else if q > e {
      MulMonotone(e + 1, q, n);
    }
  }

  /** Dafny's Euclidean division leaves a remainder in [0, n). */
  lemma EuclideanRemainder(a: int, n: int)
    requires n >= 1
    ensures 0 <= a - (a / n) * n < n
  {
  }

  lemma MulMonotone(x: int, y: int, n: int)
    requires x <= y && n >= 1
    ensures x * n <= y * n && (x - 1) * n == x * n - n
  {
  }

  /** A cost record that is updated in place, as the Go pointer `*PairCall` is. */
  class PairCall {
    var Count: int
    var WallTime: real
    var CpuTime: real
    var Memory: real
    var PeakMemory: real

    /** The record's current value. */
    function Value(): Cost
      reads this
    {
      Cost(Count, WallTime, CpuTime, Memory, PeakMemory)
    }

    /** `new(PairCall)`: every field is zero. */
    constructor ()
      ensures Value() == Zero
    {
      Count, WallTime, CpuTime, Memory, PeakMemory := 0, 0.0, 0.0, 0.0, 0.0;
    }

    /**
     * `Add`: accumulate `o` into this record field by field and return this
     * record for chaining. `o` is only read (`p.Add(p)` doubles `p`).
     */
    method Add(o: PairCall) returns (self: PairCall)
      modifies this
      ensures self == this
      ensures Value() == Plus(old(Value()), old(o.Value()))
      ensures o != this ==> o.Value() == old(o.Value())
    {
      Count := Count + o.Count;
      WallTime := WallTime + o.WallTime;
      CpuTime := CpuTime + o.CpuTime;
      Memory := Memory + o.Memory;
      PeakMemory := PeakMemory + o.PeakMemory;
      self := this;
    }

    /** `Divide`: scale this record down by `d` and return it for chaining. */
    method Divide(d: real) returns (self: PairCall)
      requires d >= 1.0 || d <= -1.0
      modifies this
      ensures self == this
      ensures Value() == Scaled(old(Value()), d)
    {
      Count := TruncDiv(Count, TruncToInt(d));
      WallTime := WallTime / d;
      CpuTime := CpuTime / d;
      Memory := Memory / d;
      PeakMemory := PeakMemory / d;
      self := this;
    }
  }
}
