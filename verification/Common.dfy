/** Small shared vocabulary: optional values, instants and durations in nanoseconds. */
module Common {
  datatype Option<+T> = None | Some(value: T)

  /** An instant, in nanoseconds on one shared clock. */
  type Time = int

  /** A duration in nanoseconds. */
  type Duration = int

  const SECOND: Duration := 1_000_000_000
  const MINUTE: Duration := 60 * SECOND
  const HOUR: Duration := 60 * MINUTE

  /** Conversion of a real to an integer count, dropping the fraction. */
  function Truncate(x: real): int {
    if x >= 0.0 then x.Floor else -((-x).Floor)
  }

  function Max(a: int, b: int): int {
    if a >= b then a else b
  }

  lemma {:induction false} SubsetSize<T>(a: set<T>, b: set<T>)
    requires a <= b
    ensures |a| <= |b|
    ensures |a| == |b| ==> a == b
  {
    if a != {} {
      var x :| x in a;
      SubsetSize(a - {x}, b - {x});
    }
  }

  /** At most `n` numbers fit between `lo` and `lo + n`. */
  lemma {:induction false} RangeSize(xs: set<nat>, lo: nat, n: nat)
    requires forall x :: x in xs ==> lo <= x < lo + n
    ensures |xs| <= n
  {
    if n > 0 {
      RangeSize(xs - {lo + n - 1}, lo, n - 1);
    } else {
      assert xs == {};
    }
  }
}
