/**
 * The per-mailbox token bucket, and its equivalence with a plain window count. Time is in
 * nanoseconds, token levels are exact reals.
 */
module TokenBucket {
  import opened Common

  /** Tokens gained in `elapsed` nanoseconds. */
  function Gain(perMinute: int, elapsed: Duration): real {
    elapsed as real / MINUTE as real * perMinute as real
  }

  lemma GainAdds(perMinute: int, a: Duration, b: Duration)
    ensures Gain(perMinute, a + b) == Gain(perMinute, a) + Gain(perMinute, b)
  {
    var m, p := MINUTE as real, perMinute as real;
    assert (a + b) as real / m == a as real / m + b as real / m;
    Distribute(a as real / m, b as real / m, p);
  }

  lemma Distribute(x: real, y: real, z: real)
    ensures (x + y) * z == x * z + y * z
  {
  }

  lemma GainGrows(perMinute: int, elapsed: Duration)
    requires perMinute > 0
    ensures elapsed == 0 ==> Gain(perMinute, elapsed) == 0.0
    ensures elapsed > 0 ==> Gain(perMinute, elapsed) > 0.0
  {
    var x, p := elapsed as real / MINUTE as real, perMinute as real;
    assert elapsed > 0 ==> x > 0.0;
    PositiveProduct(x, p);
  }

  lemma PositiveProduct(x: real, y: real)
    requires y > 0.0
    ensures x > 0.0 ==> x * y > 0.0
    ensures x == 0.0 ==> x * y == 0.0
  {
  }

  /** The level after refilling over `elapsed` nanoseconds, capped at capacity. */
  function Refilled(perMinute: int, tokens: real, elapsed: Duration): real {
    var more := tokens + Gain(perMinute, elapsed);
    if more > perMinute as real then perMinute as real else more
  }

  // ---- the bucket ----

  datatype Bucket = Bucket(perMinute: int, tokens: real, last: Time) {
    predicate Valid() {
      1 <= perMinute && 0.0 <= tokens <= perMinute as real
    }
  }

  function NewBucket(perMinute: int, now: Time): Bucket {
    Bucket(perMinute, perMinute as real, now)
  }

  /** Refilling up to `now`; an instant not after the last one changes nothing. */
  function Refill(b: Bucket, now: Time): Bucket {
    if now <= b.last then b else Bucket(b.perMinute, Refilled(b.perMinute, b.tokens, now - b.last), now)
  }

  predicate Admits(b: Bucket, now: Time) {
    Refill(b, now).tokens >= 1.0
  }

  function Take(b: Bucket, now: Time): Bucket {
    var r := Refill(b, now);
    if r.tokens >= 1.0 then r.(tokens := r.tokens - 1.0) else r
  }

  /** How long a refused caller is told to wait: both conversions drop a fraction. */
  function Delay(b: Bucket): Duration
    requires b.perMinute != 0
  {
    Truncate((1.0 - b.tokens) * (MINUTE / b.perMinute) as real)
  }

  lemma RefillValid(b: Bucket, now: Time)
    requires b.Valid()
    ensures Refill(b, now).Valid() && Refill(b, now).perMinute == b.perMinute && Refill(b, now).last == Max(b.last, now)
  {
    GainGrows(b.perMinute, now - b.last);
  }

  lemma TakeValid(b: Bucket, now: Time)
    requires b.Valid()
    ensures Take(b, now).Valid() && Take(b, now).perMinute == b.perMinute && Take(b, now).last == Max(b.last, now)
  {
    RefillValid(b, now);
  }

  // ---- the window count ----

  /** The admissions from the `i`-th on, together with one more at `at`, fit their window. */
  predicate WindowFits(perMinute: int, admitted: seq<Time>, i: nat, at: Time)
    requires i < |admitted|
  {
    (|admitted| - i + 1) as real <= perMinute as real + Gain(perMinute, at - admitted[i])
  }

  /** One more admission at `at` keeps every window from an earlier admission within bounds. */
  ghost predicate MayAdmit(perMinute: int, admitted: seq<Time>, at: Time) {
    forall i :: 0 <= i < |admitted| ==> WindowFits(perMinute, admitted, i, at)
  }

  /** What is left at `at` of the window that starts with the `i`-th admission. */
  function Room(perMinute: int, admitted: seq<Time>, i: nat, at: Time): real
    requires i < |admitted|
  {
    perMinute as real + Gain(perMinute, at - admitted[i]) - (|admitted| - i) as real
  }

  /** The token level is the least room of all windows, capped at capacity. */
  ghost predicate IsLevel(b: Bucket, admitted: seq<Time>) {
    && (forall i :: 0 <= i < |admitted| ==> b.tokens <= Room(b.perMinute, admitted, i, b.last))
    && b.tokens <= b.perMinute as real
    && (|| b.tokens == b.perMinute as real
        || exists i :: 0 <= i < |admitted| && b.tokens == Room(b.perMinute, admitted, i, b.last))
  }

  lemma RoomGrows(perMinute: int, admitted: seq<Time>, i: nat, at: Time, later: Time)
    requires i < |admitted|
    ensures Room(perMinute, admitted, i, later) == Room(perMinute, admitted, i, at) + Gain(perMinute, later - at)
  {
    GainAdds(perMinute, at - admitted[i], later - at);
    assert (at - admitted[i]) + (later - at) == later - admitted[i];
  }

  lemma RefillLevel(b: Bucket, admitted: seq<Time>, now: Time)
    requires b.Valid() && IsLevel(b, admitted)
    ensures IsLevel(Refill(b, now), admitted)
  {
    if now > b.last {
      var r := Refill(b, now);
      GainGrows(b.perMinute, now - b.last);
      forall i | 0 <= i < |admitted|
        ensures Room(b.perMinute, admitted, i, now) == Room(b.perMinute, admitted, i, b.last) + Gain(b.perMinute, now - b.last)
      {
        RoomGrows(b.perMinute, admitted, i, b.last, now);
      }
      if r.tokens != b.perMinute as real {
        var i :| 0 <= i < |admitted| && b.tokens == Room(b.perMinute, admitted, i, b.last);
        assert r.tokens == Room(b.perMinute, admitted, i, now);
      }
    }
  }

  lemma RoomAfter(perMinute: int, admitted: seq<Time>, i: nat, at: Time)
    requires i <= |admitted| && perMinute > 0
    ensures Room(perMinute, admitted + [at], i, at)
            == (if i < |admitted| then Room(perMinute, admitted, i, at) else perMinute as real) - 1.0
  {
    GainGrows(perMinute, 0);
    if i == |admitted| {
      assert at - (admitted + [at])[i] == 0;
    }
  }

  lemma TakeLevel(b: Bucket, admitted: seq<Time>)
    requires b.Valid() && IsLevel(b, admitted)
    ensures IsLevel(b.(tokens := b.tokens - 1.0), admitted + [b.last])
  {
    var more, t := admitted + [b.last], b.(tokens := b.tokens - 1.0);
    forall i | 0 <= i < |more|
      ensures t.tokens <= Room(b.perMinute, more, i, b.last)
    {
      RoomAfter(b.perMinute, admitted, i, b.last);
    }
    RoomAfter(b.perMinute, admitted, |admitted|, b.last);
    if b.tokens == b.perMinute as real {
      assert t.tokens == Room(b.perMinute, more, |admitted|, b.last);
    } else {
      var i :| 0 <= i < |admitted| && b.tokens == Room(b.perMinute, admitted, i, b.last);
      RoomAfter(b.perMinute, admitted, i, b.last);
      assert t.tokens == Room(b.perMinute, more, i, b.last);
    }
  }

  /** A level of one token means every window has room for one more admission. */
  lemma LevelIsWindows(b: Bucket, admitted: seq<Time>)
    requires b.Valid() && IsLevel(b, admitted)
    ensures b.tokens >= 1.0 <==> MayAdmit(b.perMinute, admitted, b.last)
  {
    forall i | 0 <= i < |admitted|
      ensures WindowFits(b.perMinute, admitted, i, b.last) <==> Room(b.perMinute, admitted, i, b.last) >= 1.0
    {
    }
  }

  // ---- runs of calls ----

  /** The instant a bucket created at `start` is at after some calls: the latest it was told. */
  function Effective(start: Time, calls: seq<Time>): Time {
    if |calls| == 0 then start else Max(Effective(start, calls[..|calls| - 1]), calls[|calls| - 1])
  }

  /** The admissions of a bucket over a sequence of calls, at their effective instants. */
  function Run(perMinute: int, start: Time, calls: seq<Time>): (Bucket, seq<Time>) {
    if |calls| == 0 then (NewBucket(perMinute, start), [])
    else
      var (b, admitted) := Run(perMinute, start, calls[..|calls| - 1]);
      var now := calls[|calls| - 1];
      (Take(b, now), if Admits(b, now) then admitted + [Max(b.last, now)] else admitted)
  }

  /** The same calls judged by counting windows only. */
  ghost function WindowRun(perMinute: int, start: Time, calls: seq<Time>): seq<Time> {
    if |calls| == 0 then []
    else
      var admitted := WindowRun(perMinute, start, calls[..|calls| - 1]);
      var at := Effective(start, calls);
      if MayAdmit(perMinute, admitted, at) then admitted + [at] else admitted
  }

  /** At no reading, each counting as the latest so far, is there room for one more admission. */
  ghost predicate NoneFits(perMinute: int, admitted: seq<Time>, start: Time, readings: seq<Time>) {
    forall i :: 1 <= i <= |readings| ==> !MayAdmit(perMinute, admitted, Effective(start, readings[..i]))
  }

  lemma {:induction false} NextReading(perMinute: int, admitted: seq<Time>, start: Time, readings: seq<Time>, i: nat)
    requires i < |readings|
    ensures var at := Effective(start, readings[..i + 1]);
            && at == Max(Effective(start, readings[..i]), readings[i])
            && (if MayAdmit(perMinute, admitted, at) then !NoneFits(perMinute, admitted, start, readings)
                else NoneFits(perMinute, admitted, start, readings[..i]) ==> NoneFits(perMinute, admitted, start, readings[..i + 1]))
  {
    var upto, next := readings[..i], readings[..i + 1];
    assert next[..i] == upto && next[..i + 1] == next;
    if NoneFits(perMinute, admitted, start, upto) && !MayAdmit(perMinute, admitted, Effective(start, next)) {
      forall j | 1 <= j <= |next|
        ensures !MayAdmit(perMinute, admitted, Effective(start, next[..j]))
      {
        assert j <= i ==> next[..j] == upto[..j];
      }
    }
  }

  lemma TakeStep(b: Bucket, admitted: seq<Time>, now: Time)
    requires b.Valid() && IsLevel(b, admitted)
    ensures var at := Max(b.last, now);
            && (Admits(b, now) <==> MayAdmit(b.perMinute, admitted, at))
            && Take(b, now).Valid() && Take(b, now).perMinute == b.perMinute && Take(b, now).last == at
            && IsLevel(Take(b, now), if Admits(b, now) then admitted + [at] else admitted)
  {
    RefillValid(b, now);
    RefillLevel(b, admitted, now);
    LevelIsWindows(Refill(b, now), admitted);
    if Admits(b, now) {
      TakeLevel(Refill(b, now), admitted);
    }
  }

  /**
   * For every sequence of calls, out-of-order instants included, the bucket admits exactly the
   * calls whose windows would hold at most perMinute * (1 + minutes) admissions.
   */
  lemma {:induction false} BucketCountsWindows(perMinute: int, start: Time, calls: seq<Time>)
    requires perMinute >= 1
    ensures Run(perMinute, start, calls).1 == WindowRun(perMinute, start, calls)
    ensures var b := Run(perMinute, start, calls).0;
            && b.Valid() && b.perMinute == perMinute && b.last == Effective(start, calls)
            && IsLevel(b, Run(perMinute, start, calls).1)
  {
    if |calls| > 0 {
      var pre := calls[..|calls| - 1];
      BucketCountsWindows(perMinute, start, pre);
      var (b, admitted) := Run(perMinute, start, pre);
      TakeStep(b, admitted, calls[|calls| - 1]);
    }
  }

  /** Every stretch of admissions respects the rate. */
  lemma {:induction false} RateIsKept(perMinute: int, start: Time, calls: seq<Time>, i: nat, j: nat)
    requires perMinute >= 1
    requires i <= j < |WindowRun(perMinute, start, calls)|
    ensures var admitted := WindowRun(perMinute, start, calls);
            (j - i + 1) as real <= perMinute as real + Gain(perMinute, admitted[j] - admitted[i])
  {
    var pre := calls[..|calls| - 1];
    var admitted := WindowRun(perMinute, start, pre);
    if j < |admitted| {
      RateIsKept(perMinute, start, pre, i, j);
    } else if i < j {
      assert WindowFits(perMinute, admitted, i, Effective(start, calls));
    } else {
      GainGrows(perMinute, 0);
    }
  }

  /** perMinute * (1 + minutes). */
  function Allowance(perMinute: int, elapsed: Duration): real {
    perMinute as real * (1.0 + elapsed as real / MINUTE as real)
  }

  lemma AllowanceIsGain(perMinute: int, elapsed: Duration)
    ensures Allowance(perMinute, elapsed) == perMinute as real + Gain(perMinute, elapsed)
  {
    Distribute(1.0, elapsed as real / MINUTE as real, perMinute as real);
  }

  /** A whole run admits at most perMinute * (1 + minutes), minutes from its first admission to its last. */
  lemma {:induction false} RunIsBounded(perMinute: int, start: Time, calls: seq<Time>)
    requires perMinute >= 1
    ensures var admitted := Run(perMinute, start, calls).1;
            |admitted| > 0 ==> |admitted| as real <= Allowance(perMinute, admitted[|admitted| - 1] - admitted[0])
  {
    BucketCountsWindows(perMinute, start, calls);
    var admitted := Run(perMinute, start, calls).1;
    if |admitted| > 0 {
      RateIsKept(perMinute, start, calls, 0, |admitted| - 1);
      AllowanceIsGain(perMinute, admitted[|admitted| - 1] - admitted[0]);
    }
  }

  // ---- the delay of a refused call ----

  /** The exact time to the next whole token. */
  function Exact(b: Bucket): real
    requires b.perMinute != 0
  {
    (1.0 - b.tokens) * (MINUTE as real / b.perMinute as real)
  }

  lemma IntegerShare(perMinute: int)
    requires perMinute >= 1
    ensures var exact := MINUTE as real / perMinute as real; var whole := (MINUTE / perMinute) as real;
            0.0 <= whole <= exact < whole + 1.0
  {
    var q, r, p := MINUTE / perMinute, MINUTE % perMinute, perMinute as real;
    assert MINUTE == q * perMinute + r;
    assert MINUTE as real == q as real * p + r as real;
    assert MINUTE as real / p == q as real + r as real / p;
    assert 0.0 <= r as real / p < 1.0;
  }

  lemma ScaledGap(m: real, whole: real, exact: real)
    requires 0.0 < m <= 1.0 && 0.0 <= whole <= exact < whole + 1.0
    ensures 0.0 <= m * whole <= m * exact < m * whole + 1.0
  {
    var gap := exact - whole;
    assert m * exact == m * whole + m * gap;
    assert 0.0 <= m * gap;
    assert m * gap <= gap;
  }

  /** A refused caller is told to wait at most the exact time, and less than 2 ns short of it. */
  lemma DelayIsTight(b: Bucket)
    requires b.Valid() && b.tokens < 1.0
    ensures 0 <= Delay(b)
    ensures Delay(b) as real <= Exact(b) < Delay(b) as real + 2.0
  {
    IntegerShare(b.perMinute);
    ScaledGap(1.0 - b.tokens, (MINUTE / b.perMinute) as real, MINUTE as real / b.perMinute as real);
  }

  lemma GainReaches(b: Bucket, d: Duration)
    requires b.Valid() && d >= 0
    ensures Gain(b.perMinute, d) >= 1.0 - b.tokens <==> d as real >= Exact(b)
  {
    var share, p, m := MINUTE as real / b.perMinute as real, b.perMinute as real, 1.0 - b.tokens;
    Reciprocal(d as real, MINUTE as real, p, m);
  }

  lemma Reciprocal(d: real, minute: real, p: real, m: real)
    requires minute > 0.0 && p > 0.0
    ensures d / minute * p >= m <==> d >= m * (minute / p)
  {
    var x, share := d / minute * p, minute / p;
    assert share > 0.0;
    assert x * share == d;
    if x >= m {
      assert (x - m) * share >= 0.0;
    } else {
      assert (m - x) * share > 0.0;
    }
  }

  /** With no other caller: any earlier call is refused too, and two nanoseconds later one is admitted. */
  lemma DelaySuffices(b: Bucket, d: Duration)
    requires b.Valid() && b.tokens < 1.0 && d > 0
    ensures d < Delay(b) ==> !Admits(b, b.last + d)
    ensures d >= Delay(b) + 2 ==> Admits(b, b.last + d)
  {
    DelayIsTight(b);
    GainReaches(b, d);
  }

  // ---- in place ----

  /** The bucket as the limiter keeps it; `admitted` are the instants it has let a caller through. */
  class SharedBucket {
    const perMinute: int
    const capacity: real
    var tokens: real
    var last: Time
    ghost var admitted: seq<Time>

    ghost function Value(): Bucket
      reads this
    {
      Bucket(perMinute, tokens, last)
    }

    ghost predicate Valid()
      reads this
    {
      capacity == perMinute as real && Value().Valid() && IsLevel(Value(), admitted)
    }

    constructor (perMinute: int, now: Time)
      requires perMinute >= 1
      ensures Valid() && Value() == NewBucket(perMinute, now) && admitted == []
    {
      this.perMinute, capacity := perMinute, perMinute as real;
      tokens, last := perMinute as real, now;
      admitted := [];
    }

    method RefillTo(now: Time)
      requires Valid()
      modifies this
      ensures Valid() && Value() == Refill(old(Value()), now) && admitted == old(admitted)
    {
      RefillValid(Value(), now);
      RefillLevel(Value(), admitted, now);
      if now <= last {
        return;
      }
      var elapsed := now - last;
      last := now;
      tokens := tokens + Gain(perMinute, elapsed);
      if tokens > capacity {
        tokens := capacity;
      }
    }

    /** Admits exactly when every window has room; otherwise tells how long to wait. */
    method TakeAt(now: Time) returns (delay: Duration, ok: bool)
      requires Valid()
      modifies this
      ensures Valid() && Value() == Take(old(Value()), now) && last == Max(old(last), now)
      ensures ok <==> MayAdmit(perMinute, old(admitted), last)
      ensures admitted == if ok then old(admitted) + [last] else old(admitted)
      ensures ok ==> delay == 0
      ensures !ok ==> tokens < 1.0 && delay as real <= Exact(Value()) < delay as real + 2.0
    {
      TakeStep(Value(), admitted, now);
      RefillValid(Value(), now);
      RefillTo(now);
      if tokens >= 1.0 {
        tokens := tokens - 1.0;
        admitted := admitted + [last];
        return 0, true;
      }
      ok := false;
      delay := UntilNext();
    }

    /** Time until the next whole token. */
    method UntilNext() returns (delay: Duration)
      requires Value().Valid() && tokens < 1.0
      ensures delay as real <= Exact(Value()) < delay as real + 2.0
    {
      DelayIsTight(Value());
      delay := Delay(Bucket(perMinute, tokens, last));
    }

    /**
     * Waits through successive clock readings until a token is there; running out of readings
     * stands for cancellation. Exactly one token is consumed on success, none on cancellation.
     */
    method Wait(readings: seq<Time>) returns (ok: bool)
      requires Valid()
      modifies this
      ensures Valid()
      ensures ok <==> !NoneFits(perMinute, old(admitted), old(last), readings)
      ensures !ok ==> admitted == old(admitted)
      ensures ok ==> admitted == old(admitted) + [last] && MayAdmit(perMinute, old(admitted), last)
      ensures ok ==> last in readings || last == old(last)
    {
      for i := 0 to |readings|
        invariant Valid() && admitted == old(admitted)
        invariant last in readings || last == old(last)
        invariant last == Effective(old(last), readings[..i])
        invariant NoneFits(perMinute, old(admitted), old(last), readings[..i])
      {
        var delay;
        NextReading(perMinute, admitted, old(last), readings, i);
        delay, ok := TakeAt(readings[i]);
        if ok {
          return true;
        }
      }
      assert readings[..|readings|] == readings;
      return false;
    }
  }
}
