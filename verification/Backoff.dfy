/** The retry schedule of the delivery queue. */
module Backoff {
  import opened Common

  const DEFAULT_DELAYS: seq<Duration> :=
    [MINUTE, 5 * MINUTE, 15 * MINUTE, HOUR, 4 * HOUR, 12 * HOUR]

  datatype Schedule = Schedule(delays: seq<Duration>, jitter: real, maxAttempts: int, maxAge: Duration)

  /** The delays actually in force: a missing list means the defaults. */
  function Delays(b: Schedule): seq<Duration> {
    if |b.delays| == 0 then DEFAULT_DELAYS else b.delays
  }

  ghost predicate PositiveDelays(b: Schedule) {
    forall i :: 0 <= i < |Delays(b)| ==> Delays(b)[i] > 0
  }

  /** The delay configured for a number of attempts; the last entry repeats. */
  function Scheduled(b: Schedule, attempts: int): Duration {
    var ds := Delays(b);
    var first := if attempts - 1 < 0 then 0 else attempts - 1;
    ds[if first >= |ds| then |ds| - 1 else first]
  }

  function ClampJitter(j: real): real {
    if j < 0.0 then 0.0 else if j > 1.0 then 1.0 else j
  }

  /** A fraction of an amount. */
  function Part(amount: real, fraction: real): real {
    amount * fraction
  }

  /** How much of a delay is taken away: the drawn part of its jittered share. */
  function Cut(delay: Duration, share: real, draw: real): Duration {
    Truncate(Part(Part(delay as real, share), draw))
  }

  /** `draw` is the random value, in [0, 1). */
  function DelayFor(b: Schedule, attempts: int, draw: real): Duration {
    var delay := Scheduled(b, attempts);
    if b.jitter <= 0.0 then delay else delay - Cut(delay, ClampJitter(b.jitter), draw)
  }

  /** None means give up. `receivedAt` is None for a message without an acceptance time. */
  function NextAttempt(b: Schedule, now: Time, attempts: int, receivedAt: Option<Time>, draw: real)
    : Option<Time>
  {
    if b.maxAttempts > 0 && attempts >= b.maxAttempts then None
    else
      var next := now + DelayFor(b, attempts, draw);
      if b.maxAge > 0 && receivedAt.Some? && next > receivedAt.value + b.maxAge then None
      else Some(next)
  }

  function NextAttemptAfter(b: Schedule, now: Time, attempts: int, receivedAt: Option<Time>,
                            requested: Duration, draw: real): Option<Time>
  {
    match NextAttempt(b, now, attempts, receivedAt, draw)
    case None => None
    case Some(next) => Some(if requested > 0 && now + requested > next then now + requested else next)
  }

  lemma CutBounds(delay: Duration, share: real, draw: real)
    requires delay > 0 && 0.0 <= share <= 1.0 && 0.0 <= draw < 1.0
    ensures 0 <= Cut(delay, share, draw) < delay
    ensures Cut(delay, share, draw) as real <= Part(delay as real, share)
  {
    PartBelow(delay as real, share);
    DrawnBelow(delay, Part(delay as real, share), draw);
  }

  lemma DrawnBelow(delay: Duration, most: real, draw: real)
    requires delay > 0 && 0.0 <= most <= delay as real && 0.0 <= draw < 1.0
    ensures 0 <= Truncate(Part(most, draw)) < delay && Truncate(Part(most, draw)) as real <= most
  {
    PartBelow(most, draw);
    FloorBelow(Part(most, draw), delay, most);
  }

  lemma FloorBelow(x: real, n: int, most: real)
    requires 0.0 <= x <= most <= n as real && 0 < n && (most > 0.0 ==> x < most)
    ensures 0 <= Truncate(x) < n && Truncate(x) as real <= most
  {
    assert x.Floor as real <= x;
  }

  /** Jitter only shortens a delay, never to nothing and never by more than its share. */
  lemma {:induction false} DelayBounds(b: Schedule, attempts: int, draw: real)
    requires PositiveDelays(b) && 0.0 <= draw < 1.0
    ensures 1 <= DelayFor(b, attempts, draw) <= Scheduled(b, attempts)
    ensures (Scheduled(b, attempts) - DelayFor(b, attempts, draw)) as real
            <= Part(Scheduled(b, attempts) as real, ClampJitter(b.jitter))
  {
    var delay := Scheduled(b, attempts);
    assert delay > 0;
    CutBounds(delay, ClampJitter(b.jitter), draw);
  }

  lemma PartBelow(x: real, y: real)
    requires x >= 0.0 && 0.0 <= y <= 1.0
    ensures 0.0 <= Part(x, y) <= x
    ensures x > 0.0 && y < 1.0 ==> Part(x, y) < x
  {
    assert x * (1.0 - y) >= 0.0;
    if x > 0.0 && y < 1.0 {
      assert x * (1.0 - y) > 0.0;
    }
  }

  /**
   * A retry lands strictly after now, at most the scheduled delay later, never past the
   * message's deadline; and giving up happens exactly when attempts or time have run out.
   */
  lemma NextAttemptBounds(b: Schedule, now: Time, attempts: int, receivedAt: Option<Time>, draw: real)
    requires PositiveDelays(b) && 0.0 <= draw < 1.0
    ensures var next := NextAttempt(b, now, attempts, receivedAt, draw);
            && (next.Some? ==> now < next.value <= now + Scheduled(b, attempts))
            && (next.Some? && b.maxAge > 0 && receivedAt.Some? ==> next.value <= receivedAt.value + b.maxAge)
            && (next.Some? && b.maxAttempts > 0 ==> attempts < b.maxAttempts)
            && (next.None? ==> || (b.maxAttempts > 0 && attempts >= b.maxAttempts)
                               || (b.maxAge > 0 && receivedAt.Some?
                                   && now + Scheduled(b, attempts) > receivedAt.value + b.maxAge))
  {
    DelayBounds(b, attempts, draw);
  }

  /** `n` is the amount without its fraction. */
  predicate WholeOf(n: int, amount: real) {
    if amount >= 0.0 then n as real <= amount < n as real + 1.0 else n as real - 1.0 < amount <= n as real
  }

  /**
   * The schedule, written out for every configuration: the first delay up to one attempt, one further down the list
   * for each attempt after it, and the last for all beyond; without a list one minute, five, a quarter of an hour,
   * one hour, four and twelve. Of that the whole nanoseconds of delay times jitter times draw are taken off, a
   * jitter below zero or above one counting as that, and what is left is added to now, unless attempts or time
   * have run out.
   */
  lemma NextAttemptExactly(b: Schedule, now: Time, attempts: int, receivedAt: Option<Time>, draw: real)
    returns (delay: Duration, share: real, cut: Duration)
    ensures var listed := if |b.delays| > 0 then b.delays
                          else [60_000_000_000, 300_000_000_000, 900_000_000_000,
                                3_600_000_000_000, 14_400_000_000_000, 43_200_000_000_000];
            && (attempts <= 1 ==> delay == listed[0])
            && (1 <= attempts <= |listed| ==> delay == listed[attempts - 1])
            && (attempts > |listed| ==> delay == listed[|listed| - 1])
    ensures share == (if b.jitter <= 0.0 then 0.0 else if b.jitter >= 1.0 then 1.0 else b.jitter)
    ensures WholeOf(cut, delay as real * share * draw)
    ensures NextAttempt(b, now, attempts, receivedAt, draw)
         == if b.maxAttempts > 0 && attempts >= b.maxAttempts then None
            else if b.maxAge > 0 && receivedAt.Some? && now + delay - cut > receivedAt.value + b.maxAge then None
            else Some(now + delay - cut)
  {
    delay, share := Scheduled(b, attempts), ClampJitter(b.jitter);
    if b.jitter > 0.0 {
      cut := Cut(delay, share, draw);
      CutIsWhole(delay, share, draw);
    } else {
      cut := 0;
      NoShare(delay as real, draw);
    }
  }

  lemma CutIsWhole(delay: Duration, share: real, draw: real)
    ensures WholeOf(Cut(delay, share, draw), delay as real * share * draw)
  {
    TruncateIsWhole(Part(Part(delay as real, share), draw));
  }

  lemma TruncateIsWhole(x: real)
    ensures WholeOf(Truncate(x), x)
  {
    assert x.Floor as real <= x < x.Floor as real + 1.0;
    assert (-x).Floor as real <= -x < (-x).Floor as real + 1.0;
  }

  lemma NoShare(x: real, y: real)
    ensures x * 0.0 * y == 0.0
  {
    assert x * 0.0 == 0.0;
  }

  /** An upstream's requested delay is honoured, and nothing earlier is ever chosen. */
  lemma NextAttemptAfterIsLatest(b: Schedule, now: Time, attempts: int, receivedAt: Option<Time>,
                                 requested: Duration, draw: real)
    requires PositiveDelays(b) && 0.0 <= draw < 1.0
    ensures var next := NextAttempt(b, now, attempts, receivedAt, draw);
            var after := NextAttemptAfter(b, now, attempts, receivedAt, requested, draw);
            && (after.Some? <==> next.Some?)
            && (after.Some? ==> after.value > now && after.value >= next.value && after.value >= now + requested)
            && (after.Some? ==> after.value == Max(next.value, now + requested))
  {
    NextAttemptBounds(b, now, attempts, receivedAt, draw);
  }

  /**
   * The deadline that binds NextAttempt does not bind NextAttemptAfter: a retry is scheduled
   * past receivedAt + maxAge exactly when the upstream asked for a delay reaching past it.
   */
  lemma RequestedDelayPassesDeadline(b: Schedule, now: Time, attempts: int, received: Time,
                                     requested: Duration, draw: real)
    requires PositiveDelays(b) && 0.0 <= draw < 1.0 && b.maxAge > 0
    requires NextAttempt(b, now, attempts, Some(received), draw).Some?
    ensures NextAttemptAfter(b, now, attempts, Some(received), requested, draw).value > received + b.maxAge
            <==> now + requested > received + b.maxAge
  {
    NextAttemptAfterIsLatest(b, now, attempts, Some(received), requested, draw);
    NextAttemptBounds(b, now, attempts, Some(received), draw);
  }

  /** A message that may be ten old and whose upstream asks for twenty: the schedule keeps within, the retry does not. */
  lemma DeadlinePassed()
    ensures var b := Schedule([1], 0.0, 0, 10);
            && NextAttempt(b, 0, 1, Some(0), 0.0) == Some(1)
            && NextAttemptAfter(b, 0, 1, Some(0), 20, 0.0) == Some(20) && 20 > 0 + b.maxAge
  {
  }
}
