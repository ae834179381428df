/**
 * Exchange's limits are per mailbox, and a mailbox has a limiter for every budget it has had: when its
 * submissions at once and its rate stay within them over all its generations, and runs in which they do not.
 */
module MailboxLimits {
  import opened Common
  import opened Limiter
  import opened LimiterLaws
  import TokenBucket

  /** The callers let through for a mailbox and not yet released, on any of its generations. */
  function Sending(s: State, m: MailboxId): set<CallerId> {
    set k | k in s.callers && s.callers[k].phase == Holding
            && s.callers[k].generation < |s.generations| && s.generations[s.callers[k].generation].mailbox == m
  }

  /** The event lets a caller of the mailbox through. */
  predicate Admits(s: State, e: Event, m: MailboxId) {
    e.TakeToken? && In(s, e.k, AwaitingToken)
    && var g := s.generations[s.callers[e.k].generation]; g.mailbox == m && TokenBucket.Admits(g.bucket, e.now)
  }

  /** When callers were let through for a mailbox, on any of its generations, in order. */
  function AdmittedFor(d: Budget, es: seq<Event>, m: MailboxId): seq<Time> {
    if |es| == 0 then []
    else
      var s, e := After(d, es[..|es| - 1]), es[|es| - 1];
      AdmittedFor(d, es[..|es| - 1], m)
      + if Admits(s, e, m) then [Max(s.generations[s.callers[e.k].generation].bucket.last, e.now)] else []
  }

  // ---- what holds in every run ----

  /** How many of a mailbox's generations, among the first `n`, have a slot taken. */
  function Busy(gens: seq<Generation>, m: MailboxId): nat {
    if |gens| == 0 then 0
    else Busy(gens[..|gens| - 1], m) + if gens[|gens| - 1].mailbox == m && gens[|gens| - 1].occupied > 0 then 1 else 0
  }

  /** Those of a mailbox's callers let through on its first `n` generations. */
  function SendingUpto(s: State, m: MailboxId, n: nat): set<CallerId> {
    set k | k in Sending(s, m) && s.callers[k].generation < n
  }

  /** One more generation adds at most its holders, and none if it is another mailbox's. */
  lemma SendingNext(s: State, m: MailboxId, g: nat)
    requires Sound(s) && g < |s.generations|
    ensures |SendingUpto(s, m, g + 1)| <= |SendingUpto(s, m, g)|
            + if s.generations[g].mailbox == m then |Holders(s.callers, g)| else 0
  {
    var here := SendingUpto(s, m, g + 1) - SendingUpto(s, m, g);
    assert here <= Holders(s.callers, g);
    SubsetSize(here, Holders(s.callers, g));
    SubsetSize(SendingUpto(s, m, g + 1), SendingUpto(s, m, g) + here);
    if s.generations[g].mailbox != m {
      assert here == {};
    }
  }

  lemma {:induction false} SendingBusy(s: State, m: MailboxId, n: nat)
    requires Sound(s) && n <= |s.generations|
    ensures |SendingUpto(s, m, n)| <= EXCHANGE_CONCURRENT_CONNECTIONS * Busy(s.generations[..n], m)
  {
    if n == 0 {
      assert SendingUpto(s, m, 0) == {};
    } else {
      SendingBusy(s, m, n - 1);
      assert s.generations[..n][..n - 1] == s.generations[..n - 1];
      assert SoundGeneration(s, n - 1);
      SendingNext(s, m, n - 1);
    }
  }

  /** In every run a mailbox has at most three submissions at once for each of its generations that has any. */
  lemma MailboxBound(d: Budget, es: seq<Event>, m: MailboxId)
    ensures |Sending(After(d, es), m)| <= EXCHANGE_CONCURRENT_CONNECTIONS * Busy(After(d, es).generations, m)
  {
    var s := After(d, es);
    ReachableSound(d, es);
    SendingBusy(s, m, |s.generations|);
    assert s.generations[..|s.generations|] == s.generations;
    assert SendingUpto(s, m, |s.generations|) == Sending(s, m);
  }

  // ---- one effective budget ----

  /** The run asks for the mailbox with these budgets only, and never drops it. */
  ghost predicate Uses(es: seq<Event>, m: MailboxId, budgets: set<Budget>) {
    forall i :: 0 <= i < |es| ==>
      && (es[i].Arrive? && es[i].m == m ==> es[i].budget in budgets)
      && !(es[i].Forget? && es[i].m == m)
  }

  /** The budgets all come to the same one. */
  ghost predicate Steady(d: Budget, budgets: set<Budget>) {
    forall x, y :: x in budgets && y in budgets ==> Effective(d, x) == Effective(d, y)
  }

  /** The mailbox has had one limiter at most, its current one, of this budget. */
  ghost predicate OnlyOne(s: State, m: MailboxId, b: Budget) {
    forall g :: 0 <= g < |s.generations| && s.generations[g].mailbox == m ==>
      m in s.current && s.current[m] == g && s.generations[g].budget == b
  }

  lemma OnlyOneStep(d: Budget, s: State, e: Event, m: MailboxId, b: Budget)
    requires Sound(s) && OnlyOne(s, m, b)
    requires e.Arrive? && e.m == m ==> Effective(d, e.budget) == b
    requires !(e.Forget? && e.m == m)
    ensures OnlyOne(Step(d, s, e), m, b)
  {
    var t := Step(d, s, e);
    forall g | 0 <= g < |t.generations| && t.generations[g].mailbox == m
      ensures m in t.current && t.current[m] == g && t.generations[g].budget == b
    {
      if g < |s.generations| {
        GenerationStep(d, s, e, g);
      } else {
        NewGenerationStep(d, s, e, g);
      }
    }
  }

  lemma {:induction false} StaysOnlyOne(d: Budget, es: seq<Event>, m: MailboxId, budgets: set<Budget>, b: Budget)
    requires Uses(es, m, budgets) && forall x :: x in budgets ==> Effective(d, x) == b
    ensures OnlyOne(After(d, es), m, b)
  {
    if |es| > 0 {
      var pre := es[..|es| - 1];
      assert forall i :: 0 <= i < |pre| ==> pre[i] == es[i];
      StaysOnlyOne(d, pre, m, budgets, b);
      ReachableSound(d, pre);
      OnlyOneStep(d, After(d, pre), es[|es| - 1], m, b);
    }
  }

  /** The mailbox's only generation, if it has one. */
  ghost predicate OnlyAt(s: State, m: MailboxId, n: nat) {
    forall g :: 0 <= g < |s.generations| && s.generations[g].mailbox == m ==> g == n
  }

  lemma SendingOnOne(s: State, m: MailboxId, n: nat)
    requires Sound(s) && OnlyAt(s, m, n)
    ensures |Sending(s, m)| <= EXCHANGE_CONCURRENT_CONNECTIONS
  {
    if n < |s.generations| && s.generations[n].mailbox == m {
      assert SoundGeneration(s, n);
      assert Sending(s, m) <= Holders(s.callers, n);
      SubsetSize(Sending(s, m), Holders(s.callers, n));
    } else {
      assert Sending(s, m) == {};
    }
  }

  lemma OnlyAtBefore(d: Budget, s: State, e: Event, m: MailboxId, n: nat)
    requires OnlyAt(Step(d, s, e), m, n)
    ensures OnlyAt(s, m, n)
  {
    forall g | 0 <= g < |s.generations| && s.generations[g].mailbox == m
      ensures g == n
    {
      GenerationStep(d, s, e, g);
    }
  }

  /** With one generation, what is let through for the mailbox is what that generation lets through. */
  lemma {:induction false} AdmittedOnOne(d: Budget, es: seq<Event>, m: MailboxId, n: nat)
    requires OnlyAt(After(d, es), m, n)
    ensures var s := After(d, es);
            AdmittedFor(d, es, m) == if n < |s.generations| && s.generations[n].mailbox == m then Admitted(d, es, n) else []
  {
    if |es| > 0 {
      var pre, e := es[..|es| - 1], es[|es| - 1];
      var s := After(d, pre);
      OnlyAtBefore(d, s, e, m, n);
      AdmittedOnOne(d, pre, m, n);
      AdmittedStep(d, es, n);
      if n < |s.generations| {
        GenerationStep(d, s, e, n);
      } else {
        NotYetAdmitted(d, pre, n);
      }
    }
  }

  /** A lower rate is within a higher one. */
  lemma RateWithin(p: int, q: int, admitted: seq<Time>)
    requires 1 <= p <= q && WithinRate(p, admitted)
    ensures WithinRate(q, admitted)
  {
    forall i, j | 0 <= i <= j < |admitted|
      ensures (j - i + 1) as real <= TokenBucket.Allowance(q, admitted[j] - admitted[i])
    {
      AllowanceGrows(p, q, admitted[j] - admitted[i]);
    }
  }

  lemma AllowanceGrows(p: int, q: int, elapsed: Duration)
    requires 1 <= p <= q && TokenBucket.Allowance(p, elapsed) >= 1.0
    ensures TokenBucket.Allowance(p, elapsed) <= TokenBucket.Allowance(q, elapsed)
  {
    var x := 1.0 + elapsed as real / MINUTE as real;
    Scale(p as real, q as real, x);
  }

  lemma Scale(p: real, q: real, x: real)
    requires 1.0 <= p <= q && p * x >= 1.0
    ensures p * x <= q * x
  {
    assert x > 0.0 by {
      assert x <= 0.0 ==> p * x <= 0.0;
    }
    assert (q - p) * x >= 0.0;
  }

  /** While a mailbox is asked for with one effective budget it keeps both of Exchange's limits. */
  lemma {:induction false} SteadyBudget(d: Budget, es: seq<Event>, m: MailboxId, budgets: set<Budget>)
    requires Uses(es, m, budgets) && Steady(d, budgets)
    ensures |Sending(After(d, es), m)| <= EXCHANGE_CONCURRENT_CONNECTIONS
    ensures WithinRate(EXCHANGE_MESSAGES_PER_MINUTE, AdmittedFor(d, es, m))
  {
    var s := After(d, es);
    var b := if budgets == {} then d else var x :| x in budgets; Effective(d, x);
    StaysOnlyOne(d, es, m, budgets, b);
    ReachableSound(d, es);
    var n := if m in s.current then s.current[m] else 0;
    SendingOnOne(s, m, n);
    AdmittedOnOne(d, es, m, n);
    if n < |s.generations| && s.generations[n].mailbox == m {
      GenerationRate(d, es, n);
      assert SoundGeneration(s, n);
      RateWithin(s.generations[n].budget.perMinute, EXCHANGE_MESSAGES_PER_MINUTE, Admitted(d, es, n));
    }
  }

  // ---- callers one after the other ----

  lemma Snoc(d: Budget, es: seq<Event>, e: Event, m: MailboxId)
    ensures After(d, es + [e]) == Step(d, After(d, es), e)
    ensures !Admits(After(d, es), e, m) ==> AdmittedFor(d, es + [e], m) == AdmittedFor(d, es, m)
    ensures Admits(After(d, es), e, m) ==>
              AdmittedFor(d, es + [e], m)
              == AdmittedFor(d, es, m) + [Max(After(d, es).generations[After(d, es).callers[e.k].generation].bucket.last, e.now)]
  {
    assert (es + [e])[..|es|] == es;
  }

  /** Callers so far are below `n`; the mailbox's current limiter has budget `b`, `o` slots taken and that many tokens. */
  ghost predicate Stands(s: State, m: MailboxId, b: Budget, o: int, tokens: real, n: nat) {
    && Keeps(s, m, b) && (forall k :: k in s.callers ==> k < n)
    && s.generations[s.current[m]] == Generation(m, b, o, TokenBucket.Bucket(b.perMinute, tokens, 0))
  }

  /** A caller that arrives, takes a slot and looks at the bucket, all at instant zero. */
  function Join(n: nat, m: MailboxId, x: Budget): seq<Event> {
    [Arrive(n, m, x, 0)] + [TakeSlot(n)] + [TakeToken(n, 0)]
  }

  /** The state with caller `n` let through on the mailbox's current limiter. */
  function LetThrough(s: State, m: MailboxId, n: nat): State
    requires m in s.current && s.current[m] < |s.generations|
  {
    var g := s.current[m];
    var gen := s.generations[g];
    State(s.generations[g := gen.(occupied := gen.occupied + 1, bucket := gen.bucket.(tokens := gen.bucket.tokens - 1.0))],
          s.current, s.callers[n := Caller(g, Holding)])
  }

  /** With a slot and a token left on the limiter it finds, a caller is let through. */
  lemma {:induction false} JoinSteps(d: Budget, s: State, m: MailboxId, x: Budget, b: Budget, o: int, tokens: real, n: nat)
    requires Stands(s, m, b, o, tokens, n) && Effective(d, x) == b && o < b.maxConcurrent && tokens >= 1.0
    ensures var u := Step(d, Step(d, s, Arrive(n, m, x, 0)), TakeSlot(n));
            && Admits(u, TakeToken(n, 0), m) && u.generations[u.callers[n].generation].bucket.last == 0
            && Step(d, u, TakeToken(n, 0)) == LetThrough(s, m, n)
  {
    var g := s.current[m];
    var gen := s.generations[g];
    var t := Step(d, s, Arrive(n, m, x, 0));
    assert t == s.(callers := s.callers[n := Caller(g, AwaitingSlot)]);
    var u := Step(d, t, TakeSlot(n));
    assert u == State(s.generations[g := gen.(occupied := o + 1)], s.current, s.callers[n := Caller(g, AwaitingToken)]);
  }

  /** The state once the mailbox has a limiter of this budget, found or started at instant zero. */
  function Started(s: State, m: MailboxId, b: Budget): State {
    Found(s, m, b, 0)
  }

  lemma StartedStands(s: State, m: MailboxId, b: Budget, n: nat)
    requires !Keeps(s, m, b) && forall k :: k in s.callers ==> k < n
    ensures Stands(Started(s, m, b), m, b, 0, b.perMinute as real, n)
  {
  }

  /** Arriving finds the limiter the mailbox would have been given before. */
  lemma ArriveStarted(d: Budget, s: State, m: MailboxId, x: Budget, n: nat)
    requires n !in s.callers
    ensures Step(d, s, Arrive(n, m, x, 0)) == Step(d, Started(s, m, Effective(d, x)), Arrive(n, m, x, 0))
  {
  }

  /** Three events of which the last lets a caller through at instant zero. */
  lemma {:induction false} ThreeSteps(d: Budget, es: seq<Event>, e1: Event, e2: Event, e3: Event, m: MailboxId, u: State)
    requires u == Step(d, Step(d, After(d, es), e1), e2) && !e1.TakeToken? && !e2.TakeToken?
    requires Admits(u, e3, m) && e3.now == 0 == u.generations[u.callers[e3.k].generation].bucket.last
    ensures After(d, es + ([e1] + [e2] + [e3])) == Step(d, u, e3)
    ensures AdmittedFor(d, es + ([e1] + [e2] + [e3]), m) == AdmittedFor(d, es, m) + [0]
  {
    Snoc(d, es, e1, m);
    Snoc(d, es + [e1], e2, m);
    Snoc(d, es + [e1] + [e2], e3, m);
    assert es + ([e1] + [e2] + [e3]) == es + [e1] + [e2] + [e3];
  }

  lemma {:induction false} JoinRun(d: Budget, es: seq<Event>, m: MailboxId, x: Budget, s: State, o: int, tokens: real, n: nat)
    requires s == Started(After(d, es), m, Effective(d, x)) && Stands(s, m, Effective(d, x), o, tokens, n)
    requires o < Effective(d, x).maxConcurrent && tokens >= 1.0
    ensures After(d, es + Join(n, m, x)) == LetThrough(s, m, n)
    ensures AdmittedFor(d, es + Join(n, m, x), m) == AdmittedFor(d, es, m) + [0]
  {
    var e1, e2, e3 := Arrive(n, m, x, 0), TakeSlot(n), TakeToken(n, 0);
    ArriveStarted(d, After(d, es), m, x, n);
    JoinSteps(d, s, m, x, Effective(d, x), o, tokens, n);
    ThreeSteps(d, es, e1, e2, e3, m, Step(d, Step(d, After(d, es), e1), e2));
  }

  lemma {:induction false} LetThroughStands(s: State, m: MailboxId, b: Budget, o: int, tokens: real, n: nat)
    requires Stands(s, m, b, o, tokens, n)
    ensures Stands(LetThrough(s, m, n), m, b, o + 1, tokens - 1.0, n + 1)
  {
  }

  lemma {:induction false} LetThroughSending(s: State, m: MailboxId, b: Budget, o: int, tokens: real, n: nat)
    requires Stands(s, m, b, o, tokens, n)
    ensures Sending(LetThrough(s, m, n), m) == Sending(s, m) + {n} && n !in Sending(s, m)
  {
  }

  lemma StartedSending(s: State, m: MailboxId, b: Budget)
    requires Sound(s)
    ensures Sending(Started(s, m, b), m) == Sending(s, m)
  {
  }

  /** A caller whose budget is not the current one is let through on a limiter of its own. */
  lemma {:induction false} JoinNew(d: Budget, es: seq<Event>, m: MailboxId, x: Budget, n: nat)
    requires !Keeps(After(d, es), m, Effective(d, x)) && forall k :: k in After(d, es).callers ==> k < n
    ensures var b, t := Effective(d, x), After(d, es + Join(n, m, x));
            && Stands(t, m, b, 1, (b.perMinute - 1) as real, n + 1)
            && |Sending(t, m)| == |Sending(After(d, es), m)| + 1
            && n in t.callers && t.callers[n] == Caller(t.current[m], Holding)
    ensures AdmittedFor(d, es + Join(n, m, x), m) == AdmittedFor(d, es, m) + [0]
  {
    var b := Effective(d, x);
    var s := Started(After(d, es), m, b);
    EffectivePermitted(d, x);
    StartedStands(After(d, es), m, b, n);
    JoinRun(d, es, m, x, s, 0, b.perMinute as real, n);
    LetThroughStands(s, m, b, 0, b.perMinute as real, n);
    LetThroughSending(s, m, b, 0, b.perMinute as real, n);
    ReachableSound(d, es);
    StartedSending(After(d, es), m, b);
  }

  /** A caller whose budget is the current one is let through while there are slots and tokens. */
  lemma {:induction false} JoinSame(d: Budget, es: seq<Event>, m: MailboxId, x: Budget, o: int, tokens: real, n: nat)
    requires Stands(After(d, es), m, Effective(d, x), o, tokens, n) && o < Effective(d, x).maxConcurrent && tokens >= 1.0
    ensures var t := After(d, es + Join(n, m, x));
            && Stands(t, m, Effective(d, x), o + 1, tokens - 1.0, n + 1)
            && |Sending(t, m)| == |Sending(After(d, es), m)| + 1
            && n in t.callers && t.callers[n] == Caller(t.current[m], Holding)
    ensures AdmittedFor(d, es + Join(n, m, x), m) == AdmittedFor(d, es, m) + [0]
  {
    var b, s := Effective(d, x), After(d, es);
    JoinRun(d, es, m, x, s, o, tokens, n);
    LetThroughStands(s, m, b, o, tokens, n);
    LetThroughSending(s, m, b, o, tokens, n);
  }

  // ---- two effective budgets ----

  /** That many admissions at instant zero. */
  function Zeros(n: nat): seq<Time> {
    seq(n, _ => 0)
  }

  lemma ZerosNext(n: nat)
    ensures Zeros(n) + [0] == Zeros(n + 1)
  {
  }

  /** Callers with two budgets in turn, the last one with `x`. */
  function Turns(n: nat, m: MailboxId, x: Budget, y: Budget): seq<Event> {
    if n == 0 then [] else Turns(n - 1, m, y, x) + Join(n - 1, m, x)
  }

  /** All of `n` callers were let through at instant zero, and the next, with budget `y`, finds no limiter of its own. */
  ghost predicate Turned(d: Budget, es: seq<Event>, m: MailboxId, y: Budget, n: nat) {
    && |Sending(After(d, es), m)| == n && (forall k :: k in After(d, es).callers ==> k < n)
    && !Keeps(After(d, es), m, Effective(d, y)) && AdmittedFor(d, es, m) == Zeros(n)
  }

  lemma {:induction false} TurnNext(d: Budget, es: seq<Event>, m: MailboxId, x: Budget, y: Budget, n: nat)
    requires Turned(d, es, m, x, n) && Effective(d, x) != Effective(d, y)
    ensures Turned(d, es + Join(n, m, x), m, y, n + 1)
  {
    JoinNew(d, es, m, x, n);
    ZerosNext(n);
  }

  /** Each finds the other's limiter and starts its own: all are let through at once, however many. */
  lemma {:induction false} TurnsRun(d: Budget, n: nat, m: MailboxId, x: Budget, y: Budget)
    requires Effective(d, x) != Effective(d, y)
    ensures Turned(d, Turns(n, m, x, y), m, y, n)
  {
    if n > 0 {
      TurnsRun(d, n - 1, m, y, x);
      TurnNext(d, Turns(n - 1, m, y, x), m, x, y, n - 1);
    }
  }

  lemma {:induction false} TurnsUse(n: nat, m: MailboxId, x: Budget, y: Budget, budgets: set<Budget>)
    requires x in budgets && y in budgets
    ensures Uses(Turns(n, m, x, y), m, budgets)
  {
    if n > 0 {
      TurnsUse(n - 1, m, y, x, budgets);
    }
  }

  /** More admissions at one instant than the capacity are not within the rate. */
  lemma ZerosExceed(n: nat, perMinute: int)
    requires n > perMinute >= 0
    ensures !WithinRate(perMinute, Zeros(n))
  {
    var z := Zeros(n);
    assert z[0] == 0 && z[n - 1] == 0;
    TokenBucket.AllowanceIsGain(perMinute, z[n - 1] - z[0]);
    assert TokenBucket.Gain(perMinute, 0) == 0.0;
  }

  /**
   * In every run that asks for a mailbox with these budgets and does not drop it, its submissions at once stay
   * within Exchange's limit, if and only if the budgets all come to the same effective one.
   */
  lemma {:induction false} ConcurrencyKeptExactly(d: Budget, m: MailboxId, budgets: set<Budget>)
    ensures (forall es :: Uses(es, m, budgets) ==> |Sending(After(d, es), m)| <= EXCHANGE_CONCURRENT_CONNECTIONS)
       <==> Steady(d, budgets)
  {
    if Steady(d, budgets) {
      forall es: seq<Event> | Uses(es, m, budgets)
        ensures |Sending(After(d, es), m)| <= EXCHANGE_CONCURRENT_CONNECTIONS
      {
        SteadyBudget(d, es, m, budgets);
      }
    } else {
      var x, y :| x in budgets && y in budgets && Effective(d, x) != Effective(d, y);
      TurnsRun(d, 4, m, x, y);
      TurnsUse(4, m, x, y, budgets);
    }
  }

  /** The same of its rate: every stretch of admissions is within thirty times one plus the minutes it spans. */
  lemma {:induction false} RateKeptExactly(d: Budget, m: MailboxId, budgets: set<Budget>)
    ensures (forall es :: Uses(es, m, budgets) ==> WithinRate(EXCHANGE_MESSAGES_PER_MINUTE, AdmittedFor(d, es, m)))
       <==> Steady(d, budgets)
  {
    if Steady(d, budgets) {
      forall es: seq<Event> | Uses(es, m, budgets)
        ensures WithinRate(EXCHANGE_MESSAGES_PER_MINUTE, AdmittedFor(d, es, m))
      {
        SteadyBudget(d, es, m, budgets);
      }
    } else {
      var x, y :| x in budgets && y in budgets && Effective(d, x) != Effective(d, y);
      TurnsRun(d, 31, m, x, y);
      TurnsUse(31, m, x, y, budgets);
      ZerosExceed(31, EXCHANGE_MESSAGES_PER_MINUTE);
    }
  }

  // ---- a rate lowered from thirty to twenty-nine ----

  const THIRTY := Budget(30, 3)
  const TWENTY_NINE := Budget(29, 3)

  lemma Plain(b: Budget)
    requires b == THIRTY || b == TWENTY_NINE
    ensures Effective(THIRTY, b) == b
  {
  }

  /** On the mailbox's limiter of budget `b`, `o` slots are taken and `tokens` are left; `t` submissions in all. */
  ghost predicate Filling(es: seq<Event>, m: MailboxId, b: Budget, o: int, n: nat, t: nat) {
    Stands(After(THIRTY, es), m, b, o, (b.perMinute - o) as real, n) && |Sending(After(THIRTY, es), m)| == t
  }

  lemma {:induction false} FillFirst(es: seq<Event>, m: MailboxId, b: Budget, n: nat, t: nat)
    requires (b == THIRTY || b == TWENTY_NINE) && !Keeps(After(THIRTY, es), m, b)
    requires |Sending(After(THIRTY, es), m)| == t && forall k :: k in After(THIRTY, es).callers ==> k < n
    ensures Filling(es + Join(n, m, b), m, b, 1, n + 1, t + 1)
  {
    Plain(b);
    JoinNew(THIRTY, es, m, b, n);
  }

  lemma {:induction false} FillNext(es: seq<Event>, m: MailboxId, b: Budget, o: int, n: nat, t: nat)
    requires (b == THIRTY || b == TWENTY_NINE) && Filling(es, m, b, o, n, t) && o < 3
    ensures Filling(es + Join(n, m, b), m, b, o + 1, n + 1, t + 1)
  {
    Plain(b);
    JoinSame(THIRTY, es, m, b, o, (b.perMinute - o) as real, n);
  }

  /** Three callers at thirty a minute and three more after the rate is lowered: six submissions at once. */
  lemma {:induction false} SixAtOnce(m: MailboxId)
    ensures var x, y := THIRTY, TWENTY_NINE;
            var es := [] + Join(0, m, x) + Join(1, m, x) + Join(2, m, x) + Join(3, m, y) + Join(4, m, y) + Join(5, m, y);
            |Sending(After(THIRTY, es), m)| == 6
  {
    var none: seq<Event> := [];
    var e1 := none + Join(0, m, THIRTY);
    var e2 := e1 + Join(1, m, THIRTY);
    var e3 := e2 + Join(2, m, THIRTY);
    var e4 := e3 + Join(3, m, TWENTY_NINE);
    var e5 := e4 + Join(4, m, TWENTY_NINE);
    FillFirst(none, m, THIRTY, 0, 0);
    FillNext(e1, m, THIRTY, 1, 1, 1);
    FillNext(e2, m, THIRTY, 2, 2, 2);
    FillFirst(e3, m, TWENTY_NINE, 3, 3);
    FillNext(e4, m, TWENTY_NINE, 1, 4, 4);
    FillNext(e5, m, TWENTY_NINE, 2, 5, 5);
  }

  /** `z` admissions so far, all at instant zero; the limiter is free, with `tokens` left. */
  ghost predicate Passing(es: seq<Event>, m: MailboxId, b: Budget, tokens: int, n: nat, z: nat) {
    Stands(After(THIRTY, es), m, b, 0, tokens as real, n) && AdmittedFor(THIRTY, es, m) == Zeros(z)
  }

  /** A caller that is released before the next arrives. */
  function Pass(n: nat, m: MailboxId, b: Budget): seq<Event> {
    Join(n, m, b) + [Release(n)]
  }

  lemma {:induction false} Released(es: seq<Event>, m: MailboxId, b: Budget, tokens: int, n: nat, z: nat)
    requires var s := After(THIRTY, es);
             Stands(s, m, b, 1, tokens as real, n + 1) && n in s.callers && s.callers[n] == Caller(s.current[m], Holding)
    requires AdmittedFor(THIRTY, es, m) == Zeros(z)
    ensures Passing(es + [Release(n)], m, b, tokens, n + 1, z)
  {
    Snoc(THIRTY, es, Release(n), m);
  }

  lemma {:induction false} PassFirst(es: seq<Event>, m: MailboxId, b: Budget, n: nat, z: nat)
    requires (b == THIRTY || b == TWENTY_NINE) && !Keeps(After(THIRTY, es), m, b)
    requires AdmittedFor(THIRTY, es, m) == Zeros(z) && forall k :: k in After(THIRTY, es).callers ==> k < n
    ensures Passing(es + Pass(n, m, b), m, b, b.perMinute - 1, n + 1, z + 1)
  {
    Plain(b);
    JoinNew(THIRTY, es, m, b, n);
    ZerosNext(z);
    Released(es + Join(n, m, b), m, b, b.perMinute - 1, n, z + 1);
    assert es + Pass(n, m, b) == es + Join(n, m, b) + [Release(n)];
  }

  lemma {:induction false} PassNext(es: seq<Event>, m: MailboxId, b: Budget, tokens: int, n: nat, z: nat)
    requires (b == THIRTY || b == TWENTY_NINE) && Passing(es, m, b, tokens, n, z) && tokens > 0
    ensures Passing(es + Pass(n, m, b), m, b, tokens - 1, n + 1, z + 1)
  {
    Plain(b);
    JoinSame(THIRTY, es, m, b, 0, tokens as real, n);
    ZerosNext(z);
    Released(es + Join(n, m, b), m, b, tokens - 1, n, z + 1);
    assert es + Pass(n, m, b) == es + Join(n, m, b) + [Release(n)];
  }

  /** That many callers with one budget, one after the other. */
  function Passes(es: seq<Event>, k: nat, n: nat, m: MailboxId, b: Budget): seq<Event>
    decreases k
  {
    if k == 0 then es else Passes(es + Pass(n, m, b), k - 1, n + 1, m, b)
  }

  /** A free limiter lets as many pass at one instant as it has tokens. */
  lemma {:induction false} PassesRun(es: seq<Event>, m: MailboxId, b: Budget, tokens: int, n: nat, z: nat, k: nat) returns (fs: seq<Event>)
    requires (b == THIRTY || b == TWENTY_NINE) && Passing(es, m, b, tokens, n, z) && k <= tokens
    ensures fs == Passes(es, k, n, m, b) && Passing(fs, m, b, tokens - k, n + k, z + k)
    decreases k
  {
    if k == 0 {
      fs := es;
    } else {
      PassNext(es, m, b, tokens, n, z);
      fs := PassesRun(es + Pass(n, m, b), m, b, tokens - 1, n + 1, z + 1, k - 1);
    }
  }

  /** The first with a budget starts a full limiter; the others follow until its tokens are gone. */
  function Burst(es: seq<Event>, n: nat, m: MailboxId, b: Budget): seq<Event>
    requires b.perMinute > 0
  {
    Passes(es + Pass(n, m, b), b.perMinute - 1, n + 1, m, b)
  }

  lemma {:induction false} BurstRun(es: seq<Event>, m: MailboxId, b: Budget, n: nat, z: nat)
    requires (b == THIRTY || b == TWENTY_NINE) && !Keeps(After(THIRTY, es), m, b)
    requires AdmittedFor(THIRTY, es, m) == Zeros(z) && forall j :: j in After(THIRTY, es).callers ==> j < n
    ensures Passing(Burst(es, n, m, b), m, b, 0, n + b.perMinute, z + b.perMinute)
  {
    PassFirst(es, m, b, n, z);
    var fs := PassesRun(es + Pass(n, m, b), m, b, b.perMinute - 1, n + 1, z + 1, b.perMinute - 1);
  }

  /** Thirty messages and, once the rate is lowered, twenty-nine more, all at one instant. */
  lemma {:induction false} FiftyNineAtOneInstant(m: MailboxId)
    ensures var es := Burst(Burst([], 0, m, THIRTY), 30, m, TWENTY_NINE);
            AdmittedFor(THIRTY, es, m) == Zeros(59) && !WithinRate(EXCHANGE_MESSAGES_PER_MINUTE, AdmittedFor(THIRTY, es, m))
  {
    BurstRun([], m, THIRTY, 0, 0);
    BurstRun(Burst([], 0, m, THIRTY), m, TWENTY_NINE, 30, 30);
    ZerosExceed(59, EXCHANGE_MESSAGES_PER_MINUTE);
  }
}
