/**
 * The per-mailbox limiter: a semaphore for concurrency in front of a token bucket. Acquire blocks twice, so it
 * is a sequence of atomic steps; callers interleave. A mailbox gets a new generation, with a full bucket and an
 * empty semaphore, whenever its budget changes.
 */
module Limiter {
  import opened Common
  import TokenBucket

  const EXCHANGE_MESSAGES_PER_MINUTE := 30
  const EXCHANGE_CONCURRENT_CONNECTIONS := 3

  type MailboxId = nat
  type CallerId = nat

  datatype Budget = Budget(perMinute: int, maxConcurrent: int)

  /** Brings a budget within what Exchange Online permits. */
  function Clamp(b: Budget): Budget {
    var perMinute := if b.perMinute <= 0 || b.perMinute > EXCHANGE_MESSAGES_PER_MINUTE
                     then EXCHANGE_MESSAGES_PER_MINUTE else b.perMinute;
    var concurrent := if b.maxConcurrent <= 0 then 2 else b.maxConcurrent;
    Budget(perMinute, if concurrent > EXCHANGE_CONCURRENT_CONNECTIONS
                      then EXCHANGE_CONCURRENT_CONNECTIONS else concurrent)
  }

  /** A mailbox's overrides merged with the defaults. */
  function Effective(defaults: Budget, b: Budget): Budget {
    Clamp(Budget(if b.perMinute <= 0 then defaults.perMinute else b.perMinute,
                 if b.maxConcurrent <= 0 then defaults.maxConcurrent else b.maxConcurrent))
  }

  predicate Permitted(b: Budget) {
    1 <= b.perMinute <= EXCHANGE_MESSAGES_PER_MINUTE && 1 <= b.maxConcurrent <= EXCHANGE_CONCURRENT_CONNECTIONS
  }

  /** One limiter a mailbox has had: its budget, how many semaphore slots are taken, and its bucket. */
  datatype Generation = Generation(mailbox: MailboxId, budget: Budget, occupied: int, bucket: TokenBucket.Bucket)

  datatype Phase = AwaitingSlot | AwaitingToken | Holding | Done

  /** A call of Acquire, bound for life to the generation it found. */
  datatype Caller = Caller(generation: nat, phase: Phase)

  datatype State = State(generations: seq<Generation>, current: map<MailboxId, nat>, callers: map<CallerId, Caller>)

  const EMPTY := State([], map[], map[])

  /** The atomic steps: the blocking call in three, the release function, and dropping a mailbox. */
  datatype Event =
    | Arrive(k: CallerId, m: MailboxId, budget: Budget, now: Time)
    | TakeSlot(k: CallerId)
    | TakeToken(k: CallerId, now: Time)
    | Cancel(k: CallerId)
    | Release(k: CallerId)
    | Forget(m: MailboxId)

  // ---- one step ----

  /** The mailbox's limiter can be kept: it has one, of this budget. */
  predicate Keeps(s: State, m: MailboxId, effective: Budget) {
    m in s.current && s.current[m] < |s.generations| && s.generations[s.current[m]].budget == effective
  }

  function NewGeneration(m: MailboxId, effective: Budget, now: Time): Generation {
    Generation(m, effective, 0, TokenBucket.NewBucket(effective.perMinute, now))
  }

  /** The state once the mailbox has a limiter of this budget. */
  function Found(s: State, m: MailboxId, effective: Budget, now: Time): State {
    if Keeps(s, m, effective) then s
    else State(s.generations + [NewGeneration(m, effective, now)], s.current[m := |s.generations|], s.callers)
  }

  /** The caller is known and in that phase. */
  predicate In(s: State, k: CallerId, phase: Phase) {
    k in s.callers && s.callers[k].generation < |s.generations| && s.callers[k].phase == phase
  }

  /** The caller moves on, its generation becoming `g`. */
  function Moved(s: State, k: CallerId, phase: Phase, g: Generation): State
    requires k in s.callers && s.callers[k].generation < |s.generations|
  {
    var n := s.callers[k].generation;
    s.(generations := s.generations[n := g], callers := s.callers[k := Caller(n, phase)])
  }

  function Step(defaults: Budget, s: State, e: Event): State {
    match e
    case Arrive(k, m, budget, now) =>
      if k in s.callers then s
      else
        var t := Found(s, m, Effective(defaults, budget), now);
        t.(callers := s.callers[k := Caller(t.current[m], AwaitingSlot)])
    case TakeSlot(k) =>
      if !In(s, k, AwaitingSlot) then s
      else
        var g := s.generations[s.callers[k].generation];
        if g.occupied < g.budget.maxConcurrent then Moved(s, k, AwaitingToken, g.(occupied := g.occupied + 1)) else s
    case TakeToken(k, now) =>
      if !In(s, k, AwaitingToken) then s
      else
        var g := s.generations[s.callers[k].generation];
        Moved(s, k, if TokenBucket.Admits(g.bucket, now) then Holding else AwaitingToken,
              g.(bucket := TokenBucket.Take(g.bucket, now)))
    case Cancel(k) =>
      if In(s, k, AwaitingSlot) then Moved(s, k, Done, s.generations[s.callers[k].generation])
      else if In(s, k, AwaitingToken) then
        var g := s.generations[s.callers[k].generation];
        Moved(s, k, Done, g.(occupied := g.occupied - 1))
      else s
    case Release(k) =>
      if !In(s, k, Holding) then s
      else
        var g := s.generations[s.callers[k].generation];
        Moved(s, k, Done, g.(occupied := g.occupied - 1))
    case Forget(m) => s.(current := s.current - {m})
  }

  // ---- occupancy ----

  predicate Occupies(c: Caller, g: nat) {
    c.generation == g && (c.phase == AwaitingToken || c.phase == Holding)
  }

  /** The callers of a generation that hold a slot or await a token with it. */
  function Holders(callers: map<CallerId, Caller>, g: nat): set<CallerId> {
    set k | k in callers && Occupies(callers[k], g)
  }

  /** The slots a caller has on a generation: one or none. */
  function Slots(callers: map<CallerId, Caller>, k: CallerId, g: nat): int {
    if k in callers && Occupies(callers[k], g) then 1 else 0
  }

  /** Moving one caller changes the holders of its own generation, by the slot it gains or loses. */
  lemma HoldersAfter(callers: map<CallerId, Caller>, k: CallerId, c: Caller, g: nat)
    requires k in callers ==> callers[k].generation == c.generation
    ensures var after := callers[k := c];
            && |Holders(after, g)| == |Holders(callers, g)| + Slots(after, k, g) - Slots(callers, k, g)
            && (g != c.generation ==> |Holders(after, g)| == |Holders(callers, g)|)
            && |Holders(callers, g)| >= Slots(callers, k, g)
  {
    var after := callers[k := c];
    var rest := Holders(callers, g) - {k};
    assert Holders(callers, g) == if Slots(callers, k, g) == 1 then rest + {k} else rest;
    assert Holders(after, g) == if Slots(after, k, g) == 1 then rest + {k} else rest;
  }

  /** A generation's budget is permitted, its occupancy is its holders, within the budget, and its bucket is its own. */
  ghost predicate SoundGeneration(s: State, g: nat)
    requires g < |s.generations|
  {
    var gen := s.generations[g];
    && Permitted(gen.budget) && gen.bucket.Valid() && gen.bucket.perMinute == gen.budget.perMinute
    && gen.occupied == |Holders(s.callers, g)| <= gen.budget.maxConcurrent
  }

  ghost predicate Sound(s: State) {
    && (forall k :: k in s.callers ==> s.callers[k].generation < |s.generations|)
    && (forall g :: 0 <= g < |s.generations| ==> SoundGeneration(s, g))
    && (forall m :: m in s.current ==> s.current[m] < |s.generations| && s.generations[s.current[m]].mailbox == m)
  }

  /**
   * `e` is the override merged with the defaults, field by field: the default where the mailbox sets nothing, and
   * otherwise what it sets, up to what Exchange permits.
   */
  predicate Merged(defaults: Budget, b: Budget, e: Budget) {
    && e.perMinute == (if b.perMinute <= 0 then defaults.perMinute else if b.perMinute <= 30 then b.perMinute else 30)
    && e.maxConcurrent == (if b.maxConcurrent <= 0 then defaults.maxConcurrent else if b.maxConcurrent <= 3 then b.maxConcurrent else 3)
  }

  /** Whatever the defaults were configured as, they are permitted, and kept as they are where they already were. */
  lemma ClampPermitted(b: Budget)
    ensures var d := Clamp(b);
            && Permitted(d)
            && d.perMinute == (if 1 <= b.perMinute <= 30 then b.perMinute else 30)
            && d.maxConcurrent == (if b.maxConcurrent <= 0 then 2 else if b.maxConcurrent <= 3 then b.maxConcurrent else 3)
  {
  }

  /** With permitted defaults, any override comes to its merge with them. */
  lemma EffectiveMerges(defaults: Budget, b: Budget)
    requires Permitted(defaults)
    ensures Merged(defaults, b, Effective(defaults, b))
  {
  }

  lemma EffectivePermitted(defaults: Budget, b: Budget)
    ensures Permitted(Effective(defaults, b))
    ensures Permitted(defaults) && Permitted(b) ==> Effective(defaults, b) == b
  {
  }

  lemma NobodyYet(s: State, g: nat)
    requires Sound(s) && |s.generations| <= g
    ensures Holders(s.callers, g) == {}
  {
  }

  lemma FoundSound(s: State, m: MailboxId, effective: Budget, now: Time)
    requires Sound(s) && Permitted(effective)
    ensures Sound(Found(s, m, effective, now))
  {
    var t := Found(s, m, effective, now);
    NobodyYet(s, |s.generations|);
    forall g | 0 <= g < |t.generations|
      ensures SoundGeneration(t, g)
    {
      assert g < |s.generations| ==> SoundGeneration(s, g);
    }
  }

  /** A move that changes the count by the caller's own slot keeps every generation sound. */
  lemma MovedSound(s: State, k: CallerId, phase: Phase, g: Generation)
    requires Sound(s) && k in s.callers
    requires var n := s.callers[k].generation;
             var old' := s.generations[n];
             && g.mailbox == old'.mailbox && g.budget == old'.budget
             && g.bucket.Valid() && g.bucket.perMinute == g.budget.perMinute
             && g.occupied == old'.occupied + Slots(s.callers[k := Caller(n, phase)], k, n) - Slots(s.callers, k, n)
             && g.occupied <= g.budget.maxConcurrent
    ensures Sound(Moved(s, k, phase, g))
  {
    var n, t := s.callers[k].generation, Moved(s, k, phase, g);
    forall h | 0 <= h < |t.generations|
      ensures SoundGeneration(t, h)
    {
      assert SoundGeneration(s, h);
      HoldersAfter(s.callers, k, Caller(n, phase), h);
    }
  }

  lemma ArriveSound(defaults: Budget, s: State, e: Event)
    requires Sound(s) && e.Arrive?
    ensures Sound(Step(defaults, s, e))
  {
    if e.k !in s.callers {
      EffectivePermitted(defaults, e.budget);
      var t := Found(s, e.m, Effective(defaults, e.budget), e.now);
      FoundSound(s, e.m, Effective(defaults, e.budget), e.now);
      var u := Step(defaults, s, e);
      forall g | 0 <= g < |u.generations|
        ensures SoundGeneration(u, g)
      {
        assert SoundGeneration(t, g);
        HoldersAfter(t.callers, e.k, Caller(t.current[e.m], AwaitingSlot), g);
      }
    }
  }

  /** Every step keeps every generation sound. */
  lemma SoundStep(defaults: Budget, s: State, e: Event)
    requires Sound(s)
    ensures Sound(Step(defaults, s, e))
  {
    match e
    case Arrive(_, _, _, _) => ArriveSound(defaults, s, e);
    case TakeSlot(k) =>
      if In(s, k, AwaitingSlot) {
        var g := s.generations[s.callers[k].generation];
        if g.occupied < g.budget.maxConcurrent {
          assert SoundGeneration(s, s.callers[k].generation);
          MovedSound(s, k, AwaitingToken, g.(occupied := g.occupied + 1));
        }
      }
    case TakeToken(k, now) =>
      if In(s, k, AwaitingToken) {
        var g := s.generations[s.callers[k].generation];
        assert SoundGeneration(s, s.callers[k].generation);
        TokenBucket.TakeValid(g.bucket, now);
        MovedSound(s, k, if TokenBucket.Admits(g.bucket, now) then Holding else AwaitingToken,
                   g.(bucket := TokenBucket.Take(g.bucket, now)));
      }
    case Cancel(k) =>
      if In(s, k, AwaitingSlot) || In(s, k, AwaitingToken) {
        var g := s.generations[s.callers[k].generation];
        assert SoundGeneration(s, s.callers[k].generation);
        MovedSound(s, k, Done, if In(s, k, AwaitingSlot) then g else g.(occupied := g.occupied - 1));
      }
    case Release(k) =>
      if In(s, k, Holding) {
        var g := s.generations[s.callers[k].generation];
        assert SoundGeneration(s, s.callers[k].generation);
        MovedSound(s, k, Done, g.(occupied := g.occupied - 1));
      }
    case Forget(_) =>
      forall g | 0 <= g < |s.generations|
        ensures SoundGeneration(Step(defaults, s, e), g)
      {
        assert SoundGeneration(s, g);
      }
  }

  // ---- in place ----

  class Limiter {
    const defaults: Budget
    var generations: seq<Generation>
    var mailbox: map<MailboxId, nat>
    var callers: map<CallerId, Caller>

    ghost function Value(): State
      reads this
    {
      State(generations, mailbox, callers)
    }

    ghost predicate Valid()
      reads this
    {
      Sound(Value()) && Permitted(defaults)
    }

    constructor (defaults: Budget)
      ensures Valid() && Value() == EMPTY
      ensures this.defaults.perMinute == if 1 <= defaults.perMinute <= 30 then defaults.perMinute else 30
      ensures this.defaults.maxConcurrent == if defaults.maxConcurrent <= 0 then 2
                                             else if defaults.maxConcurrent <= 3 then defaults.maxConcurrent else 3
    {
      this.defaults := Clamp(defaults);
      generations, mailbox, callers := [], map[], map[];
    }

    /** Finds the mailbox's limiter; a changed budget starts a new generation, empty. */
    method ForMailbox(m: MailboxId, budget: Budget, now: Time) returns (g: nat)
      requires Valid()
      modifies this`generations, this`mailbox
      ensures Valid() && Value() == Found(old(Value()), m, Effective(defaults, budget), now)
      ensures m in mailbox && g == mailbox[m] < |generations|
      ensures generations[g].mailbox == m && Merged(defaults, budget, generations[g].budget)
      ensures g < |old(generations)| ==> generations == old(generations) && mailbox == old(mailbox)
    {
      var effective := Effective(defaults, budget);
      EffectivePermitted(defaults, budget);
      FoundSound(Value(), m, effective, now);
      if m in mailbox && generations[mailbox[m]].budget == effective {
        return mailbox[m];
      }
      g := |generations|;
      generations := generations + [Generation(m, effective, 0, TokenBucket.NewBucket(effective.perMinute, now))];
      mailbox := mailbox[m := g];
    }

    /** A new call of Acquire, about to wait for a slot. */
    method DoArrive(k: CallerId, m: MailboxId, budget: Budget, now: Time)
      requires Valid() && k !in callers
      modifies this
      ensures Valid() && Value() == Step(defaults, old(Value()), Arrive(k, m, budget, now))
      ensures m in mailbox && mailbox[m] < |generations| && callers == old(callers)[k := Caller(mailbox[m], AwaitingSlot)]
      ensures generations[mailbox[m]].mailbox == m && Merged(defaults, budget, generations[mailbox[m]].budget)
    {
      SoundStep(defaults, Value(), Arrive(k, m, budget, now));
      var g := ForMailbox(m, budget, now);
      callers := callers[k := Caller(g, AwaitingSlot)];
    }

    /** Taking a slot succeeds exactly when the semaphore has one; otherwise the caller keeps waiting. */
    method DoTakeSlot(k: CallerId) returns (ok: bool)
      requires Valid() && k in callers && callers[k].phase == AwaitingSlot
      modifies this`generations, this`callers
      ensures Valid() && Value() == Step(defaults, old(Value()), TakeSlot(k))
      ensures ok <==> |Holders(old(callers), old(callers)[k].generation)| < old(generations)[old(callers)[k].generation].budget.maxConcurrent
      ensures ok <==> callers[k].phase == AwaitingToken
    {
      SoundStep(defaults, Value(), TakeSlot(k));
      var n := callers[k].generation;
      assert SoundGeneration(Value(), n);
      var g := generations[n];
      ok := g.occupied < g.budget.maxConcurrent;
      if ok {
        generations := generations[n := g.(occupied := g.occupied + 1)];
        callers := callers[k := Caller(n, AwaitingToken)];
      }
    }

    /** One look at the bucket while waiting: let through, with the slot kept until released, or not yet. */
    method DoTakeToken(k: CallerId, now: Time) returns (ok: bool)
      requires Valid() && k in callers && callers[k].phase == AwaitingToken
      modifies this`generations, this`callers
      ensures Valid() && Value() == Step(defaults, old(Value()), TakeToken(k, now))
      ensures ok <==> TokenBucket.Admits(old(generations)[old(callers)[k].generation].bucket, now)
      ensures ok <==> callers[k].phase == Holding
    {
      SoundStep(defaults, Value(), TakeToken(k, now));
      var n := callers[k].generation;
      var g := generations[n];
      ok := TokenBucket.Admits(g.bucket, now);
      generations := generations[n := g.(bucket := TokenBucket.Take(g.bucket, now))];
      callers := callers[k := Caller(n, if ok then Holding else AwaitingToken)];
    }

    /** Cancellation while waiting: a slot already taken goes back, once. */
    method DoCancel(k: CallerId)
      requires Valid() && k in callers && (callers[k].phase == AwaitingSlot || callers[k].phase == AwaitingToken)
      modifies this`generations, this`callers
      ensures Valid() && Value() == Step(defaults, old(Value()), Cancel(k))
    {
      SoundStep(defaults, Value(), Cancel(k));
      var n := callers[k].generation;
      assert generations[n := generations[n]] == generations;
      if callers[k].phase == AwaitingToken {
        generations := generations[n := generations[n].(occupied := generations[n].occupied - 1)];
      }
      callers := callers[k := Caller(n, Done)];
    }

    /**
     * The release function, callable any number of times: the first call returns the slot to the
     * semaphore it came from, whatever generation the mailbox has now; later calls do nothing.
     */
    method DoRelease(k: CallerId)
      requires Valid() && k in callers && (callers[k].phase == Holding || callers[k].phase == Done)
      modifies this`generations, this`callers
      ensures Valid() && Value() == Step(defaults, old(Value()), Release(k))
      ensures callers[k] == Caller(old(callers)[k].generation, Done)
      ensures old(callers)[k].phase == Done ==> Value() == old(Value())
    {
      SoundStep(defaults, Value(), Release(k));
      if callers[k].phase == Done {
        return;
      }
      var n := callers[k].generation;
      generations := generations[n := generations[n].(occupied := generations[n].occupied - 1)];
      callers := callers[k := Caller(n, Done)];
    }

    /** Dropping a mailbox's limiter leaves callers on it, and their slots, alone. */
    method DoForget(m: MailboxId)
      requires Valid()
      modifies this`mailbox
      ensures Valid() && Value() == Step(defaults, old(Value()), Forget(m))
      ensures m !in mailbox && forall n :: n != m ==> (n in mailbox <==> n in old(mailbox)) && (n in mailbox ==> mailbox[n] == old(mailbox)[n])
    {
      SoundStep(defaults, Value(), Forget(m));
      mailbox := mailbox - {m};
    }
  }
}
