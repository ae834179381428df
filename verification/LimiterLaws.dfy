/**
 * Whole runs of the limiter, callers interleaving arbitrarily: what each generation keeps, and what a mailbox
 * keeps over all the generations it has had. Events that cannot happen in a state change nothing.
 */
module LimiterLaws {
  import opened Common
  import opened Limiter
  import TokenBucket

  function After(d: Budget, es: seq<Event>): State {
    if |es| == 0 then EMPTY else Step(d, After(d, es[..|es| - 1]), es[|es| - 1])
  }

  /**
   * In every run, every generation's semaphore has as many slots taken as callers hold or await a token with
   * one, never more than its budget, which Exchange permits.
   */
  lemma {:induction false} ReachableSound(d: Budget, es: seq<Event>)
    ensures Sound(After(d, es))
  {
    if |es| > 0 {
      ReachableSound(d, es[..|es| - 1]);
      SoundStep(d, After(d, es[..|es| - 1]), es[|es| - 1]);
    }
  }

  // ---- the rate of a generation ----

  /** The event looks at the bucket of generation `g`. */
  predicate Looks(s: State, e: Event, g: nat) {
    e.TakeToken? && In(s, e.k, AwaitingToken) && s.callers[e.k].generation == g
  }

  /** When callers of generation `g` were let through, in order. */
  function Admitted(d: Budget, es: seq<Event>, g: nat): seq<Time> {
    if |es| == 0 then []
    else
      var s, e := After(d, es[..|es| - 1]), es[|es| - 1];
      Admitted(d, es[..|es| - 1], g)
      + if Looks(s, e, g) && TokenBucket.Admits(s.generations[g].bucket, e.now)
        then [Max(s.generations[g].bucket.last, e.now)] else []
  }

  /** Every stretch of admissions is within capacity and rate. */
  ghost predicate WithinRate(perMinute: int, admitted: seq<Time>) {
    forall i, j :: 0 <= i <= j < |admitted| ==>
      (j - i + 1) as real <= TokenBucket.Allowance(perMinute, admitted[j] - admitted[i])
  }

  /** A bucket of this rate, its level that of the admissions so far, which kept the rate. */
  ghost predicate Paced(perMinute: int, bucket: TokenBucket.Bucket, admitted: seq<Time>) {
    && bucket.Valid() && bucket.perMinute == perMinute
    && TokenBucket.IsLevel(bucket, admitted) && WithinRate(perMinute, admitted)
  }

  lemma WithinRateNext(perMinute: int, admitted: seq<Time>, at: Time)
    requires perMinute >= 1 && WithinRate(perMinute, admitted) && TokenBucket.MayAdmit(perMinute, admitted, at)
    ensures WithinRate(perMinute, admitted + [at])
  {
    var more := admitted + [at];
    forall i, j | 0 <= i <= j < |more|
      ensures (j - i + 1) as real <= TokenBucket.Allowance(perMinute, more[j] - more[i])
    {
      TokenBucket.AllowanceIsGain(perMinute, more[j] - more[i]);
      if j == |admitted| {
        if i < j {
          assert TokenBucket.WindowFits(perMinute, admitted, i, at);
        } else {
          TokenBucket.GainGrows(perMinute, 0);
        }
      }
    }
  }

  lemma PacedLook(perMinute: int, bucket: TokenBucket.Bucket, admitted: seq<Time>, now: Time)
    requires Paced(perMinute, bucket, admitted)
    ensures var at := Max(bucket.last, now);
            var ok := TokenBucket.Admits(bucket, now);
            && (ok <==> TokenBucket.MayAdmit(perMinute, admitted, at))
            && Paced(perMinute, TokenBucket.Take(bucket, now), if ok then admitted + [at] else admitted)
  {
    TokenBucket.TakeStep(bucket, admitted, now);
    if TokenBucket.Admits(bucket, now) {
      WithinRateNext(perMinute, admitted, Max(bucket.last, now));
    }
  }

  /** What a step does to a generation that exists: nothing, a change of its count, or a look at its bucket. */
  lemma GenerationStep(d: Budget, s: State, e: Event, g: nat)
    requires g < |s.generations|
    ensures g < |Step(d, s, e).generations|
    ensures var now', then' := Step(d, s, e).generations[g], s.generations[g];
            && now'.mailbox == then'.mailbox && now'.budget == then'.budget
            && now'.bucket == if Looks(s, e, g) then TokenBucket.Take(then'.bucket, e.now) else then'.bucket
  {
  }

  /** A generation a step adds is the one Arrive starts, with a full bucket. */
  lemma NewGenerationStep(d: Budget, s: State, e: Event, g: nat)
    requires |s.generations| <= g < |Step(d, s, e).generations|
    ensures e.Arrive? && Step(d, s, e).generations[g] == NewGeneration(e.m, Effective(d, e.budget), e.now)
  {
  }

  lemma {:induction false} NotYetAdmitted(d: Budget, es: seq<Event>, g: nat)
    requires |After(d, es).generations| <= g
    ensures Admitted(d, es, g) == []
  {
    if |es| > 0 {
      var pre, e := es[..|es| - 1], es[|es| - 1];
      if g < |After(d, pre).generations| {
        GenerationStep(d, After(d, pre), e, g);
      }
      NotYetAdmitted(d, pre, g);
    }
  }

  lemma PacedFresh(perMinute: int, now: Time)
    requires perMinute >= 1
    ensures Paced(perMinute, TokenBucket.NewBucket(perMinute, now), [])
  {
  }

  /** The admissions after one more event. */
  lemma {:induction false} AdmittedStep(d: Budget, es: seq<Event>, g: nat)
    requires |es| > 0
    ensures var pre, e, s := es[..|es| - 1], es[|es| - 1], After(d, es[..|es| - 1]);
            Admitted(d, es, g)
            == if Looks(s, e, g) && TokenBucket.Admits(s.generations[g].bucket, e.now)
               then Admitted(d, pre, g) + [Max(s.generations[g].bucket.last, e.now)] else Admitted(d, pre, g)
  {
  }

  /**
   * In every run a generation lets a caller through exactly when every window of its past admissions has room,
   * so any stretch of them is at most its rate times one plus the minutes it spans.
   */
  lemma {:induction false} GenerationRate(d: Budget, es: seq<Event>, g: nat)
    requires g < |After(d, es).generations|
    ensures var gen := After(d, es).generations[g]; Paced(gen.budget.perMinute, gen.bucket, Admitted(d, es, g))
  {
    var pre, e := es[..|es| - 1], es[|es| - 1];
    var s := After(d, pre);
    AdmittedStep(d, es, g);
    if g < |s.generations| {
      GenerationRate(d, pre, g);
      GenerationStep(d, s, e, g);
      if Looks(s, e, g) {
        PacedLook(s.generations[g].budget.perMinute, s.generations[g].bucket, Admitted(d, pre, g), e.now);
      }
    } else {
      NewGenerationStep(d, s, e, g);
      NotYetAdmitted(d, pre, g);
      EffectivePermitted(d, e.budget);
      PacedFresh(Effective(d, e.budget).perMinute, e.now);
    }
  }

  // ---- the limiter a call gets ----

  /** The request a call made: which mailbox, with which budget. */
  ghost predicate Asked(es: seq<Event>, i: nat, k: CallerId, m: MailboxId, b: Budget) {
    i < |es| && es[i].Arrive? && es[i].k == k && es[i].m == m && es[i].budget == b
  }

  /** A call keeps its generation, and a new one is bound to the limiter of its mailbox and budget. */
  lemma CallerStep(d: Budget, s: State, e: Event, k: CallerId)
    requires Sound(s) && k in Step(d, s, e).callers
    ensures var t := Step(d, s, e);
            && t.callers[k].generation < |t.generations|
            && (k in s.callers ==> t.callers[k].generation == s.callers[k].generation)
            && (k !in s.callers ==> e.Arrive? && e.k == k && t.callers[k].phase == AwaitingSlot
                                    && t.generations[t.callers[k].generation].mailbox == e.m
                                    && t.generations[t.callers[k].generation].budget == Effective(d, e.budget))
  {
  }

  /**
   * In every run each call waits, for as long as it lives, on a limiter of the mailbox it asked for whose budget is
   * the merge of the configured defaults with what it asked for.
   */
  lemma {:induction false} CallsGetTheirBudget(d: Budget, es: seq<Event>, k: CallerId) returns (i: nat, m: MailboxId, b: Budget)
    requires Permitted(d) && k in After(d, es).callers
    ensures Asked(es, i, k, m, b)
    ensures var s := After(d, es);
            && s.callers[k].generation < |s.generations|
            && s.generations[s.callers[k].generation].mailbox == m && Merged(d, b, s.generations[s.callers[k].generation].budget)
  {
    var pre, e := es[..|es| - 1], es[|es| - 1];
    var s := After(d, pre);
    ReachableSound(d, pre);
    CallerStep(d, s, e, k);
    if k in s.callers {
      i, m, b := CallsGetTheirBudget(d, pre, k);
      GenerationStep(d, s, e, s.callers[k].generation);
    } else {
      i, m, b := |es| - 1, e.m, e.budget;
      EffectiveMerges(d, b);
    }
  }

  /** A mailbox that was dropped starts over: its next call finds a limiter of its own, empty and with a full bucket. */
  lemma {:induction false} DroppedStartsOver(d: Budget, s: State, m: MailboxId, k: CallerId, b: Budget, now: Time)
    requires Sound(s) && k !in s.callers
    ensures var t := Step(d, Step(d, s, Forget(m)), Arrive(k, m, b, now));
            && |t.generations| == |s.generations| + 1 && t.callers[k] == Caller(|s.generations|, AwaitingSlot)
            && var g := t.generations[|s.generations|];
               g.mailbox == m && g.occupied == 0 && g.bucket.tokens == g.budget.perMinute as real && g.bucket.last == now
  {
  }
}
