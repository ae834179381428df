/** How often a message is deferred, while no delivery outruns its lease. */
module Budget {
  import opened Common
  import opened Messages
  import opened Worker
  import opened Protocol
  import opened Moves
  import opened RowLaws
  import opened Fencing
  import Backoff

  /** Event `e` records a deferral of message `id`. */
  predicate Defers(c: Config, s: State, e: Event, id: Id) {
    Recorded(s, e, id) && Decide(c.backoff, s.flights[e.serial], e.result, e.at).RecordDeferred?
  }

  predicate WithinBudget(c: Config, r: Row) {
    r.status == Deferred ==> 1 <= r.attempts < c.backoff.maxAttempts
  }

  /** A deferral leaves the row with another attempt counted, and still below the limit. */
  lemma DeferralStep(c: Config, s: State, e: Event, id: Id)
    requires Legal(c, s, e) && Fenced(s) && c.backoff.maxAttempts > 0
    requires id in s.rows && Defers(c, s, e, id)
    ensures id in Apply(c, s, e).rows
    ensures Apply(c, s, e).rows[id].attempts == s.rows[id].attempts + 1 < c.backoff.maxAttempts
  {
    OnlyTheOwnerRecords(c, s, e, id);
    assert Matches(s, s.flights[e.serial]);
  }

  lemma BudgetStep(c: Config, s: State, e: Event, id: Id)
    requires Legal(c, s, e) && Fenced(s) && c.backoff.maxAttempts > 0
    requires id in s.rows ==> WithinBudget(c, s.rows[id])
    ensures id in Apply(c, s, e).rows ==> WithinBudget(c, Apply(c, s, e).rows[id])
  {
    OneMove(c, s, e, id);
    if Defers(c, s, e, id) {
      DeferralStep(c, s, e, id);
    }
  }

  /** While no delivery outruns its lease, a deferred message has attempts left. */
  lemma {:induction false} DeferredWithinBudget(c: Config, es: seq<Event>, id: Id)
    requires LegalRun(c, es) && PacedRun(c, es) && PunctualRun(c, es) && c.backoff.maxAttempts > 0
    ensures id in After(c, es).rows ==> WithinBudget(c, After(c, es).rows[id])
  {
    if |es| > 0 {
      Unsnoc(c, es);
      DeferredWithinBudget(c, es[..|es| - 1], id);
      ReachableFence(c, es[..|es| - 1]);
      BudgetStep(c, After(c, es[..|es| - 1]), es[|es| - 1], id);
    }
  }

  function Deferrals(c: Config, es: seq<Event>, id: Id): nat {
    if |es| == 0 then 0
    else
      var pre := es[..|es| - 1];
      Deferrals(c, pre, id) + if Defers(c, After(c, pre), es[|es| - 1], id) then 1 else 0
  }

  /** Every deferral is an outcome. */
  lemma {:induction false} DeferralsAreOutcomes(c: Config, es: seq<Event>, id: Id)
    ensures Deferrals(c, es, id) <= Outcomes(c, es, id)
  {
    if |es| > 0 {
      DeferralsAreOutcomes(c, es[..|es| - 1], id);
    }
  }

  lemma DeferralsBelow(c: Config, pre: seq<Event>, e: Event, id: Id)
    requires LegalRun(c, pre) && Legal(c, After(c, pre), e) && Fenced(After(c, pre))
    requires c.backoff.maxAttempts > 0 && Defers(c, After(c, pre), e, id)
    ensures Deferrals(c, pre, id) + 1 <= c.backoff.maxAttempts - 1
  {
    AttemptsAreOutcomes(c, pre, id);
    DeferralsAreOutcomes(c, pre, id);
    DeferralStep(c, After(c, pre), e, id);
  }

  /** A message is deferred at most maxAttempts - 1 times in its life, operator retries included. */
  lemma {:induction false} DeferralsBounded(c: Config, es: seq<Event>, id: Id)
    requires LegalRun(c, es) && PacedRun(c, es) && PunctualRun(c, es) && c.backoff.maxAttempts > 0
    ensures Deferrals(c, es, id) <= c.backoff.maxAttempts - 1
  {
    if |es| > 0 {
      var pre := es[..|es| - 1];
      Unsnoc(c, es);
      DeferralsBounded(c, pre, id);
      if Defers(c, After(c, pre), es[|es| - 1], id) {
        ReachableFence(c, pre);
        DeferralsBelow(c, pre, es[|es| - 1], id);
      }
    }
  }
}
