/**
 * What holds of rows in every run, whatever workers do with their leases: late records, crashes
 * and re-claims of a worker's own expired lease included.
 */
module RowLaws {
  import opened Common
  import opened Messages
  import opened Worker
  import opened Protocol
  import opened Moves

  // ---- the shape of a row ----

  predicate LeaseShape(r: Row) {
    && (r.status == Sending <==> r.leaseOwner.Some?)
    && (r.status == Sending <==> r.leaseExpiresAt.Some?)
  }

  /** A leased row was due when it was claimed. */
  predicate WasDue(r: Row, clock: Time) {
    r.status == Sending ==> r.nextAttemptAt <= clock
  }

  predicate Fits(r: Row, clock: Time) {
    LeaseShape(r) && WasDue(r, clock)
  }

  ghost predicate Shaped(s: State) {
    && (forall id :: id in s.rows ==> id in s.used)
    && (forall id :: id in s.rows ==> Fits(s.rows[id], s.clock))
  }

  lemma MoveKeepsShape(r: Row, m: Move, clock: Time)
    requires Fits(r, clock) && Allowed(r, m, clock)
    ensures Fits(Moved(r, m), clock)
  {
    if m.Settle? {
      match m.outcome
      case RecordSent =>
      case RecordFailed(_) =>
      case RecordDeferred(_, _) =>
    }
  }

  /** The clock and the identifiers ever used only grow. */
  lemma Grows(c: Config, s: State, e: Event)
    requires Legal(c, s, e)
    ensures s.clock <= Apply(c, s, e).clock
    ensures s.used <= Apply(c, s, e).used
    ensures e.Enqueued? ==> e.id in Apply(c, s, e).used
  {
  }

  lemma ShapedStep(c: Config, s: State, e: Event)
    requires Shaped(s) && Legal(c, s, e)
    ensures Shaped(Apply(c, s, e))
  {
    var t := Apply(c, s, e);
    Grows(c, s, e);
    forall id | id in t.rows
      ensures id in t.used && Fits(t.rows[id], t.clock)
    {
      OneMove(c, s, e, id);
      if id in s.rows {
        MoveKeepsShape(s.rows[id], MoveOf(c, s, e, id), s.clock);
      }
    }
  }

  /** In every reachable state a row is sending exactly when it has both an owner and an expiry. */
  lemma {:induction false} ReachableShape(c: Config, es: seq<Event>)
    requires LegalRun(c, es)
    ensures Shaped(After(c, es))
  {
    if |es| > 0 {
      Unsnoc(c, es);
      ReachableShape(c, es[..|es| - 1]);
      ShapedStep(c, After(c, es[..|es| - 1]), es[|es| - 1]);
    }
  }

  /** A reachable row can be claimed exactly when it is due, or its lease has run out. */
  lemma {:induction false} ClaimableExactly(c: Config, es: seq<Event>, id: Id, now: Time)
    requires LegalRun(c, es) && id in After(c, es).rows
    ensures var r := After(c, es).rows[id];
            Due(r, now) <==>
              || ((r.status == Queued || r.status == Deferred) && r.nextAttemptAt <= now)
              || (r.status == Sending && r.leaseExpiresAt.Some? && r.leaseExpiresAt.value < now)
  {
    ReachableShape(c, es);
    assert Fits(After(c, es).rows[id], After(c, es).clock);
  }

  /** Releasing expired leases changes what operators see, never what can be claimed from then on. */
  lemma {:induction false} ReleaseKeepsClaimable(c: Config, es: seq<Event>, now: Time, t: Time)
    requires LegalRun(c, es) && now <= After(c, es).clock <= t
    ensures Candidates(ReleaseExpired(After(c, es).rows, now), t) == Candidates(After(c, es).rows, t)
  {
    ReachableShape(c, es);
    var s := After(c, es);
    forall id | id in s.rows
      ensures Due(ReleaseExpired(s.rows, now)[id], t) <==> Due(s.rows[id], t)
    {
      assert Fits(s.rows[id], s.clock);
    }
  }

  // ---- rows that are gone, and why they go ----

  predicate Absent(s: State, id: Id) {
    id in s.used && id !in s.rows
  }

  lemma AbsentStep(c: Config, s: State, e: Event, id: Id)
    requires Absent(s, id) && Legal(c, s, e)
    ensures Absent(Apply(c, s, e), id)
  {
    Grows(c, s, e);
    OneMove(c, s, e, id);
  }

  /** A row vanishes exactly by a delete while it is not being sent, or by a purge once it is finished. */
  lemma RowsVanishExactly(c: Config, es: seq<Event>, i: nat, id: Id)
    requires LegalRun(c, es) && i < |es| && id in After(c, es[..i]).rows
    ensures id !in After(c, es[..i + 1]).rows <==> Removed(After(c, es[..i]).rows[id], es[i], id)
  {
    PrefixOfRun(c, es, i);
    OneMove(c, After(c, es[..i]), es[i], id);
  }

  // ---- sent is final ----

  /** The message is gone, or its row is still `r`. */
  predicate Still(s: State, id: Id, r: Row) {
    Absent(s, id) || (id in s.rows && s.rows[id] == r)
  }

  lemma SentStep(c: Config, s: State, e: Event, id: Id, r: Row)
    requires Shaped(s) && Legal(c, s, e) && r.status == Sent && Still(s, id, r)
    ensures Still(Apply(c, s, e), id, r)
  {
    if id in s.rows {
      assert Fits(s.rows[id], s.clock);
      Grows(c, s, e);
      OneMove(c, s, e, id);
    } else {
      AbsentStep(c, s, e, id);
    }
  }

  /** Once sent, a row never changes again; it can only be removed. */
  lemma SentIsFinal(c: Config, es: seq<Event>, i: nat, j: nat, id: Id, r: Row)
    requires LegalRun(c, es) && i <= j <= |es|
    requires Still(After(c, es[..i]), id, r) && r.status == Sent
    ensures Still(After(c, es[..j]), id, r)
  {
    var P := s => Still(s, id, r);
    forall k | i <= k < j && P(After(c, es[..k]))
      ensures P(After(c, es[..k + 1]))
    {
      PrefixOfRun(c, es, k);
      ReachableShape(c, es[..k]);
      SentStep(c, After(c, es[..k]), es[k], id, r);
    }
    Persists(c, es, i, j, P);
  }

  // ---- parked messages ----

  /** Held, failed or gone. */
  predicate Parked(s: State, id: Id) {
    Absent(s, id) || (id in s.rows && s.rows[id].status in {Held, Failed})
  }

  lemma ParkedStep(c: Config, s: State, e: Event, id: Id)
    requires Shaped(s) && Legal(c, s, e) && Parked(s, id) && !(e.Requeued? && e.id == id)
    ensures Parked(Apply(c, s, e), id)
  {
    if id in s.rows {
      assert Fits(s.rows[id], s.clock);
      Grows(c, s, e);
      OneMove(c, s, e, id);
    } else {
      AbsentStep(c, s, e, id);
    }
  }

  lemma StaysParked(c: Config, es: seq<Event>, i: nat, j: nat, id: Id)
    requires LegalRun(c, es) && i <= j <= |es| && Parked(After(c, es[..i]), id)
    requires forall k :: i <= k < j ==> !(es[k].Requeued? && es[k].id == id)
    ensures Parked(After(c, es[..j]), id)
  {
    var P := s => Parked(s, id);
    forall k | i <= k < j && P(After(c, es[..k]))
      ensures P(After(c, es[..k + 1]))
    {
      PrefixOfRun(c, es, k);
      ReachableShape(c, es[..k]);
      ParkedStep(c, After(c, es[..k]), es[k], id);
    }
    Persists(c, es, i, j, P);
  }

  /** Event `e` takes the message for delivery, or hands it to a worker. */
  predicate Delivers(e: Event, id: Id) {
    (e.ClaimUpdated? && id in e.taken) || (e.ClaimRead? && id in e.out)
  }

  /** A held or failed message is claimed and delivered only after an operator requeued it. */
  lemma ParkedUntilRequeued(c: Config, es: seq<Event>, i: nat, j: nat, id: Id)
    requires LegalRun(c, es) && i <= j < |es|
    requires id in After(c, es[..i]).rows && After(c, es[..i]).rows[id].status in {Held, Failed}
    requires Delivers(es[j], id)
    ensures exists k :: i <= k < j && es[k].Requeued? && es[k].id == id
  {
    if forall k :: i <= k < j ==> !(es[k].Requeued? && es[k].id == id) {
      StaysParked(c, es, i, j, id);
      NotDelivered(c, After(c, es[..j]), es[j], id);
    }
  }

  lemma NotDelivered(c: Config, s: State, e: Event, id: Id)
    requires Legal(c, s, e) && Parked(s, id)
    ensures !Delivers(e, id)
  {
    assert e.ClaimUpdated? ==> e.taken <= Candidates(s.rows, e.now);
    assert e.ClaimRead? ==> Elements(e.out) == LeasedTo(s.rows, e.owner, s.pending[e.owner].until);
  }

  // ---- outcomes ----

  /** Event `e` records an outcome of message `id`: its worker still is the row's lease owner. */
  predicate Recorded(s: State, e: Event, id: Id) {
    e.Finished? && Owns(s, e.serial, id)
  }

  /** A finished delivery changes a row exactly when its worker is the row's current lease owner. */
  lemma OnlyTheOwnerRecords(c: Config, s: State, e: Event, id: Id)
    requires Legal(c, s, e) && e.Finished? && id in s.rows
    ensures id in Apply(c, s, e).rows
    ensures Apply(c, s, e).rows[id] != s.rows[id] <==> Recorded(s, e, id)
    ensures Recorded(s, e, id) ==>
              && Apply(c, s, e).rows[id].attempts == s.rows[id].attempts + 1
              && Apply(c, s, e).rows[id].leaseOwner.None?
              && Apply(c, s, e).rows[id].status in {Sent, Failed, Deferred}
  {
    OneMove(c, s, e, id);
    var m := MoveOf(c, s, e, id);
    assert m.Settle? <==> Recorded(s, e, id);
    if m.Settle? {
      match m.outcome
      case RecordSent =>
      case RecordFailed(_) =>
      case RecordDeferred(_, _) =>
    }
  }

  function Outcomes(c: Config, es: seq<Event>, id: Id): nat {
    if |es| == 0 then 0
    else
      var pre := es[..|es| - 1];
      Outcomes(c, pre, id) + if Recorded(After(c, pre), es[|es| - 1], id) then 1 else 0
  }

  lemma AttemptsStep(c: Config, s: State, e: Event, id: Id)
    requires Shaped(s) && Legal(c, s, e)
    ensures var t := Apply(c, s, e);
            && (id in s.rows && id in t.rows ==>
                  t.rows[id].attempts == s.rows[id].attempts + if Recorded(s, e, id) then 1 else 0)
            && (id !in s.rows && id in t.rows ==> t.rows[id].attempts == 0 && id !in s.used)
            && (id !in s.rows ==> !Recorded(s, e, id))
  {
    OneMove(c, s, e, id);
    var m := MoveOf(c, s, e, id);
    if m.Settle? {
      match m.outcome
      case RecordSent =>
      case RecordFailed(_) =>
      case RecordDeferred(_, _) =>
    }
  }

  /** A row's attempts are the outcomes ever recorded for its message, requeues or not. */
  lemma {:induction false} AttemptsAreOutcomes(c: Config, es: seq<Event>, id: Id)
    requires LegalRun(c, es)
    ensures id in After(c, es).rows ==> After(c, es).rows[id].attempts == Outcomes(c, es, id)
    ensures id !in After(c, es).used ==> Outcomes(c, es, id) == 0
  {
    if |es| > 0 {
      var pre := es[..|es| - 1];
      Unsnoc(c, es);
      AttemptsAreOutcomes(c, pre, id);
      ReachableShape(c, pre);
      Grows(c, After(c, pre), es[|es| - 1]);
      AttemptsStep(c, After(c, pre), es[|es| - 1], id);
    }
  }

  // ---- outcomes and claims alternate ----

  /** Nobody holds the message. */
  predicate Unheld(s: State, id: Id) {
    Absent(s, id) || (id in s.rows && s.rows[id].leaseOwner.None?)
  }

  lemma UnheldStep(c: Config, s: State, e: Event, id: Id)
    requires Legal(c, s, e) && Shaped(s)
    requires Unheld(s, id) && !(e.ClaimUpdated? && id in e.taken)
    ensures Unheld(Apply(c, s, e), id)
  {
    Grows(c, s, e);
    OneMove(c, s, e, id);
  }

  lemma UnheldOnceRecorded(c: Config, s: State, e: Event, id: Id)
    requires Legal(c, s, e) && Recorded(s, e, id)
    ensures Unheld(Apply(c, s, e), id)
  {
    OnlyTheOwnerRecords(c, s, e, id);
  }

  lemma StaysUnheld(c: Config, es: seq<Event>, i: nat, j: nat, id: Id)
    requires LegalRun(c, es) && i <= j <= |es| && Unheld(After(c, es[..i]), id)
    requires forall k :: i <= k < j ==> !(es[k].ClaimUpdated? && id in es[k].taken)
    ensures Unheld(After(c, es[..j]), id)
  {
    var P := s => Unheld(s, id);
    forall k | i <= k < j && P(After(c, es[..k]))
      ensures P(After(c, es[..k + 1]))
    {
      PrefixOfRun(c, es, k);
      ReachableShape(c, es[..k]);
      UnheldStep(c, After(c, es[..k]), es[k], id);
    }
    Persists(c, es, i, j, P);
  }

  /** Between two recorded outcomes of one message there is always a claim of it. */
  lemma ClaimBetweenOutcomes(c: Config, es: seq<Event>, i: nat, j: nat, id: Id)
    requires LegalRun(c, es) && i < j < |es|
    requires Recorded(After(c, es[..i]), es[i], id) && Recorded(After(c, es[..j]), es[j], id)
    ensures exists k :: i < k < j && es[k].ClaimUpdated? && id in es[k].taken
  {
    if forall k :: i < k < j ==> !(es[k].ClaimUpdated? && id in es[k].taken) {
      PrefixOfRun(c, es, i);
      UnheldOnceRecorded(c, After(c, es[..i]), es[i], id);
      StaysUnheld(c, es, i + 1, j, id);
    }
  }
}
