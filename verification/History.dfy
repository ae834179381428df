/** What the columns of a row say of the run behind it: which result it records, when it was accepted, when it is due. */
module History {
  import opened Common
  import opened Messages
  import opened Worker
  import opened Protocol
  import opened Moves
  import opened RowLaws
  import Backoff

  // ---- one result ----

  /** One more attempt, no lease, and accepted when it was. */
  predicate Attempted(r: Row, t: Row, now: Time) {
    && t.attempts == r.attempts + 1 && t.leaseOwner.None? && t.leaseExpiresAt.None?
    && t.updatedAt == now && t.receivedAt == r.receivedAt
  }

  /** A delivered message is sent, without an error left and as of now. */
  lemma DeliveredIsSent(c: Config, s: State, e: Event, id: Id)
    requires Legal(c, s, e) && Recorded(s, e, id)
    ensures id in Apply(c, s, e).rows
    ensures var r, t := s.rows[id], Apply(c, s, e).rows[id];
            && Attempted(r, t, e.now)
            && (t.status == Sent <==> e.result.Delivered?)
            && (t.status == Sent ==> t.sentAt == Some(e.now) && t.lastError == Blank && t.lastErrorCode == "")
            && (t.status != Sent ==> t.sentAt == r.sentAt)
            && (t.status != Deferred ==> t.nextAttemptAt == r.nextAttemptAt)
  {
    FinishedMove(c, s, e, id);
    match Decide(c.backoff, s.flights[e.serial], e.result, e.at)
    case RecordSent =>
    case RecordFailed(_) =>
    case RecordDeferred(_, _) =>
  }

  /** Whatever the transport answered, the row shows it. */
  lemma ResultIsShown(c: Config, s: State, e: Event, id: Id)
    requires Legal(c, s, e) && Recorded(s, e, id)
    ensures id in Apply(c, s, e).rows
    ensures Shows(c.backoff, s.flights[e.serial], e.result, e.at, Apply(c, s, e).rows[id])
  {
    FinishedMove(c, s, e, id);
    match Decide(c.backoff, s.flights[e.serial], e.result, e.at)
    case RecordSent =>
    case RecordFailed(_) =>
    case RecordDeferred(_, _) =>
  }

  /** A deferred message waits: past the instant of the result, and at least as long as the upstream asked. */
  lemma DeferredWaits(c: Config, s: State, e: Event, id: Id)
    requires Legal(c, s, e) && Recorded(s, e, id) && Backoff.PositiveDelays(c.backoff)
    requires e.result.Transient? ==> 0.0 <= e.result.draw < 1.0
    ensures id in Apply(c, s, e).rows
    ensures var t := Apply(c, s, e).rows[id];
            t.status == Deferred ==> e.result.Transient? && t.nextAttemptAt > e.at && t.nextAttemptAt >= e.at + e.result.retryAfter
  {
    ResultIsShown(c, s, e, id);
    var d := s.flights[e.serial];
    if e.result.Transient? {
      Backoff.NextAttemptBounds(c.backoff, e.at, d.attempts + 1, Some(d.receivedAt), e.result.draw);
    }
  }

  // ---- sent exactly when delivered ----

  /** The `k`-th event records that the message was delivered. */
  ghost predicate DeliveredAt(c: Config, es: seq<Event>, k: nat, id: Id) {
    k < |es| && Recorded(After(c, es[..k]), es[k], id) && es[k].result.Delivered?
  }

  lemma DeliveredEarlier(c: Config, es: seq<Event>, k: nat, id: Id)
    requires |es| > 0 && DeliveredAt(c, es[..|es| - 1], k, id)
    ensures DeliveredAt(c, es, k, id) && es[k] == es[..|es| - 1][k]
  {
    assert es[..|es| - 1][..k] == es[..k];
  }

  /** A row becomes sent only by a delivery of its message being recorded. */
  lemma BecomesSent(c: Config, s: State, e: Event, id: Id)
    requires Legal(c, s, e) && Shaped(s) && id in Apply(c, s, e).rows && Apply(c, s, e).rows[id].status == Sent
    ensures id in s.rows
    ensures if s.rows[id].status == Sent then Apply(c, s, e).rows[id] == s.rows[id]
            else Recorded(s, e, id) && e.result.Delivered? && Apply(c, s, e).rows[id].sentAt == Some(e.now)
  {
    OneMove(c, s, e, id);
    if s.rows[id].status == Sent {
      SentStep(c, s, e, id, s.rows[id]);
    } else if Recorded(s, e, id) {
      DeliveredIsSent(c, s, e, id);
    }
  }

  /** The delivery behind a sent row. */
  lemma {:induction false} SentBy(c: Config, es: seq<Event>, id: Id) returns (k: nat)
    requires LegalRun(c, es) && id in After(c, es).rows && After(c, es).rows[id].status == Sent
    ensures DeliveredAt(c, es, k, id) && After(c, es).rows[id].sentAt == Some(es[k].now)
  {
    k := 0;
    if |es| > 0 {
      var pre := es[..|es| - 1];
      var s, e := After(c, pre), es[|es| - 1];
      Unsnoc(c, es);
      ReachableShape(c, pre);
      BecomesSent(c, s, e, id);
      if s.rows[id].status == Sent {
        k := SentBy(c, pre, id);
        DeliveredEarlier(c, es, k, id);
      } else {
        k := |es| - 1;
      }
    }
  }

  lemma DeliveredStaysSent(c: Config, es: seq<Event>, k: nat, id: Id)
    requires LegalRun(c, es) && DeliveredAt(c, es, k, id) && id in After(c, es).rows
    ensures After(c, es).rows[id].status == Sent
  {
    PrefixOfRun(c, es, k);
    DeliveredIsSent(c, After(c, es[..k]), es[k], id);
    SentIsFinal(c, es, k + 1, |es|, id, After(c, es[..k + 1]).rows[id]);
    assert es[..|es|] == es;
  }

  /** In every run a message is marked sent exactly if some delivery of it was recorded as such, and as of then. */
  lemma {:induction false} SentExactly(c: Config, es: seq<Event>, id: Id)
    requires LegalRun(c, es) && id in After(c, es).rows
    ensures After(c, es).rows[id].status == Sent <==> exists k: nat :: DeliveredAt(c, es, k, id)
    ensures After(c, es).rows[id].status == Sent ==>
              exists k: nat :: DeliveredAt(c, es, k, id) && After(c, es).rows[id].sentAt == Some(es[k].now)
  {
    if After(c, es).rows[id].status == Sent {
      var k := SentBy(c, es, id);
    } else {
      forall k: nat
        ensures !DeliveredAt(c, es, k, id)
      {
        if DeliveredAt(c, es, k, id) {
          DeliveredStaysSent(c, es, k, id);
        }
      }
    }
  }

  // ---- accepted and due ----

  /** The event sets when the message is due: its enqueue, a requeue of a parked or deferred one, or a deferral. */
  function SetsDue(c: Config, s: State, e: Event, id: Id): Option<Time> {
    if e.Enqueued? && e.id == id then Some(if e.draft.nextAttemptAt.Some? then e.draft.nextAttemptAt.value else e.now)
    else if e.Requeued? && e.id == id && id in s.rows && s.rows[id].status in {Failed, Deferred, Held} then Some(e.now)
    else if Recorded(s, e, id) && e.result.Transient? then
      var d := s.flights[e.serial];
      Backoff.NextAttemptAfter(c.backoff, e.at, d.attempts + 1, Some(d.receivedAt), e.result.retryAfter, e.result.draw)
    else None
  }

  /** When the events say the message is due. */
  function DueSince(c: Config, es: seq<Event>, id: Id): Option<Time> {
    if |es| == 0 then None
    else
      var given := SetsDue(c, After(c, es[..|es| - 1]), es[|es| - 1], id);
      if given.Some? then given else DueSince(c, es[..|es| - 1], id)
  }

  /** When the events say it was accepted. */
  function AcceptedAt(es: seq<Event>, id: Id): Option<Time> {
    if |es| == 0 then None
    else
      var e := es[|es| - 1];
      if e.Enqueued? && e.id == id then Some(if e.draft.receivedAt.Some? then e.draft.receivedAt.value else e.now)
      else AcceptedAt(es[..|es| - 1], id)
  }

  lemma DueRecorded(c: Config, s: State, e: Event, id: Id)
    requires Legal(c, s, e) && Recorded(s, e, id)
    ensures id in Apply(c, s, e).rows
    ensures var r, t, given := s.rows[id], Apply(c, s, e).rows[id], SetsDue(c, s, e, id);
            t.receivedAt == r.receivedAt && t.nextAttemptAt == if given.Some? then given.value else r.nextAttemptAt
  {
    FinishedMove(c, s, e, id);
    match Decide(c.backoff, s.flights[e.serial], e.result, e.at)
    case RecordSent =>
    case RecordFailed(_) =>
    case RecordDeferred(_, _) =>
  }

  /** Only a requeue and an outcome move when a row is due, and nothing when it was accepted. */
  lemma MoveDue(r: Row, m: Move)
    requires !m.Settle?
    ensures Moved(r, m).receivedAt == r.receivedAt
    ensures Moved(r, m).nextAttemptAt == if m.Retry? then m.now else r.nextAttemptAt
  {
  }

  lemma DueStep(c: Config, s: State, e: Event, id: Id)
    requires Legal(c, s, e) && Shaped(s) && id in s.rows && id in Apply(c, s, e).rows
    ensures var r, t, given := s.rows[id], Apply(c, s, e).rows[id], SetsDue(c, s, e, id);
            && !(e.Enqueued? && e.id == id) && t.receivedAt == r.receivedAt
            && t.nextAttemptAt == if given.Some? then given.value else r.nextAttemptAt
  {
    if Recorded(s, e, id) {
      DueRecorded(c, s, e, id);
    } else {
      OneMove(c, s, e, id);
      MoveDue(s.rows[id], MoveOf(c, s, e, id));
    }
  }

  /**
   * In every run a row's acceptance time is that of its enqueue, and it is due when its enqueue, its last
   * requeue or its last deferral said: no claim, extension, hold or release moves either.
   */
  lemma {:induction false} DueAndAccepted(c: Config, es: seq<Event>, id: Id)
    requires LegalRun(c, es) && id in After(c, es).rows
    ensures DueSince(c, es, id) == Some(After(c, es).rows[id].nextAttemptAt)
    ensures AcceptedAt(es, id) == Some(After(c, es).rows[id].receivedAt)
  {
    if |es| > 0 {
      var pre, e := es[..|es| - 1], es[|es| - 1];
      Unsnoc(c, es);
      ReachableShape(c, pre);
      if id in After(c, pre).rows {
        DueStep(c, After(c, pre), e, id);
        DueAndAccepted(c, pre, id);
      } else {
        OneMove(c, After(c, pre), e, id);
      }
    }
  }

  /** Housekeeping puts back exactly the rows being sent under a lease that has ended, and keeps the rest of them. */
  lemma ReleasedExactly(c: Config, s: State, e: Event, id: Id)
    requires Legal(c, s, e) && e.Released? && id in s.rows
    ensures id in Apply(c, s, e).rows
    ensures var r, t := s.rows[id], Apply(c, s, e).rows[id];
            if r.status == Sending && r.leaseExpiresAt.Some? && r.leaseExpiresAt.value < e.now
            then t == r.(status := Queued, leaseOwner := None, leaseExpiresAt := None, updatedAt := e.now)
            else t == r
  {
    OneMove(c, s, e, id);
  }
}
