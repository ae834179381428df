/** The protocol seen from one row: the moves a row can make, and when it may make them. */
module Moves {
  import opened Common
  import opened Messages
  import opened Worker
  import opened Protocol

  datatype Move =
    | Stay
    | Take(owner: Owner, until: Time, now: Time)
    | Prolong(owner: Owner, until: Time, now: Time)
    | Settle(owner: Owner, outcome: Outcome, now: Time)
    | Retry(now: Time)
    | Park(now: Time)
    | Free(now: Time)

  function Settled(r: Row, o: Outcome, now: Time): Row {
    var t := r.(attempts := r.attempts + 1, leaseOwner := None, leaseExpiresAt := None, updatedAt := now);
    match o
    case RecordSent => t.(status := Sent, sentAt := Some(now), lastError := Blank, lastErrorCode := "")
    case RecordFailed(f) =>
      t.(status := Failed, lastError := f.message, lastErrorCode := f.code, lastErrorPermanent := f.permanent)
    case RecordDeferred(f, retryAt) =>
      t.(status := Deferred, nextAttemptAt := retryAt,
         lastError := f.message, lastErrorCode := f.code, lastErrorPermanent := false)
  }

  function Moved(r: Row, m: Move): Row {
    match m
    case Stay => r
    case Take(owner, until, now) =>
      r.(status := Sending, leaseOwner := Some(owner), leaseExpiresAt := Some(until), updatedAt := now)
    case Prolong(_, until, now) => r.(leaseExpiresAt := Some(until), updatedAt := now)
    case Settle(_, o, now) => Settled(r, o, now)
    case Retry(now) =>
      r.(status := Queued, nextAttemptAt := now, updatedAt := now, leaseOwner := None, leaseExpiresAt := None)
    case Park(now) => r.(status := Held, updatedAt := now, leaseOwner := None, leaseExpiresAt := None)
    case Free(now) => r.(status := Queued, updatedAt := now, leaseOwner := None, leaseExpiresAt := None)
  }

  /** The delivery is of this message, and its worker is the row's lease owner. */
  predicate Owns(s: State, k: nat, id: Id) {
    k in s.flights && s.flights[k].id == id && id in s.rows && s.rows[id].leaseOwner == Some(s.flights[k].owner)
  }

  predicate Allowed(r: Row, m: Move, clock: Time) {
    match m
    case Stay => true
    case Take(owner, _, now) => Due(r, now) && now <= clock && owner.Worker?
    case Prolong(owner, _, _) => r.leaseOwner == Some(owner)
    case Settle(owner, _, _) => r.leaseOwner == Some(owner)
    case Retry(now) => r.status in {Failed, Deferred, Held} && now <= clock
    case Park(_) => r.status in {Queued, Deferred, Failed}
    case Free(now) => Abandoned(r, now) && now <= clock
  }

  /** The move an event makes on a row. */
  function MoveOf(c: Config, s: State, e: Event, id: Id): Move {
    match e
    case ClaimUpdated(owner, _, until, now, _, taken) => if id in taken then Take(owner, until, now) else Stay
    case Extended(k, until, now) =>
      if Owns(s, k, id)
      then Prolong(s.flights[k].owner, until, now) else Stay
    case Finished(k, result, at, now) =>
      if Owns(s, k, id)
      then Settle(s.flights[k].owner, Decide(c.backoff, s.flights[k], result, at), now) else Stay
    case Requeued(i, now) => if i == id && id in s.rows && s.rows[id].status in {Failed, Deferred, Held} then Retry(now) else Stay
    case HeldBack(i, now) => if i == id && id in s.rows && s.rows[id].status in {Queued, Deferred, Failed} then Park(now) else Stay
    case Released(now) => if id in s.rows && Abandoned(s.rows[id], now) then Free(now) else Stay
    case _ => Stay
  }

  /** Why a row may disappear. */
  predicate Removed(r: Row, e: Event, id: Id) {
    || (e.Deleted? && e.id == id && r.status != Sending)
    || (e.Purged? && r.status == Sent && r.updatedAt < e.sentBefore)
    || (e.Purged? && r.status == Failed && r.updatedAt < e.failedBefore)
  }

  /**
   * Every step either leaves a row in place and makes one allowed move on it, or removes it for
   * one of the listed reasons; and a row appears only by being enqueued.
   */
  lemma OneMove(c: Config, s: State, e: Event, id: Id)
    requires Legal(c, s, e)
    ensures var rows := Apply(c, s, e).rows;
            && (id in s.rows && id in rows && !(e.Enqueued? && e.id == id) ==>
                  && rows[id] == Moved(s.rows[id], MoveOf(c, s, e, id))
                  && Allowed(s.rows[id], MoveOf(c, s, e, id), s.clock))
            && (id in s.rows ==> (id !in rows <==> Removed(s.rows[id], e, id)))
            && (id !in s.rows && id in rows ==> e.Enqueued? && e.id == id && AsSubmitted(rows[id], e.draft, e.now))
  {
    if e.ClaimUpdated? {
      if id in e.taken {
        assert id in Candidates(s.rows, e.now);
      }
    } else if e.Finished? {
      if id in s.rows {
        FinishedMove(c, s, e, id);
      }
    }
  }

  lemma FinishedMove(c: Config, s: State, e: Event, id: Id)
    requires Legal(c, s, e) && e.Finished? && id in s.rows
    ensures id in NextRows(c, s, e)
    ensures NextRows(c, s, e)[id] == Moved(s.rows[id], MoveOf(c, s, e, id))
  {
    match Decide(c.backoff, s.flights[e.serial], e.result, e.at)
    case RecordSent =>
    case RecordFailed(_) =>
    case RecordDeferred(_, _) =>
  }
}
