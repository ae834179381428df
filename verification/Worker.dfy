/** The worker side of a delivery: what it remembers, and how it turns a result into an outcome. */
module Worker {
  import opened Common
  import opened Messages
  import Backoff
  import MessageStore

  /** What a worker remembers of a message it claimed: a snapshot, not the row. */
  datatype Delivery = Delivery(owner: Owner, id: Id, attempts: nat, receivedAt: Time, expiry: Time)

  /** How a transport ends; `draw` is the jitter drawn if a retry is scheduled. */
  datatype SendResult =
    | Delivered
    | Permanent(code: string, text: string)
    | Transient(code: string, text: string, retryAfter: Duration, draw: real)

  datatype Outcome = RecordSent | RecordFailed(f: Failure) | RecordDeferred(f: Failure, retryAt: Time)

  /** The outcome a result leads to; attempts are counted from the snapshot. */
  function Decide(b: Backoff.Schedule, d: Delivery, result: SendResult, at: Time): Outcome {
    match result
    case Delivered => RecordSent
    case Permanent(code, text) => RecordFailed(Failure(code, Upstream(text), true))
    case Transient(code, text, retryAfter, draw) =>
      match Backoff.NextAttemptAfter(b, at, d.attempts + 1, Some(d.receivedAt), retryAfter, draw)
      case None => RecordFailed(Failure(code, GaveUp(d.attempts + 1, text), true))
      case Some(retryAt) => RecordDeferred(Failure(code, Upstream(text), false), retryAt)
  }

  predicate Errored(r: Row, status: Status, code: string, reason: Reason, permanent: bool) {
    r.status == status && r.lastErrorCode == code && r.lastError == reason && r.lastErrorPermanent == permanent
  }

  /**
   * The row shows this result of its delivery: sent without an error; failed for good under the permanent error's
   * own code and text; or, for a temporary one, deferred to the later of what the schedule and the upstream say,
   * and given up for good when the schedule has no further attempt.
   */
  predicate Shows(b: Backoff.Schedule, d: Delivery, result: SendResult, at: Time, r: Row) {
    match result
    case Delivered => r.status == Sent && r.lastError == Blank && r.lastErrorCode == ""
    case Permanent(code, text) => Errored(r, Failed, code, Upstream(text), true)
    case Transient(code, text, retryAfter, draw) =>
      var next := Backoff.NextAttempt(b, at, d.attempts + 1, Some(d.receivedAt), draw);
      if next.None? then Errored(r, Failed, code, GaveUp(d.attempts + 1, text), true)
      else
        && Errored(r, Deferred, code, Upstream(text), false)
        && r.nextAttemptAt == if retryAfter > 0 then Max(next.value, at + retryAfter) else next.value
  }

  function Record(rows: Table, d: Delivery, o: Outcome, now: Time): Table {
    match o
    case RecordSent => MarkSent(rows, d.id, d.owner, now)
    case RecordFailed(f) => Fail(rows, d.id, d.owner, f, now)
    case RecordDeferred(f, retryAt) => Defer(rows, d.id, d.owner, f, retryAt, now)
  }

  class Runner {
    const workerId: Owner
    const backoff: Backoff.Schedule
    const repo: MessageStore.MessageRepo

    constructor (workerId: Owner, backoff: Backoff.Schedule, repo: MessageStore.MessageRepo)
      ensures this.workerId == workerId && this.backoff == backoff && this.repo == repo
    {
      this.workerId, this.backoff, this.repo := workerId, backoff, repo;
    }

    /** Decides whether to retry and writes the outcome. */
    method RecordFailure(d: Delivery, result: SendResult, at: Time, now: Time) returns (ok: bool)
      requires d.owner == workerId && !result.Delivered?
      modifies repo
      ensures repo.rows == Record(old(repo.rows), d, Decide(backoff, d, result, at), now)
      ensures ok <==> Holds(old(repo.rows), d.id, workerId)
      ensures ok ==> d.id in repo.rows && Shows(backoff, d, result, at, repo.rows[d.id])
    {
      var r;
      if result.Permanent? {
        r := repo.Fail(d.id, workerId, Failure(result.code, Upstream(result.text), true), now);
        return r.Ok?;
      }
      var attempts := d.attempts + 1;
      var retry := Backoff.NextAttemptAfter(backoff, at, attempts, Some(d.receivedAt), result.retryAfter, result.draw);
      if retry.None? {
        r := repo.Fail(d.id, workerId, Failure(result.code, GaveUp(attempts, result.text), true), now);
        return r.Ok?;
      }
      r := repo.Defer(d.id, workerId, Failure(result.code, Upstream(result.text), false), retry.value, now);
      return r.Ok?;
    }

    /** The end of a delivery: record what the transport answered. */
    method Finish(d: Delivery, result: SendResult, at: Time, now: Time) returns (ok: bool)
      requires d.owner == workerId
      modifies repo
      ensures repo.rows == Record(old(repo.rows), d, Decide(backoff, d, result, at), now)
      ensures ok <==> Holds(old(repo.rows), d.id, workerId)
      ensures ok ==> d.id in repo.rows && Shows(backoff, d, result, at, repo.rows[d.id])
    {
      if result.Delivered? {
        var r := repo.MarkSent(d.id, workerId, now);
        return r.Ok?;
      }
      ok := RecordFailure(d, result, at, now);
    }
  }
}
