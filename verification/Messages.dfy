/** The messages table and the statements that change it, each a function from table to table. */
module Messages {
  import opened Common

  /** A message identifier; only its identity matters. */
  type Id = nat
  /** A worker identity; the empty one may not claim. */
  datatype Owner = Anonymous | Worker(name: nat)

  datatype Status = Queued | Sending | Sent | Deferred | Failed | Held

  /** The human-readable error of a row. */
  datatype Reason = Blank | Upstream(text: string) | GaveUp(attempts: int, text: string)

  datatype Row = Row(
    status: Status,
    attempts: nat,
    nextAttemptAt: Time,
    leaseOwner: Option<Owner>,
    leaseExpiresAt: Option<Time>,
    lastError: Reason,
    lastErrorCode: string,
    lastErrorPermanent: bool,
    receivedAt: Time,
    sentAt: Option<Time>,
    updatedAt: Time)

  type Table = map<Id, Row>

  /** What a caller hands to enqueue; absent values get their defaults. */
  datatype Draft = Draft(
    status: Option<Status>,
    attempts: nat,
    nextAttemptAt: Option<Time>,
    receivedAt: Option<Time>,
    leaseOwner: Option<Owner>,
    leaseExpiresAt: Option<Time>)

  datatype Failure = Failure(code: string, message: Reason, permanent: bool)

  datatype Error = NotFound | StateConflict | AlreadyExists | NoIdentity

  datatype Result<+T> = Ok(value: T) | Err(error: Error)

  function Default<T>(o: Option<T>, d: T): T {
    if o.Some? then o.value else d
  }

  function NewRow(m: Draft, now: Time): Row {
    Row(Default(m.status, Queued), m.attempts, Default(m.nextAttemptAt, now), m.leaseOwner,
        m.leaseExpiresAt, Blank, "", false, Default(m.receivedAt, now), None, now)
  }

  /** The row has what the draft says and the defaults for the rest: queued, due and accepted now, nothing gone wrong yet. */
  predicate AsSubmitted(r: Row, m: Draft, now: Time) {
    && (if m.status.Some? then r.status == m.status.value else r.status == Queued)
    && (if m.nextAttemptAt.Some? then r.nextAttemptAt == m.nextAttemptAt.value else r.nextAttemptAt == now)
    && (if m.receivedAt.Some? then r.receivedAt == m.receivedAt.value else r.receivedAt == now)
    && r.attempts == m.attempts && r.leaseOwner == m.leaseOwner && r.leaseExpiresAt == m.leaseExpiresAt
    && r.lastError == Blank && r.lastErrorCode == "" && !r.lastErrorPermanent && r.sentAt.None? && r.updatedAt == now
  }

  /** Eligible for a claim at an instant. */
  predicate Due(r: Row, now: Time) {
    && ( || ((r.status == Queued || r.status == Deferred) && r.nextAttemptAt <= now)
         || (r.status == Sending && r.leaseExpiresAt.Some? && r.leaseExpiresAt.value < now))
    && (r.leaseOwner.None? || r.leaseExpiresAt.None? || r.leaseExpiresAt.value < now)
  }

  predicate Abandoned(r: Row, now: Time) {
    r.status == Sending && r.leaseExpiresAt.Some? && r.leaseExpiresAt.value < now
  }

  function Candidates(rows: Table, now: Time): set<Id> {
    set id | id in rows && Due(rows[id], now)
  }

  predicate Leased(r: Row, owner: Owner, until: Time) {
    r.leaseOwner == Some(owner) && r.leaseExpiresAt == Some(until) && r.status == Sending
  }

  function LeasedTo(rows: Table, owner: Owner, until: Time): set<Id> {
    set id | id in rows && Leased(rows[id], owner, until)
  }

  /** `taken` are `limit` of the eligible rows not locked elsewhere, earliest due first. */
  ghost predicate Selection(rows: Table, now: Time, limit: int, locked: set<Id>, taken: set<Id>) {
    var free := Candidates(rows, now) - locked;
    && taken <= free
    && |taken| <= limit
    && (|taken| < limit ==> taken == free)
    && (forall i, j :: i in taken && j in free - taken ==> rows[i].nextAttemptAt <= rows[j].nextAttemptAt)
  }

  function Elements<T(!new)>(xs: seq<T>): (s: set<T>)
    ensures forall x :: x in xs <==> x in s
  {
    set x | x in xs
  }

  ghost predicate Distinct<T(!new)>(xs: seq<T>) {
    forall i, j :: 0 <= i < j < |xs| ==> xs[i] != xs[j]
  }

  ghost predicate EarliestFirst(rows: Table, ids: seq<Id>)
    requires Elements(ids) <= rows.Keys
  {
    forall i, j :: 0 <= i < j < |ids| ==> rows[ids[i]].nextAttemptAt <= rows[ids[j]].nextAttemptAt
  }

  /** What the read-back query returns for an owner and a lease end. */
  ghost predicate ReadBack(rows: Table, owner: Owner, until: Time, out: seq<Id>) {
    Elements(out) == LeasedTo(rows, owner, until) && Distinct(out) && EarliestFirst(rows, out)
  }

  // ---- statements ----

  function Claim(rows: Table, taken: set<Id>, owner: Owner, until: Time, now: Time): Table {
    map id | id in rows ::
      if id in taken
      then rows[id].(status := Sending, leaseOwner := Some(owner), leaseExpiresAt := Some(until), updatedAt := now)
      else rows[id]
  }

  /** The guard of every statement a lease holder runs. */
  predicate Holds(rows: Table, id: Id, owner: Owner) {
    id in rows && rows[id].leaseOwner == Some(owner)
  }

  function ExtendLease(rows: Table, id: Id, owner: Owner, until: Time, now: Time): Table {
    if Holds(rows, id, owner)
    then rows[id := rows[id].(leaseExpiresAt := Some(until), updatedAt := now)] else rows
  }

  function MarkSent(rows: Table, id: Id, owner: Owner, now: Time): Table {
    if Holds(rows, id, owner)
    then rows[id := rows[id].(status := Sent, sentAt := Some(now), updatedAt := now,
                              attempts := rows[id].attempts + 1, leaseOwner := None, leaseExpiresAt := None,
                              lastError := Blank, lastErrorCode := "")]
    else rows
  }

  function Defer(rows: Table, id: Id, owner: Owner, f: Failure, retryAt: Time, now: Time): Table {
    if Holds(rows, id, owner)
    then rows[id := rows[id].(status := Deferred, attempts := rows[id].attempts + 1, nextAttemptAt := retryAt,
                              lastError := f.message, lastErrorCode := f.code, lastErrorPermanent := false,
                              leaseOwner := None, leaseExpiresAt := None, updatedAt := now)]
    else rows
  }

  function Fail(rows: Table, id: Id, owner: Owner, f: Failure, now: Time): Table {
    if Holds(rows, id, owner)
    then rows[id := rows[id].(status := Failed, attempts := rows[id].attempts + 1,
                              lastError := f.message, lastErrorCode := f.code, lastErrorPermanent := f.permanent,
                              leaseOwner := None, leaseExpiresAt := None, updatedAt := now)]
    else rows
  }

  predicate Requeueable(rows: Table, id: Id) {
    id in rows && rows[id].status in {Failed, Deferred, Held}
  }

  function Requeue(rows: Table, id: Id, now: Time): Table {
    if Requeueable(rows, id)
    then rows[id := rows[id].(status := Queued, nextAttemptAt := now, updatedAt := now,
                              leaseOwner := None, leaseExpiresAt := None)]
    else rows
  }

  predicate Holdable(rows: Table, id: Id) {
    id in rows && rows[id].status in {Queued, Deferred, Failed}
  }

  function Hold(rows: Table, id: Id, now: Time): Table {
    if Holdable(rows, id)
    then rows[id := rows[id].(status := Held, updatedAt := now, leaseOwner := None, leaseExpiresAt := None)]
    else rows
  }

  predicate Deletable(rows: Table, id: Id) {
    id in rows && rows[id].status != Sending
  }

  function Delete(rows: Table, id: Id): Table {
    if Deletable(rows, id) then rows - {id} else rows
  }

  function Release(r: Row, now: Time): Row {
    r.(status := Queued, leaseOwner := None, leaseExpiresAt := None, updatedAt := now)
  }

  function ReleaseExpired(rows: Table, now: Time): Table {
    map id | id in rows :: if Abandoned(rows[id], now) then Release(rows[id], now) else rows[id]
  }

  predicate Purgeable(r: Row, sentBefore: Time, failedBefore: Time) {
    || (r.status == Sent && r.updatedAt < sentBefore)
    || (r.status == Failed && r.updatedAt < failedBefore)
  }

  function Purge(rows: Table, sentBefore: Time, failedBefore: Time): Table {
    map id | id in rows && !Purgeable(rows[id], sentBefore, failedBefore) :: rows[id]
  }

  /** The error of an operator action that changed nothing. */
  function ActionError(rows: Table, id: Id): Error {
    if id in rows then StateConflict else NotFound
  }
}
