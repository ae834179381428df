/**
 * The queue as a transition system: any number of replicas, operators and housekeeping share
 * one table. Every SQL statement is one atomic step, and steps interleave arbitrarily. A claim
 * is two steps, its UPDATE and its read-back. An instant a step carries was read from the shared
 * clock at or before the step.
 */
module Protocol {
  import opened Common
  import opened Messages
  import opened Worker
  import Backoff

  datatype Config = Config(backoff: Backoff.Schedule, workers: nat)

  /** A claim whose read-back has not run yet. */
  datatype Pending = Pending(until: Time, taken: set<Id>)

  /** A lease some step has granted. */
  datatype Grant = Grant(owner: Owner, until: Time)

  datatype State = State(
    rows: Table,
    clock: Time,
    flights: map<nat, Delivery>,     // deliveries in flight, by serial number
    pending: map<Owner, Pending>,
    granted: set<Grant>,
    used: set<Id>,                   // identifiers ever enqueued; a fresh one is never among them
    next: nat)

  datatype Event =
    | Tick(to: Time)
    | Enqueued(id: Id, draft: Draft, now: Time)
    | ClaimUpdated(owner: Owner, limit: nat, until: Time, now: Time, locked: set<Id>, taken: set<Id>)
    | ClaimRead(owner: Owner, out: seq<Id>)
    | ClaimLost(owner: Owner)
    | Extended(serial: nat, until: Time, now: Time)
    | Finished(serial: nat, result: SendResult, at: Time, now: Time)
    | Stopped(serial: nat)
    | Crashed(owner: Owner)
    | Requeued(id: Id, now: Time)
    | HeldBack(id: Id, now: Time)
    | Deleted(id: Id)
    | Released(now: Time)
    | Purged(sentBefore: Time, failedBefore: Time)

  const INIT := State(map[], 0, map[], map[], {}, {}, 0)

  function FlightsOf(s: State, owner: Owner): set<nat> {
    set k | k in s.flights && s.flights[k].owner == owner
  }

  /** What both callers of enqueue submit: a new message, without a lease. */
  predicate NewMessage(m: Draft) {
    && m.attempts == 0 && m.leaseOwner.None? && m.leaseExpiresAt.None?
    && (m.status == None || m.status == Some(Queued))
  }

  ghost predicate Legal(c: Config, s: State, e: Event) {
    match e
    case Tick(to) => s.clock <= to
    case Enqueued(id, m, now) => id !in s.used && NewMessage(m) && now <= s.clock
    case ClaimUpdated(owner, limit, until, now, locked, taken) =>
      && owner.Worker? && owner !in s.pending && now <= s.clock
      && 0 < limit && limit + |FlightsOf(s, owner)| <= c.workers
      && Selection(s.rows, now, limit, locked, taken)
    case ClaimRead(owner, out) =>
      owner in s.pending && ReadBack(s.rows, owner, s.pending[owner].until, out)
    case ClaimLost(owner) => owner in s.pending
    case Extended(k, _, now) => k in s.flights && now <= s.clock
    case Finished(k, _, at, now) => k in s.flights && at <= s.clock && now <= s.clock
    case Stopped(k) => k in s.flights
    case Crashed(_) => true
    case Requeued(_, now) => now <= s.clock
    case HeldBack(_, now) => now <= s.clock
    case Deleted(_) => true
    case Released(now) => now <= s.clock
    case Purged(_, _) => true
  }

  function NextRows(c: Config, s: State, e: Event): Table {
    match e
    case Enqueued(id, m, now) => s.rows[id := NewRow(m, now)]
    case ClaimUpdated(owner, _, until, now, _, taken) => Claim(s.rows, taken, owner, until, now)
    case Extended(k, until, now) =>
      if k in s.flights then ExtendLease(s.rows, s.flights[k].id, s.flights[k].owner, until, now) else s.rows
    case Finished(k, result, at, now) =>
      if k in s.flights then Record(s.rows, s.flights[k], Decide(c.backoff, s.flights[k], result, at), now) else s.rows
    case Requeued(id, now) => Requeue(s.rows, id, now)
    case HeldBack(id, now) => Hold(s.rows, id, now)
    case Deleted(id) => Delete(s.rows, id)
    case Released(now) => ReleaseExpired(s.rows, now)
    case Purged(sentBefore, failedBefore) => Purge(s.rows, sentBefore, failedBefore)
    case _ => s.rows
  }

  /** Serial `k` is one of those a read-back of `out` hands out. */
  predicate Numbered(s: State, out: seq<Id>, k: nat) {
    s.next <= k < s.next + |out| && out[k - s.next] in s.rows
  }

  /** The deliveries a read-back starts, numbered from the next serial. */
  function Started(s: State, owner: Owner, until: Time, out: seq<Id>): map<nat, Delivery> {
    map k: nat | s.next <= k < s.next + |out| && Numbered(s, out, k) ::
      var id := out[k - s.next];
      Delivery(owner, id, s.rows[id].attempts, s.rows[id].receivedAt, until)
  }

  function Apply(c: Config, s: State, e: Event): State {
    var t := s.(rows := NextRows(c, s, e));
    match e
    case Tick(to) => t.(clock := to)
    case Enqueued(id, _, _) => t.(used := s.used + {id})
    case ClaimUpdated(owner, _, until, _, _, taken) =>
      if taken == {} then t
      else t.(pending := s.pending[owner := Pending(until, taken)], granted := s.granted + {Grant(owner, until)})
    case ClaimRead(owner, out) =>
      if owner in s.pending
      then t.(flights := s.flights + Started(s, owner, s.pending[owner].until, out),
              pending := s.pending - {owner}, next := s.next + |out|)
      else t
    case ClaimLost(owner) => t.(pending := s.pending - {owner})
    case Extended(k, until, _) =>
      if k in s.flights && Holds(s.rows, s.flights[k].id, s.flights[k].owner)
      then t.(flights := s.flights[k := s.flights[k].(expiry := until)],
              granted := s.granted + {Grant(s.flights[k].owner, until)})
      else t
    case Finished(k, _, _, _) => t.(flights := s.flights - {k})
    case Stopped(k) => t.(flights := s.flights - {k})
    case Crashed(owner) =>
      t.(flights := map k | k in s.flights && s.flights[k].owner != owner :: s.flights[k],
         pending := s.pending - {owner})
    case _ => t
  }

  // ---- runs ----

  /** The state after a sequence of events. */
  function After(c: Config, es: seq<Event>): State {
    if |es| == 0 then INIT else Apply(c, After(c, es[..|es| - 1]), es[|es| - 1])
  }

  ghost predicate LegalRun(c: Config, es: seq<Event>) {
    forall i :: 0 <= i < |es| ==> Legal(c, After(c, es[..i]), es[i])
  }

  /** No worker is granted the same lease end twice, as when its claim instants strictly increase. */
  predicate Paced(s: State, e: Event) {
    && (e.ClaimUpdated? ==> Grant(e.owner, e.until) !in s.granted)
    && (e.Extended? && e.serial in s.flights ==> Grant(s.flights[e.serial].owner, e.until) !in s.granted)
  }

  ghost predicate PacedRun(c: Config, es: seq<Event>) {
    forall i :: 0 <= i < |es| ==> Paced(After(c, es[..i]), es[i])
  }

  /** Every delivery in flight is still within its lease. */
  ghost predicate Punctual(s: State) {
    forall k :: k in s.flights ==> s.clock <= s.flights[k].expiry
  }

  /** From claim to record, no delivery of the run outruns its lease. */
  ghost predicate PunctualRun(c: Config, es: seq<Event>) {
    forall i :: 0 <= i <= |es| ==> Punctual(After(c, es[..i]))
  }

  /** A run seen as its last event after a shorter run. */
  lemma Unsnoc(c: Config, es: seq<Event>)
    requires |es| > 0
    ensures var pre := es[..|es| - 1];
            && After(c, es) == Apply(c, After(c, pre), es[|es| - 1])
            && (LegalRun(c, es) ==> LegalRun(c, pre) && Legal(c, After(c, pre), es[|es| - 1]))
            && (PacedRun(c, es) ==> PacedRun(c, pre) && Paced(After(c, pre), es[|es| - 1]))
            && (PunctualRun(c, es) ==> PunctualRun(c, pre) && Punctual(After(c, pre)) && Punctual(After(c, es)))
  {
    var pre := es[..|es| - 1];
    assert forall i :: 0 <= i <= |pre| ==> pre[..i] == es[..i];
    assert es[..|es|] == es;
  }

  lemma PrefixOfRun(c: Config, es: seq<Event>, n: nat)
    requires n <= |es|
    ensures LegalRun(c, es) ==> LegalRun(c, es[..n])
    ensures PacedRun(c, es) ==> PacedRun(c, es[..n])
    ensures PunctualRun(c, es) ==> PunctualRun(c, es[..n])
    ensures n < |es| ==> After(c, es[..n + 1]) == Apply(c, After(c, es[..n]), es[n])
  {
    assert forall i :: 0 <= i <= n ==> es[..n][..i] == es[..i];
    if n < |es| {
      assert es[..n + 1][..n] == es[..n];
    }
  }

  /** What every step from `i` to `j` keeps, holds at `j` if it holds at `i`. */
  lemma {:induction false} Persists(c: Config, es: seq<Event>, i: nat, j: nat, P: State -> bool)
    requires i <= j <= |es| && P(After(c, es[..i]))
    requires forall k :: i <= k < j && P(After(c, es[..k])) ==> P(After(c, es[..k + 1]))
    ensures P(After(c, es[..j]))
    decreases j
  {
    if i < j {
      Persists(c, es, i, j - 1, P);
    }
  }
}
