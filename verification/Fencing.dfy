/**
 * What leases guarantee. Pacing alone (no worker is granted the same lease end twice) bounds the
 * deliveries of a worker and ties a read-back to its claim. With punctual deliveries as well, no
 * message is ever delivered twice at once and every snapshot agrees with its row.
 */
module Fencing {
  import opened Common
  import opened Messages
  import opened Worker
  import opened Protocol
  import opened Moves
  import opened RowLaws
  import MessageStore

  // ---- deliveries and claims, one at a time ----

  /** Where a delivery in flight comes from. */
  ghost predicate FlightOrigin(s: State, e: Event, k: nat, d: Delivery) {
    || (k in s.flights && s.flights[k] == d && !(e.Finished? && e.serial == k)
        && !(e.Extended? && e.serial == k && Holds(s.rows, d.id, d.owner)))
    || (e.Extended? && e.serial == k && k in s.flights && Holds(s.rows, d.id, d.owner)
        && d == s.flights[k].(expiry := e.until))
    || (e.ClaimRead? && e.owner in s.pending && Numbered(s, e.out, k)
        && var id := e.out[k - s.next];
           d == Delivery(e.owner, id, s.rows[id].attempts, s.rows[id].receivedAt, s.pending[e.owner].until))
  }

  lemma ReadFlight(c: Config, s: State, e: Event, k: nat)
    requires Legal(c, s, e) && e.ClaimRead? && k in Apply(c, s, e).flights
    ensures FlightOrigin(s, e, k, Apply(c, s, e).flights[k])
  {
    var started := Started(s, e.owner, s.pending[e.owner].until, e.out);
    if k in started {
      assert Numbered(s, e.out, k);
    }
  }

  lemma ExtendedFlight(c: Config, s: State, e: Event, k: nat)
    requires Legal(c, s, e) && e.Extended? && k in Apply(c, s, e).flights
    ensures FlightOrigin(s, e, k, Apply(c, s, e).flights[k])
  {
  }

  lemma OneFlight(c: Config, s: State, e: Event, k: nat)
    requires Legal(c, s, e) && k in Apply(c, s, e).flights
    ensures FlightOrigin(s, e, k, Apply(c, s, e).flights[k])
  {
    if e.ClaimRead? {
      ReadFlight(c, s, e, k);
    } else if e.Extended? {
      ExtendedFlight(c, s, e, k);
    } else {
      assert k in s.flights && s.flights[k] == Apply(c, s, e).flights[k];
    }
  }

  /** Where a pending claim comes from. */
  predicate ClaimOrigin(s: State, e: Event, o: Owner, p: Pending) {
    || (o in s.pending && s.pending[o] == p && !(e.ClaimRead? && e.owner == o))
    || (e.ClaimUpdated? && e.owner == o && o !in s.pending && p == Pending(e.until, e.taken))
  }

  lemma OneClaim(c: Config, s: State, e: Event, o: Owner)
    requires Legal(c, s, e) && o in Apply(c, s, e).pending
    ensures ClaimOrigin(s, e, o, Apply(c, s, e).pending[o])
  {
  }

  lemma GrantsGrow(c: Config, s: State, e: Event)
    ensures s.granted <= Apply(c, s, e).granted
    ensures e.ClaimUpdated? && e.taken != {} ==> Grant(e.owner, e.until) in Apply(c, s, e).granted
    ensures e.Extended? && e.serial in s.flights && Holds(s.rows, s.flights[e.serial].id, s.flights[e.serial].owner)
            ==> Grant(s.flights[e.serial].owner, e.until) in Apply(c, s, e).granted
    ensures s.next <= Apply(c, s, e).next
    ensures e.ClaimRead? && e.owner in s.pending ==> Apply(c, s, e).next == s.next + |e.out|
  {
  }

  // ---- what pacing keeps ----

  /** Every lease in the table was granted by some step. */
  ghost predicate LeasesGranted(s: State) {
    forall id :: id in s.rows && s.rows[id].leaseOwner.Some? && s.rows[id].leaseExpiresAt.Some? ==>
      Grant(s.rows[id].leaseOwner.value, s.rows[id].leaseExpiresAt.value) in s.granted
  }

  ghost predicate FlightsGranted(s: State) {
    forall k :: k in s.flights ==> k < s.next && Grant(s.flights[k].owner, s.flights[k].expiry) in s.granted
  }

  ghost predicate ClaimsGranted(s: State) {
    forall o :: o in s.pending ==> Grant(o, s.pending[o].until) in s.granted
  }

  /** Only the rows a pending claim took are leased to it. */
  ghost predicate ClaimsExact(s: State) {
    forall o, id :: o in s.pending && id in s.rows && Leased(s.rows[id], o, s.pending[o].until) ==>
      id in s.pending[o].taken
  }

  /** No delivery in flight holds the lease of a claim that has not been read back. */
  ghost predicate ClaimsUnread(s: State) {
    forall k, o :: k in s.flights && o in s.pending ==>
      Grant(s.flights[k].owner, s.flights[k].expiry) != Grant(o, s.pending[o].until)
  }

  ghost predicate Granted(s: State) {
    Shaped(s) && LeasesGranted(s) && FlightsGranted(s) && ClaimsGranted(s) && ClaimsExact(s) && ClaimsUnread(s)
  }

  /** A row's lease after a step: still its old one, or newly granted by this step. */
  lemma LeaseStep(c: Config, s: State, e: Event, id: Id)
    requires Legal(c, s, e) && Shaped(s) && id in Apply(c, s, e).rows
    ensures var r := Apply(c, s, e).rows[id];
            r.leaseOwner.Some? && r.leaseExpiresAt.Some? ==>
              || (id in s.rows && r.leaseOwner == s.rows[id].leaseOwner && r.leaseExpiresAt == s.rows[id].leaseExpiresAt
                  && r.status == s.rows[id].status)
              || (e.ClaimUpdated? && id in e.taken && r.leaseOwner == Some(e.owner) && r.leaseExpiresAt == Some(e.until))
              || (e.Extended? && e.serial in s.flights && Holds(s.rows, s.flights[e.serial].id, s.flights[e.serial].owner)
                  && r.leaseOwner == Some(s.flights[e.serial].owner) && r.leaseExpiresAt == Some(e.until))
  {
    OneMove(c, s, e, id);
  }

  lemma LeasesGrantedStep(c: Config, s: State, e: Event)
    requires Legal(c, s, e) && Shaped(s) && LeasesGranted(s)
    ensures LeasesGranted(Apply(c, s, e))
  {
    var t := Apply(c, s, e);
    GrantsGrow(c, s, e);
    forall id | id in t.rows && t.rows[id].leaseOwner.Some? && t.rows[id].leaseExpiresAt.Some?
      ensures Grant(t.rows[id].leaseOwner.value, t.rows[id].leaseExpiresAt.value) in t.granted
    {
      LeaseStep(c, s, e, id);
    }
  }

  lemma FlightsGrantedStep(c: Config, s: State, e: Event)
    requires Legal(c, s, e) && FlightsGranted(s) && ClaimsGranted(s)
    ensures FlightsGranted(Apply(c, s, e))
  {
    var t := Apply(c, s, e);
    GrantsGrow(c, s, e);
    forall k | k in t.flights
      ensures k < t.next && Grant(t.flights[k].owner, t.flights[k].expiry) in t.granted
    {
      OneFlight(c, s, e, k);
    }
  }

  lemma ClaimsGrantedStep(c: Config, s: State, e: Event)
    requires Legal(c, s, e) && ClaimsGranted(s)
    ensures ClaimsGranted(Apply(c, s, e))
  {
    var t := Apply(c, s, e);
    GrantsGrow(c, s, e);
    forall o | o in t.pending
      ensures Grant(o, t.pending[o].until) in t.granted
    {
      OneClaim(c, s, e, o);
    }
  }

  lemma ClaimsExactStep(c: Config, s: State, e: Event)
    requires Legal(c, s, e) && Paced(s, e) && Granted(s)
    ensures ClaimsExact(Apply(c, s, e))
  {
    var t := Apply(c, s, e);
    forall o, id | o in t.pending && id in t.rows && Leased(t.rows[id], o, t.pending[o].until)
      ensures id in t.pending[o].taken
    {
      OneClaim(c, s, e, o);
      LeaseStep(c, s, e, id);
    }
  }

  lemma ClaimsUnreadStep(c: Config, s: State, e: Event)
    requires Legal(c, s, e) && Paced(s, e) && Granted(s)
    ensures ClaimsUnread(Apply(c, s, e))
  {
    var t := Apply(c, s, e);
    forall k, o | k in t.flights && o in t.pending
      ensures Grant(t.flights[k].owner, t.flights[k].expiry) != Grant(o, t.pending[o].until)
    {
      OneFlight(c, s, e, k);
      OneClaim(c, s, e, o);
    }
  }

  lemma {:induction false} ReachableGrants(c: Config, es: seq<Event>)
    requires LegalRun(c, es) && PacedRun(c, es)
    ensures Granted(After(c, es))
  {
    if |es| > 0 {
      Unsnoc(c, es);
      var s, e := After(c, es[..|es| - 1]), es[|es| - 1];
      ReachableGrants(c, es[..|es| - 1]);
      ShapedStep(c, s, e);
      LeasesGrantedStep(c, s, e);
      FlightsGrantedStep(c, s, e);
      ClaimsGrantedStep(c, s, e);
      ClaimsExactStep(c, s, e);
      ClaimsUnreadStep(c, s, e);
    }
  }

  // ---- what a worker runs at most ----

  /** Deliveries in flight plus those a pending claim may still start. */
  function Load(s: State, o: Owner): nat {
    |FlightsOf(s, o)| + if o in s.pending then |s.pending[o].taken| else 0
  }

  /** Under pacing a read-back returns only rows its own UPDATE took, none twice. */
  lemma ReadBackIsClaimed(c: Config, s: State, e: Event)
    requires Granted(s) && Legal(c, s, e) && e.ClaimRead?
    ensures Elements(e.out) <= s.pending[e.owner].taken
    ensures |e.out| <= |s.pending[e.owner].taken|
  {
    assert Elements(e.out) == LeasedTo(s.rows, e.owner, s.pending[e.owner].until);
    MessageStore.DistinctSize(e.out);
    SubsetSize(Elements(e.out), s.pending[e.owner].taken);
  }

  /** A delivery a worker did not run before is one its read-back started. */
  lemma NewFlight(c: Config, s: State, e: Event, o: Owner, k: nat)
    requires Legal(c, s, e) && FlightsGranted(s) && k in FlightsOf(Apply(c, s, e), o) && k !in FlightsOf(s, o)
    ensures e.ClaimRead? && e.owner == o && s.next <= k < s.next + |e.out|
  {
    OneFlight(c, s, e, k);
  }

  lemma GrownBy(now: set<nat>, before: set<nat>, lo: nat, n: nat)
    requires forall k :: k in now - before ==> lo <= k < lo + n
    ensures |now| <= |before| + n
  {
    RangeSize(now - before, lo, n);
    SubsetSize(now, before + (now - before));
  }

  lemma FlightsStep(c: Config, s: State, e: Event, o: Owner)
    requires Legal(c, s, e) && FlightsGranted(s)
    ensures |FlightsOf(Apply(c, s, e), o)| <= |FlightsOf(s, o)| + if e.ClaimRead? && e.owner == o then |e.out| else 0
  {
    var now, before := FlightsOf(Apply(c, s, e), o), FlightsOf(s, o);
    var n := if e.ClaimRead? && e.owner == o then |e.out| else 0;
    forall k | k in now - before
      ensures s.next <= k < s.next + n
    {
      NewFlight(c, s, e, o, k);
    }
    GrownBy(now, before, s.next, n);
  }

  lemma LoadStep(c: Config, s: State, e: Event, o: Owner)
    requires Legal(c, s, e) && Granted(s) && Load(s, o) <= c.workers
    ensures Load(Apply(c, s, e), o) <= c.workers
  {
    var t := Apply(c, s, e);
    FlightsStep(c, s, e, o);
    if e.ClaimRead? && e.owner == o {
      ReadBackIsClaimed(c, s, e);
      assert o !in t.pending;
    } else if o in t.pending {
      OneClaim(c, s, e, o);
    }
  }

  lemma {:induction false} ReachableLoad(c: Config, es: seq<Event>, o: Owner)
    requires LegalRun(c, es) && PacedRun(c, es)
    ensures Load(After(c, es), o) <= c.workers
  {
    if |es| > 0 {
      Unsnoc(c, es);
      ReachableLoad(c, es[..|es| - 1], o);
      ReachableGrants(c, es[..|es| - 1]);
      LoadStep(c, After(c, es[..|es| - 1]), es[|es| - 1], o);
    } else {
      assert FlightsOf(INIT, o) == {};
    }
  }

  /**
   * No worker ever runs more deliveries than it has slots, and when it hands out what a claim
   * returned there is a free slot for every message: taking a slot never blocks.
   */
  lemma {:induction false} SlotsSuffice(c: Config, es: seq<Event>, o: Owner)
    requires LegalRun(c, es) && PacedRun(c, es)
    ensures |FlightsOf(After(c, es), o)| <= c.workers
    ensures forall out :: Legal(c, After(c, es), ClaimRead(o, out)) ==>
              |FlightsOf(After(c, es), o)| + |out| <= c.workers
  {
    ReachableLoad(c, es, o);
    ReachableGrants(c, es);
    forall out | Legal(c, After(c, es), ClaimRead(o, out))
      ensures |FlightsOf(After(c, es), o)| + |out| <= c.workers
    {
      ReadBackIsClaimed(c, After(c, es), ClaimRead(o, out));
    }
  }

  // ---- what punctual deliveries keep ----

  /** The row still is what the delivery was started for. */
  predicate Matches(s: State, d: Delivery) {
    && d.id in s.rows
    && Leased(s.rows[d.id], d.owner, d.expiry)
    && s.rows[d.id].attempts == d.attempts
    && s.rows[d.id].receivedAt == d.receivedAt
  }

  ghost predicate AllMatch(s: State) {
    forall k :: k in s.flights ==> Matches(s, s.flights[k])
  }

  /** No message is being delivered twice. */
  ghost predicate Exclusive(s: State) {
    forall j, k :: j in s.flights && k in s.flights && s.flights[j].id == s.flights[k].id ==> j == k
  }

  /** A pending claim holds all it took until its lease ends. */
  ghost predicate ClaimsHeld(s: State) {
    forall o, id :: o in s.pending && id in s.pending[o].taken ==> HeldFor(s, o, id)
  }

  predicate HeldFor(s: State, o: Owner, id: Id)
    requires o in s.pending
  {
    s.clock <= s.pending[o].until ==> id in s.rows && Leased(s.rows[id], o, s.pending[o].until)
  }

  ghost predicate Fenced(s: State) {
    Granted(s) && AllMatch(s) && Exclusive(s) && ClaimsHeld(s)
  }

  /** Within its lease a leased row moves only by its own owner's delivery. */
  lemma LeasedStep(c: Config, s: State, e: Event, id: Id, o: Owner, until: Time)
    requires Legal(c, s, e) && Shaped(s) && id in s.rows && Leased(s.rows[id], o, until) && s.clock <= until
    requires !((e.Finished? || e.Extended?) && s.flights[e.serial].id == id)
    ensures id in Apply(c, s, e).rows && Apply(c, s, e).rows[id] == s.rows[id]
  {
    OneMove(c, s, e, id);
  }

  lemma MatchStep(c: Config, s: State, e: Event, k: nat)
    requires Legal(c, s, e) && Fenced(s) && Punctual(s) && k in s.flights && k in Apply(c, s, e).flights
    ensures Matches(Apply(c, s, e), Apply(c, s, e).flights[k])
  {
    var d := s.flights[k];
    assert Matches(s, d);
    OneFlight(c, s, e, k);
    if e.Extended? && e.serial == k {
      OneMove(c, s, e, d.id);
    } else {
      LeasedStep(c, s, e, d.id, d.owner, d.expiry);
    }
  }

  lemma NewMatch(c: Config, s: State, e: Event, k: nat)
    requires Legal(c, s, e) && e.ClaimRead? && k !in s.flights && k in Apply(c, s, e).flights
    ensures Matches(Apply(c, s, e), Apply(c, s, e).flights[k])
  {
    OneFlight(c, s, e, k);
    assert Apply(c, s, e).flights[k].id in Elements(e.out);
  }

  lemma AllMatchStep(c: Config, s: State, e: Event)
    requires Legal(c, s, e) && Fenced(s) && Punctual(s)
    ensures AllMatch(Apply(c, s, e))
  {
    var t := Apply(c, s, e);
    forall k | k in t.flights
      ensures Matches(t, t.flights[k])
    {
      if k in s.flights {
        MatchStep(c, s, e, k);
      } else {
        FlightMessage(c, s, e, k);
        NewMatch(c, s, e, k);
      }
    }
  }

  /** A step keeps the message of a delivery; a new delivery is one a read-back started. */
  lemma FlightMessage(c: Config, s: State, e: Event, k: nat)
    requires Legal(c, s, e) && FlightsGranted(s) && k in Apply(c, s, e).flights
    ensures k in s.flights ==> Apply(c, s, e).flights[k].id == s.flights[k].id
    ensures k !in s.flights ==>
              e.ClaimRead? && Numbered(s, e.out, k) && Apply(c, s, e).flights[k].id == e.out[k - s.next]
  {
    OneFlight(c, s, e, k);
  }

  lemma ExclusiveStep(c: Config, s: State, e: Event)
    requires Legal(c, s, e) && Fenced(s)
    ensures Exclusive(Apply(c, s, e))
  {
    var fs := Apply(c, s, e).flights;
    forall j, k | j in fs && k in fs && fs[j].id == fs[k].id
      ensures j == k
    {
      FlightMessage(c, s, e, j);
      FlightMessage(c, s, e, k);
      if j in s.flights && k !in s.flights {
        FreshFlight(c, s, e, k, j);
      } else if j !in s.flights && k in s.flights {
        FreshFlight(c, s, e, j, k);
      }
    }
  }

  /** A delivery a read-back starts is for a message nobody is delivering. */
  lemma FreshFlight(c: Config, s: State, e: Event, j: nat, k: nat)
    requires Legal(c, s, e) && Fenced(s) && e.ClaimRead? && Numbered(s, e.out, j) && k in s.flights
    ensures s.flights[k].id != e.out[j - s.next]
  {
    assert e.out[j - s.next] in Elements(e.out);
    assert Matches(s, s.flights[k]);
  }

  /** A message of an unread claim is not in flight. */
  lemma ClaimNotInFlight(s: State, o: Owner, id: Id, k: nat)
    requires Fenced(s) && k in s.flights
    requires o in s.pending && s.clock <= s.pending[o].until && id in s.pending[o].taken
    ensures s.flights[k].id != id
  {
    assert HeldFor(s, o, id);
    assert Matches(s, s.flights[k]);
    assert Grant(s.flights[k].owner, s.flights[k].expiry) != Grant(o, s.pending[o].until);
  }

  lemma ClaimHeldStep(c: Config, s: State, e: Event, o: Owner, id: Id)
    requires Legal(c, s, e) && Fenced(s) && Punctual(s)
    requires o in s.pending && s.clock <= s.pending[o].until && id in s.pending[o].taken
    ensures var t := Apply(c, s, e); id in t.rows && Leased(t.rows[id], o, s.pending[o].until)
  {
    assert HeldFor(s, o, id);
    if e.Finished? || e.Extended? {
      ClaimNotInFlight(s, o, id, e.serial);
    }
    LeasedStep(c, s, e, id, o, s.pending[o].until);
  }

  lemma NewClaimHeld(c: Config, s: State, e: Event, id: Id)
    requires Legal(c, s, e) && e.ClaimUpdated? && id in e.taken
    ensures var t := Apply(c, s, e); id in t.rows && Leased(t.rows[id], e.owner, e.until)
  {
    assert id in Candidates(s.rows, e.now);
  }

  lemma HeldForStep(c: Config, s: State, e: Event, o: Owner, id: Id)
    requires Legal(c, s, e) && Fenced(s) && Punctual(s)
    requires o in Apply(c, s, e).pending && id in Apply(c, s, e).pending[o].taken
    ensures HeldFor(Apply(c, s, e), o, id)
  {
    Grows(c, s, e);
    OneClaim(c, s, e, o);
    if o in s.pending {
      if s.clock <= s.pending[o].until {
        ClaimHeldStep(c, s, e, o, id);
      }
    } else {
      NewClaimHeld(c, s, e, id);
    }
  }

  lemma ClaimsHeldStep(c: Config, s: State, e: Event)
    requires Legal(c, s, e) && Fenced(s) && Punctual(s)
    ensures ClaimsHeld(Apply(c, s, e))
  {
    var t := Apply(c, s, e);
    forall o, id | o in t.pending && id in t.pending[o].taken
      ensures HeldFor(t, o, id)
    {
      HeldForStep(c, s, e, o, id);
    }
  }

  lemma {:induction false} ReachableFence(c: Config, es: seq<Event>)
    requires LegalRun(c, es) && PacedRun(c, es) && PunctualRun(c, es)
    ensures Fenced(After(c, es))
  {
    ReachableGrants(c, es);
    if |es| > 0 {
      Unsnoc(c, es);
      var s, e := After(c, es[..|es| - 1]), es[|es| - 1];
      ReachableFence(c, es[..|es| - 1]);
      AllMatchStep(c, s, e);
      ExclusiveStep(c, s, e);
      ClaimsHeldStep(c, s, e);
    }
  }

  // ---- the main results ----

  /**
   * Over every interleaving of claims, outcomes, lease releases, crashes, operator actions and
   * purges by any number of workers: if no delivery outruns its lease from claim to record, no
   * message ever has two deliveries in flight.
   */
  lemma {:induction false} NoDoubleDelivery(c: Config, es: seq<Event>, j: nat, k: nat)
    requires LegalRun(c, es) && PacedRun(c, es) && PunctualRun(c, es)
    requires j in After(c, es).flights && k in After(c, es).flights && j != k
    ensures After(c, es).flights[j].id != After(c, es).flights[k].id
  {
    ReachableFence(c, es);
  }

  /** In such a run a worker's snapshot always agrees with the row, which it alone holds. */
  lemma {:induction false} SnapshotAgrees(c: Config, es: seq<Event>, k: nat)
    requires LegalRun(c, es) && PacedRun(c, es) && PunctualRun(c, es) && k in After(c, es).flights
    ensures Matches(After(c, es), After(c, es).flights[k])
  {
    ReachableFence(c, es);
  }

  lemma FencedReadBack(c: Config, s: State, o: Owner, out: seq<Id>)
    requires Fenced(s) && Legal(c, s, ClaimRead(o, out)) && s.clock <= s.pending[o].until
    ensures Elements(out) == s.pending[o].taken && |out| == |s.pending[o].taken|
  {
    forall id | id in s.pending[o].taken
      ensures id in LeasedTo(s.rows, o, s.pending[o].until)
    {
      assert HeldFor(s, o, id);
    }
    ReadBackIsClaimed(c, s, ClaimRead(o, out));
    MessageStore.DistinctSize(out);
  }

  /**
   * A read-back within its lease returns exactly the rows its UPDATE took, earliest due first,
   * at most as many as the worker has free slots.
   */
  lemma {:induction false} ReadBackIsExact(c: Config, es: seq<Event>, o: Owner, out: seq<Id>)
    requires LegalRun(c, es) && PacedRun(c, es) && PunctualRun(c, es)
    requires Legal(c, After(c, es), ClaimRead(o, out))
    requires After(c, es).clock <= After(c, es).pending[o].until
    ensures Elements(out) == After(c, es).pending[o].taken && |out| == |After(c, es).pending[o].taken|
    ensures EarliestFirst(After(c, es).rows, out)
    ensures |FlightsOf(After(c, es), o)| + |out| <= c.workers
  {
    ReachableFence(c, es);
    FencedReadBack(c, After(c, es), o, out);
    SlotsSuffice(c, es, o);
  }

  // ---- where pacing comes from ----

  /** No lease is extended, and a worker's claims are at ever later instants, for a fixed lease. */
  ghost predicate StrictClaims(es: seq<Event>, leaseFor: Duration) {
    && (forall i :: 0 <= i < |es| ==> !es[i].Extended?)
    && (forall i :: 0 <= i < |es| && es[i].ClaimUpdated? ==> es[i].until == es[i].now + leaseFor)
    && (forall i, j :: 0 <= i < j < |es| && es[i].ClaimUpdated? && es[j].ClaimUpdated? && es[i].owner == es[j].owner
          ==> es[i].now < es[j].now)
  }

  lemma {:induction false} GrantFromClaim(c: Config, es: seq<Event>, g: Grant)
    requires g in After(c, es).granted && forall i :: 0 <= i < |es| ==> !es[i].Extended?
    ensures exists i :: 0 <= i < |es| && es[i].ClaimUpdated? && Grant(es[i].owner, es[i].until) == g
  {
    if |es| > 0 {
      var pre, e := es[..|es| - 1], es[|es| - 1];
      if g in After(c, pre).granted {
        GrantFromClaim(c, pre, g);
        var i :| 0 <= i < |pre| && pre[i].ClaimUpdated? && Grant(pre[i].owner, pre[i].until) == g;
        assert es[i] == pre[i];
      } else {
        assert e.ClaimUpdated?;
      }
    }
  }

  /** Strictly increasing claim instants, as one dispatcher per worker produces them, are paced. */
  lemma StrictClaimsArePaced(c: Config, es: seq<Event>, leaseFor: Duration)
    requires StrictClaims(es, leaseFor)
    ensures PacedRun(c, es)
  {
    forall i | 0 <= i < |es|
      ensures Paced(After(c, es[..i]), es[i])
    {
      if es[i].ClaimUpdated? && Grant(es[i].owner, es[i].until) in After(c, es[..i]).granted {
        GrantFromClaim(c, es[..i], Grant(es[i].owner, es[i].until));
      }
    }
  }
}
