/** Both hypotheses of the fence are needed: where one fails, a double delivery can follow, and runs show it. */
module Necessity {
  import opened Common
  import opened Messages
  import opened Worker
  import opened Protocol
  import opened RowLaws
  import opened Fencing
  import Backoff

  /** One more legal step. */
  lemma {:induction false} Continue(c: Config, es: seq<Event>, e: Event)
    requires LegalRun(c, es) && Legal(c, After(c, es), e)
    ensures LegalRun(c, es + [e]) && After(c, es + [e]) == Apply(c, After(c, es), e)
  {
    var more := es + [e];
    assert forall i :: 0 <= i <= |es| ==> more[..i] == es[..i];
    assert more[..|es|] == es;
  }

  lemma {:induction false} ContinuePaced(c: Config, es: seq<Event>, e: Event)
    requires PacedRun(c, es) && Paced(After(c, es), e)
    ensures PacedRun(c, es + [e])
  {
    var more := es + [e];
    assert forall i :: 0 <= i <= |es| ==> more[..i] == es[..i];
    assert more[..|es|] == es;
  }

  lemma {:induction false} ContinuePunctual(c: Config, es: seq<Event>, e: Event)
    requires PunctualRun(c, es) && Punctual(After(c, es + [e]))
    ensures PunctualRun(c, es + [e])
  {
    var more := es + [e];
    forall i | 0 <= i <= |more|
      ensures Punctual(After(c, more[..i]))
    {
      assert i <= |es| ==> more[..i] == es[..i];
      assert i == |more| ==> more[..i] == more;
    }
  }

  // ---- deliveries that outrun their lease ----

  /** The claim by which worker `w` takes over message `id`, all other rows being locked. */
  function TakeOver(s: State, w: Owner, id: Id, until: Time): Event {
    ClaimUpdated(w, 1, until, s.clock, s.rows.Keys - {id}, {id})
  }

  /** A worker that may claim now. */
  predicate FreeWorker(c: Config, s: State, w: Owner) {
    w.Worker? && w !in s.pending && 1 + |FlightsOf(s, w)| <= c.workers
  }

  /** The message can be claimed now, whoever may still be delivering it. */
  predicate UpForClaim(s: State, id: Id) {
    id in s.rows && Due(s.rows[id], s.clock)
  }

  lemma TakeOverLegal(c: Config, s: State, id: Id, w: Owner, until: Time)
    requires UpForClaim(s, id) && FreeWorker(c, s, w)
    ensures Legal(c, s, TakeOver(s, w, id, until))
  {
    assert Candidates(s.rows, s.clock) - (s.rows.Keys - {id}) == {id};
  }

  lemma TakeOverRead(c: Config, s: State, id: Id, w: Owner, until: Time)
    requires LeasesGranted(s) && Grant(w, until) !in s.granted && id in s.rows
    ensures Legal(c, Apply(c, s, TakeOver(s, w, id, until)), ClaimRead(w, [id]))
  {
    var t := Apply(c, s, TakeOver(s, w, id, until));
    assert LeasedTo(t.rows, w, until) == {id};
  }

  /** A read-back starts a delivery of each message it returns and keeps those that run. */
  lemma ReadStarts(c: Config, s: State, owner: Owner, out: seq<Id>, i: nat, k: nat)
    requires owner in s.pending && i < |out| && out[i] in s.rows && k in s.flights && k < s.next
    ensures var fs := Apply(c, s, ClaimRead(owner, out)).flights;
            && s.next + i in fs && fs[s.next + i].id == out[i]
            && k in fs && fs[k] == s.flights[k]
  {
    assert Numbered(s, out, s.next + i);
  }

  /** A message in flight can be claimed by a free worker if and only if it is up for claim. */
  lemma TakenOverExactly(c: Config, s: State, id: Id, w: Owner)
    requires FreeWorker(c, s, w)
    ensures (exists e :: Legal(c, s, e) && e.ClaimUpdated? && e.owner == w && id in e.taken) <==> UpForClaim(s, id)
  {
    if UpForClaim(s, id) {
      TakeOverLegal(c, s, id, w, s.clock);
      assert id in TakeOver(s, w, id, s.clock).taken;
    }
    forall e | Legal(c, s, e) && e.ClaimUpdated? && id in e.taken
      ensures UpForClaim(s, id)
    {
      assert id in Candidates(s.rows, e.now);
    }
  }

  /**
   * From every reachable state in which the message of a running delivery is up for claim, two more legal
   * steps of a free worker deliver it a second time.
   */
  lemma {:induction false} ClaimableOverlaps(c: Config, es: seq<Event>, k: nat, w: Owner, until: Time)
    requires LegalRun(c, es) && PacedRun(c, es) && k in After(c, es).flights
    requires UpForClaim(After(c, es), After(c, es).flights[k].id)
    requires FreeWorker(c, After(c, es), w) && Grant(w, until) !in After(c, es).granted
    ensures var id := After(c, es).flights[k].id;
            var more := es + [TakeOver(After(c, es), w, id, until)] + [ClaimRead(w, [id])];
            LegalRun(c, more) && PacedRun(c, more) && !Exclusive(After(c, more))
  {
    var s := After(c, es);
    var id := s.flights[k].id;
    var claim := TakeOver(s, w, id, until);
    ReachableGrants(c, es);
    TakeOverLegal(c, s, id, w, until);
    TakeOverRead(c, s, id, w, until);
    Continue(c, es, claim);
    ContinuePaced(c, es, claim);
    var t := Apply(c, s, claim);
    assert t.flights == s.flights && t.next == s.next && w in t.pending && id in t.rows;
    ReadStarts(c, t, w, [id], 0, k);
    Continue(c, es + [claim], ClaimRead(w, [id]));
    ContinuePaced(c, es + [claim], ClaimRead(w, [id]));
  }

  /** A delivery whose lease has run out, on a row nobody touched since or that was released, is in that case. */
  lemma OutrunIsUpForClaim(c: Config, es: seq<Event>, k: nat)
    requires LegalRun(c, es) && k in After(c, es).flights
    requires var s, d := After(c, es), After(c, es).flights[k];
             && d.expiry < s.clock && d.id in s.rows
             && (Matches(s, d) || (s.rows[d.id].status == Queued && s.rows[d.id].nextAttemptAt <= s.clock))
    ensures UpForClaim(After(c, es), After(c, es).flights[k].id)
  {
    ReachableShape(c, es);
    assert Fits(After(c, es).rows[After(c, es).flights[k].id], After(c, es).clock);
  }

  /** The row of a delivery in flight is up for claim in no punctual run: punctuality is what rules it out. */
  lemma {:induction false} PunctualNotUpForClaim(c: Config, es: seq<Event>, k: nat)
    requires LegalRun(c, es) && PacedRun(c, es) && PunctualRun(c, es) && k in After(c, es).flights
    ensures !UpForClaim(After(c, es), After(c, es).flights[k].id)
  {
    ReachableFence(c, es);
    Unprefixed(c, es);
    assert Matches(After(c, es), After(c, es).flights[k]);
  }

  lemma Unprefixed(c: Config, es: seq<Event>)
    requires PunctualRun(c, es)
    ensures Punctual(After(c, es))
  {
    assert es[..|es|] == es;
  }

  // ---- lease ends granted twice ----

  /**
   * A worker that claims anything with the lease end of one of its running deliveries reads that delivery's
   * message back and starts it again, punctual or not.
   */
  lemma {:induction false} RepeatedLeaseEndOverlaps(c: Config, s: State, k: nat, e: Event, out: seq<Id>)
    requires FlightsGranted(s) && k in s.flights && Matches(s, s.flights[k])
    requires Legal(c, s, e) && e.ClaimUpdated? && e.taken != {}
    requires e.owner == s.flights[k].owner && e.until == s.flights[k].expiry
    requires Legal(c, Apply(c, s, e), ClaimRead(e.owner, out))
    ensures !Exclusive(Apply(c, Apply(c, s, e), ClaimRead(e.owner, out)))
  {
    var u := Apply(c, s, e);
    var id := s.flights[k].id;
    StillLeased(c, s, k, e);
    assert id in Elements(out);
    var i :| 0 <= i < |out| && out[i] == id;
    ReadStarts(c, u, e.owner, out, i, k);
  }

  /** A claim by the same worker with the same lease end leaves the delivery and its row as they were. */
  lemma StillLeased(c: Config, s: State, k: nat, e: Event)
    requires k in s.flights && Matches(s, s.flights[k]) && e.ClaimUpdated? && e.taken != {}
    requires e.owner == s.flights[k].owner && e.until == s.flights[k].expiry
    ensures var u := Apply(c, s, e);
            && s.flights[k].id in LeasedTo(u.rows, e.owner, e.until)
            && k in u.flights && u.flights[k] == s.flights[k] && u.next == s.next
            && e.owner in u.pending && u.pending[e.owner].until == e.until
  {
  }

  // ---- runs that show it ----

  const TWO_SLOTS := Config(Backoff.Schedule([], 0.0, 0, 0), 2)
  const NEW := Draft(None, 0, None, None, None, None)
  const W1 := Worker(1)
  const W2 := Worker(2)

  /** A legal and punctual run ends in `s`. */
  ghost predicate Reaches(es: seq<Event>, s: State) {
    LegalRun(TWO_SLOTS, es) && PunctualRun(TWO_SLOTS, es) && After(TWO_SLOTS, es) == s
  }

  lemma {:induction false} Then(es: seq<Event>, s: State, e: Event, t: State)
    requires Reaches(es, s) && Legal(TWO_SLOTS, s, e) && Apply(TWO_SLOTS, s, e) == t && Punctual(t)
    ensures Reaches(es + [e], t)
  {
    Continue(TWO_SLOTS, es, e);
    ContinuePunctual(TWO_SLOTS, es, e);
  }

  lemma {:induction false} Beginning()
    ensures Reaches([], INIT)
  {
    var none: seq<Event> := [];
    assert none[..0] == none;
  }

  function Waiting(): Row {
    NewRow(NEW, 0)
  }

  function SentBy(w: Owner): Row {
    Waiting().(status := Sending, leaseOwner := Some(w), leaseExpiresAt := Some(10))
  }

  function Flight(id: Id): Delivery {
    Delivery(W1, id, 0, 0, 10)
  }

  /** Messages 0 and 1 at clock 0, some being sent by worker 1 until 10. */
  function Queue(first: Row, second: Row, flights: map<nat, Delivery>, pending: map<Owner, Pending>, granted: set<Grant>): State {
    State(map[0 := first, 1 := second], 0, flights, pending, granted, {0, 1}, |flights|)
  }

  const E0 := Enqueued(0, NEW, 0)
  const E1 := Enqueued(1, NEW, 0)
  const C0 := ClaimUpdated(W1, 1, 10, 0, {}, {0})
  const R0 := ClaimRead(W1, [0])
  const C1 := ClaimUpdated(W1, 1, 10, 0, {}, {1})
  const R1 := ClaimRead(W1, [0, 1])

  const S2 := Queue(Waiting(), Waiting(), map[], map[], {})
  const S3 := Queue(SentBy(W1), Waiting(), map[], map[W1 := Pending(10, {0})], {Grant(W1, 10)})
  const S4 := Queue(SentBy(W1), Waiting(), map[0 := Flight(0)], map[], {Grant(W1, 10)})
  const S5 := Queue(SentBy(W1), SentBy(W1), map[0 := Flight(0)], map[W1 := Pending(10, {1})], {Grant(W1, 10)})

  lemma {:induction false} Enqueueing()
    ensures Reaches([E0] + [E1], S2)
  {
    var s1 := State(map[0 := Waiting()], 0, map[], map[], {}, {0}, 0);
    Beginning();
    Then([], INIT, E0, s1);
    assert [] + [E0] == [E0];
    Then([E0], s1, E1, S2);
  }

  lemma FirstClaim()
    ensures Legal(TWO_SLOTS, S2, C0) && Apply(TWO_SLOTS, S2, C0) == S3
  {
    assert Candidates(S2.rows, 0) == {0, 1};
    assert FlightsOf(S2, W1) == {};
    assert Claim(S2.rows, {0}, W1, 10, 0) == S3.rows;
  }

  lemma FirstRead()
    ensures Legal(TWO_SLOTS, S3, R0) && Apply(TWO_SLOTS, S3, R0) == S4
  {
    assert LeasedTo(S3.rows, W1, 10) == {0};
    assert Started(S3, W1, 10, [0]) == map[0 := Flight(0)] by {
      assert Numbered(S3, [0], 0);
    }
    assert S4.flights == S3.flights + map[0 := Flight(0)];
  }

  lemma SecondClaim()
    ensures Legal(TWO_SLOTS, S4, C1) && Apply(TWO_SLOTS, S4, C1) == S5
  {
    assert Candidates(S4.rows, 0) == {1};
    assert FlightsOf(S4, W1) == {0};
    assert Claim(S4.rows, {1}, W1, 10, 0) == S5.rows;
  }

  lemma SecondReadLegal()
    ensures Legal(TWO_SLOTS, S5, R1)
  {
    assert LeasedTo(S5.rows, W1, 10) == {0, 1};
    assert Elements([0, 1]) == {0, 1};
  }

  lemma SecondReadRuns()
    ensures Punctual(Apply(TWO_SLOTS, S5, R1))
  {
    var t := Apply(TWO_SLOTS, S5, R1);
    SecondReadLegal();
    forall k | k in t.flights
      ensures t.clock <= t.flights[k].expiry
    {
      OneFlight(TWO_SLOTS, S5, R1, k);
    }
  }

  lemma SecondReadOverlaps()
    ensures !Exclusive(Apply(TWO_SLOTS, S5, R1))
  {
    SecondClaim();
    SecondReadLegal();
    RepeatedLeaseEndOverlaps(TWO_SLOTS, S4, 0, C1, [0, 1]);
  }

  /** Message 0 is enqueued with another, claimed by worker 1 until 10, and read back. */
  function OneDelivery(): seq<Event> {
    [E0] + [E1] + [C0] + [R0]
  }

  lemma {:induction false} FirstDelivery()
    ensures Reaches(OneDelivery(), S4)
  {
    Enqueueing();
    FirstClaim();
    Then([E0] + [E1], S2, C0, S3);
    FirstRead();
    Then([E0] + [E1] + [C0], S3, R0, S4);
  }

  /** A legal and punctual run in which one worker is granted a lease end twice, and delivers a message twice. */
  lemma {:induction false} PacingIsNeeded()
    ensures var es := OneDelivery() + [C1] + [R1];
            LegalRun(TWO_SLOTS, es) && PunctualRun(TWO_SLOTS, es) && !Exclusive(After(TWO_SLOTS, es))
  {
    FirstDelivery();
    SecondClaim();
    Then(OneDelivery(), S4, C1, S5);
    SecondReadLegal();
    SecondReadRuns();
    SecondReadOverlaps();
    Then(OneDelivery() + [C1], S5, R1, Apply(TWO_SLOTS, S5, R1));
  }

  /** Worker 1's lease has run out while it still delivers. */
  const LATE := S4.(clock := 11)

  lemma {:induction false} OneClaimIsPaced(es: seq<Event>)
    requires es == [E0, E1, C0, R0, Tick(11)]
    ensures PacedRun(TWO_SLOTS, es)
  {
    StrictClaimsArePaced(TWO_SLOTS, es, 10);
  }

  lemma Late()
    ensures Legal(TWO_SLOTS, S4, Tick(11)) && Apply(TWO_SLOTS, S4, Tick(11)) == LATE
  {
  }

  lemma LateRun()
    ensures OneDelivery() + [Tick(11)] == [E0, E1, C0, R0, Tick(11)]
  {
  }

  lemma {:induction false} RunLate(es: seq<Event>)
    requires Reaches(es, S4)
    ensures LegalRun(TWO_SLOTS, es + [Tick(11)]) && After(TWO_SLOTS, es + [Tick(11)]) == LATE
  {
    Late();
    Continue(TWO_SLOTS, es, Tick(11));
  }

  lemma LateIsUpForClaim()
    ensures UpForClaim(LATE, 0) && FreeWorker(TWO_SLOTS, LATE, W2) && Grant(W2, 21) !in LATE.granted
    ensures 0 in LATE.flights && LATE.flights[0].id == 0
  {
    assert FlightsOf(LATE, W2) == {};
  }

  /** A legal and paced run in which a delivery outruns its lease, and another worker delivers its message too. */
  lemma {:induction false} PunctualityIsNeeded()
    ensures var es := OneDelivery() + [Tick(11)] + [TakeOver(LATE, W2, 0, 21)] + [ClaimRead(W2, [0])];
            LegalRun(TWO_SLOTS, es) && PacedRun(TWO_SLOTS, es) && !Exclusive(After(TWO_SLOTS, es))
  {
    FirstDelivery();
    RunLate(OneDelivery());
    LateRun();
    OneClaimIsPaced(OneDelivery() + [Tick(11)]);
    LateIsUpForClaim();
    ClaimableOverlaps(TWO_SLOTS, OneDelivery() + [Tick(11)], 0, W2, 21);
  }
}
