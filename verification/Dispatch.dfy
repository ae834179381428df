/**
 * One replica's dispatcher in place: its slots, its running deliveries and the shared table. What it does
 * in a round, run without interruption, are legal steps of the protocol.
 */
module Dispatch {
  import opened Common
  import opened Messages
  import opened Worker
  import opened Protocol
  import opened Fencing
  import MessageStore

  /** The deliveries of one worker. */
  function Mine(s: State, owner: Owner): map<nat, Delivery> {
    map k | k in s.flights && s.flights[k].owner == owner :: s.flights[k]
  }

  lemma MineSize(s: State, owner: Owner)
    ensures |Mine(s, owner)| == |FlightsOf(s, owner)|
  {
    assert Mine(s, owner).Keys == FlightsOf(s, owner);
  }

  /** What a worker remembers of a row it reads back. */
  function Snapshot(rows: Table, owner: Owner, until: Time, id: Id): Delivery
    requires id in rows
  {
    Delivery(owner, id, rows[id].attempts, rows[id].receivedAt, until)
  }

  /** The copies of the rows a read-back returns. */
  function Snapshots(rows: Table, owner: Owner, until: Time, out: seq<Id>): (ds: seq<Delivery>)
    requires Elements(out) <= rows.Keys
    ensures |ds| == |out| && forall i :: 0 <= i < |out| ==> out[i] in rows && ds[i] == Snapshot(rows, owner, until, out[i])
  {
    assert forall i :: 0 <= i < |out| ==> out[i] in Elements(out);
    seq(|out|, i requires 0 <= i < |out| && out[i] in rows => Snapshot(rows, owner, until, out[i]))
  }

  /** The deliveries running after all of a claim was handed out, one by one. */
  function HandedOut(running: map<nat, Delivery>, ds: seq<Delivery>, first: nat): map<nat, Delivery>
    decreases |ds|
  {
    if |ds| == 0 then running else HandedOut(running[first := ds[0]], ds[1..], first + 1)
  }

  /** Serial `k` after handing out. */
  lemma {:induction false} HandedOutAt(running: map<nat, Delivery>, ds: seq<Delivery>, first: nat, k: nat)
    ensures var after := HandedOut(running, ds, first);
            if first <= k < first + |ds| then k in after && after[k] == ds[k - first]
            else (k in after <==> k in running) && (k in running ==> after[k] == running[k])
    decreases |ds|
  {
    if |ds| > 0 {
      HandedOutAt(running[first := ds[0]], ds[1..], first + 1, k);
    }
  }

  /** Where a hand-out stops: what runs, the slots taken, and how many it started. */
  datatype Handed = Handed(running: map<nat, Delivery>, slots: int, started: nat)

  /**
   * Handing out a claim with so many slots: a delivery starts while a slot is free; otherwise the dispatcher
   * waits for the next one to end, and stops if none does before it is cancelled.
   */
  function Hand(running: map<nat, Delivery>, slots: int, ds: seq<Delivery>, first: nat, workers: nat, endings: seq<nat>): Handed
    decreases |ds| + |endings|
  {
    if |ds| == 0 then Handed(running, slots, 0)
    else if slots < workers then
      var after := Hand(running[first := ds[0]], slots + 1, ds[1..], first + 1, workers, endings);
      after.(started := after.started + 1)
    else if |endings| == 0 then Handed(running, slots, 0)
    else Hand(running - {endings[0]}, Freed(running, slots, endings[0]), ds, first, workers, endings[1..])
  }

  /** The slots taken once delivery `k` has ended, if it was running at all. */
  function Freed(running: map<nat, Delivery>, slots: int, k: nat): int {
    if k in running then slots - 1 else slots
  }

  lemma OneMore(running: map<nat, Delivery>, k: nat, d: Delivery)
    requires k !in running
    ensures |running[k := d]| == |running| + 1
  {
    assert running[k := d].Keys == running.Keys + {k};
  }

  lemma OneLess(running: map<nat, Delivery>, k: nat)
    ensures |running - {k}| == if k in running then |running| - 1 else |running|
  {
    assert (running - {k}).Keys == running.Keys - {k};
    if k !in running {
      assert running - {k} == running;
    }
  }

  /** However long it waits, no more slots are taken than there are, and it stops early only with all taken. */
  lemma {:induction false} HandKeepsSlots(running: map<nat, Delivery>, slots: int, ds: seq<Delivery>, first: nat, workers: nat, endings: seq<nat>)
    requires slots <= workers
    ensures var after := Hand(running, slots, ds, first, workers, endings);
            after.slots <= workers && after.started <= |ds| && (after.started < |ds| ==> after.slots == workers)
    decreases |ds| + |endings|
  {
    if |ds| > 0 {
      if slots < workers {
        HandKeepsSlots(running[first := ds[0]], slots + 1, ds[1..], first + 1, workers, endings);
      } else if |endings| > 0 {
        HandKeepsSlots(running - {endings[0]}, Freed(running, slots, endings[0]), ds, first, workers, endings[1..]);
      }
    }
  }

  /** The slots taken are always those of the deliveries that run. */
  lemma {:induction false} HandCounts(running: map<nat, Delivery>, slots: int, ds: seq<Delivery>, first: nat, workers: nat, endings: seq<nat>)
    requires slots == |running| && forall k :: k in running ==> k < first
    ensures var after := Hand(running, slots, ds, first, workers, endings); after.slots == |after.running|
    decreases |ds| + |endings|
  {
    if |ds| > 0 {
      if slots < workers {
        OneMore(running, first, ds[0]);
        HandCounts(running[first := ds[0]], slots + 1, ds[1..], first + 1, workers, endings);
      } else if |endings| > 0 {
        OneLess(running, endings[0]);
        HandCounts(running - {endings[0]}, Freed(running, slots, endings[0]), ds, first, workers, endings[1..]);
      }
    }
  }

  /** What runs then under serial `k` ran before, or is the copy handed out under it. */
  lemma {:induction false} HandAt(running: map<nat, Delivery>, slots: int, ds: seq<Delivery>, first: nat, workers: nat, endings: seq<nat>, k: nat)
    requires slots <= workers && k in Hand(running, slots, ds, first, workers, endings).running && (first <= k ==> k !in running)
    ensures var after := Hand(running, slots, ds, first, workers, endings);
            if k < first then k in running && after.running[k] == running[k]
            else k < first + after.started <= first + |ds| && after.running[k] == ds[k - first]
    decreases |ds| + |endings|
  {
    HandKeepsSlots(running, slots, ds, first, workers, endings);
    if |ds| > 0 {
      if slots < workers {
        HandAt(running[first := ds[0]], slots + 1, ds[1..], first + 1, workers, endings, k);
      } else if |endings| > 0 {
        HandAt(running - {endings[0]}, Freed(running, slots, endings[0]), ds, first, workers, endings[1..], k);
      }
    }
  }

  /** With a free slot for each it never waits: all are handed out. */
  lemma {:induction false} HandNeverWaits(running: map<nat, Delivery>, slots: int, ds: seq<Delivery>, first: nat, workers: nat, endings: seq<nat>)
    requires slots + |ds| <= workers
    ensures Hand(running, slots, ds, first, workers, endings) == Handed(HandedOut(running, ds, first), slots + |ds|, |ds|)
    decreases |ds|
  {
    if |ds| > 0 {
      HandNeverWaits(running[first := ds[0]], slots + 1, ds[1..], first + 1, workers, endings);
    }
  }

  /** As long as enough of the running deliveries end, each once, it waits for them and hands out all. */
  lemma {:induction false} HandGetsThrough(running: map<nat, Delivery>, slots: int, ds: seq<Delivery>, first: nat, workers: nat, endings: seq<nat>)
    requires slots <= workers && slots + |ds| <= workers + |endings|
    requires Distinct(endings) && forall i :: 0 <= i < |endings| ==> endings[i] in running
    ensures Hand(running, slots, ds, first, workers, endings).started == |ds|
    decreases |ds| + |endings|
  {
    if |ds| > 0 {
      if slots < workers {
        HandGetsThrough(running[first := ds[0]], slots + 1, ds[1..], first + 1, workers, endings);
      } else {
        HandGetsThrough(running - {endings[0]}, Freed(running, slots, endings[0]), ds, first, workers, endings[1..]);
      }
    }
  }

  /** What is left to hand out leads where the whole did. */
  ghost predicate Handing(running: map<nat, Delivery>, slots: int, ds: seq<Delivery>, first: nat, started: nat, workers: nat,
                          endings: seq<nat>, ended: nat, all: Handed)
    requires started <= |ds| && ended <= |endings|
  {
    var rest := Hand(running, slots, ds[started..], first + started, workers, endings[ended..]);
    all == rest.(started := rest.started + started)
  }

  lemma {:induction false} HandBegin(running: map<nat, Delivery>, slots: int, ds: seq<Delivery>, first: nat, workers: nat, endings: seq<nat>)
    ensures Handing(running, slots, ds, first, 0, workers, endings, 0, Hand(running, slots, ds, first, workers, endings))
  {
    assert ds[0..] == ds && endings[0..] == endings;
  }

  lemma {:induction false} HandStart(running: map<nat, Delivery>, slots: int, ds: seq<Delivery>, first: nat, started: nat, workers: nat,
                                     endings: seq<nat>, ended: nat, all: Handed)
    requires started < |ds| && ended <= |endings| && slots < workers
    requires Handing(running, slots, ds, first, started, workers, endings, ended, all)
    ensures Handing(running[first + started := ds[started]], slots + 1, ds, first, started + 1, workers, endings, ended, all)
  {
    assert ds[started..][1..] == ds[started + 1..];
  }

  lemma {:induction false} HandWait(running: map<nat, Delivery>, slots: int, ds: seq<Delivery>, first: nat, started: nat, workers: nat,
                                    endings: seq<nat>, ended: nat, all: Handed)
    requires started < |ds| && ended < |endings| && slots >= workers
    requires Handing(running, slots, ds, first, started, workers, endings, ended, all)
    ensures Handing(running - {endings[ended]}, Freed(running, slots, endings[ended]), ds, first, started, workers, endings, ended + 1, all)
  {
    assert endings[ended..][1..] == endings[ended + 1..];
  }

  lemma {:induction false} HandStop(running: map<nat, Delivery>, slots: int, ds: seq<Delivery>, first: nat, started: nat, workers: nat,
                                    endings: seq<nat>, ended: nat, all: Handed)
    requires started <= |ds| && ended <= |endings| && Handing(running, slots, ds, first, started, workers, endings, ended, all)
    requires started == |ds| || (slots >= workers && ended == |endings|)
    ensures Handed(running, slots, started) == all
  {
  }

  /** In a paced run a round may start: no lease of this worker ends yet when the new ones will. */
  lemma BeforeClaim(s: State, owner: Owner, until: Time)
    requires Granted(s) && Grant(owner, until) !in s.granted
    ensures LeasedTo(s.rows, owner, until) == {}
    ensures forall k :: k in Mine(s, owner) ==> k < s.next
  {
  }

  /** A claim whose read-back returned exactly what it took. */
  ghost predicate Fetched(rows: Table, owner: Owner, limit: nat, until: Time, now: Time, locked: set<Id>, taken: set<Id>,
                          after: Table, out: seq<Id>)
  {
    && MessageStore.Claimed(rows, owner, limit, until, now, locked, taken, after, out)
    && Elements(out) == taken && |out| <= limit
  }

  /** Serial `k` after the protocol's read-back. */
  lemma ReadAt(c: Config, s: State, owner: Owner, out: seq<Id>, k: nat)
    requires owner in s.pending && FlightsGranted(s) && Elements(out) <= s.rows.Keys
    ensures var mine := Mine(Apply(c, s, ClaimRead(owner, out)), owner);
            if s.next <= k < s.next + |out| then
              && out[k - s.next] in s.rows && k in mine
              && mine[k] == Snapshot(s.rows, owner, s.pending[owner].until, out[k - s.next])
            else
              (k in mine <==> k in Mine(s, owner)) && (k in mine ==> mine[k] == Mine(s, owner)[k])
  {
    if s.next <= k < s.next + |out| {
      assert out[k - s.next] in Elements(out);
      assert Numbered(s, out, k);
    }
  }

  lemma {:induction false} ReadAtSame(c: Config, s: State, owner: Owner, out: seq<Id>, ds: seq<Delivery>, k: nat)
    requires owner in s.pending && FlightsGranted(s) && Elements(out) <= s.rows.Keys
    requires ds == Snapshots(s.rows, owner, s.pending[owner].until, out)
    ensures var a, b := HandedOut(Mine(s, owner), ds, s.next), Mine(Apply(c, s, ClaimRead(owner, out)), owner);
            (k in a <==> k in b) && (k in a ==> a[k] == b[k])
  {
    HandedOutAt(Mine(s, owner), ds, s.next, k);
    ReadAt(c, s, owner, out, k);
  }

  lemma SameMap(a: map<nat, Delivery>, b: map<nat, Delivery>)
    requires forall k: nat :: (k in a <==> k in b) && (k in a ==> a[k] == b[k])
    ensures a == b
  {
  }

  /** Handing out a read-back is the protocol's read-back. */
  lemma {:induction false} HandedOutIsRead(c: Config, s: State, owner: Owner, out: seq<Id>)
    requires owner in s.pending && FlightsGranted(s) && Elements(out) <= s.rows.Keys
    ensures HandedOut(Mine(s, owner), Snapshots(s.rows, owner, s.pending[owner].until, out), s.next)
         == Mine(Apply(c, s, ClaimRead(owner, out)), owner)
  {
    var ds := Snapshots(s.rows, owner, s.pending[owner].until, out);
    var a, b := HandedOut(Mine(s, owner), ds, s.next), Mine(Apply(c, s, ClaimRead(owner, out)), owner);
    forall k: nat
      ensures (k in a <==> k in b) && (k in a ==> a[k] == b[k])
    {
      ReadAtSame(c, s, owner, out, ds, k);
    }
    SameMap(a, b);
  }

  /**
   * A claim and the hand-out of what it returned are steps of the protocol, and lead to these rows and
   * these deliveries of the claiming worker.
   */
  ghost predicate Follows(c: Config, s: State, claim: Event, claimed: seq<Id>, rows: Table, mine: map<nat, Delivery>)
    requires claim.ClaimUpdated?
  {
    var t := Apply(c, s, claim);
    var u := if claim.taken == {} then t else Apply(c, t, ClaimRead(claim.owner, claimed));
    && Legal(c, s, claim)
    && (claim.taken != {} ==> Legal(c, t, ClaimRead(claim.owner, claimed)))
    && Elements(claimed) == claim.taken
    && rows == u.rows && mine == Mine(u, claim.owner)
  }

  lemma ClaimLeavesFlights(c: Config, s: State, claim: Event)
    requires claim.ClaimUpdated?
    ensures var t := Apply(c, s, claim);
            && t.flights == s.flights && t.next == s.next
            && t.rows == Claim(s.rows, claim.taken, claim.owner, claim.until, claim.now)
            && (claim.taken != {} ==> claim.owner in t.pending && t.pending[claim.owner] == Pending(claim.until, claim.taken))
  {
  }

  lemma FetchIsLegal(c: Config, s: State, owner: Owner, limit: nat, until: Time, now: Time, locked: set<Id>, taken: set<Id>, rows: Table, claimed: seq<Id>)
    requires Fetched(s.rows, owner, limit, until, now, locked, taken, rows, claimed)
    requires owner.Worker? && owner !in s.pending && now <= s.clock && 0 < limit == c.workers - |Mine(s, owner)|
    ensures Legal(c, s, ClaimUpdated(owner, limit, until, now, locked, taken))
  {
    MineSize(s, owner);
  }

  lemma {:induction false} FetchFollows(c: Config, s: State, owner: Owner, limit: nat, until: Time, now: Time, locked: set<Id>, taken: set<Id>, rows: Table, claimed: seq<Id>)
    requires FlightsGranted(s) && ClaimsGranted(s)
    requires Fetched(s.rows, owner, limit, until, now, locked, taken, rows, claimed)
    requires Legal(c, s, ClaimUpdated(owner, limit, until, now, locked, taken))
    ensures Elements(claimed) <= rows.Keys
    ensures Follows(c, s, ClaimUpdated(owner, limit, until, now, locked, taken), claimed, rows,
                    HandedOut(Mine(s, owner), Snapshots(rows, owner, until, claimed), s.next))
  {
    var claim := ClaimUpdated(owner, limit, until, now, locked, taken);
    var t := Apply(c, s, claim);
    ClaimLeavesFlights(c, s, claim);
    assert Mine(t, owner) == Mine(s, owner);
    if taken != {} {
      FlightsGrantedStep(c, s, claim);
      HandedOutIsRead(c, t, owner, claimed);
    }
  }

  lemma ClaimedKeys(rows: Table, owner: Owner, limit: nat, until: Time, now: Time, locked: set<Id>, taken: set<Id>,
                    after: Table, out: seq<Id>)
    requires MessageStore.Claimed(rows, owner, limit, until, now, locked, taken, after, out)
    ensures Elements(out) <= after.Keys
  {
  }

  /** An uninterrupted round of a dispatcher with a free slot, in a paced run, is the protocol's claim and read-back. */
  lemma {:induction false} RoundFollows(c: Config, s: State, owner: Owner, limit: nat, until: Time, now: Time, locked: set<Id>, taken: set<Id>,
                                        rows: Table, claimed: seq<Id>)
    requires Granted(s) && Grant(owner, until) !in s.granted
    requires MessageStore.Claimed(s.rows, owner, limit, until, now, locked, taken, rows, claimed)
    requires owner.Worker? && owner !in s.pending && now <= s.clock && 0 < limit == c.workers - |Mine(s, owner)|
    ensures Elements(claimed) <= rows.Keys && |claimed| <= limit
    ensures Follows(c, s, ClaimUpdated(owner, limit, until, now, locked, taken), claimed, rows,
                    HandedOut(Mine(s, owner), Snapshots(rows, owner, until, claimed), s.next))
  {
    BeforeClaim(s, owner, until);
    MessageStore.ClaimedExactly(s.rows, owner, limit, until, now, locked, taken, rows, claimed);
    FetchIsLegal(c, s, owner, limit, until, now, locked, taken, rows, claimed);
    FetchFollows(c, s, owner, limit, until, now, locked, taken, rows, claimed);
  }

  lemma MineWithout(s: State, owner: Owner, k: nat)
    requires k in Mine(s, owner)
    ensures Mine(s.(flights := s.flights - {k}), owner) == Mine(s, owner) - {k}
  {
  }

  class Dispatcher {
    const runner: Runner
    const workers: nat
    const leaseFor: Duration
    var slots: int                    // slots taken
    var running: map<nat, Delivery>

    constructor (runner: Runner, workers: nat, leaseFor: Duration)
      ensures this.runner == runner && this.workers == workers && this.leaseFor == leaseFor
      ensures slots == 0 && running == map[]
    {
      this.runner, this.workers, this.leaseFor := runner, workers, leaseFor;
      slots, running := 0, map[];
    }

    /** The dispatcher and the table are this worker's part of the protocol's state. */
    ghost predicate Represents(c: Config, s: State)
      reads this, runner.repo
    {
      && c == Config(runner.backoff, workers)
      && s.rows == runner.repo.rows && running == Mine(s, runner.workerId)
      && slots == |running| <= workers
    }

    /** Hands out a claim, waiting for deliveries to end when no slot is free; `endings` are those that do. */
    method HandOut(claimed: seq<Delivery>, first: nat, endings: seq<nat>) returns (started: nat)
      requires slots == |running| <= workers && forall k :: k in running ==> k < first
      modifies this
      ensures Handed(running, slots, started) == Hand(old(running), old(slots), claimed, first, workers, endings)
      ensures slots == |running| <= workers
    {
      HandKeepsSlots(running, slots, claimed, first, workers, endings);
      HandCounts(running, slots, claimed, first, workers, endings);
      started := Loop(claimed, first, endings);
    }

    method Loop(claimed: seq<Delivery>, first: nat, endings: seq<nat>) returns (started: nat)
      modifies this
      ensures Handed(running, slots, started) == Hand(old(running), old(slots), claimed, first, workers, endings)
    {
      ghost var all := Hand(running, slots, claimed, first, workers, endings);
      HandBegin(running, slots, claimed, first, workers, endings);
      started := 0;
      var ended, stop := 0, false;
      while started < |claimed| && !stop
        invariant started <= |claimed| && ended <= |endings|
        invariant Handing(running, slots, claimed, first, started, workers, endings, ended, all)
        invariant stop ==> slots >= workers && ended == |endings|
        decreases |claimed| - started, |endings| - ended, !stop
      {
        if slots < workers {
          HandStart(running, slots, claimed, first, started, workers, endings, ended, all);
          slots := slots + 1;
          running := running[first + started := claimed[started]];
          started := started + 1;
        } else if ended < |endings| {
          HandWait(running, slots, claimed, first, started, workers, endings, ended, all);
          End(endings[ended]);
          ended := ended + 1;
        } else {
          stop := true;
        }
      }
      HandStop(running, slots, claimed, first, started, workers, endings, ended, all);
    }

    /** A delivery has ended and its slot is free, if it was running at all. */
    method End(k: nat)
      modifies this
      ensures running == old(running) - {k} && slots == Freed(old(running), old(slots), k)
    {
      if k in running {
        slots := slots - 1;
      }
      running := running - {k};
    }

    /**
     * A round: claim as many messages as there are free slots and hand them out. It never waits for a slot
     * unless a lease this worker already has ends when the new ones do.
     */
    method Round(now: Time, locked: set<Id>, first: nat, endings: seq<nat>)
      returns (claimed: seq<Id>, taken: set<Id>, started: nat)
      requires runner.workerId.Worker? && slots == |running| <= workers && forall k :: k in running ==> k < first
      modifies this, runner.repo
      ensures if old(slots) == workers then claimed == [] && runner.repo.rows == old(runner.repo.rows)
              else MessageStore.Claimed(old(runner.repo.rows), runner.workerId, workers - old(slots), now + leaseFor, now, locked, taken,
                                        runner.repo.rows, claimed)
      ensures slots == |running| <= workers && Elements(claimed) <= runner.repo.rows.Keys
      ensures var ds := Snapshots(runner.repo.rows, runner.workerId, now + leaseFor, claimed);
              && Handed(running, slots, started) == Hand(old(running), old(slots), ds, first, workers, endings)
              && (LeasedTo(old(runner.repo.rows), runner.workerId, now + leaseFor) == {} ==>
                    running == HandedOut(old(running), ds, first) && started == |claimed|)
    {
      claimed, taken, started := [], {}, 0;
      if workers - slots <= 0 {
        return;
      }
      claimed, taken := ClaimFree(workers - slots, now, locked);
      var ds := Snapshots(runner.repo.rows, runner.workerId, now + leaseFor, claimed);
      if |claimed| <= workers - slots {
        HandNeverWaits(running, slots, ds, first, workers, endings);
      }
      started := HandOut(ds, first, endings);
    }

    method ClaimFree(limit: nat, now: Time, locked: set<Id>) returns (claimed: seq<Id>, taken: set<Id>)
      requires runner.workerId.Worker? && limit > 0
      modifies runner.repo
      ensures MessageStore.Claimed(old(runner.repo.rows), runner.workerId, limit, now + leaseFor, now, locked, taken, runner.repo.rows, claimed)
      ensures Elements(claimed) <= runner.repo.rows.Keys
      ensures LeasedTo(old(runner.repo.rows), runner.workerId, now + leaseFor) == {} ==> |claimed| <= limit
    {
      var r;
      r, taken := runner.repo.ClaimMessages(runner.workerId, limit, leaseFor, now, locked);
      claimed := r.value;
      ghost var before := old(runner.repo.rows);
      ClaimedKeys(before, runner.workerId, limit, now + leaseFor, now, locked, taken, runner.repo.rows, claimed);
      if LeasedTo(before, runner.workerId, now + leaseFor) == {} {
        MessageStore.ClaimedExactly(before, runner.workerId, limit, now + leaseFor, now, locked, taken, runner.repo.rows, claimed);
      }
    }

    /** A delivery ends: its outcome is recorded, or refused, and its slot is free again. */
    method Finish(ghost c: Config, ghost s: State, k: nat, result: SendResult, at: Time, now: Time) returns (ok: bool)
      requires Represents(c, s) && k in running
      modifies this, runner.repo
      ensures Represents(c, Apply(c, s, Finished(k, result, at, now)))
      ensures ok <==> Holds(old(runner.repo.rows), old(running)[k].id, runner.workerId)
      ensures slots == old(slots) - 1
    {
      OneLess(running, k);
      MineWithout(s, runner.workerId, k);
      ok := runner.Finish(running[k], result, at, now);
      End(k);
    }

    /** A delivery gives up waiting at shutdown and leaves its lease to run out. */
    method Stop(ghost c: Config, ghost s: State, k: nat)
      requires Represents(c, s) && k in running
      modifies this
      ensures Represents(c, Apply(c, s, Stopped(k)))
      ensures slots == old(slots) - 1
    {
      OneLess(running, k);
      MineWithout(s, runner.workerId, k);
      End(k);
    }
  }
}
