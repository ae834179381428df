/** The message repository: the statements of Messages run in place on one table. */
module MessageStore {
  import opened Common
  import opened Messages

  /** Some row is due no later than the others. */
  lemma {:induction false} EarliestExists(rows: Table, ids: set<Id>)
    requires ids != {} && ids <= rows.Keys
    ensures exists id :: id in ids && forall j :: j in ids ==> rows[id].nextAttemptAt <= rows[j].nextAttemptAt
  {
    var x :| x in ids;
    if ids != {x} {
      EarliestExists(rows, ids - {x});
      var y :| y in ids - {x} && forall j :: j in ids - {x} ==> rows[y].nextAttemptAt <= rows[j].nextAttemptAt;
      var best := if rows[x].nextAttemptAt <= rows[y].nextAttemptAt then x else y;
      assert forall j :: j in ids ==> rows[best].nextAttemptAt <= rows[j].nextAttemptAt;
    } else {
      assert forall j :: j in ids ==> j == x;
    }
  }

  /** `out` are the rows of `ids` taken so far, in order, and `rest` those not yet taken. */
  ghost predicate Taken(rows: Table, ids: set<Id>, out: seq<Id>, rest: set<Id>) {
    && ids <= rows.Keys && rest <= ids
    && Elements(out) == ids - rest
    && |out| + |rest| == |ids|
    && Distinct(out) && EarliestFirst(rows, out)
    && (forall i, j :: 0 <= i < |out| && j in rest ==> rows[out[i]].nextAttemptAt <= rows[j].nextAttemptAt)
  }

  lemma TakeNext(rows: Table, ids: set<Id>, out: seq<Id>, rest: set<Id>, id: Id)
    requires Taken(rows, ids, out, rest) && id in rest
    requires forall j :: j in rest ==> rows[id].nextAttemptAt <= rows[j].nextAttemptAt
    ensures Taken(rows, ids, out + [id], rest - {id})
  {
    assert id !in Elements(out);
    assert Elements(out + [id]) == Elements(out) + {id};
  }

  method Earliest(rows: Table, ids: set<Id>) returns (id: Id)
    requires ids != {} && ids <= rows.Keys
    ensures id in ids && forall j :: j in ids ==> rows[id].nextAttemptAt <= rows[j].nextAttemptAt
  {
    EarliestExists(rows, ids);
    id :| id in ids && forall j :: j in ids ==> rows[id].nextAttemptAt <= rows[j].nextAttemptAt;
  }

  /** ORDER BY next_attempt_at LIMIT limit. */
  method OrderAndLimit(rows: Table, ids: set<Id>, limit: nat) returns (out: seq<Id>, rest: set<Id>)
    requires ids <= rows.Keys
    ensures Taken(rows, ids, out, rest)
    ensures |out| <= limit && (|out| < limit ==> rest == {})
  {
    out := [];
    rest := ids;
    while rest != {} && |out| < limit
      invariant Taken(rows, ids, out, rest) && |out| <= limit
      decreases |rest|
    {
      var id := Earliest(rows, rest);
      TakeNext(rows, ids, out, rest, id);
      out, rest := out + [id], rest - {id};
    }
  }

  lemma TakenSize(rows: Table, ids: set<Id>, out: seq<Id>, rest: set<Id>)
    requires Taken(rows, ids, out, rest)
    ensures |Elements(out)| == |out|
    ensures rest == {} ==> Elements(out) == ids
  {
    assert |ids - rest| == |ids| - |rest|;
  }

  lemma TakenIsSelection(rows: Table, now: Time, limit: nat, locked: set<Id>, out: seq<Id>, rest: set<Id>)
    requires Taken(rows, Candidates(rows, now) - locked, out, rest)
    requires |out| <= limit && (|out| < limit ==> rest == {})
    ensures Selection(rows, now, limit, locked, Elements(out))
  {
    var free := Candidates(rows, now) - locked;
    TakenSize(rows, free, out, rest);
    forall i, j | i in Elements(out) && j in free - Elements(out)
      ensures rows[i].nextAttemptAt <= rows[j].nextAttemptAt
    {
      var k :| 0 <= k < |out| && out[k] == i;
    }
  }

  /** After a claim, the owner's rows ending at `until` are the ones taken and those it had. */
  lemma ClaimedRows(rows: Table, taken: set<Id>, owner: Owner, until: Time, now: Time)
    requires taken <= rows.Keys
    ensures LeasedTo(Claim(rows, taken, owner, until, now), owner, until) == taken + LeasedTo(rows, owner, until)
  {
  }

  /** A claim took `taken`, leaving the table `after`, and its read-back returned `out`. */
  ghost predicate Claimed(rows: Table, owner: Owner, limit: nat, until: Time, now: Time, locked: set<Id>, taken: set<Id>,
                          after: Table, out: seq<Id>)
  {
    && Selection(rows, now, limit, locked, taken)
    && after == Claim(rows, taken, owner, until, now)
    && if taken == {} then out == [] else ReadBack(after, owner, until, out)
  }

  /** With no earlier lease of the owner ending at the same instant, the read-back is exactly what was taken. */
  lemma ClaimedExactly(rows: Table, owner: Owner, limit: nat, until: Time, now: Time, locked: set<Id>, taken: set<Id>,
                       after: Table, out: seq<Id>)
    requires Claimed(rows, owner, limit, until, now, locked, taken, after, out)
    requires LeasedTo(rows, owner, until) == {}
    ensures Elements(out) == taken && |out| == |taken| <= limit
  {
    ClaimedRows(rows, taken, owner, until, now);
    if taken != {} {
      DistinctSize(out);
    }
  }

  lemma {:induction false} DistinctSize(xs: seq<Id>)
    requires Distinct(xs)
    ensures |Elements(xs)| == |xs|
  {
    if |xs| > 0 {
      DistinctSize(xs[1..]);
      assert xs == [xs[0]] + xs[1..];
      assert Elements(xs) == {xs[0]} + Elements(xs[1..]);
    }
  }

  /** No lease on the row is still running at `now`. */
  predicate Unleased(r: Row, now: Time) {
    r.leaseOwner.Some? && r.leaseExpiresAt.Some? ==> r.leaseExpiresAt.value < now
  }

  class MessageRepo {
    var rows: Table

    constructor ()
      ensures rows == map[]
    {
      rows := map[];
    }

    method Enqueue(id: Id, m: Draft, now: Time) returns (r: Result<Id>)
      modifies this
      ensures r == if id in old(rows) then Err(AlreadyExists) else Ok(id)
      ensures id in old(rows) ==> rows == old(rows)
      ensures id !in old(rows) ==> id in rows && rows == old(rows)[id := rows[id]] && AsSubmitted(rows[id], m, now)
    {
      if id in rows {
        return Err(AlreadyExists);
      }
      rows := rows[id := NewRow(m, now)];
      return Ok(id);
    }

    /** The UPDATE of a claim. `locked` are the rows other statements hold locked. */
    method ClaimUpdate(owner: Owner, limit: nat, until: Time, now: Time, locked: set<Id>) returns (taken: set<Id>)
      modifies this
      ensures Selection(old(rows), now, limit, locked, taken)
      ensures forall id :: id in taken ==> id in old(rows) && Unleased(old(rows)[id], now)
      ensures rows == Claim(old(rows), taken, owner, until, now)
    {
      var chosen, left := OrderAndLimit(rows, Candidates(rows, now) - locked, limit);
      TakenIsSelection(rows, now, limit, locked, chosen, left);
      taken := Elements(chosen);
      assert taken <= Candidates(rows, now);
      rows := Claim(rows, taken, owner, until, now);
    }

    /** The SELECT that follows it. */
    method ReadLeased(owner: Owner, until: Time) returns (out: seq<Id>)
      ensures ReadBack(rows, owner, until, out) && |out| == |LeasedTo(rows, owner, until)|
    {
      var mine, none := LeasedTo(rows, owner, until), {};
      out, none := OrderAndLimit(rows, mine, |mine|);
      TakenSize(rows, mine, out, none);
    }

    /** The two statements in a row; the second is skipped when the first took nothing. */
    method ClaimAndRead(owner: Owner, limit: nat, until: Time, now: Time, locked: set<Id>)
      returns (out: seq<Id>, taken: set<Id>)
      modifies this
      ensures Claimed(old(rows), owner, limit, until, now, locked, taken, rows, out)
    {
      taken := ClaimUpdate(owner, limit, until, now, locked);
      if taken == {} {
        return [], taken;
      }
      out := ReadLeased(owner, until);
    }

    /** Run without interference. `taken` are the rows the UPDATE reports. */
    method ClaimMessages(owner: Owner, limit: int, leaseFor: Duration, now: Time, locked: set<Id>)
      returns (r: Result<seq<Id>>, taken: set<Id>)
      modifies this
      ensures owner.Anonymous? ==> r == Err(NoIdentity) && rows == old(rows)
      ensures owner.Worker? && limit <= 0 ==> r == Ok([]) && rows == old(rows)
      ensures owner.Worker? && limit > 0 ==>
                r.Ok? && Claimed(old(rows), owner, limit, now + leaseFor, now, locked, taken, rows, r.value)
    {
      taken := {};
      if owner.Anonymous? {
        return Err(NoIdentity), {};
      }
      if limit <= 0 {
        return Ok([]), {};
      }
      var out;
      out, taken := ClaimAndRead(owner, limit, now + leaseFor, now, locked);
      return Ok(out), taken;
    }

    method ExtendLease(id: Id, owner: Owner, leaseFor: Duration, now: Time) returns (r: Result<()>)
      modifies this
      ensures rows == Messages.ExtendLease(old(rows), id, owner, now + leaseFor, now)
      ensures r == if Holds(old(rows), id, owner) then Ok(()) else Err(NotFound)
    {
      if !Holds(rows, id, owner) {
        return Err(NotFound);
      }
      rows := rows[id := rows[id].(leaseExpiresAt := Some(now + leaseFor), updatedAt := now)];
      return Ok(());
    }

    method MarkSent(id: Id, owner: Owner, now: Time) returns (r: Result<()>)
      modifies this
      ensures rows == Messages.MarkSent(old(rows), id, owner, now)
      ensures r == if Holds(old(rows), id, owner) then Ok(()) else Err(NotFound)
    {
      if !Holds(rows, id, owner) {
        return Err(NotFound);
      }
      var row := rows[id];
      row := row.(status := Sent, sentAt := Some(now), updatedAt := now, attempts := row.attempts + 1);
      row := row.(leaseOwner := None, leaseExpiresAt := None, lastError := Blank, lastErrorCode := "");
      rows := rows[id := row];
      return Ok(());
    }

    method Defer(id: Id, owner: Owner, f: Failure, retryAt: Time, now: Time) returns (r: Result<()>)
      modifies this
      ensures rows == Messages.Defer(old(rows), id, owner, f, retryAt, now)
      ensures r == if Holds(old(rows), id, owner) then Ok(()) else Err(NotFound)
    {
      if !Holds(rows, id, owner) {
        return Err(NotFound);
      }
      var row := rows[id];
      row := row.(status := Deferred, attempts := row.attempts + 1, nextAttemptAt := retryAt);
      row := row.(lastError := f.message, lastErrorCode := f.code, lastErrorPermanent := false);
      rows := rows[id := row.(leaseOwner := None, leaseExpiresAt := None, updatedAt := now)];
      return Ok(());
    }

    method Fail(id: Id, owner: Owner, f: Failure, now: Time) returns (r: Result<()>)
      modifies this
      ensures rows == Messages.Fail(old(rows), id, owner, f, now)
      ensures r == if Holds(old(rows), id, owner) then Ok(()) else Err(NotFound)
    {
      if !Holds(rows, id, owner) {
        return Err(NotFound);
      }
      var row := rows[id];
      row := row.(status := Failed, attempts := row.attempts + 1);
      row := row.(lastError := f.message, lastErrorCode := f.code, lastErrorPermanent := f.permanent);
      rows := rows[id := row.(leaseOwner := None, leaseExpiresAt := None, updatedAt := now)];
      return Ok(());
    }

    method Requeue(id: Id, now: Time) returns (r: Result<()>)
      modifies this
      ensures rows == Messages.Requeue(old(rows), id, now)
      ensures r == if id !in old(rows) then Err(NotFound)
                   else if old(rows)[id].status in {Failed, Deferred, Held} then Ok(()) else Err(StateConflict)
    {
      if !Requeueable(rows, id) {
        return Err(ActionError(rows, id));
      }
      var row := rows[id].(status := Queued, nextAttemptAt := now, updatedAt := now);
      rows := rows[id := row.(leaseOwner := None, leaseExpiresAt := None)];
      return Ok(());
    }

    method Hold(id: Id, now: Time) returns (r: Result<()>)
      modifies this
      ensures rows == Messages.Hold(old(rows), id, now)
      ensures r == if id !in old(rows) then Err(NotFound)
                   else if old(rows)[id].status in {Queued, Deferred, Failed} then Ok(()) else Err(StateConflict)
    {
      if !Holdable(rows, id) {
        return Err(ActionError(rows, id));
      }
      var row := rows[id].(status := Held, updatedAt := now);
      rows := rows[id := row.(leaseOwner := None, leaseExpiresAt := None)];
      return Ok(());
    }

    method Delete(id: Id) returns (r: Result<()>)
      modifies this
      ensures rows == Messages.Delete(old(rows), id)
      ensures r == if id !in old(rows) then Err(NotFound)
                   else if old(rows)[id].status == Sending then Err(StateConflict) else Ok(())
    {
      if !Deletable(rows, id) {
        return Err(ActionError(rows, id));
      }
      rows := rows - {id};
      return Ok(());
    }

    method ReleaseExpiredLeases(now: Time) returns (n: nat)
      modifies this
      ensures rows == ReleaseExpired(old(rows), now)
      ensures n == |set id | id in old(rows) && Abandoned(old(rows)[id], now)|
    {
      var expired := set id | id in rows && Abandoned(rows[id], now);
      n := |expired|;
      rows := map id | id in rows :: if id in expired then Release(rows[id], now) else rows[id];
    }

    method Purge(sentBefore: Time, failedBefore: Time) returns (n: nat)
      modifies this
      ensures rows == Messages.Purge(old(rows), sentBefore, failedBefore)
      ensures n == |old(rows)| - |rows|
    {
      var gone := set id | id in rows && Purgeable(rows[id], sentBefore, failedBefore);
      n := |gone|;
      ghost var before := rows;
      rows := rows - gone;
      assert rows.Keys == before.Keys - gone;
      assert |before.Keys - gone| == |before.Keys| - |gone|;
    }
  }
}
