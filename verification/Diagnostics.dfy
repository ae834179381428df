/**
 * Test sends: the transactional idempotency key. A request reserves its key, writes a queue message
 * and an audit entry in one transaction; reservations outlive the message.
 */
module Diagnostics {
  import opened Common

  type ActorId = nat
  type RequestId = nat
  type MailboxId = nat
  type MessageId = nat
  type Recipient = nat

  datatype Key = Key(actor: ActorId, request: RequestId)

  datatype Reservation = Reservation(mailbox: MailboxId, recipient: Recipient, message: Option<MessageId>)

  /** The mailbox row joined with its credential, as read inside the transaction. */
  datatype Joined = Joined(enabled: bool, address: string, transport: string,
                           authType: string, secret: string, certificate: string, key: string)

  datatype Request = Request(
    key: Key, mailbox: MailboxId, recipient: Recipient,
    message: MessageId, mailboxAddress: string,
    joined: Option<Joined>,     // None: the mailbox is gone
    faults: Faults)             // which database statements fail

  /** Failures outside the transaction's own logic, one for each remaining statement. */
  datatype Faults = Faults(reserve: bool, enqueue: bool, link: bool, actor: bool, audit: bool, commit: bool)

  datatype Error = StateConflict | NotFound | Database

  /** The three results: an identifier and whether it is new can come together with an error. */
  datatype Reply = Reply(id: Option<MessageId>, created: bool, error: Option<Error>)

  function Created(id: MessageId): Reply {
    Reply(Some(id), true, None)
  }

  function Replayed(id: MessageId): Reply {
    Reply(Some(id), false, None)
  }

  function Failed(e: Error): Reply {
    Reply(None, false, Some(e))
  }

  datatype Store = Store(
    reservations: map<Key, Reservation>,
    messages: set<MessageId>,                  // the rows in the queue, of any origin
    audit: seq<(Key, MessageId)>)              // test-send audit entries

  /** The mailbox can send now, and still is the one the message was written for. */
  predicate Usable(j: Joined, address: string) {
    && j.enabled && j.address == address && (j.transport == "smtp" || j.transport == "graph")
    && !(j.authType == "secret" && j.secret == "")
    && !(j.authType == "certificate" && (j.certificate == "" || j.key == ""))
  }

  /** The outcome of a request for a key that is already reserved. */
  function Replay(s: Store, q: Request): Reply
    requires q.key in s.reservations
  {
    var r := s.reservations[q.key];
    if r.mailbox != q.mailbox || r.recipient != q.recipient || r.message.None? then Failed(StateConflict)
    else Replayed(r.message.value)
  }

  predicate AnyFault(f: Faults) {
    f.reserve || f.enqueue || f.link || f.actor || f.audit || f.commit
  }

  /** A fresh request goes through: nothing fails and the mailbox is usable. */
  predicate GoesThrough(s: Store, q: Request) {
    && q.key !in s.reservations && !AnyFault(q.faults)
    && q.joined.Some? && Usable(q.joined.value, q.mailboxAddress) && q.message !in s.messages
  }

  function Commit(s: Store, q: Request): Store {
    Store(s.reservations[q.key := Reservation(q.mailbox, q.recipient, Some(q.message))],
          s.messages + {q.message}, s.audit + [(q.key, q.message)])
  }

  function Send(s: Store, q: Request): Store {
    if GoesThrough(s, q) then Commit(s, q) else s
  }

  /** Deleting a message clears the reservation's reference to it, and keeps the reservation. */
  function Drop(s: Store, ids: set<MessageId>): Store {
    Store(map k | k in s.reservations ::
            if s.reservations[k].message.Some? && s.reservations[k].message.value in ids
            then s.reservations[k].(message := None) else s.reservations[k],
          s.messages - ids, s.audit)
  }

  /** What a request is answered, statement by statement. */
  function Answer(s: Store, q: Request): Reply {
    if q.faults.reserve then Failed(Database)
    else if q.key in s.reservations then
      var r := Replay(s, q);
      if r.error.None? && q.faults.commit then r.(error := Some(Database)) else r
    else if q.joined.None? then Failed(NotFound)
    else if !Usable(q.joined.value, q.mailboxAddress) then Failed(StateConflict)
    else if q.faults.enqueue || q.message in s.messages || q.faults.link || q.faults.actor then Failed(Database)
    else if q.faults.audit || q.faults.commit then Created(q.message).(error := Some(Database))
    else Created(q.message)
  }

  /**
   * What an answer means. Without an error it is new exactly if a message was created, and otherwise the
   * replay of one. With an error nothing was changed, whatever else it says: it says a message is new, and
   * names it, exactly if all that failed was the audit entry or the commit.
   */
  lemma AnswerMeans(s: Store, q: Request)
    ensures var r := Answer(s, q);
            && (r.error.None? && r.created <==> GoesThrough(s, q))
            && (r.error.None? && !r.created ==> q.key in s.reservations && r == Replay(s, q))
            && (r.error.Some? ==> Send(s, q) == s)
            && (r.created <==> GoesThrough(s, q.(faults := q.faults.(audit := false, commit := false))))
            && (r.created ==> r.id == Some(q.message))
  {
  }

  /**
   * When a request is answered how. It goes through exactly if its key is not reserved, no statement fails, the
   * identifier is not taken, and its mailbox is enabled, still has the address, a transport there is, and the secret
   * or the certificate and key it needs. It conflicts exactly if its key is reserved for something else or for a
   * message that is gone, or its mailbox is there and not fit to send; and finds nothing exactly if it is gone.
   */
  lemma AnswerExactly(s: Store, q: Request)
    ensures var j, r, f := q.joined, Answer(s, q), q.faults;
            var fit := && j.Some? && j.value.enabled && j.value.address == q.mailboxAddress && j.value.transport in {"smtp", "graph"}
                       && (j.value.authType == "secret" ==> j.value.secret != "")
                       && (j.value.authType == "certificate" ==> j.value.certificate != "" && j.value.key != "");
            && (r == Created(q.message) <==>
                  && q.key !in s.reservations && fit && q.message !in s.messages
                  && !f.reserve && !f.enqueue && !f.link && !f.actor && !f.audit && !f.commit)
            && (r.error == Some(StateConflict) <==>
                  && !f.reserve
                  && (q.key in s.reservations ==>
                        var saved := s.reservations[q.key];
                        saved.mailbox != q.mailbox || saved.recipient != q.recipient || saved.message.None?)
                  && (q.key !in s.reservations ==> j.Some? && !fit))
            && (r.error == Some(NotFound) <==> !f.reserve && q.key !in s.reservations && j.None?)
  {
  }

  // ---- the transaction ----

  class DiagnosticStore {
    var reservations: map<Key, Reservation>
    var messages: set<MessageId>
    var audit: seq<(Key, MessageId)>

    ghost function Value(): Store
      reads this
    {
      Store(reservations, messages, audit)
    }

    constructor ()
      ensures Value() == Store(map[], {}, [])
    {
      reservations, messages, audit := map[], {}, [];
    }

    /** The body of the transaction, on the tables as it sees them. */
    method InTransaction(q: Request) returns (reply: Reply)
      modifies this
      ensures reply == Answer(old(Value()), q.(faults := q.faults.(commit := false)))
      ensures reply.error.None? ==> Value() == if reply.created then Commit(old(Value()), q) else old(Value())
    {
      if q.faults.reserve {
        return Failed(Database);
      }
      if q.key in reservations {
        var saved := reservations[q.key];
        if saved.mailbox != q.mailbox || saved.recipient != q.recipient || saved.message.None? {
          return Failed(StateConflict);
        }
        return Replayed(saved.message.value);
      }
      reservations := reservations[q.key := Reservation(q.mailbox, q.recipient, None)];
      if q.joined.None? {
        return Failed(NotFound);
      }
      var ok := MailboxUsable(q.joined.value, q.mailboxAddress);
      if !ok {
        return Failed(StateConflict);
      }
      reply := Write(q);
    }

    /** The recheck of the mailbox inside the transaction. */
    method MailboxUsable(j: Joined, address: string) returns (ok: bool)
      ensures ok <==> Usable(j, address)
    {
      return !(!j.enabled || j.address != address || (j.transport != "smtp" && j.transport != "graph")
         || (j.authType == "secret" && j.secret == "")
         || (j.authType == "certificate" && (j.certificate == "" || j.key == "")));
    }

    /** The message, the reservation's reference to it and the audit entry, the key being reserved. */
    method Write(q: Request) returns (reply: Reply)
      modifies this
      ensures reply == if q.faults.enqueue || q.message in old(messages) || q.faults.link || q.faults.actor then Failed(Database)
                       else if q.faults.audit then Created(q.message).(error := Some(Database))
                       else Created(q.message)
      ensures reply.error.None? ==>
                Value() == Store(old(reservations)[q.key := Reservation(q.mailbox, q.recipient, Some(q.message))],
                                 old(messages) + {q.message}, old(audit) + [(q.key, q.message)])
    {
      if q.faults.enqueue || q.message in messages {
        return Failed(Database);
      }
      messages := messages + {q.message};
      if q.faults.link {
        return Failed(Database);
      }
      reservations := reservations[q.key := Reservation(q.mailbox, q.recipient, Some(q.message))];
      if q.faults.actor {
        return Failed(Database);
      }
      if q.faults.audit {
        return Reply(Some(q.message), true, Some(Database));
      }
      audit := audit + [(q.key, q.message)];
      return Created(q.message);
    }

    /** Runs the transaction and commits it, or rolls every table back; the identifier is returned either way. */
    method EnqueueDiagnostic(q: Request) returns (reply: Reply)
      modifies this
      ensures Value() == Send(old(Value()), q)
      ensures reply == Answer(old(Value()), q)
    {
      AnswerMeans(Value(), q);
      AnswerMeans(Value(), q.(faults := q.faults.(commit := false)));
      var savedReservations, savedMessages, savedAudit := reservations, messages, audit;
      reply := InTransaction(q);
      if reply.error.None? && q.faults.commit {
        reply := reply.(error := Some(Database));
      }
      if reply.error.Some? {
        reservations, messages, audit := savedReservations, savedMessages, savedAudit;
      }
    }

    /** Delete and purge: the foreign key clears references to the removed messages. */
    method Remove(ids: set<MessageId>)
      modifies this
      ensures Value() == Drop(old(Value()), ids)
    {
      messages := messages - ids;
      reservations := map k | k in reservations ::
        if reservations[k].message.Some? && reservations[k].message.value in ids
        then reservations[k].(message := None) else reservations[k];
    }
  }

  // ---- runs ----

  datatype Event = Sent(q: Request) | Removed(ids: set<MessageId>) | Queued(id: MessageId)

  const EMPTY := Store(map[], {}, [])

  function Apply(s: Store, e: Event): Store {
    match e
    case Sent(q) => Send(s, q)
    case Removed(ids) => Drop(s, ids)
    case Queued(id) => s.(messages := s.messages + {id})
  }

  function After(es: seq<Event>): Store {
    if |es| == 0 then EMPTY else Apply(After(es[..|es| - 1]), es[|es| - 1])
  }

  /** The event creates a test message for the key. */
  predicate Creates(s: Store, e: Event, k: Key) {
    e.Sent? && e.q.key == k && GoesThrough(s, e.q)
  }

  function Creations(es: seq<Event>, k: Key): nat {
    if |es| == 0 then 0
    else Creations(es[..|es| - 1], k) + if Creates(After(es[..|es| - 1]), es[|es| - 1], k) then 1 else 0
  }

  /** Test messages created in the run, for any key. */
  function AllCreations(es: seq<Event>): nat {
    if |es| == 0 then 0
    else
      var e := es[|es| - 1];
      AllCreations(es[..|es| - 1]) + if e.Sent? && GoesThrough(After(es[..|es| - 1]), e.q) then 1 else 0
  }

  /**
   * At most one message is ever created for an actor and request id, however often the request is
   * repeated and whatever is deleted or purged; and a key is reserved exactly if one was created.
   */
  lemma {:induction false} AtMostOneMessage(es: seq<Event>, k: Key)
    ensures Creations(es, k) <= 1
    ensures k in After(es).reservations <==> Creations(es, k) == 1
  {
    if |es| > 0 {
      AtMostOneMessage(es[..|es| - 1], k);
    }
  }

  /** The audit log has one entry for each test message ever created. */
  lemma {:induction false} AuditCountsCreations(es: seq<Event>)
    ensures |After(es).audit| == AllCreations(es)
  {
    if |es| > 0 {
      AuditCountsCreations(es[..|es| - 1]);
    }
  }

  /** The test messages created in the run, in order, each with its key. */
  function Creating(es: seq<Event>): seq<(Key, MessageId)> {
    if |es| == 0 then []
    else
      var e := es[|es| - 1];
      Creating(es[..|es| - 1]) + if e.Sent? && GoesThrough(After(es[..|es| - 1]), e.q) then [(e.q.key, e.q.message)] else []
  }

  /** The audit log lists exactly the test messages created, in order and by key. */
  lemma {:induction false} AuditListsCreations(es: seq<Event>)
    ensures After(es).audit == Creating(es)
  {
    if |es| > 0 {
      AuditListsCreations(es[..|es| - 1]);
    }
  }

  /** Whether the message is in the queue, from the last event about it. */
  predicate InQueue(es: seq<Event>, id: MessageId) {
    if |es| == 0 then false
    else
      var e := es[|es| - 1];
      if e.Removed? && id in e.ids then false
      else if e.Queued? && e.id == id then true
      else if e.Sent? && e.q.message == id && GoesThrough(After(es[..|es| - 1]), e.q) then true
      else InQueue(es[..|es| - 1], id)
  }

  /** The queue has exactly the messages put there, by a test send or otherwise, and not removed since. */
  lemma {:induction false} QueueExactly(es: seq<Event>, id: MessageId)
    ensures id in After(es).messages <==> InQueue(es, id)
  {
    if |es| > 0 {
      QueueExactly(es[..|es| - 1], id);
    }
  }

  /** The payload a key was reserved with. */
  ghost predicate ReservedFor(es: seq<Event>, k: Key, mailbox: MailboxId, recipient: Recipient) {
    exists i :: 0 <= i < |es| && Creates(After(es[..i]), es[i], k)
                && es[i].q.mailbox == mailbox && es[i].q.recipient == recipient
  }

  lemma {:induction false} ReservationKeepsPayload(es: seq<Event>, k: Key)
    requires k in After(es).reservations
    ensures ReservedFor(es, k, After(es).reservations[k].mailbox, After(es).reservations[k].recipient)
  {
    var pre, e := es[..|es| - 1], es[|es| - 1];
    var r := After(es).reservations[k];
    if Creates(After(pre), e, k) {
      assert es[..|es| - 1] == pre;
      assert es[|es| - 1].q.mailbox == r.mailbox;
    } else {
      ReservationKeepsPayload(pre, k);
      var i :| 0 <= i < |pre| && Creates(After(pre[..i]), pre[i], k)
               && pre[i].q.mailbox == r.mailbox && pre[i].q.recipient == r.recipient;
      assert es[..i] == pre[..i] && es[i] == pre[i];
    }
  }

  lemma ReservedOnce(es: seq<Event>, k: Key, i: nat)
    requires i < |es| && Creates(After(es[..i]), es[i], k)
    ensures k in After(es).reservations
    ensures After(es).reservations[k].mailbox == es[i].q.mailbox && After(es).reservations[k].recipient == es[i].q.recipient
  {
    KeptFrom(es, k, i, |es|);
    assert es[..|es|] == es;
  }

  lemma {:induction false} KeptFrom(es: seq<Event>, k: Key, i: nat, j: nat)
    requires i < j <= |es| && Creates(After(es[..i]), es[i], k)
    ensures var s := After(es[..j]);
            k in s.reservations && s.reservations[k].mailbox == es[i].q.mailbox
            && s.reservations[k].recipient == es[i].q.recipient
    decreases j
  {
    assert es[..j][..j - 1] == es[..j - 1];
    if i < j - 1 {
      KeptFrom(es, k, i, j - 1);
    }
  }

  /** Once a key has created a message, the same key with another mailbox or recipient always conflicts. */
  lemma ChangedPayloadConflicts(es: seq<Event>, i: nat, q: Request)
    requires i < |es| && Creates(After(es[..i]), es[i], q.key)
    requires q.mailbox != es[i].q.mailbox || q.recipient != es[i].q.recipient
    ensures q.key in After(es).reservations && Replay(After(es), q) == Failed(StateConflict)
  {
    ReservedOnce(es, q.key, i);
  }

  ghost predicate Linked(s: Store) {
    forall k :: k in s.reservations && s.reservations[k].message.Some? ==> s.reservations[k].message.value in s.messages
  }

  lemma {:induction false} LinksAreLive(es: seq<Event>)
    ensures Linked(After(es))
  {
    if |es| > 0 {
      LinksAreLive(es[..|es| - 1]);
    }
  }

  /** Some event after the `i`-th removed the message. */
  ghost predicate RemovedSince(es: seq<Event>, i: nat, id: MessageId) {
    exists j :: i < j < |es| && es[j].Removed? && id in es[j].ids
  }

  lemma RemovedSinceStep(es: seq<Event>, i: nat, id: MessageId)
    requires i < |es| - 1
    ensures var pre, e := es[..|es| - 1], es[|es| - 1];
            RemovedSince(es, i, id) <==> RemovedSince(pre, i, id) || (e.Removed? && id in e.ids)
  {
    var pre := es[..|es| - 1];
    if RemovedSince(pre, i, id) {
      var j :| i < j < |pre| && pre[j].Removed? && id in pre[j].ids;
      assert es[j] == pre[j];
    }
    if RemovedSince(es, i, id) {
      var j :| i < j < |es| && es[j].Removed? && id in es[j].ids;
      assert j < |pre| ==> pre[j] == es[j];
    }
  }

  /** A reservation refers to the message its key created until that is removed, and to none from then on. */
  lemma {:induction false} ReservedMessage(es: seq<Event>, k: Key, i: nat)
    requires i < |es| && Creates(After(es[..i]), es[i], k)
    ensures k in After(es).reservations
    ensures After(es).reservations[k].message
         == if RemovedSince(es, i, es[i].q.message) then None else Some(es[i].q.message)
    decreases |es|
  {
    var pre, e := es[..|es| - 1], es[|es| - 1];
    if i < |pre| {
      assert pre[..i] == es[..i] && pre[i] == es[i];
      ReservedMessage(pre, k, i);
      RemovedSinceStep(es, i, es[i].q.message);
    } else {
      assert es[..i] == pre;
    }
  }

  /**
   * A repeated request answers with the message its key created if it is for the same mailbox and recipient
   * and no event has removed that message since, and conflicts otherwise; and what it answers with is still
   * in the queue.
   */
  lemma ReplayIsLive(es: seq<Event>, i: nat, q: Request)
    requires i < |es| && Creates(After(es[..i]), es[i], q.key)
    ensures q.key in After(es).reservations
    ensures Replay(After(es), q)
         == if q.mailbox == es[i].q.mailbox && q.recipient == es[i].q.recipient && !RemovedSince(es, i, es[i].q.message)
            then Replayed(es[i].q.message) else Failed(StateConflict)
    ensures Replay(After(es), q).id.Some? ==> Replay(After(es), q).id.value in After(es).messages
  {
    LinksAreLive(es);
    ReservedOnce(es, q.key, i);
    ReservedMessage(es, q.key, i);
  }
}
