/** Reconciling again: writes done twice, runs interrupted and resumed, and what a second run does. */
module Reconcile {
  import opened Bootstrap

  // ---- writing twice ----

  /** The store already is what the write would make it. */
  predicate Done(s: Store, w: Write) {
    Ready(s, w) && Do(s, w) == s
  }

  /** Doing a write twice is doing it once. */
  lemma DoIsIdempotent(s: Store, w: Write)
    requires Ready(s, w)
    ensures Done(Do(s, w), w)
  {
    var t := Do(s, w);
    match w
    case PutCredential(c) => assert t.credentials[c.name := t.credentials[c.name]] == t.credentials;
    case PutMailbox(m, address) => assert t.mailboxes[address := t.mailboxes[address]] == t.mailboxes;
    case PutAccount(a, _, _) => assert t.accounts[a.username := t.accounts[a.username]] == t.accounts;
    case SetMailboxes(u, _) => assert t.links[u := t.links[u]] == t.links;
    case SetSenders(u, _) => assert t.senders[u := t.senders[u]] == t.senders;
  }

  lemma ReadyStays(s: Store, w: Write, v: Write)
    requires Ready(s, w)
    ensures Ready(Do(s, v), w)
  {
  }

  /** A write to another object undoes nothing. */
  lemma DoneStays(s: Store, w: Write, v: Write)
    requires Done(s, w) && Target(v) != Target(w)
    ensures Done(Do(s, v), w)
  {
    ReadyStays(s, w, v);
    var t := Do(s, v);
    match w
    case PutCredential(c) => assert t.credentials[c.name := t.credentials[c.name]] == t.credentials;
    case PutMailbox(m, address) => assert t.mailboxes[address := t.mailboxes[address]] == t.mailboxes;
    case PutAccount(a, _, _) => assert t.accounts[a.username := t.accounts[a.username]] == t.accounts;
    case SetMailboxes(u, _) => assert t.links[u := t.links[u]] == t.links;
    case SetSenders(u, _) => assert t.senders[u := t.senders[u]] == t.senders;
  }

  ghost predicate DistinctTargets(ws: seq<Write>) {
    forall i, j :: 0 <= i < j < |ws| ==> Target(ws[i]) != Target(ws[j])
  }

  ghost predicate AllDone(s: Store, ws: seq<Write>) {
    forall i :: 0 <= i < |ws| ==> Done(s, ws[i])
  }

  /** Writes already done change nothing and never fail. */
  lemma {:induction false} ExecDone(s: Store, ws: seq<Write>)
    requires AllDone(s, ws)
    ensures Exec(s, ws) == (s, true)
  {
    if |ws| > 0 {
      assert Done(s, ws[0]);
      ExecDone(s, ws[1..]);
    }
  }

  /** Once a write is done, writes to other objects leave it done, wherever they stop. */
  lemma {:induction false} ExecKeepsDone(s: Store, ws: seq<Write>, w: Write)
    requires Done(s, w) && forall i :: 0 <= i < |ws| ==> Target(ws[i]) != Target(w)
    ensures Done(Exec(s, ws).0, w)
    decreases |ws|
  {
    if |ws| > 0 && Ready(s, ws[0]) {
      DoneStays(s, w, ws[0]);
      ExecKeepsDone(Do(s, ws[0]), ws[1..], w);
    }
  }

  /** How many of the writes a run gets through. */
  function Reached(s: Store, ws: seq<Write>): (n: nat)
    ensures n <= |ws|
    decreases |ws|
  {
    if |ws| == 0 || !Ready(s, ws[0]) then 0 else 1 + Reached(Do(s, ws[0]), ws[1..])
  }

  /** Everything a run got through is done at its end, and what stopped it still would. */
  lemma {:induction false} ReachedIsDone(s: Store, ws: seq<Write>)
    requires DistinctTargets(ws)
    ensures var n := Reached(s, ws);
            var t := Exec(s, ws).0;
            && AllDone(t, ws[..n])
            && (Exec(s, ws).1 <==> n == |ws|)
            && (n < |ws| ==> !Ready(t, ws[n]))
    decreases |ws|
  {
    if |ws| > 0 && Ready(s, ws[0]) {
      var u, rest := Do(s, ws[0]), ws[1..];
      DoIsIdempotent(s, ws[0]);
      ReachedIsDone(u, rest);
      ExecKeepsDone(u, rest, ws[0]);
      var n := Reached(u, rest);
      assert ws[..n + 1] == [ws[0]] + rest[..n];
    }
  }

  lemma ReachedExec(s: Store, ws: seq<Write>)
    requires DistinctTargets(ws)
    ensures Exec(Exec(s, ws).0, ws) == Exec(s, ws)
  {
    var n, t := Reached(s, ws), Exec(s, ws).0;
    ReachedIsDone(s, ws);
    ExecDone(t, ws[..n]);
    assert ws == ws[..n] + ws[n..];
    ExecAppend(t, ws[..n], ws[n..]);
  }

  /** Stopping after any write and running again ends where one clean run ends, errors included. */
  lemma ResumeExec(s: Store, ws: seq<Write>, k: nat)
    requires DistinctTargets(ws) && k <= |ws|
    ensures Exec(Exec(s, ws[..k]).0, ws) == Exec(s, ws)
  {
    var xs, ys := ws[..k], ws[k..];
    var t := Exec(s, xs).0;
    assert ws == xs + ys;
    ReachedExec(s, xs);
    ExecAppend(s, xs, ys);
    ExecAppend(t, xs, ys);
  }

  // ---- a validated file ----

  lemma {:induction false} CredentialTargets(cs: seq<CredentialDecl>)
    ensures var ws := CredentialWrites(cs);
            |ws| == |cs| && forall i :: 0 <= i < |ws| ==> Target(ws[i]) == CredentialSlot(cs[i].name)
  {
    if |cs| > 0 {
      CredentialTargets(cs[..|cs| - 1]);
    }
  }

  lemma {:induction false} MailboxTargets(ms: seq<MailboxDecl>, lower: Name -> Name)
    ensures var ws := MailboxWrites(ms, lower);
            |ws| == |ms| && forall i :: 0 <= i < |ws| ==> Target(ws[i]) == MailboxSlot(lower(ms[i].address))
  {
    if |ms| > 0 {
      MailboxTargets(ms[..|ms| - 1], lower);
    }
  }

  /** The three objects of an account, by position in the plan. */
  function AccountTarget(u: Name, r: int): Slot {
    if r == 0 then AccountSlot(u) else if r == 1 then LinksSlot(u) else SendersSlot(u)
  }

  lemma {:induction false} AccountTargets(ms: seq<MailboxDecl>, accounts: seq<AccountDecl>, lower: Name -> Name)
    ensures var ws := AccountWrites(ms, accounts, lower);
            |ws| == 3 * |accounts|
            && forall i :: 0 <= i < |ws| ==> Target(ws[i]) == AccountTarget(accounts[i / 3].username, i % 3)
  {
    if |accounts| > 0 {
      AccountTargets(ms, accounts[..|accounts| - 1], lower);
    }
  }

  /** A validated file writes every object once. */
  lemma PlanTargetsDistinct(f: File, lower: Name -> Name)
    requires Validated(f, lower)
    ensures DistinctTargets(Plan(f, lower))
  {
    CredentialTargets(f.credentials);
    MailboxTargets(f.mailboxes, lower);
    AccountTargets(f.mailboxes, f.accounts, lower);
    var xs, ys, zs := CredentialWrites(f.credentials), MailboxWrites(f.mailboxes, lower), AccountWrites(f.mailboxes, f.accounts, lower);
    forall i, j | 0 <= i < j < |zs|
      ensures Target(zs[i]) != Target(zs[j])
    {
      if i / 3 < j / 3 {
        assert f.accounts[i / 3].username != f.accounts[j / 3].username;
      }
    }
    DistinctAppend(xs, ys);
    DistinctAppend(xs + ys, zs);
  }

  lemma DistinctAppend(xs: seq<Write>, ys: seq<Write>)
    requires DistinctTargets(xs) && DistinctTargets(ys)
    requires forall i, j :: 0 <= i < |xs| && 0 <= j < |ys| ==> Target(xs[i]) != Target(ys[j])
    ensures DistinctTargets(xs + ys)
  {
  }

  /**
   * Reconciling a validated file can be stopped after any write: running it again reaches exactly the
   * state, and the success or failure, of one clean run.
   */
  lemma ReconcileResumes(f: File, lower: Name -> Name, s: Store, k: nat)
    requires Validated(f, lower) && k <= |Plan(f, lower)|
    ensures Exec(Exec(s, Plan(f, lower)[..k]).0, Plan(f, lower)) == Exec(s, Plan(f, lower))
  {
    PlanTargetsDistinct(f, lower);
    ResumeExec(s, Plan(f, lower), k);
  }

  /** The state after runs that were stopped, one after the other, after so many writes each. */
  function Interrupted(s: Store, ws: seq<Write>, stops: seq<nat>): Store {
    if |stops| == 0 then s
    else
      var t := Interrupted(s, ws, stops[..|stops| - 1]);
      var k := stops[|stops| - 1];
      Exec(t, ws[..if k <= |ws| then k else |ws|]).0
  }

  /** However often it is interrupted, the first run that is not ends where one clean run ends. */
  lemma {:induction false} ReconcileSurvivesInterruptions(f: File, lower: Name -> Name, s: Store, stops: seq<nat>)
    requires Validated(f, lower)
    ensures Exec(Interrupted(s, Plan(f, lower), stops), Plan(f, lower)) == Exec(s, Plan(f, lower))
  {
    if |stops| > 0 {
      var ws, k := Plan(f, lower), stops[|stops| - 1];
      var t := Interrupted(s, ws, stops[..|stops| - 1]);
      ReconcileSurvivesInterruptions(f, lower, s, stops[..|stops| - 1]);
      ReconcileResumes(f, lower, t, if k <= |ws| then k else |ws|);
    }
  }

  // ---- what a run creates ----

  lemma {:induction false} TallyAppend(s: Store, xs: seq<Write>, ys: seq<Write>)
    ensures Exec(s, xs).1 ==>
              && Created(s, xs + ys) == Created(s, xs) + Created(Exec(s, xs).0, ys)
              && Updated(s, xs + ys) == Updated(s, xs) + Updated(Exec(s, xs).0, ys)
    ensures !Exec(s, xs).1 ==> Tally(s, xs + ys, Created(s, xs), Updated(s, xs))
    decreases |xs|
  {
    if |xs| == 0 {
      assert xs + ys == ys;
    } else {
      assert (xs + ys)[0] == xs[0] && (xs + ys)[1..] == xs[1..] + ys;
      if Ready(s, xs[0]) {
        TallyAppend(Do(s, xs[0]), xs[1..], ys);
      }
    }
  }

  lemma DoneCreates(s: Store, w: Write)
    requires Done(s, w)
    ensures !Creates(s, w)
  {
    var t := Do(s, w);
    assert w.PutCredential? ==> w.c.name in t.credentials;
    assert w.PutMailbox? ==> w.address in t.mailboxes;
    assert w.PutAccount? ==> w.a.username in t.accounts;
  }

  lemma {:induction false} DoneCreatesNothing(s: Store, ws: seq<Write>)
    requires AllDone(s, ws)
    ensures Created(s, ws) == 0
  {
    if |ws| > 0 {
      assert Done(s, ws[0]);
      DoneCreates(s, ws[0]);
      DoneCreatesNothing(s, ws[1..]);
    }
  }

  /** A further run after a complete one creates nothing and changes nothing. */
  lemma SecondRunCreatesNothing(f: File, lower: Name -> Name, s: Store)
    requires Validated(f, lower) && Exec(s, Plan(f, lower)).1
    ensures var t := Exec(s, Plan(f, lower)).0;
            Created(t, Plan(f, lower)) == 0 && Exec(t, Plan(f, lower)) == (t, true)
  {
    var ws := Plan(f, lower);
    PlanTargetsDistinct(f, lower);
    ReachedIsDone(s, ws);
    assert ws[..|ws|] == ws;
    DoneCreatesNothing(Exec(s, ws).0, ws);
    ExecDone(Exec(s, ws).0, ws);
  }
}
