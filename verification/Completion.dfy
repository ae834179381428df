/** When a run completes, what it then counts, and which default an account is left with. */
module Completion {
  import opened Common
  import opened Bootstrap
  import opened Reconcile
  import opened References
  import opened Applier
  import opened Grants

  // ---- the tables a run goes through ----

  function Names(cs: seq<CredentialDecl>): set<Name> {
    set i | 0 <= i < |cs| :: cs[i].name
  }

  function Users(accounts: seq<AccountDecl>): set<Name> {
    set i | 0 <= i < |accounts| :: accounts[i].username
  }

  lemma NamesSnoc(cs: seq<CredentialDecl>)
    requires |cs| > 0
    ensures Names(cs) == Names(cs[..|cs| - 1]) + {cs[|cs| - 1].name}
  {
    var front := cs[..|cs| - 1];
    assert forall i :: 0 <= i < |front| ==> front[i] == cs[i];
  }

  lemma UsersSnoc(accounts: seq<AccountDecl>)
    requires |accounts| > 0
    ensures Users(accounts) == Users(accounts[..|accounts| - 1]) + {accounts[|accounts| - 1].username}
  {
    var front := accounts[..|accounts| - 1];
    assert forall i :: 0 <= i < |front| ==> front[i] == accounts[i];
  }

  /** Every mailbox refers to a credential there is. */
  ghost predicate CredentialsThere(ms: seq<MailboxDecl>, there: set<Name>) {
    forall i :: 0 <= i < |ms| ==> ms[i].credential in there
  }

  /** Every account lists mailboxes there are. */
  ghost predicate MailboxesThere(accounts: seq<AccountDecl>, lower: Name -> Name, there: set<Name>) {
    forall i :: 0 <= i < |accounts| ==> NameSet(Lowered(accounts[i].mailboxes, lower)) <= there
  }

  lemma {:induction false} CredentialsRun(s: Store, cs: seq<CredentialDecl>)
    ensures var (t, ok) := Exec(s, CredentialWrites(cs));
            ok && t.mailboxes == s.mailboxes && t.accounts == s.accounts && t.credentials.Keys == s.credentials.Keys + Names(cs)
  {
    if |cs| > 0 {
      var front, w := cs[..|cs| - 1], PutCredential(cs[|cs| - 1]);
      CredentialsRun(s, front);
      ExecSnoc(s, CredentialWrites(front), w);
      NamesSnoc(cs);
    }
  }

  lemma CredentialsSnoc(ms: seq<MailboxDecl>, there: set<Name>)
    requires |ms| > 0
    ensures CredentialsThere(ms, there) <==> CredentialsThere(ms[..|ms| - 1], there) && ms[|ms| - 1].credential in there
  {
    var front := ms[..|ms| - 1];
    assert forall i :: 0 <= i < |front| ==> front[i] == ms[i];
  }

  lemma MailboxStep(t: Store, m: MailboxDecl, address: Name)
    ensures var r := Exec(t, [PutMailbox(m, address)]);
            && (r.1 <==> m.credential in t.credentials) && r.0.credentials == t.credentials && r.0.accounts == t.accounts
            && (r.1 ==> r.0.mailboxes.Keys == t.mailboxes.Keys + {address})
  {
    OneWrite(t, PutMailbox(m, address));
  }

  /** The mailboxes are all written exactly if the credentials they name are there. */
  ghost predicate MailboxesRan(s: Store, ms: seq<MailboxDecl>, lower: Name -> Name, r: (Store, bool)) {
    && (r.1 <==> CredentialsThere(ms, s.credentials.Keys))
    && r.0.credentials == s.credentials && r.0.accounts == s.accounts
    && (r.1 ==> r.0.mailboxes.Keys == s.mailboxes.Keys + Addresses(ms, lower))
  }

  lemma {:induction false} MailboxesRun(s: Store, ms: seq<MailboxDecl>, lower: Name -> Name)
    ensures MailboxesRan(s, ms, lower, Exec(s, MailboxWrites(ms, lower)))
  {
    if |ms| > 0 {
      var front, m := ms[..|ms| - 1], ms[|ms| - 1];
      MailboxesRun(s, front, lower);
      ExecAppend(s, MailboxWrites(front, lower), [PutMailbox(m, lower(m.address))]);
      MailboxStep(Exec(s, MailboxWrites(front, lower)).0, m, lower(m.address));
      AddressesSnoc(ms, lower);
      CredentialsSnoc(ms, s.credentials.Keys);
    }
  }

  /** One account is written exactly if all it lists is there, and no mailbox changes. */
  lemma AccountStep(t: Store, a: AccountDecl, known: set<Name>, lower: Name -> Name)
    ensures var r, listed := Exec(t, OneAccount(a, known, lower)), NameSet(Lowered(a.mailboxes, lower));
            && (r.1 <==> listed <= t.mailboxes.Keys) && r.0.mailboxes == t.mailboxes
            && (r.1 ==> r.0.accounts.Keys == t.accounts.Keys + {a.username})
  {
    AccountRun(t, a, NameSet(Lowered(a.mailboxes, lower)), DefaultOf(a, known, lower));
  }

  lemma ThereSnoc(accounts: seq<AccountDecl>, lower: Name -> Name, there: set<Name>)
    requires |accounts| > 0
    ensures MailboxesThere(accounts, lower, there) <==>
              && MailboxesThere(accounts[..|accounts| - 1], lower, there)
              && NameSet(Lowered(accounts[|accounts| - 1].mailboxes, lower)) <= there
  {
    var front := accounts[..|accounts| - 1];
    assert forall i :: 0 <= i < |front| ==> front[i] == accounts[i];
  }

  /** The accounts are all written exactly if all they list is there. */
  ghost predicate AccountsRan(s: Store, accounts: seq<AccountDecl>, lower: Name -> Name, r: (Store, bool)) {
    && (r.1 <==> MailboxesThere(accounts, lower, s.mailboxes.Keys))
    && r.0.mailboxes == s.mailboxes
    && (r.1 ==> r.0.accounts.Keys == s.accounts.Keys + Users(accounts))
  }

  lemma {:induction false} AccountsRun(s: Store, ms: seq<MailboxDecl>, accounts: seq<AccountDecl>, lower: Name -> Name)
    ensures AccountsRan(s, accounts, lower, Exec(s, AccountWrites(ms, accounts, lower)))
    decreases |accounts|
  {
    if |accounts| > 0 {
      var front, a, known := accounts[..|accounts| - 1], accounts[|accounts| - 1], Known(ms, accounts, lower);
      AccountsRun(s, ms, front, lower);
      ExecAppend(s, AccountWrites(ms, front, lower), OneAccount(a, known, lower));
      AccountStep(Exec(s, AccountWrites(ms, front, lower)).0, a, known, lower);
      UsersSnoc(accounts);
      ThereSnoc(accounts, lower, s.mailboxes.Keys);
    }
  }

  /** The store after the first part of the plan, and after the second. */
  lemma {:induction false} PlanInParts(f: File, lower: Name -> Name, s: Store) returns (t: Store, u: Store)
    ensures t == Exec(s, CredentialWrites(f.credentials)).0 && u == Exec(t, MailboxWrites(f.mailboxes, lower)).0
    ensures t.mailboxes == s.mailboxes && u.accounts == t.accounts == s.accounts
    ensures t.credentials.Keys == s.credentials.Keys + Names(f.credentials)
    ensures var xy := CredentialWrites(f.credentials) + MailboxWrites(f.mailboxes, lower);
            && Exec(s, xy) == (u, CredentialsThere(f.mailboxes, t.credentials.Keys))
            && Exec(s, Plan(f, lower)) == if Exec(s, xy).1 then Exec(u, AccountWrites(f.mailboxes, f.accounts, lower)) else Exec(s, xy)
  {
    var xs, ys := CredentialWrites(f.credentials), MailboxWrites(f.mailboxes, lower);
    CredentialsRun(s, f.credentials);
    t := Exec(s, xs).0;
    MailboxesRun(t, f.mailboxes, lower);
    u := Exec(t, ys).0;
    ExecAppend(s, xs, ys);
    ExecAppend(s, xs + ys, AccountWrites(f.mailboxes, f.accounts, lower));
  }

  /**
   * A run completes exactly if every mailbox names a credential that the file declares or the store has, and every
   * account lists only mailboxes that the file declares or the store has.
   */
  lemma {:induction false} CompletesExactly(f: File, lower: Name -> Name, s: Store)
    ensures Exec(s, Plan(f, lower)).1 <==>
              && CredentialsThere(f.mailboxes, s.credentials.Keys + Names(f.credentials))
              && MailboxesThere(f.accounts, lower, s.mailboxes.Keys + Addresses(f.mailboxes, lower))
  {
    var t, u := PlanInParts(f, lower, s);
    MailboxesRun(t, f.mailboxes, lower);
    AccountsRun(u, f.mailboxes, f.accounts, lower);
  }

  // ---- what it counts ----

  ghost predicate DistinctNames(cs: seq<CredentialDecl>) {
    forall i, j :: 0 <= i < j < |cs| ==> cs[i].name != cs[j].name
  }

  ghost predicate DistinctAddresses(ms: seq<MailboxDecl>, lower: Name -> Name) {
    forall i, j :: 0 <= i < j < |ms| ==> lower(ms[i].address) != lower(ms[j].address)
  }

  ghost predicate DistinctUsers(accounts: seq<AccountDecl>) {
    forall i, j :: 0 <= i < j < |accounts| ==> accounts[i].username != accounts[j].username
  }

  /** A run of the writes creates `n` objects, and creates or updates `all`. */
  ghost predicate Counts(s: Store, ws: seq<Write>, n: nat, all: nat) {
    Created(s, ws) == n && Created(s, ws) + Updated(s, ws) == all
  }

  /** One more name, which is not among those before. */
  lemma OneMoreNew(names: set<Name>, n: Name, had: set<Name>)
    requires n !in names
    ensures |(names + {n}) - had| == |names - had| + if n in had then 0 else 1
  {
    if n in had {
      assert (names + {n}) - had == names - had;
    } else {
      assert (names + {n}) - had == (names - had) + {n};
    }
  }

  lemma {:induction false} CredentialsCount(s: Store, cs: seq<CredentialDecl>)
    requires DistinctNames(cs)
    ensures Counts(s, CredentialWrites(cs), |Names(cs) - s.credentials.Keys|, |cs|)
  {
    if |cs| > 0 {
      var front, c := cs[..|cs| - 1], cs[|cs| - 1];
      CredentialsCount(s, front);
      CredentialsRun(s, front);
      TallyAppend(s, CredentialWrites(front), [PutCredential(c)]);
      OneWrite(Exec(s, CredentialWrites(front)).0, PutCredential(c));
      NamesSnoc(cs);
      OneMoreNew(Names(front), c.name, s.credentials.Keys);
    }
  }

  lemma NewAddress(ms: seq<MailboxDecl>, lower: Name -> Name)
    requires |ms| > 0 && DistinctAddresses(ms, lower)
    ensures DistinctAddresses(ms[..|ms| - 1], lower) && lower(ms[|ms| - 1].address) !in Addresses(ms[..|ms| - 1], lower)
  {
    var front := ms[..|ms| - 1];
    assert forall i :: 0 <= i < |front| ==> front[i] == ms[i];
  }

  /** One more mailbox counts as created if the table does not have it, and as updated otherwise. */
  lemma MailboxCounts(s: Store, ws: seq<Write>, m: MailboxDecl, address: Name, n: nat, all: nat)
    requires Exec(s, ws).1 && m.credential in Exec(s, ws).0.credentials && Counts(s, ws, n, all)
    ensures Counts(s, ws + [PutMailbox(m, address)], n + if address in Exec(s, ws).0.mailboxes then 0 else 1, all + 1)
  {
    TallyAppend(s, ws, [PutMailbox(m, address)]);
    OneWrite(Exec(s, ws).0, PutMailbox(m, address));
  }

  lemma {:induction false} MailboxesCount(s: Store, ms: seq<MailboxDecl>, lower: Name -> Name)
    requires DistinctAddresses(ms, lower) && CredentialsThere(ms, s.credentials.Keys)
    ensures Counts(s, MailboxWrites(ms, lower), |Addresses(ms, lower) - s.mailboxes.Keys|, |ms|)
  {
    if |ms| > 0 {
      var front, m := ms[..|ms| - 1], ms[|ms| - 1];
      CredentialsSnoc(ms, s.credentials.Keys);
      NewAddress(ms, lower);
      MailboxesCount(s, front, lower);
      MailboxesRun(s, front, lower);
      MailboxCounts(s, MailboxWrites(front, lower), m, lower(m.address), |Addresses(front, lower) - s.mailboxes.Keys|, |front|);
      AddressesSnoc(ms, lower);
      OneMoreNew(Addresses(front, lower), lower(m.address), s.mailboxes.Keys);
    }
  }

  lemma {:induction false} AccountsCount(s: Store, ms: seq<MailboxDecl>, accounts: seq<AccountDecl>, lower: Name -> Name)
    requires DistinctUsers(accounts) && MailboxesThere(accounts, lower, s.mailboxes.Keys)
    ensures Counts(s, AccountWrites(ms, accounts, lower), |Users(accounts) - s.accounts.Keys|, |accounts|)
    decreases |accounts|
  {
    if |accounts| > 0 {
      var front, a, known := accounts[..|accounts| - 1], accounts[|accounts| - 1], Known(ms, accounts, lower);
      AccountsCount(s, ms, front, lower);
      AccountsRun(s, ms, front, lower);
      TallyAppend(s, AccountWrites(ms, front, lower), OneAccount(a, known, lower));
      AccountRun(Exec(s, AccountWrites(ms, front, lower)).0, a, NameSet(Lowered(a.mailboxes, lower)), DefaultOf(a, known, lower));
      UsersSnoc(accounts);
      OneMoreNew(Users(front), a.username, s.accounts.Keys);
    }
  }

  /** A complete run creates exactly the declared objects the store did not have, and updates all the others. */
  lemma {:induction false} CountsExactly(f: File, lower: Name -> Name, s: Store)
    requires Validated(f, lower) && Exec(s, Plan(f, lower)).1
    ensures Counts(s, Plan(f, lower),
                   |Names(f.credentials) - s.credentials.Keys| + |Addresses(f.mailboxes, lower) - s.mailboxes.Keys|
                   + |Users(f.accounts) - s.accounts.Keys|,
                   |f.credentials| + |f.mailboxes| + |f.accounts|)
  {
    var t, u := PlanInParts(f, lower, s);
    var xs, ys, zs := CredentialWrites(f.credentials), MailboxWrites(f.mailboxes, lower), AccountWrites(f.mailboxes, f.accounts, lower);
    CredentialsRun(s, f.credentials);
    AccountsRun(u, f.mailboxes, f.accounts, lower);
    CredentialsCount(s, f.credentials);
    MailboxesCount(t, f.mailboxes, lower);
    AccountsCount(u, f.mailboxes, f.accounts, lower);
    TallyAppend(s, xs, ys);
    TallyAppend(s, xs + ys, zs);
  }

  // ---- the stored default ----

  /** The file declares the address as a mailbox, or one of its first `n` accounts lists it. */
  ghost predicate Mentioned(f: File, n: nat, lower: Name -> Name, address: Name)
    requires n <= |f.accounts|
  {
    || (exists j :: 0 <= j < |f.mailboxes| && lower(f.mailboxes[j].address) == address)
    || (exists i, m :: 0 <= i < n && m in f.accounts[i].mailboxes && lower(m) == address)
  }

  lemma LoweredHas(names: seq<Name>, lower: Name -> Name, address: Name)
    ensures address in NameSet(Lowered(names, lower)) <==> exists m :: m in names && lower(m) == address
  {
    var ls := Lowered(names, lower);
    if address in NameSet(ls) {
      var i :| 0 <= i < |ls| && ls[i] == address;
      assert names[i] in names;
    }
    if m :| m in names && lower(m) == address {
      var i :| 0 <= i < |names| && names[i] == m;
      assert ls[i] == address;
    }
  }

  lemma {:induction false} KnownExactly(f: File, n: nat, lower: Name -> Name, address: Name)
    requires n <= |f.accounts|
    ensures address in Known(f.mailboxes, f.accounts[..n], lower) <==> Mentioned(f, n, lower, address)
  {
    if n > 0 {
      KnownExactly(f, n - 1, lower, address);
      NextAccount(f.mailboxes, f.accounts, n - 1, lower);
      LoweredHas(f.accounts[n - 1].mailboxes, lower, address);
      if Mentioned(f, n, lower, address) && !Mentioned(f, n - 1, lower, address) {
        var i, m :| 0 <= i < n && m in f.accounts[i].mailboxes && lower(m) == address;
        assert i == n - 1;
      }
    }
  }

  /**
   * The default stored for an account after a complete run: the declared one if its address is declared as a mailbox
   * of the file or listed by this account or an earlier one, and none otherwise; without a declared one the first
   * mailbox it lists, if any.
   */
  lemma {:induction false} DefaultStored(f: File, lower: Name -> Name, s: Store, i: nat)
    requires Validated(f, lower) && Exec(s, Plan(f, lower)).1 && i < |f.accounts|
    ensures var a, t := f.accounts[i], Exec(s, Plan(f, lower)).0;
            && a.username in t.accounts
            && var stored := t.accounts[a.username].defaultMailbox;
               && (a.defaultMailbox.Some? && Mentioned(f, i + 1, lower, lower(a.defaultMailbox.value)) ==>
                     stored == Some(lower(a.defaultMailbox.value)))
               && (a.defaultMailbox.Some? && !Mentioned(f, i + 1, lower, lower(a.defaultMailbox.value)) ==> stored.None?)
               && (a.defaultMailbox.None? && |a.mailboxes| > 0 ==> stored == Some(lower(a.mailboxes[0])))
               && (a.defaultMailbox.None? && |a.mailboxes| == 0 ==> stored.None?)
  {
    var a := f.accounts[i];
    StoredGrant(f, lower, s, i);
    if a.defaultMailbox.Some? {
      KnownExactly(f, i + 1, lower, lower(a.defaultMailbox.value));
    }
  }
}
