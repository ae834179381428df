/**
 * What accounts may send as once a file is applied: their linked mailboxes together with their default.
 * A default is resolved only among the addresses known when its account is reached.
 */
module Grants {
  import opened Common
  import opened Bootstrap
  import opened Reconcile
  import opened References
  import opened Applier

  /** The mailboxes an account may send as: those linked to it and its default, as far as they exist. */
  function Granted(s: Store, user: Name): set<Name> {
    var linked := if user in s.links then s.links[user] else {};
    var default := if user in s.accounts then s.accounts[user].defaultMailbox else None;
    (linked + if default.Some? then {default.value} else {}) * s.mailboxes.Keys
  }

  /** The addresses known when the `i`-th account is reached. */
  function KnownAt(f: File, i: nat, lower: Name -> Name): set<Name>
    requires i < |f.accounts|
  {
    Known(f.mailboxes, f.accounts[..i + 1], lower)
  }

  // ---- what a run knows exists ----

  /** After a complete run every mailbox it showed to exist does. */
  lemma {:induction false} ShownExist(s: Store, ws: seq<Write>)
    requires Exec(s, ws).1
    ensures AllShown(ws) <= Exec(s, ws).0.mailboxes.Keys
    decreases |ws|
  {
    if |ws| > 0 {
      var xs, w := ws[..|ws| - 1], ws[|ws| - 1];
      assert ws == xs + [w];
      ExecSnoc(s, xs, w);
      ShownExist(s, xs);
      DoShows(Exec(s, xs).0, w);
    }
  }

  lemma {:induction false} DoShows(s: Store, w: Write)
    requires Ready(s, w)
    ensures s.mailboxes.Keys + Shows(w) <= Do(s, w).mailboxes.Keys
  {
  }

  lemma {:induction false} KnownGrows(ms: seq<MailboxDecl>, accounts: seq<AccountDecl>, i: nat, lower: Name -> Name)
    requires i <= |accounts|
    ensures Known(ms, accounts[..i], lower) <= Known(ms, accounts, lower)
    decreases |accounts|
  {
    if i < |accounts| {
      var front := accounts[..|accounts| - 1];
      KnownGrows(ms, front, i, lower);
      assert front[..i] == accounts[..i];
    } else {
      assert accounts[..i] == accounts;
    }
  }

  /** Hence every address known at some account exists in the end. */
  lemma KnownExist(f: File, lower: Name -> Name, s: Store, i: nat)
    requires Exec(s, Plan(f, lower)).1 && i < |f.accounts|
    ensures KnownAt(f, i, lower) <= Exec(s, Plan(f, lower)).0.mailboxes.Keys
    ensures NameSet(Lowered(f.accounts[i].mailboxes, lower)) <= KnownAt(f, i, lower)
  {
    CredentialsBacked(f.credentials);
    MailboxesBacked(CredentialWrites(f.credentials), f.mailboxes, lower);
    AccountsBacked(CredentialWrites(f.credentials) + MailboxWrites(f.mailboxes, lower), f.mailboxes, f.accounts, lower);
    ShownExist(s, Plan(f, lower));
    KnownGrows(f.mailboxes, f.accounts, i + 1, lower);
    NextAccount(f.mailboxes, f.accounts, i, lower);
  }

  // ---- the grant of a declared account ----

  /** What the declaration comes to: the mailboxes it lists, and its default if that is a known address. */
  function Intended(a: AccountDecl, known: set<Name>, lower: Name -> Name): set<Name> {
    NameSet(Lowered(a.mailboxes, lower))
    + if a.defaultMailbox.Some? && lower(a.defaultMailbox.value) in known then {lower(a.defaultMailbox.value)} else {}
  }

  /** The account as stored after a complete run: its links and its default. */
  lemma {:induction false} StoredGrant(f: File, lower: Name -> Name, s: Store, i: nat)
    requires Validated(f, lower) && Exec(s, Plan(f, lower)).1 && i < |f.accounts|
    ensures var a, t := f.accounts[i], Exec(s, Plan(f, lower)).0;
            && a.username in t.accounts && a.username in t.links
            && t.links[a.username] == NameSet(Lowered(a.mailboxes, lower))
            && t.accounts[a.username].defaultMailbox == DefaultOf(a, KnownAt(f, i, lower), lower)
  {
    var ws := Plan(f, lower);
    PlanTargetsDistinct(f, lower);
    var k := AccountAt(f, i, lower);
    assert ws[k] == ws[k..k + 3][0] && ws[k + 1] == ws[k..k + 3][1];
    WrittenOnce(s, ws, k);
    WrittenOnce(s, ws, k + 1);
  }

  lemma DefaultIntended(a: AccountDecl, known: set<Name>, lower: Name -> Name)
    requires NameSet(Lowered(a.mailboxes, lower)) <= known
    ensures var default := DefaultOf(a, known, lower);
            && NameSet(Lowered(a.mailboxes, lower)) + (if default.Some? then {default.value} else {}) == Intended(a, known, lower)
            && Intended(a, known, lower) <= known
  {
    if |a.mailboxes| > 0 {
      assert Lowered(a.mailboxes, lower)[0] in NameSet(Lowered(a.mailboxes, lower));
    }
  }

  /**
   * After a complete run a declared account may send as exactly what its declaration comes to; for one that
   * lists mailboxes, as exactly those, since a validated default is among them.
   */
  lemma GrantIsIntended(f: File, lower: Name -> Name, s: Store, i: nat)
    requires Validated(f, lower) && Exec(s, Plan(f, lower)).1 && i < |f.accounts|
    ensures Granted(Exec(s, Plan(f, lower)).0, f.accounts[i].username) == Intended(f.accounts[i], KnownAt(f, i, lower), lower)
    ensures |f.accounts[i].mailboxes| > 0 ==>
              Granted(Exec(s, Plan(f, lower)).0, f.accounts[i].username) == NameSet(Lowered(f.accounts[i].mailboxes, lower))
  {
    assert ListsDefault(f.accounts[i], lower);
    StoredGrant(f, lower, s, i);
    KnownExist(f, lower, s, i);
    DefaultIntended(f.accounts[i], KnownAt(f, i, lower), lower);
  }

  /**
   * A declared default is granted if and only if its address is known when the account is reached: declared
   * as a mailbox of the file, or listed by this account or an earlier one. That it exists in the store is
   * not enough.
   */
  lemma DefaultGrantedExactly(f: File, lower: Name -> Name, s: Store, i: nat)
    requires Validated(f, lower) && Exec(s, Plan(f, lower)).1 && i < |f.accounts| && f.accounts[i].defaultMailbox.Some?
    ensures var default := lower(f.accounts[i].defaultMailbox.value);
            default in Granted(Exec(s, Plan(f, lower)).0, f.accounts[i].username) <==> default in KnownAt(f, i, lower)
  {
    GrantIsIntended(f, lower, s, i);
    KnownExist(f, lower, s, i);
  }

  /** A declared account may send as nothing iff it lists no mailbox and has no default, or one not known. */
  lemma GrantEmptyExactly(f: File, lower: Name -> Name, s: Store, i: nat)
    requires Validated(f, lower) && Exec(s, Plan(f, lower)).1 && i < |f.accounts|
    ensures var a := f.accounts[i];
            Granted(Exec(s, Plan(f, lower)).0, a.username) == {} <==>
              |a.mailboxes| == 0 && (a.defaultMailbox.None? || lower(a.defaultMailbox.value) !in KnownAt(f, i, lower))
  {
    var a := f.accounts[i];
    GrantIsIntended(f, lower, s, i);
    if |a.mailboxes| > 0 {
      assert Lowered(a.mailboxes, lower)[0] in NameSet(Lowered(a.mailboxes, lower));
    }
  }

  // ---- a default that is dropped ----

  /** Accounts that list only mailboxes the store has are all written. */
  lemma {:induction false} AccountsComplete(ms: seq<MailboxDecl>, accounts: seq<AccountDecl>, lower: Name -> Name, s: Store)
    requires forall i :: 0 <= i < |accounts| ==> NameSet(Lowered(accounts[i].mailboxes, lower)) <= s.mailboxes.Keys
    ensures Exec(s, AccountWrites(ms, accounts, lower)).1
    ensures Exec(s, AccountWrites(ms, accounts, lower)).0.mailboxes == s.mailboxes
    decreases |accounts|
  {
    if |accounts| > 0 {
      var front, a, known := accounts[..|accounts| - 1], accounts[|accounts| - 1], Known(ms, accounts, lower);
      AccountsComplete(ms, front, lower, s);
      var t := Exec(s, AccountWrites(ms, front, lower)).0;
      ExecAppend(s, AccountWrites(ms, front, lower), OneAccount(a, known, lower));
      AccountRun(t, a, NameSet(Lowered(a.mailboxes, lower)), DefaultOf(a, known, lower));
    }
  }

  /** An account that only lists a mailbox, and one that only names it as its default. */
  function Lister(user: Name, mailbox: Name): AccountDecl {
    AccountDecl(user, "", "$argon2id$", [mailbox], None, [], "", [], 0, false)
  }

  function Defaulter(user: Name, mailbox: Name): AccountDecl {
    AccountDecl(user, "", "$argon2id$", [], Some(mailbox), [], "", [], 0, false)
  }

  function Accounts(first: AccountDecl, second: AccountDecl): File {
    File([], [], [first, second])
  }

  lemma AccountsRun(first: AccountDecl, second: AccountDecl, lower: Name -> Name, s: Store)
    requires NameSet(Lowered(first.mailboxes, lower)) <= s.mailboxes.Keys && NameSet(Lowered(second.mailboxes, lower)) <= s.mailboxes.Keys
    ensures Exec(s, Plan(Accounts(first, second), lower)).1
  {
    var f := Accounts(first, second);
    AccountsComplete([], f.accounts, lower, s);
    assert Plan(f, lower) == AccountWrites([], f.accounts, lower);
  }

  lemma AccountsKnown(first: AccountDecl, second: AccountDecl, lower: Name -> Name)
    ensures var f := Accounts(first, second);
            && KnownAt(f, 0, lower) == NameSet(Lowered(first.mailboxes, lower))
            && KnownAt(f, 1, lower) == NameSet(Lowered(first.mailboxes, lower)) + NameSet(Lowered(second.mailboxes, lower))
  {
    var f := Accounts(first, second);
    assert f.accounts[..0] == [] && Addresses([], lower) == {};
    NextAccount([], f.accounts, 0, lower);
    NextAccount([], f.accounts, 1, lower);
  }

  lemma Listed(lister: Name, user: Name, mailbox: Name, lower: Name -> Name)
    ensures NameSet(Lowered(Lister(lister, mailbox).mailboxes, lower)) == {lower(mailbox)}
    ensures NameSet(Lowered(Defaulter(user, mailbox).mailboxes, lower)) == {}
  {
    assert Lowered([mailbox], lower) == [lower(mailbox)];
  }

  lemma GrantedAfter(lower: Name -> Name, s: Store, lister: Name, user: Name, mailbox: Name)
    requires lower(mailbox) in s.mailboxes && lister != user
    ensures var f := Accounts(Lister(lister, mailbox), Defaulter(user, mailbox));
            Validated(f, lower) && Exec(s, Plan(f, lower)).1 && Granted(Exec(s, Plan(f, lower)).0, user) == {lower(mailbox)}
  {
    var l, d := Lister(lister, mailbox), Defaulter(user, mailbox);
    Listed(lister, user, mailbox, lower);
    AccountsRun(l, d, lower, s);
    AccountsKnown(l, d, lower);
    GrantIsIntended(Accounts(l, d), lower, s, 1);
  }

  lemma NotGrantedBefore(lower: Name -> Name, s: Store, lister: Name, user: Name, mailbox: Name)
    requires lower(mailbox) in s.mailboxes && lister != user
    ensures var f := Accounts(Defaulter(user, mailbox), Lister(lister, mailbox));
            Validated(f, lower) && Exec(s, Plan(f, lower)).1 && Granted(Exec(s, Plan(f, lower)).0, user) == {}
  {
    var l, d := Lister(lister, mailbox), Defaulter(user, mailbox);
    Listed(lister, user, mailbox, lower);
    AccountsRun(d, l, lower, s);
    AccountsKnown(d, l, lower);
    GrantIsIntended(Accounts(d, l), lower, s, 0);
  }

  /**
   * The order of accounts matters: with a mailbox that only the store has, an account whose default it is
   * may send as it when an earlier account of the file lists it, and as nothing when a later one does.
   */
  lemma OrderDecidesGrant(lower: Name -> Name, s: Store, lister: Name, user: Name, mailbox: Name)
    requires lower(mailbox) in s.mailboxes && lister != user
    ensures var after := Accounts(Lister(lister, mailbox), Defaulter(user, mailbox));
            var before := Accounts(Defaulter(user, mailbox), Lister(lister, mailbox));
            && Validated(after, lower) && Validated(before, lower)
            && Exec(s, Plan(after, lower)).1 && Exec(s, Plan(before, lower)).1
            && Granted(Exec(s, Plan(after, lower)).0, user) == {lower(mailbox)}
            && Granted(Exec(s, Plan(before, lower)).0, user) == {}
  {
    GrantedAfter(lower, s, lister, user, mailbox);
    NotGrantedBefore(lower, s, lister, user, mailbox);
  }
}
