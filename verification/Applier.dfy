/** The run in place: the store's tables written object by object, against the plan of the file. */
module Applier {
  import opened Common
  import opened Bootstrap
  import opened Reconcile

  /** A write and two more that are not counted. */
  lemma {:induction false} ThreeWrites(s: Store, x: Write, y: Write, z: Write)
    requires Ready(s, x) && Ready(Do(s, x), y) && Ready(Do(Do(s, x), y), z)
    requires Counted(x) && !Counted(y) && !Counted(z)
    ensures Exec(s, [x, y, z]) == (Do(Do(Do(s, x), y), z), true)
    ensures if Creates(s, x) then Tally(s, [x, y, z], 1, 0) else Tally(s, [x, y, z], 0, 1)
  {
    assert [x, y, z][1..] == [y, z] && [y, z][1..] == [z];
    OneWrite(Do(Do(s, x), y), z);
  }

  /** The store after an account was written. */
  function WithAccount(s: Store, a: AccountDecl, default: Option<Name>, ms: set<Name>): Store {
    var lastUsed := if a.username in s.accounts then s.accounts[a.username].lastUsed else None;
    s.(accounts := s.accounts[a.username := WriteAccount(lastUsed, a, default)],
       links := s.links[a.username := ms],
       senders := s.senders[a.username := Patterns(a.allowedSenders)])
  }

  lemma {:induction false} AccountSteps(s: Store, a: AccountDecl, ms: set<Name>, default: Option<Name>)
    requires ms <= s.mailboxes.Keys
    ensures var x, y, z := PutAccount(a, ms, default), SetMailboxes(a.username, ms), SetSenders(a.username, Patterns(a.allowedSenders));
            && Ready(s, x) && Ready(Do(s, x), y) && Ready(Do(Do(s, x), y), z)
            && Do(Do(Do(s, x), y), z) == WithAccount(s, a, default, ms)
  {
    var x, y := PutAccount(a, ms, default), SetMailboxes(a.username, ms);
    var s1 := Do(s, x);
    assert s1 == s.(accounts := WithAccount(s, a, default, ms).accounts);
    var s2 := Do(s1, y);
    assert s2 == s1.(links := s.links[a.username := ms]);
  }

  /** An account is written whole, or not at all when one of its mailboxes is unknown. */
  lemma {:induction false} AccountRun(s: Store, a: AccountDecl, ms: set<Name>, default: Option<Name>)
    ensures var x := PutAccount(a, ms, default);
            var ws := [x, SetMailboxes(a.username, ms), SetSenders(a.username, Patterns(a.allowedSenders))];
            if ms <= s.mailboxes.Keys then
              && Exec(s, ws) == (WithAccount(s, a, default, ms), true)
              && if a.username in s.accounts then Tally(s, ws, 0, 1) else Tally(s, ws, 1, 0)
            else
              Exec(s, ws) == (s, false) && Tally(s, ws, 0, 0)
  {
    var x, y, z := PutAccount(a, ms, default), SetMailboxes(a.username, ms), SetSenders(a.username, Patterns(a.allowedSenders));
    if ms <= s.mailboxes.Keys {
      AccountSteps(s, a, ms, default);
      ThreeWrites(s, x, y, z);
    } else {
      assert !Ready(s, x);
    }
  }

  /** A run continues where it left off, and a run that stopped stays stopped. */
  lemma RunOn(s: Store, xs: seq<Write>, n: nat, m: nat, ys: seq<Write>)
    requires Tally(s, xs, n, m)
    ensures Exec(s, xs).1 ==>
              && Exec(s, xs + ys) == Exec(Exec(s, xs).0, ys)
              && Tally(s, xs + ys, n + Created(Exec(s, xs).0, ys), m + Updated(Exec(s, xs).0, ys))
    ensures !Exec(s, xs).1 ==> Exec(s, xs + ys) == Exec(s, xs) && Tally(s, xs + ys, n, m)
  {
    ExecAppend(s, xs, ys);
    TallyAppend(s, xs, ys);
  }

  /** The store's tables, written one object at a time. */
  class Applier {
    const lower: Name -> Name
    var credentials: map<Name, Credential>
    var mailboxes: map<Name, Mailbox>
    var accounts: map<Name, Account>
    var links: map<Name, set<Name>>
    var senders: map<Name, set<string>>

    ghost function Value(): Store
      reads this
    {
      Store(credentials, mailboxes, accounts, links, senders)
    }

    constructor (lower: Name -> Name, s: Store)
      ensures this.lower == lower && Value() == s
    {
      this.lower := lower;
      credentials, mailboxes, accounts, links, senders := s.credentials, s.mailboxes, s.accounts, s.links, s.senders;
    }

    method ApplyCredential(c: CredentialDecl) returns (created: nat, updated: nat)
      modifies this
      ensures (Value(), true) == Exec(old(Value()), [PutCredential(c)])
      ensures Tally(old(Value()), [PutCredential(c)], created, updated)
    {
      OneWrite(Value(), PutCredential(c));
      if c.name in credentials {
        credentials := credentials[c.name := WriteCredential(credentials[c.name], c)];
        return 0, 1;
      }
      credentials := credentials[c.name := WriteCredential(NO_CREDENTIAL, c)];
      return 1, 0;
    }

    method ApplyMailbox(m: MailboxDecl) returns (ok: bool, created: nat, updated: nat)
      modifies this
      ensures (Value(), ok) == Exec(old(Value()), [PutMailbox(m, lower(m.address))])
      ensures Tally(old(Value()), [PutMailbox(m, lower(m.address))], created, updated)
    {
      var address := lower(m.address);
      OneWrite(Value(), PutMailbox(m, address));
      if m.credential !in credentials {
        return false, 0, 0;
      }
      created := if address in mailboxes then 0 else 1;
      updated := 1 - created;
      mailboxes := mailboxes[address := WriteMailbox(m)];
      ok := true;
    }

    /** `known` are the addresses resolved so far; the account's own are looked up and added. */
    method ApplyAccount(a: AccountDecl, known: set<Name>) returns (ok: bool, created: nat, updated: nat, known': set<Name>)
      modifies this
      ensures known' == known + NameSet(Lowered(a.mailboxes, lower))
      ensures (Value(), ok) == Exec(old(Value()), OneAccount(a, known', lower))
      ensures Tally(old(Value()), OneAccount(a, known', lower), created, updated)
    {
      var ms := NameSet(Lowered(a.mailboxes, lower));
      known' := known + ms;
      AccountRun(Value(), a, ms, DefaultOf(a, known', lower));
      if !(ms <= mailboxes.Keys) {
        return false, 0, 0, known';
      }
      created := if a.username in accounts then 0 else 1;
      updated := 1 - created;
      var lastUsed := if a.username in accounts then accounts[a.username].lastUsed else None;
      accounts := accounts[a.username := WriteAccount(lastUsed, a, DefaultOf(a, known', lower))];
      links := links[a.username := ms];
      senders := senders[a.username := Patterns(a.allowedSenders)];
      ok := true;
    }

    method ApplyCredentials(cs: seq<CredentialDecl>) returns (created: nat, updated: nat)
      modifies this
      ensures (Value(), true) == Exec(old(Value()), CredentialWrites(cs))
      ensures Tally(old(Value()), CredentialWrites(cs), created, updated)
    {
      created, updated := 0, 0;
      for i := 0 to |cs|
        invariant (Value(), true) == Exec(old(Value()), CredentialWrites(cs[..i]))
        invariant Tally(old(Value()), CredentialWrites(cs[..i]), created, updated)
      {
        RunOn(old(Value()), CredentialWrites(cs[..i]), created, updated, [PutCredential(cs[i])]);
        var n, m := ApplyCredential(cs[i]);
        NextCredential(cs, i);
        created, updated := created + n, updated + m;
      }
      assert cs[..|cs|] == cs;
    }

    method ApplyMailboxes(ms: seq<MailboxDecl>) returns (ok: bool, created: nat, updated: nat)
      modifies this
      ensures (Value(), ok) == Exec(old(Value()), MailboxWrites(ms, lower))
      ensures Tally(old(Value()), MailboxWrites(ms, lower), created, updated)
    {
      created, updated := 0, 0;
      for i := 0 to |ms|
        invariant (Value(), true) == Exec(old(Value()), MailboxWrites(ms[..i], lower))
        invariant Tally(old(Value()), MailboxWrites(ms[..i], lower), created, updated)
      {
        RunOn(old(Value()), MailboxWrites(ms[..i], lower), created, updated, [PutMailbox(ms[i], lower(ms[i].address))]);
        NextMailbox(ms, i, lower);
        var done, n, m := ApplyMailbox(ms[i]);
        created, updated := created + n, updated + m;
        if !done {
          ghost var rest := MailboxPrefix(ms, i + 1, lower);
          RunOn(old(Value()), MailboxWrites(ms[..i + 1], lower), created, updated, rest);
          return false, created, updated;
        }
      }
      assert ms[..|ms|] == ms;
      ok := true;
    }

    method ApplyAccounts(ms: seq<MailboxDecl>, declared: seq<AccountDecl>) returns (ok: bool, created: nat, updated: nat)
      modifies this
      ensures (Value(), ok) == Exec(old(Value()), AccountWrites(ms, declared, lower))
      ensures Tally(old(Value()), AccountWrites(ms, declared, lower), created, updated)
    {
      created, updated := 0, 0;
      var known := Addresses(ms, lower);
      for i := 0 to |declared|
        invariant known == Known(ms, declared[..i], lower)
        invariant (Value(), true) == Exec(old(Value()), AccountWrites(ms, declared[..i], lower))
        invariant Tally(old(Value()), AccountWrites(ms, declared[..i], lower), created, updated)
      {
        NextAccount(ms, declared, i, lower);
        ghost var writes := OneAccount(declared[i], Known(ms, declared[..i + 1], lower), lower);
        RunOn(old(Value()), AccountWrites(ms, declared[..i], lower), created, updated, writes);
        var done, n, m;
        done, n, m, known := ApplyAccount(declared[i], known);
        created, updated := created + n, updated + m;
        if !done {
          ghost var rest := AccountPrefix(ms, declared, i + 1, lower);
          RunOn(old(Value()), AccountWrites(ms, declared[..i + 1], lower), created, updated, rest);
          return false, created, updated;
        }
      }
      assert declared[..|declared|] == declared;
      ok := true;
    }

    /** Ends in the state, and with the outcome and the counts, of the file's plan. */
    method Apply(f: File) returns (ok: bool, created: nat, updated: nat)
      modifies this
      ensures (Value(), ok) == Exec(old(Value()), Plan(f, lower))
      ensures Tally(old(Value()), Plan(f, lower), created, updated)
    {
      ghost var xs, ys, zs := CredentialWrites(f.credentials), MailboxWrites(f.mailboxes, lower),
                              AccountWrites(f.mailboxes, f.accounts, lower);
      created, updated := ApplyCredentials(f.credentials);
      RunOn(old(Value()), xs, created, updated, ys);
      var n, m;
      ok, n, m := ApplyMailboxes(f.mailboxes);
      created, updated := created + n, updated + m;
      RunOn(old(Value()), xs + ys, created, updated, zs);
      if !ok {
        return;
      }
      ok, n, m := ApplyAccounts(f.mailboxes, f.accounts);
      created, updated := created + n, updated + m;
    }
  }
}
