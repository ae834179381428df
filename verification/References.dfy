/** What a run leaves behind: references that never dangle, and the file itself once it completes. */
module References {
  import opened Common
  import opened Bootstrap
  import opened Reconcile

  // ---- references ----

  /** No mailbox, account, link or pattern refers to something the store does not have. */
  ghost predicate Closed(s: Store) {
    && (forall n :: n in s.mailboxes ==> s.mailboxes[n].credential in s.credentials)
    && (forall u :: u in s.accounts && s.accounts[u].defaultMailbox.Some? ==> s.accounts[u].defaultMailbox.value in s.mailboxes)
    && (forall u :: u in s.links ==> u in s.accounts && s.links[u] <= s.mailboxes.Keys)
    && (forall u :: u in s.senders ==> u in s.accounts)
  }

  /** The mailboxes a write refers to, and those known to exist once it is ready or done. */
  function Refers(w: Write): set<Name> {
    match w
    case PutAccount(_, needs, default) => if default.Some? then {default.value} else {}
    case SetMailboxes(_, ms) => ms
    case _ => {}
  }

  function Shows(w: Write): set<Name> {
    match w
    case PutMailbox(_, address) => {address}
    case PutAccount(_, needs, _) => needs
    case _ => {}
  }

  function AllShown(ws: seq<Write>): set<Name> {
    if |ws| == 0 then {} else AllShown(ws[..|ws| - 1]) + Shows(ws[|ws| - 1])
  }

  /** Every write refers only to mailboxes that earlier writes, or its own lookups, show to exist. */
  ghost predicate Backed(ws: seq<Write>) {
    forall i :: 0 <= i < |ws| ==> Refers(ws[i]) <= AllShown(ws[..i + 1])
  }

  lemma {:induction false} BackedAppend(xs: seq<Write>, w: Write)
    requires Backed(xs) && Refers(w) <= AllShown(xs) + Shows(w)
    ensures Backed(xs + [w]) && AllShown(xs + [w]) == AllShown(xs) + Shows(w)
  {
    var ws := xs + [w];
    assert ws[..|ws| - 1] == xs;
    forall i | 0 <= i < |ws|
      ensures Refers(ws[i]) <= AllShown(ws[..i + 1])
    {
      if i < |xs| {
        assert ws[..i + 1] == xs[..i + 1];
      } else {
        assert ws[..i + 1] == ws;
      }
    }
  }

  lemma {:induction false} BackedPrefix(ws: seq<Write>, k: nat)
    requires Backed(ws) && k <= |ws|
    ensures Backed(ws[..k])
  {
    forall i | 0 <= i < k
      ensures Refers(ws[..k][i]) <= AllShown(ws[..k][..i + 1])
    {
      assert ws[..k][..i + 1] == ws[..i + 1];
    }
  }

  lemma DoKeepsClosed(s: Store, w: Write)
    requires Closed(s) && Ready(s, w) && Refers(w) <= s.mailboxes.Keys
    ensures Closed(Do(s, w)) && s.mailboxes.Keys + Shows(w) <= Do(s, w).mailboxes.Keys
  {
  }

  /** Wherever a backed run stops, references are intact. */
  lemma {:induction false} BackedKeepsClosed(s: Store, ws: seq<Write>)
    requires Closed(s) && Backed(ws)
    ensures Closed(Exec(s, ws).0)
    ensures Exec(s, ws).1 ==> AllShown(ws) <= Exec(s, ws).0.mailboxes.Keys
    decreases |ws|
  {
    if |ws| > 0 {
      var xs, w := ws[..|ws| - 1], ws[|ws| - 1];
      BackedPrefix(ws, |xs|);
      BackedKeepsClosed(s, xs);
      assert ws == xs + [w] && ws[..|xs| + 1] == ws;
      ExecSnoc(s, xs, w);
      var t := Exec(s, xs).0;
      if Exec(s, xs).1 && Ready(t, w) {
        assert Refers(w) <= AllShown(xs) + Shows(w);
        DoKeepsClosed(t, w);
      }
    }
  }

  lemma {:induction false} CredentialsBacked(cs: seq<CredentialDecl>)
    ensures Backed(CredentialWrites(cs)) && AllShown(CredentialWrites(cs)) == {}
  {
    if |cs| > 0 {
      var front := cs[..|cs| - 1];
      CredentialsBacked(front);
      BackedAppend(CredentialWrites(front), PutCredential(cs[|cs| - 1]));
    }
  }

  lemma {:induction false} MailboxesBacked(xs: seq<Write>, ms: seq<MailboxDecl>, lower: Name -> Name)
    requires Backed(xs) && AllShown(xs) == {}
    ensures Backed(xs + MailboxWrites(ms, lower)) && AllShown(xs + MailboxWrites(ms, lower)) == Addresses(ms, lower)
    decreases |ms|
  {
    if |ms| == 0 {
      assert xs + [] == xs;
    } else {
      var front, m := ms[..|ms| - 1], ms[|ms| - 1];
      MailboxesBacked(xs, front, lower);
      BackedAppend(xs + MailboxWrites(front, lower), PutMailbox(m, lower(m.address)));
      assert xs + MailboxWrites(ms, lower) == xs + MailboxWrites(front, lower) + [PutMailbox(m, lower(m.address))];
      AddressesSnoc(ms, lower);
    }
  }

  lemma AddressesSnoc(ms: seq<MailboxDecl>, lower: Name -> Name)
    requires |ms| > 0
    ensures Addresses(ms, lower) == Addresses(ms[..|ms| - 1], lower) + {lower(ms[|ms| - 1].address)}
  {
    var front := ms[..|ms| - 1];
    assert forall i :: 0 <= i < |front| ==> front[i] == ms[i];
  }

  lemma DefaultIsKnown(a: AccountDecl, known: set<Name>, lower: Name -> Name)
    requires NameSet(Lowered(a.mailboxes, lower)) <= known
    ensures DefaultOf(a, known, lower).Some? ==> DefaultOf(a, known, lower).value in known
  {
    if |a.mailboxes| > 0 {
      assert Lowered(a.mailboxes, lower)[0] in NameSet(Lowered(a.mailboxes, lower));
    }
  }

  lemma {:induction false} AccountBacked(xs: seq<Write>, a: AccountDecl, lower: Name -> Name)
    requires Backed(xs)
    ensures var known := AllShown(xs) + NameSet(Lowered(a.mailboxes, lower));
            Backed(xs + OneAccount(a, known, lower)) && AllShown(xs + OneAccount(a, known, lower)) == known
  {
    var ms := NameSet(Lowered(a.mailboxes, lower));
    var known := AllShown(xs) + ms;
    var ws := OneAccount(a, known, lower);
    DefaultIsKnown(a, known, lower);
    BackedThree(xs, ws[0], ws[1], ws[2]);
    assert ws == [ws[0], ws[1], ws[2]];
  }

  lemma {:induction false} BackedThree(xs: seq<Write>, x: Write, y: Write, z: Write)
    requires Backed(xs) && Refers(x) <= AllShown(xs) + Shows(x) && Refers(y) <= AllShown(xs) + Shows(x)
    requires Refers(z) == Shows(y) == Shows(z) == {}
    ensures Backed(xs + [x, y, z]) && AllShown(xs + [x, y, z]) == AllShown(xs) + Shows(x)
  {
    BackedAppend(xs, x);
    BackedAppend(xs + [x], y);
    BackedAppend(xs + [x] + [y], z);
    assert xs + [x, y, z] == xs + [x] + [y] + [z];
  }

  lemma {:induction false} AccountsBacked(xs: seq<Write>, ms: seq<MailboxDecl>, accounts: seq<AccountDecl>, lower: Name -> Name)
    requires Backed(xs) && AllShown(xs) == Addresses(ms, lower)
    ensures var ws := xs + AccountWrites(ms, accounts, lower);
            Backed(ws) && AllShown(ws) == Known(ms, accounts, lower)
    decreases |accounts|
  {
    if |accounts| == 0 {
      assert xs + [] == xs;
    } else {
      var front, a := accounts[..|accounts| - 1], accounts[|accounts| - 1];
      AccountsBacked(xs, ms, front, lower);
      AccountBacked(xs + AccountWrites(ms, front, lower), a, lower);
      Regrouped(xs, AccountWrites(ms, front, lower), OneAccount(a, Known(ms, accounts, lower), lower));
    }
  }

  lemma Regrouped(a: seq<Write>, b: seq<Write>, c: seq<Write>)
    ensures a + (b + c) == a + b + c
  {
  }

  /** In every file, and after every write of its run, no reference dangles if none did before. */
  lemma ReferencesSurvive(f: File, lower: Name -> Name, s: Store, k: nat)
    requires Closed(s) && k <= |Plan(f, lower)|
    ensures Closed(Exec(s, Plan(f, lower)[..k]).0)
  {
    CredentialsBacked(f.credentials);
    MailboxesBacked(CredentialWrites(f.credentials), f.mailboxes, lower);
    AccountsBacked(CredentialWrites(f.credentials) + MailboxWrites(f.mailboxes, lower), f.mailboxes, f.accounts, lower);
    BackedPrefix(Plan(f, lower), k);
    BackedKeepsClosed(s, Plan(f, lower)[..k]);
  }

  // ---- what a complete run leaves ----

  function Look<V>(table: map<Name, V>, n: Name): Option<V> {
    if n in table then Some(table[n]) else None
  }

  /** The two stores agree on one object. */
  predicate Same(s: Store, t: Store, slot: Slot) {
    match slot
    case CredentialSlot(n) => Look(s.credentials, n) == Look(t.credentials, n)
    case MailboxSlot(n) => Look(s.mailboxes, n) == Look(t.mailboxes, n)
    case AccountSlot(n) => Look(s.accounts, n) == Look(t.accounts, n)
    case LinksSlot(n) => Look(s.links, n) == Look(t.links, n)
    case SendersSlot(n) => Look(s.senders, n) == Look(t.senders, n)
  }

  /** A write leaves every other object alone, and what it writes depends only on its own. */
  lemma DoIsLocal(s: Store, t: Store, w: Write, slot: Slot)
    ensures Target(w) != slot ==> Same(s, Do(s, w), slot)
    ensures Same(s, t, Target(w)) ==> Same(Do(s, w), Do(t, w), Target(w))
  {
  }

  lemma {:induction false} ExecFrame(s: Store, ws: seq<Write>, slot: Slot)
    requires forall i :: 0 <= i < |ws| ==> Target(ws[i]) != slot
    ensures Same(s, Exec(s, ws).0, slot)
    decreases |ws|
  {
    if |ws| > 0 && Ready(s, ws[0]) {
      DoIsLocal(s, s, ws[0], slot);
      ExecFrame(Do(s, ws[0]), ws[1..], slot);
    }
  }

  /** After a complete run each object is what its one write makes of the store as it was. */
  lemma {:induction false} WrittenOnce(s: Store, ws: seq<Write>, i: nat)
    requires DistinctTargets(ws) && i < |ws| && Exec(s, ws).1
    ensures Same(Do(s, ws[i]), Exec(s, ws).0, Target(ws[i]))
  {
    var xs, w, ys := ws[..i], ws[i], ws[i + 1..];
    assert ws == xs + [w] + ys;
    ExecAppend(s, xs + [w], ys);
    ExecSnoc(s, xs, w);
    var t := Exec(s, xs).0;
    ExecFrame(s, xs, Target(w));
    DoIsLocal(s, t, w, Target(w));
    ExecFrame(Do(t, w), ys, Target(w));
  }

  /**
   * A complete run writes each declared object as its declaration says, over what the store had under that
   * name, and leaves every other object alone.
   */
  lemma CompleteRunIsTheFile(f: File, lower: Name -> Name, s: Store)
    requires Validated(f, lower) && Exec(s, Plan(f, lower)).1
    ensures var ws, t := Plan(f, lower), Exec(s, Plan(f, lower)).0;
            && (forall i :: 0 <= i < |ws| ==> Same(Do(s, ws[i]), t, Target(ws[i])))
            && (forall slot :: (forall i :: 0 <= i < |ws| ==> Target(ws[i]) != slot) ==> Same(s, t, slot))
  {
    var ws := Plan(f, lower);
    PlanTargetsDistinct(f, lower);
    forall i | 0 <= i < |ws|
      ensures Same(Do(s, ws[i]), Exec(s, ws).0, Target(ws[i]))
    {
      WrittenOnce(s, ws, i);
    }
    forall slot | forall i :: 0 <= i < |ws| ==> Target(ws[i]) != slot
      ensures Same(s, Exec(s, ws).0, slot)
    {
      ExecFrame(s, ws, slot);
    }
  }

  /** Where the plan writes an account. */
  lemma {:induction false} AccountAt(f: File, i: nat, lower: Name -> Name) returns (k: nat)
    requires i < |f.accounts|
    ensures k + 3 <= |Plan(f, lower)|
    ensures Plan(f, lower)[k..k + 3] == OneAccount(f.accounts[i], Known(f.mailboxes, f.accounts[..i + 1], lower), lower)
  {
    var before := CredentialWrites(f.credentials) + MailboxWrites(f.mailboxes, lower);
    var rest := AccountPrefix(f.mailboxes, f.accounts, i + 1, lower);
    NextAccount(f.mailboxes, f.accounts, i, lower);
    var first := AccountWrites(f.mailboxes, f.accounts[..i], lower);
    var one := OneAccount(f.accounts[i], Known(f.mailboxes, f.accounts[..i + 1], lower), lower);
    k := |before| + |first|;
    Regroup(before, first, one, rest);
    Middle(before + first, one, rest);
  }

  lemma Regroup(a: seq<Write>, b: seq<Write>, c: seq<Write>, d: seq<Write>)
    ensures a + ((b + c) + d) == (a + b) + c + d
  {
  }

  lemma Middle(a: seq<Write>, b: seq<Write>, c: seq<Write>)
    ensures (a + b + c)[|a|..|a| + |b|] == b
  {
  }

  // ---- the declared objects, field by field ----

  lemma {:induction false} WritesAt(cs: seq<CredentialDecl>, ms: seq<MailboxDecl>, lower: Name -> Name)
    ensures |CredentialWrites(cs)| == |cs| && forall i :: 0 <= i < |cs| ==> CredentialWrites(cs)[i] == PutCredential(cs[i])
    ensures |MailboxWrites(ms, lower)| == |ms|
    ensures forall i :: 0 <= i < |ms| ==> MailboxWrites(ms, lower)[i] == PutMailbox(ms[i], lower(ms[i].address))
    decreases |cs| + |ms|
  {
    if |cs| > 0 {
      WritesAt(cs[..|cs| - 1], ms, lower);
    } else if |ms| > 0 {
      WritesAt(cs, ms[..|ms| - 1], lower);
    }
  }

  /** A secret given in the file is stored; one left out is the one the store had, if any. */
  predicate SecretKept(declared: string, before: Option<string>, after: string) {
    after == if declared != "" then declared else if before.Some? then before.value else ""
  }

  /** A declared limit is stored if positive, and means none otherwise. */
  predicate LimitStored(declared: int, stored: Option<int>) {
    if declared > 0 then stored == Some(declared) else stored.None?
  }

  lemma {:induction false} CredentialAsDeclared(f: File, lower: Name -> Name, s: Store, i: nat)
    requires Validated(f, lower) && Exec(s, Plan(f, lower)).1 && i < |f.credentials|
    ensures var c, t := f.credentials[i], Exec(s, Plan(f, lower)).0;
            && c.name in t.credentials
            && var r, before := t.credentials[c.name], Look(s.credentials, c.name);
               && r.tenant == c.tenant && r.client == c.client && r.authority == c.authority && r.managedBy == ByBootstrap
               && (r.authType == Certificate <==> c.authType == "certificate")
               && SecretKept(c.secret, if before.Some? then Some(before.value.secret) else None, r.secret)
               && SecretKept(c.certificate, if before.Some? then Some(before.value.certificate) else None, r.certificate)
               && SecretKept(c.certificateKey, if before.Some? then Some(before.value.certificateKey) else None, r.certificateKey)
               && (before.Some? ==> r.thumbprint == before.value.thumbprint && r.expiresAt == before.value.expiresAt)
  {
    var ws := Plan(f, lower);
    PlanTargetsDistinct(f, lower);
    WritesAt(f.credentials, f.mailboxes, lower);
    assert ws[i] == PutCredential(f.credentials[i]);
    WrittenOnce(s, ws, i);
  }

  lemma {:induction false} MailboxAsDeclared(f: File, lower: Name -> Name, s: Store, i: nat)
    requires Validated(f, lower) && Exec(s, Plan(f, lower)).1 && i < |f.mailboxes|
    ensures var m, t := f.mailboxes[i], Exec(s, Plan(f, lower)).0;
            && lower(m.address) in t.mailboxes
            && var r := t.mailboxes[lower(m.address)];
               && r.displayName == m.displayName && r.credential == m.credential && r.enabled == !m.disabled
               && (r.transport == Graph <==> m.transport == "graph")
               && LimitStored(m.rate, r.rate) && LimitStored(m.concurrent, r.concurrent) && r.managedBy == ByBootstrap
  {
    var ws, k := Plan(f, lower), |f.credentials| + i;
    PlanTargetsDistinct(f, lower);
    WritesAt(f.credentials, f.mailboxes, lower);
    assert ws[k] == MailboxWrites(f.mailboxes, lower)[i];
    WrittenOnce(s, ws, k);
  }

  /** The stored account has the declared fields, and was last used when it was before. */
  predicate AccountStored(a: AccountDecl, before: Option<Account>, r: Account) {
    && r.description == a.description && r.passwordHash == a.passwordHash && r.cidrs == a.cidrs
    && r.enabled == !a.disabled && LimitStored(a.rate, r.rate) && r.managedBy == ByBootstrap
    && (r.policy == Rewrite <==> a.policy == "rewrite") && (r.policy == PassThrough <==> a.policy == "passthrough")
    && r.lastUsed == if before.Some? then before.value.lastUsed else None
  }

  lemma {:induction false} PutAccountStores(s: Store, w: Write)
    requires w.PutAccount?
    ensures var after := Look(Do(s, w).accounts, w.a.username);
            after.Some? && AccountStored(w.a, Look(s.accounts, w.a.username), after.value)
  {
  }

  lemma {:induction false} AccountAsDeclared(f: File, lower: Name -> Name, s: Store, i: nat)
    requires Validated(f, lower) && Exec(s, Plan(f, lower)).1 && i < |f.accounts|
    ensures var a, t := f.accounts[i], Exec(s, Plan(f, lower)).0;
            && Look(t.accounts, a.username).Some?
            && AccountStored(a, Look(s.accounts, a.username), Look(t.accounts, a.username).value)
            && Look(t.senders, a.username) == Some(Patterns(a.allowedSenders))
  {
    var ws := Plan(f, lower);
    PlanTargetsDistinct(f, lower);
    var k := AccountAt(f, i, lower);
    assert ws[k] == ws[k..k + 3][0] && ws[k + 2] == ws[k..k + 3][2];
    WrittenOnce(s, ws, k);
    WrittenOnce(s, ws, k + 2);
    PutAccountStores(s, ws[k]);
  }
}
