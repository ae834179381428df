/**
 * Bootstrap reconciliation: a declarative file written into the store, object by object. The store is
 * seen by name: a reference is the name of what it points to, and a sealed secret is what it seals.
 */
module Bootstrap {
  import opened Common

  type Name = nat

  // ---- the file ----

  datatype CredentialDecl = CredentialDecl(
    name: Name, tenant: string, client: string, authType: string,
    secret: string, certificate: string, certificateKey: string, authority: string)

  datatype MailboxDecl = MailboxDecl(
    address: Name, displayName: string, credential: Name, transport: string,
    rate: int, concurrent: int, disabled: bool)

  datatype AccountDecl = AccountDecl(
    username: Name, description: string, passwordHash: string, mailboxes: seq<Name>,
    defaultMailbox: Option<Name>, allowedSenders: seq<string>, policy: string,
    cidrs: seq<string>, rate: int, disabled: bool)

  datatype File = File(credentials: seq<CredentialDecl>, mailboxes: seq<MailboxDecl>, accounts: seq<AccountDecl>)

  /** No name is declared twice, addresses compared in lower case; a default mailbox is one of those listed. */
  ghost predicate Validated(f: File, lower: Name -> Name) {
    && (forall i, j :: 0 <= i < j < |f.credentials| ==> f.credentials[i].name != f.credentials[j].name)
    && (forall i, j :: 0 <= i < j < |f.mailboxes| ==> lower(f.mailboxes[i].address) != lower(f.mailboxes[j].address))
    && (forall i, j :: 0 <= i < j < |f.accounts| ==> f.accounts[i].username != f.accounts[j].username)
    && (forall i :: 0 <= i < |f.accounts| ==> ListsDefault(f.accounts[i], lower))
  }

  predicate ListsDefault(a: AccountDecl, lower: Name -> Name) {
    a.defaultMailbox.Some? && |a.mailboxes| > 0 ==> lower(a.defaultMailbox.value) in NameSet(Lowered(a.mailboxes, lower))
  }

  // ---- the store ----

  datatype AuthType = Secret | Certificate
  datatype Transport = Smtp | Graph
  datatype FromPolicy = Reject | Rewrite | PassThrough
  datatype Manager = ByUI | ByBootstrap

  datatype Credential = Credential(
    tenant: string, client: string, authType: AuthType, secret: string, certificate: string, certificateKey: string,
    authority: string, thumbprint: string, expiresAt: Option<Time>, managedBy: Manager)

  datatype Mailbox = Mailbox(
    displayName: string, credential: Name, transport: Transport, rate: Option<int>, concurrent: Option<int>,
    enabled: bool, managedBy: Manager)

  datatype Account = Account(
    description: string, passwordHash: string, defaultMailbox: Option<Name>, policy: FromPolicy, cidrs: seq<string>,
    rate: Option<int>, enabled: bool, managedBy: Manager, lastUsed: Option<Time>)

  datatype Store = Store(
    credentials: map<Name, Credential>,
    mailboxes: map<Name, Mailbox>,
    accounts: map<Name, Account>,
    links: map<Name, set<Name>>,            // the mailboxes linked to an account
    senders: map<Name, set<string>>)        // its extra sender patterns

  const NO_CREDENTIAL := Credential("", "", Secret, "", "", "", "", "", None, ByUI)

  function NullInt(n: int): Option<int> {
    if n > 0 then Some(n) else None
  }

  function Or(given: string, kept: string): string {
    if given != "" then given else kept
  }

  /** The declared fields over what is stored; a secret not given again is kept. */
  function WriteCredential(stored: Credential, c: CredentialDecl): Credential {
    stored.(tenant := c.tenant, client := c.client,
         authType := if c.authType == "certificate" then Certificate else Secret,
         authority := c.authority, managedBy := ByBootstrap,
         secret := Or(c.secret, stored.secret), certificate := Or(c.certificate, stored.certificate),
         certificateKey := Or(c.certificateKey, stored.certificateKey))
  }

  function WriteMailbox(m: MailboxDecl): Mailbox {
    Mailbox(m.displayName, m.credential, if m.transport == "graph" then Graph else Smtp,
            NullInt(m.rate), NullInt(m.concurrent), !m.disabled, ByBootstrap)
  }

  function AccountPolicy(p: string): FromPolicy {
    if p == "rewrite" then Rewrite else if p == "passthrough" then PassThrough else Reject
  }

  function WriteAccount(lastUsed: Option<Time>, a: AccountDecl, default: Option<Name>): Account {
    Account(a.description, a.passwordHash, default, AccountPolicy(a.policy), a.cidrs, NullInt(a.rate), !a.disabled,
            ByBootstrap, lastUsed)
  }

  // ---- the writes of one run ----

  datatype Write =
    | PutCredential(c: CredentialDecl)
    | PutMailbox(m: MailboxDecl, address: Name)
    | PutAccount(a: AccountDecl, needs: set<Name>, default: Option<Name>)
    | SetMailboxes(user: Name, mailboxes: set<Name>)
    | SetSenders(user: Name, patterns: set<string>)

  datatype Slot = CredentialSlot(n: Name) | MailboxSlot(n: Name) | AccountSlot(n: Name) | LinksSlot(n: Name) | SendersSlot(n: Name)

  /** The one object a write touches. */
  function Target(w: Write): Slot {
    match w
    case PutCredential(c) => CredentialSlot(c.name)
    case PutMailbox(_, address) => MailboxSlot(address)
    case PutAccount(a, _, _) => AccountSlot(a.username)
    case SetMailboxes(u, _) => LinksSlot(u)
    case SetSenders(u, _) => SendersSlot(u)
  }

  /** What a write refers to exists; otherwise the run stops with an error before it. */
  predicate Ready(s: Store, w: Write) {
    match w
    case PutCredential(_) => true
    case PutMailbox(m, _) => m.credential in s.credentials
    case PutAccount(_, needs, _) => needs <= s.mailboxes.Keys
    case SetMailboxes(u, _) => u in s.accounts
    case SetSenders(u, _) => u in s.accounts
  }

  /** Creates the object or updates it, as the run finds it. */
  function Do(s: Store, w: Write): Store {
    match w
    case PutCredential(c) =>
      var stored := if c.name in s.credentials then s.credentials[c.name] else NO_CREDENTIAL;
      s.(credentials := s.credentials[c.name := WriteCredential(stored, c)])
    case PutMailbox(m, address) => s.(mailboxes := s.mailboxes[address := WriteMailbox(m)])
    case PutAccount(a, _, default) =>
      var lastUsed := if a.username in s.accounts then s.accounts[a.username].lastUsed else None;
      s.(accounts := s.accounts[a.username := WriteAccount(lastUsed, a, default)])
    case SetMailboxes(u, ms) => s.(links := s.links[u := ms])
    case SetSenders(u, ps) => s.(senders := s.senders[u := ps])
  }

  /** Runs writes in order, stopping before the first that is not ready. */
  function Exec(s: Store, ws: seq<Write>): (Store, bool)
    decreases |ws|
  {
    if |ws| == 0 then (s, true)
    else if !Ready(s, ws[0]) then (s, false)
    else Exec(Do(s, ws[0]), ws[1..])
  }

  // ---- the plan of a file ----

  function Lowered(names: seq<Name>, lower: Name -> Name): (r: seq<Name>)
    ensures |r| == |names|
  {
    seq(|names|, i requires 0 <= i < |names| => lower(names[i]))
  }

  function NameSet(names: seq<Name>): set<Name> {
    set n | n in names
  }

  function Patterns(patterns: seq<string>): set<string> {
    set p | p in patterns
  }

  function Addresses(ms: seq<MailboxDecl>, lower: Name -> Name): set<Name> {
    set i | 0 <= i < |ms| :: lower(ms[i].address)
  }

  function CredentialWrites(cs: seq<CredentialDecl>): seq<Write> {
    if |cs| == 0 then [] else CredentialWrites(cs[..|cs| - 1]) + [PutCredential(cs[|cs| - 1])]
  }

  function MailboxWrites(ms: seq<MailboxDecl>, lower: Name -> Name): seq<Write> {
    if |ms| == 0 then []
    else MailboxWrites(ms[..|ms| - 1], lower) + [PutMailbox(ms[|ms| - 1], lower(ms[|ms| - 1].address))]
  }

  /** The addresses resolved so far: the file's mailboxes and those earlier accounts listed. */
  function Known(ms: seq<MailboxDecl>, accounts: seq<AccountDecl>, lower: Name -> Name): set<Name> {
    if |accounts| == 0 then Addresses(ms, lower)
    else Known(ms, accounts[..|accounts| - 1], lower) + NameSet(Lowered(accounts[|accounts| - 1].mailboxes, lower))
  }

  function DefaultOf(a: AccountDecl, known: set<Name>, lower: Name -> Name): Option<Name> {
    if a.defaultMailbox.Some? then
      (if lower(a.defaultMailbox.value) in known then Some(lower(a.defaultMailbox.value)) else None)
    else if |a.mailboxes| > 0 then Some(lower(a.mailboxes[0]))
    else None
  }

  function OneAccount(a: AccountDecl, known: set<Name>, lower: Name -> Name): seq<Write> {
    var ms := NameSet(Lowered(a.mailboxes, lower));
    [PutAccount(a, ms, DefaultOf(a, known, lower)),
     SetMailboxes(a.username, ms),
     SetSenders(a.username, Patterns(a.allowedSenders))]
  }

  function AccountWrites(ms: seq<MailboxDecl>, accounts: seq<AccountDecl>, lower: Name -> Name): seq<Write> {
    if |accounts| == 0 then []
    else
      AccountWrites(ms, accounts[..|accounts| - 1], lower)
      + OneAccount(accounts[|accounts| - 1], Known(ms, accounts, lower), lower)
  }

  /** Credentials, then mailboxes that reference them, then accounts that reference mailboxes. */
  function Plan(f: File, lower: Name -> Name): seq<Write> {
    CredentialWrites(f.credentials) + MailboxWrites(f.mailboxes, lower) + AccountWrites(f.mailboxes, f.accounts, lower)
  }

  // ---- what a run counts ----

  /** The write is of an object that is counted; links and sender patterns go with their account. */
  predicate Counted(w: Write) {
    w.PutCredential? || w.PutMailbox? || w.PutAccount?
  }

  /** The write creates an object the store does not have. */
  predicate Creates(s: Store, w: Write) {
    || (w.PutCredential? && w.c.name !in s.credentials)
    || (w.PutMailbox? && w.address !in s.mailboxes)
    || (w.PutAccount? && w.a.username !in s.accounts)
  }

  function Created(s: Store, ws: seq<Write>): nat
    decreases |ws|
  {
    if |ws| == 0 || !Ready(s, ws[0]) then 0
    else (if Creates(s, ws[0]) then 1 else 0) + Created(Do(s, ws[0]), ws[1..])
  }

  function Updated(s: Store, ws: seq<Write>): nat
    decreases |ws|
  {
    if |ws| == 0 || !Ready(s, ws[0]) then 0
    else (if Counted(ws[0]) && !Creates(s, ws[0]) then 1 else 0) + Updated(Do(s, ws[0]), ws[1..])
  }

  /** `n` objects were created and `m` updated by a run of the writes. */
  ghost predicate Tally(s: Store, ws: seq<Write>, n: nat, m: nat) {
    Created(s, ws) == n && Updated(s, ws) == m
  }

  // ---- runs and plans, one step at a time ----

  lemma {:induction false} ExecAppend(s: Store, xs: seq<Write>, ys: seq<Write>)
    ensures Exec(s, xs + ys) == if Exec(s, xs).1 then Exec(Exec(s, xs).0, ys) else Exec(s, xs)
    decreases |xs|
  {
    if |xs| == 0 {
      assert xs + ys == ys;
    } else {
      assert (xs + ys)[0] == xs[0] && (xs + ys)[1..] == xs[1..] + ys;
      if Ready(s, xs[0]) {
        ExecAppend(Do(s, xs[0]), xs[1..], ys);
      }
    }
  }

  lemma {:induction false} OneWrite(s: Store, w: Write)
    ensures Exec(s, [w]) == if Ready(s, w) then (Do(s, w), true) else (s, false)
    ensures Created(s, [w]) == if Ready(s, w) && Creates(s, w) then 1 else 0
    ensures Updated(s, [w]) == if Ready(s, w) && Counted(w) && !Creates(s, w) then 1 else 0
  {
    assert [w][1..] == [];
  }

  lemma {:induction false} ExecSnoc(s: Store, xs: seq<Write>, w: Write)
    ensures Exec(s, xs + [w]) == if Exec(s, xs).1 && Ready(Exec(s, xs).0, w) then (Do(Exec(s, xs).0, w), true)
                                 else (Exec(s, xs).0, false)
  {
    ExecAppend(s, xs, [w]);
    OneWrite(Exec(s, xs).0, w);
  }

  lemma NextCredential(cs: seq<CredentialDecl>, i: nat)
    requires i < |cs|
    ensures CredentialWrites(cs[..i + 1]) == CredentialWrites(cs[..i]) + [PutCredential(cs[i])]
  {
    assert cs[..i + 1][..i] == cs[..i];
  }

  lemma NextMailbox(ms: seq<MailboxDecl>, i: nat, lower: Name -> Name)
    requires i < |ms|
    ensures MailboxWrites(ms[..i + 1], lower) == MailboxWrites(ms[..i], lower) + [PutMailbox(ms[i], lower(ms[i].address))]
  {
    assert ms[..i + 1][..i] == ms[..i];
  }

  lemma NextAccount(ms: seq<MailboxDecl>, accounts: seq<AccountDecl>, i: nat, lower: Name -> Name)
    requires i < |accounts|
    ensures var known := Known(ms, accounts[..i], lower) + NameSet(Lowered(accounts[i].mailboxes, lower));
            && Known(ms, accounts[..i + 1], lower) == known
            && AccountWrites(ms, accounts[..i + 1], lower)
            == AccountWrites(ms, accounts[..i], lower) + OneAccount(accounts[i], known, lower)
  {
    var front := accounts[..i + 1];
    assert front[..|front| - 1] == accounts[..i] && front[|front| - 1] == accounts[i];
  }

  lemma {:induction false} MailboxPrefix(ms: seq<MailboxDecl>, i: nat, lower: Name -> Name) returns (rest: seq<Write>)
    requires i <= |ms|
    ensures MailboxWrites(ms, lower) == MailboxWrites(ms[..i], lower) + rest
    decreases |ms|
  {
    if i == |ms| {
      rest := [];
      assert ms[..i] == ms;
    } else {
      var front := ms[..|ms| - 1];
      var r := MailboxPrefix(front, i, lower);
      assert front[..i] == ms[..i];
      rest := r + [PutMailbox(ms[|ms| - 1], lower(ms[|ms| - 1].address))];
    }
  }

  lemma {:induction false} AccountPrefix(ms: seq<MailboxDecl>, accounts: seq<AccountDecl>, i: nat, lower: Name -> Name)
    returns (rest: seq<Write>)
    requires i <= |accounts|
    ensures AccountWrites(ms, accounts, lower) == AccountWrites(ms, accounts[..i], lower) + rest
    decreases |accounts|
  {
    if i == |accounts| {
      rest := [];
      assert accounts[..i] == accounts;
    } else {
      var front := accounts[..|accounts| - 1];
      var r := AccountPrefix(ms, front, i, lower);
      assert front[..i] == accounts[..i];
      rest := r + OneAccount(accounts[|accounts| - 1], Known(ms, accounts, lower), lower);
    }
  }
}
