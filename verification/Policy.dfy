/** The sender policy: may this account send this message, and as which mailbox. */
module Policy {
  import opened Common

  /** Case folding and white-space trimming of the library. */
  datatype Fold = Fold(lower: string -> string, trim: string -> string)

  datatype Address = Address(original: string, normalized: string) {
    predicate IsEmpty() {
      normalized == ""
    }
  }

  const NO_ADDRESS := Address("", "")

  datatype Mailbox = Mailbox(id: string, address: string, enabled: bool)

  datatype FromPolicy = RejectOther | RewriteFrom | PassThrough | Unknown

  datatype Account = Account(enabled: bool, policy: FromPolicy, defaultMailboxId: string, allowedSenders: seq<string>)

  datatype Decision = Accept(mailbox: Mailbox) | Rewrite(mailbox: Mailbox) | Refuse(code: int)

  predicate EqualFold(fold: Fold, a: string, b: string) {
    fold.lower(a) == fold.lower(b)
  }

  // ---- patterns ----

  /** The offset of the last '@'. */
  function LastAt(s: string): (r: Option<nat>)
    ensures r.Some? ==> r.value < |s| && s[r.value] == '@' && forall i :: r.value < i < |s| ==> s[i] != '@'
    ensures r.None? ==> forall i :: 0 <= i < |s| ==> s[i] != '@'
  {
    if |s| == 0 then None
    else if s[|s| - 1] == '@' then Some(|s| - 1)
    else LastAt(s[..|s| - 1])
  }

  predicate MatchesPattern(fold: Fold, normalized: string, pattern: string) {
    var p := fold.lower(fold.trim(pattern));
    if p == "" || normalized == "" then false
    else if "*@" <= p then
      var domain := p[2..];
      domain != "" && LastAt(normalized).Some? && normalized[LastAt(normalized).value + 1..] == domain
    else normalized == p
  }

  /** The last '@' of an address splits off its domain. */
  lemma SplitAtLast(s: string, n: nat)
    requires n < |s| && s[n] == '@' && forall i :: n < i < |s| ==> s[i] != '@'
    ensures LastAt(s) == Some(n)
  {
    var r := LastAt(s);
    assert r.Some?;
    assert !(n < r.value) && !(r.value < n);
  }

  predicate EndsWith(s: string, domain: string) {
    |s| > |domain| && s[|s| - |domain| - 1] == '@' && s[|s| - |domain|..] == domain
  }

  lemma DomainOf(s: string, domain: string)
    requires forall i :: 0 <= i < |domain| ==> domain[i] != '@'
    ensures LastAt(s).Some? && s[LastAt(s).value + 1..] == domain <==> EndsWith(s, domain)
  {
    if EndsWith(s, domain) {
      var n := |s| - |domain| - 1;
      assert forall i :: n < i < |s| ==> s[i] == s[n + 1..][i - n - 1];
      SplitAtLast(s, n);
    }
  }

  /** A domain pattern matches exactly the addresses that end with that domain. */
  lemma DomainPattern(fold: Fold, normalized: string, pattern: string, domain: string)
    requires fold.lower(fold.trim(pattern)) == "*@" + domain
    requires domain != "" && forall i :: 0 <= i < |domain| ==> domain[i] != '@'
    ensures MatchesPattern(fold, normalized, pattern) <==> EndsWith(normalized, domain)
  {
    var p := fold.lower(fold.trim(pattern));
    assert p[..2] == "*@" && p[2..] == domain;
    DomainOf(normalized, domain);
  }

  /**
   * What a pattern matches, whatever is in it: an address equal to it; or, after `*@`, exactly the addresses that
   * end with what follows, if that is a domain at all, not empty and without another `@`.
   */
  lemma MatchesExactly(fold: Fold, normalized: string, pattern: string)
    ensures var p := fold.lower(fold.trim(pattern));
            MatchesPattern(fold, normalized, pattern) <==>
              if |p| >= 2 && p[0] == '*' && p[1] == '@' then |p| > 2 && '@' !in p[2..] && EndsWith(normalized, p[2..])
              else p != "" && normalized == p
  {
    var p := fold.lower(fold.trim(pattern));
    if |p| >= 2 && p[0] == '*' && p[1] == '@' {
      assert p[..2] == "*@";
      var domain := p[2..];
      if '@' !in domain {
        DomainOf(normalized, domain);
      } else if LastAt(normalized).Some? {
        var tail := normalized[LastAt(normalized).value + 1..];
        assert '@' !in tail;
      }
    } else if |p| >= 2 {
      assert p[..2] == [p[0], p[1]];
    }
  }

  // ---- the decision ----

  function MatchMailbox(fold: Fold, mailboxes: seq<Mailbox>, normalized: string): (r: Option<Mailbox>)
    ensures r.Some? ==> r.value in mailboxes && EqualFold(fold, r.value.address, normalized)
    ensures r.None? ==> forall m :: m in mailboxes ==> !EqualFold(fold, m.address, normalized)
  {
    if |mailboxes| == 0 then None
    else if EqualFold(fold, mailboxes[0].address, normalized) then Some(mailboxes[0])
    else MatchMailbox(fold, mailboxes[1..], normalized)
  }

  function ById(mailboxes: seq<Mailbox>, id: string): (r: Option<Mailbox>)
    ensures r.Some? ==> r.value in mailboxes && r.value.id == id
    ensures r.None? ==> forall m :: m in mailboxes ==> m.id != id
  {
    if |mailboxes| == 0 then None
    else if mailboxes[0].id == id then Some(mailboxes[0])
    else ById(mailboxes[1..], id)
  }

  /** The account's configured default, or the first mailbox it may use. */
  function DefaultMailbox(mailboxes: seq<Mailbox>, id: string): (m: Mailbox)
    requires |mailboxes| > 0
    ensures m in mailboxes
    ensures id != "" && (exists o :: o in mailboxes && o.id == id) ==> m.id == id
    ensures id == "" || (forall o :: o in mailboxes ==> o.id != id) ==> m == mailboxes[0]
  {
    if id != "" && ById(mailboxes, id).Some? then ById(mailboxes, id).value else mailboxes[0]
  }

  predicate MatchesAny(fold: Fold, normalized: string, patterns: seq<string>) {
    exists p :: p in patterns && MatchesPattern(fold, normalized, p)
  }

  function IfEnabled(m: Mailbox, d: Decision): Decision {
    if m.enabled then d else Refuse(550)
  }

  function Resolve(fold: Fold, account: Account, mailboxes: seq<Mailbox>, from: Address): Decision {
    if !account.enabled || |mailboxes| == 0 || from.IsEmpty() then Refuse(550)
    else
      match MatchMailbox(fold, mailboxes, from.normalized)
      case Some(m) => IfEnabled(m, Accept(m))
      case None =>
        var m := DefaultMailbox(mailboxes, account.defaultMailboxId);
        if MatchesAny(fold, from.normalized, account.allowedSenders) then IfEnabled(m, Accept(m))
        else
          match account.policy
          case RewriteFrom => IfEnabled(m, Rewrite(m))
          case PassThrough => IfEnabled(m, Accept(m))
          case RejectOther => Refuse(550)
          case Unknown => Refuse(451)
  }

  /** The account may put `from` in a message without any policy stretching it. */
  predicate Entitled(fold: Fold, account: Account, mailboxes: seq<Mailbox>, from: Address) {
    || (exists m :: m in mailboxes && EqualFold(fold, m.address, from.normalized))
    || MatchesAny(fold, from.normalized, account.allowedSenders)
  }

  /** The mailbox a message of this sender would leave by. */
  function Through(fold: Fold, account: Account, mailboxes: seq<Mailbox>, from: Address): Mailbox
    requires |mailboxes| > 0
  {
    var own := MatchMailbox(fold, mailboxes, from.normalized);
    if own.Some? then own.value else DefaultMailbox(mailboxes, account.defaultMailboxId)
  }

  /** The first mailbox whose address is the sender's, upper or lower case aside. */
  ghost predicate FirstOwn(fold: Fold, mailboxes: seq<Mailbox>, normalized: string, i: nat) {
    && i < |mailboxes| && fold.lower(mailboxes[i].address) == fold.lower(normalized)
    && forall j :: 0 <= j < i ==> fold.lower(mailboxes[j].address) != fold.lower(normalized)
  }

  /** The first mailbox of an identifier. */
  ghost predicate FirstById(mailboxes: seq<Mailbox>, id: string, i: nat) {
    i < |mailboxes| && mailboxes[i].id == id && forall j :: 0 <= j < i ==> mailboxes[j].id != id
  }

  lemma {:induction false} MatchIsFirst(fold: Fold, mailboxes: seq<Mailbox>, normalized: string, i: nat)
    requires FirstOwn(fold, mailboxes, normalized, i)
    ensures MatchMailbox(fold, mailboxes, normalized) == Some(mailboxes[i])
  {
    if i > 0 {
      MatchIsFirst(fold, mailboxes[1..], normalized, i - 1);
    }
  }

  lemma {:induction false} ByIdIsFirst(mailboxes: seq<Mailbox>, id: string, i: nat)
    requires FirstById(mailboxes, id, i)
    ensures ById(mailboxes, id) == Some(mailboxes[i])
  {
    if i > 0 {
      ByIdIsFirst(mailboxes[1..], id, i - 1);
    }
  }

  /**
   * Which mailbox a message leaves by: the first one with the sender's own address; if none has it, the one
   * configured as the account's default; and without such a one the first granted.
   */
  lemma ThroughExactly(fold: Fold, account: Account, mailboxes: seq<Mailbox>, from: Address, i: nat)
    requires |mailboxes| > 0
    ensures var own := exists m :: m in mailboxes && fold.lower(m.address) == fold.lower(from.normalized);
            var id := account.defaultMailboxId;
            && (FirstOwn(fold, mailboxes, from.normalized, i) ==> Through(fold, account, mailboxes, from) == mailboxes[i])
            && (!own && id != "" && FirstById(mailboxes, id, i) ==> Through(fold, account, mailboxes, from) == mailboxes[i])
            && (!own && (id == "" || forall m :: m in mailboxes ==> m.id != id) ==> Through(fold, account, mailboxes, from) == mailboxes[0])
  {
    if FirstOwn(fold, mailboxes, from.normalized, i) {
      MatchIsFirst(fold, mailboxes, from.normalized, i);
    }
    if FirstById(mailboxes, account.defaultMailboxId, i) {
      ByIdIsFirst(mailboxes, account.defaultMailboxId, i);
    }
  }

  /**
   * A submission is let through exactly when the account is enabled and granted a mailbox, the
   * message has a sender, the mailbox it leaves by is enabled, and the sender is one the account is
   * entitled to or its policy is lenient; and then it leaves by that granted mailbox.
   */
  lemma ResolveExactly(fold: Fold, account: Account, mailboxes: seq<Mailbox>, from: Address)
    ensures var d := Resolve(fold, account, mailboxes, from);
            && (!d.Refuse? <==>
                  && account.enabled && |mailboxes| > 0 && !from.IsEmpty()
                  && Through(fold, account, mailboxes, from).enabled
                  && (Entitled(fold, account, mailboxes, from) || account.policy in {RewriteFrom, PassThrough}))
            && (!d.Refuse? ==> d.mailbox == Through(fold, account, mailboxes, from) && d.mailbox in mailboxes)
            && (d.Refuse? ==> d.code == if && account.enabled && |mailboxes| > 0 && !from.IsEmpty()
                                           && !Entitled(fold, account, mailboxes, from) && account.policy == Unknown
                                        then 451 else 550)
            && (d.Rewrite? ==> account.policy == RewriteFrom && !Entitled(fold, account, mailboxes, from))
            && (d.Accept? && account.policy != PassThrough ==> Entitled(fold, account, mailboxes, from))
  {
  }

  /** Under the reject policy a sender is the mailbox's own address or matches an allowed pattern. */
  lemma RejectPolicyHolds(fold: Fold, account: Account, mailboxes: seq<Mailbox>, from: Address)
    requires account.policy == RejectOther && !Resolve(fold, account, mailboxes, from).Refuse?
    ensures var d := Resolve(fold, account, mailboxes, from);
            && d.Accept? && d.mailbox in mailboxes && d.mailbox.enabled
            && (EqualFold(fold, d.mailbox.address, from.normalized)
                || MatchesAny(fold, from.normalized, account.allowedSenders))
  {
  }
}
