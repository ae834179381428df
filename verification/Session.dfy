/**
 * One SMTP connection: authentication, an upgrade to TLS, the envelope, and submission under the sender
 * policy. What the outside answers (credential checks, address and message parsing, the handshake, the
 * queue) is part of a command. The protocol library starts a new session object when it upgrades.
 */
module Session {
  import opened Common
  import opened Policy
  import SaslLogin

  datatype Identity = Identity(username: string, account: Account, mailboxes: seq<Mailbox>)

  /** How a listener does TLS. */
  datatype ListenerTls = NoTls | Upgrade | Implicit

  datatype Config = Config(
    fold: Fold,
    tls: ListenerTls,
    allowInsecureAuth: bool,
    requireTLS: bool,
    maxAuthFailures: int,
    maxRecipients: int)

  datatype State = State(
    identity: Option<Identity>,
    authFailures: nat,
    envelopeFrom: Address,
    recipients: seq<string>,
    encrypted: bool,
    closed: bool)

  /** A new session. */
  function Fresh(encrypted: bool): State {
    State(None, 0, NO_ADDRESS, [], encrypted, false)
  }

  /** The payload of DATA as the parsers see it. */
  datatype Payload =
    | Unreadable(code: int)               // connection error or too large
    | Unparseable
    | BadFrom
    | Parsed(from: Address)               // the empty address if there is no From field

  /** The client's side of AUTH PLAIN. */
  datatype PlainExchange = Malformed | Credentials(authzid: string, username: string)

  /** `verdict` is what the authenticator answers if it is asked. */
  datatype Command =
    | StartTls(handshake: bool)
    | AuthPlain(exchange: PlainExchange, verdict: Option<Identity>)
    | AuthLogin(responses: seq<Option<string>>, verdict: Option<Identity>)
    | AuthOther                           // a mechanism that is not offered
    | Mail(from: Option<Address>)         // None: does not parse
    | Rcpt(to: Option<Address>)
    | Data(payload: Payload, queued: bool)
    | Reset

  /**
   * What a command is answered: success, a status code, the one error of every failed authentication
   * (whose code the protocol library chooses), an error of that library, or nothing once closed.
   */
  datatype Reply = Ok | Status(code: int) | AuthFailed | ProtocolError | Nothing

  datatype Submission = Submission(
    identity: Identity, mailbox: Mailbox, envelopeFrom: Address, headerFrom: Address, recipients: seq<string>,
    rewritten: bool)

  // ---- authentication ----

  function Failed(c: Config, s: State): State {
    var n := s.authFailures + 1;
    s.(authFailures := n, closed := s.closed || (c.maxAuthFailures > 0 && n >= c.maxAuthFailures))
  }

  function Authenticated(c: Config, s: State, verdict: Option<Identity>): State {
    if verdict.Some? then s.(identity := verdict) else Failed(c, s)
  }

  predicate MayAuth(c: Config, s: State) {
    s.encrypted || c.allowInsecureAuth
  }

  /** How the client's side of AUTH LOGIN ends. */
  function LoginEnd(responses: seq<Option<string>>): SaslLogin.Ending {
    SaslLogin.End(SaslLogin.NEW_EXCHANGE, responses)
  }

  /** The command makes the server check a password. */
  predicate ChecksPassword(c: Config, s: State, m: Command) {
    && !s.closed && MayAuth(c, s)
    && (|| (m.AuthPlain? && m.exchange.Credentials? && (m.exchange.authzid == "" || m.exchange.authzid == m.exchange.username))
        || (m.AuthLogin? && LoginEnd(m.responses).Checked?))
  }

  /** The command asks to act as another account, which counts as a failure without a check. */
  predicate ActsAsAnother(c: Config, s: State, m: Command) {
    && !s.closed && MayAuth(c, s)
    && m.AuthPlain? && m.exchange.Credentials? && m.exchange.authzid != "" && m.exchange.authzid != m.exchange.username
  }

  /** The command upgrades the connection: offered, not yet encrypted, and the handshake succeeds. */
  predicate Upgrades(c: Config, s: State, m: Command) {
    !s.closed && m.StartTls? && m.handshake && c.tls == Upgrade && !s.encrypted
  }

  // ---- one command ----

  function Decide(c: Config, s: State, from: Address): Decision
    requires s.identity.Some?
  {
    Resolve(c.fold, s.identity.value.account, s.identity.value.mailboxes, from)
  }

  function AuthReply(c: Config, s: State, m: Command): Reply {
    if !MayAuth(c, s) then Status(538)
    else if ChecksPassword(c, s, m) then
      (if (m.AuthPlain? || m.AuthLogin?) && m.verdict.Some? then Ok else AuthFailed)
    else if (m.AuthPlain? && m.exchange.Malformed?) || (m.AuthLogin? && LoginEnd(m.responses).Unfinished?) then ProtocolError
    else AuthFailed
  }

  function ReplyTo(c: Config, s: State, m: Command): Reply {
    if s.closed then Nothing
    else
      match m
      case StartTls(_) => if Upgrades(c, s, m) then Ok else ProtocolError
      case AuthPlain(_, _) => AuthReply(c, s, m)
      case AuthLogin(_, _) => AuthReply(c, s, m)
      case AuthOther => AuthReply(c, s, m)
      case Mail(from) =>
        if s.identity.None? then Status(530)
        else if c.requireTLS && !s.encrypted then Status(530)
        else if from.None? then Status(501)
        else Ok
      case Rcpt(to) =>
        if s.identity.None? then Status(530)
        else if |s.recipients| >= c.maxRecipients then Status(452)
        else if to.None? || to.value.IsEmpty() then Status(501)
        else Ok
      case Data(payload, queued) =>
        if s.identity.None? then Status(530)
        else if |s.recipients| == 0 then Status(554)
        else (match payload
              case Unreadable(code) => Status(code)
              case Unparseable => Status(550)
              case BadFrom => Status(550)
              case Parsed(from) =>
                var d := Decide(c, s, from);
                if d.Refuse? then Status(d.code) else if queued then Ok else Status(451))
      case Reset => Ok
  }

  function Step(c: Config, s: State, m: Command): State {
    if s.closed then s
    else
      match m
      case StartTls(_) => if Upgrades(c, s, m) then Fresh(true) else s
      case AuthPlain(_, verdict) =>
        if ChecksPassword(c, s, m) then Authenticated(c, s, verdict)
        else if ActsAsAnother(c, s, m) then Failed(c, s)
        else s
      case AuthLogin(_, verdict) => if ChecksPassword(c, s, m) then Authenticated(c, s, verdict) else s
      case AuthOther => s
      case Mail(from) => if ReplyTo(c, s, m).Ok? && from.Some? then s.(envelopeFrom := from.value, recipients := []) else s
      case Rcpt(to) =>
        if ReplyTo(c, s, m).Ok? && to.Some? then s.(recipients := s.recipients + [to.value.original]) else s
      case Data(_, _) => s
      case Reset => s.(envelopeFrom := NO_ADDRESS, recipients := [])
  }

  /** What a command hands to the queue, accepted or not. */
  function Submitted(c: Config, s: State, m: Command): Option<Submission> {
    if s.closed || !m.Data? || s.identity.None? || |s.recipients| == 0 || !m.payload.Parsed? then None
    else
      var d := Decide(c, s, m.payload.from);
      match d
      case Refuse(_) => None
      case Accept(mb) =>
        Some(Submission(s.identity.value, mb, s.envelopeFrom, m.payload.from, s.recipients, false))
      case Rewrite(mb) =>
        Some(Submission(s.identity.value, mb, s.envelopeFrom, Address(mb.address, c.fold.lower(mb.address)),
                        s.recipients, true))
  }

  // ---- traces ----

  function After(c: Config, ms: seq<Command>): State {
    if |ms| == 0 then Fresh(c.tls == Implicit) else Step(c, After(c, ms[..|ms| - 1]), ms[|ms| - 1])
  }

  /** The command at `i` was answered positively. */
  predicate Positive(c: Config, ms: seq<Command>, i: nat)
    requires i < |ms|
  {
    ReplyTo(c, After(c, ms[..i]), ms[i]).Ok?
  }

  /** Recipients as a client would count them from replies alone: since the last MAIL, reset or upgrade. */
  function AcceptedRecipients(c: Config, ms: seq<Command>): seq<string> {
    if |ms| == 0 then []
    else
      var pre, m := ms[..|ms| - 1], ms[|ms| - 1];
      if !Positive(c, ms, |ms| - 1) then AcceptedRecipients(c, pre)
      else if m.Mail? || m.Reset? || m.StartTls? then []
      else if m.Rcpt? && m.to.Some? then AcceptedRecipients(c, pre) + [m.to.value.original]
      else AcceptedRecipients(c, pre)
  }

  /** The envelope sender a client would know from replies alone: of the last MAIL, none since a reset or upgrade. */
  function AcceptedSender(c: Config, ms: seq<Command>): Option<Address> {
    if |ms| == 0 then None
    else
      var pre, m := ms[..|ms| - 1], ms[|ms| - 1];
      if !Positive(c, ms, |ms| - 1) then AcceptedSender(c, pre)
      else if m.Mail? then m.from
      else if m.Reset? || m.StartTls? then None
      else AcceptedSender(c, pre)
  }

  /** Whether a client would know the connection to be encrypted: from the start, or since a positive STARTTLS. */
  predicate AcceptedTls(c: Config, ms: seq<Command>) {
    if |ms| == 0 then c.tls == Implicit
    else AcceptedTls(c, ms[..|ms| - 1]) || (ms[|ms| - 1].StartTls? && Positive(c, ms, |ms| - 1))
  }

  function FailedChecks(c: Config, ms: seq<Command>): nat {
    if |ms| == 0 then 0
    else
      var pre, m := ms[..|ms| - 1], ms[|ms| - 1];
      FailedChecks(c, pre) + if ChecksPassword(c, After(c, pre), m) && m.verdict.None? then 1 else 0
  }

  ghost predicate Envelope(c: Config, s: State) {
    && (|s.recipients| > 0 ==> |s.recipients| <= c.maxRecipients)
    && (|s.recipients| > 0 ==> s.identity.Some?)
  }

  lemma EnvelopeStep(c: Config, s: State, m: Command)
    requires Envelope(c, s)
    ensures Envelope(c, Step(c, s, m))
    ensures Step(c, s, m).recipients
         == if !ReplyTo(c, s, m).Ok? then s.recipients
            else if m.Mail? || m.Reset? || m.StartTls? then []
            else if m.Rcpt? && m.to.Some? then s.recipients + [m.to.value.original]
            else s.recipients
  {
  }

  lemma {:induction false} EnvelopeHolds(c: Config, ms: seq<Command>)
    ensures Envelope(c, After(c, ms))
    ensures After(c, ms).recipients == AcceptedRecipients(c, ms)
  {
    if |ms| > 0 {
      EnvelopeHolds(c, ms[..|ms| - 1]);
      EnvelopeStep(c, After(c, ms[..|ms| - 1]), ms[|ms| - 1]);
    }
  }

  /** The state holds the sender a client knows of, and one accepted where TLS is required came over TLS. */
  predicate SenderHeld(c: Config, s: State, sender: Option<Address>) {
    && s.envelopeFrom == (if sender.Some? then sender.value else NO_ADDRESS)
    && (c.requireTLS && sender.Some? ==> s.encrypted)
    && (s.identity.Some? ==> s.encrypted || c.allowInsecureAuth)
  }

  lemma SenderStep(c: Config, s: State, m: Command, sender: Option<Address>)
    requires SenderHeld(c, s, sender)
    ensures SenderHeld(c, Step(c, s, m),
                       if !ReplyTo(c, s, m).Ok? then sender
                       else if m.Mail? then m.from
                       else if m.Reset? || m.StartTls? then None
                       else sender)
  {
  }

  /**
   * On every trace the envelope sender is that of the last MAIL accepted, and none before any, after a reset and
   * after an upgrade; where TLS is required it came over TLS, and nobody is logged in where AUTH is not allowed.
   */
  lemma {:induction false} SenderHolds(c: Config, ms: seq<Command>)
    ensures SenderHeld(c, After(c, ms), AcceptedSender(c, ms))
    ensures After(c, ms).encrypted <==> AcceptedTls(c, ms)
  {
    if |ms| > 0 {
      SenderHolds(c, ms[..|ms| - 1]);
      SenderStep(c, After(c, ms[..|ms| - 1]), ms[|ms| - 1], AcceptedSender(c, ms[..|ms| - 1]));
    }
  }

  /** The command leaves the identity as it is. */
  predicate KeepsIdentity(c: Config, s: State, m: Command) {
    (ChecksPassword(c, s, m) ==> m.verdict.None?) && !Upgrades(c, s, m)
  }

  /** The command at `i` is the last successful password check, with no upgrade since. */
  ghost predicate LastLogin(c: Config, ms: seq<Command>, i: nat, id: Identity) {
    && i < |ms| && ChecksPassword(c, After(c, ms[..i]), ms[i]) && ms[i].verdict == Some(id)
    && forall j :: i < j < |ms| ==> KeepsIdentity(c, After(c, ms[..j]), ms[j])
  }

  lemma {:induction false} LoginExtends(c: Config, ms: seq<Command>, i: nat, id: Identity)
    requires |ms| > 0 && LastLogin(c, ms[..|ms| - 1], i, id)
    requires KeepsIdentity(c, After(c, ms[..|ms| - 1]), ms[|ms| - 1])
    ensures LastLogin(c, ms, i, id)
  {
    var pre := ms[..|ms| - 1];
    assert pre[..i] == ms[..i];
    forall j | i < j < |ms|
      ensures KeepsIdentity(c, After(c, ms[..j]), ms[j])
    {
      assert j < |pre| ==> pre[..j] == ms[..j];
    }
  }

  lemma IdentityStep(c: Config, s: State, m: Command)
    ensures Step(c, s, m).identity == if ChecksPassword(c, s, m) && m.verdict.Some? then m.verdict
                                      else if Upgrades(c, s, m) then None
                                      else s.identity
  {
  }

  lemma {:induction false} IdentityFromLogin(c: Config, ms: seq<Command>)
    requires After(c, ms).identity.Some?
    ensures exists i :: LastLogin(c, ms, i, After(c, ms).identity.value)
  {
    var pre, m := ms[..|ms| - 1], ms[|ms| - 1];
    var s := After(c, pre);
    IdentityStep(c, s, m);
    if ChecksPassword(c, s, m) && m.verdict.Some? {
      assert LastLogin(c, ms, |ms| - 1, m.verdict.value);
    } else {
      IdentityFromLogin(c, pre);
      var i :| LastLogin(c, pre, i, s.identity.value);
      LoginExtends(c, ms, i, s.identity.value);
    }
  }

  lemma {:induction false} LoginShortened(c: Config, ms: seq<Command>, i: nat, id: Identity)
    requires LastLogin(c, ms, i, id) && i < |ms| - 1
    ensures LastLogin(c, ms[..|ms| - 1], i, id)
  {
    var pre := ms[..|ms| - 1];
    assert pre[..i] == ms[..i];
    forall j | i < j < |pre|
      ensures KeepsIdentity(c, After(c, pre[..j]), pre[j])
    {
      assert pre[..j] == ms[..j];
    }
  }

  lemma {:induction false} LoginHolds(c: Config, ms: seq<Command>, i: nat, id: Identity)
    requires LastLogin(c, ms, i, id)
    ensures After(c, ms).identity == Some(id)
    decreases |ms|
  {
    var pre, m := ms[..|ms| - 1], ms[|ms| - 1];
    IdentityStep(c, After(c, pre), m);
    assert ms[..|ms| - 1] == pre;
    if i < |pre| {
      LoginShortened(c, ms, i, id);
      LoginHolds(c, pre, i, id);
    }
  }

  /** A session has an identity exactly if it is that of the latest successful password check since any upgrade. */
  lemma IdentityExactly(c: Config, ms: seq<Command>, id: Identity)
    ensures After(c, ms).identity == Some(id) <==> exists i: nat :: LastLogin(c, ms, i, id)
  {
    if After(c, ms).identity == Some(id) {
      IdentityFromLogin(c, ms);
    }
    forall i: nat | LastLogin(c, ms, i, id)
      ensures After(c, ms).identity == Some(id)
    {
      LoginHolds(c, ms, i, id);
    }
  }

  // ---- what the replies tell ----

  /** How MAIL is answered. */
  predicate MailAnswered(c: Config, s: State, from: Option<Address>, r: Reply) {
    var allowed := s.identity.Some? && (c.requireTLS ==> s.encrypted);
    if allowed && from.Some? then r == Ok else r == Status(if allowed then 501 else 530)
  }

  /** How RCPT is answered after so many accepted recipients. */
  predicate RcptAnswered(c: Config, s: State, n: nat, to: Option<Address>, r: Reply) {
    if s.identity.None? then r == Status(530)
    else if n >= c.maxRecipients then r == Status(452)
    else if to.Some? && to.value.normalized != "" then r == Ok
    else r == Status(501)
  }

  /** How DATA is answered after so many accepted recipients, and whether the message was handed to the queue. */
  predicate DataAnswered(c: Config, s: State, n: nat, payload: Payload, queued: bool, submitted: bool, r: Reply) {
    if s.identity.None? || n == 0 then !submitted && r == Status(if s.identity.None? then 530 else 554)
    else if !payload.Parsed? then !submitted && r == Status(if payload.Unreadable? then payload.code else 550)
    else
      var d := Resolve(c.fold, s.identity.value.account, s.identity.value.mailboxes, payload.from);
      if d.Refuse? then !submitted && r == Status(d.code)
      else submitted && r == if queued then Ok else Status(451)
  }

  /** How an authentication is answered: `checked` if a password was, for which the authenticator said `verdict`. */
  predicate AuthAnswered(c: Config, s: State, checked: bool, verdict: Option<Identity>, r: Reply) {
    && (r == Status(538) <==> !s.encrypted && !c.allowInsecureAuth)
    && (r == Ok <==> (s.encrypted || c.allowInsecureAuth) && checked && verdict.Some?)
    && (r == ProtocolError ==> !checked)
    && r in {Ok, Status(538), AuthFailed, ProtocolError}
  }

  /**
   * On every trace, what a command of an open session is answered, from the login, the encryption and the number
   * of recipients accepted so far.
   */
  lemma AnsweredExactly(c: Config, ms: seq<Command>, m: Command)
    requires !After(c, ms).closed
    ensures var s, r, n := After(c, ms), ReplyTo(c, After(c, ms), m), |AcceptedRecipients(c, ms)|;
            && (m.Mail? ==> MailAnswered(c, s, m.from, r))
            && (m.Rcpt? ==> RcptAnswered(c, s, n, m.to, r))
            && (m.Data? ==> DataAnswered(c, s, n, m.payload, m.queued, Submitted(c, s, m).Some?, r))
            && (m.StartTls? ==> r == if m.handshake && c.tls == Upgrade && !s.encrypted then Ok else ProtocolError)
            && (m.AuthPlain? ==> AuthAnswered(c, s, m.exchange.Credentials? && m.exchange.authzid in {"", m.exchange.username}, m.verdict, r))
            && (m.AuthLogin? ==> AuthAnswered(c, s, LoginEnd(m.responses).Checked?, m.verdict, r))
            && (m.AuthOther? ==> AuthAnswered(c, s, false, None, r))
            && (m.Reset? ==> r == Ok)
  {
    EnvelopeHolds(c, ms);
  }

  /** What a submission is worth under its identity's policy. */
  ghost predicate PolicyKept(c: Config, sub: Submission, from: Address) {
    var a := sub.identity.account;
    && a.enabled && sub.mailbox in sub.identity.mailboxes && sub.mailbox.enabled
    && (a.policy == RejectOther ==>
          && !sub.rewritten
          && (EqualFold(c.fold, sub.mailbox.address, from.normalized) || MatchesAny(c.fold, from.normalized, a.allowedSenders)))
    && (sub.rewritten ==> a.policy == RewriteFrom && sub.headerFrom == Address(sub.mailbox.address, c.fold.lower(sub.mailbox.address)))
    && (!sub.rewritten ==> sub.headerFrom == from)
  }

  lemma SubmissionPolicy(c: Config, s: State, m: Command)
    requires Submitted(c, s, m).Some?
    ensures PolicyKept(c, Submitted(c, s, m).value, m.payload.from)
  {
    var id := s.identity.value;
    ResolveExactly(c.fold, id.account, id.mailboxes, m.payload.from);
    if id.account.policy == RejectOther {
      RejectPolicyHolds(c.fold, id.account, id.mailboxes, m.payload.from);
    }
  }

  /**
   * On every command trace, upgrades included, each submission follows a successful password check since
   * the connection was upgraded and carries the identity of the latest one; it has the sender of the last MAIL
   * and exactly the recipients accepted since that or a reset, between one and the maximum; the MAIL and the login
   * came over TLS where that is demanded; and it leaves by an enabled mailbox granted to that identity, within its
   * policy.
   */
  lemma SubmissionsAreEntitled(c: Config, ms: seq<Command>, i: nat)
    requires i < |ms| && Submitted(c, After(c, ms[..i]), ms[i]).Some?
    ensures var sub := Submitted(c, After(c, ms[..i]), ms[i]).value;
            && (exists j :: LastLogin(c, ms[..i], j, sub.identity))
            && sub.recipients == AcceptedRecipients(c, ms[..i])
            && var sender := AcceptedSender(c, ms[..i]);
            && sub.envelopeFrom == (if sender.Some? then sender.value else NO_ADDRESS)
            && (c.requireTLS && sender.Some? ==> AcceptedTls(c, ms[..i]))
            && (AcceptedTls(c, ms[..i]) || c.allowInsecureAuth)
            && 1 <= |sub.recipients| <= c.maxRecipients
            && PolicyKept(c, sub, ms[i].payload.from)
  {
    EnvelopeHolds(c, ms[..i]);
    SenderHolds(c, ms[..i]);
    IdentityFromLogin(c, ms[..i]);
    SubmissionPolicy(c, After(c, ms[..i]), ms[i]);
  }

  // ---- in place ----

  class SmtpSession {
    const config: Config
    var identity: Option<Identity>
    var authFailures: nat
    var envelopeFrom: Address
    var recipients: seq<string>
    const encrypted: bool
    var closed: bool

    ghost function Value(): State
      reads this
    {
      State(identity, authFailures, envelopeFrom, recipients, encrypted, closed)
    }

    constructor (config: Config, encrypted: bool)
      ensures this.config == config && Value() == Fresh(encrypted)
    {
      this.config, this.encrypted := config, encrypted;
      identity, authFailures, envelopeFrom, recipients, closed := None, 0, NO_ADDRESS, [], false;
    }

    method RecordAuthFailure()
      modifies this`authFailures, this`closed
      ensures Value() == Failed(config, old(Value()))
    {
      authFailures := authFailures + 1;
      if config.maxAuthFailures > 0 && authFailures >= config.maxAuthFailures {
        closed := true;
      }
    }

    /** The shared body of every mechanism. */
    method Authenticate(verdict: Option<Identity>) returns (reply: Reply)
      modifies this`identity, this`authFailures, this`closed
      ensures Value() == Authenticated(config, old(Value()), verdict)
      ensures reply == if verdict.Some? then Ok else AuthFailed
    {
      if verdict.None? {
        RecordAuthFailure();
        return AuthFailed;
      }
      identity := verdict;
      return Ok;
    }

    /** Whether AUTH is allowed at all on this connection. */
    predicate Allowed() {
      encrypted || config.allowInsecureAuth
    }

    method DoAuthPlain(exchange: PlainExchange, verdict: Option<Identity>) returns (reply: Reply)
      requires !closed
      modifies this
      ensures Value() == Step(config, old(Value()), AuthPlain(exchange, verdict))
      ensures reply == ReplyTo(config, old(Value()), AuthPlain(exchange, verdict))
    {
      if !Allowed() {
        return Status(538);
      }
      if exchange.Malformed? {
        return ProtocolError;
      }
      if exchange.authzid != "" && exchange.authzid != exchange.username {
        RecordAuthFailure();
        return AuthFailed;
      }
      reply := Authenticate(verdict);
    }

    /** Runs the exchange; only a password that was checked can count as a failure. */
    method DoAuthLogin(responses: seq<Option<string>>, verdict: Option<Identity>) returns (reply: Reply)
      requires !closed
      modifies this
      ensures Value() == Step(config, old(Value()), AuthLogin(responses, verdict))
      ensures reply == ReplyTo(config, old(Value()), AuthLogin(responses, verdict))
    {
      if !Allowed() {
        return Status(538);
      }
      var server := new SaslLogin.LoginServer();
      var ending := server.Run(responses);
      match ending
      case Checked(_, _) => reply := Authenticate(verdict);
      case TooLong => return AuthFailed;
      case Unfinished => return ProtocolError;
    }

    method DoAuthOther() returns (reply: Reply)
      requires !closed
      ensures Value() == Step(config, Value(), AuthOther)
      ensures reply == ReplyTo(config, Value(), AuthOther)
    {
      return if Allowed() then AuthFailed else Status(538);
    }

    method DoMail(from: Option<Address>) returns (reply: Reply)
      requires !closed
      modifies this
      ensures Value() == Step(config, old(Value()), Mail(from))
      ensures reply == ReplyTo(config, old(Value()), Mail(from))
      ensures if reply.Ok? then from.Some? && Value() == old(Value()).(envelopeFrom := from.value, recipients := [])
              else Value() == old(Value())
    {
      if identity.None? {
        return Status(530);
      }
      if config.requireTLS && !encrypted {
        return Status(530);
      }
      if from.None? {
        return Status(501);
      }
      envelopeFrom := from.value;
      recipients := [];
      return Ok;
    }

    method DoRcpt(to: Option<Address>) returns (reply: Reply)
      requires !closed
      modifies this
      ensures Value() == Step(config, old(Value()), Rcpt(to))
      ensures reply == ReplyTo(config, old(Value()), Rcpt(to))
      ensures if reply.Ok? then to.Some? && Value() == old(Value()).(recipients := old(recipients) + [to.value.original])
              else Value() == old(Value())
    {
      if identity.None? {
        return Status(530);
      }
      if |recipients| >= config.maxRecipients {
        return Status(452);
      }
      if to.None? || to.value.IsEmpty() {
        return Status(501);
      }
      recipients := recipients + [to.value.original];
      return Ok;
    }

    /** Applies the sender policy and hands the message to the queue, which answers `queued`. */
    method DoData(payload: Payload, queued: bool) returns (reply: Reply, sub: Option<Submission>)
      requires !closed
      ensures reply == ReplyTo(config, Value(), Data(payload, queued))
      ensures sub == Submitted(config, Value(), Data(payload, queued))
    {
      if identity.None? {
        return Status(530), None;
      }
      if |recipients| == 0 {
        return Status(554), None;
      }
      match payload
      case Unreadable(code) => return Status(code), None;
      case Unparseable => return Status(550), None;
      case BadFrom => return Status(550), None;
      case Parsed(from) =>
        var d := Resolve(config.fold, identity.value.account, identity.value.mailboxes, from);
        if d.Refuse? {
          return Status(d.code), None;
        }
        var final := if d.Rewrite? then Address(d.mailbox.address, config.fold.lower(d.mailbox.address)) else from;
        sub := Some(Submission(identity.value, d.mailbox, envelopeFrom, final, recipients, d.Rewrite?));
        return if queued then Ok else Status(451), sub;
    }

    method DoReset()
      requires !closed
      modifies this`envelopeFrom, this`recipients
      ensures Value() == Step(config, old(Value()), Reset)
    {
      envelopeFrom := NO_ADDRESS;
      recipients := [];
    }
  }

  /** The connection, whose upgrade replaces the session by a new one. */
  class Connection {
    const config: Config
    var session: SmtpSession

    constructor (config: Config)
      ensures this.config == config && session.config == config && fresh(session)
      ensures session.Value() == Fresh(config.tls == Implicit)
    {
      this.config := config;
      session := new SmtpSession(config, config.tls == Implicit);
    }

    method DoStartTls(handshake: bool) returns (reply: Reply)
      requires session.config == config && !session.closed
      modifies this
      ensures session.config == config
      ensures session.Value() == Step(config, old(session.Value()), StartTls(handshake))
      ensures reply == ReplyTo(config, old(session.Value()), StartTls(handshake))
    {
      if config.tls != Upgrade || session.encrypted || !handshake {
        return ProtocolError;
      }
      session := new SmtpSession(config, true);
      return Ok;
    }
  }
}
