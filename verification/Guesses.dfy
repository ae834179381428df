/**
 * How many password checks can fail on one connection. A session closes the connection at its limit, and an
 * upgrade to TLS starts a session that counts from zero again.
 */
module Guesses {
  import opened Common
  import opened Policy
  import opened Session

  /** What an upgraded connection may have failed before: nothing if AUTH was refused then. */
  function Carried(c: Config, s: State): int {
    if c.tls == Upgrade && s.encrypted && c.allowInsecureAuth then c.maxAuthFailures - 1 else 0
  }

  /** The session's counter, its limit and the failures of the connection so far. */
  predicate Tallied(c: Config, s: State, failed: nat) {
    && failed <= Carried(c, s) + s.authFailures
    && s.authFailures <= c.maxAuthFailures
    && (s.closed <==> s.authFailures == c.maxAuthFailures)
    && (!MayAuth(c, s) ==> s.authFailures == 0)
  }

  function FailsCheck(c: Config, s: State, m: Command): nat {
    if ChecksPassword(c, s, m) && m.verdict.None? then 1 else 0
  }

  lemma TalliedStep(c: Config, s: State, m: Command, failed: nat)
    requires c.maxAuthFailures > 0 && Tallied(c, s, failed)
    ensures Tallied(c, Step(c, s, m), failed + FailsCheck(c, s, m))
  {
  }

  // ---- what counts as a failure ----

  /** The command is a failed login: a password that was checked and refused, or a request to act as another account. */
  predicate FailsLogin(c: Config, s: State, m: Command) {
    && !s.closed && (s.encrypted || c.allowInsecureAuth)
    && (|| (m.AuthPlain? && m.exchange.Credentials? && (m.exchange.authzid !in {"", m.exchange.username} || m.verdict.None?))
        || (m.AuthLogin? && LoginEnd(m.responses).Checked? && m.verdict.None?))
  }

  /** Failed logins since the connection was opened or upgraded. */
  function FailedSince(c: Config, ms: seq<Command>): nat {
    if |ms| == 0 then 0
    else
      var pre, m := ms[..|ms| - 1], ms[|ms| - 1];
      if m.StartTls? && Positive(c, ms, |ms| - 1) then 0
      else FailedSince(c, pre) + if FailsLogin(c, After(c, pre), m) then 1 else 0
  }

  lemma CounterStep(c: Config, s: State, m: Command)
    requires s.closed <==> c.maxAuthFailures > 0 && s.authFailures >= c.maxAuthFailures
    ensures var t := Step(c, s, m);
            && t.authFailures == (if m.StartTls? && ReplyTo(c, s, m).Ok? then 0
                                  else s.authFailures + if FailsLogin(c, s, m) then 1 else 0)
            && (t.closed <==> c.maxAuthFailures > 0 && t.authFailures >= c.maxAuthFailures)
  {
  }

  /** On every trace the session has counted exactly the failed logins, and is closed exactly once they reach the limit. */
  lemma {:induction false} CountedExactly(c: Config, ms: seq<Command>)
    ensures After(c, ms).authFailures == FailedSince(c, ms)
    ensures After(c, ms).closed <==> c.maxAuthFailures > 0 && FailedSince(c, ms) >= c.maxAuthFailures
  {
    if |ms| > 0 {
      CountedExactly(c, ms[..|ms| - 1]);
      CounterStep(c, After(c, ms[..|ms| - 1]), ms[|ms| - 1]);
    }
  }

  /** In every state the connection's failed checks are within the session's counter and what it carried over. */
  lemma {:induction false} FailuresCounted(c: Config, ms: seq<Command>)
    requires c.maxAuthFailures > 0
    ensures Tallied(c, After(c, ms), FailedChecks(c, ms))
  {
    if |ms| > 0 {
      FailuresCounted(c, ms[..|ms| - 1]);
      TalliedStep(c, After(c, ms[..|ms| - 1]), ms[|ms| - 1], FailedChecks(c, ms[..|ms| - 1]));
    }
  }

  /** No connection has more failed password checks than twice the limit less one. */
  lemma {:induction false} GuessesBounded(c: Config, ms: seq<Command>)
    requires c.maxAuthFailures > 0
    ensures FailedChecks(c, ms) <= 2 * c.maxAuthFailures - 1
  {
    FailuresCounted(c, ms);
  }

  /** The listener refuses AUTH before TLS, offers no upgrade, or closes at the first failure. */
  predicate CountsOnce(c: Config) {
    !c.allowInsecureAuth || c.tls != Upgrade || c.maxAuthFailures == 1
  }

  // ---- the bound is attained ----

  const GUESS := AuthPlain(Credentials("", ""), None)

  function Guessing(n: nat): seq<Command> {
    seq(n, _ => GUESS)
  }

  /** One more guess on an open session. */
  lemma Guess(c: Config, s: State)
    requires c.maxAuthFailures > 0 && !s.closed && MayAuth(c, s) && s.authFailures < c.maxAuthFailures
    ensures FailsCheck(c, s, GUESS) == 1
    ensures Step(c, s, GUESS) == s.(authFailures := s.authFailures + 1, closed := s.authFailures + 1 == c.maxAuthFailures)
  {
  }

  /** One more command of a trace. */
  lemma Snoc(c: Config, pre: seq<Command>, m: Command)
    ensures After(c, pre + [m]) == Step(c, After(c, pre), m)
    ensures FailedChecks(c, pre + [m]) == FailedChecks(c, pre) + FailsCheck(c, After(c, pre), m)
  {
    assert (pre + [m])[..|pre|] == pre;
  }

  lemma {:induction false} GuessRun(c: Config, pre: seq<Command>, n: nat)
    requires c.maxAuthFailures > 0 && !After(c, pre).closed && MayAuth(c, After(c, pre))
    requires After(c, pre).authFailures + n <= c.maxAuthFailures
    ensures var s, t := After(c, pre), After(c, pre + Guessing(n));
            && t == s.(authFailures := s.authFailures + n, closed := n > 0 && s.authFailures + n == c.maxAuthFailures)
            && FailedChecks(c, pre + Guessing(n)) == FailedChecks(c, pre) + n
    decreases n
  {
    if n == 0 {
      assert pre + Guessing(0) == pre;
    } else {
      GuessRun(c, pre, n - 1);
      Guess(c, After(c, pre + Guessing(n - 1)));
      Snoc(c, pre + Guessing(n - 1), GUESS);
      assert pre + Guessing(n) == pre + Guessing(n - 1) + [GUESS];
    }
  }

  /** One guess short of the limit, an upgrade, and the whole limit again. */
  function GuessAroundUpgrade(max: nat): seq<Command>
    requires max > 0
  {
    Guessing(max - 1) + [StartTls(true)] + Guessing(max)
  }

  lemma Upgraded(c: Config, pre: seq<Command>)
    requires Upgrades(c, After(c, pre), StartTls(true))
    ensures After(c, pre + [StartTls(true)]) == Fresh(true)
    ensures FailedChecks(c, pre + [StartTls(true)]) == FailedChecks(c, pre)
  {
    Snoc(c, pre, StartTls(true));
  }

  /** With an upgrade on offer and AUTH allowed before it, this trace reaches the bound exactly. */
  lemma BoundAttained(c: Config)
    requires c.maxAuthFailures > 0 && c.allowInsecureAuth && c.tls == Upgrade
    ensures FailedChecks(c, GuessAroundUpgrade(c.maxAuthFailures)) == 2 * c.maxAuthFailures - 1
  {
    var n := c.maxAuthFailures;
    var first := Guessing(n - 1);
    GuessRun(c, [], n - 1);
    assert [] + first == first;
    Upgraded(c, first);
    GuessRun(c, first + [StartTls(true)], n);
  }

  /**
   * No connection has more failed password checks than the limit if and only if the listener refuses AUTH
   * before TLS, offers no upgrade, or closes at the first failure.
   */
  lemma GuessesWithinLimitExactly(c: Config)
    requires c.maxAuthFailures > 0
    ensures (forall ms :: FailedChecks(c, ms) <= c.maxAuthFailures) <==> CountsOnce(c)
  {
    if CountsOnce(c) {
      forall ms: seq<Command>
        ensures FailedChecks(c, ms) <= c.maxAuthFailures
      {
        FailuresCounted(c, ms);
      }
    } else {
      BoundAttained(c);
      assert FailedChecks(c, GuessAroundUpgrade(c.maxAuthFailures)) > c.maxAuthFailures;
    }
  }
}
