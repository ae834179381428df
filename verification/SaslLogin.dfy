/** The AUTH LOGIN exchange: two prompts, then at most one password check. */
module SaslLogin {
  import opened Common

  const MAX_FIELD_LEN := 1024

  datatype Stage = AwaitUsername | AwaitPassword | Finished

  datatype Exchange = Exchange(stage: Stage, username: string)

  /** What a turn answers: a prompt, a password to check, or the end. */
  datatype Answer = AskUsername | AskPassword | Check(username: string, password: string) | Refused | AlreadyOver

  const NEW_EXCHANGE := Exchange(AwaitUsername, "")

  /** `response` is None when the client sent nothing yet. */
  function Turn(x: Exchange, response: Option<string>): (Exchange, Answer) {
    var text := if response.Some? then response.value else "";
    match x.stage
    case AwaitUsername =>
      if response.None? then (x, AskUsername)
      else if |text| > MAX_FIELD_LEN then (x.(stage := Finished), Refused)
      else (Exchange(AwaitPassword, text), AskPassword)
    case AwaitPassword =>
      (x.(stage := Finished), if |text| > MAX_FIELD_LEN then Refused else Check(x.username, text))
    case Finished => (x, AlreadyOver)
  }

  /** The answers to a client's responses, in order. */
  function Answers(x: Exchange, responses: seq<Option<string>>): seq<Answer>
    decreases |responses|
  {
    if |responses| == 0 then []
    else var (y, a) := Turn(x, responses[0]); [a] + Answers(y, responses[1..])
  }

  lemma {:induction false} NothingAfterTheEnd(x: Exchange, responses: seq<Option<string>>, i: nat)
    requires x.stage == Finished && i < |Answers(x, responses)|
    ensures Answers(x, responses)[i] == AlreadyOver
  {
    if i > 0 {
      NothingAfterTheEnd(x, responses[1..], i - 1);
    }
  }

  /**
   * Whatever a client sends, one exchange checks at most one password, the one sent right after its
   * username, and both within the length limit.
   */
  lemma {:induction false} OneCheck(x: Exchange, responses: seq<Option<string>>, i: nat)
    requires i < |Answers(x, responses)| && Answers(x, responses)[i].Check?
    requires x.stage == AwaitPassword ==> |x.username| <= MAX_FIELD_LEN
    ensures |Answers(x, responses)| == |responses|
    ensures forall j :: i < j < |responses| ==> Answers(x, responses)[j] == AlreadyOver
    ensures var a := Answers(x, responses)[i];
            && |a.username| <= MAX_FIELD_LEN && |a.password| <= MAX_FIELD_LEN
            && (responses[i].Some? ==> a.password == responses[i].value)
            && a.username == (if i == 0 then x.username else if responses[i - 1].Some? then responses[i - 1].value else "")
    ensures i > 0 ==> x.stage == AwaitUsername && responses[i - 1].Some?
    decreases |responses|
  {
    AnswersLength(x, responses);
    var (y, a) := Turn(x, responses[0]);
    if i == 0 {
      forall j | 0 < j < |responses|
        ensures Answers(x, responses)[j] == AlreadyOver
      {
        AnswersLength(y, responses[1..]);
        NothingAfterTheEnd(y, responses[1..], j - 1);
      }
    } else {
      if y.stage == Finished {
        NothingAfterTheEnd(y, responses[1..], i - 1);
      }
      OneCheck(y, responses[1..], i - 1);
      if i == 1 {
        assert Answers(y, responses[1..])[0].Check?;
      }
    }
  }

  lemma {:induction false} AnswersLength(x: Exchange, responses: seq<Option<string>>)
    ensures |Answers(x, responses)| == |responses|
    decreases |responses|
  {
    if |responses| > 0 {
      AnswersLength(Turn(x, responses[0]).0, responses[1..]);
    }
  }

  // ---- how an exchange ends ----

  /** The end of an exchange: a password to check, a field over the limit, or a client that stopped answering. */
  datatype Ending = Checked(username: string, password: string) | TooLong | Unfinished

  function End(x: Exchange, responses: seq<Option<string>>): Ending
    requires x.stage != Finished
    decreases |responses|
  {
    if |responses| == 0 then Unfinished
    else
      var (y, a) := Turn(x, responses[0]);
      match a
      case Check(username, password) => Checked(username, password)
      case Refused => TooLong
      case _ => End(y, responses[1..])
  }

  /** An exchange ends with a check exactly when one of its answers is that check. */
  lemma {:induction false} EndIsCheck(x: Exchange, responses: seq<Option<string>>, username: string, password: string)
    requires x.stage != Finished
    ensures End(x, responses) == Checked(username, password) <==> Check(username, password) in Answers(x, responses)
    decreases |responses|
  {
    if |responses| > 0 {
      var (y, a) := Turn(x, responses[0]);
      var rest := Answers(y, responses[1..]);
      assert Answers(x, responses) == [a] + rest;
      if y.stage == Finished {
        forall i | 0 <= i < |rest|
          ensures rest[i] == AlreadyOver
        {
          NothingAfterTheEnd(y, responses[1..], i);
        }
      } else {
        EndIsCheck(y, responses[1..], username, password);
      }
    }
  }

  /** The first response the client gives at all. */
  ghost predicate FirstGiven(responses: seq<Option<string>>, i: nat) {
    i < |responses| && responses[i].Some? && forall j :: 0 <= j < i ==> responses[j].None?
  }

  function Given(response: Option<string>): string {
    if response.Some? then response.value else ""
  }

  /**
   * How every exchange ends: the first response given is the username and the one after it the password, which is
   * checked for it if neither is longer than the limit; a client that stops before that has not finished.
   */
  lemma {:induction false} LoginExactly(responses: seq<Option<string>>, i: nat)
    ensures FirstGiven(responses, i) ==>
              End(NEW_EXCHANGE, responses)
              == if |responses[i].value| > 1024 then TooLong
                 else if i + 1 == |responses| then Unfinished
                 else if |Given(responses[i + 1])| > 1024 then TooLong
                 else Checked(responses[i].value, Given(responses[i + 1]))
    ensures (forall j :: 0 <= j < |responses| ==> responses[j].None?) ==> End(NEW_EXCHANGE, responses) == Unfinished
    decreases |responses|
  {
    if |responses| > 0 && responses[0].None? {
      LoginExactly(responses[1..], if i > 0 then i - 1 else 0);
    }
  }

  class LoginServer {
    var stage: Stage
    var username: string

    constructor ()
      ensures Exchange(stage, username) == NEW_EXCHANGE
    {
      stage, username := AwaitUsername, "";
    }

    method Next(response: Option<string>) returns (answer: Answer)
      modifies this
      ensures (Exchange(stage, username), answer) == Turn(old(Exchange(stage, username)), response)
    {
      var text := if response.Some? then response.value else "";
      match stage
      case AwaitUsername =>
        if response.None? {
          return AskUsername;
        }
        if |text| > MAX_FIELD_LEN {
          stage := Finished;
          return Refused;
        }
        username := text;
        stage := AwaitPassword;
        return AskPassword;
      case AwaitPassword =>
        stage := Finished;
        if |text| > MAX_FIELD_LEN {
          return Refused;
        }
        return Check(username, text);
      case Finished =>
        return AlreadyOver;
    }

    /** The library's loop: the client's responses, one by one, until the exchange is over. */
    method Run(responses: seq<Option<string>>) returns (ending: Ending)
      requires stage != Finished
      modifies this
      ensures ending == End(old(Exchange(stage, username)), responses)
    {
      ghost var x := Exchange(stage, username);
      for i := 0 to |responses|
        invariant stage != Finished
        invariant End(Exchange(stage, username), responses[i..]) == End(x, responses)
      {
        assert responses[i..][1..] == responses[i + 1..];
        var answer := Next(responses[i]);
        match answer {
          case Check(u, p) => return Checked(u, p);
          case Refused => return TooLong;
          case _ =>
        }
      }
      return Unfinished;
    }
  }
}
