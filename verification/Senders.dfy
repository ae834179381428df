/**
 * Who a message says it is from, and who was judged: the session decides on the first From field of the
 * message as it came, and an accepted message leaves with all of them.
 */
module Senders {
  import opened Common
  import opened HeaderText
  import opened Rewriting
  import opened HeaderLaws
  import opened HeaderFields
  import opened Stamping
  import Policy
  import Session

  /** The library's reading of a From field: None if it is not an address. */
  type Parser = Field -> Option<Policy.Address>

  /** What DATA sees of a message that parses: the first From field the library reads decides. */
  function Judged(text: Text, parse: Parser, fs: seq<Field>): Session.Payload {
    match FirstRead(text, fs, FROM)
    case None => Session.Parsed(Policy.NO_ADDRESS)
    case Some(i) =>
      match parse(fs[i])
      case None => Session.BadFrom
      case Some(a) => Session.Parsed(a)
  }

  /** The identity may put this From field in a message without any policy stretching it. */
  ghost predicate EntitledField(c: Session.Config, id: Session.Identity, parse: Parser, f: Field) {
    parse(f).Some? && Policy.Entitled(c.fold, id.account, id.mailboxes, parse(f).value)
  }

  /** Every From field, a space before its colon or not, is one the identity is entitled to. */
  ghost predicate AllEntitled(c: Session.Config, id: Session.Identity, text: Text, parse: Parser, fs: seq<Field>) {
    forall j :: 0 <= j < |fs| && Key(text, fs[j]) == Some(FROM) ==> EntitledField(c, id, parse, fs[j])
  }

  /** Every From field but the one at `i` is. */
  ghost predicate OthersEntitled(c: Session.Config, id: Session.Identity, text: Text, parse: Parser, fs: seq<Field>, i: nat) {
    forall j :: 0 <= j < |fs| && j != i && Key(text, fs[j]) == Some(FROM) ==> EntitledField(c, id, parse, fs[j])
  }

  /** An accepted message leaves with the From fields it came with. */
  lemma {:induction false} AcceptedKeepsFrom(
      c: Session.Config, id: Session.Identity, text: Text, parse: Parser, received: Bytes,
      ls: seq<Bytes>, raw: Bytes, end: nat, ms: seq<Bytes>)
    requires Sane(text) && KnowsNames(text) && ReadBack(text, Stamped(received), ls, raw, end, [], ms)
    ensures AllEntitled(c, id, text, parse, Fields(Kept(ms))) <==> AllEntitled(c, id, text, parse, Fields(Kept(ls)))
  {
    AcceptedKeepsFields(text, received, ls, raw, end, ms);
    StampField(text, received);
    NamesDiffer("", "", false);
    StampAside(c, id, text, parse, [HeaderLine(text, RECEIVED, received)], Fields(Kept(ls)));
  }

  lemma StampAside(c: Session.Config, id: Session.Identity, text: Text, parse: Parser, stamp: Field, fs: seq<Field>)
    requires Key(text, stamp) != Some(FROM)
    ensures AllEntitled(c, id, text, parse, [stamp] + fs) <==> AllEntitled(c, id, text, parse, fs)
  {
    var all := [stamp] + fs;
    if AllEntitled(c, id, text, parse, all) {
      forall j | 0 <= j < |fs| && Key(text, fs[j]) == Some(FROM)
        ensures EntitledField(c, id, parse, fs[j])
      {
        assert all[j + 1] == fs[j];
      }
    }
    if AllEntitled(c, id, text, parse, fs) {
      forall j | 0 <= j < |all| && Key(text, all[j]) == Some(FROM)
        ensures EntitledField(c, id, parse, all[j])
      {
        assert j > 0 && all[j] == fs[j - 1];
      }
    }
  }

  /** Under the reject policy what is submitted is accepted as it is, on the From field judged. */
  lemma JudgedIsEntitled(c: Session.Config, s: Session.State, text: Text, parse: Parser, fs: seq<Field>, queued: bool)
    requires s.identity.Some? && s.identity.value.account.policy == Policy.RejectOther
    requires Session.Submitted(c, s, Session.Data(Judged(text, parse, fs), queued)).Some?
    ensures !Session.Submitted(c, s, Session.Data(Judged(text, parse, fs), queued)).value.rewritten
    ensures FirstRead(text, fs, FROM).Some? && EntitledField(c, s.identity.value, parse, fs[FirstRead(text, fs, FROM).value])
  {
    var id := s.identity.value;
    Policy.ResolveExactly(c.fold, id.account, id.mailboxes, Judged(text, parse, fs).from);
  }

  /**
   * Under the reject policy every From field of a submitted message is one its sender is entitled to, if and
   * only if all those but the first one the library reads are: in particular if there is only one.
   */
  lemma {:induction false} EveryFromEntitledExactly(
      c: Session.Config, s: Session.State, text: Text, parse: Parser, received: Bytes, queued: bool,
      ls: seq<Bytes>, raw: Bytes, end: nat, ms: seq<Bytes>)
    requires Sane(text) && KnowsNames(text) && ReadBack(text, Stamped(received), ls, raw, end, [], ms)
    requires s.identity.Some? && s.identity.value.account.policy == Policy.RejectOther
    requires Session.Submitted(c, s, Session.Data(Judged(text, parse, Fields(Kept(ls))), queued)).Some?
    ensures var id, came := s.identity.value, Fields(Kept(ls));
            var i := FirstRead(text, came, FROM);
            && i.Some? && Key(text, came[i.value]) == Some(FROM)
            && (AllEntitled(c, id, text, parse, Fields(Kept(ms))) <==> OthersEntitled(c, id, text, parse, came, i.value))
  {
    var came := Fields(Kept(ls));
    AcceptedKeepsFrom(c, s.identity.value, text, parse, received, ls, raw, end, ms);
    JudgedIsEntitled(c, s, text, parse, came, queued);
    ReadIsNamed(text, came[FirstRead(text, came, FROM).value], FROM);
  }

  // ---- a From field that is not judged ----

  lemma {:induction false} TwoFields(x: Bytes, y: Bytes)
    requires !Continuation(x) && !Continuation(y)
    ensures Fields([x, y]) == [[x], [y]]
  {
    SinglesReparse([x, y]);
  }

  lemma FromLine(text: Text, v: Bytes)
    requires KnowsNames(text)
    ensures var f: Field := [HeaderLine(text, FROM, v)];
            Key(text, f) == Some(FROM) && ReadKey(text, f) == Some(FROM) && !Continuation(f[0])
  {
    HeaderLineParses(text, FROM, v);
    LineIsRead(text, FROM, v);
    assert HeaderLine(text, FROM, v)[0] == FROM[0];
  }

  /** The sender may submit a message judged on this From field. */
  ghost predicate MaySubmit(c: Session.Config, s: Session.State, parse: Parser, f: Field) {
    && s.identity.Some? && !s.closed && |s.recipients| > 0
    && var id := s.identity.value;
       && EntitledField(c, id, parse, f) && !parse(f).value.IsEmpty() && id.account.enabled && |id.mailboxes| > 0
       && Policy.Through(c.fold, id.account, id.mailboxes, parse(f).value).enabled
  }

  lemma JudgedIsSubmitted(c: Session.Config, s: Session.State, text: Text, parse: Parser, fs: seq<Field>, queued: bool)
    requires FirstRead(text, fs, FROM).Some? && MaySubmit(c, s, parse, fs[FirstRead(text, fs, FROM).value])
    ensures Session.Submitted(c, s, Session.Data(Judged(text, parse, fs), queued)).Some?
  {
    var id := s.identity.value;
    Policy.ResolveExactly(c.fold, id.account, id.mailboxes, Judged(text, parse, fs).from);
  }

  /**
   * For every sender, also under the reject policy, any From field it is entitled to and any it is not: the
   * message that has both, in this order, is submitted.
   */
  lemma {:induction false} SecondFromUnjudged(c: Session.Config, s: Session.State, text: Text, parse: Parser,
                                              own: Bytes, other: Bytes, queued: bool)
    requires KnowsNames(text) && MaySubmit(c, s, parse, [HeaderLine(text, FROM, own)])
    requires !EntitledField(c, s.identity.value, parse, [HeaderLine(text, FROM, other)])
    ensures var fs := Fields([HeaderLine(text, FROM, own), HeaderLine(text, FROM, other)]);
            && Session.Submitted(c, s, Session.Data(Judged(text, parse, fs), queued)).Some?
            && !AllEntitled(c, s.identity.value, text, parse, fs)
  {
    var x, y := HeaderLine(text, FROM, own), HeaderLine(text, FROM, other);
    FromLine(text, own);
    FromLine(text, other);
    TwoFields(x, y);
    var fs: seq<Field> := [[x], [y]];
    assert FirstRead(text, fs, FROM) == Some(0);
    JudgedIsSubmitted(c, s, text, parse, fs, queued);
    assert Key(text, fs[1]) == Some(FROM);
  }

  /**
   * So is the message with the other one first, if a space before its colon hides it from the library: it is
   * not the first From field read, though it is the first there is.
   */
  lemma {:induction false} SpacedFromUnjudged(c: Session.Config, s: Session.State, text: Text, parse: Parser,
                                              own: Bytes, other: Bytes, queued: bool)
    requires KnowsNames(text) && SpaceHides(text, FROM) && MaySubmit(c, s, parse, [HeaderLine(text, FROM, own)])
    requires !EntitledField(c, s.identity.value, parse, [Spaced(FROM, other)])
    ensures var fs := Fields([Spaced(FROM, other), HeaderLine(text, FROM, own)]);
            && Session.Submitted(c, s, Session.Data(Judged(text, parse, fs), queued)).Some?
            && !AllEntitled(c, s.identity.value, text, parse, fs)
  {
    var x, y := Spaced(FROM, other), HeaderLine(text, FROM, own);
    SpacedField(text, FROM, other);
    FromLine(text, own);
    TwoFields(x, y);
    var fs: seq<Field> := [[x], [y]];
    assert ReadKey(text, fs[0]) != Some(FROM) && ReadKey(text, fs[1]) == Some(FROM);
    JudgedIsSubmitted(c, s, text, parse, fs, queued);
    assert Key(text, fs[0]) == Some(FROM);
  }
}
