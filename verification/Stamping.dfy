/**
 * What leaves the server: a decision of the sender policy turned into header edits, and the fields a
 * recipient reads in the message that results.
 */
module Stamping {
  import opened Common
  import opened HeaderText
  import opened Rewriting
  import opened HeaderLaws
  import opened HeaderFields

  const RECEIVED: Bytes := "Received"
  const FROM: Bytes := "From"
  const ORIGINAL_FROM: Bytes := "X-Original-From"
  const REPLY_TO: Bytes := "Reply-To"

  /** A name the library reads as `k` without trimming is the one the rewriter finds as `k`. */
  ghost predicate ReadAgrees(text: Text, k: Bytes) {
    forall n :: text.canon(n) == k ==> text.canon(text.trim(n)) == k
  }

  /** The names the server edits are canonical, as the library leaves them. */
  ghost predicate KnowsNames(text: Text) {
    && KeyLike(text, RECEIVED) && KeyLike(text, FROM) && KeyLike(text, ORIGINAL_FROM) && KeyLike(text, REPLY_TO)
    && ReadAgrees(text, FROM) && ReadAgrees(text, REPLY_TO)
  }

  /** A space before the colon hides a field from the library's reader, and not from the rewriter. */
  predicate SpaceHides(text: Text, k: Bytes) {
    text.canon(k + " ") != k && text.canon(text.trim(k + " ")) == k
  }

  function DropSpace(v: Bytes): Bytes {
    if |v| > 0 && v[|v| - 1] == ' ' then v[..|v| - 1] else v
  }

  /** A library that trims one space and leaves names as they are. */
  function PlainText(): Text {
    Text(k => k, DropSpace)
  }

  lemma PlainSane()
    ensures Sane(PlainText())
  {
    forall v: Bytes
      ensures SliceOf(PlainText().trim(v), v)
    {
      assert DropSpace(v) == v[0..|DropSpace(v)|];
    }
  }

  lemma PlainName(k: Bytes)
    requires |k| > 0 && k[0] != ' ' && k[0] != '\t' && k[|k| - 1] != ' ' && forall i :: 0 <= i < |k| ==> k[i] != ':'
    ensures KeyLike(PlainText(), k) && ReadAgrees(PlainText(), k) && SpaceHides(PlainText(), k)
  {
    assert DropSpace(k) == k && DropSpace(k + " ") == k;
  }

  /** What is asked of the library is not too much. */
  lemma PlainWillDo()
    ensures Sane(PlainText()) && KnowsNames(PlainText()) && SpaceHides(PlainText(), FROM) && SpaceHides(PlainText(), REPLY_TO)
  {
    PlainSane();
    PlainName(RECEIVED);
    PlainName(FROM);
    PlainName(ORIGINAL_FROM);
    PlainName(REPLY_TO);
  }

  // ---- fields by name ----

  /** The fields of a name, in order. */
  function Named(text: Text, fs: seq<Field>, k: Bytes): seq<Field> {
    if |fs| == 0 then []
    else
      var f := fs[|fs| - 1];
      Named(text, fs[..|fs| - 1], k) + if Key(text, f) == Some(k) then [f] else []
  }

  /**
   * The name the library's reader gives a field: it does not trim, so a space before the colon makes another
   * name of it. The rewriter's Key trims.
   */
  function ReadKey(text: Text, f: Field): Option<Bytes> {
    if Continuation(f[0]) then None
    else
      match IndexFrom(f[0], ":", 0)
      case None => None
      case Some(colon) => if colon == 0 then None else Some(text.canon(f[0][..colon]))
  }

  /** The first field the library reads under a name. */
  function FirstRead(text: Text, fs: seq<Field>, k: Bytes): (r: Option<nat>)
    ensures r.Some? ==> r.value < |fs| && ReadKey(text, fs[r.value]) == Some(k)
                        && forall j :: 0 <= j < r.value ==> ReadKey(text, fs[j]) != Some(k)
    ensures r.None? ==> forall j :: 0 <= j < |fs| ==> ReadKey(text, fs[j]) != Some(k)
  {
    if |fs| == 0 then None
    else
      match FirstRead(text, fs[..|fs| - 1], k)
      case Some(i) => Some(i)
      case None => if ReadKey(text, fs[|fs| - 1]) == Some(k) then Some(|fs| - 1) else None
  }

  /** The value of that field, as the library reads it; empty without such a field. */
  function Get(text: Text, value: Field -> Bytes, fs: seq<Field>, k: Bytes): Bytes {
    match FirstRead(text, fs, k)
    case None => ""
    case Some(i) => value(fs[i])
  }

  /** What the library reads under a name the rewriter finds under it too. */
  lemma ReadIsNamed(text: Text, f: Field, k: Bytes)
    requires ReadAgrees(text, k) && ReadKey(text, f) == Some(k)
    ensures Key(text, f) == Some(k)
  {
  }

  /** A written field is read under its own name, trimmed or not. */
  lemma LineIsRead(text: Text, k: Bytes, v: Bytes)
    requires KeyLike(text, k)
    ensures ReadKey(text, [HeaderLine(text, k, v)]) == Some(k)
  {
    var l := HeaderLine(text, k, v);
    NameEnds(l, k);
  }

  /** The name of a line ends at its first colon. */
  lemma NameEnds(l: Bytes, n: Bytes)
    requires |n| > 0 && n[0] != ' ' && n[0] != '\t' && (forall i :: 0 <= i < |n| ==> n[i] != ':') && n + ":" <= l
    ensures !Continuation(l) && IndexFrom(l, ":", 0) == Some(|n|) && l[..|n|] == n
  {
    assert l[0] == n[0];
    assert l[|n|..|n| + 1] == ":";
    assert At(l, ":", |n|);
    forall j | 0 <= j < |n|
      ensures !At(l, ":", j)
    {
      assert l[j..j + 1] == [n[j]];
    }
  }

  lemma {:induction false} NamedAppend(text: Text, xs: seq<Field>, ys: seq<Field>, k: Bytes)
    ensures Named(text, xs + ys, k) == Named(text, xs, k) + Named(text, ys, k)
  {
    if |ys| == 0 {
      assert xs + ys == xs;
    } else {
      NamedAppend(text, xs, ys[..|ys| - 1], k);
      assert (xs + ys)[..|xs + ys| - 1] == xs + ys[..|ys| - 1];
    }
  }

  lemma NamedOne(text: Text, f: Field, k: Bytes)
    ensures Named(text, [f], k) == if Key(text, f) == Some(k) then [f] else []
  {
    assert [f][..0] == [];
  }

  /** The named fields are exactly the fields with that name. */
  lemma {:induction false} NamedExactly(text: Text, fs: seq<Field>, k: Bytes, f: Field)
    ensures f in Named(text, fs, k) <==> f in fs && Key(text, f) == Some(k)
  {
    if |fs| > 0 {
      NamedExactly(text, fs[..|fs| - 1], k, f);
      assert fs == fs[..|fs| - 1] + [fs[|fs| - 1]];
    }
  }

  lemma NamedHas(text: Text, fs: seq<Field>, k: Bytes)
    requires |Named(text, fs, k)| > 0
    ensures Has(text, fs, k)
  {
    var f := Named(text, fs, k)[0];
    NamedExactly(text, fs, k, f);
    var i :| 0 <= i < |fs| && fs[i] == f;
  }

  /** Fields no edit mentions are not changed by leaving the mentioned ones out. */
  lemma {:induction false} NamedOthers(text: Text, replace: map<Bytes, Bytes>, fs: seq<Field>, k: Bytes)
    requires k !in replace
    ensures Named(text, Others(text, replace, fs), k) == Named(text, fs, k)
  {
    if |fs| > 0 {
      var f, pre := fs[|fs| - 1], fs[..|fs| - 1];
      NamedOthers(text, replace, pre, k);
      if !Edited(text, replace, f) {
        NamedAppend(text, Others(text, replace, pre), [f], k);
        NamedOne(text, f, k);
      } else {
        assert Others(text, replace, fs) == Others(text, replace, pre);
      }
    }
  }

  // ---- how often a field occurs ----

  /** Editing in place keeps the number of fields of a mentioned name, or leaves none. */
  lemma {:induction false} SurvivorsNamed(text: Text, replace: map<Bytes, Bytes>, fs: seq<Field>, k: Bytes)
    requires KeysLike(text, replace) && k in replace
    ensures |Named(text, Survivors(text, replace, fs), k)| == if replace[k] == "" then 0 else |Named(text, fs, k)|
  {
    if |fs| > 0 {
      var pre, f := fs[..|fs| - 1], fs[|fs| - 1];
      var ss, g := Survivors(text, replace, pre), EditField(text, replace, f);
      SurvivorsNamed(text, replace, pre, k);
      EditFieldByName(text, replace, f);
      if |g| > 0 {
        NamedAppend(text, ss, [g], k);
        NamedOne(text, g, k);
      } else {
        assert Survivors(text, replace, fs) == ss;
      }
    }
  }

  lemma {:induction false} SeenIsNamed(text: Text, replace: map<Bytes, Bytes>, fs: seq<Field>, k: Bytes)
    requires k in replace
    ensures k in Seen(text, replace, fs) <==> |Named(text, fs, k)| > 0
  {
    if |fs| > 0 {
      SeenIsNamed(text, replace, fs[..|fs| - 1], k);
    }
  }

  lemma OneMoreSingle(text: Text, ms: seq<Bytes>, l: Bytes, k: Bytes)
    ensures |Named(text, Singles(ms + [l]), k)| == |Named(text, Singles(ms), k)| + if Key(text, [l]) == Some(k) then 1 else 0
  {
    assert Singles(ms + [l]) == Singles(ms) + [[l]];
    NamedAppend(text, Singles(ms), [[l]], k);
    NamedOne(text, [l], k);
  }

  /** What is appended has a name once, if it is missing and has a new value, and not at all otherwise. */
  lemma {:induction false} MissingNamed(text: Text, replace: map<Bytes, Bytes>, seen: set<Bytes>, order: seq<Bytes>, k: Bytes)
    requires KeysLike(text, replace) && k in replace && forall i, j :: 0 <= i < j < |order| ==> order[i] != order[j]
    ensures |Named(text, Singles(Missing(text, replace, seen, order)), k)|
         == if k in order && k !in seen && replace[k] != "" then 1 else 0
  {
    if |order| > 0 {
      var pre, q := order[..|order| - 1], order[|order| - 1];
      var ms := Missing(text, replace, seen, pre);
      MissingNamed(text, replace, seen, pre, k);
      assert order == pre + [q];
      if q in replace && q !in seen && replace[q] != "" {
        var l := HeaderLine(text, q, replace[q]);
        assert KeyLike(text, q);
        HeaderLineParses(text, q, replace[q]);
        OneMoreSingle(text, ms, l, k);
      } else {
        assert Missing(text, replace, seen, order) == ms;
      }
    }
  }

  /**
   * How often a mentioned field occurs in the result: as often as in the message, at least once; and never if its
   * new value is empty. It is added only where it was missing, and in no order of appending more than once.
   */
  lemma {:induction false} OccursExactly(text: Text, replace: map<Bytes, Bytes>, ts: seq<Bytes>, order: seq<Bytes>, k: Bytes)
    requires KeysLike(text, replace) && (|ts| == 0 || !Continuation(ts[0])) && Walks(order, replace) && k in replace
    ensures |Named(text, NewFields(text, replace, ts, order), k)|
         == if replace[k] == "" then 0 else Max(1, |Named(text, Fields(ts), k)|)
  {
    var fs := Fields(ts);
    var seen := Seen(text, replace, fs);
    CoreReparse(text, replace, ts, order);
    NamedAppend(text, Survivors(text, replace, fs), Singles(Missing(text, replace, seen, order)), k);
    SurvivorsNamed(text, replace, fs, k);
    SeenIsNamed(text, replace, fs, k);
    MissingNamed(text, replace, seen, order, k);
  }

  // ---- the edits of a decision ----

  /** An accepted message is only stamped. */
  function Stamped(received: Bytes): seq<Edit> {
    [Edit(RECEIVED, received, true)]
  }

  /** A rewritten one also gets the mailbox as its sender and keeps the original one reachable. */
  function Resent(received: Bytes, address: Bytes, original: Bytes, reply: bool): seq<Edit> {
    Stamped(received) + [Edit(FROM, address, false), Edit(ORIGINAL_FROM, original, false)]
    + if reply then [Edit(REPLY_TO, original, false)] else []
  }

  lemma StampedEdits(text: Text, received: Bytes)
    ensures Replacements(text, Stamped(received)) == map[]
    ensures PrependLines(text, Stamped(received)) == [HeaderLine(text, RECEIVED, received)]
    ensures KeysOneLine(Stamped(received))
  {
    var es := Stamped(received);
    assert es[..0] == [];
  }

  lemma AddEdit(text: Text, es: seq<Edit>, e: Edit)
    requires !e.prepend && text.canon(e.key) == e.key && KeysOneLine(es) && OneLine(e.key)
    ensures Replacements(text, es + [e]) == Replacements(text, es)[e.key := e.value]
    ensures PrependLines(text, es + [e]) == PrependLines(text, es)
    ensures KeysOneLine(es + [e])
  {
    assert (es + [e])[..|es|] == es;
  }

  function Replaced(address: Bytes, original: Bytes, reply: bool): map<Bytes, Bytes> {
    var none: map<Bytes, Bytes> := map[];
    var both := none[FROM := address][ORIGINAL_FROM := original];
    if reply then both[REPLY_TO := original] else both
  }

  lemma NamesDiffer(address: Bytes, original: Bytes, reply: bool)
    ensures var replace := Replaced(address, original, reply);
            && RECEIVED !in replace && FROM in replace && ORIGINAL_FROM in replace
            && replace[FROM] == address && replace[ORIGINAL_FROM] == original
            && (REPLY_TO in replace <==> reply) && (reply ==> replace[REPLY_TO] == original)
    ensures FROM != RECEIVED && ORIGINAL_FROM != RECEIVED && REPLY_TO != RECEIVED
    ensures OneLine(FROM) && OneLine(ORIGINAL_FROM) && OneLine(REPLY_TO)
  {
    assert |FROM| == 4 && |ORIGINAL_FROM| == 15 && |REPLY_TO| == |RECEIVED| == 8;
    assert RECEIVED[2] != REPLY_TO[2];
  }

  lemma {:induction false} ResentEdits(text: Text, received: Bytes, address: Bytes, original: Bytes, reply: bool)
    requires KnowsNames(text)
    ensures var es := Resent(received, address, original, reply);
            && Replacements(text, es) == Replaced(address, original, reply)
            && PrependLines(text, es) == [HeaderLine(text, RECEIVED, received)]
            && KeysOneLine(es)
    ensures KeysLike(text, Replaced(address, original, reply))
  {
    var a, b, c := Edit(FROM, address, false), Edit(ORIGINAL_FROM, original, false), Edit(REPLY_TO, original, false);
    var es := Stamped(received);
    NamesDiffer(address, original, reply);
    StampedEdits(text, received);
    AddEdit(text, es, a);
    AddEdit(text, es + [a], b);
    assert es + [a, b] == es + [a] + [b];
    if reply {
      AddEdit(text, es + [a] + [b], c);
      assert Resent(received, address, original, reply) == es + [a] + [b] + [c];
    } else {
      assert Resent(received, address, original, reply) == es + [a] + [b];
    }
  }

  /** The stamp reads back as one field of its own name. */
  lemma StampField(text: Text, received: Bytes)
    requires KnowsNames(text)
    ensures var l := HeaderLine(text, RECEIVED, received);
            Fields([l]) == [[l]] && Key(text, [l]) == Some(RECEIVED)
  {
    var l := HeaderLine(text, RECEIVED, received);
    HeaderLineParses(text, RECEIVED, received);
    assert l[0] == RECEIVED[0];
    ProperIsOneField([l]);
  }

  /** `ms` are the header lines found in the message the edits make of `raw`. */
  ghost predicate ReadBack(text: Text, edits: seq<Edit>, ls: seq<Bytes>, raw: Bytes, end: nat, order: seq<Bytes>, ms: seq<Bytes>) {
    && end <= |raw| && AreLines(ls, raw[..end]) && Walks(order, Replacements(text, edits))
    && (|Kept(ls)| == 0 || !Continuation(Kept(ls)[0]))
    && var out := Rewritten(text, edits, ls, order, raw[end..]);
       FindHeaderEnd(out).Some? && FindHeaderEnd(out).value <= |out| && AreLines(ms, out[..FindHeaderEnd(out).value])
  }

  /** Every rewritten message with a header line can be read back, and the lines written are what is found. */
  lemma {:induction false} ReadBackExists(text: Text, edits: seq<Edit>, ls: seq<Bytes>, raw: Bytes, end: nat, order: seq<Bytes>)
    requires Sane(text) && KeysOneLine(edits) && Walks(order, Replacements(text, edits))
    requires end <= |raw| && AreLines(ls, raw[..end]) && (|Kept(ls)| == 0 || !Continuation(Kept(ls)[0]))
    requires |NewLines(text, edits, ls, order)| > 0
    ensures ReadBack(text, edits, ls, raw, end, order, WithEnds(NewLines(text, edits, ls, order)) + [CRLF])
  {
    var lines, body := NewLines(text, edits, ls, order), raw[end..];
    var out := Rewritten(text, edits, ls, order, body);
    BodyIsKept(text, edits, ls, raw, end, order);
    assert out[..|out| - |body|] == Render(lines) + CRLF;
    NoExtraLine(text, edits, ls, raw[..end], order);
  }

  /** An accepted message leaves with its trace field first and otherwise the fields it came with. */
  lemma AcceptedKeepsFields(text: Text, received: Bytes, ls: seq<Bytes>, raw: Bytes, end: nat, ms: seq<Bytes>)
    requires Sane(text) && KnowsNames(text) && ReadBack(text, Stamped(received), ls, raw, end, [], ms)
    ensures Fields(Kept(ms)) == [[HeaderLine(text, RECEIVED, received)]] + Fields(Kept(ls))
  {
    StampedEdits(text, received);
    StampField(text, received);
    RewriteByField(text, Stamped(received), ls, raw, end, [], ms);
    NothingEdited(text, Kept(ls));
  }

  lemma {:induction false} NothingEdited(text: Text, ts: seq<Bytes>)
    ensures NewFields(text, map[], ts, []) == Fields(ts)
  {
    var fs := Fields(ts);
    UneditedFields(text, map[], fs);
    FieldsFlatten(ts);
    assert Missing(text, map[], Seen(text, map[], fs), []) == [];
    assert ts + [] == ts;
  }

  /** Every field of a mentioned name is the name and its new value, with the stamp before them or not. */
  lemma NamedField(text: Text, replace: map<Bytes, Bytes>, stamp: Field, fs: seq<Field>, k: Bytes, i: nat)
    requires Key(text, stamp) != Some(k) && AllRight(text, replace, fs)
    requires k in replace && text.canon(k) == k && OneLine(replace[k])
    requires i < |[stamp] + fs| && Key(text, ([stamp] + fs)[i]) == Some(k)
    ensures ([stamp] + fs)[i] == [k + ": " + replace[k]]
  {
    assert i > 0 && Right(text, replace, fs[i - 1]);
  }

  /** Whether the server adds a Reply-To: it reads none in the message, or an empty first one. */
  predicate AddsReplyTo(text: Text, value: Field -> Bytes, ls: seq<Bytes>) {
    Get(text, value, Fields(Kept(ls)), REPLY_TO) == ""
  }

  /**
   * A rewritten message leaves with the mailbox as its only sender: it has a From field, every From field
   * is exactly the mailbox's address, the original sender is kept under X-Original-From, and the fields
   * no edit names are those the message came with. It has a Reply-To. Its own survive if and only if the
   * first one the library reads has a value; otherwise every one becomes the original sender, one that a
   * space hides from the library included.
   */
  lemma RewrittenSender(text: Text, value: Field -> Bytes, received: Bytes, address: Bytes, original: Bytes,
                        ls: seq<Bytes>, raw: Bytes, end: nat, order: seq<Bytes>, ms: seq<Bytes>)
    requires Sane(text) && KnowsNames(text) && OneLine(address) && address != "" && OneLine(original) && original != ""
    requires value([REPLY_TO + ": " + original]) != ""
    requires ReadBack(text, Resent(received, address, original, AddsReplyTo(text, value, ls)), ls, raw, end, order, ms)
    ensures var reply := AddsReplyTo(text, value, ls);
            var replace := Replaced(address, original, reply);
            var fs, came := Fields(Kept(ms)), Fields(Kept(ls));
            && Has(text, fs, FROM) && Has(text, fs, ORIGINAL_FROM) && Has(text, fs, REPLY_TO)
            && Only(text, fs, FROM, address) && Only(text, fs, ORIGINAL_FROM, original)
            && (reply ==> Only(text, fs, REPLY_TO, original))
            && (Named(text, fs, REPLY_TO) == Named(text, came, REPLY_TO) <==> !reply)
            && Others(text, replace, fs) == [[HeaderLine(text, RECEIVED, received)]] + Others(text, replace, came)
  {
    var reply := AddsReplyTo(text, value, ls);
    var edits, replace := Resent(received, address, original, reply), Replaced(address, original, reply);
    var stamp: Field := [HeaderLine(text, RECEIVED, received)];
    ResentEdits(text, received, address, original, reply);
    StampField(text, received);
    RewriteByField(text, edits, ls, raw, end, order, ms);
    NamesDiffer(address, original, reply);
    var fs, came := NewFields(text, replace, Kept(ls), order), Fields(Kept(ls));
    StampedField(text, replace, stamp, fs, FROM);
    StampedField(text, replace, stamp, fs, ORIGINAL_FROM);
    StampedOthers(text, replace, stamp, fs);
    if reply {
      StampedField(text, replace, stamp, fs, REPLY_TO);
      ReplyToReplaced(text, value, original, [stamp] + fs, came);
    } else {
      KeptReplyTo(text, replace, stamp, [stamp] + fs, came);
      ReadReplyTo(text, value, came);
      NamedHas(text, [stamp] + fs, REPLY_TO);
    }
  }

  /** A Reply-To with a value that the library reads is one the rewriter finds. */
  lemma ReadReplyTo(text: Text, value: Field -> Bytes, came: seq<Field>)
    requires ReadAgrees(text, REPLY_TO) && Get(text, value, came, REPLY_TO) != ""
    ensures |Named(text, came, REPLY_TO)| > 0
  {
    var i := FirstRead(text, came, REPLY_TO).value;
    ReadIsNamed(text, came[i], REPLY_TO);
    NamedExactly(text, came, REPLY_TO, came[i]);
  }

  /** If all a message has under the name is the written line, the library reads that line's value. */
  lemma {:induction false} WrittenIsRead(text: Text, value: Field -> Bytes, v: Bytes, came: seq<Field>)
    requires KeyLike(text, REPLY_TO) && ReadAgrees(text, REPLY_TO) && OneLine(v) && |Named(text, came, REPLY_TO)| > 0
    requires forall f :: f in Named(text, came, REPLY_TO) ==> f == [REPLY_TO + ": " + v]
    ensures Get(text, value, came, REPLY_TO) == value([REPLY_TO + ": " + v])
  {
    var line: Field := [REPLY_TO + ": " + v];
    LineIsRead(text, REPLY_TO, v);
    assert Named(text, came, REPLY_TO)[0] in Named(text, came, REPLY_TO);
    NamedExactly(text, came, REPLY_TO, line);
    var j :| 0 <= j < |came| && came[j] == line;
    var i := FirstRead(text, came, REPLY_TO).value;
    ReadIsNamed(text, came[i], REPLY_TO);
    NamedExactly(text, came, REPLY_TO, came[i]);
  }

  lemma {:induction false} ReplyToReplaced(text: Text, value: Field -> Bytes, original: Bytes, fs: seq<Field>, came: seq<Field>)
    requires KeyLike(text, REPLY_TO) && ReadAgrees(text, REPLY_TO) && OneLine(original)
    requires value([REPLY_TO + ": " + original]) != "" && Get(text, value, came, REPLY_TO) == ""
    requires Has(text, fs, REPLY_TO) && Only(text, fs, REPLY_TO, original)
    ensures Named(text, fs, REPLY_TO) != Named(text, came, REPLY_TO)
  {
    var i :| 0 <= i < |fs| && Key(text, fs[i]) == Some(REPLY_TO);
    NamedExactly(text, fs, REPLY_TO, fs[i]);
    forall f | f in Named(text, fs, REPLY_TO)
      ensures f == [REPLY_TO + ": " + original]
    {
      NamedExactly(text, fs, REPLY_TO, f);
    }
    if Named(text, fs, REPLY_TO) == Named(text, came, REPLY_TO) {
      WrittenIsRead(text, value, original, came);
    }
  }

  /** A line whose name has a space before the colon. */
  function Spaced(k: Bytes, v: Bytes): Bytes {
    k + " " + ": " + v
  }

  /** Such a field is the rewriter's, and not one the library reads under that name. */
  lemma SpacedField(text: Text, k: Bytes, v: Bytes)
    requires KeyLike(text, k) && SpaceHides(text, k)
    ensures Key(text, [Spaced(k, v)]) == Some(k) && ReadKey(text, [Spaced(k, v)]) != Some(k) && !Continuation(Spaced(k, v))
  {
    NameEnds(Spaced(k, v), k + " ");
  }

  /** A message whose only Reply-To a space hides: the server adds one of its own, and so overwrites it. */
  lemma SpacedReplyToIsAdded(text: Text, value: Field -> Bytes, v: Bytes, ls: seq<Bytes>)
    requires KnowsNames(text) && SpaceHides(text, REPLY_TO) && Fields(Kept(ls)) == [[Spaced(REPLY_TO, v)]]
    ensures AddsReplyTo(text, value, ls) && Has(text, Fields(Kept(ls)), REPLY_TO)
  {
    SpacedField(text, REPLY_TO, v);
    assert Key(text, Fields(Kept(ls))[0]) == Some(REPLY_TO);
  }

  /** Every field of that name is the name and this value. */
  ghost predicate Only(text: Text, fs: seq<Field>, k: Bytes, v: Bytes) {
    forall i :: 0 <= i < |fs| && Key(text, fs[i]) == Some(k) ==> fs[i] == [k + ": " + v]
  }

  /** A mentioned field is there, with its new value only, a stamp before it or not. */
  lemma {:induction false} StampedField(text: Text, replace: map<Bytes, Bytes>, stamp: Field, fs: seq<Field>, k: Bytes)
    requires Key(text, stamp) != Some(k) && AllRight(text, replace, fs) && k in replace
    requires text.canon(k) == k && OneLine(replace[k]) && Has(text, fs, k)
    ensures Has(text, [stamp] + fs, k) && Only(text, [stamp] + fs, k, replace[k])
  {
    HasAppend(text, [stamp], fs, k);
    forall i | 0 <= i < |[stamp] + fs| && Key(text, ([stamp] + fs)[i]) == Some(k)
      ensures ([stamp] + fs)[i] == [k + ": " + replace[k]]
    {
      NamedField(text, replace, stamp, fs, k, i);
    }
  }

  lemma {:induction false} StampedOthers(text: Text, replace: map<Bytes, Bytes>, stamp: Field, fs: seq<Field>)
    requires Key(text, stamp) == Some(RECEIVED) && RECEIVED !in replace
    ensures Others(text, replace, [stamp] + fs) == [stamp] + Others(text, replace, fs)
  {
    OthersOne(text, replace, stamp);
    OthersAppend(text, replace, [stamp], fs);
  }

  lemma {:induction false} KeptReplyTo(text: Text, replace: map<Bytes, Bytes>, stamp: Field, fs: seq<Field>, came: seq<Field>)
    requires REPLY_TO !in replace && Key(text, stamp) == Some(RECEIVED) && REPLY_TO != RECEIVED
    requires Others(text, replace, fs) == [stamp] + Others(text, replace, came)
    ensures Named(text, fs, REPLY_TO) == Named(text, came, REPLY_TO)
  {
    NamedOthers(text, replace, fs, REPLY_TO);
    NamedOthers(text, replace, came, REPLY_TO);
    NamedAppend(text, [stamp], Others(text, replace, came), REPLY_TO);
    NamedOne(text, stamp, REPLY_TO);
  }
}
