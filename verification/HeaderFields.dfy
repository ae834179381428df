/** Reading a rewritten header back: which fields it has, by name. */
module HeaderFields {
  import opened Common
  import opened HeaderText
  import opened Rewriting
  import opened HeaderLaws

  /** A field name that is its own canonical form, as every name the server edits is. */
  predicate KeyLike(text: Text, k: Bytes) {
    && text.canon(k) == k && text.trim(k) == k
    && |k| > 0 && k[0] != ' ' && k[0] != '\t'
    && forall i :: 0 <= i < |k| ==> k[i] != ':'
  }

  ghost predicate KeysLike(text: Text, replace: map<Bytes, Bytes>) {
    forall k :: k in replace ==> KeyLike(text, k)
  }

  /** A printed header line parses back to its own name. */
  lemma HeaderLineParses(text: Text, k: Bytes, v: Bytes)
    requires KeyLike(text, k)
    ensures Key(text, [HeaderLine(text, k, v)]) == Some(k)
  {
    var l := HeaderLine(text, k, v);
    assert l[0] == k[0];
    assert l[|k|..|k| + 1] == ":";
    assert At(l, ":", |k|);
    forall j | 0 <= j < |k|
      ensures !At(l, ":", j)
    {
      assert l[j..j + 1] == [k[j]];
    }
    assert l[..|k|] == k;
  }

  // ---- fields of concatenated lines ----

  lemma AddLineAppend(fs: seq<Field>, gs: seq<Field>, t: Bytes)
    requires |gs| > 0 || !Continuation(t)
    ensures AddLine(fs + gs, t) == fs + AddLine(gs, t)
  {
    if Continuation(t) {
      assert (fs + gs)[..|fs + gs| - 1] == fs + gs[..|gs| - 1];
    }
  }

  lemma {:induction false} FieldsAppend(xs: seq<Bytes>, ys: seq<Bytes>)
    requires |ys| == 0 || !Continuation(ys[0])
    ensures Fields(xs + ys) == Fields(xs) + Fields(ys)
    ensures |ys| > 0 ==> |Fields(ys)| > 0
  {
    if |ys| == 0 {
      assert xs + ys == xs;
    } else {
      var pre, t := ys[..|ys| - 1], ys[|ys| - 1];
      FieldsAppend(xs, pre);
      assert (xs + ys)[..|xs + ys| - 1] == xs + pre;
      AddLineAppend(Fields(xs), Fields(pre), t);
    }
  }

  /** A field proper: one line and its continuations. */
  predicate Proper(f: Field) {
    !Continuation(f[0]) && forall i :: 1 <= i < |f| ==> Continuation(f[i])
  }

  lemma {:induction false} ProperIsOneField(f: Field)
    requires Proper(f)
    ensures Fields(f) == [f]
  {
    if |f| == 1 {
      assert Fields(f[..0]) == [];
      assert f == [f[0]];
    } else {
      var g: Field := f[..|f| - 1];
      ProperIsOneField(g);
      assert Fields(f) == AddLine([g], f[|f| - 1]);
      assert f == g + [f[|f| - 1]];
    }
  }

  ghost predicate AllProper(fs: seq<Field>) {
    forall i :: 0 <= i < |fs| ==> Proper(fs[i])
  }

  lemma {:induction false} FieldsAreProper(ts: seq<Bytes>)
    requires |ts| == 0 || !Continuation(ts[0])
    ensures AllProper(Fields(ts))
    ensures |ts| > 0 ==> |Fields(ts)| > 0
  {
    if |ts| > 0 {
      FieldsAreProper(ts[..|ts| - 1]);
    }
  }

  /** What is left of each field, as fields. */
  function Survivors(text: Text, replace: map<Bytes, Bytes>, fs: seq<Field>): seq<Field> {
    if |fs| == 0 then []
    else
      var g := EditField(text, replace, fs[|fs| - 1]);
      Survivors(text, replace, fs[..|fs| - 1]) + if |g| == 0 then [] else [g]
  }

  lemma EditedIsProper(text: Text, replace: map<Bytes, Bytes>, f: Field)
    requires KeysLike(text, replace) && Proper(f)
    ensures var g := EditField(text, replace, f); |g| > 0 ==> Proper(g)
  {
    if Edited(text, replace, f) {
      var k := Key(text, f).value;
      assert KeyLike(text, k);
      assert HeaderLine(text, k, replace[k])[0] == k[0];
    }
  }

  lemma {:induction false} EditedReparse(text: Text, replace: map<Bytes, Bytes>, fs: seq<Field>)
    requires KeysLike(text, replace) && AllProper(fs)
    ensures Fields(EditFields(text, replace, fs)) == Survivors(text, replace, fs)
  {
    if |fs| > 0 {
      var pre, g := fs[..|fs| - 1], EditField(text, replace, fs[|fs| - 1]);
      EditedReparse(text, replace, pre);
      EditedIsProper(text, replace, fs[|fs| - 1]);
      FieldsAppend(EditFields(text, replace, pre), g);
      if |g| > 0 {
        ProperIsOneField(g);
      }
    }
  }

  // ---- by name ----

  /** The fields no edit mentions. */
  function Others(text: Text, replace: map<Bytes, Bytes>, fs: seq<Field>): seq<Field> {
    if |fs| == 0 then []
    else
      var f := fs[|fs| - 1];
      Others(text, replace, fs[..|fs| - 1]) + if Edited(text, replace, f) then [] else [f]
  }

  lemma {:induction false} OthersAppend(text: Text, replace: map<Bytes, Bytes>, xs: seq<Field>, ys: seq<Field>)
    ensures Others(text, replace, xs + ys) == Others(text, replace, xs) + Others(text, replace, ys)
  {
    if |ys| == 0 {
      assert xs + ys == xs;
    } else {
      OthersAppend(text, replace, xs, ys[..|ys| - 1]);
      assert (xs + ys)[..|xs + ys| - 1] == xs + ys[..|ys| - 1];
    }
  }

  /** A mentioned field of the result is exactly its new value. */
  predicate Right(text: Text, replace: map<Bytes, Bytes>, f: Field) {
    Edited(text, replace, f) ==>
      var k := Key(text, f).value;
      replace[k] != "" && f == [HeaderLine(text, k, replace[k])]
  }

  ghost predicate AllRight(text: Text, replace: map<Bytes, Bytes>, fs: seq<Field>) {
    forall i :: 0 <= i < |fs| ==> Right(text, replace, fs[i])
  }

  ghost predicate Has(text: Text, fs: seq<Field>, k: Bytes) {
    exists i :: 0 <= i < |fs| && Key(text, fs[i]) == Some(k)
  }

  lemma EditFieldByName(text: Text, replace: map<Bytes, Bytes>, f: Field)
    requires KeysLike(text, replace)
    ensures var g := EditField(text, replace, f);
            && (Edited(text, replace, f) && |g| > 0 ==>
                  Key(text, g) == Key(text, f) && Edited(text, replace, g) && Right(text, replace, g))
            && (!Edited(text, replace, f) ==> g == f && Right(text, replace, g))
            && (Edited(text, replace, f) ==> (|g| == 0 <==> replace[Key(text, f).value] == ""))
  {
    if Edited(text, replace, f) {
      var k := Key(text, f).value;
      assert KeyLike(text, k);
      HeaderLineParses(text, k, replace[k]);
    }
  }

  lemma OthersOne(text: Text, replace: map<Bytes, Bytes>, f: Field)
    ensures Others(text, replace, [f]) == if Edited(text, replace, f) then [] else [f]
  {
    assert [f][..0] == [];
  }

  lemma {:induction false} SurvivorsOthers(text: Text, replace: map<Bytes, Bytes>, fs: seq<Field>)
    requires KeysLike(text, replace)
    ensures Others(text, replace, Survivors(text, replace, fs)) == Others(text, replace, fs)
  {
    if |fs| > 0 {
      var pre, f := fs[..|fs| - 1], fs[|fs| - 1];
      var g, ss := EditField(text, replace, f), Survivors(text, replace, pre);
      SurvivorsOthers(text, replace, pre);
      EditFieldByName(text, replace, f);
      if |g| > 0 {
        assert Survivors(text, replace, fs) == ss + [g];
        OthersAppend(text, replace, ss, [g]);
        OthersOne(text, replace, g);
      } else {
        assert Survivors(text, replace, fs) == ss;
      }
    }
  }

  lemma {:induction false} SurvivorsRight(text: Text, replace: map<Bytes, Bytes>, fs: seq<Field>)
    requires KeysLike(text, replace)
    ensures AllRight(text, replace, Survivors(text, replace, fs))
  {
    if |fs| > 0 {
      SurvivorsRight(text, replace, fs[..|fs| - 1]);
      EditFieldByName(text, replace, fs[|fs| - 1]);
    }
  }

  lemma {:induction false} SeenSurvives(text: Text, replace: map<Bytes, Bytes>, fs: seq<Field>, k: Bytes)
    requires KeysLike(text, replace) && k in Seen(text, replace, fs) && k in replace && replace[k] != ""
    ensures Has(text, Survivors(text, replace, fs), k)
  {
    var pre, f := fs[..|fs| - 1], fs[|fs| - 1];
    var ss, ts := Survivors(text, replace, pre), Survivors(text, replace, fs);
    EditFieldByName(text, replace, f);
    if Edited(text, replace, f) && Key(text, f).value == k {
      assert Key(text, ts[|ts| - 1]) == Some(k);
    } else {
      SeenSurvives(text, replace, pre, k);
      var i :| 0 <= i < |ss| && Key(text, ss[i]) == Some(k);
      assert ts[i] == ss[i];
    }
  }

  function Singles(ls: seq<Bytes>): (fs: seq<Field>)
    ensures |fs| == |ls| && forall i :: 0 <= i < |ls| ==> fs[i] == [ls[i]]
  {
    seq(|ls|, i requires 0 <= i < |ls| => [ls[i]])
  }

  lemma {:induction false} SinglesReparse(ls: seq<Bytes>)
    requires forall i :: 0 <= i < |ls| ==> !Continuation(ls[i])
    ensures Fields(ls) == Singles(ls)
  {
    if |ls| > 0 {
      SinglesReparse(ls[..|ls| - 1]);
    }
  }

  /** A line that reads back as a mentioned field with its new value. */
  predicate Printed(text: Text, replace: map<Bytes, Bytes>, l: Bytes) {
    !Continuation(l) && Edited(text, replace, [l]) && Right(text, replace, [l])
  }

  lemma PrintedLine(text: Text, replace: map<Bytes, Bytes>, k: Bytes)
    requires KeysLike(text, replace) && k in replace && replace[k] != ""
    ensures Printed(text, replace, HeaderLine(text, k, replace[k]))
  {
    assert KeyLike(text, k);
    HeaderLineParses(text, k, replace[k]);
    assert HeaderLine(text, k, replace[k])[0] == k[0];
  }

  lemma {:induction false} MissingPrinted(text: Text, replace: map<Bytes, Bytes>, seen: set<Bytes>, order: seq<Bytes>, l: Bytes)
    requires KeysLike(text, replace) && l in Missing(text, replace, seen, order)
    ensures Printed(text, replace, l)
  {
    var pre, k := order[..|order| - 1], order[|order| - 1];
    if l in Missing(text, replace, seen, pre) {
      MissingPrinted(text, replace, seen, pre, l);
    } else {
      PrintedLine(text, replace, k);
    }
  }

  lemma {:induction false} MissingComplete(text: Text, replace: map<Bytes, Bytes>, seen: set<Bytes>, order: seq<Bytes>, k: Bytes)
    requires k in order && k in replace && k !in seen && replace[k] != ""
    ensures HeaderLine(text, k, replace[k]) in Missing(text, replace, seen, order)
  {
    var pre := order[..|order| - 1];
    assert order == pre + [order[|order| - 1]];
    if order[|order| - 1] != k {
      MissingComplete(text, replace, seen, pre, k);
    }
  }

  lemma MissingByName(text: Text, replace: map<Bytes, Bytes>, seen: set<Bytes>, order: seq<Bytes>)
    requires KeysLike(text, replace)
    ensures forall i :: 0 <= i < |Missing(text, replace, seen, order)| ==>
              Printed(text, replace, Missing(text, replace, seen, order)[i])
  {
    var ms := Missing(text, replace, seen, order);
    forall i | 0 <= i < |ms|
      ensures Printed(text, replace, ms[i])
    {
      MissingPrinted(text, replace, seen, order, ms[i]);
    }
  }

  lemma {:induction false} NoOthers(text: Text, replace: map<Bytes, Bytes>, fs: seq<Field>)
    requires forall i :: 0 <= i < |fs| ==> Edited(text, replace, fs[i])
    ensures Others(text, replace, fs) == []
  {
    if |fs| > 0 {
      NoOthers(text, replace, fs[..|fs| - 1]);
    }
  }

  /** The edited and appended part of the new header, read back as fields. */
  lemma CoreReparse(text: Text, replace: map<Bytes, Bytes>, ts: seq<Bytes>, order: seq<Bytes>)
    requires KeysLike(text, replace) && (|ts| == 0 || !Continuation(ts[0]))
    ensures var ms := Missing(text, replace, Seen(text, replace, Fields(ts)), order);
            Fields(EditFields(text, replace, Fields(ts)) + ms) == Survivors(text, replace, Fields(ts)) + Singles(ms)
  {
    var fs := Fields(ts);
    var seen := Seen(text, replace, fs);
    FieldsAreProper(ts);
    EditedReparse(text, replace, fs);
    MissingByName(text, replace, seen, order);
    assert forall i :: 0 <= i < |Missing(text, replace, seen, order)| ==>
        !Continuation(Missing(text, replace, seen, order)[i]);
    SinglesReparse(Missing(text, replace, seen, order));
    FieldsAppend(EditFields(text, replace, fs), Missing(text, replace, seen, order));
  }

  /** The new header without its prepended fields, read back as fields. */
  function NewFields(text: Text, replace: map<Bytes, Bytes>, ts: seq<Bytes>, order: seq<Bytes>): seq<Field> {
    var fs := Fields(ts);
    Fields(EditFields(text, replace, fs) + Missing(text, replace, Seen(text, replace, fs), order))
  }

  /** The fields no edit mentions are the original ones, in order and with their continuations. */
  lemma UnmentionedKept(text: Text, replace: map<Bytes, Bytes>, ts: seq<Bytes>, order: seq<Bytes>)
    requires KeysLike(text, replace) && (|ts| == 0 || !Continuation(ts[0]))
    ensures Others(text, replace, NewFields(text, replace, ts, order)) == Others(text, replace, Fields(ts))
  {
    var fs := Fields(ts);
    var ms := Missing(text, replace, Seen(text, replace, fs), order);
    CoreReparse(text, replace, ts, order);
    SurvivorsOthers(text, replace, fs);
    MissingByName(text, replace, Seen(text, replace, fs), order);
    NoOthers(text, replace, Singles(ms));
    OthersAppend(text, replace, Survivors(text, replace, fs), Singles(ms));
  }

  /** Every mentioned field of the result is exactly its new value. */
  lemma MentionedReplaced(text: Text, replace: map<Bytes, Bytes>, ts: seq<Bytes>, order: seq<Bytes>)
    requires KeysLike(text, replace) && (|ts| == 0 || !Continuation(ts[0]))
    ensures AllRight(text, replace, NewFields(text, replace, ts, order))
  {
    var fs := Fields(ts);
    var ms := Missing(text, replace, Seen(text, replace, fs), order);
    CoreReparse(text, replace, ts, order);
    SurvivorsRight(text, replace, fs);
    MissingByName(text, replace, Seen(text, replace, fs), order);
    AllRightAppend(text, replace, Survivors(text, replace, fs), ms);
  }

  lemma AllRightAppend(text: Text, replace: map<Bytes, Bytes>, fs: seq<Field>, ms: seq<Bytes>)
    requires AllRight(text, replace, fs) && forall i :: 0 <= i < |ms| ==> Printed(text, replace, ms[i])
    ensures AllRight(text, replace, fs + Singles(ms))
  {
  }

  /** A mentioned field is in the result exactly when its new value is not empty, in any order of appending. */
  lemma MentionedPresentExactly(text: Text, replace: map<Bytes, Bytes>, ts: seq<Bytes>, order: seq<Bytes>, k: Bytes)
    requires KeysLike(text, replace) && (|ts| == 0 || !Continuation(ts[0])) && Walks(order, replace) && k in replace
    ensures Has(text, NewFields(text, replace, ts, order), k) <==> replace[k] != ""
  {
    MentionedReplaced(text, replace, ts, order);
    if replace[k] != "" {
      var fs := Fields(ts);
      var seen := Seen(text, replace, fs);
      var ss, ms := Survivors(text, replace, fs), Missing(text, replace, seen, order);
      CoreReparse(text, replace, ts, order);
      if k in seen {
        SeenSurvives(text, replace, fs, k);
        HasAppend(text, ss, Singles(ms), k);
      } else {
        MissingComplete(text, replace, seen, order, k);
        SinglesHave(text, replace, ms, k);
        HasAppend(text, ss, Singles(ms), k);
      }
    }
  }

  lemma HasAppend(text: Text, xs: seq<Field>, ys: seq<Field>, k: Bytes)
    requires Has(text, xs, k) || Has(text, ys, k)
    ensures Has(text, xs + ys, k)
  {
    if Has(text, xs, k) {
      var i :| 0 <= i < |xs| && Key(text, xs[i]) == Some(k);
      assert (xs + ys)[i] == xs[i];
    } else {
      var i :| 0 <= i < |ys| && Key(text, ys[i]) == Some(k);
      assert (xs + ys)[|xs| + i] == ys[i];
    }
  }

  lemma SinglesHave(text: Text, replace: map<Bytes, Bytes>, ms: seq<Bytes>, k: Bytes)
    requires KeysLike(text, replace) && k in replace && HeaderLine(text, k, replace[k]) in ms
    ensures Has(text, Singles(ms), k)
  {
    assert KeyLike(text, k);
    HeaderLineParses(text, k, replace[k]);
    var i :| 0 <= i < |ms| && ms[i] == HeaderLine(text, k, replace[k]);
    assert Key(text, Singles(ms)[i]) == Some(k);
  }

  lemma {:induction false} EditedStart(text: Text, replace: map<Bytes, Bytes>, fs: seq<Field>)
    requires KeysLike(text, replace) && AllProper(fs)
    ensures var ls := EditFields(text, replace, fs); |ls| == 0 || !Continuation(ls[0])
  {
    if |fs| > 0 {
      EditedStart(text, replace, fs[..|fs| - 1]);
      EditedIsProper(text, replace, fs[|fs| - 1]);
    }
  }

  /** The edited and appended lines start with a field of their own. */
  lemma CoreStart(text: Text, replace: map<Bytes, Bytes>, ts: seq<Bytes>, seen: set<Bytes>, order: seq<Bytes>)
    requires KeysLike(text, replace) && (|ts| == 0 || !Continuation(ts[0]))
    ensures var core := EditFields(text, replace, Fields(ts)) + Missing(text, replace, seen, order);
            |core| == 0 || !Continuation(core[0])
  {
    FieldsAreProper(ts);
    EditedStart(text, replace, Fields(ts));
    var es, ms := EditFields(text, replace, Fields(ts)), Missing(text, replace, seen, order);
    if |es| == 0 && |ms| > 0 {
      MissingPrinted(text, replace, seen, order, ms[0]);
      assert (es + ms)[0] == ms[0];
    }
  }

  lemma Regroup(xs: seq<Bytes>, ys: seq<Bytes>, zs: seq<Bytes>)
    requires |ys + zs| == 0 || !Continuation((ys + zs)[0])
    ensures Fields(xs + ys + zs) == Fields(xs) + Fields(ys + zs)
  {
    assert xs + ys + zs == xs + (ys + zs);
    FieldsAppend(xs, ys + zs);
  }

  /** The whole new header, read back: the prepended fields come first, then the others. */
  lemma PrependsComeFirst(text: Text, edits: seq<Edit>, ls: seq<Bytes>, order: seq<Bytes>)
    requires KeysLike(text, Replacements(text, edits)) && (|Kept(ls)| == 0 || !Continuation(Kept(ls)[0]))
    ensures Fields(NewLines(text, edits, ls, order))
            == Fields(PrependLines(text, edits)) + NewFields(text, Replacements(text, edits), Kept(ls), order)
  {
    var replace, fs := Replacements(text, edits), Fields(Kept(ls));
    var seen := Seen(text, replace, fs);
    CoreStart(text, replace, Kept(ls), seen, order);
    Regroup(PrependLines(text, edits), EditFields(text, replace, fs), Missing(text, replace, seen, order));
  }

  /**
   * The whole rewrite, from message to message: splitting and grouping the new header again gives the
   * prepended fields, then the edited ones. Whatever order the replacements are walked in, the fields no
   * edit mentions are the original ones in their order, every mentioned field is its new value, and it is
   * there exactly when that value is not empty.
   */
  lemma {:induction false} RewriteByField(text: Text, edits: seq<Edit>, ls: seq<Bytes>, raw: Bytes, end: nat, order: seq<Bytes>, ms: seq<Bytes>)
    requires Sane(text) && KeysOneLine(edits) && KeysLike(text, Replacements(text, edits)) && Walks(order, Replacements(text, edits))
    requires end <= |raw| && AreLines(ls, raw[..end]) && (|Kept(ls)| == 0 || !Continuation(Kept(ls)[0]))
    requires |NewLines(text, edits, ls, order)| > 0
    requires var out := Rewritten(text, edits, ls, order, raw[end..]);
             FindHeaderEnd(out).Some? && FindHeaderEnd(out).value <= |out| && AreLines(ms, out[..FindHeaderEnd(out).value])
    ensures var replace := Replacements(text, edits);
            var fs := NewFields(text, replace, Kept(ls), order);
            && Fields(Kept(ms)) == Fields(PrependLines(text, edits)) + fs
            && Others(text, replace, fs) == Others(text, replace, Fields(Kept(ls)))
            && AllRight(text, replace, fs)
            && (forall k :: k in replace ==> (Has(text, fs, k) <==> replace[k] != ""))
  {
    var replace := Replacements(text, edits);
    RewrittenReadsBack(text, edits, ls, raw, end, order, ms);
    PrependsComeFirst(text, edits, ls, order);
    UnmentionedKept(text, replace, Kept(ls), order);
    MentionedReplaced(text, replace, Kept(ls), order);
    forall k | k in replace
      ensures Has(text, NewFields(text, replace, Kept(ls), order), k) <==> replace[k] != ""
    {
      MentionedPresentExactly(text, replace, Kept(ls), order, k);
    }
  }

  // ---- a header edited away ----

  lemma CleanIsTrimmed(l: Bytes)
    requires Clean(l)
    ensures TrimEol(l) == l
  {
  }

  lemma {:induction false} OneDeletion(text: Text, k: Bytes)
    requires text.canon(k) == k
    ensures var edits := [Edit(k, "", false)];
            Replacements(text, edits) == map[k := ""] && PrependLines(text, edits) == [] && Walks([k], Replacements(text, edits))
  {
    var edits, none := [Edit(k, "", false)], map[];
    assert edits[..0] == [] && Replacements(text, []) == none;
    assert none[k := ""] == map[k := ""];
  }

  lemma {:induction false} OneLineBlock(l: Bytes)
    requires Clean(l)
    ensures AreLines([l + CRLF, CRLF], l + CRLF + CRLF) && Kept([l + CRLF, CRLF]) == [l]
  {
    CleanIsTrimmed(l);
    WireLines([l]);
    KeptWire([l]);
    RenderSnoc([], l);
    assert [] + [l] == [l];
    assert WithEnds([l]) + [CRLF] == [l + CRLF, CRLF];
  }

  /** Deleting the only field of a message leaves no header line. */
  lemma {:induction false} OnlyFieldDeleted(text: Text, k: Bytes, v: Bytes)
    requires Sane(text) && KeyLike(text, k) && OneLine(k)
    ensures var l := HeaderLine(text, k, v);
            && AreLines([l + CRLF, CRLF], l + CRLF + CRLF)
            && Walks([k], Replacements(text, [Edit(k, "", false)]))
            && NewLines(text, [Edit(k, "", false)], [l + CRLF, CRLF], [k]) == []
  {
    var l := HeaderLine(text, k, v);
    HeaderLineClean(text, k, v);
    HeaderLineParses(text, k, v);
    OneLineBlock(l);
    OneDeletion(text, k);
    assert l[0] == k[0];
    ProperIsOneField([l]);
    OneFieldGone(text, map[k := ""], l, k);
  }

  lemma OneFieldGone(text: Text, replace: map<Bytes, Bytes>, l: Bytes, k: Bytes)
    requires replace == map[k := ""] && Key(text, [l]) == Some(k)
    ensures EditFields(text, replace, [[l]]) == []
    ensures Missing(text, replace, Seen(text, replace, [[l]]), [k]) == []
  {
    var fs: seq<Field> := [[l]];
    assert fs[..0] == [] && [k][..0] == [];
    assert Seen(text, replace, fs) == {k};
  }

  /** A message with one field, which is deleted, and any body: the boundary found afterwards is another. */
  lemma EmptiedHeaderMovesBoundary(text: Text, k: Bytes, v: Bytes, body: Bytes)
    requires Sane(text) && KeyLike(text, k) && OneLine(k)
    ensures var l := HeaderLine(text, k, v);
            var out := Rewritten(text, [Edit(k, "", false)], [l + CRLF, CRLF], [k], body);
            out == CRLF + body && FindHeaderEnd(out) != Some(2)
  {
    var l, edits := HeaderLine(text, k, v), [Edit(k, "", false)];
    var raw := l + CRLF + CRLF + body;
    var end := |l| + 4;
    OnlyFieldDeleted(text, k, v);
    assert raw[..end] == l + CRLF + CRLF && raw[end..] == body;
    BodyIsKept(text, edits, [l + CRLF, CRLF], raw, end, [k]);
  }
}
