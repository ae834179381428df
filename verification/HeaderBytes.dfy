/**
 * Header rewriting on bytes: where the header ends, which line belongs to which field, what a field is called,
 * what is written for it, and what becomes of a field that is folded over several lines.
 */
module HeaderBytes {
  import opened Common
  import opened HeaderText
  import opened Rewriting
  import opened HeaderLaws
  import opened HeaderFields

  // ---- the end of the header ----

  predicate LfBreakAt(s: Bytes, p: int) {
    0 <= p && p + 2 <= |s| && s[p] == '\n' && s[p + 1] == '\n'
  }

  lemma LfBreakIsSeparator(s: Bytes, p: int)
    ensures At(s, "\n\n", p) <==> LfBreakAt(s, p)
  {
    if 0 <= p && p + 2 <= |s| {
      assert s[p..p + 2] == [s[p], s[p + 1]];
    }
  }

  ghost predicate FirstBreakAt(s: Bytes, p: int) {
    BreakAt(s, p) && forall j :: 0 <= j < p ==> !BreakAt(s, j)
  }

  ghost predicate FirstLfBreakAt(s: Bytes, p: int) {
    LfBreakAt(s, p) && forall j :: 0 <= j < p ==> !LfBreakAt(s, j)
  }

  lemma CrlfFound(raw: Bytes)
    ensures var r := IndexFrom(raw, SEPARATOR, 0);
            if r.Some? then FirstBreakAt(raw, r.value) else forall j :: 0 <= j < |raw| ==> !BreakAt(raw, j)
  {
    forall j: int
      ensures At(raw, SEPARATOR, j) <==> BreakAt(raw, j)
    {
      BreakIsSeparator(raw, j);
    }
  }

  lemma LfFound(raw: Bytes)
    ensures var r := IndexFrom(raw, "\n\n", 0);
            if r.Some? then FirstLfBreakAt(raw, r.value) else forall j :: 0 <= j < |raw| ==> !LfBreakAt(raw, j)
  {
    forall j: int
      ensures At(raw, "\n\n", j) <==> LfBreakAt(raw, j)
    {
      LfBreakIsSeparator(raw, j);
    }
  }

  /** There is one first break of each kind. */
  lemma FirstIsOne(raw: Bytes, p: int, q: int)
    ensures FirstBreakAt(raw, p) && FirstBreakAt(raw, q) ==> p == q
    ensures FirstLfBreakAt(raw, p) && FirstLfBreakAt(raw, q) ==> p == q
  {
  }

  /** The header ends after the first CRLF CRLF; only without any, after the first LF LF; and without that nowhere. */
  lemma HeaderEndExactly(raw: Bytes, end: nat)
    ensures FindHeaderEnd(raw) == Some(end) <==>
              || FirstBreakAt(raw, end - 4)
              || (FirstLfBreakAt(raw, end - 2) && forall j :: 0 <= j < |raw| ==> !BreakAt(raw, j))
  {
    var crlf, lf := IndexFrom(raw, SEPARATOR, 0), IndexFrom(raw, "\n\n", 0);
    CrlfFound(raw);
    LfFound(raw);
    if crlf.Some? {
      assert BreakAt(raw, crlf.value);
      FirstIsOne(raw, crlf.value, end - 4);
    } else if lf.Some? {
      FirstIsOne(raw, lf.value, end - 2);
    }
  }

  // ---- lines and fields ----

  /** A line after a field joins it exactly if it starts with a space or a tab, and starts another one otherwise. */
  lemma FoldJoins(fs: seq<Field>, t: Bytes)
    requires |fs| > 0 && |t| > 0
    ensures if t[0] == ' ' || t[0] == '\t' then AddLine(fs, t) == fs[..|fs| - 1] + [fs[|fs| - 1] + [t]]
            else AddLine(fs, t) == fs + [[t]]
  {
  }

  /** The line has a name: it does not start with white space, and its first colon is at `colon`, not at the start. */
  ghost predicate NamedAt(l: Bytes, colon: int) {
    && 0 < colon < |l| && l[0] != ' ' && l[0] != '\t'
    && l[colon] == ':' && forall i :: 0 <= i < colon ==> l[i] != ':'
  }

  /** A field is called what is before the first colon of its first line, trimmed; without that it has no name. */
  lemma KeyExactly(text: Text, f: Field, k: Bytes)
    ensures Key(text, f) == Some(k) <==> exists colon :: NamedAt(f[0], colon) && text.canon(text.trim(f[0][..colon])) == k
  {
    var l := f[0];
    forall j | 0 <= j < |l|
      ensures At(l, ":", j) <==> l[j] == ':'
    {
      assert l[j..j + 1] == [l[j]];
    }
    var colon := IndexFrom(l, ":", 0);
    if colon.Some? && colon.value > 0 && !Continuation(l) {
      assert NamedAt(l, colon.value);
      assert forall j :: NamedAt(l, j) ==> !(j < colon.value) && !(colon.value < j);
    }
  }

  // ---- what is written ----

  lemma FirstByte(a: Bytes, b: Bytes)
    requires |a| > 0
    ensures a + b == [a[0]] + (a[1..] + b)
  {
  }

  lemma {:induction false} CollapsePrefix(a: Bytes, s: Bytes)
    requires OneLine(a)
    ensures Collapse(a + s) == a + Collapse(s)
    decreases |a|
  {
    if |a| == 0 {
      assert a + s == s;
    } else {
      CollapsePrefix(a[1..], s);
      assert (a + s)[1..] == a[1..] + s;
      FirstByte(a, Collapse(s));
    }
  }

  /** A value without line breaks is collapsed to itself, and a break of any of the three kinds to one space. */
  lemma {:induction false} CollapseBreaks(a: Bytes, b: Bytes)
    requires OneLine(a)
    ensures Collapse(a) == a
    ensures Collapse(a + ("\r\n" + b)) == a + (" " + Collapse(b))
    ensures Collapse(a + ("\n" + b)) == a + (" " + Collapse(b))
    ensures |b| == 0 || b[0] != '\n' ==> Collapse(a + ("\r" + b)) == a + (" " + Collapse(b))
  {
    CollapsePrefix(a, "");
    assert a + "" == a;
    CollapsePrefix(a, "\r\n" + b);
    CollapsePrefix(a, "\n" + b);
    CollapsePrefix(a, "\r" + b);
    assert ("\r\n" + b)[2..] == b && ("\n" + b)[1..] == b && ("\r" + b)[1..] == b;
  }

  /** A value is written as it is, or with its breaks as spaces and trimmed, behind its name, a colon and a space. */
  lemma WrittenLine(text: Text, key: Bytes, a: Bytes, b: Bytes)
    requires OneLine(a) && OneLine(b)
    ensures HeaderLine(text, key, a) == text.canon(key) + ": " + a
    ensures HeaderLine(text, key, a + (CRLF + b)) == text.canon(key) + ": " + text.trim(a + (" " + b))
  {
    CollapseBreaks(a, b);
    CollapseBreaks(b, "");
    assert (a + (CRLF + b))[|a|] == '\r';
  }

  /** The last edit in place of a name. */
  ghost predicate LastEdit(text: Text, edits: seq<Edit>, k: Bytes, i: nat) {
    && i < |edits| && !edits[i].prepend && text.canon(edits[i].key) == k
    && forall j :: i < j < |edits| ==> edits[j].prepend || text.canon(edits[j].key) != k
  }

  /** A name is edited exactly if some edit in place is of it, and the last such edit decides. */
  lemma {:induction false} LastEditWins(text: Text, edits: seq<Edit>, k: Bytes)
    ensures k in Replacements(text, edits) <==> exists i: nat :: LastEdit(text, edits, k, i)
    ensures forall i: nat :: LastEdit(text, edits, k, i) ==> k in Replacements(text, edits) && Replacements(text, edits)[k] == edits[i].value
  {
    if |edits| > 0 {
      var pre, e := edits[..|edits| - 1], edits[|edits| - 1];
      LastEditWins(text, pre, k);
      forall i: nat
        ensures LastEdit(text, edits, k, i) <==> if i == |pre| then !e.prepend && text.canon(e.key) == k
                                                 else LastEdit(text, pre, k, i) && (e.prepend || text.canon(e.key) != k)
      {
      }
      if k in Replacements(text, edits) {
        if !e.prepend && text.canon(e.key) == k {
          assert LastEdit(text, edits, k, |pre|);
        } else {
          var i: nat :| LastEdit(text, pre, k, i);
          assert LastEdit(text, edits, k, i);
        }
      }
    }
  }

  /** Prepended fields are written in the order of their edits. */
  lemma {:induction false} PrependsInOrder(text: Text, xs: seq<Edit>, e: Edit, ys: seq<Edit>)
    ensures PrependLines(text, xs + [e] + ys)
         == PrependLines(text, xs) + (if e.prepend then [HeaderLine(text, e.key, e.value)] else []) + PrependLines(text, ys)
    decreases |ys|
  {
    var all := xs + [e] + ys;
    if |ys| == 0 {
      assert all == xs + [e] && all[..|all| - 1] == xs;
    } else {
      PrependsInOrder(text, xs, e, ys[..|ys| - 1]);
      assert all[..|all| - 1] == xs + [e] + ys[..|ys| - 1];
    }
  }

  // ---- a folded field ----

  lemma Regrouped(a: seq<Bytes>, b: seq<Bytes>, c: seq<Bytes>)
    ensures a + (b + c) == a + b + c
  {
  }

  lemma {:induction false} EditFieldsAppend(text: Text, replace: map<Bytes, Bytes>, xs: seq<Field>, ys: seq<Field>)
    ensures EditFields(text, replace, xs + ys) == EditFields(text, replace, xs) + EditFields(text, replace, ys)
  {
    if |ys| == 0 {
      assert xs + ys == xs;
    } else {
      var front, f := ys[..|ys| - 1], ys[|ys| - 1];
      EditFieldsAppend(text, replace, xs, front);
      assert (xs + ys)[..|xs + ys| - 1] == xs + front && (xs + ys)[|xs + ys| - 1] == f;
      Regrouped(EditFields(text, replace, xs), EditFields(text, replace, front), EditField(text, replace, f));
    }
  }

  /** `line` starts a field, `folds` are folded after it, and `after` starts another field or is nothing. */
  ghost predicate FoldedOver(line: Bytes, folds: seq<Bytes>, after: seq<Bytes>) {
    && |line| > 0 && line[0] != ' ' && line[0] != '\t'
    && (forall i :: 0 <= i < |folds| ==> |folds[i]| > 0 && (folds[i][0] == ' ' || folds[i][0] == '\t'))
    && (|after| > 0 ==> |after[0]| > 0 && after[0][0] != ' ' && after[0][0] != '\t')
  }

  lemma {:induction false} FoldedIsOneField(before: seq<Bytes>, line: Bytes, folds: seq<Bytes>, after: seq<Bytes>)
    requires FoldedOver(line, folds, after)
    ensures Fields(before + ([line] + folds + after)) == Fields(before) + ([[line] + folds] + Fields(after))
  {
    var one: Field := [line] + folds;
    ProperIsOneField(one);
    FieldsAppend(one, after);
    FieldsAppend(before, one + after);
  }

  lemma {:induction false} EditFieldsOne(text: Text, replace: map<Bytes, Bytes>, f: Field)
    ensures EditFields(text, replace, [f]) == EditField(text, replace, f)
  {
    assert [f][..0] == [];
  }

  /** What stands for the field afterwards: all its lines, or one with the new value, or nothing. */
  function Instead(text: Text, replace: map<Bytes, Bytes>, k: Bytes, line: Bytes, folds: seq<Bytes>): seq<Bytes> {
    if k !in replace then [line] + folds
    else if replace[k] == "" then []
    else [text.canon(k) + ": " + Sanitize(text, replace[k])]
  }

  lemma NamedFieldEdited(text: Text, replace: map<Bytes, Bytes>, line: Bytes, colon: int, folds: seq<Bytes>)
    requires NamedAt(line, colon)
    ensures EditField(text, replace, [line] + folds) == Instead(text, replace, text.canon(text.trim(line[..colon])), line, folds)
  {
    KeyExactly(text, [line] + folds, text.canon(text.trim(line[..colon])));
  }

  /**
   * A field of any name, folded with spaces or tabs over any number of lines, in any header: if an edit names it,
   * none of its lines is left, and its new value or nothing stands in its place; otherwise all of them stay. What
   * comes before and after is edited by itself.
   */
  lemma {:induction false} FoldedFieldEdited(text: Text, replace: map<Bytes, Bytes>, before: seq<Bytes>, line: Bytes, colon: int,
                                             folds: seq<Bytes>, after: seq<Bytes>)
    requires FoldedOver(line, folds, after) && NamedAt(line, colon)
    ensures EditFields(text, replace, Fields(before + ([line] + folds + after)))
         == EditFields(text, replace, Fields(before))
            + Instead(text, replace, text.canon(text.trim(line[..colon])), line, folds)
            + EditFields(text, replace, Fields(after))
  {
    var one: Field := [line] + folds;
    FoldedIsOneField(before, line, folds, after);
    EditFieldsAppend(text, replace, Fields(before), [one] + Fields(after));
    EditFieldsAppend(text, replace, [one], Fields(after));
    EditFieldsOne(text, replace, one);
    NamedFieldEdited(text, replace, line, colon, folds);
    Regrouped(EditFields(text, replace, Fields(before)), EditField(text, replace, one), EditFields(text, replace, Fields(after)));
  }

  /** The same for the whole message, byte for byte. */
  lemma {:induction false} FoldedFieldRewritten(text: Text, edits: seq<Edit>, ls: seq<Bytes>, order: seq<Bytes>, body: Bytes,
                                                before: seq<Bytes>, line: Bytes, colon: int, folds: seq<Bytes>, after: seq<Bytes>)
    requires FoldedOver(line, folds, after) && NamedAt(line, colon) && Kept(ls) == before + ([line] + folds + after)
    ensures var replace, k := Replacements(text, edits), text.canon(text.trim(line[..colon]));
            var edited := EditFields(text, replace, Fields(before)) + Instead(text, replace, k, line, folds)
                          + EditFields(text, replace, Fields(after));
            var added := Missing(text, replace, Seen(text, replace, Fields(Kept(ls))), order);
            Rewritten(text, edits, ls, order, body) == Render(PrependLines(text, edits) + edited + added) + "\r\n" + body
  {
    FoldedFieldEdited(text, Replacements(text, edits), before, line, colon, folds, after);
  }
}
