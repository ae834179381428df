/** What header rewriting promises: the body and its boundary, no injected lines, no lost lines. */
module HeaderLaws {
  import opened Common
  import opened HeaderText
  import opened Rewriting

  // ---- lines that can be written ----

  /** A written header line: not empty, one line only, and nothing of a line ending at its end. */
  predicate Clean(l: Bytes) {
    |l| > 0 && NoLF(l) && l[|l| - 1] != '\r'
  }

  ghost predicate AllClean(ls: seq<Bytes>) {
    forall i :: 0 <= i < |ls| ==> Clean(ls[i])
  }

  ghost predicate SliceOf(a: Bytes, b: Bytes) {
    exists i, j :: 0 <= i <= j <= |b| && a == b[i..j]
  }

  /** Trimming takes a slice, and canonicalization never breaks a line. */
  ghost predicate Sane(text: Text) {
    && (forall v :: SliceOf(text.trim(v), v))
    && (forall k :: OneLine(k) ==> OneLine(text.canon(k)))
  }

  lemma {:induction false} CollapseIsOneLine(v: Bytes)
    ensures OneLine(Collapse(v))
    decreases |v|
  {
    if |v| > 0 {
      if |v| >= 2 && v[0] == '\r' && v[1] == '\n' {
        CollapseIsOneLine(v[2..]);
      } else {
        CollapseIsOneLine(v[1..]);
      }
    }
  }

  /** No value, whatever it contains, adds a line: a sanitized value is one line. */
  lemma SanitizeIsOneLine(text: Text, v: Bytes)
    requires Sane(text)
    ensures OneLine(Sanitize(text, v))
  {
    CollapseIsOneLine(v);
    assert SliceOf(text.trim(Collapse(v)), Collapse(v));
  }

  lemma HeaderLineClean(text: Text, key: Bytes, value: Bytes)
    requires Sane(text) && OneLine(text.canon(key))
    ensures Clean(HeaderLine(text, key, value)) && OneLine(HeaderLine(text, key, value))
  {
    SanitizeIsOneLine(text, value);
    assert ": "[1] == ' ';
  }

  ghost predicate KeysOneLine(edits: seq<Edit>) {
    forall i :: 0 <= i < |edits| ==> OneLine(edits[i].key)
  }

  lemma {:induction false} ReplacementKeys(text: Text, edits: seq<Edit>, k: Bytes)
    requires Sane(text) && KeysOneLine(edits) && k in Replacements(text, edits)
    ensures OneLine(k)
  {
    if |edits| > 0 {
      var e, rest := edits[|edits| - 1], edits[..|edits| - 1];
      if k in Replacements(text, rest) {
        ReplacementKeys(text, rest, k);
      } else {
        assert OneLine(e.key);
      }
    }
  }

  lemma {:induction false} PrependsClean(text: Text, edits: seq<Edit>)
    requires Sane(text) && KeysOneLine(edits)
    ensures AllClean(PrependLines(text, edits))
  {
    if |edits| > 0 {
      var e := edits[|edits| - 1];
      PrependsClean(text, edits[..|edits| - 1]);
      assert OneLine(e.key);
      HeaderLineClean(text, e.key, e.value);
    }
  }

  ghost predicate FieldsClean(fs: seq<Field>) {
    forall i :: 0 <= i < |fs| ==> AllClean(fs[i])
  }

  lemma {:induction false} FieldsAreClean(ts: seq<Bytes>)
    requires AllClean(ts)
    ensures FieldsClean(Fields(ts))
  {
    if |ts| > 0 {
      FieldsAreClean(ts[..|ts| - 1]);
    }
  }

  lemma {:induction false} EditedClean(text: Text, edits: seq<Edit>, fs: seq<Field>)
    requires Sane(text) && KeysOneLine(edits) && FieldsClean(fs)
    ensures AllClean(EditFields(text, Replacements(text, edits), fs))
  {
    if |fs| > 0 {
      var f, replace := fs[|fs| - 1], Replacements(text, edits);
      EditedClean(text, edits, fs[..|fs| - 1]);
      if Edited(text, replace, f) {
        var k := Key(text, f).value;
        ReplacementKeys(text, edits, k);
        HeaderLineClean(text, k, replace[k]);
      }
    }
  }

  lemma {:induction false} MissingClean(text: Text, edits: seq<Edit>, seen: set<Bytes>, order: seq<Bytes>)
    requires Sane(text) && KeysOneLine(edits)
    ensures AllClean(Missing(text, Replacements(text, edits), seen, order))
  {
    if |order| > 0 {
      var k, replace := order[|order| - 1], Replacements(text, edits);
      MissingClean(text, edits, seen, order[..|order| - 1]);
      if k in replace {
        ReplacementKeys(text, edits, k);
        HeaderLineClean(text, k, replace[k]);
      }
    }
  }

  lemma KeptClean(ls: seq<Bytes>, block: Bytes)
    requires AreLines(ls, block)
    ensures AllClean(Kept(ls))
  {
    forall i | 0 <= i < BeforeBlank(ls)
      ensures Clean(TrimEol(ls[i]))
    {
      TrimmedLine(ls[i], i == |ls| - 1);
      TrimEolIsPrefix(ls[i]);
    }
  }

  /** Every header line of a rewritten message is a single non-empty line. */
  lemma NewLinesClean(text: Text, edits: seq<Edit>, ls: seq<Bytes>, block: Bytes, order: seq<Bytes>)
    requires Sane(text) && KeysOneLine(edits) && AreLines(ls, block)
    ensures AllClean(NewLines(text, edits, ls, order))
  {
    var fs := Fields(Kept(ls));
    KeptClean(ls, block);
    FieldsAreClean(Kept(ls));
    PrependsClean(text, edits);
    EditedClean(text, edits, fs);
    MissingClean(text, edits, Seen(text, Replacements(text, edits), fs), order);
  }

  // ---- the separator ----

  const SEPARATOR: Bytes := "\r\n\r\n"

  predicate BreakAt(s: Bytes, p: int) {
    0 <= p && p + 4 <= |s| && s[p] == '\r' && s[p + 1] == '\n' && s[p + 2] == '\r' && s[p + 3] == '\n'
  }

  lemma BreakIsSeparator(s: Bytes, p: int)
    ensures At(s, SEPARATOR, p) <==> BreakAt(s, p)
  {
    if 0 <= p && p + 4 <= |s| {
      assert s[p..p + 4] == [s[p], s[p + 1], s[p + 2], s[p + 3]];
    }
  }

  lemma RenderCons(x: Bytes, xs: seq<Bytes>)
    ensures Render([x] + xs) == x + CRLF + Render(xs)
  {
    RenderAppend([x], xs);
    RenderSnoc([], x);
  }

  /** After a clean line, a separator is either right at its end or beyond it. */
  lemma BreakPastLine(x: Bytes, rest: Bytes, p: int)
    requires Clean(x)
    ensures BreakAt(x + CRLF + rest, p) <==>
              || (p == |x| && |rest| >= 2 && rest[0] == '\r' && rest[1] == '\n')
              || (p >= |x| + 2 && BreakAt(rest, p - |x| - 2))
  {
    var s := x + CRLF + rest;
    assert forall i :: 0 <= i < |x| ==> s[i] == x[i];
    assert s[|x|] == '\r' && s[|x| + 1] == '\n';
    assert forall i :: 0 <= i < |rest| ==> s[|x| + 2 + i] == rest[i];
  }

  /** The first separator of clean lines, a blank line and anything else is that blank line. */
  lemma {:induction false} FirstBreak(lines: seq<Bytes>, body: Bytes, p: int)
    requires AllClean(lines) && |lines| > 0
    ensures |Render(lines)| >= 2
    ensures p <= |Render(lines)| - 2 ==> (BreakAt(Render(lines) + CRLF + body, p) <==> p == |Render(lines)| - 2)
  {
    var x, xs := lines[0], lines[1..];
    assert lines == [x] + xs;
    RenderCons(x, xs);
    var rest := Render(xs) + CRLF + body;
    assert Render(lines) + CRLF + body == x + CRLF + rest;
    BreakPastLine(x, rest, p);
    if |xs| > 0 {
      FirstBreak(xs, body, p - |x| - 2);
      RenderCons(xs[0], xs[1..]);
      assert xs == [xs[0]] + xs[1..];
      NotBlank(xs[0], Render(xs[1..]) + CRLF + body);
      assert rest == xs[0] + CRLF + (Render(xs[1..]) + CRLF + body);
    } else {
      assert rest == CRLF + body;
    }
  }

  lemma NotBlank(x: Bytes, rest: Bytes)
    requires Clean(x)
    ensures var s := x + CRLF + rest; !(s[0] == '\r' && s[1] == '\n')
  {
    var s := x + CRLF + rest;
    assert s[0] == x[0];
    assert |x| == 1 ==> s[1] == '\r';
    assert |x| > 1 ==> s[1] == x[1];
  }

  lemma {:induction false} SeparatorFound(lines: seq<Bytes>, body: Bytes)
    requires AllClean(lines)
    ensures var out := Render(lines) + CRLF + body;
            FindHeaderEnd(out) == Some(|out| - |body|) <==> |lines| > 0
  {
    var out := Render(lines) + CRLF + body;
    if |lines| > 0 {
      forall j: int
        ensures 0 <= j <= |Render(lines)| - 2 ==> (At(out, SEPARATOR, j) <==> j == |Render(lines)| - 2)
      {
        FirstBreak(lines, body, j);
        BreakIsSeparator(out, j);
      }
      FirstBreak(lines, body, 0);
      assert At(out, SEPARATOR, |Render(lines)| - 2);
    } else {
      assert out[0] == '\r';
      assert !At(out, "\n\n", 0);
    }
  }

  /**
   * The boundary of a rewritten message: parsing it finds exactly the original body again, byte for
   * byte, if and only if at least one header line is left.
   */
  lemma BodyIsKept(text: Text, edits: seq<Edit>, ls: seq<Bytes>, raw: Bytes, end: nat, order: seq<Bytes>)
    requires Sane(text) && KeysOneLine(edits) && end <= |raw| && AreLines(ls, raw[..end])
    ensures var out := Rewritten(text, edits, ls, order, raw[end..]);
            && (FindHeaderEnd(out) == Some(|out| - |raw[end..]|) <==> |NewLines(text, edits, ls, order)| > 0)
            && out[|out| - |raw[end..]|..] == raw[end..]
  {
    NewLinesClean(text, edits, ls, raw[..end], order);
    SeparatorFound(NewLines(text, edits, ls, order), raw[end..]);
  }

  /** A stamped trace header is enough: with any prepended field the boundary is always right. */
  lemma StampedBodyIsKept(text: Text, edits: seq<Edit>, ls: seq<Bytes>, raw: Bytes, end: nat, order: seq<Bytes>)
    requires Sane(text) && KeysOneLine(edits) && end <= |raw| && AreLines(ls, raw[..end])
    requires exists i :: 0 <= i < |edits| && edits[i].prepend
    ensures var out := Rewritten(text, edits, ls, order, raw[end..]);
            FindHeaderEnd(out) == Some(|out| - |raw[end..]|)
  {
    BodyIsKept(text, edits, ls, raw, end, order);
    var i :| 0 <= i < |edits| && edits[i].prepend;
    SomePrepended(text, edits, i);
  }

  lemma {:induction false} SomePrepended(text: Text, edits: seq<Edit>, i: nat)
    requires i < |edits| && edits[i].prepend
    ensures |PrependLines(text, edits)| > 0
  {
    if i < |edits| - 1 {
      SomePrepended(text, edits[..|edits| - 1], i);
    }
  }

  // ---- no extra line ----

  function WithEnds(lines: seq<Bytes>): (ls: seq<Bytes>)
    ensures |ls| == |lines| && forall i :: 0 <= i < |lines| ==> ls[i] == lines[i] + CRLF
  {
    seq(|lines|, i requires 0 <= i < |lines| => lines[i] + CRLF)
  }

  lemma {:induction false} RenderIsConcat(lines: seq<Bytes>)
    ensures Concat(WithEnds(lines)) == Render(lines)
  {
    if |lines| > 0 {
      var n := |lines| - 1;
      RenderIsConcat(lines[..n]);
      assert WithEnds(lines)[..n] == WithEnds(lines[..n]);
    }
  }

  lemma CleanLine(l: Bytes, last: bool)
    requires NoLF(l)
    ensures IsLine(l + CRLF, last)
  {
    var s := l + CRLF;
    assert s[|s| - 1] == '\n' && s[|s| - 2] == '\r';
    assert forall i :: 0 <= i < |l| ==> s[i] == l[i];
  }

  /** The lines of a message in wire form are its header lines, each ended, and the blank line. */
  lemma WireLines(lines: seq<Bytes>)
    requires AllClean(lines)
    ensures AreLines(WithEnds(lines) + [CRLF], Render(lines) + CRLF)
  {
    RenderIsConcat(lines);
    ConcatAppend(WithEnds(lines), [CRLF]);
    ConcatOne(CRLF);
    forall i | 0 <= i < |lines|
      ensures IsLine((WithEnds(lines) + [CRLF])[i], false)
    {
      CleanLine(lines[i], false);
    }
    CleanLine("", true);
  }

  /**
   * Splitting the rewritten header block gives one line for each header line written, then the
   * blank line: no value can add a line.
   */
  lemma NoExtraLine(text: Text, edits: seq<Edit>, ls: seq<Bytes>, block: Bytes, order: seq<Bytes>)
    requires Sane(text) && KeysOneLine(edits) && AreLines(ls, block)
    ensures var lines := NewLines(text, edits, ls, order);
            AreLines(WithEnds(lines) + [CRLF], Render(lines) + CRLF)
  {
    NewLinesClean(text, edits, ls, block, order);
    WireLines(NewLines(text, edits, ls, order));
  }

  // ---- no lost line ----

  function Flatten(fs: seq<Field>): seq<Bytes> {
    if |fs| == 0 then [] else Flatten(fs[..|fs| - 1]) + fs[|fs| - 1]
  }

  /** Grouping lines into fields loses and reorders nothing. */
  lemma {:induction false} FieldsFlatten(ts: seq<Bytes>)
    ensures Flatten(Fields(ts)) == ts
  {
    if |ts| > 0 {
      var pre, t := ts[..|ts| - 1], ts[|ts| - 1];
      FieldsFlatten(pre);
      var fs := Fields(pre);
      if Continuation(t) && |fs| > 0 {
        assert AddLine(fs, t)[..|fs| - 1] == fs[..|fs| - 1];
      } else {
        assert AddLine(fs, t)[..|fs|] == fs;
      }
      assert ts == pre + [t];
    }
  }

  lemma {:induction false} UneditedFields(text: Text, replace: map<Bytes, Bytes>, fs: seq<Field>)
    requires forall i :: 0 <= i < |fs| ==> !Edited(text, replace, fs[i])
    ensures EditFields(text, replace, fs) == Flatten(fs)
  {
    if |fs| > 0 {
      UneditedFields(text, replace, fs[..|fs| - 1]);
    }
  }

  /** The chosen separator is the first blank line of the block. */
  ghost predicate FirstBlankLine(ls: seq<Bytes>) {
    forall i :: 0 <= i < |ls| - 1 ==> !Blank(ls[i])
  }

  lemma {:induction false} EndsAreBlank(l: Bytes)
    requires forall i :: 0 <= i < |l| ==> l[i] == '\r' || l[i] == '\n'
    ensures Blank(l)
  {
    if |l| > 0 {
      EndsAreBlank(l[..|l| - 1]);
    }
  }

  /** The header block found in a message always ends with a blank line. */
  lemma BlockEndsBlank(raw: Bytes, end: nat, ls: seq<Bytes>)
    requires FindHeaderEnd(raw) == Some(end) && AreLines(ls, raw[..end])
    ensures |ls| > 0 && Blank(ls[|ls| - 1])
  {
    var block := raw[..end];
    EmptyLines(ls, block);
    var l := ls[|ls| - 1];
    assert block == Concat(ls[..|ls| - 1]) + l;
    assert forall i :: 0 <= i < |l| ==> l[i] == block[|block| - |l| + i];
    if At(raw, SEPARATOR, end - 4) {
      BreakIsSeparator(raw, end - 4);
      assert block[end - 3] == '\n';
    } else {
      assert raw[end - 2..end] == "\n\n";
      assert block[end - 2] == raw[end - 2..end][0] && block[end - 1] == raw[end - 2..end][1];
    }
    EndsAreBlank(l);
  }

  /**
   * All lines but the separator reach the rewriter if and only if the separator is the first blank
   * line; otherwise the lines between an earlier blank line and the separator are dropped.
   */
  lemma NoLineLostExactly(ls: seq<Bytes>)
    requires |ls| > 0 && Blank(ls[|ls| - 1])
    ensures Flatten(Fields(Kept(ls))) == Trimmed(ls[..|ls| - 1]) <==> FirstBlankLine(ls)
  {
    FieldsFlatten(Kept(ls));
    var n := BeforeBlank(ls);
    assert |Kept(ls)| == n;
    assert n < |ls|;
    if n == |ls| - 1 {
      assert FirstBlankLine(ls);
    } else {
      assert Blank(ls[n]);
    }
  }

  const MIXED: Bytes := "A: 1\n\nB: 2\r\n\r\n"
  const MIXED_LINES: seq<Bytes> := ["A: 1\n", "\n", "B: 2\r\n", "\r\n"]

  lemma MixedSeparator()
    ensures FindHeaderEnd(MIXED) == Some(|MIXED|)
  {
    forall j | 0 <= j <= 10
      ensures At(MIXED, SEPARATOR, j) <==> j == 10
    {
      BreakIsSeparator(MIXED, j);
    }
    assert At(MIXED, SEPARATOR, 10);
  }

  lemma MixedLines()
    ensures AreLines(MIXED_LINES, MIXED)
  {
    var ls := MIXED_LINES;
    ConcatAppend([ls[0]], [ls[1]]);
    ConcatAppend([ls[0]] + [ls[1]], [ls[2]]);
    ConcatAppend([ls[0]] + [ls[1]] + [ls[2]], [ls[3]]);
    ConcatOne(ls[0]);
    ConcatOne(ls[1]);
    ConcatOne(ls[2]);
    ConcatOne(ls[3]);
    assert ls == [ls[0]] + [ls[1]] + [ls[2]] + [ls[3]];
  }

  /** A message with an LF blank line before its CRLF separator: the field in between is lost. */
  lemma EarlierBlankLineLosesField()
    ensures FindHeaderEnd(MIXED) == Some(|MIXED|) && AreLines(MIXED_LINES, MIXED) && Kept(MIXED_LINES) == ["A: 1"]
  {
    MixedSeparator();
    MixedLines();
    assert "A: 1\n"[..4] == "A: 1";
    assert "\n"[..0] == "";
    StopsAtBlank(MIXED_LINES, 1);
  }

  /** Without in-place edits, every header line that reaches the rewriter is written as it was. */
  lemma NoEditsKeepLines(text: Text, ls: seq<Bytes>)
    ensures NewLines(text, [], ls, []) == Kept(ls)
  {
    FieldsFlatten(Kept(ls));
    UneditedFields(text, map[], Fields(Kept(ls)));
  }

  lemma KeptWire(lines: seq<Bytes>)
    requires forall i :: 0 <= i < |lines| ==> |lines[i]| > 0 && TrimEol(lines[i]) == lines[i]
    ensures Kept(WithEnds(lines) + [CRLF]) == lines
  {
    var ls := WithEnds(lines) + [CRLF];
    forall i | 0 <= i < |lines|
      ensures TrimEol(ls[i]) == lines[i]
    {
      TrimCrlf(lines[i]);
    }
    assert ls[|lines|] == "" + CRLF;
    TrimCrlf("");
    StopsAtBlank(ls, |lines|);
  }

  /**
   * Reading a rewritten message back: whatever is left of its header is found again, line by line,
   * as long as it has any header line.
   */
  lemma RewrittenReadsBack(text: Text, edits: seq<Edit>, ls: seq<Bytes>, raw: Bytes, end: nat, order: seq<Bytes>, ms: seq<Bytes>)
    requires Sane(text) && KeysOneLine(edits) && end <= |raw| && AreLines(ls, raw[..end])
    requires |NewLines(text, edits, ls, order)| > 0
    requires var out := Rewritten(text, edits, ls, order, raw[end..]);
             FindHeaderEnd(out).Some? && FindHeaderEnd(out).value <= |out| && AreLines(ms, out[..FindHeaderEnd(out).value])
    ensures Kept(ms) == NewLines(text, edits, ls, order)
  {
    var lines, body := NewLines(text, edits, ls, order), raw[end..];
    var out := Rewritten(text, edits, ls, order, body);
    BodyIsKept(text, edits, ls, raw, end, order);
    assert out[..|out| - |body|] == Render(lines) + CRLF;
    NoExtraLine(text, edits, ls, raw[..end], order);
    LinesUnique(ms, WithEnds(lines) + [CRLF], Render(lines) + CRLF);
    NewLinesClean(text, edits, ls, raw[..end], order);
    KeptWire(lines);
  }

  /** Without edits a message in wire form comes back byte for byte. */
  lemma NoEditsIdentity(text: Text, lines: seq<Bytes>, body: Bytes)
    requires forall i :: 0 <= i < |lines| ==> |lines[i]| > 0 && TrimEol(lines[i]) == lines[i]
    ensures Rewritten(text, [], WithEnds(lines) + [CRLF], [], body) == Render(lines) + CRLF + body
  {
    KeptWire(lines);
    NoEditsKeepLines(text, WithEnds(lines) + [CRLF]);
  }

  lemma TrimCrlf(l: Bytes)
    ensures TrimEol(l + CRLF) == TrimEol(l)
  {
    var s := l + CRLF;
    assert s[|s| - 1] == '\n';
    var t := s[..|s| - 1];
    assert t[|t| - 1] == '\r';
    assert t[..|t| - 1] == l;
  }
}
