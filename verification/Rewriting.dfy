/**
 * Header rewriting: the line loop with its skipping flag, proved to be an edit on logical fields
 * (a first line and its continuations).
 */
module Rewriting {
  import opened Common
  import opened HeaderText

  /** The library's canonical field names and white-space trimming. */
  datatype Text = Text(canon: Bytes -> Bytes, trim: Bytes -> Bytes)

  datatype Edit = Edit(key: Bytes, value: Bytes, prepend: bool)

  // ---- written lines ----

  /** Replaces every CRLF, CR and LF by a space. */
  function Collapse(v: Bytes): Bytes {
    if |v| == 0 then ""
    else if |v| >= 2 && v[0] == '\r' && v[1] == '\n' then " " + Collapse(v[2..])
    else if v[0] == '\r' || v[0] == '\n' then " " + Collapse(v[1..])
    else [v[0]] + Collapse(v[1..])
  }

  function Sanitize(text: Text, v: Bytes): Bytes {
    if OneLine(v) then v else text.trim(Collapse(v))
  }

  /** A header line as written, without its line ending. */
  function HeaderLine(text: Text, key: Bytes, value: Bytes): Bytes {
    text.canon(key) + ": " + Sanitize(text, value)
  }

  function Render(lines: seq<Bytes>): Bytes {
    if |lines| == 0 then "" else Render(lines[..|lines| - 1]) + lines[|lines| - 1] + CRLF
  }

  // ---- edits ----

  /** The last in-place edit of a field wins. */
  function Replacements(text: Text, edits: seq<Edit>): map<Bytes, Bytes> {
    if |edits| == 0 then map[]
    else
      var e := edits[|edits| - 1];
      var rest := Replacements(text, edits[..|edits| - 1]);
      if e.prepend then rest else rest[text.canon(e.key) := e.value]
  }

  function PrependLines(text: Text, edits: seq<Edit>): seq<Bytes> {
    if |edits| == 0 then []
    else
      var e := edits[|edits| - 1];
      PrependLines(text, edits[..|edits| - 1]) + if e.prepend then [HeaderLine(text, e.key, e.value)] else []
  }

  // ---- fields ----

  predicate Blank(line: Bytes) {
    TrimEol(line) == ""
  }

  /** How many lines come before the first blank one. */
  function BeforeBlank(ls: seq<Bytes>): (n: nat)
    ensures n <= |ls| && (forall i :: 0 <= i < n ==> !Blank(ls[i])) && (n < |ls| ==> Blank(ls[n]))
  {
    if |ls| == 0 || Blank(ls[0]) then 0 else 1 + BeforeBlank(ls[1..])
  }

  function Trimmed(ls: seq<Bytes>): (ts: seq<Bytes>)
    ensures |ts| == |ls| && forall i :: 0 <= i < |ls| ==> ts[i] == TrimEol(ls[i])
  {
    seq(|ls|, i requires 0 <= i < |ls| => TrimEol(ls[i]))
  }

  /** The header lines of a block, without their endings. */
  function Kept(ls: seq<Bytes>): seq<Bytes> {
    Trimmed(ls[..BeforeBlank(ls)])
  }

  predicate Continuation(t: Bytes) {
    |t| > 0 && (t[0] == ' ' || t[0] == '\t')
  }

  type Field = f: seq<Bytes> | |f| > 0 witness [""]

  /** Groups lines into fields; continuations before any field form one of their own. */
  function Fields(ts: seq<Bytes>): seq<Field> {
    if |ts| == 0 then []
    else AddLine(Fields(ts[..|ts| - 1]), ts[|ts| - 1])
  }

  function AddLine(fs: seq<Field>, t: Bytes): seq<Field> {
    if Continuation(t) && |fs| > 0 then fs[..|fs| - 1] + [fs[|fs| - 1] + [t]] else fs + [[t]]
  }

  /** The canonical name of a field; None for what is not a field at all. */
  function Key(text: Text, f: Field): Option<Bytes> {
    if Continuation(f[0]) then None
    else
      match IndexFrom(f[0], ":", 0)
      case None => None
      case Some(colon) => if colon == 0 then None else Some(text.canon(text.trim(f[0][..colon])))
  }

  predicate Edited(text: Text, replace: map<Bytes, Bytes>, f: Field) {
    Key(text, f).Some? && Key(text, f).value in replace
  }

  /** What becomes of one field: replaced, deleted with its continuations, or left alone. */
  function EditField(text: Text, replace: map<Bytes, Bytes>, f: Field): seq<Bytes> {
    if !Edited(text, replace, f) then f
    else
      var k := Key(text, f).value;
      if replace[k] == "" then [] else [HeaderLine(text, k, replace[k])]
  }

  function EditFields(text: Text, replace: map<Bytes, Bytes>, fs: seq<Field>): seq<Bytes> {
    if |fs| == 0 then [] else EditFields(text, replace, fs[..|fs| - 1]) + EditField(text, replace, fs[|fs| - 1])
  }

  /** The edited fields the message had. */
  function Seen(text: Text, replace: map<Bytes, Bytes>, fs: seq<Field>): set<Bytes> {
    if |fs| == 0 then {}
    else
      var f := fs[|fs| - 1];
      Seen(text, replace, fs[..|fs| - 1]) + if Edited(text, replace, f) then {Key(text, f).value} else {}
  }

  /** The fields the message did not have, in the order the map is walked. */
  function Missing(text: Text, replace: map<Bytes, Bytes>, seen: set<Bytes>, order: seq<Bytes>): seq<Bytes> {
    if |order| == 0 then []
    else
      var k := order[|order| - 1];
      Missing(text, replace, seen, order[..|order| - 1])
      + if k in replace && k !in seen && replace[k] != "" then [HeaderLine(text, k, replace[k])] else []
  }

  /** `order` walks every key of the map once. */
  ghost predicate Walks(order: seq<Bytes>, replace: map<Bytes, Bytes>) {
    && (forall i, j :: 0 <= i < j < |order| ==> order[i] != order[j])
    && (forall k :: k in replace <==> k in order)
  }

  /** The header lines of the rewritten message. */
  function NewLines(text: Text, edits: seq<Edit>, ls: seq<Bytes>, order: seq<Bytes>): seq<Bytes> {
    var replace := Replacements(text, edits);
    var fs := Fields(Kept(ls));
    PrependLines(text, edits) + EditFields(text, replace, fs) + Missing(text, replace, Seen(text, replace, fs), order)
  }

  function Rewritten(text: Text, edits: seq<Edit>, ls: seq<Bytes>, order: seq<Bytes>, body: Bytes): Bytes {
    Render(NewLines(text, edits, ls, order)) + CRLF + body
  }

  // ---- the loop ----

  lemma RenderSnoc(lines: seq<Bytes>, l: Bytes)
    ensures Render(lines + [l]) == Render(lines) + l + CRLF
  {
    assert (lines + [l])[..|lines|] == lines;
  }

  /** A continuation goes the way of its field. */
  lemma AddContinuation(text: Text, replace: map<Bytes, Bytes>, fs: seq<Field>, t: Bytes)
    requires Continuation(t) && |fs| > 0
    ensures var edited := Edited(text, replace, fs[|fs| - 1]);
            var gs := AddLine(fs, t);
            && EditFields(text, replace, gs) == EditFields(text, replace, fs) + (if edited then [] else [t])
            && Seen(text, replace, gs) == Seen(text, replace, fs)
            && |gs| == |fs| && (Edited(text, replace, gs[|gs| - 1]) <==> edited)
  {
    var gs := AddLine(fs, t);
    assert gs[..|gs| - 1] == fs[..|fs| - 1];
  }

  lemma AddFirstLine(text: Text, replace: map<Bytes, Bytes>, fs: seq<Field>, t: Bytes)
    requires !(Continuation(t) && |fs| > 0)
    ensures var gs := AddLine(fs, t);
            && EditFields(text, replace, gs) == EditFields(text, replace, fs) + EditField(text, replace, [t])
            && Seen(text, replace, gs) == Seen(text, replace, fs)
               + (if Edited(text, replace, [t]) then {Key(text, [t]).value} else {})
            && gs[|gs| - 1] == [t]
  {
    assert AddLine(fs, t)[..|fs|] == fs;
  }

  method CollectEdits(text: Text, edits: seq<Edit>) returns (replace: map<Bytes, Bytes>, out: Bytes)
    ensures replace == Replacements(text, edits)
    ensures out == Render(PrependLines(text, edits))
  {
    replace := map[];
    out := "";
    for i := 0 to |edits|
      invariant replace == Replacements(text, edits[..i])
      invariant out == Render(PrependLines(text, edits[..i]))
    {
      var e := edits[i];
      assert edits[..i + 1][..i] == edits[..i];
      if e.prepend {
        RenderSnoc(PrependLines(text, edits[..i]), HeaderLine(text, e.key, e.value));
        out := out + HeaderLine(text, e.key, e.value) + CRLF;
      } else {
        assert PrependLines(text, edits[..i + 1]) == PrependLines(text, edits[..i]);
        replace := replace[text.canon(e.key) := e.value];
      }
    }
    assert edits[..|edits|] == edits;
  }

  /** The loop's state after the fields `fs`: `skipping` says the last one was edited away. */
  ghost predicate Copied(text: Text, replace: map<Bytes, Bytes>, fs: seq<Field>, out: Bytes, skipping: bool, seen: set<Bytes>) {
    && out == Render(EditFields(text, replace, fs))
    && seen == Seen(text, replace, fs)
    && (skipping <==> |fs| > 0 && Edited(text, replace, fs[|fs| - 1]))
  }

  lemma CopyContinuation(text: Text, replace: map<Bytes, Bytes>, fs: seq<Field>, out: Bytes, skipping: bool, seen: set<Bytes>, t: Bytes)
    requires Copied(text, replace, fs, out, skipping, seen) && Continuation(t)
    ensures Copied(text, replace, AddLine(fs, t), if skipping then out else out + t + CRLF, skipping, seen)
  {
    RenderSnoc(EditFields(text, replace, fs), t);
    if |fs| > 0 {
      AddContinuation(text, replace, fs, t);
    } else {
      AddFirstLine(text, replace, fs, t);
    }
  }

  lemma CopyPlain(text: Text, replace: map<Bytes, Bytes>, fs: seq<Field>, out: Bytes, skipping: bool, seen: set<Bytes>, t: Bytes)
    requires Copied(text, replace, fs, out, skipping, seen) && !Continuation(t) && !Edited(text, replace, [t])
    ensures Copied(text, replace, AddLine(fs, t), out + t + CRLF, false, seen)
  {
    RenderSnoc(EditFields(text, replace, fs), t);
    AddFirstLine(text, replace, fs, t);
  }

  lemma CopyEdited(text: Text, replace: map<Bytes, Bytes>, fs: seq<Field>, out: Bytes, skipping: bool, seen: set<Bytes>, t: Bytes)
    requires Copied(text, replace, fs, out, skipping, seen) && !Continuation(t) && Edited(text, replace, [t])
    ensures var k := Key(text, [t]).value;
            Copied(text, replace, AddLine(fs, t),
                   if replace[k] == "" then out else out + HeaderLine(text, k, replace[k]) + CRLF, true, seen + {k})
  {
    var k := Key(text, [t]).value;
    RenderSnoc(EditFields(text, replace, fs), HeaderLine(text, k, replace[k]));
    AddFirstLine(text, replace, fs, t);
    if replace[k] == "" {
      assert EditFields(text, replace, fs) + [] == EditFields(text, replace, fs);
    }
  }

  lemma NextField(ls: seq<Bytes>, i: nat)
    requires i < |ls|
    ensures Fields(Trimmed(ls[..i + 1])) == AddLine(Fields(Trimmed(ls[..i])), TrimEol(ls[i]))
  {
    var ts := Trimmed(ls[..i + 1]);
    assert ts[..i] == Trimmed(ls[..i]);
  }

  lemma {:induction false} RenderAppend(xs: seq<Bytes>, ys: seq<Bytes>)
    ensures Render(xs + ys) == Render(xs) + Render(ys)
  {
    if |ys| == 0 {
      assert xs + ys == xs;
    } else {
      RenderAppend(xs, ys[..|ys| - 1]);
      assert (xs + ys)[..|xs + ys| - 1] == xs + ys[..|ys| - 1];
    }
  }

  /** `fs` are the fields of the first `i` lines, none of them blank. */
  ghost predicate Upto(ls: seq<Bytes>, i: nat, fs: seq<Field>)
    requires i <= |ls|
  {
    fs == Fields(Trimmed(ls[..i])) && forall j :: 0 <= j < i ==> !Blank(ls[j])
  }

  lemma UptoNext(ls: seq<Bytes>, i: nat, fs: seq<Field>)
    requires i < |ls| && Upto(ls, i, fs) && !Blank(ls[i])
    ensures Upto(ls, i + 1, AddLine(fs, TrimEol(ls[i])))
  {
    NextField(ls, i);
  }

  lemma CopyStart(text: Text, replace: map<Bytes, Bytes>, ls: seq<Bytes>)
    ensures Upto(ls, 0, []) && Copied(text, replace, [], "", false, {})
  {
  }

  lemma CopyEnd(text: Text, replace: map<Bytes, Bytes>, ls: seq<Bytes>, i: nat, fs: seq<Field>, out: Bytes, skipping: bool, seen: set<Bytes>)
    requires i <= |ls| && Upto(ls, i, fs) && (i < |ls| ==> Blank(ls[i])) && Copied(text, replace, fs, out, skipping, seen)
    ensures out == Render(EditFields(text, replace, Fields(Kept(ls)))) && seen == Seen(text, replace, Fields(Kept(ls)))
  {
    StopsAtBlank(ls, i);
  }

  /** Walks the original block line by line. */
  method CopyFields(text: Text, replace: map<Bytes, Bytes>, ls: seq<Bytes>) returns (out: Bytes, seen: set<Bytes>)
    ensures out == Render(EditFields(text, replace, Fields(Kept(ls))))
    ensures seen == Seen(text, replace, Fields(Kept(ls)))
  {
    out, seen := "", {};
    var skipping, i := false, 0;
    ghost var fs: seq<Field> := [];
    CopyStart(text, replace, ls);
    while i < |ls| && TrimEol(ls[i]) != ""
      invariant 0 <= i <= |ls| && Upto(ls, i, fs)
      invariant Copied(text, replace, fs, out, skipping, seen)
    {
      out, skipping, seen := CopyLine(text, replace, TrimEol(ls[i]), out, skipping, seen, fs);
      UptoNext(ls, i, fs);
      fs := AddLine(fs, TrimEol(ls[i]));
      i := i + 1;
    }
    CopyEnd(text, replace, ls, i, fs, out, skipping, seen);
  }

  /** The body of the loop. */
  method CopyLine(text: Text, replace: map<Bytes, Bytes>, trimmed: Bytes, out: Bytes, skipping: bool, seen: set<Bytes>,
                  ghost fs: seq<Field>)
    returns (out': Bytes, skipping': bool, seen': set<Bytes>)
    requires |trimmed| > 0 && Copied(text, replace, fs, out, skipping, seen)
    ensures Copied(text, replace, AddLine(fs, trimmed), out', skipping', seen')
    ensures trimmed[0] == ' ' || trimmed[0] == '\t' ==> skipping' == skipping && out' == if skipping then out else out + trimmed + "\r\n"
  {
    out', skipping', seen' := out, skipping, seen;
    if trimmed[0] == ' ' || trimmed[0] == '\t' {
      CopyContinuation(text, replace, fs, out, skipping, seen, trimmed);
      if !skipping {
        out' := out + trimmed + CRLF;
      }
      return;
    }
    var colon := IndexFrom(trimmed, ":", 0);
    if colon.None? || colon.value <= 0 {
      CopyPlain(text, replace, fs, out, skipping, seen, trimmed);
      return out + trimmed + CRLF, false, seen;
    }
    var key := text.canon(text.trim(trimmed[..colon.value]));
    if key !in replace {
      CopyPlain(text, replace, fs, out, skipping, seen, trimmed);
      return out + trimmed + CRLF, false, seen;
    }
    CopyEdited(text, replace, fs, out, skipping, seen, trimmed);
    seen', skipping' := seen + {key}, true;
    if replace[key] != "" {
      out' := out + HeaderLine(text, key, replace[key]) + CRLF;
    }
  }

  lemma StopsAtBlank(ls: seq<Bytes>, i: nat)
    requires i <= |ls| && (forall j :: 0 <= j < i ==> !Blank(ls[j])) && (i < |ls| ==> Blank(ls[i]))
    ensures BeforeBlank(ls) == i
  {
    var n := BeforeBlank(ls);
    assert !(n < i) && !(i < n);
  }

  method AppendMissing(text: Text, replace: map<Bytes, Bytes>, seen: set<Bytes>, order: seq<Bytes>) returns (out: Bytes)
    requires Walks(order, replace)
    ensures out == Render(Missing(text, replace, seen, order))
  {
    out := "";
    for i := 0 to |order|
      invariant out == Render(Missing(text, replace, seen, order[..i]))
    {
      var k := order[i];
      assert order[..i + 1][..i] == order[..i];
      if k !in seen && replace[k] != "" {
        RenderSnoc(Missing(text, replace, seen, order[..i]), HeaderLine(text, k, replace[k]));
        out := out + HeaderLine(text, k, replace[k]) + CRLF;
      } else {
        assert Missing(text, replace, seen, order[..i + 1]) == Missing(text, replace, seen, order[..i]);
      }
    }
    assert order[..|order|] == order;
  }

  /**
   * Applies the edits to a message whose header block ends at `end`. `order` is the order in which
   * the map of replacements happens to be walked.
   */
  method RewriteHeaders(text: Text, raw: Bytes, end: nat, edits: seq<Edit>, order: seq<Bytes>) returns (out: Bytes)
    requires end <= |raw| && Walks(order, Replacements(text, edits))
    ensures forall ls :: AreLines(ls, raw[..end]) ==> out == Rewritten(text, edits, ls, order, raw[end..])
  {
    var replace, head := CollectEdits(text, edits);
    var ls := SplitLines(raw[..end]);
    var fields, seen := CopyFields(text, replace, ls);
    var rest := AppendMissing(text, replace, seen, order);
    out := head + fields + rest + CRLF + raw[end..];
    var fs := Fields(Kept(ls));
    RenderAppend(PrependLines(text, edits), EditFields(text, replace, fs));
    RenderAppend(PrependLines(text, edits) + EditFields(text, replace, fs), Missing(text, replace, seen, order));
    forall ms | AreLines(ms, raw[..end])
      ensures out == Rewritten(text, edits, ms, order, raw[end..])
    {
      LinesUnique(ls, ms, raw[..end]);
    }
  }
}
