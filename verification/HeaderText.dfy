/**
 * Lines, fields and separators of a message. A message is a sequence of bytes, one char a byte.
 * Canonical field names and white-space trimming are library functions and come as a parameter.
 */
module HeaderText {
  import opened Common

  type Bytes = string

  const CRLF: Bytes := "\r\n"

  // ---- searching ----

  predicate At(s: Bytes, pat: Bytes, i: int) {
    0 <= i && i + |pat| <= |s| && s[i..i + |pat|] == pat
  }

  /** The first occurrence of `pat` at or after `i`. */
  function IndexFrom(s: Bytes, pat: Bytes, i: nat): (r: Option<nat>)
    requires i <= |s|
    ensures r.Some? ==> i <= r.value && At(s, pat, r.value) && forall j :: i <= j < r.value ==> !At(s, pat, j)
    ensures r.None? ==> forall j :: i <= j ==> !At(s, pat, j)
    decreases |s| - i
  {
    if At(s, pat, i) then Some(i) else if i == |s| then None else IndexFrom(s, pat, i + 1)
  }

  /** The offset just past the blank line that ends the header block. */
  function FindHeaderEnd(raw: Bytes): Option<nat> {
    match IndexFrom(raw, "\r\n\r\n", 0)
    case Some(i) => Some(i + 4)
    case None =>
      match IndexFrom(raw, "\n\n", 0)
      case Some(i) => Some(i + 2)
      case None => None
  }

  // ---- lines ----

  predicate NoLF(s: Bytes) {
    forall i :: 0 <= i < |s| ==> s[i] != '\n'
  }

  /** Neither CR nor LF. */
  predicate OneLine(s: Bytes) {
    forall i :: 0 <= i < |s| ==> s[i] != '\n' && s[i] != '\r'
  }

  function Concat(xs: seq<Bytes>): Bytes {
    if |xs| == 0 then "" else Concat(xs[..|xs| - 1]) + xs[|xs| - 1]
  }

  /** A line as split: bytes without LF, then LF, except for an unterminated last one. */
  predicate IsLine(l: Bytes, last: bool) {
    |l| > 0 && (forall i :: 0 <= i < |l| - 1 ==> l[i] != '\n') && (last || l[|l| - 1] == '\n')
  }

  /** The lines of a text: its only decomposition into lines. */
  ghost predicate AreLines(ls: seq<Bytes>, b: Bytes) {
    Concat(ls) == b && forall i :: 0 <= i < |ls| ==> IsLine(ls[i], i == |ls| - 1)
  }

  lemma ConcatOne(x: Bytes)
    ensures Concat([x]) == x
  {
    assert [x][..0] == [];
  }

  lemma {:induction false} ConcatAppend(xs: seq<Bytes>, ys: seq<Bytes>)
    ensures Concat(xs + ys) == Concat(xs) + Concat(ys)
  {
    if |ys| == 0 {
      assert xs + ys == xs;
    } else {
      ConcatAppend(xs, ys[..|ys| - 1]);
      assert (xs + ys)[..|xs + ys| - 1] == xs + ys[..|ys| - 1];
    }
  }

  /** `out` are terminated lines, and `rest` is what follows them in `b`. */
  ghost predicate Cut(out: seq<Bytes>, rest: Bytes, b: Bytes) {
    Concat(out) + rest == b && forall i :: 0 <= i < |out| ==> IsLine(out[i], false)
  }

  lemma {:induction false} CutNext(out: seq<Bytes>, rest: Bytes, b: Bytes, n: nat)
    requires Cut(out, rest, b) && n <= |rest| && IsLine(rest[..n], false)
    ensures Cut(out + [rest[..n]], rest[n..], b)
  {
    ConcatAppend(out, [rest[..n]]);
    ConcatOne(rest[..n]);
    var line, more := rest[..n], rest[n..];
    assert rest == line + more;
    assert (Concat(out) + line) + more == Concat(out) + (line + more);
  }

  lemma CutLast(out: seq<Bytes>, rest: Bytes, b: Bytes)
    requires Cut(out, rest, b) && IsLine(rest, true)
    ensures AreLines(out + [rest], b)
  {
    ConcatAppend(out, [rest]);
    ConcatOne(rest);
  }

  /** Splits on LF, keeping the terminator on each line. */
  method SplitLines(b: Bytes) returns (out: seq<Bytes>)
    ensures AreLines(out, b)
  {
    out := [];
    var rest := b;
    while |rest| > 0
      invariant Cut(out, rest, b)
      decreases |rest|
    {
      var lf := IndexFrom(rest, "\n", 0);
      if lf.None? {
        UnterminatedLine(rest);
        CutLast(out, rest, b);
        return out + [rest];
      }
      FirstLine(rest, lf.value);
      CutNext(out, rest, b, lf.value + 1);
      out, rest := out + [rest[..lf.value + 1]], rest[lf.value + 1..];
    }
  }

  lemma UnterminatedLine(b: Bytes)
    requires |b| > 0 && forall j :: 0 <= j ==> !At(b, "\n", j)
    ensures IsLine(b, true)
  {
    forall i | 0 <= i < |b|
      ensures b[i] != '\n'
    {
      assert !At(b, "\n", i);
      assert b[i..i + 1] == [b[i]];
    }
  }

  lemma FirstLine(b: Bytes, i: nat)
    requires At(b, "\n", i) && forall j :: 0 <= j < i ==> !At(b, "\n", j)
    ensures IsLine(b[..i + 1], false)
  {
    assert b[i..i + 1] == [b[i]];
    forall j | 0 <= j < i
      ensures b[j] != '\n'
    {
      assert !At(b, "\n", j);
      assert b[j..j + 1] == [b[j]];
    }
  }

  /** There is only one way to cut a text into lines. */
  lemma {:induction false} LinesUnique(xs: seq<Bytes>, ys: seq<Bytes>, b: Bytes)
    requires AreLines(xs, b) && AreLines(ys, b)
    ensures xs == ys
    decreases |xs|
  {
    if |xs| == 0 || |ys| == 0 {
      EmptyLines(xs, b);
      EmptyLines(ys, b);
    } else {
      Uncons(xs, b);
      Uncons(ys, b);
      SameFirst(xs[0], ys[0], b, |xs| == 1, |ys| == 1);
      LinesUnique(xs[1..], ys[1..], b[|xs[0]|..]);
      assert xs == [xs[0]] + xs[1..] && ys == [ys[0]] + ys[1..];
    }
  }

  lemma EmptyLines(xs: seq<Bytes>, b: Bytes)
    requires AreLines(xs, b)
    ensures |xs| == 0 <==> |b| == 0
  {
    if |xs| > 0 {
      assert |xs[|xs| - 1]| > 0;
    }
  }

  lemma Uncons(xs: seq<Bytes>, b: Bytes)
    requires AreLines(xs, b) && |xs| > 0
    ensures |xs[0]| <= |b| && b[..|xs[0]|] == xs[0] && AreLines(xs[1..], b[|xs[0]|..])
    ensures |xs| == 1 ==> xs[0] == b
  {
    ConcatAppend([xs[0]], xs[1..]);
    ConcatOne(xs[0]);
    assert xs == [xs[0]] + xs[1..];
  }

  lemma SameFirst(x: Bytes, y: Bytes, b: Bytes, lastX: bool, lastY: bool)
    requires IsLine(x, lastX) && IsLine(y, lastY) && |x| <= |b| && |y| <= |b| && b[..|x|] == x && b[..|y|] == y
    requires lastX ==> x == b
    requires lastY ==> y == b
    ensures x == y
  {
    assert x[|x| - 1] == b[|x| - 1] && y[|y| - 1] == b[|y| - 1];
  }

  /** Drops trailing CR and LF bytes. */
  function TrimEol(l: Bytes): Bytes {
    if |l| > 0 && (l[|l| - 1] == '\r' || l[|l| - 1] == '\n') then TrimEol(l[..|l| - 1]) else l
  }

  /** Trimming keeps a prefix, drops line-ending bytes only, and drops all of them at the end. */
  lemma {:induction false} TrimEolIsPrefix(l: Bytes)
    ensures var t := TrimEol(l);
            && t <= l
            && (forall i :: |t| <= i < |l| ==> l[i] == '\r' || l[i] == '\n')
            && (|t| > 0 ==> t[|t| - 1] != '\r' && t[|t| - 1] != '\n')
  {
    if |l| > 0 && (l[|l| - 1] == '\r' || l[|l| - 1] == '\n') {
      TrimEolIsPrefix(l[..|l| - 1]);
    }
  }

  lemma TrimmedLine(l: Bytes, last: bool)
    requires IsLine(l, last)
    ensures NoLF(TrimEol(l))
  {
    TrimEolIsPrefix(l);
    assert forall i :: 0 <= i < |TrimEol(l)| ==> TrimEol(l)[i] == l[i];
  }
}
