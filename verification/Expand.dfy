/**
 * The expander of ${...} references in a config document, with its YAML-aware lexer. Looking up
 * variables and reading files are parameters.
 */
module Expand {
  import opened Common

  datatype Error = Unterminated | EmptyReference | Unset(name: string) | File(path: string)

  datatype Result = Ok(text: string) | Err(error: Error)

  datatype Quote = Plain | Single | Double

  /** Where the lexer is; `prev` is the byte before, None at the start of the document. */
  datatype Lex = Lex(comment: bool, quote: Quote, prev: Option<char>)

  const START := Lex(false, Plain, None)

  /** What one turn of the loop does at a position. */
  datatype Action = Copy(n: nat) | Dollar | Reference(n: nat) | Broken

  /** A comment starts at the beginning of a line or after white space. */
  predicate OpensComment(prev: Option<char>) {
    prev.None? || prev.value == ' ' || prev.value == '\t' || prev.value == '\n'
  }

  function QuoteOf(c: char): Quote {
    if c == '\'' then Single else if c == '"' then Double else Plain
  }

  /** A two-byte escape inside a quoted scalar. */
  predicate Pair(lex: Lex, s: string)
    requires |s| > 0
  {
    && s[0] != '\n' && !lex.comment && |s| > 1
    && ((lex.quote == Single && s[0] == '\'' && s[1] == '\'') || (lex.quote == Double && s[0] == '\\'))
  }

  /** The lexical state once byte `c` has been seen, `c` not starting a pair. */
  function See(lex: Lex, c: char): Lex {
    if c == '\n' then Lex(false, Plain, Some(c))
    else if lex.comment then lex.(prev := Some(c))
    else if lex.quote != Plain then Lex(false, if QuoteOf(c) == lex.quote then Plain else lex.quote, Some(c))
    else if QuoteOf(c) != Plain then Lex(false, QuoteOf(c), Some(c))
    else Lex(c == '#' && OpensComment(lex.prev), Plain, Some(c))
  }

  function ClosingBrace(s: string): (r: Option<nat>)
    ensures r.Some? ==> r.value < |s| && s[r.value] == '}' && forall i :: 0 <= i < r.value ==> s[i] != '}'
    ensures r.None? ==> forall i :: 0 <= i < |s| ==> s[i] != '}'
  {
    if |s| == 0 then None
    else if s[0] == '}' then Some(0)
    else match ClosingBrace(s[1..]) case None => None case Some(i) => Some(i + 1)
  }

  function ActionAt(lex: Lex, s: string): (a: Action)
    requires |s| > 0
    ensures a.Copy? ==> 1 <= a.n <= 2 && a.n <= |s|
    ensures a.Dollar? ==> |s| >= 2 && s[0] == '$'
    ensures a.Reference? ==> 3 <= a.n <= |s| && s[0] == '$' && s[1] == '{' && s[a.n - 1] == '}'
  {
    if Pair(lex, s) then Copy(2)
    else if See(lex, s[0]).comment || s[0] != '$' then Copy(1)
    else if |s| > 1 && s[1] == '$' then Dollar
    else if |s| == 1 || s[1] != '{' then Copy(1)
    else
      match ClosingBrace(s)
      case None => Broken
      case Some(end) => assert end >= 2; Reference(end + 1)
  }

  function NextLex(lex: Lex, s: string): Lex
    requires |s| > 0
  {
    match ActionAt(lex, s)
    case Copy(n) => if n == 2 then lex.(prev := Some(s[1])) else See(lex, s[0])
    case Dollar => See(lex, '$')
    case Reference(_) => See(lex, '$').(prev := Some('}'))
    case Broken => lex
  }

  function Prefix(head: string, r: Result): Result {
    match r case Ok(text) => Ok(head + text) case Err(_) => r
  }

  /** The expanded document, from a position and a lexical state on. */
  function Expanded(resolve: string -> Result, lex: Lex, s: string): Result
    decreases |s|
  {
    if |s| == 0 then Ok("")
    else
      match ActionAt(lex, s)
      case Copy(n) => Prefix(s[..n], Expanded(resolve, NextLex(lex, s), s[n..]))
      case Dollar => Prefix("$", Expanded(resolve, NextLex(lex, s), s[2..]))
      case Broken => Err(Unterminated)
      case Reference(n) =>
        match resolve(s[2..n - 1])
        case Err(e) => Err(e)
        case Ok(value) => Prefix(value, Expanded(resolve, NextLex(lex, s), s[n..]))
  }

  lemma PrefixTwice(a: string, b: string, r: Result)
    ensures Prefix(a, Prefix(b, r)) == Prefix(a + b, r)
  {
    if r.Ok? {
      assert a + (b + r.text) == (a + b) + r.text;
    }
  }

  /** After `i` bytes the loop has written `out` and is in state `lex`. */
  ghost predicate Progress(resolve: string -> Result, raw: string, i: nat, lex: Lex, out: string) {
    i <= |raw| && Expanded(resolve, START, raw) == Prefix(out, Expanded(resolve, lex, raw[i..]))
  }

  lemma {:induction false} CopyStep(resolve: string -> Result, raw: string, i: nat, lex: Lex, out: string, n: nat)
    requires Progress(resolve, raw, i, lex, out) && i < |raw| && ActionAt(lex, raw[i..]) == Copy(n)
    ensures i + n <= |raw| && Progress(resolve, raw, i + n, NextLex(lex, raw[i..]), out + raw[i..i + n])
  {
    var s := raw[i..];
    PrefixTwice(out, s[..n], Expanded(resolve, NextLex(lex, s), s[n..]));
    assert s[n..] == raw[i + n..] && s[..n] == raw[i..i + n];
  }

  lemma {:induction false} DollarStep(resolve: string -> Result, raw: string, i: nat, lex: Lex, out: string)
    requires Progress(resolve, raw, i, lex, out) && i < |raw| && ActionAt(lex, raw[i..]) == Dollar
    ensures Progress(resolve, raw, i + 2, NextLex(lex, raw[i..]), out + "$")
  {
    var s := raw[i..];
    PrefixTwice(out, "$", Expanded(resolve, NextLex(lex, s), s[2..]));
    assert s[2..] == raw[i + 2..];
  }

  lemma {:induction false} ReferenceStep(resolve: string -> Result, raw: string, i: nat, lex: Lex, out: string, n: nat)
    requires Progress(resolve, raw, i, lex, out) && i < |raw| && ActionAt(lex, raw[i..]) == Reference(n)
    ensures 3 <= n && i + n <= |raw|
    ensures var value := resolve(raw[i + 2..i + n - 1]);
            && (value.Err? ==> Expanded(resolve, START, raw) == value)
            && (value.Ok? ==> Progress(resolve, raw, i + n, NextLex(lex, raw[i..]), out + value.text))
  {
    var s := raw[i..];
    assert s[2..n - 1] == raw[i + 2..i + n - 1] && s[n..] == raw[i + n..];
    var value := resolve(s[2..n - 1]);
    if value.Ok? {
      PrefixTwice(out, value.text, Expanded(resolve, NextLex(lex, s), s[n..]));
    }
  }

  /** The byte before position `i`. */
  function Before(raw: string, i: nat): Option<char>
    requires i <= |raw|
  {
    if i == 0 then None else Some(raw[i - 1])
  }

  /** The switch at the top of a turn: the lexical flags after byte `i`, unless it starts a pair. */
  method Switch(raw: string, i: nat, inComment: bool, quote: Quote) returns (comment: bool, q: Quote, pair: bool)
    requires i < |raw|
    ensures pair <==> Pair(Lex(inComment, quote, Before(raw, i)), raw[i..])
    ensures !pair ==> Lex(comment, q, Some(raw[i])) == See(Lex(inComment, quote, Before(raw, i)), raw[i])
  {
    var c := raw[i];
    comment, q, pair := inComment, quote, false;
    if c == '\n' {
      comment, q := false, Plain;
    } else if inComment {
    } else if quote != Plain {
      if c == '\'' && quote == Single && i + 1 < |raw| && raw[i + 1] == '\'' {
        pair := true;
      } else if c == '\\' && quote == Double && i + 1 < |raw| {
        pair := true;
      } else if QuoteOf(c) == quote {
        q := Plain;
      }
    } else if c == '\'' || c == '"' {
      q := QuoteOf(c);
    } else if c == '#' && (i == 0 || raw[i - 1] == ' ' || raw[i - 1] == '\t' || raw[i - 1] == '\n') {
      comment := true;
    }
  }

  /** The lexer is at position `i`, at a dollar sign it acts on. */
  ghost predicate AtDollar(resolve: string -> Result, raw: string, i: nat, out: string, lex: Lex) {
    && i < |raw| && raw[i] == '$' && Progress(resolve, raw, i, lex, out)
    && !Pair(lex, raw[i..]) && !See(lex, '$').comment
  }

  /** A `${`: the reference is resolved, or the whole expansion fails. */
  method TakeReference(resolve: string -> Result, raw: string, i: nat, out: string, ghost lex: Lex)
    returns (out': string, i': nat, failure: Option<Error>)
    requires AtDollar(resolve, raw, i, out, lex) && i + 1 < |raw| && raw[i + 1] == '{'
    ensures failure.Some? ==> Expanded(resolve, START, raw) == Err(failure.value)
    ensures failure.None? ==>
              i < i' <= |raw| && Progress(resolve, raw, i', See(lex, '$').(prev := Before(raw, i')), out')
  {
    var end := ClosingBrace(raw[i..]);
    if end.None? {
      assert ActionAt(lex, raw[i..]) == Broken;
      return out, i, Some(Unterminated);
    }
    var n := end.value + 1;
    assert ActionAt(lex, raw[i..]) == Reference(n);
    ReferenceStep(resolve, raw, i, lex, out, n);
    var value := resolve(raw[i + 2..i + n - 1]);
    if value.Err? {
      return out, i, Some(value.error);
    }
    assert raw[i + n - 1] == '}';
    return out + value.text, i + n, None;
  }

  /** A dollar sign the lexer acts on: an escape, a lone dollar or a reference. */
  method TakeDollar(resolve: string -> Result, raw: string, i: nat, out: string, ghost lex: Lex)
    returns (out': string, i': nat, failure: Option<Error>)
    requires AtDollar(resolve, raw, i, out, lex)
    ensures failure.Some? ==> Expanded(resolve, START, raw) == Err(failure.value)
    ensures failure.None? ==>
              i < i' <= |raw| && Progress(resolve, raw, i', See(lex, '$').(prev := Before(raw, i')), out')
  {
    if i + 1 < |raw| && raw[i + 1] == '$' {
      DollarStep(resolve, raw, i, lex, out);
      return out + "$", i + 2, None;
    }
    if i + 1 >= |raw| || raw[i + 1] != '{' {
      CopyStep(resolve, raw, i, lex, out, 1);
      return out + raw[i..i + 1], i + 1, None;
    }
    out', i', failure := TakeReference(resolve, raw, i, out, lex);
  }

  /** The loop over the document, with its comment and quote flags. */
  method ExpandDocument(resolve: string -> Result, raw: string) returns (r: Result)
    ensures r == Expanded(resolve, START, raw)
  {
    var out, i := "", 0;
    var inComment, quote := false, Plain;
    while i < |raw|
      invariant i <= |raw| && Progress(resolve, raw, i, Lex(inComment, quote, Before(raw, i)), out)
      decreases |raw| - i
    {
      ghost var lex := Lex(inComment, quote, Before(raw, i));
      var comment, q, pair := Switch(raw, i, inComment, quote);
      if pair {
        CopyStep(resolve, raw, i, lex, out, 2);
        out, i := out + raw[i..i + 2], i + 2;
        continue;
      }
      inComment, quote := comment, q;
      if inComment || raw[i] != '$' {
        CopyStep(resolve, raw, i, lex, out, 1);
        out, i := out + raw[i..i + 1], i + 1;
        continue;
      }
      var failure;
      out, i, failure := TakeDollar(resolve, raw, i, out, lex);
      if failure.Some? {
        return Err(failure.value);
      }
    }
    return Ok(out);
  }

  // ---- escaping ----

  /** Doubles every dollar sign the lexer would act on. */
  function Escaped(lex: Lex, s: string): string
    decreases |s|
  {
    if |s| == 0 then ""
    else if Pair(lex, s) then s[..2] + Escaped(lex.(prev := Some(s[1])), s[2..])
    else
      var next := See(lex, s[0]);
      (if s[0] == '$' && !next.comment then "$$" else s[..1]) + Escaped(next, s[1..])
  }

  lemma EscapedHead(lex: Lex, s: string)
    ensures |s| == 0 <==> |Escaped(lex, s)| == 0
    ensures |s| > 0 ==> Escaped(lex, s)[0] == s[0]
  {
  }

  /** Escaping hides nothing from the lexer: it takes the same pairs. */
  lemma EscapedPair(lex: Lex, s: string)
    requires |s| > 0
    ensures Pair(lex, Escaped(lex, s)) <==> Pair(lex, s)
  {
    EscapedHead(lex, s);
    if !Pair(lex, s) {
      EscapedHead(See(lex, s[0]), s[1..]);
    }
  }

  /**
   * For every document and every resolver, also one that always fails: escaping a document and
   * expanding it gives the document back, and resolves nothing.
   */
  lemma {:induction false} EscapeRoundTrip(resolve: string -> Result, lex: Lex, s: string)
    ensures Expanded(resolve, lex, Escaped(lex, s)) == Ok(s)
    decreases |s|
  {
    if |s| > 0 {
      var t := Escaped(lex, s);
      EscapedHead(lex, s);
      EscapedPair(lex, s);
      if Pair(lex, s) {
        EscapeRoundTrip(resolve, lex.(prev := Some(s[1])), s[2..]);
        assert t[..2] == s[..2] && t[2..] == Escaped(lex.(prev := Some(s[1])), s[2..]);
        assert s == s[..2] + s[2..];
      } else {
        var next := See(lex, s[0]);
        EscapeRoundTrip(resolve, next, s[1..]);
        assert s == s[..1] + s[1..];
        if s[0] == '$' && !next.comment {
          assert t[1] == '$' && t[2..] == Escaped(next, s[1..]);
          assert s[..1] == "$";
        } else {
          assert t[..1] == s[..1] && t[1..] == Escaped(next, s[1..]);
        }
      }
    }
  }

  // ---- comments ----

  /** Inside a comment everything up to the end of the line is copied verbatim, references included. */
  lemma {:induction false} CommentVerbatim(resolve: string -> Result, lex: Lex, text: string, rest: string)
    requires lex.comment && |text| > 0 && forall i :: 0 <= i < |text| ==> text[i] != '\n'
    ensures Expanded(resolve, lex, text + rest)
            == Prefix(text, Expanded(resolve, lex.(prev := Some(text[|text| - 1])), rest))
    decreases |text|
  {
    var s := text + rest;
    assert s[0] == text[0];
    var next := lex.(prev := Some(text[0]));
    assert ActionAt(lex, s) == Copy(1) && NextLex(lex, s) == next;
    assert s[1..] == text[1..] + rest && s[..1] == text[..1];
    if |text| > 1 {
      CommentVerbatim(resolve, next, text[1..], rest);
      PrefixTwice(text[..1], text[1..], Expanded(resolve, lex.(prev := Some(text[|text| - 1])), rest));
      assert text == text[..1] + text[1..];
    } else {
      assert text[1..] + rest == rest && text[..1] == text;
    }
  }

  // ---- references ----

  /** The first ":-" splits a reference into a name and its default. */
  function Cut(ref: string): (r: Option<nat>)
    ensures r.Some? ==> r.value + 2 <= |ref| && ref[r.value] == ':' && ref[r.value + 1] == '-'
                        && forall i :: 0 <= i < r.value ==> !(ref[i] == ':' && ref[i + 1] == '-')
    ensures r.None? ==> forall i :: 0 <= i < |ref| - 1 ==> !(ref[i] == ':' && ref[i + 1] == '-')
  {
    if |ref| < 2 then None
    else if ref[0] == ':' && ref[1] == '-' then Some(0)
    else match Cut(ref[1..]) case None => None case Some(i) => Some(i + 1)
  }

  predicate IsFile(ref: string) {
    "file:" <= ref
  }

  function Resolve(lookup: string -> Option<string>, readFile: string -> Result, ref: string): Result {
    if ref == "" then Err(EmptyReference)
    else if IsFile(ref) then readFile(ref[5..])
    else
      var cut := Cut(ref);
      var name := if cut.Some? then ref[..cut.value] else ref;
      var found := lookup(name);
      if found.Some? && found.value != "" then Ok(found.value)
      else if cut.Some? then Ok(ref[cut.value + 2..])
      else Err(Unset(name))
  }

  /** A variable reference fails exactly when it has no default and the variable is unset or empty. */
  lemma ResolveFailsExactly(lookup: string -> Option<string>, readFile: string -> Result, ref: string)
    requires ref != "" && !IsFile(ref)
    ensures Resolve(lookup, readFile, ref).Err? <==>
              && (forall i :: 0 <= i < |ref| - 1 ==> !(ref[i] == ':' && ref[i + 1] == '-'))
              && (lookup(ref).None? || lookup(ref).value == "")
  {
  }
}
