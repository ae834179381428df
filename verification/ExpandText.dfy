/**
 * The expander on text: what every piece of a document becomes, from any lexical state. Together these laws say
 * what a whole document expands to, without the lexer's own definitions.
 */
module ExpandText {
  import opened Common
  import opened Expand

  lemma Head(c: char, s: string)
    ensures ([c] + s)[0] == c && ([c] + s)[1..] == s && ([c] + s)[..1] == [c]
  {
  }

  // ---- lines, quotes and comments ----

  /** A line break is copied and ends comment and quotes, whatever the state. */
  lemma LineBreak(resolve: string -> Result, lex: Lex, s: string)
    ensures Expanded(resolve, lex, ['\n'] + s) == Prefix("\n", Expanded(resolve, Lex(false, Plain, Some('\n')), s))
  {
    Head('\n', s);
  }

  /** Outside quotes and comments, a hash opens a comment exactly at the start of a line or after white space. */
  lemma HashOutside(resolve: string -> Result, prev: Option<char>, s: string)
    ensures Expanded(resolve, Lex(false, Plain, prev), ['#'] + s)
         == Prefix("#", Expanded(resolve, Lex(prev.None? || prev.value in {' ', '\t', '\n'}, Plain, Some('#')), s))
  {
    Head('#', s);
  }

  /** Inside quotes it is copied and opens none. */
  lemma HashQuoted(resolve: string -> Result, quote: Quote, prev: Option<char>, s: string)
    requires quote != Plain
    ensures Expanded(resolve, Lex(false, quote, prev), ['#'] + s) == Prefix("#", Expanded(resolve, Lex(false, quote, Some('#')), s))
  {
    Head('#', s);
  }

  /** A quotation mark outside quotes opens its kind. */
  lemma QuoteOpens(resolve: string -> Result, prev: Option<char>, s: string)
    ensures Expanded(resolve, Lex(false, Plain, prev), ['\''] + s) == Prefix("'", Expanded(resolve, Lex(false, Single, Some('\'')), s))
    ensures Expanded(resolve, Lex(false, Plain, prev), ['"'] + s) == Prefix("\"", Expanded(resolve, Lex(false, Double, Some('"')), s))
  {
    Head('\'', s);
    Head('"', s);
  }

  /** It closes quotes of its kind and not of the other, where it is not escaped. */
  lemma QuoteCloses(resolve: string -> Result, prev: Option<char>, s: string)
    ensures (|s| == 0 || s[0] != '\'') ==>
              Expanded(resolve, Lex(false, Single, prev), ['\''] + s) == Prefix("'", Expanded(resolve, Lex(false, Plain, Some('\'')), s))
    ensures Expanded(resolve, Lex(false, Double, prev), ['"'] + s) == Prefix("\"", Expanded(resolve, Lex(false, Plain, Some('"')), s))
    ensures Expanded(resolve, Lex(false, Single, prev), ['"'] + s) == Prefix("\"", Expanded(resolve, Lex(false, Single, Some('"')), s))
    ensures Expanded(resolve, Lex(false, Double, prev), ['\''] + s) == Prefix("'", Expanded(resolve, Lex(false, Double, Some('\'')), s))
  {
    Head('\'', s);
    Head('"', s);
  }

  /** A doubled mark in single quotes, and a backslash and the byte after it in double quotes, are copied as they are. */
  lemma Escapes(resolve: string -> Result, prev: Option<char>, c: char, s: string)
    ensures Expanded(resolve, Lex(false, Single, prev), ['\'', '\''] + s)
         == Prefix(['\'', '\''], Expanded(resolve, Lex(false, Single, Some('\'')), s))
    ensures Expanded(resolve, Lex(false, Double, prev), ['\\', c] + s)
         == Prefix(['\\', c], Expanded(resolve, Lex(false, Double, Some(c)), s))
  {
    var t, u := ['\'', '\''] + s, ['\\', c] + s;
    assert t[0] == '\'' && t[1] == '\'' && t[2..] == s && t[..2] == ['\'', '\''];
    assert u[0] == '\\' && u[1] == c && u[2..] == s && u[..2] == ['\\', c];
  }

  /** Any other byte that is not a dollar sign is copied, and the state stays. */
  lemma Ordinary(resolve: string -> Result, lex: Lex, c: char, s: string)
    requires !lex.comment && c !in {'\n', '$', '#', '\'', '"'} && (lex.quote == Double && c == '\\' ==> s == "")
    ensures Expanded(resolve, lex, [c] + s) == Prefix([c], Expanded(resolve, lex.(prev := Some(c)), s))
  {
    Head(c, s);
  }

  // ---- dollar signs ----

  /** In a comment a dollar sign means nothing. */
  lemma DollarInComment(resolve: string -> Result, lex: Lex, s: string)
    requires lex.comment
    ensures Expanded(resolve, lex, ['$'] + s) == Prefix("$", Expanded(resolve, lex.(prev := Some('$')), s))
  {
    Head('$', s);
  }

  /** Elsewhere, quoted or not: two are one, and one before anything else but a brace is itself. */
  lemma DollarAlone(resolve: string -> Result, lex: Lex, s: string)
    requires !lex.comment
    ensures Expanded(resolve, lex, ['$', '$'] + s) == Prefix("$", Expanded(resolve, lex.(prev := Some('$')), s))
    ensures (|s| == 0 || s[0] !in {'$', '{'}) ==>
              Expanded(resolve, lex, ['$'] + s) == Prefix("$", Expanded(resolve, lex.(prev := Some('$')), s))
  {
    var t := ['$', '$'] + s;
    assert t[0] == '$' && t[1] == '$' && t[2..] == s;
    Head('$', s);
    assert |s| > 0 ==> (['$'] + s)[1] == s[0];
  }

  /** A reference is what is between the braces, up to the first closing one, and becomes what that resolves to. */
  lemma ReferenceBecomes(resolve: string -> Result, lex: Lex, ref: string, s: string)
    requires !lex.comment && '}' !in ref
    ensures Expanded(resolve, lex, ['$', '{'] + ref + ['}'] + s)
         == match resolve(ref)
            case Err(e) => Err(e)
            case Ok(value) => Prefix(value, Expanded(resolve, lex.(prev := Some('}')), s))
  {
    var t, n := ['$', '{'] + ref + ['}'] + s, |ref| + 3;
    assert t[0] == '$' && t[1] == '{' && t[n - 1] == '}';
    assert forall i :: 0 <= i < |ref| ==> t[i + 2] == ref[i];
    assert forall i :: 2 <= i < n - 1 ==> t[i] == ref[i - 2];
    FirstBrace(t, n - 1);
    assert t[2..n - 1] == ref && t[n..] == s;
    assert ActionAt(lex, t) == Reference(n);
  }

  lemma FirstBrace(t: string, n: nat)
    requires n < |t| && t[n] == '}' && forall i :: 0 <= i < n ==> t[i] != '}'
    ensures ClosingBrace(t) == Some(n)
  {
    var r := ClosingBrace(t);
    assert r.Some? && !(r.value < n) && !(n < r.value);
  }

  /** Without a closing brace the whole expansion fails. */
  lemma Unclosed(resolve: string -> Result, lex: Lex, s: string)
    requires !lex.comment && '}' !in s
    ensures Expanded(resolve, lex, ['$', '{'] + s) == Err(Unterminated)
  {
    var t := ['$', '{'] + s;
    assert t[0] == '$' && t[1] == '{' && forall i :: 2 <= i < |t| ==> t[i] == s[i - 2];
    assert ClosingBrace(t).None?;
  }

  // ---- a line with a comment ----

  /** Text without line breaks, quotes, hashes and dollar signs. */
  ghost predicate Bare(text: string) {
    forall i :: 0 <= i < |text| ==> text[i] !in {'\n', '$', '#', '\'', '"'}
  }

  function Last(prev: Option<char>, text: string): Option<char> {
    if |text| == 0 then prev else Some(text[|text| - 1])
  }

  lemma {:induction false} BareCopied(resolve: string -> Result, prev: Option<char>, text: string, s: string)
    requires Bare(text)
    ensures Expanded(resolve, Lex(false, Plain, prev), text + s) == Prefix(text, Expanded(resolve, Lex(false, Plain, Last(prev, text)), s))
    decreases |text|
  {
    if |text| == 0 {
      assert text + s == s;
      NoPrefix(Expanded(resolve, Lex(false, Plain, prev), s));
    } else {
      var c, rest := text[0], text[1..];
      assert text + s == [c] + (rest + s) && text == [c] + rest;
      Ordinary(resolve, Lex(false, Plain, prev), c, rest + s);
      BareCopied(resolve, Some(c), rest, s);
      PrefixTwice([c], rest, Expanded(resolve, Lex(false, Plain, Last(prev, text)), s));
    }
  }

  lemma NoPrefix(r: Result)
    ensures Prefix("", r) == r
  {
    if r.Ok? {
      assert "" + r.text == r.text;
    }
  }

  /**
   * A line with some text, a hash, anything and its end: after nothing or white space the hash and all behind it are
   * copied, references included, and the next line starts afresh; after anything else it is a byte like others.
   */
  lemma {:induction false} CommentOnLine(resolve: string -> Result, prev: Option<char>, lead: string, text: string, s: string)
    requires Bare(lead) && '\n' !in text
    ensures var before, line := Last(prev, lead), lead + (['#'] + (text + (['\n'] + s)));
            if before.None? || before.value in {' ', '\t', '\n'}
            then Expanded(resolve, Lex(false, Plain, prev), line)
                 == Prefix(lead, Prefix("#", Prefix(text, Prefix("\n", Expanded(resolve, Lex(false, Plain, Some('\n')), s)))))
            else Expanded(resolve, Lex(false, Plain, prev), line)
                 == Prefix(lead, Prefix("#", Expanded(resolve, Lex(false, Plain, Some('#')), text + (['\n'] + s))))
  {
    var rest := text + (['\n'] + s);
    BareCopied(resolve, prev, lead, ['#'] + rest);
    HashOutside(resolve, Last(prev, lead), rest);
    var inside := Lex(true, Plain, Some('#'));
    if |text| == 0 {
      assert rest == ['\n'] + s;
      LineBreak(resolve, inside, s);
      NoPrefix(Prefix("\n", Expanded(resolve, Lex(false, Plain, Some('\n')), s)));
    } else {
      CommentVerbatim(resolve, inside, text, ['\n'] + s);
      LineBreak(resolve, inside.(prev := Some(text[|text| - 1])), s);
    }
  }

  // ---- references ----

  /** The first ":-" of the reference is right after the name. */
  ghost predicate CutsAt(ref: string, n: nat) {
    && n + 2 <= |ref| && ref[n] == ':' && ref[n + 1] == '-'
    && forall i :: 0 <= i < n ==> !(ref[i] == ':' && ref[i + 1] == '-')
  }

  lemma FirstCut(ref: string, n: nat)
    requires CutsAt(ref, n)
    ensures Cut(ref) == Some(n)
  {
    var r := Cut(ref);
    assert r.Some? && !(r.value < n) && !(n < r.value);
  }

  /**
   * What every reference resolves to: nothing for an empty one; the file for a path; otherwise the variable named
   * before the first ":-" if it is set and not empty, and only then what is behind it; without a default an
   * error with the name.
   */
  lemma ResolvesTo(lookup: string -> Option<string>, readFile: string -> Result, ref: string, n: nat)
    ensures ref == "" ==> Resolve(lookup, readFile, ref) == Err(EmptyReference)
    ensures "file:" <= ref ==> Resolve(lookup, readFile, ref) == readFile(ref[5..])
    ensures !("file:" <= ref) && CutsAt(ref, n) ==>
              Resolve(lookup, readFile, ref) == if lookup(ref[..n]).Some? && lookup(ref[..n]).value != "" then Ok(lookup(ref[..n]).value)
                                                else Ok(ref[n + 2..])
    ensures !("file:" <= ref) && ref != "" && (forall i: nat :: !CutsAt(ref, i)) ==>
              Resolve(lookup, readFile, ref) == if lookup(ref).Some? && lookup(ref).value != "" then Ok(lookup(ref).value)
                                                else Err(Unset(ref))
  {
    if CutsAt(ref, n) {
      FirstCut(ref, n);
    }
    if Cut(ref).Some? {
      assert CutsAt(ref, Cut(ref).value);
    }
  }
}
