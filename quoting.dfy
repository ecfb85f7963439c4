/**
 * `single_quote`: every `'` of the comment becomes `'\''`, so that the comment can
 * sit between single quotes in a command that `/bin/sh` reads. The partner is a
 * reader for the shell's quoting: it gives the quoted comment back unchanged.
 */
module Quoting {
  import opened Wrappers
  import opened Text
  import opened Sequences

  /** The four characters `'\''`: close the quotes, an escaped quote, open them again. */
  const EscapedQuote: string := ['\'', '\\', '\'', '\'']

  /** `string.gsub("'") { %q{'\''} }`. */
  function SingleQuote(s: string): (r: string)
    ensures |r| == |s| + 3 * multiset(s)['\'']
    ensures '\'' !in s ==> r == s
  {
    if s == [] then []
    else
      assert s == [s[0]] + s[1..];
      (if s[0] == '\'' then EscapedQuote else [s[0]]) + SingleQuote(s[1..])
  }

  lemma {:induction false} SingleQuoteConcat(a: string, b: string)
    ensures SingleQuote(a + b) == SingleQuote(a) + SingleQuote(b)
  {
    if a == [] {
      assert a + b == b;
    } else {
      var head := if a[0] == '\'' then EscapedQuote else [a[0]];
      assert (a + b)[0] == a[0] && (a + b)[1..] == a[1..] + b;
      assert SingleQuote(a + b) == head + SingleQuote(a[1..] + b);
      SingleQuoteConcat(a[1..], b);
      Assoc(head, SingleQuote(a[1..]), SingleQuote(b));
    }
  }

  /** The reverse replacement: every `'\''` becomes `'` again. */
  function Unescape(s: string): string
  {
    if s == [] then []
    else if |s| >= 4 && s[..4] == EscapedQuote then "'" + Unescape(s[4..])
    else [s[0]] + Unescape(s[1..])
  }

  /** Replacing `'\''` back with `'` recovers the comment. */
  lemma {:induction false} UnescapeSingleQuote(s: string)
    ensures Unescape(SingleQuote(s)) == s
  {
    if s != [] {
      var rest := SingleQuote(s[1..]);
      UnescapeSingleQuote(s[1..]);
      if s[0] == '\'' {
        var q := EscapedQuote + rest;
        assert SingleQuote(s) == q;
        assert q[..4] == EscapedQuote && q[4..] == rest;
        assert s == "'" + s[1..];
      } else {
        var q := [s[0]] + rest;
        assert SingleQuote(s) == q;
        assert q[0] == s[0] && q[1..] == rest;
        assert |q| >= 4 ==> q[..4][0] == s[0] != EscapedQuote[0];
        assert s == [s[0]] + s[1..];
      }
    }
  }

  /** `c` in front of the text read so far, when the reading succeeded. */
  function Cons(c: char, r: Option<string>): Option<string>
  {
    if r.Some? then Some([c] + r.value) else None
  }

  /** `s` in front of the text read so far, when the reading succeeded. */
  function Append(s: string, r: Option<string>): Option<string>
  {
    if r.Some? then Some(s + r.value) else None
  }

  /**
   * How the shell reads one word outside quotes: `'` opens a quoted part, a
   * backslash takes the next character literally, any other character that does
   * not end the word is itself. `None` when the text is not exactly one word.
   */
  function Unquoted(w: string): Option<string>
    decreases |w|, 1
  {
    if w == [] then Some([])
    else if w[0] == '\'' then InQuotes(w[1..])
    else if w[0] == '\\' then (if |w| >= 2 then Cons(w[1], Unquoted(w[2..])) else None)
    else if IsSpace(w[0]) || w[0] == '"' then None
    else Cons(w[0], Unquoted(w[1..]))
  }

  /** Inside single quotes every character is itself, up to the closing quote. */
  function InQuotes(w: string): Option<string>
    decreases |w|, 0
  {
    if w == [] then None
    else if w[0] == '\'' then Unquoted(w[1..])
    else Cons(w[0], InQuotes(w[1..]))
  }

  /** A quoted part made by `SingleQuote` is read back as the original text. */
  lemma {:induction false} ReadQuoted(s: string, rest: string)
    ensures InQuotes(SingleQuote(s) + "'" + rest) == Append(s, Unquoted(rest))
  {
    if s == [] {
      assert SingleQuote(s) + "'" + rest == "'" + rest;
      assert ("'" + rest)[1..] == rest;
      if Unquoted(rest).Some? {
        assert [] + Unquoted(rest).value == Unquoted(rest).value;
      }
    } else {
      ReadQuoted(s[1..], rest);
      ReadQuotedStep(s, rest);
    }
  }

  lemma ReadQuotedStep(s: string, rest: string)
    requires s != []
    requires InQuotes(SingleQuote(s[1..]) + "'" + rest) == Append(s[1..], Unquoted(rest))
    ensures InQuotes(SingleQuote(s) + "'" + rest) == Append(s, Unquoted(rest))
  {
    var q, x := SingleQuote(s[1..]), SingleQuote(s);
    var tail := q + "'" + rest;
    var head := if s[0] == '\'' then EscapedQuote else [s[0]];
    assert x == head + q;
    Assoc(head, q, "'");
    Assoc(head, q + "'", rest);
    if s[0] == '\'' {
      ReadEscapedQuote(tail);
    } else {
      ReadPlain(s[0], tail);
    }
    AppendCons(s, Unquoted(rest));
  }

  lemma AppendCons(s: string, r: Option<string>)
    requires s != []
    ensures Append(s, r) == Cons(s[0], Append(s[1..], r))
  {
    if r.Some? {
      assert [s[0]] + (s[1..] + r.value) == s + r.value;
    }
  }

  lemma ReadPlain(c: char, tail: string)
    requires c != '\''
    ensures InQuotes([c] + tail) == Cons(c, InQuotes(tail))
  {
    assert ([c] + tail)[1..] == tail;
  }

  /** `'\''` inside quotes: the quotes close, the escaped quote is read, the quotes open again. */
  lemma ReadEscapedQuote(tail: string)
    ensures InQuotes(EscapedQuote + tail) == Cons('\'', InQuotes(tail))
  {
    var w := EscapedQuote + tail;
    var u := ['\''] + tail;
    assert w[1..] == ['\\', '\''] + u;
    assert w[1..][2..] == u;
    assert u[1..] == tail;
    assert Unquoted(u) == InQuotes(tail);
    assert Unquoted(w[1..]) == Cons('\'', InQuotes(tail));
    assert InQuotes(w) == Unquoted(w[1..]);
  }

  /** Between single quotes, the quoted comment is one shell word whose value is the comment. */
  lemma QuotedWord(s: string)
    ensures Unquoted("'" + SingleQuote(s) + "'") == Some(s)
  {
    var q, qs := "'", SingleQuote(s);
    Assoc(q, qs, q);
    OpenQuote(qs + q);
    ReadQuoted(s, []);
    assert qs + q + [] == qs + q && s + [] == s;
  }

  lemma OpenQuote(t: string)
    ensures Unquoted("'" + t) == InQuotes(t)
  {
    assert ("'" + t)[0] == '\'' && ("'" + t)[1..] == t;
  }

  /** A prefix without quotes can share the quotes of a quoted comment. */
  lemma QuotedWordWithPrefix(p: string, s: string)
    requires '\'' !in p
    ensures Unquoted("'" + p + SingleQuote(s) + "'") == Some(p + s)
  {
    var q, qs := "'", SingleQuote(s);
    assert SingleQuote(p + s) == p + qs by {
      SingleQuoteConcat(p, s);
    }
    Assoc(q, p, qs);
    QuotedWord(p + s);
  }
}
