/**
 * Character classes, Ruby's `split("\n")`, `strip` and string ordering (`<=>`),
 * as the release tag code uses them.
 */
module Text {

  /** Ruby's `\s` in a regular expression: space, tab, line feed, vertical tab, form feed, carriage return. */
  predicate IsSpace(c: char)
  {
    c == ' ' || c == '\t' || c == '\n' || c == '\U{B}' || c == '\U{C}' || c == '\r'
  }

  /** Ruby's `\d`: an ASCII digit. */
  predicate IsDigit(c: char)
  {
    '0' <= c <= '9'
  }

  predicate AllDigits(s: string)
  {
    forall k :: 0 <= k < |s| ==> IsDigit(s[k])
  }

  /** What `String#strip` removes at either end: NUL and the `\s` characters. */
  predicate IsStripSpace(c: char)
  {
    c == '\0' || IsSpace(c)
  }

  // ---------------------------------------------------------------------------
  // split("\n")
  // ---------------------------------------------------------------------------

  /** Every piece between line feeds, empty ones included; always at least one. */
  function Fields(s: string): (r: seq<string>)
    ensures |r| >= 1
    ensures forall i :: 0 <= i < |r| ==> '\n' !in r[i]
  {
    if s == [] then [[]]
    else
      var rest := Fields(s[1..]);
      if s[0] == '\n' then [[]] + rest
      else [[s[0]] + rest[0]] + rest[1..]
  }

  /** Pieces joined back with line feeds between them. */
  function JoinLines(ps: seq<string>): string
    requires |ps| >= 1
  {
    if |ps| == 1 then ps[0] else ps[0] + "\n" + JoinLines(ps[1..])
  }

  /** `split` with no limit drops the empty pieces at the end. */
  function DropTrailingEmpty(ps: seq<string>): (r: seq<string>)
    ensures r <= ps
    ensures r == [] || r[|r| - 1] != []
    ensures forall i :: |r| <= i < |ps| ==> ps[i] == []
  {
    if ps != [] && ps[|ps| - 1] == [] then DropTrailingEmpty(ps[..|ps| - 1]) else ps
  }

  /** Ruby's `s.split("\n")`. */
  function Lines(s: string): (r: seq<string>)
    ensures forall i :: 0 <= i < |r| ==> '\n' !in r[i]
    ensures r == [] || r[|r| - 1] != []
    ensures forall x :: x != [] ==> (x in r <==> x in Fields(s))
  {
    var ps := Fields(s);
    var r := DropTrailingEmpty(ps);
    assert ps == r + ps[|r|..];
    r
  }

  /** The pieces `Fields` cuts are exactly what lies between the line feeds. */
  lemma {:induction false} FieldsJoin(s: string)
    ensures JoinLines(Fields(s)) == s
  {
    if s != [] {
      var rest := Fields(s[1..]);
      FieldsJoin(s[1..]);
      if s[0] == '\n' {
        assert Fields(s) == [[]] + rest;
        assert JoinLines(Fields(s)) == [] + "\n" + JoinLines(rest);
      } else {
        if |rest| == 1 {
          assert JoinLines(Fields(s)) == [s[0]] + rest[0];
        } else {
          assert JoinLines(Fields(s)) == [s[0]] + rest[0] + "\n" + JoinLines(rest[1..]);
          assert JoinLines(rest) == rest[0] + "\n" + JoinLines(rest[1..]);
        }
        assert [s[0]] + s[1..] == s;
      }
    }
  }

  /** Conversely, lines without line feeds are cut back apart by `Fields`. */
  lemma {:induction false} JoinFields(ps: seq<string>)
    requires |ps| >= 1
    requires forall i :: 0 <= i < |ps| ==> '\n' !in ps[i]
    ensures Fields(JoinLines(ps)) == ps
  {
    if |ps| == 1 {
      FieldsNoBreak(ps[0]);
    } else {
      JoinFields(ps[1..]);
      FieldsPrefix(ps[0], JoinLines(ps[1..]));
      assert ps == [ps[0]] + ps[1..];
    }
  }

  lemma {:induction false} FieldsNoBreak(x: string)
    requires '\n' !in x
    ensures Fields(x) == [x]
  {
    if x != [] {
      FieldsNoBreak(x[1..]);
      assert [x[0]] + x[1..] == x;
    }
  }

  lemma {:induction false} FieldsPrefix(x: string, y: string)
    requires '\n' !in x
    ensures Fields(x + "\n" + y) == [x] + Fields(y)
  {
    if x == [] {
      assert x + "\n" + y == "\n" + y;
      assert ("\n" + y)[1..] == y;
    } else {
      assert (x + "\n" + y)[1..] == x[1..] + "\n" + y;
      FieldsPrefix(x[1..], y);
      assert [x[0]] + x[1..] == x;
    }
  }

  // ---------------------------------------------------------------------------
  // strip
  // ---------------------------------------------------------------------------

  /** Number of strip characters at the front of `s`. */
  function Leading(s: string): (n: nat)
    ensures n <= |s|
    ensures forall k :: 0 <= k < n ==> IsStripSpace(s[k])
    ensures n < |s| ==> !IsStripSpace(s[n])
  {
    if s != [] && IsStripSpace(s[0]) then 1 + Leading(s[1..]) else 0
  }

  /** Number of strip characters at the back of `s`. */
  function Trailing(s: string): (n: nat)
    ensures n <= |s|
    ensures forall k :: |s| - n <= k < |s| ==> IsStripSpace(s[k])
    ensures n < |s| ==> !IsStripSpace(s[|s| - 1 - n])
  {
    if s != [] && IsStripSpace(s[|s| - 1]) then 1 + Trailing(s[..|s| - 1]) else 0
  }

  /** `r` sits at offset `i` of `s`, with only strip characters around it. */
  predicate StripsTo(s: string, r: string, i: nat)
  {
    i + |r| <= |s| && s[i..i + |r|] == r
    && (forall k :: 0 <= k < i ==> IsStripSpace(s[k]))
    && (forall k :: i + |r| <= k < |s| ==> IsStripSpace(s[k]))
  }

  /** Ruby's `String#strip`: the middle part of `s` that neither begins nor ends with a strip character. */
  function Strip(s: string): (r: string)
    ensures r == [] || (!IsStripSpace(r[0]) && !IsStripSpace(r[|r| - 1]))
    ensures exists i :: StripsTo(s, r, i)
  {
    var i := Leading(s);
    if i == |s| then
      assert StripsTo(s, [], 0);
      []
    else
      var j := |s| - Trailing(s);
      assert i < j by { assert !IsStripSpace(s[i]); }
      assert s[i..i + (j - i)] == s[i..j];
      assert StripsTo(s, s[i..j], i);
      s[i..j]
  }

  // ---------------------------------------------------------------------------
  // String ordering
  // ---------------------------------------------------------------------------

  /**
   * `a <=> b` is -1: the first differing character is smaller in `a`, or `a` is a proper prefix of `b`.
   * Ruby compares the UTF-8 bytes; for characters that order is the order of code points used here.
   */
  predicate Less(a: string, b: string)
  {
    b != [] && (a == [] || a[0] < b[0] || (a[0] == b[0] && Less(a[1..], b[1..])))
  }

  predicate LessEq(a: string, b: string)
  {
    a == b || Less(a, b)
  }

  lemma {:induction false} LessIrreflexive(a: string)
    ensures !Less(a, a)
  {
    if a != [] { LessIrreflexive(a[1..]); }
  }

  lemma {:induction false} LessAsymmetric(a: string, b: string)
    ensures !(Less(a, b) && Less(b, a))
  {
    if a != [] && b != [] && a[0] == b[0] { LessAsymmetric(a[1..], b[1..]); }
  }

  lemma {:induction false} LessTransitive(a: string, b: string, c: string)
    requires Less(a, b) && Less(b, c)
    ensures Less(a, c)
  {
    if a != [] && a[0] == b[0] && b[0] == c[0] {
      LessTransitive(a[1..], b[1..], c[1..]);
    }
  }

  lemma {:induction false} LessTotal(a: string, b: string)
    ensures a == b || Less(a, b) || Less(b, a)
  {
    if a != [] && b != [] && a[0] == b[0] {
      LessTotal(a[1..], b[1..]);
      if a[1..] == b[1..] {
        assert a == [a[0]] + a[1..] && b == [b[0]] + b[1..];
      }
    }
  }

  /** Two strings that are each at most the other are the same string. */
  lemma LessEqAntisymmetric(a: string, b: string)
    requires LessEq(a, b) && LessEq(b, a)
    ensures a == b
  {
    LessAsymmetric(a, b);
  }

  lemma LessEqTransitive(a: string, b: string, c: string)
    requires LessEq(a, b) && LessEq(b, c)
    ensures LessEq(a, c)
  {
    if a != b && b != c { LessTransitive(a, b, c); }
  }

  /** After a common-length head, the order of two strings is decided by the heads first, then by the rests. */
  lemma {:induction false} LessAppend(a1: string, b1: string, a2: string, b2: string)
    requires |a1| == |a2|
    ensures Less(a1 + b1, a2 + b2) <==> Less(a1, a2) || (a1 == a2 && Less(b1, b2))
  {
    if a1 == [] {
      assert a1 + b1 == b1 && a2 + b2 == b2;
    } else {
      assert (a1 + b1)[0] == a1[0] && (a2 + b2)[0] == a2[0];
      assert (a1 + b1)[1..] == a1[1..] + b1 && (a2 + b2)[1..] == a2[1..] + b2;
      LessAppend(a1[1..], b1, a2[1..], b2);
      if a1[0] == a2[0] && a1[1..] == a2[1..] {
        assert a1 == [a1[0]] + a1[1..] && a2 == [a2[0]] + a2[1..];
      }
    }
  }
}
