/**
 * Ruby's `Array#sort` on strings. Which algorithm Ruby uses does not matter:
 * `SortedUnique` shows that a list of strings has only one ascending permutation.
 */
module Sorting {
  import opened Text

  predicate Sorted(s: seq<string>)
  {
    forall i, j :: 0 <= i < j < |s| ==> LessEq(s[i], s[j])
  }

  /** A string at most every element of an ascending list may go in front of it. */
  lemma SortedCons(x: string, s: seq<string>)
    requires Sorted(s)
    requires forall y :: y in s ==> LessEq(x, y)
    ensures Sorted([x] + s)
  {
    forall i, j | 0 <= i < j < |s| + 1 ensures LessEq(([x] + s)[i], ([x] + s)[j]) {
      assert ([x] + s)[j] == s[j - 1];
      if i > 0 { assert ([x] + s)[i] == s[i - 1]; }
    }
  }

  /** Put `x` into the ascending list `s` in front of the first element not below it. */
  function Insert(x: string, s: seq<string>): (r: seq<string>)
    requires Sorted(s)
    ensures Sorted(r)
    ensures multiset(r) == multiset(s) + multiset{x}
  {
    if s == [] then [x]
    else if LessEq(x, s[0]) then
      InsertFront(x, s);
      [x] + s
    else
      var rest := Insert(x, s[1..]);
      InsertBehind(x, s, rest);
      [s[0]] + rest
  }

  lemma InsertFront(x: string, s: seq<string>)
    requires Sorted(s) && s != [] && LessEq(x, s[0])
    ensures Sorted([x] + s) && multiset([x] + s) == multiset(s) + multiset{x}
  {
    assert forall y :: y in s ==> LessEq(x, y) by {
      forall y | y in s ensures LessEq(x, y) {
        LessEqTransitive(x, s[0], y);
      }
    }
    SortedCons(x, s);
  }

  lemma InsertBehind(x: string, s: seq<string>, rest: seq<string>)
    requires Sorted(s) && s != [] && !LessEq(x, s[0])
    requires Sorted(rest) && multiset(rest) == multiset(s[1..]) + multiset{x}
    ensures Sorted([s[0]] + rest) && multiset([s[0]] + rest) == multiset(s) + multiset{x}
  {
    assert s == [s[0]] + s[1..];
    LessTotal(x, s[0]);
    assert forall y :: y in rest ==> LessEq(s[0], y) by {
      forall y | y in rest ensures LessEq(s[0], y) {
        assert y in multiset(rest);
        if y != x {
          assert y in multiset(s[1..]);
        }
      }
    }
    SortedCons(s[0], rest);
  }

  /** The ascending permutation of `s`. */
  function Sort(s: seq<string>): (r: seq<string>)
    ensures Sorted(r)
  {
    if s == [] then [] else Insert(s[0], Sort(s[1..]))
  }

  /** `Sort` only reorders: every string occurs in the result as often as in the input. */
  lemma {:induction false} SortPermutes(s: seq<string>)
    ensures multiset(Sort(s)) == multiset(s)
  {
    if s != [] {
      SortPermutes(s[1..]);
      assert s == [s[0]] + s[1..];
    }
  }

  lemma HeadIsLeast(a: seq<string>, x: string)
    requires Sorted(a) && x in a
    ensures LessEq(a[0], x)
  {
    var i :| 0 <= i < |a| && a[i] == x;
    if i > 0 { assert LessEq(a[0], a[i]); }
  }

  lemma TailsAgree(a: seq<string>, b: seq<string>)
    requires a != [] && b != [] && a[0] == b[0]
    requires multiset(a) == multiset(b)
    ensures multiset(a[1..]) == multiset(b[1..])
  {
    assert a == [a[0]] + a[1..] && b == [b[0]] + b[1..];
    assert multiset(a[1..]) == multiset(a) - multiset{a[0]};
    assert multiset(b[1..]) == multiset(b) - multiset{b[0]};
  }

  /** Two ascending lists holding the same strings, counted with repetition, are equal. */
  lemma {:induction false} SortedUnique(a: seq<string>, b: seq<string>)
    requires Sorted(a) && Sorted(b)
    requires multiset(a) == multiset(b)
    ensures a == b
  {
    if a == [] {
      assert |b| == |multiset(b)| == 0;
    } else {
      assert |b| == |multiset(b)| == |a|;
      assert a[0] in multiset(b) && b[0] in multiset(a);
      HeadIsLeast(a, b[0]);
      HeadIsLeast(b, a[0]);
      LessEqAntisymmetric(a[0], b[0]);
      TailsAgree(a, b);
      SortedUnique(a[1..], b[1..]);
      assert a == [a[0]] + a[1..] && b == [b[0]] + b[1..];
    }
  }
}
