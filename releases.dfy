/**
 * The release list of `HerokuRelease::Task`: the lines of `git tag` output that
 * start with `release-`, sorted, and the current and previous release picked from it.
 */
module Releases {
  import opened Wrappers
  import opened Text
  import opened Sorting

  const Prefix: string := "release-"

  /**
   * `t[0..7] == 'release-'`. On a line shorter than eight characters Ruby's slice
   * is the whole line, which cannot equal the eight-character prefix.
   */
  predicate IsReleaseLine(t: string)
  {
    |t| >= 8 && t[..8] == Prefix
  }

  /** `select { |t| t[0..7] == 'release-' }`: every release line kept, as often as it occurs, and nothing else. */
  function SelectReleases(ls: seq<string>): (r: seq<string>)
    ensures |r| <= |ls|
    ensures forall x :: x in r <==> x in ls && IsReleaseLine(x)
  {
    if ls == [] then []
    else
      assert ls == [ls[0]] + ls[1..];
      (if IsReleaseLine(ls[0]) then [ls[0]] else []) + SelectReleases(ls[1..])
  }

  /** Every release line is kept, as often as it occurs, and nothing else. */
  lemma {:induction false} SelectedCount(ls: seq<string>, x: string)
    ensures multiset(SelectReleases(ls))[x] == if IsReleaseLine(x) then multiset(ls)[x] else 0
  {
    if ls != [] {
      SelectedCount(ls[1..], x);
      assert ls == [ls[0]] + ls[1..];
    }
  }

  /** `git_tags.split("\n").select { ... }.sort`. */
  function ReleasesOf(gitTags: string): (r: seq<string>)
    ensures Sorted(r)
    ensures forall x :: x in r ==> IsReleaseLine(x)
  {
    var selected := SelectReleases(Lines(gitTags));
    SortPermutes(selected);
    SameMembers(Sort(selected), selected);
    Sort(selected)
  }

  lemma SameMembers(a: seq<string>, b: seq<string>)
    requires multiset(a) == multiset(b)
    ensures forall x :: x in a <==> x in b
  {
    forall x ensures x in a <==> x in b {
      assert x in a <==> x in multiset(a);
      assert x in b <==> x in multiset(b);
    }
  }

  /**
   * `releases.last`: `nil` on an empty list, otherwise an entry of the list, and
   * in an ascending list one that no entry is above.
   */
  function Current(rs: seq<string>): (r: Option<string>)
    ensures r.Some? <==> rs != []
    ensures r.Some? ==> r.value in rs
    ensures r.Some? && Sorted(rs) ==> forall x :: x in rs ==> LessEq(x, r.value)
  {
    if rs == [] then None
    else
      LatestOfSorted(rs);
      Some(rs[|rs| - 1])
  }

  /**
   * `releases[-2]`: present exactly when there are at least two releases. In an ascending
   * list it is at most the last entry and at least every entry before it.
   */
  function Previous(rs: seq<string>): (r: Option<string>)
    ensures r.Some? <==> |rs| >= 2
    ensures r.Some? ==> r.value in rs[..|rs| - 1]
    ensures r.Some? && Sorted(rs) ==>
              LessEq(r.value, rs[|rs| - 1]) && forall i :: 0 <= i < |rs| - 1 ==> LessEq(rs[i], r.value)
  {
    if |rs| >= 2 then
      SecondLatestOfSorted(rs);
      assert rs[..|rs| - 1][|rs| - 2] == rs[|rs| - 2];
      Some(rs[|rs| - 2])
    else None
  }

  /** Dropping the empty pieces at the end of the split does not change how often a release line occurs. */
  lemma LinesCount(s: string, x: string)
    requires x != []
    ensures multiset(Lines(s))[x] == multiset(Fields(s))[x]
  {
    var ps := Fields(s);
    var r := Lines(s);
    var rest := ps[|r|..];
    assert ps == r + rest;
    assert x !in rest;
    assert multiset(ps) == multiset(r) + multiset(rest);
  }

  /**
   * The release list is ascending and holds exactly the release lines of the
   * `git tag` output, each as often as it occurs there; no other line.
   */
  lemma ReleasesSelected(gitTags: string)
    ensures Sorted(ReleasesOf(gitTags))
    ensures forall x :: multiset(ReleasesOf(gitTags))[x] ==
                          if IsReleaseLine(x) then multiset(Fields(gitTags))[x] else 0
    ensures forall x :: x in ReleasesOf(gitTags) <==> x in Fields(gitTags) && IsReleaseLine(x)
  {
    forall x ensures multiset(ReleasesOf(gitTags))[x] == if IsReleaseLine(x) then multiset(Fields(gitTags))[x] else 0 {
      ReleasesCount(gitTags, x);
    }
    forall x ensures x in ReleasesOf(gitTags) <==> x in Fields(gitTags) && IsReleaseLine(x) {
      ReleaseMember(gitTags, x);
    }
  }

  lemma ReleasesCount(gitTags: string, x: string)
    ensures multiset(ReleasesOf(gitTags))[x] == if IsReleaseLine(x) then multiset(Fields(gitTags))[x] else 0
  {
    SortPermutes(SelectReleases(Lines(gitTags)));
    SelectedCount(Lines(gitTags), x);
    if IsReleaseLine(x) { LinesCount(gitTags, x); }
  }

  lemma ReleaseMember(gitTags: string, x: string)
    ensures x in ReleasesOf(gitTags) <==> x in Fields(gitTags) && IsReleaseLine(x)
  {
    var rs := ReleasesOf(gitTags);
    ReleasesCount(gitTags, x);
    assert x in rs <==> multiset(rs)[x] > 0;
    assert x in Fields(gitTags) <==> multiset(Fields(gitTags))[x] > 0;
  }

  /**
   * The release list is the only ascending list with that content: any ascending
   * list holding each release line of the output as often as it occurs there is it.
   */
  lemma ReleasesDetermined(gitTags: string, rs: seq<string>)
    requires Sorted(rs)
    requires forall x :: multiset(rs)[x] == if IsReleaseLine(x) then multiset(Fields(gitTags))[x] else 0
    ensures rs == ReleasesOf(gitTags)
  {
    ReleasesSelected(gitTags);
    assert multiset(rs) == multiset(ReleasesOf(gitTags));
    SortedUnique(rs, ReleasesOf(gitTags));
  }

  /**
   * There is a current release exactly when the output has a release line, and it
   * is the latest of them in string order.
   */
  lemma CurrentIsLatest(gitTags: string)
    ensures Current(ReleasesOf(gitTags)).Some? <==> exists x :: x in Fields(gitTags) && IsReleaseLine(x)
    ensures Current(ReleasesOf(gitTags)).Some? ==>
              var c := Current(ReleasesOf(gitTags)).value;
              c in Fields(gitTags) && IsReleaseLine(c) &&
              forall x :: x in Fields(gitTags) && IsReleaseLine(x) ==> LessEq(x, c)
  {
    var rs := ReleasesOf(gitTags);
    if exists x :: x in Fields(gitTags) && IsReleaseLine(x) {
      var x :| x in Fields(gitTags) && IsReleaseLine(x);
      ReleaseMember(gitTags, x);
    }
    if rs != [] {
      var c := rs[|rs| - 1];
      assert c in rs;
      ReleaseMember(gitTags, c);
      forall x | x in Fields(gitTags) && IsReleaseLine(x) ensures LessEq(x, c) {
        ReleaseMember(gitTags, x);
        LastIsLatest(rs, x);
      }
    }
  }

  lemma LastIsLatest(rs: seq<string>, x: string)
    requires Sorted(rs) && x in rs
    ensures LessEq(x, rs[|rs| - 1])
  {
    var i :| 0 <= i < |rs| && rs[i] == x;
    if i < |rs| - 1 { assert LessEq(rs[i], rs[|rs| - 1]); }
  }

  lemma LatestOfSorted(rs: seq<string>)
    requires rs != []
    ensures Sorted(rs) ==> forall x :: x in rs ==> LessEq(x, rs[|rs| - 1])
  {
    if Sorted(rs) {
      forall x | x in rs ensures LessEq(x, rs[|rs| - 1]) {
        LastIsLatest(rs, x);
      }
    }
  }

  lemma SecondLatestOfSorted(rs: seq<string>)
    requires |rs| >= 2
    ensures Sorted(rs) ==>
              LessEq(rs[|rs| - 2], rs[|rs| - 1]) && forall i :: 0 <= i < |rs| - 1 ==> LessEq(rs[i], rs[|rs| - 2])
  {
    if Sorted(rs) {
      assert LessEq(rs[|rs| - 2], rs[|rs| - 1]);
      forall i | 0 <= i < |rs| - 1 ensures LessEq(rs[i], rs[|rs| - 2]) {
        if i < |rs| - 2 { assert LessEq(rs[i], rs[|rs| - 2]); }
      }
    }
  }

  predicate Distinct(ls: seq<string>)
  {
    forall i, j :: 0 <= i < j < |ls| ==> ls[i] != ls[j]
  }

  lemma {:induction false} DistinctOnce(ls: seq<string>, x: string)
    requires Distinct(ls)
    ensures multiset(ls)[x] <= 1
  {
    if ls != [] {
      DistinctOnce(ls[1..], x);
      assert ls == [ls[0]] + ls[1..];
      if ls[0] == x { assert x !in ls[1..]; }
    }
  }

  lemma LastTwoDiffer(rs: seq<string>)
    requires |rs| >= 2 && multiset(rs)[rs[|rs| - 1]] <= 1
    ensures rs[|rs| - 2] != rs[|rs| - 1]
  {
    assert rs == rs[..|rs| - 2] + [rs[|rs| - 2], rs[|rs| - 1]];
  }

  /** `git tag` names each tag once, so the previous release is strictly older than the current one. */
  lemma PreviousStrictlyOlder(gitTags: string)
    requires Distinct(Fields(gitTags))
    requires Previous(ReleasesOf(gitTags)).Some?
    ensures Less(Previous(ReleasesOf(gitTags)).value, Current(ReleasesOf(gitTags)).value)
  {
    var rs := ReleasesOf(gitTags);
    var c := rs[|rs| - 1];
    assert multiset(rs)[c] <= 1 by {
      ReleasesCount(gitTags, c);
      DistinctOnce(Fields(gitTags), c);
    }
    LastTwoStrict(rs);
    LastTwo(rs);
  }

  lemma LastTwo(rs: seq<string>)
    requires |rs| >= 2
    ensures Previous(rs) == Some(rs[|rs| - 2]) && Current(rs) == Some(rs[|rs| - 1])
  {
  }

  lemma LastTwoStrict(rs: seq<string>)
    requires Sorted(rs) && |rs| >= 2 && multiset(rs)[rs[|rs| - 1]] <= 1
    ensures Less(rs[|rs| - 2], rs[|rs| - 1])
  {
    LastTwoDiffer(rs);
    assert LessEq(rs[|rs| - 2], rs[|rs| - 1]);
  }

  /** Every release other than the latest is at most the previous one. */
  lemma OthersBelowPrevious(gitTags: string)
    requires Previous(ReleasesOf(gitTags)).Some?
    ensures forall x :: x in Fields(gitTags) && IsReleaseLine(x) && x != Current(ReleasesOf(gitTags)).value
                        ==> LessEq(x, Previous(ReleasesOf(gitTags)).value)
  {
    ReleasesSelected(gitTags);
    BelowPrevious(ReleasesOf(gitTags));
  }

  lemma BelowPrevious(rs: seq<string>)
    requires Sorted(rs) && Previous(rs).Some?
    ensures forall x :: x in rs && x != Current(rs).value ==> LessEq(x, Previous(rs).value)
  {
    forall x | x in rs && x != rs[|rs| - 1] ensures LessEq(x, rs[|rs| - 2]) {
      var i :| 0 <= i < |rs| && rs[i] == x;
      if i < |rs| - 2 { assert LessEq(rs[i], rs[|rs| - 2]); }
    }
  }

  /**
   * After `rollback`, with every tag named once, the release deployed is the new
   * current release: once the latest tag is gone, the previous release is the latest.
   */
  lemma RollbackRestoresPrevious(before: string, after: string)
    requires Distinct(Fields(before))
    requires Previous(ReleasesOf(before)).Some?
    requires forall x :: x in Fields(after) && IsReleaseLine(x) <==>
               x in Fields(before) && IsReleaseLine(x) && x != Current(ReleasesOf(before)).value
    ensures Current(ReleasesOf(after)) == Previous(ReleasesOf(before))
  {
    var rs := ReleasesOf(before);
    var p, c := Previous(rs).value, Current(rs).value;
    PreviousStrictlyOlder(before);
    LessIrreflexive(p);
    ReleasesSelected(before);
    assert p in rs;
    assert p in Fields(after) && IsReleaseLine(p);
    CurrentIsLatest(after);
    var c2 := Current(ReleasesOf(after)).value;
    OthersBelowPrevious(before);
    assert LessEq(c2, p);
    assert LessEq(p, c2);
    LessEqAntisymmetric(c2, p);
  }
}
