/**
 * The changelog of `HerokuRelease::Task`: the output of `git tag -n` is scanned
 * with the regular expression `^\s*(release-\d+-\d+)\s*(.+)$`, the entries are
 * reversed and each one is rendered as a block `- <tag>\n\n<comment>\n\n`.
 *
 * The scan is modelled with Ruby's backtracking, not as a line-by-line split:
 * `\s` matches line feeds, so both `\s*` may run over line ends, and when nothing
 * but line feeds follows a tag the engine hands back the tag's last digit to `.+`.
 */
module Changelog {
  import opened Wrappers
  import opened Text

  /** One `[release, comment]` pair of the scan. */
  datatype Entry = Entry(tag: string, comment: string)

  /** A successful attempt of the pattern: the entry and how many characters it spans. */
  datatype Match = Match(entry: Entry, len: nat)

  /** `changelog_warning`: the banner put in front of the changelog file. */
  const Warning: string := "# NOTE: this file is autogenerated by the heroku_release gem - do not hand edit\n\n"

  // ---------------------------------------------------------------------------
  // The pattern
  // ---------------------------------------------------------------------------

  /** `s` is `release-<digits>-<digits>` with its dash at `k`. */
  predicate DashAt(s: string, k: int)
  {
    8 < k < |s| - 1 && s[k] == '-' && AllDigits(s[8..k]) && AllDigits(s[k + 1..])
  }

  /** `s` is matched as a whole by `release-\d+-\d+`. */
  predicate IsTag(s: string)
  {
    |s| >= 8 && s[..8] == "release-" && exists k :: 8 < k < |s| - 1 && DashAt(s, k)
  }

  /** What every scanned entry looks like: a tag, and a comment that is one non-empty line. */
  predicate WellShaped(e: Entry)
  {
    IsTag(e.tag) && e.comment != [] && '\n' !in e.comment
  }

  /** Where a greedy `\s*` starting at `i` stops. */
  function SkipSpaces(t: string, i: nat): (j: nat)
    requires i <= |t|
    ensures i <= j <= |t|
    decreases |t| - i
  {
    if i < |t| && IsSpace(t[i]) then SkipSpaces(t, i + 1) else i
  }

  /** Where a greedy `\d+` starting at `i` stops (`i` itself when there is no digit). */
  function SkipDigits(t: string, i: nat): (j: nat)
    requires i <= |t|
    ensures i <= j <= |t|
    decreases |t| - i
  {
    if i < |t| && IsDigit(t[i]) then SkipDigits(t, i + 1) else i
  }

  /** The position of `$` after `i`: the next line feed, or the end of the text. */
  function LineEnd(t: string, i: nat): (j: nat)
    requires i <= |t|
    ensures i <= j <= |t|
    decreases |t| - i
  {
    if i < |t| && t[i] != '\n' then LineEnd(t, i + 1) else i
  }

  /**
   * The second `\s*` backtracking from its longest run (ending at `p`) towards
   * `q`: the first end after which `.+` can take a character, that is, one that
   * is not a line feed.
   */
  function CommentStart(t: string, q: nat, p: nat): (r: Option<nat>)
    requires q <= p <= |t|
    ensures r.Some? ==> q <= r.value <= p && r.value < |t|
    decreases p - q
  {
    if p < |t| && t[p] != '\n' then Some(p)
    else if p == q then None
    else CommentStart(t, q, p - 1)
  }

  /** The greedy `\s*` takes blanks only, and stops at the first character that is not one. */
  lemma {:induction false} SpacesSkipped(t: string, i: nat)
    requires i <= |t|
    ensures forall k :: i <= k < SkipSpaces(t, i) ==> IsSpace(t[k])
    ensures SkipSpaces(t, i) < |t| ==> !IsSpace(t[SkipSpaces(t, i)])
    decreases |t| - i
  {
    if i < |t| && IsSpace(t[i]) { SpacesSkipped(t, i + 1); }
  }

  /** The greedy `\d+` takes digits only, and stops at the first character that is not one. */
  lemma {:induction false} DigitsSkipped(t: string, i: nat)
    requires i <= |t|
    ensures forall k :: i <= k < SkipDigits(t, i) ==> IsDigit(t[k])
    ensures SkipDigits(t, i) < |t| ==> !IsDigit(t[SkipDigits(t, i)])
    decreases |t| - i
  {
    if i < |t| && IsDigit(t[i]) { DigitsSkipped(t, i + 1); }
  }

  /** `$` is the first line feed from `i` on, or the end of the text. */
  lemma {:induction false} LineEnds(t: string, i: nat)
    requires i <= |t|
    ensures forall k :: i <= k < LineEnd(t, i) ==> t[k] != '\n'
    ensures LineEnd(t, i) < |t| ==> t[LineEnd(t, i)] == '\n'
    decreases |t| - i
  {
    if i < |t| && t[i] != '\n' { LineEnds(t, i + 1); }
  }

  /**
   * The comment starts at the last position from `p` back to `q` that holds
   * something other than a line feed; there is none when only line feeds lie there.
   */
  lemma {:induction false} CommentStarts(t: string, q: nat, p: nat)
    requires q <= p <= |t|
    ensures var r := CommentStart(t, q, p);
            (r.Some? ==> t[r.value] != '\n' && forall k :: r.value < k <= p && k < |t| ==> t[k] == '\n')
            && (r.None? ==> forall k :: q <= k <= p && k < |t| ==> t[k] == '\n')
    decreases p - q
  {
    if !(p < |t| && t[p] != '\n') && p != q {
      CommentStarts(t, q, p - 1);
    }
  }

  /**
   * One attempt of `\s*(release-\d+-\d+)\s*(.+)$` at the start of `t`, where `^`
   * holds. Backtracking into the first `\s*` or into the first `\d+` never helps
   * (a space is not `r`, a digit is not `-`), so only the second `\s*` and the
   * second `\d+` give anything back.
   */
  function MatchHere(t: string): (r: Option<Match>)
    ensures r.Some? ==> 0 < r.value.len <= |t|
  {
    var j := SkipSpaces(t, 0);
    if j + 8 <= |t| && t[j..j + 8] == "release-" then MatchDigits(t, j, SkipDigits(t, j + 8)) else None
  }

  /** After `release-` at `j` and a greedy `\d+` up to `d1`: the dash and the second run. */
  function MatchDigits(t: string, j: nat, d1: nat): (r: Option<Match>)
    requires j + 8 <= d1 <= |t|
    ensures r.Some? ==> j < r.value.len <= |t|
  {
    if d1 == j + 8 || d1 == |t| || t[d1] != '-' then None
    else
      var d2 := SkipDigits(t, d1 + 1);
      if d2 == d1 + 1 then None else MatchComment(t, j, d1, d2)
  }

  /** After the tag `t[j..d2]`: the second `\s*`, then `(.+)$`, backtracking as Ruby does. */
  function MatchComment(t: string, j: nat, d1: nat, d2: nat): (r: Option<Match>)
    requires j + 8 < d1 < d2 - 1 && d2 <= |t|
    ensures r.Some? ==> j < r.value.len <= |t|
  {
    match CommentStart(t, d2, SkipSpaces(t, d2))
    case Some(p) =>
      var e := LineEnd(t, p);
      Some(Match(Entry(t[j..d2], t[p..e]), e))
    case None =>
      if d2 - (d1 + 1) >= 2 then
        // the second `\d+` gives back its last digit, which `.+` then takes
        var e := LineEnd(t, d2 - 1);
        Some(Match(Entry(t[j..d2 - 1], t[d2 - 1..e]), e))
      else None
  }

  /** Whatever one attempt matches is a tag and a one-line comment, and it ends where a line ends. */
  lemma MatchShaped(t: string)
    ensures var r := MatchHere(t);
            r.Some? ==> WellShaped(r.value.entry) && (r.value.len == |t| || t[r.value.len] == '\n')
  {
    var j := SkipSpaces(t, 0);
    if j + 8 <= |t| && t[j..j + 8] == "release-" {
      var d1 := SkipDigits(t, j + 8);
      DigitsSkipped(t, j + 8);
      assert MatchHere(t) == MatchDigits(t, j, d1);
      DigitsShaped(t, j, d1);
    } else {
      assert MatchHere(t).None?;
    }
  }

  lemma DigitsShaped(t: string, j: nat, d1: nat)
    requires j + 8 <= d1 <= |t|
    requires t[j..j + 8] == "release-"
    requires forall k :: j + 8 <= k < d1 ==> IsDigit(t[k])
    ensures var r := MatchDigits(t, j, d1);
            r.Some? ==> WellShaped(r.value.entry) && (r.value.len == |t| || t[r.value.len] == '\n')
  {
    if d1 == j + 8 || d1 == |t| || t[d1] != '-' {
      assert MatchDigits(t, j, d1).None?;
    } else {
      var d2 := SkipDigits(t, d1 + 1);
      DigitsSkipped(t, d1 + 1);
      if d2 == d1 + 1 {
        assert MatchDigits(t, j, d1).None?;
      } else {
        assert MatchDigits(t, j, d1) == MatchComment(t, j, d1, d2);
        CommentShaped(t, j, d1, d2);
      }
    }
  }

  lemma CommentShaped(t: string, j: nat, d1: nat, d2: nat)
    requires j + 8 < d1 < d2 - 1 && d2 <= |t|
    requires t[j..j + 8] == "release-" && t[d1] == '-'
    requires forall k :: j + 8 <= k < d1 ==> IsDigit(t[k])
    requires forall k :: d1 < k < d2 ==> IsDigit(t[k])
    ensures var r := MatchComment(t, j, d1, d2);
            r.Some? ==> WellShaped(r.value.entry) && (r.value.len == |t| || t[r.value.len] == '\n')
  {
    var q := SkipSpaces(t, d2);
    CommentStarts(t, d2, q);
    match CommentStart(t, d2, q)
    case Some(p) =>
      LineEnds(t, p);
      ShapedEntry(t, j, d1, d2, p);
    case None =>
      if d2 - (d1 + 1) >= 2 {
        LineEnds(t, d2 - 1);
        assert IsDigit(t[d2 - 1]);
        ShapedEntry(t, j, d1, d2 - 1, d2 - 1);
      }
  }

  lemma ShapedEntry(t: string, j: nat, d1: nat, d2: nat, p: nat)
    requires j + 8 < d1 < d2 - 1 && d2 <= |t|
    requires t[j..j + 8] == "release-" && t[d1] == '-'
    requires forall k :: j + 8 <= k < d1 ==> IsDigit(t[k])
    requires forall k :: d1 < k < d2 ==> IsDigit(t[k])
    requires p < |t| && t[p] != '\n'
    ensures WellShaped(Entry(t[j..d2], t[p..LineEnd(t, p)]))
  {
    RestOfLine(t, p);
    TagFromRuns(t, j, d1, d2);
  }

  /** `(.+)$` from `p`: a non-empty piece of one line, ending at a line feed or at the end. */
  lemma RestOfLine(t: string, p: nat)
    requires p < |t| && t[p] != '\n'
    ensures LineEnd(t, p) > p && '\n' !in t[p..LineEnd(t, p)]
  {
    var e := LineEnd(t, p);
    LineEnds(t, p);
    forall k | 0 <= k < e - p ensures t[p..e][k] != '\n' {
      assert t[p..e][k] == t[p + k];
    }
  }

  /** The text from `j` to `d2` is `release-`, a digit run, a dash at `d1` and a digit run. */
  lemma TagFromRuns(t: string, j: nat, d1: nat, d2: nat)
    requires j + 8 < d1 < d2 - 1 && d2 <= |t|
    requires t[j..j + 8] == "release-" && t[d1] == '-'
    requires forall k :: j + 8 <= k < d1 ==> IsDigit(t[k])
    requires forall k :: d1 < k < d2 ==> IsDigit(t[k])
    ensures IsTag(t[j..d2]) && DashAt(t[j..d2], d1 - j)
  {
    var tag := t[j..d2];
    assert tag[..8] == t[j..j + 8];
    assert tag[d1 - j] == t[d1];
    var first, second := tag[8..d1 - j], tag[d1 - j + 1..];
    forall i | 0 <= i < |first| ensures IsDigit(first[i]) {
      assert first[i] == t[j + 8 + i];
    }
    forall i | 0 <= i < |second| ensures IsDigit(second[i]) {
      assert second[i] == t[d1 + 1 + i];
    }
    assert DashAt(tag, d1 - j);
  }

  /**
   * `scan` from the front of `t`; `lineStart` says whether `^` holds there. After
   * a match the scan goes on where the match ended, otherwise one character later.
   */
  function ScanFrom(t: string, lineStart: bool): (r: seq<Entry>)
    ensures |r| <= |t|
    decreases |t|
  {
    if t == [] then []
    else if lineStart && MatchHere(t).Some? then
      var m := MatchHere(t).value;
      [m.entry] + ScanFrom(t[m.len..], false)
    else ScanFrom(t[1..], t[0] == '\n')
  }

  /** Every entry of the scan is a tag with a one-line comment. */
  lemma {:induction false} ScanShaped(t: string, lineStart: bool)
    ensures forall e :: e in ScanFrom(t, lineStart) ==> WellShaped(e)
    decreases |t|
  {
    if t != [] {
      if lineStart && MatchHere(t).Some? {
        var m := MatchHere(t).value;
        MatchShaped(t);
        ScanShaped(t[m.len..], false);
      } else {
        ScanShaped(t[1..], t[0] == '\n');
      }
    }
  }

  /** `git_tags_with_comments.scan(/^\s*(release-\d+-\d+)\s*(.+)$/)`. */
  function Scan(raw: string): (r: seq<Entry>)
    ensures forall e :: e in r ==> WellShaped(e)
  {
    ScanShaped(raw, true);
    ScanFrom(raw, true)
  }

  // ---------------------------------------------------------------------------
  // Rendering
  // ---------------------------------------------------------------------------

  function Block(e: Entry): string
  {
    "- " + e.tag + "\n\n" + e.comment + "\n\n"
  }

  /** `map { ... }.join`: the blocks one after the other. */
  function Render(es: seq<Entry>): (r: string)
    ensures |r| >= 6 * |es|
  {
    if es == [] then [] else Block(es[0]) + Render(es[1..])
  }

  function Reverse(es: seq<Entry>): (r: seq<Entry>)
    ensures |r| == |es|
    ensures forall i :: 0 <= i < |es| ==> r[i] == es[|es| - 1 - i]
  {
    if es == [] then [] else Reverse(es[1..]) + [es[0]]
  }

  /** `changelog`: the entries of `git tag -n` output, most recent first. */
  function ChangelogText(raw: string): (r: string)
    ensures r == [] <==> Scan(raw) == []
  {
    Render(Reverse(Scan(raw)))
  }

  /** What `write_changelog` puts into the changelog file. */
  function FileContent(raw: string): (r: string)
    ensures |r| >= |Warning| && r[..|Warning|] == Warning
    ensures r == Warning <==> Scan(raw) == []
  {
    var r := Warning + ChangelogText(raw);
    assert r[..|Warning|] == Warning;
    r
  }

  // ---------------------------------------------------------------------------
  // Properties of the rendering
  // ---------------------------------------------------------------------------

  /** Past the start of a line, nothing matches until the next line starts. */
  lemma {:induction false} SkipLine(y: string, rest: string)
    requires '\n' !in y
    ensures ScanFrom(y + "\n" + rest, false) == ScanFrom(rest, true)
  {
    if y == [] {
      assert (y + "\n" + rest)[1..] == rest;
    } else {
      assert (y + "\n" + rest)[1..] == y[1..] + "\n" + rest;
      SkipLine(y[1..], rest);
    }
  }

  /**
   * A release tag followed by nothing but line feeds: `.+` finds no character after
   * the second `\s*`, so the second `\d+` gives back its last digit as the comment.
   */
  lemma TrailingTagGivesBackDigit()
    ensures Scan("release-12-34\n") == [Entry("release-12-3", "4")]
  {
    var t := "release-12-34\n";
    TrailingTagMatch();
    assert t[13..] == "\n";
    assert ScanFrom("\n", false) == [];
  }

  lemma TrailingTagMatch()
    ensures MatchHere("release-12-34\n") == Some(Match(Entry("release-12-3", "4"), 13))
  {
    var t := "release-12-34\n";
    assert SkipSpaces(t, 0) == 0;
    assert SkipDigits(t, 8) == 10;
    assert t[0..8] == "release-";
    TrailingTagComment();
  }

  lemma TrailingTagComment()
    ensures MatchComment("release-12-34\n", 0, 10, 13) == Some(Match(Entry("release-12-3", "4"), 13))
  {
    var t := "release-12-34\n";
    assert SkipSpaces(t, 13) == 14;
    assert CommentStart(t, 13, 14) == None;
    assert LineEnd(t, 12) == 13;
    assert t[0..12] == "release-12-3" && t[12..13] == "4";
  }

  /** With a one-digit second run there is nothing to give back, and no match at all. */
  lemma TrailingShortTagUnmatched()
    ensures Scan("release-12-3\n") == []
  {
    var u := "release-12-3\n";
    assert SkipSpaces(u, 0) == 0;
    assert SkipDigits(u, 8) == 10;
    assert SkipDigits(u, 11) == 12;
    assert SkipSpaces(u, 12) == 13;
    assert CommentStart(u, 12, 13) == None;
    assert u[0..8] == "release-";
    assert MatchHere(u) == None;
    assert u[1..] == "elease-12-3" + "\n" + [];
    SkipLine("elease-12-3", []);
  }

  lemma {:induction false} RenderConcat(a: seq<Entry>, b: seq<Entry>)
    ensures Render(a + b) == Render(a) + Render(b)
  {
    if a != [] {
      assert (a + b)[1..] == a[1..] + b;
      RenderConcat(a[1..], b);
    } else {
      assert a + b == b;
    }
  }

  lemma {:induction false} ReverseConcat(a: seq<Entry>, b: seq<Entry>)
    ensures Reverse(a + b) == Reverse(b) + Reverse(a)
  {
    if a != [] {
      assert (a + b)[1..] == a[1..] + b;
      ReverseConcat(a[1..], b);
    } else {
      assert a + b == b;
    }
  }

  /** The entries that come later in the listing are rendered before the earlier ones. */
  lemma NewestFirst(older: seq<Entry>, newer: seq<Entry>)
    ensures Render(Reverse(older + newer)) == Render(Reverse(newer)) + Render(Reverse(older))
  {
    ReverseConcat(older, newer);
    RenderConcat(Reverse(newer), Reverse(older));
  }
}

/**
 * What the scan makes of `git tag -n` output: the release entries in the order of
 * the listing, other tags' lines left out; and how it reads a release line that
 * carries no comment.
 */
module ChangelogListing {
  import opened Wrappers
  import opened Text
  import opened Changelog
  import opened Sequences

  /**
   * One line of `git tag -n` output: a release tag with its comment, each line with
   * its own indentation and its own padding between tag and comment, or the line of
   * some other tag.
   */
  datatype Listed = Annotated(indent: string, entry: Entry, sep: string) | Other(line: string)

  predicate Blanks(w: string)
  {
    forall k :: 0 <= k < |w| ==> IsSpace(w[k])
  }

  /** A release as `git tag -n` lists it: a tag and a one-line comment that starts with a visible character. */
  predicate Printable(e: Entry)
  {
    IsTag(e.tag) && e.comment != [] && '\n' !in e.comment && !IsSpace(e.comment[0])
  }

  /** A line whose first visible text does not begin with `release-`. */
  predicate NotRelease(x: string)
  {
    var j := SkipSpaces(x, 0);
    '\n' !in x && j < |x| && !(j + 8 <= |x| && x[j..j + 8] == "release-")
  }

  predicate ValidLine(l: Listed)
  {
    match l
    case Annotated(indent, e, sep) => Blanks(indent) && Blanks(sep) && sep != [] && Printable(e)
    case Other(x) => NotRelease(x)
  }

  /** A listing line: a release tag after its indentation, and the comment after its padding. */
  function LineText(l: Listed): string
  {
    match l
    case Annotated(indent, e, sep) => indent + e.tag + sep + e.comment + "\n"
    case Other(x) => x + "\n"
  }

  function Listing(ls: seq<Listed>): string
  {
    if ls == [] then [] else LineText(ls[0]) + Listing(ls[1..])
  }

  /** The release entries of a listing, in listing order. */
  function Annotations(ls: seq<Listed>): seq<Entry>
  {
    if ls == [] then []
    else (if ls[0].Annotated? then [ls[0].entry] else []) + Annotations(ls[1..])
  }

  lemma {:induction false} SkipSpacesAt(t: string, i: nat, j: nat)
    requires i <= j <= |t|
    requires forall k :: i <= k < j ==> IsSpace(t[k])
    requires j < |t| ==> !IsSpace(t[j])
    ensures SkipSpaces(t, i) == j
    decreases j - i
  {
    if i < j { SkipSpacesAt(t, i + 1, j); }
  }

  lemma {:induction false} SkipDigitsAt(t: string, i: nat, j: nat)
    requires i <= j <= |t|
    requires forall k :: i <= k < j ==> IsDigit(t[k])
    requires j < |t| ==> !IsDigit(t[j])
    ensures SkipDigits(t, i) == j
    decreases j - i
  {
    if i < j { SkipDigitsAt(t, i + 1, j); }
  }

  lemma {:induction false} LineEndAt(t: string, i: nat, j: nat)
    requires i <= j <= |t|
    requires forall k :: i <= k < j ==> t[k] != '\n'
    requires j < |t| ==> t[j] == '\n'
    ensures LineEnd(t, i) == j
    decreases j - i
  {
    if i < j { LineEndAt(t, i + 1, j); }
  }

  /**
   * Blanks up to `a`, then a release tag followed by a blank: the first `\s*`
   * stops at the tag, and the digit runs end at the tag's dash (returned as
   * `d1`) and at the tag's end.
   */
  lemma TagAt(t: string, a: nat, tag: string) returns (d1: nat)
    requires IsTag(tag) && a + |tag| < |t| && t[a..a + |tag|] == tag
    requires forall m :: 0 <= m < a ==> IsSpace(t[m])
    requires IsSpace(t[a + |tag|])
    ensures SkipSpaces(t, 0) == a && t[a..a + 8] == "release-"
    ensures a + 8 < d1 < a + |tag| - 1 && t[d1] == '-'
    ensures SkipDigits(t, a + 8) == d1 && SkipDigits(t, d1 + 1) == a + |tag|
  {
    TagStart(t, a, tag);
    var k :| 8 < k < |tag| - 1 && DashAt(tag, k);
    TagRunsAt(t, a, tag, k);
    d1 := a + k;
  }

  /** Blanks up to `a`, then a text that begins with `release-`: the first `\s*` stops there. */
  lemma TagStart(t: string, a: nat, tag: string)
    requires |tag| >= 8 && tag[..8] == "release-" && a + |tag| <= |t| && t[a..a + |tag|] == tag
    requires forall m :: 0 <= m < a ==> IsSpace(t[m])
    ensures SkipSpaces(t, 0) == a && t[a..a + 8] == "release-"
  {
    var b := a + |tag|;
    var r := t[a..a + 8];
    assert r == t[a..b][..8] == "release-";
    assert "release-"[0] == 'r';
    assert t[a] == r[0] == 'r';
    SkipSpacesAt(t, 0, a);
  }

  /** The two digit runs of a tag that starts at `a` in `t` and is followed by a non-digit. */
  lemma TagRunsAt(t: string, a: nat, tag: string, k: nat)
    requires a + |tag| < |t| && t[a..a + |tag|] == tag
    requires DashAt(tag, k)
    requires !IsDigit(t[a + |tag|])
    ensures SkipDigits(t, a + 8) == a + k && t[a + k] == '-'
    ensures SkipDigits(t, a + k + 1) == a + |tag|
  {
    var first, second := tag[8..k], tag[k + 1..];
    forall m | a + 8 <= m < a + k ensures IsDigit(t[m]) {
      assert t[m] == t[a..a + |tag|][m - a] == first[m - a - 8];
    }
    assert t[a + k] == t[a..a + |tag|][k];
    SkipDigitsAt(t, a + 8, a + k);
    forall m | a + k + 1 <= m < a + |tag| ensures IsDigit(t[m]) {
      assert t[m] == t[a..a + |tag|][m - a] == second[m - a - k - 1];
    }
    SkipDigitsAt(t, a + k + 1, a + |tag|);
  }

  /**
   * Blanks from `b` up to `c`, then a comment that starts with a visible character
   * and ends at a line feed: the second `\s*` stops at the comment, and `$` at its end.
   */
  lemma CommentAt(t: string, b: nat, c: nat, comment: string)
    requires b <= c && c + |comment| < |t| && t[c..c + |comment|] == comment
    requires comment != [] && '\n' !in comment && !IsSpace(comment[0])
    requires forall m :: b <= m < c ==> IsSpace(t[m])
    requires t[c + |comment|] == '\n'
    ensures SkipSpaces(t, b) == c && t[c] != '\n' && LineEnd(t, c) == c + |comment|
  {
    var d := c + |comment|;
    assert t[c] == comment[0] by { assert t[c] == t[c..d][0]; }
    SkipSpacesAt(t, b, c);
    forall m | c <= m < d ensures t[m] != '\n' {
      assert t[m] == t[c..d][m - c];
    }
    LineEndAt(t, c, d);
  }

  /**
   * A text that has blanks, then a release tag, then at least one blank, then a
   * printable comment and a line feed is matched as a whole, giving that entry.
   */
  lemma MatchLaidOut(t: string, e: Entry, a: nat, c: nat)
    requires Printable(e)
    requires a + |e.tag| < c && c + |e.comment| < |t|
    requires forall m :: 0 <= m < a ==> IsSpace(t[m])
    requires t[a..a + |e.tag|] == e.tag
    requires forall m :: a + |e.tag| <= m < c ==> IsSpace(t[m])
    requires t[c..c + |e.comment|] == e.comment
    requires t[c + |e.comment|] == '\n'
    ensures MatchHere(t).Some?
    ensures MatchHere(t).value.entry == e && MatchHere(t).value.len == c + |e.comment|
  {
    var d1 := TagAt(t, a, e.tag);
    CommentAt(t, a + |e.tag|, c, e.comment);
    MatchAt(t, a, d1, a + |e.tag|, c, c + |e.comment|);
  }

  /**
   * `MatchHere` when the first `\s*` ends at `a` in front of `release-`, the
   * digit runs end at `d1` and `d2`, the second `\s*` ends at `c` in front of a
   * character other than a line feed, and that line ends at `d`.
   */
  lemma MatchAt(t: string, a: nat, d1: nat, d2: nat, c: nat, d: nat)
    requires SkipSpaces(t, 0) == a && a + 8 <= |t| && t[a..a + 8] == "release-"
    requires a + 8 < d1 < d2 - 1 && d2 <= |t|
    requires SkipDigits(t, a + 8) == d1 && t[d1] == '-' && SkipDigits(t, d1 + 1) == d2
    requires SkipSpaces(t, d2) == c && c < |t| && t[c] != '\n' && LineEnd(t, c) == d
    ensures var r := MatchHere(t);
            r.Some? && r.value.entry.tag == t[a..d2] && r.value.entry.comment == t[c..d] && r.value.len == d
  {
    assert CommentStart(t, d2, c) == Some(c);
    assert MatchDigits(t, a, d1) == MatchComment(t, a, d1, d2);
  }

  /** A release line of the listing is matched as a whole, giving back its own entry. */
  lemma MatchAnnotated(indent: string, sep: string, e: Entry, rest: string)
    requires Blanks(indent) && Blanks(sep) && sep != [] && Printable(e)
    ensures var r := MatchHere(indent + e.tag + sep + e.comment + "\n" + rest);
            r.Some? && r.value.entry == e && r.value.len == |indent| + |e.tag| + |sep| + |e.comment|
  {
    LaidOut(indent, e.tag, sep, e.comment, rest);
    MatchLaidOut(indent + e.tag + sep + e.comment + "\n" + rest, e, |indent|, |indent| + |e.tag| + |sep|);
  }

  /** Where the parts of a listing line sit in the text. */
  lemma LaidOut(indent: string, tag: string, sep: string, comment: string, rest: string)
    requires Blanks(indent) && Blanks(sep)
    ensures var t := indent + tag + sep + comment + "\n" + rest;
            var b := |indent| + |tag|;
            var c := b + |sep|;
            var d := c + |comment|;
            && d < |t|
            && (forall m :: 0 <= m < |indent| ==> IsSpace(t[m]))
            && t[|indent|..b] == tag
            && (forall m :: b <= m < c ==> IsSpace(t[m]))
            && t[c..d] == comment
            && t[d] == '\n'
  {
    var t := indent + tag + sep + comment + "\n" + rest;
    var a := |indent|;
    var b := a + |tag|;
    var c := b + |sep|;
    var d := c + |comment|;
    assert t == indent + tag + sep + comment + ("\n" + rest);
    forall m | 0 <= m < a ensures IsSpace(t[m]) { assert t[m] == indent[m]; }
    forall m | b <= m < c ensures IsSpace(t[m]) { assert t[m] == sep[m - b]; }
    assert t[a..b] == tag;
    assert t[c..d] == comment;
    assert t[d] == '\n';
  }

  /** Another tag's line never matches. */
  lemma MatchOther(x: string, rest: string)
    requires NotRelease(x)
    ensures MatchHere(x + "\n" + rest) == None
  {
    var t := x + "\n" + rest;
    var j := SkipSpaces(x, 0);
    SpacesSkipped(x, 0);
    assert forall m :: 0 <= m < |x| ==> t[m] == x[m];
    SkipSpacesAt(t, 0, j);
    if j + 8 <= |t| {
      if j + 8 <= |x| {
        assert t[j..j + 8] == x[j..j + 8];
      } else {
        assert t[j..j + 8][|x| - j] == t[|x|] == '\n';
      }
    }
    assert !(j + 8 <= |t| && t[j..j + 8] == "release-");
  }

  /** A release line at the start of the scan contributes its entry; the scan goes on at the next line. */
  lemma ScanAnnotatedLine(indent: string, sep: string, e: Entry, rest: string)
    requires Blanks(indent) && Blanks(sep) && sep != [] && Printable(e)
    ensures ScanFrom(indent + e.tag + sep + e.comment + "\n" + rest, true) == [e] + ScanFrom(rest, true)
  {
    var x := indent + e.tag + sep + e.comment;
    MatchAnnotated(indent, sep, e, rest);
    ScanMatched(x + "\n" + rest);
    AfterLine(x, rest);
    NextLine(rest);
  }

  /** A match at the start of a line contributes its entry; the scan goes on where the match ended. */
  lemma ScanMatched(t: string)
    requires MatchHere(t).Some?
    ensures var m := MatchHere(t).value;
            ScanFrom(t, true) == [m.entry] + ScanFrom(t[m.len..], false)
  {
  }

  lemma AfterLine(x: string, rest: string)
    ensures (x + "\n" + rest)[|x|..] == "\n" + rest
  {
    assert x + "\n" + rest == x + ("\n" + rest);
  }

  /** Past a line feed the next line starts. */
  lemma NextLine(rest: string)
    ensures ScanFrom("\n" + rest, false) == ScanFrom(rest, true)
  {
    assert ("\n" + rest)[1..] == rest;
  }

  /** Another tag's line at the start of the scan contributes nothing. */
  lemma ScanOtherLine(x: string, rest: string)
    requires NotRelease(x)
    ensures ScanFrom(x + "\n" + rest, true) == ScanFrom(rest, true)
  {
    MatchOther(x, rest);
    assert (x + "\n" + rest)[1..] == x[1..] + "\n" + rest;
    SkipLine(x[1..], rest);
  }

  /**
   * Scanning a `git tag -n` listing gives exactly its release entries, in listing
   * order; the lines of other tags are left out.
   */
  lemma {:induction false} ScanListing(ls: seq<Listed>)
    requires forall l :: l in ls ==> ValidLine(l)
    ensures Scan(Listing(ls)) == Annotations(ls)
  {
    if ls != [] {
      var rest := Listing(ls[1..]);
      assert Listing(ls) == LineText(ls[0]) + rest;
      ScanListing(ls[1..]);
      assert ls[0] in ls;
      match ls[0]
      case Annotated(indent, e, sep) =>
        ScanAnnotatedLine(indent, sep, e, rest);
        assert Annotations(ls) == [e] + Annotations(ls[1..]);
      case Other(x) =>
        ScanOtherLine(x, rest);
        assert Annotations(ls) == [] + Annotations(ls[1..]);
        EmptyAppend(Annotations(ls[1..]));
    }
  }


  /**
   * The changelog of a listing renders its release entries newest first: a release
   * listed after the others opens the changelog.
   */
  lemma ChangelogOfListing(ls: seq<Listed>, l: Listed)
    requires forall x :: x in ls ==> ValidLine(x)
    requires l.Annotated? && ValidLine(l)
    ensures ChangelogText(Listing(ls)) == Render(Reverse(Annotations(ls)))
    ensures ChangelogText(Listing(ls + [l])) == Block(l.entry) + ChangelogText(Listing(ls))
  {
    var e := l.entry;
    ScanListing(ls);
    ScanListing(ls + [l]);
    AnnotationsConcat(ls, [l]);
    assert Annotations([l]) == [e];
    NewestFirst(Annotations(ls), [e]);
    assert Render(Reverse([e])) == Block(e) by {
      assert Reverse([e]) == [e];
    }
  }

  lemma {:induction false} AnnotationsConcat(a: seq<Listed>, b: seq<Listed>)
    ensures Annotations(a + b) == Annotations(a) + Annotations(b)
  {
    if a != [] {
      assert (a + b)[1..] == a[1..] + b;
      AnnotationsConcat(a[1..], b);
    } else {
      assert a + b == b;
    }
  }
}
