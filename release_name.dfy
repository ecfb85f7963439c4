/**
 * `get_release_name`: `release-` followed by the UTC time formatted with
 * `%Y%m%d-%H%M%S`. The clock is a parameter: the broken-down UTC time.
 */
module ReleaseName {
  import opened Text
  import opened Wrappers
  import opened Releases
  import Changelog

  /** The fields of `Time.now.utc` that the format uses. */
  datatype UtcTime = UtcTime(year: nat, month: nat, day: nat, hour: nat, minute: nat, second: nat)

  /** The ranges Ruby's `Time` keeps its fields in (a leap second included), for years of at most four digits. */
  predicate InRange(t: UtcTime)
  {
    t.year <= 9999 && 1 <= t.month <= 12 && 1 <= t.day <= 31
    && t.hour <= 23 && t.minute <= 59 && t.second <= 60
  }

  /** `t1` is an earlier moment than `t2`: the fields compared from the year down to the second. */
  predicate Before(t1: UtcTime, t2: UtcTime)
  {
    t1.year < t2.year || (t1.year == t2.year &&
    (t1.month < t2.month || (t1.month == t2.month &&
    (t1.day < t2.day || (t1.day == t2.day &&
    (t1.hour < t2.hour || (t1.hour == t2.hour &&
    (t1.minute < t2.minute || (t1.minute == t2.minute && t1.second < t2.second)))))))))
  }

  function Pow10(w: nat): (p: nat)
    ensures p >= 1
  {
    if w == 0 then 1 else 10 * Pow10(w - 1)
  }

  function DigitChar(d: nat): (c: char)
    requires d < 10
    ensures IsDigit(c)
  {
    (48 + d) as char
  }

  function DigitValue(c: char): nat
    requires IsDigit(c)
  {
    c as nat - 48
  }

  /** A `strftime` number: the decimal digits of `n`, padded with zeros to at least `w` characters. */
  function Decimal(n: nat, w: nat): (s: string)
    ensures |s| >= 1 && |s| >= w
    ensures AllDigits(s)
    decreases n + w
  {
    (if n >= 10 || w > 1 then Decimal(n / 10, if w > 0 then w - 1 else 0) else []) + [DigitChar(n % 10)]
  }

  /** The number a string of digits spells. */
  function DecimalValue(s: string): nat
    requires AllDigits(s)
  {
    if s == [] then 0 else 10 * DecimalValue(s[..|s| - 1]) + DigitValue(s[|s| - 1])
  }

  /** Reading the digits back gives the number. */
  lemma {:induction false} DecimalRoundTrip(n: nat, w: nat)
    ensures DecimalValue(Decimal(n, w)) == n
    decreases n + w
  {
    var s := Decimal(n, w);
    var h := if n >= 10 || w > 1 then Decimal(n / 10, if w > 0 then w - 1 else 0) else [];
    var last := DigitChar(n % 10);
    assert s == h + [last];
    assert s[..|s| - 1] == h && s[|s| - 1] == last;
    assert DigitValue(last) == n % 10;
    if n >= 10 || w > 1 {
      DecimalRoundTrip(n / 10, if w > 0 then w - 1 else 0);
    }
    assert DecimalValue(h) == n / 10;
    assert DecimalValue(s) == 10 * (n / 10) + n % 10;
  }

  /** A number below `10^w` takes exactly `w` characters. */
  lemma {:induction false} DecimalWidth(n: nat, w: nat)
    requires 1 <= w && n < Pow10(w)
    ensures |Decimal(n, w)| == w
    decreases w
  {
    if w > 1 {
      DecimalWidth(n / 10, w - 1);
    }
  }

  /** Among numbers of the same padded width, string order is numeric order. */
  lemma {:induction false} DecimalOrder(n: nat, m: nat, w: nat)
    requires 1 <= w && n < Pow10(w) && m < Pow10(w)
    ensures Less(Decimal(n, w), Decimal(m, w)) <==> n < m
    decreases w, 1
  {
    var hn, hm := if w > 1 then Decimal(n / 10, w - 1) else [], if w > 1 then Decimal(m / 10, w - 1) else [];
    assert Decimal(n, w) == hn + [DigitChar(n % 10)];
    assert Decimal(m, w) == hm + [DigitChar(m % 10)];
    assert |hn| == |hm| && (Less(hn, hm) <==> n / 10 < m / 10) && (hn == hm <==> n / 10 == m / 10) by {
      HeadOrder(n, m, w);
    }
    LessAppend(hn, [DigitChar(n % 10)], hm, [DigitChar(m % 10)]);
    assert Less([DigitChar(n % 10)], [DigitChar(m % 10)]) <==> n % 10 < m % 10 by {
      assert [DigitChar(n % 10)][1..] == [];
    }
    DivModOrder(n, m);
  }

  /** The digits in front of the last one compare as the numbers divided by ten. */
  lemma HeadOrder(n: nat, m: nat, w: nat)
    requires 1 <= w && n < Pow10(w) && m < Pow10(w)
    ensures var hn, hm := if w > 1 then Decimal(n / 10, w - 1) else [], if w > 1 then Decimal(m / 10, w - 1) else [];
            |hn| == |hm| && (Less(hn, hm) <==> n / 10 < m / 10) && (hn == hm <==> n / 10 == m / 10)
    decreases w, 0
  {
    if w > 1 {
      DecimalWidth(n / 10, w - 1);
      DecimalWidth(m / 10, w - 1);
      DecimalOrder(n / 10, m / 10, w - 1);
      DecimalRoundTrip(n / 10, w - 1);
      DecimalRoundTrip(m / 10, w - 1);
    } else {
      assert Pow10(1) == 10;
    }
  }

  lemma DivModOrder(n: nat, m: nat)
    ensures n < m <==> n / 10 < m / 10 || (n / 10 == m / 10 && n % 10 < m % 10)
  {
    assert n == 10 * (n / 10) + n % 10;
    assert m == 10 * (m / 10) + m % 10;
  }

  /**
   * `release-` and the time as `%Y%m%d-%H%M%S`. Every release name is a release
   * line for `releases` and a tag for the changelog pattern, and it holds no single
   * quote, so it can stand inside a single-quoted shell word as it is.
   */
  function ReleaseNameOf(t: UtcTime): (r: string)
    ensures Releases.IsReleaseLine(r)
    ensures Changelog.IsTag(r)
    ensures '\'' !in r
  {
    var date := Decimal(t.year, 4) + (Decimal(t.month, 2) + Decimal(t.day, 2));
    var time := Decimal(t.hour, 2) + (Decimal(t.minute, 2) + Decimal(t.second, 2));
    var r := Releases.Prefix + (Decimal(t.year, 4) + (Decimal(t.month, 2) + (Decimal(t.day, 2)
             + ("-" + (Decimal(t.hour, 2) + (Decimal(t.minute, 2) + Decimal(t.second, 2)))))));
    assert r == Releases.Prefix + date + ("-" + time);
    AllDigitsConcat(Decimal(t.month, 2), Decimal(t.day, 2));
    AllDigitsConcat(Decimal(t.year, 4), Decimal(t.month, 2) + Decimal(t.day, 2));
    AllDigitsConcat(Decimal(t.minute, 2), Decimal(t.second, 2));
    AllDigitsConcat(Decimal(t.hour, 2), Decimal(t.minute, 2) + Decimal(t.second, 2));
    TagShape(date, time);
    TagUnquoted(r);
    r
  }

  /** With a four-digit year a release name is 23 characters long, its dash at 16: 8 digits, a dash, 6 digits. */
  lemma NameShape(t: UtcTime)
    requires InRange(t)
    ensures |ReleaseNameOf(t)| == 23 && ReleaseNameOf(t)[16] == '-'
  {
    var date := Decimal(t.year, 4) + (Decimal(t.month, 2) + Decimal(t.day, 2));
    var time := Decimal(t.hour, 2) + (Decimal(t.minute, 2) + Decimal(t.second, 2));
    assert ReleaseNameOf(t) == Releases.Prefix + date + ("-" + time);
    FieldWidths(t);
    assert |date| == 8 && |time| == 6;
  }

  /** Within the ranges, every field takes exactly its padded width. */
  lemma FieldWidths(t: UtcTime)
    requires InRange(t)
    ensures |Decimal(t.year, 4)| == 4 && |Decimal(t.month, 2)| == 2 && |Decimal(t.day, 2)| == 2
    ensures |Decimal(t.hour, 2)| == 2 && |Decimal(t.minute, 2)| == 2 && |Decimal(t.second, 2)| == 2
  {
    assert Pow10(4) == 10000 && Pow10(2) == 100;
    DecimalWidth(t.year, 4);
    DecimalWidth(t.month, 2);
    DecimalWidth(t.day, 2);
    DecimalWidth(t.hour, 2);
    DecimalWidth(t.minute, 2);
    DecimalWidth(t.second, 2);
  }

  /** `release-`, a digit run, a dash and a digit run make a release line and a tag. */
  lemma TagShape(date: string, time: string)
    requires date != [] && time != [] && AllDigits(date) && AllDigits(time)
    ensures var s := Releases.Prefix + date + ("-" + time);
            && Releases.IsReleaseLine(s) && Changelog.IsTag(s)
            && |s| == 9 + |date| + |time| && s[8 + |date|] == '-'
  {
    var s := Releases.Prefix + date + ("-" + time);
    var k := 8 + |date|;
    assert s[..8] == Releases.Prefix;
    assert s[k] == '-';
    assert s[8..k] == date;
    assert s[k + 1..] == time;
    assert Changelog.DashAt(s, k);
  }

  lemma TagUnquoted(s: string)
    requires Changelog.IsTag(s)
    ensures '\'' !in s
  {
    var k :| 8 < k < |s| - 1 && Changelog.DashAt(s, k);
    forall i | 0 <= i < |s| ensures s[i] != '\'' {
      if i < 8 {
        assert s[i] == s[..8][i];
      } else if i < k {
        assert s[i] == s[8..k][i - 8];
      } else if i > k {
        assert s[i] == s[k + 1..][i - k - 1];
      }
    }
  }

  lemma AllDigitsConcat(a: string, b: string)
    requires AllDigits(a) && AllDigits(b)
    ensures AllDigits(a + b)
  {
    forall k | 0 <= k < |a + b| ensures IsDigit((a + b)[k]) {
      if k >= |a| { assert (a + b)[k] == b[k - |a|]; }
    }
  }

  /** One fixed-width field in front of the rest: compared first, the rest only on a tie. */
  lemma FieldFirst(n1: nat, n2: nat, w: nat, r1: string, r2: string)
    requires 1 <= w && n1 < Pow10(w) && n2 < Pow10(w)
    ensures Less(Decimal(n1, w) + r1, Decimal(n2, w) + r2) <==> n1 < n2 || (n1 == n2 && Less(r1, r2))
  {
    DecimalWidth(n1, w);
    DecimalWidth(n2, w);
    LessAppend(Decimal(n1, w), r1, Decimal(n2, w), r2);
    DecimalOrder(n1, n2, w);
    if Decimal(n1, w) == Decimal(n2, w) {
      DecimalRoundTrip(n1, w);
      DecimalRoundTrip(n2, w);
    }
  }

  /** The time of day, `%H%M%S`, sorts as the time of day does. */
  lemma ClockOrder(t1: UtcTime, t2: UtcTime)
    requires InRange(t1) && InRange(t2)
    ensures Less(Decimal(t1.hour, 2) + (Decimal(t1.minute, 2) + Decimal(t1.second, 2)),
                 Decimal(t2.hour, 2) + (Decimal(t2.minute, 2) + Decimal(t2.second, 2)))
            <==> t1.hour < t2.hour || (t1.hour == t2.hour &&
                 (t1.minute < t2.minute || (t1.minute == t2.minute && t1.second < t2.second)))
  {
    assert Pow10(2) == 100;
    FieldFirst(t1.hour, t2.hour, 2, Decimal(t1.minute, 2) + Decimal(t1.second, 2), Decimal(t2.minute, 2) + Decimal(t2.second, 2));
    FieldFirst(t1.minute, t2.minute, 2, Decimal(t1.second, 2), Decimal(t2.second, 2));
    DecimalOrder(t1.second, t2.second, 2);
  }

  /**
   * Release names sort as the moments they were made at: since `releases` sorts
   * by string order, the last release is the one tagged last.
   */
  lemma NameOrder(t1: UtcTime, t2: UtcTime)
    requires InRange(t1) && InRange(t2)
    ensures Less(ReleaseNameOf(t1), ReleaseNameOf(t2)) <==> Before(t1, t2)
  {
    var c1 := Decimal(t1.hour, 2) + (Decimal(t1.minute, 2) + Decimal(t1.second, 2));
    var c2 := Decimal(t2.hour, 2) + (Decimal(t2.minute, 2) + Decimal(t2.second, 2));
    ClockOrder(t1, t2);
    LessAppend("-", c1, "-", c2);
    LessIrreflexive("-");
    assert Pow10(2) == 100 && Pow10(4) == 10000;
    FieldFirst(t1.day, t2.day, 2, "-" + c1, "-" + c2);
    FieldFirst(t1.month, t2.month, 2, Decimal(t1.day, 2) + ("-" + c1), Decimal(t2.day, 2) + ("-" + c2));
    var d1 := Decimal(t1.month, 2) + (Decimal(t1.day, 2) + ("-" + c1));
    var d2 := Decimal(t2.month, 2) + (Decimal(t2.day, 2) + ("-" + c2));
    FieldFirst(t1.year, t2.year, 4, d1, d2);
    LessAppend(Releases.Prefix, Decimal(t1.year, 4) + d1, Releases.Prefix, Decimal(t2.year, 4) + d2);
    LessIrreflexive(Releases.Prefix);
  }

  /** Two moments in range give the same release name only when they are the same moment. */
  lemma NameInjective(t1: UtcTime, t2: UtcTime)
    requires InRange(t1) && InRange(t2)
    requires ReleaseNameOf(t1) == ReleaseNameOf(t2)
    ensures t1 == t2
  {
    LessIrreflexive(ReleaseNameOf(t1));
    NameOrder(t1, t2);
    NameOrder(t2, t1);
  }

  /**
   * The year bound of `NameOrder` is needed: `%Y` does not cut a five-digit year,
   * so the first moment of year 10000 sorts before the last one of 9999.
   */
  lemma FiveDigitYearSortsFirst()
    ensures Before(UtcTime(9999, 12, 31, 23, 59, 59), UtcTime(10000, 1, 1, 0, 0, 0))
    ensures Less(ReleaseNameOf(UtcTime(10000, 1, 1, 0, 0, 0)), ReleaseNameOf(UtcTime(9999, 12, 31, 23, 59, 59)))
  {
    var late, early := UtcTime(10000, 1, 1, 0, 0, 0), UtcTime(9999, 12, 31, 23, 59, 59);
    var y1, y2 := Decimal(10000, 4), Decimal(9999, 4);
    YearDigits();
    var r1 := ReleaseNameOf(late)[8..];
    var r2 := ReleaseNameOf(early)[8..];
    assert ReleaseNameOf(late) == Releases.Prefix + r1;
    assert ReleaseNameOf(early) == Releases.Prefix + r2;
    assert r1[0] == y1[0] && r2[0] == y2[0];
    assert Less(r1, r2);
    LessAppend(Releases.Prefix, r1, Releases.Prefix, r2);
  }

  lemma YearDigits()
    ensures Decimal(10000, 4)[0] == '1' && Decimal(9999, 4)[0] == '9'
  {
    assert Decimal(1, 0) == "1";
    assert Decimal(10, 1) == "10";
    assert Decimal(100, 2) == "100";
    assert Decimal(1000, 3) == "1000";
    assert Decimal(9, 0) == "9";
    assert Decimal(99, 1) == "99";
    assert Decimal(999, 2) == "999";
  }

  /**
   * The release `tag` creates becomes the current release once every release
   * already tagged was named at an earlier moment: release names sort by time.
   */
  lemma NewReleaseIsCurrent(before: string, after: string, t: UtcTime)
    requires InRange(t)
    requires forall x :: x in Fields(before) && IsReleaseLine(x) ==>
               exists u :: InRange(u) && Before(u, t) && x == ReleaseNameOf(u)
    requires forall x :: x in Fields(after) && IsReleaseLine(x) <==>
               (x in Fields(before) && IsReleaseLine(x)) || x == ReleaseNameOf(t)
    ensures Current(ReleasesOf(after)) == Some(ReleaseNameOf(t))
  {
    var name := ReleaseNameOf(t);
    NameShape(t);
    CurrentIsLatest(after);
    var c := Current(ReleasesOf(after)).value;
    assert LessEq(name, c);
    if c != name {
      var u :| InRange(u) && Before(u, t) && c == ReleaseNameOf(u);
      NameOrder(u, t);
      LessAsymmetric(c, name);
    }
  }
}
