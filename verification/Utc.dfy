/** A message's time as text, and why sorting the text sorts the times. */
module Utc {
  import opened Text
  import opened Calendar

  function DigitChar(n: nat): char
    requires n < 10
  {
    '0' + n as char
  }

  /** `n` in decimal, with zeros in front up to `width`. */
  function Padded(n: nat, width: nat): string
    decreases n, width
  {
    if n < 10 && width <= 1 then [DigitChar(n)]
    else Padded(n / 10, if width == 0 then 0 else width - 1) + [DigitChar(n % 10)]
  }

  /** A sign counts towards the width. */
  function PaddedInt(n: int, width: nat): string {
    if n >= 0 then Padded(n, width) else "-" + Padded(-n, if width == 0 then 0 else width - 1)
  }

  /** `2026-09-23 16:04:05Z` for Unix milliseconds. */
  function Line(ms: int): string {
    var secs := ms / 1000;
    var rem := secs % 86_400;
    var date := Civil(secs / 86_400);
    Joined(PaddedInt(date.year, 4), PaddedInt(date.month, 2), PaddedInt(date.day, 2),
           PaddedInt(rem / 3600, 2), PaddedInt(rem % 3600 / 60, 2), PaddedInt(rem % 60, 2))
  }

  function Joined(y: string, mo: string, d: string, h: string, mi: string, s: string): string {
    y + "-" + mo + "-" + d + " " + h + ":" + mi + ":" + s + "Z"
  }

  // ---------------------------------------------------------------------------
  // Fixed-width numbers compare as text the way they compare as numbers
  // ---------------------------------------------------------------------------

  function Pow10(width: nat): nat {
    if width == 0 then 1 else 10 * Pow10(width - 1)
  }

  /** Texts that start with equally long parts compare by those, then by the rest. */
  lemma {:induction false} ComparesByParts(p: string, q: string, x: string, y: string)
    requires |p| == |q|
    ensures StrLess(p + x, q + y) <==> StrLess(p, q) || (p == q && StrLess(x, y))
  {
    if p == [] {
      assert p + x == x && q + y == y;
    } else {
      assert (p + x)[1..] == p[1..] + x && (q + y)[1..] == q[1..] + y;
      ComparesByParts(p[1..], q[1..], x, y);
      assert p == [p[0]] + p[1..] && q == [q[0]] + q[1..];
    }
  }

  lemma {:induction false} PaddedWidth(n: nat, width: nat)
    requires 0 < width && n < Pow10(width)
    ensures |Padded(n, width)| == width
  {
    if width > 1 {
      PaddedWidth(n / 10, width - 1);
    }
  }

  lemma {:induction false} PaddedOrder(a: nat, b: nat, width: nat)
    requires 0 < width && a < Pow10(width) && b < Pow10(width)
    ensures StrLess(Padded(a, width), Padded(b, width)) <==> a < b
    ensures Padded(a, width) == Padded(b, width) <==> a == b
  {
    if width > 1 {
      PaddedOrder(a / 10, b / 10, width - 1);
      PaddedWidth(a / 10, width - 1);
      PaddedWidth(b / 10, width - 1);
      var p, q := Padded(a / 10, width - 1), Padded(b / 10, width - 1);
      var x, y := [DigitChar(a % 10)], [DigitChar(b % 10)];
      ComparesByParts(p, q, x, y);
      assert p + x == q + y <==> p == q && x == y by {
        assert (p + x)[..|p|] == p && (q + y)[..|q|] == q;
        assert (p + x)[|p|..] == x && (q + y)[|q|..] == y;
      }
      assert StrLess(x, y) <==> a % 10 < b % 10;
    } else {
      assert Pow10(1) == 10;
      var x, y := Padded(a, width), Padded(b, width);
      assert x[1..] == [] && y[1..] == [];
    }
  }

  // ---------------------------------------------------------------------------
  // A whole line
  // ---------------------------------------------------------------------------

  /** Numbers written at fixed widths, each followed by its separator. */
  function Render(values: seq<nat>, widths: seq<nat>, marks: string): string
    requires |values| == |widths| == |marks|
  {
    if values == [] then []
    else Padded(values[0], widths[0]) + [marks[0]] + Render(values[1..], widths[1..], marks[1..])
  }

  predicate Fits(values: seq<nat>, widths: seq<nat>) {
    |values| == |widths| && forall i :: 0 <= i < |values| ==> 0 < widths[i] && values[i] < Pow10(widths[i])
  }

  /** First difference decides. */
  predicate LexLess(a: seq<nat>, b: seq<nat>)
    requires |a| == |b|
  {
    a != [] && (a[0] < b[0] || (a[0] == b[0] && LexLess(a[1..], b[1..])))
  }

  lemma {:induction false} RenderOrder(a: seq<nat>, b: seq<nat>, widths: seq<nat>, marks: string)
    requires Fits(a, widths) && Fits(b, widths) && |marks| == |widths|
    ensures StrLess(Render(a, widths, marks), Render(b, widths, marks)) <==> LexLess(a, b)
  {
    if a != [] {
      RenderOrder(a[1..], b[1..], widths[1..], marks[1..]);
      PaddedOrder(a[0], b[0], widths[0]);
      PaddedWidth(a[0], widths[0]);
      PaddedWidth(b[0], widths[0]);
      var p, q := Padded(a[0], widths[0]), Padded(b[0], widths[0]);
      var x, y := Render(a[1..], widths[1..], marks[1..]), Render(b[1..], widths[1..], marks[1..]);
      ComparesByParts(p + [marks[0]], q + [marks[0]], x, y);
      ComparesByParts(p, q, [marks[0]], [marks[0]]);
      StrLessIrreflexive([marks[0]]);
      assert p + [marks[0]] == q + [marks[0]] <==> p == q by {
        assert (p + [marks[0]])[..|p|] == p && (q + [marks[0]])[..|q|] == q;
      }
    }
  }

  const WIDTHS: seq<nat> := [4, 2, 2, 2, 2, 2]
  const MARKS := "-- ::Z"

  /** The days of 0000-01-01 and 10000-01-01. */
  const YEAR_0 := -719_528
  const YEAR_10000 := 2_932_897

  predicate FourDigitYear(ms: int) {
    YEAR_0 <= ms / 1000 / 86_400 < YEAR_10000
  }

  /** These are exactly the times whose year is written in four digits. */
  lemma FourDigitYearIff(ms: int)
    ensures FourDigitYear(ms) <==> 0 <= Civil(ms / 1000 / 86_400).year <= 9999
  {
    YearStartsAt(ms / 1000 / 86_400, 0);
    YearStartsAt(ms / 1000 / 86_400, 10_000);
    YearEnds();
  }

  lemma YearEnds()
    ensures YearStart(0) == YEAR_0 && YearStart(10_000) == YEAR_10000
  {
  }

  /** The six numbers of a time: year, month, day, hour, minute, second. */
  function Fields(ms: int): (r: seq<nat>)
    requires FourDigitYear(ms)
    ensures |r| == 6
  {
    var secs := ms / 1000;
    var rem := secs % 86_400;
    CivilFollowsCalendar(secs / 86_400);
    FourDigitYearIff(ms);
    var date := Civil(secs / 86_400);
    [date.year, date.month, date.day, rem / 3600, rem % 3600 / 60, rem % 60]
  }

  lemma SixParts(v: seq<nat>, w: seq<nat>, m: string)
    requires |v| == |w| == |m| == 6
    ensures Render(v, w, m)
         == Padded(v[0], w[0]) + [m[0]] + (Padded(v[1], w[1]) + [m[1]] + (Padded(v[2], w[2]) + [m[2]]
            + (Padded(v[3], w[3]) + [m[3]] + (Padded(v[4], w[4]) + [m[4]] + (Padded(v[5], w[5]) + [m[5]])))))
  {
    var r := Render(v[5..], w[5..], m[5..]);
    assert r == Padded(v[5], w[5]) + [m[5]] + Render(v[6..], w[6..], m[6..]) by {
      assert v[5..][1..] == v[6..] && w[5..][1..] == w[6..] && m[5..][1..] == m[6..];
    }
    OnePart(v, w, m, 4);
    OnePart(v, w, m, 3);
    OnePart(v, w, m, 2);
    OnePart(v, w, m, 1);
    OnePart(v, w, m, 0);
    assert v[0..] == v && w[0..] == w && m[0..] == m;
  }

  lemma OnePart(v: seq<nat>, w: seq<nat>, m: string, i: nat)
    requires |v| == |w| == |m| && i < |v|
    ensures Render(v[i..], w[i..], m[i..])
         == Padded(v[i], w[i]) + [m[i]] + Render(v[i + 1..], w[i + 1..], m[i + 1..])
  {
  }

  lemma JoinedFromTheEnd(y: string, mo: string, d: string, h: string, mi: string, s: string)
    ensures Joined(y, mo, d, h, mi, s)
         == y + ['-'] + (mo + ['-'] + (d + [' '] + (h + [':'] + (mi + [':'] + (s + ['Z'])))))
  {
  }

  lemma JoinedIsRendered(v: seq<nat>)
    requires |v| == 6
    ensures Joined(Padded(v[0], 4), Padded(v[1], 2), Padded(v[2], 2), Padded(v[3], 2), Padded(v[4], 2), Padded(v[5], 2))
         == Render(v, WIDTHS, MARKS)
  {
    SixParts(v, WIDTHS, MARKS);
    JoinedFromTheEnd(
      Padded(v[0], 4), Padded(v[1], 2), Padded(v[2], 2), Padded(v[3], 2), Padded(v[4], 2), Padded(v[5], 2));
  }

  lemma LineIsRendered(ms: int)
    requires FourDigitYear(ms)
    ensures Line(ms) == Render(Fields(ms), WIDTHS, MARKS)
  {
    JoinedIsRendered(Fields(ms));
    FourDigitYearIff(ms);
    CivilFollowsCalendar(ms / 1000 / 86_400);
  }

  lemma PowersOfTen()
    ensures Pow10(2) == 100 && Pow10(4) == 10_000
  {
    assert Pow10(1) == 10 && Pow10(3) == 1000;
  }

  lemma FieldsFit(ms: int)
    requires FourDigitYear(ms)
    ensures Fits(Fields(ms), WIDTHS)
  {
    PowersOfTen();
    FourDigitYearIff(ms);
    CivilFollowsCalendar(ms / 1000 / 86_400);
  }

  lemma LexOfSix(a: seq<nat>, b: seq<nat>)
    requires |a| == |b| == 6
    ensures LexLess(a, b) <==>
      || a[0] < b[0]
      || (a[0] == b[0] && (a[1] < b[1] || (a[1] == b[1] && (a[2] < b[2] || (a[2] == b[2] &&
           (a[3] < b[3] || (a[3] == b[3] && (a[4] < b[4] || (a[4] == b[4] && a[5] < b[5])))))))))
  {
    LexStep(a, b, 0);
    LexStep(a, b, 1);
    LexStep(a, b, 2);
    LexStep(a, b, 3);
    LexStep(a, b, 4);
    LexStep(a, b, 5);
    assert a[0..] == a && b[0..] == b;
    assert a[6..] == [];
  }

  lemma LexStep(a: seq<nat>, b: seq<nat>, i: nat)
    requires |a| == |b| && i < |a|
    ensures LexLess(a[i..], b[i..]) <==> a[i] < b[i] || (a[i] == b[i] && LexLess(a[i + 1..], b[i + 1..]))
  {
  }

  /** Within a day, hours, minutes and seconds compare as the seconds do. */
  lemma ClockOrder(r: int, s: int)
    requires 0 <= r < 86_400 && 0 <= s < 86_400
    ensures r < s <==>
      || r / 3600 < s / 3600
      || (r / 3600 == s / 3600
          && (r % 3600 / 60 < s % 3600 / 60 || (r % 3600 / 60 == s % 3600 / 60 && r % 60 < s % 60)))
  {
  }

  /** For years 0 to 9999 the lines sort exactly as the seconds they show. */
  lemma LinesSortAsTimes(a: int, b: int)
    requires FourDigitYear(a) && FourDigitYear(b)
    ensures StrLess(Line(a), Line(b)) <==> a / 1000 < b / 1000
  {
    LineIsRendered(a);
    LineIsRendered(b);
    FieldsFit(a);
    FieldsFit(b);
    RenderOrder(Fields(a), Fields(b), WIDTHS, MARKS);
    FieldsOrder(a, b);
  }

  lemma FieldsOrder(a: int, b: int)
    requires FourDigitYear(a) && FourDigitYear(b)
    ensures LexLess(Fields(a), Fields(b)) <==> a / 1000 < b / 1000
  {
    var (s, t) := (a / 1000, b / 1000);
    LexOfSix(Fields(a), Fields(b));
    DaysKeepOrder(s / 86_400, t / 86_400);
    DaysKeepOrder(t / 86_400, s / 86_400);
    ClockOrder(s % 86_400, t % 86_400);
  }

  // ---------------------------------------------------------------------------
  // Reading a line back
  // ---------------------------------------------------------------------------

  /** What decimal digits stand for. */
  function ReadNumber(digits: string): int {
    if digits == [] then 0
    else 10 * ReadNumber(digits[..|digits| - 1]) + (digits[|digits| - 1] as int - '0' as int)
  }

  function ReadInt(text: string): int {
    if text != [] && text[0] == '-' then -ReadNumber(text[1..]) else ReadNumber(text)
  }

  predicate Digits(s: string) {
    forall c :: c in s ==> '0' <= c <= '9'
  }

  lemma {:induction false} PaddedReads(n: nat, width: nat)
    ensures Digits(Padded(n, width)) && Padded(n, width) != [] && ReadNumber(Padded(n, width)) == n
    decreases n, width
  {
    if n < 10 && width <= 1 {
      assert Padded(n, width)[..0] == [];
    } else {
      var high := Padded(n / 10, if width == 0 then 0 else width - 1);
      PaddedReads(n / 10, if width == 0 then 0 else width - 1);
      assert Padded(n, width)[..|high|] == high;
    }
  }

  lemma PaddedIntReads(n: int, width: nat)
    ensures ReadInt(PaddedInt(n, width)) == n
  {
    if n >= 0 {
      PaddedReads(n, width);
      assert PaddedInt(n, width)[0] in PaddedInt(n, width);
    } else {
      PaddedReads(-n, if width == 0 then 0 else width - 1);
    }
  }

  lemma TwoDigits(n: int)
    requires 0 <= n < 100
    ensures |PaddedInt(n, 2)| == 2 && ReadInt(PaddedInt(n, 2)) == n
  {
    PowersOfTen();
    PaddedWidth(n, 2);
    PaddedIntReads(n, 2);
  }

  /** The number between two places of a line, counted from where its year ends. */
  function ReadAt(line: string, at: nat): int
    requires at + 2 <= |line|
  {
    ReadInt(line[at..at + 2])
  }

  /** The second a line shows, read by the place of its parts alone. */
  function ReadLine(line: string): int
    requires |line| >= 16
  {
    var y := |line| - 16;
    DayNumber(Date(ReadInt(line[..y]), ReadAt(line, y + 1), ReadAt(line, y + 4))) * 86_400
    + ReadAt(line, y + 7) * 3600 + ReadAt(line, y + 10) * 60 + ReadAt(line, y + 13)
  }

  lemma PartsOfLine(y: string, mo: string, d: string, h: string, mi: string, s: string)
    requires |mo| == |d| == |h| == |mi| == |s| == 2
    ensures var (line, n) := (Joined(y, mo, d, h, mi, s), |y|);
      && |line| == n + 16 && line[..n] == y && line[n + 1..n + 3] == mo && line[n + 4..n + 6] == d
      && line[n + 7..n + 9] == h && line[n + 10..n + 12] == mi && line[n + 13..n + 15] == s
      && line[n] == '-' && line[n + 3] == '-' && line[n + 6] == ' ' && line[n + 9] == ':' && line[n + 12] == ':'
      && line[n + 15] == 'Z'
  {
  }

  lemma JoinedReads(y: int, mo: int, d: int, h: int, mi: int, s: int)
    requires 0 <= mo < 100 && 0 <= d < 100 && 0 <= h < 100 && 0 <= mi < 100 && 0 <= s < 100
    ensures var line := Joined(PaddedInt(y, 4), PaddedInt(mo, 2), PaddedInt(d, 2),
                               PaddedInt(h, 2), PaddedInt(mi, 2), PaddedInt(s, 2));
      && |line| >= 16 && Marked(line)
      && ReadLine(line) == DayNumber(Date(y, mo, d)) * 86_400 + h * 3600 + mi * 60 + s
  {
    PaddedIntReads(y, 4);
    TwoDigits(mo);
    TwoDigits(d);
    TwoDigits(h);
    TwoDigits(mi);
    TwoDigits(s);
    PartsOfLine(PaddedInt(y, 4), PaddedInt(mo, 2), PaddedInt(d, 2),
                PaddedInt(h, 2), PaddedInt(mi, 2), PaddedInt(s, 2));
  }

  /** The marks of a line, counted from its end. */
  predicate Marked(line: string)
    requires |line| >= 16
  {
    var y := |line| - 16;
    && line[y] == '-' && line[y + 3] == '-' && line[y + 6] == ' ' && line[y + 9] == ':' && line[y + 12] == ':'
    && line[y + 15] == 'Z'
  }

  /** Every line, of whatever year, shows the very second it was made from, in the same places with the same marks. */
  lemma LineReadsBack(ms: int)
    ensures |Line(ms)| >= 16 && Marked(Line(ms)) && ReadLine(Line(ms)) == ms / 1000
  {
    var secs := ms / 1000;
    var rem := secs % 86_400;
    var date := Civil(secs / 86_400);
    CivilFollowsCalendar(secs / 86_400);
    DayNumberOfCivil(secs / 86_400);
    ClockAdds(rem);
    JoinedReads(date.year, date.month, date.day, rem / 3600, rem % 3600 / 60, rem % 60);
  }

  lemma ClockAdds(rem: int)
    requires 0 <= rem < 86_400
    ensures rem / 3600 * 3600 + rem % 3600 / 60 * 60 + rem % 60 == rem
    ensures 0 <= rem / 3600 < 100 && 0 <= rem % 3600 / 60 < 100
  {
  }
}
