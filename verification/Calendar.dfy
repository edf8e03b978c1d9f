/**
  Showing a time: day numbers to dates, by arithmetic alone.

  The calendar is the proleptic Gregorian one of RFC 3339: section 5.7 gives the month lengths and
  Appendix C the leap-year rule.
 */
module Calendar {

  datatype Date = Date(year: int, month: int, day: int)

  // ---------------------------------------------------------------------------
  // The calendar
  // ---------------------------------------------------------------------------

  predicate Leap(year: int) {
    year % 4 == 0 && (year % 100 != 0 || year % 400 == 0)
  }

  function DaysIn(year: int, month: int): int {
    if month == 2 then if Leap(year) then 29 else 28
    else if month in {4, 6, 9, 11} then 30
    else 31
  }

  predicate Valid(d: Date) {
    1 <= d.month <= 12 && 1 <= d.day <= DaysIn(d.year, d.month)
  }

  /** The next day. */
  function Successor(d: Date): Date {
    if d.day < DaysIn(d.year, d.month) then d.(day := d.day + 1)
    else if d.month < 12 then Date(d.year, d.month + 1, 1)
    else Date(d.year + 1, 1, 1)
  }

  predicate Earlier(a: Date, b: Date) {
    || a.year < b.year
    || (a.year == b.year && (a.month < b.month || (a.month == b.month && a.day < b.day)))
  }

  // ---------------------------------------------------------------------------
  // The conversion
  // ---------------------------------------------------------------------------

  /** Days since 1970-01-01 to a date.  Years are counted from March, in eras of 400. */
  function Civil(days: int): Date {
    var z := days + 719_468;
    CivilInEra(z / 146_097, z % 146_097)
  }

  function YearOfEra(doe: int): int {
    (doe - doe / 1460 + doe / 36_524 - doe / 146_096) / 365
  }

  function CivilInEra(era: int, doe: int): Date {
    var yoe := YearOfEra(doe);
    FromMarch(yoe + era * 400, doe - (365 * yoe + yoe / 4 - yoe / 100))
  }

  /** Day `doy` of the year that starts in March of `y`. */
  function FromMarch(y: int, doy: int): Date {
    var mp := (5 * doy + 2) / 153;
    var d := doy - (153 * mp + 2) / 5 + 1;
    var m := if mp < 10 then mp + 3 else mp - 9;
    Date(if m <= 2 then y + 1 else y, m, d)
  }

  /** Days from the start of an era to its `yoe`th March. */
  function EraDays(yoe: int): int {
    365 * yoe + yoe / 4 - yoe / 100
  }

  function MarchYearLength(y: int): int {
    if Leap(y + 1) then 366 else 365
  }

  lemma SplitLength(c: int, q: int, s: int)
    requires 0 <= c <= 3 && 0 <= q <= 24 && 0 <= s <= 3
    ensures MarchYearLength(100 * c + 4 * q + s) == if s == 3 && (q == 24 ==> c == 3) then 366 else 365
    ensures EraDays(100 * c + 4 * q + s) == 36_524 * c + 1461 * q + 365 * s
  {
  }

  lemma Quotients(c: int, q: int, s: int, t: int)
    requires 0 <= c <= 3 && 0 <= q <= 24 && 0 <= s <= 3
    requires 0 <= t < if s == 3 && (q == 24 ==> c == 3) then 366 else 365
    ensures var doe := 36_524 * c + 1461 * q + 365 * s + t;
      && 0 <= doe < 146_097 && doe / 36_524 - doe / 146_096 == c
      && doe / 1460 == 25 * c + q + (if s == 3 && 24 * c + q + t >= 365 then 1 else 0)
  {
  }

  /** The year-of-era formula, with the year and the day split by century, leap cycle and year. */
  lemma YearOfEraIs(c: int, q: int, s: int, t: int)
    requires 0 <= c <= 3 && 0 <= q <= 24 && 0 <= s <= 3
    requires 0 <= t < MarchYearLength(100 * c + 4 * q + s)
    ensures var (yoe, doe) := (100 * c + 4 * q + s, 36_524 * c + 1461 * q + 365 * s + t);
      0 <= doe < 146_097 && EraDays(yoe) + t == doe && YearOfEra(doe) == yoe
  {
    SplitLength(c, q, s);
    Quotients(c, q, s, t);
  }

  /** The number of the day that is `t` days into the `yoe`th March year of an era. */
  function DayOf(era: int, yoe: int, t: int): int {
    146_097 * era + EraDays(yoe) + t - 719_468
  }

  lemma EraOf(era: int, doe: int)
    requires 0 <= doe < 146_097
    ensures (146_097 * era + doe) / 146_097 == era && (146_097 * era + doe) % 146_097 == doe
  {
  }

  lemma SplitYear(yoe: int) returns (c: int, q: int, s: int)
    requires 0 <= yoe < 400
    ensures 0 <= c <= 3 && 0 <= q <= 24 && 0 <= s <= 3 && yoe == 100 * c + 4 * q + s
  {
    c, q, s := yoe / 100, yoe % 100 / 4, yoe % 4;
  }

  lemma YearOfEraFinds(yoe: int, t: int)
    requires 0 <= yoe < 400 && 0 <= t < MarchYearLength(yoe)
    ensures 0 <= EraDays(yoe) + t < 146_097 && YearOfEra(EraDays(yoe) + t) == yoe
  {
    var c, q, s := SplitYear(yoe);
    YearOfEraIs(c, q, s, t);
  }

  /** The formula finds the very year and day a day number was made of. */
  lemma CivilOfMarch(era: int, yoe: int, t: int)
    requires 0 <= yoe < 400 && 0 <= t < MarchYearLength(yoe)
    ensures Civil(DayOf(era, yoe, t)) == FromMarch(400 * era + yoe, t)
  {
    YearOfEraFinds(yoe, t);
    var doe := EraDays(yoe) + t;
    EraOf(era, doe);
    assert DayOf(era, yoe, t) + 719_468 == 146_097 * era + doe;
    assert CivilInEra(era, doe) == FromMarch(400 * era + yoe, t);
  }

  /** Every day number is made of an era, a year of it and a day of that. */
  lemma Split(days: int) returns (era: int, yoe: int, t: int)
    ensures 0 <= yoe < 400 && 0 <= t < MarchYearLength(yoe)
    ensures days == DayOf(era, yoe, t)
  {
    var z := days + 719_468;
    era := z / 146_097;
    var doe := z % 146_097;
    var c, q, s;
    c, q, s, t := SplitEra(doe);
    yoe := 100 * c + 4 * q + s;
    YearOfEraIs(c, q, s, t);
  }

  lemma SplitEra(doe: int) returns (c: int, q: int, s: int, t: int)
    requires 0 <= doe < 146_097
    ensures 0 <= c <= 3 && 0 <= q <= 24 && 0 <= s <= 3
    ensures 0 <= t < MarchYearLength(100 * c + 4 * q + s)
    ensures doe == 36_524 * c + 1461 * q + 365 * s + t
  {
    c := if doe / 36_524 > 3 then 3 else doe / 36_524;
    var r := doe - 36_524 * c;
    q := r / 1461;
    var u := r - 1461 * q;
    s := if u / 365 > 3 then 3 else u / 365;
    t := u - 365 * s;
    assert 0 <= r <= 36_524 && (c < 3 ==> r < 36_524);
    assert 0 <= u <= 1460 && (u == 1460 && c < 3 ==> q < 24);
    assert t == 365 ==> s == 3 && u == 1460;
  }

  lemma NextInYear(y: int, t: int)
    requires 0 <= t < MarchYearLength(y) - 1
    ensures FromMarch(y, t + 1) == Successor(FromMarch(y, t))
    ensures Valid(FromMarch(y, t))
  {
  }

  lemma LastOfYear(y: int)
    ensures FromMarch(y + 1, 0) == Successor(FromMarch(y, MarchYearLength(y) - 1))
    ensures Valid(FromMarch(y, MarchYearLength(y) - 1))
  {
  }

  lemma Multiples(n: int)
    ensures n / 4 - (n - 1) / 4 == if n % 4 == 0 then 1 else 0
    ensures n / 100 - (n - 1) / 100 == if n % 100 == 0 then 1 else 0
    ensures n / 400 - (n - 1) / 400 == if n % 400 == 0 then 1 else 0
    ensures n % 400 == 0 ==> n % 100 == 0
    ensures n % 100 == 0 ==> n % 4 == 0
  {
  }

  lemma YearsFollow(era: int, yoe: int)
    requires 0 <= yoe < 399
    ensures DayOf(era, yoe, MarchYearLength(yoe)) == DayOf(era, yoe + 1, 0)
  {
    Multiples(yoe + 1);
  }

  lemma ErasFollow(era: int)
    ensures DayOf(era, 399, MarchYearLength(399)) == DayOf(era + 1, 0, 0)
  {
  }

  lemma LengthRepeats(era: int, yoe: int)
    ensures MarchYearLength(400 * era + yoe) == MarchYearLength(yoe)
  {
    var n := yoe + 1;
    var by4, by100, by400 := n / 4, n / 100, n / 400;
    assert 400 * era + n == 4 * (100 * era + by4) + n % 4;
    assert 400 * era + n == 100 * (4 * era + by100) + n % 100;
    assert 400 * era + n == 400 * (era + by400) + n % 400;
    Remainders(100 * era + by4, n % 4, 4 * era + by100, n % 100, era + by400, n % 400);
  }

  lemma Remainders(a: int, r: int, b: int, s: int, c: int, t: int)
    requires 0 <= r < 4 && 0 <= s < 100 && 0 <= t < 400
    ensures (4 * a + r) % 4 == r && (100 * b + s) % 100 == s && (400 * c + t) % 400 == t
  {
  }

  /** Each day's date is valid, and the next day's date is the one after it: within a March year. */
  lemma NextDay(era: int, yoe: int, t: int)
    requires 0 <= yoe < 400 && 0 <= t < MarchYearLength(yoe) - 1
    ensures Valid(Civil(DayOf(era, yoe, t)))
    ensures Civil(DayOf(era, yoe, t + 1)) == Successor(Civil(DayOf(era, yoe, t)))
  {
    CivilOfMarch(era, yoe, t);
    CivilOfMarch(era, yoe, t + 1);
    LengthRepeats(era, yoe);
    NextInYear(400 * era + yoe, t);
  }

  /** And from the last day of February to the first of March. */
  lemma NextYear(era: int, yoe: int)
    requires 0 <= yoe < 400
    ensures var t := MarchYearLength(yoe) - 1;
      && Valid(Civil(DayOf(era, yoe, t)))
      && Civil(DayOf(era, yoe, t + 1)) == Successor(Civil(DayOf(era, yoe, t)))
  {
    CivilOfMarch(era, yoe, MarchYearLength(yoe) - 1);
    LengthRepeats(era, yoe);
    LastOfYear(400 * era + yoe);
    FirstOfMarch(era, yoe);
  }

  lemma FirstOfMarch(era: int, yoe: int)
    requires 0 <= yoe < 400
    ensures Civil(DayOf(era, yoe, MarchYearLength(yoe))) == FromMarch(400 * era + yoe + 1, 0)
  {
    if yoe < 399 {
      YearsFollow(era, yoe);
      CivilOfMarch(era, yoe + 1, 0);
    } else {
      ErasFollow(era);
      CivilOfMarch(era + 1, 0, 0);
    }
  }

  lemma DayZero()
    ensures Civil(0) == Date(1970, 1, 1)
  {
    assert 719_468 / 146_097 == 4 && 719_468 % 146_097 == 135_080;
    assert YearOfEra(135_080) == 369;
    assert FromMarch(1969, 306) == Date(1970, 1, 1);
  }

  /** Day 0 is 1970-01-01, every day's date is valid, and the next day's date is the date after it. */
  lemma CivilFollowsCalendar(days: int)
    ensures Civil(0) == Date(1970, 1, 1)
    ensures Valid(Civil(days))
    ensures Civil(days + 1) == Successor(Civil(days))
  {
    DayZero();
    var era, yoe, t := Split(days);
    assert days + 1 == DayOf(era, yoe, t + 1);
    if t + 1 < MarchYearLength(yoe) {
      NextDay(era, yoe, t);
    } else {
      NextYear(era, yoe);
    }
  }

  // ---------------------------------------------------------------------------
  // A bijection onto valid dates
  // ---------------------------------------------------------------------------

  /** Days from 1970-01-01 to the first of January of `year`. */
  function YearStart(year: int): int {
    365 * (year - 1) + (year - 1) / 4 - (year - 1) / 100 + (year - 1) / 400 - 719_162
  }

  function MonthStart(year: int, month: int): int {
    if month <= 1 then 0 else MonthStart(year, month - 1) + DaysIn(year, month - 1)
  }

  /** The number of days from 1970-01-01, counted out year by year and month by month. */
  function DayNumber(d: Date): int {
    YearStart(d.year) + MonthStart(d.year, d.month) + d.day - 1
  }

  lemma YearLength(year: int)
    ensures MonthStart(year, 12) + 31 == if Leap(year) then 366 else 365
  {
    var february := DaysIn(year, 2);
    assert MonthStart(year, 1) == 0;
    assert MonthStart(year, 2) == 31;
    assert MonthStart(year, 3) == 31 + february;
    assert MonthStart(year, 4) == 62 + february;
    assert MonthStart(year, 5) == 92 + february;
    assert MonthStart(year, 6) == 123 + february;
    assert MonthStart(year, 7) == 153 + february;
    assert MonthStart(year, 8) == 184 + february;
    assert MonthStart(year, 9) == 215 + february;
    assert MonthStart(year, 10) == 245 + february;
    assert MonthStart(year, 11) == 276 + february;
    assert MonthStart(year, 12) == 306 + february;
  }

  lemma YearStarts(year: int)
    ensures YearStart(year + 1) == YearStart(year) + MonthStart(year, 12) + 31
  {
    YearLength(year);
    Multiples(year);
  }

  lemma SuccessorCounts(d: Date)
    requires Valid(d)
    ensures Valid(Successor(d)) && DayNumber(Successor(d)) == DayNumber(d) + 1
  {
    YearStarts(d.year);
  }

  lemma CountZero()
    ensures DayNumber(Date(1970, 1, 1)) == 0
  {
  }

  function Recount(): int -> int {
    (days: int) => DayNumber(Civil(days))
  }

  lemma RecountNext(days: int)
    ensures StepsByOne(Recount(), days)
  {
    CivilFollowsCalendar(days);
    SuccessorCounts(Civil(days));
  }

  lemma RecountZero()
    ensures Recount()(0) == 0
  {
    DayZero();
    CountZero();
  }

  predicate StepsByOne(f: int -> int, n: int) {
    f(n + 1) == f(n) + 1
  }

  lemma {:induction false} CountsByOne(f: int -> int, n: int)
    requires f(0) == 0 && forall k :: StepsByOne(f, k)
    ensures f(n) == n
    decreases if n < 0 then -n else n
  {
    if n > 0 {
      CountsByOne(f, n - 1);
      assert StepsByOne(f, n - 1);
    } else if n < 0 {
      CountsByOne(f, n + 1);
      assert StepsByOne(f, n);
    }
  }

  /** Counting a day's date out again gives the day back. */
  lemma DayNumberOfCivil(days: int)
    ensures DayNumber(Civil(days)) == days
  {
    RecountZero();
    forall n ensures StepsByOne(Recount(), n) {
      RecountNext(n);
    }
    CountsByOne(Recount(), days);
  }

  lemma {:induction false} MonthsUp(year: int, a: int, b: int)
    requires 1 <= a < b <= 12
    ensures MonthStart(year, a) + DaysIn(year, a) <= MonthStart(year, b)
    decreases b
  {
    if a + 1 < b {
      MonthsUp(year, a, b - 1);
    }
  }

  lemma EarlierCountsLess(a: Date, b: Date)
    requires Valid(a) && Valid(b) && Earlier(a, b)
    ensures DayNumber(a) < DayNumber(b)
  {
    if a.year < b.year {
      YearStarts(a.year);
      assert YearStart(a.year + 1) <= YearStart(b.year);
      if a.month < 12 {
        MonthsUp(a.year, a.month, 12);
      }
      MonthsAreNatural(b.year, b.month);
    } else if a.month < b.month {
      MonthsUp(a.year, a.month, b.month);
    }
  }

  lemma {:induction false} MonthsAreNatural(year: int, month: int)
    ensures MonthStart(year, month) >= 0
    decreases month
  {
    if month > 1 {
      MonthsAreNatural(year, month - 1);
    }
  }

  /** Every valid date is some day's, and only that day's. */
  lemma CivilOfDayNumber(d: Date)
    requires Valid(d)
    ensures Civil(DayNumber(d)) == d
  {
    var e := Civil(DayNumber(d));
    DayNumberOfCivil(DayNumber(d));
    CivilFollowsCalendar(DayNumber(d));
    if e != d {
      if Earlier(e, d) {
        EarlierCountsLess(e, d);
      } else {
        EarlierCountsLess(d, e);
      }
    }
  }

  lemma DaysKeepOrder(a: int, b: int)
    ensures a < b <==> Earlier(Civil(a), Civil(b))
  {
    CivilFollowsCalendar(a);
    CivilFollowsCalendar(b);
    DayNumberOfCivil(a);
    DayNumberOfCivil(b);
    if a < b && !Earlier(Civil(a), Civil(b)) && Civil(a) != Civil(b) {
      EarlierCountsLess(Civil(b), Civil(a));
    }
    if Earlier(Civil(a), Civil(b)) {
      EarlierCountsLess(Civil(a), Civil(b));
    }
  }

  /** The days of a year, and of all later ones, are those from its first of January on. */
  lemma YearStartsAt(day: int, year: int)
    ensures day >= YearStart(year) <==> Civil(day).year >= year
  {
    var first := Date(year, 1, 1);
    NewYearsDay(year);
    CivilOfDayNumber(first);
    CivilFollowsCalendar(day);
    DaysKeepOrder(day, YearStart(year));
  }

  lemma NewYearsDay(year: int)
    ensures Valid(Date(year, 1, 1)) && DayNumber(Date(year, 1, 1)) == YearStart(year)
  {
  }
}
