/** Report timestamps: epoch nanoseconds printed as Gregorian dates, checked against a plain calendar. */
module Calendar {
  import opened PowersOfTwo
  import opened Text

  const NS_PER_DAY: int := 86_400_000_000_000
  const NS_PER_SECOND: int := 1_000_000_000

  type i64 = n: int | -0x8000_0000_0000_0000 <= n < 0x8000_0000_0000_0000

  datatype Date = Date(year: int, month: int, day: int)

  // ---------------------------------------------------------------------------------------------
  // The plain Gregorian calendar

  predicate IsLeap(y: int) {
    y % 4 == 0 && (y % 100 != 0 || y % 400 == 0)
  }

  function YearLength(y: int): nat {
    if IsLeap(y) then 366 else 365
  }

  function DaysInMonth(y: int, m: int): nat {
    if m == 2 then (if IsLeap(y) then 29 else 28)
    else if m == 4 || m == 6 || m == 9 || m == 11 then 30
    else 31
  }

  predicate ValidDate(d: Date) {
    1 <= d.month <= 12 && 1 <= d.day <= DaysInMonth(d.year, d.month)
  }

  /** What a wall calendar shows the morning after. */
  function Tomorrow(d: Date): Date {
    if d.day < DaysInMonth(d.year, d.month) then d.(day := d.day + 1)
    else if d.month < 12 then Date(d.year, d.month + 1, 1)
    else Date(d.year + 1, 1, 1)
  }

  /** Days from 1970-01-01 to the first of January of a year, one year at a time. */
  function YearStart(y: int): int
    decreases if y < 1970 then 1970 - y else y - 1970
  {
    if y == 1970 then 0
    else if y > 1970 then YearStart(y - 1) + YearLength(y - 1)
    else YearStart(y + 1) - YearLength(y)
  }

  /** Days of the year before the first of a month, one month at a time. */
  function MonthStart(y: int, m: int): nat {
    if m <= 1 then 0 else MonthStart(y, m - 1) + DaysInMonth(y, m - 1)
  }

  function DayNumber(d: Date): int {
    YearStart(d.year) + MonthStart(d.year, d.month) + d.day - 1
  }

  lemma YearStartStep(y: int)
    ensures YearStart(y + 1) == YearStart(y) + YearLength(y)
  {
  }

  lemma WholeYear(y: int)
    ensures MonthStart(y, 12) + 31 == YearLength(y)
  {
    var feb := DaysInMonth(y, 2);
    assert MonthStart(y, 3) == 31 + feb by { assert MonthStart(y, 2) == 31; }
    assert MonthStart(y, 5) == 92 + feb by { assert MonthStart(y, 4) == 62 + feb; }
    assert MonthStart(y, 7) == 153 + feb by { assert MonthStart(y, 6) == 123 + feb; }
    assert MonthStart(y, 9) == 215 + feb by { assert MonthStart(y, 8) == 184 + feb; }
    assert MonthStart(y, 11) == 276 + feb by { assert MonthStart(y, 10) == 245 + feb; }
  }

  lemma TomorrowIsOneDayLater(d: Date)
    requires ValidDate(d)
    ensures ValidDate(Tomorrow(d)) && DayNumber(Tomorrow(d)) == DayNumber(d) + 1
  {
    WholeYear(d.year);
    YearStartStep(d.year);
  }

  predicate Before(a: Date, b: Date) {
    a.year < b.year || (a.year == b.year && (a.month < b.month || (a.month == b.month && a.day < b.day)))
  }

  lemma {:induction false} MonthStartMonotone(y: int, m: int, n: int)
    requires 1 <= m < n
    ensures MonthStart(y, m) + DaysInMonth(y, m) <= MonthStart(y, n)
    decreases n
  {
    if m < n - 1 { MonthStartMonotone(y, m, n - 1); }
  }

  lemma {:induction false} YearStartMonotone(y: int, z: int)
    requires y < z
    ensures YearStart(y) + YearLength(y) <= YearStart(z)
    decreases z - y
  {
    YearStartStep(z - 1);
    if y < z - 1 { YearStartMonotone(y, z - 1); }
  }

  lemma DayOfYearBounds(d: Date)
    requires ValidDate(d)
    ensures YearStart(d.year) <= DayNumber(d) < YearStart(d.year) + YearLength(d.year)
  {
    WholeYear(d.year);
    if d.month < 12 { MonthStartMonotone(d.year, d.month, 12); }
  }

  /** Day numbers order valid dates exactly as the calendar does. */
  lemma DayNumberOrder(a: Date, b: Date)
    requires ValidDate(a) && ValidDate(b)
    ensures DayNumber(a) < DayNumber(b) <==> Before(a, b)
    ensures DayNumber(a) == DayNumber(b) <==> a == b
  {
    OrderOneWay(a, b);
    OrderOneWay(b, a);
  }

  lemma OrderOneWay(a: Date, b: Date)
    requires ValidDate(a) && ValidDate(b)
    ensures Before(a, b) ==> DayNumber(a) < DayNumber(b)
  {
    DayOfYearBounds(a);
    DayOfYearBounds(b);
    if a.year < b.year {
      YearStartMonotone(a.year, b.year);
    } else if a.month < b.month && a.year == b.year {
      MonthStartMonotone(a.year, a.month, b.month);
    }
  }

  // ---------------------------------------------------------------------------------------------
  // The printer's algorithm

  function YearOfEra(doe: int): int {
    (doe - doe / 1460 + doe / 36_524 - doe / 146_096) / 365
  }

  function YearOffset(yoe: int): int {
    365 * yoe + yoe / 4 - yoe / 100
  }

  /** Month and day from the day of a year that begins in March, and the civil year that contains them. */
  function FromMarchYear(y: int, doy: int): Date {
    var mp := (5 * doy + 2) / 153;
    var d := doy - (153 * mp + 2) / 5 + 1;
    var m := if mp < 10 then mp + 3 else mp - 9;
    Date(if m <= 2 then y + 1 else y, m, d)
  }

  /** The date of a day of a 400-year era. */
  function EraDate(era: int, doe: int): Date {
    var yoe := YearOfEra(doe);
    FromMarchYear(yoe + era * 400, doe - YearOffset(yoe))
  }

  function CivilFromDays(days: int): Date {
    var z := days + 719_468;
    EraDate(z / 146_097, z % 146_097)
  }

  /** A year that begins in March ends with the February of the next civil year. */
  function MarchYearLength(y: int): nat {
    YearLength(y + 1)
  }

  /** The quotient formula finds the March year that contains the day. */
  lemma YearOfEraIsExact(doe: int)
    requires 0 <= doe < 146_097
    ensures var yoe := YearOfEra(doe);
            0 <= yoe < 400 && YearOffset(yoe) <= doe < YearOffset(yoe) + MarchYearLength(yoe)
  {
    var c := if doe == 146_096 then 3 else doe / 36_524;
    var r := doe - 36_524 * c;
    var q, s := r / 1461, r % 1461;
    var e := (24 * c + q + s) / 1460;
    assert doe == 36_524 * c + 1461 * q + s;
    assert doe / 1460 == 25 * c + q + e by {
      assert doe == 1460 * (25 * c + q) + (24 * c + q + s);
    }
    assert doe / 36_524 - doe / 146_096 == c;
    var t := (s - e) / 365;
    assert YearOfEra(doe) == 100 * c + 4 * q + t;
    YearInCycle(c, q, s, e, t);
  }

  lemma YearInCycle(c: int, q: int, s: int, e: int, t: int)
    requires 0 <= c <= 3 && 0 <= q <= 24 && 0 <= s <= 1460
    requires 1461 * q + s < 36_524 || (c == 3 && 1461 * q + s == 36_524)
    requires e == (24 * c + q + s) / 1460 && t == (s - e) / 365
    ensures 0 <= t <= 3
    ensures var yoe := 100 * c + 4 * q + t;
            YearOffset(yoe) <= 36_524 * c + 1461 * q + s < YearOffset(yoe) + MarchYearLength(yoe)
  {
    var yoe := 100 * c + 4 * q + t;
    assert YearOffset(yoe) == 36_524 * c + 1461 * q + 365 * t by {
      assert yoe / 4 == 25 * c + q;
      assert yoe / 100 == c;
    }
    if s == 1460 {
      assert IsLeap(yoe + 1);
    }
  }

  lemma YearOffsetStep(yoe: int)
    requires 0 <= yoe < 399
    ensures YearOffset(yoe + 1) == YearOffset(yoe) + MarchYearLength(yoe)
  {
    QuarterCarry(yoe);
    CenturyCarry(yoe);
    LeapInEra(yoe + 1);
    hide IsLeap;
  }

  lemma QuarterCarry(n: int)
    ensures (n + 1) / 4 == n / 4 + if (n + 1) % 4 == 0 then 1 else 0
  {
  }

  lemma CenturyCarry(n: int)
    ensures (n + 1) / 100 == n / 100 + if (n + 1) % 100 == 0 then 1 else 0
  {
  }

  lemma LeapInEra(y: int)
    requires 0 < y < 400
    ensures IsLeap(y) <==> y % 4 == 0 && y % 100 != 0
    ensures y % 100 == 0 ==> y % 4 == 0
  {
  }

  lemma {:induction false} YearOffsetMonotone(y: int, z: int)
    requires 0 <= y < z < 400
    ensures YearOffset(y) + MarchYearLength(y) <= YearOffset(z)
    decreases z - y
  {
    YearOffsetStep(z - 1);
    if y < z - 1 { YearOffsetMonotone(y, z - 1); }
  }

  /** Only one March year contains the day. */
  lemma YearOfEraUnique(doe: int, y: int)
    requires 0 <= doe < 146_097 && 0 <= y < 400
    requires YearOffset(y) <= doe < YearOffset(y) + MarchYearLength(y)
    ensures YearOfEra(doe) == y
  {
    YearOfEraIsExact(doe);
    var yoe := YearOfEra(doe);
    if yoe < y { YearOffsetMonotone(yoe, y); }
    if y < yoe { YearOffsetMonotone(y, yoe); }
  }

  lemma LeapCycle(y: int, era: int)
    ensures IsLeap(y + era * 400) <==> IsLeap(y)
  {
    AddMultiple(y, era * 100, 4);
    AddMultiple(y, era * 4, 100);
    AddMultiple(y, era, 400);
  }

  /** The month formula is right for every day of a March year. */
  lemma FromMarchYearIsValid(y: int, doy: int)
    requires 0 <= doy < MarchYearLength(y)
    ensures ValidDate(FromMarchYear(y, doy))
  {
    var mp := (5 * doy + 2) / 153;
    assert 0 <= mp <= 11;
  }

  lemma FromMarchYearStep(y: int, doy: int)
    requires 0 <= doy < MarchYearLength(y)
    ensures Tomorrow(FromMarchYear(y, doy)) ==
            if doy + 1 < MarchYearLength(y) then FromMarchYear(y, doy + 1) else FromMarchYear(y + 1, 0)
  {
    var mp := (5 * doy + 2) / 153;
    assert 0 <= mp <= 11;
  }

  lemma EraDateInYear(era: int, doe: int, yoe: int)
    requires 0 <= doe < 146_097 && 0 <= yoe < 400
    requires YearOffset(yoe) <= doe < YearOffset(yoe) + MarchYearLength(yoe)
    ensures EraDate(era, doe) == FromMarchYear(yoe + era * 400, doe - YearOffset(yoe))
    ensures MarchYearLength(yoe + era * 400) == MarchYearLength(yoe)
  {
    hide FromMarchYear, YearOfEra, IsLeap;
    YearOfEraUnique(doe, yoe);
    LeapCycle(yoe + 1, era);
    assert yoe + era * 400 + 1 == (yoe + 1) + era * 400;
  }

  lemma LastDayOfEra(yoe: int)
    requires 0 <= yoe < 400 && YearOffset(yoe) <= 146_096 < YearOffset(yoe) + MarchYearLength(yoe)
    ensures yoe == 399 && 146_097 == YearOffset(399) + MarchYearLength(399)
  {
    if yoe < 399 { YearOffsetMonotone(yoe, 399); }
  }

  lemma NextDayOfEra(era: int, doe: int)
    requires 0 <= doe < 146_097
    ensures ValidDate(EraDate(era, doe))
    ensures Tomorrow(EraDate(era, doe)) == if doe < 146_096 then EraDate(era, doe + 1) else EraDate(era + 1, 0)
  {
    YearOfEraIsExact(doe);
    NextDayOfYear(era, doe, YearOfEra(doe));
  }

  lemma NextDayOfYear(era: int, doe: int, yoe: int)
    requires 0 <= doe < 146_097 && 0 <= yoe < 400
    requires YearOffset(yoe) <= doe < YearOffset(yoe) + MarchYearLength(yoe)
    ensures ValidDate(EraDate(era, doe))
    ensures Tomorrow(EraDate(era, doe)) == if doe < 146_096 then EraDate(era, doe + 1) else EraDate(era + 1, 0)
  {
    hide FromMarchYear, EraDate, Tomorrow;
    var doy := doe - YearOffset(yoe);
    EraDateInYear(era, doe, yoe);
    FromMarchYearIsValid(yoe + era * 400, doy);
    FromMarchYearStep(yoe + era * 400, doy);
    if doe == 146_096 {
      LastDayOfEra(yoe);
      EraDateInYear(era + 1, 0, 0);
    } else if doy + 1 < MarchYearLength(yoe) {
      EraDateInYear(era, doe + 1, yoe);
    } else {
      assert yoe < 399 by { assert YearOffset(399) + MarchYearLength(399) == 146_097; }
      YearOffsetStep(yoe);
      EraDateInYear(era, doe + 1, yoe + 1);
    }
  }

  lemma NextQuotient(z: int)
    ensures z % 146_097 < 146_096 ==> (z + 1) / 146_097 == z / 146_097 && (z + 1) % 146_097 == z % 146_097 + 1
    ensures z % 146_097 == 146_096 ==> (z + 1) / 146_097 == z / 146_097 + 1 && (z + 1) % 146_097 == 0
  {
  }

  /** Consecutive day counts print consecutive calendar dates, over all of history. */
  lemma ConsecutiveDays(days: int)
    ensures ValidDate(CivilFromDays(days))
    ensures CivilFromDays(days + 1) == Tomorrow(CivilFromDays(days))
  {
    hide Tomorrow, EraDate;
    var z := days + 719_468;
    NextQuotient(z);
    NextDayOfEra(z / 146_097, z % 146_097);
  }

  lemma EpochIsDayZero()
    ensures CivilFromDays(0) == Date(1970, 1, 1)
    ensures DayNumber(Date(1970, 1, 1)) == 0
  {
  }

  /** Any way of numbering days that starts at the epoch and follows the wall calendar counts days correctly. */
  lemma {:induction false} DayByDay(f: int -> Date, n: int)
    requires forall k :: ValidDate(f(k)) && f(k + 1) == Tomorrow(f(k))
    requires f(0) == Date(1970, 1, 1)
    ensures DayNumber(f(n)) == n
    decreases if n < 0 then -n else n
  {
    hide Tomorrow, DayNumber, ValidDate;
    if n == 0 {
      EpochIsDayZero();
    } else if n > 0 {
      DayByDay(f, n - 1);
      TomorrowIsOneDayLater(f(n - 1));
    } else {
      DayByDay(f, n + 1);
      TomorrowIsOneDayLater(f(n));
    }
  }

  /** The printed date is the one whose day number is the day count. */
  lemma CivilIsCorrect(days: int)
    ensures ValidDate(CivilFromDays(days)) && DayNumber(CivilFromDays(days)) == days
  {
    hide CivilFromDays, DayNumber, Tomorrow, ValidDate;
    var f := (k: int) => CivilFromDays(k);
    forall k ensures ValidDate(f(k)) && f(k + 1) == Tomorrow(f(k)) {
      ConsecutiveDays(k);
    }
    EpochIsDayZero();
    DayByDay(f, days);
  }

  /** The inverse: every valid date is printed for its own day number. */
  lemma CivilIsOnto(d: Date)
    requires ValidDate(d)
    ensures CivilFromDays(DayNumber(d)) == d
  {
    CivilIsCorrect(DayNumber(d));
    DayNumberOrder(CivilFromDays(DayNumber(d)), d);
  }

  // ---------------------------------------------------------------------------------------------
  // Printed text

  function DateText(d: Date): string
    requires 0 <= d.year && 0 <= d.month && 0 <= d.day
  {
    Padded(d.year, 4) + "-" + Padded(d.month, 2) + "-" + Padded(d.day, 2)
  }

  lemma FirstAndLastDay()
    ensures CivilFromDays(-106_752) == Date(1677, 9, 21)
    ensures CivilFromDays(106_751) == Date(2262, 4, 11)
  {
    hide FromMarchYear, YearOfEra;
    assert CivilFromDays(-106_752) == EraDate(4, 28_328);
    assert CivilFromDays(106_751) == EraDate(5, 95_734);
    MarchDates();
  }

  lemma MarchDates()
    ensures YearOfEra(28_328) == 77 && YearOfEra(95_734) == 262
    ensures FromMarchYear(1677, 204) == Date(1677, 9, 21)
    ensures FromMarchYear(2262, 41) == Date(2262, 4, 11)
  {
  }

  lemma YearsOfDays(d: Date)
    requires ValidDate(d) && -106_752 <= DayNumber(d) <= 106_751
    ensures 1677 <= d.year <= 2262
  {
    hide CivilFromDays;
    FirstAndLastDay();
    CivilIsCorrect(-106_752);
    CivilIsCorrect(106_751);
    DayNumberOrder(d, Date(1677, 9, 21));
    DayNumberOrder(Date(2262, 4, 11), d);
  }

  lemma InstantsHaveFourDigitYears(ns: i64)
    ensures ValidDate(CivilFromDays(ns / NS_PER_DAY))
    ensures 1677 <= CivilFromDays(ns / NS_PER_DAY).year <= 2262
  {
    CivilIsCorrect(ns / NS_PER_DAY);
    YearsOfDays(CivilFromDays(ns / NS_PER_DAY));
  }

  function FmtDate(ns: i64): string {
    InstantsHaveFourDigitYears(ns);
    DateText(CivilFromDays(ns / NS_PER_DAY))
  }

  function SecondOfDay(ns: i64): nat {
    ns % NS_PER_DAY / NS_PER_SECOND
  }

  function Hour(ns: i64): nat {
    SecondOfDay(ns) / 3600
  }

  function Minute(ns: i64): nat {
    SecondOfDay(ns) % 3600 / 60
  }

  function FmtDatetime(ns: i64): string {
    FmtDate(ns) + " " + Padded(Hour(ns), 2) + ":" + Padded(Minute(ns), 2) + " UTC"
  }

  lemma TwoFields(u: string, v: string, separator: string, s: string, t: string)
    requires |u| == |v|
    ensures LexLess(u + separator + s, v + separator + t) <==> LexLess(u, v) || (u == v && LexLess(s, t))
    ensures u + separator + s == v + separator + t <==> u == v && s == t
  {
    assert u + separator + s == u + (separator + s) && v + separator + t == v + (separator + t);
    LexConcat(u, v, separator + s, separator + t);
    LexConcat(separator, separator, s, t);
    LexTrichotomy(separator, separator);
  }

  predicate Printable(d: Date) {
    ValidDate(d) && 0 <= d.year < 10_000
  }

  lemma DateTextOrder(a: Date, b: Date)
    requires Printable(a) && Printable(b)
    ensures LexLess(DateText(a), DateText(b)) <==> Before(a, b)
    ensures DateText(a) == DateText(b) <==> a == b
  {
    PaddedOrder(a.year, b.year, 4);
    PaddedOrder(a.month, b.month, 2);
    PaddedOrder(a.day, b.day, 2);
    TwoFields(Padded(a.year, 4), Padded(b.year, 4), "-", Padded(a.month, 2), Padded(b.month, 2));
    TwoFields(Padded(a.year, 4) + "-" + Padded(a.month, 2), Padded(b.year, 4) + "-" + Padded(b.month, 2), "-",
              Padded(a.day, 2), Padded(b.day, 2));
  }

  /** Printed dates sort as text exactly as the days they name, and are equal only within one day. */
  lemma FmtDateOrder(a: i64, b: i64)
    ensures LexLess(FmtDate(a), FmtDate(b)) <==> a / NS_PER_DAY < b / NS_PER_DAY
    ensures FmtDate(a) == FmtDate(b) <==> a / NS_PER_DAY == b / NS_PER_DAY
  {
    var da, db := CivilFromDays(a / NS_PER_DAY), CivilFromDays(b / NS_PER_DAY);
    InstantsHaveFourDigitYears(a);
    InstantsHaveFourDigitYears(b);
    CivilIsCorrect(a / NS_PER_DAY);
    CivilIsCorrect(b / NS_PER_DAY);
    DateTextOrder(da, db);
    DayNumberOrder(da, db);
  }

  const NS_PER_MINUTE: int := 60_000_000_000

  lemma MinuteOfInstant(ns: i64)
    ensures Hour(ns) < 24 && Minute(ns) < 60
    ensures ns / NS_PER_MINUTE == 1440 * (ns / NS_PER_DAY) + 60 * Hour(ns) + Minute(ns)
  {
    var day, rest := ns / NS_PER_DAY, ns % NS_PER_DAY;
    var secs := rest / NS_PER_SECOND;
    assert secs / 60 == 60 * (secs / 3600) + secs % 3600 / 60;
    assert rest / NS_PER_MINUTE == secs / 60;
    assert ns / NS_PER_MINUTE == 1440 * day + rest / NS_PER_MINUTE;
  }

  /** Printed timestamps sort as text in time order, and are equal exactly within one UTC minute. */
  lemma FmtDatetimeOrder(a: i64, b: i64)
    ensures LexLess(FmtDatetime(a), FmtDatetime(b)) <==> a / NS_PER_MINUTE < b / NS_PER_MINUTE
    ensures FmtDatetime(a) == FmtDatetime(b) <==> a / NS_PER_MINUTE == b / NS_PER_MINUTE
  {
    SmallPowers();
    hide Hour, Minute, FmtDate, LexLess, Padded, Power;
    var ha, hb, ma, mb := Padded(Hour(a), 2), Padded(Hour(b), 2), Padded(Minute(a), 2), Padded(Minute(b), 2);
    MinuteOfInstant(a);
    MinuteOfInstant(b);
    FmtDateOrder(a, b);
    PaddedOrder(Hour(a), Hour(b), 2);
    PaddedOrder(Minute(a), Minute(b), 2);
    DateIsTenLong(a);
    DateIsTenLong(b);
    LexTrichotomy("", "");
    TwoFields(FmtDate(a), FmtDate(b), " ", ha, hb);
    TwoFields(FmtDate(a) + " " + ha, FmtDate(b) + " " + hb, ":", ma, mb);
    TwoFields(FmtDate(a) + " " + ha + ":" + ma, FmtDate(b) + " " + hb + ":" + mb, " UTC", "", "");
    assert FmtDatetime(a) == FmtDate(a) + " " + ha + ":" + ma + " UTC" + "";
    assert FmtDatetime(b) == FmtDate(b) + " " + hb + ":" + mb + " UTC" + "";
  }

  // ---------------------------------------------------------------------------------------------
  // Reading the printed text (RFC 3339, section 5.6: full-date)

  lemma {:induction false} ReadUndoesPadding(v: nat, width: nat)
    requires v < Power(10, width)
    ensures ReadNumber(Padded(v, width)) == Some(v)
  {
    if width > 0 {
      var s := Padded(v, width);
      ReadUndoesPadding(v / 10, width - 1);
      assert s[..width - 1] == Padded(v / 10, width - 1) && s[width - 1] == Digit(v % 10);
    }
  }

  lemma {:induction false} PaddingUndoesRead(s: string)
    requires ReadNumber(s).Some?
    ensures Padded(ReadNumber(s).value, |s|) == s && ReadNumber(s).value < Power(10, |s|)
  {
    if s != "" {
      var front, last := s[..|s| - 1], s[|s| - 1];
      PaddingUndoesRead(front);
      assert s == front + [last];
    }
  }

  /** Four digits, two digits and two digits that name a day of the Gregorian calendar. */
  function ParseDate(s: string): Option<Date> {
    if |s| != 10 || s[4] != '-' || s[7] != '-' then None
    else
      match (ReadNumber(s[..4]), ReadNumber(s[5..7]), ReadNumber(s[8..]))
      case (Some(y), Some(m), Some(d)) => if ValidDate(Date(y, m, d)) then Some(Date(y, m, d)) else None
      case _ => None
  }

  lemma ParseUndoesDateText(d: Date)
    requires Printable(d)
    ensures ParseDate(DateText(d)) == Some(d)
  {
    var s := DateText(d);
    assert s[..4] == Padded(d.year, 4) && s[5..7] == Padded(d.month, 2) && s[8..] == Padded(d.day, 2);
    SmallPowers();
    hide Power, Padded, ReadNumber;
    ReadUndoesPadding(d.year, 4);
    ReadUndoesPadding(d.month, 2);
    ReadUndoesPadding(d.day, 2);
  }

  /** Only the printed text of a date is read as that date. */
  lemma DateTextUndoesParse(s: string)
    ensures ParseDate(s).Some? ==> Printable(ParseDate(s).value) && DateText(ParseDate(s).value) == s
  {
    hide Padded, ReadNumber, Power;
    if ParseDate(s).Some? {
      SmallPowers();
      PaddingUndoesRead(s[..4]);
      PaddingUndoesRead(s[5..7]);
      PaddingUndoesRead(s[8..]);
      assert s == s[..4] + "-" + s[5..7] + "-" + s[8..];
    }
  }

  /** A printed date reads back as the Gregorian date of its instant, and no other text does. */
  lemma FmtDateReadsBack(ns: i64, s: string)
    ensures ParseDate(s) == Some(CivilFromDays(ns / NS_PER_DAY)) <==> s == FmtDate(ns)
  {
    hide CivilFromDays, ParseDate, DateText;
    InstantsHaveFourDigitYears(ns);
    ParseUndoesDateText(CivilFromDays(ns / NS_PER_DAY));
    DateTextUndoesParse(s);
  }

  /** The minutes since the epoch that a timestamp names. */
  function ParseDatetime(s: string): Option<int> {
    if |s| != 20 || s[10] != ' ' || s[13] != ':' || s[16..] != " UTC" then None
    else
      match (ParseDate(s[..10]), ReadNumber(s[11..13]), ReadNumber(s[14..16]))
      case (Some(d), Some(h), Some(m)) => if h < 24 && m < 60 then Some(1440 * DayNumber(d) + 60 * h + m) else None
      case _ => None
  }

  /** A printed timestamp reads back as the minute of its instant. */
  lemma FmtDatetimeReadsBack(ns: i64)
    ensures ParseDatetime(FmtDatetime(ns)) == Some(ns / NS_PER_MINUTE)
  {
    hide CivilFromDays, DayNumber, FmtDate, ParseDate, ParseDatetime, Padded, ReadNumber, Power, Hour, Minute;
    MinuteOfInstant(ns);
    CivilIsCorrect(ns / NS_PER_DAY);
    FmtDateReadsBack(ns, FmtDate(ns));
    DateIsTenLong(ns);
    FieldsReadBack(FmtDate(ns), CivilFromDays(ns / NS_PER_DAY), Hour(ns), Minute(ns));
  }

  lemma FieldsReadBack(day: string, date: Date, h: nat, m: nat)
    requires |day| == 10 && ParseDate(day) == Some(date) && h < 24 && m < 60
    ensures ParseDatetime(day + " " + Padded(h, 2) + ":" + Padded(m, 2) + " UTC") == Some(1440 * DayNumber(date) + 60 * h + m)
  {
    hide Power, Padded, ReadNumber, ParseDate, DayNumber;
    SmallPowers();
    TimestampFields(day, Padded(h, 2), Padded(m, 2));
    ReadUndoesPadding(h, 2);
    ReadUndoesPadding(m, 2);
  }

  lemma SmallPowers()
    ensures Power(10, 2) == 100 && Power(10, 4) == 10_000
  {
  }

  lemma DateIsTenLong(ns: i64)
    ensures |FmtDate(ns)| == 10
  {
  }

  lemma TimestampFields(day: string, h: string, m: string)
    requires |day| == 10 && |h| == 2 && |m| == 2
    ensures var s := day + " " + h + ":" + m + " UTC";
            && |s| == 20 && s[..10] == day && s[10] == ' ' && s[11..13] == h && s[13] == ':' && s[14..16] == m && s[16..] == " UTC"
  {
  }
}
