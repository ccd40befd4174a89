/** src/utils.cpp: the Modified Julian Date of a Gregorian date, against a calendar that only
    knows how to turn the page. */
module Calendar {

  // -------------------------------------------------------------------- the calendar, day by day

  datatype Date = Date(year: int, month: int, day: int)

  predicate IsLeap(year: int) {
    year % 4 == 0 && (year % 100 != 0 || year % 400 == 0)
  }

  function DaysIn(year: int, month: int): int
    requires 1 <= month <= 12
  {
    if month == 2 then (if IsLeap(year) then 29 else 28)
    else if month == 4 || month == 6 || month == 9 || month == 11 then 30
    else 31
  }

  predicate IsDate(d: Date) {
    1 <= d.month <= 12 && 1 <= d.day <= DaysIn(d.year, d.month)
  }

  function NextDay(d: Date): (r: Date)
    requires IsDate(d)
    ensures IsDate(r)
  {
    if d.day < DaysIn(d.year, d.month) then Date(d.year, d.month, d.day + 1)
    else if d.month < 12 then Date(d.year, d.month + 1, 1)
    else Date(d.year + 1, 1, 1)
  }

  const EPOCH := Date(1858, 11, 17)

  /** The date `n` days after 17 November 1858. */
  function DateAt(n: nat): (d: Date)
    ensures IsDate(d)
  {
    if n == 0 then EPOCH else NextDay(DateAt(n - 1))
  }

  predicate Before(a: Date, b: Date) {
    a.year < b.year || (a.year == b.year && (a.month < b.month || (a.month == b.month && a.day < b.day)))
  }

  // ------------------------------------------------------------------------------- the formula

  const INT_MAX := 0x7fff_ffff
  const INT_MIN := -0x8000_0000

  predicate IsInt(x: int) {
    INT_MIN <= x <= INT_MAX
  }

  /** Division of C: towards zero. */
  function CDiv(a: int, b: int): int
    requires b > 0
  {
    if a >= 0 then a / b else -(-a / b)
  }

  /** Conversion of a floating-point number to an integer in C: towards zero. */
  function Truncated(x: real): int {
    if x >= 0.0 then x.Floor else -(-x).Floor
  }

  /** Years count from March, so that the leap day comes last. */
  function MarchYear(d: Date): int {
    d.year + 8000 - if d.month < 3 then 1 else 0
  }

  function MarchMonth(d: Date): int {
    d.month + if d.month < 3 then 12 else 0
  }

  /** The number computed in `JD`, in unbounded integers. */
  function Jd(d: Date): int {
    var y, m := MarchYear(d), MarchMonth(d);
    y * 365 + CDiv(y, 4) - CDiv(y, 100) + CDiv(y, 400) - 1200820 + CDiv(m * 153 + 3, 5) - 92 + (d.day - 1)
  }

  /** Every intermediate result is an int, for any three ints and not only for dates. */
  predicate NoOverflow(d: Date) {
    var y, m := MarchYear(d), MarchMonth(d);
    var t1 := y * 365;
    var t2 := t1 + CDiv(y, 4);
    var t3 := t2 - CDiv(y, 100);
    var t4 := t3 + CDiv(y, 400);
    var t5 := t4 - 1200820;
    var t6 := t5 + CDiv(m * 153 + 3, 5);
    var t7 := t6 - 92;
    && IsInt(d.year + 8000) && IsInt(t1) && IsInt(t2) && IsInt(t3) && IsInt(t4) && IsInt(t5) && IsInt(t6)
    && IsInt(t7) && IsInt(t7 + (d.day - 1)) && IsInt(m * 153) && IsInt(m * 153 + 3) && IsInt(d.day - 1)
  }

  /** What the function returns, when C defines it. */
  datatype Result = Mjd(mjd: nat) | Undefined

  /** The result as a number of unsigned 32-bit range, from the JD as an unsigned 32-bit value. */
  function Converted(jd: int): Result {
    var mjd := Truncated((jd % 0x1_0000_0000) as real - 2400000.5);
    if 0 <= mjd <= 0xffff_ffff then Mjd(mjd) else Undefined
  }

  /** The first and the last year, counted from March and from 8000 years back, that do not
      overflow. */
  const FIRST_YEAR := -5876322
  const LAST_YEAR := 5879489

  /** Day zero of the Julian day count. */
  const JULIAN_EPOCH := Date(-4713, 11, 24)

  /** When the function returns `n` for a date: it does not overflow, and the date is the n-th day
      after the epoch; or it is the day before the epoch, which gets 0 as well; or it is before the
      Julian epoch, where the sum is negative and wraps around to a huge number. */
  predicate IsResult(d: Date, n: nat) {
    && FIRST_YEAR <= MarchYear(d) <= LAST_YEAR
    && (|| d == DateAt(n)
        || (d == Date(1858, 11, 16) && n == 0)
        || (Before(d, JULIAN_EPOCH) && n == 0x1_0000_0000 + Jd(d) - EPOCH_JD))
  }

  /** src/utils.cpp, on C's ints. */
  method Gregorian2Mjd(year: int, month: int, day: int) returns (r: Result)
    requires IsInt(year) && IsInt(month) && IsInt(day)
    ensures r == if NoOverflow(Date(year, month, day)) then Converted(Jd(Date(year, month, day))) else Undefined
    ensures IsDate(Date(year, month, day)) ==> forall n: nat :: r == Mjd(n) <==> IsResult(Date(year, month, day), n)
  {
    var d := Date(year, month, day);
    hide CDiv, DateAt, IsLeap, Converted, IsResult;
    if IsDate(d) {
      ResultsOf(d);
    }
    if !NoOverflow(d) {
      return Undefined;
    }
    var y, m := year + 8000, month;
    if m < 3 {
      y := y - 1;
      m := m + 12;
    }
    var jd := y * 365 + CDiv(y, 4) - CDiv(y, 100) + CDiv(y, 400) - 1200820 + CDiv(m * 153 + 3, 5) - 92 + (day - 1);
    r := Converted(jd);
  }

  // ------------------------------------------------------------------------- turning the page

  lemma MonthSteps(m: int)
    requires 3 <= m <= 13
    ensures CDiv((m + 1) * 153 + 3, 5) - CDiv(m * 153 + 3, 5) == if m == 4 || m == 6 || m == 9 || m == 11 then 30 else 31
  {}

  lemma LeapStep(y: int)
    requires y >= 0
    ensures CDiv(y + 1, 4) - CDiv(y, 4) == if (y + 1) % 4 == 0 then 1 else 0
    ensures CDiv(y + 1, 100) - CDiv(y, 100) == if (y + 1) % 100 == 0 then 1 else 0
    ensures CDiv(y + 1, 400) - CDiv(y, 400) == if (y + 1) % 400 == 0 then 1 else 0
  {}

  lemma LateStepOf4(y: int)
    requires y < 0
    ensures CDiv(y + 1, 4) - CDiv(y, 4) == if y % 4 == 0 then 1 else 0
  {}

  lemma LateStepOf100(y: int)
    requires y < 0
    ensures CDiv(y + 1, 100) - CDiv(y, 100) == if y % 100 == 0 then 1 else 0
  {}

  lemma LateStepOf400(y: int)
    requires y < 0
    ensures CDiv(y + 1, 400) - CDiv(y, 400) == if y % 400 == 0 then 1 else 0
  {}

  function LeapDays(y: int): int {
    CDiv(y, 4) - CDiv(y, 100) + CDiv(y, 400)
  }

  /** The day that the count of years adds between February and March of a year. */
  lemma LeapDay(year: int)
    ensures LeapDays(year + 8000) - LeapDays(year + 7999)
      == if IsLeap(if year >= -7999 then year else year - 1) then 1 else 0
  {
    var y := year + 7999;
    if y >= 0 {
      LeapStep(y);
      hide CDiv;
      SameCentury(year);
      Multiples(year);
    } else {
      // Towards zero means upwards below zero: there the quotients step one year late.
      LateStepOf4(y);
      LateStepOf100(y);
      LateStepOf400(y);
      hide CDiv;
      SameCentury(year - 1);
      Multiples(year - 1);
    }
  }

  lemma Multiples(year: int)
    ensures year % 400 == 0 ==> year % 100 == 0
    ensures year % 100 == 0 ==> year % 4 == 0
  {}

  lemma CyclesOf4(year: int)
    ensures (year + 8000) % 4 == year % 4 && (year + 400) % 4 == year % 4
  {}

  lemma CyclesOf100(year: int)
    ensures (year + 8000) % 100 == year % 100 && (year + 400) % 100 == year % 100
  {}

  lemma CyclesOf400(year: int)
    ensures (year + 8000) % 400 == year % 400 && (year + 400) % 400 == year % 400
  {}

  /** 400 and 8000 years are whole cycles of the leap rule. */
  lemma SameCentury(year: int)
    ensures (year + 8000) % 4 == year % 4 && (year + 8000) % 100 == year % 100 && (year + 8000) % 400 == year % 400
    ensures (year + 400) % 4 == year % 4 && (year + 400) % 100 == year % 100 && (year + 400) % 400 == year % 400
  {
    CyclesOf4(year);
    CyclesOf100(year);
    CyclesOf400(year);
  }

  /** How many days the formula is off at the turn from February to March: none from year -7999
      on; before, the leap day comes a year late. */
  function Slip(year: int): int {
    if year >= -7999 then 0
    else (if IsLeap(year - 1) then 1 else 0) - (if IsLeap(year) then 1 else 0)
  }

  lemma JdByYear(d: Date)
    ensures Jd(d) == MarchYear(d) * 365 + LeapDays(MarchYear(d)) + CDiv(MarchMonth(d) * 153 + 3, 5) - 1200912 + (d.day - 1)
  {
    hide CDiv;
  }

  lemma FebruaryToMarch(year: int)
    ensures Jd(Date(year, 3, 1)) == Jd(Date(year, 2, 1)) + DaysIn(year, 2) + Slip(year)
  {
    hide CDiv, DaysIn, Slip, LeapDays, Jd;
    FebruaryIs(year);
    MarchStarts();
    JdByYear(Date(year, 3, 1));
    JdByYear(Date(year, 2, 1));
  }

  lemma FebruaryIs(year: int)
    ensures LeapDays(year + 8000) - LeapDays(year + 7999) == DaysIn(year, 2) - 28 + Slip(year)
  {
    hide IsLeap, LeapDays;
    LeapDay(year);
  }

  lemma MarchStarts()
    ensures CDiv(14 * 153 + 3, 5) == 429 && CDiv(3 * 153 + 3, 5) == 92
  {}

  lemma MonthToMonth(d: Date)
    requires IsDate(d) && d.month != 2 && d.day == DaysIn(d.year, d.month)
    ensures Jd(NextDay(d)) == Jd(d) + 1
  {
    MonthSteps(MarchMonth(d));
    hide CDiv, IsLeap, LeapDays, Jd;
    JdByYear(d);
    JdByYear(NextDay(d));
  }

  lemma DayOfMonth(d: Date, day: int)
    ensures Jd(d.(day := day)) == Jd(d) + day - d.day
  {
    hide CDiv;
  }

  predicate EndsFebruary(d: Date) {
    d.month == 2 && d.day == DaysIn(d.year, 2)
  }

  lemma NextDayStep(d: Date)
    requires IsDate(d)
    ensures Jd(NextDay(d)) == Jd(d) + 1 + if EndsFebruary(d) then Slip(d.year) else 0
  {
    hide Jd, IsLeap, Slip;
    if d.day < DaysIn(d.year, d.month) {
      DayOfMonth(d, d.day + 1);
    } else if d.month == 2 {
      FebruaryToMarch(d.year);
      DayOfMonth(d, 1);
    } else {
      MonthToMonth(d);
    }
  }

  /** The next day's number is the next number, across months, leap days and centuries: for all
      dates but the ends of February in a leap year before -7999 and in the year after one. */
  lemma NextDayIsNext(d: Date)
    requires IsDate(d)
    ensures Jd(NextDay(d)) == Jd(d) + 1 <==> !(EndsFebruary(d) && d.year < -7999 && (IsLeap(d.year) || IsLeap(d.year - 1)))
  {
    NextDayStep(d);
    NoTwoLeapYears(d.year);
  }

  lemma NoTwoLeapYears(year: int)
    ensures !(IsLeap(year) && IsLeap(year - 1))
  {}

  const EPOCH_JD := 2400001

  lemma EpochJd()
    ensures Jd(EPOCH) == EPOCH_JD
  {}

  lemma {:induction false} JdOfDay(n: nat)
    ensures DateAt(n).year >= 1858 && Jd(DateAt(n)) == EPOCH_JD + n
  {
    if n == 0 {
      EpochJd();
    } else {
      JdOfDay(n - 1);
      NextDayStep(DateAt(n - 1));
    }
  }

  /** The formula overflows before one year and after another, and not between them. */
  lemma OverflowIffFarAway(d: Date)
    requires IsDate(d)
    ensures NoOverflow(d) <==> FIRST_YEAR <= MarchYear(d) <= LAST_YEAR
  {}

  lemma JdIsInt(d: Date)
    requires NoOverflow(d)
    ensures IsInt(Jd(d))
  {}

  /** What the two conversions make of the sum: below zero it wraps around first. */
  lemma ConvertedJd(jd: int)
    requires IsInt(jd)
    ensures Converted(jd) ==
      if jd < 0 then Mjd(0x1_0000_0000 + jd - EPOCH_JD)
      else if jd >= EPOCH_JD then Mjd(jd - EPOCH_JD)
      else if jd == EPOCH_JD - 1 then Mjd(0)
      else Undefined
  {
    var u := jd % 0x1_0000_0000;
    assert u == if jd < 0 then 0x1_0000_0000 + jd else jd;
    var x := u as real - 2400000.5;
    if u >= EPOCH_JD {
      assert (u - EPOCH_JD) as real <= x < (u - EPOCH_JD + 1) as real;
    } else {
      assert (EPOCH_JD - 1 - u) as real <= -x < (EPOCH_JD - u) as real;
      assert Truncated(x) == -(EPOCH_JD - 1 - u);
    }
  }

  // ---------------------------------------------------------------------------- order and days

  /** Months counted through from January of year 0. */
  function MonthIndex(d: Date): int {
    12 * d.year + d.month - 1
  }

  function FirstOf(k: int): (d: Date)
    ensures IsDate(d) && MonthIndex(d) == k
  {
    Date(k / 12, k % 12 + 1, 1)
  }

  function StartOf(k: int): int {
    Jd(FirstOf(k))
  }

  function LengthOf(k: int): (n: int)
    ensures n >= 28
  {
    DaysIn(FirstOf(k).year, FirstOf(k).month)
  }

  /** The month is the February of a leap year before -7999: its last day is not counted. */
  predicate LosesADay(k: int) {
    FirstOf(k).month == 2 && Slip(FirstOf(k).year) == -1
  }

  lemma LastOfMonth(k: int)
    ensures StartOf(k + 1) >= StartOf(k) + LengthOf(k) - 1
    ensures StartOf(k + 1) == StartOf(k) + LengthOf(k) - 1 <==> LosesADay(k)
  {
    hide Jd, IsLeap, Slip;
    var f := FirstOf(k);
    var last := f.(day := DaysIn(f.year, f.month));
    NextDayStep(last);
    SlipIsSmall(f.year);
    DayOfMonth(f, DaysIn(f.year, f.month));
    assert NextDay(last) == FirstOf(k + 1) by {
      NextIndex(k);
    }
  }

  lemma SlipIsSmall(year: int)
    ensures -1 <= Slip(year) <= 1
  {}

  lemma NextIndex(k: int)
    ensures k % 12 < 11 ==> (k + 1) / 12 == k / 12 && (k + 1) % 12 == k % 12 + 1
    ensures k % 12 == 11 ==> (k + 1) / 12 == k / 12 + 1 && (k + 1) % 12 == 0
  {}

  lemma {:induction false} MonthsOrdered(j: int, k: int)
    requires j < k
    ensures StartOf(k) >= StartOf(j) + LengthOf(j) - 1
    ensures StartOf(k) == StartOf(j) + LengthOf(j) - 1 <==> k == j + 1 && LosesADay(j)
    decreases k - j
  {
    hide StartOf, LengthOf, LosesADay;
    LastOfMonth(j);
    if j + 1 < k {
      MonthsOrdered(j + 1, k);
    }
  }

  /** A 29 February before -7999 and the day after it. */
  predicate IsLostDay(a: Date, b: Date) {
    a.year < -7999 && IsLeap(a.year) && a == Date(a.year, 2, 29) && b == Date(a.year, 3, 1)
  }

  /** Over all dates of all years, later dates have greater numbers, except that a lost leap day
      shares the number of the next day. */
  lemma Monotone(a: Date, b: Date)
    requires IsDate(a) && IsDate(b)
    ensures Before(a, b) ==> Jd(a) <= Jd(b)
    ensures Jd(a) == Jd(b) <==> a == b || IsLostDay(a, b) || IsLostDay(b, a)
  {
    assert IsLostDay(a, b) ==> Before(a, b);
    assert IsLostDay(b, a) ==> Before(b, a);
    hide Jd, IsLostDay, IsDate;
    if Before(a, b) {
      OrderOneWay(a, b);
      assert !Before(b, a);
    } else if Before(b, a) {
      OrderOneWay(b, a);
    }
  }

  /** So from 1 March -8000 on the order of dates is the order of numbers. */
  lemma StrictlyMonotone(a: Date, b: Date)
    requires IsDate(a) && IsDate(b) && MarchYear(a) >= 0 && MarchYear(b) >= 0
    ensures Before(a, b) <==> Jd(a) < Jd(b)
    ensures a == b <==> Jd(a) == Jd(b)
  {
    Monotone(a, b);
    Monotone(b, a);
    assert Before(a, b) || Before(b, a) || a == b;
  }

  lemma OrderOneWay(a: Date, b: Date)
    requires IsDate(a) && IsDate(b) && Before(a, b)
    ensures Jd(a) <= Jd(b) && (Jd(a) == Jd(b) <==> IsLostDay(a, b))
  {
    hide Jd, DaysIn, StartOf, LengthOf, LosesADay, IsLostDay;
    var j, k := MonthIndex(a), MonthIndex(b);
    InMonth(a);
    InMonth(b);
    LostDays(a, b);
    if j < k {
      MonthsOrdered(j, k);
    }
  }

  lemma LostDays(a: Date, b: Date)
    requires IsDate(a) && IsDate(b)
    ensures IsLostDay(a, b)
      <==> LosesADay(MonthIndex(a)) && MonthIndex(b) == MonthIndex(a) + 1 && a.day == LengthOf(MonthIndex(a)) && b.day == 1
  {
    var f := FirstOf(MonthIndex(a));
    assert f.year == a.year && f.month == a.month;
    NoTwoLeapYears(a.year);
  }

  lemma InMonth(d: Date)
    requires IsDate(d)
    ensures Jd(d) == StartOf(MonthIndex(d)) + d.day - 1 && d.day <= LengthOf(MonthIndex(d))
  {
    hide Jd, DaysIn;
    var f := FirstOf(MonthIndex(d));
    assert f.year == d.year && f.month == d.month;
    DayOfMonth(d, 1);
  }

  /** Every date from the epoch on is reached day by day, at its own number. */
  lemma EveryDateIsCounted(d: Date)
    requires IsDate(d) && !Before(d, EPOCH)
    ensures Jd(d) >= EPOCH_JD && DateAt(Jd(d) - EPOCH_JD) == d
  {
    EpochJd();
    StrictlyMonotone(d, EPOCH);
    var n: nat := Jd(d) - EPOCH_JD;
    JdOfDay(n);
    StrictlyMonotone(d, DateAt(n));
  }

  /** Where the sum is negative, and where it is one less than at the epoch. */
  lemma Landmarks(d: Date)
    requires IsDate(d)
    ensures Jd(d) < 0 <==> Before(d, JULIAN_EPOCH)
    ensures Jd(d) == EPOCH_JD - 1 <==> d == Date(1858, 11, 16)
    ensures Jd(d) >= EPOCH_JD <==> !Before(d, EPOCH)
  {
    assert Jd(JULIAN_EPOCH) == 0 && Jd(Date(1858, 11, 16)) == EPOCH_JD - 1;
    EpochJd();
    hide Jd;
    Monotone(d, JULIAN_EPOCH);
    Monotone(JULIAN_EPOCH, d);
    Monotone(d, Date(1858, 11, 16));
    Monotone(d, EPOCH);
    Monotone(EPOCH, d);
  }

  /** For every date of every year that is exactly when the function returns `n`. */
  lemma ResultIffDayCount(d: Date, n: nat)
    requires IsDate(d)
    ensures NoOverflow(d) && Converted(Jd(d)) == Mjd(n) <==> IsResult(d, n)
  {
    hide Jd, NoOverflow, Converted;
    OverflowIffFarAway(d);
    Landmarks(d);
    JdOfDay(n);
    if NoOverflow(d) {
      JdIsInt(d);
      ConvertedJd(Jd(d));
      if !Before(d, EPOCH) {
        EveryDateIsCounted(d);
      }
    }
  }

  lemma ResultsOf(d: Date)
    requires IsDate(d)
    ensures forall n: nat :: NoOverflow(d) && Converted(Jd(d)) == Mjd(n) <==> IsResult(d, n)
  {
    hide NoOverflow, Converted, Jd, IsResult, IsDate;
    forall n: nat ensures NoOverflow(d) && Converted(Jd(d)) == Mjd(n) <==> IsResult(d, n) {
      ResultIffDayCount(d, n);
    }
  }

  /** The last date of the third kind: defined, and wrong. */
  lemma DayBeforeJulianEpoch()
    ensures
      var d := Date(-4713, 11, 23);
      && IsDate(d) && NoOverflow(d) && Jd(d) == -1 && Converted(Jd(d)) == Mjd(4292567294)
      && forall n: nat :: DateAt(n) != d
  {
    var d := Date(-4713, 11, 23);
    ConvertedJd(-1);
    forall n: nat ensures DateAt(n) != d {
      JdOfDay(n);
    }
  }

  lemma CenturyStep(y: int)
    requires y >= 0 || y <= -400
    ensures LeapDays(y + 400) == LeapDays(y) + 97
  {}

  /** Between these, the rounding of the leap years changes direction on the way. */
  lemma CenturyTurn(y: int)
    requires -400 < y < 0
    ensures LeapDays(y + 400) == LeapDays(y) + 97 <==> IsLeap(y)
  {
    var z := -y;
    assert LeapDays(y) == -(z / 4) + z / 100;
    assert LeapDays(y + 400) == (400 - z) / 4 - (400 - z) / 100;
    hide LeapDays;
    assert y % 4 == 0 <==> z % 4 == 0;
    assert y % 100 == 0 <==> z % 100 == 0;
  }

  lemma LaterBy400(d: Date)
    ensures Jd(d.(year := d.year + 400)) - Jd(d) == 146000 + LeapDays(MarchYear(d) + 400) - LeapDays(MarchYear(d))
  {
    hide CDiv;
  }

  /** 400 years are 146097 days, unless 1 March -8000 lies between and the count does not start in
      a leap year. */
  lemma FourCenturies(d: Date)
    requires IsDate(d)
    ensures
      var e := d.(year := d.year + 400);
      && IsDate(e)
      && (Jd(e) == Jd(d) + 146097 <==> MarchYear(d) >= 0 || MarchYear(d) <= -400 || IsLeap(MarchYear(d)))
  {
    SameCentury(d.year);
    var y := MarchYear(d);
    if -400 < y < 0 {
      CenturyTurn(y);
    } else {
      CenturyStep(y);
    }
    hide Jd, LeapDays;
    LaterBy400(d);
  }

  /** Annex C of ETSI EN 300 468 gives the number by another formula, valid from 1 March 1900 to
      28 February 2100: 14956 + D + int((Y - L)·365.25) + int((M + 1 + 12·L)·30.6001), with Y
      counted from 1900 and L being 1 in January and February. */
  function AnnexC(d: Date): int {
    var l := if d.month < 3 then 1 else 0;
    14956 + d.day + ((d.year - 1900 - l) * 36525) / 100 + ((d.month + 1 + 12 * l) * 306001) / 10000
  }

  lemma AgreesWithAnnexC(d: Date)
    requires IsDate(d) && !Before(d, Date(1900, 3, 1)) && !Before(Date(2100, 2, 28), d)
    ensures AnnexC(d) == Jd(d) - EPOCH_JD
  {
    var y, m := MarchYear(d), MarchMonth(d);
    assert 9900 <= y <= 10099;
    assert 3 <= m <= 14;
    assert (((y - 9900) * 36525) / 100) == (y - 9900) * 365 + (y - 9900) / 4;
    assert ((m + 1) * 306001) / 10000 == CDiv(m * 153 + 3, 5) - 92 + 122;
    assert y / 400 - y / 100 == -75;
  }
}
