/**
  `juldat_int` and `caldat_int` of `caldate.c`: dates of the Julian calendar up to
  4 October 1582 and of the Gregorian calendar from 15 October 1582, as day numbers.
  The reference is the calendar itself: the day after a given day.
 */
module Caldate {

  /** Division of C: it truncates toward zero */
  function CDiv(a: int, b: int): int
    requires b > 0
  {
    if a >= 0 then a / b else -((-a) / b)
  }

  function CMod(a: int, b: int): int
    requires b > 0
  {
    a - b * CDiv(a, b)
  }

  // ------------------------------------------------------------------------------------
  // The calendar

  datatype Date = Date(year: int, month: int, day: int)

  /** The first date of the day count: 1 January 4713 B.C. */
  const EPOCH := Date(-4712, 1, 1)

  predicate IsLeap(year: int) {
    year % 4 == 0 && (year <= 1582 || year % 100 != 0 || year % 400 == 0)
  }

  function DaysInMonth(year: int, month: int): int {
    if month == 2 then (if IsLeap(year) then 29 else 28)
    else if month == 4 || month == 6 || month == 9 || month == 11 then 30
    else 31
  }

  /** The ten days that the reform dropped */
  predicate InGap(d: Date) {
    d.year == 1582 && d.month == 10 && 5 <= d.day <= 14
  }

  predicate IsDate(d: Date) {
    1 <= d.month <= 12 && 1 <= d.day <= DaysInMonth(d.year, d.month) && !InGap(d)
  }

  /** A date from the epoch on */
  predicate IsCounted(d: Date) {
    IsDate(d) && d.year >= EPOCH.year
  }

  function NextDay(d: Date): Date {
    if d == Date(1582, 10, 4) then Date(1582, 10, 15)
    else if d.day < DaysInMonth(d.year, d.month) then Date(d.year, d.month, d.day + 1)
    else if d.month < 12 then Date(d.year, d.month + 1, 1)
    else Date(d.year + 1, 1, 1)
  }

  /** The date `n` days after the epoch */
  function DateAfter(n: nat): (d: Date)
    ensures IsCounted(d)
  {
    if n == 0 then EPOCH else NextDay(DateAfter(n - 1))
  }

  predicate OnOrAfterReform(d: Date) {
    d.year > 1582 || (d.year == 1582 && d.month * 100 + d.day >= 1015)
  }

  // ------------------------------------------------------------------------------------
  // The code

  /** The day number that `juldat_int` stores */
  function JulDat(d: Date): int {
    var iy0 := if d.month <= 2 then d.year - 1 else d.year;
    var im0 := if d.month <= 2 then d.month + 12 else d.month;
    var ia := CDiv(iy0, 100);
    var ib := 2 - ia + ia / 4;
    var years := if d.year < 0 then CDiv(36525 * iy0 - 75, 100) else CDiv(36525 * iy0, 100);
    var jd := years + CDiv(306001 * (im0 + 1), 10000) + d.day + 1720994;
    if OnOrAfterReform(d) then jd + ib else jd
  }

  /** The shifted day number, which pretends that there was no reform */
  function ShiftedDay(jd: int): int {
    if jd >= 2299161 then
      var ialp := CDiv(jd * 100 - 186721625, 3652425);
      jd + 1 + ialp - ialp / 4
    else jd
  }

  /** The year that starts in March, counted from 4716 years before year 0 */
  function Kc(kb: int): int {
    CDiv(kb * 100 - 12210, 36525)
  }

  /** What is left of the day number in that year */
  function Left(kb: int): int {
    kb - CDiv(Kc(kb) * 36525, 100)
  }

  function Ke(kb: int): int {
    CDiv(Left(kb) * 10000, 306001)
  }

  /** The date that `caldat_int` makes of a shifted day number */
  function DateOf(kb: int): Date {
    var kc, ke := Kc(kb), Ke(kb);
    var day := Left(kb) - CDiv(ke * 306001, 10000);
    var month := if ke > 13 then ke - 13 else ke - 1;
    var day' := if month == 2 && day > 28 then 29 else day;
    var year := if (month == 2 && day' == 29 && ke == 3) || month > 2 then kc - 4716 else kc - 4715;
    Date(year, month, day')
  }

  /** The date that `caldat_int` stores */
  function CalDat(jDate0: int): Date {
    DateOf(ShiftedDay(jDate0 + 1) + 1524)
  }

  function DayOfYear(d: Date): int {
    if d.year == d.year / 4 * 4 then CDiv(275 * d.month, 9) - CDiv(d.month + 9, 12) + d.day - 30
    else CDiv(275 * d.month, 9) - CDiv(d.month + 9, 12) * 2 + d.day - 30
  }

  /** `struct ut_instant_int` */
  class Instant {
    var jDate0: int
    var year: int
    var month: int
    var day: int
    var weekday: int
    var dayOfYear: int

    function GetDate(): Date
      reads this
    {
      Date(year, month, day)
    }

    /** `caldat_int` */
    method CalDatInt()
      modifies this
      ensures GetDate() == CalDat(jDate0) && jDate0 == old(jDate0)
      ensures weekday == CMod(jDate0 + 2, 7)
      ensures dayOfYear == DayOfYear(GetDate())
    {
      hide CDiv;
      var jd := jDate0 + 1;
      var ka := jd;
      if jd >= 2299161 {
        var ialp := CDiv(jd * 100 - 186721625, 3652425);
        ka := jd + 1 + ialp - ialp / 4;
      }
      var kb := ka + 1524;
      var kc := CDiv(kb * 100 - 12210, 36525);
      var kd := CDiv(kc * 36525, 100);
      var ke := CDiv((kb - kd) * 10000, 306001);
      day := kb - kd - CDiv(ke * 306001, 10000);
      if ke > 13 {
        month := ke - 13;
      } else {
        month := ke - 1;
      }
      if month == 2 && day > 28 {
        day := 29;
      }
      if month == 2 && day == 29 && ke == 3 {
        year := kc - 4716;
      } else if month > 2 {
        year := kc - 4716;
      } else {
        year := kc - 4715;
      }
      weekday := CMod(jd + 1, 7);
      if year == year / 4 * 4 {
        dayOfYear := CDiv(275 * month, 9) - CDiv(month + 9, 12) + day - 30;
      } else {
        dayOfYear := CDiv(275 * month, 9) - CDiv(month + 9, 12) * 2 + day - 30;
      }
    }

    /** `juldat_int` */
    method JulDatInt()
      modifies this`jDate0, this`weekday
      ensures jDate0 == JulDat(GetDate())
      ensures weekday == CMod(jDate0 + 2, 7)
    {
      hide CDiv;
      var iy0, im0;
      if month <= 2 {
        iy0 := year - 1;
        im0 := month + 12;
      } else {
        iy0 := year;
        im0 := month;
      }
      var ia := CDiv(iy0, 100);
      var ib := 2 - ia + ia / 4;
      var jd;
      if year < 0 {
        jd := CDiv(36525 * iy0 - 75, 100) + CDiv(306001 * (im0 + 1), 10000) + day + 1720994;
      } else {
        jd := CDiv(36525 * iy0, 100) + CDiv(306001 * (im0 + 1), 10000) + day + 1720994;
      }
      if year > 1582 || (year == 1582 && month * 100 + day >= 1015) {
        jd := jd + ib;
      }
      jDate0 := jd;
      weekday := CMod(jd + 2, 7);
    }
  }

  // ------------------------------------------------------------------------------------
  // The day number in terms of years that start in March

  function MarchYear(d: Date): int {
    if d.month <= 2 then d.year - 1 else d.year
  }

  function MarchMonth(d: Date): int {
    if d.month <= 2 then d.month + 12 else d.month
  }

  /** Days before a month of a year that starts in March, plus 122 */
  function MonthStart(m: int): int {
    306001 * (m + 1) / 10000
  }

  /** The position of a date in its year that starts in March, plus 122 */
  function Position(d: Date): int {
    MonthStart(MarchMonth(d)) + d.day
  }

  /** The correct day number: that of the code, but with a floor where the code truncates */
  function DayNumber(d: Date): int {
    var y := MarchYear(d);
    36525 * y / 100 + Position(d) + 1720994 + if OnOrAfterReform(d) then 2 - y / 100 + y / 100 / 4 else 0
  }

  /** The two months for which the code takes the wrong branch */
  predicate InYearZeroBeforeMarch(d: Date) {
    d.year == 0 && d.month <= 2
  }

  /** The code stores the correct day number, except in January and February of year 0 */
  lemma JulDatIsDayNumber(d: Date)
    requires IsCounted(d)
    ensures JulDat(d) == DayNumber(d) + if InYearZeroBeforeMarch(d) then 1 else 0
  {
    var iy0 := MarchYear(d);
    assert d.year < 0 ==> CDiv(36525 * iy0 - 75, 100) == 36525 * iy0 / 100;
    assert CDiv(306001 * (MarchMonth(d) + 1), 10000) == MonthStart(MarchMonth(d));
    assert OnOrAfterReform(d) ==> iy0 >= 0;
    hide MonthStart;
  }

  lemma NextDayCountsOne(d: Date)
    requires IsCounted(d)
    ensures IsCounted(NextDay(d)) && DayNumber(NextDay(d)) == DayNumber(d) + 1
  {
    hide DayNumber;
    if d == Date(1582, 10, 4) {
      AcrossTheReform();
    } else if d.day < DaysInMonth(d.year, d.month) {
      WithinMonth(d);
    } else if d.month == 2 {
      EndOfFebruary(d.year);
    } else {
      EndOfMonth(d);
    }
  }

  lemma AcrossTheReform()
    ensures DayNumber(Date(1582, 10, 15)) == DayNumber(Date(1582, 10, 4)) + 1
  {
  }

  lemma WithinMonth(d: Date)
    requires IsDate(d) && d != Date(1582, 10, 4) && d.day < DaysInMonth(d.year, d.month)
    ensures DayNumber(Date(d.year, d.month, d.day + 1)) == DayNumber(d) + 1
  {
    hide MonthStart;
  }

  lemma EndOfMonth(d: Date)
    requires IsDate(d) && d.month != 2 && d.day == DaysInMonth(d.year, d.month)
    ensures var next := if d.month < 12 then Date(d.year, d.month + 1, 1) else Date(d.year + 1, 1, 1);
            DayNumber(next) == DayNumber(d) + 1
  {
    hide MonthStart;
    MonthLength(d.month);
    var next := if d.month < 12 then Date(d.year, d.month + 1, 1) else Date(d.year + 1, 1, 1);
    assert MarchYear(next) == MarchYear(d) && OnOrAfterReform(next) == OnOrAfterReform(d);
  }

  lemma MonthLength(m: int)
    requires 1 <= m <= 12 && m != 2
    ensures var k := if m <= 2 then m + 12 else m;
            MonthStart(k + 1) == MonthStart(k) + DaysInMonth(0, m)
  {
  }

  /** The step from the last of February to the first of March */
  lemma EndOfFebruary(year: int)
    ensures DayNumber(Date(year, 3, 1)) == DayNumber(Date(year, 2, if IsLeap(year) then 29 else 28)) + 1
  {
    assert MonthStart(14) == 459 && MonthStart(3) == 122;
    hide MonthStart, OnOrAfterReform;
    var feb, mar := Date(year, 2, if IsLeap(year) then 29 else 28), Date(year, 3, 1);
    assert OnOrAfterReform(feb) == OnOrAfterReform(mar) == (year > 1582) by { ReformOfSpring(year, feb.day); }
    YearStep(year);
    CenturyStep(year);
  }

  lemma ReformOfSpring(year: int, day: int)
    requires day <= 31
    ensures OnOrAfterReform(Date(year, 2, day)) == OnOrAfterReform(Date(year, 3, 1)) == (year > 1582)
  {
  }

  lemma YearStep(year: int)
    ensures 36525 * year / 100 == 36525 * (year - 1) / 100 + if year % 4 == 0 then 366 else 365
  {
    JulianYears(year);
    JulianYears(year - 1);
  }

  /** The length of Julian years in whole days */
  lemma JulianYears(y: int)
    ensures 36525 * y / 100 == 365 * y + y / 4
  {
    var q, r := y / 4, y % 4;
    assert y == 4 * q + r;
    Hundredth(36525 * y, 365 * y + q, 25 * r);
  }

  lemma Hundredth(n: int, k: int, r: int)
    requires n == 100 * k + r && 0 <= r < 100
    ensures n / 100 == k
  {
  }

  lemma CenturyStep(year: int)
    ensures year / 100 == (year - 1) / 100 + if year % 100 == 0 then 1 else 0
    ensures year / 100 / 4 == (year - 1) / 100 / 4 + if year % 400 == 0 then 1 else 0
  {
    FourHundred(year);
    FourHundred(year - 1);
  }

  lemma FourHundred(year: int)
    ensures year / 100 / 4 == year / 400
  {
  }

  // ------------------------------------------------------------------------------------
  // From the day number back to the date

  lemma CenturyOf(y: int, r: int)
    requires 123 <= r <= 488
    requires y >= 0 && (r == 488 ==> (y + 1) % 4 == 0 && ((y + 1) % 100 != 0 || (y + 1) % 400 == 0))
    ensures var jd := 36525 * y / 100 + r + 1720997 - y / 100 + y / 100 / 4;
            (jd * 100 - 186721625) / 3652425 == y / 100 - 4
  {
    var a, u := y / 100, y % 100;
    var q, b, w := a / 4, a % 4, u / 4;
    assert y == 100 * a + u && a == 4 * q + b;
    JulianYears(y);
    Fourth(25 * a, u);
    if u == 99 && r == 488 {
      LastOfCentury(a);
    }
    var x := 100 * (365 * u + w + r) - 12225 - 25 * b;
    CenturyRest(u, w, r, b);
    Quotient(x, a - 4);
    assert (36524 * a + q + 365 * u + w + r + 1720997) * 100 - 186721625 == 3652425 * (a - 4) + x;
  }

  lemma LastOfCentury(a: int)
    requires (100 * a + 99 + 1) % 100 != 0 || (100 * a + 99 + 1) % 400 == 0
    ensures a % 4 == 3
  {
    assert 100 * a + 99 + 1 == 100 * (a + 1);
    assert (100 * (a + 1)) % 100 == 0;
  }

  lemma CenturyRest(u: int, w: int, r: int, b: int)
    requires 0 <= u < 100 && w == u / 4 && 123 <= r <= 488 && 0 <= b < 4 && (u == 99 && r == 488 ==> b == 3)
    ensures 0 <= 100 * (365 * u + w + r) - 12225 - 25 * b < 3652425
  {
  }

  lemma Fourth(k: int, u: int)
    ensures (4 * k + u) / 4 == k + u / 4
  {
  }

  lemma Quotient(x: int, k: int)
    requires 0 <= x < 3652425
    ensures (3652425 * k + x) / 3652425 == k
  {
  }

  lemma LeapPosition(d: Date)
    requires IsDate(d)
    ensures 123 <= Position(d) <= 488
    ensures Position(d) == 488 ==> IsLeap(MarchYear(d) + 1)
  {
  }

  /** Undoing the reform: what `caldat_int` computes first is the day number of the Julian formula */
  lemma ShiftedDayOf(d: Date)
    requires IsCounted(d)
    ensures ShiftedDay(DayNumber(d) + 1) == 36525 * MarchYear(d) / 100 + Position(d) + 1720995
  {
    LeapPosition(d);
    var y, r := MarchYear(d), Position(d);
    if OnOrAfterReform(d) {
      CenturyOf(y, r);
      AfterReform(d);
      CenturyCorrection(y / 100);
    } else {
      BeforeReform(d);
    }
  }

  lemma AfterReform(d: Date)
    requires IsDate(d) && OnOrAfterReform(d)
    ensures MarchYear(d) >= 1582 && DayNumber(d) + 1 >= 2299161
  {
    LeapPosition(d);
    var y := MarchYear(d);
    if y > 1582 {
      assert 36525 * y / 100 - y / 100 >= 36525 * 1583 / 100 - 1583 / 100;
    } else {
      assert d.year == 1582 ==> d.month >= 10;
    }
  }

  lemma BeforeReform(d: Date)
    requires IsCounted(d) && !OnOrAfterReform(d)
    ensures DayNumber(d) + 1 < 2299161
  {
    LeapPosition(d);
  }

  lemma CenturyCorrection(a: int)
    ensures 2 - a + a / 4 + 1 + (a - 4) - (a - 4) / 4 == 0
  {
  }

  lemma YearOf(c: int, r: int)
    requires c >= 3 && 123 <= r <= 488 && (r == 488 ==> c % 4 == 3)
    ensures Kc(36525 * c / 100 + r) == c && Left(36525 * c / 100 + r) == r
  {
    JulianYears(c);
    var q, t := c / 4, c % 4;
    assert c == 4 * q + t;
    var kb := 365 * c + q + r;
    var x := 100 * r - 12210 - 25 * t;
    assert kb * 100 - 12210 == 36525 * c + x;
    assert 0 <= x < 36525;
    YearQuotient(x, c);
    assert kb * 100 - 12210 >= 0 && c * 36525 >= 0;
  }

  lemma YearQuotient(x: int, c: int)
    requires 0 <= x < 36525
    ensures (36525 * c + x) / 36525 == c
  {
  }

  lemma MonthOf(m: int, day: int)
    requires 3 <= m <= 14 && 1 <= day <= DaysInMonth(0, if m > 12 then m - 12 else m)
    ensures CDiv((MonthStart(m) + day) * 10000, 306001) == m + 1
    ensures CDiv((m + 1) * 306001, 10000) == MonthStart(m)
  {
  }

  /** Years are counted from 4716 years before year 0 */
  lemma YearShift(y: int)
    ensures 36525 * y / 100 + 1722519 == 36525 * (y + 4716) / 100
  {
    JulianYears(y);
    JulianYears(y + 4716);
    Fourth(1179, y);
  }

  /** The year that `caldat_int` finds, and what is left of the day number in it */
  lemma YearHalf(d: Date)
    requires IsCounted(d)
    ensures var kb := ShiftedDay(DayNumber(d) + 1) + 1524;
            Kc(kb) == MarchYear(d) + 4716 && Left(kb) == Position(d)
  {
    hide DayNumber, ShiftedDay, Kc, Left, Position;
    ShiftedDayOf(d);
    LeapPosition(d);
    YearShift(MarchYear(d));
    YearOf(MarchYear(d) + 4716, Position(d));
  }

  /** The month and the day that it makes of what is left */
  lemma MonthHalf(d: Date)
    requires IsDate(d)
    ensures CDiv(Position(d) * 10000, 306001) == MarchMonth(d) + 1
    ensures Position(d) - CDiv((MarchMonth(d) + 1) * 306001, 10000) == d.day
  {
    hide MonthStart, CDiv;
    MonthOf(MarchMonth(d), d.day);
  }

  /** The last lines of `caldat_int`, whose repairs of February do nothing */
  lemma Assembled(d: Date, kb: int)
    requires IsDate(d) && Kc(kb) == MarchYear(d) + 4716 && Ke(kb) == MarchMonth(d) + 1
    requires Left(kb) - CDiv(Ke(kb) * 306001, 10000) == d.day
    ensures DateOf(kb) == d
  {
    hide Kc, Ke, Left, CDiv;
  }

  /** `caldat_int` gives back the date of a day number; its repairs of February do nothing */
  lemma CalDatOfDayNumber(d: Date)
    requires IsCounted(d)
    ensures CalDat(DayNumber(d)) == d
    ensures var kb := ShiftedDay(DayNumber(d) + 1) + 1524;
            Ke(kb) == MarchMonth(d) + 1 >= 4 && Left(kb) - CDiv(Ke(kb) * 306001, 10000) == d.day
  {
    hide DayNumber, ShiftedDay, CDiv, Kc, Left, Position, DateOf;
    var kb := ShiftedDay(DayNumber(d) + 1) + 1524;
    YearHalf(d);
    MonthHalf(d);
    Assembled(d, kb);
  }

  // ------------------------------------------------------------------------------------
  // Main results

  lemma {:induction false} DateAfterNumber(n: nat)
    ensures DayNumber(DateAfter(n)) == n - 1
  {
    if n > 0 {
      hide DayNumber;
      DateAfterNumber(n - 1);
      NextDayCountsOne(DateAfter(n - 1));
    }
  }

  lemma CountedFromEpoch(d: Date)
    requires IsCounted(d)
    ensures DayNumber(d) >= -1
  {
    LeapPosition(d);
    assert MarchYear(d) >= -4712 || (MarchYear(d) == -4713 && d.month <= 2);
    assert MonthStart(13) == 428;
    assert MarchYear(d) == -4713 ==> Position(d) >= 429;
    assert 36525 * MarchYear(d) / 100 >= -1721424;
    hide MonthStart;
  }

  /** Every date from the epoch on is reached, and its day number says when */
  lemma DateIsReached(d: Date)
    requires IsCounted(d)
    ensures DayNumber(d) >= -1 && DateAfter(DayNumber(d) + 1) == d
  {
    hide DayNumber, CalDat, DateAfter;
    CountedFromEpoch(d);
    var n := DayNumber(d) + 1;
    DateAfterNumber(n);
    CalDatOfDayNumber(d);
    CalDatOfDayNumber(DateAfter(n));
  }

  /** `caldat_int` computes the calendar: day number `n - 1` is the date `n` days after the epoch */
  lemma CalDatIsCalendar(n: nat)
    ensures CalDat(n - 1) == DateAfter(n)
  {
    hide DayNumber, CalDat, DateAfter;
    DateAfterNumber(n);
    CalDatOfDayNumber(DateAfter(n));
  }

  /** `juldat_int` computes the inverse of the calendar, exactly outside January and February of year 0 */
  lemma JulDatIsCalendar(n: nat)
    ensures JulDat(DateAfter(n)) == n - 1 <==> !InYearZeroBeforeMarch(DateAfter(n))
  {
    hide DayNumber, JulDat, DateAfter;
    DateAfterNumber(n);
    JulDatIsDayNumber(DateAfter(n));
  }

  /** From a date to its day number and back; in the two failing months the result is a day late */
  lemma DateRoundTrip(d: Date)
    requires IsCounted(d)
    ensures CalDat(JulDat(d)) == if InYearZeroBeforeMarch(d) then NextDay(d) else d
    ensures CalDat(JulDat(d)) == d <==> !InYearZeroBeforeMarch(d)
  {
    hide DayNumber, CalDat, JulDat;
    JulDatIsDayNumber(d);
    CalDatOfDayNumber(d);
    NextDayCountsOne(d);
    CalDatOfDayNumber(NextDay(d));
  }

  /** The day numbers of the two failing months */
  predicate IsYearZeroNumber(jDate0: int) {
    1721057 <= jDate0 <= 1721116
  }

  lemma YearZeroNumbers(d: Date)
    requires IsCounted(d)
    ensures InYearZeroBeforeMarch(d) <==> IsYearZeroNumber(DayNumber(d))
  {
    if IsYearZeroNumber(DayNumber(d)) {
      hide CalDat, DayNumber;
      var k := DayNumber(d) - 1721057;
      var e := if k < 31 then Date(0, 1, k + 1) else Date(0, 2, k - 30);
      YearZeroNumber(e);
      CalDatOfDayNumber(d);
      CalDatOfDayNumber(e);
    } else if InYearZeroBeforeMarch(d) {
      hide DayNumber;
      YearZeroNumber(d);
    }
  }

  lemma YearZeroNumber(d: Date)
    requires IsDate(d) && InYearZeroBeforeMarch(d)
    ensures DayNumber(d) == 1721056 + d.day + if d.month == 1 then 0 else 31
  {
    assert MonthStart(13) == 428 && MonthStart(14) == 459;
    hide MonthStart;
  }

  /** From a day number to its date and back: the code fails for 60 numbers */
  lemma DayNumberRoundTrip(jDate0: int)
    requires jDate0 >= -1
    ensures IsCounted(CalDat(jDate0))
    ensures JulDat(CalDat(jDate0)) == jDate0 <==> !(1721057 <= jDate0 <= 1721116)
  {
    hide CalDat, JulDat, DateAfter, DayNumber, InYearZeroBeforeMarch;
    CalDatIsCalendar(jDate0 + 1);
    JulDatIsCalendar(jDate0 + 1);
    DateAfterNumber(jDate0 + 1);
    YearZeroNumbers(DateAfter(jDate0 + 1));
  }

  /**
    The next calendar day has the next day number and the next weekday, except at the borders
    of the two failing months: the number skips one after 31 December of year -1 and repeats
    after 29 February of year 0.
   */
  lemma NextDayNumber(d: Date)
    requires IsCounted(d)
    ensures JulDat(NextDay(d)) - JulDat(d) == if d == Date(-1, 12, 31) then 2 else if d == Date(0, 2, 29) then 0 else 1
    ensures CMod(JulDat(NextDay(d)) + 2, 7) == (CMod(JulDat(d) + 2, 7) + 1) % 7
            <==> d != Date(-1, 12, 31) && d != Date(0, 2, 29)
  {
    hide DayNumber, JulDat;
    JulDatIsDayNumber(d);
    NextDayCountsOne(d);
    JulDatIsDayNumber(NextDay(d));
    CountedFromEpoch(d);
    WeekdayStep(JulDat(d) + 2, JulDat(NextDay(d)) - JulDat(d));
  }

  /** 15 October 1582 was a Friday, and so 1 January 2000 a Saturday */
  lemma WeekdayExamples()
    ensures CMod(JulDat(Date(1582, 10, 15)) + 2, 7) == 5 && CMod(JulDat(Date(2000, 1, 1)) + 2, 7) == 6
  {
  }

  lemma WeekdayStep(j: int, step: int)
    requires j >= 0 && 0 <= step <= 2
    ensures CMod(j + step, 7) == (CMod(j, 7) + 1) % 7 <==> step == 1
  {
    hide CMod;
    var q, r := j / 7, j % 7;
    Weekday(q, r);
    if r + step < 7 {
      Weekday(q, r + step);
    } else {
      Weekday(q + 1, r + step - 7);
    }
  }

  lemma Weekday(q: int, r: int)
    requires q >= 0 && 0 <= r < 7
    ensures CMod(7 * q + r, 7) == r
  {
    assert (7 * q + r) / 7 == q;
  }

  /** The number of the day in its year: the days since 1 January, that day included */
  function Ordinal(d: Date): int {
    DayNumber(d) - DayNumber(Date(d.year, 1, 1)) + 1
  }

  /** A year that only the Julian calendar calls a leap year */
  predicate IsCommonCentury(year: int) {
    year > 1582 && year % 100 == 0 && year % 400 != 0
  }

  /**
    `day_of_year` is the number of the day in its year, except after the gap of 1582, where it
    counts the dropped days, and after February of a common century, where it is one too many.
   */
  lemma DayOfYearIsOrdinal(d: Date)
    requires IsDate(d)
    ensures DayOfYear(d) == Ordinal(d) +
                            (if d.year == 1582 && OnOrAfterReform(d) then 10 else 0) +
                            (if IsCommonCentury(d.year) && d.month > 2 then 1 else 0)
  {
    hide DayNumber, Position;
    DayOfYearPosition(d);
    if d.month <= 2 {
      SpanBeforeMarch(d);
    } else {
      SpanAfterFebruary(d);
    }
  }

  lemma DayOfYearPosition(d: Date)
    requires 1 <= d.month <= 12
    ensures DayOfYear(d) == Position(d) - 428 + if d.month <= 2 then 0 else if d.year % 4 == 0 then 366 else 365
  {
  }

  lemma SpanBeforeMarch(d: Date)
    requires IsDate(d) && d.month <= 2
    ensures DayNumber(d) - DayNumber(Date(d.year, 1, 1)) == Position(d) - 429
  {
    assert MonthStart(13) == 428;
    hide MonthStart;
  }

  lemma SpanAfterFebruary(d: Date)
    requires IsDate(d) && d.month > 2
    ensures DayNumber(d) - DayNumber(Date(d.year, 1, 1)) == Position(d) - 429
                                                            + (if d.year % 4 == 0 then 366 else 365)
                                                            - (if IsCommonCentury(d.year) then 1 else 0)
                                                            - (if d.year == 1582 && OnOrAfterReform(d) then 10 else 0)
  {
    assert MonthStart(13) == 428;
    hide MonthStart;
    YearStep(d.year);
    CenturyStep(d.year);
  }

  // ------------------------------------------------------------------------------------
  // Inputs at which the code fails

  /** 1 January of year 0 comes back as 2 January */
  lemma YearZeroExample()
    ensures CalDat(JulDat(Date(0, 1, 1))) == Date(0, 1, 2)
  {
    hide CalDat, JulDat;
    DateRoundTrip(Date(0, 1, 1));
  }

  /** 1 March 1900 is the 60th day of its year and 31 December 1582 the 355th; the code says 61 and 365 */
  lemma DayOfYearExamples()
    ensures Ordinal(Date(1900, 3, 1)) == 60 && DayOfYear(Date(1900, 3, 1)) == 61
    ensures Ordinal(Date(1582, 12, 31)) == 355 && DayOfYear(Date(1582, 12, 31)) == 365
  {
    hide Ordinal;
    DayOfYearIsOrdinal(Date(1900, 3, 1));
    DayOfYearIsOrdinal(Date(1582, 12, 31));
  }
}
