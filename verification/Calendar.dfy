/**
 The closed-form conversions between day numbers and civil dates, against the
 simple calendar: month lengths, leap years, and one day after another.
 */
module Calendar {
  /* ---- C++ arithmetic ------------------------------------------------- */

  /** `/` and `%` of C++, which truncate towards zero. */
  function Quot(a: int, b: int): int
    requires b > 0
  {
    if a >= 0 then a / b else -((-a) / b)
  }

  function Rem(a: int, b: int): int
    requires b > 0
  {
    a - Quot(a, b) * b
  }

  /** Conversion to `unsigned` and to `short`. */
  function ToUnsigned(a: int): nat { a % 0x1_0000_0000 }

  function ToShort(a: int): int { (a + 0x8000) % 0x1_0000 - 0x8000 }

  predicate FitsShort(a: int) { -0x8000 <= a < 0x8000 }

  lemma ShortExact(a: int)
    ensures ToShort(a) == a <==> FitsShort(a)
  {
  }

  /** The idiom `(a >= 0 ? a : a - (b - 1)) / b` rounds down. */
  lemma RoundsDown(a: int, b: int)
    requires b > 0
    ensures Quot(if a >= 0 then a else a - (b - 1), b) == a / b
  {
    if a < 0 {
      var k := -a + (b - 1);
      var q, r := k / b, k % b;
      assert a == (-q) * b + (b - 1 - r);
      FloorUnique(a, b, -q, b - 1 - r);
    }
  }

  lemma FloorUnique(a: int, b: int, q: int, r: int)
    requires b > 0 && a == q * b + r && 0 <= r < b
    ensures a / b == q && a % b == r
  {
    var k := a / b - q;
    assert k * b == r - a % b;
    assert k > 0 ==> k * b >= b;
    assert k < 0 ==> k * b <= -b;
  }

  /* ---- the simple calendar -------------------------------------------- */

  datatype Date = Date(y: int, m: int, d: int)

  predicate IsLeap(y: int) { Rem(y, 4) == 0 && (Rem(y, 100) != 0 || Rem(y, 400) == 0) }

  /** `year_month_day_last::day` */
  function LastDay(y: int, m: int): int
    requires 1 <= m <= 12
  {
    if m != 2 || !IsLeap(y) then [31, 28, 31, 30, 31, 30, 31, 31, 30, 31, 30, 31][m - 1] else 29
  }

  /** `ok`, for a year of any size. */
  predicate IsDate(x: Date) { 1 <= x.m <= 12 && 1 <= x.d <= LastDay(x.y, x.m) }

  function Tomorrow(x: Date): Date
    requires IsDate(x)
  {
    if x.d < LastDay(x.y, x.m) then x.(d := x.d + 1)
    else if x.m < 12 then Date(x.y, x.m + 1, 1)
    else Date(x.y + 1, 1, 1)
  }

  lemma RemZero(y: int, b: int)
    requires b > 0
    ensures Rem(y, b) == 0 <==> y % b == 0
  {
    if y < 0 {
      var q, r := (-y) / b, (-y) % b;
      assert y == (-q) * b - r;
      if r == 0 {
        FloorUnique(y, b, -q, 0);
      } else {
        assert (-q - 1) * b == (-q) * b - b;
        FloorUnique(y, b, -q - 1, b - r);
      }
      assert Rem(y, b) == -r;
    }
  }

  /** A leap year, with remainders that are never negative. */
  lemma LeapMeans(y: int)
    ensures IsLeap(y) <==> y % 4 == 0 && (y % 100 != 0 || y % 400 == 0)
  {
    RemZero(y, 4);
    RemZero(y, 100);
    RemZero(y, 400);
  }

  /* ---- the closed forms ----------------------------------------------- */

  /** The formulas of the conversions, for an era of 400 years that start in March. */
  function DayOfEra(yoe: int, doy: int): int { yoe * 365 + yoe / 4 - yoe / 100 + doy }

  function YearOfEra(doe: int): int { (doe - doe / 1460 + doe / 36524 - doe / 146096) / 365 }

  function MonthStart(mp: int): int { (153 * mp + 2) / 5 }

  function MonthOfYear(doy: int): int { (5 * doy + 2) / 153 }

  function MarchYear(x: Date): int { x.y - (if x.m <= 2 then 1 else 0) }

  function MarchMonth(m: int): int { if m > 2 then m - 3 else m + 9 }

  function CivilMonth(mp: int): int { if mp < 10 then mp + 3 else mp - 9 }

  /** `year_month_day::to_days` */
  function ToDays(x: Date): int
    requires 1 <= x.m <= 12
  {
    var y := MarchYear(x);
    var era := Quot(if y >= 0 then y else y - 399, 400);
    var yoe := ToUnsigned(y - era * 400);
    var doy := MonthStart(MarchMonth(x.m)) + x.d - 1;
    var doe := DayOfEra(yoe, doy);
    era * 146097 + doe - 719468
  }

  /** `year_month_day::from_days`, before the year is stored in a `short`. */
  function Civil(days: int): Date {
    var z := days + 719468;
    var era := Quot(if z >= 0 then z else z - 146096, 146097);
    var doe := ToUnsigned(z - era * 146097);
    CivilInEra(era, doe)
  }

  function CivilInEra(era: int, doe: int): Date {
    var yoe := YearOfEra(doe);
    var y := yoe + era * 400;
    var doy := doe - DayOfEra(yoe, 0);
    var mp := MonthOfYear(doy);
    var d := doy - MonthStart(mp) + 1;
    var m := CivilMonth(mp);
    Date(y + (if m <= 2 then 1 else 0), m, d)
  }

  /** `year_month_day::from_days` */
  function FromDays(days: int): Date {
    var x := Civil(days);
    x.(y := ToShort(x.y))
  }

  /* ---- eras of 400 years, starting in March ---------------------------- */

  /** The length of the year of the era that starts in the March of year `yoe`. */
  function YearLength(yoe: int): int {
    if yoe % 4 == 3 && (yoe % 100 != 99 || yoe == 399) then 366 else 365
  }

  predicate InEra(yoe: int, doy: int) { 0 <= yoe <= 399 && 0 <= doy < YearLength(yoe) }

  /** The year of the era from the day, for every day of every year of it. */
  lemma YearIsFound(yoe: int, doy: int)
    requires InEra(yoe, doy)
    ensures 0 <= DayOfEra(yoe, doy) <= 146096 && YearOfEra(DayOfEra(yoe, doy)) == yoe
  {
    var c, r := yoe / 100, yoe % 100;
    var e, s := r / 4, r % 4;
    var doe := 36524 * c + 1461 * e + 365 * s + doy;
    assert yoe / 4 == 25 * c + e && yoe % 4 == s;
    assert DayOfEra(yoe, doy) == doe;
    var rest := 24 * c + e + 365 * s + doy;
    var t := rest / 1460;
    FloorUnique(doe, 1460, 25 * c + e + t, rest % 1460);
    if doe == 146096 {
      assert doe / 36524 == 4 && doe / 146096 == 1;
    } else {
      FloorUnique(doe, 36524, c, 1461 * e + 365 * s + doy);
    }
    FloorUnique(doe - doe / 1460 + doe / 36524 - doe / 146096, 365, yoe, doy - t);
  }

  /** Every day of an era is a day of one of its years. */
  lemma EraSplits(doe: int) returns (yoe: int, doy: int)
    requires 0 <= doe <= 146096
    ensures InEra(yoe, doy) && DayOfEra(yoe, doy) == doe
  {
    var c := if doe / 36524 < 3 then doe / 36524 else 3;
    var x := doe - 36524 * c;
    var e := if x / 1461 < 24 then x / 1461 else 24;
    var w := x - 1461 * e;
    var s := if w / 365 < 3 then w / 365 else 3;
    yoe, doy := 100 * c + 4 * e + s, w - 365 * s;
    assert yoe / 100 == c && yoe % 100 == 4 * e + s && yoe / 4 == 25 * c + e && yoe % 4 == s;
  }

  /* ---- months of a year that starts in March --------------------------- */

  predicate InMonth(yoe: int, mp: int, d: int) {
    0 <= mp <= 11 && 1 <= d && MonthStart(mp) + d - 1 < (if mp < 11 then MonthStart(mp + 1) else YearLength(yoe))
  }

  /** The month from the day of the year. */
  lemma MonthIsFound(yoe: int, mp: int, d: int)
    requires InMonth(yoe, mp, d)
    ensures
      var doy := MonthStart(mp) + d - 1;
      0 <= doy < YearLength(yoe) && MonthOfYear(doy) == mp
  {
  }

  lemma MonthSplits(yoe: int, doy: int)
    requires 0 <= doy < YearLength(yoe)
    ensures
      var mp := MonthOfYear(doy);
      InMonth(yoe, mp, doy - MonthStart(mp) + 1)
  {
  }

  /* ---- dates as days of an era ----------------------------------------- */

  /** The month lengths of the calendar are those of the shifted year. */
  lemma MonthsAgree(x: Date)
    requires 1 <= x.m <= 12
    ensures IsDate(x) <==> InMonth(MarchYear(x) % 400, MarchMonth(x.m), x.d)
  {
    LeapMeans(x.y);
    hide IsLeap;
    var yoe := MarchYear(x) % 400;
    if x.m == 2 {
      assert x.y % 4 == 0 <==> yoe % 4 == 3;
      assert x.y % 100 == 0 <==> yoe % 100 == 99;
      assert x.y % 400 == 0 <==> yoe == 399;
    }
  }

  /** The day number in terms of the era, with the ranges that the code annotates. */
  lemma ToDaysMeans(x: Date)
    requires IsDate(x)
    ensures
      var yoe := MarchYear(x) % 400;
      var doy := MonthStart(MarchMonth(x.m)) + x.d - 1;
      && 0 <= yoe <= 399 && 0 <= doy <= 365 && 0 <= DayOfEra(yoe, doy) <= 146096
      && ToDays(x) == (MarchYear(x) / 400) * 146097 + DayOfEra(yoe, doy) - 719468
  {
    hide LastDay, InMonth, MonthStart, DayOfEra, InEra, Quot;
    var y := MarchYear(x);
    MonthsAgree(x);
    MonthIsFound(y % 400, MarchMonth(x.m), x.d);
    YearFits(y % 400, MonthStart(MarchMonth(x.m)) + x.d - 1);
    RoundsDown(y, 400);
  }

  lemma YearFits(yoe: int, doy: int)
    requires 0 <= yoe <= 399 && 0 <= doy < YearLength(yoe)
    ensures 0 <= DayOfEra(yoe, doy) <= 146096 && doy <= 365
  {
    YearIsFound(yoe, doy);
  }

  lemma EraOfDay(era: int, doe: int)
    requires 0 <= doe <= 146096
    ensures Civil(era * 146097 + doe - 719468) == CivilInEra(era, doe)
  {
    hide CivilInEra, Quot;
    var z := era * 146097 + doe;
    RoundsDown(z, 146097);
    FloorUnique(z, 146097, era, doe);
  }

  /** The date of a day of a known year and month of an era. */
  lemma CivilMeans(era: int, yoe: int, mp: int, d: int)
    requires 0 <= yoe <= 399 && InMonth(yoe, mp, d)
    ensures
      var m := CivilMonth(mp);
      && Civil(era * 146097 + DayOfEra(yoe, MonthStart(mp) + d - 1) - 719468)
           == Date(era * 400 + yoe + (if m <= 2 then 1 else 0), m, d)
      && InEra(yoe, MonthStart(mp) + d - 1)
  {
    hide Civil, YearLength, InMonth, MonthStart, MonthOfYear, DayOfEra, YearOfEra, CivilMonth;
    var doy := MonthStart(mp) + d - 1;
    MonthIsFound(yoe, mp, d);
    YearIsFound(yoe, doy);
    EraOfDay(era, DayOfEra(yoe, doy));
    DayFromYear(yoe, doy);
  }

  lemma DayFromYear(yoe: int, doy: int)
    ensures DayOfEra(yoe, doy) == DayOfEra(yoe, 0) + doy
  {
  }

  /** A valid date comes back from its day number, negative years included. */
  lemma CivilOfDays(x: Date)
    requires IsDate(x)
    ensures Civil(ToDays(x)) == x
  {
    hide Civil, ToDays, LastDay, DayOfEra, MonthStart, InMonth;
    ToDaysMeans(x);
    MonthsAgree(x);
    var y := MarchYear(x);
    MarchMonths(x.m);
    CivilMeans(y / 400, y % 400, MarchMonth(x.m), x.d);
  }

  lemma MarchMonths(m: int)
    requires 1 <= m <= 12
    ensures
      var mp := MarchMonth(m);
      0 <= mp <= 11 && CivilMonth(mp) == m
  {
  }

  /** Every day number is that of a valid date, which comes back from it. */
  lemma DaysOfCivil(days: int)
    ensures IsDate(Civil(days)) && ToDays(Civil(days)) == days
  {
    hide Civil, ToDays, LastDay, DayOfEra, InMonth, YearLength, MonthStart, MonthOfYear;
    var z := days + 719468;
    var era, doe := z / 146097, z % 146097;
    var yoe, doy := EraSplits(doe);
    MonthSplits(yoe, doy);
    var mp := MonthOfYear(doy);
    var d := doy - MonthStart(mp) + 1;
    MonthBounds(yoe, mp, d);
    CivilMeans(era, yoe, mp, d);
    var x := Civil(days);
    FloorUnique(MarchYear(x), 400, era, yoe);
    MonthsAgree(x);
    ToDaysMeans(x);
  }

  lemma MonthBounds(yoe: int, mp: int, d: int)
    requires InMonth(yoe, mp, d)
    ensures 0 <= mp <= 11
  {
  }

  /* ---- the conversions of the library ---------------------------------- */

  /** `year_month_day` holds dates whose year fits a `short`. */
  predicate IsYearMonthDay(x: Date) { IsDate(x) && FitsShort(x.y) }

  /** One half of the bijection. */
  lemma FromToDays(x: Date)
    requires IsYearMonthDay(x)
    ensures FromDays(ToDays(x)) == x
  {
    CivilOfDays(x);
    ShortExact(x.y);
  }

  predicate IsInt(n: int) { -0x8000_0000 <= n <= 0x7FFF_FFFF }

  /** Every value in the conversion of such a date is that of the formula: none leaves its type. */
  lemma ToDaysIsExact(x: Date)
    requires IsYearMonthDay(x)
    ensures
      var y := MarchYear(x);
      var era := Quot(if y >= 0 then y else y - 399, 400);
      var yoe, doy := y - era * 400, MonthStart(MarchMonth(x.m)) + x.d - 1;
      var doe := DayOfEra(yoe, doy);
      && IsInt(y) && IsInt(y - 399) && IsInt(era * 400) && 0 <= yoe <= 399
      && 0 <= 153 * MarchMonth(x.m) + 2 <= 1685 && 0 <= doy <= 365
      && 0 <= yoe * 365 + yoe / 4 - yoe / 100 <= doe <= 146096
      && IsInt(era * 146097) && IsInt(era * 146097 + doe) && IsInt(ToDays(x))
  {
    hide ToDays, DayOfEra, MonthStart, MarchMonth, Quot, LastDay;
    ToDaysMeans(x);
    var y := MarchYear(x);
    RoundsDown(y, 400);
    MonthsAgree(x);
    MarchMonths(x.m);
    YearStarts(y % 400, MonthStart(MarchMonth(x.m)) + x.d - 1);
  }

  lemma YearStarts(yoe: int, doy: int)
    requires 0 <= yoe <= 399 && 0 <= doy
    ensures 0 <= yoe * 365 + yoe / 4 - yoe / 100 <= DayOfEra(yoe, doy)
  {
  }

  /** In the conversion of a day only the first sum can overflow, in the last 719468 days that an `int` counts. */
  lemma FromDaysIsExact(days: int)
    requires IsInt(days)
    ensures IsInt(days + 719468) <==> days <= 0x7FFF_FFFF - 719468
    ensures
      var z := days + 719468;
      var era := Quot(if z >= 0 then z else z - 146096, 146097);
      var doe := z - era * 146097;
      var yoe := YearOfEra(doe);
      var doy := doe - DayOfEra(yoe, 0);
      var mp := MonthOfYear(doy);
      IsInt(z) ==>
        && (z < 0 ==> IsInt(z - 146096)) && IsInt(era * 146097) && 0 <= doe <= 146096
        && 0 <= doe / 1460 <= doe && 0 <= doe - doe / 1460 + doe / 36524 - doe / 146096 && 0 <= yoe <= 399
        && IsInt(era * 400) && IsInt(yoe + era * 400) && IsInt(yoe + era * 400 + 1)
        && 0 <= DayOfEra(yoe, 0) <= doe && 0 <= doy <= 365 && 0 <= mp <= 11
        && 0 <= MonthStart(mp) <= doy && 1 <= doy - MonthStart(mp) + 1 <= 31
  {
    hide DayOfEra, Quot, MonthStart, MonthOfYear, YearOfEra, YearLength;
    var z := days + 719468;
    RoundsDown(z, 146097);
    var doe := z % 146097;
    DoeIsExact(doe);
    var yoe, doy := EraSplits(doe);
    YearIsFound(yoe, doy);
    DayFromZero(yoe, doy);
    YearFits(yoe, doy);
    MonthSplits(yoe, doy);
    DayFitsMonth(yoe, MonthOfYear(doy), doy - MonthStart(MonthOfYear(doy)) + 1);
  }

  lemma DoeIsExact(doe: int)
    requires 0 <= doe <= 146096
    ensures 0 <= doe / 1460 <= doe && 0 <= doe - doe / 1460 + doe / 36524 - doe / 146096
  {
  }

  lemma DayFromZero(yoe: int, doy: int)
    requires InEra(yoe, doy)
    ensures 0 <= DayOfEra(yoe, 0) && DayOfEra(yoe, doy) == DayOfEra(yoe, 0) + doy
  {
  }

  lemma DayFitsMonth(yoe: int, mp: int, d: int)
    requires InMonth(yoe, mp, d)
    ensures 0 <= mp <= 11 && 1 <= d <= 31 && 0 <= MonthStart(mp)
  {
  }

  lemma LaterYearLaterDay(x: Date, y: int)
    requires IsDate(x) && IsDate(x.(y := y)) && x.y < y
    ensures ToDays(x) < ToDays(x.(y := y))
  {
    ToDaysMeans(x);
    ToDaysMeans(x.(y := y));
  }

  /** The other half, exactly: a day comes back if and only if its year fits. */
  lemma ToFromDays(days: int)
    ensures FitsShort(Civil(days).y) <==> IsDate(FromDays(days)) && ToDays(FromDays(days)) == days
  {
    hide ToDays, Civil;
    var x, w := Civil(days), FromDays(days);
    DaysOfCivil(days);
    ShortExact(x.y);
    if w.y != x.y && IsDate(w) {
      if w.y < x.y { LaterYearLaterDay(w, x.y); } else { LaterYearLaterDay(x, w.y); }
    }
  }

  /* ---- one day after another ------------------------------------------- */

  /** The number of a date is one less than the number of its successor. */
  lemma TomorrowIsNext(x: Date)
    requires IsDate(x)
    ensures IsDate(Tomorrow(x)) && ToDays(Tomorrow(x)) == ToDays(x) + 1
  {
    hide ToDays;
    var t := Tomorrow(x);
    TomorrowIsDate(x);
    ToDaysMeans(x);
    ToDaysMeans(t);
    if x.d < LastDay(x.y, x.m) {
    } else if x.m == 2 {
      FebruaryEnds(x);
    } else {
      MonthEnds(x);
    }
  }

  lemma TomorrowIsDate(x: Date)
    requires IsDate(x)
    ensures IsDate(Tomorrow(x))
  {
    hide IsLeap;
  }

  /** Any month but February ends where the next one starts. */
  lemma MonthEnds(x: Date)
    requires IsDate(x) && x.m != 2 && x.d == LastDay(x.y, x.m)
    ensures MarchYear(Tomorrow(x)) == MarchYear(x)
    ensures MonthStart(MarchMonth(Tomorrow(x).m)) == MonthStart(MarchMonth(x.m)) + x.d
  {
    hide IsLeap;
  }

  /** Each year of the era starts where the last one ended. */
  lemma YearEnds(yoe: int)
    requires 0 <= yoe <= 399
    ensures DayOfEra(yoe, YearLength(yoe)) == if yoe == 399 then 146097 else DayOfEra(yoe + 1, 0)
  {
  }

  /** February ends a year of the era, and perhaps the era. */
  lemma FebruaryEnds(x: Date)
    requires IsDate(x) && x.m == 2 && x.d == LastDay(x.y, 2)
    ensures
      var y := MarchYear(x);
      DayOfEra(y % 400, MonthStart(11) + x.d - 1) + (y / 400) * 146097 + 1
        == DayOfEra((y + 1) % 400, 0) + ((y + 1) / 400) * 146097
  {
    hide IsDate, LastDay, MonthStart, YearLength, DayOfEra;
    var y := MarchYear(x);
    FebruaryLength(x);
    NextYear(y);
    DayFromYear(y % 400, MonthStart(11) + x.d - 1);
    DayFromYear(y % 400, YearLength(y % 400));
  }

  lemma NextYear(y: int)
    ensures
      DayOfEra(y % 400, YearLength(y % 400)) + (y / 400) * 146097
        == DayOfEra((y + 1) % 400, 0) + ((y + 1) / 400) * 146097
  {
    hide YearLength, DayOfEra;
    var era, yoe := y / 400, y % 400;
    YearEnds(yoe);
    FirstDay();
    if yoe == 399 {
      FloorUnique(y + 1, 400, era + 1, 0);
    } else {
      FloorUnique(y + 1, 400, era, yoe + 1);
    }
  }

  lemma FirstDay()
    ensures DayOfEra(0, 0) == 0
  {
  }

  lemma FebruaryLength(x: Date)
    requires IsDate(x) && x.m == 2 && x.d == LastDay(x.y, 2)
    ensures MonthStart(11) + x.d == YearLength(MarchYear(x) % 400)
  {
    hide IsLeap, YearLength;
    MonthsAgree(x);
    MonthsAgree(x.(d := x.d + 1));
  }

  lemma Epoch()
    ensures Civil(0) == Date(1970, 1, 1)
  {
    EraOfDay(4, 135080);
    assert YearOfEra(135080) == 369 && DayOfEra(369, 0) == 134774;
    assert MonthOfYear(306) == 10 && MonthStart(10) == 306;
  }

  /**
   The closed form is the simple calendar: day 0 is 1970-01-01, and each day is
   followed by its calendar successor, before and after the epoch alike.
   */
  lemma CivilIsCalendar(days: int)
    ensures Civil(0) == Date(1970, 1, 1)
    ensures IsDate(Civil(days)) && Civil(days + 1) == Tomorrow(Civil(days))
  {
    hide Civil, ToDays, IsDate, Tomorrow;
    Epoch();
    DaysOfCivil(days);
    TomorrowIsNext(Civil(days));
    CivilOfDays(Tomorrow(Civil(days)));
  }

  /* ---- days of the week ------------------------------------------------ */

  /** `weekday_from_days` */
  function WeekdayFromDays(z: int): nat {
    ToUnsigned(if z >= -4 then Rem(z + 4, 7) else Rem(z + 5, 7) + 6) % 0x100
  }

  /** The difference of two weekdays; the subtraction is unsigned and may wrap. */
  function WeekdayMinus(x: nat, y: nat): nat {
    var diff := ToUnsigned(x - y);
    if diff <= 6 then diff else ToUnsigned(diff + 7)
  }

  lemma WeekdayMeans(z: int)
    ensures WeekdayFromDays(z) == (z + 4) % 7
  {
    if z < -4 {
      var q, r := (-(z + 5)) / 7, (-(z + 5)) % 7;
      FloorUnique(z + 4, 7, -q - 1, 6 - r);
    }
  }

  lemma WeekdayMinusMeans(x: nat, y: nat)
    requires x < 7 && y < 7
    ensures WeekdayMinus(x, y) == (x - y) % 7
  {
  }

  /** Weekdays follow one another through the epoch and before it; day 0 is a Thursday. */
  lemma WeekAdvances(z: int)
    ensures WeekdayFromDays(0) == 4 && WeekdayFromDays(z) < 7
    ensures WeekdayFromDays(z + 1) == if WeekdayFromDays(z) == 6 then 0 else WeekdayFromDays(z) + 1
  {
    WeekdayMeans(0);
    WeekdayMeans(z);
    WeekdayMeans(z + 1);
    hide WeekdayFromDays;
  }

  /** `year_month_weekday`: the `index`-th `weekday` of a month. */
  datatype MonthWeekday = MonthWeekday(y: int, m: int, weekday: nat, index: nat)

  /** `year_month_weekday::from_days` and `to_days`, before the year is stored in a `short`. */
  function WeekdayOfMonth(days: int): MonthWeekday
  {
    DaysOfCivil(days);
    var x := Civil(days);
    MonthWeekday(x.y, x.m, WeekdayFromDays(days), ToUnsigned(x.d - 1) / 7 + 1)
  }

  function DayOfWeekday(w: MonthWeekday): int
    requires 1 <= w.m <= 12
  {
    var d := ToDays(Date(w.y, w.m, 1));
    d + (WeekdayMinus(w.weekday, WeekdayFromDays(d)) + (w.index - 1) * 7)
  }

  /** `ok`, for a weekday that is one. */
  predicate IsMonthWeekday(w: MonthWeekday)
    requires 1 <= w.m <= 12
  {
    w.index >= 1
    && (w.index <= 4
        || ToUnsigned(WeekdayMinus(w.weekday, WeekdayFromDays(ToDays(Date(w.y, w.m, 1)))) + (w.index - 1) * 7 + 1)
             <= LastDay(w.y, w.m))
  }

  /** Days of one month are numbered one after another. */
  lemma SameMonth(x: Date, d: int)
    requires 1 <= x.m <= 12
    ensures ToDays(x.(d := d)) == ToDays(x) + d - x.d
  {
    hide Quot, ToUnsigned;
    var y := MarchYear(x);
    DayFromYear(ToUnsigned(y - Quot(if y >= 0 then y else y - 399, 400) * 400), MonthStart(MarchMonth(x.m)) + x.d - 1);
    DayFromYear(ToUnsigned(y - Quot(if y >= 0 then y else y - 399, 400) * 400), MonthStart(MarchMonth(x.m)) + d - 1);
  }

  /** A day is found again from its weekday and its index in the month. */
  lemma DayFromWeekday(days: int)
    ensures 1 <= Civil(days).m <= 12 && DayOfWeekday(WeekdayOfMonth(days)) == days
  {
    hide Civil, ToDays, LastDay, WeekdayFromDays, WeekdayMinus;
    DaysOfCivil(days);
    var x := Civil(days);
    SameMonth(x, 1);
    LastDayBounds(x.y, x.m);
    var first := ToDays(x.(d := 1));
    assert first == days - (x.d - 1);
    WeekdayMeans(first);
    WeekdayMeans(days);
    WeekdayMinusMeans(WeekdayFromDays(days), WeekdayFromDays(first));
    WeekOfMonth(days, x.d - 1);
  }

  lemma LastDayBounds(y: int, m: int)
    requires 1 <= m <= 12
    ensures 28 <= LastDay(y, m) <= 31
  {
    hide IsLeap;
  }

  /** The weekday of the first of the month fixes the remainder of the day. */
  lemma WeekOfMonth(days: int, n: int)
    requires 0 <= n <= 30
    ensures ((days + 4) % 7 - (days - n + 4) % 7) % 7 + (n / 7) * 7 == n
  {
    var a, b := (days + 4) % 7, (days - n + 4) % 7;
    var p, q := (days + 4) / 7, (days - n + 4) / 7;
    assert a - b == n - 7 * (p - q);
    FloorUnique(a - b, 7, n / 7 - (p - q), n % 7);
  }

  /**
   The round trip of `year_month_weekday`, exactly: an indexed weekday comes back
   if and only if it is `ok`, that is, if the month has that many of that weekday.
   */
  lemma WeekdayFromDay(w: MonthWeekday)
    requires 1 <= w.m <= 12 && w.weekday < 7 && w.index < 16
    ensures WeekdayOfMonth(DayOfWeekday(w)) == w <==> IsMonthWeekday(w)
  {
    hide Civil, ToDays, LastDay, WeekdayFromDays, WeekdayMinus;
    var x := Date(w.y, w.m, 1);
    var first, days := ToDays(x), DayOfWeekday(w);
    WeekdayMeans(first);
    WeekdayMinusMeans(w.weekday, WeekdayFromDays(first));
    LastDayBounds(w.y, w.m);
    var n := WeekdayMinus(w.weekday, WeekdayFromDays(first)) + (w.index - 1) * 7;
    assert days == first + n;
    if IsMonthWeekday(w) {
      var z := x.(d := n + 1);
      SameMonth(x, n + 1);
      CivilOfDays(z);
      WeekdayMeans(days);
      WeekdayComesBack(first, n, w.weekday, w.index);
    }
    if WeekdayOfMonth(days) == w {
      DaysOfCivil(days);
      var z := Civil(days);
      SameMonth(z, 1);
      assert z.d == n + 1;
    }
  }

  lemma WeekdayComesBack(first: int, n: int, weekday: nat, index: nat)
    requires weekday < 7 && index >= 1 && n == (weekday - (first + 4) % 7) % 7 + (index - 1) * 7
    ensures (first + n + 4) % 7 == weekday && n / 7 + 1 == index
  {
    var f, q := (first + 4) % 7, (first + 4) / 7;
    var r := (weekday - f) % 7;
    var k := (weekday - f) / 7;
    FloorUnique(n, 7, index - 1, r);
    assert first + n + 4 == 7 * (q - k + (index - 1)) + weekday;
    FloorUnique(first + n + 4, 7, q - k + (index - 1), weekday);
  }

  /* ---- adding months --------------------------------------------------- */

  /** `year_month + months`, before the year is stored in a `short`. */
  function AddMonths(y: int, m: int, n: int): (int, int) {
    var dmi := m - 1 + n;
    var dy := Quot(if dmi >= 0 then dmi else dmi - 11, 12);
    (y + dy, ToUnsigned(dmi - dy * 12 + 1))
  }

  /** Months are added as if they were counted from year 0. */
  lemma MonthsAddUp(y: int, m: int, n: int)
    ensures
      var (y', m') := AddMonths(y, m, n);
      1 <= m' <= 12 && 12 * y' + m' == 12 * y + m + n
  {
    RoundsDown(m - 1 + n, 12);
  }

  /** So they can be added one after another, and taken back. */
  lemma MonthsCompose(y: int, m: int, n: int, k: int)
    requires 1 <= m <= 12
    ensures
      var (y', m') := AddMonths(y, m, n);
      AddMonths(y', m', k) == AddMonths(y, m, n + k) && AddMonths(y', m', -n) == (y, m)
  {
    var (y', m') := AddMonths(y, m, n);
    MonthsAddUp(y, m, n);
    MonthsAddUp(y', m', k);
    MonthsAddUp(y, m, n + k);
    MonthsAddUp(y', m', -n);
    hide AddMonths;
  }
}
