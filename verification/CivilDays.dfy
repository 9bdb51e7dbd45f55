/** The closed-form day numbers of the library, and the proof that they are the calendar. */
module CivilDays {
  import opened CInt
  import opened Calendar

  // ----- the two conversions, over unbounded integers

  /** The year used by the 400-year eras: it starts in March. */
  function EraYear(c: Date): int {
    if c.month <= 2 then c.year - 1 else c.year
  }

  /** Days from 1 March to the first of the month numbered from March. */
  function MonthStart(mp: int): int {
    (153 * mp + 2) / 5
  }

  function MonthFromMarch(m: int): int {
    m + (if m > 2 then -3 else 9)
  }

  function DaysFromCivil(c: Date): int {
    var y := EraYear(c);
    var era := Quot(if y >= 0 then y else y - 399, 400);
    var yoe := y - era * 400;
    var doy := MonthStart(MonthFromMarch(c.month)) + c.day - 1;
    var doe := yoe * 365 + yoe / 4 - yoe / 100 + doy;
    era * 146097 + doe - 719468
  }

  function CivilFromDays(days: int): Date {
    var z := days + 719468;
    var era := Quot(if z >= 0 then z else z - 146096, 146097);
    var doe := z - era * 146097;
    var yoe := YearOfEra(doe);
    DayOfYear(yoe + era * 400, doe - (365 * yoe + yoe / 4 - yoe / 100))
  }

  function YearOfEra(doe: int): int {
    (doe - doe / 1460 + doe / 36524 - doe / 146096) / 365
  }

  /** Day `doy` of the March-based year `y`, by the month formula. */
  function DayOfYear(y: int, doy: int): Date {
    var mp := (5 * doy + 2) / 153;
    var m := mp + (if mp < 10 then 3 else -9);
    Date(y + (if m <= 2 then 1 else 0), m, doy - MonthStart(mp) + 1)
  }

  // ----- the closed form in floor arithmetic

  /** Days from 1 March of year 0 to 1 March of year `y`. */
  function YearStart(y: int): int {
    365 * y + y / 4 - y / 100 + y / 400
  }

  lemma EraSplit(y: int)
    ensures YearStart(y) == y / 400 * 146097 + y % 400 * 365 + y % 400 / 4 - y % 400 / 100
  {
    var e, r := y / 400, y % 400;
    Parts4(100 * e, r);
    Parts100(4 * e, r);
    assert y == 400 * e + r == 4 * (100 * e) + r == 100 * (4 * e) + r;
  }

  lemma Parts4(k: int, r: int)
    ensures (4 * k + r) / 4 == k + r / 4
  {
  }

  lemma Parts100(k: int, r: int)
    ensures (100 * k + r) / 100 == k + r / 100
  {
  }

  lemma ClosedForm(c: Date)
    ensures DaysFromCivil(c) ==
            YearStart(EraYear(c)) + MonthStart(MonthFromMarch(c.month)) + c.day - 1 - 719468
  {
    assert Quot(if EraYear(c) >= 0 then EraYear(c) else EraYear(c) - 399, 400) == EraYear(c) / 400;
    EraSplit(EraYear(c));
  }

  /** Consecutive Marches are a year apart, and the leap day belongs to the later one. */
  lemma YearStep(y: int)
    ensures YearStart(y + 1) - YearStart(y) == if IsLeapYear(y + 1) then 366 else 365
  {
    LeapYearRule(y + 1);
    HundredsAreFours(y + 1);
    HundredIsFours(y + 1);
    assert (y + 1) / 4 - y / 4 == if (y + 1) % 4 == 0 then 1 else 0;
    assert (y + 1) / 100 - y / 100 == if (y + 1) % 100 == 0 then 1 else 0;
    assert (y + 1) / 400 - y / 400 == if (y + 1) % 400 == 0 then 1 else 0;
  }

  lemma HundredIsFours(y: int)
    ensures y % 100 == 0 ==> y % 4 == 0
  {
  }

  // ----- the closed form against the walk

  lemma EpochIsZero()
    ensures DaysFromCivil(Date(1970, 1, 1)) == 0 && EPOCH == Date(1970, 1, 1)
  {
  }

  /** The successor date is exactly one more. */
  lemma SuccessorIsOneMore(c: Date)
    requires Valid(c)
    ensures DaysFromCivil(Next(c)) == DaysFromCivil(c) + 1
  {
    hide DaysFromCivil, YearStart, IsLeapYear;
    ClosedForm(c);
    ClosedForm(Next(c));
    if c.day == DaysInMonth(c.year, c.month) {
      if c.month == 2 {
        YearStep(c.year - 1);
      } else {
        MonthStep(c.month);
      }
    }
  }

  /** Within a March-based year each month starts where the previous one ends. */
  lemma MonthStep(m: int)
    requires 1 <= m <= 12 && m != 2
    ensures forall y :: MonthStart(MonthFromMarch(m) + 1) == MonthStart(MonthFromMarch(m)) + DaysInMonth(y, m)
    ensures MonthFromMarch(if m == 12 then 1 else m + 1) == MonthFromMarch(m) + 1
  {
  }

  /** The closed form counts the days of the walk, in both directions from the epoch. */
  lemma {:induction false} CountsTheWalk(n: int)
    ensures DaysFromCivil(DateAt(n)) == n
    decreases if n >= 0 then n else -n
  {
    if n == 0 {
      EpochIsZero();
    } else if n > 0 {
      CountsTheWalk(n - 1);
      SuccessorIsOneMore(DateAt(n - 1));
    } else {
      CountsTheWalk(n + 1);
      SuccessorIsOneMore(Prev(DateAt(n + 1)));
    }
  }

  // ----- order

  lemma YearStartMonotone(a: int, b: int)
    requires a <= b
    ensures YearStart(a) + 365 * (b - a) <= YearStart(b)
    decreases b - a
  {
    if a < b {
      YearStep(a);
      YearStartMonotone(a + 1, b);
    }
  }

  /** A date lies inside its March-based year. */
  lemma InsideYear(c: Date)
    requires Valid(c)
    ensures YearStart(EraYear(c)) <= DaysFromCivil(c) + 719468 < YearStart(EraYear(c) + 1)
  {
    ClosedForm(c);
    YearStep(EraYear(c));
  }

  /** Later months of the same March-based year start after every day of the earlier ones. */
  lemma MonthsInOrder(a: Date, b: Date)
    requires Valid(a) && Valid(b) && MonthFromMarch(a.month) < MonthFromMarch(b.month)
    ensures MonthStart(MonthFromMarch(a.month)) + a.day <= MonthStart(MonthFromMarch(b.month))
  {
  }

  lemma OrderPreserved(a: Date, b: Date)
    requires Valid(a) && Valid(b) && Before(a, b)
    ensures DaysFromCivil(a) < DaysFromCivil(b)
  {
    hide DaysFromCivil, YearStart, IsLeapYear;
    if EraYear(a) < EraYear(b) {
      InsideYear(a);
      InsideYear(b);
      YearStartMonotone(EraYear(a) + 1, EraYear(b));
    } else {
      ClosedForm(a);
      ClosedForm(b);
      assert EraYear(a) == EraYear(b);
      if a.month != b.month {
        MonthsInOrder(a, b);
      }
    }
  }

  /** Day numbers order dates exactly as their fields do, and so are injective on valid dates. */
  lemma OrderIsomorphism(a: Date, b: Date)
    requires Valid(a) && Valid(b)
    ensures DaysFromCivil(a) < DaysFromCivil(b) <==> Before(a, b)
    ensures DaysFromCivil(a) == DaysFromCivil(b) <==> a == b
  {
    if Before(a, b) {
      OrderPreserved(a, b);
    } else if Before(b, a) {
      OrderPreserved(b, a);
    }
  }

  // ----- the inverse

  /** The year-of-era formula finds the year whose days contain `doe`. */
  lemma YearOfEraExact(doe: int)
    requires 0 <= doe < 146097
    ensures var k := YearOfEra(doe);
            && 0 <= k <= 399
            && 0 <= doe - (365 * k + k / 4 - k / 100) <= 365
            && (doe - (365 * k + k / 4 - k / 100) == 365 ==> IsLeapYear(k + 1))
  {
    hide YearOfEra, IsLeapYear;
    var c := if doe == 146096 then 3 else doe / 36524;
    var inCentury := doe - 36524 * c;
    var q := inCentury / 1461;
    var inCycle := inCentury - 1461 * q;
    var r := if inCycle == 1460 then 3 else inCycle / 365;
    var t := inCycle - 365 * r;
    YearOfEraParts(doe, c, q, r, t);
    var k := 100 * c + 4 * q + r;
    assert k / 4 == 25 * c + q;
    assert k / 100 == c;
    LeapYearRule(k + 1);
  }

  /** The formula on a day given by its century, four-year cycle, year and day. */
  lemma YearOfEraParts(doe: int, c: int, q: int, r: int, t: int)
    requires 0 <= c <= 3 && 0 <= q <= 24 && 0 <= r <= 3 && 0 <= t <= 365
    requires doe == 36524 * c + 1461 * q + 365 * r + t
    requires t == 365 ==> r == 3 && (q < 24 || c == 3)
    ensures YearOfEra(doe) == 100 * c + 4 * q + r
  {
    var e := if 24 * c + q + 365 * r + t >= 1460 then 1 else 0;
    assert doe / 1460 == 25 * c + q + e;
    assert doe / 36524 - doe / 146096 == c;
  }

  /** The month formula finds the month whose days contain `doy`. */
  lemma DayOfYearExact(y: int, doy: int)
    requires 0 <= doy <= 365 && (doy == 365 ==> IsLeapYear(y + 1))
    ensures Valid(DayOfYear(y, doy))
    ensures DaysFromCivil(DayOfYear(y, doy)) == YearStart(y) + doy - 719468
  {
    var mp := (5 * doy + 2) / 153;
    assert 0 <= mp <= 11 && MonthStart(mp) <= doy < MonthStart(mp + 1);
    var c := DayOfYear(y, doy);
    assert MonthFromMarch(c.month) == mp && EraYear(c) == y;
    ClosedForm(c);
    if mp < 11 {
      MonthStep(c.month);
    }
  }

  /** Leap years repeat with the eras. */
  lemma LeapInEra(era: int, yoe: int)
    ensures IsLeapYear(era * 400 + yoe) == IsLeapYear(yoe)
  {
    hide IsLeapYear;
    LeapYearRule(era * 400 + yoe);
    LeapYearRule(yoe);
    Shift4(100 * era, yoe);
    Shift100(4 * era, yoe);
    Shift400(era, yoe);
    assert 4 * (100 * era) + yoe == 100 * (4 * era) + yoe == 400 * era + yoe == era * 400 + yoe;
  }

  lemma Shift4(k: int, x: int)
    ensures (4 * k + x) % 4 == x % 4
  {
  }

  lemma Shift100(k: int, x: int)
    ensures (100 * k + x) % 100 == x % 100
  {
  }

  lemma Shift400(k: int, x: int)
    ensures (400 * k + x) % 400 == x % 400
  {
  }

  lemma EraYearStart(era: int, yoe: int)
    requires 0 <= yoe < 400
    ensures YearStart(era * 400 + yoe) == era * 146097 + yoe * 365 + yoe / 4 - yoe / 100
  {
    var y := era * 400 + yoe;
    assert y / 400 == era && y % 400 == yoe;
    EraSplit(y);
  }

  /** The inverse, with its era split written in floor arithmetic. */
  lemma CivilParts(n: int)
    ensures var era, doe := (n + 719468) / 146097, (n + 719468) % 146097;
            var yoe := YearOfEra(doe);
            CivilFromDays(n) == DayOfYear(yoe + era * 400, doe - (365 * yoe + yoe / 4 - yoe / 100))
  {
    hide DayOfYear, YearOfEra;
    var z := n + 719468;
    assert Quot(if z >= 0 then z else z - 146096, 146097) == z / 146097;
    assert z - z / 146097 * 146097 == z % 146097;
  }

  /** The inverse finds the March-based year and the day in it. */
  lemma SplitDays(n: int) returns (y: int, doy: int)
    ensures 0 <= doy <= 365 && (doy == 365 ==> IsLeapYear(y + 1))
    ensures YearStart(y) + doy - 719468 == n
    ensures CivilFromDays(n) == DayOfYear(y, doy)
  {
    hide CivilFromDays, DayOfYear, YearStart, YearOfEra, IsLeapYear;
    CivilParts(n);
    var era, doe := (n + 719468) / 146097, (n + 719468) % 146097;
    YearOfEraExact(doe);
    var yoe := YearOfEra(doe);
    y, doy := yoe + era * 400, doe - (365 * yoe + yoe / 4 - yoe / 100);
    LeapInEra(era, yoe + 1);
    EraYearStart(era, yoe);
  }

  /** Every day number names a valid date whose day number it is. */
  lemma DaysSurvive(n: int)
    ensures Valid(CivilFromDays(n))
    ensures DaysFromCivil(CivilFromDays(n)) == n
  {
    var y, doy := SplitDays(n);
    DayOfYearExact(y, doy);
  }

  /** Every valid date, of either sign of year, survives the trip through its day number. */
  lemma DatesSurvive(c: Date)
    requires Valid(c)
    ensures CivilFromDays(DaysFromCivil(c)) == c
  {
    DaysSurvive(DaysFromCivil(c));
    OrderIsomorphism(CivilFromDays(DaysFromCivil(c)), c);
  }

  /** The closed-form inverse is the walk itself. */
  lemma InverseIsTheWalk(n: int)
    ensures CivilFromDays(n) == DateAt(n)
  {
    CountsTheWalk(n);
    DatesSurvive(DateAt(n));
  }
}
