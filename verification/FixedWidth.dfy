/** The calendar code as C evaluates it: `int`, `unsigned` and `BBInt64` at each step,
    with `None` where a signed operation would overflow. */
module FixedWidth {
  import opened CInt
  import opened Calendar
  import opened CivilDays

  /** `db_days_from_civil`, operand by operand. */
  function CDaysFromCivil(y: int, m: int, d: int): (r: Option<int>)
    requires IsInt(y) && IsUnsigned(m) && IsUnsigned(d)
  {
    match CEra(if m <= 2 then y - 1 else y)
    case None => None
    case Some(e) => CDayNumber(e.0, DayOfEra(e.1, m, d))
  }

  /** The signed `int` part: the era of a March-based year and the year in it. */
  function CEra(y: int): Option<(int, int)> {
    var shifted := if y >= 0 then y else y - 399;
    if !IsInt(y) || !IsInt(shifted) then None else
    var era := Quot(shifted, 400);
    if !IsInt(era * 400) || !IsInt(y - era * 400) then None
    else Some((era, Unsigned(y - era * 400)))
  }

  /** The closing 64-bit sum. */
  function CDayNumber(era: int, doe: int): Option<int> {
    if !IsInt64(era * 146097) || !IsInt64(era * 146097 + doe) || !IsInt64(era * 146097 + doe - 719468) then None
    else Some(era * 146097 + doe - 719468)
  }

  /** The `unsigned` part: every operation wraps at 2^32, deliberately so when 3 is
      subtracted from the month. */
  function DayOfEra(yoe: int, m: int, d: int): (doe: int)
    ensures IsUnsigned(doe)
  {
    var mp := Unsigned(m + Unsigned(if m > 2 then -3 else 9));
    var doy := Unsigned(Unsigned(Unsigned(Unsigned(153 * mp) + 2) / 5 + d) - 1);
    Unsigned(Unsigned(Unsigned(Unsigned(yoe * 365) + yoe / 4) - yoe / 100) + doy)
  }

  /** The year below which the signed era arithmetic overflows. */
  const LOWEST_ERA_YEAR: int := INT_MIN + 399

  lemma EraExact(y: int)
    requires INT_MIN - 1 <= y <= INT_MAX
    ensures CEra(y) == if y < LOWEST_ERA_YEAR then None else Some((y / 400, y % 400))
  {
  }

  lemma DayNumberFits(era: int, doe: int)
    requires -5368710 <= era <= 5368709 && IsUnsigned(doe)
    ensures CDayNumber(era, doe) == Some(era * 146097 + doe - 719468)
  {
  }

  /** For every `int` year and every unsigned month and day, valid or not, no signed
      operation overflows exactly when the March-based year is at least INT_MIN + 399. */
  lemma DefinedExactly(y: int, m: int, d: int)
    requires IsInt(y) && IsUnsigned(m) && IsUnsigned(d)
    ensures CDaysFromCivil(y, m, d).Some? <==> (if m <= 2 then y - 1 else y) >= LOWEST_ERA_YEAR
  {
    var y1 := if m <= 2 then y - 1 else y;
    EraExact(y1);
    if y1 >= LOWEST_ERA_YEAR {
      DayNumberFits(y1 / 400, DayOfEra(y1 % 400, m, d));
    }
  }

  /** On a valid month and day the wraps cancel and the intermediates keep their ranges. */
  lemma DayOfEraAgrees(yoe: int, c: Date)
    requires 0 <= yoe <= 399 && 1 <= c.month <= 12 && 1 <= c.day <= 31
    ensures Unsigned(c.month + Unsigned(if c.month > 2 then -3 else 9)) == MonthFromMarch(c.month)
    ensures 0 <= MonthFromMarch(c.month) <= 11
    ensures DayOfEra(yoe, c.month, c.day)
            == yoe * 365 + yoe / 4 - yoe / 100 + MonthStart(MonthFromMarch(c.month)) + c.day - 1
  {
  }

  lemma DayOfYearInRange(c: Date)
    requires Valid(c)
    ensures 0 <= MonthStart(MonthFromMarch(c.month)) + c.day - 1 <= 365
  {
  }

  /** The day of era stays in its era. */
  lemma DayOfEraInRange(yoe: int, c: Date)
    requires 0 <= yoe <= 399 && Valid(c)
    ensures 0 <= DayOfEra(yoe, c.month, c.day) <= 146096
  {
    hide DayOfEra, MonthStart, MonthFromMarch;
    DayOfEraAgrees(yoe, c);
    DayOfYearInRange(c);
  }

  /** The C function returns the day number of every date whose March-based year is in range. */
  lemma DaysAgree(c: Date)
    requires IsInt(c.year) && 1 <= c.month <= 12 && 1 <= c.day <= 31
    ensures CDaysFromCivil(c.year, c.month, c.day)
            == if EraYear(c) >= LOWEST_ERA_YEAR then Some(DaysFromCivil(c)) else None
  {
    hide CEra, DayOfEra, CDayNumber, YearStart, DaysFromCivil;
    var y := EraYear(c);
    EraExact(y);
    if y >= LOWEST_ERA_YEAR {
      DayOfEraAgrees(y % 400, c);
      DayNumberFits(y / 400, DayOfEra(y % 400, c.month, c.day));
      ClosedForm(c);
      EraSplit(y);
    }
  }

  datatype CDate = CDate(year: int, month: int, day: int)

  /** `db_civil_from_days`: `None` where the 64-bit arithmetic would overflow. The final
      cast to `int` keeps the low 32 bits of the year. */
  function CCivilFromDays(days: int): (r: Option<CDate>)
    requires IsInt64(days)
  {
    match CEraDay(days)
    case None => None
    case Some(e) =>
      var yoe := CYearOfEra(e.1);
      CFinishDate(e.0, yoe, CMonthDay(CDayOfYear(e.1, yoe)))
  }

  /** The signed 64-bit part: the era and the day in it. */
  function CEraDay(days: int): Option<(int, int)> {
    var z := days + 719468;
    if !IsInt64(z) || (z < 0 && !IsInt64(z - 146096)) then None else
    var era := Quot(if z >= 0 then z else z - 146096, 146097);
    if !IsInt64(era * 146097) || !IsInt64(z - era * 146097) then None
    else Some((era, Unsigned(z - era * 146097)))
  }

  function CFinishDate(era: int, yoe: int, md: (int, int)): Option<CDate> {
    if !IsInt64(era * 400) || !IsInt64(yoe + era * 400 + 1) then None
    else Some(CDate(Narrow(yoe + era * 400 + (if md.0 <= 2 then 1 else 0)), md.0, md.1))
  }

  function CYearOfEra(doe: int): int {
    Unsigned(Unsigned(Unsigned(doe - doe / 1460) + doe / 36524) - doe / 146096) / 365
  }

  function CDayOfYear(doe: int, yoe: int): int {
    Unsigned(doe - Unsigned(Unsigned(Unsigned(365 * yoe) + yoe / 4) - yoe / 100))
  }

  function CMonthDay(doy: int): (int, int) {
    var mp := Unsigned(Unsigned(5 * doy) + 2) / 153;
    var d := Unsigned(Unsigned(doy - Unsigned(Unsigned(153 * mp) + 2) / 5) + 1);
    (Unsigned(mp + Unsigned(if mp < 10 then 3 else -9)), d)
  }

  /** Widest day numbers the splitter can be asked for: an `BBInt64` second count over 86400. */
  const DAY_BOUND: int := 0x8000_0000_0000_0000 / 86400 + 1

  /** On every day number a 64-bit second count can hold, the C function returns the
      calendar's date, with the year reduced to an `int`. */
  lemma CivilAgrees(n: int)
    requires -DAY_BOUND <= n <= DAY_BOUND
    ensures var c := CivilFromDays(n);
            CCivilFromDays(n) == Some(CDate(Narrow(c.year), c.month, c.day))
  {
    hide CEraDay, CYearOfEra, CDayOfYear, CMonthDay, CFinishDate, CivilFromDays, DayOfYear, YearOfEra, Narrow;
    EraDayExact(n);
    CivilParts(n);
    var doe := (n + 719468) % 146097;
    YearStepsAgree(doe);
    FinishAgrees((n + 719468) / 146097, YearOfEra(doe), CDayOfYear(doe, YearOfEra(doe)));
  }

  lemma EraDayExact(n: int)
    requires -DAY_BOUND <= n <= DAY_BOUND
    ensures CEraDay(n) == Some(((n + 719468) / 146097, (n + 719468) % 146097))
  {
  }

  /** The `unsigned` year and day-of-year steps never wrap. */
  lemma YearStepsAgree(doe: int)
    requires 0 <= doe <= 146096
    ensures var yoe := YearOfEra(doe);
            && 0 <= yoe <= 399
            && CYearOfEra(doe) == yoe
            && CDayOfYear(doe, yoe) == doe - (365 * yoe + yoe / 4 - yoe / 100)
            && 0 <= CDayOfYear(doe, yoe) <= 365
  {
    YearOfEraExact(doe);
  }

  lemma FinishAgrees(era: int, yoe: int, doy: int)
    requires -0x8000_0000 <= era <= 0x8000_0000 && 0 <= yoe <= 399 && 0 <= doy <= 365
    ensures var c := DayOfYear(yoe + era * 400, doy);
            CFinishDate(era, yoe, CMonthDay(doy)) == Some(CDate(Narrow(c.year), c.month, c.day))
  {
  }

  /** The month steps never wrap, except for the deliberate `mp - 9`. */
  lemma MonthStepsAgree(y: int, doy: int)
    requires 0 <= doy <= 365
    ensures 0 <= (5 * doy + 2) / 153 <= 11
    ensures CMonthDay(doy) == (DayOfYear(y, doy).month, DayOfYear(y, doy).day)
  {
    var mp := (5 * doy + 2) / 153;
    assert MonthStart(mp) <= doy;
    assert Unsigned(-9) == TWO_32 - 9;
  }
}
