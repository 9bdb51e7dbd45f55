/** Packing civil fields into a signed second count and splitting it again. */
module Timestamp {
  import opened CInt
  import opened Calendar
  import opened CivilDays
  import opened FixedWidth

  datatype Stamp = Stamp(date: Date, hour: int, minute: int, second: int)

  predicate ValidStamp(s: Stamp) {
    Valid(s.date) && 0 <= s.hour <= 23 && 0 <= s.minute <= 59 && 0 <= s.second <= 59
  }

  function Pack(s: Stamp): int {
    DaysFromCivil(s.date) * 86400 + s.hour * 3600 + s.minute * 60 + s.second
  }

  /** Truncating division, then the correction for a negative remainder. */
  function SplitSeconds(value: int): (int, int) {
    var days, rem := Quot(value, 86400), Rem(value, 86400);
    if rem < 0 then (days - 1, rem + 86400) else (days, rem)
  }

  function Split(value: int): Stamp {
    var p := SplitSeconds(value);
    Stamp(CivilFromDays(p.0), p.1 / 3600, p.1 % 3600 / 60, p.1 % 3600 % 60)
  }

  lemma SplitIsFloor(value: int)
    ensures SplitSeconds(value) == (value / 86400, value % 86400)
  {
  }

  /** Every second count, negative or not, splits into valid fields that pack back to it. */
  lemma SecondsSurvive(value: int)
    ensures ValidStamp(Split(value))
    ensures Pack(Split(value)) == value
  {
    SplitIsFloor(value);
    DaysSurvive(value / 86400);
    var rem := value % 86400;
    assert rem == rem / 3600 * 3600 + rem % 3600 / 60 * 60 + rem % 3600 % 60;
  }

  /** Valid fields survive pack then split. */
  lemma FieldsSurvive(s: Stamp)
    requires ValidStamp(s)
    ensures Split(Pack(s)) == s
  {
    var n, rem := DaysFromCivil(s.date), s.hour * 3600 + s.minute * 60 + s.second;
    SplitIsFloor(Pack(s));
    assert Pack(s) / 86400 == n && Pack(s) % 86400 == rem;
    DatesSurvive(s.date);
    assert rem / 3600 == s.hour && rem % 3600 == s.minute * 60 + s.second;
  }

  /** Chronological order, from the year down to the second. */
  predicate Earlier(a: Stamp, b: Stamp) {
    Before(a.date, b.date)
    || (a.date == b.date
        && (a.hour < b.hour
            || (a.hour == b.hour && (a.minute < b.minute || (a.minute == b.minute && a.second < b.second)))))
  }

  /** Second counts order valid stamps exactly as their fields do, and count from the epoch. */
  lemma StampOrder(a: Stamp, b: Stamp)
    requires ValidStamp(a) && ValidStamp(b)
    ensures Pack(a) < Pack(b) <==> Earlier(a, b)
    ensures Pack(Stamp(Date(1970, 1, 1), 0, 0, 0)) == 0
  {
    EpochIsZero();
    OrderIsomorphism(a.date, b.date);
    hide DaysFromCivil, Before;
  }

  /** One second later is one more. */
  lemma SecondsTick(s: Stamp)
    requires ValidStamp(s)
    ensures Pack(s) + 1 == Pack(if s.second < 59 then s.(second := s.second + 1)
                                else if s.minute < 59 then s.(minute := s.minute + 1, second := 0)
                                else if s.hour < 23 then s.(hour := s.hour + 1, minute := 0, second := 0)
                                else Stamp(Next(s.date), 0, 0, 0))
  {
    SuccessorIsOneMore(s.date);
    hide DaysFromCivil, Next;
  }

  // ----- as C evaluates them

  datatype Fields = Fields(y: int, m: int, d: int, hh: int, mm: int, ss: int)

  predicate IntFields(f: Fields) {
    IsInt(f.y) && IsInt(f.m) && IsInt(f.d) && IsInt(f.hh) && IsInt(f.mm) && IsInt(f.ss)
  }

  /** `_calcDateValue`; `None` where a signed operation would overflow. */
  function CPack(f: Fields): (r: Option<int>)
    requires IntFields(f)
  {
    match CDaysFromCivil(f.y, Unsigned(f.m), Unsigned(f.d))
    case None => None
    case Some(days) => CSecondCount(days, f.hh, f.mm, f.ss)
  }

  /** The 64-bit sum of days, hours, minutes and seconds. */
  function CSecondCount(days: int, hh: int, mm: int, ss: int): Option<int> {
    var total := days * 86400 + hh * 3600 + mm * 60 + ss;
    if IsInt64(days * 86400) && IsInt64(days * 86400 + hh * 3600)
       && IsInt64(days * 86400 + hh * 3600 + mm * 60) && IsInt64(total)
    then Some(total) else None
  }

  /** `_splitDateValue`; `None` where a signed operation would overflow. */
  function CSplit(value: int): (r: Option<Fields>)
    requires IsInt64(value)
  {
    var p := SplitSeconds(value);
    if !IsInt64(p.0) then None else
    match CCivilFromDays(p.0)
    case None => None
    case Some(c) => Some(Fields(c.year, Narrow(c.month), Narrow(c.day), p.1 / 3600, p.1 % 3600 / 60, p.1 % 3600 % 60))
  }

  function FieldsOf(s: Stamp): Fields {
    Fields(s.date.year, s.date.month, s.date.day, s.hour, s.minute, s.second)
  }

  /** Splitting never overflows: it returns the calendar's fields, the year reduced to an `int`. */
  lemma CSplitAgrees(value: int)
    requires IsInt64(value)
    ensures CSplit(value) == Some(FieldsOf(Split(value)).(y := Narrow(Split(value).date.year)))
    ensures ValidStamp(Split(value))
  {
    hide CCivilFromDays, CivilFromDays, SplitSeconds, DaysFromCivil;
    SplitIsFloor(value);
    SecondsSurvive(value);
    CivilAgrees(value / 86400);
  }

  /** The 64-bit part of packing never overflows, whatever `int` fields are given. */
  lemma SecondCountFits(era: int, doe: int, hh: int, mm: int, ss: int)
    requires -5368710 <= era <= 5368709 && IsUnsigned(doe) && IsInt(hh) && IsInt(mm) && IsInt(ss)
    ensures CSecondCount(era * 146097 + doe - 719468, hh, mm, ss)
            == Some((era * 146097 + doe - 719468) * 86400 + hh * 3600 + mm * 60 + ss)
  {
  }

  /** Packing is defined exactly when the March-based year is at least INT_MIN + 399. */
  lemma PackDefinedExactly(f: Fields)
    requires IntFields(f)
    ensures CPack(f).Some? <==> (if Unsigned(f.m) <= 2 then f.y - 1 else f.y) >= LOWEST_ERA_YEAR
  {
    hide CEra, DayOfEra, CDayNumber, CSecondCount, Unsigned;
    var m, d := Unsigned(f.m), Unsigned(f.d);
    DefinedExactly(f.y, m, d);
    var y1 := if m <= 2 then f.y - 1 else f.y;
    if y1 >= LOWEST_ERA_YEAR {
      EraExact(y1);
      DayNumberFits(y1 / 400, DayOfEra(y1 % 400, m, d));
      SecondCountFits(y1 / 400, DayOfEra(y1 % 400, m, d), f.hh, f.mm, f.ss);
    }
  }

  /** On calendar fields C's packing is `Pack`, as long as the year is in range. */
  lemma CPackAgrees(s: Stamp)
    requires ValidStamp(s.(date := s.date.(day := 1))) && 1 <= s.date.day <= 31 && IsInt(s.date.year)
    ensures CPack(FieldsOf(s)) == if EraYear(s.date) >= LOWEST_ERA_YEAR then Some(Pack(s)) else None
  {
    hide CDaysFromCivil, DaysFromCivil;
    PackDefinedExactly(FieldsOf(s));
    DaysAgree(s.date);
  }

  // ----- the exact range of the round trip

  const LOWEST_DAY: int := DaysFromCivil(Date(LOWEST_ERA_YEAR, 3, 1))
  const HIGHEST_DAY: int := DaysFromCivil(Date(INT_MAX, 12, 31))

  /** The two ends of the representable range, in seconds. */
  const LOWEST_STAMP: int := LOWEST_DAY * 86400
  const HIGHEST_STAMP: int := HIGHEST_DAY * 86400 + 86399

  lemma StampBounds()
    ensures LOWEST_STAMP == -67768087971628800 && HIGHEST_STAMP == 67767976233532799
  {
  }

  /** Any month and day in an `int` year that C can pack stay between the two ends. */
  lemma PackedDaysInRange(c: Date)
    requires IsInt(c.year) && 1 <= c.month <= 12 && 1 <= c.day <= 31 && EraYear(c) >= LOWEST_ERA_YEAR
    ensures LOWEST_DAY <= DaysFromCivil(c) <= HIGHEST_DAY
  {
    ClosedForm(c);
    ClosedForm(Date(LOWEST_ERA_YEAR, 3, 1));
    ClosedForm(Date(INT_MAX, 12, 31));
    YearStartMonotone(LOWEST_ERA_YEAR, EraYear(c));
    YearStartMonotone(EraYear(c), INT_MAX);
  }

  /** Dates between the two ends have years that C can pack. */
  lemma RangeHasIntYears(c: Date)
    requires Valid(c) && LOWEST_DAY <= DaysFromCivil(c) <= HIGHEST_DAY
    ensures IsInt(c.year) && EraYear(c) >= LOWEST_ERA_YEAR
  {
    OrderIsomorphism(c, Date(LOWEST_ERA_YEAR, 3, 1));
    OrderIsomorphism(Date(INT_MAX, 12, 31), c);
  }

  /** Among all 64-bit second counts, split then pack returns the value exactly between the
      two ends: outside them the year does not fit an `int`, or packing it overflows. */
  lemma RoundTripExactly(value: int)
    requires IsInt64(value)
    ensures CSplit(value).Some? && IntFields(CSplit(value).value)
    ensures CPack(CSplit(value).value) == Some(value) <==> LOWEST_STAMP <= value <= HIGHEST_STAMP
  {
    CSplitAgrees(value);
    SplitDayInRange(value);
    NarrowedYear(Split(value));
  }

  /** Packing a stamp whose year was reduced to an `int` gives the stamp back exactly on the range. */
  lemma NarrowedYear(s: Stamp)
    requires ValidStamp(s)
    ensures IntFields(FieldsOf(s).(y := Narrow(s.date.year)))
    ensures CPack(FieldsOf(s).(y := Narrow(s.date.year))) == Some(Pack(s))
            <==> LOWEST_DAY <= DaysFromCivil(s.date) <= HIGHEST_DAY
  {
    var t := s.(date := s.date.(year := Narrow(s.date.year)));
    assert FieldsOf(t) == FieldsOf(s).(y := Narrow(s.date.year));
    CPackAgrees(t);
    if LOWEST_DAY <= DaysFromCivil(s.date) <= HIGHEST_DAY {
      RangeHasIntYears(s.date);
    } else if EraYear(t.date) >= LOWEST_ERA_YEAR {
      PackedDaysInRange(t.date);
      SecondsOrdered(s, t);
    }
  }

  /** The day decides between stamps of different days. */
  lemma SecondsOrdered(s: Stamp, t: Stamp)
    requires s.hour == t.hour && s.minute == t.minute && s.second == t.second
    ensures Pack(s) == Pack(t) <==> DaysFromCivil(s.date) == DaysFromCivil(t.date)
  {
  }

  lemma SplitDayInRange(value: int)
    ensures Pack(Split(value)) == value
    ensures LOWEST_STAMP <= value <= HIGHEST_STAMP <==>
            LOWEST_DAY <= DaysFromCivil(Split(value).date) <= HIGHEST_DAY
  {
    SecondsSurvive(value);
    SplitIsFloor(value);
    DaysSurvive(value / 86400);
  }

  /** One second below the lower end the year still fits, and packing the fields overflows. */
  lemma RoundTripFails()
    ensures var v, s := -67768087971628801, Stamp(Date(LOWEST_ERA_YEAR, 2, 28), 23, 59, 59);
            v == LOWEST_STAMP - 1 && CSplit(v) == Some(FieldsOf(s)) && CPack(FieldsOf(s)) == None
  {
    var v, s := -67768087971628801, Stamp(Date(LOWEST_ERA_YEAR, 2, 28), 23, 59, 59);
    StampBounds();
    LastSecondBelow(s);
    hide CSplit, CPack, Split, Pack;
    FieldsSurvive(s);
    CSplitAgrees(v);
    CPackAgrees(s);
  }

  lemma LastSecondBelow(s: Stamp)
    requires s == Stamp(Date(LOWEST_ERA_YEAR, 2, 28), 23, 59, 59)
    ensures ValidStamp(s) && Pack(s) == LOWEST_STAMP - 1
  {
    LeapYearRule(LOWEST_ERA_YEAR);
    hide IsLeapYear, DaysFromCivil;
    SuccessorIsOneMore(s.date);
  }

  /** Valid `int` fields that C can pack come back unchanged. */
  lemma CFieldsSurvive(s: Stamp)
    requires ValidStamp(s) && IsInt(s.date.year) && EraYear(s.date) >= LOWEST_ERA_YEAR
    ensures CPack(FieldsOf(s)) == Some(Pack(s)) && IsInt64(Pack(s))
    ensures CSplit(Pack(s)) == Some(FieldsOf(s))
  {
    hide Split, DaysFromCivil, CPack, CSplit;
    CPackAgrees(s);
    FieldsSurvive(s);
    PackedDaysInRange(s.date);
    StampBounds();
    CSplitAgrees(Pack(s));
  }
}
