/** The proleptic Gregorian calendar as a day-by-day walk, with astronomical year
    numbering (section 3.2.1 of ISO 8601:2004). Nothing here comes from the closed
    forms: it is the reference they are checked against. */
module Calendar {
  import opened CInt

  datatype Date = Date(year: int, month: int, day: int)

  /** The leap-year test of the library, with C's `%`. */
  predicate IsLeapYear(y: int) {
    (Rem(y, 4) == 0 && Rem(y, 100) != 0) || Rem(y, 400) == 0
  }

  /** On years of either sign the truncating `%` decides exactly the Gregorian rule. */
  lemma LeapYearRule(y: int)
    ensures IsLeapYear(y) <==> y % 4 == 0 && (y % 100 == 0 ==> y % 400 == 0)
  {
  }

  lemma HundredsAreFours(y: int)
    ensures y % 400 == 0 ==> y % 100 == 0 && y % 4 == 0
  {
  }

  function DaysInMonth(y: int, m: int): int {
    if m == 2 then (if IsLeapYear(y) then 29 else 28)
    else if m in {4, 6, 9, 11} then 30
    else 31
  }

  predicate Valid(c: Date) {
    1 <= c.month <= 12 && 1 <= c.day <= DaysInMonth(c.year, c.month)
  }

  function Next(c: Date): (n: Date)
    requires Valid(c)
    ensures Valid(n)
  {
    if c.day < DaysInMonth(c.year, c.month) then c.(day := c.day + 1)
    else if c.month < 12 then Date(c.year, c.month + 1, 1)
    else Date(c.year + 1, 1, 1)
  }

  function Prev(c: Date): (p: Date)
    requires Valid(c)
    ensures Valid(p) && Next(p) == c
  {
    if c.day > 1 then c.(day := c.day - 1)
    else if c.month > 1 then Date(c.year, c.month - 1, DaysInMonth(c.year, c.month - 1))
    else Date(c.year - 1, 12, 31)
  }

  const EPOCH: Date := Date(1970, 1, 1)

  /** The date `n` days after the epoch (before it, when `n` is negative), reached by walking. */
  ghost function DateAt(n: int): (c: Date)
    ensures Valid(c)
    decreases if n >= 0 then n else -n
  {
    if n == 0 then EPOCH
    else if n > 0 then Next(DateAt(n - 1))
    else Prev(DateAt(n + 1))
  }

  /** Chronological order, field by field. */
  predicate Before(a: Date, b: Date) {
    a.year < b.year
    || (a.year == b.year && (a.month < b.month || (a.month == b.month && a.day < b.day)))
  }
}
