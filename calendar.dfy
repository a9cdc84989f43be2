/** Calendar dates as accepted by `datetime.strptime(text, "%Y-%m-%d")`. */
module Calendar {

  /** The year, month and day fields read from a `YYYY-MM-DD` text. */
  datatype Date = Date(year: int, month: int, day: int)

  predicate IsLeapYear(y: int) {
    y % 4 == 0 && (y % 100 != 0 || y % 400 == 0)
  }

  /** Length of a month of the proleptic Gregorian calendar. */
  function DaysInMonth(y: int, m: int): (n: int)
    requires 1 <= m <= 12
    ensures 28 <= n <= 31
    ensures n == 29 <==> m == 2 && IsLeapYear(y)
    ensures n == 28 <==> m == 2 && !IsLeapYear(y)
    ensures n == 31 <==> m == 1 || m == 3 || m == 5 || m == 7 || m == 8 || m == 10 || m == 12
  {
    if m == 2 then (if IsLeapYear(y) then 29 else 28)
    else if m == 4 || m == 6 || m == 9 || m == 11 then 30
    else 31
  }

  /** A date the `datetime` type can hold: years 1 to 9999, a real month, a day inside it.
      Days 1 to 28 exist in every month; the 29th of February only in a leap year; the 29th
      and 30th in every other month; the 31st in the seven long months and never in April,
      June, September or November. */
  function ValidDate(d: Date): (b: bool)
    ensures b ==> 1 <= d.year <= 9999 && 1 <= d.month <= 12 && 1 <= d.day <= 31
    ensures 1 <= d.year <= 9999 && 1 <= d.month <= 12 && 1 <= d.day <= 28 ==> b
    ensures d.month == 2 && d.day == 29 ==> (b <==> 1 <= d.year <= 9999 && IsLeapYear(d.year))
    ensures b && d.month == 2 ==> d.day <= 29
    ensures (d.month == 4 || d.month == 6 || d.month == 9 || d.month == 11) && d.day == 31 ==> !b
    ensures 1 <= d.year <= 9999 && 1 <= d.month <= 12 && d.month != 2 && 29 <= d.day <= 30 ==> b
    ensures 1 <= d.year <= 9999 && d.day == 31 ==>
              (d.month == 1 || d.month == 3 || d.month == 5 || d.month == 7 || d.month == 8 || d.month == 10 || d.month == 12) ==> b
  {
    1 <= d.year <= 9999 && 1 <= d.month <= 12 && 1 <= d.day <= DaysInMonth(d.year, d.month)
  }
}
