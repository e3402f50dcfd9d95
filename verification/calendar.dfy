/** Calendar dates as Python's `datetime` accepts them: years 1 to 9999 of
    the proleptic Gregorian calendar. */
module Calendar {

  /** A leap year of the Gregorian calendar. */
  predicate LeapYear(y: nat) {
    y % 4 == 0 && (y % 100 != 0 || y % 400 == 0)
  }

  /** The days of a month of year `y`. */
  function DaysIn(y: nat, month: nat): (d: nat)
    requires 1 <= month <= 12
    ensures 28 <= d <= 31
    ensures month == 2 ==> (d == 29 <==> LeapYear(y))
    ensures month != 2 ==> (d == 30 <==> month == 4 || month == 6 || month == 9 || month == 11)
  {
    if month == 2 then (if LeapYear(y) then 29 else 28)
    else if month == 4 || month == 6 || month == 9 || month == 11 then 30
    else 31
  }

  /** A date `datetime` can hold. */
  predicate ValidDate(y: nat, month: nat, day: nat) {
    1 <= y <= 9999 && 1 <= month <= 12 && 1 <= day <= DaysIn(y, month)
  }

  /** The 29th of February is a date in 2024 and 2000, not in 2023 or 1900. */
  lemma LeapDays()
    ensures ValidDate(2024, 2, 29) && ValidDate(2000, 2, 29)
    ensures !ValidDate(2023, 2, 29) && !ValidDate(1900, 2, 29)
  {
  }
}
