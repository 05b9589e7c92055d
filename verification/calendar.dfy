/** Proleptic Gregorian dates as Python's `datetime.date` handles them, and
    the minimum-age rule for a profile's birthdate. */
module Calendar {
  import opened Wrappers

  datatype Date = Date(year: int, month: int, day: int)

  predicate IsLeap(y: int) {
    y % 4 == 0 && (y % 100 != 0 || y % 400 == 0)
  }

  function DaysInMonth(y: int, m: int): (n: int)
    requires 1 <= m <= 12
    ensures 28 <= n <= 31
    ensures m == 2 ==> (n == 29 <==> IsLeap(y))
  {
    if m == 2 then (if IsLeap(y) then 29 else 28)
    else if m == 4 || m == 6 || m == 9 || m == 11 then 30
    else 31
  }

  /** The years `datetime.date` can represent. */
  const MinYear: int := 1
  const MaxYear: int := 9999

  predicate Valid(d: Date) {
    MinYear <= d.year <= MaxYear && 1 <= d.month <= 12 && 1 <= d.day <= DaysInMonth(d.year, d.month)
  }

  /** `a > b` on dates: chronological order. */
  predicate After(a: Date, b: Date) {
    a.year > b.year
    || (a.year == b.year && a.month > b.month)
    || (a.year == b.year && a.month == b.month && a.day > b.day)
  }

  lemma AfterTotal(a: Date, b: Date)
    ensures a == b || After(a, b) || After(b, a)
    ensures !(After(a, b) && After(b, a))
  {
  }

  /** `d.replace(year=y)`: the same month and day in year `y`, or the
      `ValueError` `date` raises when that day does not exist. */
  function ReplaceYear(d: Date, y: int): (r: Result<Date>)
    requires Valid(d)
    ensures r.Ok? <==> Valid(Date(y, d.month, d.day))
    ensures r.Ok? ==> r.value == Date(y, d.month, d.day)
    ensures r.Err? ==> r.error.Validation?
  {
    if !(MinYear <= y <= MaxYear) then Err(Validation("year is out of range"))
    else if d.day > DaysInMonth(y, d.month) then Err(Validation("day is out of range for month"))
    else Ok(Date(y, d.month, d.day))
  }

  const MinAge: nat := 18

  const FutureBirthdate: string := "Birthdate cannot be in the future."
  const TooYoung: string := "User must be at least 18 years old."

  /** `validate_birthdate` with `today` given: the cut-off date is today's
      month and day eighteen years back, computed before either check. */
  function ValidateBirthdate(value: Date, today: Date): (r: Result<Date>)
    requires Valid(today)
    ensures r.Ok? <==> (ReplaceYear(today, today.year - MinAge).Ok?
                        && !After(value, today) && !After(value, ReplaceYear(today, today.year - MinAge).value))
    ensures r.Ok? ==> r.value == value
    ensures r == Err(Validation(FutureBirthdate)) <==>
      ReplaceYear(today, today.year - MinAge).Ok? && After(value, today)
    ensures r.Err? ==> r.error.Validation?
  {
    var cutoff :- ReplaceYear(today, today.year - MinAge);
    if After(value, today) then Err(Validation(FutureBirthdate))
    else if After(value, cutoff) then Err(Validation(TooYoung))
    else Ok(value)
  }

  /** A birthdate exactly eighteen years before today is accepted. */
  lemma ExactlyEighteen(today: Date)
    requires Valid(today) && MinYear + MinAge <= today.year
    requires !(today.month == 2 && today.day == 29)
    ensures ValidateBirthdate(Date(today.year - MinAge, today.month, today.day), today).Ok?
  {
  }

  /** One day younger than that is rejected as too young. */
  lemma OneDayShort(today: Date)
    requires Valid(today) && MinYear + MinAge <= today.year
    requires !(today.month == 2 && today.day == 29) && today.day < DaysInMonth(today.year - MinAge, today.month)
    ensures ValidateBirthdate(Date(today.year - MinAge, today.month, today.day + 1), today) == Err(Validation(TooYoung))
  {
  }

  /** Eighteen years before a leap year is never a leap year. */
  lemma LeapMinusEighteen(y: int)
    requires IsLeap(y)
    ensures !IsLeap(y - MinAge)
  {
    assert (y - 18) % 4 == 2 by {
      assert y - 18 == (y / 4 - 5) * 4 + 2;
    }
  }

  /** On February 29 the cut-off date does not exist, so every birthdate is
      rejected, even one long before the cut-off. */
  lemma LeapDayRejectsAll(value: Date, today: Date)
    requires Valid(today) && today.month == 2 && today.day == 29
    ensures ValidateBirthdate(value, today).Err?
  {
    assert IsLeap(today.year);
    LeapMinusEighteen(today.year);
  }
}
