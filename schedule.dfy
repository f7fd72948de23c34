/**
 * The risk and schedule deriver: the qualitative risk band of a final
 * interval, and the next pumping date from the last one.
 *
 * A calendar date is a (year, month, day) record in the proleptic Gregorian
 * calendar; month 1 is January. Time of day and time zones are not modelled.
 */
module Schedule {
  import opened Wrappers

  // ---------------------------------------------------------------- risk

  datatype Band = Low | Moderate | High

  /** The band with the display metadata the original attaches to it. */
  datatype RiskLevel = RiskLevel(level: Band, color: string, bgColor: string)

  /** 0 for the least urgent band, 2 for the most urgent. */
  function Severity(b: Band): nat {
    match b
    case Low => 0
    case Moderate => 1
    case High => 2
  }

  /** Interval of at least 5 years: Low; at least 3: Moderate; below 3: High. */
  function DetermineRiskLevel(interval: real): (r: RiskLevel)
    ensures r.level == Low <==> 5.0 <= interval
    ensures r.level == Moderate <==> 3.0 <= interval < 5.0
    ensures r.level == High <==> interval < 3.0
  {
    if interval >= 5.0 then RiskLevel(Low, "text-green-400", "bg-green-400/10")
    else if interval >= 3.0 then RiskLevel(Moderate, "text-yellow-400", "bg-yellow-400/10")
    else RiskLevel(High, "text-red-400", "bg-red-400/10")
  }

  /** A longer interval never gives a more urgent band. */
  lemma RiskMonotone(shorter: real, longer: real)
    requires shorter <= longer
    ensures Severity(DetermineRiskLevel(longer).level) <= Severity(DetermineRiskLevel(shorter).level)
  {
  }

  /** The display metadata is a function of the band alone. */
  lemma RiskMetadataFollowsBand(x: real, y: real)
    requires DetermineRiskLevel(x).level == DetermineRiskLevel(y).level
    ensures DetermineRiskLevel(x) == DetermineRiskLevel(y)
  {
  }

  // ---------------------------------------------------------------- dates

  datatype Date = Date(year: int, month: int, day: int)

  predicate IsLeapYear(y: int) {
    y % 4 == 0 && (y % 100 != 0 || y % 400 == 0)
  }

  function DaysInMonth(year: int, month: int): (n: int)
    requires 1 <= month <= 12
    ensures 28 <= n <= 31
    ensures month == 2 ==> (n == 29 <==> IsLeapYear(year))
    ensures month != 2 ==> n >= 30
  {
    if month == 2 then (if IsLeapYear(year) then 29 else 28)
    else if month == 4 || month == 6 || month == 9 || month == 11 then 30
    else 31
  }

  predicate ValidDate(d: Date) {
    1 <= d.month <= 12 && 1 <= d.day <= DaysInMonth(d.year, d.month)
  }

  /** ECMAScript's ToIntegerOrInfinity on a finite number: truncation toward zero. */
  function TruncateTowardZero(x: real): (n: int)
    ensures 0.0 <= x ==> n as real <= x < n as real + 1.0
    ensures x < 0.0 ==> n as real - 1.0 < x <= n as real
  {
    if x >= 0.0 then x.Floor else -((-x).Floor)
  }

  /**
   * The date with the year replaced, as `setFullYear` computes it: month and
   * day are kept, and a day past the end of the month in the new year
   * carries into the next month (only February 29 can, for a valid date).
   */
  function WithYear(d: Date, year: int): (r: Date)
    requires ValidDate(d)
    ensures ValidDate(r) && r.year == year
    ensures !(d.month == 2 && d.day == 29 && !IsLeapYear(year)) ==> r.month == d.month && r.day == d.day
    ensures d.month == 2 && d.day == 29 && !IsLeapYear(year) ==> r.month == 3 && r.day == 1
  {
    var length := DaysInMonth(year, d.month);
    if d.day <= length then Date(year, d.month, d.day)
    else Date(year, d.month + 1, d.day - length)
  }

  /** A mutable calendar date, the part of a JavaScript `Date` the schedule uses. */
  class JsDate {
    var year: int
    var month: int
    var day: int

    ghost predicate Valid()
      reads this
    {
      ValidDate(Date(year, month, day))
    }

    function Value(): Date
      reads this
    {
      Date(year, month, day)
    }

    constructor (d: Date)
      requires ValidDate(d)
      ensures Valid() && Value() == d
    {
      year, month, day := d.year, d.month, d.day;
    }

    /** `setFullYear(y)`: the year becomes `y` truncated toward zero. */
    method SetFullYear(y: real)
      requires Valid()
      modifies this
      ensures Valid()
      ensures Value() == WithYear(old(Value()), TruncateTowardZero(y))
    {
      var newYear := TruncateTowardZero(y);
      var length := DaysInMonth(newYear, month);
      if day <= length {
        year := newYear;
      } else {
        year, month, day := newYear, month + 1, day - length;
      }
    }
  }

  /**
   * The next pumping date: absent without a last-pumped date, otherwise the
   * last date moved by the interval added to its year, truncated.
   */
  function NextPumpDate(lastPumped: Option<Date>, intervalYears: real): (r: Option<Date>)
    requires lastPumped.Some? ==> ValidDate(lastPumped.value)
    ensures r.None? <==> lastPumped.None?
    ensures r.Some? ==> ValidDate(r.value)
  {
    match lastPumped
    case None => None
    case Some(d) => Some(WithYear(d, TruncateTowardZero(d.year as real + intervalYears)))
  }

  method CalculateNextPumpDate(lastPumped: Option<Date>, intervalYears: real) returns (r: Option<Date>)
    requires lastPumped.Some? ==> ValidDate(lastPumped.value)
    ensures r == NextPumpDate(lastPumped, intervalYears)
  {
    if lastPumped.None? {
      return None;
    }
    var nextPump := new JsDate(lastPumped.value);
    nextPump.SetFullYear(nextPump.year as real + intervalYears);
    r := Some(nextPump.Value());
  }

  lemma FloorShift(n: int, x: real)
    requires 0.0 <= x
    ensures (n as real + x).Floor == n + x.Floor
  {
  }

  /**
   * For a non-negative year and interval, the year advances by the whole
   * years of the interval; month and day are kept, except that February 29
   * becomes March 1 in a year that is not a leap year.
   */
  lemma WholeYearsAdded(d: Date, intervalYears: real)
    requires ValidDate(d) && 0 <= d.year && 0.0 <= intervalYears
    ensures var r := NextPumpDate(Some(d), intervalYears);
            var year := d.year + intervalYears.Floor;
            && r.Some? && r.value.year == year
            && (if d.month == 2 && d.day == 29 && !IsLeapYear(year)
                then r.value.month == 3 && r.value.day == 1
                else r.value.month == d.month && r.value.day == d.day)
  {
    FloorShift(d.year, intervalYears);
  }

  /** The fraction of the interval is dropped: 3.7 years schedules like 3. */
  lemma FractionIgnored(d: Date, intervalYears: real)
    requires ValidDate(d) && 0 <= d.year && 0.0 <= intervalYears
    ensures NextPumpDate(Some(d), intervalYears) == NextPumpDate(Some(d), intervalYears.Floor as real)
  {
    FloorShift(d.year, intervalYears);
    FloorShift(d.year, intervalYears.Floor as real);
  }
}
