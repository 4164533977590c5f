/**
 The proleptic Gregorian calendar of section 21.4.1 of ECMA-262, on day numbers
 (day 0 is 1970-01-01), the YYYY-MM-DD strings the services exchange, and the two
 date-range loops and two night counts built on them.
 */
module Calendar {
  import opened Outcomes

  const MS_PER_DAY := 86_400_000
  const MIN_DAY := -719_528    // 0000-01-01
  const MAX_DAY := 2_932_896   // 9999-12-31

  /** The dates a four-digit year can name. */
  type Day = d: int | MIN_DAY <= d <= MAX_DAY witness 0

  datatype DateError = InvalidDate | EmptyRange

  /** A JavaScript number that is either NaN or a whole number. */
  datatype JsNumber = NaN | Num(n: int)

  // ---------------------------------------------------------------- years

  predicate LeapYear(y: int) {
    (y % 4 == 0 && y % 100 != 0) || y % 400 == 0
  }

  function DaysInYear(y: int): int {
    if LeapYear(y) then 366 else 365
  }

  function DayFromYear(y: int): int {
    365 * (y - 1970) + (y - 1969) / 4 - (y - 1901) / 100 + (y - 1601) / 400
  }

  lemma FourthYears(y: int)
    ensures (y - 1968) / 4 - (y - 1969) / 4 == if y % 4 == 0 then 1 else 0
  {
  }

  lemma Centuries(y: int)
    ensures (y - 1900) / 100 - (y - 1901) / 100 == if y % 100 == 0 then 1 else 0
  {
  }

  lemma FourthCenturies(y: int)
    ensures (y - 1600) / 400 - (y - 1601) / 400 == if y % 400 == 0 then 1 else 0
    ensures y % 400 == 0 ==> y % 100 == 0 && y % 4 == 0
    ensures y % 100 == 0 ==> y % 4 == 0
  {
  }

  lemma DayFromYearStep(y: int)
    ensures DayFromYear(y + 1) == DayFromYear(y) + DaysInYear(y)
  {
    FourthYears(y);
    Centuries(y);
    FourthCenturies(y);
  }

  lemma {:induction false} DayFromYearMonotone(y: int, z: int)
    requires y <= z
    ensures DayFromYear(y) + 365 * (z - y) <= DayFromYear(z)
    decreases z - y
  {
    if y < z {
      DayFromYearStep(y);
      DayFromYearMonotone(y + 1, z);
    }
  }

  /** The largest year at or after y that starts no later than day d. */
  function YearFrom(d: int, y: int): (r: int)
    requires DayFromYear(y) <= d
    ensures y <= r && DayFromYear(r) <= d < DayFromYear(r + 1)
    decreases d - DayFromYear(y)
  {
    DayFromYearStep(y);
    if DayFromYear(y + 1) <= d then YearFrom(d, y + 1) else y
  }

  /** getUTCFullYear */
  function YearOf(d: Day): (y: int)
    ensures 0 <= y <= 9999 && DayFromYear(y) <= d < DayFromYear(y + 1)
  {
    var y := YearFrom(d, 0);
    assert y <= 9999 by {
      if 10_000 <= y { DayFromYearMonotone(10_000, y); }
    }
    y
  }

  // ---------------------------------------------------------------- months and dates

  /** Days of year y before the first of month m; month 13 stands for the next January. */
  function DaysBeforeMonth(y: int, m: int): int
    requires 1 <= m <= 13
  {
    var leap := if LeapYear(y) then 1 else 0;
    if m == 1 then 0 else if m == 2 then 31 else if m == 3 then 59 + leap else if m == 4 then 90 + leap
    else if m == 5 then 120 + leap else if m == 6 then 151 + leap else if m == 7 then 181 + leap
    else if m == 8 then 212 + leap else if m == 9 then 243 + leap else if m == 10 then 273 + leap
    else if m == 11 then 304 + leap else if m == 12 then 334 + leap else 365 + leap
  }

  function DaysInMonth(y: int, m: int): int
    requires 1 <= m <= 12
  {
    DaysBeforeMonth(y, m + 1) - DaysBeforeMonth(y, m)
  }

  /** MakeDay for an in-range month; a date past the end of the month rolls over. */
  function MakeDay(y: int, m: int, date: int): int
    requires 1 <= m <= 12
  {
    DayFromYear(y) + DaysBeforeMonth(y, m) + date - 1
  }

  /** The month in which the given day of year y falls, by bisection. */
  function MonthIn(y: int, dayOfYear: int): (m: int)
    requires 0 <= dayOfYear < DaysInYear(y)
    ensures 1 <= m <= 12
    ensures DaysBeforeMonth(y, m) <= dayOfYear < DaysBeforeMonth(y, m + 1)
  {
    if dayOfYear < DaysBeforeMonth(y, 7) then
      if dayOfYear < DaysBeforeMonth(y, 4) then
        if dayOfYear < DaysBeforeMonth(y, 2) then 1 else if dayOfYear < DaysBeforeMonth(y, 3) then 2 else 3
      else
        if dayOfYear < DaysBeforeMonth(y, 5) then 4 else if dayOfYear < DaysBeforeMonth(y, 6) then 5 else 6
    else if dayOfYear < DaysBeforeMonth(y, 10) then
      if dayOfYear < DaysBeforeMonth(y, 8) then 7 else if dayOfYear < DaysBeforeMonth(y, 9) then 8 else 9
    else
      if dayOfYear < DaysBeforeMonth(y, 11) then 10 else if dayOfYear < DaysBeforeMonth(y, 12) then 11 else 12
  }

  /** getUTCMonth() + 1 */
  function MonthOf(d: Day): (m: int)
    ensures 1 <= m <= 12
    ensures MakeDay(YearOf(d), m, 1) <= d < MakeDay(YearOf(d), m, 1) + DaysInMonth(YearOf(d), m)
  {
    DayFromYearStep(YearOf(d));
    MonthIn(YearOf(d), d - DayFromYear(YearOf(d)))
  }

  /** getUTCDate */
  function DateOf(d: Day): (date: int)
    ensures 1 <= date <= DaysInMonth(YearOf(d), MonthOf(d)) <= 31
    ensures MakeDay(YearOf(d), MonthOf(d), date) == d
  {
    d - MakeDay(YearOf(d), MonthOf(d), 1) + 1
  }

  /** setUTCDate */
  function SetUtcDate(d: Day, date: int): int {
    MakeDay(YearOf(d), MonthOf(d), date)
  }

  // ---------------------------------------------------------------- strings

  predicate IsDigit(c: char) {
    '0' <= c <= '9'
  }

  function Digit(n: int): char
    requires 0 <= n <= 9
  {
    ('0' as int + n) as char
  }

  function DigitValue(c: char): (n: int)
    requires IsDigit(c)
    ensures 0 <= n <= 9 && Digit(n) == c
  {
    c as int - '0' as int
  }

  function Pad2(n: int): string
    requires 0 <= n <= 99
  {
    [Digit(n / 10), Digit(n % 10)]
  }

  /** A number printed with no padding, as a template literal prints it. */
  function Decimal(n: nat): string {
    if n < 10 then [Digit(n)] else Decimal(n / 10) + [Digit(n % 10)]
  }

  /** YYYY-MM-DD, ten characters. */
  function Stamp(y: int, m: int, date: int): (s: string)
    requires 0 <= y <= 9999 && 0 <= m <= 99 && 0 <= date <= 99
  {
    [Digit(y / 1000), Digit(y / 100 % 10), Digit(y / 10 % 10), Digit(y % 10), '-',
     Digit(m / 10), Digit(m % 10), '-', Digit(date / 10), Digit(date % 10)]
  }

  /** toISOString at midnight UTC */
  function ToIsoString(d: Day): string {
    Stamp(YearOf(d), MonthOf(d), DateOf(d)) + "T00:00:00.000Z"
  }

  /** The YYYY-MM-DD name of a day: the first ten characters of its ISO time. */
  function Iso(d: Day): string {
    ToIsoString(d)[..10]
  }

  function Dashed(yyyy: string, mm: string, dd: string): string {
    yyyy + "-" + mm + "-" + dd
  }

  /** The same date with the year unpadded, as the utility version prints it. */
  function UnpaddedIso(d: Day): string {
    Dashed(Decimal(YearOf(d)), Pad2(MonthOf(d)), Pad2(DateOf(d)))
  }

  /**
   The day a YYYY-MM-DD string denotes. A date number up to 31 is accepted in every
   month and rolls over, as MakeDay does.
   */
  function ParseIso(s: string): (r: Option<Day>) {
    if |s| == 10 && s[4] == '-' && s[7] == '-'
       && (forall i | i in {0, 1, 2, 3, 5, 6, 8, 9} :: IsDigit(s[i])) then
      var y := 1000 * DigitValue(s[0]) + 100 * DigitValue(s[1]) + 10 * DigitValue(s[2]) + DigitValue(s[3]);
      var m := 10 * DigitValue(s[5]) + DigitValue(s[6]);
      var date := 10 * DigitValue(s[8]) + DigitValue(s[9]);
      if 1 <= m <= 12 && 1 <= date <= 31 then
        DayFromYearMonotone(0, y);
        DayFromYearMonotone(y, 9999);
        Some(MakeDay(y, m, date))
      else None
    else None
  }

  /** Exactly the strings a DATE column stores unchanged: those naming a day of the calendar. */
  predicate IsCalendarDate(s: string) {
    ParseIso(s).Some? && Iso(ParseIso(s).value) == s
  }

  // ---------------------------------------------------------------- the range loops

  predicate ValidRange(checkIn: string, checkOut: string) {
    && ParseIso(checkIn).Some?
    && ParseIso(checkOut).Some?
    && ParseIso(checkIn).value < ParseIso(checkOut).value
  }

  /** One name for each day from first up to, not including, last, in order. */
  ghost predicate NamesOf(name: Day -> string, names: seq<string>, first: Day, last: Day) {
    && |names| == last - first
    && forall i | 0 <= i < |names| :: names[i] == name(first + i)
  }

  /** Advancing the date field by one is the next day, across the end of a month, a year or a leap February. */
  method AdvanceDay(d: Day) returns (next: int)
    ensures next == d + 1
  {
    next := SetUtcDate(d, DateOf(d) + 1);
  }

  /** The day loop both versions run: name the cursor, then advance it with setUTCDate. */
  method NameEachDay(start: Day, end: Day, name: Day -> string) returns (names: seq<string>)
    requires start < end
    ensures NamesOf(name, names, start, end)
  {
    names := [];
    var d := start;
    while d < end
      invariant start <= d <= end
      invariant NamesOf(name, names, start, d)
    {
      names := names + [name(d)];
      d := AdvanceDay(d);
    }
  }

  /** InventoriesService.buildDateRange */
  method BuildDateRange(checkIn: string, checkOut: string) returns (r: Result<seq<string>, DateError>)
    ensures r.Success? <==> ValidRange(checkIn, checkOut)
    ensures r.Failure? ==>
              r.error == if ParseIso(checkIn).None? || ParseIso(checkOut).None? then InvalidDate else EmptyRange
    ensures r.Success? ==> NamesOf(Iso, r.value, ParseIso(checkIn).value, ParseIso(checkOut).value)
  {
    var start, end := ParseIso(checkIn), ParseIso(checkOut);
    if start.None? || end.None? {
      return Failure(InvalidDate);
    }
    if end.value <= start.value {
      return Failure(EmptyRange);
    }
    var days := NameEachDay(start.value, end.value, Iso);
    return Success(days);
  }

  /** The utility module's buildDateRange, which prints the year unpadded. */
  method BuildDateRangeUtil(fromIso: string, toIso: string) returns (r: Result<seq<string>, DateError>)
    ensures r.Success? <==> ValidRange(fromIso, toIso)
    ensures r.Failure? ==>
              r.error == if ParseIso(fromIso).None? || ParseIso(toIso).None? then InvalidDate else EmptyRange
    ensures r.Success? ==> NamesOf(UnpaddedIso, r.value, ParseIso(fromIso).value, ParseIso(toIso).value)
  {
    var start, end := ParseIso(fromIso), ParseIso(toIso);
    if start.None? || end.None? {
      return Failure(InvalidDate);
    }
    if end.value <= start.value {
      return Failure(EmptyRange);
    }
    var out := NameEachDay(start.value, end.value, UnpaddedIso);
    return Success(out);
  }

  // ---------------------------------------------------------------- the night counts

  /** The difference of two date-only times in milliseconds; NaN when either date is invalid. */
  function ElapsedMs(checkIn: string, checkOut: string): JsNumber {
    match (ParseIso(checkIn), ParseIso(checkOut))
    case (Some(a), Some(b)) => Num(b * MS_PER_DAY - a * MS_PER_DAY)
    case _ => NaN
  }

  /** BookingService.computeNights: rounds up and rejects a count that is zero or less. NaN passes the test. */
  function BookingNights(checkIn: string, checkOut: string): Result<JsNumber, DateError> {
    match ElapsedMs(checkIn, checkOut)
    case NaN => Success(NaN)
    case Num(ms) =>
      var n := -((-ms) / MS_PER_DAY);
      if n <= 0 then Failure(EmptyRange) else Success(Num(n))
  }

  /** SearchService.computeNights: rounds to nearest, halves upward. */
  function SearchNights(checkIn: string, checkOut: string): JsNumber {
    match ElapsedMs(checkIn, checkOut)
    case NaN => NaN
    case Num(ms) => Num((ms + MS_PER_DAY / 2) / MS_PER_DAY)
  }
}
