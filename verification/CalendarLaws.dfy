/** What the date strings and the range loops mean: round trips, order, and agreement of the counts. */
module CalendarLaws {
  import opened Outcomes
  import opened Calendar

  lemma IsoIsStamp(d: Day)
    ensures Iso(d) == Stamp(YearOf(d), MonthOf(d), DateOf(d))
  {
  }

  lemma FourDigits(n: int)
    requires 0 <= n <= 9999
    ensures n == 1000 * (n / 1000) + 100 * (n / 100 % 10) + 10 * (n / 10 % 10) + n % 10
    ensures 0 <= n / 1000 <= 9
  {
    assert n / 10 / 10 == n / 100 && n / 100 / 10 == n / 1000;
  }

  lemma DigitRoundTrip(n: int)
    requires 0 <= n <= 9
    ensures IsDigit(Digit(n)) && DigitValue(Digit(n)) == n
  {
  }

  /** A stamp with a month and a date a parser accepts reads back field by field. */
  lemma ParseStamp(y: int, m: int, date: int)
    requires 0 <= y <= 9999 && 1 <= m <= 12 && 1 <= date <= 31
    ensures ParseIso(Stamp(y, m, date)).Some? && ParseIso(Stamp(y, m, date)).value == MakeDay(y, m, date)
  {
    FourDigits(y);
    DigitRoundTrip(y / 1000); DigitRoundTrip(y / 100 % 10); DigitRoundTrip(y / 10 % 10); DigitRoundTrip(y % 10);
    DigitRoundTrip(m / 10); DigitRoundTrip(m % 10); DigitRoundTrip(date / 10); DigitRoundTrip(date % 10);
  }

  /** Reading a printed day gives that day back, for every day of years 0 to 9999. */
  lemma ParsePrinted(d: Day)
    ensures ParseIso(Iso(d)) == Some(d)
  {
    IsoIsStamp(d);
    ParseStamp(YearOf(d), MonthOf(d), DateOf(d));
  }

  /** Two days with the same name are the same day. */
  lemma IsoInjective(a: Day, b: Day)
    requires Iso(a) == Iso(b)
    ensures a == b
  {
    ParsePrinted(a);
    ParsePrinted(b);
  }

  /** Year, month and date are determined by the day number. */
  lemma CivilUnique(y: int, m: int, date: int)
    requires 0 <= y <= 9999 && 1 <= m <= 12 && 1 <= date <= DaysInMonth(y, m)
    ensures MIN_DAY <= MakeDay(y, m, date) <= MAX_DAY
    ensures var d: Day := MakeDay(y, m, date); YearOf(d) == y && MonthOf(d) == m && DateOf(d) == date
  {
    DayFromYearStep(y);
    DayFromYearMonotone(0, y);
    DayFromYearMonotone(y + 1, 10_000);
    MonthBounds(y, m);
    var d: Day := MakeDay(y, m, date);
    YearUnique(d, y);
    MonthStarts(y, m, MonthOf(d));
    MonthStarts(y, MonthOf(d), m);
  }

  lemma YearUnique(d: Day, y: int)
    requires DayFromYear(y) <= d < DayFromYear(y + 1)
    ensures YearOf(d) == y
  {
    var r := YearOf(d);
    if r < y { DayFromYearMonotone(r + 1, y); }
    if y < r { DayFromYearMonotone(y + 1, r); }
  }

  lemma MonthBounds(y: int, m: int)
    requires 1 <= m <= 12
    ensures 0 <= DaysBeforeMonth(y, m) && DaysBeforeMonth(y, m + 1) <= DaysInYear(y)
  {
  }

  lemma MonthStarts(y: int, m: int, n: int)
    requires 1 <= m <= 12 && 1 <= n <= 12
    ensures m < n ==> DaysBeforeMonth(y, m + 1) <= DaysBeforeMonth(y, n)
  {
  }

  /** The numbers a well-shaped string carries. */
  function YearField(s: string): int
    requires ParseIso(s).Some?
  {
    1000 * DigitValue(s[0]) + 100 * DigitValue(s[1]) + 10 * DigitValue(s[2]) + DigitValue(s[3])
  }

  function MonthField(s: string): (m: int)
    requires ParseIso(s).Some?
    ensures 1 <= m <= 12
  {
    10 * DigitValue(s[5]) + DigitValue(s[6])
  }

  function DateField(s: string): (date: int)
    requires ParseIso(s).Some?
    ensures 1 <= date <= 31
  {
    10 * DigitValue(s[8]) + DigitValue(s[9])
  }

  /** A readable string is the stamp of its fields. */
  lemma ReadableIsStamp(s: string)
    requires ParseIso(s).Some?
    ensures 0 <= YearField(s) <= 9999
    ensures s == Stamp(YearField(s), MonthField(s), DateField(s))
    ensures ParseIso(s).value == MakeDay(YearField(s), MonthField(s), DateField(s))
  {
    SplitFour(DigitValue(s[0]), DigitValue(s[1]), DigitValue(s[2]), DigitValue(s[3]));
  }

  lemma SplitFour(a: int, b: int, c: int, d: int)
    requires 0 <= a <= 9 && 0 <= b <= 9 && 0 <= c <= 9 && 0 <= d <= 9
    ensures var n := 1000 * a + 100 * b + 10 * c + d;
            n / 1000 == a && n / 100 % 10 == b && n / 10 % 10 == c && n % 10 == d
  {
    var n := 1000 * a + 100 * b + 10 * c + d;
    assert n / 100 == 10 * a + b && n / 10 == 100 * a + 10 * b + c;
  }

  /** Different fields make different stamps. */
  lemma StampInjective(y: int, m: int, date: int, y': int, m': int, date': int)
    requires 0 <= y <= 9999 && 0 <= m <= 99 && 0 <= date <= 99
    requires 0 <= y' <= 9999 && 0 <= m' <= 99 && 0 <= date' <= 99
    requires Stamp(y, m, date) == Stamp(y', m', date')
    ensures y == y' && m == m' && date == date'
  {
    var s, t := Stamp(y, m, date), Stamp(y', m', date');
    FourDigits(y);
    FourDigits(y');
    forall i | 0 <= i < 10
      ensures s[i] == t[i]
    {
    }
  }

  /** A readable string names its own day exactly when its date exists in its month. */
  lemma CalendarDateIff(s: string)
    requires ParseIso(s).Some?
    ensures IsCalendarDate(s) <==> DateField(s) <= DaysInMonth(YearField(s), MonthField(s))
  {
    var d := ParseIso(s).value;
    var y, m, date := YearField(s), MonthField(s), DateField(s);
    ReadableIsStamp(s);
    IsoIsStamp(d);
    if date <= DaysInMonth(y, m) {
      CivilUnique(y, m, date);
    } else if IsCalendarDate(s) {
      StampInjective(y, m, date, YearOf(d), MonthOf(d), DateOf(d));
    }
  }

  // ---------------------------------------------------------------- the calendar, day after day

  /** The last date of each month, as people know it. */
  predicate LastOfMonth(y: int, m: int, date: int) {
    || (m in {1, 3, 5, 7, 8, 10, 12} && date == 31)
    || (m in {4, 6, 9, 11} && date == 30)
    || (m == 2 && date == if (y % 4 == 0 && y % 100 != 0) || y % 400 == 0 then 29 else 28)
  }

  lemma LastIsMonthLength(y: int, m: int, date: int)
    requires 1 <= m <= 12
    ensures LastOfMonth(y, m, date) <==> date == DaysInMonth(y, m)
  {
  }

  lemma FieldsAre(d: Day, y: int, m: int, date: int)
    requires 0 <= y <= 9999 && 1 <= m <= 12 && 1 <= date <= DaysInMonth(y, m) && MakeDay(y, m, date) == d
    ensures YearOf(d) == y && MonthOf(d) == m && DateOf(d) == date
  {
    CivilUnique(y, m, date);
  }

  lemma DayAfterLast(y: int, m: int)
    requires 1 <= m <= 12
    ensures MakeDay(y, m, DaysInMonth(y, m)) + 1 == if m < 12 then MakeDay(y, m + 1, 1) else MakeDay(y + 1, 1, 1)
  {
    DayFromYearStep(y);
  }

  lemma LastYearEnds(y: int, next: Day)
    requires 0 <= y <= 9999 && next == MakeDay(y + 1, 1, 1)
    ensures y < 9999
  {
  }

  /** The fields of the day after y-m-date. */
  function NextOf(y: int, m: int, date: int): (int, int, int) {
    if !LastOfMonth(y, m, date) then (y, m, date + 1) else if m < 12 then (y, m + 1, 1) else (y + 1, 1, 1)
  }

  lemma NextIsReal(y: int, m: int, date: int, next: Day)
    requires 0 <= y <= 9999 && 1 <= m <= 12 && 1 <= date <= DaysInMonth(y, m) && MakeDay(y, m, date) + 1 == next
    ensures var (y', m', date') := NextOf(y, m, date);
            && 0 <= y' <= 9999 && 1 <= m' <= 12 && 1 <= date' <= DaysInMonth(y', m') && MakeDay(y', m', date') == next
  {
    LastIsMonthLength(y, m, date);
    DayAfterLast(y, m);
    if LastOfMonth(y, m, date) && m == 12 { LastYearEnds(y, next); }
  }

  lemma NextFields(d: Day, next: Day, y: int, m: int, date: int)
    requires next == d + 1 && y == YearOf(d) && m == MonthOf(d) && date == DateOf(d)
    ensures (YearOf(next), MonthOf(next), DateOf(next)) == NextOf(y, m, date)
  {
    NextIsReal(y, m, date, next);
    var (y', m', date') := NextOf(y, m, date);
    FieldsAre(next, y', m', date');
  }

  /**
   The name after y-m-date is y-m-(date + 1), except after the last date of a month, when it is
   the first of the next month or of the next January.
   */
  lemma NextName(d: Day, next: Day, y: int, m: int, date: int)
    requires next == d + 1
    requires 0 <= y <= 9999 && 0 <= m <= 99 && 0 <= date <= 99 && Iso(d) == Stamp(y, m, date)
    ensures var (y', m', date') := NextOf(y, m, date);
            0 <= y' <= 9999 && 0 <= m' <= 99 && 0 <= date' <= 99 && Iso(next) == Stamp(y', m', date')
  {
    FieldsOfName(d, y, m, date);
    NextFields(d, next, y, m, date);
    NextIsReal(y, m, date, next);
    var (y', m', date') := NextOf(y, m, date);
    NamedByFields(next, y', m', date');
  }

  lemma FieldsOfName(d: Day, y: int, m: int, date: int)
    requires 0 <= y <= 9999 && 0 <= m <= 99 && 0 <= date <= 99 && Iso(d) == Stamp(y, m, date)
    ensures y == YearOf(d) && m == MonthOf(d) && date == DateOf(d)
  {
    IsoIsStamp(d);
    StampInjective(y, m, date, YearOf(d), MonthOf(d), DateOf(d));
  }

  lemma NamedByFields(d: Day, y: int, m: int, date: int)
    requires y == YearOf(d) && m == MonthOf(d) && date == DateOf(d)
    ensures Iso(d) == Stamp(y, m, date)
  {
    IsoIsStamp(d);
  }

  lemma RealNameHasADay(s: string)
    requires ParseIso(s).Some? && DateField(s) <= DaysInMonth(YearField(s), MonthField(s))
    ensures exists d: Day :: Iso(d) == s
  {
    CalendarDateIff(s);
    assert Iso(ParseIso(s).value) == s;
  }

  lemma EpochFields(s: string)
    requires s == "1970-01-01"
    ensures ParseIso(s) == Some(0)
    ensures YearField(s) == 1970 && MonthField(s) == 1 && DateField(s) == 1
  {
  }

  /** The first of January 1970 reads as day 0, and some day has that name; with NextName this fixes every name. */
  lemma EpochIsDayZero(s: string)
    requires s == "1970-01-01"
    ensures ParseIso(s) == Some(0)
    ensures exists d: Day :: Iso(d) == s
  {
    EpochFields(s);
    RealNameHasADay(s);
  }

  /** A string is readable exactly when it is a stamp with a month up to 12 and a date up to 31. */
  lemma ReadableIff(s: string)
    ensures ParseIso(s).Some? <==>
            exists y, m, date :: 0 <= y <= 9999 && 1 <= m <= 12 && 1 <= date <= 31 && s == Stamp(y, m, date)
  {
    if ParseIso(s).Some? {
      ReadableIsStamp(s);
    }
    if y, m, date :| 0 <= y <= 9999 && 1 <= m <= 12 && 1 <= date <= 31 && s == Stamp(y, m, date) {
      ParseStamp(y, m, date);
    }
  }

  /** The date number counts days from the first of the month, also past the month's end. */
  lemma DateCountsFromTheFirst(y: int, m: int, date: int)
    requires 0 <= y <= 9999 && 1 <= m <= 12 && 1 <= date <= 31
    ensures ParseIso(Stamp(y, m, date)).Some? && ParseIso(Stamp(y, m, 1)).Some?
    ensures ParseIso(Stamp(y, m, date)).value - ParseIso(Stamp(y, m, 1)).value == date - 1
  {
    ParseStamp(y, m, date);
    ParseStamp(y, m, 1);
  }

  // ---------------------------------------------------------------- order

  /** Dictionary order on strings, as JavaScript and SQL compare them. */
  ghost predicate LexLess(a: string, b: string) {
    exists i :: LexLessAt(a, b, i)
  }

  ghost predicate LexLessAt(a: string, b: string, i: int) {
    && 0 <= i <= |a| && i < |b|
    && a[..i] == b[..i]
    && (i == |a| || a[i] < b[i])
  }

  lemma LexAsymmetric(a: string, b: string)
    ensures !(LexLess(a, b) && LexLess(b, a))
  {
  }

  predicate CivilLess(y: int, m: int, date: int, y': int, m': int, date': int) {
    y < y' || (y == y' && (m < m' || (m == m' && date < date')))
  }

  lemma YearMonotone(a: Day, b: Day)
    requires a <= b
    ensures YearOf(a) <= YearOf(b)
  {
    if YearOf(b) < YearOf(a) {
      DayFromYearMonotone(YearOf(b) + 1, YearOf(a));
    }
  }

  lemma SameYearOrder(y: int, m: int, date: int, m': int, date': int)
    requires 1 <= m <= 12 && 1 <= date <= DaysInMonth(y, m)
    requires 1 <= m' <= 12 && 1 <= date' <= DaysInMonth(y, m')
    requires MakeDay(y, m, date) < MakeDay(y, m', date')
    ensures m < m' || (m == m' && date < date')
  {
    MonthStarts(y, m, m');
    MonthStarts(y, m', m);
  }

  lemma CivilOrder(a: Day, b: Day)
    requires a < b
    ensures CivilLess(YearOf(a), MonthOf(a), DateOf(a), YearOf(b), MonthOf(b), DateOf(b))
  {
    YearMonotone(a, b);
    if YearOf(a) == YearOf(b) {
      SameYearOrder(YearOf(a), MonthOf(a), DateOf(a), MonthOf(b), DateOf(b));
    }
  }

  lemma FirstDigit2(x: int, z: int) returns (i: nat)
    requires 0 <= x < z <= 99
    ensures i == 0 ==> x / 10 < z / 10
    ensures i != 0 ==> i == 1 && x / 10 == z / 10 && x % 10 < z % 10
  {
    i := if x / 10 < z / 10 then 0 else 1;
  }

  lemma FirstDigit4(x: int, z: int) returns (i: nat)
    requires 0 <= x < z <= 9999
    ensures i < 4
    ensures i == 0 ==> x / 1000 < z / 1000
    ensures i == 1 ==> x / 1000 == z / 1000 && x / 100 % 10 < z / 100 % 10
    ensures i == 2 ==> x / 1000 == z / 1000 && x / 100 % 10 == z / 100 % 10 && x / 10 % 10 < z / 10 % 10
    ensures i == 3 ==> && x / 1000 == z / 1000 && x / 100 % 10 == z / 100 % 10
                       && x / 10 % 10 == z / 10 % 10 && x % 10 < z % 10
  {
    FourDigits(x);
    FourDigits(z);
    i := if x / 1000 != z / 1000 then 0
         else if x / 100 % 10 != z / 100 % 10 then 1
         else if x / 10 % 10 != z / 10 % 10 then 2
         else 3;
  }

  /** The first position at which an earlier date's stamp differs holds a smaller digit. */
  lemma StampOrder(y: int, m: int, date: int, y': int, m': int, date': int) returns (i: nat)
    requires 0 <= y <= 9999 && 0 <= m <= 99 && 0 <= date <= 99
    requires 0 <= y' <= 9999 && 0 <= m' <= 99 && 0 <= date' <= 99
    requires CivilLess(y, m, date, y', m', date')
    ensures LexLessAt(Stamp(y, m, date), Stamp(y', m', date'), i)
  {
    if y < y' {
      i := FirstDigit4(y, y');
    } else if m < m' {
      i := FirstDigit2(m, m');
      i := i + 5;
    } else {
      i := FirstDigit2(date, date');
      i := i + 8;
    }
  }

  lemma EarlierSortsFirst(a: Day, b: Day)
    requires a < b
    ensures LexLess(Iso(a), Iso(b))
  {
    IsoIsStamp(a);
    IsoIsStamp(b);
    CivilOrder(a, b);
    var i := StampOrder(YearOf(a), MonthOf(a), DateOf(a), YearOf(b), MonthOf(b), DateOf(b));
  }

  /** Date names sort exactly as the days they name. */
  lemma IsoOrder(a: Day, b: Day)
    ensures a < b <==> LexLess(Iso(a), Iso(b))
  {
    if a < b {
      EarlierSortsFirst(a, b);
    } else if b < a {
      EarlierSortsFirst(b, a);
      LexAsymmetric(Iso(a), Iso(b));
    } else {
      LexAsymmetric(Iso(a), Iso(a));
    }
  }

  // ---------------------------------------------------------------- the range

  /** A list of names holds a string exactly when it is the name of a day in [first, last). */
  lemma NamesHold(name: Day -> string, names: seq<string>, first: Day, last: Day, s: string)
    requires first <= last && NamesOf(name, names, first, last)
    ensures s in names <==> exists d: Day | first <= d < last :: name(d) == s
  {
    if s in names {
      var i :| 0 <= i < |names| && names[i] == s;
      assert name(first + i) == s;
    }
    forall d: Day | first <= d < last && name(d) == s
      ensures s in names
    {
      assert names[d - first] == s;
    }
  }

  lemma OnlyName(s: string, d: Day)
    ensures Iso(d) == s <==> IsCalendarDate(s) && ParseIso(s).value == d
  {
    ParsePrinted(d);
  }

  /**
   The expanded range holds a date exactly when the date lies in [checkIn, checkOut),
   as days and as strings.
   */
  lemma RangeIsHalfOpenInterval(names: seq<string>, first: Day, last: Day, s: string)
    requires first <= last && NamesOf(Iso, names, first, last)
    ensures s in names <==> IsCalendarDate(s) && first <= ParseIso(s).value < last
    ensures s in names <==> IsCalendarDate(s) && !LexLess(s, Iso(first)) && LexLess(s, Iso(last))
  {
    NamesHold(Iso, names, first, last, s);
    forall d: Day
      ensures Iso(d) == s <==> IsCalendarDate(s) && ParseIso(s).value == d
    {
      OnlyName(s, d);
    }
    if IsCalendarDate(s) {
      IsoOrder(ParseIso(s).value, first);
      IsoOrder(ParseIso(s).value, last);
    }
  }

  lemma NamesInOrder(s: string, a: Day, t: string, b: Day)
    requires s == Iso(a) && t == Iso(b) && a < b
    ensures ParseIso(s) == Some(a)
    ensures LexLess(s, t)
  {
    ParsePrinted(a);
    EarlierSortsFirst(a, b);
  }

  lemma NameAt(name: Day -> string, names: seq<string>, first: Day, last: Day, a: Day)
    requires NamesOf(name, names, first, last) && first <= a < last
    ensures names[a - first] == name(a)
  {
  }

  /** Later nights have larger names: the list is strictly increasing, as days and as strings. */
  lemma RangeStrictlyIncreasing(names: seq<string>, first: Day, last: Day, a: Day, b: Day)
    requires NamesOf(Iso, names, first, last) && first <= a < b < last
    ensures ParseIso(names[a - first]) == Some(a)
    ensures LexLess(names[a - first], names[b - first])
  {
    NameAt(Iso, names, first, last, a);
    NameAt(Iso, names, first, last, b);
    NamesInOrder(names[a - first], a, names[b - first], b);
  }

  /** The booking count rejects exactly the empty ranges, and otherwise equals the search count. */
  lemma NightCountsAgree(checkIn: string, checkOut: string)
    requires ParseIso(checkIn).Some? && ParseIso(checkOut).Some?
    ensures SearchNights(checkIn, checkOut) == Num(ParseIso(checkOut).value - ParseIso(checkIn).value)
    ensures BookingNights(checkIn, checkOut) ==
            if ValidRange(checkIn, checkOut) then Success(SearchNights(checkIn, checkOut)) else Failure(EmptyRange)
  {
    var n := ParseIso(checkOut).value - ParseIso(checkIn).value;
    assert ElapsedMs(checkIn, checkOut) == Num(n * MS_PER_DAY);
    assert (-(n * MS_PER_DAY)) / MS_PER_DAY == -n;
    assert (n * MS_PER_DAY + MS_PER_DAY / 2) / MS_PER_DAY == n;
  }

  /** Rounding up, rounding to nearest and walking the days all count the same nights. */
  lemma CountsMatchTheWalk(checkIn: string, checkOut: string, names: seq<string>)
    requires ValidRange(checkIn, checkOut)
    requires NamesOf(Iso, names, ParseIso(checkIn).value, ParseIso(checkOut).value)
    ensures BookingNights(checkIn, checkOut) == Success(Num(|names|))
    ensures SearchNights(checkIn, checkOut) == Num(|names|)
  {
    NightCountsAgree(checkIn, checkOut);
  }

  // ---------------------------------------------------------------- the unpadded version

  lemma DecimalOfFour(n: nat)
    requires n <= 9999
    ensures n < 1000 ==> |Decimal(n)| < 4
    ensures n >= 1000 ==> Decimal(n) == [Digit(n / 1000), Digit(n / 100 % 10), Digit(n / 10 % 10), Digit(n % 10)]
  {
    if n >= 100 {
      assert n / 10 / 10 == n / 100 && n / 100 / 10 == n / 1000;
      assert Decimal(n / 10) == Decimal(n / 100) + [Digit(n / 10 % 10)];
      if n >= 1000 {
        assert Decimal(n / 100) == Decimal(n / 1000) + [Digit(n / 100 % 10)];
      }
    }
  }

  lemma UnpaddedAgreesIff(d: Day)
    ensures UnpaddedIso(d) == Iso(d) <==> YearOf(d) >= 1000
  {
    IsoIsStamp(d);
    DecimalOfFour(YearOf(d));
    assert |UnpaddedIso(d)| == |Decimal(YearOf(d))| + 6;
  }

  /** The digits of a year, leading zeros dropped. */
  lemma DecimalDropsZeros(n: nat) returns (z: nat)
    requires n <= 9999
    ensures z <= 3
    ensures Decimal(n) == [Digit(n / 1000), Digit(n / 100 % 10), Digit(n / 10 % 10), Digit(n % 10)][z..]
    ensures z > 0 ==> n < 1000
    ensures z > 1 ==> n < 100
    ensures z > 2 ==> n < 10
    ensures n < 10 ==> z == 3
    ensures n < 100 ==> z >= 2
    ensures n < 1000 ==> z >= 1
  {
    var four := [Digit(n / 1000), Digit(n / 100 % 10), Digit(n / 10 % 10), Digit(n % 10)];
    if n >= 1000 {
      z := 0;
      DecimalOfFour(n);
    } else if n >= 100 {
      z := 1;
      ThreeDigits(n);
    } else if n >= 10 {
      z := 2;
      assert Decimal(n) == Decimal(n / 10) + [Digit(n % 10)];
    } else {
      z := 3;
    }
  }

  lemma ThreeDigits(n: nat)
    requires 100 <= n < 1000
    ensures Decimal(n) == [Digit(n / 100 % 10), Digit(n / 10 % 10), Digit(n % 10)]
  {
    assert n / 10 / 10 == n / 100;
    assert Decimal(n / 10) == Decimal(n / 100) + [Digit(n / 10 % 10)];
  }

  lemma DashedDropsZeros(y: int, m: int, date: int) returns (z: nat)
    requires 0 <= y <= 9999 && 0 <= m <= 99 && 0 <= date <= 99
    ensures z <= 3 && Dashed(Decimal(y), Pad2(m), Pad2(date)) == Stamp(y, m, date)[z..]
    ensures forall i | 0 <= i < z :: Stamp(y, m, date)[i] == '0'
    ensures z < 3 ==> Stamp(y, m, date)[z] != '0'
  {
    z := DecimalDropsZeros(y);
    var four := Stamp(y, m, date)[..4];
    assert Stamp(y, m, date) == four + ("-" + Pad2(m) + "-" + Pad2(date));
    assert Decimal(y) == four[z..];
  }

  /** The unpadded name is the padded one without the leading zeros of its year. */
  lemma UnpaddedDropsZeros(d: Day) returns (z: nat)
    ensures z <= 3 && UnpaddedIso(d) == Iso(d)[z..]
    ensures forall i | 0 <= i < z :: Iso(d)[i] == '0'
    ensures z < 3 ==> Iso(d)[z] != '0'
  {
    IsoIsStamp(d);
    z := DashedDropsZeros(YearOf(d), MonthOf(d), DateOf(d));
  }

  lemma UnpaddedAgreesFrom(first: Day, d: Day)
    requires first <= d && YearOf(first) >= 1000
    ensures UnpaddedIso(d) == Iso(d)
  {
    YearMonotone(first, d);
    UnpaddedAgreesIff(d);
  }

  lemma SameNames(f: Day -> string, g: Day -> string, xs: seq<string>, ys: seq<string>, first: Day, last: Day)
    requires first <= last && NamesOf(f, xs, first, last) && NamesOf(g, ys, first, last)
    ensures xs == ys <==> forall d: Day | first <= d < last :: f(d) == g(d)
  {
    forall d: Day | first <= d < last
      ensures xs[d - first] == f(d) && ys[d - first] == g(d)
    {
      NameAt(f, xs, first, last, d);
      NameAt(g, ys, first, last, d);
    }
    if forall d: Day | first <= d < last :: f(d) == g(d) {
      forall i | 0 <= i < |xs|
        ensures xs[i] == ys[i]
      {
        assert f(first + i) == g(first + i);
      }
    }
  }

  /** The two range functions return the same list exactly when the stay starts in year 1000 or later. */
  lemma RangeVersionsAgreeIff(padded: seq<string>, unpadded: seq<string>, first: Day, last: Day)
    requires first < last
    requires NamesOf(Iso, padded, first, last) && NamesOf(UnpaddedIso, unpadded, first, last)
    ensures padded == unpadded <==> YearOf(first) >= 1000
  {
    SameNames(UnpaddedIso, Iso, unpadded, padded, first, last);
    UnpaddedAgreesIff(first);
    if YearOf(first) >= 1000 {
      forall d: Day | first <= d < last
        ensures UnpaddedIso(d) == Iso(d)
      {
        UnpaddedAgreesFrom(first, d);
      }
    }
  }
}
