/**
 * The acquisition date of a scene (asterl1t.py:153-155): the `CALENDARDATE`
 * string is sliced into year, month and day, the three are converted to
 * integers, `datetime.datetime` checks them and the day of the year is taken
 * from the resulting time tuple. The month tables follow CPython's `datetime`
 * (proleptic Gregorian calendar, years 1 to 9999).
 */
module Calendar {
  import opened Wrappers
  import opened Strings
  import opened Errors

  datatype Date = Date(year: int, month: int, day: int)

  predicate IsLeap(y: int)
  {
    y % 4 == 0 && (y % 100 != 0 || y % 400 == 0)
  }

  function DaysInYear(y: int): int
  {
    if IsLeap(y) then 366 else 365
  }

  /** Days in each month of a common year, January first. */
  const MonthLengths: seq<int> := [31, 28, 31, 30, 31, 30, 31, 31, 30, 31, 30, 31]

  /** Days in the common year before the first of each month. */
  const DaysBefore: seq<int> := [0, 31, 59, 90, 120, 151, 181, 212, 243, 273, 304, 334]

  function DaysInMonth(y: int, m: int): int
    requires 1 <= m <= 12
  {
    if m == 2 && IsLeap(y) then 29 else MonthLengths[m - 1]
  }

  function DaysBeforeMonth(y: int, m: int): int
    requires 1 <= m <= 12
  {
    DaysBefore[m - 1] + if m > 2 && IsLeap(y) then 1 else 0
  }

  /** The cumulative table agrees with the month lengths: each month starts where
      the previous one ends, and December ends the year. */
  lemma DaysBeforeIsRunningSum(y: int, m: int)
    requires 1 <= m <= 12
    ensures m < 12 ==> DaysBeforeMonth(y, m + 1) == DaysBeforeMonth(y, m) + DaysInMonth(y, m)
    ensures m == 12 ==> DaysBeforeMonth(y, m) + DaysInMonth(y, m) == DaysInYear(y)
  {
  }

  /** What `datetime.datetime(year, month, day)` accepts. */
  predicate IsValidDate(d: Date)
    ensures IsValidDate(d) ==> d.day <= 31
  {
    1 <= d.year <= 9999 && 1 <= d.month <= 12 && 1 <= d.day <= DaysInMonth(d.year, d.month)
  }

  /** February 29 exists exactly in leap years; every month of every year has a first day. */
  lemma LeapDayRule(y: int, m: int)
    requires 1 <= y <= 9999
    ensures IsValidDate(Date(y, 2, 29)) <==> IsLeap(y)
    ensures 1 <= m <= 12 ==> IsValidDate(Date(y, m, 1))
  {
  }

  /** `timetuple().tm_yday`: 1 on January 1st, up to 365 or 366 on December 31st. */
  function DayOfYear(d: Date): (n: int)
    requires IsValidDate(d)
    ensures 1 <= n <= DaysInYear(d.year) <= 366
  {
    DaysBeforeIsRunningSum(d.year, d.month);
    DaysBeforeMonth(d.year, d.month) + d.day
  }

  /** The month in which day `n` of year `y` falls, searching down from month `m`. */
  function MonthOfDay(y: int, n: int, m: int): (r: int)
    requires 1 <= m <= 12
    ensures 1 <= r <= m
    ensures r == 1 || DaysBeforeMonth(y, r) < n
    ensures forall k :: r < k <= m ==> n <= DaysBeforeMonth(y, k)
    decreases m
  {
    if m == 1 || DaysBeforeMonth(y, m) < n then m else MonthOfDay(y, n, m - 1)
  }

  /** The calendar date of day `n` of year `y`: the inverse of `DayOfYear`. */
  function DateOfDay(y: int, n: int): (d: Date)
    requires 1 <= y <= 9999 && 1 <= n <= DaysInYear(y)
    ensures IsValidDate(d) && d.year == y && DayOfYear(d) == n
  {
    var m := MonthOfDay(y, n, 12);
    DaysBeforeIsRunningSum(y, m);
    Date(y, m, n - DaysBeforeMonth(y, m))
  }

  /** Day of the year is one-to-one on the dates of a year: going back from the
      day number gives the date. */
  lemma DayOfYearInverse(d: Date)
    requires IsValidDate(d)
    ensures DateOfDay(d.year, DayOfYear(d)) == d
  {
    var n := DayOfYear(d);
    var m := MonthOfDay(d.year, n, 12);
    DaysBeforeIsRunningSum(d.year, d.month);
    DaysBeforeIsRunningSum(d.year, m);
    if m < d.month {
      MonthStartsIncrease(d.year, m + 1, d.month);
    } else if m > d.month {
      MonthStartsIncrease(d.year, d.month + 1, m);
    }
  }

  /** Later months start later in the year. */
  lemma {:induction false} MonthStartsIncrease(y: int, a: int, b: int)
    requires 1 <= a <= b <= 12
    ensures DaysBeforeMonth(y, a) <= DaysBeforeMonth(y, b)
    ensures a < b ==> DaysBeforeMonth(y, a) + DaysInMonth(y, a) <= DaysBeforeMonth(y, b)
    decreases b - a
  {
    if a < b {
      DaysBeforeIsRunningSum(y, a);
      MonthStartsIncrease(y, a + 1, b);
    }
  }

  /** The three slices `[0:4]`, `[4:6]`, `[6:]` cover any string, whatever its length. */
  lemma DateSlicesCover(s: string)
    ensures Slice(s, 0, 4) + Slice(s, 4, 6) + Slice(s, 6, |s|) == s
  {
  }

  /** Line 154: slice the date string and convert each part to an integer; the first part
      that is not a number raises. */
  function DateFields(s: string): (r: Result<Date, SceneError>)
    ensures r.Success? ==>
              && Some(r.value.year) == ParseDecimal(Slice(s, 0, 4))
              && Some(r.value.month) == ParseDecimal(Slice(s, 4, 6))
              && Some(r.value.day) == ParseDecimal(Slice(s, 6, |s|))
    ensures r.Success? <==>
              && ParseDecimal(Slice(s, 0, 4)).Some? && ParseDecimal(Slice(s, 4, 6)).Some?
              && ParseDecimal(Slice(s, 6, |s|)).Some?
    ensures r.Failure? ==>
              var ys, ms, ds := Slice(s, 0, 4), Slice(s, 4, 6), Slice(s, 6, |s|);
              r.error == NotANumber(if ParseDecimal(ys).None? then ys
                                    else if ParseDecimal(ms).None? then ms else ds)
  {
    var ys, ms, ds := Slice(s, 0, 4), Slice(s, 4, 6), Slice(s, 6, |s|);
    match (ParseDecimal(ys), ParseDecimal(ms), ParseDecimal(ds))
    case (None, _, _) => Failure(NotANumber(ys))
    case (Some(_), None, _) => Failure(NotANumber(ms))
    case (Some(_), Some(_), None) => Failure(NotANumber(ds))
    case (Some(y), Some(m), Some(dd)) => Success(Date(y, m, dd))
  }

  /** Lines 153-155 with the three parts read as integers: `datetime` rejects an impossible date. */
  function ParseDate(s: string): (r: Result<Date, SceneError>)
    ensures r.Success? ==> IsValidDate(r.value) && DateFields(s) == r
    ensures DateFields(s).Success? && IsValidDate(DateFields(s).value) ==> r == DateFields(s)
  {
    match DateFields(s)
    case Failure(e) => Failure(e)
    case Success(d) =>
      if IsValidDate(d) then Success(d) else Failure(InvalidDate(d.year, d.month, d.day))
  }

  /** Lines 153-155 as written: each part goes through `np.uint8`, which keeps only the
      value modulo 256 (the wrap-around of numpy 1.x), before `datetime` sees it. */
  function ParseDateUint8(s: string): (r: Result<Date, SceneError>)
    ensures r.Success? ==> IsValidDate(r.value) && r.value.year < 256
    ensures r.Success? ==>
              && DateFields(s).Success?
              && r.value == Date(DateFields(s).value.year % 256, DateFields(s).value.month % 256,
                                 DateFields(s).value.day % 256)
    ensures DateFields(s).Failure? ==> r == DateFields(s)
    ensures DateFields(s).Success? ==>
              var d := DateFields(s).value;
              IsValidDate(Date(d.year % 256, d.month % 256, d.day % 256)) ==> r.Success?
  {
    match DateFields(s)
    case Failure(e) => Failure(e)
    case Success(d) =>
      var wrapped := Date(d.year % 256, d.month % 256, d.day % 256);
      if IsValidDate(wrapped) then Success(wrapped)
      else Failure(InvalidDate(wrapped.year, wrapped.month, wrapped.day))
  }

  /** Through `np.uint8` the year 2017 becomes 225; read as integers the date is kept. */
  lemma Uint8ShiftsYear()
    ensures ParseDate("20170615") == Success(Date(2017, 6, 15))
    ensures ParseDateUint8("20170615") == Success(Date(225, 6, 15))
  {
    DatePartExamples();
  }

  /** A year that is a multiple of 256, such as 2048, becomes year 0 through `np.uint8`, and
      `datetime` rejects it; read as integers the date is accepted. */
  lemma Uint8RejectsYear2048()
    ensures ParseDate("20480101") == Success(Date(2048, 1, 1))
    ensures ParseDateUint8("20480101") == Failure(InvalidDate(0, 1, 1))
  {
    LeapDatePartExamples();
  }

  /** For the years 2000-2099 other than 2048 the wrap-around keeps the leap-year rule, so a
      date the integers accept is accepted through `np.uint8` too, and the day of the year it
      gives is the right one. */
  lemma Uint8KeepsDayOfYear(s: string)
    requires ParseDate(s).Success?
    requires 2000 <= ParseDate(s).value.year <= 2099 && ParseDate(s).value.year != 2048
    ensures ParseDateUint8(s).Success?
    ensures DayOfYear(ParseDateUint8(s).value) == DayOfYear(ParseDate(s).value)
  {
    var d := ParseDate(s).value;
    assert d.month % 256 == d.month && d.day % 256 == d.day;
    WrappedYearKeepsCalendar(d);
  }

  /** The year modulo 256 of a date in 2000-2099 other than 2048 is a leap year exactly when
      the year is, so the wrapped date is valid and falls on the same day of the year. */
  lemma WrappedYearKeepsCalendar(d: Date)
    requires IsValidDate(d) && 2000 <= d.year <= 2099 && d.year != 2048
    ensures IsValidDate(Date(d.year % 256, d.month, d.day))
    ensures DayOfYear(Date(d.year % 256, d.month, d.day)) == DayOfYear(d)
  {
    var w := d.year % 256;
    if d.year < 2048 {
      assert w == d.year - 1792;
    } else {
      assert w == d.year - 2048;
    }
    assert IsLeap(w) == IsLeap(d.year);
  }

  /** A date written as YYYYMMDD. */
  function FormatDate(d: Date): string
    requires IsValidDate(d)
  {
    Padded(d.year, 4) + Padded(d.month, 2) + Padded(d.day, 2)
  }

  /** Every date `datetime` accepts, written as YYYYMMDD, is read back unchanged. */
  lemma ParseFormatDate(d: Date)
    requires IsValidDate(d)
    ensures ParseDate(FormatDate(d)) == Success(d)
  {
    var s := FormatDate(d);
    assert Pow10(2) == 100 && Pow10(4) == 10000;
    assert Slice(s, 0, 4) == Padded(d.year, 4);
    assert Slice(s, 4, 6) == Padded(d.month, 2);
    assert Slice(s, 6, |s|) == Padded(d.day, 2);
    ParsePadded(d.year, 4);
    ParsePadded(d.month, 2);
    ParsePadded(d.day, 2);
  }

  /** The date `20170615` (a common year) is day 166; January 1st is day 1. */
  lemma DayOfYearExamples()
    ensures ParseDate("20170615") == Success(Date(2017, 6, 15))
    ensures DayOfYear(Date(2017, 6, 15)) == 166
    ensures forall y :: 1 <= y <= 9999 ==> DayOfYear(Date(y, 1, 1)) == 1
  {
    DatePartExamples();
  }

  /** The parts of `20170615`, read as numbers. */
  lemma DatePartExamples()
    ensures Slice("20170615", 0, 4) == "2017" && Slice("20170615", 4, 6) == "06" && Slice("20170615", 6, 8) == "15"
    ensures ParseDecimal("2017") == Some(2017)
    ensures ParseDecimal("06") == Some(6) && ParseDecimal("15") == Some(15)
  {
    var a := "2017";
    assert a[..3] == "201" && a[..3][..2] == "20" && a[..3][..2][..1] == "2" && a[..3][..2][..1][..0] == "";
    assert DigitsValue("2") == 2 && DigitsValue("20") == 20 && DigitsValue("201") == 201;
    assert "06"[..1] == "0" && "15"[..1] == "1" && "0"[..0] == "" && "1"[..0] == "";
  }

  /** The parts of `20480101`, read as numbers. */
  lemma LeapDatePartExamples()
    ensures Slice("20480101", 0, 4) == "2048" && Slice("20480101", 4, 6) == "01" && Slice("20480101", 6, 8) == "01"
    ensures ParseDecimal("2048") == Some(2048) && ParseDecimal("01") == Some(1)
  {
    var b := "2048";
    assert b[..3] == "204" && b[..3][..2] == "20" && b[..3][..2][..1] == "2" && b[..3][..2][..1][..0] == "";
    assert DigitsValue("2") == 2 && DigitsValue("20") == 20 && DigitsValue("204") == 204;
    assert "01"[..1] == "0" && "0"[..0] == "";
  }
}
