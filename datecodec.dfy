/** Gregorian day-of-year arithmetic and the YEARDOY date key of the archive's file names
    (`date2yeardoy`, `yeardoy2date` in sampex/load.py). */
module DateCodec {
  import opened Errors
  import opened Text

  /** A proleptic Gregorian calendar day, as Python's `datetime.date`. */
  datatype Date = Date(year: int, month: int, day: int)

  predicate IsLeapYear(y: int) { y % 4 == 0 && (y % 100 != 0 || y % 400 == 0) }

  function DaysInYear(y: int): int { if IsLeapYear(y) then 366 else 365 }

  function DaysInMonth(y: int, m: int): int
    requires 1 <= m <= 12
  {
    if m == 2 then (if IsLeapYear(y) then 29 else 28)
    else if m == 4 || m == 6 || m == 9 || m == 11 then 30
    else 31
  }

  /** Days of the year that lie before the first day of month `m`. */
  function DaysBeforeMonth(y: int, m: int): int
    requires 1 <= m <= 12
  {
    var common :=
      if m == 1 then 0 else if m == 2 then 31 else if m == 3 then 59
      else if m == 4 then 90 else if m == 5 then 120 else if m == 6 then 151
      else if m == 7 then 181 else if m == 8 then 212 else if m == 9 then 243
      else if m == 10 then 273 else if m == 11 then 304 else 334;
    common + (if m > 2 && IsLeapYear(y) then 1 else 0)
  }

  /** The months tile the year: each month starts where the previous one ends. */
  lemma MonthsTile(y: int, m: int)
    requires 1 <= m <= 12
    ensures m < 12 ==> DaysBeforeMonth(y, m + 1) == DaysBeforeMonth(y, m) + DaysInMonth(y, m)
    ensures m == 12 ==> DaysBeforeMonth(y, m) + DaysInMonth(y, m) == DaysInYear(y)
  {
  }

  lemma {:induction false} DaysBeforeMonthMonotone(y: int, i: int, j: int)
    requires 1 <= i <= j <= 12
    ensures DaysBeforeMonth(y, i) + (if i < j then DaysInMonth(y, i) else 0) <= DaysBeforeMonth(y, j)
    decreases j - i
  {
    if i < j {
      MonthsTile(y, i);
      if i + 1 < j {
        DaysBeforeMonthMonotone(y, i + 1, j);
      }
    }
  }

  /** Years 1..9999, as `datetime.date` accepts them. */
  predicate ValidDate(d: Date) {
    1 <= d.year <= 9999 && 1 <= d.month <= 12 && 1 <= d.day <= DaysInMonth(d.year, d.month)
  }

  /** `date.timetuple().tm_yday`: 366 only on 31 December of a leap year. */
  function DayOfYear(d: Date): (n: int)
    requires ValidDate(d)
    ensures 1 <= n <= DaysInYear(d.year)
    ensures n == 366 <==> IsLeapYear(d.year) && d.month == 12 && d.day == 31
  {
    MonthsTile(d.year, d.month);
    DaysBeforeMonthMonotone(d.year, d.month, 12);
    DaysBeforeMonth(d.year, d.month) + d.day
  }

  /** The month in which day `n` of year `y` falls, searching down from month `m`. */
  function MonthOf(y: int, n: int, m: int): (r: int)
    requires 1 <= m <= 12 && 1 <= n
    ensures 1 <= r <= m && DaysBeforeMonth(y, r) < n
    ensures r < m ==> n <= DaysBeforeMonth(y, r + 1)
    decreases m
  {
    if m == 1 || DaysBeforeMonth(y, m) < n then m else MonthOf(y, n, m - 1)
  }

  /** The calendar day numbered `n` within year `y`. */
  function DateOfDayOfYear(y: int, n: int): (d: Date)
    requires 1 <= y <= 9999 && 1 <= n <= DaysInYear(y)
    ensures ValidDate(d) && d.year == y && DayOfYear(d) == n
  {
    var m := MonthOf(y, n, 12);
    MonthsTile(y, m);
    Date(y, m, n - DaysBeforeMonth(y, m))
  }

  /** Numbering the days of a year and looking a number up are mutually inverse. */
  lemma DayOfYearRoundTrip(d: Date)
    requires ValidDate(d)
    ensures DateOfDayOfYear(d.year, DayOfYear(d)) == d
  {
    var y, n := d.year, DayOfYear(d);
    var r := MonthOf(y, n, 12);
    if r < d.month {
      DaysBeforeMonthMonotone(y, r + 1, d.month);
    } else if r > d.month {
      DaysBeforeMonthMonotone(y, d.month, r);
    }
  }

  /** Chronological order of calendar days. */
  predicate Before(a: Date, b: Date) {
    a.year < b.year || (a.year == b.year && (a.month < b.month || (a.month == b.month && a.day < b.day)))
  }

  /** `int(date2yeardoy(d))`: the integer the source compares in its range tests. */
  function YearDoyKey(d: Date): int
    requires ValidDate(d)
  {
    d.year * 1000 + DayOfYear(d)
  }

  /** Within one year the day number grows with the calendar. */
  lemma DayOfYearOrder(a: Date, b: Date)
    requires ValidDate(a) && ValidDate(b) && a.year == b.year
    ensures Before(a, b) <==> DayOfYear(a) < DayOfYear(b)
  {
    if a.month < b.month {
      DaysBeforeMonthMonotone(a.year, a.month, b.month);
    } else if b.month < a.month {
      DaysBeforeMonthMonotone(a.year, b.month, a.month);
    }
  }

  /** The integer key is strictly increasing in chronological order, in both directions. */
  lemma KeyOrder(a: Date, b: Date)
    requires ValidDate(a) && ValidDate(b)
    ensures Before(a, b) <==> YearDoyKey(a) < YearDoyKey(b)
  {
    if a.year == b.year {
      DayOfYearOrder(a, b);
    }
  }

  /** Distinct days have distinct keys. */
  lemma KeyInjective(a: Date, b: Date)
    requires ValidDate(a) && ValidDate(b) && YearDoyKey(a) == YearDoyKey(b)
    ensures a == b
  {
    KeyOrder(a, b);
    KeyOrder(b, a);
  }

  /** `date2yeardoy` as written: `f"{day.year}{doy}"` with the day zero-filled to three
      digits but the year left unpadded. */
  function Date2YearDoy(d: Date): string
    requires ValidDate(d)
  {
    NatToString(d.year) + ZFill(NatToString(DayOfYear(d)), 3)
  }

  /** The YEARDOY key: the 4-digit year followed by the 3-digit day of year. */
  function YearDoy(d: Date): (s: string)
    requires ValidDate(d)
    ensures |s| == 7 && AllDigits(s)
    ensures s[..4] == ZFill(NatToString(d.year), 4)
    ensures s[4..] == ZFill(NatToString(DayOfYear(d)), 3)
  {
    var ys, ds := ZFill(NatToString(d.year), 4), ZFill(NatToString(DayOfYear(d)), 3);
    YearDoyParts(d);
    AllDigitsAppend(ys, ds);
    assert (ys + ds)[..4] == ys && (ys + ds)[4..] == ds;
    ys + ds
  }

  /** The two zero-filled fields of the key have the widths four and three. */
  lemma YearDoyParts(d: Date)
    requires ValidDate(d)
    ensures |ZFill(NatToString(d.year), 4)| == 4 && AllDigits(ZFill(NatToString(d.year), 4))
    ensures |ZFill(NatToString(DayOfYear(d)), 3)| == 3 && AllDigits(ZFill(NatToString(DayOfYear(d)), 3))
    ensures ParseDigits(ZFill(NatToString(d.year), 4)) == d.year
    ensures ParseDigits(ZFill(NatToString(DayOfYear(d)), 3)) == DayOfYear(d)
  {
    Pow10Small();
    NatToStringBound(d.year, 4);
    NatToStringBound(DayOfYear(d), 3);
    ZFillDigits(NatToString(d.year), 4);
    ZFillDigits(NatToString(DayOfYear(d)), 3);
    ParseNatToString(d.year);
    ParseNatToString(DayOfYear(d));
  }

  /** Read as an integer, the YEARDOY key is `year * 1000 + day of year`. */
  lemma YearDoyValue(d: Date)
    requires ValidDate(d)
    ensures ParseDigits(YearDoy(d)) == YearDoyKey(d)
  {
    var ys, ds := ZFill(NatToString(d.year), 4), ZFill(NatToString(DayOfYear(d)), 3);
    YearDoyParts(d);
    assert YearDoy(d) == ys + ds;
    ParseDigitsAppend(ys, ds);
    Pow10Small();
  }

  /** A number below 10^k has at most k digits. */
  lemma {:induction false} NatToStringBound(n: nat, k: nat)
    requires k >= 1 && n < Pow10(k)
    ensures |NatToString(n)| <= k
    decreases k
  {
    if n >= 10 {
      assert k >= 2;
      NatToStringBound(n / 10, k - 1);
    }
  }

  /** For every year of at least four digits the source's string is the YEARDOY key. */
  lemma Date2YearDoyAgrees(d: Date)
    requires ValidDate(d) && d.year >= 1000
    ensures Date2YearDoy(d) == YearDoy(d)
  {
    Pow10Small();
    NatToStringLength(d.year, 4);
  }

  /** `date.fromordinal((doy - 1) + date(year, 1, 1).toordinal())`: how `strptime` turns a
      year and a day number of 1..366 into a date. Day 366 of a common year is 1 January
      of the next year; years outside 1..9999 are rejected. */
  function FromJulian(year: int, doy: int): (r: Result<Date>)
    requires 1 <= doy <= 366
    ensures r.Ok? <==> 1 <= year <= 9999 && (doy <= DaysInYear(year) || year < 9999)
    ensures r.Ok? ==> ValidDate(r.value)
    ensures r.Ok? && doy <= DaysInYear(year) ==> r.value.year == year && DayOfYear(r.value) == doy
    ensures r.Ok? && doy > DaysInYear(year) ==> r.value == Date(year + 1, 1, 1)
    ensures r.Err? ==> r.error == ValueError
  {
    if year < 1 || year > 9999 then Err(ValueError)
    else if doy <= DaysInYear(year) then Ok(DateOfDayOfYear(year, doy))
    else if year == 9999 then Err(ValueError)
    else
      var d := DateOfDayOfYear(year + 1, doy - DaysInYear(year));
      assert d.month == 1 by { DayOfYearRoundTrip(Date(year + 1, 1, 1)); }
      Ok(d)
  }

  /** `datetime.strptime(s, "%Y%j")`: exactly four year digits, then one to three day digits
      whose value is 1..366; anything else raises ValueError. */
  function YearDoy2Date(s: string): (r: Result<Date>)
    ensures r.Ok? ==> 5 <= |s| <= 7 && AllDigits(s) && ValidDate(r.value)
    ensures r.Err? ==> r.error == ValueError
  {
    if !(5 <= |s| <= 7) || !AllDigits(s) then Err(ValueError)
    else
      var year, doy := ParseDigits(s[..4]), ParseDigits(s[4..]);
      if doy < 1 || doy > 366 then Err(ValueError) else FromJulian(year, doy)
  }

  /** Round trip: the YEARDOY key parses back to the same calendar day, day 366 included. */
  lemma YearDoyRoundTrip(d: Date)
    requires ValidDate(d)
    ensures YearDoy2Date(YearDoy(d)) == Ok(d)
  {
    var s := YearDoy(d);
    YearDoyParts(d);
    assert ParseDigits(s[..4]) == d.year;
    assert ParseDigits(s[4..]) == DayOfYear(d);
    DayOfYearRoundTrip(d);
  }

  /** The key of a day 366 in a common year is read as 1 January of the following year. */
  lemma CommonYearDay366(y: int)
    requires 1000 <= y < 9999 && !IsLeapYear(y)
    ensures YearDoy2Date(NatToString(y) + "366") == Ok(Date(y + 1, 1, 1))
  {
    Pow10Small();
    NatToStringLength(y, 4);
    ParseNatToString(y);
    var s := NatToString(y) + "366";
    assert s[..4] == NatToString(y) && s[4..] == "366";
    assert ParseDigits("366") == 366 by {
      assert "366"[..2] == "36" && "36"[..1] == "3" && "3"[..0] == "";
    }
  }

  /** What the source does with a year below 1000: `date2yeardoy` of 999-01-01 is "999001",
      which `yeardoy2date` reads as year 9990, day 1. */
  lemma ShortYearBreaksRoundTrip()
    ensures ValidDate(Date(999, 1, 1))
    ensures Date2YearDoy(Date(999, 1, 1)) == "999001"
    ensures YearDoy2Date(Date2YearDoy(Date(999, 1, 1))) == Ok(Date(9990, 1, 1))
  {
    ShortYearString();
    ShortYearParse();
  }

  lemma ShortYearString()
    ensures ValidDate(Date(999, 1, 1))
    ensures Date2YearDoy(Date(999, 1, 1)) == "999001"
  {
    FirstOfJanuary999();
    NineNineNine();
    PaddedOne();
    ConcatShortKey();
  }

  lemma FirstOfJanuary999()
    ensures ValidDate(Date(999, 1, 1)) && DayOfYear(Date(999, 1, 1)) == 1
  {
  }

  lemma NineNineNine()
    ensures NatToString(999) == "999"
  {
    assert NatToString(9) == "9";
    assert NatToString(99) == "99";
  }

  lemma PaddedOne()
    ensures ZFill(NatToString(1), 3) == "001"
  {
    assert NatToString(1) == "1";
  }

  lemma ConcatShortKey()
    ensures "999" + "001" == "999001"
  {
  }

  lemma ShortYearParse()
    ensures YearDoy2Date("999001") == Ok(Date(9990, 1, 1))
  {
    ShortKeyFields();
    NineNineNineZero();
    ZeroOne();
    YearDoy2DateFields("999001", 9990, 1);
    NewYearsDay(9990);
  }

  /** Reading a well-formed key is the Julian conversion of its two fields. */
  lemma YearDoy2DateFields(s: string, year: nat, doy: nat)
    requires 5 <= |s| <= 7 && AllDigits(s)
    requires ParseDigits(s[..4]) == year && ParseDigits(s[4..]) == doy && 1 <= doy <= 366
    ensures YearDoy2Date(s) == FromJulian(year, doy)
  {
  }

  lemma ShortKeyFields()
    ensures AllDigits("999001") && "999001"[..4] == "9990" && "999001"[4..] == "01"
  {
  }

  lemma NineNineNineZero()
    ensures AllDigits("9990") && ParseDigits("9990") == 9990
  {
    assert "9990"[..3] == "999" && "999"[..2] == "99" && "99"[..1] == "9" && "9"[..0] == "";
  }

  lemma ZeroOne()
    ensures AllDigits("01") && ParseDigits("01") == 1
  {
    assert "01"[..1] == "0" && "0"[..0] == "";
  }

  lemma NewYearsDay(y: int)
    requires 1 <= y <= 9999
    ensures DateOfDayOfYear(y, 1) == Date(y, 1, 1)
  {
    DayOfYearRoundTrip(Date(y, 1, 1));
  }

  function DaysBeforeYear(y: int): nat
    requires y >= 1
    decreases y
  {
    if y == 1 then 0 else DaysBeforeYear(y - 1) + DaysInYear(y - 1)
  }

  /** `date.toordinal()`: 1 for 0001-01-01, counting days of the proleptic calendar. */
  function Ordinal(d: Date): int
    requires ValidDate(d)
  {
    DaysBeforeYear(d.year) + DayOfYear(d)
  }

  const MsPerDay: int := 86_400_000

  /** Midnight of a day, in milliseconds since 0001-01-01T00:00 (`pd.Timestamp(d.date())`). */
  function MidnightMs(d: Date): int
    requires ValidDate(d)
  {
    (Ordinal(d) - 1) * MsPerDay
  }

  lemma {:induction false} DaysBeforeYearGrows(a: int, b: int)
    requires 1 <= a < b
    ensures DaysBeforeYear(a) + DaysInYear(a) <= DaysBeforeYear(b)
    decreases b - a
  {
    if a + 1 < b {
      DaysBeforeYearGrows(a + 1, b);
    }
  }

  /** Ordinals, and so midnights, are strictly increasing in chronological order. */
  lemma OrdinalOrder(a: Date, b: Date)
    requires ValidDate(a) && ValidDate(b)
    ensures Before(a, b) <==> Ordinal(a) < Ordinal(b)
    ensures Before(a, b) <==> MidnightMs(a) < MidnightMs(b)
  {
    if a.year < b.year {
      DaysBeforeYearGrows(a.year, b.year);
    } else if b.year < a.year {
      DaysBeforeYearGrows(b.year, a.year);
    } else {
      DayOfYearOrder(a, b);
    }
  }
}
