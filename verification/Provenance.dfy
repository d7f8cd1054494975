/** The timestamp of the provenance badge: the day-number conversion `civil_from_days` and the
    rendering of `format_utc`. */
module Provenance {
  import opened Decimal

  // ----- the proleptic Gregorian calendar -----

  datatype Date = Date(year: int, month: int, day: int)

  /** The leap-year rule of Appendix C of RFC 3339. */
  predicate IsLeap(y: int) {
    y % 4 == 0 && (y % 100 != 0 || y % 400 == 0)
  }

  function DaysIn(y: int, m: int): int {
    if m == 2 then (if IsLeap(y) then 29 else 28)
    else if m == 4 || m == 6 || m == 9 || m == 11 then 30 else 31
  }

  predicate IsValid(d: Date) {
    1 <= d.month <= 12 && 1 <= d.day <= DaysIn(d.year, d.month)
  }

  /** The next day of the calendar. */
  function Next(d: Date): Date {
    if d.day < DaysIn(d.year, d.month) then d.(day := d.day + 1)
    else if d.month < 12 then Date(d.year, d.month + 1, 1)
    else Date(d.year + 1, 1, 1)
  }

  // ----- the conversion -----

  /** Division that truncates toward zero. */
  function Quotient(a: int, b: int): int
    requires b > 0
  {
    if a >= 0 then a / b else -((-a) / b)
  }

  function YearOfEra(doe: int): int {
    (doe - doe / 1460 + doe / 36524 - doe / 146096) / 365
  }

  function CivilFromDays(z0: int): Date {
    var z := z0 + 719468;
    var era := Quotient(if z >= 0 then z else z - 146096, 146097);
    var doe := z - era * 146097;
    var yoe := YearOfEra(doe);
    var y := yoe + era * 400;
    var doy := doe - (365 * yoe + yoe / 4 - yoe / 100);
    DateOfMarchDay(y, doy)
  }

  /** Day `doy` of the year that starts in March of `y`. */
  function DateOfMarchDay(y: int, doy: int): Date {
    var mp := (5 * doy + 2) / 153;
    var d := doy - (153 * mp + 2) / 5 + 1;
    var m := if mp < 10 then mp + 3 else mp - 9;
    Date(if m <= 2 then y + 1 else y, m, d)
  }

  /** The first day of year `y` of an era, years counted from March. */
  function EraYearStart(y: int): int {
    365 * y + y / 4 - y / 100 + (if y == 400 then 1 else 0)
  }

  /** A day of a century other than an era's last day falls in year `4 * g + k` of it, where `g`
      counts whole four-year cycles and `k` years of the current one. */
  lemma YearOfCentury(c: int, r: int, g: int, s: int)
    requires 0 <= c < 4 && 0 <= r < 36524 && r == 1461 * g + s && 0 <= s < 1461
    ensures YearOfEra(36524 * c + r) == 100 * c + 4 * g + (if s == 1460 then 3 else s / 365)
  {
    var doe := 36524 * c + r;
    assert 0 <= g < 25;
    var late := if g + s + 24 * c >= 1460 then 1 else 0;
    assert doe == 1460 * (25 * c + g) + (g + s + 24 * c);
    assert doe / 1460 == 25 * c + g + late;
    assert doe / 36524 == c && doe / 146096 == 0;
    assert doe - doe / 1460 + doe / 36524 - doe / 146096 == 365 * (100 * c + 4 * g) + (s - late);
  }

  lemma CenturyYearStart(c: int, g: int, k: int)
    requires 0 <= c < 4 && 0 <= g < 25 && 0 <= k < 4
    ensures EraYearStart(100 * c + 4 * g + k) == 36524 * c + 1461 * g + 365 * k
    ensures EraYearStart(100 * c + 4 * g + k + 1)
            == 36524 * c + 1461 * g + 365 * k + 365 + (if k == 3 && (g < 24 || c == 3) then 1 else 0)
  {
    var y := 100 * c + 4 * g + k;
    assert y / 4 == 25 * c + g && y / 100 == c;
    if k < 3 {
      assert (y + 1) / 4 == 25 * c + g && (y + 1) / 100 == c;
    } else if g < 24 {
      assert (y + 1) / 4 == 25 * c + g + 1 && (y + 1) / 100 == c;
    } else {
      assert y + 1 == 100 * (c + 1);
      assert (y + 1) / 4 == 25 * (c + 1) && (y + 1) / 100 == c + 1;
    }
  }

  /** The division formula finds the year an era day falls in. */
  lemma YearOfEraIsYear(doe: int)
    requires 0 <= doe < 146097
    ensures 0 <= YearOfEra(doe) < 400
    ensures EraYearStart(YearOfEra(doe)) <= doe < EraYearStart(YearOfEra(doe) + 1)
  {
    if doe == 146096 {
      assert YearOfEra(doe) == 399;
    } else {
      var c, r := doe / 36524, doe % 36524;
      var g, s := r / 1461, r % 1461;
      var k := if s == 1460 then 3 else s / 365;
      YearOfCentury(c, r, g, s);
      CenturyYearStart(c, g, k);
    }
  }

  // ----- day numbers, defined independently -----

  /** The leap years before year `y`, counted from year 1 (and backwards before it). */
  function LeapsBefore(y: int): int {
    (y - 1) / 4 - (y - 1) / 100 + (y - 1) / 400
  }

  function DaysBeforeMonth(y: int, m: int): int
    requires 1 <= m <= 13
    decreases m
  {
    if m == 1 then 0 else DaysBeforeMonth(y, m - 1) + DaysIn(y, m - 1)
  }

  /** The day number of a date, counted from 1970-01-01. */
  function DayNumber(d: Date): int
    requires IsValid(d)
  {
    365 * (d.year - 1970) + LeapsBefore(d.year) - LeapsBefore(1970) + DaysBeforeMonth(d.year, d.month) + d.day - 1
  }

  lemma DivisionSteps(y: int)
    ensures y / 4 == (y - 1) / 4 + (if y % 4 == 0 then 1 else 0)
    ensures y / 100 == (y - 1) / 100 + (if y % 100 == 0 then 1 else 0)
    ensures y / 400 == (y - 1) / 400 + (if y % 400 == 0 then 1 else 0)
  {
    assert y / 4 == (y - 1) / 4 + (if y % 4 == 0 then 1 else 0);
    assert y / 100 == (y - 1) / 100 + (if y % 100 == 0 then 1 else 0);
  }

  lemma FourHundredsAreHundreds(y: int)
    requires y % 400 == 0
    ensures y % 100 == 0
  {
    assert y == 100 * (4 * (y / 400));
  }

  lemma HundredsAreFours(y: int)
    requires y % 100 == 0
    ensures y % 4 == 0
  {
    assert y == 4 * (25 * (y / 100));
  }

  lemma CenturiesAreFourths(y: int)
    ensures y % 100 == 0 ==> y % 4 == 0
    ensures y % 400 == 0 ==> y % 100 == 0
  {
    if y % 400 == 0 { FourHundredsAreHundreds(y); }
    if y % 100 == 0 { HundredsAreFours(y); }
  }

  lemma LeapCount(y: int)
    ensures LeapsBefore(y + 1) == LeapsBefore(y) + (if IsLeap(y) then 1 else 0)
    ensures LeapsBefore(y + 1) == y / 4 - y / 100 + y / 400
  {
    DivisionSteps(y);
    CenturiesAreFourths(y);
  }

  lemma MonthStarts(y: int)
    ensures DaysBeforeMonth(y, 2) == 31
    ensures var l := if IsLeap(y) then 1 else 0;
            && DaysBeforeMonth(y, 3) == 59 + l && DaysBeforeMonth(y, 4) == 90 + l && DaysBeforeMonth(y, 5) == 120 + l
            && DaysBeforeMonth(y, 6) == 151 + l && DaysBeforeMonth(y, 7) == 181 + l && DaysBeforeMonth(y, 8) == 212 + l
            && DaysBeforeMonth(y, 9) == 243 + l && DaysBeforeMonth(y, 10) == 273 + l
            && DaysBeforeMonth(y, 11) == 304 + l
            && DaysBeforeMonth(y, 12) == 334 + l && DaysBeforeMonth(y, 13) == 365 + l
  {
    assert DaysBeforeMonth(y, 1) == 0;
    assert DaysBeforeMonth(y, 2) == 31;
    assert DaysBeforeMonth(y, 4) == DaysBeforeMonth(y, 3) + 31;
    assert DaysBeforeMonth(y, 6) == DaysBeforeMonth(y, 4) + 61;
    assert DaysBeforeMonth(y, 8) == DaysBeforeMonth(y, 6) + 61;
    assert DaysBeforeMonth(y, 10) == DaysBeforeMonth(y, 8) + 61;
    assert DaysBeforeMonth(y, 12) == DaysBeforeMonth(y, 10) + 61;
    assert DaysBeforeMonth(y, 5) == DaysBeforeMonth(y, 4) + 30 && DaysBeforeMonth(y, 7) == DaysBeforeMonth(y, 6) + 30;
    assert DaysBeforeMonth(y, 9) == DaysBeforeMonth(y, 8) + 31 && DaysBeforeMonth(y, 11) == DaysBeforeMonth(y, 10) + 31;
    assert DaysBeforeMonth(y, 13) == DaysBeforeMonth(y, 12) + 31;
  }

  /** Day numbers go up by one from each day to the next. */
  lemma NextIsOneLater(d: Date)
    requires IsValid(d)
    ensures IsValid(Next(d)) && DayNumber(Next(d)) == DayNumber(d) + 1
  {
    if d.day == DaysIn(d.year, d.month) && d.month == 12 {
      MonthStarts(d.year);
      LeapCount(d.year);
    }
  }

  lemma {:induction false} DaysBeforeMonthGrows(y: int, m: int, n: int)
    requires 1 <= m < n <= 13
    ensures DaysBeforeMonth(y, m) + DaysIn(y, m) <= DaysBeforeMonth(y, n)
    decreases n
  {
    if m < n - 1 {
      DaysBeforeMonthGrows(y, m, n - 1);
    }
  }

  lemma {:induction false} YearStartGrows(y: int, n: nat)
    ensures 365 * (y + n) + LeapsBefore(y + n) >= 365 * y + LeapsBefore(y) + 365 * n
  {
    if n > 0 {
      YearStartGrows(y, n - 1);
      LeapCount(y + n - 1);
    }
  }

  lemma EarlierYear(d: Date, e: Date)
    requires IsValid(d) && IsValid(e) && d.year < e.year
    ensures DayNumber(d) < DayNumber(e)
  {
    hide LeapsBefore, IsLeap, DaysBeforeMonth, DaysIn;
    DaysBeforeMonthGrows(d.year, d.month, 13);
    MonthStarts(d.year);
    LeapCount(d.year);
    YearStartGrows(d.year + 1, e.year - d.year - 1);
    DaysBeforeMonthNonNegative(e.year, e.month);
    ValidDay(d);
    ValidDay(e);
  }

  lemma ValidDay(d: Date)
    requires IsValid(d)
    ensures 1 <= d.month <= 12 && 1 <= d.day <= DaysIn(d.year, d.month)
  {
  }

  /** An earlier date has a smaller day number. */
  lemma EarlierIsSmaller(d: Date, e: Date)
    requires IsValid(d) && IsValid(e)
    requires d.year < e.year || (d.year == e.year && (d.month < e.month || (d.month == e.month && d.day < e.day)))
    ensures DayNumber(d) < DayNumber(e)
  {
    if d.year < e.year {
      EarlierYear(d, e);
    } else if d.month < e.month {
      DaysBeforeMonthGrows(d.year, d.month, e.month);
    }
  }

  lemma {:induction false} DaysBeforeMonthNonNegative(y: int, m: int)
    requires 1 <= m <= 13
    ensures DaysBeforeMonth(y, m) >= 0
    decreases m
  {
    if m > 1 {
      DaysBeforeMonthNonNegative(y, m - 1);
    }
  }

  lemma DayNumberInjective(d: Date, e: Date)
    requires IsValid(d) && IsValid(e) && DayNumber(d) == DayNumber(e)
    ensures d == e
  {
    if d != e {
      if d.year < e.year || (d.year == e.year && (d.month < e.month || (d.month == e.month && d.day < e.day))) {
        EarlierIsSmaller(d, e);
      } else {
        EarlierIsSmaller(e, d);
      }
      assert false;
    }
  }

  // ----- the conversion is the calendar -----

  /** The months of a March-based year start on these days of it. */
  function MarchMonthStart(mp: int): int {
    (153 * mp + 2) / 5
  }

  lemma MarchMonthStarts()
    ensures MarchMonthStart(0) == 0 && MarchMonthStart(1) == 31 && MarchMonthStart(2) == 61 && MarchMonthStart(3) == 92
    ensures MarchMonthStart(4) == 122 && MarchMonthStart(5) == 153 && MarchMonthStart(6) == 184
    ensures MarchMonthStart(7) == 214 && MarchMonthStart(8) == 245 && MarchMonthStart(9) == 275
    ensures MarchMonthStart(10) == 306 && MarchMonthStart(11) == 337 && MarchMonthStart(12) == 367
  {
  }

  /** The month formula finds the month that day `doy` falls in. */
  lemma MonthOfDay(doy: int)
    requires 0 <= doy <= 365
    ensures var mp := (5 * doy + 2) / 153;
            0 <= mp <= 11 && MarchMonthStart(mp) <= doy < MarchMonthStart(mp + 1)
  {
  }

  lemma DateOfMarchMonth(y: int, mp: int, doy: int)
    requires 0 <= mp <= 11 && MarchMonthStart(mp) <= doy < MarchMonthStart(mp + 1)
    requires doy < 365 || (doy == 365 && IsLeap(y + 1))
    ensures var m := if mp < 10 then mp + 3 else mp - 9;
            var date := Date(if m <= 2 then y + 1 else y, m, doy - MarchMonthStart(mp) + 1);
            IsValid(date) && DayNumber(date) == DayNumber(Date(y, 3, 1)) + doy
  {
    MarchMonthStarts();
    MonthStarts(y);
    MonthStarts(y + 1);
    LeapCount(y);
    hide LeapsBefore, MarchMonthStart;
    assert mp == 0 || mp == 1 || mp == 2 || mp == 3 || mp == 4 || mp == 5 || mp == 6 || mp == 7 || mp == 8 || mp == 9
        || mp == 10 || mp == 11;
  }

  lemma MarchDay(y: int, doy: int)
    requires 0 <= doy < 365 || (doy == 365 && IsLeap(y + 1))
    ensures var date := DateOfMarchDay(y, doy);
            IsValid(date) && IsValid(Date(y, 3, 1)) && DayNumber(date) == DayNumber(Date(y, 3, 1)) + doy
  {
    MonthOfDay(doy);
    DateOfMarchMonth(y, (5 * doy + 2) / 153, doy);
    hide DayNumber, IsLeap, DaysBeforeMonth;
  }

  lemma MarchFirst(era: int, yoe: int)
    requires 0 <= yoe < 400
    ensures DayNumber(Date(yoe + era * 400, 3, 1)) == era * 146097 + EraYearStart(yoe) - 719468
  {
    var y := yoe + era * 400;
    MonthStarts(y);
    LeapCount(y);
    assert y / 400 == era && y / 100 == 4 * era + yoe / 100 && y / 4 == 100 * era + yoe / 4;
  }

  lemma LastMarchDay(era: int, yoe: int)
    requires 0 <= yoe < 400
    ensures EraYearStart(yoe + 1) - EraYearStart(yoe) == (if IsLeap(yoe + era * 400 + 1) then 366 else 365)
  {
    DivisionSteps(yoe + 1);
    CenturiesAreFourths(yoe + 1);
    LeapRepeats(yoe + 1, era);
  }

  lemma Remainder(x: int, k: int, q: int, r: int)
    requires k > 0 && 0 <= r < k && x == k * q + r
    ensures x % k == r && x / k == q
  {
    var d := x / k - q;
    assert k * d == r - x % k;
    SmallMultiple(k, d);
  }

  lemma SmallMultiple(k: int, d: int)
    requires k > 0 && -k < k * d < k
    ensures d == 0
  {
  }

  lemma LeapRepeats(y: int, era: int)
    ensures IsLeap(y + era * 400) == IsLeap(y)
  {
    Remainder(y + era * 400, 400, y / 400 + era, y % 400);
    Remainder(y + era * 400, 100, y / 100 + 4 * era, y % 100);
    Remainder(y + era * 400, 4, y / 4 + 100 * era, y % 4);
  }

  lemma EraSplit(z: int)
    ensures var era := Quotient(if z >= 0 then z else z - 146096, 146097);
            0 <= z - era * 146097 < 146097
  {
  }

  /** The date of day `z` is a valid date whose day number is `z`. */
  lemma CivilIsDayNumber(z: int)
    ensures IsValid(CivilFromDays(z)) && DayNumber(CivilFromDays(z)) == z
  {
    hide DayNumber, IsValid, IsLeap, YearOfEra, DateOfMarchDay, Quotient;
    var w := z + 719468;
    EraSplit(w);
    var era := Quotient(if w >= 0 then w else w - 146096, 146097);
    var doe := w - era * 146097;
    var yoe := YearOfEra(doe);
    YearOfEraIsYear(doe);
    MarchFirst(era, yoe);
    LastMarchDay(era, yoe);
    MarchDay(yoe + era * 400, doe - EraYearStart(yoe));
  }

  /** Day zero is 1970-01-01, and each following day is the calendar's next. */
  lemma CivilFollowsCalendar(z: int)
    ensures CivilFromDays(0) == Date(1970, 1, 1)
    ensures CivilFromDays(z + 1) == Next(CivilFromDays(z))
  {
    hide DayNumber, IsValid, CivilFromDays, Next;
    assert IsValid(Date(1970, 1, 1)) by { ValidEpoch(); }
    CivilIsDayNumber(z);
    CivilIsDayNumber(z + 1);
    NextIsOneLater(CivilFromDays(z));
    DayNumberInjective(CivilFromDays(z + 1), Next(CivilFromDays(z)));
    Epoch();
    CivilRoundTrip(Date(1970, 1, 1));
  }

  lemma ValidEpoch()
    ensures IsValid(Date(1970, 1, 1))
  {
  }

  lemma Epoch()
    ensures DayNumber(Date(1970, 1, 1)) == 0
  {
  }

  /** Every valid date is the date of its day number, so no two days share a date. */
  lemma CivilRoundTrip(d: Date)
    requires IsValid(d)
    ensures CivilFromDays(DayNumber(d)) == d
  {
    CivilIsDayNumber(DayNumber(d));
    DayNumberInjective(CivilFromDays(DayNumber(d)), d);
  }

  // ----- the rendered timestamp -----

  lemma YearAfter(z: int)
    requires z >= 0
    ensures CivilFromDays(z).year >= 1970
    ensures CivilFromDays(z).year < 10000 <==> z < 2932897
  {
    hide CivilFromDays;
    CivilIsDayNumber(z);
    var d := CivilFromDays(z);
    EpochIsFirst(d);
    TenThousand();
    if d.year < 10000 {
      EarlierIsSmaller(d, Date(10000, 1, 1));
    } else {
      if d != Date(10000, 1, 1) {
        EarlierIsSmaller(Date(10000, 1, 1), d);
      }
    }
  }

  lemma EpochIsFirst(d: Date)
    requires IsValid(d) && DayNumber(d) >= 0
    ensures d.year >= 1970
  {
    Epoch();
    if d.year < 1970 {
      EarlierIsSmaller(d, Date(1970, 1, 1));
      assert false;
    }
  }

  lemma TenThousand()
    ensures DayNumber(Date(10000, 1, 1)) == 2932897
  {
  }

  /** The timestamp of `secs` seconds after the epoch. */
  function FormatUtc(secs: nat): string {
    var days := secs / 86400;
    var timeOfDay := secs % 86400;
    var date := CivilFromDays(days);
    YearAfter(days);
    CivilIsDayNumber(days);
    Padded(date.year, 4) + "-" + Padded(date.month, 2) + "-" + Padded(date.day, 2) + "T"
    + Padded(timeOfDay / 3600, 2) + ":" + Padded(timeOfDay % 3600 / 60, 2) + ":" + Padded(timeOfDay % 60, 2) + "Z"
  }

  /** The fields of a rendered timestamp, joined. */
  function Joined(year: string, month: string, day: string, hour: string, minute: string, second: string): string {
    year + "-" + month + "-" + day + "T" + hour + ":" + minute + ":" + second + "Z"
  }

  /** A `date-time` in UTC of section 5.6 of RFC 3339, without fraction and leap second. */
  ghost predicate IsDateTime(s: string) {
    exists year, month, day, hour, minute, second ::
      s == Joined(year, month, day, hour, minute, second) && AreFields(year, month, day, hour, minute, second)
  }

  ghost predicate AreFields(year: string, month: string, day: string, hour: string, minute: string, second: string) {
    && |year| == 4 && |month| == |day| == |hour| == |minute| == |second| == 2
    && AllDigits(year) && AllDigits(month) && AllDigits(day)
    && AllDigits(hour) && AllDigits(minute) && AllDigits(second)
    && IsValid(Date(Value(year), Value(month), Value(day)))
    && 0 <= Value(hour) <= 23 && 0 <= Value(minute) <= 59 && 0 <= Value(second) <= 59
  }

  /** The places of the separators. */
  ghost predicate HasForm(s: string) {
    && |s| == 20 && s[4] == s[7] == '-' && s[10] == 'T' && s[13] == s[16] == ':' && s[19] == 'Z'
    && forall i :: 0 <= i < 20 && i !in {4, 7, 10, 13, 16, 19} ==> '0' <= s[i] <= '9'
  }

  lemma FieldsHaveForm(year: string, month: string, day: string, hour: string, minute: string, second: string)
    requires AreFields(year, month, day, hour, minute, second)
    ensures HasForm(Joined(year, month, day, hour, minute, second))
  {
    hide Value;
  }

  /** The instant that the fields of a timestamp name, in seconds after the epoch. */
  ghost function Instant(year: string, month: string, day: string, hour: string, minute: string, second: string): int
    requires AreFields(year, month, day, hour, minute, second)
  {
    86400 * DayNumber(Date(Value(year), Value(month), Value(day)))
    + 3600 * Value(hour) + 60 * Value(minute) + Value(second)
  }

  lemma TwoDigits(n: nat)
    requires n < 100
    ensures |Padded(n, 2)| == 2 && AllDigits(Padded(n, 2)) && Value(Padded(n, 2)) == n
  {
    assert Power10(2) == 10 * Power10(1) == 100 * Power10(0);
    PaddedLength(n, 2);
    PaddedValue(n, 2);
  }

  lemma FourDigits(n: nat)
    ensures AllDigits(Padded(n, 4)) && Value(Padded(n, 4)) == n && |Padded(n, 4)| >= 4
    ensures |Padded(n, 4)| == 4 <==> n < 10000
  {
    assert Power10(2) == 10 * Power10(1) == 100 * Power10(0);
    assert Power10(4) == 10 * Power10(3) == 100 * Power10(2);
    PaddedLength(n, 4);
    PaddedValue(n, 4);
  }

  lemma ClockSplit(t: int)
    requires 0 <= t < 86400
    ensures 0 <= t / 3600 <= 23 && 0 <= t % 3600 / 60 <= 59 && 0 <= t % 60 <= 59
    ensures t == 3600 * (t / 3600) + 60 * (t % 3600 / 60) + t % 60
  {
    var h, r := t / 3600, t % 3600;
    var m, s := r / 60, r % 60;
    Remainder(t, 60, 60 * h + m, s);
  }

  /** The fields of a date-time can be read off in one way only. */
  lemma FieldsAreUnique(y: string, mo: string, d: string, h: string, mi: string, s: string,
                        y': string, mo': string, d': string, h': string, mi': string, s': string)
    requires |y| == |y'| == 4 && |mo| == |d| == |h| == |mi| == |s| == 2 && |mo'| == |d'| == |h'| == |mi'| == |s'| == 2
    requires Joined(y, mo, d, h, mi, s) == Joined(y', mo', d', h', mi', s')
    ensures y == y' && mo == mo' && d == d' && h == h' && mi == mi' && s == s'
  {
    var t, t' := Joined(y, mo, d, h, mi, s), Joined(y', mo', d', h', mi', s');
    assert t[..4] == y && t'[..4] == y';
    assert t[5..7] == mo && t'[5..7] == mo';
    assert t[8..10] == d && t'[8..10] == d';
    assert t[11..13] == h && t'[11..13] == h';
    assert t[14..16] == mi && t'[14..16] == mi';
    assert t[17..19] == s && t'[17..19] == s';
  }

  /** The rendering of an instant before the year 10000, field by field. */
  lemma FormatFields(secs: nat) returns (y: string, mo: string, d: string, h: string, mi: string, s: string)
    requires secs < 253402300800
    ensures FormatUtc(secs) == Joined(y, mo, d, h, mi, s) && AreFields(y, mo, d, h, mi, s)
    ensures Instant(y, mo, d, h, mi, s) == secs
  {
    var days, t := secs / 86400, secs % 86400;
    var date := CivilFromDays(days);
    YearAfter(days);
    CivilIsDayNumber(days);
    ClockSplit(t);
    FourDigits(date.year);
    TwoDigits(date.month);
    TwoDigits(date.day);
    TwoDigits(t / 3600);
    TwoDigits(t % 3600 / 60);
    TwoDigits(t % 60);
    hide CivilFromDays, Padded, Value, AllDigits, DayNumber;
    y, mo, d := Padded(date.year, 4), Padded(date.month, 2), Padded(date.day, 2);
    h, mi, s := Padded(t / 3600, 2), Padded(t % 3600 / 60, 2), Padded(t % 60, 2);
  }

  /** Up to the end of the year 9999 the rendering is an RFC 3339 date-time, and whoever reads its
      fields gets the instant it was made from; from then on its year has five digits and it is not one. */
  lemma FormatIsDateTime(secs: nat)
    ensures IsDateTime(FormatUtc(secs)) <==> secs < 253402300800
    ensures secs < 253402300800 ==> HasForm(FormatUtc(secs))
    ensures forall y, mo, d, h, mi, s ::
              FormatUtc(secs) == Joined(y, mo, d, h, mi, s) && AreFields(y, mo, d, h, mi, s) ==>
                Instant(y, mo, d, h, mi, s) == secs
  {
    if secs < 253402300800 {
      var y, mo, d, h, mi, s := FormatFields(secs);
      FieldsHaveForm(y, mo, d, h, mi, s);
      forall y', mo', d', h', mi', s'
        | FormatUtc(secs) == Joined(y', mo', d', h', mi', s') && AreFields(y', mo', d', h', mi', s')
        ensures Instant(y', mo', d', h', mi', s') == secs
      {
        hide FormatUtc;
        FieldsAreUnique(y, mo, d, h, mi, s, y', mo', d', h', mi', s');
      }
    } else {
      LateIsLonger(secs);
    }
  }

  lemma LateIsLonger(secs: nat)
    requires secs >= 253402300800
    ensures |FormatUtc(secs)| > 20
  {
    var days, t := secs / 86400, secs % 86400;
    var date := CivilFromDays(days);
    YearAfter(days);
    CivilIsDayNumber(days);
    ClockSplit(t);
    FourDigits(date.year);
    TwoDigits(date.month);
    TwoDigits(date.day);
    TwoDigits(t / 3600);
    TwoDigits(t % 3600 / 60);
    TwoDigits(t % 60);
    hide CivilFromDays, Padded, Value, AllDigits, DayNumber;
  }
}
