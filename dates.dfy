/**
 * Calendar dates of the proleptic Gregorian calendar (the calendar of
 * JavaScript's Date), the day arithmetic the source does with Date
 * objects, and the `YYYY-MM-DD` keys the store holds: ISO 8601 calendar
 * dates, complete representation, extended format.
 */
module Dates {
  import opened Support
  import opened Text

  datatype Date = Date(year: int, month: int, day: int)

  predicate IsLeapYear(y: int)
  {
    y % 4 == 0 && (y % 100 != 0 || y % 400 == 0)
  }

  function DaysInMonth(y: int, m: int): (n: int)
    requires 1 <= m <= 12
    ensures 28 <= n <= 31
  {
    if m == 2 then (if IsLeapYear(y) then 29 else 28)
    else if m == 4 || m == 6 || m == 9 || m == 11 then 30
    else 31
  }

  /** A real calendar day from year 1 on. */
  predicate ValidDate(d: Date)
  {
    d.year >= 1 && 1 <= d.month <= 12 && 1 <= d.day <= DaysInMonth(d.year, d.month)
  }

  function YearLength(y: int): int
  {
    if IsLeapYear(y) then 366 else 365
  }

  /** Days of the year before the first day of month m. */
  function DaysBeforeMonth(y: int, m: int): (n: nat)
    requires 1 <= m <= 12
  {
    [0, 31, 59, 90, 120, 151, 181, 212, 243, 273, 304, 334][m - 1]
      + (if m > 2 && IsLeapYear(y) then 1 else 0)
  }

  /** Days from 0001-01-01 to the first day of year y. */
  function DaysBeforeYear(y: int): (n: nat)
    requires y >= 1
  {
    if y == 1 then 0 else DaysBeforeYear(y - 1) + YearLength(y - 1)
  }

  /** The number of days from 0001-01-01 to d: a day count on which dates subtract. */
  function DayIndex(d: Date): nat
    requires ValidDate(d)
  {
    DaysBeforeYear(d.year) + DaysBeforeMonth(d.year, d.month) + d.day - 1
  }

  /** The calendar day after d. */
  function NextDay(d: Date): (r: Date)
    requires ValidDate(d)
    ensures ValidDate(r)
  {
    if d.day < DaysInMonth(d.year, d.month) then Date(d.year, d.month, d.day + 1)
    else if d.month < 12 then Date(d.year, d.month + 1, 1)
    else Date(d.year + 1, 1, 1)
  }

  /** The date n days after d, as Date.setDate(getDate() + n) normalises it. */
  function AddDays(d: Date, n: nat): (r: Date)
    requires ValidDate(d)
    ensures ValidDate(r)
    decreases n
  {
    if n == 0 then d else AddDays(NextDay(d), n - 1)
  }

  lemma NextDayIsOneLater(d: Date)
    requires ValidDate(d)
    ensures DayIndex(NextDay(d)) == DayIndex(d) + 1
    ensures NextDay(d).year >= d.year
  {
  }

  /** AddDays moves exactly n days along the day count. */
  lemma {:induction false} AddDaysIndex(d: Date, n: nat)
    requires ValidDate(d)
    ensures DayIndex(AddDays(d, n)) == DayIndex(d) + n
    ensures AddDays(d, n).year >= d.year
    decreases n
  {
    if n > 0 {
      NextDayIsOneLater(d);
      AddDaysIndex(NextDay(d), n - 1);
    }
  }

  lemma {:induction false} DaysBeforeYearGrows(y1: int, y2: int)
    requires 1 <= y1 < y2
    ensures DaysBeforeYear(y1) + YearLength(y1) <= DaysBeforeYear(y2)
    decreases y2 - y1
  {
    if y1 + 1 < y2 {
      DaysBeforeYearGrows(y1 + 1, y2);
    }
  }

  /** The order of (year, month, day) triples. */
  predicate DateBefore(a: Date, b: Date)
  {
    a.year < b.year
    || (a.year == b.year && a.month < b.month)
    || (a.year == b.year && a.month == b.month && a.day < b.day)
  }

  lemma DayIndexWithinYear(d: Date)
    requires ValidDate(d)
    ensures DaysBeforeYear(d.year) <= DayIndex(d) < DaysBeforeYear(d.year) + YearLength(d.year)
  {
  }

  /** The day count orders dates chronologically and tells different dates apart. */
  lemma DayIndexOrder(a: Date, b: Date)
    requires ValidDate(a) && ValidDate(b)
    ensures DateBefore(a, b) <==> DayIndex(a) < DayIndex(b)
    ensures a == b <==> DayIndex(a) == DayIndex(b)
  {
    DayIndexWithinYear(a);
    DayIndexWithinYear(b);
    if a.year < b.year {
      DaysBeforeYearGrows(a.year, b.year);
    } else if b.year < a.year {
      DaysBeforeYearGrows(b.year, a.year);
    }
  }

  /** The `YYYY-MM-DD` key: the year as getFullYear() prints, month and day padStart(2, '0'). */
  function DateKey(d: Date): string
    requires ValidDate(d)
  {
    Decimal(d.year) + "-" + PadStart(Decimal(d.month), 2, '0') + "-" + PadStart(Decimal(d.day), 2, '0')
  }

  /** Reads a `YYYY-MM-DD` key back; anything else is None. */
  function ParseDateKey(s: string): (r: Option<Date>)
    ensures r.Some? ==> ValidDate(r.value)
  {
    if |s| == 10 && s[4] == '-' && s[7] == '-'
       && AllDigits(s[..4]) && AllDigits(s[5..7]) && AllDigits(s[8..])
    then
      var d := Date(DigitsValue(s[..4]), DigitsValue(s[5..7]), DigitsValue(s[8..]));
      if ValidDate(d) then Some(d) else None
    else None
  }

  /** A date of a four-digit year, the range where its key is ISO 8601. */
  predicate FourDigitYear(d: Date)
  {
    ValidDate(d) && 1000 <= d.year <= 9999
  }

  lemma DateKeyParts(d: Date)
    requires FourDigitYear(d)
    ensures DateKey(d) == FixedDigits(d.year, 4) + "-" + FixedDigits(d.month, 2) + "-" + FixedDigits(d.day, 2)
  {
    DecimalIsFixed(d.year, 4);
    PadTwoIsFixed(d.month);
    PadTwoIsFixed(d.day);
  }

  /** The key of a four-digit-year date has the fixed shape of the format. */
  lemma DateKeyShape(d: Date)
    requires FourDigitYear(d)
    ensures |DateKey(d)| == 10 && DateKey(d)[4] == '-' && DateKey(d)[7] == '-'
    ensures DateKey(d)[5..7] in ["01", "02", "03", "04", "05", "06", "07", "08", "09", "10", "11", "12"]
    ensures AllDigits(DateKey(d)[8..]) && DigitsValue(DateKey(d)[8..]) == d.day
  {
    DateKeyParts(d);
    var k := DateKey(d);
    assert k[5..7] == FixedDigits(d.month, 2);
    assert k[8..] == FixedDigits(d.day, 2);
    FixedDigitsRoundTrip(d.day, 2);
    assert FixedDigits(d.month, 2) == [DigitChar(d.month / 10), DigitChar(d.month % 10)];
  }

  /** Parsing a key gives back the date it was formatted from. */
  lemma DateKeyRoundTrip(d: Date)
    requires FourDigitYear(d)
    ensures ParseDateKey(DateKey(d)) == Some(d)
  {
    DateKeyParts(d);
    var k := DateKey(d);
    assert k[..4] == FixedDigits(d.year, 4);
    assert k[5..7] == FixedDigits(d.month, 2);
    assert k[8..] == FixedDigits(d.day, 2);
    FixedDigitsRoundTrip(d.year, 4);
    FixedDigitsRoundTrip(d.month, 2);
    FixedDigitsRoundTrip(d.day, 2);
  }

  /** A ten-character key with dashes at 4 and 7 is its three fields joined by dashes. */
  lemma KeySplit(s: string)
    requires |s| == 10 && s[4] == '-' && s[7] == '-'
    ensures s == s[..4] + "-" + s[5..7] + "-" + s[8..]
  {
    var t := s[..4] + "-" + s[5..7] + "-" + s[8..];
    assert |t| == 10;
    forall i | 0 <= i < 10
      ensures t[i] == s[i]
    {
    }
  }

  /** The fields a key parses from are the fixed renderings of the parsed date's fields. */
  lemma ParsedFields(s: string)
    requires ParseDateKey(s).Some?
    ensures var d := ParseDateKey(s).value;
      && |s| == 10 && s[4] == '-' && s[7] == '-'
      && d.year < 10000
      && FixedDigits(d.year, 4) == s[..4]
      && FixedDigits(d.month, 2) == s[5..7]
      && FixedDigits(d.day, 2) == s[8..]
  {
    var d := ParseDateKey(s).value;
    assert d == Date(DigitsValue(s[..4]), DigitsValue(s[5..7]), DigitsValue(s[8..]));
    DigitsValueRoundTrip(s[..4]);
    DigitsValueRoundTrip(s[5..7]);
    DigitsValueRoundTrip(s[8..]);
    assert Pow10(4) == 10000;
  }

  /** A key that parses to a four-digit year is exactly the key of that date. */
  lemma ParseDateKeyRoundTrip(s: string)
    requires ParseDateKey(s).Some? && ParseDateKey(s).value.year >= 1000
    ensures FourDigitYear(ParseDateKey(s).value)
    ensures DateKey(ParseDateKey(s).value) == s
  {
    var d := ParseDateKey(s).value;
    ParsedFields(s);
    DateKeyParts(d);
    KeySplit(s);
  }

  /** Keys compare field by field, since the fields have fixed widths. */
  lemma KeyFieldsOrder(ya: string, ma: string, da: string, yb: string, mb: string, db: string)
    requires |ya| == |yb| && |ma| == |mb|
    ensures StrLess(ya + "-" + ma + "-" + da, yb + "-" + mb + "-" + db)
        <==> StrLess(ya, yb) || (ya == yb && (StrLess(ma, mb) || (ma == mb && StrLess(da, db))))
  {
    var ta, tb := ma + "-" + da, mb + "-" + db;
    assert ya + "-" + ma + "-" + da == ya + ("-" + ta);
    assert yb + "-" + mb + "-" + db == yb + ("-" + tb);
    StrLessConcat(ya, "-" + ta, yb, "-" + tb);
    StrLessConcat("-", ta, "-", tb);
    StrLessIrreflexive("-");
    assert ta == ma + ("-" + da) && tb == mb + ("-" + db);
    StrLessConcat(ma, "-" + da, mb, "-" + db);
    StrLessConcat("-", da, "-", db);
  }

  /** For four-digit years, the text order of keys is the chronological order of dates. */
  lemma DateKeyOrder(a: Date, b: Date)
    requires FourDigitYear(a) && FourDigitYear(b)
    ensures StrLess(DateKey(a), DateKey(b)) <==> DayIndex(a) < DayIndex(b)
    ensures DateKey(a) == DateKey(b) <==> a == b
  {
    DateKeyParts(a);
    DateKeyParts(b);
    DayIndexOrder(a, b);
    FixedDigitsOrder(a.year, b.year, 4);
    FixedDigitsOrder(a.month, b.month, 2);
    FixedDigitsOrder(a.day, b.day, 2);
    KeyFieldsOrder(FixedDigits(a.year, 4), FixedDigits(a.month, 2), FixedDigits(a.day, 2),
                   FixedDigits(b.year, 4), FixedDigits(b.month, 2), FixedDigits(b.day, 2));
    DateKeyRoundTrip(a);
    DateKeyRoundTrip(b);
  }
}
