/** The run date: the `YYYY-MM-DD` text given on the command line, parsed as a
    calendar date, and the `DD Mon` form the listing writes dates in. */
module RunDates {
  import opened Wrappers
  import opened Strings

  datatype Date = Date(year: int, month: int, day: int)

  predicate IsLeapYear(y: int)
  {
    y % 4 == 0 && (y % 100 != 0 || y % 400 == 0)
  }

  function DaysInMonth(y: int, m: int): int
    requires 1 <= m <= 12
  {
    if m == 2 then (if IsLeapYear(y) then 29 else 28)
    else if m == 4 || m == 6 || m == 9 || m == 11 then 30
    else 31
  }

  /** A date the calendar has, with a year of one to four digits. */
  predicate ValidDate(d: Date)
  {
    1 <= d.year <= 9999 && 1 <= d.month <= 12 && 1 <= d.day <= DaysInMonth(d.year, d.month)
  }

  predicate IsDigit(c: char)
  {
    '0' <= c <= '9'
  }

  function DigitValue(c: char): int
    requires IsDigit(c)
  {
    c as int - '0' as int
  }

  function DigitChar(n: int): (c: char)
    requires 0 <= n < 10
    ensures IsDigit(c) && DigitValue(c) == n
  {
    ('0' as int + n) as char
  }

  /** A number below 100 with two digits, zero-padded (`%d`, `%m`). */
  function TwoDigits(n: int): (s: string)
    requires 0 <= n < 100
    ensures |s| == 2 && IsDigit(s[0]) && IsDigit(s[1])
    ensures 10 * DigitValue(s[0]) + DigitValue(s[1]) == n
  {
    [DigitChar(n / 10), DigitChar(n % 10)]
  }

  /** A year below 10000 with four digits, zero-padded (`%Y`). */
  function FourDigits(n: int): (s: string)
    requires 0 <= n < 10000
    ensures |s| == 4 && forall k :: 0 <= k < 4 ==> IsDigit(s[k])
  {
    TwoDigits(n / 100) + TwoDigits(n % 100)
  }

  /** Two digits read as a number are written back as the same two digits. */
  lemma TwoDigitsOf(c1: char, c2: char)
    requires IsDigit(c1) && IsDigit(c2)
    ensures TwoDigits(10 * DigitValue(c1) + DigitValue(c2)) == [c1, c2]
  {
    var n := 10 * DigitValue(c1) + DigitValue(c2);
    assert n / 10 == DigitValue(c1) && n % 10 == DigitValue(c2);
  }

  /** The same for four digits. */
  lemma FourDigitsOf(s: string)
    requires |s| == 4 && forall k :: 0 <= k < 4 ==> IsDigit(s[k])
    ensures FourDigits(1000 * DigitValue(s[0]) + 100 * DigitValue(s[1]) + 10 * DigitValue(s[2]) + DigitValue(s[3])) == s
  {
    var hi := 10 * DigitValue(s[0]) + DigitValue(s[1]);
    var lo := 10 * DigitValue(s[2]) + DigitValue(s[3]);
    var n := 1000 * DigitValue(s[0]) + 100 * DigitValue(s[1]) + 10 * DigitValue(s[2]) + DigitValue(s[3]);
    assert n == 100 * hi + lo;
    assert n / 100 == hi && n % 100 == lo;
    TwoDigitsOf(s[0], s[1]);
    TwoDigitsOf(s[2], s[3]);
  }

  /** Four digits read back give the number written. */
  lemma FourDigitsValue(n: int)
    requires 0 <= n < 10000
    ensures var s := FourDigits(n);
      1000 * DigitValue(s[0]) + 100 * DigitValue(s[1]) + 10 * DigitValue(s[2]) + DigitValue(s[3]) == n
  {
    var s := FourDigits(n);
    var hi := TwoDigits(n / 100);
    var lo := TwoDigits(n % 100);
    assert s[0] == hi[0] && s[1] == hi[1] && s[2] == lo[0] && s[3] == lo[1];
  }

  /** The English month abbreviations `%b` writes. */
  function MonthName(m: int): (s: string)
    requires 1 <= m <= 12
    ensures |s| == 3 && SpaceFree(s)
  {
    if m == 1 then "Jan" else if m == 2 then "Feb" else if m == 3 then "Mar"
    else if m == 4 then "Apr" else if m == 5 then "May" else if m == 6 then "Jun"
    else if m == 7 then "Jul" else if m == 8 then "Aug" else if m == 9 then "Sep"
    else if m == 10 then "Oct" else if m == 11 then "Nov" else "Dec"
  }

  /** The month whose abbreviation is the three letters `a`, `b`, `c`. */
  function MonthOfLetters(a: char, b: char, c: char): (m: Option<int>)
    ensures m.Some? ==> 1 <= m.value <= 12 && MonthName(m.value) == [a, b, c]
  {
    if [a, b, c] == "Jan" then Some(1) else if [a, b, c] == "Feb" then Some(2)
    else if [a, b, c] == "Mar" then Some(3) else if [a, b, c] == "Apr" then Some(4)
    else if [a, b, c] == "May" then Some(5) else if [a, b, c] == "Jun" then Some(6)
    else if [a, b, c] == "Jul" then Some(7) else if [a, b, c] == "Aug" then Some(8)
    else if [a, b, c] == "Sep" then Some(9) else if [a, b, c] == "Oct" then Some(10)
    else if [a, b, c] == "Nov" then Some(11) else if [a, b, c] == "Dec" then Some(12)
    else None
  }

  /** The month an abbreviation names. */
  function MonthNumber(s: string): (m: Option<int>)
    ensures m.Some? ==> 1 <= m.value <= 12 && MonthName(m.value) == s
  {
    if |s| != 3 then None
    else
      assert s == [s[0], s[1], s[2]];
      MonthOfLetters(s[0], s[1], s[2])
  }

  /** Each month's abbreviation reads back as that month. */
  lemma MonthNumberOfName(m: int)
    requires 1 <= m <= 12
    ensures MonthNumber(MonthName(m)) == Some(m)
  {
    if m <= 3 {
      if m == 1 {} else if m == 2 {} else {}
    } else if m <= 6 {
      if m == 4 {} else if m == 5 {} else {}
    } else if m <= 9 {
      if m == 7 {} else if m == 8 {} else {}
    } else {
      if m == 10 {} else if m == 11 {} else {}
    }
  }

  /** `date.strftime('%d %b')`: the two-digit day, a space, the month abbreviation. */
  function TargetDate(d: Date): (s: string)
    requires ValidDate(d)
    ensures |s| == 6 && s[2] == ' '
  {
    TwoDigits(d.day) + " " + MonthName(d.month)
  }

  /** Reading a `DD Mon` text back: the day and month it names. */
  function ParseDayMonth(s: string): (r: Option<(int, int)>)
    ensures r.Some? ==> 1 <= r.value.1 <= 12 && 0 <= r.value.0 < 100
  {
    if |s| == 6 && IsDigit(s[0]) && IsDigit(s[1]) && s[2] == ' ' && MonthNumber(s[3..]).Some? then
      Some((10 * DigitValue(s[0]) + DigitValue(s[1]), MonthNumber(s[3..]).value))
    else None
  }

  /** The `DD Mon` form keeps the day and the month, so two dates give the same text
      exactly when they fall on the same day of the same month (of any year). */
  lemma ParseTargetDate(d: Date)
    requires ValidDate(d)
    ensures ParseDayMonth(TargetDate(d)) == Some((d.day, d.month))
  {
    var s := TargetDate(d);
    var dd := TwoDigits(d.day);
    assert s[0] == dd[0] && s[1] == dd[1];
    assert s[3..] == MonthName(d.month);
    MonthNumberOfName(d.month);
  }

  lemma TargetDateSame(d1: Date, d2: Date)
    requires ValidDate(d1) && ValidDate(d2)
    ensures TargetDate(d1) == TargetDate(d2) <==> d1.day == d2.day && d1.month == d2.month
  {
    if TargetDate(d1) == TargetDate(d2) {
      ParseTargetDate(d1);
      ParseTargetDate(d2);
    }
  }

  lemma TargetDateExample()
    ensures TargetDate(Date(2024, 6, 21)) == "21 Jun"
  {
  }

  /** `date.strftime('%Y-%m-%d')`. */
  function IsoText(d: Date): (s: string)
    requires ValidDate(d)
    ensures |s| == 10
  {
    FourDigits(d.year) + "-" + TwoDigits(d.month) + "-" + TwoDigits(d.day)
  }

  /** `datetime.strptime(s, '%Y-%m-%d')` on zero-padded text: `None` where it raises. */
  function ParseIso(s: string): (r: Option<Date>)
    ensures r.Some? ==> ValidDate(r.value)
  {
    if |s| == 10 && IsDigit(s[0]) && IsDigit(s[1]) && IsDigit(s[2]) && IsDigit(s[3]) && s[4] == '-'
       && IsDigit(s[5]) && IsDigit(s[6]) && s[7] == '-' && IsDigit(s[8]) && IsDigit(s[9]) then
      var d := Date(1000 * DigitValue(s[0]) + 100 * DigitValue(s[1]) + 10 * DigitValue(s[2]) + DigitValue(s[3]),
                    10 * DigitValue(s[5]) + DigitValue(s[6]),
                    10 * DigitValue(s[8]) + DigitValue(s[9]));
      if ValidDate(d) then Some(d) else None
    else None
  }

  /** Parsing the written form of a date gives the date back ... */
  lemma ParseIsoText(d: Date)
    requires ValidDate(d)
    ensures ParseIso(IsoText(d)) == Some(d)
  {
    var s := IsoText(d);
    var y := FourDigits(d.year);
    var m := TwoDigits(d.month);
    var dd := TwoDigits(d.day);
    FourDigitsValue(d.year);
    assert s[0] == y[0] && s[1] == y[1] && s[2] == y[2] && s[3] == y[3];
    assert s[5] == m[0] && s[6] == m[1] && s[8] == dd[0] && s[9] == dd[1];
  }

  /** ... and a text that parses is the written form of its date. */
  lemma IsoTextOfParse(s: string)
    requires ParseIso(s).Some?
    ensures IsoText(ParseIso(s).value) == s
  {
    var d := ParseIso(s).value;
    FourDigitsOf(s[..4]);
    TwoDigitsOf(s[5], s[6]);
    TwoDigitsOf(s[8], s[9]);
    assert s == s[..4] + "-" + [s[5], s[6]] + "-" + [s[8], s[9]];
  }

  /** `' '.join(text.split()[:2])`: the first two words of a listing's date text. */
  function DateKey(text: string): string
  {
    var ws := Words(text);
    Join(ws[..if |ws| < 2 then |ws| else 2], " ")
  }

  /** A listing text that starts with a date in `DD Mon` form, followed by whitespace,
      has that date as its key. */
  lemma DateKeyOfListing(d: Date, rest: string)
    requires ValidDate(d)
    ensures DateKey(TargetDate(d) + " " + rest) == TargetDate(d)
  {
    var dd := TwoDigits(d.day);
    var mon := MonthName(d.month);
    assert SpaceFree(dd);
    assert TargetDate(d) + " " + rest == dd + " " + (mon + " " + rest);
    WordsCons(dd, mon + " " + rest);
    WordsCons(mon, rest);
    var ws := Words(TargetDate(d) + " " + rest);
    assert ws == [dd, mon] + Words(rest);
    assert ws[..2] == [dd, mon];
    assert Join([dd, mon], " ") == dd + " " + Join([mon], " ");
  }

  /** The same for a text that is only the date. */
  lemma DateKeyOfDateOnly(d: Date)
    requires ValidDate(d)
    ensures DateKey(TargetDate(d)) == TargetDate(d)
  {
    var dd := TwoDigits(d.day);
    var mon := MonthName(d.month);
    assert SpaceFree(dd);
    assert Join([dd, mon], " ") == TargetDate(d);
    WordsJoin([dd, mon]);
    assert [dd, mon][..2] == [dd, mon];
  }
}
