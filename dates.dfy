/** Resolution of the date tokens accepted by the daily-note operations: "today" and
    "yesterday" (case-insensitive) relative to an injected current date, or an exact
    `yyyy-MM-dd` calendar date; and the daily-note path built from the resolved date. Parsing
    and formatting follow the current culture's calendar, which this model takes to be the
    proleptic Gregorian calendar. */
module Dates {
  import opened Common
  import opened Text

  datatype Date = Date(year: nat, month: nat, day: nat)

  predicate IsLeap(y: nat) {
    y % 4 == 0 && (y % 100 != 0 || y % 400 == 0)
  }

  function DaysInMonth(y: nat, m: nat): (n: nat)
    requires 1 <= m <= 12
    ensures 28 <= n <= 31
  {
    if m == 2 then (if IsLeap(y) then 29 else 28)
    else if m == 4 || m == 6 || m == 9 || m == 11 then 30
    else 31
  }

  /** The dates `DateTime` can represent: years 1 to 9999. */
  predicate Valid(d: Date) {
    1 <= d.year <= 9999 && 1 <= d.month <= 12 && 1 <= d.day <= DaysInMonth(d.year, d.month)
  }

  /** The day before `d`; there is none before 0001-01-01 (`AddDays(-1)` throws there). */
  function PrevDay(d: Date): (r: Option<Date>)
    requires Valid(d)
    ensures r.Some? ==> Valid(r.value)
    ensures r.None? <==> d == Date(1, 1, 1)
  {
    if d.day > 1 then Some(Date(d.year, d.month, d.day - 1))
    else if d.month > 1 then Some(Date(d.year, d.month - 1, DaysInMonth(d.year, d.month - 1)))
    else if d.year > 1 then Some(Date(d.year - 1, 12, 31))
    else None
  }

  /** The day after `d`; there is none after 9999-12-31. */
  function NextDay(d: Date): (r: Option<Date>)
    requires Valid(d)
    ensures r.Some? ==> Valid(r.value)
    ensures r.None? <==> d == Date(9999, 12, 31)
  {
    if d.day < DaysInMonth(d.year, d.month) then Some(Date(d.year, d.month, d.day + 1))
    else if d.month < 12 then Some(Date(d.year, d.month + 1, 1))
    else if d.year < 9999 then Some(Date(d.year + 1, 1, 1))
    else None
  }

  /** "yesterday" is undone by stepping one day forward. */
  lemma NextOfPrev(d: Date)
    requires Valid(d) && PrevDay(d).Some?
    ensures NextDay(PrevDay(d).value) == Some(d)
  {
  }

  predicate IsDigit(c: char) {
    '0' <= c <= '9'
  }

  function DigitValue(c: char): (n: nat)
    requires IsDigit(c)
    ensures n <= 9
  {
    c as int - '0' as int
  }

  function DigitChar(n: nat): (c: char)
    requires n <= 9
    ensures IsDigit(c) && DigitValue(c) == n
  {
    ('0' as int + n) as char
  }

  /** `n` written with exactly two digits. */
  function Two(n: nat): (s: string)
    requires n < 100
    ensures |s| == 2
  {
    [DigitChar(n / 10), DigitChar(n % 10)]
  }

  /** `n` written with exactly four digits. */
  function Four(n: nat): (s: string)
    requires n < 10000
    ensures |s| == 4
  {
    [DigitChar(n / 1000), DigitChar(n / 100 % 10), DigitChar(n / 10 % 10), DigitChar(n % 10)]
  }

  /** `ToString("yyyy-MM-dd")`. */
  function Format(d: Date): (s: string)
    requires Valid(d)
    ensures |s| == 10 && s[4] == '-' && s[7] == '-'
  {
    Four(d.year) + "-" + Two(d.month) + "-" + Two(d.day)
  }

  /** `DateTime.TryParseExact(s, "yyyy-MM-dd", ...)` with no style flags: exactly four, two and
      two ASCII digits separated by '-', no surrounding whitespace, and a real calendar date. */
  function Parse(s: string): (r: Option<Date>)
    ensures r.Some? ==> Valid(r.value)
  {
    if |s| == 10 && s[4] == '-' && s[7] == '-'
       && IsDigit(s[0]) && IsDigit(s[1]) && IsDigit(s[2]) && IsDigit(s[3])
       && IsDigit(s[5]) && IsDigit(s[6]) && IsDigit(s[8]) && IsDigit(s[9])
    then
      var y := 1000 * DigitValue(s[0]) + 100 * DigitValue(s[1]) + 10 * DigitValue(s[2]) + DigitValue(s[3]);
      var m := 10 * DigitValue(s[5]) + DigitValue(s[6]);
      var dd := 10 * DigitValue(s[8]) + DigitValue(s[9]);
      var d := Date(y, m, dd);
      if Valid(d) then Some(d) else None
    else
      None
  }

  lemma TwoDigits(n: nat)
    requires n < 100
    ensures 10 * (n / 10) + n % 10 == n && n / 10 <= 9
  {
  }

  lemma FourDigits(n: nat)
    requires n < 10000
    ensures 1000 * (n / 1000) + 100 * (n / 100 % 10) + 10 * (n / 10 % 10) + n % 10 == n
    ensures n / 1000 <= 9
  {
    var a := n / 1000;
    var r := n % 1000;
    assert n == 1000 * a + r;
    assert n / 100 == 10 * a + r / 100;
    assert n / 100 % 10 == r / 100;
    assert n / 10 == 100 * a + r / 10;
    assert r / 10 == 10 * (r / 100) + r % 100 / 10;
    assert n / 10 % 10 == r % 100 / 10;
  }

  /** Formatting a date and parsing it back gives the same date. */
  lemma ParseFormat(d: Date)
    requires Valid(d)
    ensures Parse(Format(d)) == Some(d)
  {
    var s := Format(d);
    FourDigits(d.year);
    TwoDigits(d.month);
    TwoDigits(d.day);
    assert s[0..4] == Four(d.year);
    assert s[5..7] == Two(d.month);
    assert s[8..10] == Two(d.day);
  }

  /** Two digits read as a number are written back as the same two digits. */
  lemma ReadTwo(a: char, b: char)
    requires IsDigit(a) && IsDigit(b)
    ensures Two(10 * DigitValue(a) + DigitValue(b)) == [a, b]
  {
    var n := 10 * DigitValue(a) + DigitValue(b);
    assert n / 10 == DigitValue(a) && n % 10 == DigitValue(b);
  }

  lemma DigitsOfFour(a: nat, b: nat, c: nat, e: nat)
    requires a <= 9 && b <= 9 && c <= 9 && e <= 9
    ensures var n := 1000 * a + 100 * b + 10 * c + e;
      n / 1000 == a && n / 100 % 10 == b && n / 10 % 10 == c && n % 10 == e
  {
    var n := 1000 * a + 100 * b + 10 * c + e;
    assert n / 10 == 100 * a + 10 * b + c;
    assert n / 100 == 10 * a + b;
  }

  /** Four digits read as a number are written back as the same four digits. */
  lemma ReadFour(a: char, b: char, c: char, e: char)
    requires IsDigit(a) && IsDigit(b) && IsDigit(c) && IsDigit(e)
    ensures Four(1000 * DigitValue(a) + 100 * DigitValue(b) + 10 * DigitValue(c) + DigitValue(e)) == [a, b, c, e]
  {
    DigitsOfFour(DigitValue(a), DigitValue(b), DigitValue(c), DigitValue(e));
  }

  /** A string that parses is exactly the formatting of its date: the parser accepts one
      spelling per date. */
  lemma FormatParse(s: string)
    requires Parse(s).Some?
    ensures Format(Parse(s).value) == s
  {
    ReadFour(s[0], s[1], s[2], s[3]);
    ReadTwo(s[5], s[6]);
    ReadTwo(s[8], s[9]);
    assert s == [s[0], s[1], s[2], s[3]] + "-" + [s[5], s[6]] + "-" + [s[8], s[9]];
  }

  /** The date a token names, given the current date `today` (`DateTime.Now.Date`). */
  function Resolve(token: string, today: Date): (r: Result<Date>)
    requires Valid(today)
    ensures r.Ok? ==> Valid(r.value)
    ensures r.Err? ==> r.error == InvalidDate || r.error == DateOutOfRange
    ensures EqualsIgnoreCase(token, "today") ==> r == Ok(today)
    ensures EqualsIgnoreCase(token, "yesterday") ==>
      (r.Ok? <==> today != Date(1, 1, 1)) && (r.Ok? ==> NextDay(r.value) == Some(today)) &&
      (r.Err? ==> r.error == DateOutOfRange)
    ensures !EqualsIgnoreCase(token, "today") && !EqualsIgnoreCase(token, "yesterday") ==>
      (r.Ok? <==> Parse(token).Some?) && (r.Ok? ==> r.value == Parse(token).value) &&
      (r.Err? ==> r.error == InvalidDate)
  {
    if EqualsIgnoreCase(token, "today") then Ok(today)
    else if EqualsIgnoreCase(token, "yesterday") then
      match PrevDay(today)
      case Some(d) => Ok(d)
      case None => Err(DateOutOfRange)
    else
      match Parse(token)
      case Some(d) => Ok(d)
      case None => Err(InvalidDate)
  }

  /** "yesterday", in any letter case, resolves to the day whose next day is `today`. */
  lemma YesterdayIsDayBefore(token: string, today: Date)
    requires Valid(today) && EqualsIgnoreCase(token, "yesterday") && today != Date(1, 1, 1)
    ensures Resolve(token, today).Ok? && NextDay(Resolve(token, today).value) == Some(today)
  {
    assert !EqualsIgnoreCase(token, "today") by { assert |token| != |"today"|; }
    NextOfPrev(today);
  }

  /** The file name of the daily note for `d`. */
  function DailyName(d: Date): string
    requires Valid(d)
  {
    Format(d) + ".md"
  }

  /** `Path.Combine(vault, "dailies", name)`: the three-argument form combines left to right. */
  function DailyPath(d: Date, vault: string, paths: Paths): string
    requires Valid(d)
  {
    paths.combine(paths.combine(vault, "dailies"), DailyName(d))
  }

  /** A token other than "today"/"yesterday" names a daily note exactly when it is a
      `yyyy-MM-dd` date, and that note's name spells the token back. */
  lemma ExplicitDatePath(token: string, today: Date, vault: string, paths: Paths)
    requires Valid(today) && Resolve(token, today).Ok?
    requires !EqualsIgnoreCase(token, "today") && !EqualsIgnoreCase(token, "yesterday")
    ensures DailyName(Resolve(token, today).value) == token + ".md"
    ensures DailyPath(Resolve(token, today).value, vault, paths) ==
      paths.combine(paths.combine(vault, "dailies"), token + ".md")
  {
    FormatParse(token);
  }
}
