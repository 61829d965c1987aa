/** `get_day`: dates travel through the program as `YYYY/MM/DD` strings;
    `get_day(start, gap)` parses one with `strptime`, adds `gap` days and
    formats the result with `strftime`. */
module DateText {
  import opened Results
  import opened Calendar

  /** Why `get_day` raises: `strptime` rejects the text (`ValueError`), the
      sum leaves `datetime`'s range (`OverflowError`), or Python 2's
      `strftime` refuses a year before 1900 (`ValueError`). */
  datatype DateError = Unparsable | OutOfRange | Before1900

  /** The first year Python 2's `strftime` accepts. */
  const StrftimeMinYear: int := 1900

  predicate IsDigit(c: char)
  {
    '0' <= c <= '9'
  }

  function DigitValue(c: char): int
    requires IsDigit(c)
  {
    c as int - '0' as int
  }

  function DigitChar(k: int): char
    requires 0 <= k <= 9
  {
    (k + '0' as int) as char
  }

  function TwoDigits(n: int): string
    requires 0 <= n <= 99
  {
    [DigitChar(n / 10), DigitChar(n % 10)]
  }

  function FourDigits(n: int): string
    requires 0 <= n <= 9999
  {
    TwoDigits(n / 100) + TwoDigits(n % 100)
  }

  /** `strftime('%Y/%m/%d')`, zero-padded. */
  function FormatDate(d: Date): (s: string)
    requires Valid(d)
    ensures |s| == 10 && s[4] == '/' && s[7] == '/'
  {
    FourDigits(d.year) + "/" + TwoDigits(d.month) + "/" + TwoDigits(d.day)
  }

  /** A date text holds digits and slashes only, so no colon. */
  lemma FormatNoColon(d: Date)
    requires Valid(d)
    ensures ':' !in FormatDate(d)
  {
    var s := FormatDate(d);
    assert s == [DigitChar(d.year / 100 / 10), DigitChar(d.year / 100 % 10),
      DigitChar(d.year % 100 / 10), DigitChar(d.year % 100 % 10), '/',
      DigitChar(d.month / 10), DigitChar(d.month % 10), '/',
      DigitChar(d.day / 10), DigitChar(d.day % 10)];
  }

  /** The shape `DDDD/DD/DD`. */
  predicate Shaped(s: string)
  {
    && |s| == 10 && s[4] == '/' && s[7] == '/'
    && IsDigit(s[0]) && IsDigit(s[1]) && IsDigit(s[2]) && IsDigit(s[3])
    && IsDigit(s[5]) && IsDigit(s[6]) && IsDigit(s[8]) && IsDigit(s[9])
  }

  /** `strptime(s, '%Y/%m/%d')` on zero-padded text: `None` where the text
      has another shape or names no calendar day. */
  function ParseDate(s: string): (r: Option<Date>)
    ensures r.Some? ==> Valid(r.value)
  {
    if !Shaped(s) then None
    else
      var d := Date(
        DigitValue(s[0]) * 1000 + DigitValue(s[1]) * 100 + DigitValue(s[2]) * 10 + DigitValue(s[3]),
        DigitValue(s[5]) * 10 + DigitValue(s[6]),
        DigitValue(s[8]) * 10 + DigitValue(s[9]));
      if Valid(d) then Some(d) else None
  }

  lemma DigitRoundTrip(k: int, c: char)
    requires 0 <= k <= 9 && IsDigit(c)
    ensures IsDigit(DigitChar(k)) && DigitValue(DigitChar(k)) == k
    ensures DigitChar(DigitValue(c)) == c
  {
  }

  lemma TwoDigitsValue(n: int)
    requires 0 <= n <= 99
    ensures var s := TwoDigits(n);
      IsDigit(s[0]) && IsDigit(s[1]) && DigitValue(s[0]) * 10 + DigitValue(s[1]) == n
  {
    DigitRoundTrip(n / 10, '0');
    DigitRoundTrip(n % 10, '0');
  }

  /** The four digits of a year, read back, are the year. */
  lemma FourDigitsValue(n: int)
    requires 0 <= n <= 9999
    ensures var s := FourDigits(n);
      && IsDigit(s[0]) && IsDigit(s[1]) && IsDigit(s[2]) && IsDigit(s[3])
      && DigitValue(s[0]) * 1000 + DigitValue(s[1]) * 100 + DigitValue(s[2]) * 10 + DigitValue(s[3]) == n
  {
    TwoDigitsValue(n / 100);
    TwoDigitsValue(n % 100);
    var s := FourDigits(n);
    assert s[..2] == TwoDigits(n / 100) && s[2..] == TwoDigits(n % 100);
  }

  lemma DigitsTwoValue(s: string)
    requires |s| == 2 && IsDigit(s[0]) && IsDigit(s[1])
    ensures TwoDigits(DigitValue(s[0]) * 10 + DigitValue(s[1])) == s
  {
    var a, b := DigitValue(s[0]), DigitValue(s[1]);
    assert (a * 10 + b) / 10 == a && (a * 10 + b) % 10 == b;
    DigitRoundTrip(0, s[0]);
    DigitRoundTrip(0, s[1]);
  }

  /** Four digits read as a number and written back are the same digits. */
  lemma DigitsFourValue(s: string)
    requires |s| == 4 && IsDigit(s[0]) && IsDigit(s[1]) && IsDigit(s[2]) && IsDigit(s[3])
    ensures FourDigits(DigitValue(s[0]) * 1000 + DigitValue(s[1]) * 100 + DigitValue(s[2]) * 10 + DigitValue(s[3])) == s
  {
    var hi, lo := DigitValue(s[0]) * 10 + DigitValue(s[1]), DigitValue(s[2]) * 10 + DigitValue(s[3]);
    var n := hi * 100 + lo;
    assert n / 100 == hi && n % 100 == lo;
    DigitsTwoValue(s[..2]);
    DigitsTwoValue(s[2..]);
    assert s == s[..2] + s[2..];
  }

  /** Parsing undoes formatting. */
  lemma ParseFormat(d: Date)
    requires Valid(d)
    ensures ParseDate(FormatDate(d)) == Some(d)
  {
    var s := FormatDate(d);
    FourDigitsValue(d.year);
    TwoDigitsValue(d.month);
    TwoDigitsValue(d.day);
    assert s[..4] == FourDigits(d.year);
    assert s[5..7] == TwoDigits(d.month);
    assert s[8..] == TwoDigits(d.day);
    assert Shaped(s);
  }

  /** Formatting undoes parsing: the only text that parses is the canonical
      text of its date. */
  lemma FormatParse(s: string)
    requires ParseDate(s).Some?
    ensures FormatDate(ParseDate(s).value) == s
  {
    var d := ParseDate(s).value;
    DigitsFourValue(s[..4]);
    DigitsTwoValue(s[5..7]);
    DigitsTwoValue(s[8..]);
    assert s == s[..4] + "/" + s[5..7] + "/" + s[8..];
  }

  /** Two valid dates with the same text are the same date. */
  lemma FormatInjective(a: Date, b: Date)
    requires Valid(a) && Valid(b)
    requires FormatDate(a) == FormatDate(b)
    ensures a == b
  {
    ParseFormat(a);
    ParseFormat(b);
  }

  /** `get_day(start, gap)`. */
  function GetDay(start: string, gap: int): Result<string, DateError>
  {
    match ParseDate(start)
    case None => Err(Unparsable)
    case Some(d) =>
      match AddDays(d, gap)
      case None => Err(OutOfRange)
      case Some(e) =>
        if e.year < StrftimeMinYear then Err(Before1900) else Ok(FormatDate(e))
  }

  /** The target of `get_day` is the date `gap` days after the start, and
      each exception has its cause: unparsable text, a target outside
      `datetime`'s range, or a target year `strftime` refuses. */
  lemma GetDayMeaning(start: string, gap: int)
    ensures GetDay(start, gap).Ok? ==>
      && ParseDate(start).Some? && ParseDate(GetDay(start, gap).value).Some?
      && Ordinal(ParseDate(GetDay(start, gap).value).value) == Ordinal(ParseDate(start).value) + gap
      && ParseDate(GetDay(start, gap).value).value.year >= StrftimeMinYear
    ensures GetDay(start, gap) == Err(Unparsable) <==> ParseDate(start).None?
    ensures GetDay(start, gap) == Err(OutOfRange) <==>
      ParseDate(start).Some? && !(1 <= Ordinal(ParseDate(start).value) + gap <= MaxOrdinal)
    ensures GetDay(start, gap) == Err(Before1900) <==>
      && ParseDate(start).Some? && 1 <= Ordinal(ParseDate(start).value) + gap <= MaxOrdinal
      && FromOrdinal(Ordinal(ParseDate(start).value) + gap).year < StrftimeMinYear
  {
    if GetDay(start, gap).Ok? {
      ParseFormat(AddDays(ParseDate(start).value, gap).value);
    }
  }

  /** `get_day(d, 0) == d` for every date text `strftime` can write back. */
  lemma GetDayZero(s: string)
    requires ParseDate(s).Some? && ParseDate(s).value.year >= StrftimeMinYear
    ensures GetDay(s, 0) == Ok(s)
  {
    AddZeroDays(ParseDate(s).value);
    FormatParse(s);
  }

  /** One day after a date is the text of its calendar successor. */
  lemma GetDayOne(s: string)
    requires ParseDate(s).Some? && ParseDate(s).value.year >= StrftimeMinYear
    requires ParseDate(s).value != Date(MaxYear, 12, 31)
    ensures GetDay(s, 1) == Ok(FormatDate(Next(ParseDate(s).value)))
  {
    AddOneDay(ParseDate(s).value);
  }

  /** Stepping from a stepped date adds the gaps. */
  lemma GetDayTwice(s: string, a: int, b: int)
    requires GetDay(s, a).Ok?
    ensures GetDay(GetDay(s, a).value, b) == GetDay(s, a + b)
  {
    var d := ParseDate(s).value;
    var e := AddDays(d, a).value;
    ParseFormat(e);
    AddDaysTwice(d, a, b);
  }

  /** The example of the `get_day` documentation. */
  lemma GetDayExample()
    ensures GetDay("2017/01/01", 1) == Ok("2017/01/02")
  {
    ParseFormat(Date(2017, 1, 1));
    FormatExample();
    GetDayOne("2017/01/01");
  }

  lemma FormatExample()
    ensures FormatDate(Date(2017, 1, 1)) == "2017/01/01"
    ensures FormatDate(Date(2017, 1, 2)) == "2017/01/02"
  {
  }
}
