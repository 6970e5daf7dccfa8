/** The two `datetime.strptime` formats the finder uses, `%Y.%m.%d` for the
    window bounds and `%Y.%m.%d %H:%M` for row stamps, modelled as the
    regular language CPython compiles them to, followed by the calendar
    check `datetime` performs:

      %Y  four digits
      %m  1[0-2] | 0[1-9] | [1-9]
      %d  3[01] | [12]\d | 0[1-9] | [1-9] | " "[1-9]
      %H  2[0-3] | [0-1]\d | \d
      %M  [0-5]\d | \d
      " " one or more whitespace characters

    The whole string must be consumed ("unconverted data remains" otherwise),
    and year 0 or a day past the month's end raise `ValueError` as well. */
module DateFormat {
  import opened Wrappers
  import opened Text
  import opened Calendar

  /** Value of a one- or two-digit token. */
  function SmallValue(t: string): nat
    requires 1 <= |t| <= 2 && AllDigits(t)
  {
    if |t| == 1 then DigitValue(t[0]) else 10 * DigitValue(t[0]) + DigitValue(t[1])
  }

  function YearValue(t: string): nat
    requires |t| == 4 && AllDigits(t)
  {
    100 * SmallValue(t[..2]) + SmallValue(t[2..])
  }

  predicate InRange(c: char, lo: char, hi: char) {
    lo <= c <= hi
  }

  /** `%m`: 1[0-2] | 0[1-9] | [1-9] */
  predicate IsMonthToken(t: string) {
    || (|t| == 2 && t[0] == '1' && InRange(t[1], '0', '2'))
    || (|t| == 2 && t[0] == '0' && InRange(t[1], '1', '9'))
    || (|t| == 1 && InRange(t[0], '1', '9'))
  }

  /** `%d`: 3[01] | [12]\d | 0[1-9] | [1-9] | " "[1-9] */
  predicate IsDayToken(t: string) {
    || (|t| == 2 && t[0] == '3' && InRange(t[1], '0', '1'))
    || (|t| == 2 && InRange(t[0], '1', '2') && IsAsciiDigit(t[1]))
    || (|t| == 2 && t[0] == '0' && InRange(t[1], '1', '9'))
    || (|t| == 1 && InRange(t[0], '1', '9'))
    || (|t| == 2 && t[0] == ' ' && InRange(t[1], '1', '9'))
  }

  /** `%H`: 2[0-3] | [0-1]\d | \d */
  predicate IsHourToken(t: string) {
    || (|t| == 2 && t[0] == '2' && InRange(t[1], '0', '3'))
    || (|t| == 2 && InRange(t[0], '0', '1') && IsAsciiDigit(t[1]))
    || (|t| == 1 && IsAsciiDigit(t[0]))
  }

  /** `%M`: [0-5]\d | \d */
  predicate IsMinuteToken(t: string) {
    || (|t| == 2 && InRange(t[0], '0', '5') && IsAsciiDigit(t[1]))
    || (|t| == 1 && IsAsciiDigit(t[0]))
  }

  function MonthValue(t: string): (m: int)
    requires IsMonthToken(t)
    ensures 1 <= m <= 12
  {
    SmallValue(t)
  }

  function DayValue(t: string): (d: int)
    requires IsDayToken(t)
    ensures 1 <= d <= 31
  {
    if t[0] == ' ' then DigitValue(t[1]) else SmallValue(t)
  }

  function HourValue(t: string): (h: int)
    requires IsHourToken(t)
    ensures 0 <= h <= 23
  {
    SmallValue(t)
  }

  function MinuteValue(t: string): (mi: int)
    requires IsMinuteToken(t)
    ensures 0 <= mi <= 59
  {
    SmallValue(t)
  }

  /** Splits `r` at `sep` when it is the second or third character. Every
      token alternative of `%m` and `%H` is one or two characters long and
      free of the separator that follows it, so the position of `sep` fixes
      which alternative the regular expression can match. */
  function SplitField(r: string, sep: char): (p: Option<(string, string)>)
    ensures p.Some? ==> 1 <= |p.value.0| <= 2 && r == p.value.0 + [sep] + p.value.1
  {
    if |r| >= 2 && r[1] == sep then Some((r[..1], r[2..]))
    else if |r| >= 3 && r[2] == sep then Some((r[..2], r[3..]))
    else None
  }

  /** Length of the run of non-whitespace characters at the start of `t`. */
  function WordLength(t: string): (n: nat)
    ensures n <= |t|
    ensures forall k :: 0 <= k < n ==> !IsSpace(t[k])
    ensures n < |t| ==> IsSpace(t[n])
    decreases |t|
  {
    if t == [] || IsSpace(t[0]) then 0 else 1 + WordLength(t[1..])
  }

  /** The `%d` token of a stamp and the text after the whitespace that must
      follow it. A leading single space belongs to the token (" 5"). */
  function SplitDay(r: string): Option<(string, string)> {
    var k := if r != [] && r[0] == ' ' then 1 else 0;
    var n := k + WordLength(r[k..]);
    var after := r[n..];
    if IsDayToken(r[..n]) && after != [] && IsSpace(after[0]) then Some((r[..n], TrimLeft(after)))
    else None
  }

  function MakeDate(y: int, m: int, d: int): (r: Option<Date>)
    ensures r.Some? <==> ValidDate(Date(y, m, d))
    ensures r.Some? ==> r.value == Date(y, m, d)
  {
    if ValidDate(Date(y, m, d)) then Some(Date(y, m, d)) else None
  }

  /** The `%Y.%m.` prefix: the year and month values and the text after the
      second dot. */
  function SplitYearMonth(s: string): Option<(int, int, string)> {
    if |s| < 5 || !AllDigits(s[..4]) || s[4] != '.' then None
    else
      match SplitField(s[5..], '.')
      case None => None
      case Some((m, tail)) =>
        if IsMonthToken(m) then Some((YearValue(s[..4]), MonthValue(m), tail)) else None
  }

  /** `datetime.strptime(s, "%Y.%m.%d").date()`, or `None` where it raises. */
  function ParseDate(s: string): (r: Option<Date>)
    ensures r.Some? ==> ValidDate(r.value)
  {
    match SplitYearMonth(s)
    case None => None
    case Some((y, m, tail)) =>
      if IsDayToken(tail) then MakeDate(y, m, DayValue(tail)) else None
  }

  /** `datetime.strptime(s, "%Y.%m.%d %H:%M")`, or `None` where it raises. */
  function ParseStamp(s: string): (r: Option<Stamp>)
    ensures r.Some? ==> ValidStamp(r.value)
  {
    match SplitYearMonth(s)
    case None => None
    case Some((y, m, tail)) => ParseDayTime(y, m, tail)
  }

  /** The `%d %H:%M` part of a stamp whose year and month are already read. */
  function ParseDayTime(y: int, m: int, tail: string): (r: Option<Stamp>)
    ensures r.Some? ==> ValidStamp(r.value)
  {
    match SplitDay(tail)
    case None => None
    case Some((d, time)) =>
      match SplitField(time, ':')
      case None => None
      case Some((h, mm)) =>
        if !IsHourToken(h) || !IsMinuteToken(mm) then None
        else
          match MakeDate(y, m, DayValue(d))
          case None => None
          case Some(date) => Some(Stamp(date, HourValue(h), MinuteValue(mm)))
  }

  /** `inspect_date_format`: whether `s` is accepted as `%Y.%m.%d`. */
  function InspectDateFormat(s: string): bool {
    ParseDate(s).Some?
  }

  // ---------------------------------------------------------------------
  // The canonical zero-padded rendering the listing site uses, and the
  // round trips through the parsers.

  function DigitChar(k: nat): (c: char)
    requires k < 10
    ensures IsAsciiDigit(c) && DigitValue(c) == k
  {
    ('0' as int + k) as char
  }

  function Pad2(n: nat): string
    requires n < 100
  {
    [DigitChar(n / 10), DigitChar(n % 10)]
  }

  function Pad4(n: nat): string
    requires n < 10000
  {
    Pad2(n / 100) + Pad2(n % 100)
  }

  /** `YYYY.MM.DD` */
  function FormatDate(d: Date): string
    requires ValidDate(d)
  {
    Pad4(d.year) + "." + Pad2(d.month) + "." + Pad2(d.day)
  }

  /** `YYYY.MM.DD HH:MM` */
  function FormatStamp(st: Stamp): string
    requires ValidStamp(st)
  {
    FormatDate(st.date) + " " + Pad2(st.hour) + ":" + Pad2(st.minute)
  }

  lemma Pad4Value(n: nat)
    requires n < 10000
    ensures AllDigits(Pad4(n)) && YearValue(Pad4(n)) == n
  {
    Pad2Value(n / 100);
    Pad2Value(n % 100);
    assert Pad4(n)[..2] == Pad2(n / 100) && Pad4(n)[2..] == Pad2(n % 100);
  }

  lemma Pad2Value(n: nat)
    requires n < 100
    ensures AllDigits(Pad2(n)) && SmallValue(Pad2(n)) == n
  {
  }

  /** The year-and-month prefix of a canonical rendering is read back. */
  lemma SplitYearMonthCanonical(d: Date, rest: string)
    requires ValidDate(d)
    ensures SplitYearMonth(Pad4(d.year) + "." + Pad2(d.month) + "." + rest)
         == Some((d.year, d.month, rest))
  {
    var s := Pad4(d.year) + "." + Pad2(d.month) + "." + rest;
    Pad4Value(d.year);
    Pad2Value(d.month);
    assert s[..4] == Pad4(d.year);
    assert s[4] == '.';
    var r := s[5..];
    assert r == Pad2(d.month) + "." + rest;
    assert r[..2] == Pad2(d.month) && r[2] == '.' && r[3..] == rest;
    assert r[1] != '.';
    assert IsMonthToken(r[..2]);
  }

  /** Every valid date survives a trip through its canonical text. */
  lemma ParseFormatDate(d: Date)
    requires ValidDate(d)
    ensures ParseDate(FormatDate(d)) == Some(d)
  {
    SplitYearMonthCanonical(d, Pad2(d.day));
    assert FormatDate(d) == Pad4(d.year) + "." + Pad2(d.month) + "." + Pad2(d.day);
    Pad2Value(d.day);
    assert IsDayToken(Pad2(d.day));
  }

  /** Every valid stamp survives a trip through its canonical text. */
  lemma ParseFormatStamp(st: Stamp)
    requires ValidStamp(st)
    ensures ParseStamp(FormatStamp(st)) == Some(st)
  {
    var d := st.date;
    var time := Pad2(st.hour) + ":" + Pad2(st.minute);
    var tail := Pad2(d.day) + " " + time;
    assert tail == Pad2(d.day) + " " + Pad2(st.hour) + ":" + Pad2(st.minute);
    assert FormatStamp(st) == Pad4(d.year) + "." + Pad2(d.month) + "." + tail;
    SplitYearMonthCanonical(d, tail);
    ParseDayTimeCanonical(st);
  }

  lemma ParseDayTimeCanonical(st: Stamp)
    requires ValidStamp(st)
    ensures ParseDayTime(st.date.year, st.date.month, Pad2(st.date.day) + " " + Pad2(st.hour) + ":" + Pad2(st.minute)) == Some(st)
  {
    var dd, hh, mm := Pad2(st.date.day), Pad2(st.hour), Pad2(st.minute);
    var time := hh + ":" + mm;
    assert dd + " " + time == dd + " " + hh + ":" + mm;
    SplitDayCanonical(st.date.day, time);
    assert SplitDay(dd + " " + time) == Some((dd, time));
    SplitHourCanonical(st.hour, mm);
    assert SplitField(time, ':') == Some((hh, mm));
    Pad2Value(st.date.day);
    Pad2Value(st.hour);
    Pad2Value(st.minute);
    assert IsHourToken(hh) && HourValue(hh) == st.hour;
    assert IsMinuteToken(mm) && MinuteValue(mm) == st.minute;
    assert DayValue(dd) == st.date.day;
    assert MakeDate(st.date.year, st.date.month, st.date.day) == Some(st.date);
  }

  /** A two-digit day followed by one space and a digit-led time splits there. */
  lemma SplitDayCanonical(day: nat, time: string)
    requires 1 <= day <= 31 && time != [] && IsAsciiDigit(time[0])
    ensures SplitDay(Pad2(day) + " " + time) == Some((Pad2(day), time))
  {
    var p := Pad2(day);
    var tail := p + " " + time;
    Pad2DayToken(day);
    assert tail[0] == p[0] && tail[1] == p[1] && tail[2] == ' ';
    assert tail[..2] == p;
    assert tail[2..] == " " + time;
    assert !IsSpace(tail[0]) && !IsSpace(tail[1]) && IsSpace(tail[2]);
    assert forall k :: 0 <= k < 2 ==> !IsSpace(tail[k]);
    assert !IsSpace(time[0]);
    TrimOneSpace(time);
    SplitDayAt(tail, 2);
  }

  /** A zero-padded day is a `%d` token of two digits. */
  lemma Pad2DayToken(day: nat)
    requires 1 <= day <= 31
    ensures |Pad2(day)| == 2 && IsAsciiDigit(Pad2(day)[0]) && IsAsciiDigit(Pad2(day)[1])
    ensures IsDayToken(Pad2(day))
  {
    var p := Pad2(day);
    assert DigitValue(p[0]) == day / 10 && DigitValue(p[1]) == day % 10;
    if day / 10 == 0 {
      assert InRange(p[1], '1', '9');
    } else if day / 10 == 3 {
      assert InRange(p[1], '0', '1');
    }
  }

  lemma TrimOneSpace(t: string)
    requires t != [] && !IsSpace(t[0])
    ensures TrimLeft(" " + t) == t
  {
    assert (" " + t)[1..] == t;
  }

  /** `SplitDay` on a digit-led text whose first word is `n` characters long. */
  lemma SplitDayAt(r: string, n: nat)
    requires n < |r| && r[0] != ' ' && IsSpace(r[n])
    requires forall k :: 0 <= k < n ==> !IsSpace(r[k])
    requires IsDayToken(r[..n])
    ensures SplitDay(r) == Some((r[..n], TrimLeft(r[n..])))
  {
    assert r[0..] == r;
    WordLengthAt(r, n);
  }

  lemma SplitHourCanonical(hour: nat, rest: string)
    requires hour <= 23
    ensures SplitField(Pad2(hour) + ":" + rest, ':') == Some((Pad2(hour), rest))
  {
    var time := Pad2(hour) + ":" + rest;
    Pad2Value(hour);
    assert time[1] != ':' && time[2] == ':' && time[..2] == Pad2(hour) && time[3..] == rest;
    assert IsHourToken(Pad2(hour));
  }

  lemma WordLengthAt(t: string, n: nat)
    requires n < |t| && IsSpace(t[n])
    requires forall k :: 0 <= k < n ==> !IsSpace(t[k])
    ensures WordLength(t) == n
  {
  }

  /** The empty string is no date, so an empty bound never passes the gate. */
  lemma EmptyIsNoDate()
    ensures !InspectDateFormat("")
  {
  }

  /** Unpadded fields and the leading-space day are accepted. */
  lemma ParseDateUnpadded()
    ensures ParseDate("2023.5.1") == Some(Date(2023, 5, 1))
    ensures ParseDate("2023.05. 1") == Some(Date(2023, 5, 1))
  {
    var s1, s2 := "2023.5.1", "2023.05. 1";
    assert s1[..4] == "2023" && s1[5..] == "5.1" && "5.1"[..1] == "5" && "5.1"[2..] == "1";
    assert s2[..4] == "2023" && s2[5..] == "05. 1" && "05. 1"[..2] == "05" && "05. 1"[3..] == " 1";
    assert "2023"[..2] == "20" && "2023"[2..] == "23";
  }

  /** A leap day exists in 2024 and not in 2023. */
  lemma ParseDateLeapDay()
    ensures ParseDate("2024.02.29") == Some(Date(2024, 2, 29))
    ensures ParseDate("2023.02.29") == None
  {
    var s1, s2 := "2024.02.29", "2023.02.29";
    assert s1[..4] == "2024" && s1[5..] == "02.29" && "02.29"[..2] == "02" && "02.29"[3..] == "29";
    assert s2[..4] == "2023" && s2[5..] == "02.29";
    assert "2024"[..2] == "20" && "2024"[2..] == "24";
    assert "2023"[..2] == "20" && "2023"[2..] == "23";
  }

  // ---------------------------------------------------------------------
  // The regular language of `%Y.%m.%d`, stated directly: four digits, a
  // dot, a `%m` token, a dot, a `%d` token, nothing after it. `i` is the
  // position of the second dot.

  ghost predicate DateMatch(s: string, i: int, d: Date) {
    && 6 <= i < |s|
    && AllDigits(s[..4]) && s[4] == '.'
    && s[i] == '.' && IsMonthToken(s[5..i]) && IsDayToken(s[i + 1..])
    && d == Date(YearValue(s[..4]), MonthValue(s[5..i]), DayValue(s[i + 1..]))
    && ValidDate(d)
  }

  /** `ParseDate` accepts exactly the texts in the language of `%Y.%m.%d`
      whose fields form a real date, and reads the date the fields spell.
      Finding the second dot picks the right `%m` alternative because
      none of them contains a dot. */
  lemma ParseDateIsRegexMatch(s: string, d: Date)
    ensures ParseDate(s) == Some(d) <==> exists i :: DateMatch(s, i, d)
  {
    if ParseDate(s) == Some(d) {
      var r := s[5..];
      var (m, tail) := SplitField(r, '.').value;
      var i := 5 + |m|;
      assert s[5..i] == m && s[i] == '.' && s[i + 1..] == tail;
      assert DateMatch(s, i, d);
    }
    if i :| DateMatch(s, i, d) {
      DateMatchParses(s, i, d);
    }
  }

  lemma DateMatchParses(s: string, i: int, d: Date)
    requires DateMatch(s, i, d)
    ensures ParseDate(s) == Some(d)
  {
    var r := s[5..];
    var m := s[5..i];
    assert r[|m|] == s[i] == '.';
    if |m| == 1 {
      assert r[..1] == m && r[2..] == s[i + 1..];
    } else {
      assert r[1] == m[1] && m[1] != '.';
      assert r[..2] == m && r[3..] == s[i + 1..];
    }
    assert SplitField(r, '.') == Some((m, s[i + 1..]));
  }

  /** Year 0 and trailing text are rejected. */
  lemma ParseDateRejects()
    ensures ParseDate("0000.01.01") == None
    ensures ParseDate("2023.05.01 ") == None
  {
    var s1, s2 := "0000.01.01", "2023.05.01 ";
    assert s1[..4] == "0000" && s1[5..] == "01.01" && "01.01"[..2] == "01" && "01.01"[3..] == "01";
    assert "0000"[..2] == "00" && "0000"[2..] == "00";
    assert s2[..4] == "2023" && s2[5..] == "05.01 " && "05.01 "[..2] == "05" && "05.01 "[3..] == "01 ";
  }
}
