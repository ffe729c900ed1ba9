/**
 * The java.time.format.DateTimeFormatter instances the program builds with
 * DateTimeFormatter.ofPattern. Every one of them has the shape
 * "yyyy<d>MM<d>dd<m>HH<t>mm<t>ss" (or its date part alone) for fixed
 * separator strings d, m and t. Every numeric field but the year has a fixed
 * width of two digits; the year-of-era prints as four digits, or as '+'
 * and all its digits when it is wider. Parsing reads exactly four year
 * digits and follows the default SMART resolver of java.time.
 */
module Formats {
  import opened Wrappers
  import opened Time

  /** The separators of a pattern "yyyy<dateSep>MM<dateSep>dd<middle>HH<timeSep>mm<timeSep>ss". */
  datatype Layout = Layout(dateSep: string, middle: string, timeSep: string)

  /** The pattern a layout stands for, as it is written for DateTimeFormatter.ofPattern. */
  function PatternText(l: Layout): string {
    "yyyy" + l.dateSep + "MM" + l.dateSep + "dd" + l.middle + "HH" + l.timeSep + "mm" + l.timeSep + "ss"
  }

  /** String.replace on a pattern text: every occurrence of character a becomes b. */
  function ReplaceChar(s: string, a: char, b: char): (r: string)
    ensures |r| == |s|
    ensures forall i :: 0 <= i < |s| ==> r[i] == (if s[i] == a then b else s[i])
  {
    seq(|s|, i requires 0 <= i < |s| => if s[i] == a then b else s[i])
  }

  // ---- Decimal digits ----------------------------------------------------

  predicate IsDigit(c: char) {
    '0' <= c <= '9'
  }

  function DigitValue(c: char): nat
    requires IsDigit(c)
  {
    (c as int - '0' as int) as nat
  }

  function DigitChar(d: nat): (c: char)
    requires d < 10
    ensures IsDigit(c) && DigitValue(c) == d
  {
    ('0' as int + d) as char
  }

  /** A value below 100 printed on exactly two digits, zero-padded. */
  function Pad2(v: nat): (r: string)
    requires v < 100
    ensures |r| == 2 && IsDigit(r[0]) && IsDigit(r[1])
  {
    [DigitChar(v / 10), DigitChar(v % 10)]
  }

  /** A value below 10000 printed on exactly four digits, zero-padded. */
  function Pad4(v: nat): (r: string)
    requires v < 10000
    ensures |r| == 4 && forall i :: 0 <= i < 4 ==> IsDigit(r[i])
  {
    Pad2(v / 100) + Pad2(v % 100)
  }

  /** The value of two decimal digits, or None if a character is not an ASCII digit. */
  function Read2(s: string): (r: Option<nat>)
    requires |s| == 2
    ensures r.Some? ==> r.value < 100
  {
    if IsDigit(s[0]) && IsDigit(s[1]) then Some(10 * DigitValue(s[0]) + DigitValue(s[1])) else None
  }

  /** The value of four decimal digits, or None if a character is not an ASCII digit. */
  function Read4(s: string): (r: Option<nat>)
    requires |s| == 4
    ensures r.Some? ==> r.value < 10000
  {
    match (Read2(s[..2]), Read2(s[2..]))
    case (Some(hi), Some(lo)) => Some(100 * hi + lo)
    case _ => None
  }

  lemma Read2Pad2(v: nat)
    requires v < 100
    ensures Read2(Pad2(v)) == Some(v)
  {
  }

  lemma Read4Pad4(v: nat)
    requires v < 10000
    ensures Read4(Pad4(v)) == Some(v)
  {
    var s := Pad4(v);
    assert s[..2] == Pad2(v / 100) && s[2..] == Pad2(v % 100);
  }

  // ---- Formatting ----------------------------------------------------------

  /** The value of ChronoField.YEAR_OF_ERA, which pattern letter 'y' prints: year 0 is 1 BCE. */
  function YearOfEra(year: int): (r: nat)
    ensures r >= 1
  {
    if year >= 1 then year else 1 - year
  }

  /** A natural number in decimal, without leading zeros. */
  function Decimal(v: nat): (r: string)
    ensures |r| >= 1 && forall i :: 0 <= i < |r| ==> IsDigit(r[i])
    ensures v < 10 <==> |r| == 1
  {
    if v < 10 then [DigitChar(v)] else Decimal(v / 10) + [DigitChar(v % 10)]
  }

  /** The date-times whose year-of-era fits the four digits of "yyyy". */
  predicate FourDigitYear(t: LocalDateTime) {
    YearOfEra(t.year) < 10000
  }

  /**
   * DateTimeFormatter.ofPattern("yyyy").format(t). Four letters print at
   * least four digits with the sign style EXCEEDS_PAD: a wider value is
   * printed in full behind a '+'.
   */
  function FormatYear(t: LocalDateTime): (r: string)
    ensures FourDigitYear(t) ==> |r| == 4 && forall i :: 0 <= i < 4 ==> IsDigit(r[i])
    ensures !FourDigitYear(t) ==> |r| >= 2 && r[0] == '+' && forall i :: 1 <= i < |r| ==> IsDigit(r[i])
  {
    var v := YearOfEra(t.year);
    if v < 10000 then Pad4(v) else "+" + Decimal(v)
  }

  /** The date part "yyyy<sep>MM<sep>dd" of a pattern, formatted. */
  function FormatDate(t: LocalDateTime, sep: string): (r: string)
    ensures FourDigitYear(t) ==> |r| == 8 + 2 * |sep|
    ensures |r| >= 8 + 2 * |sep|
  {
    FormatYear(t) + (sep + (Pad2(t.month) + (sep + Pad2(t.day))))
  }

  /** The time part "HH<sep>mm<sep>ss" of a pattern, formatted. */
  function FormatTime(t: LocalDateTime, sep: string): (r: string)
    ensures |r| == 6 + 2 * |sep|
  {
    Pad2(t.hour) + (sep + (Pad2(t.minute) + (sep + Pad2(t.second))))
  }

  /** DateTimeFormatter.ofPattern(PatternText(l)).format(t). */
  function Format(l: Layout, t: LocalDateTime): (r: string)
    ensures FourDigitYear(t) ==> |r| == 14 + 2 * |l.dateSep| + |l.middle| + 2 * |l.timeSep|
  {
    FormatDate(t, l.dateSep) + (l.middle + FormatTime(t, l.timeSep))
  }

  /** A formatted date-time holds digits, '+' and the layout's separators, nothing else. */
  lemma FormatAvoids(l: Layout, t: LocalDateTime, c: char)
    requires !IsDigit(c) && c != '+' && c !in l.dateSep && c !in l.middle && c !in l.timeSep
    ensures c !in Format(l, t)
  {
    var y := FormatYear(t);
    assert c !in y by {
      if FourDigitYear(t) {
        assert forall i :: 0 <= i < |y| ==> IsDigit(y[i]);
      }
    }
    var m, d := Pad2(t.month), Pad2(t.day);
    var h, mi, se := Pad2(t.hour), Pad2(t.minute), Pad2(t.second);
    assert c !in m && c !in d && c !in h && c !in mi && c !in se;
    assert Format(l, t) == y + (l.dateSep + (m + (l.dateSep + d))) + (l.middle + (h + (l.timeSep + (mi + (l.timeSep + se)))));
  }

  // ---- Parsing -------------------------------------------------------------

  /** The fields a pattern reads before resolution, as printed (year-of-era, not year). */
  datatype ParsedDate = ParsedDate(yearOfEra: nat, month: nat, day: nat)
  datatype ParsedTime = ParsedTime(hour: nat, minute: nat, second: nat)

  /** Removes the literal lit from the front of s. */
  function TakeLiteral(s: string, lit: string): (r: Option<string>)
    ensures r.Some? <==> |lit| <= |s| && s[..|lit|] == lit
    ensures r.Some? ==> r.value == s[|lit|..]
  {
    if |lit| <= |s| && s[..|lit|] == lit then Some(s[|lit|..]) else None
  }

  function Take2(s: string): (r: Option<(nat, string)>)
    ensures r.Some? ==> |s| >= 2 && r.value.1 == s[2..] && Read2(s[..2]) == Some(r.value.0)
  {
    if |s| < 2 then None
    else match Read2(s[..2])
      case Some(v) => Some((v, s[2..]))
      case None => None
  }

  /** A year field read as exactly four digits; a '+'-signed wider year is not read. */
  function Take4(s: string): (r: Option<(nat, string)>)
    ensures r.Some? ==> |s| >= 4 && r.value.1 == s[4..] && Read4(s[..4]) == Some(r.value.0)
  {
    if |s| < 4 then None
    else match Read4(s[..4])
      case Some(v) => Some((v, s[4..]))
      case None => None
  }

  /** Reads "yyyy<sep>MM<sep>dd" from the front of s; returns the fields and the rest. */
  function ParseDatePart(s: string, sep: string): Option<(ParsedDate, string)> {
    var (y, s1) :- Take4(s);
    var s2 :- TakeLiteral(s1, sep);
    var (m, s3) :- Take2(s2);
    var s4 :- TakeLiteral(s3, sep);
    var (d, s5) :- Take2(s4);
    Some((ParsedDate(y, m, d), s5))
  }

  /** Reads "HH<sep>mm<sep>ss" from the front of s; returns the fields and the rest. */
  function ParseTimePart(s: string, sep: string): Option<(ParsedTime, string)> {
    var (h, s1) :- Take2(s);
    var s2 :- TakeLiteral(s1, sep);
    var (mi, s3) :- Take2(s2);
    var s4 :- TakeLiteral(s3, sep);
    var (se, s5) :- Take2(s4);
    Some((ParsedTime(h, mi, se), s5))
  }

  /** The parsing phase of DateTimeFormatter.parse: the whole text must match the pattern. */
  function ParseFields(l: Layout, s: string): Option<(ParsedDate, ParsedTime)> {
    var (d, s1) :- ParseDatePart(s, l.dateSep);
    var s2 :- TakeLiteral(s1, l.middle);
    var (t, s3) :- ParseTimePart(s2, l.timeSep);
    if s3 == [] then Some((d, t)) else None
  }

  /**
   * Resolution of year-of-era, month and day under ResolverStyle.SMART:
   * a year-of-era of at least 1 without an era is the proleptic year, the month
   * must be 1..12, the day 1..31, and a day past the end of the month is
   * clamped to the month's last day.
   */
  function ResolveDate(p: ParsedDate): (r: Option<LocalDate>)
    ensures r.Some? <==> p.yearOfEra >= 1 && 1 <= p.month <= 12 && 1 <= p.day <= 31
    ensures r.Some? ==> r.value.year == p.yearOfEra && r.value.month == p.month
    ensures r.Some? ==> r.value.day == if p.day <= DaysInMonth(p.yearOfEra, p.month) then p.day
                                        else DaysInMonth(p.yearOfEra, p.month)
  {
    if p.yearOfEra < 1 || p.month < 1 || p.month > 12 || p.day < 1 || p.day > 31 then None
    else
      var dim := DaysInMonth(p.yearOfEra, p.month);
      Some(DateFields(p.yearOfEra, p.month, if p.day <= dim then p.day else dim))
  }

  /**
   * Resolution of a date with a time of day under ResolverStyle.SMART: minute
   * and second must be in range; hour 24 is accepted only as 24:00:00, the
   * midnight that ends the day, and then moves the date to the next day.
   */
  function ResolveDateTime(p: ParsedDate, q: ParsedTime): (r: Option<LocalDateTime>)
    ensures r.Some? <==> ResolveDate(p).Some? && q.minute < 60 && q.second < 60
                         && (q.hour < 24 || (q.hour == 24 && q.minute == 0 && q.second == 0))
    ensures r.Some? && q.hour < 24 ==> r.value == AtTime(ResolveDate(p).value, q.hour, q.minute, q.second)
    ensures r.Some? && q.hour == 24 ==> r.value == AtStartOfDay(NextDay(ResolveDate(p).value))
  {
    var date :- ResolveDate(p);
    if q.minute > 59 then None
    else if q.hour == 24 && q.minute == 0 && q.second == 0 then Some(AtStartOfDay(NextDay(date)))
    else if q.hour > 23 || q.second > 59 then None
    else Some(AtTime(date, q.hour, q.minute, q.second))
  }

  /** LocalDateTime.parse(s, ofPattern(PatternText(l))), None where java.time throws DateTimeParseException. */
  function ParseDateTime(l: Layout, s: string): Option<LocalDateTime> {
    var (d, t) :- ParseFields(l, s);
    ResolveDateTime(d, t)
  }

  /** LocalDate.parse(s, ofPattern("yyyy<sep>MM<sep>dd")), None where java.time throws. */
  function ParseDate(s: string, sep: string): Option<LocalDate> {
    var (d, rest) :- ParseDatePart(s, sep);
    if rest == [] then ResolveDate(d) else None
  }

  // ---- Round trip ------------------------------------------------------------

  lemma Take2Pad2(v: nat, rest: string)
    requires v < 100
    ensures Take2(Pad2(v) + rest) == Some((v, rest))
  {
    var s := Pad2(v) + rest;
    assert s[..2] == Pad2(v) && s[2..] == rest;
    Read2Pad2(v);
  }

  lemma Take4Pad4(v: nat, rest: string)
    requires v < 10000
    ensures Take4(Pad4(v) + rest) == Some((v, rest))
  {
    var s := Pad4(v) + rest;
    assert s[..4] == Pad4(v) && s[4..] == rest;
    Read4Pad4(v);
  }

  lemma TakeLiteralPrefix(lit: string, rest: string)
    ensures TakeLiteral(lit + rest, lit) == Some(rest)
  {
    assert (lit + rest)[..|lit|] == lit && (lit + rest)[|lit|..] == rest;
  }

  lemma {:induction false} ParseDatePartFormat(t: LocalDateTime, sep: string, rest: string)
    requires FourDigitYear(t)
    ensures ParseDatePart(FormatDate(t, sep) + rest, sep)
            == Some((ParsedDate(YearOfEra(t.year), t.month, t.day), rest))
  {
    var sd, sm := Pad2(t.day), Pad2(t.month);
    assert FormatDate(t, sep) + rest == Pad4(YearOfEra(t.year)) + (sep + (sm + (sep + (sd + rest))));
    Take4Pad4(YearOfEra(t.year), sep + (sm + (sep + (sd + rest))));
    TakeLiteralPrefix(sep, sm + (sep + (sd + rest)));
    Take2Pad2(t.month, sep + (sd + rest));
    TakeLiteralPrefix(sep, sd + rest);
    Take2Pad2(t.day, rest);
  }

  lemma {:induction false} ParseTimePartFormat(t: LocalDateTime, sep: string, rest: string)
    ensures ParseTimePart(FormatTime(t, sep) + rest, sep)
            == Some((ParsedTime(t.hour, t.minute, t.second), rest))
  {
    var sh, sm, ss := Pad2(t.hour), Pad2(t.minute), Pad2(t.second);
    assert FormatTime(t, sep) + rest == sh + (sep + (sm + (sep + (ss + rest))));
    Take2Pad2(t.hour, sep + (sm + (sep + (ss + rest))));
    TakeLiteralPrefix(sep, sm + (sep + (ss + rest)));
    Take2Pad2(t.minute, sep + (ss + rest));
    TakeLiteralPrefix(sep, ss + rest);
    Take2Pad2(t.second, rest);
  }

  /** Raw field values that fit their printed widths. */
  predicate PrintableDate(p: ParsedDate) {
    p.yearOfEra < 10000 && p.month < 100 && p.day < 100
  }

  predicate PrintableTime(q: ParsedTime) {
    q.hour < 100 && q.minute < 100 && q.second < 100
  }

  /** "yyyy<sep>MM<sep>dd" showing raw field values, valid or not. */
  function DateText(p: ParsedDate, sep: string): string
    requires PrintableDate(p)
  {
    Pad4(p.yearOfEra) + (sep + (Pad2(p.month) + (sep + Pad2(p.day))))
  }

  /** "HH<sep>mm<sep>ss" showing raw field values, valid or not. */
  function TimeText(q: ParsedTime, sep: string): string
    requires PrintableTime(q)
  {
    Pad2(q.hour) + (sep + (Pad2(q.minute) + (sep + Pad2(q.second))))
  }

  /** The whole text of a layout showing raw field values. */
  function FieldsText(l: Layout, p: ParsedDate, q: ParsedTime): string
    requires PrintableDate(p) && PrintableTime(q)
  {
    DateText(p, l.dateSep) + (l.middle + TimeText(q, l.timeSep))
  }

  lemma {:induction false} ParseDatePartText(p: ParsedDate, sep: string, rest: string)
    requires PrintableDate(p)
    ensures ParseDatePart(DateText(p, sep) + rest, sep) == Some((p, rest))
  {
    var sd, sm := Pad2(p.day), Pad2(p.month);
    assert DateText(p, sep) + rest == Pad4(p.yearOfEra) + (sep + (sm + (sep + (sd + rest))));
    Take4Pad4(p.yearOfEra, sep + (sm + (sep + (sd + rest))));
    TakeLiteralPrefix(sep, sm + (sep + (sd + rest)));
    Take2Pad2(p.month, sep + (sd + rest));
    TakeLiteralPrefix(sep, sd + rest);
    Take2Pad2(p.day, rest);
  }

  lemma {:induction false} ParseTimePartText(q: ParsedTime, sep: string, rest: string)
    requires PrintableTime(q)
    ensures ParseTimePart(TimeText(q, sep) + rest, sep) == Some((q, rest))
  {
    var sh, sm, ss := Pad2(q.hour), Pad2(q.minute), Pad2(q.second);
    assert TimeText(q, sep) + rest == sh + (sep + (sm + (sep + (ss + rest))));
    Take2Pad2(q.hour, sep + (sm + (sep + (ss + rest))));
    TakeLiteralPrefix(sep, sm + (sep + (ss + rest)));
    Take2Pad2(q.minute, sep + (ss + rest));
    TakeLiteralPrefix(sep, ss + rest);
    Take2Pad2(q.second, rest);
  }

  /**
   * The parsing phase reads back any printable field values, so text in
   * the layout's shape is accepted or rejected by the resolver alone.
   */
  lemma {:induction false} ParseFieldsText(l: Layout, p: ParsedDate, q: ParsedTime)
    requires PrintableDate(p) && PrintableTime(q)
    ensures ParseFields(l, FieldsText(l, p, q)) == Some((p, q))
    ensures ParseDateTime(l, FieldsText(l, p, q)) == ResolveDateTime(p, q)
  {
    var tt := TimeText(q, l.timeSep);
    ParseDatePartText(p, l.dateSep, l.middle + tt);
    TakeLiteralPrefix(l.middle, tt);
    assert tt == tt + [];
    ParseTimePartText(q, l.timeSep, []);
  }

  /** A date text is accepted exactly when its raw fields resolve. */
  lemma {:induction false} ParseDateText(p: ParsedDate, sep: string)
    requires PrintableDate(p)
    ensures ParseDate(DateText(p, sep), sep) == ResolveDate(p)
  {
    assert DateText(p, sep) == DateText(p, sep) + [];
    ParseDatePartText(p, sep, []);
  }

  /** Parsing what a formatter printed gives back the date-time, for years 1 to 9999. */
  lemma {:induction false} ParseFormat(l: Layout, t: LocalDateTime)
    requires 1 <= t.year <= 9999
    ensures ParseDateTime(l, Format(l, t)) == Some(t)
  {
    var ft := FormatTime(t, l.timeSep);
    assert Format(l, t) == FormatDate(t, l.dateSep) + (l.middle + ft);
    ParseDatePartFormat(t, l.dateSep, l.middle + ft);
    TakeLiteralPrefix(l.middle, ft);
    assert ft == ft + [];
    ParseTimePartFormat(t, l.timeSep, []);
  }

  /** Two date-times (years 1 to 9999) that print the same under one layout are equal. */
  lemma FormatInjective(l: Layout, a: LocalDateTime, b: LocalDateTime)
    requires 1 <= a.year <= 9999 && 1 <= b.year <= 9999
    requires Format(l, a) == Format(l, b)
    ensures a == b
  {
    ParseFormat(l, a);
    ParseFormat(l, b);
  }
}
