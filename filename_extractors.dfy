/**
 * The extractors that read a date from a file's base name:
 * BaseFileNameDateExtractor and its two subclasses, FinalFileNameDateExtractor
 * (the program's own output names) and FromCameraFileNameDateExtractor.
 */
module FileNameExtractors {
  import opened Wrappers
  import opened Time
  import opened Formats
  import opened JavaStrings
  import opened Stamps
  import opened FileTypes

  // ---- BaseFileNameDateExtractor --------------------------------------------

  /**
   * BaseFileNameDateExtractor.parse: null stays null; otherwise the result of
   * the first formatter that parses the whole input, parse failures being
   * swallowed, or null when every formatter fails.
   */
  function ParseWithFormatters(formatters: seq<Layout>, input: Option<string>): (r: Option<LocalDateTime>)
    ensures input.None? ==> r.None?
    ensures input.Some? ==>
      (r.None? <==> forall i :: 0 <= i < |formatters| ==> ParseDateTime(formatters[i], input.value).None?)
    ensures r.Some? ==> exists i :: 0 <= i < |formatters| && ParseDateTime(formatters[i], input.value) == r
                          && forall j :: 0 <= j < i ==> ParseDateTime(formatters[j], input.value).None?
    decreases |formatters|
  {
    if input.None? || formatters == [] then None
    else match ParseDateTime(formatters[0], input.value)
      case Some(t) => Some(t)
      case None =>
        var r := ParseWithFormatters(formatters[1..], input);
        FirstFormatterFails(formatters, l => ParseDateTime(l, input.value), r);
        r
  }

  /** When the first formatter fails, the outcome of the rest is the outcome of all. */
  lemma FirstFormatterFails(formatters: seq<Layout>, parse: Layout -> Option<LocalDateTime>, r: Option<LocalDateTime>)
    requires formatters != [] && parse(formatters[0]).None?
    requires r.None? <==> forall i :: 0 <= i < |formatters[1..]| ==> parse(formatters[1..][i]).None?
    requires r.Some? ==> exists i :: 0 <= i < |formatters[1..]| && parse(formatters[1..][i]) == r
                          && forall j :: 0 <= j < i ==> parse(formatters[1..][j]).None?
    ensures r.None? <==> forall i :: 0 <= i < |formatters| ==> parse(formatters[i]).None?
    ensures r.Some? ==> exists i :: 0 <= i < |formatters| && parse(formatters[i]) == r
                          && forall j :: 0 <= j < i ==> parse(formatters[j]).None?
  {
    var rest := formatters[1..];
    if r.Some? {
      var i :| 0 <= i < |rest| && parse(rest[i]) == r && forall j :: 0 <= j < i ==> parse(rest[j]).None?;
      assert parse(formatters[i + 1]) == r;
      forall j | 0 <= j < i + 1 ensures parse(formatters[j]).None? {
        if j > 0 { assert formatters[j] == rest[j - 1]; }
      }
    } else {
      forall i | 0 <= i < |formatters| ensures parse(formatters[i]).None? {
        if i > 0 { assert formatters[i] == rest[i - 1]; }
      }
    }
  }

  // ---- FinalFileNameDateExtractor ---------------------------------------------

  /** FILE_NAME_TARGET_FORMATTER, "yyyy-MM-dd HH.mm.ss": the names the program gives its output. */
  const FileNameTargetLayout := Layout("-", " ", ".")

  /** String.replace(a, b) applied to the literals of a layout. */
  function ReplaceInLayout(l: Layout, a: char, b: char): Layout {
    Layout(ReplaceChar(l.dateSep, a, b), ReplaceChar(l.middle, a, b), ReplaceChar(l.timeSep, a, b))
  }

  /** FILE_NAME_TARGET_FORMAT with '.' replaced by '-', then by ':'. */
  const FileNameAlternative1Layout := ReplaceInLayout(FileNameTargetLayout, '.', '-')
  const FileNameAlternative2Layout := ReplaceInLayout(FileNameTargetLayout, '.', ':')

  /** The formatters FinalFileNameDateExtractor passes to its base, in order. */
  const FinalFormatters := [FileNameTargetLayout, FileNameAlternative1Layout, FileNameAlternative2Layout]

  lemma ReplaceConcat(a: string, b: string, x: char, y: char)
    ensures ReplaceChar(a + b, x, y) == ReplaceChar(a, x, y) + ReplaceChar(b, x, y)
  {
  }

  /**
   * Replacing a character that is not a pattern letter inside the layout's
   * literals is the same as replacing it in the pattern text.
   */
  lemma {:induction false} ReplaceInLayoutPattern(l: Layout, a: char, b: char)
    requires a !in "yMdHms"
    ensures PatternText(ReplaceInLayout(l, a, b)) == ReplaceChar(PatternText(l), a, b)
  {
    var y, mo, d, h, mi, s := "yyyy", "MM", "dd", "HH", "mm", "ss";
    assert ReplaceChar(y, a, b) == y && ReplaceChar(mo, a, b) == mo && ReplaceChar(d, a, b) == d;
    assert ReplaceChar(h, a, b) == h && ReplaceChar(mi, a, b) == mi && ReplaceChar(s, a, b) == s;
    var parts := [y, l.dateSep, mo, l.dateSep, d, l.middle, h, l.timeSep, mi, l.timeSep, s];
    var text := y + l.dateSep + mo + l.dateSep + d + l.middle + h + l.timeSep + mi + l.timeSep + s;
    assert PatternText(l) == text;
    var ra, rb, rc := ReplaceChar(l.dateSep, a, b), ReplaceChar(l.middle, a, b), ReplaceChar(l.timeSep, a, b);
    ReplaceConcat(y + l.dateSep + mo + l.dateSep + d + l.middle + h + l.timeSep + mi + l.timeSep, s, a, b);
    ReplaceConcat(y + l.dateSep + mo + l.dateSep + d + l.middle + h + l.timeSep + mi, l.timeSep, a, b);
    ReplaceConcat(y + l.dateSep + mo + l.dateSep + d + l.middle + h + l.timeSep, mi, a, b);
    ReplaceConcat(y + l.dateSep + mo + l.dateSep + d + l.middle + h, l.timeSep, a, b);
    ReplaceConcat(y + l.dateSep + mo + l.dateSep + d + l.middle, h, a, b);
    ReplaceConcat(y + l.dateSep + mo + l.dateSep + d, l.middle, a, b);
    ReplaceConcat(y + l.dateSep + mo + l.dateSep, d, a, b);
    ReplaceConcat(y + l.dateSep + mo, l.dateSep, a, b);
    ReplaceConcat(y + l.dateSep, mo, a, b);
    ReplaceConcat(y, l.dateSep, a, b);
  }

  /** The three patterns, written out. */
  lemma FinalPatterns()
    ensures PatternText(FileNameTargetLayout) == "yyyy-MM-dd HH.mm.ss"
    ensures FileNameAlternative1Layout == Layout("-", " ", "-")
    ensures PatternText(FileNameAlternative1Layout) == ReplaceChar("yyyy-MM-dd HH.mm.ss", '.', '-')
    ensures FileNameAlternative2Layout == Layout("-", " ", ":")
    ensures PatternText(FileNameAlternative2Layout) == ReplaceChar("yyyy-MM-dd HH.mm.ss", '.', ':')
  {
    ReplaceInLayoutPattern(FileNameTargetLayout, '.', '-');
    ReplaceInLayoutPattern(FileNameTargetLayout, '.', ':');
    assert ReplaceChar("-", '.', '-') == "-" && ReplaceChar(" ", '.', '-') == " " && ReplaceChar(".", '.', '-') == "-";
    assert ReplaceChar("-", '.', ':') == "-" && ReplaceChar(" ", '.', ':') == " " && ReplaceChar(".", '.', ':') == ":";
  }

  // ---- FromCameraFileNameDateExtractor ----------------------------------------

  /** The camera formatter "yyyyMMdd HHmmss". */
  const CameraLayout := Layout("", " ", "")

  /** isNumber: every char is a digit (Character.isDigit, here on ASCII); true of "". */
  predicate IsNumber(s: string) {
    forall i :: 0 <= i < |s| ==> IsDigit(s[i])
  }

  /**
   * removePrefix: the date and time tokens of "PREFIX_yyyyMMdd_HHmmss" (or of
   * "yyyyMMdd_HHmmss" when the first part is numeric), joined by a space, or
   * null. Reading the part after the last one throws
   * ArrayIndexOutOfBoundsException.
   */
  function RemovePrefix(fileName: string): (r: Outcome<Option<string>>)
    ensures r.Failure? <==> |Split(fileName, '_')| == 2 && !IsNumber(Split(fileName, '_')[0])
    ensures r.Success? && r.value.Some? ==>
      var split := Split(fileName, '_');
      |split| >= 2 &&
      var dateIndex := if IsNumber(split[0]) then 0 else 1;
      dateIndex + 1 < |split| && |split[dateIndex]| == 8 && |split[dateIndex + 1]| == 6
      && r.value.value == split[dateIndex] + " " + split[dateIndex + 1]
  {
    var split := Split(fileName, '_');
    if |split| < 2 then Success(None)
    else
      var dateIndex := if IsNumber(split[0]) then 0 else 1;
      if dateIndex + 1 >= |split| then Failure(IndexOutOfBounds)
      else
        var date := split[dateIndex];
        var time := split[dateIndex + 1];
        if |date| != 8 || |time| != 6 then Success(None) else Success(Some(date + " " + time))
  }

  /** FromCameraFileNameDateExtractor.parse: removePrefix, then the base parse with the camera formatter. */
  function CameraParse(fileName: string): Outcome<Option<LocalDateTime>> {
    var formatted :- RemovePrefix(fileName);
    Success(ParseWithFormatters([CameraLayout], formatted))
  }

  // ---- The extractors ----------------------------------------------------------

  datatype FileNameDateExtractor = FinalFileNameDateExtractor | FromCameraFileNameDateExtractor

  /** The source tag each subclass passes to the base constructor. */
  function Source(e: FileNameDateExtractor): TimeStampSource {
    match e
    case FinalFileNameDateExtractor => FinalFileName
    case FromCameraFileNameDateExtractor => CameraFileName
  }

  /** parse as each subclass defines it. */
  function Parse(e: FileNameDateExtractor, input: string): Outcome<Option<LocalDateTime>> {
    match e
    case FinalFileNameDateExtractor => Success(ParseWithFormatters(FinalFormatters, Some(input)))
    case FromCameraFileNameDateExtractor => CameraParse(input)
  }

  /** extractSingleDate: the parsed base name, tagged with the extractor's source. */
  function ExtractSingleDate(e: FileNameDateExtractor, file: Path): Outcome<Option<TimeStampWithSource>> {
    var time :- Parse(e, WithoutExtension(file));
    Success(if time.Some? then Some(TimeStampWithSource(Some(time.value), Source(e))) else None)
  }

  /**
   * extractDates: no candidate when the base name (the file name without its
   * extension) does not parse, else one candidate with a non-null time tagged
   * with the extractor's source.
   */
  function ExtractDates(e: FileNameDateExtractor, file: Path): (r: Outcome<seq<TimeStampWithSource>>)
    ensures r.Success? <==> Parse(e, WithoutExtension(file)).Success?
    ensures r.Success? ==> |r.value| <= 1
    ensures r.Success? ==> (r.value == [] <==> Parse(e, WithoutExtension(file)).value.None?)
    ensures r.Success? && r.value != [] ==>
      r.value[0].source == Source(e) && r.value[0].time == Parse(e, WithoutExtension(file)).value
    ensures e.FinalFileNameDateExtractor? ==> r.Success?
  {
    var single :- ExtractSingleDate(e, file);
    Success(if single.Some? then [single.value] else [])
  }

  // ---- Properties of the final-name formats -------------------------------------

  /** A date part with a one-char separator occupies ten chars, the separator at 4 and 7. */
  lemma DatePartShape(s: string, sep: string)
    requires |sep| == 1 && ParseDatePart(s, sep).Some?
    ensures |s| >= 10 && s[4] == sep[0] && s[7] == sep[0] && ParseDatePart(s, sep).value.1 == s[10..]
  {
    var (y, s1) := Take4(s).value;
    var s2 := TakeLiteral(s1, sep).value;
    var (m, s3) := Take2(s2).value;
    var s4 := TakeLiteral(s3, sep).value;
    assert s1 == s[4..] && s2 == s[5..] && s3 == s[7..] && s4 == s[8..];
  }

  /** A time part with a one-char separator occupies eight chars, the separator at 2 and 5. */
  lemma TimePartShape(s: string, sep: string)
    requires |sep| == 1 && ParseTimePart(s, sep).Some?
    ensures |s| >= 8 && s[2] == sep[0] && s[5] == sep[0] && ParseTimePart(s, sep).value.1 == s[8..]
  {
    var (h, s1) := Take2(s).value;
    var s2 := TakeLiteral(s1, sep).value;
    var (m, s3) := Take2(s2).value;
    var s4 := TakeLiteral(s3, sep).value;
    assert s1 == s[2..] && s2 == s[3..] && s3 == s[5..] && s4 == s[6..];
  }

  /** Any text a layout with one-char separators accepts has 19 chars and the separators in place. */
  lemma ParsedShape(l: Layout, s: string)
    requires |l.dateSep| == 1 && |l.middle| == 1 && |l.timeSep| == 1
    requires ParseFields(l, s).Some?
    ensures |s| == 19
    ensures s[4] == l.dateSep[0] && s[7] == l.dateSep[0] && s[10] == l.middle[0]
    ensures s[13] == l.timeSep[0] && s[16] == l.timeSep[0]
  {
    DatePartShape(s, l.dateSep);
    var s1 := s[10..];
    var s2 := TakeLiteral(s1, l.middle).value;
    assert s2 == s[11..];
    TimePartShape(s2, l.timeSep);
    assert ParseTimePart(s2, l.timeSep).value.1 == [];
  }

  /**
   * Every base name the final-name extractor accepts is "dddd-dd-dd dd?dd?dd"
   * with one time separator ? used twice and chosen from '.', '-' and ':'; so
   * trailing text is rejected, the date separator is always '-' and the time
   * separators are never mixed.
   */
  lemma FinalNameShape(s: string)
    requires ParseWithFormatters(FinalFormatters, Some(s)).Some?
    ensures |s| == 19 && s[4] == '-' && s[7] == '-' && s[10] == ' '
    ensures s[13] == s[16] && (s[13] == '.' || s[13] == '-' || s[13] == ':')
  {
    FinalPatterns();
    ParseWithThree(FileNameTargetLayout, FileNameAlternative1Layout, FileNameAlternative2Layout, s);
    var l := if ParseDateTime(FileNameTargetLayout, s).Some? then FileNameTargetLayout
      else if ParseDateTime(FileNameAlternative1Layout, s).Some? then FileNameAlternative1Layout
      else FileNameAlternative2Layout;
    assert ParseFields(l, s).Some?;
    ParsedShape(l, s);
  }

  /**
   * Round trip: the final-name extractor reads back, with its first formatter,
   * every date-time that FILE_NAME_TARGET_FORMATTER prints.
   */
  lemma FinalParsesTarget(t: LocalDateTime)
    requires 1 <= t.year <= 9999
    ensures ParseWithFormatters(FinalFormatters, Some(Format(FileNameTargetLayout, t))) == Some(t)
  {
    ParseFormat(FileNameTargetLayout, t);
  }

  lemma TimeSeparatorAt13(t: LocalDateTime, c: char)
    requires 1 <= t.year <= 9999
    ensures |Format(Layout("-", " ", [c]), t)| == 19 && Format(Layout("-", " ", [c]), t)[13] == c
  {
    var l := Layout("-", " ", [c]);
    assert Format(l, t) == FormatDate(t, "-") + (" " + FormatTime(t, [c]));
    assert FormatTime(t, [c])[2] == c;
  }

  /** One step of the base parse: the first formatter, or else the rest. */
  lemma ParseWithStep(fs: seq<Layout>, s: string)
    requires fs != []
    ensures ParseWithFormatters(fs, Some(s)) ==
      if ParseDateTime(fs[0], s).Some? then ParseDateTime(fs[0], s) else ParseWithFormatters(fs[1..], Some(s))
  {
  }

  /** The base parse over three formatters, unfolded. */
  lemma ParseWithThree(a: Layout, b: Layout, c: Layout, s: string)
    ensures ParseWithFormatters([a, b, c], Some(s)) ==
      if ParseDateTime(a, s).Some? then ParseDateTime(a, s)
      else if ParseDateTime(b, s).Some? then ParseDateTime(b, s)
      else ParseDateTime(c, s)
  {
    ParseWithStep([a, b, c], s);
    assert [a, b, c][1..] == [b, c];
    ParseWithStep([b, c], s);
    assert [b, c][1..] == [c];
    ParseWithStep([c], s);
    assert [c][1..] == [];
  }

  /**
   * The variants with '-' or ':' as time separator are read back as well; the
   * formatters before them reject the text, so the variant decides.
   */
  lemma FinalParsesVariants(t: LocalDateTime, c: char)
    requires 1 <= t.year <= 9999
    requires c == '-' || c == ':'
    ensures ParseWithFormatters(FinalFormatters, Some(Format(Layout("-", " ", [c]), t))) == Some(t)
  {
    FinalPatterns();
    var l := Layout("-", " ", [c]);
    var s := Format(l, t);
    TimeSeparatorAt13(t, c);
    ParseFormat(l, t);
    assert ParseDateTime(FileNameTargetLayout, s).None? by {
      if ParseFields(FileNameTargetLayout, s).Some? {
        ParsedShape(FileNameTargetLayout, s);
      }
    }
    assert c == ':' ==> ParseDateTime(FileNameAlternative1Layout, s).None? by {
      if c == ':' && ParseFields(FileNameAlternative1Layout, s).Some? {
        ParsedShape(FileNameAlternative1Layout, s);
      }
    }
    ParseWithThree(FileNameTargetLayout, FileNameAlternative1Layout, FileNameAlternative2Layout, s);
  }

  /** The name given to a file taken at 2024-05-30 21:03:59, and back. */
  lemma ExampleFinalName()
    ensures Format(FileNameTargetLayout, DateTimeFields(2024, 5, 30, 21, 3, 59)) == "2024-05-30 21.03.59"
    ensures ParseWithFormatters(FinalFormatters, Some("2024-05-30 21.03.59")) == Some(DateTimeFields(2024, 5, 30, 21, 3, 59))
  {
    var t := DateTimeFields(2024, 5, 30, 21, 3, 59);
    Pads();
    assert FormatDate(t, "-") == "2024-05-30";
    assert Format(FileNameTargetLayout, t) == "2024-05-30 21.03.59";
    FinalParsesTarget(t);
  }

  /** Trailing text after the time makes the name unparseable. */
  lemma ExampleTrailingText()
    ensures ParseWithFormatters(FinalFormatters, Some("2024-05-30 21.03.59 (1)")).None?
  {
    if ParseWithFormatters(FinalFormatters, Some("2024-05-30 21.03.59 (1)")).Some? {
      FinalNameShape("2024-05-30 21.03.59 (1)");
    }
  }

  /**
   * A name in the target shape is rejected by both variants, so the
   * resolver alone decides what it means.
   */
  lemma FinalParsesTargetText(p: ParsedDate, q: ParsedTime)
    requires PrintableDate(p) && PrintableTime(q)
    ensures ParseWithFormatters(FinalFormatters, Some(FieldsText(FileNameTargetLayout, p, q))) == ResolveDateTime(p, q)
  {
    FinalPatterns();
    var s := FieldsText(FileNameTargetLayout, p, q);
    ParseFieldsText(FileNameTargetLayout, p, q);
    assert s[13] == '.' by {
      assert s == DateText(p, "-") + (" " + TimeText(q, "."));
      assert TimeText(q, ".")[2] == '.';
    }
    if ParseFields(FileNameAlternative1Layout, s).Some? {
      ParsedShape(FileNameAlternative1Layout, s);
    }
    if ParseFields(FileNameAlternative2Layout, s).Some? {
      ParsedShape(FileNameAlternative2Layout, s);
    }
    ParseWithThree(FileNameTargetLayout, FileNameAlternative1Layout, FileNameAlternative2Layout, s);
  }

  /** Month 13 gives no date. */
  lemma ExampleMonth13()
    ensures ParseWithFormatters(FinalFormatters, Some("2024-13-30 21.03.59")).None?
  {
    var p, q := ParsedDate(2024, 13, 30), ParsedTime(21, 3, 59);
    TextMonth13();
    FinalParsesTargetText(p, q);
  }

  lemma TextMonth13()
    ensures FieldsText(FileNameTargetLayout, ParsedDate(2024, 13, 30), ParsedTime(21, 3, 59)) == "2024-13-30 21.03.59"
  {
    Pads();
    TargetText(ParsedDate(2024, 13, 30), ParsedTime(21, 3, 59), "2024", "13", "30", "21", "03", "59");
  }

  /** The two-digit and four-digit fields the examples print. */
  lemma Pads()
    ensures Pad4(2024) == "2024" && Pad4(2016) == "2016"
    ensures Pad2(0) == "00" && Pad2(2) == "02" && Pad2(3) == "03" && Pad2(4) == "04" && Pad2(5) == "05"
    ensures Pad2(8) == "08" && Pad2(9) == "09" && Pad2(10) == "10" && Pad2(12) == "12" && Pad2(13) == "13"
    ensures Pad2(20) == "20" && Pad2(21) == "21" && Pad2(24) == "24" && Pad2(30) == "30" && Pad2(35) == "35"
    ensures Pad2(59) == "59"
  {
    Pads4();
    SmallPads();
    LargePads();
  }

  lemma Pads4()
    ensures Pad4(2024) == "2024" && Pad4(2016) == "2016"
  {
    assert Pad2(20) == "20" && Pad2(24) == "24" && Pad2(16) == "16";
  }

  lemma SmallPads()
    ensures Pad2(0) == "00" && Pad2(2) == "02" && Pad2(3) == "03" && Pad2(4) == "04" && Pad2(5) == "05"
    ensures Pad2(8) == "08" && Pad2(9) == "09"
  {
  }

  lemma LargePads()
    ensures Pad2(10) == "10" && Pad2(12) == "12" && Pad2(13) == "13"
    ensures Pad2(20) == "20" && Pad2(21) == "21" && Pad2(24) == "24" && Pad2(30) == "30" && Pad2(35) == "35"
    ensures Pad2(59) == "59"
  {
  }

  /** The target layout's text from the printed fields. */
  lemma TargetText(p: ParsedDate, q: ParsedTime, y: string, mo: string, d: string, h: string, mi: string, sec: string)
    requires PrintableDate(p) && PrintableTime(q)
    requires Pad4(p.yearOfEra) == y && Pad2(p.month) == mo && Pad2(p.day) == d
    requires Pad2(q.hour) == h && Pad2(q.minute) == mi && Pad2(q.second) == sec
    ensures FieldsText(FileNameTargetLayout, p, q) == y + "-" + mo + "-" + d + " " + h + "." + mi + "." + sec
  {
  }

  lemma ExampleNextDay()
    ensures NextDay(DateFields(2024, 5, 30)) == DateFields(2024, 5, 31)
  {
    var next := NextDay(DateFields(2024, 5, 30));
    DayNumberUnique(next.year, next.month, next.day, 2024, 5, 31);
  }

  /**
   * Hour 24 is accepted as 24.00.00, which the default resolver reads as the
   * midnight that starts the next day.
   */
  lemma ExampleHour24()
    ensures ParseWithFormatters(FinalFormatters, Some("2024-05-30 24.00.00")) == Some(DateTimeFields(2024, 5, 31, 0, 0, 0))
  {
    var p, q := ParsedDate(2024, 5, 30), ParsedTime(24, 0, 0);
    TextHour24();
    FinalParsesTargetText(p, q);
    ResolvedHour24();
  }

  lemma TextHour24()
    ensures FieldsText(FileNameTargetLayout, ParsedDate(2024, 5, 30), ParsedTime(24, 0, 0)) == "2024-05-30 24.00.00"
  {
    Pads();
    TargetText(ParsedDate(2024, 5, 30), ParsedTime(24, 0, 0), "2024", "05", "30", "24", "00", "00");
  }

  lemma ResolvedHour24()
    ensures ResolveDateTime(ParsedDate(2024, 5, 30), ParsedTime(24, 0, 0)) == Some(DateTimeFields(2024, 5, 31, 0, 0, 0))
  {
    ExampleNextDay();
  }

  /** Any other time at hour 24 gives no date. */
  lemma ExampleHour24NotMidnight()
    ensures ParseWithFormatters(FinalFormatters, Some("2024-05-30 24.30.00")).None?
  {
    var p, q := ParsedDate(2024, 5, 30), ParsedTime(24, 30, 0);
    TextHour24NotMidnight();
    FinalParsesTargetText(p, q);
  }

  lemma TextHour24NotMidnight()
    ensures FieldsText(FileNameTargetLayout, ParsedDate(2024, 5, 30), ParsedTime(24, 30, 0)) == "2024-05-30 24.30.00"
  {
    Pads();
    TargetText(ParsedDate(2024, 5, 30), ParsedTime(24, 30, 0), "2024", "05", "30", "24", "30", "00");
  }

  /** A day past the end of its month is moved back to the month's last day. */
  lemma ExampleDayClamped()
    ensures ParseWithFormatters(FinalFormatters, Some("2024-02-30 10.00.00")) == Some(DateTimeFields(2024, 2, 29, 10, 0, 0))
  {
    var p, q := ParsedDate(2024, 2, 30), ParsedTime(10, 0, 0);
    TextDayClamped();
    FinalParsesTargetText(p, q);
    ResolvedDayClamped();
  }

  lemma TextDayClamped()
    ensures FieldsText(FileNameTargetLayout, ParsedDate(2024, 2, 30), ParsedTime(10, 0, 0)) == "2024-02-30 10.00.00"
  {
    Pads();
    TargetText(ParsedDate(2024, 2, 30), ParsedTime(10, 0, 0), "2024", "02", "30", "10", "00", "00");
  }

  lemma ResolvedDayClamped()
    ensures ResolveDateTime(ParsedDate(2024, 2, 30), ParsedTime(10, 0, 0)) == Some(DateTimeFields(2024, 2, 29, 10, 0, 0))
  {
  }

  // ---- Properties of the camera names ------------------------------------------

  /** Java's split of a name made of separator-free parts joined by '_'. */
  lemma SplitThree(a: string, b: string, c: string, tail: string)
    requires '_' !in a && '_' !in b && '_' !in c && c != ""
    requires tail == "" || tail[0] == '_'
    ensures |Split(a + "_" + b + "_" + c + tail, '_')| >= 3
    ensures Split(a + "_" + b + "_" + c + tail, '_')[..3] == [a, b, c]
  {
    var s := a + "_" + b + "_" + c + tail;
    assert s == a + ['_'] + (b + ['_'] + (c + tail));
    var rest := SplitLastPart(c, tail);
    SplitAllPiece(b, '_', c + tail);
    SplitAllPiece(a, '_', b + ['_'] + (c + tail));
    assert SplitAll(s, '_') == [a, b, c] + rest;
    assert s[|a|] == '_';
    DropTrailingEmptyKeepsPrefix([a, b, c], rest);
  }

  /** The split of a last part c, followed by nothing or by more '_'-separated parts. */
  lemma SplitLastPart(c: string, tail: string) returns (rest: seq<string>)
    requires '_' !in c && (tail == "" || tail[0] == '_')
    ensures SplitAll(c + tail, '_') == [c] + rest
    ensures rest == if tail == "" then [] else SplitAll(tail[1..], '_')
  {
    if tail == "" {
      SplitAllNoSeparator(c, '_');
      assert c + tail == c;
      rest := [];
    } else {
      assert c + tail == c + ['_'] + tail[1..];
      SplitAllPiece(c, '_', tail[1..]);
      rest := SplitAll(tail[1..], '_');
    }
  }

  /** Java's split of two separator-free parts joined by '_', possibly with a trailing '_'. */
  lemma SplitTwo(a: string, b: string, tail: string)
    requires '_' !in a && '_' !in b && b != ""
    requires tail == "" || tail == "_"
    ensures Split(a + "_" + b + tail, '_') == [a, b]
  {
    var s := a + "_" + b + tail;
    assert s == a + ['_'] + (b + tail);
    var rest := SplitLastPart(b, tail);
    SplitAllPiece(a, '_', b + tail);
    assert SplitAll(s, '_') == [a, b] + rest;
    assert s[|a|] == '_';
    if tail != "" {
      assert tail[1..] == [];
      assert rest == [""];
    }
    DropTrailingEmptyKeepsPrefix([a, b], rest);
  }

  /**
   * "PREFIX_date_time" with a non-numeric prefix: the tokens are parts 1 and 2,
   * whatever the prefix is, and parts after the time token are ignored.
   */
  lemma CameraNameWithPrefix(prefix: string, date: string, time: string, tail: string)
    requires '_' !in prefix && '_' !in date && '_' !in time && !IsNumber(prefix)
    requires |date| == 8 && |time| == 6
    requires tail == "" || tail[0] == '_'
    ensures CameraParse(prefix + "_" + date + "_" + time + tail) == Success(ParseDateTime(CameraLayout, date + " " + time))
  {
    SplitThree(prefix, date, time, tail);
    var split := Split(prefix + "_" + date + "_" + time + tail, '_');
    assert split[0] == prefix && split[1] == date && split[2] == time;
  }

  /** Java's split of "a_b" followed by nothing or by more '_'-separated parts. */
  lemma SplitTwoOrMore(a: string, b: string, tail: string)
    requires '_' !in a && '_' !in b && b != ""
    requires tail == "" || tail[0] == '_'
    ensures |Split(a + "_" + b + tail, '_')| >= 2
    ensures Split(a + "_" + b + tail, '_')[..2] == [a, b]
  {
    var s := a + "_" + b + tail;
    assert s == a + ['_'] + (b + tail);
    var rest := SplitLastPart(b, tail);
    SplitAllPiece(a, '_', b + tail);
    assert SplitAll(s, '_') == [a, b] + rest;
    assert s[|a|] == '_';
    DropTrailingEmptyKeepsPrefix([a, b], rest);
  }

  /** "date_time" with a numeric first part: the tokens are parts 0 and 1. */
  lemma CameraNameWithoutPrefix(date: string, time: string, tail: string)
    requires '_' !in date && '_' !in time && IsNumber(date)
    requires |date| == 8 && |time| == 6
    requires tail == "" || tail[0] == '_'
    ensures CameraParse(date + "_" + time + tail) == Success(ParseDateTime(CameraLayout, date + " " + time))
  {
    SplitTwoOrMore(date, time, tail);
    var split := Split(date + "_" + time + tail, '_');
    assert split[0] == date && split[1] == time;
  }

  /**
   * Exactly two parts with a non-numeric first one, such as "IMG_20160804" or
   * "IMG_20160804_": reading the missing third part throws.
   */
  lemma CameraNameTwoParts(prefix: string, token: string, tail: string)
    requires '_' !in prefix && '_' !in token && token != "" && !IsNumber(prefix)
    requires tail == "" || tail == "_"
    ensures CameraParse(prefix + "_" + token + tail) == Failure(IndexOutOfBounds)
  {
    SplitTwo(prefix, token, tail);
  }

  /** A name without '_' splits into a single part and gives no date. */
  lemma CameraNameSinglePart(name: string)
    requires '_' !in name
    ensures CameraParse(name) == Success(None)
  {
  }

  /**
   * A name starting with '_' has an empty, hence numeric, first part: the
   * date token is that empty part and there is no date.
   */
  lemma CameraNameLeadingSeparator(rest: string)
    ensures CameraParse("_" + rest) == Success(None)
  {
    var s := "_" + rest;
    assert s == [] + ['_'] + rest;
    SplitAllPiece([], '_', rest);
    var split := Split(s, '_');
    assert s[0] == '_';
    if |split| >= 2 {
      assert split[0] == SplitAll(s, '_')[0] == "";
    }
  }

  /** The date and time tokens are read as "yyyyMMdd HHmmss". */
  lemma CameraPattern()
    ensures PatternText(CameraLayout) == "yyyyMMdd HHmmss"
  {
  }

  /** The tokens 20160804 and 100935 read as 2016-08-04 10:09:35. */
  lemma ExampleCameraTokens()
    ensures ParseDateTime(CameraLayout, "20160804 100935") == Some(DateTimeFields(2016, 8, 4, 10, 9, 35))
  {
    ExampleCameraTokenFacts();
    ExampleCameraTokensJoined("20160804" + " " + "100935");
  }

  lemma ExampleCameraTokenFacts()
    ensures '_' !in "20160804" && '_' !in "100935" && IsNumber("20160804")
    ensures "20160804" + " " + "100935" == "20160804 100935"
  {
  }

  lemma ExampleCameraTokensJoined(x: string)
    requires x == "20160804" + " " + "100935"
    ensures ParseDateTime(CameraLayout, x) == Some(DateTimeFields(2016, 8, 4, 10, 9, 35))
  {
    var p, q := ParsedDate(2016, 8, 4), ParsedTime(10, 9, 35);
    Pads();
    CameraText(p, q, "2016", "08", "04", "10", "09", "35");
    assert "2016" + "08" + "04" == "20160804" && "10" + "09" + "35" == "100935";
    ParseFieldsText(CameraLayout, p, q);
  }

  /** The camera layout's text from the printed fields. */
  lemma CameraText(p: ParsedDate, q: ParsedTime, y: string, mo: string, d: string, h: string, mi: string, sec: string)
    requires PrintableDate(p) && PrintableTime(q)
    requires Pad4(p.yearOfEra) == y && Pad2(p.month) == mo && Pad2(p.day) == d
    requires Pad2(q.hour) == h && Pad2(q.minute) == mi && Pad2(q.second) == sec
    ensures FieldsText(CameraLayout, p, q) == (y + mo + d) + " " + (h + mi + sec)
  {
  }

  /**
   * A camera name such as IMG_20160804_100935 or VID_20160804_100935, with any
   * further parts after the time token, reads as 2016-08-04 10:09:35.
   */
  lemma ExampleCameraWithPrefix(prefix: string, tail: string)
    requires '_' !in prefix && !IsNumber(prefix)
    requires tail == "" || tail[0] == '_'
    ensures CameraParse(prefix + "_" + "20160804" + "_" + "100935" + tail) == Success(Some(DateTimeFields(2016, 8, 4, 10, 9, 35)))
  {
    ExampleCameraTokenFacts();
    CameraNameWithPrefix(prefix, "20160804", "100935", tail);
    ExampleCameraTokensJoined("20160804" + " " + "100935");
  }

  /** 20160804_100935, without a prefix, reads the same. */
  lemma ExampleCameraWithoutPrefix(tail: string)
    requires tail == "" || tail[0] == '_'
    ensures CameraParse("20160804" + "_" + "100935" + tail) == Success(Some(DateTimeFields(2016, 8, 4, 10, 9, 35)))
  {
    ExampleCameraTokenFacts();
    CameraNameWithoutPrefix("20160804", "100935", tail);
    ExampleCameraTokensJoined("20160804" + " " + "100935");
  }

  lemma ExampleCameraMissingTime(name: string)
    requires name == "IMG_20160804" || name == "IMG_20160804_"
    ensures CameraParse(name) == Failure(IndexOutOfBounds)
  {
    var tail := if name == "IMG_20160804" then "" else "_";
    assert name == "IMG" + "_" + "20160804" + tail;
    assert !IsDigit("IMG"[0]);
    CameraNameTwoParts("IMG", "20160804", tail);
  }

  /** The tokens 20240530 and 210412 read as 2024-05-30 21:04:12. */
  lemma ExampleVideoTokensJoined(x: string)
    requires x == "20240530" + " " + "210412"
    ensures ParseDateTime(CameraLayout, x) == Some(DateTimeFields(2024, 5, 30, 21, 4, 12))
  {
    var p, q := ParsedDate(2024, 5, 30), ParsedTime(21, 4, 12);
    Pads();
    CameraText(p, q, "2024", "05", "30", "21", "04", "12");
    assert "2024" + "05" + "30" == "20240530" && "21" + "04" + "12" == "210412";
    ParseFieldsText(CameraLayout, p, q);
  }

  /** A camera video name such as VID_20240530_210412 reads as 2024-05-30 21:04:12. */
  lemma ExampleCameraVideo(prefix: string, tail: string)
    requires '_' !in prefix && !IsNumber(prefix)
    requires tail == "" || tail[0] == '_'
    ensures CameraParse(prefix + "_" + "20240530" + "_" + "210412" + tail) == Success(Some(DateTimeFields(2024, 5, 30, 21, 4, 12)))
  {
    assert '_' !in "20240530" && '_' !in "210412";
    CameraNameWithPrefix(prefix, "20240530", "210412", tail);
    ExampleVideoTokensJoined("20240530" + " " + "210412");
  }
}
