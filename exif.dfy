/**
 * ExifDateExtractor: the dates of a JPEG file's EXIF block. What Commons
 * Imaging decodes from the file is given as an ExifFields record.
 */
module Exif {
  import opened Wrappers
  import opened Time
  import opened Formats
  import opened Stamps
  import opened FileTypes

  /**
   * The TIFF fields the extractor looks up; None when findField returns null.
   * GPSTimeStamp is the intValue() of each of its rationals, GPSDateStamp its
   * string value, and the three date-time tags their getValueDescription().
   */
  datatype ExifFields = ExifFields(
    gpsTimeStamp: Option<seq<int>>,
    gpsDateStamp: Option<string>,
    dateTime: Option<string>,
    dateTimeDigitized: Option<string>,
    dateTimeOriginal: Option<string>)

  /** The outcome of Imaging.getMetadata and JpegImageMetadata.getExif for one file. */
  datatype MetadataRead =
    | ReadIOException                   // IOException, caught by extractDates
    | ReadIllegalArgument               // IllegalArgumentException, caught by extractExif
    | NotJpegMetadata                   // metadata of another kind, or none
    | JpegWithoutExif                   // getExif() returned null
    | JpegExif(fields: ExifFields)

  /** "yyyy:MM:dd HH:mm:ss" */
  const ExifTimeLayout := Layout(":", " ", ":")

  /** "yyyy:MM:dd" */
  const GpsDateSeparator := ":"

  /**
   * parseDateTime: a description not enclosed in single quotes gives null; the
   * text between the quotes must parse, else DateTimeParseException escapes;
   * the description "'" makes substring(1, 0) throw.
   */
  function ParseExifDateTime(description: string): (r: Outcome<Option<LocalDateTime>>)
    ensures (|description| == 0 || description[0] != '\'' || description[|description| - 1] != '\'') ==> r == Success(None)
    ensures description == "'" ==> r == Failure(IndexOutOfBounds)
    ensures |description| >= 2 && description[0] == '\'' && description[|description| - 1] == '\'' ==>
      match ParseDateTime(ExifTimeLayout, description[1..|description| - 1])
      case Some(t) => r == Success(Some(t))
      case None => r == Failure(DateTimeParse)
  {
    if |description| == 0 || description[0] != '\'' || description[|description| - 1] != '\'' then Success(None)
    else if |description| < 2 then Failure(IndexOutOfBounds)
    else match ParseDateTime(ExifTimeLayout, description[1..|description| - 1])
      case Some(t) => Success(Some(t))
      case None => Failure(DateTimeParse)
  }

  /** extractDate(field, source): an absent field gives no candidate, a present one always gives one. */
  function ExtractFieldDate(field: Option<string>, source: TimeStampSource): (r: Outcome<Option<TimeStampWithSource>>)
    ensures field.None? ==> r == Success(None)
    ensures field.Some? ==> (r.Success? <==> ParseExifDateTime(field.value).Success?)
    ensures field.Some? && r.Success? ==> r.value == Some(TimeStampWithSource(ParseExifDateTime(field.value).value, source))
  {
    match field
    case None => Success(None)
    case Some(description) =>
      var time :- ParseExifDateTime(description);
      Success(Some(TimeStampWithSource(time, source)))
  }

  /**
   * extractGpsDate: both GPS fields present and a time of three components,
   * which LocalTime.of rejects out of range (DateTimeException); the date must
   * parse as "yyyy:MM:dd" (DateTimeParseException otherwise).
   */
  function ExtractGpsDate(timeStamp: Option<seq<int>>, dateStamp: Option<string>): (r: Outcome<Option<TimeStampWithSource>>)
    ensures timeStamp.None? || dateStamp.None? ==> r == Success(None)
    ensures timeStamp.Some? && |timeStamp.value| != 3 ==> r == Success(None)
    ensures r.Success? && r.value.Some? ==>
      var ts := timeStamp.value;
      |ts| == 3 && 0 <= ts[0] < 24 && 0 <= ts[1] < 60 && 0 <= ts[2] < 60
      && ParseDate(dateStamp.value, GpsDateSeparator).Some?
      && r.value.value == TimeStampWithSource(Some(AtTime(ParseDate(dateStamp.value, GpsDateSeparator).value, ts[0], ts[1], ts[2])), ExifGpsDateTime)
    ensures timeStamp.Some? && dateStamp.Some? && |timeStamp.value| == 3 && r.Success? ==> r.value.Some?
    ensures timeStamp.Some? && dateStamp.Some? && |timeStamp.value| == 3 ==>
      var ts := timeStamp.value;
      (!(0 <= ts[0] < 24 && 0 <= ts[1] < 60 && 0 <= ts[2] < 60) ==> r == Failure(DateTimeInvalid))
      && (0 <= ts[0] < 24 && 0 <= ts[1] < 60 && 0 <= ts[2] < 60 ==>
            match ParseDate(dateStamp.value, GpsDateSeparator)
            case None => r == Failure(DateTimeParse)
            case Some(date) => r == Success(Some(TimeStampWithSource(Some(AtTime(date, ts[0], ts[1], ts[2])), ExifGpsDateTime))))
  {
    if timeStamp.None? || dateStamp.None? then Success(None)
    else
      var ts := timeStamp.value;
      if |ts| != 3 then Success(None)
      else if !(0 <= ts[0] < 24 && 0 <= ts[1] < 60 && 0 <= ts[2] < 60) then Failure(DateTimeInvalid)
      else match ParseDate(dateStamp.value, GpsDateSeparator)
        case None => Failure(DateTimeParse)
        case Some(date) => Success(Some(TimeStampWithSource(Some(AtTime(date, ts[0], ts[1], ts[2])), ExifGpsDateTime)))
  }

  /** The candidate of a result as a list: empty for null. */
  function Present(o: Option<TimeStampWithSource>): seq<TimeStampWithSource> {
    if o.Some? then [o.value] else []
  }

  /** StreamEx.nonNull().toList() over the four results. */
  function NonNull(xs: seq<Option<TimeStampWithSource>>): (r: seq<TimeStampWithSource>)
    ensures |r| <= |xs|
    ensures forall c :: c in r <==> Some(c) in xs
  {
    if xs == [] then [] else Present(xs[0]) + NonNull(xs[1..])
  }

  /**
   * StreamEx.of(gps, dateTime, digitized, original).nonNull().toList(): the
   * arguments are computed left to right, so the first of them to throw
   * decides the error.
   */
  function OfNonNull(gps: Outcome<Option<TimeStampWithSource>>, dateTime: Outcome<Option<TimeStampWithSource>>,
                     digitized: Outcome<Option<TimeStampWithSource>>, original: Outcome<Option<TimeStampWithSource>>)
    : Outcome<seq<TimeStampWithSource>>
  {
    var g :- gps;
    var d :- dateTime;
    var dg :- digitized;
    var o :- original;
    Success(NonNull([g, d, dg, o]))
  }

  /**
   * extractDate(TiffImageMetadata): the four candidates in the order GPS,
   * DateTime, DateTimeDigitized, DateTimeOriginal.
   */
  function ExtractTiffDates(f: ExifFields): Outcome<seq<TimeStampWithSource>> {
    OfNonNull(ExtractGpsDate(f.gpsTimeStamp, f.gpsDateStamp),
              ExtractFieldDate(f.dateTime, ExifDateTime),
              ExtractFieldDate(f.dateTimeDigitized, ExifDateTimeDigitized),
              ExtractFieldDate(f.dateTimeOriginal, ExifDateTimeOriginal))
  }

  /**
   * extractDates: nothing for a file that is not a JPEG by extension (its
   * metadata is never read), nothing when reading fails or yields no EXIF block.
   */
  function ExtractDates(file: Path, read: MetadataRead): Outcome<seq<TimeStampWithSource>> {
    if !IsJpegFile(file) then Success([])
    else match read
      case JpegExif(fields) => ExtractTiffDates(fields)
      case _ => Success([])
  }

  // ---- Properties ----------------------------------------------------------------

  /** The rank of each EXIF source in the extractor's output order. */
  function Rank(s: TimeStampSource): int {
    match s
    case ExifGpsDateTime => 0
    case ExifDateTime => 1
    case ExifDateTimeDigitized => 2
    case ExifDateTimeOriginal => 3
    case _ => 4
  }

  /** The sources strictly follow the order GPS, DateTime, Digitized, Original. */
  ghost predicate InSourceOrder(cs: seq<TimeStampWithSource>) {
    (forall i :: 0 <= i < |cs| ==> Rank(cs[i].source) < 4)
    && forall i, j :: 0 <= i < j < |cs| ==> Rank(cs[i].source) < Rank(cs[j].source)
  }

  /** nonNull over results that are all null is empty. */
  lemma {:induction false} NonNullNone(xs: seq<Option<TimeStampWithSource>>)
    requires forall j :: 0 <= j < |xs| ==> xs[j].None?
    ensures NonNull(xs) == []
  {
    if xs != [] {
      NonNullNone(xs[1..]);
    }
  }

  /** nonNull over results of which exactly one is present is that one candidate. */
  lemma {:induction false} NonNullSingle(xs: seq<Option<TimeStampWithSource>>, i: int)
    requires 0 <= i < |xs| && xs[i].Some?
    requires forall j :: 0 <= j < |xs| && j != i ==> xs[j].None?
    ensures NonNull(xs) == [xs[i].value]
  {
    if i == 0 {
      NonNullNone(xs[1..]);
    } else {
      NonNullSingle(xs[1..], i - 1);
    }
  }

  /** Results whose sources are ranked by position keep that order once the nulls are removed. */
  lemma {:induction false} NonNullInOrder(xs: seq<Option<TimeStampWithSource>>, k: int)
    requires 0 <= k && k + |xs| <= 4
    requires forall i :: 0 <= i < |xs| && xs[i].Some? ==> Rank(xs[i].value.source) == k + i
    ensures InSourceOrder(NonNull(xs))
    ensures forall c :: c in NonNull(xs) ==> Rank(c.source) >= k
  {
    if xs != [] {
      NonNullInOrder(xs[1..], k + 1);
      var rest := NonNull(xs[1..]);
      forall c | c in NonNull(xs) ensures Rank(c.source) >= k {
        var i :| 0 <= i < |xs| && xs[i] == Some(c);
      }
      if xs[0].Some? {
        assert forall j :: 0 <= j < |rest| ==> rest[j] in rest;
      }
    }
  }

  /** What each of the four results can hold: nothing, or a candidate with that source. */
  ghost predicate TaggedAs(o: Outcome<Option<TimeStampWithSource>>, source: TimeStampSource) {
    o.Success? && o.value.Some? ==> o.value.value.source == source
  }

  /** extractDate(field, source) tags its candidate with that source. */
  lemma FieldTagged(field: Option<string>, source: TimeStampSource)
    ensures TaggedAs(ExtractFieldDate(field, source), source)
  {
  }

  /** extractGpsDate tags its candidate as the GPS date. */
  lemma GpsTagged(timeStamp: Option<seq<int>>, dateStamp: Option<string>)
    ensures TaggedAs(ExtractGpsDate(timeStamp, dateStamp), ExifGpsDateTime)
  {
  }

  lemma OfNonNullOrdered(g: Outcome<Option<TimeStampWithSource>>, a: Outcome<Option<TimeStampWithSource>>,
                         b: Outcome<Option<TimeStampWithSource>>, c: Outcome<Option<TimeStampWithSource>>)
    requires TaggedAs(g, ExifGpsDateTime) && TaggedAs(a, ExifDateTime)
    requires TaggedAs(b, ExifDateTimeDigitized) && TaggedAs(c, ExifDateTimeOriginal)
    ensures OfNonNull(g, a, b, c).Success? ==> |OfNonNull(g, a, b, c).value| <= 4 && InSourceOrder(OfNonNull(g, a, b, c).value)
  {
    if OfNonNull(g, a, b, c).Success? {
      NonNullInOrder([g.value, a.value, b.value, c.value], 0);
    }
  }

  /**
   * The EXIF candidates: at most four, in the fixed source order and so with
   * distinct sources; a non-JPEG file or any read without an EXIF block gives none.
   */
  lemma ExifCandidatesOrdered(file: Path, read: MetadataRead)
    ensures !IsJpegFile(file) ==> ExtractDates(file, read) == Success([])
    ensures !read.JpegExif? ==> ExtractDates(file, read) == Success([])
    ensures ExtractDates(file, read).Success? ==>
      var cs := ExtractDates(file, read).value;
      |cs| <= 4 && InSourceOrder(cs)
      && forall i, j :: 0 <= i < j < |cs| ==> cs[i].source != cs[j].source
  {
    if IsJpegFile(file) && read.JpegExif? {
      var f := read.fields;
      GpsTagged(f.gpsTimeStamp, f.gpsDateStamp);
      FieldTagged(f.dateTime, ExifDateTime);
      FieldTagged(f.dateTimeDigitized, ExifDateTimeDigitized);
      FieldTagged(f.dateTimeOriginal, ExifDateTimeOriginal);
      OfNonNullOrdered(ExtractGpsDate(f.gpsTimeStamp, f.gpsDateStamp),
                       ExtractFieldDate(f.dateTime, ExifDateTime),
                       ExtractFieldDate(f.dateTimeDigitized, ExifDateTimeDigitized),
                       ExtractFieldDate(f.dateTimeOriginal, ExifDateTimeOriginal));
    }
  }

  /** A present field whose description is not quoted yields a candidate with a null time. */
  lemma UnquotedFieldGivesNullTime(f: ExifFields)
    requires ExtractGpsDate(f.gpsTimeStamp, f.gpsDateStamp) == Success(None)
    requires f.dateTime.Some? && (f.dateTime.value == "" || f.dateTime.value[0] != '\'')
    requires f.dateTimeDigitized.None? && f.dateTimeOriginal.None?
    ensures ExtractTiffDates(f) == Success([TimeStampWithSource(None, ExifDateTime)])
  {
    var c := Some(TimeStampWithSource(None, ExifDateTime));
    assert ExtractFieldDate(f.dateTime, ExifDateTime) == Success(c);
    assert ExtractFieldDate(f.dateTimeDigitized, ExifDateTimeDigitized) == Success(None);
    assert ExtractFieldDate(f.dateTimeOriginal, ExifDateTimeOriginal) == Success(None);
    assert OfNonNull(Success(None), Success(c), Success(None), Success(None)) == Success(NonNull([None, c, None, None]));
    NonNullSingle([None, c, None, None], 1);
  }

  /** A quoted but malformed date-time is an error, not a skipped field. */
  lemma QuotedMalformedFails(f: ExifFields, text: string)
    requires ExtractGpsDate(f.gpsTimeStamp, f.gpsDateStamp).Success?
    requires f.dateTime == Some("'" + text + "'") && ParseDateTime(ExifTimeLayout, text).None?
    ensures ExtractTiffDates(f) == Failure(DateTimeParse)
  {
    var d := "'" + text + "'";
    assert d[1..|d| - 1] == text;
  }

  /** A GPS time stamp out of range makes LocalTime.of throw; it is checked before the date stamp. */
  lemma GpsTimeOutOfRangeFails(f: ExifFields)
    requires f.gpsTimeStamp.Some? && f.gpsDateStamp.Some? && |f.gpsTimeStamp.value| == 3
    requires f.gpsTimeStamp.value[0] >= 24
    ensures ExtractTiffDates(f) == Failure(DateTimeInvalid)
  {
  }

  lemma ExamplePhotoDigits()
    ensures Pad4(2016) == "2016" && Pad2(9) == "09" && Pad2(19) == "19"
    ensures Pad2(21) == "21" && Pad2(11) == "11" && Pad2(12) == "12"
  {
  }

  /** The text between the quotes of a quoted description is parsed. */
  lemma QuotedDescription(text: string)
    ensures ParseExifDateTime("'" + text + "'") ==
      match ParseDateTime(ExifTimeLayout, text)
      case Some(t) => Success(Some(t))
      case None => Failure(DateTimeParse)
  {
    var d := "'" + text + "'";
    assert d[1..|d| - 1] == text;
  }

  lemma ExamplePhotoParse()
    ensures ParseDateTime(ExifTimeLayout, "2016:09:19 21:11:12") == Some(DateTimeFields(2016, 9, 19, 21, 11, 12))
  {
    var p, q := ParsedDate(2016, 9, 19), ParsedTime(21, 11, 12);
    ExamplePhotoDigits();
    assert FieldsText(ExifTimeLayout, p, q) == "2016:09:19 21:11:12";
    ParseFieldsText(ExifTimeLayout, p, q);
  }

  /** A photo whose only date field is DateTimeOriginal '2016:09:19 21:11:12'. */
  lemma ExampleDateTimeOriginal(f: ExifFields)
    requires f == ExifFields(None, None, None, None, Some("'" + "2016:09:19 21:11:12" + "'"))
    ensures ExtractTiffDates(f) == Success([TimeStampWithSource(Some(DateTimeFields(2016, 9, 19, 21, 11, 12)), ExifDateTimeOriginal)])
  {
    ExamplePhotoParse();
    QuotedDescription("2016:09:19 21:11:12");
    var c := TimeStampWithSource(Some(DateTimeFields(2016, 9, 19, 21, 11, 12)), ExifDateTimeOriginal);
    assert ExtractFieldDate(f.dateTimeOriginal, ExifDateTimeOriginal) == Success(Some(c));
    assert ExtractGpsDate(f.gpsTimeStamp, f.gpsDateStamp) == Success(None);
    assert ExtractFieldDate(f.dateTime, ExifDateTime) == Success(None);
    assert ExtractFieldDate(f.dateTimeDigitized, ExifDateTimeDigitized) == Success(None);
    assert OfNonNull(Success(None), Success(None), Success(None), Success(Some(c))) == Success(NonNull([None, None, None, Some(c)]));
    NonNullSingle([None, None, None, Some(c)], 3);
  }
}
