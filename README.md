# snapsort: date resolution and renaming, modelled in Dafny

snapsort gives every photo or video a capture date, then moves it to
`yyyy/yyyyMMdd_/yyyy-MM-dd HH.mm.ss.ext`. This project models the core of
that pipeline in Dafny and proves properties of the model.

The pipeline works in four stages:

1. Every file runs through an ordered list of date extractors:
   - the final-name extractor, for names already in the target form;
   - the EXIF extractor, for JPEG files;
   - the camera-name extractor, for names such as `IMG_20160804_100935`;
   - optionally, the file's last-modified time.

   The first extractor that finds anything decides. Its candidates are
   filtered by an optional, exclusive date window. They are then reduced to
   one: the candidate furthest from the mean is removed until one is left.
2. The deduplicator groups the files by timestamp. Inside a group of n > 1
   files, the k-th file gets `t + k` seconds and the source
   `COLLISION_AVOIDANCE`.
3. The rename generator turns each timestamp into a folder and a file name.
4. It sorts the resulting plan by folder, then by name.

Modules, one per part of the program:

| file | module | Java it models |
|---|---|---|
| `wrappers.dfy` | `Wrappers` | `Option` and `Outcome` (a result or the Java exception that escapes) |
| `stamps.dfy` | `Stamps` | `TimeStampSource`, `TimeStampWithSource`, the exception kinds |
| `strings.dfy` | `JavaStrings` | `String.lastIndexOf`, `toLowerCase`, `compareTo`, `split` |
| `sorting.dfy` | `Sorting` | `Stream.sorted()`: a stable insertion sort on a comparator |
| `datetime.dfy` | `Time` | `LocalDateTime` at second resolution: epoch seconds both ways, `plusSeconds`, `isBefore` |
| `formats.dfy` | `Formats` | `DateTimeFormatter` patterns `yyyy?MM?dd?HH?mm?ss`: formatting, strict parsing, SMART resolution |
| `filetypes.dfy` | `FileTypes` | `FileTypeUtil` and the `FilenameUtils` calls it makes |
| `daterange.dfy` | `DateRanges` | `DateRange` and the start-of-day bounds built in `Main` |
| `filename_extractors.dfy` | `FileNameExtractors` | `BaseFileNameDateExtractor`, `FinalFileNameDateExtractor`, `FromCameraFileNameDateExtractor` |
| `exif.dfy` | `Exif` | `ExifDateExtractor`, over the decoded TIFF fields |
| `chooser.dfy` | `Chooser` | `DateChooser` (a class, with a loop method for `findClosestDates`) |
| `deduplicator.dfy` | `Deduplication` | `FileInfo` (a class) and `Deduplicator` (methods that update the files in place) |
| `rename.dfy` | `Renaming` | `RenamedFile` and `RenameGenerator` |

A few modelling choices:
- Java exceptions that escape are values. An `Outcome` is either `Success(v)` or
  `Failure(kind)`, so the failing paths are stated and proved like the others.
  Examples are the index error in the camera-name parser, a malformed quoted
  EXIF date and a null time under a date bound.
- A `HashSet` is a duplicate-free sequence. Where the program depends on its
  iteration order, the contract admits every order.
- The deduplicator's `Deduplicated` function is the specification on values. The
  in-place methods are proved to leave every file holding its stamp under that
  function.

Where the code does something other than what one would expect from it, the
model follows the code:
- `deduplicateDates` makes one pass only. `collisions` is never set, so the
  `while` loop never runs, and the result need not be collision-free
  (`Deduplication.NotCollisionFree`).
- A quoted but malformed EXIF date throws instead of being skipped
  (`Exif.QuotedMalformedFails`).
- Two or more candidates that collapse in the `HashSet` to one give a null
  timestamp, not that candidate (`Chooser.CollapsedCandidates`).

## Model

| member | source | states |
|---|---|---|
| JavaStrings.LastIndexOf | src/main/java/snapsort/files/FileTypeUtil.java:25-29 | the index is -1 or holds the character, and no later position holds it |
| JavaStrings.CompareTo | src/main/java/snapsort/renamer/RenamedFile.java:15-19 | String.compareTo: the first differing characters decide, else the lengths; its order laws are the CompareTo lemmas below |
| JavaStrings.Split | src/main/java/snapsort/extractor/filename/FromCameraFileNameDateExtractor.java:24 | String.split with limit 0: the input itself without a separator, else the pieces with trailing empty ones dropped; pinned by SplitAll, DropTrailingEmpty and the Split lemmas |
| JavaStrings.ToLower | src/main/java/snapsort/files/FileTypeUtil.java:29 | same length, each character lower-cased one by one |
| JavaStrings.CompareToAntisymmetric | src/main/java/snapsort/renamer/RenamedFile.java:13-20 | String.compareTo changes sign when its arguments are swapped |
| JavaStrings.CompareToZero | src/main/java/snapsort/renamer/RenamedFile.java:13-20 | compareTo is 0 exactly on equal strings |
| JavaStrings.CompareToTransitive | src/main/java/snapsort/renamer/RenamedFile.java:13-20 | the strict order of compareTo is transitive |
| JavaStrings.CompareToTransitiveLe | src/main/java/snapsort/renamer/RenamedFile.java:13-20 | the non-strict order of compareTo is transitive |
| JavaStrings.SplitAll | src/main/java/snapsort/extractor/filename/FromCameraFileNameDateExtractor.java:24 | at least one piece, and no piece holds the separator |
| JavaStrings.DropTrailingEmpty | src/main/java/snapsort/extractor/filename/FromCameraFileNameDateExtractor.java:24 | a prefix of the parts that ends in a non-empty part, with only empty parts dropped |
| JavaStrings.SplitAllPiece | src/main/java/snapsort/extractor/filename/FromCameraFileNameDateExtractor.java:24 | a separator-free piece followed by the separator splits off as the first part |
| JavaStrings.DropTrailingEmptyKeepsPrefix | src/main/java/snapsort/extractor/filename/FromCameraFileNameDateExtractor.java:24 | parts up to a non-empty one survive the removal of trailing empty strings |
| Sorting.Insert | src/main/java/snapsort/renamer/Deduplicator.java:24 | inserting into a sorted list keeps it sorted and adds exactly the element; x goes ahead of the elements equal to it, so equal elements keep their order |
| Sorting.SortBy | src/main/java/snapsort/renamer/Deduplicator.java:24 | the result is sorted by the comparator and is a permutation of the input; for a comparator consistent on zero, elements that compare equal keep their input order (stable) |
| Time.DateOfDayNumber | src/main/java/snapsort/extractor/DateChooser.java:103 | a valid calendar date whose day number is the given one |
| Time.FromEpochSecond | src/main/java/snapsort/extractor/DateChooser.java:100-103 | ofEpochSecond gives the date-time whose epoch second is the argument |
| Time.FromToEpochSecond | src/main/java/snapsort/extractor/DateChooser.java:100-103 | ofEpochSecond undoes toEpochSecond |
| Time.ToEpochSecond | src/main/java/snapsort/extractor/DateChooser.java:114 | toEpochSecond(UTC): the day number times 86400 plus the second of the day; inverted by FromEpochSecond and injective by EpochSecondInjective |
| Time.EpochSecondInjective | src/main/java/snapsort/extractor/DateChooser.java:111-118 | two date-times with the same epoch second are equal |
| Time.DayNumberUnique | src/main/java/snapsort/extractor/DateChooser.java:111-118 | two valid dates with the same day number are the same date |
| Time.PlusSeconds | src/main/java/snapsort/renamer/Deduplicator.java:42-44 | plusSeconds(k) lies exactly k epoch seconds later, carrying through every field |
| Time.PlusZero | src/main/java/snapsort/renamer/Deduplicator.java:40-44 | the first file of a group, shifted by 0, keeps its time |
| Time.PlusSecondsMoves | src/main/java/snapsort/renamer/Deduplicator.java:43-44 | a non-zero shift always changes the date-time |
| Time.ExampleMinuteCarry | src/test/java/snapsort/ApplicationTest.java:102-106 | 2024-05-30 21:03:59 plus 1 and 2 seconds is 21:04:00 and 21:04:01 |
| Time.AtTime | src/main/java/snapsort/extractor/ExifDateExtractor.java:87-90 | LocalDateTime.of(date, time) keeps the date's and the time's fields |
| Time.AtStartOfDay | src/main/java/snapsort/Main.java:134-136 | atStartOfDay is the date at 00:00:00 |
| Time.NextDay | src/main/java/snapsort/extractor/filename/BaseFileNameDateExtractor.java:50 | plusDays(1), as the parser uses for 24:00:00: the day number grows by one |
| Time.BeforeImpliesEarlierEpoch | src/main/java/snapsort/DateRange.java:23-29 | an isBefore date-time has a smaller epoch second |
| Time.BeforeIffEarlierEpoch | src/main/java/snapsort/DateRange.java:23-29 | isBefore holds exactly when the epoch second is smaller, so isBefore is a strict total order |
| Time.IsBefore | src/main/java/snapsort/DateRange.java:23-29 | isBefore: the lexicographic order of the fields; equal to the epoch order by BeforeIffEarlierEpoch |
| Formats.ReplaceChar | src/main/java/snapsort/extractor/filename/FinalFileNameDateExtractor.java:17-20 | String.replace of one character: same length, that character replaced everywhere and nothing else changed |
| Formats.Pad2 | src/main/java/snapsort/extractor/filename/FinalFileNameDateExtractor.java:12-15 | a two-digit field prints as exactly two digits |
| Formats.Pad4 | src/main/java/snapsort/extractor/filename/FinalFileNameDateExtractor.java:12-15 | a four-digit year prints as exactly four digits |
| Formats.Read2Pad2 | src/main/java/snapsort/extractor/filename/BaseFileNameDateExtractor.java:50 | reading two printed digits gives the value back |
| Formats.Read4Pad4 | src/main/java/snapsort/extractor/filename/BaseFileNameDateExtractor.java:50 | reading four printed digits gives the value back |
| Formats.YearOfEra | src/main/java/snapsort/renamer/RenameGenerator.java:17 | the year-of-era that "yyyy" prints is at least 1 |
| Formats.Decimal | src/main/java/snapsort/renamer/RenameGenerator.java:17 | a number prints as a non-empty string of digits, one digit exactly below 10; used for years too wide for four digits |
| Formats.FormatYear | src/main/java/snapsort/renamer/RenameGenerator.java:17 | "yyyy" prints four digits for years up to 9999, else '+' followed by the digits |
| Formats.FormatDate | src/main/java/snapsort/renamer/RenameGenerator.java:18 | "yyyyMMdd" and other date patterns: 8 characters plus the separators for four-digit years |
| Formats.FormatTime | src/main/java/snapsort/extractor/filename/FinalFileNameDateExtractor.java:12-15 | "HH.mm.ss": 6 characters plus the separators |
| Formats.Format | src/main/java/snapsort/extractor/filename/FinalFileNameDateExtractor.java:12-15 | the formatted text has 14 characters plus the separators for four-digit years |
| Formats.FormatAvoids | src/main/java/snapsort/extractor/filename/FinalFileNameDateExtractor.java:12-15 | a formatted date-time holds only digits, '+' and the pattern's separators |
| Formats.TakeLiteral | src/main/java/snapsort/extractor/filename/BaseFileNameDateExtractor.java:50 | a pattern literal is matched exactly when the text starts with it, and the rest follows |
| Formats.Take2 | src/main/java/snapsort/extractor/filename/BaseFileNameDateExtractor.java:50 | a two-digit field reads the first two characters as digits |
| Formats.Take4 | src/main/java/snapsort/extractor/filename/BaseFileNameDateExtractor.java:50 | a four-digit field reads the first four characters as digits |
| Formats.ResolveDate | src/main/java/snapsort/extractor/filename/BaseFileNameDateExtractor.java:50 | SMART resolution: year ≥ 1, month 1..12, day 1..31, and a day past the month's end becomes its last day |
| Formats.ResolveDateTime | src/main/java/snapsort/extractor/filename/BaseFileNameDateExtractor.java:50 | minutes and seconds below 60; hour 24 allowed only at 24:00:00, which is the next day's midnight |
| Formats.ParseDatePartFormat | src/main/java/snapsort/extractor/filename/BaseFileNameDateExtractor.java:50 | a printed date part reads back to its fields, whatever follows |
| Formats.ParseTimePartFormat | src/main/java/snapsort/extractor/filename/BaseFileNameDateExtractor.java:50 | a printed time part reads back to its fields, whatever follows |
| Formats.ParseFieldsText | src/main/java/snapsort/extractor/filename/BaseFileNameDateExtractor.java:50 | any printed raw fields parse back and then resolve as the resolver says |
| Formats.ParseDateText | src/main/java/snapsort/extractor/ExifDateExtractor.java:89 | LocalDate.parse accepts a date text exactly when its fields resolve |
| Formats.ParseFormat | src/main/java/snapsort/extractor/filename/FinalFileNameDateExtractor.java:12-15 | parsing what a formatter printed gives back the date-time, for years 1 to 9999 |
| Formats.ParseDateTime | src/main/java/snapsort/extractor/filename/BaseFileNameDateExtractor.java:50 | LocalDateTime.parse(text, formatter): the strict field read, then SMART resolution; its behaviour is stated by ParseFieldsText and ParseFormat |
| Formats.ParseDate | src/main/java/snapsort/extractor/ExifDateExtractor.java:89 | LocalDate.parse(text, "yyyy:MM:dd"): the date part alone with nothing after it; stated by ParseDateText |
| Formats.FormatInjective | src/main/java/snapsort/extractor/filename/FinalFileNameDateExtractor.java:12-15 | for years 1 to 9999, two date-times that print the same under one pattern are equal |
| FileTypes.FileName | src/main/java/snapsort/files/FileTypeUtil.java:24 | getFileName is the text after the last '/', and holds no '/' |
| FileTypes.IndexOfExtension | src/main/java/snapsort/files/FileTypeUtil.java:25-29 | the last '.' with no separator after it, or -1 when there is none |
| FileTypes.ExtensionSplit | src/main/java/snapsort/files/FileTypeUtil.java:23-30 | withoutExtension + "." + the original-case extension is the name, and that extension lower-cased is getLowercaseExtension; a name with no '.' is kept whole |
| FileTypes.NoExtension | src/main/java/snapsort/files/FileTypeUtil.java:23-30 | a name with no '.' is unchanged by withoutExtension and has the empty extension |
| FileTypes.ExtensionParts | src/main/java/snapsort/files/FileTypeUtil.java:23-30 | base, '.', extension rebuild the name; the extension holds no '.' |
| FileTypes.LowerExtension | src/main/java/snapsort/files/FileTypeUtil.java:28-30 | the extension of the lower-cased name is the lower-cased extension |
| FileTypes.LowerIndexOfExtension | src/main/java/snapsort/files/FileTypeUtil.java:28-30 | lower-casing the name does not move its extension |
| FileTypes.OnlyFileNameMatters | src/main/java/snapsort/files/FileTypeUtil.java:23-30 | the folder part of a path never affects withoutExtension or getLowercaseExtension |
| FileTypes.NameOnly | src/main/java/snapsort/files/FileTypeUtil.java:24 | a path without '/' is its own file name |
| FileTypes.FileKinds | src/main/java/snapsort/files/FileTypeUtil.java:10-21 | isJpegFile iff the extension is jpg or jpeg; isSupportedExtension iff it is in the nine-element set; every JPEG is supported |
| FileTypes.IsJpegFile | src/main/java/snapsort/files/FileTypeUtil.java:13-16 | isJpegFile: the lower-cased extension is "jpeg" or "jpg"; stated by FileKinds |
| FileTypes.IsSupportedExtension | src/main/java/snapsort/files/FileTypeUtil.java:10-21 | isSupportedExtension: the lower-cased extension is one of the nine supported ones; stated by FileKinds |
| FileTypes.GetExtension | src/main/java/snapsort/files/FileTypeUtil.java:29 | FilenameUtils.getExtension: the text after IndexOfExtension, or ""; stated by ExtensionParts and ExtensionCharacters |
| FileTypes.RemoveExtension | src/main/java/snapsort/files/FileTypeUtil.java:25 | FilenameUtils.removeExtension: the text before IndexOfExtension, or the whole name; stated by ExtensionParts and NoExtension |
| FileTypes.WithoutExtension | src/main/java/snapsort/files/FileTypeUtil.java:23-26 | withoutExtension: removeExtension of the file name; stated by ExtensionSplit and OnlyFileNameMatters |
| FileTypes.LowercaseExtension | src/main/java/snapsort/files/FileTypeUtil.java:28-30 | getLowercaseExtension: the extension of the lower-cased file name; stated by ExtensionSplit and LowerExtension |
| FileTypes.ExtensionAt | src/main/java/snapsort/files/FileTypeUtil.java:23-30 | for base.ext with no separators, the extension is ext and the base is base |
| FileTypes.LowercaseExtensionOf | src/main/java/snapsort/files/FileTypeUtil.java:28-30 | a file name without separators that lower-cases to base, '.' and ext has the lower-cased extension ext |
| FileTypes.ExtensionCharacters | src/main/java/snapsort/files/FileTypeUtil.java:28-30 | an extension holds no '.', '/' or '\\' |
| FileTypes.ExampleUpperCaseJpeg | src/main/java/snapsort/files/FileTypeUtil.java:13-16 | "IMG.JPG" has the extension "jpg" and is a JPEG |
| FileTypes.ExampleVideoName | src/main/java/snapsort/files/FileTypeUtil.java:23-30 | "clip.MP4" has the extension "mp4" and the base "clip" |
| FileTypes.ExampleVideoInFolder | src/main/java/snapsort/files/FileTypeUtil.java:13-30 | "videos/clip.MP4" is supported, not a JPEG, and its base name is "clip" |
| DateRanges.CheckInRange | src/main/java/snapsort/extractor/DateChooser.java:77-84 | a set time is checked against the window; a null time passes with no bound and throws NullPointerException with one |
| DateRanges.FromDates | src/main/java/snapsort/Main.java:128-136 | each given bound is its date at 00:00:00, and an absent date gives an absent bound |
| DateRanges.InRangeOfEpochs | src/main/java/snapsort/DateRange.java:19-29 | isInRange is isAfterMin and isBeforeMax; each is a strict comparison of epoch seconds, or true when its bound is absent |
| DateRanges.BoundsExclusive | src/main/java/snapsort/DateRange.java:23-29 | a time equal to either bound is rejected; with no bounds every time is accepted |
| DateRanges.EmptyWhenMinNotBeforeMax | src/main/java/snapsort/DateRange.java:19-29 | when min is not before max nothing is in range |
| DateRanges.InRangeConvex | src/main/java/snapsort/DateRange.java:19-29 | anything between two accepted times is accepted |
| DateRanges.IsInRange | src/main/java/snapsort/DateRange.java:19-21 | isInRange: isAfterMin and isBeforeMax; stated by InRangeOfEpochs |
| DateRanges.IsAfterMin | src/main/java/snapsort/DateRange.java:23-25 | isAfterMin: no min, or min isBefore the time; stated by InRangeOfEpochs and BoundsExclusive |
| DateRanges.IsBeforeMax | src/main/java/snapsort/DateRange.java:27-29 | isBeforeMax: no max, or the time isBefore max; stated by InRangeOfEpochs and BoundsExclusive |
| DateRanges.ExampleTestWindows | src/test/java/snapsort/ApplicationTest.java:64-91 | from 2024-01-01 the 2016 photo is dropped, before 2024-06-01 the 2025 file is dropped, and May 2024 passes both |
| FileNameExtractors.ParseWithFormatters | src/main/java/snapsort/extractor/filename/BaseFileNameDateExtractor.java:44-58 | null input gives null; otherwise null iff every formatter fails, else the result of the first formatter that parses |
| FileNameExtractors.FirstFormatterFails | src/main/java/snapsort/extractor/filename/BaseFileNameDateExtractor.java:48-57 | a failing first formatter hands the decision to the rest |
| FileNameExtractors.ReplaceInLayoutPattern | src/main/java/snapsort/extractor/filename/FinalFileNameDateExtractor.java:17-20 | String.replace on a pattern text is the pattern with those literals replaced |
| FileNameExtractors.FinalPatterns | src/main/java/snapsort/extractor/filename/FinalFileNameDateExtractor.java:12-20 | the three patterns are "yyyy-MM-dd HH.mm.ss" and the target pattern with '.' replaced by '-' and by ':' |
| FileNameExtractors.RemovePrefix | src/main/java/snapsort/extractor/filename/FromCameraFileNameDateExtractor.java:21-38 | throws exactly for two parts with a non-numeric first; a result is the 8- and 6-character tokens at parts 0/1 (numeric first part) or 1/2 joined by a space |
| FileNameExtractors.ExtractDates | src/main/java/snapsort/extractor/filename/BaseFileNameDateExtractor.java:27-42 | at most one candidate: none when the base name does not parse, else its time with the extractor's source; the final-name extractor never fails |
| FileNameExtractors.ExtractSingleDate | src/main/java/snapsort/extractor/filename/BaseFileNameDateExtractor.java:35-42 | extractSingleDate: parse the name without its extension and tag a found time with the source; stated through ExtractDates |
| FileNameExtractors.Parse | src/main/java/snapsort/extractor/filename/BaseFileNameDateExtractor.java:44-58 | parse as each subclass defines it: the three final formatters, or removePrefix then the camera formatter; stated by FinalParsesTarget and the CameraName lemmas |
| FileNameExtractors.CameraParse | src/main/java/snapsort/extractor/filename/FromCameraFileNameDateExtractor.java:16-19 | FromCameraFileNameDateExtractor.parse: removePrefix, then the camera formatter; stated by CameraNameWithPrefix, CameraNameWithoutPrefix, CameraNameTwoParts and CameraNameSinglePart |
| FileNameExtractors.IsNumber | src/main/java/snapsort/extractor/filename/FromCameraFileNameDateExtractor.java:40-42 | isNumber: every character a digit, true of ""; ASCII digits only (see Left out) |
| FileNameExtractors.ParsedShape | src/main/java/snapsort/extractor/filename/BaseFileNameDateExtractor.java:48-57 | any accepted text has 19 characters with the separators in place |
| FileNameExtractors.FinalNameShape | src/main/java/snapsort/extractor/filename/FinalFileNameDateExtractor.java:16-20 | every accepted base name is "dddd-dd-dd dd?dd?dd" with one time separator from '.', '-', ':' used twice |
| FileNameExtractors.FinalParsesTarget | src/main/java/snapsort/extractor/filename/FinalFileNameDateExtractor.java:14-15 | a name printed by the target formatter parses back to its date-time (years 1 to 9999) |
| FileNameExtractors.FinalParsesVariants | src/main/java/snapsort/extractor/filename/FinalFileNameDateExtractor.java:16-20 | the '-' and ':' time-separator variants parse back to their date-time too |
| FileNameExtractors.FinalParsesTargetText | src/main/java/snapsort/extractor/filename/BaseFileNameDateExtractor.java:48-57 | printed raw fields in the target form give exactly what the resolver gives |
| FileNameExtractors.ExampleFinalName | src/main/java/snapsort/extractor/filename/FinalFileNameDateExtractor.java:12-15 | 2024-05-30 21:03:59 prints as "2024-05-30 21.03.59", which parses back |
| FileNameExtractors.ExampleTrailingText | src/main/java/snapsort/extractor/filename/BaseFileNameDateExtractor.java:48-57 | "2024-05-30 21.03.59 (1)" gives no date |
| FileNameExtractors.ExampleMonth13 | src/main/java/snapsort/extractor/filename/BaseFileNameDateExtractor.java:48-57 | month 13 gives no date |
| FileNameExtractors.ExampleHour24 | src/main/java/snapsort/extractor/filename/BaseFileNameDateExtractor.java:48-57 | "2024-05-30 24.00.00" is 2024-05-31 00:00:00 |
| FileNameExtractors.ExampleHour24NotMidnight | src/main/java/snapsort/extractor/filename/BaseFileNameDateExtractor.java:48-57 | "2024-05-30 24.30.00" gives no date |
| FileNameExtractors.ExampleDayClamped | src/main/java/snapsort/extractor/filename/BaseFileNameDateExtractor.java:48-57 | "2024-02-30 10.00.00" is 2024-02-29 10:00:00 |
| FileNameExtractors.SplitThree | src/main/java/snapsort/extractor/filename/FromCameraFileNameDateExtractor.java:24 | a_b_c followed by more '_' parts splits with a, b, c first |
| FileNameExtractors.SplitTwo | src/main/java/snapsort/extractor/filename/FromCameraFileNameDateExtractor.java:24 | a_b, with or without a trailing '_', splits into exactly a and b |
| FileNameExtractors.SplitTwoOrMore | src/main/java/snapsort/extractor/filename/FromCameraFileNameDateExtractor.java:24-25 | a name with a second '_'-separated part splits into at least two parts, the first two being those pieces |
| FileNameExtractors.CameraNameWithPrefix | src/main/java/snapsort/extractor/filename/FromCameraFileNameDateExtractor.java:16-38 | any non-numeric PREFIX_date_time, with anything after it, parses date + " " + time with "yyyyMMdd HHmmss" |
| FileNameExtractors.CameraNameWithoutPrefix | src/main/java/snapsort/extractor/filename/FromCameraFileNameDateExtractor.java:16-38 | a numeric first part: date_time parses the same way |
| FileNameExtractors.CameraNameTwoParts | src/main/java/snapsort/extractor/filename/FromCameraFileNameDateExtractor.java:24-33 | PREFIX_token with a non-numeric prefix throws the array index error |
| FileNameExtractors.CameraNameSinglePart | src/main/java/snapsort/extractor/filename/FromCameraFileNameDateExtractor.java:24-27 | a name without '_' gives no date |
| FileNameExtractors.CameraNameLeadingSeparator | src/main/java/snapsort/extractor/filename/FromCameraFileNameDateExtractor.java:24-36 | a name starting with '_' has an empty, numeric first part and gives no date |
| FileNameExtractors.CameraPattern | src/main/java/snapsort/extractor/filename/FromCameraFileNameDateExtractor.java:12 | the camera formatter's pattern is "yyyyMMdd HHmmss" |
| FileNameExtractors.ExampleCameraTokens | src/main/java/snapsort/extractor/filename/FromCameraFileNameDateExtractor.java:12 | "20160804 100935" is 2016-08-04 10:09:35 |
| FileNameExtractors.ExampleCameraWithPrefix | src/main/java/snapsort/extractor/filename/FromCameraFileNameDateExtractor.java:16-38 | IMG_20160804_100935, with any non-numeric prefix and any further parts, is 2016-08-04 10:09:35 |
| FileNameExtractors.ExampleCameraWithoutPrefix | src/main/java/snapsort/extractor/filename/FromCameraFileNameDateExtractor.java:16-38 | 20160804_100935 is 2016-08-04 10:09:35 |
| FileNameExtractors.ExampleCameraMissingTime | src/main/java/snapsort/extractor/filename/FromCameraFileNameDateExtractor.java:24-33 | "IMG_20160804" and "IMG_20160804_" throw the array index error |
| FileNameExtractors.ExampleCameraVideo | src/test/java/snapsort/ApplicationTest.java:107-108 | a camera video name VID_20240530_210412 is 2024-05-30 21:04:12 |
| Exif.ParseExifDateTime | src/main/java/snapsort/extractor/ExifDateExtractor.java:101-107 | an unquoted description gives null; "'" throws; a quoted text parses as "yyyy:MM:dd HH:mm:ss" or throws |
| Exif.ExtractFieldDate | src/main/java/snapsort/extractor/ExifDateExtractor.java:93-99 | an absent field gives no candidate; a present one gives a candidate with its source whenever parseDateTime does not throw |
| Exif.ExtractGpsDate | src/main/java/snapsort/extractor/ExifDateExtractor.java:79-91 | with a field missing or a time not of three parts: no candidate; a time part out of range: DateTimeException; a date that does not parse: DateTimeParseException; otherwise the candidate is that date at that time, and every candidate arises this way |
| Exif.NonNull | src/main/java/snapsort/extractor/ExifDateExtractor.java:70-75 | nonNull keeps exactly the present candidates |
| Exif.NonNullNone | src/main/java/snapsort/extractor/ExifDateExtractor.java:70-75 | a list of absent results gives the empty list |
| Exif.NonNullSingle | src/main/java/snapsort/extractor/ExifDateExtractor.java:70-75 | one present result gives that one candidate |
| Exif.NonNullInOrder | src/main/java/snapsort/extractor/ExifDateExtractor.java:70-75 | removing nulls keeps the candidates in source order |
| Exif.FieldTagged | src/main/java/snapsort/extractor/ExifDateExtractor.java:93-99 | extractDate(field, source) tags its candidate with that source |
| Exif.GpsTagged | src/main/java/snapsort/extractor/ExifDateExtractor.java:90 | the GPS candidate is tagged EXIF_GPS_DATE_TIME |
| Exif.OfNonNullOrdered | src/main/java/snapsort/extractor/ExifDateExtractor.java:70-75 | at most four candidates, in the order GPS, DateTime, Digitized, Original |
| Exif.ExifCandidatesOrdered | src/main/java/snapsort/extractor/ExifDateExtractor.java:37-76 | a non-JPEG or a read without EXIF gives none; otherwise at most four candidates in fixed source order with distinct sources |
| Exif.ExtractDates | src/main/java/snapsort/extractor/ExifDateExtractor.java:37-60 | extractDates: nothing for a non-JPEG or without EXIF, else the TIFF candidates or the exception they raise; stated by ExifCandidatesOrdered |
| Exif.ExtractTiffDates | src/main/java/snapsort/extractor/ExifDateExtractor.java:63-76 | extractDate(tiff): GPS, DateTime, Digitized, Original, non-null ones kept; stated by UnquotedFieldGivesNullTime, QuotedMalformedFails, GpsTimeOutOfRangeFails and ExampleDateTimeOriginal |
| Exif.OfNonNull | src/main/java/snapsort/extractor/ExifDateExtractor.java:70-75 | StreamEx.of(...).nonNull(): the first exception among the four arguments, else the present candidates; stated by OfNonNullOrdered |
| Exif.UnquotedFieldGivesNullTime | src/main/java/snapsort/extractor/ExifDateExtractor.java:93-104 | a present unquoted field yields a candidate whose time is null |
| Exif.QuotedMalformedFails | src/main/java/snapsort/extractor/ExifDateExtractor.java:101-107 | a quoted malformed date throws DateTimeParseException instead of being skipped |
| Exif.GpsTimeOutOfRangeFails | src/main/java/snapsort/extractor/ExifDateExtractor.java:83-87 | a GPS hour of 24 or more makes LocalTime.of throw |
| Exif.QuotedDescription | src/main/java/snapsort/extractor/ExifDateExtractor.java:101-107 | the text between the quotes is what gets parsed |
| Exif.ExamplePhotoParse | src/main/java/snapsort/extractor/ExifDateExtractor.java:33 | "2016:09:19 21:11:12" is 2016-09-19 21:11:12 |
| Exif.ExampleDateTimeOriginal | src/main/java/snapsort/extractor/ExifDateExtractor.java:63-76 | a photo whose only field is DateTimeOriginal gives that one candidate |
| Chooser.FirstNonEmpty | src/main/java/snapsort/extractor/DateChooser.java:59-64 | empty iff every extractor found nothing; else the list of the first extractor that found something or threw |
| Chooser.FirstNonEmptyAt | src/main/java/snapsort/extractor/DateChooser.java:59-64 | when the extractors before i found nothing, extractor i decides and later ones are never consulted |
| Chooser.FilterInRange | src/main/java/snapsort/extractor/DateChooser.java:66-69 | throws iff a bound is set and a candidate has a null time; else keeps exactly the admitted candidates with their multiplicities |
| Chooser.FilterNoneAdmitted | src/main/java/snapsort/extractor/DateChooser.java:66-69 | candidates all out of range filter to nothing |
| Chooser.Distinct | src/main/java/snapsort/extractor/DateChooser.java:93 | new HashSet(dates): the same elements, no duplicates, and a duplicate-free list unchanged |
| Chooser.MeanEpoch | src/main/java/snapsort/extractor/DateChooser.java:96-103 | the mean truncated toward zero; fails, as ofEpochSecond does, when the sum is negative with a non-zero fraction |
| Chooser.NegativeMeanBounds | src/main/java/snapsort/extractor/DateChooser.java:100-103 | for a negative sum the nanos are non-zero exactly when the mean has a fraction |
| Chooser.FindFurthestToTarget | src/main/java/snapsort/extractor/DateChooser.java:120-135 | a candidate furthest from the mean, the first such one in iteration order |
| Chooser.FirstMax | src/main/java/snapsort/extractor/DateChooser.java:120-124 | Stream.max: an element no other exceeds, with every earlier one strictly smaller |
| Chooser.RemoveAt | src/main/java/snapsort/extractor/DateChooser.java:106 | HashSet.remove: one fewer element, the others kept in order |
| Chooser.RemoveAtKeeps | src/main/java/snapsort/extractor/DateChooser.java:106 | removal keeps the remaining candidates among the old ones |
| Chooser.FindClosestDates | src/main/java/snapsort/extractor/DateChooser.java:86-109 | the result is one the loop can reach under some HashSet iteration order, after one removal per step |
| Chooser.MayEndSurvivor | src/main/java/snapsort/extractor/DateChooser.java:95-108 | the loop's survivor is one of the set's elements |
| Chooser.ClosestIsCandidate | src/main/java/snapsort/extractor/DateChooser.java:86-109 | findClosestDates returns one of its inputs, or null |
| Chooser.MayEndNonNegative | src/main/java/snapsort/extractor/DateChooser.java:95-107 | with times at or after the epoch the loop cannot fail and, from two candidates up, returns one |
| Chooser.ClosestNonNegative | src/main/java/snapsort/extractor/DateChooser.java:86-109 | the same for findClosestDates as a whole |
| Chooser.CollapsedCandidates | src/main/java/snapsort/extractor/DateChooser.java:93-108 | two or more candidates equal as values give null |
| Chooser.MeanOfTwo | src/main/java/snapsort/extractor/DateChooser.java:111-118 | the truncated mean of a ≤ b is a + (b − a) / 2 |
| Chooser.MayEndOfTwo | src/main/java/snapsort/extractor/DateChooser.java:93-108 | with two candidates the survivor is the one not furthest from the mean |
| Chooser.FurthestOfTwo | src/main/java/snapsort/extractor/DateChooser.java:126-135 | which of two candidates is furthest from a point |
| Chooser.ContinuesOfTwo | src/main/java/snapsort/extractor/DateChooser.java:106-108 | removing one of two leaves the other as the result |
| Chooser.TwoCandidatesOddGap | src/main/java/snapsort/extractor/DateChooser.java:93-128 | two epochs a < b at an odd distance: b is removed and a returned |
| Chooser.TwoCandidatesEvenGap | src/main/java/snapsort/extractor/DateChooser.java:93-128 | at an even distance both are furthest, so either may be returned |
| Chooser.NegativeFractionalMeanFails | src/main/java/snapsort/extractor/DateChooser.java:100-103 | a negative sum with a fraction throws DateTimeException |
| Chooser.Extractors | src/main/java/snapsort/extractor/DateChooser.java:40-52 | final name, EXIF, camera name, then the last-modified extractor exactly when the flag is set |
| Chooser.ExtractDates | src/main/java/snapsort/extractor/DateExtractor.java:8-10 | DateExtractor.extractDates dispatched to the final-name, EXIF, camera-name and last-modified extractors; stated by ExtractorCandidatesDistinct and LastModifiedFallback |
| Chooser.DateChooser.constructor | src/main/java/snapsort/extractor/DateChooser.java:33-54 | the extractor list and the window the chooser keeps |
| Chooser.DateChooser.ComputeTimestamp | src/main/java/snapsort/extractor/DateChooser.java:57-75 | first non-empty list, then the window filter, then findClosestDates, failures propagated |
| Chooser.NoCandidateGivesNull | src/main/java/snapsort/extractor/DateChooser.java:57-75 | no extractor finds anything: the timestamp is null |
| Chooser.OutOfRangeWinnerGivesNull | src/main/java/snapsort/extractor/DateChooser.java:66-70 | the deciding extractor's candidates all out of range give null, whatever later extractors would say |
| Chooser.SingleCandidateChosen | src/main/java/snapsort/extractor/DateChooser.java:86-92 | a single admitted candidate is the result |
| Chooser.LastModifiedFallback | src/main/java/snapsort/extractor/DateChooser.java:49-52 | with nothing else found, the last-modified time is used only when the flag is set |
| Chooser.ChosenIsAdmittedCandidate | src/main/java/snapsort/extractor/DateChooser.java:57-75 | a chosen timestamp is in the window and comes from the deciding extractor |
| Chooser.ExtractorCandidatesDistinct | src/main/java/snapsort/extractor/DateChooser.java:59-64 | no extractor lists the same candidate twice |
| Chooser.FilterKeepsDistinct | src/main/java/snapsort/extractor/DateChooser.java:68 | filtering keeps a duplicate-free list duplicate-free |
| Chooser.ChooserCandidatesDistinct | src/main/java/snapsort/extractor/DateChooser.java:59-70 | the list findClosestDates receives is duplicate-free |
| Deduplication.FileInfo.constructor | src/main/java/snapsort/files/FileInfo.java:11-12 | a file record holds its path and its timestamp |
| Deduplication.PathsAntisymmetric | src/main/java/snapsort/files/FileInfo.java:14-17 | compareTo by path changes sign on swap, for any list of files |
| Deduplication.ComparePaths | src/main/java/snapsort/files/FileInfo.java:14-17 | compareTo: the paths compared as strings; antisymmetric by PathsAntisymmetric |
| Deduplication.Indexes | src/main/java/snapsort/renamer/Deduplicator.java:53-56 | the positions of a time, in increasing (encounter) order |
| Deduplication.Deduplicated | src/main/java/snapsort/renamer/Deduplicator.java:27-51 | one stamp per file, each the entry of its position; what that entry is is stated by UniqueKeepsStamp and GroupMemberShifted |
| Deduplication.UniqueKeepsStamp | src/main/java/snapsort/renamer/Deduplicator.java:33-37 | a file whose time no other file shares keeps its timestamp and source |
| Deduplication.GroupMemberShifted | src/main/java/snapsort/renamer/Deduplicator.java:39-48 | the k-th member of a group of n > 1 gets t + k seconds, tagged COLLISION_AVOIDANCE |
| Deduplication.DeduplicatedGroupwise | src/main/java/snapsort/renamer/Deduplicator.java:31-49 | group by group, the result is the step's treatment of that group |
| Deduplication.SingleGroupKept | src/main/java/snapsort/renamer/Deduplicator.java:34-37 | a group of one keeps its stamp |
| Deduplication.SharedGroupSpread | src/main/java/snapsort/renamer/Deduplicator.java:39-48 | a group of several gets the spread of its stamps |
| Deduplication.GroupTimesSpread | src/main/java/snapsort/renamer/Deduplicator.java:40-48 | inside a former group the new times differ pairwise, are never earlier and are less than the group size later |
| Deduplication.SecondOfPairShifted | src/main/java/snapsort/renamer/Deduplicator.java:40-47 | the second of two files sharing a time gets one second more |
| Deduplication.LastOfThreeKept | src/main/java/snapsort/renamer/Deduplicator.java:33-37 | a file after a colliding pair, with its own time, keeps its stamp |
| Deduplication.NotCollisionFree | src/main/java/snapsort/renamer/Deduplicator.java:30 | t, t, t + 1 becomes t, t + 1, t + 1: one pass does not remove every collision |
| Deduplication.RanksOfThree | src/main/java/snapsort/renamer/Deduplicator.java:53-56 | three files with one time are ranked 0, 1, 2 in list order |
| Deduplication.ThreeCollisions | src/main/java/snapsort/renamer/Deduplicator.java:39-48 | three files sharing t end at t, t + 1 and t + 2 seconds, all retagged |
| Deduplication.ExampleThreeCollisions | src/test/java/snapsort/ApplicationTest.java:102-106 | three files at 2024-05-30 21:03:59 end at 21:03:59, 21:04:00 and 21:04:01 |
| Deduplication.GroupByDate | src/main/java/snapsort/renamer/Deduplicator.java:53-56 | throws on a null time; else maps exactly the files' times to their files, in list order |
| Deduplication.AddToGroup | src/main/java/snapsort/renamer/Deduplicator.java:55 | one file appended to the group of its time, created when absent |
| Deduplication.GroupFilesAt | src/main/java/snapsort/renamer/Deduplicator.java:53-56 | the k-th file of a group is the file at the k-th position of that time |
| Deduplication.SpreadGroup | src/main/java/snapsort/renamer/Deduplicator.java:40-48 | the group's files end holding the spread of their stamps, and no other object changes |
| Deduplication.RetagAt | src/main/java/snapsort/renamer/Deduplicator.java:42-47 | one loop step: the k-th file gets its time plus secondsDelta, retagged |
| Deduplication.DeduplicateDatesStep | src/main/java/snapsort/renamer/Deduplicator.java:27-51 | throws on a null time without changing anything; else every file holds its Deduplicated stamp, the result lists the same files and collisions is false |
| Deduplication.DeduplicateDates | src/main/java/snapsort/renamer/Deduplicator.java:19-25 | one pass, then the same files sorted by path, each holding its Deduplicated stamp |
| Deduplication.VisitGroups | src/main/java/snapsort/renamer/Deduplicator.java:31-49 | after the loop over the groups every file is listed once and holds its target stamp |
| Deduplication.VisitGroup | src/main/java/snapsort/renamer/Deduplicator.java:32-48 | one group visited keeps the loop invariant with that group done |
| Deduplication.VisitFiles | src/main/java/snapsort/renamer/Deduplicator.java:34-48 | the files of a group are added to the result, each with its new stamp |
| Deduplication.ResolveConflict | src/main/java/snapsort/renamer/Deduplicator.java:39-48 | the conflict branch takes a group from its original stamps to their spread, touching nothing else |
| Renaming.CompareRenamedLexicographic | src/main/java/snapsort/renamer/RenamedFile.java:13-20 | less iff the folder is less, or the folders are equal and the name is less; differing folders decide alone |
| Renaming.CompareRenamedZero | src/main/java/snapsort/renamer/RenamedFile.java:13-20 | 0 exactly when folder and name are both equal |
| Renaming.CompareIgnoresCurrentFile | src/main/java/snapsort/renamer/RenamedFile.java:13-20 | the source path never affects the order |
| Renaming.CompareRenamedAntisymmetric | src/main/java/snapsort/renamer/RenamedFile.java:13-20 | compareTo changes sign on swap |
| Renaming.CompareRenamedTransitive | src/main/java/snapsort/renamer/RenamedFile.java:13-20 | the strict order is transitive |
| Renaming.CompareRenamedTransitiveLe | src/main/java/snapsort/renamer/RenamedFile.java:13-20 | the non-strict order is transitive |
| Renaming.CompareRenamed | src/main/java/snapsort/renamer/RenamedFile.java:13-20 | compareTo: the folders first, then the names; stated by the CompareRenamed lemmas |
| Renaming.GenerateExtension | src/main/java/snapsort/renamer/RenameGenerator.java:34-40 | "jpg" exactly for JPEG files, else the lower-cased extension; never "jpeg", never a '.' or separator |
| Renaming.GenerateRenamedFile | src/main/java/snapsort/renamer/RenameGenerator.java:24-32 | throws NullPointerException exactly on a null time; else the name and folder of that time, with the file's path |
| Renaming.RenameOf | src/main/java/snapsort/renamer/RenameGenerator.java:24-32 | the entry of a non-null time: formatted name plus generated extension, year and day folder, the file's path; stated by NameParts, FolderMatchesName, RenamedPathParsesBack and NamesCollide |
| Renaming.NameParts | src/main/java/snapsort/renamer/RenameGenerator.java:26-28 | the new name has no '/', its base is the formatted time and its extension the generated one |
| Renaming.RenamedPathParsesBack | src/main/java/snapsort/renamer/RenameGenerator.java:26-28 | the final-name extractor reads folder/name back as the timestamp, tagged FINAL_FILE_NAME |
| Renaming.FolderMatchesName | src/main/java/snapsort/renamer/RenameGenerator.java:26-30 | the folder is the name's year, "/", the name's first 10 characters without '-', and "_" |
| Renaming.NamesCollide | src/main/java/snapsort/renamer/RenameGenerator.java:26-30 | two entries share a name, or compare equal, exactly when time and extension are equal |
| Renaming.RenameAll | src/main/java/snapsort/renamer/RenameGenerator.java:21 | throws iff some file has a null time; else one entry per file, in order |
| Renaming.GenerateRenamedFileNames | src/main/java/snapsort/renamer/RenameGenerator.java:20-22 | the same failure, else the entries of all files sorted by RenamedFile order, with entries that compare equal kept in file order |
| Renaming.PlanConsistent | src/main/java/snapsort/renamer/RenamedFile.java:13-20 | two entries that compare equal to a third compare equal, so the stable sort applies |
| Renaming.EqualEntriesKeepOrder | src/main/java/snapsort/renamer/RenameGenerator.java:21 | two entries with the same folder and name stay in plan order, which decides which file the renamer moves and which it skips |
| Renaming.ExampleExtensions | src/main/java/snapsort/renamer/RenameGenerator.java:34-40 | IMG.JPG and DSC.JPEG get "jpg", videos/clip.MP4 gets "mp4" |
| Renaming.ExampleRename | src/main/java/snapsort/renamer/RenameGenerator.java:24-32 | IMG.JPG at 2016-09-19 21:11:12 goes to "2016/20160919_" as "2016-09-19 21.11.12.jpg" |

## Left out

- Main, Renamer and FileLister are not part of this model. Option parsing, dependency injection, the filesystem walk and the moves are all I/O. Only the start-of-day bounds from Main are modelled, as `DateRanges.FromDates`.
- The last-modified extractor and its conversion to the system time zone are left out. The time is a field of the file record, truncated to the second: a `Success` value, or an `IOException`.
- Commons Imaging decoding is left out. The EXIF extractor gets the fields it looks for as an `ExifFields` record, and the outcome of the read as a `MetadataRead` value.
- Logging is left out; it never changes a result.
- floating-point mean: the mean is the Java `long` sum divided and truncated toward zero. The nanosecond fraction appears only as its sign, which is what makes `ofEpochSecond` throw. The rounding of `double` for means beyond 2^53 seconds is not modelled.
- `long` overflow of the epoch-second sum is not modelled: integers are unbounded.
- `diff` uses the system zone's offset at each date. The model uses one fixed offset, which cancels in every difference, so daylight-saving changes between candidates are not modelled.
- Time is modelled to the second. The parsed name and EXIF patterns have no fraction field, so their times are whole seconds. The file record's last-modified time is the one exception: it stands for the last-modified time truncated to the second, while the program keeps its sub-second part. That candidate reaches the later steps only when no other extractor found anything, and it differs from the program in two places:
  - grouping by time (Deduplicator.java:53-55): Java groups on the full `LocalDateTime`. Files modified at 10:00:00.1 and 10:00:00.7 are not a collision in Java: neither is shifted, both get the same "yyyy-MM-dd HH.mm.ss" name, and the renamer skips the second. In the model they share a stamp, so `Deduplication.DeduplicateDates` moves one of them one second later.
  - the strict range bounds (DateRange.java:23-29): with min at the start of a day, Java admits 00:00:00.5 on that day, while `DateRanges.CheckInRange` rejects the truncated 00:00:00. The max bound agrees: it is a whole second, and a time is before a whole second exactly when its truncation is.
- Lower-casing covers the ASCII letters only. Unicode case mappings are not modelled.
- FileNameExtractors.IsNumber: accepts the ASCII digits only. Character.isDigit also accepts the other Unicode decimal digits, such as '١'. For "١٢_20160804_100935" Java treats the first part as numeric and finds no date, while the model skips that part as a prefix and finds 2016-08-04 10:09:35.
- JavaStrings.CompareTo: orders by Unicode scalar value. String.compareTo orders by UTF-16 code unit, which gives a different order only when characters outside the Basic Multilingual Plane are compared with ones from U+E000 to U+FFFF.
- The `FilenameUtils` checks for Windows alternate data streams (a ':' in the name) are not modelled. Neither is its handling of '\\' beyond "no '.' after the last separator".
- `Path.compareTo` is modelled as `String.compareTo` on the path text.
- Chooser.FindClosestDates: HashSet iteration order is unknown. The contract admits every order, so for equally furthest candidates it does not say which one is removed.
- Deduplication.VisitGroups: HashMap iteration order is unknown. The loop takes the groups in any order, and the proved result does not depend on that order.
- Deduplication.DeduplicateDates: the second pass of the `while (res.collisions())` loop is not modelled. `collisions` is never set, so the loop body cannot run.
- Deduplication.DeduplicateDates: requires that no `FileInfo` object is listed twice. With one object listed twice, the in-place updates would interact in ways the value specification does not describe.
- Formats.ParseFormat: the round trip is claimed for years 1 to 9999 only. "yyyy" prints the year-of-era without the era, so years before 1 do not read back. A wider year prints with '+', and the model's parser does not read that form (see Formats.Take4).
- Formats.Take4: reads exactly four year digits. Java's strict "yyyy" also accepts '+' followed by five or more digits, so for a name such as "+10000-05-30 21.03.59" Java finds a date and the model finds none.
- Formats.FormatInjective: claimed for years 1 to 9999 only, for the same reason.
- Formats.FormatYear: for years of five or more digits the contract gives only the '+' sign, the digits and a length of at least two. It does not give the exact width.
- Renaming.RenamedPathParsesBack: claimed for years 1 to 9999 only, for the reason given under Formats.ParseFormat.
- Renaming.NamesCollide: claimed for years 1 to 9999 only, where formatting is injective.
- Renaming.FolderMatchesName: claimed for four-digit years only. Wider years shift every field of the name.
- Renaming.GenerateRenamedFileNames: the plan is related to the per-file entries by multiset. There is no lemma stating per file that its entry is in the plan.
