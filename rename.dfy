/**
 * RenameGenerator and RenamedFile: the rename plan. Every file gets the name
 * "yyyy-MM-dd HH.mm.ss.<ext>" of its chosen time and the folder
 * "yyyy/yyyyMMdd_", and the plan is sorted by folder, then by name.
 */
module Renaming {
  import opened Wrappers
  import opened Time
  import opened Formats
  import opened JavaStrings
  import opened Stamps
  import opened FileTypes
  import opened Sorting
  import opened Deduplication
  import FileNameExtractors

  /** RenamedFile: the new name, the new folder, and the file to move there. */
  datatype RenamedFile = RenamedFile(newName: string, newFolder: string, currentFile: Path)

  // ---- The order of the plan -----------------------------------------------------

  /** RenamedFile.compareTo: the folders, and on equal folders the names. */
  function CompareRenamed(a: RenamedFile, b: RenamedFile): int {
    var folderComparison := CompareTo(a.newFolder, b.newFolder);
    if folderComparison != 0 then folderComparison else CompareTo(a.newName, b.newName)
  }

  /** The order is lexicographic on (folder, name): the folder decides, the name breaks a tie. */
  lemma CompareRenamedLexicographic(a: RenamedFile, b: RenamedFile)
    ensures CompareRenamed(a, b) < 0 <==>
      CompareTo(a.newFolder, b.newFolder) < 0 || (a.newFolder == b.newFolder && CompareTo(a.newName, b.newName) < 0)
    ensures a.newFolder != b.newFolder ==> CompareRenamed(a, b) == CompareTo(a.newFolder, b.newFolder)
  {
    CompareToZero(a.newFolder, b.newFolder);
  }

  /** Two entries compare equal exactly when folder and name are both equal. */
  lemma CompareRenamedZero(a: RenamedFile, b: RenamedFile)
    ensures CompareRenamed(a, b) == 0 <==> a.newFolder == b.newFolder && a.newName == b.newName
  {
    CompareToZero(a.newFolder, b.newFolder);
    CompareToZero(a.newName, b.newName);
  }

  /** The file being moved never takes part in the order. */
  lemma CompareIgnoresCurrentFile(a: RenamedFile, b: RenamedFile, p: Path, q: Path)
    ensures CompareRenamed(a.(currentFile := p), b.(currentFile := q)) == CompareRenamed(a, b)
  {
  }

  lemma CompareRenamedAntisymmetric(a: RenamedFile, b: RenamedFile)
    ensures CompareRenamed(a, b) == -CompareRenamed(b, a)
  {
    CompareToAntisymmetric(a.newFolder, b.newFolder);
    CompareToAntisymmetric(a.newName, b.newName);
  }

  lemma CompareRenamedTransitive(a: RenamedFile, b: RenamedFile, c: RenamedFile)
    requires CompareRenamed(a, b) < 0 && CompareRenamed(b, c) < 0
    ensures CompareRenamed(a, c) < 0
  {
    CompareRenamedLexicographic(a, b);
    CompareRenamedLexicographic(b, c);
    CompareRenamedLexicographic(a, c);
    if CompareTo(a.newFolder, b.newFolder) < 0 && CompareTo(b.newFolder, c.newFolder) < 0 {
      CompareToTransitive(a.newFolder, b.newFolder, c.newFolder);
    } else if CompareTo(a.newFolder, b.newFolder) < 0 || CompareTo(b.newFolder, c.newFolder) < 0 {
      // One of the two steps keeps the folder, the other moves it strictly up.
    } else {
      CompareToTransitive(a.newName, b.newName, c.newName);
    }
  }

  lemma CompareRenamedTransitiveLe(a: RenamedFile, b: RenamedFile, c: RenamedFile)
    requires CompareRenamed(a, b) <= 0 && CompareRenamed(b, c) <= 0
    ensures CompareRenamed(a, c) <= 0
  {
    CompareRenamedZero(a, b);
    CompareRenamedZero(b, c);
    CompareRenamedZero(a, c);
    if CompareRenamed(a, b) < 0 && CompareRenamed(b, c) < 0 {
      CompareRenamedTransitive(a, b, c);
    } else if CompareRenamed(a, b) == 0 {
      assert CompareRenamed(a, c) == CompareRenamed(b, c) by {
        CompareToZero(a.newFolder, b.newFolder);
      }
    } else {
      assert CompareRenamed(a, c) == CompareRenamed(a, b) by {
        CompareToAntisymmetric(b.newFolder, c.newFolder);
        CompareToAntisymmetric(a.newFolder, c.newFolder);
        CompareToAntisymmetric(a.newFolder, b.newFolder);
        CompareToZero(b.newFolder, c.newFolder);
      }
    }
  }

  lemma PlanAntisymmetric(plan: seq<RenamedFile>)
    ensures AntisymmetricOn(plan, CompareRenamed)
  {
    forall a, b | a in plan && b in plan ensures CompareRenamed(a, b) == -CompareRenamed(b, a) {
      CompareRenamedAntisymmetric(a, b);
    }
  }

  /** Entries that compare equal to a common entry share its folder and name, so they compare equal. */
  lemma PlanConsistent(plan: seq<RenamedFile>)
    ensures ZeroConsistentOn(plan, CompareRenamed)
  {
    forall a, b, c | CompareRenamed(a, c) == 0 && CompareRenamed(b, c) == 0 ensures CompareRenamed(a, b) == 0 {
      CompareRenamedZero(a, c);
      CompareRenamedZero(b, c);
      CompareRenamedZero(a, b);
    }
  }

  /**
   * Two entries with the same folder and name stay in plan order, so the
   * renamer moves the first one and finds the target taken for the second.
   */
  lemma EqualEntriesKeepOrder(a: RenamedFile, b: RenamedFile)
    requires a.newFolder == b.newFolder && a.newName == b.newName
    ensures AntisymmetricOn([a, b], CompareRenamed) && SortBy([a, b], CompareRenamed) == [a, b]
  {
    CompareRenamedZero(a, b);
    PlanAntisymmetric([a, b]);
    PlanAntisymmetric([b]);
    assert [a, b][1..] == [b];
    assert SortBy([b], CompareRenamed) == [b];
  }

  // ---- One file ------------------------------------------------------------------

  /** The layout of FILE_NAME_TARGET_FORMATTER, "yyyy-MM-dd HH.mm.ss". */
  const TargetLayout := FileNameExtractors.FileNameTargetLayout

  /**
   * generateExtension: the lower-cased extension, with "jpeg" shortened to
   * "jpg". Like every extension it holds no '.' and no separator.
   */
  function GenerateExtension(p: Path): (ext: string)
    ensures ext == "jpg" <==> IsJpegFile(p)
    ensures !IsJpegFile(p) ==> ext == LowercaseExtension(p)
    ensures ext != "jpeg"
    ensures forall c :: c in ext ==> c != '.' && c != '/' && c != '\\'
  {
    ExtensionCharacters(ToLower(FileName(p)));
    var currentExtension := LowercaseExtension(p);
    if currentExtension == "jpeg" then "jpg" else currentExtension
  }

  /** generateRenamedFile once the time t of the file at p is known to be non-null. */
  function RenameOf(p: Path, t: LocalDateTime): RenamedFile {
    var timeString := Format(TargetLayout, t);
    var newName := timeString + "." + GenerateExtension(p);
    var folderName := FormatYear(t) + "/" + FormatDate(t, "") + "_";
    RenamedFile(newName, folderName, p)
  }

  /**
   * generateRenamedFile: formatting a null time throws a NullPointerException;
   * otherwise the entry moves the file, by its own path, to the name and folder
   * of its time.
   */
  function GenerateRenamedFile(file: FileInfo): (r: Outcome<RenamedFile>)
    reads file
    ensures r.Failure? <==> file.timestamp.time.None?
    ensures r.Failure? ==> r.error == NullPointer
    ensures r.Success? ==> r.value.currentFile == file.path
    ensures r.Success? ==> r.value == RenameOf(file.path, file.timestamp.time.value)
  {
    var timestamp := file.timestamp.time;
    if timestamp.None? then Failure(NullPointer) else Success(RenameOf(file.path, timestamp.value))
  }

  /** The new name ends in '.' and the generated extension, after the formatted time. */
  lemma NameParts(p: Path, t: LocalDateTime)
    ensures var timeString := Format(TargetLayout, t);
      '/' !in RenameOf(p, t).newName
      && RemoveExtension(RenameOf(p, t).newName) == timeString
      && GetExtension(RenameOf(p, t).newName) == GenerateExtension(p)
  {
    var timeString, ext := Format(TargetLayout, t), GenerateExtension(p);
    FormatAvoids(TargetLayout, t, '/');
    FormatAvoids(TargetLayout, t, '\\');
    var name := timeString + "." + ext;
    forall i | 0 <= i < |name| ensures name[i] != '/' && name[i] != '\\' {
      if i > |timeString| {
        assert name[i] == ext[i - |timeString| - 1];
        assert name[i] in ext;
      } else if i < |timeString| {
        assert name[i] == timeString[i];
      }
    }
    ExtensionAt(timeString, ext);
  }

  /**
   * Round trip: the final-name extractor reads the time back from the moved
   * file's path, so a second run keeps the name it gave.
   */
  lemma RenamedPathParsesBack(p: Path, t: LocalDateTime)
    requires 1 <= t.year <= 9999
    ensures var r := RenameOf(p, t);
      FileNameExtractors.ExtractDates(FileNameExtractors.FinalFileNameDateExtractor, r.newFolder + "/" + r.newName)
        == Success([TimeStampWithSource(Some(t), FinalFileName)])
  {
    var r := RenameOf(p, t);
    NameParts(p, t);
    OnlyFileNameMatters(r.newFolder, r.newName);
    FileNameExtractors.FinalParsesTarget(t);
  }

  /**
   * The folder is the year, '/', the date without separators and '_', all as
   * the name spells them: its first four characters are the name's, and its
   * day segment is the name's first ten characters with both '-' removed.
   */
  lemma FolderMatchesName(p: Path, t: LocalDateTime)
    requires FourDigitYear(t)
    ensures var r := RenameOf(p, t);
      |r.newName| >= 20 && r.newName[4] == '-' && r.newName[7] == '-'
      && r.newFolder == r.newName[..4] + "/" + (r.newName[..4] + (r.newName[5..7] + r.newName[8..10])) + "_"
  {
    var r := RenameOf(p, t);
    var y, m, d := FormatYear(t), Pad2(t.month), Pad2(t.day);
    var timeString, date := Format(TargetLayout, t), FormatDate(t, "-");
    assert r.newName[..19] == timeString;
    assert timeString[..10] == date;
    assert r.newName[..10] == date;
    SegmentsAgree(r.newName, y, m, d);
    assert FormatDate(t, "") == y + ("" + (m + ("" + d)));
    NoSeparator(y, m, d);
  }

  /** The year, month and day segments of a name opening with a dashed date. */
  lemma SegmentsAgree(name: string, y: string, m: string, d: string)
    requires |y| == 4 && |m| == 2 && |d| == 2
    requires |name| >= 10 && name[..10] == y + ("-" + (m + ("-" + d)))
    ensures name[4] == '-' && name[7] == '-' && name[..4] == y && name[5..7] == m && name[8..10] == d
  {
    var date := name[..10];
    assert date[4] == '-' && date[7] == '-' && date[..4] == y && date[5..7] == m && date[8..10] == d;
    assert name[..4] == date[..4] && name[5..7] == date[5..7] && name[8..10] == date[8..10];
  }

  lemma NoSeparator(y: string, m: string, d: string)
    ensures y + ("" + (m + ("" + d))) == y + (m + d)
  {
  }

  /**
   * Two entries get the same name exactly when their times and their
   * generated extensions agree; then they also share the folder. So distinct
   * times never meet in one (folder, name) pair.
   */
  lemma NamesCollide(p: Path, q: Path, a: LocalDateTime, b: LocalDateTime)
    requires 1 <= a.year <= 9999 && 1 <= b.year <= 9999
    ensures RenameOf(p, a).newName == RenameOf(q, b).newName <==> a == b && GenerateExtension(p) == GenerateExtension(q)
    ensures CompareRenamed(RenameOf(p, a), RenameOf(q, b)) == 0 <==> a == b && GenerateExtension(p) == GenerateExtension(q)
  {
    var ea, eb := GenerateExtension(p), GenerateExtension(q);
    var fa, fb := Format(TargetLayout, a), Format(TargetLayout, b);
    assert RenameOf(p, a).newName == fa + "." + ea && RenameOf(q, b).newName == fb + "." + eb;
    SplitName(fa, ea);
    SplitName(fb, eb);
    if fa + "." + ea == fb + "." + eb {
      FormatInjective(TargetLayout, a, b);
    }
    CompareRenamedZero(RenameOf(p, a), RenameOf(q, b));
  }

  /** A nineteen-character time string and an extension are read back from the name they form. */
  lemma SplitName(timeString: string, ext: string)
    requires |timeString| == 19
    ensures (timeString + "." + ext)[..19] == timeString && (timeString + "." + ext)[20..] == ext
  {
  }

  // ---- The plan ------------------------------------------------------------------

  /** files.stream().map(generateRenamedFile): one entry per file, in list order; a null time throws. */
  function RenameAll(files: seq<FileInfo>): (r: Outcome<seq<RenamedFile>>)
    reads files
    ensures r.Failure? <==> exists i :: 0 <= i < |files| && files[i].timestamp.time.None?
    ensures r.Failure? ==> r.error == NullPointer
    ensures r.Success? ==> |r.value| == |files|
    ensures r.Success? ==> forall i :: 0 <= i < |files| ==> GenerateRenamedFile(files[i]) == Success(r.value[i])
  {
    if files == [] then Success([])
    else
      var first :- GenerateRenamedFile(files[0]);
      var rest :- RenameAll(files[1..]);
      RenameAllCons(files, first, rest);
      Success([first] + rest)
  }

  /** The entry of the head and those of the tail are the entries of the whole list. */
  lemma RenameAllCons(files: seq<FileInfo>, first: RenamedFile, rest: seq<RenamedFile>)
    requires files != [] && GenerateRenamedFile(files[0]) == Success(first) && |rest| == |files| - 1
    requires forall i :: 0 <= i < |files[1..]| ==> GenerateRenamedFile(files[1..][i]) == Success(rest[i])
    ensures forall i :: 0 <= i < |files| ==> GenerateRenamedFile(files[i]) == Success(([first] + rest)[i])
  {
    forall i | 0 <= i < |files| ensures GenerateRenamedFile(files[i]) == Success(([first] + rest)[i]) {
      if i > 0 {
        assert files[i] == files[1..][i - 1] && ([first] + rest)[i] == rest[i - 1];
      } else {
        assert ([first] + rest)[0] == first;
      }
    }
  }

  /**
   * generateRenamedFileNames: the entries of every file, sorted by
   * RenamedFile order with entries that compare equal kept in file order; a
   * null time anywhere throws.
   */
  function GenerateRenamedFileNames(files: seq<FileInfo>): (r: Outcome<seq<RenamedFile>>)
    reads files
    ensures r.Failure? <==> exists i :: 0 <= i < |files| && files[i].timestamp.time.None?
    ensures r.Failure? ==> r.error == NullPointer
    ensures r.Success? ==> SortedBy(r.value, CompareRenamed)
    ensures r.Success? ==> multiset(r.value) == multiset(RenameAll(files).value)
    ensures r.Success? ==> Stable(RenameAll(files).value, r.value, CompareRenamed)
  {
    var renamed :- RenameAll(files);
    PlanAntisymmetric(renamed);
    PlanConsistent(renamed);
    Success(SortBy(renamed, CompareRenamed))
  }

  // ---- Examples --------------------------------------------------------------------

  /** Upper-case extensions are lowered and "jpeg" becomes "jpg". */
  lemma ExampleExtensions()
    ensures GenerateExtension("IMG.JPG") == "jpg"
    ensures GenerateExtension("videos/clip.MP4") == "mp4"
    ensures GenerateExtension("DSC.JPEG") == "jpg"
  {
    ExampleUpperCaseJpeg();
    ExampleVideoInFolder();
    JpegExtension();
  }

  lemma JpegExtension()
    ensures LowercaseExtension("DSC.JPEG") == "jpeg"
  {
    LowerDscJpeg();
    LowercaseExtensionOf("DSC.JPEG", "dsc", "jpeg");
  }

  lemma LowerDscJpeg()
    ensures ToLower("DSC.JPEG") == "dsc" + "." + "jpeg"
  {
  }

  /** A photo taken 2016-09-19 at 21:11:12 goes to "2016/20160919_/2016-09-19 21.11.12.jpg". */
  lemma ExampleRename()
    ensures RenameOf("IMG.JPG", DateTimeFields(2016, 9, 19, 21, 11, 12))
      == RenamedFile("2016-09-19 21.11.12.jpg", "2016/20160919_", "IMG.JPG")
  {
    var t: LocalDateTime := DateTimeFields(2016, 9, 19, 21, 11, 12);
    var r := RenameOf("IMG.JPG", t);
    ExampleExtensions();
    ExampleTimeString();
    ExampleFolder();
    assert r.newName == "2016-09-19 21.11.12" + "." + "jpg";
    assert r.newFolder == "2016" + "/" + "20160919" + "_";
    ExampleLiterals();
    assert r == RenamedFile(r.newName, r.newFolder, "IMG.JPG");
  }

  lemma ExampleLiterals()
    ensures "2016-09-19 21.11.12" + "." + "jpg" == "2016-09-19 21.11.12.jpg"
    ensures "2016" + "/" + "20160919" + "_" == "2016/20160919_"
  {
  }

  lemma ExampleTimeString()
    ensures Format(TargetLayout, DateTimeFields(2016, 9, 19, 21, 11, 12)) == "2016-09-19 21.11.12"
  {
    var t: LocalDateTime := DateTimeFields(2016, 9, 19, 21, 11, 12);
    ExampleYear();
    ExamplePads();
    assert FormatDate(t, "-") == "2016" + ("-" + ("09" + ("-" + "19")));
    assert FormatTime(t, ".") == "21" + ("." + ("11" + ("." + "12")));
    assert Format(TargetLayout, t) == "2016-09-19" + (" " + "21.11.12");
  }

  lemma ExampleFolder()
    ensures FormatYear(DateTimeFields(2016, 9, 19, 21, 11, 12)) == "2016"
    ensures FormatDate(DateTimeFields(2016, 9, 19, 21, 11, 12), "") == "20160919"
  {
    var t: LocalDateTime := DateTimeFields(2016, 9, 19, 21, 11, 12);
    ExampleYear();
    ExamplePads();
    assert FormatDate(t, "") == "2016" + ("" + ("09" + ("" + "19")));
  }

  lemma ExampleYear()
    ensures FormatYear(DateTimeFields(2016, 9, 19, 21, 11, 12)) == "2016"
  {
    FileNameExtractors.Pads4();
  }

  lemma ExamplePads()
    ensures Pad2(9) == "09" && Pad2(19) == "19" && Pad2(21) == "21" && Pad2(11) == "11" && Pad2(12) == "12"
  {
  }
}
