/**
 * Deduplicator: files that share a timestamp are spread one second apart,
 * in list order, and retagged as collision avoidance; files whose timestamp
 * is unique keep it.
 */
module Deduplication {
  import opened Wrappers
  import opened Time
  import opened Stamps
  import opened FileTypes
  import opened JavaStrings
  import opened Sorting

  /** files.FileInfo: a file's path and the timestamp chosen for it; the timestamp is reassigned in place. */
  class FileInfo {
    const path: Path
    var timestamp: TimeStampWithSource

    constructor (path: Path, timestamp: TimeStampWithSource)
      ensures this.path == path && this.timestamp == timestamp
    {
      this.path := path;
      this.timestamp := timestamp;
    }
  }

  /** FileInfo.compareTo: by path alone. */
  function ComparePaths(a: FileInfo, b: FileInfo): int {
    CompareTo(a.path, b.path)
  }

  // ---- The specification on values ------------------------------------------------

  ghost predicate AllTimed(stamps: seq<TimeStampWithSource>) {
    forall i :: 0 <= i < |stamps| ==> stamps[i].time.Some?
  }

  /** The times of timestamps known to be non-null. */
  function Times(stamps: seq<TimeStampWithSource>): (r: seq<LocalDateTime>)
    requires AllTimed(stamps)
    ensures |r| == |stamps| && forall i :: 0 <= i < |r| ==> stamps[i].time == Some(r[i])
  {
    seq(|stamps|, i requires 0 <= i < |stamps| => stamps[i].time.value)
  }

  /** The positions holding t, in increasing order: the group of t in encounter order. */
  function Indexes(times: seq<LocalDateTime>, t: LocalDateTime): (r: seq<nat>)
    ensures forall k :: 0 <= k < |r| ==> r[k] < |times| && times[r[k]] == t
    ensures forall k, l :: 0 <= k < l < |r| ==> r[k] < r[l]
    ensures t !in times ==> r == []
    decreases |times|
  {
    if times == [] then []
    else
      var init := times[..|times| - 1];
      Indexes(init, t) + (if times[|times| - 1] == t then [|times| - 1] else [])
  }

  /** The number of files sharing time t. */
  function Occurrences(times: seq<LocalDateTime>, t: LocalDateTime): nat {
    |Indexes(times, t)|
  }

  /** The position of file j within its group: the files before it with the same time. */
  function Rank(times: seq<LocalDateTime>, j: int): nat
    requires 0 <= j < |times|
  {
    |Indexes(times[..j], times[j])|
  }

  /**
   * The timestamp deduplicateDatesStep gives file j: unchanged when its time
   * is unique, else its time plus its rank in seconds, retagged.
   */
  function DeduplicatedStamp(stamps: seq<TimeStampWithSource>, j: int): TimeStampWithSource
    requires AllTimed(stamps) && 0 <= j < |stamps|
  {
    var times := Times(stamps);
    if Occurrences(times, times[j]) == 1 then stamps[j]
    else TimeStampWithSource(Some(PlusSeconds(times[j], Rank(times, j))), CollisionAvoidance)
  }

  function Deduplicated(stamps: seq<TimeStampWithSource>): (r: seq<TimeStampWithSource>)
    requires AllTimed(stamps)
    ensures |r| == |stamps| && forall j :: 0 <= j < |r| ==> r[j] == DeduplicatedStamp(stamps, j)
  {
    seq(|stamps|, j requires 0 <= j < |stamps| => DeduplicatedStamp(stamps, j))
  }

  // ---- Groups and their files -------------------------------------------------------

  /** The files whose time is t, in list order: a group of groupByDate. */
  function GroupFiles(files: seq<FileInfo>, times: seq<LocalDateTime>, t: LocalDateTime): seq<FileInfo>
    requires |times| <= |files|
    decreases |times|
  {
    if times == [] then []
    else
      var init := times[..|times| - 1];
      GroupFiles(files, init, t) + (if times[|times| - 1] == t then [files[|times| - 1]] else [])
  }

  /** The files whose time is not among the keys. */
  function Outside(files: seq<FileInfo>, times: seq<LocalDateTime>, keys: set<LocalDateTime>): seq<FileInfo>
    requires |times| <= |files|
    decreases |times|
  {
    if times == [] then []
    else
      var init := times[..|times| - 1];
      Outside(files, init, keys) + (if times[|times| - 1] !in keys then [files[|times| - 1]] else [])
  }

  /** The k-th file of a group is the file at the k-th position of that time. */
  lemma {:induction false} GroupFilesAt(files: seq<FileInfo>, times: seq<LocalDateTime>, t: LocalDateTime)
    requires |times| <= |files|
    ensures |GroupFiles(files, times, t)| == |Indexes(times, t)|
    ensures forall k :: 0 <= k < |Indexes(times, t)| ==> GroupFiles(files, times, t)[k] == files[Indexes(times, t)[k]]
    decreases |times|
  {
    if times != [] {
      GroupFilesAt(files, times[..|times| - 1], t);
    }
  }

  /** Taking one more group out of the pending keys adds exactly its files. */
  lemma {:induction false} OutsideRemove(files: seq<FileInfo>, times: seq<LocalDateTime>, keys: set<LocalDateTime>, t: LocalDateTime)
    requires |times| <= |files| && t in keys
    ensures multiset(Outside(files, times, keys - {t})) == multiset(Outside(files, times, keys)) + multiset(GroupFiles(files, times, t))
    decreases |times|
  {
    if times != [] {
      OutsideRemove(files, times[..|times| - 1], keys, t);
    }
  }

  lemma {:induction false} OutsideAll(files: seq<FileInfo>, times: seq<LocalDateTime>, keys: set<LocalDateTime>)
    requires |times| <= |files| && forall j :: 0 <= j < |times| ==> times[j] in keys
    ensures Outside(files, times, keys) == []
    decreases |times|
  {
    if times != [] {
      OutsideAll(files, times[..|times| - 1], keys);
    }
  }

  lemma {:induction false} OutsideNothing(files: seq<FileInfo>, times: seq<LocalDateTime>)
    requires |times| == |files|
    ensures Outside(files, times, {}) == files
    decreases |times|
  {
    if times != [] {
      var n := |times| - 1;
      OutsideNothing(files[..n], times[..n]);
      OutsidePrefix(files, times[..n], {});
      assert files == files[..n] + [files[n]];
    }
  }

  /** Only the first |times| files matter. */
  lemma {:induction false} OutsidePrefix(files: seq<FileInfo>, times: seq<LocalDateTime>, keys: set<LocalDateTime>)
    requires |times| <= |files|
    ensures Outside(files, times, keys) == Outside(files[..|times|], times, keys)
    decreases |times|
  {
    if times != [] {
      OutsidePrefix(files, times[..|times| - 1], keys);
      OutsidePrefix(files[..|times|], times[..|times| - 1], keys);
      assert files[..|times|][..|times| - 1] == files[..|times| - 1];
    }
  }

  /** Indexes of a longer list extend those of its prefix. */
  lemma {:induction false} IndexesPrefix(times: seq<LocalDateTime>, m: int, t: LocalDateTime)
    requires 0 <= m <= |times|
    ensures |Indexes(times[..m], t)| <= |Indexes(times, t)|
    ensures Indexes(times[..m], t) == Indexes(times, t)[..|Indexes(times[..m], t)|]
    decreases |times|
  {
    if m < |times| {
      var init := times[..|times| - 1];
      assert init[..m] == times[..m];
      IndexesPrefix(init, m, t);
      assert Indexes(times, t) == Indexes(init, t) + (if times[|times| - 1] == t then [|times| - 1] else []);
    } else {
      assert times[..m] == times;
    }
  }

  lemma IncreasingInjective(s: seq<nat>, a: int, b: int)
    requires forall k, l :: 0 <= k < l < |s| ==> s[k] < s[l]
    requires 0 <= a < |s| && 0 <= b < |s| && s[a] == s[b]
    ensures a == b
  {
  }

  lemma IncreasingSingleton(s: seq<nat>, j: nat)
    requires forall k, l :: 0 <= k < l < |s| ==> s[k] < s[l]
    requires j in s && forall k :: 0 <= k < |s| ==> s[k] == j
    ensures |s| == 1
  {
    if |s| >= 2 {
      FirstTwoIncrease(s);
      assert false;
    }
  }

  lemma FirstTwoIncrease(s: seq<nat>)
    requires |s| >= 2 && forall k, l :: 0 <= k < l < |s| ==> s[k] < s[l]
    ensures s[0] < s[1]
  {
  }

  lemma TwoMembers(s: seq<nat>, i: nat, j: nat)
    requires i in s && j in s && i != j
    ensures |s| >= 2
  {
  }

  /** A file is found in its group at its rank. */
  lemma RankIndex(times: seq<LocalDateTime>, j: int)
    requires 0 <= j < |times|
    ensures Rank(times, j) < Occurrences(times, times[j])
    ensures Indexes(times, times[j])[Rank(times, j)] == j
  {
    var t := times[j];
    var pre := times[..j + 1];
    assert pre[..|pre| - 1] == times[..j];
    assert Indexes(pre, t) == Indexes(times[..j], t) + [j];
    IndexesPrefix(times, j + 1, t);
    var all := Indexes(times, t);
    assert Indexes(pre, t) == all[..|Indexes(pre, t)|];
    assert all[Rank(times, j)] == Indexes(pre, t)[Rank(times, j)];
  }

  /** The file at the k-th position of a group has rank k. */
  lemma IndexRank(times: seq<LocalDateTime>, t: LocalDateTime, k: int)
    requires 0 <= k < Occurrences(times, t)
    ensures Rank(times, Indexes(times, t)[k]) == k
  {
    var j := Indexes(times, t)[k];
    RankIndex(times, j);
    IncreasingInjective(Indexes(times, t), Rank(times, j), k);
  }

  // ---- Properties of the specification -------------------------------------------------

  /** A file whose time no other file shares keeps its timestamp and source. */
  lemma UniqueKeepsStamp(stamps: seq<TimeStampWithSource>, j: int)
    requires AllTimed(stamps) && 0 <= j < |stamps|
    requires forall i :: 0 <= i < |stamps| && i != j ==> stamps[i].time != stamps[j].time
    ensures Deduplicated(stamps)[j] == stamps[j]
  {
    var times := Times(stamps);
    var ix := Indexes(times, times[j]);
    forall k | 0 <= k < |ix| ensures ix[k] == j {
      assert stamps[ix[k]].time == stamps[j].time;
    }
    RankIndex(times, j);
    IncreasingSingleton(ix, j);
  }

  /**
   * Every member of a group of n > 1 files sharing time t is retagged, and the
   * k-th in list order gets t + k seconds.
   */
  lemma GroupMemberShifted(stamps: seq<TimeStampWithSource>, t: LocalDateTime, k: int)
    requires AllTimed(stamps) && Occurrences(Times(stamps), t) >= 2 && 0 <= k < Occurrences(Times(stamps), t)
    ensures var j := Indexes(Times(stamps), t)[k];
      Deduplicated(stamps)[j] == TimeStampWithSource(Some(PlusSeconds(t, k)), CollisionAvoidance)
  {
    IndexRank(Times(stamps), t, k);
  }

  /** The stamps of a conflicting group after the spread: the k-th gets its time plus k seconds, retagged. */
  function Spread(stamps: seq<TimeStampWithSource>): seq<TimeStampWithSource>
    requires AllTimed(stamps)
  {
    seq(|stamps|, k requires 0 <= k < |stamps| =>
      TimeStampWithSource(Some(PlusSeconds(stamps[k].time.value, k)), CollisionAvoidance))
  }

  /** The stamps at positions ix, in that order. */
  function Pick(s: seq<TimeStampWithSource>, ix: seq<nat>): seq<TimeStampWithSource>
    requires forall k :: 0 <= k < |ix| ==> ix[k] < |s|
  {
    seq(|ix|, k requires 0 <= k < |ix| => s[ix[k]])
  }

  /** What deduplicateDatesStep does to one group: a group of one is kept, a larger one is spread. */
  function GroupTarget(group: seq<TimeStampWithSource>): seq<TimeStampWithSource>
    requires AllTimed(group)
  {
    if |group| == 1 then group else Spread(group)
  }

  /** target holds, group by group, what deduplicateDatesStep gives the files of each time. */
  ghost predicate GroupwiseTarget(stamps: seq<TimeStampWithSource>, target: seq<TimeStampWithSource>) {
    AllTimed(stamps) && |target| == |stamps|
    && forall t :: t in Times(stamps) ==>
      Pick(target, Indexes(Times(stamps), t)) == GroupTarget(Pick(stamps, Indexes(Times(stamps), t)))
  }

  /**
   * Deduplicated, read group by group: a time no other file shares keeps its
   * stamp, and the files of a shared time get the spread of their stamps.
   */
  lemma DeduplicatedGroupwise(stamps: seq<TimeStampWithSource>)
    requires AllTimed(stamps)
    ensures GroupwiseTarget(stamps, Deduplicated(stamps))
  {
    forall t | t in Times(stamps)
      ensures Pick(Deduplicated(stamps), Indexes(Times(stamps), t)) == GroupTarget(Pick(stamps, Indexes(Times(stamps), t)))
    {
      var j :| 0 <= j < |Times(stamps)| && Times(stamps)[j] == t;
      RankIndex(Times(stamps), j);
      if Occurrences(Times(stamps), t) == 1 {
        SingleGroupKept(stamps, t);
      } else {
        SharedGroupSpread(stamps, t);
      }
    }
  }

  /** A time held by one file only: that file keeps its stamp. */
  lemma SingleGroupKept(stamps: seq<TimeStampWithSource>, t: LocalDateTime)
    requires AllTimed(stamps) && Occurrences(Times(stamps), t) == 1
    ensures Pick(Deduplicated(stamps), Indexes(Times(stamps), t)) == Pick(stamps, Indexes(Times(stamps), t))
  {
    var ix := Indexes(Times(stamps), t);
    assert Deduplicated(stamps)[ix[0]] == DeduplicatedStamp(stamps, ix[0]);
  }

  /** A time shared by several files: the files of that time get the spread of their stamps. */
  lemma SharedGroupSpread(stamps: seq<TimeStampWithSource>, t: LocalDateTime)
    requires AllTimed(stamps) && Occurrences(Times(stamps), t) >= 2
    ensures Pick(Deduplicated(stamps), Indexes(Times(stamps), t)) == Spread(Pick(stamps, Indexes(Times(stamps), t)))
  {
    var ix := Indexes(Times(stamps), t);
    var group := Pick(stamps, ix);
    forall k | 0 <= k < |ix| ensures Deduplicated(stamps)[ix[k]] == Spread(group)[k] {
      GroupMemberShifted(stamps, t, k);
    }
  }

  /**
   * Within a former group the new times are pairwise distinct, never earlier
   * than the shared time and less than the group size later.
   */
  lemma GroupTimesSpread(stamps: seq<TimeStampWithSource>, i: int, j: int)
    requires AllTimed(stamps) && 0 <= i < |stamps| && 0 <= j < |stamps|
    requires i != j && stamps[i].time == stamps[j].time
    ensures Deduplicated(stamps)[i].time != Deduplicated(stamps)[j].time
    ensures var t, n := stamps[i].time.value, Occurrences(Times(stamps), stamps[i].time.value);
      var shifted := ToEpochSecond(Deduplicated(stamps)[i].time.value);
      ToEpochSecond(t) <= shifted < ToEpochSecond(t) + n
  {
    var times := Times(stamps);
    var t := times[i];
    assert times[j] == t;
    var ix := Indexes(times, t);
    RankIndex(times, i);
    RankIndex(times, j);
    var ri, rj := Rank(times, i), Rank(times, j);
    assert ix[ri] == i && ix[rj] == j;
    assert ri != rj;
    TwoMembers(ix, i, j);
    var a, b := PlusSeconds(t, ri), PlusSeconds(t, rj);
    assert Deduplicated(stamps)[i] == TimeStampWithSource(Some(a), CollisionAvoidance);
    assert Deduplicated(stamps)[j] == TimeStampWithSource(Some(b), CollisionAvoidance);
    assert ToEpochSecond(a) == ToEpochSecond(t) + ri;
    assert ToEpochSecond(a) != ToEpochSecond(b);
  }

  /** The second of two files that lead the list with the same time t gets t + 1 second. */
  lemma SecondOfPairShifted(stamps: seq<TimeStampWithSource>)
    requires AllTimed(stamps) && |stamps| >= 2 && stamps[0].time == stamps[1].time
    ensures Deduplicated(stamps)[1].time == Some(PlusSeconds(stamps[0].time.value, 1))
  {
    var times := Times(stamps);
    var t := times[0];
    RankIndex(times, 0);
    RankIndex(times, 1);
    assert times[1] == t;
    var pre := times[..1];
    assert pre[..0] == [] && pre[0] == t;
    assert Rank(times, 1) == |Indexes(pre, t)| == 1;
    TwoMembers(Indexes(times, t), 0, 1);
  }

  /** A third file whose time differs from that of the pair before it keeps its stamp. */
  lemma LastOfThreeKept(stamps: seq<TimeStampWithSource>)
    requires AllTimed(stamps) && |stamps| == 3
    requires stamps[0].time == stamps[1].time != stamps[2].time
    ensures Deduplicated(stamps)[2] == stamps[2]
  {
    UniqueKeepsStamp(stamps, 2);
  }

  /**
   * The pass does not make times globally unique: t, t, t + 1 becomes
   * t, t + 1, t + 1.
   */
  lemma NotCollisionFree(stamps: seq<TimeStampWithSource>)
    requires AllTimed(stamps) && |stamps| == 3 && stamps[0].time == stamps[1].time
    requires stamps[2].time == Some(PlusSeconds(stamps[0].time.value, 1))
    ensures Deduplicated(stamps)[1].time == Deduplicated(stamps)[2].time == stamps[2].time
  {
    PlusSecondsMoves(stamps[0].time.value, 1);
    SecondOfPairShifted(stamps);
    LastOfThreeKept(stamps);
  }

  // ---- The deduplicator ------------------------------------------------------------

  /** The current timestamps of the files, in list order. */
  function StampsOf(files: seq<FileInfo>): (r: seq<TimeStampWithSource>)
    reads files
    ensures |r| == |files| && forall i :: 0 <= i < |files| ==> r[i] == files[i].timestamp
  {
    if files == [] then [] else [files[0].timestamp] + StampsOf(files[1..])
  }

  /** No FileInfo object is listed twice. */
  predicate DistinctObjects(files: seq<FileInfo>) {
    forall i, j :: 0 <= i < j < |files| ==> files[i] != files[j]
  }

  datatype DeduplicateResult = DeduplicateResult(collisions: bool, files: seq<FileInfo>)

  /**
   * groupByDate: the files keyed by their time, each group in list order;
   * a null time makes the grouping fail.
   */
  method GroupByDate(allFiles: seq<FileInfo>) returns (r: Outcome<map<LocalDateTime, seq<FileInfo>>>)
    ensures r.Failure? <==> !AllTimed(StampsOf(allFiles))
    ensures r.Failure? ==> r.error == NullPointer
    ensures r.Success? ==> GroupsOf(allFiles, Times(StampsOf(allFiles)), r.value)
  {
    ghost var stamps := StampsOf(allFiles);
    var filesByDate: map<LocalDateTime, seq<FileInfo>> := map[];
    ghost var times: seq<LocalDateTime> := [];
    for i := 0 to |allFiles|
      invariant AllTimed(stamps[..i]) && times == Times(stamps[..i])
      invariant GroupsOf(allFiles, times, filesByDate)
    {
      var time := allFiles[i].timestamp.time;
      if time.None? {
        assert stamps[i].time.None?;
        return Failure(NullPointer);
      }
      TimesAppend(stamps, i);
      filesByDate := AddToGroup(filesByDate, time.value, allFiles[i], allFiles, times);
      times := times + [time.value];
    }
    assert stamps[..|allFiles|] == stamps;
    return Success(filesByDate);
  }

  /** One file into the map of groupByDate: appended to the group of its time, which is created when absent. */
  method AddToGroup(filesByDate: map<LocalDateTime, seq<FileInfo>>, t: LocalDateTime, file: FileInfo,
                    ghost allFiles: seq<FileInfo>, ghost times: seq<LocalDateTime>)
    returns (filesByDate': map<LocalDateTime, seq<FileInfo>>)
    requires GroupsOf(allFiles, times, filesByDate) && |times| < |allFiles| && file == allFiles[|times|]
    ensures GroupsOf(allFiles, times + [t], filesByDate')
  {
    var group := if t in filesByDate then filesByDate[t] else [];
    GroupFilesAppend(allFiles, times, t);
    if t !in filesByDate {
      GroupFilesAbsent(allFiles, times, t);
    }
    filesByDate' := filesByDate[t := group + [file]];
  }

  lemma TimesAppend(stamps: seq<TimeStampWithSource>, i: int)
    requires 0 <= i < |stamps| && AllTimed(stamps[..i]) && stamps[i].time.Some?
    ensures AllTimed(stamps[..i + 1])
    ensures Times(stamps[..i + 1]) == Times(stamps[..i]) + [stamps[i].time.value]
  {
    assert stamps[..i + 1] == stamps[..i] + [stamps[i]];
  }

  /** filesByDate maps exactly the times of the first |times| files to their groups. */
  ghost predicate GroupsOf(allFiles: seq<FileInfo>, times: seq<LocalDateTime>, filesByDate: map<LocalDateTime, seq<FileInfo>>) {
    |times| <= |allFiles|
    && (forall t :: t in filesByDate <==> t in times)
    && forall t :: t in filesByDate ==> filesByDate[t] == GroupFiles(allFiles, times, t)
  }

  lemma GroupFilesAppend(files: seq<FileInfo>, times: seq<LocalDateTime>, t: LocalDateTime)
    requires |times| < |files|
    ensures forall u :: GroupFiles(files, times + [t], u) == GroupFiles(files, times, u) + (if t == u then [files[|times|]] else [])
  {
    var longer := times + [t];
    assert longer[..|longer| - 1] == times;
  }

  lemma GroupFilesAbsent(files: seq<FileInfo>, times: seq<LocalDateTime>, t: LocalDateTime)
    requires |times| <= |files| && t !in times
    ensures GroupFiles(files, times, t) == []
  {
    GroupFilesAt(files, times, t);
  }

  /** The first k files of the group carry their spread stamps, the others their original ones. */
  ghost predicate SpreadUpTo(files: seq<FileInfo>, before: seq<TimeStampWithSource>, k: int)
    reads files
  {
    AllTimed(before) && |before| == |files|
    && forall l :: 0 <= l < |files| ==> files[l].timestamp == if l < k then Spread(before)[l] else before[l]
  }

  /**
   * The conflict branch of deduplicateDatesStep: the k-th file of the group
   * gets its time plus k seconds and the source COLLISION_AVOIDANCE.
   */
  method SpreadGroup(files: seq<FileInfo>)
    requires DistinctObjects(files) && AllTimed(StampsOf(files))
    modifies files
    ensures StampsOf(files) == Spread(old(StampsOf(files)))
  {
    ghost var before := StampsOf(files);
    var secondsDelta := 0;
    for k := 0 to |files|
      invariant secondsDelta == k
      invariant SpreadUpTo(files, before, k)
    {
      RetagAt(files, before, k, secondsDelta);
      secondsDelta := secondsDelta + 1;
    }
    SpreadDone(files, before);
  }

  /** Once every file of the group is retagged the group holds its spread stamps. */
  lemma SpreadDone(files: seq<FileInfo>, before: seq<TimeStampWithSource>)
    requires SpreadUpTo(files, before, |files|)
    ensures StampsOf(files) == Spread(before)
  {
  }

  /** One step of the conflict branch: the k-th file gets its time plus secondsDelta seconds, retagged. */
  method RetagAt(files: seq<FileInfo>, ghost before: seq<TimeStampWithSource>, k: int, secondsDelta: int)
    requires DistinctObjects(files) && 0 <= k < |files| && secondsDelta == k
    requires SpreadUpTo(files, before, k)
    modifies files[k]
    ensures SpreadUpTo(files, before, k + 1)
  {
    var file := files[k];
    assert forall l :: 0 <= l < |files| && l != k ==> files[l] != file;
    var timestamp := file.timestamp.time.value;
    file.timestamp := TimeStampWithSource(Some(PlusSeconds(timestamp, secondsDelta)), CollisionAvoidance);
  }

  /**
   * deduplicateDatesStep: groups the files by time (groupingBy fails on a
   * null time before any file is touched), then visits the groups in the
   * map's order: a group of one is kept as is, every file of a larger group
   * gets its time plus its position in the group and is retagged.
   */
  method DeduplicateDatesStep(allFiles: seq<FileInfo>) returns (r: Outcome<DeduplicateResult>)
    requires DistinctObjects(allFiles)
    modifies allFiles
    ensures r.Failure? <==> !AllTimed(old(StampsOf(allFiles)))
    ensures r.Failure? ==> r.error == NullPointer && StampsOf(allFiles) == old(StampsOf(allFiles))
    ensures r.Success? ==> !r.value.collisions && multiset(r.value.files) == multiset(allFiles)
    ensures r.Success? ==> StampsOf(allFiles) == Deduplicated(old(StampsOf(allFiles)))
  {
    ghost var stamps := StampsOf(allFiles);
    var filesByDate :- GroupByDate(allFiles);
    var collisions := false;
    DeduplicatedGroupwise(stamps);
    var res := VisitGroups(allFiles, filesByDate, stamps, Deduplicated(stamps));
    return Success(DeduplicateResult(collisions, res));
  }

  /**
   * deduplicateDates: one deduplicateDatesStep (whose collisions flag is
   * never set, so the loop that repeats the step does not run), then the
   * files sorted by path.
   */
  method DeduplicateDates(files: seq<FileInfo>) returns (r: Outcome<seq<FileInfo>>)
    requires DistinctObjects(files)
    modifies files
    ensures r.Failure? <==> !AllTimed(old(StampsOf(files)))
    ensures r.Failure? ==> r.error == NullPointer && StampsOf(files) == old(StampsOf(files))
    ensures r.Success? ==> StampsOf(files) == Deduplicated(old(StampsOf(files)))
    ensures r.Success? ==> multiset(r.value) == multiset(files) && SortedBy(r.value, ComparePaths)
  {
    var res :- DeduplicateDatesStep(files);
    PathsAntisymmetric(res.files);
    return Success(SortBy(res.files, ComparePaths));
  }

  /** FileInfo.compareTo keeps the sign contract on any list of files. */
  lemma PathsAntisymmetric(files: seq<FileInfo>)
    ensures AntisymmetricOn(files, ComparePaths)
  {
    forall a, b | a in files && b in files ensures ComparePaths(a, b) == -ComparePaths(b, a) {
      CompareToAntisymmetric(a.path, b.path);
    }
  }

  /** filesByDate is the grouping of allFiles by their (all non-null) times. */
  ghost predicate Grouped(allFiles: seq<FileInfo>, filesByDate: map<LocalDateTime, seq<FileInfo>>,
                          stamps: seq<TimeStampWithSource>) {
    DistinctObjects(allFiles) && AllTimed(stamps) && |stamps| == |allFiles|
    && GroupsOf(allFiles, Times(stamps), filesByDate)
  }

  /**
   * The stamps cur after visiting every group outside pending: a file whose
   * time is pending holds its original stamp, any other its target.
   */
  ghost predicate Reached(cur: seq<TimeStampWithSource>, stamps: seq<TimeStampWithSource>,
                          target: seq<TimeStampWithSource>, pending: set<LocalDateTime>) {
    AllTimed(stamps) && |cur| == |stamps| && |target| == |stamps|
    && forall j :: 0 <= j < |stamps| ==> cur[j] == if Times(stamps)[j] in pending then stamps[j] else target[j]
  }

  /**
   * The state of the loop of deduplicateDatesStep with the groups of pending
   * still to visit: res holds the files of the visited groups and the stamps
   * are as Reached says.
   */
  ghost predicate Visiting(allFiles: seq<FileInfo>, filesByDate: map<LocalDateTime, seq<FileInfo>>,
                           stamps: seq<TimeStampWithSource>, target: seq<TimeStampWithSource>,
                           pending: set<LocalDateTime>, res: seq<FileInfo>)
    reads allFiles
  {
    Grouped(allFiles, filesByDate, stamps) && GroupwiseTarget(stamps, target)
    && pending <= filesByDate.Keys
    && Reached(StampsOf(allFiles), stamps, target, pending)
    && multiset(res) == multiset(Outside(allFiles, Times(stamps), pending))
  }

  /**
   * The loop of deduplicateDatesStep over the entries of filesByDate, in
   * whatever order the map yields them.
   */
  method VisitGroups(allFiles: seq<FileInfo>, filesByDate: map<LocalDateTime, seq<FileInfo>>,
                     ghost stamps: seq<TimeStampWithSource>, ghost target: seq<TimeStampWithSource>)
    returns (res: seq<FileInfo>)
    requires Grouped(allFiles, filesByDate, stamps) && stamps == StampsOf(allFiles)
    requires GroupwiseTarget(stamps, target)
    modifies allFiles
    ensures multiset(res) == multiset(allFiles)
    ensures StampsOf(allFiles) == target
  {
    res := [];
    var pending := filesByDate.Keys;
    StartVisit(allFiles, filesByDate, stamps, target);
    while pending != {}
      invariant Visiting(allFiles, filesByDate, stamps, target, pending, res)
      decreases pending
    {
      var date :| date in pending;
      res := VisitGroup(allFiles, filesByDate, stamps, target, pending, date, res);
      pending := pending - {date};
    }
    EndVisit(allFiles, filesByDate, stamps, target, res);
  }

  /** Before the loop no group is visited and every file holds its original stamp. */
  lemma StartVisit(allFiles: seq<FileInfo>, filesByDate: map<LocalDateTime, seq<FileInfo>>,
                   stamps: seq<TimeStampWithSource>, target: seq<TimeStampWithSource>)
    requires Grouped(allFiles, filesByDate, stamps) && stamps == StampsOf(allFiles)
    requires GroupwiseTarget(stamps, target)
    ensures Visiting(allFiles, filesByDate, stamps, target, filesByDate.Keys, [])
  {
    var times := Times(stamps);
    StartState(stamps, target, filesByDate.Keys);
    OutsideAll(allFiles, times, filesByDate.Keys);
  }

  /** After the loop every file is in the result and holds its target. */
  lemma EndVisit(allFiles: seq<FileInfo>, filesByDate: map<LocalDateTime, seq<FileInfo>>,
                 stamps: seq<TimeStampWithSource>, target: seq<TimeStampWithSource>, res: seq<FileInfo>)
    requires Visiting(allFiles, filesByDate, stamps, target, {}, res)
    ensures multiset(res) == multiset(allFiles)
    ensures StampsOf(allFiles) == target
  {
    OutsideNothing(allFiles, Times(stamps));
    EndState(StampsOf(allFiles), stamps, target);
  }

  /**
   * One entry of the loop of deduplicateDatesStep: the files of the group of
   * date, in the order added to the result, after giving each its new stamp.
   */
  method VisitGroup(allFiles: seq<FileInfo>, filesByDate: map<LocalDateTime, seq<FileInfo>>,
                    ghost stamps: seq<TimeStampWithSource>, ghost target: seq<TimeStampWithSource>,
                    ghost pending: set<LocalDateTime>, date: LocalDateTime, res: seq<FileInfo>)
    returns (res': seq<FileInfo>)
    requires date in pending && Visiting(allFiles, filesByDate, stamps, target, pending, res)
    modifies allFiles
    ensures Visiting(allFiles, filesByDate, stamps, target, pending - {date}, res')
  {
    var files := filesByDate[date];
    var added := VisitFiles(allFiles, files, stamps, target, date, pending);
    OutsideRemove(allFiles, Times(stamps), pending, date);
    res' := res + added;
  }

  /** The files of the group of date after each has been given its new stamp. */
  method VisitFiles(allFiles: seq<FileInfo>, files: seq<FileInfo>, ghost stamps: seq<TimeStampWithSource>,
                    ghost target: seq<TimeStampWithSource>, ghost date: LocalDateTime, ghost pending: set<LocalDateTime>)
    returns (added: seq<FileInfo>)
    requires DistinctObjects(allFiles) && GroupwiseTarget(stamps, target) && |stamps| == |allFiles|
    requires date in pending && date in Times(stamps) && files == GroupFiles(allFiles, Times(stamps), date)
    requires Reached(StampsOf(allFiles), stamps, target, pending)
    modifies allFiles
    ensures added == files
    ensures Reached(StampsOf(allFiles), stamps, target, pending - {date})
  {
    ghost var times := Times(stamps);
    GroupFilesAt(allFiles, times, date);
    GroupNonEmpty(allFiles, times, date);
    var first := files[0];
    if |files| == 1 {
      // no conflict
      SingleGroupState(StampsOf(allFiles), stamps, target, date, pending);
      assert files == [first];
      return [first];
    }
    GroupFilesSubset(allFiles, times, date);
    ResolveConflict(allFiles, files, stamps, target, date, pending);
    return files;
  }

  /**
   * The conflict branch of deduplicateDatesStep on the pending group of date:
   * its files move from their original stamps to their targets and every
   * other file keeps its stamp.
   */
  method ResolveConflict(allFiles: seq<FileInfo>, files: seq<FileInfo>, ghost stamps: seq<TimeStampWithSource>,
                         ghost target: seq<TimeStampWithSource>, ghost date: LocalDateTime, ghost pending: set<LocalDateTime>)
    requires DistinctObjects(allFiles) && GroupwiseTarget(stamps, target) && |stamps| == |allFiles|
    requires date in pending && date in Times(stamps)
    requires files == GroupFiles(allFiles, Times(stamps), date) && |files| >= 2
    requires Reached(StampsOf(allFiles), stamps, target, pending)
    modifies files
    ensures Reached(StampsOf(allFiles), stamps, target, pending - {date})
  {
    ghost var before := StampsOf(allFiles);
    GroupReady(allFiles, stamps, target, date, pending);
    ghost var groupBefore := StampsOf(files);
    SpreadGroup(files);
    SpreadLanded(allFiles, files, stamps, target, date, pending, before, groupBefore);
  }

  /**
   * After the spread of the pending group of date, with every file outside
   * the group left alone, the stamps of allFiles are those Reached without date.
   */
  lemma SpreadLanded(allFiles: seq<FileInfo>, files: seq<FileInfo>, stamps: seq<TimeStampWithSource>,
                     target: seq<TimeStampWithSource>, date: LocalDateTime, pending: set<LocalDateTime>,
                     before: seq<TimeStampWithSource>, groupBefore: seq<TimeStampWithSource>)
    requires DistinctObjects(allFiles) && GroupwiseTarget(stamps, target) && |stamps| == |allFiles|
    requires date in pending && date in Times(stamps)
    requires files == GroupFiles(allFiles, Times(stamps), date) && |files| >= 2
    requires Reached(before, stamps, target, pending)
    requires groupBefore == Pick(stamps, Indexes(Times(stamps), date)) && StampsOf(files) == Spread(groupBefore)
    requires forall j :: 0 <= j < |allFiles| && allFiles[j] !in files ==> allFiles[j].timestamp == before[j]
    ensures Reached(StampsOf(allFiles), stamps, target, pending - {date})
  {
    var times := Times(stamps);
    var ix := Indexes(times, date);
    var after := StampsOf(allFiles);
    var groupAfter := StampsOf(files);
    GroupFilesAt(allFiles, times, date);
    forall k | 0 <= k < |files| ensures after[ix[k]] == groupAfter[k] {
      assert files[k] == allFiles[ix[k]];
    }
    forall j | 0 <= j < |allFiles| && times[j] != date ensures after[j] == before[j] {
      GroupNotMember(allFiles, times, date, j);
    }
    assert SpreadFrame(times, date, before, after, groupAfter);
    SpreadState(before, after, stamps, target, date, pending);
  }

  /** Before any group is visited every file holds its original stamp. */
  lemma StartState(stamps: seq<TimeStampWithSource>, target: seq<TimeStampWithSource>, pending: set<LocalDateTime>)
    requires AllTimed(stamps) && |target| == |stamps|
    requires forall t :: t in Times(stamps) ==> t in pending
    ensures Reached(stamps, stamps, target, pending)
  {
    forall j | 0 <= j < |stamps| ensures Times(stamps)[j] in pending {
      assert Times(stamps)[j] in Times(stamps);
    }
  }

  /** Once every group is visited every file holds its target. */
  lemma EndState(cur: seq<TimeStampWithSource>, stamps: seq<TimeStampWithSource>, target: seq<TimeStampWithSource>)
    requires Reached(cur, stamps, target, {})
    ensures cur == target
  {
  }

  /** Visiting a group of one file changes no stamp: its target is its original stamp. */
  lemma SingleGroupState(cur: seq<TimeStampWithSource>, stamps: seq<TimeStampWithSource>, target: seq<TimeStampWithSource>,
                         date: LocalDateTime, pending: set<LocalDateTime>)
    requires GroupwiseTarget(stamps, target) && date in Times(stamps) && Occurrences(Times(stamps), date) == 1
    requires Reached(cur, stamps, target, pending)
    ensures Reached(cur, stamps, target, pending - {date})
  {
    var times := Times(stamps);
    var ix := Indexes(times, date);
    assert Pick(target, ix) == Pick(stamps, ix);
    forall j | 0 <= j < |stamps| && times[j] == date ensures target[j] == stamps[j] {
      RankIndex(times, j);
      assert ix[0] == j;
      assert Pick(target, ix)[0] == Pick(stamps, ix)[0];
    }
  }

  lemma {:induction false} GroupNonEmpty(files: seq<FileInfo>, times: seq<LocalDateTime>, t: LocalDateTime)
    requires |times| <= |files| && t in times
    ensures |GroupFiles(files, times, t)| >= 1
    decreases |times|
  {
    var init := times[..|times| - 1];
    if times[|times| - 1] != t {
      assert times == init + [times[|times| - 1]];
      GroupNonEmpty(files, init, t);
    }
  }

  lemma {:induction false} GroupFilesSubset(files: seq<FileInfo>, times: seq<LocalDateTime>, t: LocalDateTime)
    requires |times| <= |files|
    ensures forall f :: f in GroupFiles(files, times, t) ==> f in files
    decreases |times|
  {
    if times != [] {
      GroupFilesSubset(files, times[..|times| - 1], t);
    }
  }

  /** Going from before to after touched the files of the group of date only, giving them groupAfter. */
  ghost predicate SpreadFrame(times: seq<LocalDateTime>, date: LocalDateTime, before: seq<TimeStampWithSource>,
                              after: seq<TimeStampWithSource>, groupAfter: seq<TimeStampWithSource>) {
    |before| == |times| && |after| == |times| && |groupAfter| == |Indexes(times, date)|
    && (forall k :: 0 <= k < |groupAfter| ==> after[Indexes(times, date)[k]] == groupAfter[k])
    && forall j :: 0 <= j < |times| && times[j] != date ==> after[j] == before[j]
  }

  /**
   * Spreading the pending group of date moves its files from their original
   * stamps to their targets and leaves every other file as it was.
   */
  lemma SpreadState(before: seq<TimeStampWithSource>, after: seq<TimeStampWithSource>, stamps: seq<TimeStampWithSource>,
                    target: seq<TimeStampWithSource>, date: LocalDateTime, pending: set<LocalDateTime>)
    requires GroupwiseTarget(stamps, target) && date in pending && date in Times(stamps)
    requires Occurrences(Times(stamps), date) >= 2
    requires Reached(before, stamps, target, pending)
    requires SpreadFrame(Times(stamps), date, before, after, Spread(Pick(stamps, Indexes(Times(stamps), date))))
    ensures Reached(after, stamps, target, pending - {date})
  {
    var times := Times(stamps);
    var ix := Indexes(times, date);
    assert Pick(target, ix) == Spread(Pick(stamps, ix));
    forall j | 0 <= j < |stamps| && times[j] == date ensures after[j] == target[j] {
      RankIndex(times, j);
      var k := Rank(times, j);
      assert ix[k] == j;
      assert Pick(target, ix)[k] == target[j];
    }
  }

  /** The objects of a pending group are distinct, timed, and hold their original stamps. */
  lemma GroupReady(allFiles: seq<FileInfo>, stamps: seq<TimeStampWithSource>, target: seq<TimeStampWithSource>,
                   date: LocalDateTime, pending: set<LocalDateTime>)
    requires DistinctObjects(allFiles) && |stamps| == |allFiles| && date in pending
    requires Reached(StampsOf(allFiles), stamps, target, pending)
    ensures var files := GroupFiles(allFiles, Times(stamps), date);
      DistinctObjects(files) && AllTimed(StampsOf(files))
      && StampsOf(files) == Pick(stamps, Indexes(Times(stamps), date))
  {
    var times := Times(stamps);
    GroupFilesAt(allFiles, times, date);
    var files := GroupFiles(allFiles, times, date);
    var ix := Indexes(times, date);
    forall k, l | 0 <= k < l < |files| ensures files[k] != files[l] {
      assert ix[k] < ix[l];
    }
    forall k | 0 <= k < |files| ensures StampsOf(files)[k] == stamps[ix[k]] {
      assert files[k] == allFiles[ix[k]] && times[ix[k]] == date;
    }
  }

  /** A file of another time is not an object of the group. */
  lemma GroupNotMember(allFiles: seq<FileInfo>, times: seq<LocalDateTime>, date: LocalDateTime, j: int)
    requires DistinctObjects(allFiles) && |times| == |allFiles| && 0 <= j < |allFiles| && times[j] != date
    ensures allFiles[j] !in GroupFiles(allFiles, times, date)
  {
    GroupFilesAt(allFiles, times, date);
    var files := GroupFiles(allFiles, times, date);
    var ix := Indexes(times, date);
    forall k | 0 <= k < |files| ensures files[k] != allFiles[j] {
      assert times[ix[k]] == date;
    }
  }

  /** In a list of three files sharing one time, each file's rank is its position. */
  lemma RanksOfThree(times: seq<LocalDateTime>)
    requires |times| == 3 && times[0] == times[1] == times[2]
    ensures Rank(times, 0) == 0 && Rank(times, 1) == 1 && Rank(times, 2) == 2
    ensures Occurrences(times, times[0]) >= 2
  {
    var t := times[0];
    var one, two := times[..1], times[..2];
    assert one[..0] == [] && two[..1] == one;
    assert Indexes(one, t) == [0];
    assert Indexes(two, t) == [0, 1];
    RankIndex(times, 0);
    RankIndex(times, 1);
    TwoMembers(Indexes(times, t), 0, 1);
  }

  /** Three files sharing time t end at t, t + 1 and t + 2 seconds, all retagged. */
  lemma ThreeCollisions(stamps: seq<TimeStampWithSource>, t: LocalDateTime)
    requires |stamps| == 3 && forall j :: 0 <= j < 3 ==> stamps[j].time == Some(t)
    ensures Deduplicated(stamps)[0] == TimeStampWithSource(Some(PlusSeconds(t, 0)), CollisionAvoidance)
    ensures Deduplicated(stamps)[1] == TimeStampWithSource(Some(PlusSeconds(t, 1)), CollisionAvoidance)
    ensures Deduplicated(stamps)[2] == TimeStampWithSource(Some(PlusSeconds(t, 2)), CollisionAvoidance)
  {
    RanksOfThree(Times(stamps));
  }

  /** Three files dated 2024-05-30 21:03:59 end at 21:03:59, 21:04:00 and 21:04:01, all retagged. */
  lemma ExampleThreeCollisions(stamps: seq<TimeStampWithSource>, first: LocalDateTime, second: LocalDateTime, third: LocalDateTime)
    requires first == DateTimeFields(2024, 5, 30, 21, 3, 59)
    requires second == DateTimeFields(2024, 5, 30, 21, 4, 0) && third == DateTimeFields(2024, 5, 30, 21, 4, 1)
    requires |stamps| == 3 && forall j :: 0 <= j < 3 ==> stamps[j].time == Some(first)
    ensures Deduplicated(stamps)[0] == TimeStampWithSource(Some(first), CollisionAvoidance)
    ensures Deduplicated(stamps)[1] == TimeStampWithSource(Some(second), CollisionAvoidance)
    ensures Deduplicated(stamps)[2] == TimeStampWithSource(Some(third), CollisionAvoidance)
  {
    ThreeCollisions(stamps, first);
    PlusZero(first);
    ExampleMinuteCarry();
  }
}
