/**
 * DateChooser: runs the extractors in priority order, keeps the first
 * non-empty candidate list, filters it by the date range and reduces it to
 * one timestamp by repeatedly discarding the candidate furthest from the mean.
 */
module Chooser {
  import opened Wrappers
  import opened Time
  import opened Stamps
  import opened DateRanges
  import opened FileTypes
  import FileNameExtractors
  import Exif

  /** The four DateExtractor implementations. */
  datatype DateExtractor =
    | FinalFileNameExtractor       // FinalFileNameDateExtractor
    | ExifExtractor                // ExifDateExtractor
    | CameraFileNameExtractor      // FromCameraFileNameDateExtractor
    | FileLastModifiedExtractor    // FileDateExtractor

  /**
   * A file as the extractors see it: its path, what reading its metadata
   * yields, and its last-modified time in the local zone truncated to the
   * second (or the IOException reading it raises).
   */
  datatype MediaFile = MediaFile(path: Path, metadata: Exif.MetadataRead, lastModified: Outcome<LocalDateTime>)

  /** DateExtractor.extractDates for each implementation. */
  function ExtractDates(e: DateExtractor, file: MediaFile): Outcome<seq<TimeStampWithSource>> {
    match e
    case FinalFileNameExtractor =>
      FileNameExtractors.ExtractDates(FileNameExtractors.FinalFileNameDateExtractor, file.path)
    case ExifExtractor => Exif.ExtractDates(file.path, file.metadata)
    case CameraFileNameExtractor =>
      FileNameExtractors.ExtractDates(FileNameExtractors.FromCameraFileNameDateExtractor, file.path)
    case FileLastModifiedExtractor =>
      var time :- file.lastModified;
      Success([TimeStampWithSource(Some(time), FileLastModified)])
  }

  /** Each extractor returned an empty list for the file. */
  ghost predicate AllEmpty(extractors: seq<DateExtractor>, file: MediaFile) {
    AllEmptyUnder(extractors, e => ExtractDates(e, file))
  }

  /** out gives an empty list for every element of xs. */
  ghost predicate AllEmptyUnder<X>(xs: seq<X>, out: X -> Outcome<seq<TimeStampWithSource>>) {
    forall j :: 0 <= j < |xs| ==> out(xs[j]) == Success([])
  }

  /**
   * The stream of the computeTimestamp pipeline up to findAny: the first
   * non-empty list, or an empty one when all are empty. Extractors after that
   * one are never run, so only an exception raised before it escapes.
   */
  function FirstNonEmpty(extractors: seq<DateExtractor>, file: MediaFile): (r: Outcome<seq<TimeStampWithSource>>)
    ensures r == Success([]) <==> AllEmpty(extractors, file)
    ensures r.Success? && r.value != [] ==>
      exists i :: 0 <= i < |extractors| && ExtractDates(extractors[i], file) == r && AllEmpty(extractors[..i], file)
    ensures r.Failure? ==>
      exists i :: 0 <= i < |extractors| && ExtractDates(extractors[i], file) == r && AllEmpty(extractors[..i], file)
  {
    if extractors == [] then Success([])
    else
      var first := ExtractDates(extractors[0], file);
      if first.Failure? || first.value != [] then
        assert extractors[..0] == [];
        first
      else
        var r := FirstNonEmpty(extractors[1..], file);
        FirstEmptyStep(extractors, e => ExtractDates(e, file), r);
        r
  }

  /**
   * When the first list is empty, the first non-empty list of the rest is the
   * first non-empty list of all.
   */
  lemma FirstEmptyStep<X>(xs: seq<X>, out: X -> Outcome<seq<TimeStampWithSource>>, r: Outcome<seq<TimeStampWithSource>>)
    requires xs != [] && out(xs[0]) == Success([])
    requires r == Success([]) <==> AllEmptyUnder(xs[1..], out)
    requires r != Success([]) ==> exists i :: 0 <= i < |xs[1..]| && out(xs[1..][i]) == r && AllEmptyUnder(xs[1..][..i], out)
    ensures r == Success([]) <==> AllEmptyUnder(xs, out)
    ensures r != Success([]) ==> exists i :: 0 <= i < |xs| && out(xs[i]) == r && AllEmptyUnder(xs[..i], out)
  {
    var rest := xs[1..];
    if AllEmptyUnder(rest, out) {
      forall j | 0 <= j < |xs| ensures out(xs[j]) == Success([]) {
        if j > 0 { assert xs[j] == rest[j - 1]; }
      }
    }
    if AllEmptyUnder(xs, out) {
      forall j | 0 <= j < |rest| ensures out(rest[j]) == Success([]) {
        assert rest[j] == xs[j + 1];
      }
    }
    if r != Success([]) {
      var i :| 0 <= i < |rest| && out(rest[i]) == r && AllEmptyUnder(rest[..i], out);
      assert rest[i] == xs[i + 1];
      var prefix := xs[..i + 1];
      forall j | 0 <= j < |prefix| ensures out(prefix[j]) == Success([]) {
        if j > 0 { assert prefix[j] == rest[..i][j - 1]; }
      }
    }
  }

  /** A candidate the range filter keeps: a null time passes only when no bound is set. */
  predicate Admitted(range: DateRange, c: TimeStampWithSource) {
    CheckInRange(range, c.time) == Success(true)
  }

  /** The filter step of computeTimestamp: isInRange on every candidate, in order. */
  function FilterInRange(range: DateRange, cs: seq<TimeStampWithSource>): (r: Outcome<seq<TimeStampWithSource>>)
    ensures r.Failure? <==> (range.min.Some? || range.max.Some?) && exists i :: 0 <= i < |cs| && cs[i].time.None?
    ensures r.Failure? ==> r.error == NullPointer
    ensures r.Success? ==> forall c :: multiset(r.value)[c] == if Admitted(range, c) then multiset(cs)[c] else 0
    ensures r.Success? ==> |r.value| <= |cs|
  {
    if cs == [] then Success([])
    else
      var keep :- CheckInRange(range, cs[0].time);
      var rest :- FilterInRange(range, cs[1..]);
      assert cs == [cs[0]] + cs[1..];
      assert keep == Admitted(range, cs[0]);
      Success(if keep then [cs[0]] + rest else rest)
  }

  // ---- findClosestDates -------------------------------------------------------

  ghost predicate AllTimed(cs: seq<TimeStampWithSource>) {
    forall i :: 0 <= i < |cs| ==> cs[i].time.Some?
  }

  predicate NoDuplicates<T(==)>(s: seq<T>) {
    forall i, j :: 0 <= i < j < |s| ==> s[i] != s[j]
  }

  /**
   * new HashSet<>(dates): the distinct candidates, each once. The sequence
   * stands for the set in its iteration order.
   */
  function Distinct(cs: seq<TimeStampWithSource>): (r: seq<TimeStampWithSource>)
    ensures forall c :: c in r <==> c in cs
    ensures NoDuplicates(r) && |r| <= |cs|
    ensures NoDuplicates(cs) ==> r == cs
  {
    if cs == [] then []
    else
      var init := cs[..|cs| - 1];
      var last := cs[|cs| - 1];
      assert cs == init + [last];
      assert forall c :: c in cs <==> c in init || c == last;
      assert NoDuplicates(cs) ==> NoDuplicates(init) && last !in init by {
        if NoDuplicates(cs) {
          forall k | 0 <= k < |init| ensures init[k] != last { assert cs[k] != cs[|cs| - 1]; }
        }
      }
      if last in init then Distinct(init) else Distinct(init) + [last]
  }

  /** toEpochSecond of a candidate's time; a fixed zone offset cancels in every difference. */
  function Epoch(c: TimeStampWithSource): int
    requires c.time.Some?
  {
    ToEpochSecond(c.time.value)
  }

  function SumEpochs(cs: seq<TimeStampWithSource>): int
    requires AllTimed(cs)
  {
    if cs == [] then 0 else Epoch(cs[0]) + SumEpochs(cs[1..])
  }

  /**
   * computeAverageEpoch followed by the conversion of the mean to a
   * LocalDateTime: the whole seconds are the sum divided by the count,
   * truncated toward zero; a negative mean with a fractional part gives a
   * negative nano-of-second, which LocalDateTime.ofEpochSecond rejects.
   */
  function MeanEpoch(cs: seq<TimeStampWithSource>): (r: Outcome<int>)
    requires cs != [] && AllTimed(cs)
    ensures r.Failure? <==> SumEpochs(cs) < 0 && ((-SumEpochs(cs)) % |cs|) * 1000000000 >= |cs|
    ensures r.Failure? ==> r.error == DateTimeInvalid
    ensures r.Success? && SumEpochs(cs) >= 0 ==> 0 <= |cs| * r.value <= SumEpochs(cs) < |cs| * (r.value + 1)
    ensures r.Success? && SumEpochs(cs) < 0 ==> |cs| * (r.value - 1) < SumEpochs(cs) <= |cs| * r.value <= 0
  {
    var sum, k := SumEpochs(cs), |cs|;
    if sum >= 0 then
      DivisionBounds(sum, k);
      Success(sum / k)
    else
      var remainder := (-sum) % k;
      NegativeMeanBounds(sum, k);
      var nanos := remainder * 1000000000 / k;
      if nanos != 0 then Failure(DateTimeInvalid) else Success(-((-sum) / k))
  }

  /** A negative sum: the nanos are non-zero exactly when the fraction is, and the truncated mean bounds it. */
  lemma NegativeMeanBounds(sum: int, k: int)
    requires sum < 0 && k > 0
    ensures var q, remainder := (-sum) / k, (-sum) % k;
      && (remainder * 1000000000 / k != 0 <==> remainder * 1000000000 >= k)
      && (remainder * 1000000000 / k == 0 ==> k * (-q - 1) < sum <= k * -q <= 0)
  {
    var q, remainder := (-sum) / k, (-sum) % k;
    DivisionBounds(-sum, k);
    DivisionBounds(remainder * 1000000000, k);
    assert -sum == k * q + remainder;
  }

  lemma DivisionBounds(n: int, k: int)
    requires n >= 0 && k > 0
    ensures 0 <= k * (n / k) <= n < k * (n / k + 1)
    ensures n / k == 0 <==> n < k
  {
    assert n == k * (n / k) + n % k;
  }

  /** diff against the mean: the absolute difference of epoch seconds. */
  function Distance(c: TimeStampWithSource, mean: int): nat
    requires c.time.Some?
  {
    if Epoch(c) >= mean then Epoch(c) - mean else mean - Epoch(c)
  }

  /** h[i] is as far from the mean as any candidate in h. */
  ghost predicate IsFurthest(h: seq<TimeStampWithSource>, i: int, mean: int)
    requires AllTimed(h)
  {
    0 <= i < |h| && forall j :: 0 <= j < |h| ==> Distance(h[j], mean) <= Distance(h[i], mean)
  }

  /**
   * findFurthestToTarget: Stream.max with compare, which keeps the earlier of
   * two equally distant candidates; the result is the first furthest one.
   */
  function FindFurthestToTarget(h: seq<TimeStampWithSource>, mean: int): (i: nat)
    requires h != [] && AllTimed(h)
    ensures IsFurthest(h, i, mean)
    ensures forall j :: 0 <= j < i ==> Distance(h[j], mean) < Distance(h[i], mean)
  {
    var d := (c: TimeStampWithSource) => if c.time.Some? then Distance(c, mean) else 0;
    var i := FirstMax(h, d);
    assert forall j :: 0 <= j < |h| ==> d(h[j]) == Distance(h[j], mean);
    i
  }

  /** Stream.max(comparing(d)): the first element whose d is largest. */
  function FirstMax<T>(h: seq<T>, d: T -> int): (i: nat)
    requires h != []
    ensures i < |h| && forall j :: 0 <= j < |h| ==> d(h[j]) <= d(h[i])
    ensures forall j :: 0 <= j < i ==> d(h[j]) < d(h[i])
  {
    if |h| == 1 then 0
    else
      var init := h[..|h| - 1];
      var j := FirstMax(init, d);
      assert forall k :: 0 <= k < |init| ==> init[k] == h[k];
      if d(h[j]) < d(h[|h| - 1]) then |h| - 1 else j
  }

  /** HashSet.remove of the element at index i of a set without duplicates. */
  function RemoveAt(h: seq<TimeStampWithSource>, i: int): (r: seq<TimeStampWithSource>)
    requires 0 <= i < |h|
    ensures |r| == |h| - 1
    ensures forall j :: 0 <= j < |r| ==> r[j] == if j < i then h[j] else h[j + 1]
  {
    h[..i] + h[i + 1..]
  }

  lemma RemoveAtTimed(h: seq<TimeStampWithSource>, i: int)
    requires 0 <= i < |h| && AllTimed(h)
    ensures AllTimed(RemoveAt(h, i))
  {
    var r := RemoveAt(h, i);
    forall j | 0 <= j < |r| ensures r[j].time.Some? {
      if j >= i { assert r[j] == h[j + 1]; }
    }
  }

  /**
   * The results the do-while loop of findClosestDates may reach from the set h,
   * whichever furthest candidate each step removes: an error if the mean
   * cannot be formed, else, after removing one furthest candidate, the set's
   * only element (null when none is left) or a result reached from what remains.
   */
  ghost predicate MayEnd(h: seq<TimeStampWithSource>, r: Outcome<Option<TimeStampWithSource>>)
    requires h != [] && AllTimed(h)
    decreases |h|, 1
  {
    var mean := MeanEpoch(h);
    if mean.Failure? then r == Failure(mean.error)
    else
      exists i :: IsFurthest(h, i, mean.value) && 0 <= i < |h| && Continues(h, i, r)
  }

  /** What follows removing h[i] in MayEnd: the last element left, or the loop on what remains. */
  ghost predicate Continues(h: seq<TimeStampWithSource>, i: int, r: Outcome<Option<TimeStampWithSource>>)
    requires 0 <= i < |h| && AllTimed(h)
    decreases |h|, 0
  {
    if |h| > 2 then AllTimed(RemoveAt(h, i)) && MayEnd(RemoveAt(h, i), r)
    else r == Success(if |h| == 1 then None else Some(RemoveAt(h, i)[0]))
  }

  /**
   * findClosestDates: null for no candidate, the only candidate as is, and
   * otherwise the outcome of the loop over the distinct candidates, which
   * dereferences the times and so fails on a null one.
   */
  ghost predicate ClosestOutcome(dates: seq<TimeStampWithSource>, r: Outcome<Option<TimeStampWithSource>>) {
    if |dates| == 0 then r == Success(None)
    else if |dates| == 1 then r == Success(Some(dates[0]))
    else if !AllTimed(dates) then r == Failure(NullPointer)
    else AllTimed(Distinct(dates)) && MayEnd(Distinct(dates), r)
  }

  lemma DistinctTimed(dates: seq<TimeStampWithSource>)
    requires AllTimed(dates)
    ensures AllTimed(Distinct(dates)) && (dates != [] ==> Distinct(dates) != [])
  {
    var h := Distinct(dates);
    forall j | 0 <= j < |h| ensures h[j].time.Some? {
      assert h[j] in dates;
    }
    if dates != [] { assert dates[0] in h; }
  }

  /**
   * findClosestDates. The loop removes from the set one candidate furthest
   * from the truncated mean of those left until at most one is left; the
   * ghost count of iterations is one less than the number of distinct
   * candidates, and one when they all collapse into one.
   */
  method FindClosestDates(dates: seq<TimeStampWithSource>) returns (r: Outcome<Option<TimeStampWithSource>>, ghost iterations: nat)
    ensures ClosestOutcome(dates, r)
    ensures |dates| >= 2 && r.Success? ==> iterations == if |Distinct(dates)| == 1 then 1 else |Distinct(dates)| - 1
  {
    iterations := 0;
    if |dates| == 0 { return Success(None), 0; }
    if |dates| == 1 { return Success(Some(dates[0])), 0; }
    if exists i :: 0 <= i < |dates| && dates[i].time.None? {
      return Failure(NullPointer), 0;
    }
    DistinctTimed(dates);
    var hashedDates := Distinct(dates);
    ghost var k := |hashedDates|;
    while true
      invariant hashedDates != [] && AllTimed(hashedDates)
      invariant |hashedDates| == k - iterations && (k == 1 || |hashedDates| >= 2)
      invariant forall r' :: MayEnd(hashedDates, r') ==> ClosestOutcome(dates, r')
      decreases |hashedDates|
    {
      var mean := MeanEpoch(hashedDates);
      if mean.Failure? {
        return Failure(mean.error), iterations;
      }
      var furthest := FindFurthestToTarget(hashedDates, mean.value);
      var remaining := RemoveAt(hashedDates, furthest);
      iterations := iterations + 1;
      if |remaining| <= 1 {
        r := Success(if remaining == [] then None else Some(remaining[0]));
        assert MayEnd(hashedDates, r);
        return r, iterations;
      }
      RemoveAtTimed(hashedDates, furthest);
      forall r' | MayEnd(remaining, r') ensures ClosestOutcome(dates, r') {
        assert MayEnd(hashedDates, r');
      }
      hashedDates := remaining;
    }
  }

  // ---- Properties of findClosestDates --------------------------------------------

  /** Every candidate has a time at or after the epoch. */
  ghost predicate NonNegative(cs: seq<TimeStampWithSource>) {
    forall i :: 0 <= i < |cs| ==> cs[i].time.Some? && ToEpochSecond(cs[i].time.value) >= 0
  }

  lemma {:induction false} SumNonNegative(cs: seq<TimeStampWithSource>)
    requires AllTimed(cs) && NonNegative(cs)
    ensures SumEpochs(cs) >= 0
  {
    if cs != [] {
      assert forall i :: 0 <= i < |cs[1..]| ==> cs[1..][i] == cs[i + 1];
      SumNonNegative(cs[1..]);
    }
  }

  lemma RemoveAtKeeps(h: seq<TimeStampWithSource>, i: int)
    requires 0 <= i < |h| && AllTimed(h)
    ensures AllTimed(RemoveAt(h, i))
    ensures NonNegative(h) ==> NonNegative(RemoveAt(h, i))
    ensures forall c :: c in RemoveAt(h, i) ==> c in h
  {
    var r := RemoveAt(h, i);
    forall j | 0 <= j < |r| ensures r[j] in h && (j < i ==> r[j] == h[j]) && (j >= i ==> r[j] == h[j + 1]) {
    }
  }

  /** A result the loop reaches from h is one of the elements of h. */
  lemma {:induction false} MayEndSurvivor(h: seq<TimeStampWithSource>, c: TimeStampWithSource)
    requires h != [] && AllTimed(h) && MayEnd(h, Success(Some(c)))
    ensures c in h
    decreases |h|
  {
    var mean := MeanEpoch(h);
    var i :| IsFurthest(h, i, mean.value) && 0 <= i < |h| && Continues(h, i, Success(Some(c)));
    RemoveAtKeeps(h, i);
    if |h| > 2 {
      MayEndSurvivor(RemoveAt(h, i), c);
    } else {
      assert c == RemoveAt(h, i)[0];
    }
  }

  /** findClosestDates returns one of its candidates, or null. */
  lemma ClosestIsCandidate(dates: seq<TimeStampWithSource>, c: TimeStampWithSource)
    requires ClosestOutcome(dates, Success(Some(c)))
    ensures c in dates
  {
    if |dates| >= 2 {
      MayEndSurvivor(Distinct(dates), c);
    }
  }

  /** With times at or after the epoch the mean is never negative, so the loop cannot fail. */
  lemma {:induction false} MayEndNonNegative(h: seq<TimeStampWithSource>, r: Outcome<Option<TimeStampWithSource>>)
    requires h != [] && AllTimed(h) && NonNegative(h) && MayEnd(h, r)
    ensures r.Success?
    ensures |h| >= 2 ==> r.value.Some?
    decreases |h|
  {
    SumNonNegative(h);
    var mean := MeanEpoch(h);
    var i :| IsFurthest(h, i, mean.value) && 0 <= i < |h| && Continues(h, i, r);
    if |h| > 2 {
      RemoveAtKeeps(h, i);
      MayEndNonNegative(RemoveAt(h, i), r);
    }
  }

  /**
   * Timed candidates at or after the epoch: findClosestDates fails only on a
   * null time, and yields a date whenever two distinct candidates remain.
   */
  lemma ClosestNonNegative(dates: seq<TimeStampWithSource>, r: Outcome<Option<TimeStampWithSource>>)
    requires AllTimed(dates) && NonNegative(dates) && ClosestOutcome(dates, r)
    ensures r.Success?
    ensures |Distinct(dates)| >= 2 ==> r.value.Some?
  {
    if |dates| >= 2 {
      var h := Distinct(dates);
      forall j | 0 <= j < |h| ensures h[j].time.Some? && ToEpochSecond(h[j].time.value) >= 0 {
        assert h[j] in dates;
      }
      MayEndNonNegative(h, r);
    }
  }

  /**
   * Two or more candidates that are all the same value collapse into a set of
   * one; the loop still runs once and removes it, so the result is null.
   */
  lemma CollapsedCandidates(dates: seq<TimeStampWithSource>, r: Outcome<Option<TimeStampWithSource>>)
    requires |dates| >= 2 && AllTimed(dates) && |Distinct(dates)| == 1
    ensures ClosestOutcome(dates, r) <==> r == Success(None)
  {
    DistinctTimed(dates);
    var h := Distinct(dates);
    var mean := MeanEpoch(h);
    assert SumEpochs(h) == Epoch(h[0]) by { assert h[1..] == []; }
    assert mean.Success?;
    assert IsFurthest(h, 0, mean.value);
    if r == Success(None) {
      assert Continues(h, 0, r);
    }
    if ClosestOutcome(dates, r) {
      var i :| IsFurthest(h, i, mean.value) && 0 <= i < |h| && Continues(h, i, r);
      assert i == 0;
    }
  }

  lemma SumOfTwo(a: TimeStampWithSource, b: TimeStampWithSource)
    requires a.time.Some? && b.time.Some?
    ensures SumEpochs([a, b]) == Epoch(a) + Epoch(b)
  {
    assert [a, b][1..] == [b];
    assert [b][1..] == [];
    assert SumEpochs([b]) == Epoch(b) + SumEpochs([]);
  }

  /** The truncated mean of two times a..b lies d / 2 after a, for the gap d. */
  lemma MeanOfTwo(a: TimeStampWithSource, b: TimeStampWithSource)
    requires a.time.Some? && b.time.Some? && 0 <= Epoch(a) <= Epoch(b)
    ensures MeanEpoch([a, b]) == Success(Epoch(a) + (Epoch(b) - Epoch(a)) / 2)
  {
    SumOfTwo(a, b);
    var d := Epoch(b) - Epoch(a);
    var m := MeanEpoch([a, b]).value;
    assert d == 2 * (d / 2) + d % 2;
    assert 2 * m <= 2 * Epoch(a) + d < 2 * m + 2;
  }

  /**
   * The loop on two distinct candidates: the mean is formed, one furthest
   * candidate is removed and the other is the result.
   */
  lemma MayEndOfTwo(a: TimeStampWithSource, b: TimeStampWithSource, m: int, r: Outcome<Option<TimeStampWithSource>>)
    requires a.time.Some? && b.time.Some? && a != b && MeanEpoch([a, b]) == Success(m)
    ensures ClosestOutcome([a, b], r) <==>
      (r == Success(Some(a)) && Distance(a, m) <= Distance(b, m)) || (r == Success(Some(b)) && Distance(b, m) <= Distance(a, m))
  {
    var h := [a, b];
    assert Distinct(h) == h;
    FurthestOfTwo(a, b, m);
    ContinuesOfTwo(a, b, r);
    if ClosestOutcome(h, r) {
      var i :| IsFurthest(h, i, m) && 0 <= i < |h| && Continues(h, i, r);
      assert i == 0 || i == 1;
    }
  }

  /** Which of two candidates is furthest from m. */
  lemma FurthestOfTwo(a: TimeStampWithSource, b: TimeStampWithSource, m: int)
    requires a.time.Some? && b.time.Some?
    ensures IsFurthest([a, b], 0, m) <==> Distance(b, m) <= Distance(a, m)
    ensures IsFurthest([a, b], 1, m) <==> Distance(a, m) <= Distance(b, m)
  {
  }

  /** Removing one of two candidates leaves the other as the result. */
  lemma ContinuesOfTwo(a: TimeStampWithSource, b: TimeStampWithSource, r: Outcome<Option<TimeStampWithSource>>)
    requires a.time.Some? && b.time.Some?
    ensures Continues([a, b], 0, r) <==> r == Success(Some(b))
    ensures Continues([a, b], 1, r) <==> r == Success(Some(a))
  {
    assert RemoveAt([a, b], 0) == [b] && RemoveAt([a, b], 1) == [a];
  }

  /**
   * Two candidates an odd number of seconds apart: the truncated mean lies
   * nearer the earlier one, so the later is removed and the earlier is chosen.
   */
  lemma TwoCandidatesOddGap(a: TimeStampWithSource, b: TimeStampWithSource, r: Outcome<Option<TimeStampWithSource>>)
    requires a.time.Some? && b.time.Some?
    requires 0 <= Epoch(a) < Epoch(b) && (Epoch(b) - Epoch(a)) % 2 == 1
    ensures ClosestOutcome([a, b], r) <==> r == Success(Some(a))
  {
    MeanOfTwo(a, b);
    var d := Epoch(b) - Epoch(a);
    var m := Epoch(a) + d / 2;
    assert d == 2 * (d / 2) + 1;
    assert Distance(a, m) < Distance(b, m);
    MayEndOfTwo(a, b, m, r);
  }

  /**
   * Two candidates an even number of seconds apart are equally far from the
   * mean: the one removed depends on the set's iteration order, so either
   * may be chosen.
   */
  lemma TwoCandidatesEvenGap(a: TimeStampWithSource, b: TimeStampWithSource, r: Outcome<Option<TimeStampWithSource>>)
    requires a.time.Some? && b.time.Some?
    requires 0 <= Epoch(a) < Epoch(b) && (Epoch(b) - Epoch(a)) % 2 == 0
    ensures ClosestOutcome([a, b], r) <==> r == Success(Some(a)) || r == Success(Some(b))
  {
    MeanOfTwo(a, b);
    var d := Epoch(b) - Epoch(a);
    var m := Epoch(a) + d / 2;
    assert d == 2 * (d / 2);
    assert Distance(a, m) == Distance(b, m);
    MayEndOfTwo(a, b, m, r);
  }

  /**
   * Distinct candidates whose mean is negative with a fractional part: the
   * conversion of the mean fails on the negative nano-of-second before anything
   * is removed.
   */
  lemma NegativeFractionalMeanFails(dates: seq<TimeStampWithSource>, r: Outcome<Option<TimeStampWithSource>>)
    requires |dates| >= 2 && AllTimed(dates) && NoDuplicates(dates)
    requires SumEpochs(dates) < 0 && ((-SumEpochs(dates)) % |dates|) * 1000000000 >= |dates|
    ensures ClosestOutcome(dates, r) <==> r == Failure(DateTimeInvalid)
  {
    assert Distinct(dates) == dates;
    var mean := MeanEpoch(dates);
    assert mean == Failure(DateTimeInvalid);
    assert ClosestOutcome(dates, r) == MayEnd(dates, r);
  }

  // ---- The chooser ------------------------------------------------------------------

  /**
   * The extractors in priority order: the final file name, EXIF, the camera
   * file name and, only when configured, the file's last-modified time.
   */
  function Extractors(readFilesystemDateModified: bool): (r: seq<DateExtractor>)
    ensures |r| == if readFilesystemDateModified then 4 else 3
    ensures r[..3] == [FinalFileNameExtractor, ExifExtractor, CameraFileNameExtractor]
    ensures FileLastModifiedExtractor in r <==> readFilesystemDateModified
  {
    [FinalFileNameExtractor, ExifExtractor, CameraFileNameExtractor]
      + (if readFilesystemDateModified then [FileLastModifiedExtractor] else [])
  }

  /**
   * computeTimestamp: the first non-empty candidate list, filtered by the
   * range, reduced by findClosestDates; an exception at any stage escapes.
   */
  ghost predicate TimestampOutcome(extractors: seq<DateExtractor>, range: DateRange, file: MediaFile,
                                   r: Outcome<Option<TimeStampWithSource>>) {
    match FirstNonEmpty(extractors, file)
    case Failure(e) => r == Failure(e)
    case Success(dates) =>
      match FilterInRange(range, dates)
      case Failure(e) => r == Failure(e)
      case Success(filtered) => ClosestOutcome(filtered, r)
  }

  class DateChooser {
    const extractors: seq<DateExtractor>
    const dateRange: DateRange

    constructor (readFilesystemDateModified: bool, dateRange: DateRange)
      ensures extractors == Extractors(readFilesystemDateModified)
      ensures this.dateRange == dateRange
    {
      var chosen := [FinalFileNameExtractor, ExifExtractor, CameraFileNameExtractor];
      if readFilesystemDateModified {
        chosen := chosen + [FileLastModifiedExtractor];
      }
      extractors := chosen;
      this.dateRange := dateRange;
    }

    method ComputeTimestamp(file: MediaFile) returns (r: Outcome<Option<TimeStampWithSource>>)
      ensures TimestampOutcome(extractors, dateRange, file, r)
    {
      var dates :- FirstNonEmpty(extractors, file);
      var filtered :- FilterInRange(dateRange, dates);
      var closest;
      ghost var iterations;
      closest, iterations := FindClosestDates(filtered);
      r := closest;
    }
  }

  // ---- Properties of computeTimestamp ------------------------------------------------

  /** The first extractor that finds something or fails decides; the later ones are never consulted. */
  lemma {:induction false} FirstNonEmptyAt(extractors: seq<DateExtractor>, file: MediaFile, i: int)
    requires 0 <= i < |extractors| && AllEmpty(extractors[..i], file)
    requires ExtractDates(extractors[i], file) != Success([])
    ensures FirstNonEmpty(extractors, file) == ExtractDates(extractors[i], file)
  {
    if i > 0 {
      assert extractors[..i][0] == extractors[0];
      var rest := extractors[1..];
      var before := rest[..i - 1];
      forall j | 0 <= j < |before| ensures ExtractDates(before[j], file) == Success([]) {
        assert before[j] == extractors[..i][j + 1];
      }
      FirstNonEmptyAt(rest, file, i - 1);
      assert rest[i - 1] == extractors[i];
    }
  }

  /** No extractor finds a candidate: the timestamp is null. */
  lemma NoCandidateGivesNull(extractors: seq<DateExtractor>, range: DateRange, file: MediaFile,
                             r: Outcome<Option<TimeStampWithSource>>)
    requires AllEmpty(extractors, file)
    ensures TimestampOutcome(extractors, range, file, r) <==> r == Success(None)
  {
  }

  /**
   * When the deciding extractor's candidates are all timed and all outside
   * the range the timestamp is null, whatever later extractors would find.
   */
  lemma OutOfRangeWinnerGivesNull(extractors: seq<DateExtractor>, range: DateRange, file: MediaFile, i: int,
                                  r: Outcome<Option<TimeStampWithSource>>)
    requires 0 <= i < |extractors| && AllEmpty(extractors[..i], file)
    requires ExtractDates(extractors[i], file).Success? && ExtractDates(extractors[i], file).value != []
    requires forall c :: c in ExtractDates(extractors[i], file).value ==> c.time.Some? && !IsInRange(range, c.time.value)
    ensures TimestampOutcome(extractors, range, file, r) <==> r == Success(None)
  {
    FirstNonEmptyAt(extractors, file, i);
    FilterNoneAdmitted(range, ExtractDates(extractors[i], file).value);
  }

  lemma {:induction false} FilterNoneAdmitted(range: DateRange, cs: seq<TimeStampWithSource>)
    requires forall c :: c in cs ==> c.time.Some? && !IsInRange(range, c.time.value)
    ensures FilterInRange(range, cs) == Success([])
  {
    if cs != [] {
      assert cs[0] in cs;
      assert forall c :: c in cs[1..] ==> c in cs;
      FilterNoneAdmitted(range, cs[1..]);
    }
  }

  /** The deciding extractor's only candidate, when in range, is the timestamp. */
  lemma SingleCandidateChosen(extractors: seq<DateExtractor>, range: DateRange, file: MediaFile, i: int,
                              c: TimeStampWithSource, r: Outcome<Option<TimeStampWithSource>>)
    requires 0 <= i < |extractors| && AllEmpty(extractors[..i], file)
    requires ExtractDates(extractors[i], file) == Success([c]) && Admitted(range, c)
    ensures TimestampOutcome(extractors, range, file, r) <==> r == Success(Some(c))
  {
    FirstNonEmptyAt(extractors, file, i);
    var f := FilterInRange(range, [c]);
    assert multiset(f.value)[c] == 1;
    assert |f.value| == 1;
    assert f.value[0] in multiset(f.value);
  }

  /**
   * A file none of whose name and EXIF extractors finds anything: its
   * last-modified time is used when configured and within the range, and
   * otherwise the timestamp is null.
   */
  lemma LastModifiedFallback(range: DateRange, file: MediaFile, t: LocalDateTime, r: Outcome<Option<TimeStampWithSource>>)
    requires AllEmpty(Extractors(false), file) && file.lastModified == Success(t) && IsInRange(range, t)
    ensures TimestampOutcome(Extractors(true), range, file, r) <==> r == Success(Some(TimeStampWithSource(Some(t), FileLastModified)))
    ensures TimestampOutcome(Extractors(false), range, file, r) <==> r == Success(None)
  {
    assert Extractors(true)[..3] == Extractors(false);
    SingleCandidateChosen(Extractors(true), range, file, 3, TimeStampWithSource(Some(t), FileLastModified), r);
  }

  /**
   * The chosen timestamp is a candidate of some extractor and passes the
   * range filter.
   */
  lemma ChosenIsAdmittedCandidate(extractors: seq<DateExtractor>, range: DateRange, file: MediaFile,
                                  c: TimeStampWithSource)
    requires TimestampOutcome(extractors, range, file, Success(Some(c)))
    ensures Admitted(range, c)
    ensures exists i :: 0 <= i < |extractors| && ExtractDates(extractors[i], file).Success?
                        && c in ExtractDates(extractors[i], file).value
  {
    var dates := FirstNonEmpty(extractors, file).value;
    var filtered := FilterInRange(range, dates).value;
    ClosestIsCandidate(filtered, c);
    assert multiset(filtered)[c] > 0;
    assert multiset(dates)[c] > 0;
    assert c in dates;
  }

  /** No extractor lists the same candidate twice. */
  lemma ExtractorCandidatesDistinct(e: DateExtractor, file: MediaFile)
    requires ExtractDates(e, file).Success?
    ensures NoDuplicates(ExtractDates(e, file).value)
  {
    if e.ExifExtractor? {
      Exif.ExifCandidatesOrdered(file.path, file.metadata);
    }
  }

  /** Filtering keeps a list without duplicates free of them. */
  lemma FilterKeepsDistinct(range: DateRange, cs: seq<TimeStampWithSource>)
    requires NoDuplicates(cs) && FilterInRange(range, cs).Success?
    ensures NoDuplicates(FilterInRange(range, cs).value)
  {
    var f := FilterInRange(range, cs).value;
    forall i, j | 0 <= i < j < |f| ensures f[i] != f[j] {
      MultiplicityOne(cs, f[i]);
      RepeatCountsTwice(f, i, j);
    }
  }

  /** An element found at two positions occurs at least twice. */
  lemma RepeatCountsTwice(f: seq<TimeStampWithSource>, i: int, j: int)
    requires 0 <= i < j < |f|
    ensures f[i] == f[j] ==> multiset(f)[f[i]] >= 2
  {
    assert f == f[..i] + [f[i]] + f[i + 1..j] + [f[j]] + f[j + 1..];
  }

  lemma {:induction false} MultiplicityOne(cs: seq<TimeStampWithSource>, c: TimeStampWithSource)
    requires NoDuplicates(cs)
    ensures multiset(cs)[c] <= 1
  {
    if cs != [] {
      assert cs == [cs[0]] + cs[1..];
      assert NoDuplicates(cs[1..]) by {
        forall i, j | 0 <= i < j < |cs[1..]| ensures cs[1..][i] != cs[1..][j] {
          assert cs[1..][i] == cs[i + 1] && cs[1..][j] == cs[j + 1];
        }
      }
      MultiplicityOne(cs[1..], c);
      if c == cs[0] {
        assert c !in cs[1..] by {
          forall k | 0 <= k < |cs[1..]| ensures cs[1..][k] != c { assert cs[1..][k] == cs[k + 1]; }
        }
      }
    }
  }

  /**
   * The candidates reaching findClosestDates never repeat, so turning them
   * into a set loses none of them: the loop runs on exactly the filtered list.
   */
  lemma ChooserCandidatesDistinct(extractors: seq<DateExtractor>, range: DateRange, file: MediaFile)
    requires FirstNonEmpty(extractors, file).Success?
    requires FilterInRange(range, FirstNonEmpty(extractors, file).value).Success?
    ensures var filtered := FilterInRange(range, FirstNonEmpty(extractors, file).value).value;
      NoDuplicates(filtered) && Distinct(filtered) == filtered
  {
    var dates := FirstNonEmpty(extractors, file).value;
    if dates != [] {
      var i :| 0 <= i < |extractors| && ExtractDates(extractors[i], file) == FirstNonEmpty(extractors, file)
               && AllEmpty(extractors[..i], file);
      ExtractorCandidatesDistinct(extractors[i], file);
    }
    FilterKeepsDistinct(range, dates);
  }
}
