/** DateRange: an optional, exclusive lower and upper bound on a timestamp. */
module DateRanges {
  import opened Wrappers
  import opened Time
  import opened Stamps

  datatype DateRange = DateRange(min: Option<LocalDateTime>, max: Option<LocalDateTime>)

  predicate IsAfterMin(r: DateRange, t: LocalDateTime) {
    r.min.None? || IsAfter(t, r.min.value)
  }

  predicate IsBeforeMax(r: DateRange, t: LocalDateTime) {
    r.max.None? || IsBefore(t, r.max.value)
  }

  predicate IsInRange(r: DateRange, t: LocalDateTime) {
    IsAfterMin(r, t) && IsBeforeMax(r, t)
  }

  /**
   * isInRange on a timestamp that may be null: with a bound set, the
   * isAfter/isBefore call dereferences the null time.
   */
  function CheckInRange(r: DateRange, t: Option<LocalDateTime>): (res: Outcome<bool>)
    ensures t.Some? ==> res == Success(IsInRange(r, t.value))
    ensures t.None? ==> (res.Success? <==> r.min.None? && r.max.None?)
    ensures res.Success? && t.None? ==> res.value
  {
    match t
    case Some(time) => Success(IsInRange(r, time))
    case None => if r.min.Some? || r.max.Some? then Failure(NullPointer) else Success(true)
  }

  /** t is midnight at the start of d. */
  predicate StartOfDate(t: LocalDateTime, d: LocalDate) {
    t.year == d.year && t.month == d.month && t.day == d.day && t.hour == 0 && t.minute == 0 && t.second == 0
  }

  /** The bounds passed on the command line: each date, when given, at the start of its day. */
  function FromDates(min: Option<LocalDate>, max: Option<LocalDate>): (r: DateRange)
    ensures r.min.Some? <==> min.Some?
    ensures r.max.Some? <==> max.Some?
    ensures min.Some? ==> StartOfDate(r.min.value, min.value)
    ensures max.Some? ==> StartOfDate(r.max.value, max.value)
  {
    DateRange(if min.Some? then Some(AtStartOfDay(min.value)) else None,
              if max.Some? then Some(AtStartOfDay(max.value)) else None)
  }

  /**
   * The window in epoch seconds: both bounds are exclusive, an absent bound
   * admits everything on its side, and isInRange is the conjunction of the two checks.
   */
  lemma InRangeOfEpochs(r: DateRange, t: LocalDateTime)
    ensures IsInRange(r, t) <==> IsAfterMin(r, t) && IsBeforeMax(r, t)
    ensures IsAfterMin(r, t) <==> r.min.None? || ToEpochSecond(r.min.value) < ToEpochSecond(t)
    ensures IsBeforeMax(r, t) <==> r.max.None? || ToEpochSecond(t) < ToEpochSecond(r.max.value)
  {
    if r.min.Some? { BeforeIffEarlierEpoch(r.min.value, t); }
    if r.max.Some? { BeforeIffEarlierEpoch(t, r.max.value); }
  }

  /** A timestamp equal to either bound is rejected; with no bounds every timestamp is accepted. */
  lemma BoundsExclusive(r: DateRange, t: LocalDateTime)
    ensures r.min == Some(t) || r.max == Some(t) ==> !IsInRange(r, t)
    ensures r.min.None? && r.max.None? ==> IsInRange(r, t)
  {
    InRangeOfEpochs(r, t);
  }

  /** If min is not before max, nothing is in range. */
  lemma EmptyWhenMinNotBeforeMax(r: DateRange, t: LocalDateTime)
    requires r.min.Some? && r.max.Some? && !IsBefore(r.min.value, r.max.value)
    ensures !IsInRange(r, t)
  {
    InRangeOfEpochs(r, t);
    BeforeIffEarlierEpoch(r.min.value, r.max.value);
  }

  /** The accepted set is convex: anything between two accepted timestamps is accepted. */
  lemma InRangeConvex(r: DateRange, t1: LocalDateTime, t2: LocalDateTime, t3: LocalDateTime)
    requires IsInRange(r, t1) && IsInRange(r, t3)
    requires !IsBefore(t2, t1) && !IsBefore(t3, t2)
    ensures IsInRange(r, t2)
  {
    InRangeOfEpochs(r, t1);
    InRangeOfEpochs(r, t2);
    InRangeOfEpochs(r, t3);
    BeforeIffEarlierEpoch(t2, t1);
    BeforeIffEarlierEpoch(t3, t2);
  }

  /**
   * The windows of the application tests: from 2024-01-01 the 2016 photo is
   * dropped, before 2024-06-01 the 2025 file is dropped, and May 2024 passes both.
   */
  lemma ExampleTestWindows()
    ensures !IsInRange(FromDates(Some(DateFields(2024, 1, 1)), None), DateTimeFields(2016, 9, 19, 21, 11, 12))
    ensures IsInRange(FromDates(Some(DateFields(2024, 1, 1)), None), DateTimeFields(2024, 5, 30, 21, 3, 59))
    ensures !IsInRange(FromDates(None, Some(DateFields(2024, 6, 1))), DateTimeFields(2025, 2, 27, 0, 18, 58))
    ensures IsInRange(FromDates(Some(DateFields(2024, 1, 1)), Some(DateFields(2024, 6, 1))), DateTimeFields(2024, 5, 30, 21, 4, 12))
  {
  }
}
