/** The candidate timestamps extractors produce, and the run-time errors the pipeline can raise. */
module Stamps {
  import opened Wrappers
  import opened Time

  /** Where a timestamp came from (TimeStampSource). */
  datatype TimeStampSource =
    | FinalFileName
    | ExifGpsDateTime
    | ExifDateTime
    | ExifDateTimeDigitized
    | ExifDateTimeOriginal
    | CameraFileName
    | FileLastModified
    | CollisionAvoidance

  /**
   * TimeStampWithSource: a possibly null time and its source. It is a value:
   * two candidates are equal exactly when both fields are, as in the
   * equals/hashCode generated for the class.
   */
  datatype TimeStampWithSource = TimeStampWithSource(time: Option<LocalDateTime>, source: TimeStampSource)

  /** The unchecked Java exceptions that escape the pipeline, by kind. */
  datatype Failure =
    | IndexOutOfBounds    // ArrayIndexOutOfBoundsException, StringIndexOutOfBoundsException
    | DateTimeParse       // DateTimeParseException from a DateTimeFormatter
    | DateTimeInvalid     // DateTimeException from LocalTime.of or LocalDateTime.ofEpochSecond
    | NullPointer         // NullPointerException on a null time
    | InputOutput         // IOException rethrown by @SneakyThrows

  type Outcome<T> = Result<T, Failure>
}
