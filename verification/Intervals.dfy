/** Half-open time intervals. Timestamps are only compared here, so every integer is allowed. */
module Intervals {
  datatype Interval = Interval(start: int, end: int) {
    /** What the validating constructor accepts. */
    predicate Valid() {
      start < end
    }

    predicate Contains(t: int) {
      start <= t < end
    }

    predicate Overlaps(other: Interval) {
      start < other.end && other.start < end
    }
  }
}
