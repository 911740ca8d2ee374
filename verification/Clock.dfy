/** Readings of a monotonic clock, in seconds. */
module Clock {
  type Time = real
}
