/** The flat hourly fee charged on unpark, over integer timestamps in seconds. */
module Fees {

  const SecondsPerHour: int := 3600
  const HourlyRate: int := 10
  /** What unpark returns for a ticket id it does not know. */
  const NotFound: int := -1

  /** Whole hours in a duration, truncated toward zero as a chrono duration cast does. */
  function WholeHours(elapsed: int): (h: int)
    ensures elapsed >= 0 ==> 0 <= h && h * 3600 <= elapsed < (h + 1) * 3600
    ensures elapsed < 0 ==> h <= 0 && (h - 1) * 3600 < elapsed <= h * 3600
  {
    if elapsed >= 0 then elapsed / SecondsPerHour else -((-elapsed) / SecondsPerHour)
  }

  /** Ten per whole hour elapsed since entry; a started hour is not charged. */
  function Fee(entry: int, now: int): (fee: int)
    ensures fee % HourlyRate == 0
    ensures entry <= now ==> fee >= 0
    ensures entry - SecondsPerHour < now < entry + SecondsPerHour ==> fee == 0
  {
    HourlyRate * WholeHours(now - entry)
  }

  /** A stay of `h` whole hours plus less than one more hour costs exactly 10 * h. */
  lemma FeeOfWholeHours(entry: int, h: nat, extra: int)
    requires 0 <= extra < SecondsPerHour
    ensures Fee(entry, entry + h * SecondsPerHour + extra) == HourlyRate * h
  {
  }

  /** Staying longer never costs less. */
  lemma FeeMonotone(entry: int, now1: int, now2: int)
    requires now1 <= now2
    ensures Fee(entry, now1) <= Fee(entry, now2)
  {
  }

  /** A real fee is a multiple of ten, so it never collides with the not-found sentinel. */
  lemma FeeIsNeverNotFound(entry: int, now: int)
    ensures Fee(entry, now) != NotFound
  {
  }
}
