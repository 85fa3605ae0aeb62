/** DateTime values: whole seconds since the start of the calendar, UTC. */
module Time {

  type Instant = nat

  const SecondsPerMinute: nat := 60
  const SecondsPerDay: nat := 86400

  /** DateTime.Date: midnight at the start of the same day. */
  function DatePart(t: Instant): (d: Instant)
    ensures d <= t < d + SecondsPerDay
    ensures d % SecondsPerDay == 0
  {
    t - t % SecondsPerDay
  }
}
