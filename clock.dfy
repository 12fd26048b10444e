/**
 * Local date-times as whole seconds since the epoch in the server's time zone. `LocalDateTime.now()`
 * is never read: every operation that needs the current time takes it as a parameter `now`.
 */
module Clock {

  const SecondsPerHour: int := 3600
  const SecondsPerDay: int := 86400

  /** `LocalDate.atStartOfDay()` of the date of `t`: midnight of the day that contains `t`. */
  function StartOfDay(t: int): (s: int)
    ensures s <= t < s + SecondsPerDay
    ensures s % SecondsPerDay == 0
  {
    t - t % SecondsPerDay
  }

  /** `LocalDateTime.plusHours(h)`. */
  function PlusHours(t: int, h: int): (r: int)
    ensures h >= 0 ==> t <= r
    ensures h > 0 ==> t < r
  {
    t + h * SecondsPerHour
  }

  /** SQL `DATE(a) = DATE(b)`: both instants fall on the same calendar day. */
  predicate SameDay(a: int, b: int) {
    a / SecondsPerDay == b / SecondsPerDay
  }

  /** Two instants are on the same day exactly when the first lies in the day window of the second. */
  lemma SameDayIsDayWindow(a: int, b: int)
    ensures SameDay(a, b) <==> StartOfDay(b) <= a < StartOfDay(b) + SecondsPerDay
  {
    var s := StartOfDay(b);
    assert s == (b / SecondsPerDay) * SecondsPerDay;
    if StartOfDay(b) <= a < StartOfDay(b) + SecondsPerDay {
      assert a - s == a % SecondsPerDay + (a / SecondsPerDay - b / SecondsPerDay) * SecondsPerDay;
    }
  }

  /** Two instants are on the same day exactly when their days start at the same midnight. */
  lemma SameDayIffSameStart(a: int, b: int)
    ensures SameDay(a, b) <==> StartOfDay(a) == StartOfDay(b)
  {
    assert StartOfDay(a) == (a / SecondsPerDay) * SecondsPerDay;
    assert StartOfDay(b) == (b / SecondsPerDay) * SecondsPerDay;
  }
}
