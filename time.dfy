/**
 * `DateTime` and `TimeSpan` arithmetic at a resolution of one second.
 * An instant is the number of seconds since 0001-01-01 00:00:00 (the default
 * `DateTime`), a date is a day number (a `DateTime` at midnight), and a
 * `TimeSpan` is a signed number of seconds.
 */
module Time {

  const SecondsPerDay: int := 86400
  const SecondsPerHour: int := 3600

  /** `t.Date`, as a day number. */
  function DateOf(t: int): int
  {
    t / SecondsPerDay
  }

  /** `t.TimeOfDay`. */
  function TimeOfDay(t: int): int
  {
    t % SecondsPerDay
  }

  /** `date.Date.Add(span)`: the instant `span` after midnight of day `date`. */
  function At(date: int, span: int): int
  {
    date * SecondsPerDay + span
  }

  /** An instant splits into its date and its time of day, and re-joins to itself. */
  lemma SplitJoin(t: int)
    ensures 0 <= TimeOfDay(t) < SecondsPerDay
    ensures At(DateOf(t), TimeOfDay(t)) == t
  {
  }

  /** A time of day under 24 hours is recovered, with its date, from the joined instant. */
  lemma JoinSplit(date: int, span: int)
    requires 0 <= span < SecondsPerDay
    ensures DateOf(At(date, span)) == date
    ensures TimeOfDay(At(date, span)) == span
  {
    var t := At(date, span);
    assert t == date * SecondsPerDay + span;
    DivModUnique(t, date, span);
  }

  lemma DivModUnique(t: int, q: int, r: int)
    requires t == q * SecondsPerDay + r && 0 <= r < SecondsPerDay
    ensures t / SecondsPerDay == q && t % SecondsPerDay == r
  {
    var q', r' := t / SecondsPerDay, t % SecondsPerDay;
    assert (q - q') * SecondsPerDay == r' - r;
  }

  /** With times of day under 24 hours, joined instants compare as (date, time) pairs. */
  lemma AtOrder(d1: int, s1: int, d2: int, s2: int)
    requires 0 <= s1 < SecondsPerDay && 0 <= s2 < SecondsPerDay
    ensures At(d1, s1) < At(d2, s2) <==> d1 < d2 || (d1 == d2 && s1 < s2)
  {
    if d1 < d2 {
      assert d1 * SecondsPerDay + SecondsPerDay <= d2 * SecondsPerDay;
    } else if d1 > d2 {
      assert d2 * SecondsPerDay + SecondsPerDay <= d1 * SecondsPerDay;
    }
  }

  /** `(int)span.TotalHours`: the hour count truncated toward zero. */
  function TruncatedHours(span: int): (h: int)
    ensures 0 <= span ==> 0 <= h * SecondsPerHour <= span < (h + 1) * SecondsPerHour
    ensures span < 0 ==> (h - 1) * SecondsPerHour < span <= h * SecondsPerHour <= 0
  {
    if span >= 0 then span / SecondsPerHour else -((-span) / SecondsPerHour)
  }
}
