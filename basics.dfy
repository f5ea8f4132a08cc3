/** Shared vocabulary: an Option type and the clock arithmetic the services use.
    Every timestamp is a whole number of seconds on one fixed timezone; a calendar
    date is the number of whole days since the epoch. */
module Basics {

  datatype Option<+T> = None | Some(value: T)

  const SecondsPerDay: int := 86400
  const SecondsPerMinute: int := 60

  /** The calendar date holding instant `t` (Carbon::today() when now is t). */
  function Day(t: int): (d: int)
    ensures StartOfDay(d) <= t < StartOfDay(d) + SecondsPerDay
  {
    t / SecondsPerDay
  }

  /** Midnight of date `d` (Carbon's startOfDay). */
  function StartOfDay(d: int): int
  {
    d * SecondsPerDay
  }

  /** The last whole second of the day holding `t` (Carbon's endOfDay at second precision). */
  function EndOfDay(t: int): (e: int)
    ensures t <= e < t + SecondsPerDay
    ensures Day(e) == Day(t)
  {
    StartOfDay(Day(t)) + SecondsPerDay - 1
  }

  /** The instant at hour:minute on date `d` (Carbon::today()->setTime(hour, minute)). */
  function AtTime(d: int, hour: nat, minute: nat): (t: int)
    requires hour < 24 && minute < 60
    ensures Day(t) == d
  {
    StartOfDay(d) + hour * 3600 + minute * SecondsPerMinute
  }

  /** An instant inside the bounds of date `d` lies on date `d`. */
  lemma DayOfInstant(t: int, d: int)
    requires StartOfDay(d) <= t < StartOfDay(d) + SecondsPerDay
    ensures Day(t) == d
  {
    var e := Day(t);
    assert StartOfDay(e) <= t < StartOfDay(e) + SecondsPerDay;
  }

  /** Carbon's subDays(n): moving back n whole days moves the date back by n. */
  lemma SubDays(t: int, n: int)
    ensures Day(t - n * SecondsPerDay) == Day(t) - n
  {
    assert StartOfDay(Day(t) - n) == StartOfDay(Day(t)) - n * SecondsPerDay;
    DayOfInstant(t - n * SecondsPerDay, Day(t) - n);
  }
}
