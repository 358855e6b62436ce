/** The pause of the main loop: after each run it sleeps until the clock
    reaches the next multiple of the configured delay in minutes. */
module Scheduler {
  import opened Wrappers

  /** Python's `a % b`: the sign follows the divisor. Dafny's `%` is
      Euclidean (never negative), so a negative divisor moves a non-zero
      remainder down by |b|. */
  function PyMod(a: int, b: int): (r: int)
    requires b != 0
    ensures b > 0 ==> 0 <= r < b
    ensures b < 0 ==> b < r <= 0
  {
    if b > 0 || a % b == 0 then a % b else a % b + b
  }

  function Abs(x: int): int
  {
    if x < 0 then -x else x
  }

  /** sleep_time from the wall clock's minute and second and the delay D;
      a delay of zero raises ZeroDivisionError. */
  function SleepTime(minute: int, second: int, delay: int): Option<int>
  {
    if delay == 0 then None
    else Some(Abs(PyMod(minute, delay) - delay) * 60 - second)
  }

  /** For a positive delay the pause is at least one second and at most
      the full delay, so the loop never runs twice without waiting. */
  lemma SleepBounds(minute: int, second: int, delay: int)
    requires delay >= 1 && 0 <= second <= 59
    ensures SleepTime(minute, second, delay).Some?
    ensures 1 <= SleepTime(minute, second, delay).value <= 60 * delay
  {
    var m := PyMod(minute, delay);
    assert Abs(m - delay) == delay - m;
    assert 1 <= delay - m <= delay;
    assert (delay - m) * 60 >= 60;
    assert (delay - m) * 60 <= delay * 60;
  }

  /** A negative delay still gives a pause of at least one second and at
      most |D| minutes, since Python's remainder then lies in (D, 0]. */
  lemma NegativeDelayBounds(minute: int, second: int, delay: int)
    requires delay <= -1 && 0 <= second <= 59
    ensures SleepTime(minute, second, delay).Some?
    ensures 1 <= SleepTime(minute, second, delay).value <= -60 * delay
  {
    var m := PyMod(minute, delay);
    assert Abs(m - delay) == m - delay;
    assert 1 <= m - delay <= -delay;
    assert (m - delay) * 60 >= 60;
    assert (m - delay) * 60 <= -delay * 60;
  }

  /** The run resumes at the next mark: minute*60 + second + sleep_time is
      the (minute/D + 1)-th multiple of 60*D, the first one after the
      current second of the hour. */
  lemma NextMark(minute: int, second: int, delay: int)
    requires delay >= 1 && minute >= 0 && 0 <= second <= 59
    ensures var t := minute * 60 + second;
            var wake := t + SleepTime(minute, second, delay).value;
            && wake == (minute / delay + 1) * (60 * delay)
            && t < wake
            && (wake - 60 * delay) <= t
  {
    var t := minute * 60 + second;
    var m := PyMod(minute, delay);
    var q := minute / delay;
    assert m == minute % delay;
    assert minute == q * delay + m;
    var wake := t + (delay - m) * 60 - second;
    assert wake == (q + 1) * (60 * delay) by {
      calc {
        wake;
        minute * 60 + (delay - m) * 60;
        (q * delay + m) * 60 + (delay - m) * 60;
        (q * delay + delay) * 60;
        (q + 1) * (60 * delay);
      }
    }
    SleepBounds(minute, second, delay);
  }

  /** On a mark exactly, the pause is a whole delay. */
  lemma OnMarkWaitsFullDelay(minute: int, delay: int)
    requires delay >= 1 && minute % delay == 0
    ensures SleepTime(minute, 0, delay) == Some(60 * delay)
  {
  }

  /** A zero delay is a division by zero. */
  lemma ZeroDelayRaises(minute: int, second: int)
    ensures SleepTime(minute, second, 0).None?
  {
  }
}
