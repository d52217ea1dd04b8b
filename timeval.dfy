/** The receive timeout of the data socket, a struct timeval: whole seconds plus
    microseconds.  setTimeout takes the timeout in seconds as a number with a
    fractional part (a float, modelled here as a real without rounding). */
module Timeout {

  const MICROS_PER_SECOND: int := 1_000_000

  datatype Timeval = Timeval(sec: int, usec: int)

  /** Its value in seconds. */
  function Seconds(t: Timeval): real {
    t.sec as real + t.usec as real / MICROS_PER_SECOND as real
  }

  /** The split as setTimeout writes it: tv_sec is sec truncated to an integer, and
      tv_usec is sec divided by a million, truncated. */
  function SplitAsWritten(sec: real): (t: Timeval)
    requires sec > 0.0
    ensures t.sec >= 0 && t.usec >= 0
  {
    Timeval(sec.Floor, (sec / MICROS_PER_SECOND as real).Floor)
  }

  /** Half a second becomes {0, 0}: the fraction is lost, and a zero timeval means
      "no timeout" to SO_RCVTIMEO, so the socket then blocks for ever. */
  lemma HalfSecondAsWritten()
    ensures SplitAsWritten(0.5) == Timeval(0, 0)
  {
  }

  /** More generally every timeout below one second is dropped altogether. */
  lemma SubSecondAsWritten(sec: real)
    requires 0.0 < sec < 1.0
    ensures SplitAsWritten(sec) == Timeval(0, 0)
  {
    assert 0.0 <= sec / MICROS_PER_SECOND as real < 1.0;
  }

  /** The intended split: whole seconds, and the fractional part in microseconds. */
  function Split(sec: real): (t: Timeval)
    requires sec > 0.0
    ensures t.sec == sec.Floor && 0 <= t.usec < MICROS_PER_SECOND
  {
    var whole := sec.Floor;
    var frac := sec - whole as real;
    assert 0.0 <= frac < 1.0;
    var us := (frac * MICROS_PER_SECOND as real).Floor;
    assert 0 <= us < MICROS_PER_SECOND by {
      assert 0.0 <= frac * MICROS_PER_SECOND as real < MICROS_PER_SECOND as real;
    }
    Timeval(whole, us)
  }

  /** Split truncates to whole microseconds: the timeval is at most sec and less than
      a microsecond below it. */
  lemma SplitIsTruncation(sec: real)
    requires sec > 0.0
    ensures Seconds(Split(sec)) <= sec < Seconds(Split(sec)) + 1.0 / MICROS_PER_SECOND as real
  {
    var t := Split(sec);
    var frac := sec - t.sec as real;
    var m := MICROS_PER_SECOND as real;
    assert t.usec as real <= frac * m < t.usec as real + 1.0;
    assert t.usec as real / m <= frac < (t.usec as real + 1.0) / m;
  }

  /** A positive timeout of at least one microsecond never becomes "no timeout". */
  lemma SplitKeepsTimeout(sec: real)
    requires sec >= 1.0 / MICROS_PER_SECOND as real
    ensures Split(sec) != Timeval(0, 0)
  {
    SplitIsTruncation(sec);
  }

  /** Whole seconds come out unchanged. */
  lemma SplitWholeSeconds(n: nat)
    requires n > 0
    ensures Split(n as real) == Timeval(n, 0)
  {
  }
}
