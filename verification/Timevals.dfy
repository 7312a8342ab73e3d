/** struct timeval and its macros, against plain microseconds. */
module Timevals {

  const MILLION := 1_000_000

  datatype Timeval = Timeval(sec: int, usec: int) {
    predicate Normal() {
      0 <= usec < MILLION
    }

    function Micros(): int {
      sec * MILLION + usec
    }

    /** timercmp(this, other, <) */
    predicate Before(other: Timeval) {
      if sec == other.sec then usec < other.usec else sec < other.sec
    }

    /** timersub */
    function Minus(other: Timeval): Timeval {
      var d := usec - other.usec;
      if d < 0 then Timeval(sec - other.sec - 1, d + MILLION) else Timeval(sec - other.sec, d)
    }

    /** timeradd */
    function Plus(other: Timeval): Timeval {
      var d := usec + other.usec;
      if MILLION <= d then Timeval(sec + other.sec + 1, d - MILLION) else Timeval(sec + other.sec, d)
    }

    /** The test of the sweep on what is left of a timer: the seconds carry the sign. */
    predicate Expired() {
      sec < 0 || (sec == 0 && usec == 0)
    }

    /** The poll timeout in milliseconds. */
    function PollMsec(): int {
      sec * 1000 + (usec + 999) / 1000
    }
  }

  lemma {:induction false} BeforeIsLess(a: Timeval, b: Timeval)
    requires a.Normal() && b.Normal()
    ensures a.Before(b) <==> a.Micros() < b.Micros()
  {
  }

  /** Equal microseconds mean equal normal timevals, so Plus undoes Minus. */
  lemma {:induction false} MinusIsExact(a: Timeval, b: Timeval)
    requires a.Normal() && b.Normal()
    ensures a.Minus(b).Normal() && a.Minus(b).Micros() == a.Micros() - b.Micros()
    ensures a.Minus(b).Plus(b) == a
    ensures a.Minus(b).Expired() <==> a.Micros() <= b.Micros()
  {
  }

  /** The timeout is the microseconds rounded up: long enough, by less than a millisecond. */
  lemma {:induction false} PollRoundsUp(a: Timeval)
    requires a.Normal()
    ensures a.Micros() <= a.PollMsec() * 1000 < a.Micros() + 1000
  {
  }
}
