/** Second/nanosecond arithmetic: the deadline helpers of the process table and of the
    per-pid caches, the interval subtraction of the worker threads, and the clock they read. */
module Timespec {
  const NANOS_PER_SECOND := 1_000_000_000

  /** `struct timespec`, over unbounded integers. */
  datatype Time = Time(sec: int, nsec: int) {
    predicate Normal() {
      0 <= nsec < NANOS_PER_SECOND
    }

    /** The instant or duration this pair stands for. */
    function Nanos(): (n: int)
      ensures n == 1_000_000_000 * sec + nsec
    {
      sec * NANOS_PER_SECOND + nsec
    }
  }

  /** C division by the nanoseconds of a second truncates toward zero, unlike Dafny's. */
  function Quot(a: int): int {
    if a >= 0 then a / NANOS_PER_SECOND else -(-a / NANOS_PER_SECOND)
  }

  function Rem(a: int): int {
    if a >= 0 then a % NANOS_PER_SECOND else -(-a % NANOS_PER_SECOND)
  }

  /** Adds `extension` to `base` in place of the C pointer update: the value is exact for
      all integers, and the result is normal exactly when the nanosecond sum did not end
      up strictly between two seconds below zero. */
  method Extend(base: Time, extension: Time) returns (r: Time)
    ensures r.Nanos() == base.Nanos() + extension.Nanos()
    ensures r.Normal() <==> base.nsec + extension.nsec >= 0 || (base.nsec + extension.nsec) % NANOS_PER_SECOND == 0
    ensures base.Normal() && extension.Normal() ==> r.Normal()
  {
    var nsec := base.nsec + extension.nsec;
    var sec := base.sec + extension.sec + Quot(nsec);
    r := Time(sec, Rem(nsec));
  }

  /** Whether deadline `time` has passed at `now`. */
  predicate Passed(now: Time, time: Time) {
    if time.sec == now.sec then time.nsec <= now.nsec else time.sec <= now.sec
  }

  /** On normal times the field-wise comparison is the comparison of instants. */
  lemma PassedIsOrder(now: Time, time: Time)
    requires now.Normal() && time.Normal()
    ensures Passed(now, time) <==> time.Nanos() <= now.Nanos()
  {
    if time.sec < now.sec {
      assert time.Nanos() < (time.sec + 1) * NANOS_PER_SECOND <= now.sec * NANOS_PER_SECOND;
    } else if time.sec > now.sec {
      assert now.Nanos() < (now.sec + 1) * NANOS_PER_SECOND <= time.sec * NANOS_PER_SECOND;
    }
  }

  /** `CLOCK_REALTIME`, assumed not to step back between two readings. */
  class Clock {
    var last: Time

    ghost predicate Valid()
      reads this
    {
      last.Normal()
    }

    constructor (start: Time)
      requires start.Normal()
      ensures Valid() && last == start
    {
      last := start;
    }

    method Now() returns (now: Time)
      requires Valid()
      modifies this
      ensures Valid() && now == last
      ensures old(last).Nanos() <= now.Nanos()
    {
      now := last;
      var elapsed: Time := *;
      if elapsed.Normal() && elapsed.sec >= 0 {
        now := Extend(last, elapsed);
      }
      last := now;
    }

    /** The deadline `extension` from the present. */
    method In(extension: Time) returns (deadline: Time)
      requires Valid() && extension.Normal()
      modifies this
      ensures Valid() && old(last).Nanos() <= last.Nanos()
      ensures deadline.Normal() && deadline.Nanos() == last.Nanos() + extension.Nanos()
    {
      var base := Now();
      deadline := Extend(base, extension);
    }
  }

  /** A `struct timespec` that is passed by pointer. */
  class Timer {
    var sec: int
    var nsec: int

    constructor (t: Time)
      ensures Value() == t
    {
      sec, nsec := t.sec, t.nsec;
    }

    function Value(): Time
      reads this
    {
      Time(sec, nsec)
    }
  }

  /** Whether the nanoseconds left by the subtraction are a whole second. */
  predicate LeavesSecond(x: int, y: int) {
    if x >= y then x - y == NANOS_PER_SECOND else (y - x) % NANOS_PER_SECOND == 0
  }

  /** Interval subtraction. It rewrites `y` without changing the instant `y` stands for, and
      the difference is exact for all integers. The remaining nanoseconds may be a whole
      second; the sign flag is then wrong when the two instants are the same: zero, as -1 s and
      1 s, is reported as negative. */
  method Diff(result: Timer, x: Timer, y: Timer) returns (negative: int)
    requires result != x && result != y && x != y
    modifies result, y
    ensures y.Value().Nanos() == old(y.Value().Nanos())
    ensures result.Value().Nanos() == x.Value().Nanos() - old(y.Value().Nanos())
    ensures 0 <= result.nsec <= NANOS_PER_SECOND
    ensures result.nsec == NANOS_PER_SECOND <==> LeavesSecond(x.nsec, old(y.nsec))
    ensures negative in {0, 1}
    ensures negative == 1 <==>
              || x.Value().Nanos() < old(y.Value().Nanos())
              || (x.Value().Nanos() == old(y.Value().Nanos()) && LeavesSecond(x.nsec, old(y.nsec)))
    ensures x.Value().Normal() && old(y.Value()).Normal() ==>
              result.Value().Normal() && (negative == 1 <==> x.Value().Nanos() < old(y.Value().Nanos()))
  {
    if x.nsec < y.nsec {
      var nsec := Quot(y.nsec - x.nsec) + 1;
      y.nsec := y.nsec - NANOS_PER_SECOND * nsec;
      y.sec := y.sec + nsec;
    }
    if x.nsec - y.nsec > NANOS_PER_SECOND {
      var nsec := Quot(x.nsec - y.nsec);
      y.nsec := y.nsec + NANOS_PER_SECOND * nsec;
      y.sec := y.sec - nsec;
    }
    result.sec := x.sec - y.sec;
    result.nsec := x.nsec - y.nsec;
    negative := if x.sec < y.sec then 1 else 0;
  }

  /** One second less a thousand million nanoseconds is zero, and is reported as negative. */
  method FlagWrongOnce() returns (negative: int)
    ensures negative == 1 && Time(1, 0).Nanos() - Time(0, NANOS_PER_SECOND).Nanos() == 0
  {
    var result := new Timer(Time(0, 0));
    var x := new Timer(Time(1, 0));
    var y := new Timer(Time(0, NANOS_PER_SECOND));
    negative := Diff(result, x, y);
  }
}
