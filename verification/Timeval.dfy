/** Wall-clock times (avahi-common/timeval.c): seconds and microseconds, in C integers that
    are taken not to overflow. */
module Timeval {
  const MILLION: int := 1_000_000

  datatype Time = Time(sec: int, usec: int)

  const ZERO: Time := Time(0, 0)

  /** Microseconds a time stands for, whether its parts are in range or not. */
  function Micros(t: Time): int {
    t.sec * MILLION + t.usec
  }

  predicate Normalized(t: Time) {
    0 <= t.usec < MILLION
  }

  /** avahi_timeval_compare. */
  function Compare(a: Time, b: Time): int {
    if a.sec < b.sec then -1
    else if a.sec > b.sec then 1
    else if a.usec < b.usec then -1
    else if a.usec > b.usec then 1
    else 0
  }

  /** avahi_timeval_diff. */
  function Diff(a: Time, b: Time): int
    decreases if Compare(a, b) < 0 then 1 else 0
  {
    if Compare(a, b) < 0 then -Diff(b, a)
    else (a.sec - b.sec) * MILLION + a.usec - b.usec
  }

  /** C's truncating quotient and remainder by a million. */
  function Quot(u: int): int {
    if u >= 0 then u / MILLION else -(-u / MILLION)
  }

  function Rem(u: int): int {
    u - Quot(u) * MILLION
  }

  /** avahi_timeval_add. */
  function Add(a: Time, usec: int): Time {
    var u := usec + a.usec;
    if u < 0 then Time(a.sec - 1 + Quot(u), MILLION + Rem(u))
    else Time(a.sec + Quot(u), Rem(u))
  }

  /** Comparing orders normalized times by the microseconds they stand for; on times that are
      not normalized it can disagree. */
  lemma CompareMicros(a: Time, b: Time)
    requires Normalized(a) && Normalized(b)
    ensures Compare(a, b) < 0 <==> Micros(a) < Micros(b)
    ensures Compare(a, b) == 0 <==> Micros(a) == Micros(b)
  {
  }

  /** The difference is exact, even for times that are not normalized. */
  lemma DiffExact(a: Time, b: Time)
    ensures Diff(a, b) == Micros(a) - Micros(b)
  {
    if Compare(a, b) < 0 {
      assert Compare(b, a) >= 0;
    }
  }

  /** Adding conserves the total, and normalizes except when the microseconds come to a
      negative whole number of seconds. */
  lemma AddConserves(a: Time, usec: int)
    ensures Micros(Add(a, usec)) == Micros(a) + usec
    ensures Normalized(Add(a, usec)) <==> usec + a.usec >= 0 || (usec + a.usec) % MILLION != 0
  {
    var u := usec + a.usec;
    if u < 0 {
      var q, r := -u / MILLION, -u % MILLION;
      assert -u == q * MILLION + r;
      assert u % MILLION == 0 <==> r == 0;
    }
  }

  /** What AddConserves excludes does happen: one second is taken off the time zero. */
  lemma AddNotNormalized()
    ensures Add(ZERO, -MILLION) == Time(-2, MILLION)
  {
  }

  /** Taking a difference and adding it back gives a time that compares equal. */
  lemma AddDiff(a: Time, b: Time)
    requires Normalized(a) && Normalized(Add(b, Diff(a, b)))
    ensures Compare(Add(b, Diff(a, b)), a) == 0
  {
    DiffExact(a, b);
    AddConserves(b, Diff(a, b));
    CompareMicros(Add(b, Diff(a, b)), a);
  }
}
