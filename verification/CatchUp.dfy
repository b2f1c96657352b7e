/** The first due time `checkTime` computes. */
module CatchUp {

  /** Go's integer division truncates toward zero. */
  function Quotient(n: int, unit: int): int
    requires unit > 0
  {
    if n >= 0 then n / unit else -((-n) / unit)
  }

  /** The first multiple of the interval after `base` that lies in the future. */
  ghost predicate FirstAfter(base: int, interval: int, now: int, next: int) {
    && next > now && next >= base
    && (exists k: nat :: next == base + k * interval)
    && forall k: nat :: base + k * interval > now ==> base + k * interval >= next
  }

  /** The closed form of the loop. */
  function Closed(base: int, interval: int, now: int): int
    requires interval > 0
  {
    if base > now then base else base + ((now - base) / interval + 1) * interval
  }

  lemma MulMonotone(a: int, b: int, c: int)
    requires a <= b && c >= 0
    ensures a * c <= b * c
  {
  }

  lemma ClosedIsFirst(base: int, interval: int, now: int)
    requires interval > 0
    ensures FirstAfter(base, interval, now, Closed(base, interval, now))
  {
    var next := Closed(base, interval, now);
    if base > now {
      assert next == base + 0 * interval;
    } else {
      var q := (now - base) / interval;
      assert now - base == q * interval + (now - base) % interval;
      StepsPast(base, interval, now, q);
    }
  }

  /** If q steps do not get past now and q + 1 do, that is the first one to. */
  lemma StepsPast(base: int, interval: int, now: int, q: nat)
    requires interval > 0 && base <= now
    requires base + q * interval <= now < base + q * interval + interval
    ensures FirstAfter(base, interval, now, base + (q + 1) * interval)
  {
    assert (q + 1) * interval == q * interval + interval;
    forall k: nat | base + k * interval > now ensures k * interval >= (q + 1) * interval {
      if k <= q {
        MulMonotone(k, q, interval);
      } else {
        MulMonotone(q + 1, k, interval);
      }
    }
  }

  lemma FirstIsUnique(base: int, interval: int, now: int, a: int, b: int)
    requires interval > 0 && FirstAfter(base, interval, now, a) && FirstAfter(base, interval, now, b)
    ensures a == b
  {
    var i: nat :| a == base + i * interval;
    var j: nat :| b == base + j * interval;
  }

  /** The catch-up loop, for one reading of the clock. An interval that is not
      positive skips it. */
  method NextDue(base: int, interval: int, now: int) returns (next: int)
    ensures interval <= 0 ==> next == base
    ensures interval > 0 ==> FirstAfter(base, interval, now, next) && next == Closed(base, interval, now)
  {
    next := base;
    if interval > 0 {
      ghost var k: nat := 0;
      while next <= now
        invariant next == base + k * interval
        invariant k > 0 ==> base + (k - 1) * interval <= now
        decreases now - next
      {
        assert (k + 1) * interval == k * interval + interval;
        next := next + interval;
        k := k + 1;
      }
      forall j: nat | base + j * interval > now ensures base + j * interval >= next {
        if j < k {
          MulMonotone(j, k - 1, interval);
        } else {
          MulMonotone(k, j, interval);
        }
      }
      ClosedIsFirst(base, interval, now);
      FirstIsUnique(base, interval, now, next, Closed(base, interval, now));
    }
  }

  /** The clock-time stamps: the base is the wall-clock instant divided down to
      the minute, hour or day. */
  function Base(instant: int, zone: int, unit: int): int
    requires unit > 0
  {
    Quotient(instant - zone, unit) * (unit * 1000)
  }

  /** The base is the instant asked for exactly when that lies on a boundary of
      the unit; the offset within the minute, hour or day is lost. */
  lemma BaseDropsOffset(instant: int, zone: int, unit: int)
    requires unit > 0
    ensures Base(instant, zone, unit) == (instant - zone) * 1000 <==> (instant - zone) % unit == 0
  {
    var n := instant - zone;
    var q := Quotient(n, unit);
    Scaled(q, unit);
    if n >= 0 {
      assert n == q * unit + n % unit;
    } else {
      var r := (-n) % unit;
      assert -n == (-q) * unit + r;
      NegatedRemainder(n, unit, -q, r);
    }
  }

  lemma Scaled(q: int, unit: int)
    ensures q * (unit * 1000) == (q * unit) * 1000
  {
  }

  /** n is a multiple of the unit exactly when -n is. */
  lemma NegatedRemainder(n: int, unit: int, q: int, r: int)
    requires unit > 0 && 0 <= r < unit && -n == q * unit + r
    ensures q * unit == -n <==> n % unit == 0
    ensures (-q) * unit == -(q * unit)
  {
    var q', r' := n / unit, n % unit;
    assert n == q' * unit + r';
    assert (q + q') * unit == -(r + r');
    if r == 0 {
      MultipleBelow(q + q', unit, r');
    } else if r' == 0 {
      MultipleBelow(q + q', unit, r);
    }
  }

  /** The only multiple of the unit in (-unit, 0] is 0. */
  lemma MultipleBelow(k: int, unit: int, r: int)
    requires unit > 0 && 0 <= r < unit && k * unit == -r
    ensures r == 0
  {
    if k <= -1 {
      MulMonotone(k, -1, unit);
    } else if k >= 1 {
      MulMonotone(1, k, unit);
    }
  }

  /** The due time lies on a boundary of the unit. */
  lemma DueOnBoundary(instant: int, zone: int, unit: int, now: int) returns (k: int)
    requires unit > 0
    ensures Closed(Base(instant, zone, unit), unit * 1000, now) == k * (unit * 1000)
  {
    var interval := unit * 1000;
    var base := Base(instant, zone, unit);
    ClosedIsFirst(base, interval, now);
    var j: nat :| Closed(base, interval, now) == base + j * interval;
    k := Quotient(instant - zone, unit) + j;
    Distribute(Quotient(instant - zone, unit), j, interval);
  }

  lemma Distribute(a: int, b: int, c: int)
    ensures (a + b) * c == a * c + b * c
  {
  }

  /** The task is due when its stamp says, at the next occurrence of the instant
      asked for, exactly when that lies on a boundary of the minute, hour or day.
      In every other case it is due on the boundary instead. */
  lemma DueDropsOffset(instant: int, zone: int, unit: int, now: int)
    requires unit > 0
    ensures Closed(Base(instant, zone, unit), unit * 1000, now) == Closed((instant - zone) * 1000, unit * 1000, now)
       <==> (instant - zone) % unit == 0
  {
    var n, interval := instant - zone, unit * 1000;
    BaseDropsOffset(instant, zone, unit);
    if Closed(Base(instant, zone, unit), interval, now) == Closed(n * 1000, interval, now) {
      var k := DueOnBoundary(instant, zone, unit, now);
      OnBoundaryOnly(n, unit, now, k);
    }
  }

  lemma OnBoundaryOnly(n: int, unit: int, now: int, k: int)
    requires unit > 0 && Closed(n * 1000, unit * 1000, now) == k * (unit * 1000)
    ensures n % unit == 0
  {
    var interval := unit * 1000;
    ClosedIsFirst(n * 1000, interval, now);
    var j: nat :| Closed(n * 1000, interval, now) == n * 1000 + j * interval;
    var minus: int := -(j as int);
    Distribute(k, minus, interval);
    NegatedProduct(j, interval);
    Scaled(k - j, unit);
    MultipleHasNoRemainder(n, unit, k - j);
  }

  lemma NegatedProduct(a: int, b: int)
    ensures (-a) * b == -(a * b)
  {
  }

  lemma MultipleHasNoRemainder(n: int, unit: int, k: int)
    requires unit > 0 && n == k * unit
    ensures n % unit == 0
  {
    var q, r := n / unit, n % unit;
    assert n == q * unit + r;
    Distribute(q, -k, unit);
    MultipleBelow(q - k, unit, r);
  }

  /** The stamp 04:05, four minutes and five seconds past every hour, on the first
      hour of the epoch: due at 01:00:00 instead of 00:04:05. */
  lemma FourOhFive()
    ensures Closed(Base(245, 0, 3600), 3600_000, 0) == 3600_000
    ensures Closed(245_000, 3600_000, 0) == 245_000
  {
  }
}
