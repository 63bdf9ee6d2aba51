/** When a periodic watcher runs next: `ev_floor` and `periodic_recalc`, over the reals. */
module Recalc {

  const SHIFT: real := 18446744073709551616.0
  const MIN_INTERVAL: real := 0.0001220703125
  const SHIFT_INT: int := 18446744073709551616

  lemma FloorIs(v: real, n: int)
    requires n as real <= v < (n + 1) as real
    ensures v.Floor == n
  {}

  lemma FloorShift(v: real, n: int)
    ensures (v - n as real).Floor == v.Floor - n
  {
    FloorIs(v - n as real, v.Floor - n);
  }

  lemma FloorMirror(v: real)
    ensures v.Floor == -(-v).Floor - (if -((-v).Floor as real) == v then 0 else 1)
  {
    FloorIs(v, -(-v).Floor - (if -((-v).Floor as real) == v then 0 else 1));
  }

  lemma HighPart(v: real)
    requires v >= SHIFT
    ensures var q := (v * (1.0 / SHIFT)).Floor;
      && 0 <= q < v.Floor
      && SHIFT * q as real == (SHIFT_INT * q) as real
      && 0.0 <= v - SHIFT * q as real < SHIFT
      && (v - SHIFT * q as real).Floor == v.Floor - SHIFT_INT * q
  {
    var q := (v * (1.0 / SHIFT)).Floor;
    FloorShift(v, SHIFT_INT * q);
  }

  /** The `floor` replacement for hosts without one: huge arguments are split by a shift,
      negative ones are mirrored, the rest is a truncating cast. */
  function EvFloor(v: real): (r: real)
    ensures r == v.Floor as real
    decreases v < 0.0, if v < 0.0 then (-v).Floor else v.Floor
  {
    if v >= SHIFT then
      HighPart(v);
      var f := SHIFT * EvFloor(v * (1.0 / SHIFT));
      f + EvFloor(v - f)
    else if v < 0.0 then
      FloorMirror(v);
      var f := -EvFloor(-v);
      f - (if f == v then 0.0 else 1.0)
    else
      v.Floor as real
  }

  // ---------- multiples of an interval ----------

  /** Products and quotients of variables, named so that a proof needs no more about them than
      the lemmas below say. */
  function Mul(x: real, y: real): real {
    x * y
  }

  function Div(x: real, y: real): real
    requires y > 0.0
  {
    x / y
  }

  lemma MulAdd(x: real, y: real, z: real)
    ensures Mul(x + y, z) == Mul(x, z) + Mul(y, z)
  {}

  lemma MulOne(z: real)
    ensures Mul(1.0, z) == z
  {}

  lemma MulPositive(x: real, z: real)
    requires x > 0.0 && z > 0.0
    ensures Mul(x, z) > 0.0
  {}

  lemma DivMul(x: real, y: real)
    requires y > 0.0
    ensures Mul(Div(x, y), y) == x
  {}

  lemma MulMonotone(x: real, y: real, z: real)
    requires x < y && z > 0.0
    ensures Mul(x, z) < Mul(y, z)
  {
    hide Mul;
    MulPositive(y - x, z);
    MulAdd(y - x, x, z);
  }

  /** `k` intervals. */
  function Times(k: int, interval: real): real {
    Mul(k as real, interval)
  }

  lemma TimesAdd(j: int, k: int, z: real)
    ensures Times(j + k, z) == Times(j, z) + Times(k, z)
  {
    hide Mul;
    MulAdd(j as real, k as real, z);
  }

  lemma TimesNext(k: int, z: real)
    ensures Times(k + 1, z) == Times(k, z) + z
  {
    hide Mul;
    MulAdd(k as real, 1.0, z);
    MulOne(z);
  }

  lemma TimesMonotone(j: int, k: int, z: real)
    requires j <= k && z > 0.0
    ensures Times(j, z) <= Times(k, z)
  {
    hide Mul;
    if j < k {
      MulMonotone(j as real, k as real, z);
    }
  }

  lemma FloorBounds(x: real, y: real)
    requires y > 0.0
    ensures Times(Div(x, y).Floor, y) <= x < Times(Div(x, y).Floor, y) + y
  {
    hide Mul, Div;
    var q := Div(x, y);
    DivMul(x, y);
    if q.Floor as real < q {
      MulMonotone(q.Floor as real, q, y);
    }
    MulMonotone(q, (q.Floor + 1) as real, y);
    TimesNext(q.Floor, y);
  }

  // ---------- the next run ----------

  function Raised(interval: real): real {
    if interval > MIN_INTERVAL then interval else MIN_INTERVAL
  }

  /** The grid point the recalculation starts from; intervals below the minimum are raised. */
  function Base(offset: real, interval: real, now: real): real {
    offset + Times(Div(now - offset, Raised(interval)).Floor, Raised(interval))
  }

  /** How many intervals take the base past `now`. */
  function Steps(offset: real, interval: real, now: real): int
    requires interval > 0.0
  {
    Div(now - Base(offset, interval, now), interval).Floor + 1
  }

  function NextRun(offset: real, interval: real, now: real): real
    requires interval > 0.0
  {
    Base(offset, interval, now) + Times(Steps(offset, interval, now), interval)
  }

  lemma NoTimes(z: real)
    ensures Times(0, z) == 0.0
  {}

  /** The next run is in the future, and by at most one interval. */
  lemma NextRunSoon(offset: real, interval: real, now: real)
    requires interval > 0.0
    ensures now < NextRun(offset, interval, now) <= now + interval
    ensures Base(offset, interval, now) <= now && Steps(offset, interval, now) >= 1
  {
    hide Times, Div;
    FloorBounds(now - offset, Raised(interval));
    var d := now - Base(offset, interval, now);
    FloorBounds(d, interval);
    var n := Div(d, interval).Floor;
    TimesNext(n, interval);
    if n < 0 {
      TimesMonotone(n + 1, 0, interval);
      NoTimes(interval);
    }
  }

  lemma StepReaches(offset: real, interval: real, now: real, k: int)
    requires interval > 0.0
    ensures Base(offset, interval, now) + Times(k, interval) > now <==> k >= Steps(offset, interval, now)
  {
    hide Times, Div, Base;
    var d := now - Base(offset, interval, now);
    var n := Div(d, interval).Floor;
    FloorBounds(d, interval);
    TimesNext(n, interval);
    if k <= n {
      TimesMonotone(k, n, interval);
    } else {
      TimesMonotone(n + 1, k, interval);
    }
  }

  method BasePoint(offset: real, interval: real, now: real) returns (at: real)
    ensures at == Base(offset, interval, now)
  {
    hide EvFloor;
    var i := if interval > MIN_INTERVAL then interval else MIN_INTERVAL;
    at := offset + i * EvFloor((now - offset) / i);
  }

  /** `periodic_recalc`.  The source's test for a key that no longer changes when the interval
      is added concerns rounding; over the reals it never holds. */
  method PeriodicRecalc(offset: real, interval: real, now: real) returns (at: real)
    requires interval > 0.0
    ensures at == NextRun(offset, interval, now)
    ensures now < at <= now + interval
  {
    hide Times, Div, Steps;
    NextRunSoon(offset, interval, now);
    NoTimes(interval);
    at := BasePoint(offset, interval, now);
    ghost var k, base := 0, at;
    while at <= now
      invariant base == Base(offset, interval, now)
      invariant at == base + Times(k, interval) && k <= Steps(offset, interval, now)
      decreases Steps(offset, interval, now) - k
    {
      StepReaches(offset, interval, now, k);
      TimesNext(k, interval);
      at := at + interval;
      k := k + 1;
    }
    StepReaches(offset, interval, now, k);
  }

  // ---------- the grid ----------

  function GridPoint(offset: real, interval: real, k: int): real {
    offset + Times(k, interval)
  }

  ghost predicate OnGrid(offset: real, interval: real, x: real) {
    exists k: int :: x == GridPoint(offset, interval, k)
  }

  /** `x` is the first grid point after `now`. */
  ghost predicate FirstAfter(offset: real, interval: real, now: real, x: real) {
    && now < x
    && OnGrid(offset, interval, x)
    && forall k: int :: GridPoint(offset, interval, k) > now ==> x <= GridPoint(offset, interval, k)
  }

  lemma GridDistance(offset: real, interval: real, j: int, k: int)
    requires interval > 0.0 && j < k
    ensures GridPoint(offset, interval, j) + interval <= GridPoint(offset, interval, k)
  {
    hide Times;
    TimesMonotone(j + 1, k, interval);
    TimesNext(j, interval);
  }

  lemma FirstAfterIffOnGrid(offset: real, interval: real, now: real, x: real)
    requires interval > 0.0 && now < x <= now + interval
    ensures FirstAfter(offset, interval, now, x) <==> OnGrid(offset, interval, x)
  {
    hide GridPoint;
    if OnGrid(offset, interval, x) {
      var j: int :| x == GridPoint(offset, interval, j);
      forall k: int | GridPoint(offset, interval, k) > now ensures x <= GridPoint(offset, interval, k) {
        if k < j {
          GridDistance(offset, interval, k, j);
        } else if j < k {
          GridDistance(offset, interval, j, k);
        }
      }
    }
  }

  predicate Whole(x: real) {
    x == x.Floor as real
  }

  lemma IsOnGrid(offset: real, interval: real, x: real, k: int)
    requires x == GridPoint(offset, interval, k)
    ensures OnGrid(offset, interval, x)
  {}

  lemma GridIndex(offset: real, interval: real, x: real) returns (k: int)
    requires OnGrid(offset, interval, x)
    ensures x == GridPoint(offset, interval, k)
  {
    k :| x == GridPoint(offset, interval, k);
  }

  lemma MulCancel(a: real, b: real, z: real)
    requires z > 0.0 && Mul(a, z) == Mul(b, z)
    ensures a == b
  {
    hide Mul;
    if a < b {
      MulMonotone(a, b, z);
    } else if b < a {
      MulMonotone(b, a, z);
    }
  }

  lemma OnGridIffWhole(offset: real, interval: real, x: real)
    requires interval > 0.0
    ensures OnGrid(offset, interval, x) <==> Whole(Div(x - offset, interval))
  {
    hide Mul, Div, OnGrid;
    var q := Div(x - offset, interval);
    DivMul(x - offset, interval);
    if Whole(q) {
      assert x == GridPoint(offset, interval, q.Floor);
      IsOnGrid(offset, interval, x, q.Floor);
    }
    if OnGrid(offset, interval, x) {
      var k := GridIndex(offset, interval, x);
      MulCancel(q, k as real, interval);
      FloorIs(q, k);
    }
  }

  /** The minimum interval, counted off from the offset up to `now`, is a whole number of
      intervals. */
  predicate Commensurable(offset: real, interval: real, now: real)
    requires interval > 0.0
  {
    Whole(Div(Times(Div(now - offset, MIN_INTERVAL).Floor, MIN_INTERVAL), interval))
  }

  lemma ShiftOnGrid(offset: real, interval: real, x: real, n: int)
    ensures OnGrid(offset, interval, x) <==> OnGrid(offset, interval, x + Times(n, interval))
  {
    hide Times, OnGrid;
    var y := x + Times(n, interval);
    if OnGrid(offset, interval, x) {
      var k := GridIndex(offset, interval, x);
      TimesAdd(k, n, interval);
      IsOnGrid(offset, interval, y, k + n);
    }
    if OnGrid(offset, interval, y) {
      var k := GridIndex(offset, interval, y);
      TimesAdd(k - n, n, interval);
      IsOnGrid(offset, interval, x, k - n);
    }
  }

  /** The next run is the first grid point after `now` for every interval of at least the
      minimum; for shorter ones exactly when the base happens to lie on the grid. */
  lemma NextRunIsFirstIff(offset: real, interval: real, now: real)
    requires interval > 0.0
    ensures FirstAfter(offset, interval, now, NextRun(offset, interval, now))
      <==> interval >= MIN_INTERVAL || Commensurable(offset, interval, now)
  {
    hide Times, Div, Steps, OnGrid, FirstAfter, Whole;
    var at, base, steps := NextRun(offset, interval, now), Base(offset, interval, now), Steps(offset, interval, now);
    NextRunSoon(offset, interval, now);
    FirstAfterIffOnGrid(offset, interval, now, at);
    ShiftOnGrid(offset, interval, base, steps);
    if interval >= MIN_INTERVAL {
      IsOnGrid(offset, interval, base, Div(now - offset, interval).Floor);
    } else {
      OnGridIffWhole(offset, interval, base);
      assert base - offset == Times(Div(now - offset, MIN_INTERVAL).Floor, MIN_INTERVAL);
    }
  }

  /** For an interval of three quarters of the minimum the next run leaves the grid. */
  lemma ShortIntervalLeavesGrid()
    ensures var i := MIN_INTERVAL * 0.75; !FirstAfter(0.0, i, MIN_INTERVAL, NextRun(0.0, i, MIN_INTERVAL))
  {
    hide FirstAfter, NextRun;
    var i := MIN_INTERVAL * 0.75;
    assert Div(MIN_INTERVAL - 0.0, MIN_INTERVAL) == 1.0;
    assert 1.0.Floor == 1;
    MulOne(MIN_INTERVAL);
    var q := Div(MIN_INTERVAL, i);
    assert q == 4.0 / 3.0;
    FloorIs(q, 1);
    NextRunIsFirstIff(0.0, i, MIN_INTERVAL);
  }
}
