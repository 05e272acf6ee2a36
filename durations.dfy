/** The rounding `formatDuration` applies to a case's run time before printing it
    (snapshot.go). `time.Duration` counts nanoseconds; only non-negative durations occur. */
module Durations {
  const Microsecond: nat := 1000
  const Millisecond: nat := 1000 * Microsecond
  const Second: nat := 1000 * Millisecond
  const Minute: nat := 60 * Second

  /** `d.Round(m)` for a non-negative `d`: `d` itself when `m` is not positive, otherwise `d`
      rounded to a multiple of `m`, halfway values away from zero. */
  function Round(d: nat, m: nat): nat {
    if m == 0 then d
    else
      var r := d % m;
      if r + r < m then d - r else d + (m - r)
  }

  lemma MultipleMod(k: nat, m: nat)
    requires m > 0
    ensures (k * m) % m == 0
  {
    var x := k * m;
    var t, s := x / m, x % m;
    assert (k - t) * m == s;
    assert k - t >= 1 ==> (k - t) * m >= m;
    assert k - t <= -1 ==> (k - t) * m <= -(m as int);
  }

  /** `Round` picks the multiple of `m` nearest to `d`, and of two equally near the larger. */
  lemma RoundIsNearestMultiple(d: nat, m: nat)
    requires m > 0
    ensures Round(d, m) % m == 0
    ensures 2 * d - m < 2 * Round(d, m) <= 2 * d + m
  {
    var q, r := d / m, d % m;
    assert d == q * m + r;
    if r + r < m {
      assert Round(d, m) == q * m;
      MultipleMod(q, m);
    } else {
      assert Round(d, m) == (q + 1) * m;
      MultipleMod(q + 1, m);
    }
  }

  /** The units `formatDuration` tries in turn: 1s, 100ms, 10ms, 1ms, 100µs, 10µs, 1µs. */
  predicate IsUnit(u: nat) {
    u == Second || u == 100 * Millisecond || u == 10 * Millisecond || u == Millisecond ||
    u == 100 * Microsecond || u == 10 * Microsecond || u == Microsecond
  }

  /** The largest unit strictly shorter than `d`. */
  function LargestUnitBelow(d: nat): (u: nat)
    requires d > Microsecond
    ensures IsUnit(u) && u < d
    ensures forall v: nat :: IsUnit(v) && v < d ==> v <= u
  {
    if d > Second then Second
    else if d > 100 * Millisecond then 100 * Millisecond
    else if d > 10 * Millisecond then 10 * Millisecond
    else if d > Millisecond then Millisecond
    else if d > 100 * Microsecond then 100 * Microsecond
    else if d > 10 * Microsecond then 10 * Microsecond
    else Microsecond
  }

  /** The duration `formatDuration(d)` prints. */
  function DisplayRounded(d: nat): nat {
    if d > Minute then Round(d, Second)
    else if d <= Microsecond then d
    else Round(d, LargestUnitBelow(d) / 100)
  }

  /** Above a minute the display is in whole seconds, off by at most half a second; between a
      microsecond and a minute it is a multiple of a hundredth of the largest unit below `d`,
      off by less than half a percent of `d`; up to a microsecond it is exact. */
  lemma DisplayRoundedPrecision(d: nat)
    ensures d > Minute ==> DisplayRounded(d) % Second == 0 && 2 * d - Second < 2 * DisplayRounded(d) <= 2 * d + Second
    ensures Microsecond < d <= Minute ==>
      var step := LargestUnitBelow(d) / 100;
      var r := DisplayRounded(d);
      r % step == 0 && 200 * (r as int - d) < d && 200 * (d - r as int) < d
    ensures d <= Microsecond ==> DisplayRounded(d) == d
  {
    if d > Minute {
      RoundIsNearestMultiple(d, Second);
    } else if d > Microsecond {
      var u := LargestUnitBelow(d);
      RoundIsNearestMultiple(d, u / 100);
      assert (u / 100) * 100 == u;
    }
  }

  /** The cases of the source's own test of `formatDuration`: 0s, 12ns, 123ns, 1.23µs, 12.3µs,
      123µs, 12.35s, 1m1s and 1m1s. */
  lemma FormatDurationTestTable()
    ensures DisplayRounded(0) == 0 && DisplayRounded(12) == 12 && DisplayRounded(123) == 123
    ensures DisplayRounded(1234) == 1230
    ensures DisplayRounded(12345) == 12300
    ensures DisplayRounded(123456) == 123000
    ensures DisplayRounded(12345678912) == 12350000000
    ensures DisplayRounded(Minute + Second) == Minute + Second
    ensures DisplayRounded(Minute + Second + Millisecond) == Minute + Second
  {
    assert DisplayRounded(1234) == Round(1234, 10);
    assert DisplayRounded(12345) == Round(12345, 100);
    assert DisplayRounded(123456) == Round(123456, 1000);
    assert DisplayRounded(12345678912) == Round(12345678912, 10 * Millisecond);
  }

  /** The rounding step of `formatDuration(d)`: whole seconds above a minute; otherwise the first
      unit, from a second down to a microsecond, that `d` exceeds decides the precision. */
  method FormatDurationRounding(d: nat) returns (r: nat)
    ensures r == DisplayRounded(d)
  {
    if d > Minute {
      return Round(d, Second);
    }
    r := d;
    var unit: nat := Second;
    while unit >= Microsecond
      invariant IsUnit(unit) || unit == Microsecond / 10
      invariant forall v: nat :: IsUnit(v) && v > unit ==> d <= v
      invariant r == d
    {
      if r > unit {
        r := Round(r, unit / 100);
        assert unit == LargestUnitBelow(d);
        break;
      }
      unit := unit / 10;
    }
  }
}
