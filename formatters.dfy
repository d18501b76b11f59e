/** The numeric choices of frontend/src/utils/formatters.ts: which unit a
    byte count is shown in and the value shown in it, milliseconds versus
    seconds for a duration, and the zero-total guard of a percentage. The
    rounding and the string rendering (`toFixed`) are outside the model;
    numbers are exact reals. */
module Formatters {
  /** The unit names, `['B', 'KB', 'MB', 'GB', 'TB']`. */
  const Units: seq<string> := ["B", "KB", "MB", "GB", "TB"]

  /** Index of the largest unit. */
  const LastUnit: nat := 4

  /** `1024^k`. */
  function Kilo(k: nat): (r: real)
    ensures r >= 1.0
  {
    if k == 0 then 1.0 else 1024.0 * Kilo(k - 1)
  }

  /** A power further up is at least 1024 times larger. */
  lemma {:induction false} KiloGrows(j: nat, k: nat)
    requires j < k
    ensures 1024.0 * Kilo(j) <= Kilo(k)
    decreases k
  {
    if j < k - 1 {
      KiloGrows(j, k - 1);
    }
  }

  /** `size` in unit `unitIndex` is how `formatFileSize` shows `bytes`:
      exactly `bytes` scaled by `1024^unitIndex`, at most terabytes, below
      1024 unless in terabytes, and at least 1 once scaled at all. */
  predicate Scaled(bytes: real, size: real, unitIndex: nat)
  {
    unitIndex <= LastUnit &&
    size * Kilo(unitIndex) == bytes &&
    (size < 1024.0 || unitIndex == LastUnit) &&
    (unitIndex > 0 ==> size >= 1.0)
  }

  /** The unit loop of `formatFileSize`: divides by 1024 while the value is
      at least 1024 and a larger unit is left. */
  method FormatFileSize(bytes: real) returns (size: real, unitIndex: nat, unit: string)
    ensures Scaled(bytes, size, unitIndex)
    ensures unit == Units[unitIndex]
  {
    size := bytes;
    unitIndex := 0;
    while size >= 1024.0 && unitIndex < |Units| - 1
      invariant unitIndex <= LastUnit
      invariant size * Kilo(unitIndex) == bytes
      invariant unitIndex > 0 ==> size >= 1.0
      decreases LastUnit - unitIndex
    {
      ScaleStep(size, unitIndex);
      size := size / 1024.0;
      unitIndex := unitIndex + 1;
    }
    unit := Units[unitIndex];
  }

  /** One step of the loop keeps the scaled value equal to the input. */
  lemma ScaleStep(size: real, k: nat)
    ensures (size / 1024.0) * Kilo(k + 1) == size * Kilo(k)
  {
    assert Kilo(k + 1) == 1024.0 * Kilo(k);
  }

  /** There is only one way to show a byte count. */
  lemma ScaledUnique(bytes: real, s1: real, u1: nat, s2: real, u2: nat)
    requires Scaled(bytes, s1, u1) && Scaled(bytes, s2, u2)
    ensures u1 == u2 && s1 == s2
  {
    NoLowerUnit(bytes, s1, u1, s2, u2);
    NoLowerUnit(bytes, s2, u2, s1, u1);
    assert (s1 - s2) * Kilo(u1) == 0.0;
  }

  /** A lower unit holds a value below 1024 and a higher one at least
      `1024^k`, so two ways of showing the same count use the same unit. */
  lemma NoLowerUnit(bytes: real, s1: real, u1: nat, s2: real, u2: nat)
    requires Scaled(bytes, s1, u1) && Scaled(bytes, s2, u2)
    ensures u1 >= u2
  {
    if u1 < u2 {
      KiloGrows(u1, u2);
      assert (1024.0 - s1) * Kilo(u1) > 0.0;
      assert (s2 - 1.0) * Kilo(u2) >= 0.0;
    }
  }

  /** Counts below 1024 are shown unscaled in bytes. */
  lemma SmallCountsInBytes(bytes: real, size: real, unitIndex: nat)
    requires bytes < 1024.0 && Scaled(bytes, size, unitIndex)
    ensures unitIndex == 0 && size == bytes
  {
    ScaledUnique(bytes, size, unitIndex, bytes, 0);
  }

  /** `1024^k`, up to terabytes, is shown as exactly 1 of the k-th unit. */
  lemma PowersShownAsOne(k: nat, size: real, unitIndex: nat)
    requires k <= LastUnit && Scaled(Kilo(k), size, unitIndex)
    ensures unitIndex == k && size == 1.0
  {
    ScaledUnique(Kilo(k), size, unitIndex, 1.0, k);
  }

  /** From `1024^5` on, the count stays in terabytes with a value of at
      least 1024: there is no larger unit. */
  lemma HugeCountsStayInTerabytes(bytes: real, size: real, unitIndex: nat)
    requires bytes >= Kilo(5) && Scaled(bytes, size, unitIndex)
    ensures unitIndex == LastUnit && size >= 1024.0
  {
    assert Kilo(5) == 1024.0 * Kilo(4);
    assert size * Kilo(4) >= 1024.0 * Kilo(4);
  }

  /** What `formatDuration` shows: the milliseconds themselves, or seconds. */
  datatype Duration = Millis(ms: real) | Seconds(seconds: real)

  /** `formatDuration(ms)`: milliseconds below 1000, seconds from there on. */
  function FormatDuration(ms: real): (d: Duration)
    ensures d.Millis? <==> ms < 1000.0
    ensures d.Millis? ==> d.ms == ms
    ensures d.Seconds? ==> d.seconds * 1000.0 == ms && d.seconds >= 1.0
  {
    if ms < 1000.0 then Millis(ms) else Seconds(ms / 1000.0)
  }

  /** What `formatPercentage` shows: the literal "0%", or a percentage. */
  datatype Percentage = ZeroTotal | Percent(percent: real)

  /** `formatPercentage(value, total)`: "0%" for a zero total whatever the
      value, otherwise `value / total * 100`. */
  function FormatPercentage(value: real, total: real): (p: Percentage)
    ensures p.ZeroTotal? <==> total == 0.0
    ensures p.Percent? ==> p.percent * total == value * 100.0
    ensures p.Percent? && 0.0 <= value <= total ==> 0.0 <= p.percent <= 100.0
  {
    if total == 0.0 then ZeroTotal
    else
      var p := (value / total) * 100.0;
      PercentBounds(value, total);
      Percent(p)
  }

  /** The percentage of a share of a non-zero total. */
  lemma PercentBounds(value: real, total: real)
    requires total != 0.0
    ensures ((value / total) * 100.0) * total == value * 100.0
    ensures 0.0 <= value <= total ==> 0.0 <= (value / total) * 100.0 <= 100.0
  {
    var q := value / total;
    assert q * total == value;
    if 0.0 <= value <= total {
      assert total > 0.0;
      assert 0.0 <= q;
      assert q * total <= 1.0 * total;
      assert q <= 1.0;
    }
  }
}
