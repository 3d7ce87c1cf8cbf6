/** The numeric side of the formatting helpers: the unit a byte count is shown in (the index
    Math.floor(Math.log(bytes) / Math.log(1024)) into a table of unit names), Math.round of a quotient,
    and the labels a relative-time formatter can produce. The decimal rendering itself is not modelled. */
module Format {
  import opened Schema

  function Pow1024(i: nat): (r: nat)
    ensures r >= 1
  {
    if i == 0 then 1 else 1024 * Pow1024(i - 1)
  }

  lemma {:induction false} Pow1024Monotone(i: nat, j: nat)
    requires i <= j
    ensures Pow1024(i) <= Pow1024(j)
  {
    if i < j {
      Pow1024Monotone(i, j - 1);
    }
  }

  /** floor(log base 1024 of bytes), computed on integers. */
  function UnitIndex(bytes: nat): nat
    requires bytes > 0
  {
    if bytes < 1024 then 0 else 1 + UnitIndex(bytes / 1024)
  }

  /** The unit index is the i with 1024^i <= bytes < 1024^(i+1). */
  lemma {:induction false} UnitIndexBounds(bytes: nat)
    requires bytes > 0
    ensures Pow1024(UnitIndex(bytes)) <= bytes < Pow1024(UnitIndex(bytes) + 1)
  {
    if bytes >= 1024 {
      var q := bytes / 1024;
      UnitIndexBounds(q);
      assert bytes == 1024 * q + bytes % 1024;
    }
  }

  /** ... and it is the only such i. */
  lemma UnitIndexUnique(bytes: nat, i: nat)
    requires bytes > 0
    requires Pow1024(i) <= bytes < Pow1024(i + 1)
    ensures i == UnitIndex(bytes)
  {
    var u := UnitIndex(bytes);
    UnitIndexBounds(bytes);
    if i < u {
      Pow1024Monotone(i + 1, u);
    } else if u < i {
      Pow1024Monotone(u + 1, i);
    }
  }

  /** What formatBytes shows, up to the decimal rendering of bytes / 1024^unitIndex: "0 B" for zero; for a
      positive count the unit index and the unit name, None when the index runs past the table (the source
      then prints "undefined"); NotANumber for a negative count, whose logarithm is NaN. */
  datatype ByteLabel = ZeroBytes | Scaled(bytes: nat, unitIndex: nat, unit: Option<string>) | NotANumber

  function FormatBytes(bytes: int, units: seq<string>): ByteLabel {
    if bytes == 0 then ZeroBytes
    else if bytes < 0 then NotANumber
    else
      var i := UnitIndex(bytes);
      Scaled(bytes, i, if i < |units| then Some(units[i]) else None)
  }

  /** A positive count is shown in the largest unit not above it; the unit exists exactly when the count
      is below 1024 to the power of the table's length. */
  lemma FormatBytesSpec(bytes: int, units: seq<string>)
    ensures bytes == 0 <==> FormatBytes(bytes, units) == ZeroBytes
    ensures bytes > 0 ==> (FormatBytes(bytes, units).Scaled? &&
      Pow1024(FormatBytes(bytes, units).unitIndex) <= bytes < Pow1024(FormatBytes(bytes, units).unitIndex + 1))
    ensures bytes > 0 ==> (FormatBytes(bytes, units).unit.Some? <==> bytes < Pow1024(|units|))
    ensures bytes > 0 && bytes < Pow1024(|units|) ==>
      FormatBytes(bytes, units).unit == Some(units[FormatBytes(bytes, units).unitIndex])
  {
    if bytes > 0 {
      var i := UnitIndex(bytes);
      UnitIndexBounds(bytes);
      if i < |units| {
        Pow1024Monotone(i + 1, |units|);
      } else {
        Pow1024Monotone(|units|, i);
      }
    }
  }

  /** Math.round(n / d) for d > 0: the integer nearest to n / d, a half rounded up. */
  function RoundDiv(n: int, d: int): (r: int)
    requires d > 0
    ensures d * (2 * r - 1) <= 2 * n < d * (2 * r + 1)
  {
    var q := (2 * n + d) / (2 * d);
    assert 2 * d * q <= 2 * n + d < 2 * d * q + 2 * d;
    assert d * (2 * q - 1) == 2 * d * q - d && d * (2 * q + 1) == 2 * d * q + d;
    q
  }

  /** Math.round(part / whole * 100). */
  function Percent(part: int, whole: int): int
    requires whole > 0
  {
    RoundDiv(part * 100, whole)
  }

  /** A part no larger than the whole is at most 100 percent, and a non-negative part is at least 0;
      a larger part is not clamped. */
  lemma PercentBounds(part: int, whole: int)
    requires whole > 0
    ensures 0 <= part ==> 0 <= Percent(part, whole)
    ensures part <= whole ==> Percent(part, whole) <= 100
    ensures 2 * whole <= part ==> Percent(part, whole) >= 200
  {
    var r := Percent(part, whole);
    if 0 <= part && r < 0 {
      MulMonotone(whole, 2 * r + 1, -1);
    }
    if part <= whole && r > 100 {
      MulMonotone(whole, 201, 2 * r - 1);
    }
    if 2 * whole <= part && r < 200 {
      MulMonotone(whole, 2 * r + 1, 399);
    }
  }

  lemma MulMonotone(d: int, a: int, b: int)
    requires d > 0 && a <= b
    ensures d * a <= d * b
  {
    assert d * b - d * a == d * (b - a);
  }

  /** What a relative-time formatter can produce. */
  datatype TimeLabel =
    | JustNow
    | MinutesAgo(minutes: int)
    | HoursAgo(hours: int)
    | DaysAgo(days: int)
    | LocaleDate(date: int)

  const MinuteMs := 60000
  const HourMs := 3600000
  const DayMs := 86400000
}
