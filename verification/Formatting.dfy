// The arithmetic behind the control tool's byte and uptime formatting.
module Formatting {
  import opened Common

  const UNITS := "KMGTPE"

  function Pow1024(n: nat): int { if n == 0 then 1 else 1024 * Pow1024(n - 1) }

  lemma {:induction false} MulNonNegative(x: int, y: int)
    requires x >= 0 && y >= 0
    ensures x * y >= 0
  {
  }

  lemma {:induction false} Rescale(b: int, d: int, q: int, r: int)
    requires d > 0 && 0 <= r < 1024 && d * (1024 * q + r) <= b < d * (1024 * q + r + 1)
    ensures (d * 1024) * q <= b < (d * 1024) * (q + 1)
  {
    MulNonNegative(d, r);
    MulNonNegative(d, 1023 - r);
  }

  /** One turn of the loop: div grows by 1024 while n shrinks by it, and still div <= b. */
  lemma {:induction false} Turn(b: int, div: int, n: int)
    requires div > 0 && n >= 1024 && div * n <= b < div * (n + 1)
    ensures (div * 1024) * (n / 1024) <= b < (div * 1024) * (n / 1024 + 1)
    ensures div * 1024 <= b
  {
    var q, r := n / 1024, n % 1024;
    assert n == 1024 * q + r;
    Rescale(b, div, q, r);
    MulNonNegative(div * 1024, q - 1);
  }

  /** formatBytes: plain bytes below 1024; otherwise the largest power of 1024 not above b, whose
      unit letter is in range, reached without overflow. */
  method Scale(b: Word) returns (div: Word, unit: Option<nat>)
    ensures unit.None? <==> b < 1024
    ensures unit.Some? ==> unit.value < |UNITS| && div == Pow1024(unit.value + 1) && div <= b < 1024 * div
    ensures unit.None? ==> div == 1
  {
    if b < 1024 { return 1, None; }
    var exp := 0;
    div := 1024;
    var n: Word := b / 1024;
    assert Pow1024(1) == 1024 * Pow1024(0);
    while n >= 1024
      invariant div == Pow1024(exp + 1) && 1024 <= div <= b
      invariant div * n <= b < div * (n + 1)
      decreases n
    {
      Turn(b, div, n);
      div, exp, n := div * 1024, exp + 1, n / 1024;
    }
    MulNonNegative(div, 1023 - n);
    UnitInRange(exp);
    unit := Some(exp);
  }

  lemma {:induction false} UnitInRange(exp: nat)
    requires Pow1024(exp + 1) < TWO64
    ensures exp <= 5
  {
    if exp >= 6 { PowMonotone(7, exp + 1); SeventhPower(); }
  }

  lemma {:induction false} PowMonotone(m: nat, n: nat)
    requires m <= n
    ensures 0 < Pow1024(m) <= Pow1024(n)
  {
    if m < n { PowMonotone(m, n - 1); }
    else if n > 0 { PowMonotone(m - 1, n - 1); }
  }

  lemma {:induction false} SeventhPower()
    ensures Pow1024(7) >= TWO64
  {
    assert Pow1024(1) == 1024 && Pow1024(2) == 1024 * Pow1024(1) && Pow1024(3) == 1024 * Pow1024(2);
    assert Pow1024(4) == 1024 * Pow1024(3) && Pow1024(5) == 1024 * Pow1024(4);
    assert Pow1024(6) == 1024 * Pow1024(5) && Pow1024(7) == 1024 * Pow1024(6);
  }

  // ----- formatSeconds

  const TWO63: int := 0x8000_0000_0000_0000

  /** Go's int64. */
  type Int64 = n: int | -TWO63 <= n < TWO63

  function Wrap(x: int): Int64 { (x + TWO63) % TWO64 - TWO63 }

  /** Go's division and remainder truncate toward zero. */
  function Quo(a: int, b: int): int
    requires b > 0
  {
    if a >= 0 then a / b else -(-a / b)
  }

  function Rem(a: int, b: int): int
    requires b > 0
  {
    a - b * Quo(a, b)
  }

  const SECOND: int := 1_000_000_000

  datatype Uptime = WithDays(days: int, hours: int, minutes: int) | NoDays(hours: int, minutes: int) {
    /** The seconds a reader of the printed text adds up. */
    function Seconds(): int {
      match this
      case WithDays(d, h, m) => 86400 * d + 3600 * h + 60 * m
      case NoDays(h, m) => 3600 * h + 60 * m
    }
  }

  lemma {:induction false} WrapFits(x: int)
    ensures -TWO63 <= x < TWO63 ==> Wrap(x) == x
    ensures x >= TWO63 ==> Wrap(x) <= x - TWO64
    ensures x < -TWO63 ==> Wrap(x) >= x + TWO64
  {
    var q := (x + TWO63) / TWO64;
    assert x + TWO63 == TWO64 * q + (x + TWO63) % TWO64;
  }

  /** Whole hours are sixty whole minutes. */
  lemma {:induction false} HoursOfMinutes(d: int)
    ensures Quo(d, 3600 * SECOND) == Quo(Quo(d, 60 * SECOND), 60)
  {
  }

  /** Days, hours and minutes of a duration: they add up to it within a minute, toward zero, and
      share its sign. */
  ghost predicate Splits(d: int, days: int, hours: int, minutes: int) {
    var t := SECOND * (86400 * days + 3600 * hours + 60 * minutes);
    && -24 < hours < 24 && -60 < minutes < 60
    && (d >= 0 ==> days >= 0 && hours >= 0 && minutes >= 0 && t <= d < t + 60 * SECOND)
    && (d < 0 ==> days <= 0 && hours <= 0 && minutes <= 0 && t - 60 * SECOND < d <= t)
  }

  /** Quotient and remainder share the dividend's sign. */
  ghost predicate Divides(a: int, b: int, q: int, r: int) {
    && a == b * q + r
    && (a >= 0 ==> q >= 0 && 0 <= r < b)
    && (a < 0 ==> q <= 0 && -b < r <= 0)
  }

  lemma {:induction false} EuclidNonNegative(a: int, b: int)
    requires a >= 0 && b > 0
    ensures a == b * (a / b) + a % b && a / b >= 0
  {
    if a / b < 0 { MulNonNegative(b, -(a / b) - 1); }
  }

  lemma {:induction false} QuoDivides(a: int, b: int)
    requires b > 0
    ensures Divides(a, b, Quo(a, b), Rem(a, b))
  {
    if a >= 0 {
      EuclidNonNegative(a, b);
    } else {
      EuclidNonNegative(-a, b);
      assert b * Quo(a, b) == -(b * (-a / b));
    }
  }

  lemma {:induction false} DivisionsSplit(d: int, m: int, h: int, days: int, left: int, minutes: int, hours: int)
    requires Divides(d, 60 * SECOND, m, left) && Divides(m, 60, h, minutes) && Divides(h, 24, days, hours)
    ensures Splits(d, days, hours, minutes)
  {
    assert 60 * m == 86400 * days + 3600 * hours + 60 * minutes;
  }

  lemma {:induction false} PartsSplit(d: int)
    ensures var h, m := Quo(d, 3600 * SECOND), Quo(d, 60 * SECOND);
            Splits(d, Quo(h, 24), Rem(h, 24), Rem(m, 60))
  {
    var h, m := Quo(d, 3600 * SECOND), Quo(d, 60 * SECOND);
    HoursOfMinutes(d);
    QuoDivides(d, 60 * SECOND);
    QuoDivides(m, 60);
    QuoDivides(h, 24);
    DivisionsSplit(d, m, h, Quo(h, 24), Rem(d, 60 * SECOND), Rem(m, 60), Rem(h, 24));
  }

  /** What is printed for a day count that is not positive leaves it out. */
  function Printed(days: int, hours: int, minutes: int): Uptime {
    if days > 0 then WithDays(days, hours, minutes) else NoDays(hours, minutes)
  }

  lemma {:induction false} PrintedFits(s: int, days: int, hours: int, minutes: int)
    requires Splits(s * SECOND, days, hours, minutes)
    ensures -60 < s - Printed(days, hours, minutes).Seconds() < 60 <==> -86400 < s
    ensures s >= 0 ==> 0 <= s - Printed(days, hours, minutes).Seconds()
  {
  }

  lemma {:induction false} PrintedWrapped(s: Int64, d: Int64, days: int, hours: int, minutes: int)
    requires Splits(d, days, hours, minutes)
    requires (s * SECOND >= TWO63 && d <= s * SECOND - TWO64) || (s * SECOND < -TWO63 && d >= s * SECOND + TWO64)
    ensures !(-60 < s - Printed(days, hours, minutes).Seconds() < 60)
  {
  }

  /** The text accounts for s to the minute exactly when s is above minus one day and fits a
      Duration: above, the multiplication wraps, and below, the days are not printed. */
  method FormatSeconds(s: Int64) returns (u: Uptime)
    ensures (-60 < s - u.Seconds() < 60) <==> -86400 < s && s * SECOND < TWO63
    ensures 0 <= s && s * SECOND < TWO63 ==> u.Seconds() <= s < u.Seconds() + 60
    ensures 0 <= s && s * SECOND < TWO63 ==> 0 <= u.hours < 24 && 0 <= u.minutes < 60 && (u.WithDays? ==> u.days > 0)
  {
    var d := Wrap(s * SECOND);
    var h, m := Quo(d, 3600 * SECOND), Quo(d, 60 * SECOND);
    var days, hours, minutes := Quo(h, 24), Rem(h, 24), Rem(m, 60);
    PartsSplit(d);
    WrapFits(s * SECOND);
    if -TWO63 <= s * SECOND < TWO63 {
      PrintedFits(s, days, hours, minutes);
    } else {
      PrintedWrapped(s, d, days, hours, minutes);
    }
    u := Printed(days, hours, minutes);
  }
}
