/** Time helpers: coercion to UTC, flooring to the hour and forecast horizons. */
module TimeUtil {
  import opened Wrappers

  const MicrosPerSecond: int := 1000000
  const MicrosPerMinute: int := 60000000
  const MicrosPerHour: int := 3600000000

  /** A datetime: its wall-clock reading in microseconds since 1970-01-01 00:00
      on its own clock, and its UTC offset in microseconds (None when naive). */
  datatype DateTime = DateTime(wall: int, offset: Option<int>)

  function Minute(dt: DateTime): int { (dt.wall % MicrosPerHour) / MicrosPerMinute }
  function Second(dt: DateTime): int { (dt.wall % MicrosPerMinute) / MicrosPerSecond }
  function Microsecond(dt: DateTime): int { dt.wall % MicrosPerSecond }

  /** The instant an aware datetime denotes, in UTC microseconds. */
  function Instant(dt: DateTime): int
    requires dt.offset.Some?
  {
    dt.wall - dt.offset.value
  }

  /** A naive datetime is labelled UTC with its wall clock unchanged; an aware
      one is converted to UTC. */
  function ToUtc(dt: DateTime): (r: DateTime)
    ensures r.offset == Some(0)
    ensures dt.offset.None? ==> r.wall == dt.wall
    ensures dt.offset.Some? ==> Instant(r) == Instant(dt)
  {
    if dt.offset.None? then DateTime(dt.wall, Some(0))
    else DateTime(dt.wall - dt.offset.value, Some(0))
  }

  lemma ToUtcIdempotent(dt: DateTime)
    ensures ToUtc(ToUtc(dt)) == ToUtc(dt)
  {
  }

  lemma MultipleOfHour(k: int)
    ensures (k * MicrosPerHour) % MicrosPerHour == 0
    ensures (k * MicrosPerHour) % MicrosPerMinute == 0
    ensures (k * MicrosPerHour) % MicrosPerSecond == 0
  {
    assert k * MicrosPerHour == (k * 60) * MicrosPerMinute;
    assert k * MicrosPerHour == (k * 3600) * MicrosPerSecond;
  }

  /** The hour that contains the instant, with zero minute, second and
      microsecond. */
  function FloorHour(dt: DateTime): (r: DateTime)
    ensures r.offset == Some(0)
    ensures Instant(r) <= Instant(ToUtc(dt)) < Instant(r) + MicrosPerHour
    ensures Minute(r) == 0 && Second(r) == 0 && Microsecond(r) == 0
  {
    var u := ToUtc(dt);
    var w := u.wall - u.wall % MicrosPerHour;
    assert w == (u.wall / MicrosPerHour) * MicrosPerHour;
    MultipleOfHour(u.wall / MicrosPerHour);
    DateTime(w, Some(0))
  }

  lemma FloorHourIdempotent(dt: DateTime)
    ensures FloorHour(FloorHour(dt)) == FloorHour(dt)
  {
    var r := FloorHour(dt);
    var u := ToUtc(dt);
    MultipleOfHour(u.wall / MicrosPerHour);
    assert r.wall == (u.wall / MicrosPerHour) * MicrosPerHour;
    assert ToUtc(r) == r;
  }

  /** `r` is `n / d` rounded to the nearest integer, halves to the even one
      (Python's `round`). */
  predicate RoundsHalfEven(n: int, d: int, r: int) {
    var e := r * d - n;
    -d <= 2 * e <= d && ((2 * e == d || 2 * e == -d) ==> r % 2 == 0)
  }

  function RoundHalfEven(n: int, d: int): (r: int)
    requires d > 0
    ensures RoundsHalfEven(n, d, r)
  {
    var q, m := n / d, n % d;
    assert q * d - n == -m;
    assert (q + 1) * d - n == d - m;
    if 2 * m < d then q
    else if 2 * m > d then q + 1
    else if q % 2 == 0 then q
    else q + 1
  }

  lemma ProductAtLeast(k: int, d: int)
    requires k >= 2 && d > 0
    ensures k * d >= 2 * d
  {
  }

  /** At most one integer rounds `n / d` half to even. */
  lemma RoundsHalfEvenUnique(n: int, d: int, r1: int, r2: int)
    requires d > 0 && RoundsHalfEven(n, d, r1) && RoundsHalfEven(n, d, r2)
    ensures r1 == r2
  {
    var k := r1 - r2;
    MulDiff(r1, r2, d);
    if k >= 2 {
      ProductAtLeast(k, d);
    } else if k <= -2 {
      ProductAtLeast(-k, d);
    } else if k == 1 {
      BothTies(n, d, r1, r2);
    } else if k == -1 {
      BothTies(n, d, r2, r1);
    }
  }

  lemma MulDiff(a: int, b: int, d: int)
    ensures (a - b) * d == a * d - b * d
  {
  }

  /** Two candidates one apart are both exactly half way. */
  lemma BothTies(n: int, d: int, r1: int, r2: int)
    requires d > 0 && r1 == r2 + 1
    requires -d <= 2 * (r1 * d - n) <= d && -d <= 2 * (r2 * d - n) <= d
    ensures 2 * (r1 * d - n) == d && 2 * (r2 * d - n) == -d
  {
    MulDiff(r1, r2, d);
  }

  /** Signed difference `valid - issue` in microseconds, both read as UTC. */
  function Delta(issue: DateTime, valid: DateTime): int {
    Instant(ToUtc(valid)) - Instant(ToUtc(issue))
  }

  /** Forecast horizon in whole hours, within half an hour of the real
      difference. */
  function HorizonHours(issue: DateTime, valid: DateTime): (h: int)
    ensures RoundsHalfEven(Delta(issue, valid), MicrosPerHour, h)
    ensures -MicrosPerHour <= 2 * (h * MicrosPerHour - Delta(issue, valid)) <= MicrosPerHour
  {
    RoundHalfEven(Delta(issue, valid), MicrosPerHour)
  }

  lemma {:induction false} HorizonAntisymmetric(a: DateTime, b: DateTime)
    ensures HorizonHours(a, b) == -HorizonHours(b, a)
  {
    var h := HorizonHours(b, a);
    assert Delta(a, b) == -Delta(b, a);
    assert (-h) * MicrosPerHour - Delta(a, b) == -(h * MicrosPerHour - Delta(b, a));
    assert h % 2 == 0 <==> (-h) % 2 == 0;
    RoundsHalfEvenUnique(Delta(a, b), MicrosPerHour, HorizonHours(a, b), -h);
  }

  lemma {:induction false} HorizonWholeHours(a: DateTime, b: DateTime, k: int)
    requires Delta(a, b) == k * MicrosPerHour
    ensures HorizonHours(a, b) == k
  {
    RoundsHalfEvenUnique(Delta(a, b), MicrosPerHour, HorizonHours(a, b), k);
  }

  lemma HorizonExamples()
    ensures HorizonHours(DateTime(0, Some(0)), DateTime(0, Some(0))) == 0
    ensures HorizonHours(DateTime(0, Some(0)), DateTime(MicrosPerHour * 3 / 2, Some(0))) == 2
    ensures HorizonHours(DateTime(0, Some(0)), DateTime(MicrosPerHour * 5 / 2, Some(0))) == 2
    ensures HorizonHours(DateTime(0, Some(0)), DateTime(-MicrosPerHour * 3 / 2, Some(0))) == -2
  {
  }
}
