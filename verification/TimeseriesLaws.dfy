/** Which timeseries requests are served, and how wide their buckets are
    (business/domain/logbus/analytics.go). */
module TimeseriesLaws {
  import opened Basics
  import opened Text
  import opened Timeseries

  /** Seconds in a minute, an hour, a day. */
  function UnitSeconds(unit: char): nat
  {
    if unit == 'm' then 60 else if unit == 'h' then 60 * 60 else if unit == 'd' then 24 * 60 * 60 else 0
  }

  lemma {:induction false} SmallDecimals()
    ensures Decimal(1) == "1" && Decimal(5) == "5" && Decimal(6) == "6" && Decimal(15) == "15"
  {
    assert Decimal(15) == Decimal(1) + [('0' as int + 5) as char];
  }

  /** A bucket is as wide as the name of its interval says: a number of minutes, hours or
      days. There are six intervals, and one name for each. */
  lemma {:induction false} NameIsWidth(name: string) returns (n: nat, unit: char)
    ensures ParseInterval(name).Some? <==> name in {"1m", "5m", "15m", "1h", "6h", "1d"}
    ensures ParseInterval(name).Some? ==>
              && name == Decimal(n) + [unit] && unit in {'m', 'h', 'd'}
              && ParseInterval(name).value.Step() == n * UnitSeconds(unit)
  {
    SmallDecimals();
    n, unit := 1, 'm';
    match ParseInterval(name)
    case Some(M1) =>
    case Some(M5) => n := 5;
    case Some(M15) => n := 15;
    case Some(H1) => unit := 'h';
    case Some(H6) => n, unit := 6, 'h';
    case Some(D1) => unit := 'd';
    case None =>
  }

  /** The bounds a request means: up to now and a day back, where it names none. */
  function Meant(from: Option<int>, to: Option<int>, now: int): Window
  {
    var end := match to case Some(t) => t case None => now;
    match from
    case Some(t) => Window(t, end)
    case None => Window(end - 24 * 60 * 60 * 1_000_000_000, end)
  }

  /** Which requests are served. One is if and only if its window is not empty, holds fewer
      than 1501 whole buckets, and, for buckets under an hour, is no wider than two hours;
      otherwise the first of the three that fails is named. */
  lemma {:induction false} ServedIff(from: Option<int>, to: Option<int>, interval: Interval, now: int)
    ensures var w := Meant(from, to, now);
            var width, bucket := w.to - w.from, interval.Step() * 1_000_000_000;
            var hour := 60 * 60 * 1_000_000_000;
            Validated(from, to, interval, now) ==
            if width <= 0 then Err(InvalidRange)
            else if width >= 1501 * bucket then Err(TooManyBuckets)
            else if bucket < hour && width > 2 * hour then Err(WindowTooWide)
            else Ok(w)
  {
    var w := Meant(from, to, now);
    assert Defaults(from, to, now) == w;
    if w.from < w.to {
      WholeBuckets(w.to - w.from, Sub(w.to, w.from), interval);
    }
  }

  lemma {:induction false} WholeBuckets(width: int, saturated: int, interval: Interval)
    requires 0 < width && saturated == if width > MAX_DURATION then MAX_DURATION else width
    ensures Quotient(saturated, interval.Step() * SECOND) > MAX_BUCKETS <==> width >= 1501 * (interval.Step() * SECOND)
    ensures saturated > MAX_RAW_WINDOW <==> width > 2 * HOUR
  {
    match interval
    case M1 =>
    case M5 =>
    case M15 =>
    case H1 =>
    case H6 =>
    case D1 =>
  }
}
