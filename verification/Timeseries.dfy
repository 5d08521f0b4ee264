/** Bucketed level counts (business/domain/logbus/logbus.go and analytics.go, with the
    query of stores/logdb/analytics.go).

    Instants are integer nanoseconds since the epoch. `Unix` floors to seconds, as Go
    does; integer division of seconds truncates toward zero, as Go's does, while the
    SQL floors. Where the two differ, or where an instant has a fractional second, is
    where the grid and the data can disagree. */
module Timeseries {
  import opened Basics

  const SECOND: int := 1_000_000_000
  const HOUR: int := 3600 * SECOND
  const MAX_DURATION: int := 0x7FFF_FFFF_FFFF_FFFF
  const MAX_RAW_WINDOW: int := 2 * HOUR
  const MAX_BUCKETS: int := 1500
  const DEFAULT_WINDOW: int := 24 * HOUR

  datatype Interval = M1 | M5 | M15 | H1 | H6 | D1
  {
    /** The bucket width in seconds. */
    function Step(): (s: int)
      ensures s >= 60
    {
      match this
      case M1 => 60
      case M5 => 300
      case M15 => 900
      case H1 => 3600
      case H6 => 21600
      case D1 => 86400
    }

    predicate FromRollup() { Step() * SECOND >= HOUR }
  }

  /** The interval of a request, by its name. */
  function ParseInterval(name: string): Option<Interval>
  {
    if name == "1m" then Some(M1)
    else if name == "5m" then Some(M5)
    else if name == "15m" then Some(M15)
    else if name == "1h" then Some(H1)
    else if name == "6h" then Some(H6)
    else if name == "1d" then Some(D1)
    else None
  }

  datatype TimeseriesError = InvalidRange | TooManyBuckets | WindowTooWide | StoreFailed

  datatype Outcome<+T> = Ok(value: T) | Err(error: TimeseriesError)

  datatype Window = Window(from: int, to: int)

  /** One (bucket, level) tally of the store; the bucket is in seconds. */
  datatype BucketCount = BucketCount(ts: int, level: string, count: nat)

  datatype Bucket = Bucket(ts: int, counts: map<string, nat>)

  datatype Entry = Entry(at: int, level: string)

  const LEVEL_NAMES: seq<string> := ["DEBUG", "INFO", "WARN", "ERROR"]

  function Unix(t: int): int { t / SECOND }

  /** Go's integer division. */
  function Quotient(a: int, b: int): int
    requires b > 0
  {
    if a >= 0 then a / b else -((-a) / b)
  }

  /** time.Time.Sub, which saturates. */
  function Sub(a: int, b: int): int
  {
    if a - b > MAX_DURATION then MAX_DURATION
    else if a - b < -MAX_DURATION - 1 then -MAX_DURATION - 1
    else a - b
  }

  /** A missing bound is filled in from the clock and the default width. */
  function Defaults(from: Option<int>, to: Option<int>, now: int): Window
  {
    var end := if to.None? then now else to.value;
    Window(if from.None? then end - DEFAULT_WINDOW else from.value, end)
  }

  function Validated(from: Option<int>, to: Option<int>, interval: Interval, now: int): Outcome<Window>
  {
    var w := Defaults(from, to, now);
    var width := Sub(w.to, w.from);
    if !(w.from < w.to) then Err(InvalidRange)
    else if Quotient(width, interval.Step() * SECOND) > MAX_BUCKETS then Err(TooManyBuckets)
    else if !interval.FromRollup() && width > MAX_RAW_WINDOW then Err(WindowTooWide)
    else Ok(w)
  }

  // ---------------------------------------------------------------------------
  // The grid

  /** Index of the first bucket: the first bucket is this many steps after the epoch. */
  function FirstIndex(from: int, step: int): int
    requires step > 0
  {
    Quotient(Unix(from), step)
  }

  /** Aligned seconds k*step, (k+1)*step, ... below `end`. */
  ghost function Grid(k: int, step: int, end: int): seq<int>
    requires step > 0
    decreases end - k * step
  {
    if k * step >= end then []
    else
      NextMultiple(k, step);
      [k * step] + Grid(k + 1, step, end)
  }

  ghost function GridOf(w: Window, step: int): seq<int>
    requires step > 0
  {
    Grid(FirstIndex(w.from, step), step, Unix(w.to))
  }

  lemma {:induction false} NextMultiple(k: int, step: int)
    ensures (k + 1) * step == k * step + step
  {
  }

  lemma {:induction false} Distribute(a: int, b: int, step: int)
    ensures (a + b) * step == a * step + b * step
  {
  }

  lemma {:induction false} Monotone(a: int, b: int, step: int)
    requires a <= b && step > 0
    ensures a * step <= b * step
  {
  }

  /** The k-th multiple. */
  function Mark(k: int, step: int): int { k * step }

  /** The grid is gap-free and aligned. */
  lemma {:induction false} GridElements(k: int, step: int, end: int)
    requires step > 0
    ensures forall i :: 0 <= i < |Grid(k, step, end)| ==> Grid(k, step, end)[i] == Mark(k + i, step) < end
    ensures Mark(k + |Grid(k, step, end)|, step) >= end
    decreases end - k * step
  {
    if k * step < end {
      NextMultiple(k, step);
      GridElements(k + 1, step, end);
      var grid, rest := Grid(k, step, end), Grid(k + 1, step, end);
      forall i | 0 <= i < |grid|
        ensures grid[i] == Mark(k + i, step) < end
      {
        if i > 0 {
          assert grid[i] == rest[i - 1] == Mark(k + 1 + (i - 1), step);
        }
      }
      assert k + 1 + |rest| == k + |grid|;
    }
  }

  /** A multiple of the step is on the grid exactly when it lies between the ends. */
  lemma {:induction false} OnGrid(k: int, step: int, end: int, m: int)
    requires step > 0
    ensures m * step in Grid(k, step, end) <==> k <= m && m * step < end
  {
    GridElements(k, step, end);
    var grid := Grid(k, step, end);
    if k <= m && m * step < end {
      if m >= k + |grid| {
        Monotone(k + |grid|, m, step);
        assert false;
      }
      assert grid[m - k] == Mark(k + (m - k), step) == Mark(m, step);
    }
    if m * step in grid {
      var i :| 0 <= i < |grid| && grid[i] == m * step;
      if m < k {
        Monotone(m + 1, k + i, step);
        NextMultiple(m, step);
        assert false;
      }
    }
  }

  lemma {:induction false} GridDistinct(k: int, step: int, end: int)
    requires step > 0
    ensures forall i, j :: 0 <= i < j < |Grid(k, step, end)| ==> Grid(k, step, end)[i] < Grid(k, step, end)[j]
  {
    GridElements(k, step, end);
    forall i, j | 0 <= i < j < |Grid(k, step, end)|
      ensures Grid(k, step, end)[i] < Grid(k, step, end)[j]
    {
      NextMultiple(k + i, step);
      Monotone(k + i + 1, k + j, step);
    }
  }

  // ---------------------------------------------------------------------------
  // Tallies

  ghost function TallyAt(rows: seq<BucketCount>, ts: int, level: string): nat
  {
    if rows == [] then 0
    else TallyAt(rows[..|rows| - 1], ts, level)
         + (var r := rows[|rows| - 1]; if r.ts == ts && r.level == level then r.count else 0)
  }

  function CountOf(counts: map<string, nat>, level: string): nat
  {
    if level in counts then counts[level] else 0
  }

  /** What one bucket must hold. */
  ghost predicate BucketRight(b: Bucket, ts: int, rows: seq<BucketCount>)
  {
    && b.ts == ts
    && (forall level :: level in LEVEL_NAMES ==> level in b.counts)
    && (forall level :: CountOf(b.counts, level) == TallyAt(rows, ts, level))
  }

  /** Empty buckets for the whole window, and where each second's bucket is. */
  method EmptyBuckets(w: Window, step: int) returns (buckets: seq<Bucket>, byTS: map<int, nat>)
    requires step > 0
    ensures AllRight(buckets, GridOf(w, step), [])
    ensures forall ts :: ts in byTS <==> ts in GridOf(w, step)
    ensures forall ts :: ts in byTS ==> byTS[ts] < |buckets| && GridOf(w, step)[byTS[ts]] == ts
  {
    ghost var k := FirstIndex(w.from, step);
    ghost var grid := GridOf(w, step);
    var ts := Quotient(Unix(w.from), step) * step;
    buckets, byTS := [], map[];
    while ts < Unix(w.to)
      invariant ts == k * step
      invariant |buckets| <= |grid| && grid[|buckets|..] == Grid(k, step, Unix(w.to))
      invariant forall i :: 0 <= i < |buckets| ==> BucketRight(buckets[i], grid[i], [])
      invariant forall t :: t in byTS <==> t in grid[..|buckets|]
      invariant forall t :: t in byTS ==> byTS[t] < |buckets| && grid[byTS[t]] == t
      decreases Unix(w.to) - ts
    {
      var counts: map<string, nat> := map[];
      for j := 0 to |LEVEL_NAMES|
        invariant forall level :: level in counts <==> level in LEVEL_NAMES[..j]
        invariant forall level :: level in counts ==> counts[level] == 0
      {
        counts := counts[LEVEL_NAMES[j] := 0];
      }
      assert grid[|buckets|..][0] == ts;
      byTS := byTS[ts := |buckets|];
      buckets := buckets + [Bucket(ts, counts)];
      NextMultiple(k, step);
      ts := ts + step;
      k := k + 1;
    }
  }

  /** A bucket with one row counted in. */
  function Counting(b: Bucket, r: BucketCount): Bucket
  {
    b.(counts := b.counts[r.level := CountOf(b.counts, r.level) + r.count])
  }

  lemma {:induction false} TallyOfOneMore(rows: seq<BucketCount>, r: BucketCount, ts: int, level: string)
    ensures TallyAt(rows + [r], ts, level)
         == TallyAt(rows, ts, level) + (if r.ts == ts && r.level == level then r.count else 0)
  {
    assert (rows + [r])[..|rows|] == rows;
  }

  /** One more row, for one bucket. */
  lemma {:induction false} BucketStaysRight(b: Bucket, ts: int, rows: seq<BucketCount>, r: BucketCount)
    requires BucketRight(b, ts, rows)
    ensures BucketRight(if r.ts == ts then Counting(b, r) else b, ts, rows + [r])
  {
    forall level
      ensures CountOf((if r.ts == ts then Counting(b, r) else b).counts, level) == TallyAt(rows + [r], ts, level)
    {
      TallyOfOneMore(rows, r, ts, level);
    }
  }

  ghost predicate AllRight(buckets: seq<Bucket>, grid: seq<int>, rows: seq<BucketCount>)
  {
    |buckets| == |grid| && forall i :: 0 <= i < |buckets| ==> BucketRight(buckets[i], grid[i], rows)
  }

  /** One more row, for all buckets: the one it belongs to counts it, if there is one. */
  lemma {:induction false} AllStayRight(buckets: seq<Bucket>, after: seq<Bucket>, grid: seq<int>,
                                        rows: seq<BucketCount>, r: BucketCount)
    requires AllRight(buckets, grid, rows) && |after| == |buckets|
    requires forall i :: 0 <= i < |grid| ==> after[i] == if r.ts == grid[i] then Counting(buckets[i], r) else buckets[i]
    ensures AllRight(after, grid, rows + [r])
  {
    forall i | 0 <= i < |after|
      ensures BucketRight(after[i], grid[i], rows + [r])
    {
      BucketStaysRight(buckets[i], grid[i], rows, r);
    }
  }

  /** Buckets covering the window, with the store's rows folded in. A row whose bucket
      is not on the grid is ignored. */
  method Fold(w: Window, step: int, rows: seq<BucketCount>) returns (buckets: seq<Bucket>)
    requires step > 0
    ensures AllRight(buckets, GridOf(w, step), rows)
  {
    var byTS: map<int, nat>;
    buckets, byTS := EmptyBuckets(w, step);
    ghost var grid := GridOf(w, step);
    GridDistinct(FirstIndex(w.from, step), step, Unix(w.to));
    for n := 0 to |rows|
      invariant AllRight(buckets, grid, rows[..n])
    {
      ghost var before := buckets;
      if rows[n].ts in byTS {
        var i := byTS[rows[n].ts];
        buckets := buckets[i := Counting(buckets[i], rows[n])];
      }
      AllStayRight(before, buckets, grid, rows[..n], rows[n]);
      assert rows[..n + 1] == rows[..n] + [rows[n]];
    }
    assert rows[..|rows|] == rows;
  }

  /** query is the store: its rows for a window, or nothing when it fails. */
  method Timeseries(from: Option<int>, to: Option<int>, interval: Interval, now: int,
                    query: Window -> Option<seq<BucketCount>>)
    returns (r: Outcome<seq<Bucket>>)
    ensures var v := Validated(from, to, interval, now);
            if v.Err? then r == Err(v.error)
            else if query(v.value).None? then r == Err(StoreFailed)
            else r.Ok? && AllRight(r.value, GridOf(v.value, interval.Step()), query(v.value).value)
  {
    var v := Validated(from, to, interval, now);
    if v.Err? {
      return Err(v.error);
    }
    var rows := query(v.value);
    if rows.None? {
      return Err(StoreFailed);
    }
    var buckets := Fold(v.value, interval.Step(), rows.value);
    return Ok(buckets);
  }

  // ---------------------------------------------------------------------------
  // Size

  lemma {:induction false} FirstIndexIsClose(from: int, interval: Interval)
    ensures var step := interval.Step();
            Unix(from) - step < FirstIndex(from, step) * step < Unix(from) + step
    ensures Unix(from) >= 0 ==> FirstIndex(from, interval.Step()) * interval.Step() <= Unix(from)
  {
    match interval
    case M1 =>
    case M5 =>
    case M15 =>
    case H1 =>
    case H6 =>
    case D1 =>
  }

  /** A validated request never gets more than MaxBuckets + 2 buckets. */
  lemma {:induction false} GridIsBounded(from: Option<int>, to: Option<int>, interval: Interval, now: int)
    requires Validated(from, to, interval, now).Ok?
    ensures |GridOf(Validated(from, to, interval, now).value, interval.Step())| <= MAX_BUCKETS + 2
  {
    var w := Validated(from, to, interval, now).value;
    var step := interval.Step();
    var k := FirstIndex(w.from, step);
    var n := |GridOf(w, step)|;
    WidthIsBounded(w, interval);
    FirstIndexIsClose(w.from, interval);
    GridElements(k, step, Unix(w.to));
    Distribute(k, 1502, step);
    assert n > 0 ==> GridOf(w, step)[n - 1] == Mark(k + (n - 1), step);
    if n > MAX_BUCKETS + 2 {
      Monotone(k + 1502, k + (n - 1), step);
      assert false;
    }
  }

  lemma {:induction false} WidthIsBounded(w: Window, interval: Interval)
    requires w.from < w.to && Quotient(Sub(w.to, w.from), interval.Step() * SECOND) <= MAX_BUCKETS
    ensures Unix(w.to) - Unix(w.from) <= 1501 * interval.Step()
  {
    match interval
    case M1 =>
    case M5 =>
    case M15 =>
    case H1 =>
    case H6 =>
    case D1 =>
  }

  // ---------------------------------------------------------------------------
  // Conservation

  ghost function SumBuckets(buckets: seq<Bucket>, level: string): nat
  {
    if buckets == [] then 0 else CountOf(buckets[0].counts, level) + SumBuckets(buckets[1..], level)
  }

  /** The rows of a level that fall on the grid. */
  ghost function SumRows(rows: seq<BucketCount>, grid: seq<int>, level: string): nat
  {
    if rows == [] then 0
    else SumRows(rows[..|rows| - 1], grid, level)
         + (var r := rows[|rows| - 1]; if r.ts in grid && r.level == level then r.count else 0)
  }

  ghost function SumTallies(grid: seq<int>, rows: seq<BucketCount>, level: string): nat
  {
    if grid == [] then 0 else TallyAt(rows, grid[0], level) + SumTallies(grid[1..], rows, level)
  }

  lemma {:induction false} SumTalliesStep(grid: seq<int>, rows: seq<BucketCount>, level: string)
    requires rows != []
    requires forall i, j :: 0 <= i < j < |grid| ==> grid[i] < grid[j]
    ensures var r := rows[|rows| - 1];
            SumTallies(grid, rows, level) == SumTallies(grid, rows[..|rows| - 1], level)
                                             + (if r.ts in grid && r.level == level then r.count else 0)
    decreases |grid|
  {
    if grid != [] {
      SumTalliesStep(grid[1..], rows, level);
      assert grid == [grid[0]] + grid[1..];
      assert grid[0] !in grid[1..];
    }
  }

  lemma {:induction false} TalliesSumToRows(grid: seq<int>, rows: seq<BucketCount>, level: string)
    requires forall i, j :: 0 <= i < j < |grid| ==> grid[i] < grid[j]
    ensures SumTallies(grid, rows, level) == SumRows(rows, grid, level)
    decreases |rows|
  {
    if rows == [] {
      NoTallies(grid, level);
    } else {
      SumTalliesStep(grid, rows, level);
      TalliesSumToRows(grid, rows[..|rows| - 1], level);
    }
  }

  lemma {:induction false} NoTallies(grid: seq<int>, level: string)
    ensures SumTallies(grid, [], level) == 0
    decreases |grid|
  {
    if grid != [] {
      NoTallies(grid[1..], level);
    }
  }

  lemma {:induction false} BucketsSumToTallies(buckets: seq<Bucket>, grid: seq<int>, rows: seq<BucketCount>,
                                               level: string)
    requires AllRight(buckets, grid, rows)
    ensures SumBuckets(buckets, level) == SumTallies(grid, rows, level)
    decreases |grid|
  {
    if grid != [] {
      BucketsSumToTallies(buckets[1..], grid[1..], rows, level);
    }
  }

  /** For each level the buckets hold exactly what the store's rows on the grid held. */
  lemma {:induction false} FoldConserves(w: Window, step: int, rows: seq<BucketCount>, buckets: seq<Bucket>,
                                         level: string)
    requires step > 0 && AllRight(buckets, GridOf(w, step), rows)
    ensures SumBuckets(buckets, level) == SumRows(rows, GridOf(w, step), level)
  {
    GridDistinct(FirstIndex(w.from, step), step, Unix(w.to));
    BucketsSumToTallies(buckets, GridOf(w, step), rows, level);
    TalliesSumToRows(GridOf(w, step), rows, level);
  }

  // ---------------------------------------------------------------------------
  // From logs to buckets

  /** floor(extract(epoch FROM ts) / :secs) * :secs. */
  function BucketOf(t: int, step: int): int
    requires step > 0
  {
    Unix(t) / step * step
  }

  /** The hour of the rollup that counts an instant. */
  function HourStart(t: int): int { t / HOUR * HOUR }

  predicate Within(w: Window, t: int) { w.from <= t < w.to }

  /** Whether the store's statement counts a log: by its own time, or for the intervals
      that are summed from the hourly rollup by the start of its hour. */
  predicate Selected(t: int, w: Window, interval: Interval)
  {
    Within(w, if interval.FromRollup() then HourStart(t) else t)
  }

  /** The bucket the statement puts it in. */
  function Place(t: int, interval: Interval): int
  {
    BucketOf(if interval.FromRollup() then HourStart(t) else t, interval.Step())
  }

  /** The statement, with each log as a row of its own: adding up equal rows, in the
      rollup or in the statement, changes no tally. */
  function StoreRows(logs: seq<Entry>, w: Window, interval: Interval): seq<BucketCount>
  {
    if logs == [] then []
    else
      var l := logs[|logs| - 1];
      StoreRows(logs[..|logs| - 1], w, interval)
      + (if Selected(l.at, w, interval) then [BucketCount(Place(l.at, interval), l.level, 1)] else [])
  }

  /** Logs of a level whose time meets a condition. */
  ghost function LogsWhere(logs: seq<Entry>, level: string, condition: int -> bool): nat
  {
    if logs == [] then 0
    else LogsWhere(logs[..|logs| - 1], level, condition)
         + (var l := logs[|logs| - 1]; if condition(l.at) && l.level == level then 1 else 0)
  }

  /** Logs of a level in the window. */
  ghost function LogsIn(logs: seq<Entry>, w: Window, level: string): nat
  {
    LogsWhere(logs, level, t => Within(w, t))
  }

  /** A log ends up in a bucket when it is selected and its bucket is on the grid. */
  ghost predicate Counted(t: int, w: Window, interval: Interval)
  {
    Selected(t, w, interval) && Place(t, interval) in GridOf(w, interval.Step())
  }

  /** Every instant of the window has its bucket on the grid. */
  ghost predicate Covers(w: Window, step: int)
    requires step > 0
  {
    forall t :: Within(w, t) ==> BucketOf(t, step) in GridOf(w, step)
  }

  lemma {:induction false} RowsOfOneMore(rows: seq<BucketCount>, r: BucketCount, grid: seq<int>, level: string)
    ensures SumRows(rows + [r], grid, level)
         == SumRows(rows, grid, level) + (if r.ts in grid && r.level == level then r.count else 0)
  {
    assert (rows + [r])[..|rows|] == rows;
  }

  /** The store's rows on the grid are the logs that are counted. */
  lemma {:induction false} StoreRowsOnGrid(logs: seq<Entry>, w: Window, interval: Interval, level: string)
    ensures SumRows(StoreRows(logs, w, interval), GridOf(w, interval.Step()), level)
         == LogsWhere(logs, level, t => Counted(t, w, interval))
    decreases |logs|
  {
    if logs != [] {
      var l := logs[|logs| - 1];
      var before := StoreRows(logs[..|logs| - 1], w, interval);
      StoreRowsOnGrid(logs[..|logs| - 1], w, interval, level);
      RowsOfOneMore(before, BucketCount(Place(l.at, interval), l.level, 1), GridOf(w, interval.Step()), level);
      assert before + [] == before;
    }
  }

  lemma {:induction false} SecondsOf(t: int, to: int)
    requires t < to
    ensures Unix(t) <= Unix(to)
    ensures Unix(t) == Unix(to) ==> to % SECOND != 0
    ensures Unix(to) * SECOND <= to && (to % SECOND == 0 ==> Unix(to) * SECOND == to)
  {
  }

  /** The bucket of an instant that is not before the window is on the grid exactly when
      it is not before the grid's first and begins before the window ends. */
  lemma {:induction false} PlaceOnGrid(w: Window, interval: Interval, t: int)
    ensures var step := interval.Step();
            BucketOf(t, step) in GridOf(w, step) <==>
            FirstIndex(w.from, step) <= Unix(t) / step && BucketOf(t, step) < Unix(w.to)
  {
    OnGrid(FirstIndex(w.from, interval.Step()), interval.Step(), Unix(w.to), Unix(t) / interval.Step());
  }

  /** The bucket of an instant that comes after the start is on the grid exactly when it
      begins before the window ends, once the grid starts at the data's first bucket. */
  lemma {:induction false} LaterOnGrid(w: Window, interval: Interval, t: int)
    requires w.from <= t && (Unix(w.from) >= 0 || Unix(w.from) % interval.Step() == 0)
    ensures BucketOf(t, interval.Step()) in GridOf(w, interval.Step()) <==> BucketOf(t, interval.Step()) < Unix(w.to)
  {
    PlaceOnGrid(w, interval, t);
    StartOfGrid(w.from, interval);
    FloorFacts(Unix(w.from), Unix(t), interval);
  }

  /** The first instant's bucket is lost when truncation starts the grid after it. */
  lemma {:induction false} StartOffGrid(w: Window, interval: Interval)
    requires Unix(w.from) < 0 && Unix(w.from) % interval.Step() != 0
    ensures BucketOf(w.from, interval.Step()) !in GridOf(w, interval.Step())
  {
    PlaceOnGrid(w, interval, w.from);
    StartOfGrid(w.from, interval);
  }

  /** The bucket of an instant of the window begins before the window ends, unless the
      window ends in that bucket's first second. */
  lemma {:induction false} BucketBeforeEnd(w: Window, interval: Interval, t: int)
    requires t < w.to
    ensures w.to % SECOND == 0 || Unix(w.to) % interval.Step() != 0 ==> BucketOf(t, interval.Step()) < Unix(w.to)
    ensures Unix(t) == Unix(w.to) && Unix(w.to) % interval.Step() == 0 ==> BucketOf(t, interval.Step()) == Unix(w.to)
  {
    SecondsOf(t, w.to);
    AlignedFloor(Unix(t), interval);
  }

  /** The grid covers the window exactly when the window does not start inside a bucket
      before the epoch, and does not end a fraction of a second after a bucket begins. */
  lemma {:induction false} GridCoversWindow(w: Window, interval: Interval)
    requires w.from < w.to
    ensures Covers(w, interval.Step()) <==>
            && (Unix(w.from) >= 0 || Unix(w.from) % interval.Step() == 0)
            && (w.to % SECOND == 0 || Unix(w.to) % interval.Step() != 0)
  {
    var step := interval.Step();
    if Unix(w.from) < 0 && Unix(w.from) % step != 0 {
      StartOffGrid(w, interval);
      assert Within(w, w.from) && BucketOf(w.from, step) !in GridOf(w, step);
    } else if w.to % SECOND != 0 && Unix(w.to) % step == 0 {
      var t := LastSecond(w);
      BucketBeforeEnd(w, interval, t);
      LaterOnGrid(w, interval, t);
      assert Within(w, t) && BucketOf(t, step) !in GridOf(w, step);
    } else {
      forall t | Within(w, t)
        ensures BucketOf(t, step) in GridOf(w, step)
      {
        BucketBeforeEnd(w, interval, t);
        LaterOnGrid(w, interval, t);
      }
    }
  }

  /** An instant of the window in its last, incomplete second. */
  lemma {:induction false} LastSecond(w: Window) returns (t: int)
    requires w.from < w.to && w.to % SECOND != 0
    ensures Within(w, t) && Unix(t) == Unix(w.to)
  {
    t := if w.from <= Unix(w.to) * SECOND then Unix(w.to) * SECOND else w.from;
  }

  /** Truncation agrees with floor exactly where the grid starts at the data's first bucket. */
  lemma {:induction false} StartOfGrid(from: int, interval: Interval)
    ensures var step := interval.Step();
            if Unix(from) >= 0 || Unix(from) % step == 0 then FirstIndex(from, step) == Unix(from) / step
            else FirstIndex(from, step) > Unix(from) / step
  {
    match interval
    case M1 =>
    case M5 =>
    case M15 =>
    case H1 =>
    case H6 =>
    case D1 =>
  }

  lemma {:induction false} FloorFacts(a: int, b: int, interval: Interval)
    requires a <= b
    ensures a / interval.Step() <= b / interval.Step()
  {
    match interval
    case M1 =>
    case M5 =>
    case M15 =>
    case H1 =>
    case H6 =>
    case D1 =>
  }

  lemma {:induction false} AlignedFloor(a: int, interval: Interval)
    ensures var step := interval.Step(); a / step * step <= a && (a / step * step == a <==> a % step == 0)
  {
    match interval
    case M1 =>
    case M5 =>
    case M15 =>
    case H1 =>
    case H6 =>
    case D1 =>
  }

  // ---------------------------------------------------------------------------
  // Which windows are counted exactly

  /** Within a rollup the hours of a window are its instants exactly when both its ends
      are whole hours: otherwise the partial first hour is left out and the partial last
      one counted whole. */
  lemma {:induction false} RollupIsExactOnWholeHours(w: Window)
    requires w.from < w.to
    ensures (forall t :: Within(w, HourStart(t)) <==> Within(w, t)) <==> w.from % HOUR == 0 && w.to % HOUR == 0
  {
    if w.from % HOUR != 0 {
      assert HourStart(w.from) < w.from;
    } else if w.to % HOUR != 0 {
      assert w.from <= HourStart(w.to) < w.to;
    } else {
      forall t
        ensures Within(w, HourStart(t)) <==> Within(w, t)
      {
        HourGrain(w.from, t);
        HourGrain(w.to, t);
      }
    }
  }

  lemma {:induction false} HourGrain(bound: int, t: int)
    requires bound % HOUR == 0
    ensures bound <= HourStart(t) <==> bound <= t
  {
  }

  /** What a caller can check: the grid starts at the data's first bucket, and the ends
      are whole hours, or for a scan of the logs the window does not end in the first
      second of a bucket. */
  predicate WindowIsExact(w: Window, interval: Interval)
  {
    && (Unix(w.from) >= 0 || Unix(w.from) % interval.Step() == 0)
    && (if interval.FromRollup() then w.from % HOUR == 0 && w.to % HOUR == 0
        else w.to % SECOND == 0 || Unix(w.to) % interval.Step() != 0)
  }

  /** The instants that are counted are those of the window exactly when it is exact. */
  lemma {:induction false} CountedIsWindowIff(w: Window, interval: Interval)
    requires w.from < w.to
    ensures (forall t :: Counted(t, w, interval) <==> Within(w, t)) <==> WindowIsExact(w, interval)
  {
    if interval.FromRollup() {
      RollupCountedIff(w, interval);
    } else {
      ScanCountedIff(w, interval);
    }
  }

  lemma {:induction false} ScanCountedIff(w: Window, interval: Interval)
    requires w.from < w.to && !interval.FromRollup()
    ensures (forall t :: Counted(t, w, interval) <==> Within(w, t)) <==> WindowIsExact(w, interval)
  {
    GridCoversWindow(w, interval);
    if Covers(w, interval.Step()) {
      forall t
        ensures Counted(t, w, interval) <==> Within(w, t)
      {
      }
    } else {
      var t :| Within(w, t) && BucketOf(t, interval.Step()) !in GridOf(w, interval.Step());
      assert !Counted(t, w, interval);
    }
  }

  lemma {:induction false} RollupCountedIff(w: Window, interval: Interval)
    requires w.from < w.to && interval.FromRollup()
    ensures (forall t :: Counted(t, w, interval) <==> Within(w, t)) <==> WindowIsExact(w, interval)
  {
    if WindowIsExact(w, interval) {
      forall t
        ensures Counted(t, w, interval) <==> Within(w, t)
      {
        HourGrain(w.from, t);
        HourGrain(w.to, t);
        if Within(w, t) {
          HourIsOnGrid(w, interval, HourStart(t));
        }
      }
    } else {
      var t := Miscounted(w, interval);
      assert Counted(t, w, interval) != Within(w, t);
    }
  }

  lemma {:induction false} HourIsOnGrid(w: Window, interval: Interval, h: int)
    requires interval.FromRollup() && Within(w, h) && w.to % HOUR == 0
    requires Unix(w.from) >= 0 || Unix(w.from) % interval.Step() == 0
    ensures BucketOf(h, interval.Step()) in GridOf(w, interval.Step())
  {
    HoursAreSeconds(w.to);
    BucketBeforeEnd(w, interval, h);
    LaterOnGrid(w, interval, h);
  }

  lemma {:induction false} HoursAreSeconds(t: int)
    requires t % HOUR == 0
    ensures t % SECOND == 0
  {
    assert t == t / HOUR * 3600 * SECOND;
  }

  /** A log that an inexact window miscounts: one of the first, partial hour or of a first
      bucket off the grid is lost; one of the last, partial hour is counted although it
      lies after the window, or lost when the window ends where a bucket begins. */
  lemma {:induction false} Miscounted(w: Window, interval: Interval) returns (t: int)
    requires w.from < w.to && interval.FromRollup() && !WindowIsExact(w, interval)
    ensures Counted(t, w, interval) != Within(w, t)
  {
    if w.from % HOUR != 0 {
      t := w.from;
      HourFacts(t);
    } else if Unix(w.from) < 0 && Unix(w.from) % interval.Step() != 0 {
      t := w.from;
      HourFacts(t);
      StartOffGrid(w, interval);
    } else if Counted(w.to, w, interval) {
      t := w.to;
    } else {
      t := HourStart(w.to);
      HourFacts(w.to);
      HourGrain(w.from, w.to);
      SamePlace(w, interval);
    }
  }

  lemma {:induction false} HourFacts(t: int)
    ensures HourStart(t) <= t && (HourStart(t) == t <==> t % HOUR == 0) && HourStart(HourStart(t)) == HourStart(t)
  {
  }

  /** The hour in which a window ends is selected or not as a whole. */
  lemma {:induction false} SamePlace(w: Window, interval: Interval)
    requires interval.FromRollup()
    ensures Counted(HourStart(w.to), w, interval) <==> Counted(w.to, w, interval)
  {
    HourFacts(w.to);
  }

  // ---------------------------------------------------------------------------
  // Series

  /** The buckets a window gets for some logs. */
  ghost predicate SeriesOf(buckets: seq<Bucket>, w: Window, interval: Interval, logs: seq<Entry>)
  {
    AllRight(buckets, GridOf(w, interval.Step()), StoreRows(logs, w, interval))
  }

  /** The buckets of a level add up to the logs of that level that are counted. */
  lemma {:induction false} SeriesCounts(w: Window, interval: Interval, logs: seq<Entry>, buckets: seq<Bucket>,
                                        level: string)
    requires SeriesOf(buckets, w, interval, logs)
    ensures SumBuckets(buckets, level) == LogsWhere(logs, level, t => Counted(t, w, interval))
  {
    FoldConserves(w, interval.Step(), StoreRows(logs, w, interval), buckets, level);
    StoreRowsOnGrid(logs, w, interval, level);
  }

  lemma {:induction false} SameLogs(logs: seq<Entry>, level: string, a: int -> bool, b: int -> bool)
    requires forall t :: a(t) <==> b(t)
    ensures LogsWhere(logs, level, a) == LogsWhere(logs, level, b)
    decreases |logs|
  {
    if logs != [] {
      SameLogs(logs[..|logs| - 1], level, a, b);
    }
  }

  lemma {:induction false} OneLog(t: int, level: string, condition: int -> bool)
    ensures LogsWhere([Entry(t, level)], level, condition) == if condition(t) then 1 else 0
  {
    assert [Entry(t, level)][..0] == [];
  }

  /** In an exact window the buckets of a level add up to the logs of that level. */
  lemma {:induction false} NoLogIsLost(w: Window, interval: Interval, logs: seq<Entry>, buckets: seq<Bucket>,
                                       level: string)
    requires w.from < w.to && SeriesOf(buckets, w, interval, logs) && WindowIsExact(w, interval)
    ensures SumBuckets(buckets, level) == LogsIn(logs, w, level)
  {
    CountedIsWindowIff(w, interval);
    SeriesCounts(w, interval, logs, buckets, level);
    SameLogs(logs, level, t => Counted(t, w, interval), t => Within(w, t));
  }

  /** One log alone: in a bucket when it is counted, in the window when it lies there. */
  lemma {:induction false} OneLogSeries(w: Window, interval: Interval, t: int, level: string, buckets: seq<Bucket>)
    requires SeriesOf(buckets, w, interval, [Entry(t, level)])
    ensures SumBuckets(buckets, level) == if Counted(t, w, interval) then 1 else 0
    ensures LogsIn([Entry(t, level)], w, level) == if Within(w, t) then 1 else 0
  {
    SeriesCounts(w, interval, [Entry(t, level)], buckets, level);
    OneLog(t, level, u => Counted(u, w, interval));
    OneLog(t, level, u => Within(w, u));
  }

  /** A log of the window whose bucket is not on the grid is in no bucket. */
  lemma {:induction false} OffGridIsLost(w: Window, interval: Interval, t: int, level: string, buckets: seq<Bucket>)
    requires Within(w, t) && Place(t, interval) !in GridOf(w, interval.Step())
    requires SeriesOf(buckets, w, interval, [Entry(t, level)])
    ensures SumBuckets(buckets, level) == 0 && LogsIn([Entry(t, level)], w, level) == 1
  {
    OneLogSeries(w, interval, t, level, buckets);
  }

  /** A series counts the logs of its window, whatever the logs are, exactly when the
      window is exact. The comment in the source says a row off the grid can only lie on
      the exclusive upper bound; a window that ends a fraction of a second into a bucket's
      first second shows otherwise, and for the intervals summed from whole hours so does
      every window that does not end on one. */
  lemma {:induction false} CountsEveryLogIff(w: Window, interval: Interval)
    requires w.from < w.to
    ensures (forall logs, buckets, level :: SeriesOf(buckets, w, interval, logs) ==>
               SumBuckets(buckets, level) == LogsIn(logs, w, level)) <==>
            WindowIsExact(w, interval)
  {
    if WindowIsExact(w, interval) {
      forall logs, buckets, level | SeriesOf(buckets, w, interval, logs)
        ensures SumBuckets(buckets, level) == LogsIn(logs, w, level)
      {
        NoLogIsLost(w, interval, logs, buckets, level);
      }
    } else {
      CountedIsWindowIff(w, interval);
      var t :| Counted(t, w, interval) != Within(w, t);
      var buckets := SomeSeries(w, interval.Step(), StoreRows([Entry(t, "ERROR")], w, interval));
      assert SeriesOf(buckets, w, interval, [Entry(t, "ERROR")]);
      OneLogSeries(w, interval, t, "ERROR", buckets);
    }
  }

  /** 10:30 to 12:30 by the hour, in minutes after the epoch: a log from 10:45 is in no
      bucket, and one from 12:45 is in one. */
  lemma {:induction false} PartialHoursAreMiscounted(level: string, early: seq<Bucket>, late: seq<Bucket>)
    requires var w := Window(630 * 60 * SECOND, 750 * 60 * SECOND);
             && SeriesOf(early, w, H1, [Entry(645 * 60 * SECOND, level)])
             && SeriesOf(late, w, H1, [Entry(765 * 60 * SECOND, level)])
    ensures Validated(Some(630 * 60 * SECOND), Some(750 * 60 * SECOND), H1, 0).Ok?
    ensures SumBuckets(early, level) == 0 && SumBuckets(late, level) == 1
  {
    var w := Window(630 * 60 * SECOND, 750 * 60 * SECOND);
    QuarterToElevenIsLost(w);
    HalfPastNoonIsCounted(w);
    OneLogSeries(w, H1, 645 * 60 * SECOND, level, early);
    OneLogSeries(w, H1, 765 * 60 * SECOND, level, late);
  }

  lemma {:induction false} QuarterToElevenIsLost(w: Window)
    requires w == Window(630 * 60 * SECOND, 750 * 60 * SECOND)
    ensures !Counted(645 * 60 * SECOND, w, H1)
  {
    assert HourStart(645 * 60 * SECOND) == 600 * 60 * SECOND;
  }

  lemma {:induction false} HalfPastNoonIsCounted(w: Window)
    requires w == Window(630 * 60 * SECOND, 750 * 60 * SECOND)
    ensures Counted(765 * 60 * SECOND, w, H1)
  {
    assert HourStart(765 * 60 * SECOND) == 720 * 60 * SECOND;
    LaterOnGrid(w, H1, 720 * 60 * SECOND);
  }

  /** A series exists for any rows, as Fold shows; here it is built row by row. */
  lemma {:induction false} SomeSeries(w: Window, step: int, rows: seq<BucketCount>) returns (buckets: seq<Bucket>)
    requires step > 0
    ensures AllRight(buckets, GridOf(w, step), rows)
    decreases |rows|
  {
    var grid := GridOf(w, step);
    if rows == [] {
      buckets := seq(|grid|, i requires 0 <= i < |grid| =>
        Bucket(grid[i], map["DEBUG" := 0, "INFO" := 0, "WARN" := 0, "ERROR" := 0]));
    } else {
      var before := SomeSeries(w, step, rows[..|rows| - 1]);
      var r := rows[|rows| - 1];
      buckets := seq(|grid|, i requires 0 <= i < |grid| =>
        if r.ts == grid[i] then Counting(before[i], r) else before[i]);
      AllStayRight(before, buckets, grid, rows[..|rows| - 1], r);
      assert rows == rows[..|rows| - 1] + [r];
    }
  }
}
