/** The capped store of refused ingest records (business/domain/rejectbus/rejectbus.go,
    with the two statements of stores/rejectdb it uses).

    Time is integer nanoseconds since the epoch. One call of `Store` reads the clock
    twice: once to decide from which hour to count, and again to stamp the rows. */
module RejectCap {
  import opened Utf8
  import opened Utf8Cut

  const HOUR: int := 3600 * 1_000_000_000
  const MAX_PAYLOAD_BYTES: nat := 4 * 1024
  const MAX_REASON_LEN: nat := 500
  const DEFAULT_HOURLY_CAP: nat := 100

  type SourceId = nat

  datatype Kind = Parse | Validate | OtherKind(name: string)

  datatype NewReject = NewReject(source: SourceId, kind: Kind, index: int, reason: seq<byte>, payload: seq<byte>)

  datatype Reject = Reject(source: SourceId, kind: Kind, index: int, reason: seq<byte>, payload: seq<byte>,
                           receivedAt: int)

  datatype StoreError = CountFailed | InsertFailed

  datatype Result<T> = Ok(value: T) | Err(error: StoreError)

  /** Euclidean division floors here, so this is the UTC hour for early times too. */
  function HourStart(t: int): int { t / HOUR * HOUR }

  function EffectiveCap(configured: int): nat
  {
    if configured <= 0 then DEFAULT_HOURLY_CAP else configured
  }

  /** SELECT count(1) ... WHERE source_id = $1 AND received_at >= $2. */
  function CountSince(rows: seq<Reject>, source: SourceId, since: int): nat
  {
    if rows == [] then 0
    else (if rows[0].source == source && rows[0].receivedAt >= since then 1 else 0)
         + CountSince(rows[1..], source, since)
  }

  /** The row one refusal becomes. */
  function ToReject(r: NewReject, now: int, redact: seq<byte> -> seq<byte>): Reject
  {
    Reject(r.source, if r.kind.OtherKind? then Validate else r.kind, r.index,
           Truncated(r.reason, MAX_REASON_LEN), Truncated(redact(r.payload), MAX_PAYLOAD_BYTES), now)
  }

  function ToRejects(rs: seq<NewReject>, now: int, redact: seq<byte> -> seq<byte>): (out: seq<Reject>)
    ensures |out| == |rs|
    ensures forall i :: 0 <= i < |rs| ==> out[i] == ToReject(rs[i], now, redact)
  {
    seq(|rs|, i requires 0 <= i < |rs| => ToReject(rs[i], now, redact))
  }

  lemma {:induction false} OneMoreRow(rs: seq<NewReject>, i: nat, now: int, redact: seq<byte> -> seq<byte>)
    requires i < |rs|
    ensures ToRejects(rs[..i + 1], now, redact) == ToRejects(rs[..i], now, redact) + [ToReject(rs[i], now, redact)]
  {
  }

  /** How much of a batch is kept, given what the hour of the first clock reading holds. */
  function Room(rows: seq<Reject>, batch: seq<NewReject>, cap: nat, countedAt: int): (n: nat)
    ensures n <= |batch|
  {
    if batch == [] then 0
    else
      var room := cap - CountSince(rows, batch[0].source, HourStart(countedAt));
      if room <= 0 then 0 else if |batch| > room then room else |batch|
  }

  function Stored(rows: seq<Reject>, batch: seq<NewReject>, cap: nat, countedAt: int, stampedAt: int,
                  redact: seq<byte> -> seq<byte>): seq<Reject>
  {
    rows + ToRejects(batch[..Room(rows, batch, cap, countedAt)], stampedAt, redact)
  }

  class RejectBus {
    var rows: seq<Reject>
    const hourlyCap: nat
    const redact: seq<byte> -> seq<byte>

    constructor (cap: int, scrubber: seq<byte> -> seq<byte>)
      ensures rows == [] && hourlyCap == EffectiveCap(cap) && redact == scrubber
    {
      rows := [];
      hourlyCap := if cap <= 0 then DEFAULT_HOURLY_CAP else cap;
      redact := scrubber;
    }

    /** The rows of a batch, built one by one. */
    method ToRows(batch: seq<NewReject>, now: int) returns (out: seq<Reject>)
      ensures out == ToRejects(batch, now, redact)
    {
      out := [];
      for i := 0 to |batch|
        invariant out == ToRejects(batch[..i], now, redact)
      {
        var kind := batch[i].kind;
        if kind != Parse && kind != Validate {
          kind := Validate;
        }
        var reason := Truncate(batch[i].reason, MAX_REASON_LEN);
        var payload := Truncate(redact(batch[i].payload), MAX_PAYLOAD_BYTES);
        out := out + [Reject(batch[i].source, kind, batch[i].index, reason, payload, now)];
        OneMoreRow(batch, i, now, redact);
      }
      assert batch[..|batch|] == batch;
    }

    /** countOk and insertOk say whether the two statements succeed. */
    method Store(rejects: seq<NewReject>, countedAt: int, stampedAt: int, countOk: bool, insertOk: bool)
      returns (r: Result<nat>)
      modifies this`rows
      ensures rejects == [] ==> r == Ok(0) && rows == old(rows)
      ensures rejects != [] && !countOk ==> r == Err(CountFailed) && rows == old(rows)
      ensures rejects != [] && countOk ==>
                var kept := Room(old(rows), rejects, hourlyCap, countedAt);
                if kept > 0 && !insertOk then r == Err(InsertFailed) && rows == old(rows)
                else r == Ok(kept) && rows == Stored(old(rows), rejects, hourlyCap, countedAt, stampedAt, redact)
    {
      if |rejects| == 0 {
        return Ok(0);
      }
      if !countOk {
        return Err(CountFailed);
      }

      var room := hourlyCap - CountSince(rows, rejects[0].source, HourStart(countedAt));
      if room <= 0 {
        return Ok(0);
      }

      var batch := rejects;
      if |batch| > room {
        batch := batch[..room];
      }
      assert batch == rejects[..Room(rows, rejects, hourlyCap, countedAt)];

      var out := ToRows(batch, stampedAt);
      if !insertOk {
        return Err(InsertFailed);
      }
      rows := rows + out;
      return Ok(|out|);
    }
  }

  // ---------------------------------------------------------------------------
  // The cap

  /** Rows of one source stamped in [from, until). */
  ghost function CountWithin(rows: seq<Reject>, source: SourceId, from: int, until: int): nat
  {
    if rows == [] then 0
    else (if rows[0].source == source && from <= rows[0].receivedAt < until then 1 else 0)
         + CountWithin(rows[1..], source, from, until)
  }

  /** Rows of one source in the h-th UTC hour. */
  ghost function InHour(rows: seq<Reject>, source: SourceId, h: int): nat
  {
    CountWithin(rows, source, h * HOUR, h * HOUR + HOUR)
  }

  /** No source has more rows in any UTC hour than the cap, and no row is from the future. */
  ghost predicate WithinCap(rows: seq<Reject>, cap: nat, now: int)
  {
    && (forall i :: 0 <= i < |rows| ==> rows[i].receivedAt <= now)
    && (forall source, h :: InHour(rows, source, h) <= cap)
  }

  lemma {:induction false} CountWithinAppend(a: seq<Reject>, b: seq<Reject>, source: SourceId, from: int, until: int)
    ensures CountWithin(a + b, source, from, until) == CountWithin(a, source, from, until)
            + CountWithin(b, source, from, until)
    decreases |a|
  {
    if a == [] {
      assert a + b == b;
    } else {
      assert (a + b)[1..] == a[1..] + b;
      CountWithinAppend(a[1..], b, source, from, until);
    }
  }

  lemma {:induction false} CountSinceIsWithin(rows: seq<Reject>, source: SourceId, from: int, until: int)
    requires forall i :: 0 <= i < |rows| ==> rows[i].receivedAt < until
    ensures CountSince(rows, source, from) == CountWithin(rows, source, from, until)
    decreases |rows|
  {
    if rows != [] {
      assert forall i :: 0 <= i < |rows| - 1 ==> rows[1..][i] == rows[i + 1];
      CountSinceIsWithin(rows[1..], source, from, until);
    }
  }

  lemma {:induction false} NoneWithin(rows: seq<Reject>, source: SourceId, from: int, until: int)
    requires forall i :: 0 <= i < |rows| ==> rows[i].source != source || !(from <= rows[i].receivedAt < until)
    ensures CountWithin(rows, source, from, until) == 0
    decreases |rows|
  {
    if rows != [] {
      assert forall i :: 0 <= i < |rows| - 1 ==> rows[1..][i] == rows[i + 1];
      NoneWithin(rows[1..], source, from, until);
    }
  }

  lemma {:induction false} AllWithin(rows: seq<Reject>, source: SourceId, from: int, until: int)
    requires forall i :: 0 <= i < |rows| ==> rows[i].source == source && from <= rows[i].receivedAt < until
    ensures CountWithin(rows, source, from, until) == |rows|
    decreases |rows|
  {
    if rows != [] {
      assert forall i :: 0 <= i < |rows| - 1 ==> rows[1..][i] == rows[i + 1];
      AllWithin(rows[1..], source, from, until);
    }
  }

  lemma {:induction false} CountAtMostAll(rows: seq<Reject>, source: SourceId, from: int, until: int)
    ensures CountWithin(rows, source, from, until) <= |rows|
    decreases |rows|
  {
    if rows != [] {
      CountAtMostAll(rows[1..], source, from, until);
    }
  }

  /** The records that could be kept all come from one source. */
  ghost predicate OneSource(batch: seq<NewReject>, cap: nat)
  {
    forall i :: 0 <= i < |batch| && i < cap ==> batch[i].source == batch[0].source
  }

  /** One batch keeps the cap of one source in one hour. */
  lemma {:induction false} StoreKeepsHour(rows: seq<Reject>, batch: seq<NewReject>, cap: nat, countedAt: int,
                                          stampedAt: int,
                                          redact: seq<byte> -> seq<byte>, source: SourceId, h: int)
    requires WithinCap(rows, cap, countedAt) && countedAt <= stampedAt && OneSource(batch, cap)
    ensures InHour(Stored(rows, batch, cap, countedAt, stampedAt, redact), source, h) <= cap
  {
    var n := Room(rows, batch, cap, countedAt);
    var added := ToRejects(batch[..n], stampedAt, redact);
    var from, until := h * HOUR, h * HOUR + HOUR;
    CountWithinAppend(rows, added, source, from, until);
    assert InHour(rows, source, h) <= cap;
    if n == 0 || source != batch[0].source || !(from <= stampedAt < until) {
      NoneWithin(added, source, from, until);
    } else {
      CountAtMostAll(added, source, from, until);
      if countedAt >= from {
        SameHour(countedAt, h);
        CountSinceIsWithin(rows, source, from, until);
      } else {
        NoneWithin(rows, source, from, until);
      }
    }
  }

  /** One batch keeps the cap, even when the hour changes between the two clock readings. */
  lemma {:induction false} StoreKeepsCap(rows: seq<Reject>, batch: seq<NewReject>, cap: nat, countedAt: int,
                                         stampedAt: int,
                                         redact: seq<byte> -> seq<byte>)
    requires WithinCap(rows, cap, countedAt) && countedAt <= stampedAt && OneSource(batch, cap)
    ensures WithinCap(Stored(rows, batch, cap, countedAt, stampedAt, redact), cap, stampedAt)
  {
    forall source, h
      ensures InHour(Stored(rows, batch, cap, countedAt, stampedAt, redact), source, h) <= cap
    {
      StoreKeepsHour(rows, batch, cap, countedAt, stampedAt, redact, source, h);
    }
  }

  lemma {:induction false} SameHour(t: int, h: int)
    requires h * HOUR <= t < h * HOUR + HOUR
    ensures HourStart(t) == h * HOUR
  {
    assert t / HOUR == h;
  }

  // ---------------------------------------------------------------------------
  // Runs

  datatype StoreCall = StoreCall(batch: seq<NewReject>, countedAt: int, stampedAt: int, countOk: bool, insertOk: bool)

  /** Calls one after another, with a clock that does not run backwards. */
  ghost predicate Sequential(calls: seq<StoreCall>, from: int)
    decreases |calls|
  {
    calls != [] ==> from <= calls[0].countedAt <= calls[0].stampedAt && Sequential(calls[1..], calls[0].stampedAt)
  }

  ghost function RowsAfter(rows: seq<Reject>, calls: seq<StoreCall>, cap: nat,
                           redact: seq<byte> -> seq<byte>): seq<Reject>
    decreases |calls|
  {
    if calls == [] then rows
    else
      var c := calls[0];
      RowsAfter(if c.countOk && c.insertOk then Stored(rows, c.batch, cap, c.countedAt, c.stampedAt, redact) else rows,
                calls[1..], cap, redact)
  }

  lemma {:induction false} RunKeepsCap(rows: seq<Reject>, calls: seq<StoreCall>, cap: nat,
                                       redact: seq<byte> -> seq<byte>, from: int)
    returns (now: int)
    requires WithinCap(rows, cap, from) && Sequential(calls, from)
    requires forall i :: 0 <= i < |calls| ==> OneSource(calls[i].batch, cap)
    ensures WithinCap(RowsAfter(rows, calls, cap, redact), cap, now)
    decreases |calls|
  {
    now := from;
    if calls != [] {
      var c := calls[0];
      assert forall i :: 0 <= i < |calls| - 1 ==> calls[1..][i] == calls[i + 1];
      if c.countOk && c.insertOk {
        StoreKeepsCap(rows, c.batch, cap, c.countedAt, c.stampedAt, redact);
        var stored := Stored(rows, c.batch, cap, c.countedAt, c.stampedAt, redact);
        now := RunKeepsCap(stored, calls[1..], cap, redact, c.stampedAt);
      } else {
        now := RunKeepsCap(rows, calls[1..], cap, redact, c.stampedAt);
      }
    }
  }

  /** Over any sequential run from an empty store, the rows of one source in any UTC
      hour never exceed the cap. */
  lemma {:induction false} HourlyCapHolds(calls: seq<StoreCall>, cap: nat, redact: seq<byte> -> seq<byte>, from: int,
                                          source: SourceId, hour: int)
    requires Sequential(calls, from)
    requires forall i :: 0 <= i < |calls| ==> OneSource(calls[i].batch, cap)
    ensures InHour(RowsAfter([], calls, cap, redact), source, hour) <= cap
  {
    var now := RunKeepsCap([], calls, cap, redact, from);
  }

  /** The single-source habit of the callers is what the cap rests on: a batch keeps it
      on every store if and only if the records that could be kept share one source. */
  lemma {:induction false} CapNeedsOneSource(batch: seq<NewReject>, cap: nat, redact: seq<byte> -> seq<byte>)
    ensures OneSource(batch, cap) <==>
            forall rows, countedAt, stampedAt :: WithinCap(rows, cap, countedAt) && countedAt <= stampedAt ==>
                   WithinCap(Stored(rows, batch, cap, countedAt, stampedAt, redact), cap, stampedAt)
  {
    if OneSource(batch, cap) {
      forall rows, countedAt, stampedAt | WithinCap(rows, cap, countedAt) && countedAt <= stampedAt
        ensures WithinCap(Stored(rows, batch, cap, countedAt, stampedAt, redact), cap, stampedAt)
      {
        StoreKeepsCap(rows, batch, cap, countedAt, stampedAt, redact);
      }
    } else {
      var i :| 0 <= i < |batch| && i < cap && batch[i].source != batch[0].source;
      FullForOther(batch, cap, redact, i);
    }
  }

  /** A store already full for the source of record i, and empty for the first record's. */
  lemma {:induction false} FullForOther(batch: seq<NewReject>, cap: nat, redact: seq<byte> -> seq<byte>, i: nat)
    requires i < |batch| && i < cap && batch[i].source != batch[0].source
    ensures exists rows :: WithinCap(rows, cap, 0) && !WithinCap(Stored(rows, batch, cap, 0, 0, redact), cap, 0)
  {
    var other := batch[i].source;
    var rows := seq(cap, k => Reject(other, Parse, 0, [], [], 0));
    forall source: SourceId, h: int
      ensures InHour(rows, source, h) <= cap
    {
      CountAtMostAll(rows, source, h * HOUR, h * HOUR + HOUR);
    }
    AllWithin(rows, other, 0 * HOUR, 0 * HOUR + HOUR);
    NoneWithin(rows, batch[0].source, 0, HOUR);
    CountSinceIsWithin(rows, batch[0].source, 0, HOUR);
    var n := Room(rows, batch, cap, 0);
    assert i < n;
    var added := ToRejects(batch[..n], 0, redact);
    CountsItsOwn(added, i, other);
    CountWithinAppend(rows, added, other, 0 * HOUR, 0 * HOUR + HOUR);
    assert InHour(rows + added, other, 0) > cap;
    assert WithinCap(rows, cap, 0) && !WithinCap(Stored(rows, batch, cap, 0, 0, redact), cap, 0);
  }

  lemma {:induction false} CountsItsOwn(rows: seq<Reject>, i: nat, source: SourceId)
    requires i < |rows| && rows[i].source == source && rows[i].receivedAt == 0
    ensures CountWithin(rows, source, 0 * HOUR, 0 * HOUR + HOUR) >= 1
    decreases i
  {
    if i > 0 {
      CountsItsOwn(rows[1..], i - 1, source);
    }
  }
}
