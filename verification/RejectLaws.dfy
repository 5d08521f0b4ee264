/** What the capped store of refused records keeps (business/domain/rejectbus/rejectbus.go):
    as much as the hour has room for, and what of each record. */
module RejectLaws {
  import opened Utf8
  import opened Utf8Cut
  import opened RejectCap

  /** A text as it is stored: whole when it fits, otherwise a part of its beginning and the
      marker. */
  ghost predicate StoredText(out: seq<byte>, text: seq<byte>, n: nat)
  {
    if |text| <= n then out == text else exists k :: 0 <= k <= n && out == text[..k] + MARKER
  }

  /** What a row says of its record. */
  ghost predicate RowOf(row: Reject, r: NewReject, at: int, redact: seq<byte> -> seq<byte>)
  {
    && row.source == r.source && row.index == r.index && row.receivedAt == at
    && row.kind in {Parse, Validate} && (row.kind == Parse <==> r.kind == Parse)
    && StoredText(row.reason, r.reason, 500) && StoredText(row.payload, redact(r.payload), 4096)
  }

  lemma {:induction false} TextIsStored(text: seq<byte>, n: nat)
    ensures StoredText(Truncated(text, n), text, n)
  {
    if |text| > n {
      var k := |Cut(text[..n])|;
      CutIsPrefix(text[..n]);
      assert text[..n][..k] == text[..k];
    }
  }

  lemma {:induction false} CutIsPrefix(s: seq<byte>)
    ensures Cut(s) <= s
    decreases |s|
  {
    if s != [] && Cut(s) != s {
      CutIsPrefix(s[..|s| - 1]);
    }
  }

  function Smaller(a: int, b: int): int { if a < b then a else b }

  /** What a batch adds: one row for each record of a beginning of it, as long as what the
      hour has left, or the whole batch when that is shorter. `h` is the hour of the first
      clock reading, and nothing in the store is from later than that. */
  lemma {:induction false} BatchFillsTheHour(rows: seq<Reject>, batch: seq<NewReject>, cap: nat, countedAt: int,
                                             stampedAt: int, redact: seq<byte> -> seq<byte>, h: int)
    requires batch != [] && h * HOUR <= countedAt < h * HOUR + HOUR
    requires forall i :: 0 <= i < |rows| ==> rows[i].receivedAt <= countedAt
    ensures var after := Stored(rows, batch, cap, countedAt, stampedAt, redact);
            var left := cap - InHour(rows, batch[0].source, h);
            && rows <= after
            && |after| - |rows| == (if left <= 0 then 0 else Smaller(|batch|, left))
            && forall i :: 0 <= i < |after| - |rows| ==> RowOf(after[|rows| + i], batch[i], stampedAt, redact)
  {
    SameHour(countedAt, h);
    CountSinceIsWithin(rows, batch[0].source, h * HOUR, h * HOUR + HOUR);
    var after := Stored(rows, batch, cap, countedAt, stampedAt, redact);
    var n := Room(rows, batch, cap, countedAt);
    assert |after| - |rows| == n;
    forall i | 0 <= i < n
      ensures RowOf(after[|rows| + i], batch[i], stampedAt, redact)
    {
      var r := batch[..n][i];
      assert after[|rows| + i] == ToReject(r, stampedAt, redact);
      TextIsStored(r.reason, 500);
      TextIsStored(redact(r.payload), 4096);
    }
  }

  // ---------------------------------------------------------------------------
  // Runs

  ghost predicate AllFrom(batch: seq<NewReject>, source: SourceId)
  {
    forall i :: 0 <= i < |batch| ==> batch[i].source == source
  }

  /** The statements work, the records share a source, and the hour does not change between
      the two clock readings. */
  ghost predicate Plain(c: StoreCall)
  {
    && c.countOk && c.insertOk && c.batch != [] && AllFrom(c.batch, c.batch[0].source)
    && c.countedAt / HOUR == c.stampedAt / HOUR
  }

  ghost predicate AllPlain(calls: seq<StoreCall>)
    decreases |calls|
  {
    calls != [] ==> Plain(calls[0]) && AllPlain(calls[1..])
  }

  /** The records of a call, if they are from the source and were refused in the hour. */
  ghost function Offers(source: SourceId, h: int): StoreCall -> nat
  {
    (c: StoreCall) => if c.batch != [] && c.batch[0].source == source && c.countedAt / HOUR == h then |c.batch| else 0
  }

  lemma {:induction false} HourBounds(t: int, h: int)
    ensures t / HOUR == h <==> h * HOUR <= t < h * HOUR + HOUR
  {
  }

  /** One batch, on the count of an hour. */
  lemma {:induction false} BatchCounts(rows: seq<Reject>, c: StoreCall, cap: nat, redact: seq<byte> -> seq<byte>,
                                       source: SourceId, h: int)
    requires Plain(c) && WithinCap(rows, cap, c.countedAt) && c.countedAt <= c.stampedAt
    ensures var after := Stored(rows, c.batch, cap, c.countedAt, c.stampedAt, redact);
            InHour(after, source, h) ==
            if c.batch[0].source == source && c.countedAt / HOUR == h then
              Smaller(cap, InHour(rows, source, h) + |c.batch|)
            else InHour(rows, source, h)
  {
    var from, until := h * HOUR, h * HOUR + HOUR;
    var n := Room(rows, c.batch, cap, c.countedAt);
    var added := ToRejects(c.batch[..n], c.stampedAt, redact);
    CountWithinAppend(rows, added, source, from, until);
    HourBounds(c.countedAt, h);
    HourBounds(c.stampedAt, h);
    assert InHour(rows, source, h) <= cap;
    if c.batch[0].source == source && c.countedAt / HOUR == h {
      BatchFillsTheHour(rows, c.batch, cap, c.countedAt, c.stampedAt, redact, h);
      AllWithin(added, source, from, until);
    } else {
      NoneWithin(added, source, from, until);
    }
  }

  /** One more batch keeps the cap, and adds what it offers to an hour up to it. */
  lemma {:induction false} BatchFills(rows: seq<Reject>, c: StoreCall, cap: nat, redact: seq<byte> -> seq<byte>,
                                      source: SourceId, h: int, next: seq<Reject>)
    requires Plain(c) && WithinCap(rows, cap, c.countedAt) && c.countedAt <= c.stampedAt
    requires next == Stored(rows, c.batch, cap, c.countedAt, c.stampedAt, redact)
    ensures WithinCap(next, cap, c.stampedAt)
    ensures InHour(next, source, h)
         == Smaller(cap, InHour(rows, source, h) + Offers(source, h)(c))
  {
    StoreKeepsCap(rows, c.batch, cap, c.countedAt, c.stampedAt, redact);
    BatchCounts(rows, c, cap, redact, source, h);
    assert InHour(rows, source, h) <= cap;
  }

  lemma {:induction false} CappedTwice(cap: nat, held: nat, first: nat, rest: nat)
    ensures Smaller(cap, Smaller(cap, held + first) + rest) == Smaller(cap, held + (first + rest))
  {
  }

  /** A meter that every call fills up to the cap is filled up to the cap by a run. */
  ghost function Fold<S, C>(s: S, calls: seq<C>, step: (S, C) -> S): S
    decreases |calls|
  {
    if calls == [] then s else Fold(step(s, calls[0]), calls[1..], step)
  }

  ghost predicate AllFill<S(!new), C(!new)>(s: S, calls: seq<C>, step: (S, C) -> S, cap: nat, held: S -> nat,
                                            offers: C -> nat)
    decreases |calls|
  {
    calls != [] ==>
      && held(step(s, calls[0])) == Smaller(cap, held(s) + offers(calls[0]))
      && AllFill(step(s, calls[0]), calls[1..], step, cap, held, offers)
  }

  ghost function Sum<C>(calls: seq<C>, offers: C -> nat): nat
    decreases |calls|
  {
    if calls == [] then 0 else offers(calls[0]) + Sum(calls[1..], offers)
  }

  lemma {:induction false} FoldFills<S(!new), C(!new)>(s: S, calls: seq<C>, step: (S, C) -> S, cap: nat,
                                                       held: S -> nat, offers: C -> nat)
    requires held(s) <= cap && AllFill(s, calls, step, cap, held, offers)
    ensures held(Fold(s, calls, step)) == Smaller(cap, held(s) + Sum(calls, offers))
    decreases |calls|
  {
    if calls != [] {
      FoldFills(step(s, calls[0]), calls[1..], step, cap, held, offers);
      CappedTwice(cap, held(s), offers(calls[0]), Sum(calls[1..], offers));
    }
  }

  ghost function Held(source: SourceId, h: int): seq<Reject> -> nat
  {
    (rows: seq<Reject>) => InHour(rows, source, h)
  }

  ghost function Storing(cap: nat, redact: seq<byte> -> seq<byte>): (seq<Reject>, StoreCall) -> seq<Reject>
  {
    (rows: seq<Reject>, c: StoreCall) => Stored(rows, c.batch, cap, c.countedAt, c.stampedAt, redact)
  }

  lemma {:induction false} RunIsFold(rows: seq<Reject>, calls: seq<StoreCall>, cap: nat,
                                     redact: seq<byte> -> seq<byte>)
    requires AllPlain(calls)
    ensures RowsAfter(rows, calls, cap, redact) == Fold(rows, calls, Storing(cap, redact))
    decreases |calls|
  {
    if calls != [] {
      RunIsFold(Storing(cap, redact)(rows, calls[0]), calls[1..], cap, redact);
    }
  }

  lemma {:induction false} RunFills(rows: seq<Reject>, calls: seq<StoreCall>, cap: nat,
                                    redact: seq<byte> -> seq<byte>, from: int, source: SourceId, h: int)
    requires WithinCap(rows, cap, from) && Sequential(calls, from) && AllPlain(calls)
    ensures AllFill(rows, calls, Storing(cap, redact), cap, Held(source, h), Offers(source, h))
    decreases |calls|
  {
    if calls != [] {
      var c := calls[0];
      var next := Storing(cap, redact)(rows, c);
      BatchFills(rows, c, cap, redact, source, h, next);
      RunFills(next, calls[1..], cap, redact, c.stampedAt, source, h);
    }
  }

  lemma {:induction false} RunFillsUp(rows: seq<Reject>, calls: seq<StoreCall>, cap: nat,
                                      redact: seq<byte> -> seq<byte>, held: seq<Reject> -> nat,
                                      offers: StoreCall -> nat)
    requires held(rows) <= cap && AllPlain(calls) && AllFill(rows, calls, Storing(cap, redact), cap, held, offers)
    ensures held(RowsAfter(rows, calls, cap, redact)) == Smaller(cap, held(rows) + Sum(calls, offers))
  {
    FoldFills(rows, calls, Storing(cap, redact), cap, held, offers);
    RunIsFold(rows, calls, cap, redact);
  }

  lemma {:induction false} CapBounds(rows: seq<Reject>, cap: nat, now: int, source: SourceId, h: int)
    requires WithinCap(rows, cap, now)
    ensures Held(source, h)(rows) <= cap
  {
    assert InHour(rows, source, h) <= cap;
  }

  /** Nothing is dropped before the cap is reached. Over every sequential run of single-source
      batches whose calls work and stay within an hour, an hour holds of a source exactly
      what it held and what was refused in it, or the cap when that is less. */
  lemma {:induction false} HourHoldsWhatWasOffered(rows: seq<Reject>, calls: seq<StoreCall>, cap: nat,
                                                   redact: seq<byte> -> seq<byte>, from: int, source: SourceId,
                                                   h: int)
    requires WithinCap(rows, cap, from) && Sequential(calls, from) && AllPlain(calls)
    ensures InHour(RowsAfter(rows, calls, cap, redact), source, h)
         == Smaller(cap, InHour(rows, source, h) + Sum(calls, Offers(source, h)))
  {
    CapBounds(rows, cap, from, source, h);
    RunFills(rows, calls, cap, redact, from, source, h);
    RunFillsUp(rows, calls, cap, redact, Held(source, h), Offers(source, h));
  }
}
