/** How much the event limiter of app/domain/clienterrorapp/ingest.go admits, and how long
    it makes a caller wait, read off the history of calls: no bucket is mentioned.

    An admitted event uses up burst; every second gives two events back, up to the burst.
    A call is admitted exactly when no earlier call of its address starts a stretch in which
    the admitted events and the new ones would exceed the burst and the inflow. */
module AdmissionLaw {
  import opened IngestLimiter

  /** `events`, all charged from `since` on, are paid at `now` by a burst and two events a
      second. */
  predicate Paid(events: int, since: int, now: int)
  {
    (events - 240) * 1_000_000_000 <= 2 * (now - since)
  }

  /** The events the new limiter admitted for `key` in a run, from its i-th call on. */
  ghost function AdmittedFrom(created: int, calls: seq<Call>, i: nat, key: Key): nat
    requires i <= |calls|
  {
    var answers := Answers(LimiterState(map[], created), calls);
    AnswersLength(LimiterState(map[], created), calls);
    Admitted(calls[i..], answers[i..], key)
  }

  /** n more events for `key` at `now` keep within the burst and the inflow since each of its
      earlier calls. */
  ghost predicate PaidSinceEachCall(created: int, calls: seq<Call>, key: Key, n: int, now: int)
  {
    forall i :: 0 <= i < |calls| && calls[i].key == key ==>
      Paid(AdmittedFrom(created, calls, i, key) + n, calls[i].now, now)
  }

  // ---------------------------------------------------------------------------
  // Runs grow at their end

  lemma {:induction false} PlainAfterLast(buckets: map<Key, Bucket>, calls: seq<Call>, c: Call)
    ensures PlainAfter(buckets, calls + [c]) == Charge(PlainAfter(buckets, calls), c).0
    decreases |calls|
  {
    if calls == [] {
      assert [c][1..] == [];
    } else {
      assert (calls + [c])[1..] == calls[1..] + [c];
      PlainAfterLast(Charge(buckets, calls[0]).0, calls[1..], c);
    }
  }

  lemma {:induction false} AdmittedLast(calls: seq<Call>, answers: seq<Answer>, c: Call, a: Answer, key: Key)
    requires |calls| == |answers|
    ensures Admitted(calls + [c], answers + [a], key)
         == Admitted(calls, answers, key) + (if c.key == key && a.ok then c.n else 0)
    decreases |calls|
  {
    if calls != [] {
      assert (calls + [c])[1..] == calls[1..] + [c] && (answers + [a])[1..] == answers[1..] + [a];
      AdmittedLast(calls[1..], answers[1..], c, a, key);
    }
  }

  lemma {:induction false} OrderedPrefix(calls: seq<Call>, c: Call, from: int)
    requires Ordered(calls + [c], from)
    ensures Ordered(calls, from) && EndTime(calls, from) <= c.now
    decreases |calls|
  {
    if calls != [] {
      assert (calls + [c])[1..] == calls[1..] + [c];
      OrderedPrefix(calls[1..], c, calls[0].now);
    }
  }

  /** One more call adds what it is granted to every stretch that ends with it. */
  lemma {:induction false} AdmittedFromLast(created: int, calls: seq<Call>, c: Call, i: nat, key: Key)
    requires i <= |calls|
    ensures AdmittedFrom(created, calls + [c], i, key) == AdmittedFrom(created, calls, i, key)
            + (if c.key == key && Allowed(StateAfter(LimiterState(map[], created), calls), c).1.ok then c.n else 0)
  {
    var start := LimiterState(map[], created);
    var a := Allowed(StateAfter(start, calls), c).1;
    LastAnswer(start, calls, c);
    AnswersLength(start, calls);
    var answers := Answers(start, calls);
    assert (calls + [c])[i..] == calls[i..] + [c] && (answers + [a])[i..] == answers[i..] + [a];
    AdmittedLast(calls[i..], answers[i..], c, a, key);
  }

  lemma {:induction false} NothingYet(created: int, calls: seq<Call>, key: Key)
    ensures AdmittedFrom(created, calls, |calls|, key) == 0
  {
  }

  // ---------------------------------------------------------------------------
  // The bucket holds what the history leaves

  /** The tokens of `key` at `now` in the limiter that never deletes a bucket. */
  ghost function Held(calls: seq<Call>, key: Key, now: int): real
  {
    Refilled(BucketOf(PlainAfter(map[], calls), key, now), now)
  }

  lemma {:induction false} AnswerIsPlain(created: int, calls: seq<Call>, c: Call)
    requires Ordered(calls + [c], created)
    ensures Allowed(StateAfter(LimiterState(map[], created), calls), c).1 == Charge(PlainAfter(map[], calls), c).1
  {
    var start := LimiterState(map[], created);
    SweepIsInvisible(start, calls + [c], created);
    LastAnswer(start, calls, c);
    LastPlainAnswer(map[], calls, c);
    var xs, ys := Answers(start, calls + [c]), PlainAnswers(map[], calls + [c]);
    assert xs[|xs| - 1] == ys[|ys| - 1];
  }

  lemma {:induction false} HeldAfterOther(calls: seq<Call>, c: Call, key: Key, now: int)
    requires c.key != key
    ensures Held(calls + [c], key, now) == Held(calls, key, now)
  {
    PlainAfterLast(map[], calls, c);
  }

  lemma {:induction false} HeldAfterOwn(calls: seq<Call>, c: Call, now: int)
    ensures var left := Held(calls, c.key, c.now)
                        - (if Charge(PlainAfter(map[], calls), c).1.ok then c.n as real else 0.0);
            Held(calls + [c], c.key, now) == MinReal(240.0, left + Seconds(now - c.now) * 2.0)
  {
    PlainAfterLast(map[], calls, c);
  }

  /** x tokens are held exactly when x is within the burst and every stretch since a call of
      the key pays for x more. Tokens are real, so x is too. */
  ghost predicate Covered(created: int, calls: seq<Call>, key: Key, x: real, now: int)
  {
    && x <= 240.0
    && forall i :: 0 <= i < |calls| && calls[i].key == key ==>
         AdmittedFrom(created, calls, i, key) as real + x <= 240.0 + 2.0 * Seconds(now - calls[i].now)
  }

  lemma {:induction false} CoveredAfterOther(created: int, calls: seq<Call>, c: Call, key: Key, x: real, now: int)
    requires c.key != key
    ensures Covered(created, calls + [c], key, x, now) <==> Covered(created, calls, key, x, now)
  {
    forall i | 0 <= i < |calls|
      ensures AdmittedFrom(created, calls + [c], i, key) == AdmittedFrom(created, calls, i, key)
    {
      AdmittedFromLast(created, calls, c, i, key);
    }
  }

  /** A call of the key moves the question back to its own instant. */
  lemma {:induction false} CoveredAfterOwn(created: int, calls: seq<Call>, c: Call, x: real, now: int, used: nat)
    requires used == if Allowed(StateAfter(LimiterState(map[], created), calls), c).1.ok then c.n else 0
    ensures Covered(created, calls + [c], c.key, x, now) <==>
            x <= 240.0 && Covered(created, calls, c.key, x + used as real - 2.0 * Seconds(now - c.now), c.now)
  {
    var all := calls + [c];
    NothingYet(created, calls, c.key);
    AdmittedFromLast(created, calls, c, |calls|, c.key);
    forall i | 0 <= i < |calls|
      ensures AdmittedFrom(created, all, i, c.key) == AdmittedFrom(created, calls, i, c.key) + used
    {
      AdmittedFromLast(created, calls, c, i, c.key);
    }
    assert all[|calls|] == c && forall i :: 0 <= i < |calls| ==> all[i] == calls[i];
  }

  lemma {:induction false} HeldIffCovered(created: int, calls: seq<Call>, key: Key, x: real, now: int)
    requires Ordered(calls, created)
    ensures x <= Held(calls, key, now) <==> Covered(created, calls, key, x, now)
    decreases |calls|
  {
    if calls != [] {
      var before, c := calls[..|calls| - 1], calls[|calls| - 1];
      assert calls == before + [c];
      OrderedPrefix(before, c, created);
      if c.key != key {
        HeldAfterOther(before, c, key, now);
        CoveredAfterOther(created, before, c, key, x, now);
        HeldIffCovered(created, before, key, x, now);
      } else {
        AnswerIsPlain(created, before, c);
        var used := if Charge(PlainAfter(map[], before), c).1.ok then c.n else 0;
        HeldAfterOwn(before, c, now);
        CoveredAfterOwn(created, before, c, x, now, used);
        HeldIffCovered(created, before, key, x + used as real - 2.0 * Seconds(now - c.now), c.now);
      }
    }
  }

  // ---------------------------------------------------------------------------
  // The laws

  lemma {:induction false} PaidInTokens(events: int, since: int, now: int)
    ensures Paid(events, since, now) <==> events as real <= 240.0 + 2.0 * Seconds(now - since)
  {
    assert ((events - 240) * 1_000_000_000) as real == (events as real - 240.0) * 1_000_000_000.0;
    assert (2 * (now - since)) as real == 2.0 * Seconds(now - since) * 1_000_000_000.0;
  }

  lemma {:induction false} CoveredIffPaid(created: int, calls: seq<Call>, key: Key, n: nat, now: int, later: int)
    ensures Covered(created, calls, key, n as real - 2.0 * Seconds(later - now), now) <==>
            Paid(n, now, later) && PaidSinceEachCall(created, calls, key, n, later)
  {
    PaidInTokens(n, now, later);
    forall i | 0 <= i < |calls|
      ensures Paid(AdmittedFrom(created, calls, i, key) + n, calls[i].now, later) <==>
              AdmittedFrom(created, calls, i, key) as real + (n as real - 2.0 * Seconds(later - now))
                <= 240.0 + 2.0 * Seconds(now - calls[i].now)
    {
      PaidInTokens(AdmittedFrom(created, calls, i, key) + n, calls[i].now, later);
    }
  }

  /** Exact admission. After any run of a new limiter, a call of n events is admitted if and
      only if n is within the burst and, for every earlier call of its address, the events
      admitted for it from that call on, plus n, are at most 240 and two a second since. */
  lemma {:induction false} AdmittedIff(created: int, calls: seq<Call>, c: Call)
    requires Ordered(calls + [c], created)
    ensures Allowed(StateAfter(LimiterState(map[], created), calls), c).1.ok <==>
            c.n <= 240 && PaidSinceEachCall(created, calls, c.key, c.n, c.now)
  {
    OrderedPrefix(calls, c, created);
    AnswerIsPlain(created, calls, c);
    HeldIffCovered(created, calls, c.key, c.n as real, c.now);
    CoveredIffPaid(created, calls, c.key, c.n, c.now, c.now);
  }

  /** n events for `key` have been refilled `elapsed` after `now`, if nothing is charged. */
  ghost predicate RefilledBy(created: int, calls: seq<Call>, key: Key, n: nat, now: int, elapsed: int)
  {
    Paid(n, now, now + elapsed) && PaidSinceEachCall(created, calls, key, n, now + elapsed)
  }

  /** The whole seconds are enough for the shortfall and at most a second too many. */
  lemma {:induction false} WaitIsTight(n: nat, tokens: real, elapsed: int)
    requires tokens < n as real && elapsed >= 0
    ensures var wait := RetryAfter(WaitFor(n, tokens)) * SECOND;
            && tokens + 2.0 * Seconds(wait) >= n as real
            && (tokens + 2.0 * Seconds(elapsed) >= n as real ==> wait <= elapsed + SECOND)
  {
    WaitCoversShortfall(n, tokens, RetryAfter(WaitFor(n, tokens)) * SECOND);
    var x := (n as real - tokens) / Rate() * SECOND as real;
    assert WaitFor(n, tokens) == x.Floor + SECOND;
    if tokens + 2.0 * Seconds(elapsed) >= n as real {
      assert elapsed as real >= x;
    }
  }

  /** Exact waiting, up to a second. A refused caller is told to wait until the events it
      asked for have been refilled, and no wait that is shorter by more than a second
      would be enough. */
  lemma {:induction false} WaitIff(created: int, calls: seq<Call>, c: Call, elapsed: int)
    requires Ordered(calls + [c], created) && elapsed >= 0
    requires !Allowed(StateAfter(LimiterState(map[], created), calls), c).1.ok
    ensures var answer := Allowed(StateAfter(LimiterState(map[], created), calls), c).1;
            var wait := RetryAfter(answer.wait) * 1_000_000_000;
            && RefilledBy(created, calls, c.key, c.n, c.now, wait)
            && (RefilledBy(created, calls, c.key, c.n, c.now, elapsed) ==> wait <= elapsed + 1_000_000_000)
  {
    OrderedPrefix(calls, c, created);
    AnswerIsPlain(created, calls, c);
    var tokens := Held(calls, c.key, c.now);
    var wait := RetryAfter(WaitFor(c.n, tokens)) * SECOND;
    WaitIsTight(c.n, tokens, elapsed);
    forall d: int
      ensures RefilledBy(created, calls, c.key, c.n, c.now, d) <==> tokens + 2.0 * Seconds(d) >= c.n as real
    {
      CoveredIffPaid(created, calls, c.key, c.n, c.now, c.now + d);
      HeldIffCovered(created, calls, c.key, c.n as real - 2.0 * Seconds(d), c.now);
    }
  }
}
