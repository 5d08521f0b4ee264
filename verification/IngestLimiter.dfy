/** The token bucket that guards the anonymous error-report endpoint
    (app/domain/clienterrorapp/ingest.go).

    Time is integer nanoseconds, as Go's time.Time and time.Duration keep it, and
    tokens are reals: rounding of float64 is not part of the model.

    `Allow` is the operation as written, with its opportunistic sweep of idle
    buckets; `Charge` is the same operation on a map that is never swept. The main
    results are that the two cannot be told apart, that no address gets more than a
    burst plus the sustained rate in any interval, and that the wait a refused
    caller is told to observe is enough. */
module IngestLimiter {

  const RATE_PER_MINUTE: nat := 120
  const BURST: nat := 240
  const SECOND: int := 1_000_000_000
  const SWEEP_INTERVAL: int := 10 * 60 * SECOND

  type Key = string

  datatype Bucket = Bucket(tokens: real, last: int)

  datatype Answer = Answer(ok: bool, wait: int)

  datatype Call = Call(key: Key, n: nat, now: int)

  datatype LimiterState = LimiterState(buckets: map<Key, Bucket>, swept: int)

  // ---------------------------------------------------------------------------
  // One call, as a function of the state

  /** Tokens per second. */
  function Rate(): (r: real)
    ensures r == 2.0
  {
    RATE_PER_MINUTE as real / 60.0
  }

  function MinReal(x: real, y: real): real { if x <= y then x else y }

  function Seconds(duration: int): real { duration as real / 1_000_000_000.0 }

  /** Tokens available at `now`: what the bucket held plus the refill, capped. */
  function Refilled(b: Bucket, now: int): real
  {
    MinReal(BURST as real, b.tokens + Seconds(now - b.last) * Rate())
  }

  /** The bucket of `key`, or the full one that is created for a new address. */
  function BucketOf(buckets: map<Key, Bucket>, key: Key, now: int): Bucket
  {
    if key in buckets then buckets[key] else Bucket(BURST as real, now)
  }

  /** A duration as Go converts it from a float64: truncated toward zero. */
  function TruncatedDuration(x: real): int
  {
    if x >= 0.0 then x.Floor else -((-x).Floor)
  }

  function WaitFor(n: nat, tokens: real): int
  {
    TruncatedDuration((n as real - tokens) / Rate() * SECOND as real) + SECOND
  }

  /** Refill, then charge n tokens if they are there. */
  function Charge(buckets: map<Key, Bucket>, c: Call): (map<Key, Bucket>, Answer)
  {
    var tokens := Refilled(BucketOf(buckets, c.key, c.now), c.now);
    if tokens < c.n as real then
      (buckets[c.key := Bucket(tokens, c.now)], Answer(false, WaitFor(c.n, tokens)))
    else
      (buckets[c.key := Bucket(tokens - c.n as real, c.now)], Answer(true, 0))
  }

  /** The map without the buckets that have been idle longer than the interval. */
  function Swept(buckets: map<Key, Bucket>, now: int): map<Key, Bucket>
  {
    map k | k in buckets && now - buckets[k].last <= SWEEP_INTERVAL :: buckets[k]
  }

  function AfterSweep(s: LimiterState, now: int): LimiterState
  {
    if now - s.swept > SWEEP_INTERVAL then LimiterState(Swept(s.buckets, now), now) else s
  }

  function Allowed(s: LimiterState, c: Call): (LimiterState, Answer)
  {
    var s1 := AfterSweep(s, c.now);
    var (buckets, answer) := Charge(s1.buckets, c);
    (s1.(buckets := buckets), answer)
  }

  /** What the handler puts in the Retry-After header: whole seconds, at least one. */
  function RetryAfter(wait: int): int
  {
    if wait / SECOND > 1 then wait / SECOND else 1
  }

  // ---------------------------------------------------------------------------
  // The limiter object

  class Limiter {
    var buckets: map<Key, Bucket>
    var swept: int

    ghost function State(): LimiterState
      reads this
    {
      LimiterState(buckets, swept)
    }

    constructor (now: int)
      ensures State() == LimiterState(map[], now)
    {
      buckets, swept := map[], now;
    }

    /** Deletes every bucket that has been idle longer than the interval. */
    method SweepIdle(now: int)
      modifies this`buckets
      ensures buckets == Swept(old(buckets), now)
    {
      var keys := buckets.Keys;
      ghost var start := buckets;
      while keys != {}
        invariant keys <= buckets.Keys <= start.Keys
        invariant forall k :: k in buckets ==> buckets[k] == start[k]
        invariant forall k :: k in start && k !in keys ==>
                    (k in buckets <==> now - start[k].last <= SWEEP_INTERVAL)
        decreases keys
      {
        var k :| k in keys;
        if now - buckets[k].last > SWEEP_INTERVAL {
          buckets := buckets - {k};
        }
        keys := keys - {k};
      }
    }

    method Allow(key: Key, n: nat, now: int) returns (ok: bool, wait: int)
      modifies this
      ensures (State(), Answer(ok, wait)) == Allowed(old(State()), Call(key, n, now))
      ensures now - old(swept) > SWEEP_INTERVAL ==>
                swept == now && forall k :: k in buckets ==> now - buckets[k].last <= 600 * SECOND
    {
      if now - swept > SWEEP_INTERVAL {
        SweepIdle(now);
        swept := now;
      }

      if key !in buckets {
        buckets := buckets[key := Bucket(BURST as real, now)];
      }
      var b := buckets[key];
      var tokens := Refilled(b, now);
      buckets := buckets[key := Bucket(tokens, now)];

      if tokens < n as real {
        assert buckets == Charge(AfterSweep(old(State()), now).buckets, Call(key, n, now)).0;
        return false, WaitFor(n, tokens);
      }

      buckets := buckets[key := Bucket(tokens - n as real, now)];
      assert buckets == Charge(AfterSweep(old(State()), now).buckets, Call(key, n, now)).0;
      return true, 0;
    }
  }

  // ---------------------------------------------------------------------------
  // Runs

  /** Calls arrive at non-decreasing times, none before `from`. */
  ghost predicate Ordered(calls: seq<Call>, from: int)
  {
    calls != [] ==> from <= calls[0].now && Ordered(calls[1..], calls[0].now)
  }

  ghost function Answers(s: LimiterState, calls: seq<Call>): seq<Answer>
    decreases |calls|
  {
    if calls == [] then []
    else
      var (s1, a) := Allowed(s, calls[0]);
      [a] + Answers(s1, calls[1..])
  }

  ghost function StateAfter(s: LimiterState, calls: seq<Call>): LimiterState
    decreases |calls|
  {
    if calls == [] then s else StateAfter(Allowed(s, calls[0]).0, calls[1..])
  }

  ghost function EndTime(calls: seq<Call>, from: int): int
    decreases |calls|
  {
    if calls == [] then from else EndTime(calls[1..], calls[0].now)
  }

  /** The limiter that never deletes a bucket. */
  ghost function PlainAnswers(buckets: map<Key, Bucket>, calls: seq<Call>): seq<Answer>
    decreases |calls|
  {
    if calls == [] then []
    else
      var (b1, a) := Charge(buckets, calls[0]);
      [a] + PlainAnswers(b1, calls[1..])
  }

  /** Every bucket holds between nothing and a burst and was last used by time t. */
  ghost predicate BucketsOk(buckets: map<Key, Bucket>, t: int)
  {
    forall k :: k in buckets ==> 0.0 <= buckets[k].tokens <= BURST as real && buckets[k].last <= t
  }

  lemma CallKeepsRange(s: LimiterState, c: Call, from: int)
    requires BucketsOk(s.buckets, from) && from <= c.now
    ensures BucketsOk(Allowed(s, c).0.buckets, c.now)
  {
  }

  /** Tokens stay between 0 and the burst, after every call of every run. */
  lemma {:induction false} TokensStayInRange(s: LimiterState, calls: seq<Call>, from: int)
    requires BucketsOk(s.buckets, from) && Ordered(calls, from)
    ensures BucketsOk(StateAfter(s, calls).buckets, EndTime(calls, from))
    decreases |calls|
  {
    if calls != [] {
      CallKeepsRange(s, calls[0], from);
      TokensStayInRange(Allowed(s, calls[0]).0, calls[1..], calls[0].now);
    }
  }

  // ---------------------------------------------------------------------------
  // The sweep is invisible

  /** `kept` is `plain` less some buckets that have had time to fill up again. */
  ghost predicate SweptFrom(kept: map<Key, Bucket>, plain: map<Key, Bucket>, t: int)
  {
    && BucketsOk(plain, t)
    && (forall k :: k in kept ==> k in plain && kept[k] == plain[k])
    && (forall k :: k in plain && k !in kept ==> t - plain[k].last > SWEEP_INTERVAL)
  }

  lemma IdleBucketIsFull(b: Bucket, now: int)
    requires 0.0 <= b.tokens && now - b.last > SWEEP_INTERVAL
    ensures Refilled(b, now) == BURST as real
  {
    assert Seconds(now - b.last) > 600.0;
  }

  /** Charging keeps the relation and gives the same answer on both sides. */
  lemma ChargeAgrees(kept: map<Key, Bucket>, plain: map<Key, Bucket>, t: int, c: Call)
    requires SweptFrom(kept, plain, t) && t <= c.now
    ensures Charge(kept, c).1 == Charge(plain, c).1
    ensures SweptFrom(Charge(kept, c).0, Charge(plain, c).0, c.now)
  {
    if c.key in plain && c.key !in kept {
      IdleBucketIsFull(plain[c.key], c.now);
    }
    assert Refilled(BucketOf(kept, c.key, c.now), c.now) == Refilled(BucketOf(plain, c.key, c.now), c.now);
  }

  lemma {:induction false} SweptRunAgrees(s: LimiterState, plain: map<Key, Bucket>, calls: seq<Call>, from: int)
    requires SweptFrom(s.buckets, plain, from) && Ordered(calls, from)
    ensures Answers(s, calls) == PlainAnswers(plain, calls)
    decreases |calls|
  {
    if calls != [] {
      var c := calls[0];
      var s1 := AfterSweep(s, c.now);
      assert SweptFrom(s1.buckets, plain, c.now);
      ChargeAgrees(s1.buckets, plain, c.now, c);
      SweptRunAgrees(Allowed(s, c).0, Charge(plain, c).0, calls[1..], c.now);
    }
  }

  /** For every run at non-decreasing times, the limiter with the sweep gives exactly
      the answers and waits of one that never deletes a bucket. */
  lemma {:induction false} SweepIsInvisible(s: LimiterState, calls: seq<Call>, from: int)
    requires BucketsOk(s.buckets, from) && Ordered(calls, from)
    ensures Answers(s, calls) == PlainAnswers(s.buckets, calls)
  {
    SweptRunAgrees(s, s.buckets, calls, from);
  }

  // ---------------------------------------------------------------------------
  // The rate bound

  /** Events admitted for `key` in a run. */
  ghost function Admitted(calls: seq<Call>, answers: seq<Answer>, key: Key): nat
    requires |calls| == |answers|
  {
    if calls == [] then 0
    else
      (if calls[0].key == key && answers[0].ok then calls[0].n else 0)
      + Admitted(calls[1..], answers[1..], key)
  }

  lemma {:induction false} AnswersLength(s: LimiterState, calls: seq<Call>)
    ensures |Answers(s, calls)| == |calls|
    decreases |calls|
  {
    if calls != [] {
      AnswersLength(Allowed(s, calls[0]).0, calls[1..]);
    }
  }

  /** What a call admits comes out of the refilled bucket. */
  lemma ChargePays(buckets: map<Key, Bucket>, c: Call, from: int)
    requires BucketsOk(buckets, from) && from <= c.now
    ensures var (b1, a) := Charge(buckets, c);
            && BucketsOk(b1, c.now) && c.key in b1 && b1[c.key].last == c.now
            && var total := b1[c.key].tokens + (if a.ok then c.n as real else 0.0);
            && total <= BURST as real
            && (c.key in buckets ==>
                  total <= buckets[c.key].tokens + Seconds(c.now - buckets[c.key].last) * 2.0)
            && forall k :: k in buckets && k != c.key ==> k in b1 && b1[k] == buckets[k]
  {
  }

  /** A bucket pays for what it admits out of what it holds and what flows in. */
  lemma {:induction false} PlainBudget(buckets: map<Key, Bucket>, calls: seq<Call>, key: Key, from: int, until: int)
    requires BucketsOk(buckets, from) && Ordered(calls, from) && key in buckets
    requires from <= until && forall i :: 0 <= i < |calls| ==> calls[i].now <= until
    ensures |PlainAnswers(buckets, calls)| == |calls|
    ensures Admitted(calls, PlainAnswers(buckets, calls), key) as real
         <= buckets[key].tokens + Seconds(until - buckets[key].last) * 2.0
    decreases |calls|
  {
    if calls != [] {
      var c := calls[0];
      var (b1, a) := Charge(buckets, c);
      assert forall i :: 0 <= i < |calls| - 1 ==> calls[1..][i] == calls[i + 1];
      ChargePays(buckets, c, from);
      PlainBudget(b1, calls[1..], key, c.now, until);
      assert PlainAnswers(buckets, calls)[1..] == PlainAnswers(b1, calls[1..]);
    }
  }

  /** The same from any state: before its first call in the run the key may have no
      bucket, and with its first call it holds at most a burst. */
  lemma {:induction false} PlainRateBound(buckets: map<Key, Bucket>, calls: seq<Call>, key: Key, from: int, until: int)
    requires BucketsOk(buckets, from) && Ordered(calls, from)
    requires from <= until && forall i :: 0 <= i < |calls| ==> calls[i].now <= until
    ensures |PlainAnswers(buckets, calls)| == |calls|
    ensures Admitted(calls, PlainAnswers(buckets, calls), key) as real
         <= BURST as real + Seconds(until - from) * 2.0
    decreases |calls|
  {
    if calls != [] {
      var c := calls[0];
      var (b1, a) := Charge(buckets, c);
      assert forall i :: 0 <= i < |calls| - 1 ==> calls[1..][i] == calls[i + 1];
      assert PlainAnswers(buckets, calls)[1..] == PlainAnswers(b1, calls[1..]);
      ChargePays(buckets, c, from);
      assert Seconds(until - c.now) <= Seconds(until - from);
      if c.key == key {
        PlainBudget(b1, calls[1..], key, c.now, until);
      } else {
        PlainRateBound(b1, calls[1..], key, c.now, until);
      }
    }
  }

  /** In any interval [from, until] of any run of a new limiter, the events admitted
      for one address total at most 240 + 2 per second. `before` is the run up to the
      interval, `calls` the run inside it. */
  lemma {:induction false} RateBound(created: int, before: seq<Call>, calls: seq<Call>, key: Key, from: int, until: int)
    requires Ordered(before, created) && EndTime(before, created) <= from <= until
    requires Ordered(calls, from) && forall i :: 0 <= i < |calls| ==> calls[i].now <= until
    ensures var s := StateAfter(LimiterState(map[], created), before);
            && |Answers(s, calls)| == |calls|
            && Admitted(calls, Answers(s, calls), key) as real <= 240.0 + 2.0 * Seconds(until - from)
  {
    var start := LimiterState(map[], created);
    var s := StateAfter(start, before);
    TokensStayInRange(start, before, created);
    SweepIsInvisible(s, calls, from);
    PlainRateBound(s.buckets, calls, key, from, until);
  }

  // ---------------------------------------------------------------------------
  // Retry-After

  ghost function PlainAfter(buckets: map<Key, Bucket>, calls: seq<Call>): map<Key, Bucket>
    decreases |calls|
  {
    if calls == [] then buckets else PlainAfter(Charge(buckets, calls[0]).0, calls[1..])
  }

  lemma {:induction false} LastAnswer(s: LimiterState, calls: seq<Call>, c: Call)
    ensures Answers(s, calls + [c]) == Answers(s, calls) + [Allowed(StateAfter(s, calls), c).1]
    decreases |calls|
  {
    if calls == [] {
      assert [c][1..] == [];
    } else {
      assert (calls + [c])[1..] == calls[1..] + [c];
      LastAnswer(Allowed(s, calls[0]).0, calls[1..], c);
    }
  }

  lemma {:induction false} LastPlainAnswer(buckets: map<Key, Bucket>, calls: seq<Call>, c: Call)
    ensures PlainAnswers(buckets, calls + [c]) == PlainAnswers(buckets, calls)
            + [Charge(PlainAfter(buckets, calls), c).1]
    decreases |calls|
  {
    if calls == [] {
      assert [c][1..] == [];
    } else {
      assert (calls + [c])[1..] == calls[1..] + [c];
      LastPlainAnswer(Charge(buckets, calls[0]).0, calls[1..], c);
    }
  }

  lemma {:induction false} OthersLeaveBucketAlone(buckets: map<Key, Bucket>, calls: seq<Call>, key: Key)
    requires key in buckets && forall i :: 0 <= i < |calls| ==> calls[i].key != key
    ensures key in PlainAfter(buckets, calls) && PlainAfter(buckets, calls)[key] == buckets[key]
    decreases |calls|
  {
    if calls != [] {
      assert forall i :: 0 <= i < |calls| - 1 ==> calls[1..][i] == calls[i + 1];
      OthersLeaveBucketAlone(Charge(buckets, calls[0]).0, calls[1..], key);
    }
  }

  lemma {:induction false} OrderedAppend(calls: seq<Call>, c: Call, from: int)
    requires Ordered(calls, from) && EndTime(calls, from) <= c.now
    ensures Ordered(calls + [c], from)
  {
    if calls == [] {
      assert [c][1..] == [];
    } else {
      assert (calls + [c])[1..] == calls[1..] + [c];
      OrderedAppend(calls[1..], c, calls[0].now);
    }
  }

  /** Whole seconds of waiting refill at least the shortfall, although the wait is
      truncated to a nanosecond and the header floored to a second. */
  lemma {:induction false} WaitCoversShortfall(n: nat, tokens: real, elapsed: int)
    requires tokens < n as real
    requires elapsed >= RetryAfter(WaitFor(n, tokens)) * SECOND
    ensures tokens + Seconds(elapsed) * Rate() >= n as real
  {
    var x := (n as real - tokens) / Rate() * SECOND as real;
    var wait := x.Floor + SECOND;
    assert WaitFor(n, tokens) == wait;
    assert wait / SECOND * SECOND > wait - SECOND;
    assert elapsed >= x.Floor + 1;
    assert elapsed as real >= x;
  }

  /** The retry, on a map in which the refused bucket is as the refusal left it. */
  lemma {:induction false} RetryOnPlain(s: LimiterState, refused: Call, later: map<Key, Bucket>, again: Call)
    requires !Allowed(s, refused).1.ok
    requires refused.key in later && later[refused.key] == Allowed(s, refused).0.buckets[refused.key]
    requires again.key == refused.key && again.n == refused.n
    requires again.now >= refused.now + RetryAfter(Allowed(s, refused).1.wait) * SECOND
    ensures Charge(later, again).1.ok <==> refused.n <= BURST
  {
    var b := later[refused.key];
    assert b.last == refused.now && b.tokens < refused.n as real;
    WaitCoversShortfall(refused.n, b.tokens, again.now - refused.now);
  }

  /** A refused batch, retried once the advertised seconds have passed, is admitted
      exactly when it is no larger than the burst, whatever other addresses did in
      between. A request carries at most 50 events, so the handler's promise holds. */
  lemma {:induction false} RetryAfterIsHonoured(s: LimiterState, from: int, refused: Call, others: seq<Call>,
                                                again: Call)
    requires BucketsOk(s.buckets, from) && from <= refused.now
    requires !Allowed(s, refused).1.ok
    requires Ordered(others, refused.now) && forall i :: 0 <= i < |others| ==> others[i].key != refused.key
    requires again.key == refused.key && again.n == refused.n
    requires again.now >= refused.now + RetryAfter(Allowed(s, refused).1.wait) * SECOND
    requires again.now >= EndTime(others, refused.now)
    ensures Allowed(StateAfter(Allowed(s, refused).0, others), again).1.ok <==> refused.n <= BURST
  {
    var s1 := Allowed(s, refused).0;
    CallKeepsRange(s, refused, from);
    OrderedAppend(others, again, refused.now);
    SweepIsInvisible(s1, others + [again], refused.now);
    LastAnswer(s1, others, again);
    LastPlainAnswer(s1.buckets, others, again);
    OthersLeaveBucketAlone(s1.buckets, others, refused.key);
    var xs := Answers(s1, others + [again]);
    var ys := PlainAnswers(s1.buckets, others + [again]);
    assert xs[|xs| - 1] == ys[|ys| - 1];
    RetryOnPlain(s, refused, PlainAfter(s1.buckets, others), again);
  }
}
