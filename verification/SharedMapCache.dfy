/** The cache of parsed source maps, used by several workers at once
    (business/domain/clienterrorbus/resolve.go, artifact.go).

    The lock is held to look a key up and to remember what was fetched, but not while the
    map is fetched and parsed, and an upload writes the store before it empties the cache.
    So a lookup is three steps and an upload two, in any interleaving. The main results say
    when what is remembered is true of the store and stays so: exactly when no worker still
    holds a result that the store has left behind. */
module SharedMapCache {
  import opened Basics
  import opened Resolution
  import opened SourceMapCache

  type Thread = nat

  /** A lookup between its locked sections. */
  datatype Flight =
    | Asked(pair: Pair)
    | Got(pair: Pair, result: Option<Consumer>)

  datatype Shared = Shared(cache: State, flights: map<Thread, Flight>)

  datatype Step =
    | Ask(thread: Thread, pair: Pair)
    | Fetch(thread: Thread, fails: bool)
    | Keep(thread: Thread)
    | Write(pair: Pair, bytes: Bytes)
    | Empty

  predicate Enabled(s: Shared, step: Step)
  {
    match step
    case Ask(thread, _) => thread !in s.flights
    case Fetch(thread, _) => thread in s.flights && s.flights[thread].Asked?
    case Keep(thread) => thread in s.flights && s.flights[thread].Got?
    case Write(_, _) => true
    case Empty => true
  }

  function Next(lib: Library, s: Shared, step: Step): Shared
    requires Enabled(s, step)
  {
    match step
    case Ask(thread, pair) =>
      if Knows(s.cache, Key(pair)) then s else s.(flights := s.flights[thread := Asked(pair)])
    case Fetch(thread, fails) =>
      var pair := s.flights[thread].pair;
      s.(flights := s.flights[thread := Got(pair, Fetched(lib, s.cache, pair, fails))])
    case Keep(thread) =>
      var f := s.flights[thread];
      Shared(Remember(s.cache, Key(f.pair), f.result), s.flights - {thread})
    case Write(pair, bytes) => s.(cache := s.cache.(store := s.cache.store[pair := bytes]))
    case Empty => s.(cache := Forget(s.cache))
  }

  ghost predicate Run(lib: Library, s: Shared, steps: seq<Step>)
    decreases |steps|
  {
    steps != [] ==> Enabled(s, steps[0]) && Run(lib, Next(lib, s, steps[0]), steps[1..])
  }

  ghost function After(lib: Library, s: Shared, steps: seq<Step>): Shared
    requires Run(lib, s, steps)
    decreases |steps|
  {
    if steps == [] then s else After(lib, Next(lib, s, steps[0]), steps[1..])
  }

  /** With nothing in between, the three steps of a lookup are the one of `SourceMapCache`, and
      the two of an upload are its upload. */
  lemma {:induction false} UndisturbedIsAStep(lib: Library, s: Shared, thread: Thread, pair: Pair, fails: bool,
                                              upload: Op)
    requires thread !in s.flights && upload.Upload? && !upload.storeFails
    ensures var steps := if Knows(s.cache, Key(pair)) then [Ask(thread, pair)]
                         else [Ask(thread, pair), Fetch(thread, fails), Keep(thread)];
            Run(lib, s, steps)
            && After(lib, s, steps) == s.(cache := SourceMapCache.Step(lib, s.cache, Lookup(pair, fails)))
    ensures var row := Check(lib, upload.release, upload.fileName, upload.content);
            row.Row? ==>
              && Run(lib, s, [Write(row.pair, row.bytes), Empty])
              && After(lib, s, [Write(row.pair, row.bytes), Empty])
              == s.(cache := SourceMapCache.Step(lib, s.cache, upload))
  {
    if Knows(s.cache, Key(pair)) {
      OneStep(lib, s, Ask(thread, pair));
    } else {
      var s1 := Next(lib, s, Ask(thread, pair));
      var s2 := Next(lib, s1, Fetch(thread, fails));
      OneStep(lib, s2, Keep(thread));
      FirstStep(lib, s1, Fetch(thread, fails), [Keep(thread)]);
      FirstStep(lib, s, Ask(thread, pair), [Fetch(thread, fails), Keep(thread)]);
      assert [Fetch(thread, fails)] + [Keep(thread)] == [Fetch(thread, fails), Keep(thread)];
      assert [Ask(thread, pair)] + [Fetch(thread, fails), Keep(thread)]
          == [Ask(thread, pair), Fetch(thread, fails), Keep(thread)];
      assert Next(lib, s2, Keep(thread)).flights == s.flights;
    }
    var row := Check(lib, upload.release, upload.fileName, upload.content);
    if row.Row? {
      var write: Step := Write(row.pair, row.bytes);
      OneStep(lib, Next(lib, s, write), Empty);
      FirstStep(lib, s, write, [Empty]);
      assert [write] + [Empty] == [write, Empty];
    }
  }

  lemma {:induction false} OneStep(lib: Library, s: Shared, step: Step)
    requires Enabled(s, step)
    ensures Run(lib, s, [step]) && After(lib, s, [step]) == Next(lib, s, step)
  {
    assert [step][1..] == [];
  }

  lemma {:induction false} FirstStep(lib: Library, s: Shared, step: Step, rest: seq<Step>)
    requires Enabled(s, step) && Run(lib, Next(lib, s, step), rest)
    ensures Run(lib, s, [step] + rest) && After(lib, s, [step] + rest) == After(lib, Next(lib, s, step), rest)
  {
    assert ([step] + rest)[1..] == rest;
  }

  // ---------------------------------------------------------------------------
  // What is remembered is true

  /** A key that is known gets the answer of the reference. */
  ghost predicate TrueOf(lib: Library, cache: State, p: Pair)
  {
    Knows(cache, Key(p)) ==> Answer(lib, cache, p, false) == Uncached(lib, cache.store, p)
  }

  ghost predicate Truthful(lib: Library, cache: State, pairs: iset<Pair>)
  {
    |cache.entries| <= MAX_CACHED_MAPS && forall p | p in pairs :: TrueOf(lib, cache, p)
  }

  /** What was fetched is still what the store holds. */
  ghost predicate IsCurrent(lib: Library, store: map<Pair, Bytes>, f: Flight)
  {
    f.Got? ==> f.result == Uncached(lib, store, f.pair)
  }

  ghost predicate Settled(lib: Library, s: Shared, pairs: iset<Pair>)
  {
    && Truthful(lib, s.cache, pairs)
    && forall t | t in s.flights :: s.flights[t].pair in pairs && IsCurrent(lib, s.cache.store, s.flights[t])
  }

  lemma {:induction false} KnownAfter(lib: Library, cache: State, key: string, result: Option<Consumer>, p: Pair)
    requires |cache.entries| < MAX_CACHED_MAPS
    ensures var after := Remember(cache, key, result);
            && after.store == cache.store
            && (Key(p) != key ==>
                  (Knows(after, Key(p)) <==> Knows(cache, Key(p)))
                  && Answer(lib, after, p, false) == Answer(lib, cache, p, false))
            && (Key(p) == key ==>
                  Knows(after, key)
                  && Answer(lib, after, p, false) == if result.None? && key in cache.entries
                     then Some(cache.entries[key]) else result)
  {
  }

  /** Remembering a result keeps the cache truthful if and only if the result is what the
      store holds now, or is a miss that a remembered map outweighs. */
  lemma {:induction false} RememberIsTrueIff(lib: Library, cache: State, pairs: iset<Pair>, p: Pair,
                                             result: Option<Consumer>)
    requires Truthful(lib, cache, pairs) && Unambiguous(pairs) && p in pairs
    ensures Truthful(lib, Remember(cache, Key(p), result), pairs) <==>
            || result == Uncached(lib, cache.store, p)
            || (result.None? && Key(p) in cache.entries && |cache.entries| < MAX_CACHED_MAPS)
  {
    if |cache.entries| < MAX_CACHED_MAPS {
      WithRoomIsTrueIff(lib, cache, pairs, p, result);
    } else {
      WhenFullRemember(cache, Key(p), result);
      WithRoomIsTrueIff(lib, Forget(cache), pairs, p, result);
    }
  }

  lemma {:induction false} WhenFullRemember(cache: State, key: string, result: Option<Consumer>)
    requires |cache.entries| >= MAX_CACHED_MAPS
    ensures Remember(cache, key, result) == Remember(Forget(cache), key, result)
  {
  }

  lemma {:induction false} WithRoomIsTrueIff(lib: Library, cache: State, pairs: iset<Pair>, p: Pair,
                                             result: Option<Consumer>)
    requires Truthful(lib, cache, pairs) && Unambiguous(pairs) && p in pairs && |cache.entries| < MAX_CACHED_MAPS
    ensures Truthful(lib, Remember(cache, Key(p), result), pairs) <==>
            result == Uncached(lib, cache.store, p) || (result.None? && Key(p) in cache.entries)
  {
    var after := Remember(cache, Key(p), result);
    forall q | q in pairs
      ensures q != p ==> TrueOf(lib, after, q)
    {
      KnownAfter(lib, cache, Key(p), result, q);
      assert TrueOf(lib, cache, q);
    }
    KnownAfter(lib, cache, Key(p), result, p);
    assert TrueOf(lib, cache, p);
    assert Truthful(lib, after, pairs) <==> TrueOf(lib, after, p);
  }

  // ---------------------------------------------------------------------------
  // Runs without uploads

  predicate Quiet(step: Step)
  {
    match step
    case Fetch(_, fails) => !fails
    case Write(_, _) => false
    case _ => true
  }

  lemma {:induction false} QuietStepKeeps(lib: Library, s: Shared, pairs: iset<Pair>, step: Step)
    requires Settled(lib, s, pairs) && Unambiguous(pairs) && Enabled(s, step) && Quiet(step)
    requires step.Ask? ==> step.pair in pairs
    ensures Settled(lib, Next(lib, s, step), pairs)
  {
    if step.Keep? {
      var f := s.flights[step.thread];
      RememberIsTrueIff(lib, s.cache, pairs, f.pair, f.result);
    }
  }

  /** From a settled state, whatever the workers do, what the cache remembers is true. */
  lemma {:induction false} QuietRunKeeps(lib: Library, s: Shared, pairs: iset<Pair>, steps: seq<Step>)
    requires Settled(lib, s, pairs) && Unambiguous(pairs) && Run(lib, s, steps)
    requires forall k :: 0 <= k < |steps| ==> Quiet(steps[k]) && (steps[k].Ask? ==> steps[k].pair in pairs)
    ensures Settled(lib, After(lib, s, steps), pairs)
    decreases |steps|
  {
    if steps != [] {
      QuietStepKeeps(lib, s, pairs, steps[0]);
      QuietRunKeeps(lib, Next(lib, s, steps[0]), pairs, steps[1..]);
    }
  }

  ghost predicate AsksOnly(steps: seq<Step>, pairs: iset<Pair>)
  {
    forall k :: 0 <= k < |steps| && steps[k].Ask? ==> steps[k].pair in pairs
  }

  predicate AllQuiet(steps: seq<Step>) { forall k :: 0 <= k < |steps| ==> Quiet(steps[k]) }

  /** Whatever the workers do from here, short of an upload's write and a failing fetch,
      what the cache holds is true. */
  ghost predicate StaysTruthful(lib: Library, s: Shared, pairs: iset<Pair>)
  {
    forall steps | Run(lib, s, steps) && AllQuiet(steps) && AsksOnly(steps, pairs) ::
      Truthful(lib, After(lib, s, steps).cache, pairs)
  }

  ghost predicate NoneOutdated(lib: Library, s: Shared)
  {
    forall t | t in s.flights :: IsCurrent(lib, s.cache.store, s.flights[t])
  }

  /** A worker that finishes with an outdated result makes an emptied cache lie. */
  lemma {:induction false} OutdatedLies(lib: Library, s: Shared, pairs: iset<Pair>, t: Thread)
    requires Unambiguous(pairs) && t in s.flights && s.flights[t].pair in pairs
    requires !IsCurrent(lib, s.cache.store, s.flights[t])
    ensures Run(lib, s, [Empty, Keep(t)])
    ensures !Truthful(lib, After(lib, s, [Empty, Keep(t)]).cache, pairs)
  {
    var u := Next(lib, s, Empty);
    RememberIsTrueIff(lib, u.cache, pairs, s.flights[t].pair, s.flights[t].result);
    PrependStep(lib, u, Keep(t), []);
    PrependStep(lib, s, Empty, [Keep(t)] + []);
    assert [Empty] + ([Keep(t)] + []) == [Empty, Keep(t)];
  }

  /** From a state in which the cache is truthful, it stays so whatever the workers do if
      and only if none of them holds an outdated result. */
  lemma {:induction false} StaysTruthfulIff(lib: Library, s: Shared, pairs: iset<Pair>)
    requires Unambiguous(pairs) && Truthful(lib, s.cache, pairs)
    requires forall t | t in s.flights :: s.flights[t].pair in pairs
    ensures StaysTruthful(lib, s, pairs) <==> NoneOutdated(lib, s)
  {
    if NoneOutdated(lib, s) {
      forall steps | Run(lib, s, steps) && AllQuiet(steps) && AsksOnly(steps, pairs)
        ensures Truthful(lib, After(lib, s, steps).cache, pairs)
      {
        QuietRunKeeps(lib, s, pairs, steps);
      }
    } else {
      var t :| t in s.flights && !IsCurrent(lib, s.cache.store, s.flights[t]);
      OutdatedLies(lib, s, pairs, t);
      assert AllQuiet([Empty, Keep(t)]) && AsksOnly([Empty, Keep(t)], pairs);
    }
  }

  // ---------------------------------------------------------------------------
  // Uploads

  /** The second half of an upload, whenever its write was and whatever happened since:
      the cache is truthful, and stays so if and only if no worker holds a result that the
      write made wrong. */
  lemma {:induction false} UploadSettlesIff(lib: Library, s: Shared, pairs: iset<Pair>)
    requires Unambiguous(pairs) && forall t | t in s.flights :: s.flights[t].pair in pairs
    ensures var u := Next(lib, s, Empty);
            Truthful(lib, u.cache, pairs) && (StaysTruthful(lib, u, pairs) <==> NoneOutdated(lib, s))
  {
    StaysTruthfulIff(lib, Next(lib, s, Empty), pairs);
  }

  /** It can happen from the start: a worker finds no map, the map is uploaded, and the
      worker then remembers the miss. */
  lemma {:induction false} StaleMiss(lib: Library, p: Pair, bytes: Bytes)
    requires bytes != [] && lib.parse(p.1 + ".map", bytes).Some?
    ensures var steps := [Ask(0, p), Fetch(0, false), Write(p, bytes), Empty, Keep(0)];
            && Run(lib, Shared(EMPTY, map[]), steps)
            && var t := After(lib, Shared(EMPTY, map[]), steps);
               Answer(lib, t.cache, p, false) == None && Uncached(lib, t.cache.store, p).Some?
  {
    var s0 := Shared(EMPTY, map[]);
    MissIsGot(lib, p);
    var s2 := Shared(EMPTY, map[0 := Got(p, None)]);
    var s4 := Next(lib, Next(lib, s2, Write(p, bytes)), Empty);
    assert s4.cache == EMPTY.(store := map[p := bytes]);
    MissIsKept(s4.cache, Key(p));
    RunOfFive(lib, s0, Ask(0, p), Fetch(0, false), Write(p, bytes), Empty, Keep(0));
  }

  lemma {:induction false} MissIsGot(lib: Library, p: Pair)
    ensures Next(lib, Shared(EMPTY, map[]), Ask(0, p)) == Shared(EMPTY, map[0 := Asked(p)])
    ensures Next(lib, Shared(EMPTY, map[0 := Asked(p)]), Fetch(0, false)) == Shared(EMPTY, map[0 := Got(p, None)])
  {
  }

  lemma {:induction false} MissIsKept(cache: State, key: string)
    requires cache.entries == map[]
    ensures key in Remember(cache, key, None).misses && Remember(cache, key, None).entries == map[]
  {
  }

  lemma {:induction false} RunOfFive(lib: Library, s: Shared, a: Step, b: Step, c: Step, d: Step, e: Step)
    requires Enabled(s, a) && var t := Next(lib, s, a); Enabled(t, b) && var u := Next(lib, t, b);
             Enabled(u, c) && var v := Next(lib, u, c); Enabled(v, d) && Enabled(Next(lib, v, d), e)
    ensures Run(lib, s, [a, b, c, d, e])
    ensures var t := Next(lib, s, a); var u := Next(lib, t, b); var v := Next(lib, u, c); var w := Next(lib, v, d);
            After(lib, s, [a, b, c, d, e]) == Next(lib, w, e)
  {
    var t := Next(lib, s, a);
    var u := Next(lib, t, b);
    var v := Next(lib, u, c);
    var w := Next(lib, v, d);
    PrependStep(lib, w, e, []);
    PrependStep(lib, v, d, [e]);
    PrependStep(lib, u, c, [d, e]);
    PrependStep(lib, t, b, [c, d, e]);
    PrependStep(lib, s, a, [b, c, d, e]);
    assert [e] + [] == [e] && [d] + [e] == [d, e] && [c] + [d, e] == [c, d, e];
    assert [b] + [c, d, e] == [b, c, d, e] && [a] + [b, c, d, e] == [a, b, c, d, e];
  }

  lemma {:induction false} PrependStep(lib: Library, s: Shared, step: Step, rest: seq<Step>)
    requires Enabled(s, step) && Run(lib, Next(lib, s, step), rest)
    ensures Run(lib, s, [step] + rest) && After(lib, s, [step] + rest) == After(lib, Next(lib, s, step), rest)
  {
    assert ([step] + rest)[1..] == rest;
  }
}
