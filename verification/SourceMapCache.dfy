/** The cache of parsed source maps, the upload that empties it, and the stack resolver
    that reads through it (business/domain/clienterrorbus/resolve.go, artifact.go).

    The reference is the uncached lookup: fetch from the store as it is now, and parse.
    The main results say exactly when the cache answers as the reference does: over every
    sequence of lookups and uploads when keys are unambiguous, but for keys whose failed
    fetch is still remembered as a miss. */
module SourceMapCache {
  import opened Basics
  import opened Text
  import opened StackFrames
  import opened Resolution

  type Bytes = seq<bv8>

  type Pair = (string, string)

  /** What is left to libraries: parsing a stored map, preparing an uploaded one (dropping
      the sources and compressing; nothing when it is not a source map), cutting a text. */
  datatype Library = Library(parse: (string, Bytes) -> Option<Consumer>, prepare: Bytes -> Option<Bytes>,
                             clip: (string, nat) -> string)

  const MAX_CACHED_MAPS: nat := 8
  const MAX_ARTIFACT_BYTES: nat := 32 * 1024 * 1024
  const MAX_RELEASE_LEN: nat := 120

  datatype State = State(entries: map<string, Consumer>, misses: set<string>, store: map<Pair, Bytes>)

  const EMPTY: State := State(map[], {}, map[])

  function Key(p: Pair): string { p.0 + "|" + p.1 }

  /** The reference: fetch and parse. */
  function Uncached(lib: Library, store: map<Pair, Bytes>, p: Pair): Option<Consumer>
  {
    if p in store && store[p] != [] then lib.parse(p.1 + ".map", store[p]) else None
  }

  // ---------------------------------------------------------------------------
  // Operations on values

  datatype UploadError = NoRelease | NoContent | TooLarge | Invalid | StoreFailed | RequeueFailed

  datatype Op =
    | Lookup(pair: Pair, fetchFails: bool)
    | Upload(release: string, fileName: string, content: Bytes, storeFails: bool)

  function Forget(s: State): State { s.(entries := map[], misses := {}) }

  function Remember(s: State, key: string, consumer: Option<Consumer>): State
  {
    var t := if |s.entries| >= MAX_CACHED_MAPS then Forget(s) else s;
    match consumer
    case None => t.(misses := t.misses + {key})
    case Some(c) => t.(entries := t.entries[key := c])
  }

  predicate Knows(s: State, key: string) { key in s.entries || key in s.misses }

  function Fetched(lib: Library, s: State, p: Pair, fetchFails: bool): Option<Consumer>
  {
    if fetchFails then None else Uncached(lib, s.store, p)
  }

  function Answer(lib: Library, s: State, p: Pair, fetchFails: bool): Option<Consumer>
  {
    if Key(p) in s.entries then Some(s.entries[Key(p)])
    else if Key(p) in s.misses then None
    else Fetched(lib, s, p, fetchFails)
  }

  function AfterLookup(lib: Library, s: State, p: Pair, fetchFails: bool): State
  {
    if Knows(s, Key(p)) then s else Remember(s, Key(p), Fetched(lib, s, p, fetchFails))
  }

  predicate HasSuffix(s: string, suffix: string) { |s| >= |suffix| && s[|s| - |suffix|..] == suffix }

  function TrimSuffix(s: string, suffix: string): string
  {
    if HasSuffix(s, suffix) then s[..|s| - |suffix|] else s
  }

  function GeneratedFileName(lib: Library, name: string): string
  {
    lib.clip(TrimSuffix(AfterSlash(TrimSpace(name)), ".map"), 200)
  }

  /** The row an upload writes, or why it is refused. */
  datatype Verdict = Refused(error: UploadError) | Row(pair: Pair, bytes: Bytes)

  function Check(lib: Library, release: string, fileName: string, content: Bytes): Verdict
  {
    if TrimSpace(release) == "" then Refused(NoRelease)
    else if content == [] then Refused(NoContent)
    else if |content| > MAX_ARTIFACT_BYTES then Refused(TooLarge)
    else
      match lib.prepare(content)
      case None => Refused(Invalid)
      case Some(bytes) =>
        if GeneratedFileName(lib, fileName) == "" then Refused(Invalid)
        else Row((lib.clip(TrimSpace(release), MAX_RELEASE_LEN), GeneratedFileName(lib, fileName)), bytes)
  }

  function AfterUpload(lib: Library, s: State, release: string, fileName: string, content: Bytes,
                       storeFails: bool): State
  {
    match Check(lib, release, fileName, content)
    case Refused(_) => s
    case Row(pair, bytes) => if storeFails then s else Forget(s.(store := s.store[pair := bytes]))
  }

  function Step(lib: Library, s: State, op: Op): State
  {
    match op
    case Lookup(pair, fails) => AfterLookup(lib, s, pair, fails)
    case Upload(release, fileName, content, fails) => AfterUpload(lib, s, release, fileName, content, fails)
  }

  function Run(lib: Library, s: State, ops: seq<Op>): State
    decreases |ops|
  {
    if ops == [] then s else Run(lib, Step(lib, s, ops[0]), ops[1..])
  }

  // ---------------------------------------------------------------------------
  // The cache

  class Cache {
    const lib: Library
    var entries: map<string, Consumer>
    var misses: set<string>
    /** The table of stored maps. */
    var store: map<Pair, Bytes>

    constructor (lib: Library)
      ensures this.lib == lib && Value() == EMPTY
    {
      this.lib := lib;
      entries, misses, store := map[], {}, map[];
    }

    function Value(): State
      reads this
    {
      State(entries, misses, store)
    }

    method MapFor(release: string, fileName: string, fetchFails: bool) returns (consumer: Option<Consumer>)
      modifies this
      ensures Value() == old(AfterLookup(lib, Value(), (release, fileName), fetchFails))
      ensures consumer == old(Answer(lib, Value(), (release, fileName), fetchFails))
    {
      var key := release + "|" + fileName;
      assert key == Key((release, fileName));
      if key in entries {
        return Some(entries[key]);
      }
      if key in misses {
        return None;
      }
      var raw: Bytes := if (release, fileName) in store then store[(release, fileName)] else [];
      if fetchFails || raw == [] {
        RememberMap(key, None);
        return None;
      }
      consumer := lib.parse(fileName + ".map", raw);
      RememberMap(key, consumer);
    }

    method RememberMap(key: string, consumer: Option<Consumer>)
      modifies this`entries, this`misses
      ensures Value() == old(Remember(Value(), key, consumer))
    {
      if |entries| >= MAX_CACHED_MAPS {
        entries, misses := map[], {};
      }
      if consumer.None? {
        misses := misses + {key};
        return;
      }
      entries := entries[key := consumer.value];
    }

    method ForgetAll()
      modifies this`entries, this`misses
      ensures Value() == old(Forget(Value()))
    {
      entries, misses := map[], {};
    }

    /** requeueFails tells whether queueing the release's events again fails, once the map
        is stored. */
    method UploadArtifact(release: string, fileName: string, content: Bytes, storeFails: bool, requeueFails: bool)
      returns (error: Option<UploadError>)
      modifies this
      ensures Value() == old(AfterUpload(lib, Value(), release, fileName, content, storeFails))
      ensures error == match Check(lib, release, fileName, content)
                       case Refused(e) => Some(e)
                       case Row(_, _) =>
                         if storeFails then Some(StoreFailed) else if requeueFails then Some(RequeueFailed) else None
    {
      var trimmed := TrimSpace(release);
      if trimmed == "" {
        return Some(NoRelease);
      } else if content == [] {
        return Some(NoContent);
      } else if |content| > MAX_ARTIFACT_BYTES {
        return Some(TooLarge);
      }
      var bytes := lib.prepare(content);
      if bytes.None? {
        return Some(Invalid);
      }
      var pair := (lib.clip(trimmed, MAX_RELEASE_LEN), GeneratedFileName(lib, fileName));
      if pair.1 == "" {
        return Some(Invalid);
      }
      if storeFails {
        return Some(StoreFailed);
      }
      store := store[pair := bytes.value];
      ForgetAll();
      return if requeueFails then Some(RequeueFailed) else None;
    }

    method ResolveFrame(f: Frame, release: string, fails: bool) returns (text: Option<string>)
      modifies this
      ensures (Value(), text) == old(FrameThrough(lib, Value(), f, release, fails))
    {
      var consumer := MapFor(release, PathBase(f.file), fails);
      if consumer.None? {
        return None;
      }
      var original := Source(f, consumer.value);
      if original.None? {
        return None;
      }
      return Some(Render(original.value));
    }

    method ResolveMaybe(frame: Option<Frame>, release: string, fails: bool) returns (text: Option<string>)
      modifies this
      ensures (Value(), text) == old(MaybeThrough(lib, Value(), frame, release, fails))
    {
      if frame.None? {
        return None;
      }
      text := ResolveFrame(frame.value, release, fails);
    }

    method ResolveLine(line: string, release: string, fails: bool) returns (text: Option<string>)
      modifies this
      ensures (Value(), text) == Through(lib, release)(old(Value()), line, fails)
    {
      text := ResolveMaybe(FrameOfLine(line), release, fails);
    }

    /** Rewrites lines in place. fails tells for which lines fetching the map fails, if it
        is fetched at all. */
    method ResolveLines(lines: array<string>, release: string, fails: nat -> bool) returns (resolved: bool)
      modifies this, lines
      ensures (Value(), lines[..], resolved)
           == old(ResolveFirst(Through(lib, release), Value(), lines[..], lines.Length, fails))
    {
      ghost var was := lines[..];
      ghost var s := Value();
      ghost var through := Through(lib, release);
      resolved := false;
      for i := 0 to lines.Length
        invariant var done := ResolveFirst(through, s, was, i, fails);
                  (Value(), resolved) == (done.0, done.2) && lines[..] == done.1 + was[i..]
      {
        ghost var done := ResolveFirst(through, s, was, i, fails);
        NextIsUntouched(lines[..], done.1, was, i);
        var text := ResolveLine(lines[i], release, fails(i));
        if text.Some? {
          lines[i] := text.value;
          resolved := true;
        }
        NextIsWritten(done.1, was, i, lines[i]);
      }
      NothingIsLeft(ResolveFirst(through, s, was, |was|, fails).1, was);
    }

    method ResolveStack(stack: string, release: string, fails: nat -> bool) returns (out: string, resolved: bool)
      modifies this
      ensures (Value(), out, resolved) == old(ResolveThrough(lib, Value(), stack, release, fails))
    {
      if stack == "" || release == "" {
        return stack, false;
      }
      var split := Lines(stack);
      var lines := new string[|split|](i requires 0 <= i < |split| => split[i]);
      assert lines[..] == split;
      resolved := ResolveLines(lines, release, fails);
      if !resolved {
        return stack, false;
      }
      return Unlines(lines[..]), true;
    }
  }

  /** Resolving one line through the cache: the cache afterwards, and what the line
      becomes, if it is rewritten. */
  function LineThrough(lib: Library, s: State, line: string, release: string, fails: bool): (State, Option<string>)
  {
    MaybeThrough(lib, s, FrameOfLine(line), release, fails)
  }

  function MaybeThrough(lib: Library, s: State, frame: Option<Frame>, release: string, fails: bool)
    : (State, Option<string>)
  {
    match frame
    case None => (s, None)
    case Some(f) => FrameThrough(lib, s, f, release, fails)
  }

  function FrameThrough(lib: Library, s: State, f: Frame, release: string, fails: bool): (State, Option<string>)
  {
    var p := (release, PathBase(f.file));
    var consumer := Answer(lib, s, p, fails);
    var original := if consumer.Some? then Source(f, consumer.value) else None;
    (AfterLookup(lib, s, p, fails), if original.Some? then Some(Render(original.value)) else None)
  }

  type Resolver = (State, string, bool) -> (State, Option<string>)

  function Through(lib: Library, release: string): Resolver
  {
    (s, line, fails) => LineThrough(lib, s, line, release, fails)
  }

  /** Resolving the first n lines: the cache afterwards, those lines, and whether any was
      rewritten. */
  function ResolveFirst(through: Resolver, s: State, lines: seq<string>, n: nat,
                        fails: nat -> bool): (r: (State, seq<string>, bool))
    requires n <= |lines|
    ensures |r.1| == n
  {
    if n == 0 then (s, [], false)
    else
      var before := ResolveFirst(through, s, lines, n - 1, fails);
      var last := through(before.0, lines[n - 1], fails(n - 1));
      (last.0, before.1 + [if last.1.Some? then last.1.value else lines[n - 1]], before.2 || last.1.Some?)
  }

  /** A step of the loop, on the lines: the next one is as it was, and writing it leaves
      the ones after it. */
  lemma {:induction false} NextIsUntouched(now: seq<string>, done: seq<string>, was: seq<string>, i: nat)
    requires i < |was| && |done| == i && now == done + was[i..]
    ensures now[i] == was[i]
  {
  }

  lemma {:induction false} NothingIsLeft(done: seq<string>, was: seq<string>)
    ensures done + was[|was|..] == done
  {
  }

  lemma {:induction false} NextIsWritten(done: seq<string>, was: seq<string>, i: nat, line: string)
    requires i < |was| && |done| == i
    ensures (done + was[i..])[i := line] == (done + [line]) + was[i + 1..]
  {
  }

  function ResolveThrough(lib: Library, s: State, stack: string, release: string, fails: nat -> bool): (State, string,
                          bool)
  {
    if stack == "" || release == "" then (s, stack, false)
    else
      var all := ResolveFirst(Through(lib, release), s, Lines(stack), |Lines(stack)|, fails);
      (all.0, if all.2 then Unlines(all.1) else stack, all.2)
  }

  // ---------------------------------------------------------------------------
  // Faithfulness

  /** No two of these lookups share a cache key. */
  ghost predicate Unambiguous(pairs: iset<Pair>)
  {
    forall p, q | p in pairs && q in pairs && Key(p) == Key(q) :: p == q
  }

  /** Some upload stores a map for this pair that parses. */
  ghost predicate Storable(lib: Library, p: Pair)
  {
    exists release, fileName, content :: StoresMap(lib, p, release, fileName, content)
  }

  ghost predicate StoresMap(lib: Library, p: Pair, release: string, fileName: string, content: Bytes)
  {
    var row := Check(lib, release, fileName, content);
    row.Row? && row.pair == p && row.bytes != [] && lib.parse(p.1 + ".map", row.bytes).Some?
  }

  /** No two different lookups share a key of which one can have a map. */
  ghost predicate NeverMixed(lib: Library, pairs: iset<Pair>)
  {
    forall p, q | p in pairs && q in pairs && p != q && Key(p) == Key(q) :: !Storable(lib, p)
  }

  /** Lookups that share a key have one answer in this store. */
  ghost predicate AgreeIn(lib: Library, store: map<Pair, Bytes>, pairs: iset<Pair>)
  {
    forall p, q | p in pairs && q in pairs && Key(p) == Key(q) :: Uncached(lib, store, p) == Uncached(lib, store, q)
  }

  /** Every map in the store came from an upload. */
  ghost predicate FromUploads(lib: Library, store: map<Pair, Bytes>)
  {
    forall p | p in store && Uncached(lib, store, p).Some? :: Storable(lib, p)
  }

  lemma {:induction false} NeverMixedAgree(lib: Library, store: map<Pair, Bytes>, pairs: iset<Pair>)
    requires NeverMixed(lib, pairs) && FromUploads(lib, store)
    ensures AgreeIn(lib, store, pairs)
  {
    forall p, q | p in pairs && q in pairs && Key(p) == Key(q)
      ensures Uncached(lib, store, p) == Uncached(lib, store, q)
    {
      if p != q {
        assert !Storable(lib, p) && !Storable(lib, q);
      }
    }
  }

  lemma {:induction false} StepFromUploads(lib: Library, s: State, op: Op)
    requires FromUploads(lib, s.store)
    ensures FromUploads(lib, Step(lib, s, op).store)
  {
    if op.Upload? && Check(lib, op.release, op.fileName, op.content).Row? && !op.storeFails {
      var row := Check(lib, op.release, op.fileName, op.content);
      var store := s.store[row.pair := row.bytes];
      forall p | p in store && Uncached(lib, store, p).Some?
        ensures Storable(lib, p)
      {
        if p == row.pair {
          assert StoresMap(lib, p, op.release, op.fileName, op.content);
        } else {
          assert Uncached(lib, s.store, p).Some?;
        }
      }
    }
  }

  /** What the cache holds about these lookups is true, but for the keys in bad, whose
      fetch failed and is remembered as a miss. */
  ghost predicate Faithful(lib: Library, s: State, bad: set<string>, pairs: iset<Pair>)
  {
    && |s.entries| <= MAX_CACHED_MAPS && bad <= s.misses && s.misses !! s.entries.Keys
    && (forall p | p in pairs && Key(p) in s.entries :: Uncached(lib, s.store, p) == Some(s.entries[Key(p)]))
    && (forall p | p in pairs && Key(p) in s.misses && Key(p) !in bad :: Uncached(lib, s.store, p).None?)
  }

  function BadWith(s: State, bad: set<string>, key: string, fails: bool): set<string>
  {
    (if |s.entries| >= MAX_CACHED_MAPS then {} else bad) + (if fails then {key} else {})
  }

  /** The keys whose failed fetch is remembered: a failure adds one, and emptying the
      cache, by an upload or because it is full, forgets them all. */
  function BadAfter(lib: Library, s: State, bad: set<string>, op: Op): set<string>
  {
    match op
    case Upload(release, fileName, content, fails) =>
      if Check(lib, release, fileName, content).Row? && !fails then {} else bad
    case Lookup(p, fails) =>
      if Knows(s, Key(p)) then bad else BadWith(s, bad, Key(p), fails)
  }

  function BadAfterAll(lib: Library, s: State, bad: set<string>, ops: seq<Op>): set<string>
    decreases |ops|
  {
    if ops == [] then bad else BadAfterAll(lib, Step(lib, s, ops[0]), BadAfter(lib, s, bad, ops[0]), ops[1..])
  }

  ghost predicate LooksUpOnly(ops: seq<Op>, pairs: iset<Pair>)
  {
    forall i | 0 <= i < |ops| && ops[i].Lookup? :: ops[i].pair in pairs
  }

  predicate NoFetchFails(ops: seq<Op>)
  {
    forall i | 0 <= i < |ops| :: ops[i].Lookup? ==> !ops[i].fetchFails
  }

  lemma {:induction false} ForgetKeepsFaith(lib: Library, s: State, bad: set<string>, pairs: iset<Pair>)
    requires Faithful(lib, s, bad, pairs)
    ensures Faithful(lib, Forget(s), {}, pairs)
  {
  }

  lemma {:induction false} RememberKeepsFaith(lib: Library, s: State, bad: set<string>, pairs: iset<Pair>, p: Pair,
                                              fails: bool)
    requires Faithful(lib, s, bad, pairs) && AgreeIn(lib, s.store, pairs) && p in pairs && |s.entries| < MAX_CACHED_MAPS
    requires !Knows(s, Key(p))
    ensures Faithful(lib, Remember(s, Key(p), Fetched(lib, s, p, fails)), BadWith(s, bad, Key(p), fails), pairs)
  {
  }

  lemma {:induction false} FullKeepsFaith(lib: Library, s: State, bad: set<string>, pairs: iset<Pair>, p: Pair,
                                          fails: bool)
    requires Faithful(lib, s, bad, pairs) && AgreeIn(lib, s.store, pairs) && p in pairs
    requires |s.entries| >= MAX_CACHED_MAPS
    ensures Faithful(lib, Remember(s, Key(p), Fetched(lib, s, p, fails)), BadWith(s, bad, Key(p), fails), pairs)
  {
    var t := Forget(s);
    ForgetKeepsFaith(lib, s, bad, pairs);
    RememberWhenFull(s, bad, Key(p), Fetched(lib, s, p, fails), fails);
    assert Fetched(lib, t, p, fails) == Fetched(lib, s, p, fails);
    RememberKeepsFaith(lib, t, {}, pairs, p, fails);
  }

  lemma {:induction false} RememberWhenFull(s: State, bad: set<string>, key: string, consumer: Option<Consumer>,
                                            fails: bool)
    requires |s.entries| >= MAX_CACHED_MAPS
    ensures Remember(s, key, consumer) == Remember(Forget(s), key, consumer)
    ensures BadWith(s, bad, key, fails) == BadWith(Forget(s), {}, key, fails)
  {
  }

  lemma {:induction false} LookupKeepsFaith(lib: Library, s: State, bad: set<string>, pairs: iset<Pair>, p: Pair,
                                            fails: bool)
    requires Faithful(lib, s, bad, pairs) && AgreeIn(lib, s.store, pairs) && p in pairs
    ensures Faithful(lib, AfterLookup(lib, s, p, fails), BadAfter(lib, s, bad, Lookup(p, fails)), pairs)
    ensures AfterLookup(lib, s, p, fails).store == s.store
  {
    if !Knows(s, Key(p)) {
      if |s.entries| >= MAX_CACHED_MAPS {
        FullKeepsFaith(lib, s, bad, pairs, p, fails);
      } else {
        RememberKeepsFaith(lib, s, bad, pairs, p, fails);
      }
    }
  }

  lemma {:induction false} StepKeepsFaith(lib: Library, s: State, bad: set<string>, pairs: iset<Pair>, op: Op)
    requires Faithful(lib, s, bad, pairs) && AgreeIn(lib, s.store, pairs) && (op.Lookup? ==> op.pair in pairs)
    ensures Faithful(lib, Step(lib, s, op), BadAfter(lib, s, bad, op), pairs)
  {
    if op.Lookup? {
      LookupKeepsFaith(lib, s, bad, pairs, op.pair, op.fetchFails);
    }
  }

  lemma {:induction false} RunKeepsFaith(lib: Library, s: State, bad: set<string>, pairs: iset<Pair>, ops: seq<Op>)
    requires Faithful(lib, s, bad, pairs) && NeverMixed(lib, pairs) && FromUploads(lib, s.store)
    requires LooksUpOnly(ops, pairs)
    ensures Faithful(lib, Run(lib, s, ops), BadAfterAll(lib, s, bad, ops), pairs)
    decreases |ops|
  {
    if ops != [] {
      NeverMixedAgree(lib, s.store, pairs);
      StepKeepsFaith(lib, s, bad, pairs, ops[0]);
      StepFromUploads(lib, s, ops[0]);
      assert LooksUpOnly(ops[1..], pairs) by {
        assert forall i :: 0 <= i < |ops[1..]| ==> ops[1..][i] == ops[i + 1];
      }
      RunKeepsFaith(lib, Step(lib, s, ops[0]), BadAfter(lib, s, bad, ops[0]), pairs, ops[1..]);
    }
  }

  lemma {:induction false} NothingBadWithoutFailures(lib: Library, s: State, ops: seq<Op>)
    requires NoFetchFails(ops)
    ensures BadAfterAll(lib, s, {}, ops) == {}
    decreases |ops|
  {
    if ops != [] {
      assert !(ops[0].Lookup? && ops[0].fetchFails);
      assert BadAfter(lib, s, {}, ops[0]) == {};
      assert NoFetchFails(ops[1..]) by {
        assert forall i :: 0 <= i < |ops[1..]| ==> ops[1..][i] == ops[i + 1];
      }
      NothingBadWithoutFailures(lib, Step(lib, s, ops[0]), ops[1..]);
    }
  }

  /** After any run the cache holds at most eight maps and answers as the reference,
      unless there is a map and either its failed fetch is still remembered or this very
      fetch fails. */
  lemma {:induction false} CacheAnswersIff(lib: Library, pairs: iset<Pair>, ops: seq<Op>, p: Pair, fails: bool)
    requires NeverMixed(lib, pairs) && LooksUpOnly(ops, pairs) && p in pairs
    ensures var s := Run(lib, EMPTY, ops);
            && |s.entries| <= MAX_CACHED_MAPS
            && (Answer(lib, s, p, fails) == Uncached(lib, s.store, p) <==>
                  !(Uncached(lib, s.store, p).Some?
                    && (|| Key(p) in BadAfterAll(lib, EMPTY, {}, ops)
                        || (fails && Key(p) !in s.entries && Key(p) !in s.misses))))
  {
    RunKeepsFaith(lib, EMPTY, {}, pairs, ops);
  }

  /** Without failed fetches the cache cannot be told from the reference. */
  lemma {:induction false} CacheIsInvisible(lib: Library, pairs: iset<Pair>, ops: seq<Op>, p: Pair)
    requires NeverMixed(lib, pairs) && LooksUpOnly(ops, pairs) && p in pairs && NoFetchFails(ops)
    ensures Answer(lib, Run(lib, EMPTY, ops), p, false) == Uncached(lib, Run(lib, EMPTY, ops).store, p)
  {
    NothingBadWithoutFailures(lib, EMPTY, ops);
    CacheAnswersIff(lib, pairs, ops, p, false);
  }

  // ---------------------------------------------------------------------------
  // Keys

  ghost predicate AlwaysExact(lib: Library, pairs: iset<Pair>)
  {
    forall ops, p | LooksUpOnly(ops, pairs) && NoFetchFails(ops) && p in pairs ::
      Answer(lib, Run(lib, EMPTY, ops), p, false) == Uncached(lib, Run(lib, EMPTY, ops).store, p)
  }

  /** Two lookups with one key are mixed up: upload and look up the first, and the second
      gets the first one's map. */
  lemma {:induction false} SharedKeyMixesUp(lib: Library, pairs: iset<Pair>, p: Pair, q: Pair)
    requires p in pairs && q in pairs && p != q && Key(p) == Key(q) && Storable(lib, p)
    ensures !AlwaysExact(lib, pairs)
  {
    var release, fileName, content :| StoresMap(lib, p, release, fileName, content);
    var upload, lookup := Upload(release, fileName, content, false), Lookup(p, false);
    var s := Step(lib, EMPTY, upload);
    UploadStores(lib, p, release, fileName, content);
    FirstLookupRemembers(lib, s, p);
    var t := Step(lib, s, lookup);
    assert t.entries == map[Key(p) := Uncached(lib, s.store, p).value] && t.store == s.store;
    HeldForAnother(lib, t, p, q);
    MixUpIsARun(lib, pairs, upload, p, q);
  }

  lemma {:induction false} MixUpIsARun(lib: Library, pairs: iset<Pair>, upload: Op, p: Pair, q: Pair)
    requires upload.Upload? && p in pairs && q in pairs
    requires var t := Step(lib, Step(lib, EMPTY, upload), Lookup(p, false));
             Answer(lib, t, q, false) != Uncached(lib, t.store, q)
    ensures !AlwaysExact(lib, pairs)
  {
    RunOfTwo(lib, EMPTY, upload, Lookup(p, false));
    TwoOpsFit(pairs, upload, p);
    NotExactAfter(lib, pairs, [upload, Lookup(p, false)], q);
  }

  lemma {:induction false} TwoOpsFit(pairs: iset<Pair>, upload: Op, p: Pair)
    requires upload.Upload? && p in pairs
    ensures LooksUpOnly([upload, Lookup(p, false)], pairs) && NoFetchFails([upload, Lookup(p, false)])
  {
  }

  lemma {:induction false} NotExactAfter(lib: Library, pairs: iset<Pair>, ops: seq<Op>, q: Pair)
    requires LooksUpOnly(ops, pairs) && NoFetchFails(ops) && q in pairs
    requires Answer(lib, Run(lib, EMPTY, ops), q, false) != Uncached(lib, Run(lib, EMPTY, ops).store, q)
    ensures !AlwaysExact(lib, pairs)
  {
  }

  lemma {:induction false} UploadStores(lib: Library, p: Pair, release: string, fileName: string, content: Bytes)
    requires StoresMap(lib, p, release, fileName, content)
    ensures var s := AfterUpload(lib, EMPTY, release, fileName, content, false);
            s.entries == map[] && s.misses == {} && s.store.Keys == {p} && Uncached(lib, s.store, p).Some?
  {
  }

  lemma {:induction false} HeldForAnother(lib: Library, s: State, p: Pair, q: Pair)
    requires Key(p) in s.entries && Key(p) == Key(q) && q !in s.store
    ensures Answer(lib, s, q, false) != Uncached(lib, s.store, q)
  {
  }

  lemma {:induction false} RunOfTwo(lib: Library, s: State, a: Op, b: Op)
    ensures Run(lib, s, [a, b]) == Step(lib, Step(lib, s, a), b)
  {
    assert [a, b][1..] == [b] && [b][1..] == [];
    assert Run(lib, Step(lib, s, a), [b]) == Run(lib, Step(lib, Step(lib, s, a), b), []);
  }

  lemma {:induction false} FirstLookupRemembers(lib: Library, s: State, p: Pair)
    requires s.entries == map[] && s.misses == {} && Uncached(lib, s.store, p).Some?
    ensures AfterLookup(lib, s, p, false) == s.(entries := map[Key(p) := Uncached(lib, s.store, p).value])
  {
  }

  /** The cache is exact over every run without failed fetches if and only if no two of
      the lookups made share a key of which one can have a map. */
  lemma {:induction false} ExactIffNeverMixed(lib: Library, pairs: iset<Pair>)
    ensures AlwaysExact(lib, pairs) <==> NeverMixed(lib, pairs)
  {
    if NeverMixed(lib, pairs) {
      forall ops, p | LooksUpOnly(ops, pairs) && NoFetchFails(ops) && p in pairs
        ensures Answer(lib, Run(lib, EMPTY, ops), p, false) == Uncached(lib, Run(lib, EMPTY, ops).store, p)
      {
        CacheIsInvisible(lib, pairs, ops, p);
      }
    }
    forall p, q | p in pairs && q in pairs && p != q && Key(p) == Key(q) && Storable(lib, p)
      ensures !AlwaysExact(lib, pairs)
    {
      SharedKeyMixesUp(lib, pairs, p, q);
    }
  }

  /** Releases without "|" are enough. */
  lemma {:induction false} PlainReleasesAreUnambiguous(lib: Library, pairs: iset<Pair>)
    requires forall p: Pair | p in pairs :: '|' !in p.0
    ensures Unambiguous(pairs) && NeverMixed(lib, pairs)
  {
    forall p, q | p in pairs && q in pairs && Key(p) == Key(q)
      ensures p == q
    {
      SplitConcat(p.0, p.1, '|');
      SplitConcat(q.0, q.1, '|');
      assert Key(p) == p.0 + ['|'] + p.1 && Key(q) == q.0 + ['|'] + q.1;
      assert Split(Key(p), '|')[0] == p.0 && Split(Key(q), '|')[0] == q.0;
      assert Key(p)[|p.0| + 1..] == p.1 && Key(q)[|q.0| + 1..] == q.1;
    }
  }

  // ---------------------------------------------------------------------------
  // File names

  /** A directory as it stands before a file name: none, or one that ends in a slash. */
  predicate IsDirectory(dir: string) { dir == "" || dir[|dir| - 1] == '/' }

  lemma {:induction false} AfterLastSlash(dir: string, base: string)
    requires IsDirectory(dir) && '/' !in base
    ensures AfterSlash(dir + base) == base
    decreases |dir|
  {
    var s := dir + base;
    if dir == "" {
      assert s == base;
    } else {
      assert s[|dir| - 1] == '/';
      assert s[1..] == dir[1..] + base;
      AfterLastSlash(dir[1..], base);
    }
  }

  predicate IsTrimmed(s: string) { s != "" && !IsSpace(s[0]) && !IsSpace(s[|s| - 1]) }

  /** A map uploaded under the name its bundle has on disk, in whatever directory and with
      or without ".map", is the one looked up for a frame of the bundle, wherever that was
      served from, as long as the name is not cut. */
  lemma {:induction false} UploadedNameIsLookedUp(lib: Library, dir: string, url: string, base: string, suffix: string)
    requires IsDirectory(dir) && IsDirectory(url) && base != "" && '/' !in base
    requires suffix == ".map" || (suffix == "" && !HasSuffix(base, ".map"))
    requires IsTrimmed(dir + (base + suffix)) && lib.clip(base, 200) == base
    ensures GeneratedFileName(lib, dir + (base + suffix)) == base == PathBase(url + base)
  {
    var file := base + suffix;
    NoSlashInEither(base, suffix);
    AfterLastSlash(dir, file);
    SuffixIsTrimmed(base, suffix, ".map");
    BaseOfPath(url, base);
    TrimmedStays(dir + file);
    NameOf(lib, dir + file, file);
  }

  lemma {:induction false} SuffixIsTrimmed(s: string, suffix: string, trimmed: string)
    requires suffix == trimmed || (suffix == "" && !HasSuffix(s, trimmed))
    ensures TrimSuffix(s + suffix, trimmed) == s
  {
    if suffix == "" {
      assert s + suffix == s;
    }
  }

  lemma {:induction false} BaseOfPath(url: string, base: string)
    requires IsDirectory(url) && base != "" && '/' !in base
    ensures PathBase(url + base) == base
  {
    var path := url + base;
    AfterLastSlash(url, base);
    assert path[|path| - 1] == base[|base| - 1];
    assert TrimSlashes(path) == path;
  }

  lemma {:induction false} TrimmedStays(s: string)
    requires IsTrimmed(s)
    ensures TrimSpace(s) == s
  {
  }

  lemma {:induction false} NoSlashInEither(a: string, b: string)
    requires '/' !in a && '/' !in b
    ensures '/' !in a + b
  {
  }

  lemma {:induction false} NameOf(lib: Library, path: string, file: string)
    requires TrimSpace(path) == path && AfterSlash(path) == file
    ensures GeneratedFileName(lib, path) == lib.clip(TrimSuffix(file, ".map"), 200)
  {
  }

  // ---------------------------------------------------------------------------
  // The resolver through the cache

  function Current(lib: Library, store: map<Pair, Bytes>): Lookup
  {
    (release, fileName) => Uncached(lib, store, (release, fileName))
  }

  function Aim(lib: Library, store: map<Pair, Bytes>, release: string): Frame -> Option<Original>
  {
    f => Target(f, release, Current(lib, store))
  }

  ghost predicate AsksWithin(lines: seq<string>, release: string, pairs: iset<Pair>)
  {
    forall line | line in lines && FrameOfLine(line).Some? ::
      (release, PathBase(FrameOfLine(line).value.file)) in pairs
  }

  lemma {:induction false} AnswerIsExact(lib: Library, s: State, pairs: iset<Pair>, p: Pair)
    requires Faithful(lib, s, {}, pairs) && p in pairs
    ensures Answer(lib, s, p, false) == Uncached(lib, s.store, p)
  {
  }

  lemma {:induction false} FrameIsExact(lib: Library, s: State, pairs: iset<Pair>, f: Frame, release: string)
    requires Faithful(lib, s, {}, pairs) && AgreeIn(lib, s.store, pairs) && (release, PathBase(f.file)) in pairs
    ensures var r := FrameThrough(lib, s, f, release, false);
            && Faithful(lib, r.0, {}, pairs) && r.0.store == s.store
            && r.1 == RewriteFrame(Some(f), Aim(lib, s.store, release))
  {
    var p := (release, PathBase(f.file));
    LookupKeepsFaith(lib, s, {}, pairs, p, false);
    AnswerIsExact(lib, s, pairs, p);
    AimIsTarget(lib, s.store, release, f);
  }

  lemma {:induction false} MaybeIsExact(lib: Library, s: State, pairs: iset<Pair>, frame: Option<Frame>,
                                        release: string)
    requires Faithful(lib, s, {}, pairs) && AgreeIn(lib, s.store, pairs)
    requires frame.Some? ==> (release, PathBase(frame.value.file)) in pairs
    ensures var r := MaybeThrough(lib, s, frame, release, false);
            && Faithful(lib, r.0, {}, pairs) && r.0.store == s.store
            && r.1 == RewriteFrame(frame, Aim(lib, s.store, release))
  {
    if frame.Some? {
      FrameIsExact(lib, s, pairs, frame.value, release);
    }
  }

  lemma {:induction false} LineIsExact(lib: Library, s: State, pairs: iset<Pair>, line: string, release: string)
    requires Faithful(lib, s, {}, pairs) && AgreeIn(lib, s.store, pairs)
    requires FrameOfLine(line).Some? ==> (release, PathBase(FrameOfLine(line).value.file)) in pairs
    ensures var r := LineThrough(lib, s, line, release, false);
            && Faithful(lib, r.0, {}, pairs) && r.0.store == s.store
            && r.1 == RewriteOf(line, Aim(lib, s.store, release))
  {
    MaybeIsExact(lib, s, pairs, FrameOfLine(line), release);
  }

  lemma {:induction false} AimIsTarget(lib: Library, store: map<Pair, Bytes>, release: string, f: Frame)
    ensures var consumer := Uncached(lib, store, (release, PathBase(f.file)));
            Aim(lib, store, release)(f) == if consumer.Some? then Source(f, consumer.value) else None
  {
    assert Current(lib, store)(release, PathBase(f.file)) == Uncached(lib, store, (release, PathBase(f.file)));
  }

  /** A resolver that turns every line into what rewrite says, as long as its state is good,
      does so for the first n lines. */
  lemma {:induction false} LinesAreExact(through: Resolver, s: State, lines: seq<string>, n: nat, fails: nat -> bool,
                                         good: State -> bool, rewrite: string -> Option<string>)
    requires good(s) && n <= |lines| && forall i :: !fails(i)
    requires forall t, line | good(t) && line in lines ::
               good(through(t, line, false).0) && through(t, line, false).1 == rewrite(line)
    ensures var r := ResolveFirst(through, s, lines, n, fails);
            && good(r.0)
            && (forall k :: 0 <= k < n ==> r.1[k] == if rewrite(lines[k]).Some? then rewrite(lines[k]).value
               else lines[k])
            && (r.2 <==> exists i :: 0 <= i < n && rewrite(lines[i]).Some?)
    decreases n
  {
    if n > 0 {
      LinesAreExact(through, s, lines, n - 1, fails, good, rewrite);
      var before := ResolveFirst(through, s, lines, n - 1, fails);
      assert lines[n - 1] in lines && !fails(n - 1);
      assert good(through(before.0, lines[n - 1], false).0);
    }
  }

  function RewriteBy(target: Frame -> Option<Original>): string -> Option<string>
  {
    line => RewriteOf(line, target)
  }

  /** Resolving a stack through the cache is resolving it through the maps as they are in
      the store now, and leaves the cache as truthful as it was. */
  lemma {:induction false} ResolvingIsExact(lib: Library, s: State, pairs: iset<Pair>, stack: string, release: string,
                                            fails: nat -> bool)
    requires Faithful(lib, s, {}, pairs) && AgreeIn(lib, s.store, pairs)
    requires AsksWithin(Lines(stack), release, pairs) && forall i :: !fails(i)
    ensures var r := ResolveThrough(lib, s, stack, release, fails);
            && (r.1, r.2) == ResolveSpec(stack, release, Some(Current(lib, s.store)))
            && Faithful(lib, r.0, {}, pairs) && r.0.store == s.store
  {
    if stack != "" && release != "" {
      var through, lines := Through(lib, release), Lines(stack);
      var good, rewrite := StaysGood(lib, s.store, pairs), RewriteBy(Aim(lib, s.store, release));
      forall t, line | good(t) && line in lines
        ensures good(through(t, line, false).0) && through(t, line, false).1 == rewrite(line)
      {
        ThroughIsExact(lib, t, pairs, line, release);
      }
      LinesAreExact(through, s, lines, |lines|, fails, good, rewrite);
      SameText(lib, s, stack, release, fails);
    }
  }

  ghost function StaysGood(lib: Library, store: map<Pair, Bytes>, pairs: iset<Pair>): State -> bool
  {
    t => Faithful(lib, t, {}, pairs) && t.store == store
  }

  lemma {:induction false} ThroughIsExact(lib: Library, t: State, pairs: iset<Pair>, line: string, release: string)
    requires Faithful(lib, t, {}, pairs) && AgreeIn(lib, t.store, pairs)
    requires FrameOfLine(line).Some? ==> (release, PathBase(FrameOfLine(line).value.file)) in pairs
    ensures StaysGood(lib, t.store, pairs)(Through(lib, release)(t, line, false).0)
    ensures Through(lib, release)(t, line, false).1 == RewriteBy(Aim(lib, t.store, release))(line)
  {
    LineIsExact(lib, t, pairs, line, release);
  }

  lemma {:induction false} SameText(lib: Library, s: State, stack: string, release: string, fails: nat -> bool)
    requires stack != "" && release != ""
    requires var all := ResolveFirst(Through(lib, release), s, Lines(stack), |Lines(stack)|, fails);
             var rewrite := RewriteBy(Aim(lib, s.store, release));
             && (forall k :: 0 <= k < |Lines(stack)| ==>
                   all.1[k] == if rewrite(Lines(stack)[k]).Some? then rewrite(Lines(stack)[k]).value
                     else Lines(stack)[k])
             && (all.2 <==> exists i :: 0 <= i < |Lines(stack)| && rewrite(Lines(stack)[i]).Some?)
    ensures var r := ResolveThrough(lib, s, stack, release, fails);
            (r.1, r.2) == ResolveSpec(stack, release, Some(Current(lib, s.store)))
  {
    var target := Aim(lib, s.store, release);
    var all := ResolveFirst(Through(lib, release), s, Lines(stack), |Lines(stack)|, fails);
    assert all.1 == RewrittenLines(Lines(stack), target);
    assert all.2 == AnyMapped(Lines(stack), target);
    assert ResolveSpec(stack, release, Some(Current(lib, s.store))) == Resolve(stack, target);
  }
}
