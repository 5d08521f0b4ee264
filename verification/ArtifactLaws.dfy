/** Which map a lookup finds (business/domain/clienterrorbus/artifact.go, resolve.go): the
    one of the last upload that was accepted for its release and file. */
module ArtifactLaws {
  import opened Basics
  import opened Text
  import opened Resolution
  import opened SourceMapCache

  /** The upload stores these bytes for this release and file: both names are there, the
      content is there, of at most 32 MiB and a source map, and the store works. */
  predicate Accepts(lib: Library, op: Op, p: Pair, bytes: Bytes)
  {
    && op.Upload? && !op.storeFails
    && TrimSpace(op.release) != "" && GeneratedFileName(lib, op.fileName) != ""
    && 0 < |op.content| <= 33_554_432 && lib.prepare(op.content) == Some(bytes)
    && p == (lib.clip(TrimSpace(op.release), 120), GeneratedFileName(lib, op.fileName))
  }

  ghost predicate AcceptsSome(lib: Library, op: Op, p: Pair) { exists bytes :: Accepts(lib, op, p, bytes) }

  /** Op k is the last upload that was accepted for the pair, and these are its bytes. */
  ghost predicate LastUpload(lib: Library, ops: seq<Op>, k: nat, p: Pair, bytes: Bytes)
  {
    && k < |ops| && Accepts(lib, ops[k], p, bytes)
    && forall m :: k < m < |ops| ==> !AcceptsSome(lib, ops[m], p)
  }

  ghost predicate Uploaded(lib: Library, ops: seq<Op>, p: Pair, bytes: Bytes)
  {
    exists k: nat :: LastUpload(lib, ops, k, p, bytes)
  }

  lemma {:induction false} RunLast(lib: Library, s: State, ops: seq<Op>, op: Op)
    ensures Run(lib, s, ops + [op]) == Step(lib, Run(lib, s, ops), op)
    decreases |ops|
  {
    if ops == [] {
      assert [op][1..] == [];
      assert Run(lib, s, [op]) == Run(lib, Step(lib, s, op), []);
    } else {
      assert (ops + [op])[0] == ops[0] && (ops + [op])[1..] == ops[1..] + [op];
      RunLast(lib, Step(lib, s, ops[0]), ops[1..], op);
    }
  }

  /** One operation stores what it accepts and leaves every other row alone. */
  lemma {:induction false} StoreStep(lib: Library, s: State, op: Op, p: Pair, bytes: Bytes)
    ensures var store := Step(lib, s, op).store;
            p in store && store[p] == bytes <==>
            Accepts(lib, op, p, bytes) || (!AcceptsSome(lib, op, p) && p in s.store && s.store[p] == bytes)
  {
    assert Accepts(lib, op, p, bytes) ==> AcceptsSome(lib, op, p);
    if op.Upload? {
      var row := Check(lib, op.release, op.fileName, op.content);
      if row.Row? && !op.storeFails {
        assert Accepts(lib, op, row.pair, row.bytes);
        assert AcceptsSome(lib, op, row.pair);
      }
    }
  }

  lemma {:induction false} UploadedStep(lib: Library, ops: seq<Op>, op: Op, p: Pair, bytes: Bytes)
    ensures Uploaded(lib, ops + [op], p, bytes) <==>
            Accepts(lib, op, p, bytes) || (!AcceptsSome(lib, op, p) && Uploaded(lib, ops, p, bytes))
  {
    var all, n := ops + [op], |ops|;
    assert all[n] == op && forall i :: 0 <= i < n ==> all[i] == ops[i];
    if k: nat :| LastUpload(lib, all, k, p, bytes) {
      if k < n {
        assert !AcceptsSome(lib, all[n], p);
        assert LastUpload(lib, ops, k, p, bytes);
      }
    }
    if Accepts(lib, op, p, bytes) {
      assert LastUpload(lib, all, n, p, bytes);
    } else if !AcceptsSome(lib, op, p) {
      if k: nat :| LastUpload(lib, ops, k, p, bytes) {
        assert LastUpload(lib, all, k, p, bytes);
      }
    }
  }

  /** The table of maps is the last accepted uploads. */
  lemma {:induction false} StoredIff(lib: Library, ops: seq<Op>, p: Pair, bytes: Bytes)
    ensures var store := Run(lib, EMPTY, ops).store;
            p in store && store[p] == bytes <==> Uploaded(lib, ops, p, bytes)
    decreases |ops|
  {
    if ops != [] {
      var n := |ops| - 1;
      assert ops == ops[..n] + [ops[n]];
      RunLast(lib, EMPTY, ops[..n], ops[n]);
      StoredIff(lib, ops[..n], p, bytes);
      StoreStep(lib, Run(lib, EMPTY, ops[..n]), ops[n], p, bytes);
      UploadedStep(lib, ops[..n], ops[n], p, bytes);
    }
  }

  /** The upload is what is found. Over every run of uploads and lookups without failed
      fetches, with lookups that do not share a key, the cache answers a map if and only if
      the last upload accepted for the release and file stored bytes that parse to it. */
  lemma {:induction false} LookupFindsTheUpload(lib: Library, pairs: iset<Pair>, ops: seq<Op>, p: Pair,
                                                consumer: Consumer)
    requires NeverMixed(lib, pairs) && LooksUpOnly(ops, pairs) && p in pairs && NoFetchFails(ops)
    ensures Answer(lib, Run(lib, EMPTY, ops), p, false) == Some(consumer) <==>
            exists bytes ::
              Uploaded(lib, ops, p, bytes) && bytes != [] && lib.parse(p.1 + ".map", bytes) == Some(consumer)
  {
    CacheIsInvisible(lib, pairs, ops, p);
    var store := Run(lib, EMPTY, ops).store;
    if p in store {
      StoredIff(lib, ops, p, store[p]);
    }
    if bytes :| Uploaded(lib, ops, p, bytes) && bytes != [] && lib.parse(p.1 + ".map", bytes) == Some(consumer) {
      StoredIff(lib, ops, p, bytes);
    }
  }

  /** From the bundle to its frames. A map that was the last one uploaded for a release, under
      the name its bundle has on disk, is the one every frame of the bundle is looked up in,
      wherever the bundle was served from. */
  lemma {:induction false} FramesFindTheirMap(lib: Library, pairs: iset<Pair>, ops: seq<Op>, k: nat, dir: string,
                                              url: string, base: string, suffix: string, bytes: Bytes)
    requires k < |ops| && ops[k].Upload? && !ops[k].storeFails && ops[k].fileName == dir + (base + suffix)
    requires IsDirectory(dir) && IsDirectory(url) && base != "" && '/' !in base
    requires suffix == ".map" || (suffix == "" && !HasSuffix(base, ".map"))
    requires IsTrimmed(dir + (base + suffix)) && lib.clip(base, 200) == base
    requires IsTrimmed(ops[k].release) && lib.clip(ops[k].release, 120) == ops[k].release
    requires 0 < |ops[k].content| <= 33_554_432 && lib.prepare(ops[k].content) == Some(bytes) && bytes != []
    requires forall m :: k < m < |ops| ==> !AcceptsSome(lib, ops[m], (ops[k].release, base))
    requires NeverMixed(lib, pairs) && LooksUpOnly(ops, pairs) && NoFetchFails(ops)
    requires (ops[k].release, PathBase(url + base)) in pairs
    ensures Answer(lib, Run(lib, EMPTY, ops), (ops[k].release, PathBase(url + base)), false)
         == lib.parse(base + ".map", bytes)
  {
    UploadedNameIsLookedUp(lib, dir, url, base, suffix);
    TrimmedStays(ops[k].release);
    var p := (ops[k].release, base);
    assert Accepts(lib, ops[k], p, bytes);
    assert LastUpload(lib, ops, k, p, bytes);
    StoredIff(lib, ops, p, bytes);
    CacheIsInvisible(lib, pairs, ops, p);
  }

  /** What can be wrong with an upload, in the order in which it is looked at. */
  function Problems(lib: Library, release: string, fileName: string, content: Bytes): seq<(bool, UploadError)>
  {
    [(TrimSpace(release) == "", NoRelease), (|content| == 0, NoContent), (|content| > 33_554_432, TooLarge),
     (lib.prepare(content).None? || GeneratedFileName(lib, fileName) == "", Invalid)]
  }

  /** The first thing that is wrong is what a refused upload is told. */
  lemma {:induction false} FirstProblemIsNamed(lib: Library, release: string, fileName: string, content: Bytes,
                                               error: UploadError)
    ensures Check(lib, release, fileName, content) == Refused(error) <==>
            exists k :: 0 <= k < 4 && Problems(lib, release, fileName, content)[k] == (true, error)
                        && forall m :: 0 <= m < k ==> !Problems(lib, release, fileName, content)[m].0
  {
    var problems := Problems(lib, release, fileName, content);
    if k :| 0 <= k < 4 && problems[k] == (true, error) && forall m :: 0 <= m < k ==> !problems[m].0 {
      assert k > 0 ==> !problems[0].0;
      assert k > 1 ==> !problems[1].0;
      assert k > 2 ==> !problems[2].0;
    }
    if Check(lib, release, fileName, content) == Refused(error) {
      var k := if problems[0].0 then 0 else if problems[1].0 then 1 else if problems[2].0 then 2 else 3;
      assert problems[k] == (true, error);
    }
  }
}
