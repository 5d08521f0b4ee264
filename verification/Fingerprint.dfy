/** What identifies an issue (business/domain/clienterrorbus/fingerprint.go).

    The fingerprint is a hash of a joined list of parts; the hash is left out, so the key
    here is the joined text. The normalized message is an argument. The main results say
    what a fingerprint does not depend on: columns, frames of dependencies, and, once
    stacks are resolved, the release that produced them. */
module Fingerprint {
  import opened Basics
  import opened Text
  import opened StackFrames
  import opened Resolution

  const MAX_FRAMES: nat := 5

  const KIND_API := "api"

  datatype Api = Api(method_: string, path: string, status: int, code: string)

  datatype Event = Event(kind: string, name: string, message: string, stack: string, api: Option<Api>)

  /** A frame in a fingerprint, without its column. */
  function FrameString(f: Frame): string { f.file + ":" + f.line + ":" + f.name }

  // ---------------------------------------------------------------------------
  // The frames that take part

  function OwnFrames(frames: seq<Frame>): (r: seq<Frame>)
    ensures |r| <= |frames|
  {
    if frames == [] then []
    else if frames[0].inApp then [frames[0]] + OwnFrames(frames[1..])
    else OwnFrames(frames[1..])
  }

  /** Our own frames, or all of them when none is ours. */
  function GroupingFrames(frames: seq<Frame>): seq<Frame>
  {
    if OwnFrames(frames) == [] then frames else OwnFrames(frames)
  }

  function Top(frames: seq<Frame>): seq<Frame>
  {
    if |frames| > MAX_FRAMES then frames[..MAX_FRAMES] else frames
  }

  function Strings(frames: seq<Frame>): (r: seq<string>)
    ensures |r| == |frames| && forall k :: 0 <= k < |frames| ==> r[k] == FrameString(frames[k])
  {
    seq(|frames|, k requires 0 <= k < |frames| => FrameString(frames[k]))
  }

  function PartsOf(e: Event, frames: seq<Frame>, normalized: string): seq<string>
  {
    if e.kind == KIND_API && e.api.Some? then
      [e.kind, e.name, e.api.value.method_, e.api.value.path, DecimalInt(e.api.value.status), e.api.value.code]
    else
      [e.kind, e.name, normalized] + Strings(Top(GroupingFrames(frames)))
  }

  /** The text that is hashed. */
  function KeyOf(e: Event, normalize: string -> string): string
  {
    Join(PartsOf(e, StackSpec(e.stack), normalize(e.message)), '|')
  }

  method InAppFrames(frames: seq<Frame>) returns (out: seq<Frame>)
    ensures out == GroupingFrames(frames)
  {
    out := [];
    for i := 0 to |frames|
      invariant out == OwnFrames(frames[..i])
    {
      OwnFramesStep(frames, i);
      if frames[i].inApp {
        out := out + [frames[i]];
      }
    }
    assert frames[..|frames|] == frames;
    if |out| == 0 {
      return frames;
    }
  }

  lemma {:induction false} OwnFramesConcat(a: seq<Frame>, b: seq<Frame>)
    ensures OwnFrames(a + b) == OwnFrames(a) + OwnFrames(b)
    decreases |a|
  {
    if a == [] {
      assert a + b == b;
    } else {
      assert (a + b)[0] == a[0] && (a + b)[1..] == a[1..] + b;
      OwnFramesConcat(a[1..], b);
      Associative([a[0]], OwnFrames(a[1..]), OwnFrames(b));
    }
  }

  lemma {:induction false} OwnFramesStep(frames: seq<Frame>, i: nat)
    requires i < |frames|
    ensures OwnFrames(frames[..i + 1])
         == OwnFrames(frames[..i]) + (if frames[i].inApp then [frames[i]] else [])
  {
    assert frames[..i + 1] == frames[..i] + [frames[i]];
    OwnFramesConcat(frames[..i], [frames[i]]);
    assert [frames[i]][1..] == [];
  }

  /** Nothing is left exactly when no frame is ours. */
  lemma {:induction false} NoOwnFrames(frames: seq<Frame>)
    ensures OwnFrames(frames) == [] <==> forall f | f in frames :: !f.inApp
    decreases |frames|
  {
    if frames != [] {
      NoOwnFrames(frames[1..]);
      assert forall f :: f in frames <==> f == frames[0] || f in frames[1..];
    }
  }

  method FingerprintText(e: Event, normalize: string -> string) returns (text: string)
    ensures text == KeyOf(e, normalize)
  {
    var normalized := normalize(e.message);
    var parsed := ParseStack(e.stack);
    var frames := InAppFrames(parsed);
    if |frames| > MAX_FRAMES {
      frames := frames[..MAX_FRAMES];
    }
    var parts := [e.kind, e.name];
    if e.kind == KIND_API && e.api.Some? {
      var api := e.api.value;
      parts := parts + [api.method_, api.path, DecimalInt(api.status), api.code];
    } else {
      parts := AppendFrames(parts + [normalized], frames);
    }
    PartsAre(e, parsed, normalized, parts);
    return Join(parts, '|');
  }

  lemma {:induction false} PartsAre(e: Event, frames: seq<Frame>, normalized: string, parts: seq<string>)
    requires if e.kind == KIND_API && e.api.Some? then
               parts == [e.kind, e.name]
                 + [e.api.value.method_, e.api.value.path, DecimalInt(e.api.value.status), e.api.value.code]
             else parts == [e.kind, e.name] + [normalized] + Strings(Top(GroupingFrames(frames)))
    ensures parts == PartsOf(e, frames, normalized)
  {
  }

  method AppendFrames(start: seq<string>, frames: seq<Frame>) returns (parts: seq<string>)
    ensures parts == start + Strings(frames)
  {
    parts := start;
    for k := 0 to |frames|
      invariant parts == start + Strings(frames)[..k]
    {
      parts := parts + [FrameString(frames[k])];
    }
  }

  // ---------------------------------------------------------------------------
  // What a fingerprint does not depend on

  /** The same call site, whatever the column. */
  predicate SameSite(a: Frame, b: Frame) { a.name == b.name && a.file == b.file && a.line == b.line }

  predicate SameSites(a: seq<Frame>, b: seq<Frame>)
  {
    |a| == |b| && forall k :: 0 <= k < |a| ==> SameSite(a[k], b[k])
  }

  ghost predicate AllWellFormed(frames: seq<Frame>) { forall k :: 0 <= k < |frames| ==> WellFormed(frames[k]) }

  lemma {:induction false} OwnFramesAtSameSites(a: seq<Frame>, b: seq<Frame>)
    requires SameSites(a, b) && forall k :: 0 <= k < |a| ==> a[k].inApp == b[k].inApp
    ensures SameSites(OwnFrames(a), OwnFrames(b))
    decreases |a|
  {
    if a != [] {
      assert SameSite(a[0], b[0]);
      OwnFramesAtSameSites(a[1..], b[1..]);
    }
  }

  lemma {:induction false} PartsAtSameSites(e: Event, a: seq<Frame>, b: seq<Frame>, normalized: string)
    requires SameSites(a, b) && forall k :: 0 <= k < |a| ==> a[k].inApp == b[k].inApp
    ensures PartsOf(e, a, normalized) == PartsOf(e, b, normalized)
  {
    OwnFramesAtSameSites(a, b);
    assert SameSites(GroupingFrames(a), GroupingFrames(b));
    assert Strings(Top(GroupingFrames(a))) == Strings(Top(GroupingFrames(b)));
  }

  /** Columns do not matter: stacks whose frames are at the same sites give the same
      fingerprint. */
  lemma {:induction false} ColumnsDoNotMatter(e: Event, stack: string, normalize: string -> string)
    requires SameSites(StackSpec(e.stack), StackSpec(stack))
    ensures KeyOf(e, normalize) == KeyOf(e.(stack := stack), normalize)
  {
    FramesAreWellFormed(e.stack);
    FramesAreWellFormed(stack);
    SameSitesSameParts(e, stack, StackSpec(e.stack), StackSpec(stack), normalize(e.message));
  }

  lemma {:induction false} SameSitesSameParts(e: Event, stack: string, a: seq<Frame>, b: seq<Frame>, normalized: string)
    requires SameSites(a, b) && AllWellFormed(a) && AllWellFormed(b)
    ensures PartsOf(e.(stack := stack), b, normalized) == PartsOf(e, a, normalized)
  {
    forall k | 0 <= k < |a|
      ensures a[k].inApp == b[k].inApp
    {
      assert SameSite(a[k], b[k]) && WellFormed(a[k]) && WellFormed(b[k]);
    }
    PartsAtSameSites(e, a, b, normalized);
  }

  /** Frames of dependencies, wherever they are inserted, leave the frames that take part
      alone exactly when some frame is ours. */
  lemma {:induction false} VendorFramesDoNotMatter(a: seq<Frame>, vendor: seq<Frame>, b: seq<Frame>)
    requires vendor != [] && forall f | f in vendor :: !f.inApp
    ensures GroupingFrames(a + vendor + b) == GroupingFrames(a + b) <==> exists f :: f in a + b && f.inApp
  {
    OwnFramesConcat(a + vendor, b);
    OwnFramesConcat(a, vendor);
    OwnFramesConcat(a, b);
    NoOwnFrames(vendor);
    assert OwnFrames(a) + [] == OwnFrames(a);
    NoOwnFrames(a + b);
    assert |a + vendor + b| > |a + b|;
  }

  /** The same on stacks: lines whose frames all belong to dependencies can be added. */
  lemma {:induction false} VendorLinesDoNotMatter(e: Event, a: seq<string>, vendor: seq<string>, b: seq<string>,
                                                  normalize: string -> string)
    requires a + b != [] && (forall line | line in a + vendor + b :: '\n' !in line)
    requires e.stack == Unlines(a + b)
    requires forall f | f in Collect(vendor, Reader()) :: !f.inApp
    requires exists f :: f in StackSpec(e.stack) && f.inApp
    ensures KeyOf(e.(stack := Unlines(a + vendor + b)), normalize) == KeyOf(e, normalize)
  {
    FramesOfUnlines(a + b, a + vendor + b);
    FramesOfUnlines(a + vendor + b, a + vendor + b);
    VendorLinesAreDropped(a, vendor, b, Reader());
    SameGroupingSameKey(e, Unlines(a + vendor + b), normalize);
  }

  lemma {:induction false} VendorLinesAreDropped(a: seq<string>, vendor: seq<string>, b: seq<string>,
                                                 read: string -> Option<Frame>)
    requires forall f | f in Collect(vendor, read) :: !f.inApp
    requires exists f :: f in Collect(a + b, read) && f.inApp
    ensures GroupingFrames(Collect(a + vendor + b, read)) == GroupingFrames(Collect(a + b, read))
  {
    CollectConcat(a, b, read);
    CollectConcat(a + vendor, b, read);
    CollectConcat(a, vendor, read);
    var fa, fv, fb := Collect(a, read), Collect(vendor, read), Collect(b, read);
    if fv != [] {
      VendorFramesDoNotMatter(fa, fv, fb);
    } else {
      assert fa + fv == fa;
    }
  }

  lemma {:induction false} FramesOfUnlines(lines: seq<string>, all: seq<string>)
    requires lines != [] && (forall line | line in lines :: line in all) && forall line | line in all :: '\n' !in line
    ensures StackSpec(Unlines(lines)) == Collect(lines, Reader())
  {
    SplitJoin(lines, '\n');
  }

  lemma {:induction false} SameGroupingSameKey(e: Event, stack: string, normalize: string -> string)
    requires GroupingFrames(StackSpec(e.stack)) == GroupingFrames(StackSpec(stack))
    ensures KeyOf(e.(stack := stack), normalize) == KeyOf(e, normalize)
  {
    SameGroupingSameParts(e, stack, StackSpec(e.stack), StackSpec(stack), normalize(e.message));
  }

  lemma {:induction false} SameGroupingSameParts(e: Event, stack: string, a: seq<Frame>, b: seq<Frame>,
                                                 normalized: string)
    requires GroupingFrames(a) == GroupingFrames(b)
    ensures PartsOf(e.(stack := stack), b, normalized) == PartsOf(e, a, normalized)
  {
  }

  // ---------------------------------------------------------------------------
  // Releases

  /** Two releases of one program crash at one place: the minified stacks differ, but
      every frame resolves, in its own release's maps, to the same site. The events then
      have one fingerprint. */
  lemma {:induction false} StableAcrossReleases(e: Event, stack1: string, stack2: string,
                                                target1: Frame -> Option<Original>, target2: Frame -> Option<Original>,
                                                normalize: string -> string)
    requires AllRenderable(StackSpec(stack1), target1) && AllRenderable(StackSpec(stack2), target2)
    requires SameSites(ReplaceAll(StackSpec(stack1), target1), ReplaceAll(StackSpec(stack2), target2))
    ensures KeyOf(e.(stack := Resolve(stack1, target1).0), normalize)
         == KeyOf(e.(stack := Resolve(stack2, target2).0), normalize)
  {
    ParsingCommutes(stack1, target1);
    ParsingCommutes(stack2, target2);
    ColumnsDoNotMatter(e.(stack := Resolve(stack1, target1).0), Resolve(stack2, target2).0, normalize);
  }

  // ---------------------------------------------------------------------------
  // What a fingerprint does depend on

  predicate NoBar(parts: seq<string>) { forall k :: 0 <= k < |parts| ==> '|' !in parts[k] }

  /** Parts without "|" can be told apart by the joined text. */
  lemma {:induction false} PartsAreToldApart(a: seq<string>, b: seq<string>)
    requires a != [] && b != [] && NoBar(a) && NoBar(b)
    ensures Join(a, '|') == Join(b, '|') <==> a == b
  {
    SplitJoin(a, '|');
    SplitJoin(b, '|');
  }

  lemma {:induction false} ColonElsewhere(x: string, y: string, u: string, v: string)
    requires |x| < |u| && ':' !in y
    ensures x + ":" + y != u + ":" + v
  {
    var s, t := x + ":" + y, u + ":" + v;
    assert t[|u|] == ':';
    assert |u| < |s| ==> s[|u|] == y[|u| - |x| - 1];
  }

  lemma {:induction false} LastColon(x: string, y: string, u: string, v: string)
    requires ':' !in y && ':' !in v
    ensures x + ":" + y == u + ":" + v <==> x == u && y == v
  {
    var s, t := x + ":" + y, u + ":" + v;
    assert s[..|x|] == x && t[..|u|] == u && s[|x| + 1..] == y && t[|u| + 1..] == v;
    if |x| < |u| {
      ColonElsewhere(x, y, u, v);
    } else if |u| < |x| {
      ColonElsewhere(u, v, x, y);
    }
  }

  predicate PlainName(f: Frame) { ':' !in f.name && AllDigits(f.line) }

  /** A frame's text tells its site, unless a name has a colon in it. */
  lemma {:induction false} FrameStringsTellSites(a: Frame, b: Frame)
    requires PlainName(a) && PlainName(b)
    ensures FrameString(a) == FrameString(b) <==> SameSite(a, b)
  {
    assert ':' !in a.line && ':' !in b.line by {
      assert forall i :: 0 <= i < |a.line| ==> Digit(a.line[i]);
      assert forall i :: 0 <= i < |b.line| ==> Digit(b.line[i]);
    }
    LastColon(a.file + ":" + a.line, a.name, b.file + ":" + b.line, b.name);
    LastColon(a.file, a.line, b.file, b.line);
  }

  ghost predicate AllPlain(frames: seq<Frame>) { forall k :: 0 <= k < |frames| ==> PlainName(frames[k]) }

  lemma {:induction false} StringsTellSites(a: seq<Frame>, b: seq<Frame>)
    requires AllPlain(a) && AllPlain(b)
    ensures Strings(a) == Strings(b) <==> SameSites(a, b)
  {
    if |a| == |b| {
      forall k | 0 <= k < |a|
        ensures Strings(a)[k] == Strings(b)[k] <==> SameSite(a[k], b[k])
      {
        FrameStringsTellSites(a[k], b[k]);
      }
    }
  }

  /** What tells two events apart that are not API failures: kind, name, normalized
      message, and the sites of the top frames that take part, in order; nothing else. */
  lemma {:induction false} TextsAreEqualIff(a: Event, b: Event, fa: seq<Frame>, fb: seq<Frame>, m: string, n: string)
    requires a.kind != KIND_API && b.kind != KIND_API
    requires NoBar(PartsOf(a, fa, m)) && NoBar(PartsOf(b, fb, n))
    requires AllPlain(Top(GroupingFrames(fa))) && AllPlain(Top(GroupingFrames(fb)))
    ensures Join(PartsOf(a, fa, m), '|') == Join(PartsOf(b, fb, n), '|') <==>
            && a.kind == b.kind && a.name == b.name && m == n
            && SameSites(Top(GroupingFrames(fa)), Top(GroupingFrames(fb)))
  {
    var x, y := Strings(Top(GroupingFrames(fa))), Strings(Top(GroupingFrames(fb)));
    PartsAreToldApart(PartsOf(a, fa, m), PartsOf(b, fb, n));
    StringsTellSites(Top(GroupingFrames(fa)), Top(GroupingFrames(fb)));
    ThreeThenRest(a.kind, a.name, m, x, b.kind, b.name, n, y);
  }

  lemma {:induction false} ThreeThenRest(a1: string, a2: string, a3: string, x: seq<string>,
                                         b1: string, b2: string, b3: string, y: seq<string>)
    ensures [a1, a2, a3] + x == [b1, b2, b3] + y <==> a1 == b1 && a2 == b2 && a3 == b3 && x == y
  {
    var s, t := [a1, a2, a3] + x, [b1, b2, b3] + y;
    assert s[0] == a1 && s[1] == a2 && s[2] == a3 && s[3..] == x;
    assert t[0] == b1 && t[1] == b2 && t[2] == b3 && t[3..] == y;
  }

  /** No other name and message of an event are hashed from the same text. */
  ghost predicate NameAndMessageAreTold(e: Event, frames: seq<Frame>, message: string)
  {
    forall name, m | Join(PartsOf(e.(name := name), frames, m), '|') == Join(PartsOf(e, frames, message), '|') ::
      name == e.name && m == message
  }

  /** For every event that is no API failure, whatever its frames, name and message can be
      told from the hashed text if and only if neither holds a bar. */
  lemma {:induction false} ToldApartIff(e: Event, frames: seq<Frame>, message: string)
    requires e.kind != KIND_API
    ensures NameAndMessageAreTold(e, frames, message) <==> '|' !in e.name && '|' !in message
  {
    var rest := Strings(Top(GroupingFrames(frames)));
    forall name: string, m: string
      ensures Join(PartsOf(e.(name := name), frames, m), '|') == Join(PartsOf(e, frames, message), '|')
         <==> name + "|" + m == e.name + "|" + message
    {
      SameMiddle(e.kind, name, m, e.name, message, rest);
    }
    if '|' !in e.name && '|' !in message {
      forall name: string, m: string | name + "|" + m == e.name + "|" + message
        ensures name == e.name && m == message
      {
        OneBar(name, m, e.name, message);
      }
    } else {
      var name, m := MoveBar(e.name, message);
      assert Join(PartsOf(e.(name := name), frames, m), '|') == Join(PartsOf(e, frames, message), '|');
    }
  }

  lemma {:induction false} OneBar(x: string, y: string, u: string, v: string)
    requires x + "|" + y == u + "|" + v && '|' !in u && '|' !in v
    ensures x == u && y == v
  {
    SplitConcat(u, v, '|');
    SplitOne(v, '|');
    var s := u + ['|'] + v;
    assert s == u + "|" + v == x + "|" + y;
    assert s[|x|] == '|';
    assert forall i :: 0 <= i < |s| && s[i] == '|' ==> i == |u|;
    assert x == s[..|x|] && u == s[..|u|] && y == s[|x| + 1..] && v == s[|u| + 1..];
  }

  /** A bar in the name or the message can stand for the one between them. */
  lemma {:induction false} MoveBar(u: string, v: string) returns (x: string, y: string)
    requires '|' in u || '|' in v
    ensures x + "|" + y == u + "|" + v && (x != u || y != v)
  {
    if '|' in u {
      var i :| 0 <= i < |u| && u[i] == '|';
      x, y := u[..i], u[i + 1..] + "|" + v;
      assert u == u[..i] + "|" + u[i + 1..];
      assert |x| < |u|;
    } else {
      var i :| 0 <= i < |v| && v[i] == '|';
      x, y := u + "|" + v[..i], v[i + 1..];
      assert v == v[..i] + "|" + v[i + 1..];
      assert |y| < |v|;
    }
  }

  /** Texts with the same kind and frames differ in name and message only. */
  lemma {:induction false} SameMiddle(kind: string, a: string, m: string, b: string, n: string, rest: seq<string>)
    ensures Join([kind, a, m] + rest, '|') == Join([kind, b, n] + rest, '|') <==> a + "|" + m == b + "|" + n
  {
    JoinThree(kind, a, m, rest);
    JoinThree(kind, b, n, rest);
    var tail := if rest == [] then "" else "|" + Join(rest, '|');
    Regroup(kind, a, m, tail);
    Regroup(kind, b, n, tail);
    CancelEnds(kind + "|", a + "|" + m, b + "|" + n, tail);
  }

  lemma {:induction false} Regroup(kind: string, a: string, m: string, tail: string)
    ensures kind + "|" + a + "|" + m + tail == (kind + "|") + (a + "|" + m) + tail
  {
  }

  lemma {:induction false} CancelEnds(front: string, a: string, b: string, back: string)
    ensures front + a + back == front + b + back <==> a == b
  {
    if front + a + back == front + b + back {
      var s := front + a + back;
      assert |a| == |b|;
      assert s[|front|..|front| + |a|] == a && s[|front|..|front| + |b|] == b;
    }
  }

  lemma {:induction false} JoinThree(x: string, y: string, z: string, rest: seq<string>)
    ensures Join([x, y, z] + rest, '|')
         == x + "|" + y + "|" + z + (if rest == [] then "" else "|" + Join(rest, '|'))
  {
    var all := [x, y, z] + rest;
    assert all[1..] == [y, z] + rest && all[1..][1..] == [z] + rest && all[1..][1..][1..] == rest;
    assert Join([z] + rest, '|') == if rest == [] then z else z + "|" + Join(rest, '|');
  }
}
