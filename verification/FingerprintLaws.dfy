/** Which frames identify an issue, by their places in the stack
    (business/domain/clienterrorbus/fingerprint.go). The conditions speak of the parsed
    frames alone, not of how the text is put together. */
module FingerprintLaws {
  import opened Basics
  import opened Text
  import opened StackFrames
  import opened Fingerprint

  // ---------------------------------------------------------------------------
  // Places

  ghost predicate Rising(places: seq<nat>)
  {
    forall i, j :: 0 <= i < j < |places| ==> places[i] < places[j]
  }

  ghost predicate AnyOurs(frames: seq<Frame>) { exists i :: 0 <= i < |frames| && frames[i].inApp }

  /** The places, in order, of the frames that are ours; of all frames when none is. */
  ghost predicate TakePart(frames: seq<Frame>, places: seq<nat>)
  {
    && Rising(places)
    && forall i: nat :: i in places <==> i < |frames| && (frames[i].inApp || !AnyOurs(frames))
  }

  ghost predicate OnlyOurs(frames: seq<Frame>, places: seq<nat>)
  {
    Rising(places) && forall i: nat :: i in places <==> i < |frames| && frames[i].inApp
  }

  lemma {:induction false} SamePlaces(a: seq<nat>, b: seq<nat>)
    requires Rising(a) && Rising(b) && forall i: nat :: i in a <==> i in b
    ensures a == b
    decreases |a|
  {
    assert a == [] <==> b == [] by {
      if a != [] {
        assert a[0] in b;
      }
      if b != [] {
        assert b[0] in a;
      }
    }
    if a != [] {
      var x, y := a[|a| - 1], b[|b| - 1];
      assert x in b && y in a;
      assert x == y;
      var a1, b1 := a[..|a| - 1], b[..|b| - 1];
      forall i: nat
        ensures i in a1 <==> i in b1
      {
        assert i in a <==> i in a1 || i == x by { assert a == a1 + [x]; }
        assert i in b <==> i in b1 || i == y by { assert b == b1 + [y]; }
      }
      SamePlaces(a1, b1);
      assert a == a1 + [x] && b == b1 + [y];
    }
  }

  /** One more frame of ours is one more place. */
  lemma {:induction false} OneMorePlace(frames: seq<Frame>, before: seq<nat>, places: seq<nat>)
    requires frames != [] && OnlyOurs(frames[..|frames| - 1], before)
    requires places == if frames[|frames| - 1].inApp then before + [|frames| - 1] else before
    ensures OnlyOurs(frames, places)
  {
    var n := |frames| - 1;
    forall k | 0 <= k < |before|
      ensures before[k] < n
    {
      assert before[k] in before;
    }
    forall i: nat
      ensures i in places <==> i < |frames| && frames[i].inApp
    {
      assert i in places <==> i in before || (i == n && frames[n].inApp);
      assert i < n ==> frames[..n][i] == frames[i];
    }
  }

  lemma {:induction false} OwnPlaces(frames: seq<Frame>) returns (places: seq<nat>)
    ensures OnlyOurs(frames, places)
    ensures |OwnFrames(frames)| == |places|
    ensures forall k :: 0 <= k < |places| ==> places[k] < |frames| && OwnFrames(frames)[k] == frames[places[k]]
    decreases |frames|
  {
    places := [];
    if frames != [] {
      var n := |frames| - 1;
      var before := OwnPlaces(frames[..n]);
      OwnFramesStep(frames, n);
      assert frames[..n + 1] == frames;
      places := if frames[n].inApp then before + [n] else before;
      OneMorePlace(frames, before, places);
    }
  }

  lemma {:induction false} GroupingPlaces(frames: seq<Frame>) returns (places: seq<nat>)
    ensures TakePart(frames, places)
    ensures |GroupingFrames(frames)| == |places|
    ensures forall k :: 0 <= k < |places| ==> places[k] < |frames| && GroupingFrames(frames)[k] == frames[places[k]]
  {
    places := OwnPlaces(frames);
    if places == [] {
      forall i | 0 <= i < |frames|
        ensures !frames[i].inApp
      {
        assert i !in places;
      }
      assert !AnyOurs(frames);
      places := seq(|frames|, i => i);
      forall i: nat
        ensures i in places <==> i < |frames|
      {
        assert i < |frames| ==> places[i] == i;
      }
    } else {
      assert places[0] in places;
      assert AnyOurs(frames);
    }
  }

  // ---------------------------------------------------------------------------
  // The text

  /** The part of the frame at the k-th place; the first five places have one. */
  function SitePart(f: Frame): string { f.file + ":" + f.line + ":" + f.name }

  ghost predicate PartsAt(frames: seq<Frame>, places: seq<nat>, parts: seq<string>)
  {
    && |parts| == (if |places| < 5 then |places| else 5)
    && forall k :: 0 <= k < |parts| ==> places[k] < |frames| && parts[k] == SitePart(frames[places[k]])
  }

  /** Which frames identify an issue. For every event that is no API failure, the text is the
      kind, the name and the normalized message, then file, line and name of the first five
      frames that are ours, or of the first five frames when none is ours; nothing else. */
  lemma {:induction false} FirstFiveIdentify(e: Event, normalize: string -> string)
    returns (places: seq<nat>, parts: seq<string>)
    requires e.kind != "api" || e.api.None?
    ensures TakePart(StackSpec(e.stack), places) && PartsAt(StackSpec(e.stack), places, parts)
    ensures KeyOf(e, normalize) == Join([e.kind, e.name, normalize(e.message)] + parts, '|')
  {
    var frames := StackSpec(e.stack);
    places := GroupingPlaces(frames);
    parts := PartsOfPlaces(frames, places);
    assert PartsOf(e, frames, normalize(e.message)) == [e.kind, e.name, normalize(e.message)] + parts;
  }

  lemma {:induction false} PartsOfPlaces(frames: seq<Frame>, places: seq<nat>) returns (parts: seq<string>)
    requires TakePart(frames, places) && |GroupingFrames(frames)| == |places|
    requires forall k :: 0 <= k < |places| ==> places[k] < |frames| && GroupingFrames(frames)[k] == frames[places[k]]
    ensures parts == Strings(Top(GroupingFrames(frames))) && PartsAt(frames, places, parts)
  {
    parts := Strings(Top(GroupingFrames(frames)));
    forall k | 0 <= k < |parts|
      ensures places[k] < |frames| && parts[k] == SitePart(frames[places[k]])
    {
      assert places[k] in places;
      assert Top(GroupingFrames(frames))[k] == GroupingFrames(frames)[k];
    }
  }

  /** The first five places of two stacks name the same files, lines and functions. */
  ghost predicate SameFirstFive(a: seq<Frame>, pa: seq<nat>, b: seq<Frame>, pb: seq<nat>)
  {
    && (|pa| == |pb| || (|pa| >= 5 && |pb| >= 5))
    && forall k :: 0 <= k < 5 && k < |pa| ==> SameAt(a, pa[k], b, pb[k])
  }

  ghost predicate SameAt(a: seq<Frame>, i: nat, b: seq<Frame>, j: nat)
  {
    && i < |a| && j < |b|
    && a[i].file == b[j].file && a[i].line == b[j].line && a[i].name == b[j].name
  }

  lemma {:induction false} TextAtPlaces(e: Event, normalize: string -> string, places: seq<nat>)
    returns (parts: seq<string>)
    requires (e.kind != "api" || e.api.None?) && TakePart(StackSpec(e.stack), places)
    ensures PartsAt(StackSpec(e.stack), places, parts)
    ensures KeyOf(e, normalize) == Join([e.kind, e.name, normalize(e.message)] + parts, '|')
  {
    var found: seq<nat>;
    found, parts := FirstFiveIdentify(e, normalize);
    SamePlaces(found, places);
  }

  /** Nothing behind the fifth place matters, and no column: stacks whose first five places
      agree give the same text. */
  lemma {:induction false} BehindTheFifthNothingMatters(e: Event, stack: string, normalize: string -> string,
                                                        pa: seq<nat>, pb: seq<nat>)
    requires e.kind != "api" || e.api.None?
    requires TakePart(StackSpec(e.stack), pa) && TakePart(StackSpec(stack), pb)
    requires SameFirstFive(StackSpec(e.stack), pa, StackSpec(stack), pb)
    ensures KeyOf(e, normalize) == KeyOf(e.(stack := stack), normalize)
  {
    var x := TextAtPlaces(e, normalize, pa);
    var y := TextAtPlaces(e.(stack := stack), normalize, pb);
    assert x == y;
  }

  /** A part of a text that can be read back from it. */
  predicate Clear(part: string) { '|' !in part }

  /** The frame's part can be read back, and its file, line and name from the part. */
  predicate ClearSite(f: Frame) { Clear(SitePart(f)) && ':' !in f.name }

  ghost predicate ClearFirstFive(frames: seq<Frame>, places: seq<nat>)
  {
    forall k :: 0 <= k < 5 && k < |places| ==> places[k] < |frames| && ClearSite(frames[places[k]])
  }

  lemma {:induction false} PartsTellSites(a: seq<Frame>, pa: seq<nat>, x: seq<string>, b: seq<Frame>, pb: seq<nat>,
                                          y: seq<string>)
    requires PartsAt(a, pa, x) && PartsAt(b, pb, y) && ClearFirstFive(a, pa) && ClearFirstFive(b, pb)
    requires AllWellFormed(a) && AllWellFormed(b)
    ensures x == y <==> SameFirstFive(a, pa, b, pb)
  {
    if |x| == |y| {
      forall k | 0 <= k < |x|
        ensures x[k] == y[k] <==> SameSite(a[pa[k]], b[pb[k]])
      {
        var f, g := a[pa[k]], b[pb[k]];
        assert WellFormed(f) && WellFormed(g) && ClearSite(f) && ClearSite(g);
        FrameStringsTellSites(f, g);
        assert x[k] == SitePart(f) && y[k] == SitePart(g);
      }
      if SameFirstFive(a, pa, b, pb) {
        forall k | 0 <= k < |x|
          ensures x[k] == y[k]
        {
          assert SameSite(a[pa[k]], b[pb[k]]);
        }
      }
    }
  }

  lemma {:induction false} ClearParts(frames: seq<Frame>, places: seq<nat>, parts: seq<string>, first: seq<string>)
    requires PartsAt(frames, places, parts) && ClearFirstFive(frames, places) && NoBar(first)
    ensures NoBar(first + parts)
  {
    forall k | 0 <= k < |first + parts|
      ensures '|' !in (first + parts)[k]
    {
      if k >= |first| {
        var j := k - |first|;
        assert ClearSite(frames[places[j]]) && parts[j] == SitePart(frames[places[j]]);
      }
    }
  }

  /** A different site among the first five changes the text. Texts of events that are no API
      failures, with parts that can be read back, are the same if and only if the kind, the
      name, the normalized message and the sites at the first five places are; frames at
      other places decide nothing. */
  lemma {:induction false} FirstFiveDecideIff(a: Event, b: Event, normalize: string -> string, pa: seq<nat>,
                                              pb: seq<nat>)
    requires (a.kind != "api" || a.api.None?) && (b.kind != "api" || b.api.None?)
    requires TakePart(StackSpec(a.stack), pa) && TakePart(StackSpec(b.stack), pb)
    requires ClearFirstFive(StackSpec(a.stack), pa) && ClearFirstFive(StackSpec(b.stack), pb)
    requires Clear(a.kind) && Clear(a.name) && Clear(normalize(a.message))
    requires Clear(b.kind) && Clear(b.name) && Clear(normalize(b.message))
    ensures KeyOf(a, normalize) == KeyOf(b, normalize) <==>
            && a.kind == b.kind && a.name == b.name && normalize(a.message) == normalize(b.message)
            && SameFirstFive(StackSpec(a.stack), pa, StackSpec(b.stack), pb)
  {
    FramesAreWellFormed(a.stack);
    FramesAreWellFormed(b.stack);
    var x := TextAtPlaces(a, normalize, pa);
    var y := TextAtPlaces(b, normalize, pb);
    TextsAtPlacesIff(a, b, normalize(a.message), normalize(b.message), StackSpec(a.stack), StackSpec(b.stack), pa, pb,
                     x, y);
  }

  lemma {:induction false} TextsAtPlacesIff(a: Event, b: Event, m: string, n: string, fa: seq<Frame>, fb: seq<Frame>,
                                            pa: seq<nat>, pb: seq<nat>, x: seq<string>, y: seq<string>)
    requires PartsAt(fa, pa, x) && PartsAt(fb, pb, y) && ClearFirstFive(fa, pa) && ClearFirstFive(fb, pb)
    requires AllWellFormed(fa) && AllWellFormed(fb)
    requires Clear(a.kind) && Clear(a.name) && Clear(m) && Clear(b.kind) && Clear(b.name) && Clear(n)
    ensures Join([a.kind, a.name, m] + x, '|') == Join([b.kind, b.name, n] + y, '|') <==>
            a.kind == b.kind && a.name == b.name && m == n && SameFirstFive(fa, pa, fb, pb)
  {
    ClearParts(fa, pa, x, [a.kind, a.name, m]);
    ClearParts(fb, pb, y, [b.kind, b.name, n]);
    PartsAreToldApart([a.kind, a.name, m] + x, [b.kind, b.name, n] + y);
    ThreeThenRest(a.kind, a.name, m, x, b.kind, b.name, n, y);
    PartsTellSites(fa, pa, x, fb, pb, y);
  }

  // ---------------------------------------------------------------------------
  // Whose frame it is

  /** A marker of a dependency stands at some position of the lowered file and name. */
  ghost predicate Marked(file: string, name: string)
  {
    exists marker, i :: marker in VENDOR_MARKERS && StandsAt(ToLower(file + " " + name), marker, i)
  }

  /** A frame that was read is ours exactly when no marker of a dependency stands anywhere in
      its file and name, whatever the case they are written in. */
  lemma {:induction false} OursIff(stack: string, k: nat)
    requires k < |StackSpec(stack)|
    ensures var f := StackSpec(stack)[k]; f.inApp <==> !Marked(f.file, f.name)
  {
    FramesAreWellFormed(stack);
    var f := StackSpec(stack)[k];
    assert WellFormed(f);
    VendorIsMarked(f.file, f.name);
  }

  lemma {:induction false} VendorIsMarked(file: string, name: string)
    ensures IsVendor(file, name) <==> Marked(file, name)
  {
    var t := ToLower(file + " " + name);
    forall k | 0 <= k < |VENDOR_MARKERS|
      ensures Contains(t, VENDOR_MARKERS[k]) <==> exists i :: StandsAt(t, VENDOR_MARKERS[k], i)
    {
      ContainsIff(t, VENDOR_MARKERS[k]);
    }
    if k :| 0 <= k < |VENDOR_MARKERS| && Contains(t, VENDOR_MARKERS[k]) {
      var i :| StandsAt(t, VENDOR_MARKERS[k], i);
      assert VENDOR_MARKERS[k] in VENDOR_MARKERS;
    }
    if marker, i :| marker in VENDOR_MARKERS && StandsAt(t, marker, i) {
      var k :| 0 <= k < |VENDOR_MARKERS| && VENDOR_MARKERS[k] == marker;
      assert Contains(t, VENDOR_MARKERS[k]);
    }
  }

  lemma {:induction false} LowerIsLower(s: string)
    ensures ToLower(ToLower(s)) == ToLower(s)
  {
    forall i | 0 <= i < |s|
      ensures ToLower(ToLower(s))[i] == ToLower(s)[i]
    {
      assert LowerChar(LowerChar(s[i])) == LowerChar(s[i]);
    }
  }

  /** Case does not decide whose frame it is. */
  lemma {:induction false} CaseDoesNotMatter(file: string, name: string)
    ensures IsVendor(ToLower(file), ToLower(name)) <==> IsVendor(file, name)
  {
    LowerIsLower(file + " " + name);
    assert ToLower(ToLower(file) + " " + ToLower(name)) == ToLower(ToLower(file + " " + name)) by {
      assert ToLower(file) + " " + ToLower(name) == ToLower(file + " " + name);
    }
  }

  // ---------------------------------------------------------------------------
  // API failures

  lemma {:induction false} NumbersAreTold(m: int, n: int)
    ensures DecimalInt(m) == DecimalInt(n) <==> m == n
    ensures '|' !in DecimalInt(m)
  {
    ValueOfDecimal(if m < 0 then -m else m);
    ValueOfDecimal(if n < 0 then -n else n);
    var s, t := Decimal(if m < 0 then -m else m), Decimal(if n < 0 then -n else n);
    assert Digit(s[0]) && Digit(t[0]);
    assert forall i :: 0 <= i < |s| ==> Digit(s[i]);
    assert m < 0 ==> DecimalInt(m)[0] == '-' && DecimalInt(m)[1..] == s;
    assert n < 0 ==> DecimalInt(n)[0] == '-' && DecimalInt(n)[1..] == t;
  }

  /** API failures. Texts of two API failures, with no bar in their parts, are the same if and
      only if name, method, path, status and code are; messages and stacks decide nothing. */
  lemma {:induction false} ApiFailuresDecideIff(a: Event, b: Event, normalize: string -> string)
    requires a.kind == "api" && a.api.Some? && b.kind == "api" && b.api.Some?
    requires Clear(a.name) && Clear(a.api.value.method_) && Clear(a.api.value.path) && Clear(a.api.value.code)
    requires Clear(b.name) && Clear(b.api.value.method_) && Clear(b.api.value.path) && Clear(b.api.value.code)
    ensures KeyOf(a, normalize) == KeyOf(b, normalize) <==> a.name == b.name && a.api == b.api
  {
    ApiParts(a, normalize);
    ApiParts(b, normalize);
    var x, y := a.api.value, b.api.value;
    NumbersAreTold(x.status, y.status);
    NumbersAreTold(y.status, x.status);
    var p := ["api", a.name, x.method_, x.path, DecimalInt(x.status), x.code];
    var q := ["api", b.name, y.method_, y.path, DecimalInt(y.status), y.code];
    PartsAreToldApart(p, q);
    assert p == q <==> p[1] == q[1] && p[2] == q[2] && p[3] == q[3] && p[4] == q[4] && p[5] == q[5];
  }

  lemma {:induction false} ApiParts(e: Event, normalize: string -> string)
    requires e.kind == "api" && e.api.Some?
    ensures KeyOf(e, normalize) == Join(["api", e.name, e.api.value.method_, e.api.value.path,
                                         DecimalInt(e.api.value.status), e.api.value.code], '|')
  {
  }
}
