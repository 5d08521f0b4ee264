/** Rewriting a minified stack through the source maps of its release
    (business/domain/clienterrorbus/resolve.go).

    A map is a total lookup from a generated position to an original one. The main
    results say what a rewritten stack is, line by line, and when parsing it gives the
    frames of the old one with the mapped frames replaced in place. */
module Resolution {
  import opened Basics
  import opened Text
  import opened FrameLine
  import opened StackFrames

  datatype Original = Original(source: string, name: string, line: int, column: int)

  /** consumer.Source: nothing when it reports no mapping. */
  type Consumer = (nat, nat) -> Option<Original>

  /** MapFor: the map for one generated file of a release. */
  type Lookup = (string, string) -> Option<Consumer>

  function TrimSlashes(s: string): string
  {
    if s != "" && s[|s| - 1] == '/' then TrimSlashes(s[..|s| - 1]) else s
  }

  function AfterSlash(s: string): string
  {
    if '/' in s then AfterSlash(s[1..]) else s
  }

  /** path.Base. */
  function PathBase(path: string): string
  {
    if path == "" then "."
    else
      var base := AfterSlash(TrimSlashes(path));
      if base == "" then "/" else base
  }

  /** The one frame of a line. */
  function FrameOfLine(line: string): Option<Frame>
  {
    var frames := StackSpec(line);
    if |frames| != 1 || frames[0].file == "" || frames[0].line == "" || frames[0].column == "" then None
    else Some(frames[0])
  }

  /** Where a frame comes from. A map without a name keeps the browser's. */
  function Source(f: Frame, consumer: Consumer): Option<Original>
  {
    var line, column := Atoi(f.line), Atoi(f.column);
    if line.None? || column.None? then None
    else
      match consumer(line.value, column.value)
      case None => None
      case Some(o) =>
        if o.source == "" then None else Some(if o.name == "" then o.(name := f.name) else o)
  }

  function Target(f: Frame, release: string, maps: Lookup): Option<Original>
  {
    match maps(release, PathBase(f.file))
    case None => None
    case Some(consumer) => Source(f, consumer)
  }

  function Render(o: Original): string { RenderFrame(o.name, o.source, o.line, o.column) }

  /** What a line becomes, if it is rewritten at all. */
  function RewriteOf(line: string, target: Frame -> Option<Original>): Option<string>
  {
    RewriteFrame(FrameOfLine(line), target)
  }

  function RewriteFrame(frame: Option<Frame>, target: Frame -> Option<Original>): Option<string>
  {
    match frame
    case None => None
    case Some(f) =>
      match target(f)
      case None => None
      case Some(o) => Some(Render(o))
  }

  function Rewritten(line: string, target: Frame -> Option<Original>): string
  {
    match RewriteOf(line, target)
    case None => line
    case Some(text) => text
  }

  function RewrittenLines(lines: seq<string>, target: Frame -> Option<Original>): (r: seq<string>)
    ensures |r| == |lines|
    ensures forall i :: 0 <= i < |lines| ==> r[i] == Rewritten(lines[i], target)
  {
    seq(|lines|, i requires 0 <= i < |lines| => Rewritten(lines[i], target))
  }

  predicate AnyMapped(lines: seq<string>, target: Frame -> Option<Original>)
  {
    exists i :: 0 <= i < |lines| && RewriteOf(lines[i], target).Some?
  }

  function Resolve(stack: string, target: Frame -> Option<Original>): (string, bool)
  {
    if AnyMapped(Lines(stack), target) then (Unlines(RewrittenLines(Lines(stack), target)), true)
    else (stack, false)
  }

  /** ResolveStack. */
  function ResolveSpec(stack: string, release: string, maps: Option<Lookup>): (string, bool)
  {
    if stack == "" || release == "" || maps.None? then (stack, false)
    else Resolve(stack, f => Target(f, release, maps.value))
  }

  // ---------------------------------------------------------------------------
  // One frame

  /** A browser's frame whose position the map of its file knows is rewritten to the place
      the map gives for exactly that line and column. */
  lemma {:induction false} MappedFrameIsRewritten(name: string, file: string, line: nat, column: nat, release: string,
                                                  maps: Lookup, consumer: Consumer, o: Original)
    requires Renderable(name, file, line, column) && line <= MAX_INT64 && column <= MAX_INT64 && release != ""
    requires maps(release, PathBase(file)) == Some(consumer) && consumer(line, column) == Some(o) && o.source != ""
    ensures ResolveSpec(RenderFrame(name, file, line, column), release, Some(maps))
         == (RenderFrame(if o.name == "" then name else o.name, o.source, o.line, o.column), true)
  {
    var text := RenderFrame(name, file, line, column);
    var f := Written(name, file, line, column);
    RenderableIsRead(name, file, line, column);
    LineHoldsOneFrame(text);
    SourceOfWritten(name, file, line, column, consumer, o);
    var target := (g: Frame) => Target(g, release, maps);
    assert target(f) == Source(f, consumer);
    OneMappedLine(text, target, Source(f, consumer).value);
    assert ResolveSpec(text, release, Some(maps)) == Resolve(text, g => Target(g, release, maps));
    SameTargets(text, target, g => Target(g, release, maps));
  }

  /** One that no map knows is left as it was. */
  lemma {:induction false} UnmappedFrameStays(name: string, file: string, line: nat, column: nat, release: string,
                                              maps: Lookup)
    requires Renderable(name, file, line, column) && line <= MAX_INT64 && column <= MAX_INT64
    requires maps(release, PathBase(file)).Some? ==>
               var o := maps(release, PathBase(file)).value(line, column); o.None? || o.value.source == ""
    ensures ResolveSpec(RenderFrame(name, file, line, column), release, Some(maps))
         == (RenderFrame(name, file, line, column), false)
  {
    var text := RenderFrame(name, file, line, column);
    var f := Written(name, file, line, column);
    RenderableIsRead(name, file, line, column);
    LineHoldsOneFrame(text);
    AtoiOfDecimal(line);
    AtoiOfDecimal(column);
    var target := (g: Frame) => Target(g, release, maps);
    assert target(f) == None;
    assert RewriteOf(text, target) == None;
    assert !AnyMapped(Lines(text), target);
    SameTargets(text, target, g => Target(g, release, maps));
  }

  lemma {:induction false} SourceOfWritten(name: string, file: string, line: nat, column: nat, consumer: Consumer,
                                           o: Original)
    requires line <= MAX_INT64 && column <= MAX_INT64 && consumer(line, column) == Some(o) && o.source != ""
    ensures Source(Written(name, file, line, column), consumer)
         == Some(if o.name == "" then o.(name := name) else o)
  {
    AtoiOfDecimal(line);
    AtoiOfDecimal(column);
  }

  lemma {:induction false} OneMappedLine(text: string, target: Frame -> Option<Original>, o: Original)
    requires Lines(text) == [text] && FrameOfLine(text).Some? && target(FrameOfLine(text).value) == Some(o)
    ensures Resolve(text, target) == (Render(o), true)
  {
    MappedLine(text, target, o);
    OneLineText(text, target, Render(o));
  }

  lemma {:induction false} MappedLine(text: string, target: Frame -> Option<Original>, o: Original)
    requires FrameOfLine(text).Some? && target(FrameOfLine(text).value) == Some(o)
    ensures RewriteOf(text, target) == Some(Render(o))
  {
    assert RewriteFrame(Some(FrameOfLine(text).value), target) == Some(Render(o));
  }

  lemma {:induction false} OneLineText(text: string, target: Frame -> Option<Original>, rewritten: string)
    requires Lines(text) == [text] && RewriteOf(text, target) == Some(rewritten)
    ensures Resolve(text, target) == (rewritten, true)
  {
    assert RewriteOf(Lines(text)[0], target).Some?;
    assert RewrittenLines(Lines(text), target) == [rewritten];
  }

  lemma {:induction false} SameTargets(text: string, a: Frame -> Option<Original>, b: Frame -> Option<Original>)
    requires forall f :: a(f) == b(f)
    ensures Resolve(text, a) == Resolve(text, b)
  {
    assert forall line :: RewriteOf(line, a) == RewriteOf(line, b);
    assert RewrittenLines(Lines(text), a) == RewrittenLines(Lines(text), b);
    assert AnyMapped(Lines(text), a) <==> AnyMapped(Lines(text), b);
  }

  // ---------------------------------------------------------------------------
  // Lines

  /** The text after resolving, whether or not anything was mapped. */
  lemma {:induction false} ResolveJoins(stack: string, target: Frame -> Option<Original>)
    ensures Resolve(stack, target).0 == Unlines(RewrittenLines(Lines(stack), target))
  {
    if !AnyMapped(Lines(stack), target) {
      JoinSplit(stack, '\n');
      assert RewrittenLines(Lines(stack), target) == Lines(stack);
    }
  }

  /** A stack keeps its number of lines, and the lines that are not mapped, exactly when
      no rewritten line holds a line break of its own. */
  lemma {:induction false} LinesStayInPlace(stack: string, target: Frame -> Option<Original>)
    ensures Lines(Resolve(stack, target).0) == RewrittenLines(Lines(stack), target)
       <==> forall line | line in Lines(stack) :: '\n' !in Rewritten(line, target)
  {
    ResolveJoins(stack, target);
    LinesOfUnlinesIff(RewrittenLines(Lines(stack), target));
    WholeLines(Lines(stack), target);
  }

  lemma {:induction false} WholeLines(lines: seq<string>, target: Frame -> Option<Original>)
    ensures (forall i :: 0 <= i < |lines| ==> '\n' !in RewrittenLines(lines, target)[i])
       <==> forall line | line in lines :: '\n' !in Rewritten(line, target)
  {
    WholeImages(lines, RewrittenLines(lines, target), line => Rewritten(line, target));
  }

  lemma {:induction false} WholeImages(lines: seq<string>, images: seq<string>, f: string -> string)
    requires |images| == |lines| && forall i :: 0 <= i < |lines| ==> images[i] == f(lines[i])
    ensures (forall i :: 0 <= i < |lines| ==> '\n' !in images[i]) <==> forall line | line in lines :: '\n' !in f(line)
  {
    forall line | line in lines
      ensures exists i :: 0 <= i < |lines| && images[i] == f(line)
    {
      var i :| 0 <= i < |lines| && lines[i] == line;
      assert images[i] == f(line);
    }
  }

  // ---------------------------------------------------------------------------
  // Frames

  function Replaced(f: Frame, target: Frame -> Option<Original>): Frame
  {
    match target(f)
    case None => f
    case Some(o) => Written(o.name, o.source, o.line, o.column)
  }

  function ReplaceAll(frames: seq<Frame>, target: Frame -> Option<Original>): (r: seq<Frame>)
    ensures |r| == |frames| && forall k :: 0 <= k < |frames| ==> r[k] == Replaced(frames[k], target)
  {
    seq(|frames|, k requires 0 <= k < |frames| => Replaced(frames[k], target))
  }

  /** What reading the old line should give after replacing. */
  function ReadThenReplace(target: Frame -> Option<Original>): string -> Option<Frame>
  {
    line => if Reader()(line).Some? then Some(Replaced(Reader()(line).value, target)) else None
  }

  /** What reading the new line gives. */
  function RewriteThenRead(target: Frame -> Option<Original>): string -> Option<Frame>
  {
    line => Reader()(Rewritten(line, target))
  }

  lemma {:induction false} LineHoldsOneFrame(line: string)
    requires '\n' !in line
    ensures FrameOfLine(line) == Reader()(line)
  {
    SplitOne(line, '\n');
    CollectOne(line, Reader());
    FramesAreWellFormed(line);
    if Reader()(line).Some? {
      assert StackSpec(line) == [Reader()(line).value];
      assert WellFormed(StackSpec(line)[0]);
    }
  }

  lemma {:induction false} CollectMapped<T>(lines: seq<string>, read: string -> Option<T>, f: T -> T,
                                            both: string -> Option<T>)
    requires forall line :: both(line) == if read(line).Some? then Some(f(read(line).value)) else None
    ensures |Collect(lines, both)| == |Collect(lines, read)|
    ensures forall k :: 0 <= k < |Collect(lines, read)| ==> Collect(lines, both)[k] == f(Collect(lines, read)[k])
    decreases |lines|
  {
    if lines != [] {
      CollectMapped(lines[1..], read, f, both);
    }
  }

  lemma {:induction false} CollectAfter<T>(lines: seq<string>, news: seq<string>, read: string -> Option<T>,
                                           both: string -> Option<T>)
    requires |news| == |lines| && forall i :: 0 <= i < |lines| ==> read(news[i]) == both(lines[i])
    ensures Collect(news, read) == Collect(lines, both)
    decreases |lines|
  {
    if lines != [] {
      assert read(news[0]) == both(lines[0]);
      CollectAfter(lines[1..], news[1..], read, both);
    }
  }

  /** A reader that reads no more lines than another reads the same text only by reading
      every line the same. */
  lemma {:induction false} CollectTellsLines<T>(lines: seq<string>, less: string -> Option<T>,
                                                more: string -> Option<T>)
    requires forall line | line in lines :: less(line).Some? ==> more(line).Some?
    ensures |Collect(lines, less)| <= |Collect(lines, more)|
    ensures Collect(lines, less) == Collect(lines, more) <==> forall line | line in lines :: less(line) == more(line)
    decreases |lines|
  {
    if lines != [] {
      var rest := lines[1..];
      CollectTellsLines(rest, less, more);
      assert forall line :: line in lines <==> line == lines[0] || line in rest;
      assert less(lines[0]).Some? ==> more(lines[0]).Some?;
      assert less(lines[0]).None? ==> Collect(lines, less) == Collect(rest, less);
      assert more(lines[0]).None? ==> Collect(lines, more) == Collect(rest, more);
      if less(lines[0]).Some? {
        SameHeads(less(lines[0]).value, more(lines[0]).value, Collect(rest, less), Collect(rest, more));
      }
    }
  }

  lemma {:induction false} SameHeads<T>(x: T, y: T, a: seq<T>, b: seq<T>)
    ensures [x] + a == [y] + b <==> x == y && a == b
  {
    assert ([x] + a)[1..] == a && ([y] + b)[1..] == b;
    assert ([x] + a)[0] == x && ([y] + b)[0] == y;
  }

  /** Every mapped frame of a stack comes from a place that can be written down. */
  ghost predicate AllRenderable(frames: seq<Frame>, target: Frame -> Option<Original>)
  {
    forall f | f in frames && target(f).Some? :: RenderableOriginal(target(f).value)
  }

  predicate RenderableOriginal(o: Original) { Renderable(o.name, o.source, o.line, o.column) }

  lemma {:induction false} RenderedIsReadBack(o: Original)
    requires '\n' !in Render(o)
    ensures Reader()(Render(o)) == Some(Written(o.name, o.source, o.line, o.column)) <==> RenderableOriginal(o)
  {
    SplitOne(Render(o), '\n');
    CollectOne(Render(o), Reader());
    RoundTrip(o.name, o.source, o.line, o.column);
  }

  lemma {:induction false} LineReadsAlike(line: string, target: Frame -> Option<Original>)
    requires '\n' !in line && '\n' !in Rewritten(line, target)
    ensures RewriteThenRead(target)(line).Some? ==> ReadThenReplace(target)(line).Some?
    ensures RewriteThenRead(target)(line) == ReadThenReplace(target)(line) <==>
            (Reader()(line).Some? && target(Reader()(line).value).Some? ==>
               RenderableOriginal(target(Reader()(line).value).value))
  {
    LineHoldsOneFrame(line);
    if Reader()(line).Some? && target(Reader()(line).value).Some? {
      RenderedIsReadBack(target(Reader()(line).value).value);
    }
  }

  lemma {:induction false} FramesComeFromLines(lines: seq<string>)
    ensures forall f :: f in Collect(lines, Reader()) <==> exists line :: line in lines && Reader()(line) == Some(f)
    decreases |lines|
  {
    if lines != [] {
      FramesComeFromLines(lines[1..]);
      assert forall line :: line in lines <==> line == lines[0] || line in lines[1..];
    }
  }

  /** Both sides of the main result, as readings of the same lines. */
  lemma {:induction false} BothReadings(stack: string, target: Frame -> Option<Original>)
    requires forall line | line in Lines(stack) :: '\n' !in Rewritten(line, target)
    ensures StackSpec(Resolve(stack, target).0) == Collect(Lines(stack), RewriteThenRead(target))
    ensures ReplaceAll(StackSpec(stack), target) == Collect(Lines(stack), ReadThenReplace(target))
  {
    var lines := Lines(stack);
    LinesStayInPlace(stack, target);
    CollectAfter(lines, RewrittenLines(lines, target), Reader(), RewriteThenRead(target));
    CollectMapped(lines, Reader(), (f: Frame) => Replaced(f, target), ReadThenReplace(target));
  }

  /** If parsing the new stack gives the replaced frames, no rewritten line is broken. */
  lemma {:induction false} ReplacedFramesAreWhole(stack: string, target: Frame -> Option<Original>)
    requires StackSpec(Resolve(stack, target).0) == ReplaceAll(StackSpec(stack), target)
    ensures forall line | line in Lines(stack) :: '\n' !in Rewritten(line, target)
  {
    FramesAreWellFormed(Resolve(stack, target).0);
    FramesComeFromLines(Lines(stack));
    LinesAreWhole(stack);
    forall line | line in Lines(stack)
      ensures '\n' !in Rewritten(line, target)
    {
      LineHoldsOneFrame(line);
      if RewriteOf(line, target).Some? {
        var f := Reader()(line).value;
        var o := target(f).value;
        assert f in StackSpec(stack);
        var k :| 0 <= k < |StackSpec(stack)| && StackSpec(stack)[k] == f;
        assert WellFormed(ReplaceAll(StackSpec(stack), target)[k]);
        NoNewLineInClean(o.name, o.source);
        OneLine(o.name, o.source, o.line, o.column);
      }
    }
  }

  /** Parsing commutes with resolving exactly when every mapped frame of the stack comes
      from a place that can be written down. */
  lemma {:induction false} ParsingCommutes(stack: string, target: Frame -> Option<Original>)
    ensures StackSpec(Resolve(stack, target).0) == ReplaceAll(StackSpec(stack), target)
       <==> AllRenderable(StackSpec(stack), target)
  {
    FramesComeFromLines(Lines(stack));
    if AllRenderable(StackSpec(stack), target) {
      RenderableIsWhole(stack, target);
      CommutesLineByLine(stack, target);
    }
    if StackSpec(Resolve(stack, target).0) == ReplaceAll(StackSpec(stack), target) {
      ReplacedFramesAreWhole(stack, target);
      CommutesLineByLine(stack, target);
    }
  }

  lemma {:induction false} RenderableIsWhole(stack: string, target: Frame -> Option<Original>)
    requires AllRenderable(StackSpec(stack), target)
    ensures forall line | line in Lines(stack) :: '\n' !in Rewritten(line, target)
  {
    FramesComeFromLines(Lines(stack));
    LinesAreWhole(stack);
    forall line | line in Lines(stack)
      ensures '\n' !in Rewritten(line, target)
    {
      LineHoldsOneFrame(line);
      if RewriteOf(line, target).Some? {
        var f := Reader()(line).value;
        var o := target(f).value;
        assert f in StackSpec(stack);
        RenderableIsRead(o.name, o.source, o.line, o.column);
      }
    }
  }

  lemma {:induction false} CommutesLineByLine(stack: string, target: Frame -> Option<Original>)
    requires forall line | line in Lines(stack) :: '\n' !in Rewritten(line, target)
    ensures StackSpec(Resolve(stack, target).0) == ReplaceAll(StackSpec(stack), target)
       <==> AllRenderable(StackSpec(stack), target)
  {
    var less, more := RewriteThenRead(target), ReadThenReplace(target);
    BothReadings(stack, target);
    LinesAreWhole(stack);
    forall line | line in Lines(stack)
      ensures less(line).Some? ==> more(line).Some?
      ensures less(line) == more(line) <==>
              (Reader()(line).Some? && target(Reader()(line).value).Some? ==>
                 RenderableOriginal(target(Reader()(line).value).value))
    {
      LineReadsAlike(line, target);
    }
    CollectTellsLines(Lines(stack), less, more);
    FramesComeFromLines(Lines(stack));
  }
}
