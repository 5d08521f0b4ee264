/** Reading a browser stack trace and writing a resolved frame back
    (business/domain/clienterrorbus/fingerprint.go, resolve.go).

    A resolved frame is written in the shape the parser reads, so that it fingerprints
    through the same code as a raw one. The main result is the exact condition under
    which the parser does read it back. */
module StackFrames {
  import opened Basics
  import opened Text
  import opened FrameLine

  datatype Frame = Frame(name: string, file: string, line: string, column: string, inApp: bool)

  const VENDOR_MARKERS: seq<string> :=
    ["node_modules", "/vendor", "vendor-", "vendor.", "chunk-vendors", "webpack/bootstrap", "react-dom",
     "scheduler.production"]

  predicate IsVendor(file: string, name: string)
  {
    exists k :: 0 <= k < |VENDOR_MARKERS| && Contains(ToLower(file + " " + name), VENDOR_MARKERS[k])
  }

  // ---------------------------------------------------------------------------
  // Reading

  function NameIn(t: string, p: Parse): string
    requires IsParse(t, p)
  {
    if p.branch.AtNamed? || p.branch.Named? then t[p.fnFrom..p.fnTo] else ""
  }

  function FrameIn(t: string, p: Parse): Frame
    requires IsParse(t, p)
  {
    var name := NameIn(t, p);
    var file := t[p.loc..p.locTo];
    Frame(name, file, t[p.locTo + 1..p.lineTo], t[p.lineTo + 1..p.colTo], !IsVendor(file, name))
  }

  /** The frame a line of a stack holds. */
  function FrameOf(line: string): (r: Option<Frame>)
  {
    var t := TrimSpace(line);
    FindIsLeftmostFirst(t, 0);
    match Find(t, 0)
    case Some(p) => Some(FrameIn(t, p))
    case None => None
  }

  /** What is read from each line, in order, where something is. */
  function Collect<T>(lines: seq<string>, read: string -> Option<T>): seq<T>
  {
    if lines == [] then []
    else (if read(lines[0]).Some? then [read(lines[0]).value] else []) + Collect(lines[1..], read)
  }

  lemma {:induction false} CollectConcat<T>(a: seq<string>, b: seq<string>, read: string -> Option<T>)
    ensures Collect(a + b, read) == Collect(a, read) + Collect(b, read)
    decreases |a|
  {
    if a == [] {
      assert a + b == b;
    } else {
      assert (a + b)[1..] == a[1..] + b && (a + b)[0] == a[0];
      CollectConcat(a[1..], b, read);
      Associative(if read(a[0]).Some? then [read(a[0]).value] else [], Collect(a[1..], read), Collect(b, read));
    }
  }

  lemma {:induction false} CollectStep<T>(lines: seq<string>, i: nat, read: string -> Option<T>)
    requires i < |lines|
    ensures Collect(lines[..i + 1], read)
         == Collect(lines[..i], read) + (if read(lines[i]).Some? then [read(lines[i]).value] else [])
  {
    assert lines[..i + 1] == lines[..i] + [lines[i]];
    CollectConcat(lines[..i], [lines[i]], read);
    assert [lines[i]][1..] == [];
  }

  /** A property of everything that can be read holds of all that is read. */
  lemma {:induction false} CollectKeeps<T>(lines: seq<string>, read: string -> Option<T>, good: T -> bool)
    requires forall line | line in lines :: read(line).Some? ==> good(read(line).value)
    ensures forall k :: 0 <= k < |Collect(lines, read)| ==> good(Collect(lines, read)[k])
    decreases |lines|
  {
    if lines != [] {
      CollectKeeps(lines[1..], read, good);
    }
  }

  function Reader(): string -> Option<Frame> { FrameOf }

  /** The frames of a stack, in the order its lines hold them. */
  function StackSpec(stack: string): seq<Frame> { Collect(Lines(stack), Reader()) }

  method ParseStack(stack: string) returns (frames: seq<Frame>)
    ensures frames == StackSpec(stack)
  {
    frames := [];
    var lines := Lines(stack);
    for i := 0 to |lines|
      invariant frames == Collect(lines[..i], Reader())
    {
      CollectStep(lines, i, Reader());
      var frame := ReadLine(lines[i]);
      if frame.None? {
        continue;
      }
      frames := frames + [frame.value];
    }
    assert lines[..|lines|] == lines;
  }

  method ReadLine(line: string) returns (frame: Option<Frame>)
    ensures frame == Reader()(line)
  {
    var t := TrimSpace(line);
    FindIsLeftmostFirst(t, 0);
    if t == "" {
      NothingInNothing();
      return None;
    }
    var m := Find(t, 0);
    if m.None? {
      return None;
    }
    var f := FrameIn(t, m.value);
    var inApp := NotVendor(f.file, f.name);
    return Some(f.(inApp := inApp));
  }

  method NotVendor(file: string, name: string) returns (inApp: bool)
    ensures inApp == !IsVendor(file, name)
  {
    inApp := true;
    var lower := ToLower(file + " " + name);
    for k := 0 to |VENDOR_MARKERS|
      invariant inApp && forall n :: 0 <= n < k ==> !Contains(lower, VENDOR_MARKERS[n])
    {
      if Contains(lower, VENDOR_MARKERS[k]) {
        return false;
      }
    }
  }

  lemma {:induction false} NothingInNothing()
    ensures Find("", 0).None?
  {
  }

  /** Every field of a frame that was read: never empty but the name, and of the classes
      of characters the expression allows. */
  ghost predicate WellFormed(f: Frame)
  {
    && f.file != [] && (forall i :: 0 <= i < |f.file| ==> LocChar(f.file[i]))
    && AllDigits(f.line) && AllDigits(f.column)
    && (forall i :: 0 <= i < |f.name| ==> !RegexSpace(f.name[i]))
    && f.inApp == !IsVendor(f.file, f.name)
  }

  lemma {:induction false} FrameInIsWellFormed(t: string, p: Parse)
    requires IsParse(t, p)
    ensures WellFormed(FrameIn(t, p))
  {
    var f := FrameIn(t, p);
    forall i | 0 <= i < |f.name|
      ensures !RegexSpace(f.name[i])
    {
      assert f.name[i] == t[p.fnFrom + i];
    }
  }

  lemma {:induction false} FramesAreWellFormed(stack: string)
    ensures forall k :: 0 <= k < |StackSpec(stack)| ==> WellFormed(StackSpec(stack)[k])
  {
    forall line | line in Lines(stack) && Reader()(line).Some?
      ensures WellFormed(Reader()(line).value)
    {
      var t := TrimSpace(line);
      FindIsLeftmostFirst(t, 0);
      FrameInIsWellFormed(t, Find(t, 0).value);
    }
    CollectKeeps(Lines(stack), Reader(), (f: Frame) => WellFormed(f));
  }

  // ---------------------------------------------------------------------------
  // Writing

  function Position(file: string, line: int, column: int): string
  {
    file + ":" + DecimalInt(line) + ":" + DecimalInt(column)
  }

  /** A frame without its indentation. */
  function FrameText(name: string, file: string, line: int, column: int): string
  {
    if name == "" then "at " + Position(file, line, column)
    else "at " + name + " (" + Position(file, line, column) + ")"
  }

  function RenderFrame(name: string, file: string, line: int, column: int): string
  {
    "    " + FrameText(name, file, line, column)
  }

  // ---------------------------------------------------------------------------
  // When a written frame is read back

  /** ":digits" at e, followed by the end of the file name or by ":digit". */
  predicate HoldsAt(file: string, e: nat)
    requires e < |file|
  {
    && file[e] == ':'
    && var q := RunEnd(file, e + 1, Digit);
       q > e + 1 && (q == |file| || (file[q] == ':' && q + 1 < |file| && Digit(file[q + 1])))
  }

  /** Where a position first fits in "file:line:column", counting from e. */
  function FirstPosition(file: string, e: nat): (r: nat)
    requires e <= |file|
    ensures e <= r <= |file|
    decreases |file| - e
  {
    if e == |file| || HoldsAt(file, e) then e else FirstPosition(file, e + 1)
  }

  predicate CleanName(name: string) { forall i :: 0 <= i < |name| ==> Fn1Char(name[i]) }

  predicate CleanFile(file: string) { file != "" && forall i :: 0 <= i < |file| ==> LocChar(file[i]) }

  predicate HoldsPosition(file: string) { exists e :: 1 <= e < |file| && HoldsAt(file, e) }

  predicate Renderable(name: string, file: string, line: int, column: int)
  {
    && CleanName(name) && CleanFile(file) && !HoldsPosition(file)
    && line >= 0 && column >= 0
  }

  /** "file:line:column" lies in t at j, and no digit follows. */
  ghost predicate LiesAt(t: string, j: nat, file: string, line: string, column: string)
  {
    && AllDigits(line) && AllDigits(column) && file != ""
    && j + |file| + |line| + |column| + 2 <= |t|
    && (forall i :: 0 <= i < |file| ==> t[j + i] == file[i])
    && t[j + |file|] == ':'
    && (forall i :: 0 <= i < |line| ==> t[j + |file| + 1 + i] == line[i])
    && t[j + |file| + 1 + |line|] == ':'
    && (forall i :: 0 <= i < |column| ==> t[j + |file| + |line| + 2 + i] == column[i])
    && (j + |file| + |line| + |column| + 2 < |t| ==> !Digit(t[j + |file| + |line| + |column| + 2]))
  }

  lemma {:induction false} DigitsShift(t: string, j: nat, file: string, line: string, column: string, e: nat)
    requires LiesAt(t, j, file, line, column) && e <= |file|
    ensures RunEnd(t, j + e, Digit) == j + RunEnd(file, e, Digit)
  {
    var q := RunEnd(file, e, Digit);
    forall k | j + e <= k < j + q
      ensures Digit(t[k])
    {
      assert t[k] == file[k - j];
    }
    assert !Digit(t[j + q]) by {
      if q < |file| {
        assert t[j + q] == file[q];
      }
    }
    RunEndIs(t, j + e, j + q, Digit);
  }

  lemma {:induction false} PositionShift(t: string, j: nat, file: string, line: string, column: string, e: nat)
    requires LiesAt(t, j, file, line, column) && e < |file|
    ensures PositionAt(t, j + e).Some? <==> HoldsAt(file, e)
    ensures PositionAt(t, j + e).Some? ==> PositionAt(t, j + e).value.locTo == j + e
  {
    assert t[j + e] == file[e];
    DigitsShift(t, j, file, line, column, e + 1);
    var q := RunEnd(file, e + 1, Digit);
    if q < |file| {
      assert t[j + q] == file[q];
      if q + 1 < |file| {
        assert t[j + q + 1] == file[q + 1];
      }
    } else {
      assert t[j + |file| + 1 + 0] == line[0];
    }
  }

  /** At the end of the file name the whole position is read. */
  lemma {:induction false} PositionAtEnd(t: string, j: nat, file: string, line: string, column: string)
    requires LiesAt(t, j, file, line, column)
    ensures var from := j + |file|;
            PositionAt(t, from).Some? && var at := PositionAt(t, from).value;
            at.locTo == from && at.lineTo == from + 1 + |line| && at.colTo == from + |line| + |column| + 2
  {
    var from := j + |file|;
    forall k | from + 1 <= k < from + 1 + |line|
      ensures Digit(t[k])
    {
      assert t[k] == line[k - from - 1];
    }
    RunEndIs(t, from + 1, from + 1 + |line|, Digit);
    var next := from + |line| + 2;
    forall k | next <= k < next + |column|
      ensures Digit(t[k])
    {
      assert t[k] == column[k - next];
    }
    RunEndIs(t, next, next + |column|, Digit);
  }

  lemma {:induction false} SearchShift(t: string, j: nat, file: string, line: string, column: string, e: nat)
    requires LiesAt(t, j, file, line, column) && CleanFile(file) && 1 <= e <= |file|
    ensures SearchLocation(t, j + e) == PositionAt(t, j + FirstPosition(file, e))
    ensures PositionAt(t, j + FirstPosition(file, e)).Some?
    ensures PositionAt(t, j + FirstPosition(file, e)).value.locTo == j + FirstPosition(file, e)
    decreases |file| - e
  {
    if e == |file| {
      PositionAtEnd(t, j, file, line, column);
    } else {
      PositionShift(t, j, file, line, column, e);
      if !HoldsAt(file, e) {
        assert LocChar(t[j + e]) by {
          assert t[j + e] == file[e];
        }
        SearchOn(t, j + e);
        SearchShift(t, j, file, line, column, e + 1);
      }
    }
  }

  lemma {:induction false} SearchOn(t: string, e: nat)
    requires e < |t| && LocChar(t[e]) && PositionAt(t, e).None?
    ensures SearchLocation(t, e) == SearchLocation(t, e + 1)
  {
  }

  /** The location found where a clean file name lies ends at the first place where a
      position fits. */
  lemma {:induction false} LocationShift(t: string, j: nat, file: string, line: string, column: string)
    requires LiesAt(t, j, file, line, column) && CleanFile(file)
    ensures LocationAt(t, j) == PositionAt(t, j + FirstPosition(file, 1))
    ensures LocationAt(t, j).Some? && LocationAt(t, j).value.locTo == j + FirstPosition(file, 1)
  {
    assert t[j + 0] == file[0];
    SearchShift(t, j, file, line, column, 1);
  }

  lemma {:induction false} FirstPositionIsEnd(file: string, e: nat)
    requires e <= |file|
    ensures FirstPosition(file, e) == |file| <==> forall k :: e <= k < |file| ==> !HoldsAt(file, k)
    decreases |file| - e
  {
    if e < |file| && !HoldsAt(file, e) {
      FirstPositionIsEnd(file, e + 1);
    }
  }

  /** Where the location of a frame starts in its text. */
  function LocationStart(name: string): nat { if name == "" then 3 else |name| + 5 }

  /** The text of a frame, by its characters. */
  ghost predicate Laid(t: string, name: string, file: string, line: string, column: string)
  {
    && LiesAt(t, LocationStart(name), file, line, column)
    && t[0] == 'a' && t[1] == 't' && t[2] == ' '
    && (if name == "" then forall k :: 3 <= k < |t| ==> Fn1Char(t[k])
        else
          && t[|name| + 3] == ' ' && t[|name| + 4] == '('
          && (forall k :: 3 <= k < 3 + |name| ==> Fn1Char(t[k])) && t[3..3 + |name|] == name)
  }

  lemma {:induction false} FrameTextIsLaid(name: string, file: string, line: nat, column: nat)
    requires CleanName(name) && CleanFile(file)
    ensures Laid(FrameText(name, file, line, column), name, file, Decimal(line), Decimal(column))
  {
    var l, c := Decimal(line), Decimal(column);
    if name == "" {
      BareIsLaid(file, l, c);
    } else {
      NamedIsLaid(name, file, l, c);
    }
  }

  lemma {:induction false} BareIsLaid(file: string, line: string, column: string)
    requires CleanFile(file) && AllDigits(line) && AllDigits(column)
    ensures Laid("at " + (file + ":" + line + ":" + column), "", file, line, column)
  {
    var position := file + ":" + line + ":" + column;
    PositionIsNameless(file, line, column);
    PositionLies("at ", file, line, column, "");
    assert "at " + position + "" == "at " + position;
  }

  lemma {:induction false} NamedIsLaid(name: string, file: string, line: string, column: string)
    requires name != "" && CleanName(name) && CleanFile(file) && AllDigits(line) && AllDigits(column)
    ensures Laid("at " + name + " (" + (file + ":" + line + ":" + column) + ")", name, file, line, column)
  {
    var pre := "at " + name + " (";
    var position := file + ":" + line + ":" + column;
    PositionLies(pre, file, line, column, ")");
    NameLies(name, position + ")");
    Associative(pre, position, ")");
  }

  lemma {:induction false} PositionIsNameless(file: string, line: string, column: string)
    requires CleanFile(file) && AllDigits(line) && AllDigits(column)
    ensures var position := file + ":" + line + ":" + column;
            forall k :: 0 <= k < |position| ==> Fn1Char(position[k])
  {
  }

  /** A frame with clean names is found at once. */
  lemma {:induction false} LaidIsFound(t: string, name: string, file: string, line: string, column: string)
    requires Laid(t, name, file, line, column) && CleanFile(file)
    ensures LocationAt(t, LocationStart(name)).Some?
    ensures Find(t, 0) == Some(var at := LocationAt(t, LocationStart(name)).value;
                               if name == "" then WithPlace(AtBare, 0, 3, 0, 0, 0, 3, at)
                               else WithPlace(AtNamed, 0, 3, 3, |name| + 3, |name| + 4, |name| + 5, at))
  {
    LocationShift(t, LocationStart(name), file, line, column);
    if name == "" {
      BareFound(t);
    } else {
      NamedFound(t, |name|);
    }
  }

  lemma {:induction false} BareFound(t: string)
    requires |t| > 3 && t[0] == 'a' && t[1] == 't' && t[2] == ' ' && LocationAt(t, 3).Some?
    requires forall k :: 3 <= k < |t| ==> Fn1Char(t[k])
    ensures Find(t, 0) == Some(WithPlace(AtBare, 0, 3, 0, 0, 0, 3, LocationAt(t, 3).value))
  {
    assert Fn1Char(t[3]);
    RunEndIs(t, 2, 3, RegexSpace);
    RunEndIs(t, 3, |t|, Fn1Char);
    assert MatchAt(t, 0) == Some(WithPlace(AtBare, 0, 3, 0, 0, 0, 3, LocationAt(t, 3).value));
  }

  lemma {:induction false} NameLies(name: string, rest: string)
    requires name != "" && CleanName(name)
    ensures var t := "at " + name + " (" + rest;
            && t[0] == 'a' && t[1] == 't' && t[2] == ' ' && t[|name| + 3] == ' ' && t[|name| + 4] == '('
            && (forall k :: 3 <= k < 3 + |name| ==> Fn1Char(t[k]))
            && t[3..3 + |name|] == name
  {
    var t := "at " + name + " (" + rest;
    forall k | 3 <= k < 3 + |name|
      ensures t[k] == name[k - 3]
    {
    }
  }

  lemma {:induction false} NamedFound(t: string, n: nat)
    requires |t| > n + 5 && n > 0 && t[0] == 'a' && t[1] == 't' && t[2] == ' ' && t[n + 3] == ' ' && t[n + 4] == '('
    requires (forall k :: 3 <= k < 3 + n ==> Fn1Char(t[k])) && LocationAt(t, n + 5).Some?
    ensures Find(t, 0) == Some(WithPlace(AtNamed, 0, 3, 3, n + 3, n + 4, n + 5, LocationAt(t, n + 5).value))
  {
    assert Fn1Char(t[3]);
    RunEndIs(t, 2, 3, RegexSpace);
    RunEndIs(t, 3, 3 + n, Fn1Char);
    RunEndIs(t, 3 + n, 4 + n, RegexSpace);
    assert MatchAt(t, 0) == Some(WithPlace(AtNamed, 0, 3, 3, n + 3, n + 4, n + 5, LocationAt(t, n + 5).value));
  }

  lemma {:induction false} PositionLies(pre: string, file: string, line: string, column: string, post: string)
    requires file != "" && AllDigits(line) && AllDigits(column) && (post == "" || post == ")")
    ensures LiesAt(pre + (file + ":" + line + ":" + column) + post, |pre|, file, line, column)
  {
    var position := file + ":" + line + ":" + column;
    PartsOfPosition(file, line, column);
    MiddleIs(pre, position, post);
    LiesInside(pre + position + post, |pre|, position, file, line, column);
  }

  lemma {:induction false} MiddleIs(pre: string, middle: string, post: string)
    ensures var t := pre + middle + post;
            && |t| == |pre| + |middle| + |post| && (post != "" ==> t[|pre| + |middle|] == post[0])
            && forall k :: 0 <= k < |middle| ==> t[|pre| + k] == middle[k]
  {
  }

  lemma {:induction false} PartsOfPosition(file: string, line: string, column: string)
    ensures var position := file + ":" + line + ":" + column;
            && |position| == |file| + |line| + |column| + 2
            && position[|file|] == ':' && position[|file| + 1 + |line|] == ':'
            && (forall k :: 0 <= k < |file| ==> position[k] == file[k])
            && (forall k :: 0 <= k < |line| ==> position[|file| + 1 + k] == line[k])
            && (forall k :: 0 <= k < |column| ==> position[|file| + |line| + 2 + k] == column[k])
  {
    MiddleIs(file + ":", line, ":" + column);
    MiddleIs(file + ":" + line + ":", column, "");
    assert file + ":" + line + (":" + column) == file + ":" + line + ":" + column;
    assert file + ":" + line + ":" + column + "" == file + ":" + line + ":" + column;
  }

  lemma {:induction false} LiesInside(t: string, j: nat, position: string, file: string, line: string, column: string)
    requires file != "" && AllDigits(line) && AllDigits(column)
    requires |position| == |file| + |line| + |column| + 2 && j + |position| <= |t|
    requires forall k :: 0 <= k < |position| ==> t[j + k] == position[k]
    requires forall k :: 0 <= k < |file| ==> position[k] == file[k]
    requires forall k :: 0 <= k < |line| ==> position[|file| + 1 + k] == line[k]
    requires forall k :: 0 <= k < |column| ==> position[|file| + |line| + 2 + k] == column[k]
    requires position[|file|] == ':' && position[|file| + 1 + |line|] == ':'
    requires j + |position| < |t| ==> !Digit(t[j + |position|])
    ensures LiesAt(t, j, file, line, column)
  {
    forall k | 0 <= k < |line|
      ensures t[j + |file| + 1 + k] == line[k]
    {
      assert t[j + (|file| + 1 + k)] == position[|file| + 1 + k];
    }
    forall k | 0 <= k < |column|
      ensures t[j + |file| + |line| + 2 + k] == column[k]
    {
      assert t[j + (|file| + |line| + 2 + k)] == position[|file| + |line| + 2 + k];
    }
  }

  lemma {:induction false} TrimOneSpace(t: string)
    ensures TrimLeft(" " + t) == TrimLeft(t)
  {
    assert (" " + t)[1..] == t;
  }

  /** A text that neither starts nor ends with a space loses its indentation only. */
  lemma {:induction false} TrimIndent(t: string)
    requires t != "" && !IsSpace(t[0]) && !IsSpace(t[|t| - 1])
    ensures TrimSpace("    " + t) == t
  {
    TrimOneSpace(t);
    TrimOneSpace(" " + t);
    TrimOneSpace(" " + (" " + t));
    TrimOneSpace(" " + (" " + (" " + t)));
    assert "    " + t == " " + (" " + (" " + (" " + t)));
  }

  lemma {:induction false} LastIs(a: string, b: string)
    requires b != ""
    ensures (a + b)[|a + b| - 1] == b[|b| - 1]
  {
  }

  lemma {:induction false} LastOfPosition(file: string, line: int, column: int)
    ensures var position := Position(file, line, column);
            position != "" && Digit(position[|position| - 1])
  {
    var digits := Decimal(if column < 0 then -column else column);
    LastIs("-", digits);
    LastIs(file + ":" + DecimalInt(line) + ":", DecimalInt(column));
  }

  /** The indentation goes, whatever the names are. */
  lemma {:induction false} TrimRendered(name: string, file: string, line: int, column: int)
    ensures TrimSpace(RenderFrame(name, file, line, column)) == FrameText(name, file, line, column)
  {
    var t := FrameText(name, file, line, column);
    assert !IsSpace(t[0]);
    assert !IsSpace(t[|t| - 1]) by {
      if name == "" {
        LastOfPosition(file, line, column);
        LastIs("at ", Position(file, line, column));
      }
    }
    TrimIndent(t);
  }

  lemma {:induction false} LaidIsRead(t: string, p: Parse, name: string, file: string, line: string, column: string)
    requires Laid(t, name, file, line, column) && CleanFile(file) && Find(t, 0) == Some(p)
    ensures IsParse(t, p)
    ensures var f := FrameIn(t, p);
            && f.name == name && f.file == file[..FirstPosition(file, 1)]
            && (FirstPosition(file, 1) == |file| ==> f == Frame(name, file, line, column, !IsVendor(file, name)))
  {
    FoundIsParse(t);
    LaidIsPlaced(t, p, name, file, line, column);
    FieldsOf(t, p, name, file, line, column);
  }

  lemma {:induction false} LaidIsPlaced(t: string, p: Parse, name: string, file: string, line: string, column: string)
    requires Laid(t, name, file, line, column) && CleanFile(file) && Find(t, 0) == Some(p) && IsParse(t, p)
    ensures p.loc == LocationStart(name) && p.locTo == p.loc + FirstPosition(file, 1) && NameIn(t, p) == name
    ensures FirstPosition(file, 1) == |file| ==>
              p.lineTo == p.locTo + 1 + |line| && p.colTo == p.locTo + |line| + |column| + 2
  {
    var j := LocationStart(name);
    LaidIsFound(t, name, file, line, column);
    LocationEnds(t, j, file, line, column);
    NameIsPlaced(t, p, name, LocationAt(t, j).value);
  }

  lemma {:induction false} LocationEnds(t: string, j: nat, file: string, line: string, column: string)
    requires LiesAt(t, j, file, line, column) && CleanFile(file)
    ensures LocationAt(t, j).Some? && LocationAt(t, j).value.locTo == j + FirstPosition(file, 1)
    ensures FirstPosition(file, 1) == |file| ==>
              LocationAt(t, j).value.lineTo == j + |file| + 1 + |line|
              && LocationAt(t, j).value.colTo == j + |file| + |line| + |column| + 2
  {
    LocationShift(t, j, file, line, column);
    PositionAtEnd(t, j, file, line, column);
  }

  lemma {:induction false} NameIsPlaced(t: string, p: Parse, name: string, at: Place)
    requires IsParse(t, p) && (name != "" ==> 3 + |name| <= |t| && t[3..3 + |name|] == name)
    requires p == if name == "" then WithPlace(AtBare, 0, 3, 0, 0, 0, 3, at)
                  else WithPlace(AtNamed, 0, 3, 3, |name| + 3, |name| + 4, |name| + 5, at)
    ensures p.loc == LocationStart(name) && NameIn(t, p) == name
    ensures p.locTo == at.locTo && p.lineTo == at.lineTo && p.colTo == at.colTo
  {
  }

  lemma {:induction false} FoundIsParse(t: string)
    ensures Find(t, 0).Some? ==> IsParse(t, Find(t, 0).value)
  {
    FindIsLeftmostFirst(t, 0);
  }

  lemma {:induction false} SliceIs(t: string, from: nat, x: string)
    requires from + |x| <= |t| && forall i :: 0 <= i < |x| ==> t[from + i] == x[i]
    ensures t[from..from + |x|] == x
  {
  }

  lemma {:induction false} FieldsOf(t: string, p: Parse, name: string, file: string, line: string, column: string)
    requires IsParse(t, p) && LiesAt(t, p.loc, file, line, column)
    requires NameIn(t, p) == name && p.loc <= p.locTo <= p.loc + |file|
    requires p.locTo == p.loc + |file| ==>
               p.lineTo == p.locTo + 1 + |line| && p.colTo == p.locTo + |line| + |column| + 2
    ensures var f := FrameIn(t, p);
            && f.name == name && f.file == file[..p.locTo - p.loc]
            && (p.locTo == p.loc + |file| ==> f == Frame(name, file, line, column, !IsVendor(file, name)))
  {
    SliceIs(t, p.loc, file[..p.locTo - p.loc]);
    if p.locTo == p.loc + |file| {
      assert file[..|file|] == file;
      SliceIs(t, p.locTo + 1, line);
      SliceIs(t, p.locTo + |line| + 2, column);
    }
  }

  /** What is read from a frame with clean names: its file name up to the first place
      where a position fits. */
  lemma {:induction false} CleanIsReadUpTo(name: string, file: string, line: nat, column: nat)
    requires CleanName(name) && CleanFile(file)
    ensures var r := FrameOf(RenderFrame(name, file, line, column));
            && r.Some? && r.value.name == name && r.value.file == file[..FirstPosition(file, 1)]
            && (FirstPosition(file, 1) == |file| ==>
                  r.value == Frame(name, file, Decimal(line), Decimal(column), !IsVendor(file, name)))
  {
    var t := FrameText(name, file, line, column);
    TrimRendered(name, file, line, column);
    FrameTextIsLaid(name, file, line, column);
    LaidIsFound(t, name, file, Decimal(line), Decimal(column));
    var p := Find(t, 0).value;
    LaidIsRead(t, p, name, file, Decimal(line), Decimal(column));
    ReadsAs(RenderFrame(name, file, line, column), t, p);
  }

  lemma {:induction false} ReadsAs(line: string, t: string, p: Parse)
    requires TrimSpace(line) == t && Find(t, 0) == Some(p) && IsParse(t, p)
    ensures FrameOf(line) == Some(FrameIn(t, p))
  {
  }

  /** A name with a parenthesis in it is never read back: only the "name@" form could
      hold it, and the written text has no place for that form. */
  lemma {:induction false} NameReadBackIsClean(t: string, p: Parse, name: string, file: string, line: string,
                                               column: string)
    requires IsParse(t, p) && LiesAt(t, |name| + 5, file, line, column)
    requires |t| == |name| + |file| + |line| + |column| + 8
    requires t[0] == 'a' && t[1] == 't' && t[2] == ' ' && t[|name| + 3] == ' ' && t[|t| - 1] == ')'
    requires NameIn(t, p) == name && name != "" && t[p.loc..p.locTo] == file
    requires t[p.locTo + 1..p.lineTo] == line && t[p.lineTo + 1..p.colTo] == column
    requires forall i :: 0 <= i < |name| ==> !RegexSpace(name[i])
    ensures CleanName(name)
  {
    forall k | 0 <= k < |name|
      ensures name[k] == t[p.fnFrom + k]
    {
    }
    assert Digit(t[p.colTo - 1]);
    assert |t[p.loc..p.locTo]| == |file| && |t[p.locTo + 1..p.lineTo]| == |line|
           && |t[p.lineTo + 1..p.colTo]| == |column|;
    if p.branch.Named? {
      NamedNeedsASpace(t, p.fnFrom, name);
    }
  }

  lemma {:induction false} NamedNeedsASpace(t: string, i: nat, name: string)
    requires name != "" && i <= 4 && i + |name| < |t| && |name| + 3 < |t|
    requires t[0] == 'a' && t[1] == 't' && t[2] == ' ' && t[|name| + 3] == ' ' && t[i + |name|] == '@'
    requires forall k :: 0 <= k < |name| ==> name[k] == t[i + k]
    ensures exists k :: 0 <= k < |name| && RegexSpace(name[k])
  {
    var k := if i <= 2 then 2 - i else |name| - 1;
    assert RegexSpace(name[k]);
  }

  lemma {:induction false} NameIsSpaced(name: string, rest: string)
    ensures var t := "at " + name + " (" + rest;
            |t| == |name| + |rest| + 5 && t[0] == 'a' && t[1] == 't' && t[2] == ' ' && t[|name| + 3] == ' '
  {
  }

  /** How the text of a named frame is laid out. */
  lemma {:induction false} NamedFrameText(name: string, file: string, line: nat, column: nat)
    requires name != "" && file != ""
    ensures var t, l, c := FrameText(name, file, line, column), Decimal(line), Decimal(column);
            && LiesAt(t, |name| + 5, file, l, c) && |t| == |name| + |file| + |l| + |c| + 8
            && t[0] == 'a' && t[1] == 't' && t[2] == ' ' && t[|name| + 3] == ' ' && t[|t| - 1] == ')'
  {
    var l, c := Decimal(line), Decimal(column);
    var position := file + ":" + l + ":" + c;
    PositionLies("at " + name + " (", file, l, c, ")");
    NameIsSpaced(name, position + ")");
    Associative("at " + name + " (", position, ")");
    assert FrameText(name, file, line, column) == "at " + name + " (" + (position + ")");
  }

  lemma {:induction false} FrameReadBackIsClean(name: string, file: string, line: nat, column: nat)
    requires FrameOf(RenderFrame(name, file, line, column))
          == Some(Frame(name, file, Decimal(line), Decimal(column), !IsVendor(file, name)))
    requires CleanFile(file) && forall i :: 0 <= i < |name| ==> !RegexSpace(name[i])
    ensures CleanName(name)
  {
    if name != "" {
      var t := FrameText(name, file, line, column);
      TrimRendered(name, file, line, column);
      FoundIsParse(t);
      NamedFrameText(name, file, line, column);
      FieldsReadBack(t, Find(t, 0).value, name, file, Decimal(line), Decimal(column));
    }
  }

  lemma {:induction false} FieldsReadBack(t: string, p: Parse, name: string, file: string, line: string, column: string)
    requires IsParse(t, p) && LiesAt(t, |name| + 5, file, line, column)
    requires |t| == |name| + |file| + |line| + |column| + 8
    requires t[0] == 'a' && t[1] == 't' && t[2] == ' ' && t[|name| + 3] == ' ' && t[|t| - 1] == ')'
    requires FrameIn(t, p) == Frame(name, file, line, column, !IsVendor(file, name)) && name != ""
    requires forall i :: 0 <= i < |name| ==> !RegexSpace(name[i])
    ensures CleanName(name)
  {
    NameReadBackIsClean(t, p, name, file, line, column);
  }

  lemma {:induction false} DecimalIsDigits(n: int)
    ensures AllDigits(DecimalInt(n)) <==> n >= 0
  {
    if n < 0 {
      assert DecimalInt(n)[0] == '-';
    }
  }

  lemma {:induction false} OneLine(name: string, file: string, line: int, column: int)
    requires '\n' !in name && '\n' !in file
    ensures Lines(RenderFrame(name, file, line, column)) == [RenderFrame(name, file, line, column)]
    ensures '\n' !in RenderFrame(name, file, line, column)
  {
    NoNewLineIn(line);
    NoNewLineIn(column);
    assert '\n' !in Position(file, line, column);
    SplitOne(RenderFrame(name, file, line, column), '\n');
  }

  lemma {:induction false} NoNewLineIn(n: int)
    ensures '\n' !in DecimalInt(n)
  {
    var digits := Decimal(if n < 0 then -n else n);
    assert forall i :: 0 <= i < |digits| ==> Digit(digits[i]);
  }

  lemma {:induction false} CollectOne<T>(line: string, read: string -> Option<T>)
    ensures Collect([line], read) == if read(line).Some? then [read(line).value] else []
  {
    assert [line][1..] == [];
  }

  /** The frame a written frame should be read as. */
  function Written(name: string, file: string, line: int, column: int): Frame
  {
    Frame(name, file, DecimalInt(line), DecimalInt(column), !IsVendor(file, name))
  }

  lemma {:induction false} RenderableIsRead(name: string, file: string, line: int, column: int)
    requires Renderable(name, file, line, column)
    ensures FrameOf(RenderFrame(name, file, line, column)) == Some(Written(name, file, line, column))
    ensures Lines(RenderFrame(name, file, line, column)) == [RenderFrame(name, file, line, column)]
    ensures '\n' !in RenderFrame(name, file, line, column)
  {
    FirstPositionIsEnd(file, 1);
    CleanIsReadUpTo(name, file, line, column);
    NoNewLineInClean(name, file);
    OneLine(name, file, line, column);
  }

  lemma {:induction false} NoNewLineInClean(name: string, file: string)
    requires forall i :: 0 <= i < |name| ==> !RegexSpace(name[i])
    requires forall i :: 0 <= i < |file| ==> LocChar(file[i])
    ensures '\n' !in name && '\n' !in file
  {
  }

  lemma {:induction false} ReadIsRenderable(name: string, file: string, line: int, column: int)
    requires StackSpec(RenderFrame(name, file, line, column)) == [Written(name, file, line, column)]
    ensures Renderable(name, file, line, column)
  {
    var r := RenderFrame(name, file, line, column);
    FramesAreWellFormed(r);
    assert WellFormed(StackSpec(r)[0]);
    DecimalIsDigits(line);
    DecimalIsDigits(column);
    NoNewLineInClean(name, file);
    OneLine(name, file, line, column);
    CollectOne(r, Reader());
    FrameReadBackIsClean(name, file, line, column);
    CleanIsReadUpTo(name, file, line, column);
    FirstPositionIsEnd(file, 1);
  }

  /** A written frame is read back exactly when it is renderable. */
  lemma {:induction false} RoundTrip(name: string, file: string, line: int, column: int)
    ensures StackSpec(RenderFrame(name, file, line, column)) == [Written(name, file, line, column)]
       <==> Renderable(name, file, line, column)
  {
    if Renderable(name, file, line, column) {
      RenderableIsRead(name, file, line, column);
      CollectOne(RenderFrame(name, file, line, column), Reader());
    }
    if StackSpec(RenderFrame(name, file, line, column)) == [Written(name, file, line, column)] {
      ReadIsRenderable(name, file, line, column);
    }
  }

  /** Not every source a map can name survives: the lazy location stops inside it. */
  lemma {:induction false} PositionInsideIsLost(line: nat, column: nat)
    ensures exists f :: FrameOf(RenderFrame("f", "a:1", line, column)) == Some(f) && f.file == "a"
    ensures StackSpec(RenderFrame("f", "a:1", line, column)) != [Written("f", "a:1", line, column)]
  {
    RunEndIs("a:1", 2, 3, Digit);
    assert HoldsAt("a:1", 1);
    CleanIsReadUpTo("f", "a:1", line, column);
    assert "a:1"[..1] == "a";
    RoundTrip("f", "a:1", line, column);
  }
}
