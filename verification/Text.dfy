/** The few string functions the source takes from Go's standard library.
    A string is a sequence of Unicode scalar values. */
module Text {
  import opened Basics

  // ---------------------------------------------------------------------------
  // Characters

  /** unicode.IsSpace. */
  predicate IsSpace(c: char)
  {
    var n := c as int;
    || 9 <= n <= 13 || n == 32 || n == 0x85 || n == 0xA0 || n == 0x1680
    || 0x2000 <= n <= 0x200A || n == 0x2028 || n == 0x2029 || n == 0x202F || n == 0x205F || n == 0x3000
  }

  predicate Digit(c: char) { '0' <= c <= '9' }

  /** unicode.ToLower, for every character whose lower case is ASCII. */
  function LowerChar(c: char): char
  {
    if 'A' <= c <= 'Z' then ((c as int) + 32) as char
    else if c as int == 0x130 then 'i'
    else if c as int == 0x212A then 'k'
    else c
  }

  /** unicode.ToUpper, for every character whose upper case is ASCII. */
  function UpperChar(c: char): char
  {
    if 'a' <= c <= 'z' then ((c as int) - 32) as char
    else if c as int == 0x131 then 'I'
    else if c as int == 0x17F then 'S'
    else c
  }

  /** The representative strings.EqualFold compares, for ASCII letters and the two
      other characters that fold onto them. */
  function FoldChar(c: char): char
  {
    if 'A' <= c <= 'Z' then ((c as int) + 32) as char
    else if c as int == 0x17F then 's'
    else if c as int == 0x212A then 'k'
    else c
  }

  // ---------------------------------------------------------------------------
  // Strings

  function MapChars(s: string, f: char -> char): (r: string)
    ensures |r| == |s| && forall i :: 0 <= i < |s| ==> r[i] == f(s[i])
  {
    seq(|s|, i requires 0 <= i < |s| => f(s[i]))
  }

  function ToLower(s: string): string { MapChars(s, LowerChar) }

  function ToUpper(s: string): string { MapChars(s, UpperChar) }

  /** Nothing stays in lower case. */
  lemma {:induction false} UpperHasNoLower(s: string)
    ensures forall i :: 0 <= i < |s| ==> !('a' <= ToUpper(s)[i] <= 'z')
  {
  }

  predicate EqualFold(a: string, b: string) { MapChars(a, FoldChar) == MapChars(b, FoldChar) }

  predicate Contains(s: string, part: string)
  {
    part <= s || (s != [] && Contains(s[1..], part))
  }

  predicate StandsAt(s: string, part: string, i: int) { 0 <= i <= |s| - |part| && s[i..i + |part|] == part }

  lemma {:induction false} SliceOfTail(s: string, i: int, n: nat)
    requires 0 < i <= |s| - n
    ensures s[i..i + n] == s[1..][i - 1..i - 1 + n]
  {
    var a, b := s[i..i + n], s[1..][i - 1..i - 1 + n];
    assert |a| == |b| && forall k :: 0 <= k < n ==> a[k] == s[i + k] == b[k];
  }

  lemma {:induction false} StandsInTail(s: string, part: string, i: int)
    requires s != [] && i > 0
    ensures StandsAt(s, part, i) <==> StandsAt(s[1..], part, i - 1)
  {
    if i <= |s| - |part| {
      SliceOfTail(s, i, |part|);
    }
  }

  /** The part stands somewhere in the string. */
  lemma {:induction false} ContainsIff(s: string, part: string)
    ensures Contains(s, part) <==> exists i :: StandsAt(s, part, i)
    decreases |s|
  {
    assert part <= s <==> StandsAt(s, part, 0);
    if s != [] {
      ContainsIff(s[1..], part);
      if i :| StandsAt(s[1..], part, i) {
        StandsInTail(s, part, i + 1);
      }
      if i :| StandsAt(s, part, i) {
        if i > 0 {
          StandsInTail(s, part, i);
        }
      }
    }
  }

  function TrimLeft(s: string): string
  {
    if s != [] && IsSpace(s[0]) then TrimLeft(s[1..]) else s
  }

  function TrimRight(s: string): string
  {
    if s != [] && IsSpace(s[|s| - 1]) then TrimRight(s[..|s| - 1]) else s
  }

  function TrimSpace(s: string): string { TrimRight(TrimLeft(s)) }

  predicate AllSpace(s: string) { forall i :: 0 <= i < |s| ==> IsSpace(s[i]) }

  lemma {:induction false} TrimLeftDrops(s: string) returns (front: string)
    ensures s == front + TrimLeft(s) && AllSpace(front)
    ensures TrimLeft(s) != [] ==> !IsSpace(TrimLeft(s)[0])
    decreases |s|
  {
    front := [];
    if s != [] && IsSpace(s[0]) {
      var rest := TrimLeftDrops(s[1..]);
      front := [s[0]] + rest;
      assert s == [s[0]] + (rest + TrimLeft(s[1..]));
    }
  }

  lemma {:induction false} TrimRightDrops(s: string) returns (back: string)
    ensures s == TrimRight(s) + back && AllSpace(back)
    ensures TrimRight(s) != [] ==> TrimRight(s)[0] == s[0] && !IsSpace(TrimRight(s)[|TrimRight(s)| - 1])
    decreases |s|
  {
    back := [];
    if s != [] && IsSpace(s[|s| - 1]) {
      var rest := TrimRightDrops(s[..|s| - 1]);
      back := rest + [s[|s| - 1]];
      assert s == (TrimRight(s[..|s| - 1]) + rest) + [s[|s| - 1]];
    }
  }

  /** Only white space is dropped, and all of it at both ends. */
  lemma {:induction false} TrimDropsTheEnds(s: string) returns (front: string, back: string)
    ensures s == front + TrimSpace(s) + back && AllSpace(front) && AllSpace(back)
    ensures var t := TrimSpace(s); t != [] ==> !IsSpace(t[0]) && !IsSpace(t[|t| - 1])
  {
    front := TrimLeftDrops(s);
    back := TrimRightDrops(TrimLeft(s));
    assert s == front + (TrimSpace(s) + back);
  }

  // ---------------------------------------------------------------------------
  // Splitting and joining

  /** strings.Split(s, sep) for a separator of one character. */
  function Split(s: string, sep: char): (r: seq<string>)
    ensures r != []
  {
    if s == [] then [[]]
    else
      var rest := Split(s[1..], sep);
      if s[0] == sep then [[]] + rest else [[s[0]] + rest[0]] + rest[1..]
  }

  /** No piece holds the separator. */
  lemma {:induction false} PiecesAreWhole(s: string, sep: char)
    ensures forall i :: 0 <= i < |Split(s, sep)| ==> sep !in Split(s, sep)[i]
    decreases |s|
  {
    if s != [] {
      PiecesAreWhole(s[1..], sep);
    }
  }

  /** strings.Join(parts, sep). */
  function Join(parts: seq<string>, sep: char): string
  {
    if parts == [] then []
    else if |parts| == 1 then parts[0]
    else parts[0] + [sep] + Join(parts[1..], sep)
  }

  lemma {:induction false} JoinSplit(s: string, sep: char)
    ensures Join(Split(s, sep), sep) == s
    decreases |s|
  {
    if s != [] {
      JoinSplit(s[1..], sep);
      var rest := Split(s[1..], sep);
      assert s == [s[0]] + s[1..];
      if s[0] == sep {
        assert ([[]] + rest)[1..] == rest;
      } else if |rest| > 1 {
        assert ([[s[0]] + rest[0]] + rest[1..])[1..] == rest[1..];
      }
    }
  }

  lemma {:induction false} SplitOne(part: string, sep: char)
    requires sep !in part
    ensures Split(part, sep) == [part]
    decreases |part|
  {
    if part != [] {
      SplitOne(part[1..], sep);
      assert part == [part[0]] + part[1..];
    }
  }

  lemma {:induction false} SplitConcat(part: string, s: string, sep: char)
    requires sep !in part
    ensures Split(part + [sep] + s, sep) == [part] + Split(s, sep)
    decreases |part|
  {
    var t := part + [sep] + s;
    if part == [] {
      assert t[1..] == s;
    } else {
      assert t[1..] == part[1..] + [sep] + s;
      SplitConcat(part[1..], s, sep);
      assert part == [part[0]] + part[1..];
    }
  }

  lemma {:induction false} SplitJoin(parts: seq<string>, sep: char)
    requires parts != [] && forall i :: 0 <= i < |parts| ==> sep !in parts[i]
    ensures Split(Join(parts, sep), sep) == parts
    decreases |parts|
  {
    if |parts| == 1 {
      SplitOne(parts[0], sep);
    } else {
      SplitJoin(parts[1..], sep);
      SplitConcat(parts[0], Join(parts[1..], sep), sep);
    }
  }

  /** The lines of a text. */
  function Lines(s: string): seq<string> { Split(s, '\n') }

  lemma {:induction false} LinesAreWhole(s: string)
    ensures forall line | line in Lines(s) :: '\n' !in line
  {
    PiecesAreWhole(s, '\n');
  }

  function Unlines(lines: seq<string>): string { Join(lines, '\n') }

  // ---------------------------------------------------------------------------
  // Numbers

  const MAX_INT64: nat := 0x7FFF_FFFF_FFFF_FFFF

  predicate AllDigits(s: string) { s != [] && forall i :: 0 <= i < |s| ==> Digit(s[i]) }

  /** %d of a non-negative number. */
  function Decimal(n: nat): (s: string)
    ensures AllDigits(s)
  {
    var last := ((n % 10) + 48) as char;
    if n < 10 then [last] else Decimal(n / 10) + [last]
  }

  /** %d. */
  function DecimalInt(n: int): string
  {
    if n < 0 then "-" + Decimal(-n) else Decimal(n)
  }

  function DigitValue(c: char): nat
    requires Digit(c)
  {
    (c as int) - 48
  }

  function Value(digits: string): nat
    requires forall i :: 0 <= i < |digits| ==> Digit(digits[i])
  {
    if digits == [] then 0
    else
      assert Digit(digits[|digits| - 1]);
      Value(digits[..|digits| - 1]) * 10 + DigitValue(digits[|digits| - 1])
  }

  /** strconv.Atoi on a string without a sign: an error when it is not a number or does
      not fit 64 bits. */
  function Atoi(digits: string): Option<nat>
  {
    if AllDigits(digits) && Value(digits) <= MAX_INT64 then Some(Value(digits)) else None
  }

  lemma {:induction false} ValueOfDecimal(n: nat)
    ensures Value(Decimal(n)) == n
    decreases n
  {
    if n >= 10 {
      ValueOfDecimal(n / 10);
      var s := Decimal(n);
      assert s[..|s| - 1] == Decimal(n / 10);
    }
  }

  /** strconv.Atoi reads back what %d wrote. */
  lemma {:induction false} AtoiOfDecimal(n: nat)
    ensures Atoi(Decimal(n)) == if n <= MAX_INT64 then Some(n) else None
  {
    ValueOfDecimal(n);
  }

  /** Joined lines come apart again exactly when none holds a line break. */
  lemma {:induction false} LinesOfUnlinesIff(lines: seq<string>)
    requires lines != []
    ensures Lines(Unlines(lines)) == lines <==> forall i :: 0 <= i < |lines| ==> '\n' !in lines[i]
  {
    PiecesAreWhole(Unlines(lines), '\n');
    if forall i :: 0 <= i < |lines| ==> '\n' !in lines[i] {
      SplitJoin(lines, '\n');
    }
  }
}
