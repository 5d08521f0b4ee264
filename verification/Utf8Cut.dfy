/** Bounding a stored string without splitting a character
    (business/domain/clienterrorbus/scrub.go and business/domain/rejectbus/rejectbus.go,
    which hold the same function).

    A Go string is a sequence of bytes. `Utf8` gives the reference: the grammar of
    section 4 of RFC 3629. `Decode` and `DecodeLast` are the two functions of Go's
    unicode/utf8 package that the loop in `Truncate` relies on, with their tables
    and their backward search. */

/** Strings spelled as a sequence of words, for any set of non-empty words. */
module Words {

  ghost predicate Spelled<T>(s: seq<T>, word: seq<T> -> bool)
    decreases |s|
  {
    s == [] || exists k :: 1 <= k <= |s| && word(s[..k]) && Spelled(s[k..], word)
  }

  /** The string stops right after a complete word. */
  ghost predicate EndsWithWord<T>(s: seq<T>, word: seq<T> -> bool)
  {
    exists q :: 0 <= q < |s| && word(s[q..])
  }

  lemma {:induction false} SpelledAppend<T>(a: seq<T>, b: seq<T>, word: seq<T> -> bool)
    requires Spelled(a, word) && Spelled(b, word)
    ensures Spelled(a + b, word)
    decreases |a|
  {
    if a == [] {
      assert a + b == b;
    } else {
      var k :| 1 <= k <= |a| && word(a[..k]) && Spelled(a[k..], word);
      SpelledAppend(a[k..], b, word);
      assert (a + b)[..k] == a[..k] && (a + b)[k..] == a[k..] + b;
    }
  }

  lemma {:induction false} WordIsSpelled<T>(c: seq<T>, word: seq<T> -> bool)
    requires word(c) && c != []
    ensures Spelled(c, word)
  {
    assert c[..|c|] == c && c[|c|..] == [];
  }

  lemma {:induction false} SpelledEndsWithWord<T>(s: seq<T>, word: seq<T> -> bool)
    requires Spelled(s, word) && s != []
    ensures EndsWithWord(s, word)
    decreases |s|
  {
    var k :| 1 <= k <= |s| && word(s[..k]) && Spelled(s[k..], word);
    if k == |s| {
      assert s[0..] == s[..k];
    } else {
      SpelledEndsWithWord(s[k..], word);
      var q :| 0 <= q < |s| - k && word(s[k..][q..]);
      assert s[k + q..] == s[k..][q..];
    }
  }

  /** A position in a spelled string is a word boundary or lies inside one word s[k..e]. */
  lemma {:induction false} BoundaryBelow<T>(s: seq<T>, m: nat, word: seq<T> -> bool) returns (k: nat, e: nat)
    requires Spelled(s, word) && m <= |s|
    ensures k <= m && Spelled(s[..k], word)
    ensures k == m || (m < e <= |s| && word(s[k..e]))
    decreases |s|
  {
    if m == 0 {
      k, e := 0, 0;
    } else {
      var c :| 1 <= c <= |s| && word(s[..c]) && Spelled(s[c..], word);
      if m < c {
        k, e := 0, c;
        assert s[0..c] == s[..c];
      } else {
        var k1, e1 := BoundaryBelow(s[c..], m - c, word);
        WordIsSpelled(s[..c], word);
        SpelledAppend(s[..c], s[c..][..k1], word);
        assert s[..c + k1] == s[..c] + s[c..][..k1];
        k, e := c + k1, c + e1;
        if k1 < m - c {
          assert s[c..][k1..e1] == s[k..e];
        }
      }
    }
  }
}

module Utf8 {
  import opened Words

  type byte = b: int | 0 <= b < 256

  // ---------------------------------------------------------------------------
  // RFC 3629, section 4

  predicate Tail(b: byte) { 0x80 <= b <= 0xBF }

  predicate Char1(c: seq<byte>) { |c| == 1 && c[0] <= 0x7F }

  predicate Char2(c: seq<byte>) { |c| == 2 && 0xC2 <= c[0] <= 0xDF && Tail(c[1]) }

  predicate Char3(c: seq<byte>)
  {
    && |c| == 3 && Tail(c[2])
    && (|| (c[0] == 0xE0 && 0xA0 <= c[1] <= 0xBF)
        || (0xE1 <= c[0] <= 0xEC && Tail(c[1]))
        || (c[0] == 0xED && 0x80 <= c[1] <= 0x9F)
        || (0xEE <= c[0] <= 0xEF && Tail(c[1])))
  }

  predicate Char4(c: seq<byte>)
  {
    && |c| == 4 && Tail(c[2]) && Tail(c[3])
    && (|| (c[0] == 0xF0 && 0x90 <= c[1] <= 0xBF)
        || (0xF1 <= c[0] <= 0xF3 && Tail(c[1]))
        || (c[0] == 0xF4 && 0x80 <= c[1] <= 0x8F))
  }

  /** One encoded character. */
  predicate IsChar(c: seq<byte>) { Char1(c) || Char2(c) || Char3(c) || Char4(c) }

  /** A sequence of encoded characters. */
  ghost predicate Valid(s: seq<byte>) { Spelled(s, IsChar) }

  /** The string stops right after a complete character. */
  ghost predicate EndsWithChar(s: seq<byte>) { EndsWithWord(s, IsChar) }

  /** Inside a character no prefix stops after a complete character. */
  lemma {:induction false} BrokenInside(s: seq<byte>, k: nat, j: nat, e: nat)
    requires k < j < e <= |s| && IsChar(s[k..e])
    ensures !EndsWithChar(s[..j])
  {
    var c := s[k..e];
    CharShape(c);
    forall q | 0 <= q < j
      ensures !IsChar(s[..j][q..])
    {
      var suffix := s[..j][q..];
      assert q < k ==> suffix[k - q] == c[0];
      assert q > k ==> suffix[0] == c[q - k];
      assert q == k ==> suffix[0] == c[0];
      if IsChar(suffix) {
        CharShape(suffix);
        assert false;
      }
    }
  }

  /** The first byte tells the length, and only the first byte is not a continuation. */
  lemma {:induction false} CharShape(c: seq<byte>)
    requires IsChar(c)
    ensures 1 <= |c| <= 4 && |c| == LeadSize(c[0]) && !Tail(c[0])
    ensures forall i :: 1 <= i < |c| ==> Tail(c[i])
  {
  }

  // ---------------------------------------------------------------------------
  // unicode/utf8

  const RUNE_ERROR: int := 0xFFFD

  datatype Rune = Rune(value: int, size: nat)

  /** Size promised by a leading byte; 0 for a byte that cannot lead. */
  function LeadSize(b: byte): nat
  {
    if b < 0x80 then 1
    else if b < 0xC2 then 0
    else if b < 0xE0 then 2
    else if b < 0xF0 then 3
    else if b < 0xF5 then 4
    else 0
  }

  function AcceptLow(b: byte): byte
  {
    if b == 0xE0 then 0xA0 else if b == 0xF0 then 0x90 else 0x80
  }

  function AcceptHigh(b: byte): byte
  {
    if b == 0xED then 0x9F else if b == 0xF4 then 0x8F else 0xBF
  }

  predicate RuneStart(b: byte) { !(0x80 <= b <= 0xBF) }

  /** DecodeRuneInString. */
  function Decode(s: seq<byte>): Rune
  {
    if |s| < 1 then Rune(RUNE_ERROR, 0)
    else
      var size := LeadSize(s[0]);
      if size == 1 then Rune(s[0], 1)
      else if size == 0 || |s| < size then Rune(RUNE_ERROR, 1)
      else if !(AcceptLow(s[0]) <= s[1] <= AcceptHigh(s[0])) then Rune(RUNE_ERROR, 1)
      else if size == 2 then Rune((s[0] as int) % 32 * 64 + (s[1] as int) % 64, 2)
      else if !Tail(s[2]) then Rune(RUNE_ERROR, 1)
      else if size == 3 then Rune((s[0] as int) % 16 * 4096 + (s[1] as int) % 64 * 64 + (s[2] as int) % 64, 3)
      else if !Tail(s[3]) then Rune(RUNE_ERROR, 1)
      else Rune((s[0] as int) % 8 * 262144 + (s[1] as int) % 64 * 4096 + (s[2] as int) % 64 * 64
           + (s[3] as int) % 64, 4)
  }

  /** The backward search of DecodeLastRuneInString: stops at the first byte that may
      start a rune, or just below `limit`. */
  function SearchBack(s: seq<byte>, start: int, limit: nat): (r: int)
    requires limit <= |s| && limit - 1 <= start < |s|
    ensures limit - 1 <= r <= start
    ensures r >= limit ==> RuneStart(s[r])
    ensures forall i :: r < i <= start ==> !RuneStart(s[i])
    decreases start + 1
  {
    if start < limit then start
    else if RuneStart(s[start]) then start
    else SearchBack(s, start - 1, limit)
  }

  ghost predicate NoStartAfter(s: seq<byte>, q: nat)
  {
    forall i :: q < i < |s| ==> !RuneStart(s[i])
  }

  /** Where DecodeLastRuneInString starts decoding when the last byte is not ASCII. */
  function LastStart(s: seq<byte>): (r: nat)
    requires s != []
    ensures r < |s|
    ensures forall q :: 0 <= q < |s| - 1 <= q + 3 && RuneStart(s[q]) && NoStartAfter(s, q) ==> r == q
  {
    var end := |s|;
    var limit := if end < 4 then 0 else end - 4;
    var found := if end - 2 < limit - 1 then end - 2 else SearchBack(s, end - 2, limit);
    if found < 0 then 0 else found
  }

  /** DecodeLastRuneInString. */
  function DecodeLast(s: seq<byte>): Rune
  {
    if |s| == 0 then Rune(RUNE_ERROR, 0)
    else if s[|s| - 1] < 0x80 then Rune(s[|s| - 1], 1)
    else
      var start := LastStart(s);
      var r := Decode(s[start..]);
      if start + r.size != |s| then Rune(RUNE_ERROR, 1) else r
  }

  /** The test in the loop of truncate. */
  predicate Broken(r: Rune) { r.value == RUNE_ERROR && r.size <= 1 }

  /** Decode reads one character of the grammar, or reports an error of size at most one. */
  lemma {:induction false} DecodeReadsOneChar(s: seq<byte>)
    requires s != []
    ensures var r := Decode(s);
            if Broken(r) then forall k :: 1 <= k <= |s| ==> !IsChar(s[..k])
            else 1 <= r.size <= |s| && IsChar(s[..r.size])
    ensures forall k :: 1 <= k <= |s| && IsChar(s[..k]) ==> !Broken(Decode(s)) && Decode(s).size == k
  {
    var r := Decode(s);
    assert forall k :: 1 <= k <= |s| ==> s[..k][0] == s[0] && |s[..k]| == k;
    assert |s| >= 2 ==> forall k :: 2 <= k <= |s| ==> s[..k][1] == s[1];
    assert |s| >= 3 ==> forall k :: 3 <= k <= |s| ==> s[..k][2] == s[2];
    assert |s| >= 4 ==> forall k :: 4 <= k <= |s| ==> s[..k][3] == s[3];
  }

  /** DecodeLast reports an error exactly when the string does not stop after a
      complete character; U+FFFD itself, which is three bytes long, is not an error. */
  lemma {:induction false} DecodeLastFindsTheEnd(s: seq<byte>)
    requires s != []
    ensures Broken(DecodeLast(s)) <==> !EndsWithChar(s)
  {
    var last := s[|s| - 1];
    if last < 0x80 {
      assert s[|s| - 1..] == [last];
    } else {
      var start := LastStart(s);
      DecodeReadsOneChar(s[start..]);
      assert s[start..][..|s| - start] == s[start..];
      if EndsWithChar(s) {
        var q :| 0 <= q < |s| && IsChar(s[q..]);
        CharShape(s[q..]);
        assert s[q..][0] == s[q];
        assert forall i :: q < i < |s| ==> s[q..][i - q] == s[i];
        assert q == start;
      }
    }
  }

  lemma {:induction false} LastByteIsNoLead(s: seq<byte>)
    requires EndsWithChar(s)
    ensures s[|s| - 1] <= 0xBF
  {
    var q :| 0 <= q < |s| && IsChar(s[q..]);
    CharShape(s[q..]);
    assert s[q..][|s| - q - 1] == s[|s| - 1];
  }
}

module Utf8Cut {
  import opened Words
  import opened Utf8

  /** U+2026 followed by "[truncated]", fourteen bytes in all. */
  const MARKER: seq<byte> :=
    [0xE2, 0x80, 0xA6] + [0x5B, 0x74, 0x72, 0x75, 0x6E, 0x63, 0x61, 0x74, 0x65, 0x64, 0x5D]

  /** What is left when bytes are dropped until the string stops after a character. */
  function Cut(s: seq<byte>): (r: seq<byte>)
    ensures r <= s
    decreases |s|
  {
    if s == [] then s
    else if Broken(DecodeLast(s)) then Cut(s[..|s| - 1])
    else s
  }

  function Truncated(s: seq<byte>, n: nat): seq<byte>
  {
    if |s| <= n then s else Cut(s[..n]) + MARKER
  }

  method Truncate(s: seq<byte>, n: nat) returns (r: seq<byte>)
    ensures r == Truncated(s, n)
  {
    if |s| <= n {
      return s;
    }

    var cut := s[..n];
    while |cut| > 0
      invariant Cut(cut) == Cut(s[..n])
      decreases |cut|
    {
      if Broken(DecodeLast(cut)) {
        cut := cut[..|cut| - 1];
        continue;
      }
      break;
    }

    return cut + MARKER;
  }

  // ---------------------------------------------------------------------------

  /** Cut drops exactly the bytes after the last complete character. */
  lemma {:induction false} CutStopsAtBoundary(s: seq<byte>)
    ensures Cut(s) == [] || EndsWithChar(Cut(s))
    ensures forall j :: |Cut(s)| < j <= |s| ==> !EndsWithChar(s[..j])
    decreases |s|
  {
    if s != [] {
      DecodeLastFindsTheEnd(s);
      if Broken(DecodeLast(s)) {
        CutStopsAtBoundary(s[..|s| - 1]);
        forall j | |Cut(s)| < j <= |s|
          ensures !EndsWithChar(s[..j])
        {
          if j < |s| {
            assert s[..|s| - 1][..j] == s[..j];
          } else {
            assert s[..j] == s;
          }
        }
      }
    }
  }

  lemma {:induction false} CutIs(s: seq<byte>, n: nat, k: nat)
    requires k <= n <= |s|
    requires k == 0 || EndsWithChar(s[..k])
    requires forall j :: k < j <= n ==> !EndsWithChar(s[..j])
    ensures Cut(s[..n]) == s[..k]
  {
    CutStopsAtBoundary(s[..n]);
    var m := |Cut(s[..n])|;
    assert forall j :: 0 <= j <= n ==> s[..n][..j] == s[..j];
    assert Cut(s[..n]) == s[..m];
  }

  /** In a valid string the cut lands on a character boundary, or just below the one
      character s[k..e] that straddles the limit. */
  lemma {:induction false} CutFindsBoundary(s: seq<byte>, n: nat) returns (k: nat, e: nat)
    requires Valid(s) && n <= |s|
    ensures k <= n && Cut(s[..n]) == s[..k] && Valid(s[..k])
    ensures k == n || (n < e <= |s| && IsChar(s[k..e]))
    ensures forall j :: k < j <= n ==> !EndsWithChar(s[..j])
  {
    k, e := BoundaryBelow(s, n, IsChar);
    forall j | k < j <= n
      ensures !EndsWithChar(s[..j])
    {
      BrokenInside(s, k, j, e);
    }
    assert s[..n][..k] == s[..k];
    if k > 0 {
      SpelledEndsWithWord(s[..k], IsChar);
    }
    CutIs(s, n, k);
  }

  /** What a stored field is promised: valid UTF-8 stays valid UTF-8, bounded by n plus
      the marker, and what is kept is the longest valid prefix of at most n bytes. */
  lemma {:induction false} TruncateKeepsValidUtf8(s: seq<byte>, n: nat)
    requires Valid(s)
    ensures Valid(Truncated(s, n)) && |Truncated(s, n)| <= n + 14
    ensures |s| <= n ==> Truncated(s, n) == s
    ensures |s| > n ==>
              exists k :: 0 <= k <= n <= k + 3 && Valid(s[..k]) && Truncated(s, n) == s[..k] + MARKER
                          && forall j :: k < j <= n ==> !Valid(s[..j])
  {
    if |s| > n {
      var k, e := CutFindsBoundary(s, n);
      if k < n {
        CharShape(s[k..e]);
      }
      forall j | k < j <= n
        ensures !Valid(s[..j])
      {
        if Valid(s[..j]) {
          SpelledEndsWithWord(s[..j], IsChar);
        }
      }
      MarkerIsValid();
      SpelledAppend(s[..k], MARKER, IsChar);
    }
  }

  lemma {:induction false} AsciiIsValid(s: seq<byte>)
    requires forall i :: 0 <= i < |s| ==> s[i] < 0x80
    ensures Valid(s)
    decreases |s|
  {
    if s != [] {
      AsciiIsValid(s[1..]);
      assert IsChar(s[..1]);
    }
  }

  lemma {:induction false} MarkerIsValid()
    ensures |MARKER| == 14 && IsChar(MARKER[..3]) && Valid(MARKER)
  {
    assert MARKER[..3] == [0xE2, 0x80, 0xA6];
    AsciiIsValid(MARKER[3..]);
  }

  /** On arbitrary bytes the loop repairs damage at the cut and nowhere else: a long
      string comes out valid exactly when everything before its last complete
      character within n bytes was valid already. */
  lemma {:induction false} TruncateRepairsOnlyTheTail(s: seq<byte>, n: nat)
    requires |s| > n
    ensures Valid(Truncated(s, n)) <==>
            exists k :: 0 <= k <= n && Valid(s[..k]) && forall j :: k < j <= n ==> !EndsWithChar(s[..j])
  {
    var cut := Cut(s[..n]);
    CutStopsAtBoundary(s[..n]);
    assert forall j :: 0 <= j <= n ==> s[..n][..j] == s[..j];
    assert cut == s[..|cut|];
    MarkerIsValid();
    if Valid(cut + MARKER) {
      var k, e := BoundaryBelow(cut + MARKER, |cut|, IsChar);
      assert (cut + MARKER)[..|cut|] == cut;
      if k < |cut| {
        BrokenInside(cut + MARKER, k, |cut|, e);
        assert false;
      }
      assert Valid(s[..|cut|]);
    }
    if k :| 0 <= k <= n && Valid(s[..k]) && forall j :: k < j <= n ==> !EndsWithChar(s[..j]) {
      if k > 0 {
        SpelledEndsWithWord(s[..k], IsChar);
      }
      assert k == |cut|;
      SpelledAppend(cut, MARKER, IsChar);
    }
  }

  /** The gap below the limit is three bytes exactly when a four-byte character starts there. */
  lemma {:induction false} GapOfThree(s: seq<byte>, n: nat, k: nat, e: nat)
    requires Valid(s) && k <= n < |s| && Valid(s[..k])
    requires k == n || (n < e <= |s| && IsChar(s[k..e]))
    ensures n <= k + 3
    ensures n == k + 3 <==> n >= 3 && s[n - 3] >= 0xF0
  {
    if k < n {
      CharShape(s[k..e]);
    }
    if n >= 3 && s[n - 3] >= 0xF0 && k > n - 3 {
      LeadStaysWhole(s, n - 3, k);
      assert false;
    }
  }

  /** No boundary of a valid string falls within the three bytes after a four-byte lead. */
  lemma {:induction false} LeadStaysWhole(s: seq<byte>, lead: nat, k: nat)
    requires Valid(s) && lead < k <= lead + 3 && k <= |s| && s[lead] >= 0xF0
    ensures !Valid(s[..k])
  {
    var b, e := BoundaryBelow(s, lead + 1, IsChar);
    if b == lead + 1 {
      SpelledEndsWithWord(s[..b], IsChar);
      LastByteIsNoLead(s[..b]);
      assert false;
    }
    var c := s[b..e];
    CharShape(c);
    assert c[lead - b] == s[lead];
    assert b == lead && |c| == 4;
    if Valid(s[..k]) {
      BrokenInside(s, lead, k, e);
      SpelledEndsWithWord(s[..k], IsChar);
    }
  }

  /** Truncating twice is truncating once, except when the limit falls after three
      bytes of a four-byte character: then the marker's own first character fits
      into the gap and a second pass appends a second marker. */
  lemma {:induction false} TruncateTwice(s: seq<byte>, n: nat)
    requires Valid(s) && |s| > n
    ensures Truncated(Truncated(s, n), n) == Truncated(s, n) <==> !(n >= 3 && s[n - 3] >= 0xF0)
  {
    var k, e := CutFindsBoundary(s, n);
    GapOfThree(s, n, k, e);
    CutAgain(s[..k], n);
  }

  /** The second pass, on a kept prefix followed by the marker. */
  lemma {:induction false} CutAgain(kept: seq<byte>, n: nat)
    requires Valid(kept) && |kept| <= n <= |kept| + 3
    ensures Cut((kept + MARKER)[..n]) == if n == |kept| + 3 then kept + MARKER[..3] else kept
    ensures Truncated(kept + MARKER, n) == kept + MARKER <==> n != |kept| + 3
  {
    var r := kept + MARKER;
    var k := |kept|;
    MarkerIsValid();
    assert r[..k] == kept && r[k..k + 3] == MARKER[..3];
    if n == k + 3 {
      WordIsSpelled(MARKER[..3], IsChar);
      SpelledAppend(kept, MARKER[..3], IsChar);
      assert r[..n] == kept + MARKER[..3];
      SpelledEndsWithWord(r[..n], IsChar);
      CutIs(r, n, n);
    } else {
      if k > 0 {
        SpelledEndsWithWord(r[..k], IsChar);
      }
      forall j | k < j <= n
        ensures !EndsWithChar(r[..j])
      {
        BrokenInside(r, k, j, k + 3);
      }
      CutIs(r, n, k);
    }
  }
}
