/** The regular expression that finds a frame in a line of a browser stack trace
    (business/domain/clienterrorbus/fingerprint.go):

      (?:at\s+(?:(fn1)\s+\()?|(fn2)@)?(loc):(line):(col)\)?

    with fn1 = [^\s(]+, fn2 = [^\s@]+, loc = [^\s()]+? and line, col = \d+.

    `Find` is a matcher without backtracking. `IsParse` says what a match is, `Better`
    in which order a leftmost-first engine tries them, and the main result is that the
    matcher returns the match such an engine returns. */
module FrameLine {
  import opened Basics
  import opened Text

  /** \s of Go's regexp package. */
  predicate RegexSpace(c: char) { c == ' ' || c == '\t' || c == '\n' || c as int == 12 || c == '\r' }

  predicate Fn1Char(c: char) { !RegexSpace(c) && c != '(' }

  predicate Fn2Char(c: char) { !RegexSpace(c) && c != '@' }

  predicate LocChar(c: char) { !RegexSpace(c) && c != '(' && c != ')' }

  // ---------------------------------------------------------------------------
  // What a match is

  /** The alternatives of the leading group, in the order they are tried. */
  datatype Branch = AtNamed | AtBare | Named | Bare

  /** Where the parts of a match lie: spaces after "at" end at ws1, the function name is
      s[fnFrom..fnTo], the location starts at loc, and so on. Positions that a branch
      does not use are zero. */
  datatype Parse = Parse(branch: Branch, start: nat, ws1: nat, fnFrom: nat, fnTo: nat, ws2: nat,
                         loc: nat, locTo: nat, lineTo: nat, colTo: nat, paren: bool)

  /** A non-empty stretch of characters of one class. */
  ghost predicate Run(s: string, from: nat, to: nat, p: char -> bool)
  {
    from < to <= |s| && forall i :: from <= i < to ==> p(s[i])
  }

  ghost predicate IsTail(s: string, p: Parse)
  {
    && Run(s, p.loc, p.locTo, LocChar)
    && p.locTo < |s| && s[p.locTo] == ':' && Run(s, p.locTo + 1, p.lineTo, Digit)
    && p.lineTo < |s| && s[p.lineTo] == ':' && Run(s, p.lineTo + 1, p.colTo, Digit)
    && (p.paren ==> p.colTo < |s| && s[p.colTo] == ')')
  }

  ghost predicate IsAt(s: string, i: nat, ws1: nat)
  {
    i + 2 <= |s| && s[i] == 'a' && s[i + 1] == 't' && Run(s, i + 2, ws1, RegexSpace)
  }

  ghost predicate IsHead(s: string, p: Parse)
  {
    match p.branch
    case AtNamed =>
      && IsAt(s, p.start, p.ws1) && p.fnFrom == p.ws1 && Run(s, p.ws1, p.fnTo, Fn1Char)
      && Run(s, p.fnTo, p.ws2, RegexSpace) && p.ws2 < |s| && s[p.ws2] == '(' && p.loc == p.ws2 + 1
    case AtBare => IsAt(s, p.start, p.ws1) && p.fnFrom == p.fnTo == p.ws2 == 0 && p.loc == p.ws1
    case Named =>
      && p.ws1 == p.ws2 == 0 && p.fnFrom == p.start && Run(s, p.start, p.fnTo, Fn2Char)
      && p.fnTo < |s| && s[p.fnTo] == '@' && p.loc == p.fnTo + 1
    case Bare => p.ws1 == p.fnFrom == p.fnTo == p.ws2 == 0 && p.loc == p.start
  }

  ghost predicate IsParse(s: string, p: Parse) { IsHead(s, p) && IsTail(s, p) }

  function Alternative(b: Branch): nat
  {
    match b
    case AtNamed => 0
    case AtBare => 0
    case Named => 1
    case Bare => 2
  }

  /** The engine reaches p before q: alternatives in order, greedy parts longest first,
      optional parts taken first, the lazy location shortest first. */
  ghost predicate Better(p: Parse, q: Parse)
  {
    if Alternative(p.branch) != Alternative(q.branch) then Alternative(p.branch) < Alternative(q.branch)
    else if p.ws1 != q.ws1 then p.ws1 > q.ws1
    else if p.branch != q.branch then p.branch.AtNamed?
    else if p.fnTo != q.fnTo then p.fnTo > q.fnTo
    else if p.ws2 != q.ws2 then p.ws2 > q.ws2
    else if p.locTo != q.locTo then p.locTo < q.locTo
    else if p.lineTo != q.lineTo then p.lineTo > q.lineTo
    else if p.colTo != q.colTo then p.colTo > q.colTo
    else p.paren && !q.paren
  }

  // ---------------------------------------------------------------------------
  // The matcher

  /** End of the longest stretch of characters of one class. */
  function RunEnd(s: string, i: nat, p: char -> bool): (r: nat)
    requires i <= |s|
    ensures i <= r <= |s|
    ensures forall k :: i <= k < r ==> p(s[k])
    ensures r < |s| ==> !p(s[r])
    decreases |s| - i
  {
    if i < |s| && p(s[i]) then RunEnd(s, i + 1, p) else i
  }

  datatype Place = Place(locTo: nat, lineTo: nat, colTo: nat, paren: bool)

  /** ":digits:digits" at e, and the parenthesis if it follows. */
  function PositionAt(s: string, e: nat): Option<Place>
  {
    if e >= |s| || s[e] != ':' then None
    else
      var lineTo := RunEnd(s, e + 1, Digit);
      if lineTo == e + 1 || lineTo >= |s| || s[lineTo] != ':' then None
      else
        var colTo := RunEnd(s, lineTo + 1, Digit);
        if colTo == lineTo + 1 then None
        else Some(Place(e, lineTo, colTo, colTo < |s| && s[colTo] == ')'))
  }

  /** The shortest location that ends at e or later. */
  function SearchLocation(s: string, e: nat): Option<Place>
    requires e <= |s|
    decreases |s| - e
  {
    if PositionAt(s, e).Some? then PositionAt(s, e)
    else if e < |s| && LocChar(s[e]) then SearchLocation(s, e + 1)
    else None
  }

  function LocationAt(s: string, j: nat): Option<Place>
  {
    if j < |s| && LocChar(s[j]) then SearchLocation(s, j + 1) else None
  }

  function WithPlace(b: Branch, start: nat, ws1: nat, fnFrom: nat, fnTo: nat, ws2: nat, loc: nat, at: Place): Parse
  {
    Parse(b, start, ws1, fnFrom, fnTo, ws2, loc, at.locTo, at.lineTo, at.colTo, at.paren)
  }

  /** A name before a parenthesis, after "at" and spaces that end at ws1. */
  function MatchAtNamed(s: string, i: nat, ws1: nat): Option<Parse>
    requires ws1 <= |s|
  {
    var fnTo := RunEnd(s, ws1, Fn1Char);
    var ws2 := RunEnd(s, fnTo, RegexSpace);
    if fnTo == ws1 || ws2 == fnTo || ws2 == |s| || s[ws2] != '(' then None
    else
      var at := LocationAt(s, ws2 + 1);
      if at.Some? then Some(WithPlace(AtNamed, i, ws1, ws1, fnTo, ws2, ws2 + 1, at.value)) else None
  }

  function MatchAtBare(s: string, i: nat, ws1: nat): Option<Parse>
  {
    var at := LocationAt(s, ws1);
    if at.Some? then Some(WithPlace(AtBare, i, ws1, 0, 0, 0, ws1, at.value)) else None
  }

  /** "at", spaces, and a name before a parenthesis or not. */
  function MatchAt(s: string, i: nat): Option<Parse>
    requires i <= |s|
  {
    if i + 2 > |s| || s[i] != 'a' || s[i + 1] != 't' then None
    else
      var ws1 := RunEnd(s, i + 2, RegexSpace);
      if ws1 == i + 2 then None
      else if MatchAtNamed(s, i, ws1).Some? then MatchAtNamed(s, i, ws1)
      else MatchAtBare(s, i, ws1)
  }

  /** A name before "@". */
  function MatchNamed(s: string, i: nat): Option<Parse>
    requires i <= |s|
  {
    var fnTo := RunEnd(s, i, Fn2Char);
    if fnTo == i || fnTo >= |s| || s[fnTo] != '@' then None
    else
      var at := LocationAt(s, fnTo + 1);
      if at.Some? then Some(WithPlace(Named, i, 0, i, fnTo, 0, fnTo + 1, at.value)) else None
  }

  function MatchBare(s: string, i: nat): Option<Parse>
  {
    var at := LocationAt(s, i);
    if at.Some? then Some(WithPlace(Bare, i, 0, 0, 0, 0, i, at.value)) else None
  }

  function MatchFrom(s: string, i: nat): Option<Parse>
    requires i <= |s|
  {
    if MatchAt(s, i).Some? then MatchAt(s, i)
    else if MatchNamed(s, i).Some? then MatchNamed(s, i)
    else MatchBare(s, i)
  }

  /** The leftmost match at i or later. */
  function Find(s: string, i: nat): Option<Parse>
    requires i <= |s|
    decreases |s| - i
  {
    if MatchFrom(s, i).Some? then MatchFrom(s, i)
    else if i < |s| then Find(s, i + 1)
    else None
  }

  // ---------------------------------------------------------------------------
  // The matcher agrees with the engine

  lemma {:induction false} RunEndIs(s: string, i: nat, e: nat, p: char -> bool)
    requires i <= e <= |s| && (forall k :: i <= k < e ==> p(s[k])) && (e < |s| ==> !p(s[e]))
    ensures RunEnd(s, i, p) == e
    decreases e - i
  {
    if i < e {
      RunEndIs(s, i + 1, e, p);
    }
  }

  /** A stretch that is followed by a character of another class is the longest one. */
  lemma {:induction false} RunIsLongest(s: string, from: nat, to: nat, p: char -> bool)
    requires Run(s, from, to, p)
    ensures to <= RunEnd(s, from, p)
    ensures to < |s| && !p(s[to]) ==> RunEnd(s, from, p) == to
  {
    if to < |s| && !p(s[to]) {
      RunEndIs(s, from, to, p);
    }
  }

  ghost predicate PlaceOf(at: Place, p: Parse)
  {
    p.locTo == at.locTo && p.lineTo == at.lineTo && p.colTo == at.colTo && p.paren == at.paren
  }

  /** PositionAt finds the greediest position at e, and finds one whenever there is one. */
  lemma {:induction false} PositionIsGreedy(s: string, q: Parse)
    requires IsTail(s, q)
    ensures PositionAt(s, q.locTo).Some?
    ensures var at := PositionAt(s, q.locTo).value;
            at.locTo == q.locTo && at.lineTo == q.lineTo && at.colTo >= q.colTo
            && (at.colTo == q.colTo && q.paren ==> at.paren)
  {
    RunIsLongest(s, q.locTo + 1, q.lineTo, Digit);
    RunIsLongest(s, q.lineTo + 1, q.colTo, Digit);
  }

  lemma {:induction false} SearchFindsFirst(s: string, e: nat, j: nat)
    requires j < e <= |s| && Run(s, j, e, LocChar)
    ensures var r := SearchLocation(s, e);
            && (r.Some? ==>
                  && e <= r.value.locTo && PositionAt(s, r.value.locTo) == r && Run(s, j, r.value.locTo, LocChar)
                  && forall k :: e <= k < r.value.locTo ==> PositionAt(s, k).None?)
            && (r.None? ==> forall k :: e <= k <= |s| && Run(s, j, k, LocChar) ==> PositionAt(s, k).None?)
    decreases |s| - e
  {
    if PositionAt(s, e).None? && e < |s| && LocChar(s[e]) {
      SearchFindsFirst(s, e + 1, j);
    }
  }

  /** What the engine prefers among matches that agree up to the location. */
  ghost predicate FirstAt(at: Option<Place>, q: Parse)
  {
    && at.Some?
    && (|| PlaceOf(at.value, q)
        || (if at.value.locTo != q.locTo then at.value.locTo < q.locTo
            else
              && at.value.lineTo == q.lineTo
              && (if at.value.colTo != q.colTo then at.value.colTo > q.colTo else at.value.paren && !q.paren)))
  }

  /** LocationAt returns the tail the engine prefers among those that start at j. */
  lemma {:induction false} LocationIsPreferred(s: string, j: nat, q: Parse)
    requires IsTail(s, q) && q.loc == j
    ensures FirstAt(LocationAt(s, j), q)
  {
    PositionIsGreedy(s, q);
    assert Run(s, j, j + 1, LocChar);
    SearchFindsFirst(s, j + 1, j);
  }

  /** What LocationAt returns is a tail. */
  lemma {:induction false} LocationIsTail(s: string, j: nat, p: Parse)
    requires LocationAt(s, j).Some? && PlaceOf(LocationAt(s, j).value, p) && p.loc == j
    ensures IsTail(s, p)
  {
    assert Run(s, j, j + 1, LocChar);
    SearchFindsFirst(s, j + 1, j);
  }

  lemma {:induction false} AtIsParse(s: string, i: nat)
    requires i <= |s| && MatchAt(s, i).Some?
    ensures IsParse(s, MatchAt(s, i).value) && MatchAt(s, i).value.start == i
  {
    var ws1 := RunEnd(s, i + 2, RegexSpace);
    var p := MatchAt(s, i).value;
    LocationIsTail(s, p.loc, p);
    if MatchAtNamed(s, i, ws1).Some? {
      AtNamedIsHead(s, i, ws1);
    }
  }

  lemma {:induction false} AtNamedIsHead(s: string, i: nat, ws1: nat)
    requires IsAt(s, i, ws1) && MatchAtNamed(s, i, ws1).Some?
    ensures IsHead(s, MatchAtNamed(s, i, ws1).value)
  {
  }

  lemma {:induction false} NamedIsParse(s: string, i: nat)
    requires i <= |s| && MatchNamed(s, i).Some?
    ensures IsParse(s, MatchNamed(s, i).value) && MatchNamed(s, i).value.start == i
  {
    var p := MatchNamed(s, i).value;
    LocationIsTail(s, p.loc, p);
  }

  lemma {:induction false} BareIsParse(s: string, i: nat)
    requires MatchBare(s, i).Some?
    ensures IsParse(s, MatchBare(s, i).value) && MatchBare(s, i).value.start == i
  {
    var p := MatchBare(s, i).value;
    LocationIsTail(s, p.loc, p);
  }

  lemma {:induction false} MatchIsParse(s: string, i: nat)
    requires i <= |s| && MatchFrom(s, i).Some?
    ensures IsParse(s, MatchFrom(s, i).value) && MatchFrom(s, i).value.start == i
  {
    if MatchAt(s, i).Some? {
      AtIsParse(s, i);
    } else if MatchNamed(s, i).Some? {
      NamedIsParse(s, i);
    } else {
      BareIsParse(s, i);
    }
  }

  /** The parts of a match before the location are forced. */
  lemma {:induction false} HeadIsForced(s: string, q: Parse)
    requires IsParse(s, q)
    ensures q.branch.AtNamed? || q.branch.AtBare? ==> q.ws1 == RunEnd(s, q.start + 2, RegexSpace)
    ensures q.branch.AtNamed? ==> q.fnTo == RunEnd(s, q.ws1, Fn1Char) && q.ws2 == RunEnd(s, q.fnTo, RegexSpace)
    ensures q.branch.Named? ==> q.fnTo == RunEnd(s, q.start, Fn2Char)
  {
    match q.branch
    case AtNamed =>
      assert Fn1Char(s[q.ws1]) && RegexSpace(s[q.fnTo]);
      RunIsLongest(s, q.start + 2, q.ws1, RegexSpace);
      RunIsLongest(s, q.ws1, q.fnTo, Fn1Char);
      RunIsLongest(s, q.fnTo, q.ws2, RegexSpace);
    case AtBare =>
      assert LocChar(s[q.ws1]);
      RunIsLongest(s, q.start + 2, q.ws1, RegexSpace);
    case Named =>
      RunIsLongest(s, q.start, q.fnTo, Fn2Char);
    case Bare =>
  }

  lemma {:induction false} AtNamedIsPreferred(s: string, ws1: nat, q: Parse)
    requires ws1 <= |s| && IsHead(s, q) && q.branch.AtNamed? && q.ws1 == ws1
    requires q.fnTo == RunEnd(s, ws1, Fn1Char) && q.ws2 == RunEnd(s, q.fnTo, RegexSpace)
    requires FirstAt(LocationAt(s, q.loc), q)
    ensures MatchAtNamed(s, q.start, ws1).Some?
    ensures MatchAtNamed(s, q.start, ws1).value == q || Better(MatchAtNamed(s, q.start, ws1).value, q)
  {
  }

  lemma {:induction false} AtBareIsPreferred(s: string, ws1: nat, q: Parse)
    requires ws1 <= |s| && IsHead(s, q) && q.branch.AtBare? && q.ws1 == ws1 && FirstAt(LocationAt(s, q.loc), q)
    ensures MatchAtBare(s, q.start, ws1).Some?
    ensures MatchAtBare(s, q.start, ws1).value == q || Better(MatchAtBare(s, q.start, ws1).value, q)
    ensures MatchAtNamed(s, q.start, ws1).Some? ==> Better(MatchAtNamed(s, q.start, ws1).value, q)
  {
  }

  lemma {:induction false} AtIsPreferred(s: string, i: nat, q: Parse)
    requires i <= |s| && IsAt(s, i, q.ws1) && q.ws1 == RunEnd(s, i + 2, RegexSpace)
    requires var named, bare := MatchAtNamed(s, i, q.ws1), MatchAtBare(s, i, q.ws1);
             || (named.Some? && (named.value == q || Better(named.value, q)))
             || (named.None? && bare.Some? && (bare.value == q || Better(bare.value, q)))
    ensures MatchAt(s, i).Some?
    ensures MatchAt(s, i).value == q || Better(MatchAt(s, i).value, q)
  {
  }

  lemma {:induction false} NamedIsPreferred(s: string, i: nat, q: Parse)
    requires i <= |s| && IsHead(s, q) && q.start == i && q.branch.Named?
    requires q.fnTo == RunEnd(s, q.start, Fn2Char) && FirstAt(LocationAt(s, q.loc), q)
    ensures MatchNamed(s, i).Some?
    ensures MatchNamed(s, i).value == q || Better(MatchNamed(s, i).value, q)
  {
  }

  lemma {:induction false} BareIsPreferred(s: string, i: nat, q: Parse)
    requires i <= |s| && IsHead(s, q) && q.start == i && q.branch.Bare? && FirstAt(LocationAt(s, q.loc), q)
    ensures MatchBare(s, i).Some?
    ensures MatchBare(s, i).value == q || Better(MatchBare(s, i).value, q)
  {
  }

  lemma {:induction false} AtWins(s: string, i: nat, q: Parse)
    requires i <= |s| && IsParse(s, q) && q.start == i && Alternative(q.branch) == 0
    ensures MatchAt(s, i).Some? && (MatchAt(s, i).value == q || Better(MatchAt(s, i).value, q))
  {
    HeadIsForced(s, q);
    LocationIsPreferred(s, q.loc, q);
    if q.branch.AtNamed? {
      AtNamedIsPreferred(s, q.ws1, q);
    } else {
      AtBareIsPreferred(s, q.ws1, q);
    }
    AtIsPreferred(s, i, q);
  }

  lemma {:induction false} NamedWins(s: string, i: nat, q: Parse)
    requires i <= |s| && IsParse(s, q) && q.start == i && q.branch.Named?
    ensures MatchNamed(s, i).Some? && (MatchNamed(s, i).value == q || Better(MatchNamed(s, i).value, q))
  {
    HeadIsForced(s, q);
    LocationIsPreferred(s, q.loc, q);
    NamedIsPreferred(s, i, q);
  }

  lemma {:induction false} BareWins(s: string, i: nat, q: Parse)
    requires i <= |s| && IsParse(s, q) && q.start == i && q.branch.Bare?
    ensures MatchBare(s, i).Some? && (MatchBare(s, i).value == q || Better(MatchBare(s, i).value, q))
  {
    LocationIsPreferred(s, q.loc, q);
    BareIsPreferred(s, i, q);
  }

  lemma {:induction false} MatchIsPreferred(s: string, i: nat, q: Parse)
    requires i <= |s| && IsParse(s, q) && q.start == i
    ensures MatchFrom(s, i).Some?
    ensures MatchFrom(s, i).value == q || Better(MatchFrom(s, i).value, q)
  {
    match q.branch
    case AtNamed => AtWins(s, i, q);
    case AtBare => AtWins(s, i, q);
    case Named => NamedWins(s, i, q);
    case Bare => BareWins(s, i, q);
    EarlierIsBetter(s, i, q);
    FirstOfThree(s, i, q);
  }

  lemma {:induction false} FirstOfThree(s: string, i: nat, q: Parse)
    requires i <= |s|
    requires Alternative(q.branch) == 0 ==>
               MatchAt(s, i).Some? && (MatchAt(s, i).value == q || Better(MatchAt(s, i).value, q))
    requires Alternative(q.branch) == 1 ==>
               MatchNamed(s, i).Some? && (MatchNamed(s, i).value == q || Better(MatchNamed(s, i).value, q))
    requires Alternative(q.branch) == 2 ==>
               MatchBare(s, i).Some? && (MatchBare(s, i).value == q || Better(MatchBare(s, i).value, q))
    requires MatchAt(s, i).Some? && Alternative(q.branch) > 0 ==> Better(MatchAt(s, i).value, q)
    requires MatchNamed(s, i).Some? && Alternative(q.branch) > 1 ==> Better(MatchNamed(s, i).value, q)
    ensures MatchFrom(s, i).Some? && (MatchFrom(s, i).value == q || Better(MatchFrom(s, i).value, q))
  {
  }

  /** A match of an earlier alternative comes first. */
  lemma {:induction false} EarlierIsBetter(s: string, i: nat, q: Parse)
    requires i <= |s|
    ensures MatchAt(s, i).Some? && Alternative(q.branch) > 0 ==> Better(MatchAt(s, i).value, q)
    ensures MatchNamed(s, i).Some? && Alternative(q.branch) > 1 ==> Better(MatchNamed(s, i).value, q)
  {
  }

  /** The matcher returns what a leftmost-first engine returns: no match starts further
      left, and at its start no other way to match comes earlier in the engine's order. */
  lemma {:induction false} FindIsLeftmostFirst(s: string, i: nat)
    requires i <= |s|
    ensures Find(s, i).Some? ==>
              var p := Find(s, i).value;
              && i <= p.start <= |s| && IsParse(s, p) && Find(s, i) == MatchFrom(s, p.start)
              && (forall q :: IsParse(s, q) && i <= q.start ==>
                    q.start > p.start || (q.start == p.start && (q == p || Better(p, q))))
    ensures Find(s, i).None? ==> forall q :: IsParse(s, q) ==> q.start < i
    decreases |s| - i
  {
    BestHere(s, i);
    if MatchFrom(s, i).None? && i < |s| {
      FindIsLeftmostFirst(s, i + 1);
    }
  }

  lemma {:induction false} BestHere(s: string, i: nat)
    requires i <= |s|
    ensures MatchFrom(s, i).Some? ==> IsParse(s, MatchFrom(s, i).value) && MatchFrom(s, i).value.start == i
    ensures forall q :: IsParse(s, q) && q.start == i ==>
              MatchFrom(s, i).Some? && (q == MatchFrom(s, i).value || Better(MatchFrom(s, i).value, q))
    ensures forall q :: IsParse(s, q) ==> q.start < |s|
  {
    if MatchFrom(s, i).Some? {
      MatchIsParse(s, i);
    }
    forall q | IsParse(s, q) && q.start == i
      ensures MatchFrom(s, i).Some? && (q == MatchFrom(s, i).value || Better(MatchFrom(s, i).value, q))
    {
      MatchIsPreferred(s, i, q);
    }
  }
}
