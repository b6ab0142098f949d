/**
 * The detail-text formatter: three global regular-expression rewrites that
 * put markers on lines of their own, a split on line feeds that drops blank
 * lines, and a classifier that turns each remaining line into a block.
 */
module DetailsDisplay {
  import opened Wrappers
  import opened TextUtil

  /** A rendered block of detail text. */
  datatype Block =
    | Header(text: string)
    | Lettered(letter: char, text: string)
    | Numbered(number: string, text: string)
    | Paragraph(text: string)

  // ---------------------------------------------------------------------
  // Normalisation: the three `.replace(/…/g, …)` passes
  // ---------------------------------------------------------------------

  // The three rewrites, in the order they are applied:
  //   `/\s*(---.*?---)\s*/g` to `\n\n$1\n\n`,
  //   `/\s*(\d+\.)/g` to `\n$1`,
  //   `/\s*([a-z]\.)/g` to `\n$1`.
  datatype Pass = Headers | Numbers | Letters

  /** What one match consumes from the front of the remaining text:
      `lead` whitespace characters, the captured marker (`len` characters),
      then `trail` whitespace characters. */
  datatype Marker = Marker(lead: nat, len: nat, trail: nat)

  /** `---` occurs in `s` at index `i`. */
  predicate TripleDashAt(s: string, i: int) {
    0 <= i && i + 3 <= |s| && s[i] == '-' && s[i + 1] == '-' && s[i + 2] == '-'
  }

  predicate NoLineTerminator(s: string) {
    forall i :: 0 <= i < |s| ==> !IsLineTerminator(s[i])
  }

  /** The captured group of each pass, as a set of strings. */
  predicate IsMarker(p: Pass, m: string) {
    match p
    case Headers => 6 <= |m| && TripleDashAt(m, 0) && TripleDashAt(m, |m| - 3) && NoLineTerminator(m[3..|m| - 3])
    case Numbers => 2 <= |m| && AllDigits(m[..|m| - 1]) && m[|m| - 1] == '.'
    case Letters => |m| == 2 && IsLower(m[0]) && m[1] == '.'
  }

  /** The lazy `.*?---`: the offset in `t` of the first `---` reachable
      without crossing a line terminator. */
  function FindCloser(t: string): (r: Option<nat>)
    ensures r.Some? ==> TripleDashAt(t, r.value) && NoLineTerminator(t[..r.value])
    ensures r.Some? ==> forall i :: 0 <= i < r.value ==> !TripleDashAt(t, i)
    ensures r.None? ==> forall j :: TripleDashAt(t, j) ==> !NoLineTerminator(t[..j])
    decreases |t|
  {
    if |t| < 3 then None
    else if TripleDashAt(t, 0) then Some(0)
    else if IsLineTerminator(t[0]) then None
    else
      match FindCloser(t[1..])
      case Some(j) =>
        FindCloserShift(t, j);
        Some(j + 1)
      case None =>
        FindCloserNoneShift(t);
        None
  }

  lemma {:induction false} FindCloserShift(t: string, j: nat)
    requires |t| >= 3 && !TripleDashAt(t, 0) && !IsLineTerminator(t[0])
    requires TripleDashAt(t[1..], j) && NoLineTerminator(t[1..][..j])
    requires forall i :: 0 <= i < j ==> !TripleDashAt(t[1..], i)
    ensures TripleDashAt(t, j + 1) && NoLineTerminator(t[..j + 1])
    ensures forall i :: 0 <= i < j + 1 ==> !TripleDashAt(t, i)
  {
    var u := t[..j + 1];
    var v := t[1..][..j];
    forall i | 0 <= i < j + 1 ensures !IsLineTerminator(u[i]) {
      if i > 0 { assert u[i] == v[i - 1]; }
    }
    forall i | 0 <= i < j + 1 ensures !TripleDashAt(t, i) {
      if i > 0 {
        assert !TripleDashAt(t[1..], i - 1);
      }
    }
  }

  lemma {:induction false} FindCloserNoneShift(t: string)
    requires |t| >= 3 && !TripleDashAt(t, 0) && !IsLineTerminator(t[0])
    requires forall j :: TripleDashAt(t[1..], j) ==> !NoLineTerminator(t[1..][..j])
    ensures forall j :: TripleDashAt(t, j) ==> !NoLineTerminator(t[..j])
  {
    forall j | TripleDashAt(t, j) ensures !NoLineTerminator(t[..j]) {
      assert j != 0;
      assert TripleDashAt(t[1..], j - 1);
      var i :| 0 <= i < j - 1 && IsLineTerminator(t[1..][..j - 1][i]);
      assert t[..j][i + 1] == t[1..][..j - 1][i];
    }
  }

  /** The whole match at the front of `s`: whitespace, then a marker of the
      pass, then (for headers) whitespace. */
  predicate MatchesAsMarker(p: Pass, s: string, m: Marker) {
    && 0 < m.len && m.lead + m.len + m.trail <= |s|
    && m.lead == SpacePrefix(s)
    && IsMarker(p, s[m.lead..m.lead + m.len])
    && AllSpace(s[m.lead + m.len..m.lead + m.len + m.trail])
  }

  /** Whether the pass matches at the front of `s`, and what it consumes.
      `\s*` is greedy and every marker starts with a non-space character, so
      the match can only start after the maximal run of leading whitespace. */
  function MatchAt(p: Pass, s: string): (r: Option<Marker>)
    ensures r.Some? ==> MatchesAsMarker(p, s, r.value)
  {
    match p
    case Headers => MatchHeader(s)
    case Numbers => MatchNumber(s)
    case Letters => MatchLetter(s)
  }

  function MatchHeader(s: string): (r: Option<Marker>)
    ensures r.Some? ==> MatchesAsMarker(Headers, s, r.value)
  {
    var w := SpacePrefix(s);
    if TripleDashAt(s, w) then
      match FindCloser(s[w + 3..])
      case Some(j) =>
        HeaderMarkerShape(s, w, j);
        Some(Marker(w, j + 6, SpacePrefix(s[w + j + 6..])))
      case None => None
    else None
  }

  function MatchNumber(s: string): (r: Option<Marker>)
    ensures r.Some? ==> MatchesAsMarker(Numbers, s, r.value)
  {
    var w := SpacePrefix(s);
    var t := s[w..];
    var d := DigitPrefix(t);
    if 0 < d < |t| && t[d] == '.' then
      assert s[w..w + d + 1] == t[..d + 1];
      assert s[w..w + d + 1][..d] == t[..d];
      Some(Marker(w, d + 1, 0))
    else None
  }

  function MatchLetter(s: string): (r: Option<Marker>)
    ensures r.Some? ==> MatchesAsMarker(Letters, s, r.value)
  {
    var w := SpacePrefix(s);
    var t := s[w..];
    if 2 <= |t| && IsLower(t[0]) && t[1] == '.' then
      assert s[w..w + 2] == t[..2];
      Some(Marker(w, 2, 0))
    else None
  }

  lemma {:induction false} HeaderMarkerShape(s: string, w: nat, j: nat)
    requires w == SpacePrefix(s) && TripleDashAt(s, w)
    requires TripleDashAt(s[w + 3..], j) && NoLineTerminator(s[w + 3..][..j])
    ensures MatchesAsMarker(Headers, s, Marker(w, j + 6, SpacePrefix(s[w + j + 6..])))
  {
    assert |s[w + 3..]| == |s| - w - 3;
    HeaderMarkerText(s, w, j);
    SpacesAfter(s, w + j + 6);
  }

  /** The whitespace run that starts at `b`, as a slice of `s`. */
  lemma {:induction false} SpacesAfter(s: string, b: nat)
    requires b <= |s|
    ensures b + SpacePrefix(s[b..]) <= |s| && AllSpace(s[b..b + SpacePrefix(s[b..])])
  {
    var trail := SpacePrefix(s[b..]);
    assert s[b..][..trail] == s[b..b + trail];
  }

  lemma {:induction false} HeaderMarkerText(s: string, w: nat, j: nat)
    requires TripleDashAt(s, w)
    requires TripleDashAt(s[w + 3..], j) && NoLineTerminator(s[w + 3..][..j])
    ensures IsMarker(Headers, s[w..w + j + 6])
  {
    var m := s[w..w + j + 6];
    var body := s[w + 3..][..j];
    assert s[w + 3..][j] == m[j + 3] && s[w + 3..][j + 1] == m[j + 4] && s[w + 3..][j + 2] == m[j + 5];
    var mid := m[3..|m| - 3];
    forall i | 0 <= i < |mid| ensures !IsLineTerminator(mid[i]) {
      assert mid[i] == body[i];
    }
  }

  /** Backtracking cannot change the outcome of `\s*(\d+\.)` or
      `\s*([a-z]\.)`: a marker anywhere after leading whitespace is exactly
      the match `MatchAt` reports. */
  lemma {:induction false} MarkerIsTheMatch(p: Pass, s: string, k: nat, n: nat)
    requires p != Headers
    requires k + n <= |s| && AllSpace(s[..k]) && IsMarker(p, s[k..k + n])
    ensures MatchAt(p, s) == Some(Marker(k, n, 0))
  {
    var m := s[k..k + n];
    assert m[0] == s[k];
    if p == Numbers && n > 1 {
      assert m[..|m| - 1][0] == m[0];
    }
    SpacePrefixAt(s, k);
    var t := s[k..];
    assert t[..n] == m;
    if p == Numbers {
      assert t[..n - 1] == m[..|m| - 1];
      assert t[n - 1] == m[n - 1];
      DigitPrefixAt(t, n - 1);
    } else {
      assert t[0] == m[0] && t[1] == m[1];
    }
  }

  /** The same for `\s*(---.*?---)`: an opening `---` after leading
      whitespace with a closing `---` later on the same line is a match, and
      it starts at that opening. */
  lemma {:induction false} HeaderIsTheMatch(s: string, k: nat, j: nat)
    requires k <= |s| && AllSpace(s[..k]) && TripleDashAt(s, k)
    requires TripleDashAt(s[k + 3..], j) && NoLineTerminator(s[k + 3..][..j])
    ensures MatchAt(Headers, s).Some? && MatchAt(Headers, s).value.lead == k
  {
    SpacePrefixAt(s, k);
  }

  /** The text inserted in front of and behind each captured marker. */
  function Before(p: Pass): string {
    if p == Headers then "\n\n" else "\n"
  }

  function After(p: Pass): string {
    if p == Headers then "\n\n" else ""
  }

  /** One global `replace`: scan left to right; where the pass matches,
      replace what it consumed and continue after it; elsewhere keep one
      character and move on. The non-whitespace text is unchanged: no
      character other than whitespace is added, lost or moved. */
  function Rewrite(p: Pass, s: string): (r: string)
    ensures RemoveSpaces(r) == RemoveSpaces(s)
    decreases |s|
  {
    if s == [] then []
    else if MatchAt(p, s).None? then
      var rest := Rewrite(p, s[1..]);
      CopyKeepsText(s, rest);
      [s[0]] + rest
    else
      var m := MatchAt(p, s).value;
      var rest := Rewrite(p, s[m.lead + m.len + m.trail..]);
      ReplacementKeepsText(p, s, m, rest);
      Before(p) + s[m.lead..m.lead + m.len] + After(p) + rest
  }

  lemma {:induction false} CopyKeepsText(s: string, rest: string)
    requires s != [] && RemoveSpaces(rest) == RemoveSpaces(s[1..])
    ensures RemoveSpaces([s[0]] + rest) == RemoveSpaces(s)
  {
    RemoveSpacesAppend([s[0]], rest);
    RemoveSpacesSplit(s, 1);
    assert s[..1] == [s[0]];
  }

  lemma {:induction false} ReplacementKeepsText(p: Pass, s: string, m: Marker, rest: string)
    requires MatchesAsMarker(p, s, m)
    requires RemoveSpaces(rest) == RemoveSpaces(s[m.lead + m.len + m.trail..])
    ensures RemoveSpaces(Before(p) + s[m.lead..m.lead + m.len] + After(p) + rest) == RemoveSpaces(s)
  {
    ConsumedKeepsCore(s, m);
    ReplacementText(p, s[m.lead..m.lead + m.len], rest);
  }

  lemma {:induction false} ConsumedKeepsCore(s: string, m: Marker)
    requires m.lead + m.len + m.trail <= |s|
    requires AllSpace(s[..m.lead]) && AllSpace(s[m.lead + m.len..m.lead + m.len + m.trail])
    ensures RemoveSpaces(s) == RemoveSpaces(s[m.lead..m.lead + m.len]) + RemoveSpaces(s[m.lead + m.len + m.trail..])
  {
    var b := m.lead + m.len;
    DropSpaces(s, m.lead);
    RemoveSpacesCut(s, m.lead, b);
    DropSpacesBetween(s, b, b + m.trail);
  }

  lemma {:induction false} RemoveSpacesCut(s: string, a: nat, b: nat)
    requires a <= b <= |s|
    ensures RemoveSpaces(s[a..]) == RemoveSpaces(s[a..b]) + RemoveSpaces(s[b..])
  {
    RemoveSpacesSplit(s[a..], b - a);
    assert s[a..][..b - a] == s[a..b];
    assert s[a..][b - a..] == s[b..];
  }

  lemma {:induction false} DropSpacesBetween(s: string, b: nat, c: nat)
    requires b <= c <= |s| && AllSpace(s[b..c])
    ensures RemoveSpaces(s[b..]) == RemoveSpaces(s[c..])
  {
    RemoveSpacesCut(s, b, c);
    RemoveSpacesEmptyIff(s[b..c]);
  }

  lemma {:induction false} ReplacementText(p: Pass, core: string, rest: string)
    ensures RemoveSpaces(Before(p) + core + After(p) + rest) == RemoveSpaces(core) + RemoveSpaces(rest)
  {
    assert AllSpace(Before(p)) && AllSpace(After(p));
    assert Before(p) + core + After(p) + rest == Before(p) + (core + (After(p) + rest));
    RemoveSpacesAfterSpaces(Before(p), core + (After(p) + rest));
    RemoveSpacesAppend(core, After(p) + rest);
    RemoveSpacesAfterSpaces(After(p), rest);
  }

  /** The character pair every numbered or lettered marker ends with: a
      digit (or lower-case letter) immediately followed by a full stop. */
  predicate PairAt(p: Pass, s: string, i: int) {
    0 <= i && i + 1 < |s| && s[i + 1] == '.' && (if p == Numbers then IsDigit(s[i]) else IsLower(s[i]))
  }

  /** Text with no such pair has no marker, and the rewrite leaves it as it is. */
  lemma {:induction false} RewriteWithoutMarkers(p: Pass, s: string)
    requires p != Headers && forall i :: !PairAt(p, s, i)
    ensures Rewrite(p, s) == s
    decreases |s|
  {
    if s != [] {
      NoPairNoMatch(p, s);
      NoPairInTail(p, s);
      RewriteWithoutMarkers(p, s[1..]);
      RewriteKeeps(p, s);
      assert s == [s[0]] + s[1..];
    }
  }

  lemma {:induction false} NoPairNoMatch(p: Pass, s: string)
    requires p != Headers && forall i :: !PairAt(p, s, i)
    ensures MatchAt(p, s).None?
  {
    var w := SpacePrefix(s);
    var t := s[w..];
    if p == Numbers {
      var d := DigitPrefix(t);
      if 0 < d < |t| {
        assert t[..d][d - 1] == t[d - 1] == s[w + d - 1];
        assert t[d] == s[w + d];
        assert !PairAt(p, s, w + d - 1);
      }
    } else if 2 <= |t| {
      assert t[0] == s[w] && t[1] == s[w + 1];
      assert !PairAt(p, s, w);
    }
  }

  lemma {:induction false} NoPairInTail(p: Pass, s: string)
    requires s != [] && forall i :: !PairAt(p, s, i)
    ensures forall i :: !PairAt(p, s[1..], i)
  {
    forall i ensures !PairAt(p, s[1..], i) {
      assert !PairAt(p, s, i + 1);
      if 0 <= i && i + 1 < |s[1..]| { assert s[1..][i] == s[i + 1] && s[1..][i + 1] == s[i + 2]; }
    }
  }

  /** Text with no `---` anywhere has no header marker, and the first
      rewrite leaves it as it is. */
  lemma {:induction false} RewriteWithoutTripleDash(s: string)
    requires forall i :: !TripleDashAt(s, i)
    ensures Rewrite(Headers, s) == s
    decreases |s|
  {
    if s != [] {
      assert !TripleDashAt(s, SpacePrefix(s));
      assert MatchAt(Headers, s).None?;
      forall i ensures !TripleDashAt(s[1..], i) {
        assert !TripleDashAt(s, i + 1);
        if 0 <= i && i + 3 <= |s[1..]| {
          assert s[1..][i] == s[i + 1] && s[1..][i + 1] == s[i + 2] && s[1..][i + 2] == s[i + 3];
        }
      }
      RewriteWithoutTripleDash(s[1..]);
      assert s == [s[0]] + s[1..];
    }
  }

  /** The three passes in source order. */
  function Normalize(s: string): (r: string)
    ensures RemoveSpaces(r) == RemoveSpaces(s)
  {
    Rewrite(Letters, Rewrite(Numbers, Rewrite(Headers, s)))
  }

  // ---------------------------------------------------------------------
  // `split('\n')` and the blank-line filter
  // ---------------------------------------------------------------------

  /** Index of the first line feed, or `|s|` when there is none. */
  function IndexOfLineFeed(s: string): (i: nat)
    ensures i <= |s|
    ensures '\n' !in s[..i]
    ensures i < |s| ==> s[i] == '\n'
  {
    if s == [] then 0
    else if s[0] == '\n' then 0
    else
      var k := IndexOfLineFeed(s[1..]);
      assert s[..k + 1] == [s[0]] + s[1..][..k];
      1 + k
  }

  /** `s.split('\n')`: the pieces between line feeds; never empty. */
  function Split(s: string): (r: seq<string>)
    ensures |r| >= 1
    ensures forall k :: 0 <= k < |r| ==> '\n' !in r[k]
    decreases |s|
  {
    var i := IndexOfLineFeed(s);
    if i == |s| then [s] else [s[..i]] + Split(s[i + 1..])
  }

  /** `lines.join('\n')`. */
  function Join(ls: seq<string>): string
    requires |ls| >= 1
  {
    if |ls| == 1 then ls[0] else ls[0] + "\n" + Join(ls[1..])
  }

  /** Splitting loses nothing: joining the pieces gives the text back. */
  lemma {:induction false} JoinSplit(s: string)
    ensures Join(Split(s)) == s
    decreases |s|
  {
    var i := IndexOfLineFeed(s);
    if i < |s| {
      JoinSplit(s[i + 1..]);
      JoinCons(s[..i], Split(s[i + 1..]));
      AroundLineFeed(s, i);
    }
  }

  lemma {:induction false} JoinCons(x: string, ls: seq<string>)
    requires |ls| >= 1
    ensures Join([x] + ls) == x + "\n" + Join(ls)
  {
    assert ([x] + ls)[1..] == ls;
  }

  lemma {:induction false} AroundLineFeed(s: string, i: nat)
    requires i < |s| && s[i] == '\n'
    ensures s == s[..i] + "\n" + s[i + 1..]
  {
  }

  /** And splitting a join of line-feed-free pieces gives the pieces back. */
  lemma {:induction false} SplitJoin(ls: seq<string>)
    requires |ls| >= 1
    requires forall k :: 0 <= k < |ls| ==> '\n' !in ls[k]
    ensures Split(Join(ls)) == ls
    decreases |ls|
  {
    var s := Join(ls);
    if |ls| == 1 {
      IndexOfLineFeedAbsent(s);
    } else {
      JoinPieces(ls);
      SplitJoin(ls[1..]);
      assert ls == [ls[0]] + ls[1..];
    }
  }

  /** The first line feed of a join ends its first piece. */
  lemma {:induction false} JoinPieces(ls: seq<string>)
    requires |ls| >= 2 && '\n' !in ls[0]
    ensures var s := Join(ls);
      && IndexOfLineFeed(s) == |ls[0]| < |s|
      && s[..|ls[0]|] == ls[0] && s[|ls[0]| + 1..] == Join(ls[1..])
  {
    var head := ls[0];
    var tail := "\n" + Join(ls[1..]);
    assert Join(ls) == head + tail;
    IndexOfLineFeedAt(head, tail);
    assert (head + tail)[|head| + 1..] == tail[1..];
    assert (head + tail)[..|head|] == head;
  }

  lemma {:induction false} IndexOfLineFeedAbsent(s: string)
    requires '\n' !in s
    ensures IndexOfLineFeed(s) == |s|
    decreases |s|
  {
    if s != [] {
      assert s[0] in s;
      assert '\n' !in s[1..] by { assert forall k :: 0 <= k < |s[1..]| ==> s[1..][k] == s[k + 1]; }
      IndexOfLineFeedAbsent(s[1..]);
    }
  }

  lemma {:induction false} IndexOfLineFeedAt(a: string, b: string)
    requires '\n' !in a && |b| > 0 && b[0] == '\n'
    ensures IndexOfLineFeed(a + b) == |a|
    decreases |a|
  {
    if a != [] {
      assert (a + b)[0] == a[0];
      assert (a + b)[1..] == a[1..] + b;
      assert '\n' !in a[1..] by { assert forall k :: 0 <= k < |a[1..]| ==> a[1..][k] == a[k + 1]; }
      IndexOfLineFeedAt(a[1..], b);
    } else {
      assert a + b == b;
    }
  }

  /** Every piece of an all-whitespace text is all whitespace. */
  lemma {:induction false} SplitAllSpace(s: string)
    requires AllSpace(s)
    ensures forall k :: 0 <= k < |Split(s)| ==> AllSpace(Split(s)[k])
    decreases |s|
  {
    var i := IndexOfLineFeed(s);
    if i < |s| {
      var tail := s[i + 1..];
      assert AllSpace(tail) by {
        forall j | 0 <= j < |tail| ensures IsSpace(tail[j]) { assert tail[j] == s[i + 1 + j]; }
      }
      SplitAllSpace(s[i + 1..]);
      assert AllSpace(s[..i]) by {
        forall j | 0 <= j < i ensures IsSpace(s[..i][j]) { assert s[..i][j] == s[j]; }
      }
    }
  }

  /** `.filter(line => line.trim() !== '')`: the non-blank lines, in order. */
  function NonBlank(ls: seq<string>): (r: seq<string>)
    ensures |r| <= |ls|
    ensures forall x :: x in r <==> x in ls && !IsBlank(x)
  {
    if ls == [] then []
    else if IsBlank(ls[0]) then NonBlank(ls[1..])
    else [ls[0]] + NonBlank(ls[1..])
  }

  lemma {:induction false} NonBlankOfBlanks(ls: seq<string>)
    requires forall k :: 0 <= k < |ls| ==> IsBlank(ls[k])
    ensures NonBlank(ls) == []
    decreases |ls|
  {
    if ls != [] {
      assert IsBlank(ls[0]);
      NonBlankOfBlanks(ls[1..]);
    }
  }

  lemma {:induction false} NonBlankOfNonBlanks(ls: seq<string>)
    requires forall k :: 0 <= k < |ls| ==> !IsBlank(ls[k])
    ensures NonBlank(ls) == ls
    decreases |ls|
  {
    if ls != [] {
      assert !IsBlank(ls[0]);
      NonBlankOfNonBlanks(ls[1..]);
      assert ls == [ls[0]] + ls[1..];
    }
  }

  /** How many lines are not blank. */
  function CountNonBlank(ls: seq<string>): nat {
    if ls == [] then 0 else (if IsBlank(ls[0]) then 0 else 1) + CountNonBlank(ls[1..])
  }

  lemma {:induction false} NonBlankCount(ls: seq<string>)
    ensures |NonBlank(ls)| == CountNonBlank(ls)
    decreases |ls|
  {
    if ls != [] { NonBlankCount(ls[1..]); }
  }

  /** The filter keeps one line exactly when it is not blank. */
  lemma {:induction false} NonBlankOne(x: string)
    ensures NonBlank([x]) == if IsBlank(x) then [] else [x]
  {
    assert [x][1..] == [];
  }

  /** The filter works line by line: filtering a concatenation is
      concatenating the filtered parts, so order and repeats are kept. */
  lemma {:induction false} NonBlankAppend(a: seq<string>, b: seq<string>)
    ensures NonBlank(a + b) == NonBlank(a) + NonBlank(b)
    decreases |a|
  {
    if a == [] {
      assert a + b == b;
    } else {
      assert (a + b)[0] == a[0];
      assert (a + b)[1..] == a[1..] + b;
      NonBlankAppend(a[1..], b);
    }
  }

  // ---------------------------------------------------------------------
  // Line classification
  // ---------------------------------------------------------------------

  /** `t.startsWith('---') && t.endsWith('---')`; the bare `---` qualifies. */
  predicate IsHeaderLine(t: string) {
    StartsWith(t, "---") && EndsWith(t, "---")
  }

  /** `t.replace(/---/g, '')`: every `---`, left to right, removed. */
  function RemoveDashes(t: string): (r: string)
    ensures |r| <= |t|
    decreases |t|
  {
    if t == [] then []
    else if TripleDashAt(t, 0) then RemoveDashes(t[3..])
    else [t[0]] + RemoveDashes(t[1..])
  }

  /** The characters of `s` other than `-`, in order. */
  function WithoutHyphens(s: string): string {
    if s == [] then [] else (if s[0] == '-' then [] else [s[0]]) + WithoutHyphens(s[1..])
  }

  ghost predicate NoTripleDash(s: string) {
    forall i :: !TripleDashAt(s, i)
  }

  /** Removing `---` keeps every other character, in order. */
  lemma {:induction false} RemoveDashesKeepsText(t: string)
    ensures WithoutHyphens(RemoveDashes(t)) == WithoutHyphens(t)
    decreases |t|
  {
    if t != [] {
      if TripleDashAt(t, 0) {
        RemoveDashesKeepsText(t[3..]);
        assert t[1..][0] == t[1] && t[1..][1..] == t[2..];
        assert t[2..][0] == t[2] && t[2..][1..] == t[3..];
        assert WithoutHyphens(t) == WithoutHyphens(t[1..]);
        assert WithoutHyphens(t[1..]) == WithoutHyphens(t[2..]);
        assert WithoutHyphens(t[2..]) == WithoutHyphens(t[3..]);
      } else {
        RemoveDashesKeepsText(t[1..]);
        var r := [t[0]] + RemoveDashes(t[1..]);
        assert r[0] == t[0] && r[1..] == RemoveDashes(t[1..]);
      }
    }
  }

  /** A result starting with a hyphen comes from a text starting with one. */
  lemma {:induction false} RemoveDashesFirst(t: string)
    ensures |RemoveDashes(t)| > 0 && RemoveDashes(t)[0] == '-' ==> |t| > 0 && t[0] == '-'
    decreases |t|
  {
  }

  /** And one starting with two hyphens from a text starting with two. */
  lemma {:induction false} RemoveDashesFirstTwo(t: string)
    ensures |RemoveDashes(t)| > 1 && RemoveDashes(t)[0] == '-' && RemoveDashes(t)[1] == '-'
            ==> |t| > 1 && t[0] == '-' && t[1] == '-'
  {
    RemoveDashesFirst(t);
    if t != [] && !TripleDashAt(t, 0) {
      var r := RemoveDashes(t);
      assert r == [t[0]] + RemoveDashes(t[1..]);
      assert |r| > 1 ==> r[1] == RemoveDashes(t[1..])[0];
      RemoveDashesFirst(t[1..]);
      assert |t| > 1 ==> t[1..][0] == t[1];
    }
  }

  /** No `---` survives the removal. */
  lemma {:induction false} RemoveDashesLeavesNoTriple(t: string)
    ensures NoTripleDash(RemoveDashes(t))
    decreases |t|
  {
    var r := RemoveDashes(t);
    if t == [] {
    } else if TripleDashAt(t, 0) {
      RemoveDashesLeavesNoTriple(t[3..]);
    } else {
      var rest := RemoveDashes(t[1..]);
      RemoveDashesLeavesNoTriple(t[1..]);
      assert r == [t[0]] + rest;
      RemoveDashesFirstTwo(t[1..]);
      forall i ensures !TripleDashAt(r, i) {
        if i > 0 {
          assert !TripleDashAt(rest, i - 1);
        } else if i == 0 && 3 <= |r| && r[0] == '-' {
          assert rest[0] == r[1] && rest[1] == r[2];
        }
      }
    }
  }

  /** A prefix in which no `---` starts is kept as it is. */
  lemma {:induction false} RemoveDashesKeepsPrefix(a: string, b: string)
    requires forall i :: 0 <= i < |a| ==> !TripleDashAt(a + b, i)
    ensures RemoveDashes(a + b) == a + RemoveDashes(b)
    decreases |a|
  {
    if a == [] {
      assert a + b == b;
    } else {
      assert !TripleDashAt(a + b, 0);
      assert (a + b)[1..] == a[1..] + b;
      forall i | 0 <= i < |a[1..]| ensures !TripleDashAt(a[1..] + b, i) {
        assert !TripleDashAt(a + b, i + 1);
      }
      RemoveDashesKeepsPrefix(a[1..], b);
      assert a == [a[0]] + a[1..];
    }
  }

  /** In particular, a prefix with no hyphen at all is kept. */
  lemma {:induction false} RemoveDashesKeepsHyphenFree(a: string, b: string)
    requires '-' !in a
    ensures RemoveDashes(a + b) == a + RemoveDashes(b)
  {
    forall i | 0 <= i < |a| ensures !TripleDashAt(a + b, i) {
      assert (a + b)[i] == a[i];
    }
    RemoveDashesKeepsPrefix(a, b);
  }

  function Hyphens(k: nat): (r: string)
    ensures |r| == k && forall i :: 0 <= i < k ==> r[i] == '-'
  {
    seq(k, _ => '-')
  }

  /** A run of `k` hyphens keeps `k % 3` of them. */
  lemma {:induction false} RemoveDashesRun(k: nat)
    ensures RemoveDashes(Hyphens(k)) == Hyphens(k % 3)
    decreases k
  {
    if k >= 3 {
      assert TripleDashAt(Hyphens(k), 0);
      assert Hyphens(k)[3..] == Hyphens(k - 3);
      RemoveDashesRun(k - 3);
    } else if k > 0 {
      assert !TripleDashAt(Hyphens(k), 0);
      assert Hyphens(k)[1..] == Hyphens(k - 1);
      RemoveDashesRun(k - 1);
      assert [Hyphens(k)[0]] + Hyphens(k - 1) == Hyphens(k);
    }
  }

  /** The hyphen inside a header's text survives: only the framing `---`
      pairs are removed. */
  lemma {:induction false} HeaderKeepsInnerHyphen(t: string)
    requires t == "--- jdk-11 ---"
    ensures RemoveDashes(t) == " jdk-11 "
  {
    var inner := " jdk-11 ";
    assert TripleDashAt(t, 0);
    assert t[3..] == inner + "---";
    forall i | 0 <= i < |inner| ensures !TripleDashAt(inner + "---", i) {
      assert (inner + "---")[i] == inner[i];
    }
    RemoveDashesKeepsPrefix(inner, "---");
    assert TripleDashAt("---", 0) && "---"[3..] == [];
  }

  /** The text of a header: every `---` removed, then trimmed. */
  function HeaderText(t: string): (r: string)
    ensures r == [] || (!IsSpace(r[0]) && !IsSpace(r[|r| - 1]))
    ensures NoTripleDash(r)
    ensures RemoveSpaces(r) == RemoveSpaces(RemoveDashes(t))
  {
    var x := RemoveDashes(t);
    RemoveDashesLeavesNoTriple(t);
    TrimKeepsNoTriple(x);
    Trim(x)
  }

  lemma {:induction false} TrimKeepsNoTriple(x: string)
    requires NoTripleDash(x)
    ensures NoTripleDash(Trim(x))
  {
    TrimIsSlice(x);
    NoTripleDashSlice(x, SpacePrefix(x), |x| - SpaceSuffix(x[SpacePrefix(x)..]));
  }

  lemma {:induction false} NoTripleDashSlice(x: string, lo: nat, hi: nat)
    requires lo <= hi <= |x| && NoTripleDash(x)
    ensures NoTripleDash(x[lo..hi])
  {
    forall i ensures !TripleDashAt(x[lo..hi], i) {
      if 0 <= i && i + 3 <= hi - lo {
        assert !TripleDashAt(x, lo + i);
      }
    }
  }

  // `/^([a-z])\.\s+(.*)/s` as a shape: a lower-case letter, a full stop,
  // at least one whitespace character.
  predicate LetteredShape(t: string) {
    3 <= |t| && IsLower(t[0]) && t[1] == '.' && IsSpace(t[2])
  }

  // `/^(\d+)\.\s+(.*)/s` as a shape: `d` digits, a full stop, at least one
  // whitespace character.
  predicate NumberedAt(t: string, d: int) {
    0 < d && d + 1 < |t| && AllDigits(t[..d]) && t[d] == '.' && IsSpace(t[d + 1])
  }

  ghost predicate NumberedShape(t: string) {
    exists d :: NumberedAt(t, d)
  }

  /** The text after the marker: `t` is `marker + ws + text` with `ws`
      non-empty whitespace and `text` not starting with whitespace. */
  predicate SplitsAfter(t: string, k: nat, text: string) {
    k < |t| && IsSpace(t[k])
    && |text| <= |t| - k
    && t[|t| - |text|..] == text
    && AllSpace(t[k..|t| - |text|])
    && (text == [] || !IsSpace(text[0]))
  }

  /** The rest of the line after the marker's whitespace (greedy `\s+`). */
  function TextAfter(t: string, k: nat): (r: string)
    requires k < |t| && IsSpace(t[k])
    ensures SplitsAfter(t, k, r)
  {
    var n := SpacePrefix(t[k..]);
    assert t[k..][..n] == t[k..k + n];
    assert t[k..][n..] == t[k + n..];
    t[k + n..]
  }

  /** The lettered-item regular expression. */
  function MatchLettered(t: string): (r: Option<(char, string)>)
    ensures r.Some? <==> LetteredShape(t)
    ensures r.Some? ==> r.value.0 == t[0] && SplitsAfter(t, 2, r.value.1)
  {
    if LetteredShape(t) then Some((t[0], TextAfter(t, 2))) else None
  }

  /** The numbered-item regular expression. The greedy `\d+` takes the
      maximal digit run; no shorter run can be followed by a full stop. */
  function MatchNumbered(t: string): (r: Option<(string, string)>)
    ensures r.Some? <==> NumberedShape(t)
    ensures r.Some? ==> var d := |r.value.0|;
      NumberedAt(t, d) && r.value.0 == t[..d] && SplitsAfter(t, d + 1, r.value.1)
  {
    var d := DigitPrefix(t);
    if 0 < d && d + 1 < |t| && t[d] == '.' && IsSpace(t[d + 1]) then
      assert NumberedAt(t, d);
      Some((t[..d], TextAfter(t, d + 1)))
    else
      NumberedShapeUsesDigitPrefix(t);
      None
  }

  lemma {:induction false} NumberedShapeUsesDigitPrefix(t: string)
    ensures NumberedShape(t) ==> NumberedAt(t, DigitPrefix(t))
  {
    if NumberedShape(t) {
      var e :| NumberedAt(t, e);
      DigitPrefixAt(t, e);
    }
  }

  /** The classifier, in priority order: header, lettered, numbered, paragraph. */
  function Classify(t: string): (b: Block)
    ensures b.Header? <==> IsHeaderLine(t)
    ensures b.Lettered? <==> !IsHeaderLine(t) && LetteredShape(t)
    ensures b.Numbered? <==> !IsHeaderLine(t) && !LetteredShape(t) && NumberedShape(t)
    ensures b.Header? ==> b.text == HeaderText(t)
    ensures b.Lettered? ==> b.letter == t[0] && SplitsAfter(t, 2, b.text)
    ensures b.Numbered? ==> 0 < |b.number| < |t| && b.number == t[..|b.number|] && AllDigits(b.number)
                            && SplitsAfter(t, |b.number| + 1, b.text)
    ensures b.Paragraph? ==> b.text == t
  {
    if IsHeaderLine(t) then Header(HeaderText(t))
    else match MatchLettered(t)
      case Some((c, text)) => Lettered(c, text)
      case None =>
        match MatchNumbered(t)
        case Some((n, text)) => Numbered(n, text)
        case None => Paragraph(t)
  }

  /** A block for each line, from the trimmed line. */
  function ToBlocks(lines: seq<string>): (r: seq<Block>)
    ensures |r| == |lines|
    ensures forall i :: 0 <= i < |r| ==> r[i] == Classify(Trim(lines[i]))
  {
    if lines == [] then [] else [Classify(Trim(lines[0]))] + ToBlocks(lines[1..])
  }

  /** The whole component: `None` is `return null` for empty details;
      otherwise the blocks of the non-blank normalised lines. */
  function Format(details: string): (r: Option<seq<Block>>)
    ensures r.None? <==> details == ""
  {
    if details == "" then None
    else Some(ToBlocks(NonBlank(Split(Normalize(details)))))
  }

  // ---------------------------------------------------------------------
  // Properties of the formatter
  // ---------------------------------------------------------------------

  /** Blocks correspond one to one, in order, to the non-blank lines of the
      normalised text, and those lines rebuild it when joined. */
  lemma {:induction false} BlocksFollowLines(details: string)
    requires details != ""
    ensures var lines := Split(Normalize(details));
      && Join(lines) == Normalize(details)
      && |Format(details).value| == CountNonBlank(lines)
      && forall i :: 0 <= i < |Format(details).value| ==>
           Format(details).value[i] == Classify(Trim(NonBlank(lines)[i]))
  {
    JoinSplit(Normalize(details));
    NonBlankCount(Split(Normalize(details)));
  }

  /** Whitespace-only details give no blocks (and empty details no component). */
  lemma {:induction false} WhitespaceOnlyGivesNoBlocks(details: string)
    requires AllSpace(details)
    ensures Format(details) == if details == "" then None else Some([])
  {
    if details != "" {
      var n := Normalize(details);
      RemoveSpacesEmptyIff(details);
      RemoveSpacesEmptyIff(n);
      SplitAllSpace(n);
      var ls := Split(n);
      NonBlankOfBlanks(ls);
    }
  }

  /** Every block of a non-blank line: a paragraph's text is the non-empty
      trimmed line, and an item's text is non-empty and starts with a
      non-whitespace character. */
  lemma {:induction false} BlockTextsOfLine(line: string)
    requires !IsBlank(line)
    ensures var b := Classify(Trim(line));
      && (b.Paragraph? ==> b.text != [] && b.text == Trim(line))
      && ((b.Lettered? || b.Numbered?) ==> b.text != [] && !IsSpace(b.text[0]))
  {
    var t := Trim(line);
    var b := Classify(t);
    if b.Lettered? {
      TextAfterTrimmedNonEmpty(t, 2, b.text);
    } else if b.Numbered? {
      TextAfterTrimmedNonEmpty(t, |b.number| + 1, b.text);
    }
  }

  lemma {:induction false} TextAfterTrimmedNonEmpty(t: string, k: nat, text: string)
    requires SplitsAfter(t, k, text) && !IsSpace(t[|t| - 1])
    ensures text != []
  {
    var full := t[k..];
    assert full[|full| - 1] == t[|t| - 1];
    assert !AllSpace(full);
  }

  // ---------------------------------------------------------------------
  // Worked inputs
  // ---------------------------------------------------------------------

  // ---------------------------------------------------------------------
  // A worked input: `--- 1. Setup ---`
  // ---------------------------------------------------------------------

  /** The pass does not match at any of the first `k` positions of `s`. */
  predicate NoMatchIn(p: Pass, s: string, k: nat)
    decreases k
  {
    k == 0 || (k <= |s| && MatchAt(p, s).None? && NoMatchIn(p, s[1..], k - 1))
  }

  /** Positions where the pass does not match are copied through unchanged. */
  lemma {:induction false} RewriteSkips(p: Pass, s: string, k: nat)
    requires k <= |s| && NoMatchIn(p, s, k)
    ensures Rewrite(p, s) == s[..k] + Rewrite(p, s[k..])
    decreases k
  {
    if k > 0 {
      NoMatchInStep(p, s, k);
      RewriteSkips(p, s[1..], k - 1);
      RewriteSkipsStep(p, s, k);
    } else {
      WholeSlices(s);
    }
  }

  lemma {:induction false} NoMatchInStep(p: Pass, s: string, k: nat)
    requires 0 < k <= |s| && NoMatchIn(p, s, k)
    ensures k - 1 <= |s[1..]| && NoMatchIn(p, s[1..], k - 1)
  {
  }

  lemma {:induction false} WholeSlices(s: string)
    ensures s[..0] + s[0..] == s
  {
    assert s[..0] == [] && s[0..] == s;
  }

  lemma {:induction false} RewriteSkipsStep(p: Pass, s: string, k: nat)
    requires 0 < k <= |s| && NoMatchIn(p, s, k)
    requires Rewrite(p, s[1..]) == s[1..][..k - 1] + Rewrite(p, s[1..][k - 1..])
    ensures Rewrite(p, s) == s[..k] + Rewrite(p, s[k..])
  {
    RewriteKeeps(p, s);
    assert s[1..][k - 1..] == s[k..];
    ConsLeftOf(s, k, Rewrite(p, s[k..]));
  }

  lemma {:induction false} ConsLeftOf(s: string, k: nat, r: string)
    requires 0 < k <= |s|
    ensures [s[0]] + (s[1..][..k - 1] + r) == s[..k] + r
  {
    assert s[..k] == [s[0]] + s[1..][..k - 1];
  }

  lemma {:induction false} RewriteKeeps(p: Pass, s: string)
    requires s != [] && MatchAt(p, s).None?
    ensures Rewrite(p, s) == [s[0]] + Rewrite(p, s[1..])
  {
  }

  /** No number marker where the first non-whitespace character is not a digit. */
  lemma {:induction false} NoNumberAt(s: string, w: nat)
    requires w < |s| && AllSpace(s[..w]) && !IsSpace(s[w]) && !IsDigit(s[w])
    ensures MatchAt(Numbers, s).None?
  {
    SpacePrefixAt(s, w);
    assert s[w..][0] == s[w];
  }

  lemma {:induction false} RewriteAtMatch(p: Pass, s: string)
    requires s != [] && MatchAt(p, s).Some?
    ensures var m := MatchAt(p, s).value;
      Rewrite(p, s) == Before(p) + s[m.lead..m.lead + m.len] + After(p) + Rewrite(p, s[m.lead + m.len + m.trail..])
  {
  }

  /** The first pass wraps the whole line, which is one header marker. */
  lemma {:induction false} SetupHeadersPass(s: string)
    requires s == "--- 1. Setup ---"
    ensures Rewrite(Headers, s) == "\n\n" + s + "\n\n"
  {
    SpacePrefixAt(s, 0);
    SetupCloser(s[3..]);
    HeaderMatchAtStart(s, 10);
    assert s[16..] == [] && s[0..16] == s;
    RewriteAtMatch(Headers, s);
  }

  lemma {:induction false} SetupCloser(t: string)
    requires t == " 1. Setup ---"
    ensures FindCloser(t) == Some(10)
  {
    assert TripleDashAt(t, 10);
    assert NoLineTerminator(t[..10]) by {
      forall i | 0 <= i < 10 ensures !IsLineTerminator(t[..10][i]) { assert t[..10][i] == t[i]; }
    }
    forall i | 0 <= i < 10 ensures !TripleDashAt(t, i) { assert t[i] != '-'; }
    FindCloserAt(t, 10);
  }

  lemma {:induction false} HeaderMatchAtStart(s: string, j: nat)
    requires SpacePrefix(s) == 0 && TripleDashAt(s, 0) && FindCloser(s[3..]) == Some(j)
    ensures MatchAt(Headers, s) == Some(Marker(0, j + 6, SpacePrefix(s[j + 6..])))
  {
    assert s[0..] == s;
  }

  lemma {:induction false} FindCloserAt(t: string, j: nat)
    requires TripleDashAt(t, j) && NoLineTerminator(t[..j])
    requires forall i :: 0 <= i < j ==> !TripleDashAt(t, i)
    ensures FindCloser(t) == Some(j)
  {
  }

  lemma {:induction false} SetupNumberMarker(u: string)
    requires u == " 1. Setup ---\n\n"
    ensures MatchAt(Numbers, u) == Some(Marker(1, 2, 0))
  {
    assert u[..1] == " " && u[1..3] == "1." && u[1..3][..1] == "1";
    assert IsSpace(' ') && IsDigit('1');
    MarkerIsTheMatch(Numbers, u, 1, 2);
  }

  lemma {:induction false} SetupNumberRest(rest: string)
    requires rest == " Setup ---\n\n"
    ensures Rewrite(Numbers, rest) == rest
  {
    forall i ensures !PairAt(Numbers, rest, i) {
      if 0 <= i && i + 1 < |rest| { assert rest[i + 1] != '.'; }
    }
    RewriteWithoutMarkers(Numbers, rest);
  }

  lemma {:induction false} SetupNumberPieces(u: string)
    requires u == " 1. Setup ---\n\n"
    ensures u[3..] == " Setup ---\n\n"
    ensures "\n" + u[1..3] + u[3..] == "\n1. Setup ---\n\n"
  {
  }

  lemma {:induction false} SetupNumberTail(u: string)
    requires u == " 1. Setup ---\n\n"
    ensures Rewrite(Numbers, u) == "\n1. Setup ---\n\n"
  {
    SetupNumberMarker(u);
    SetupNumberPieces(u);
    SetupNumberRest(u[3..]);
    RewriteAtMatch(Numbers, u);
  }

  lemma {:induction false} SetupNumbersPassPieces(s: string)
    requires s == "\n\n--- 1. Setup ---\n\n"
    ensures s[5..] == " 1. Setup ---\n\n"
    ensures s[..5] + "\n1. Setup ---\n\n" == "\n\n---\n1. Setup ---\n\n"
  {
  }

  /** Position `i` holds a character that is neither whitespace nor a digit. */
  predicate NoNumberStartAt(t: string, i: int) {
    0 <= i < |t| && !IsSpace(t[i]) && !IsDigit(t[i])
  }

  lemma {:induction false} NoNumberIn(t: string, k: nat)
    requires forall i :: 0 <= i < k ==> NoNumberStartAt(t, i)
    ensures NoMatchIn(Numbers, t, k)
    decreases k
  {
    if k > 0 {
      assert NoNumberStartAt(t, 0);
      NoNumberAt(t, 0);
      forall i | 0 <= i < k - 1 ensures NoNumberStartAt(t[1..], i) {
        assert NoNumberStartAt(t, i + 1);
        assert t[1..][i] == t[i + 1];
      }
      NoNumberIn(t[1..], k - 1);
    }
  }

  lemma {:induction false} SetupNumbersPassText(s: string)
    requires |s| >= 5 && s[0] == '\n' && s[1] == '\n' && s[2] == '-' && s[3] == '-' && s[4] == '-'
    ensures NoMatchIn(Numbers, s, 5)
  {
    assert IsSpace('\n') && !IsSpace('-') && !IsDigit('-');
    assert AllSpace(s[..2]) && AllSpace(s[1..][..1]);
    NoNumberAt(s, 2);
    NoNumberAt(s[1..], 1);
    assert s[1..][1..] == s[2..];
    assert NoNumberStartAt(s[2..], 0) && NoNumberStartAt(s[2..], 1) && NoNumberStartAt(s[2..], 2);
    NoNumberIn(s[2..], 3);
  }

  /** The second pass moves `1.` onto a line of its own. */
  lemma {:induction false} SetupNumbersPass(s: string)
    requires s == "\n\n--- 1. Setup ---\n\n"
    ensures Rewrite(Numbers, s) == "\n\n---\n1. Setup ---\n\n"
  {
    SetupNumbersPassText(s);
    SetupNumbersPassPieces(s);
    RewriteSkips(Numbers, s, 5);
    SetupNumberTail(s[5..]);
  }

  /** The third pass finds no lettered marker. */
  lemma {:induction false} SetupLettersPass(s: string)
    requires s == "\n\n---\n1. Setup ---\n\n"
    ensures Rewrite(Letters, s) == s
  {
    forall i ensures !PairAt(Letters, s, i) {
      if 0 <= i && i + 1 < |s| && s[i + 1] == '.' { assert i == 6; }
    }
    RewriteWithoutMarkers(Letters, s);
  }

  lemma {:induction false} SetupSplit(s: string)
    requires s == "\n\n---\n1. Setup ---\n\n"
    ensures Split(s) == ["", "", "---", "1. Setup ---", "", ""]
  {
    var ls := ["", "", "---", "1. Setup ---", "", ""];
    assert Join(ls) == s;
    assert forall k :: 0 <= k < |ls| ==> '\n' !in ls[k];
    SplitJoin(ls);
  }

  lemma {:induction false} SetupNonBlank(ls: seq<string>)
    requires ls == ["", "", "---", "1. Setup ---", "", ""]
    ensures NonBlank(ls) == ["---", "1. Setup ---"]
  {
    assert IsBlank("");
    assert !IsBlank("---") by { assert !IsSpace("---"[0]); }
    assert !IsBlank("1. Setup ---") by { assert !IsSpace("1. Setup ---"[0]); }
    assert ls[5..][1..] == [] && ls[4..][1..] == ls[5..] && ls[3..][1..] == ls[4..];
    assert ls[2..][1..] == ls[3..] && ls[1..][1..] == ls[2..];
    assert NonBlank(ls[5..]) == [];
    assert NonBlank(ls[4..]) == [];
    assert NonBlank(ls[3..]) == ["1. Setup ---"];
    assert NonBlank(ls[2..]) == ["---", "1. Setup ---"];
    assert NonBlank(ls[1..]) == ["---", "1. Setup ---"];
  }

  lemma {:induction false} TrimOfTrimmed(t: string)
    requires t != [] && !IsSpace(t[0]) && !IsSpace(t[|t| - 1])
    ensures Trim(t) == t
  {
    SpacePrefixAt(t, 0);
    assert TrimStart(t) == t;
    assert SpaceSuffix(t) == 0;
  }

  lemma {:induction false} SetupBareHeader(t: string)
    requires t == "---"
    ensures Classify(Trim(t)) == Header("")
  {
    TrimOfTrimmed(t);
    assert RemoveDashes(t) == [];
  }

  lemma {:induction false} OneDigitItem(t: string)
    requires |t| >= 4 && IsDigit(t[0]) && t[1] == '.' && IsSpace(t[2]) && !IsSpace(t[3])
    ensures MatchNumbered(t) == Some((t[..1], t[3..]))
  {
    DigitPrefixAt(t, 1);
    SpacePrefixAt(t[2..], 1);
    assert t[2..][1..] == t[3..];
  }

  lemma {:induction false} SetupNumberedMatch(t: string)
    requires t == "1. Setup ---"
    ensures MatchNumbered(t) == Some(("1", "Setup ---"))
    ensures !IsHeaderLine(t) && !LetteredShape(t) && Trim(t) == t
  {
    OneDigitItem(t);
    assert t[..1] == "1" && t[3..] == "Setup ---";
    TrimOfTrimmed(t);
    assert t[..3][0] == '1';
  }

  lemma {:induction false} SetupHeadersResult(details: string, s1: string)
    requires details == "--- 1. Setup ---"
    requires s1 == Rewrite(Headers, details)
    ensures s1 == "\n\n--- 1. Setup ---\n\n"
  {
    SetupHeadersPass(details);
    SetupWrapped(details);
  }

  lemma {:induction false} SetupWrapped(details: string)
    requires details == "--- 1. Setup ---"
    ensures "\n\n" + details + "\n\n" == "\n\n--- 1. Setup ---\n\n"
  {
  }

  lemma {:induction false} SetupLaterPasses(s1: string, s2: string)
    requires s1 == "\n\n--- 1. Setup ---\n\n"
    requires s2 == Rewrite(Numbers, s1)
    ensures Rewrite(Letters, s2) == "\n\n---\n1. Setup ---\n\n"
  {
    SetupNumbersPass(s1);
    SetupLettersPass(s2);
  }

  lemma {:induction false} SetupNormalize(details: string)
    requires details == "--- 1. Setup ---"
    ensures Normalize(details) == "\n\n---\n1. Setup ---\n\n"
  {
    var s1 := Rewrite(Headers, details);
    SetupHeadersResult(details, s1);
    SetupLaterPasses(s1, Rewrite(Numbers, s1));
  }

  lemma {:induction false} SetupBlocks(s: string)
    requires s == "\n\n---\n1. Setup ---\n\n"
    ensures ToBlocks(NonBlank(Split(s))) == [Header(""), Numbered("1", "Setup ---")]
  {
    SetupSplit(s);
    SetupNonBlank(Split(s));
    SetupToBlocks(NonBlank(Split(s)));
  }

  lemma {:induction false} SetupToBlocks(ls: seq<string>)
    requires ls == ["---", "1. Setup ---"]
    ensures ToBlocks(ls) == [Header(""), Numbered("1", "Setup ---")]
  {
    ToBlocksOfTwo(ls[0], ls[1]);
    assert ls == [ls[0], ls[1]];
    SetupBareHeader(ls[0]);
    SetupNumberedMatch(ls[1]);
  }

  lemma {:induction false} ToBlocksOfTwo(a: string, b: string)
    ensures ToBlocks([a, b]) == [Classify(Trim(a)), Classify(Trim(b))]
  {
    assert [a, b][1..] == [b];
  }

  /** A header line that contains a numbered marker does not come out as a
      header: the second pass breaks it apart before any line is classified,
      leaving an empty header and a numbered item whose text keeps the
      closing dashes. */
  lemma {:induction false} HeaderWithNumberIsSplit(details: string)
    requires details == "--- 1. Setup ---"
    ensures Format(details) == Some([Header(""), Numbered("1", "Setup ---")])
  {
    SetupNormalize(details);
    SetupBlocks(Normalize(details));
  }

  // ---------------------------------------------------------------------
  // A worked input: `Studio.`
  // ---------------------------------------------------------------------

  /** No lettered marker where the first character is not whitespace and is
      not followed by a full stop. */
  lemma {:induction false} NoLetterAt(s: string)
    requires 2 <= |s| && !IsSpace(s[0]) && s[1] != '.'
    ensures MatchAt(Letters, s).None?
  {
    SpacePrefixAt(s, 0);
    assert s[0..] == s;
  }

  /** Position `i` starts neither whitespace nor a letter-and-full-stop pair. */
  predicate NoLetterStartAt(t: string, i: int) {
    0 <= i && i + 1 < |t| && !IsSpace(t[i]) && t[i + 1] != '.'
  }

  lemma {:induction false} NoLetterIn(t: string, k: nat)
    requires forall i :: 0 <= i < k ==> NoLetterStartAt(t, i)
    ensures NoMatchIn(Letters, t, k)
    decreases k
  {
    if k > 0 {
      assert NoLetterStartAt(t, 0);
      NoLetterAt(t);
      forall i | 0 <= i < k - 1 ensures NoLetterStartAt(t[1..], i) {
        assert NoLetterStartAt(t, i + 1);
        assert t[1..][i] == t[i + 1] && t[1..][i + 1] == t[i + 2];
      }
      NoLetterIn(t[1..], k - 1);
    }
  }

  lemma {:induction false} StudioMarker(u: string)
    requires u == "o."
    ensures Rewrite(Letters, u) == "\no."
  {
    SpacePrefixAt(u, 0);
    assert u[0..] == u && u[0..2] == u && u[2..] == [];
    assert MatchAt(Letters, u) == Some(Marker(0, 2, 0));
    RewriteAtMatch(Letters, u);
  }

  lemma {:induction false} StudioLettersPass(s: string)
    requires s == "Studio."
    ensures Rewrite(Letters, s) == "Studi\no."
  {
    StudioNoLetterBefore(s);
    RewriteSkips(Letters, s, 5);
    StudioPieces(s);
    StudioMarker(s[5..]);
  }

  lemma {:induction false} StudioPieces(s: string)
    requires s == "Studio."
    ensures s[5..] == "o."
    ensures s[..5] + "\no." == "Studi\no."
  {
  }

  lemma {:induction false} StudioNoLetterBefore(s: string)
    requires |s| == 7 && s[0] == 'S' && s[1] == 't' && s[2] == 'u' && s[3] == 'd' && s[4] == 'i' && s[5] == 'o'
    ensures NoMatchIn(Letters, s, 5)
  {
    assert !IsSpace('S') && !IsSpace('t') && !IsSpace('u') && !IsSpace('d') && !IsSpace('i');
    NoLetterIn(s, 5);
  }

  lemma {:induction false} StudioFirstPasses(s: string)
    requires s == "Studio."
    ensures Rewrite(Numbers, Rewrite(Headers, s)) == s
  {
    forall i ensures !TripleDashAt(s, i) {
      if 0 <= i < |s| {
        assert s[i] != '-';
      }
    }
    RewriteWithoutTripleDash(s);
    forall i ensures !PairAt(Numbers, s, i) {
      if 0 <= i && i + 1 < |s| {
        assert !IsDigit(s[i]);
      }
    }
    RewriteWithoutMarkers(Numbers, s);
  }

  lemma {:induction false} StudioNormalize(details: string)
    requires details == "Studio."
    ensures Normalize(details) == "Studi\no."
  {
    StudioFirstPasses(details);
    StudioLettersPass(details);
  }

  lemma {:induction false} StudioLines(s: string)
    requires s == "Studi\no."
    ensures NonBlank(Split(s)) == ["Studi", "o."]
  {
    var ls := ["Studi", "o."];
    assert Join(ls) == s by {
      assert ls[1..] == ["o."];
    }
    assert forall k :: 0 <= k < |ls| ==> '\n' !in ls[k];
    SplitJoin(ls);
    assert !IsBlank("Studi") by { assert !IsSpace("Studi"[0]); }
    assert !IsBlank("o.") by { assert !IsSpace("o."[0]); }
    assert ls[1..][1..] == [];
  }

  /** A line whose first character is not a hyphen, a digit or the start
      of a lettered marker is a paragraph of itself. */
  lemma {:induction false} PlainLine(t: string)
    requires 2 <= |t| && !IsSpace(t[0]) && !IsSpace(t[|t| - 1])
    requires t[0] != '-' && !IsDigit(t[0]) && t[1] != '.'
    ensures Classify(Trim(t)) == Paragraph(t)
  {
    TrimOfTrimmed(t);
    NotHeaderLine(t);
    NotNumbered(t);
  }

  lemma {:induction false} NotHeaderLine(t: string)
    requires t != [] && t[0] != '-'
    ensures !IsHeaderLine(t)
  {
    if 3 <= |t| {
      assert t[..3][0] == t[0];
    }
  }

  lemma {:induction false} NotNumbered(t: string)
    requires t != [] && !IsDigit(t[0])
    ensures MatchNumbered(t).None?
  {
    DigitPrefixAt(t, 0);
  }

  /** A two-character line ending in a full stop is a paragraph: a lettered
      or numbered item needs whitespace after the full stop. */
  lemma {:induction false} BareMarkerLine(t: string)
    requires |t| == 2 && !IsSpace(t[0]) && t[0] != '-' && t[1] == '.'
    ensures Classify(Trim(t)) == Paragraph(t)
  {
    assert !IsSpace(t[1]);
    TrimOfTrimmed(t);
    NumberedShapeUsesDigitPrefix(t);
  }

  lemma {:induction false} StudioBlocks(ls: seq<string>)
    requires |ls| == 2
    requires |ls[0]| == 5 && ls[0][0] == 'S' && ls[0][1] == 't' && ls[0][4] == 'i'
    requires |ls[1]| == 2 && ls[1][0] == 'o' && ls[1][1] == '.'
    ensures ToBlocks(ls) == [Paragraph(ls[0]), Paragraph(ls[1])]
  {
    StudioNameLine(ls[0]);
    StudioLetterLine(ls[1]);
    ToBlocksOfTwo(ls[0], ls[1]);
    assert ls == [ls[0], ls[1]];
  }

  lemma {:induction false} StudioNameLine(t: string)
    requires |t| == 5 && t[0] == 'S' && t[1] == 't' && t[4] == 'i'
    ensures Classify(Trim(t)) == Paragraph(t)
  {
    assert !IsSpace('S') && !IsSpace('i') && !IsDigit('S');
    PlainLine(t);
  }

  lemma {:induction false} StudioLetterLine(t: string)
    requires |t| == 2 && t[0] == 'o' && t[1] == '.'
    ensures Classify(Trim(t)) == Paragraph(t)
  {
    assert !IsSpace('o');
    BareMarkerLine(t);
  }

  /** The lettered pass is not anchored to the start of a line: a word that
      ends in a lower-case letter and a full stop is broken before that
      letter, and both halves come out as paragraphs. */
  lemma {:induction false} WordEndingInLetterIsSplit(details: string)
    requires details == "Studio."
    ensures Format(details) == Some([Paragraph("Studi"), Paragraph("o.")])
  {
    StudioNormalize(details);
    StudioLines(Normalize(details));
    StudioBlocks(NonBlank(Split(Normalize(details))));
    assert NonBlank(Split(Normalize(details)))[0] == "Studi";
  }

  // ---------------------------------------------------------------------
  // A worked input: `jdk-11.0.1`
  // ---------------------------------------------------------------------

  lemma {:induction false} JdkFirstPass(s: string)
    requires s == "jdk-11.0.1"
    ensures Rewrite(Headers, s) == s
  {
    forall i ensures !TripleDashAt(s, i) {
      if 0 <= i && i + 3 <= |s| {
        assert s[i] != '-' || s[i + 1] != '-';
      }
    }
    RewriteWithoutTripleDash(s);
  }

  lemma {:induction false} JdkNoNumberBefore(s: string)
    requires |s| >= 4 && s[0] == 'j' && s[1] == 'd' && s[2] == 'k' && s[3] == '-'
    ensures NoMatchIn(Numbers, s, 4)
  {
    assert NoNumberStartAt(s, 0) && NoNumberStartAt(s, 1) && NoNumberStartAt(s, 2) && NoNumberStartAt(s, 3);
    NoNumberIn(s, 4);
  }

  lemma {:induction false} JdkPieces(s: string)
    requires s == "jdk-11.0.1"
    ensures s[4..] == "11.0.1"
    ensures s[..4] + "\n11.\n0.1" == "jdk-\n11.\n0.1"
  {
  }

  /** A number marker at the very start of `u`, `n` characters long. */
  lemma {:induction false} NumberMarkerAtStart(u: string, n: nat)
    requires 2 <= n <= |u| && AllDigits(u[..n - 1]) && u[n - 1] == '.'
    ensures Rewrite(Numbers, u) == "\n" + u[..n] + Rewrite(Numbers, u[n..])
  {
    assert u[..0] == [];
    assert u[0..n] == u[..n] && u[..n][..n - 1] == u[..n - 1];
    MarkerIsTheMatch(Numbers, u, 0, n);
    RewriteAtMatch(Numbers, u);
    EmptyAfter("\n" + u[..n], Rewrite(Numbers, u[n..]));
  }

  lemma {:induction false} EmptyAfter(a: string, b: string)
    ensures a + [] + b == a + b
  {
    assert a + [] == a;
  }

  lemma {:induction false} JdkLastDigit(v: string)
    requires v == "1"
    ensures Rewrite(Numbers, v) == v
  {
    forall i ensures !PairAt(Numbers, v, i) {
    }
    RewriteWithoutMarkers(Numbers, v);
  }

  lemma {:induction false} JdkMinor(v: string)
    requires v == "0.1"
    ensures Rewrite(Numbers, v) == "\n0.1"
  {
    assert AllDigits(v[..1]) by { assert v[..1][0] == '0'; }
    NumberMarkerAtStart(v, 2);
    assert v[..2] == "0." && v[2..] == "1";
    JdkLastDigit(v[2..]);
  }

  lemma {:induction false} JdkVersion(u: string)
    requires u == "11.0.1"
    ensures Rewrite(Numbers, u) == "\n11.\n0.1"
  {
    JdkVersionPieces(u);
    NumberMarkerAtStart(u, 3);
    JdkMinor(u[3..]);
  }

  lemma {:induction false} JdkVersionPieces(u: string)
    requires u == "11.0.1"
    ensures AllDigits(u[..2]) && u[2] == '.'
    ensures u[3..] == "0.1" && "\n" + u[..3] + "\n0.1" == "\n11.\n0.1"
  {
    assert u[..2][0] == '1' && u[..2][1] == '1';
    assert u[..3] == "11.";
  }

  /** The second pass breaks the version before `11.` and before `0.`. */
  lemma {:induction false} JdkNumbersPass(s: string)
    requires s == "jdk-11.0.1"
    ensures Rewrite(Numbers, s) == "jdk-\n11.\n0.1"
  {
    JdkNoNumberBefore(s);
    RewriteSkips(Numbers, s, 4);
    JdkPieces(s);
    JdkVersion(s[4..]);
  }

  lemma {:induction false} JdkLettersPass(s: string)
    requires s == "jdk-\n11.\n0.1"
    ensures Rewrite(Letters, s) == s
  {
    forall i ensures !PairAt(Letters, s, i) {
      if 0 <= i && i + 1 < |s| && s[i + 1] == '.' {
        assert i == 6 || i == 9;
      }
    }
    RewriteWithoutMarkers(Letters, s);
  }

  lemma {:induction false} JdkNormalize(details: string)
    requires details == "jdk-11.0.1"
    ensures Normalize(details) == "jdk-\n11.\n0.1"
  {
    JdkFirstPass(details);
    JdkNumbersPass(details);
    JdkLettersPass(Rewrite(Numbers, details));
  }

  lemma {:induction false} JdkSplit(s: string)
    requires s == "jdk-\n11.\n0.1"
    ensures Split(s) == ["jdk-", "11.", "0.1"]
  {
    var ls := ["jdk-", "11.", "0.1"];
    assert Join(ls) == s by {
      assert ls[1..] == ["11.", "0.1"] && ls[1..][1..] == ["0.1"];
    }
    assert forall k :: 0 <= k < |ls| ==> '\n' !in ls[k];
    SplitJoin(ls);
  }

  lemma {:induction false} JdkLines(s: string)
    requires s == "jdk-\n11.\n0.1"
    ensures NonBlank(Split(s)) == ["jdk-", "11.", "0.1"]
  {
    JdkSplit(s);
    var ls := Split(s);
    forall k | 0 <= k < |ls| ensures !IsBlank(ls[k]) {
      assert !IsSpace(ls[k][0]);
    }
    NonBlankOfNonBlanks(ls);
  }

  /** Digits and a full stop not followed by whitespace make a paragraph:
      the numbered pattern needs whitespace after the full stop. */
  lemma {:induction false} NumberWithoutSpaceLine(t: string, d: nat)
    requires 0 < d < |t| && AllDigits(t[..d]) && t[d] == '.'
    requires d + 1 == |t| || !IsSpace(t[d + 1])
    requires !IsSpace(t[|t| - 1])
    ensures Classify(Trim(t)) == Paragraph(t)
  {
    assert IsDigit(t[..d][0]);
    assert !IsSpace(t[0]) && t[0] != '-' && !IsLower(t[0]);
    TrimOfTrimmed(t);
    NotHeaderLine(t);
    DigitPrefixAt(t, d);
    NumberedShapeUsesDigitPrefix(t);
  }

  lemma {:induction false} JdkBlocks(ls: seq<string>)
    requires |ls| == 3
    requires |ls[0]| == 4 && ls[0][0] == 'j' && ls[0][1] == 'd' && ls[0][3] == '-'
    requires |ls[1]| == 3 && ls[1][0] == '1' && ls[1][1] == '1' && ls[1][2] == '.'
    requires |ls[2]| == 3 && ls[2][0] == '0' && ls[2][1] == '.' && ls[2][2] == '1'
    ensures ToBlocks(ls) == [Paragraph(ls[0]), Paragraph(ls[1]), Paragraph(ls[2])]
  {
    JdkNameLine(ls[0]);
    JdkMajorLine(ls[1]);
    JdkMinorLine(ls[2]);
    ToBlocksOfThree(ls);
  }

  lemma {:induction false} ToBlocksOfThree(ls: seq<string>)
    requires |ls| == 3
    ensures ToBlocks(ls) == [Classify(Trim(ls[0])), Classify(Trim(ls[1])), Classify(Trim(ls[2]))]
  {
  }

  lemma {:induction false} JdkNameLine(t: string)
    requires |t| == 4 && t[0] == 'j' && t[1] == 'd' && t[3] == '-'
    ensures Classify(Trim(t)) == Paragraph(t)
  {
    assert !IsSpace('j') && !IsSpace('-') && !IsDigit('j');
    PlainLine(t);
  }

  lemma {:induction false} JdkMajorLine(t: string)
    requires |t| == 3 && t[0] == '1' && t[1] == '1' && t[2] == '.'
    ensures Classify(Trim(t)) == Paragraph(t)
  {
    assert AllDigits(t[..2]) by { assert t[..2][0] == '1' && t[..2][1] == '1'; }
    NumberWithoutSpaceLine(t, 2);
  }

  lemma {:induction false} JdkMinorLine(t: string)
    requires |t| == 3 && t[0] == '0' && t[1] == '.' && t[2] == '1'
    ensures Classify(Trim(t)) == Paragraph(t)
  {
    assert AllDigits(t[..1]) by { assert t[..1][0] == '0'; }
    assert !IsSpace('1');
    NumberWithoutSpaceLine(t, 1);
  }

  /** The numbered pass is not anchored either: a version number is broken
      before each run of digits that ends in a full stop, and since no
      full stop is followed by whitespace, every piece is a paragraph. */
  lemma {:induction false} VersionNumberIsSplit(details: string)
    requires details == "jdk-11.0.1"
    ensures Format(details) == Some([Paragraph("jdk-"), Paragraph("11."), Paragraph("0.1")])
  {
    JdkNormalize(details);
    JdkLines(Normalize(details));
    JdkBlocks(NonBlank(Split(Normalize(details))));
  }

  // ---------------------------------------------------------------------
  // Where the numbered and lettered passes put line feeds
  // ---------------------------------------------------------------------

  /** The first character of a rewrite is a line feed (the pass matched at
      the front) or the first character of the text (it did not). */
  lemma {:induction false} RewriteFirst(p: Pass, s: string)
    requires Rewrite(p, s) != []
    ensures s != []
    ensures Rewrite(p, s)[0] == '\n' || (MatchAt(p, s).None? && Rewrite(p, s)[0] == s[0])
  {
    if MatchAt(p, s).None? {
      RewriteKeeps(p, s);
    } else {
      RewriteAtMatch(p, s);
      var m := MatchAt(p, s).value;
      assert Rewrite(p, s)[0] == Before(p)[0];
    }
  }

  /** Every lettered marker of `r` directly follows a line feed. */
  ghost predicate LetterMarkersBroken(r: string) {
    forall i :: PairAt(Letters, r, i) ==> 0 < i && r[i - 1] == '\n'
  }

  /** After the lettered pass, every lower-case letter followed by a full
      stop starts a line. */
  lemma {:induction false} LetterMarkersStartLines(s: string)
    ensures LetterMarkersBroken(Rewrite(Letters, s))
    decreases |s|
  {
    if s != [] {
      if MatchAt(Letters, s).None? {
        RewriteKeeps(Letters, s);
        var rest := Rewrite(Letters, s[1..]);
        LetterMarkersStartLines(s[1..]);
        if PairAt(Letters, [s[0]] + rest, 0) {
          CopiedLetterMarker(s, rest);
          assert false;
        }
        ConsKeepsLettersBroken(s[0], rest);
      } else {
        var core, u := RewriteAtMarker(Letters, s);
        LetterMarkersStartLines(u);
        MarkerKeepsLettersBroken(core, Rewrite(Letters, u));
      }
    }
  }

  /** A copied character keeps every lettered marker broken, unless it
      starts a new one. */
  lemma {:induction false} ConsKeepsLettersBroken(c: char, rest: string)
    requires LetterMarkersBroken(rest) && !PairAt(Letters, [c] + rest, 0)
    ensures LetterMarkersBroken([c] + rest)
  {
    var r := [c] + rest;
    forall i ensures PairAt(Letters, r, i) ==> 0 < i && r[i - 1] == '\n' {
      if i == 1 {
        assert !PairAt(Letters, rest, 0);
      } else if i > 1 {
        assert PairAt(Letters, r, i) ==> PairAt(Letters, rest, i - 1);
      }
    }
  }

  /** A line feed and a marker in front of the rest keep every lettered
      marker broken. */
  lemma {:induction false} MarkerKeepsLettersBroken(core: string, rest: string)
    requires IsMarker(Letters, core) && LetterMarkersBroken(rest)
    ensures LetterMarkersBroken(Before(Letters) + core + After(Letters) + rest)
  {
    var r := ['\n'] + core + rest;
    assert Before(Letters) + core + After(Letters) + rest == r;
    forall i ensures PairAt(Letters, r, i) ==> 0 < i && r[i - 1] == '\n' {
      if i == 3 {
        assert !PairAt(Letters, rest, 0);
      } else if i > 3 {
        assert PairAt(Letters, r, i) ==> PairAt(Letters, rest, i - 3);
      }
    }
  }

  /** A letter and full stop copied to the front of the rewrite were already
      a marker of the text, so the pass would have matched there. */
  lemma {:induction false} CopiedLetterMarker(s: string, rest: string)
    requires s != [] && rest == Rewrite(Letters, s[1..])
    requires PairAt(Letters, [s[0]] + rest, 0)
    ensures MatchAt(Letters, s).Some?
  {
    RewriteFirst(Letters, s[1..]);
    assert s[..0] == [] && s[0..2] == [s[0], s[1]];
    MarkerIsTheMatch(Letters, s, 0, 2);
  }

  /** Where a rewrite starts with no line feed, it has copied the text. */
  lemma {:induction false} RewriteCopiesPrefix(p: Pass, s: string, k: nat)
    requires k <= |Rewrite(p, s)| && forall j :: 0 <= j < k ==> Rewrite(p, s)[j] != '\n'
    ensures k <= |s| && Rewrite(p, s)[..k] == s[..k]
    decreases k
  {
    if k > 0 {
      RewriteFirst(p, s);
      RewriteKeeps(p, s);
      var rest := Rewrite(p, s[1..]);
      NoLineFeedInTail(s[0], rest, k);
      RewriteCopiesPrefix(p, s[1..], k - 1);
      ConsPrefix(s, rest, k);
    }
  }

  lemma {:induction false} NoLineFeedInTail(c: char, rest: string, k: nat)
    requires 0 < k <= |[c] + rest| && forall j :: 0 <= j < k ==> ([c] + rest)[j] != '\n'
    ensures forall j :: 0 <= j < k - 1 ==> rest[j] != '\n'
  {
    forall j | 0 <= j < k - 1 ensures rest[j] != '\n' {
      assert rest[j] == ([c] + rest)[j + 1];
    }
  }

  lemma {:induction false} ConsPrefix(s: string, rest: string, k: nat)
    requires 0 < k && s != [] && k - 1 <= |rest| && k - 1 <= |s[1..]|
    requires rest[..k - 1] == s[1..][..k - 1]
    ensures k <= |s| && ([s[0]] + rest)[..k] == s[..k]
  {
    assert ([s[0]] + rest)[..k] == [s[0]] + rest[..k - 1];
    assert s[..k] == [s[0]] + s[1..][..k - 1];
  }

  /** `t` starts with a run of digits followed by a full stop. */
  predicate DigitsThenDot(t: string) {
    var n := DigitPrefix(t);
    0 < n < |t| && t[n] == '.'
  }

  /** A numbered marker starts at `i`: a maximal run of digits begins there
      and a full stop follows it. */
  predicate NumberMarkerAt(r: string, i: int) {
    0 <= i < |r| && (i == 0 || !IsDigit(r[i - 1])) && DigitsThenDot(r[i..])
  }

  /** Every numbered marker of `r` directly follows a line feed. */
  ghost predicate NumberMarkersBroken(r: string) {
    forall i :: NumberMarkerAt(r, i) ==> 0 < i && r[i - 1] == '\n'
  }

  /** After the numbered pass, every maximal digit run followed by a full
      stop starts a line. */
  lemma {:induction false} NumberMarkersStartLines(s: string)
    ensures NumberMarkersBroken(Rewrite(Numbers, s))
    decreases |s|
  {
    if s != [] {
      if MatchAt(Numbers, s).None? {
        RewriteKeeps(Numbers, s);
        var rest := Rewrite(Numbers, s[1..]);
        NumberMarkersStartLines(s[1..]);
        if DigitsThenDot([s[0]] + rest) {
          CopiedNumberMarker(s, rest);
          assert false;
        }
        ConsKeepsNumbersBroken(s[0], rest);
      } else {
        var core, u := RewriteAtMarker(Numbers, s);
        NumberMarkersStartLines(u);
        MarkerKeepsNumbersBroken(core, Rewrite(Numbers, u));
      }
    }
  }

  /** Where the numbered or lettered pass matches, the rewrite is a line
      feed, the marker, and the rewrite of what follows the match. */
  lemma {:induction false} RewriteAtMarker(p: Pass, s: string) returns (core: string, u: string)
    requires p != Headers && s != [] && MatchAt(p, s).Some?
    ensures IsMarker(p, core) && |u| < |s|
    ensures Rewrite(p, s) == Before(p) + core + After(p) + Rewrite(p, u)
  {
    var m := MatchAt(p, s).value;
    assert MatchesAsMarker(p, s, m);
    core := s[m.lead..m.lead + m.len];
    u := s[m.lead + m.len + m.trail..];
    RewriteAtMatch(p, s);
  }

  /** A copied character keeps every numbered marker broken, unless it
      starts a new one. */
  lemma {:induction false} ConsKeepsNumbersBroken(c: char, rest: string)
    requires NumberMarkersBroken(rest) && !DigitsThenDot([c] + rest)
    ensures NumberMarkersBroken([c] + rest)
  {
    var r := [c] + rest;
    forall i ensures NumberMarkerAt(r, i) ==> 0 < i && r[i - 1] == '\n' {
      if i == 1 {
        assert r[1..] == rest;
        assert !NumberMarkerAt(rest, 0);
      } else if 1 < i < |r| {
        assert r[i..] == rest[i - 1..];
        assert NumberMarkerAt(r, i) ==> NumberMarkerAt(rest, i - 1);
      }
    }
  }

  /** A line feed and a marker in front of the rest keep every numbered
      marker broken. */
  lemma {:induction false} MarkerKeepsNumbersBroken(core: string, rest: string)
    requires IsMarker(Numbers, core) && NumberMarkersBroken(rest)
    ensures NumberMarkersBroken(Before(Numbers) + core + After(Numbers) + rest)
  {
    var r := ['\n'] + core + rest;
    assert Before(Numbers) + core + After(Numbers) + rest == r;
    var n := |core|;
    forall i ensures NumberMarkerAt(r, i) ==> 0 < i && r[i - 1] == '\n' {
      if i == 0 {
        assert r[0] == '\n';
      } else if 1 < i <= n {
        assert r[i - 1] == core[..n - 1][i - 2];
      } else if i == n + 1 {
        assert r[i..] == rest;
        assert !NumberMarkerAt(rest, 0);
      } else if n + 1 < i < |r| {
        assert r[i..] == rest[i - n - 1..];
        assert NumberMarkerAt(r, i) ==> NumberMarkerAt(rest, i - n - 1);
      }
    }
  }

  /** A digit run and its full stop copied to the front of the rewrite were
      already a marker of the text, so the pass would have matched there. */
  lemma {:induction false} CopiedNumberMarker(s: string, rest: string)
    requires s != [] && rest == Rewrite(Numbers, s[1..])
    requires DigitsThenDot([s[0]] + rest)
    ensures MatchAt(Numbers, s).Some?
  {
    var d := ConsDigitsThenDot(s[0], rest);
    RewriteCopiesPrefix(Numbers, s[1..], d + 1);
    SamePrefixDigits(rest, s[1..], d);
    DigitsThenDotMarker(s, d);
  }

  /** Two strings that agree on their first `d + 1` characters agree on a
      run of `d` digits followed by a full stop. */
  lemma {:induction false} SamePrefixDigits(a: string, b: string, d: nat)
    requires d < |a| && d < |b| && a[..d + 1] == b[..d + 1]
    requires AllDigits(a[..d]) && a[d] == '.'
    ensures AllDigits(b[..d]) && b[d] == '.'
  {
    assert a[..d] == a[..d + 1][..d];
    assert b[..d] == b[..d + 1][..d];
    assert b[d] == b[..d + 1][d];
  }

  /** Unfolds a digit run behind a leading digit: the rest holds `d` digits,
      then a full stop, and no line feed up to it. */
  lemma {:induction false} ConsDigitsThenDot(c: char, t: string) returns (d: nat)
    requires DigitsThenDot([c] + t)
    ensures IsDigit(c) && d < |t| && AllDigits(t[..d]) && t[d] == '.'
    ensures forall j :: 0 <= j < d + 1 ==> t[j] != '\n'
  {
    var r := [c] + t;
    assert r[1..] == t;
    d := DigitPrefix(t);
    forall j | 0 <= j < d + 1 ensures t[j] != '\n' {
      if j < d {
        assert t[j] == t[..d][j];
      }
    }
  }

  /** A digit in front of `d` digits and a full stop is a numbered marker. */
  lemma {:induction false} DigitsThenDotMarker(s: string, d: nat)
    requires s != [] && IsDigit(s[0]) && d + 1 <= |s[1..]|
    requires AllDigits(s[1..][..d]) && s[1..][d] == '.'
    ensures MatchAt(Numbers, s).Some?
  {
    var m := s[0..d + 2];
    assert m[..d + 1] == [s[0]] + s[1..][..d];
    assert m[d + 1] == '.';
    assert s[..0] == [];
    MarkerIsTheMatch(Numbers, s, 0, d + 2);
  }

  /** The lettered pass runs last, so in the normalised text every
      lower-case letter followed by a full stop starts a line. */
  lemma {:induction false} NormalizeBreaksLetterMarkers(s: string)
    ensures LetterMarkersBroken(Normalize(s))
  {
    LetterMarkersStartLines(Rewrite(Numbers, Rewrite(Headers, s)));
  }
}
