/**
 * Characters and strings as JavaScript sees them: the `\s` whitespace class
 * (which is also the set `String.prototype.trim` removes), line terminators,
 * prefixes, substrings and trimming.
 */
module TextUtil {

  /** The JavaScript whitespace class `\s`, by code point. */
  predicate IsSpace(c: char) {
    var n := c as int;
    || (9 <= n <= 13)          // tab, line feed, vertical tab, form feed, carriage return
    || n == 0x20 || n == 0xA0 || n == 0x1680
    || (0x2000 <= n <= 0x200A)
    || n == 0x2028 || n == 0x2029 || n == 0x202F || n == 0x205F || n == 0x3000 || n == 0xFEFF
  }

  /** The characters a regular-expression `.` refuses without the `s` flag. */
  predicate IsLineTerminator(c: char) {
    c == '\n' || c == '\r' || c as int == 0x2028 || c as int == 0x2029
  }

  predicate IsDigit(c: char) { '0' <= c <= '9' }

  predicate IsLower(c: char) { 'a' <= c <= 'z' }

  /** How the whitespace class sits among the others: every line terminator
      is whitespace, whitespace is never a digit, a lower-case letter, a dot
      or a hyphen, and in ASCII it is exactly the space and the five control
      characters tab to carriage return. */
  lemma {:induction false} SpaceClasses(c: char)
    ensures IsLineTerminator(c) ==> IsSpace(c)
    ensures IsSpace(c) ==> !IsDigit(c) && !IsLower(c) && c != '.' && c != '-'
    ensures c as int < 128 ==>
      (IsSpace(c) <==> c in {' ', '\t', '\n', '\r'} || c as int == 0x0B || c as int == 0x0C)
  {
  }

  predicate AllSpace(s: string) {
    forall i :: 0 <= i < |s| ==> IsSpace(s[i])
  }

  predicate AllDigits(s: string) {
    forall i :: 0 <= i < |s| ==> IsDigit(s[i])
  }

  /** A string JavaScript considers blank: `s.trim() === ''`. */
  predicate IsBlank(s: string) {
    AllSpace(s)
  }

  /** Length of the longest all-whitespace prefix (what a greedy `\s*` consumes). */
  function SpacePrefix(s: string): (n: nat)
    ensures n <= |s|
    ensures AllSpace(s[..n])
    ensures n == |s| || !IsSpace(s[n])
  {
    if |s| > 0 && IsSpace(s[0]) then
      var k := SpacePrefix(s[1..]);
      assert s[1..][..k] == s[1..k + 1];
      1 + k
    else 0
  }

  /** Length of the longest all-digit prefix (what a greedy `\d*` consumes). */
  function DigitPrefix(s: string): (n: nat)
    ensures n <= |s|
    ensures AllDigits(s[..n])
    ensures n == |s| || !IsDigit(s[n])
  {
    if |s| > 0 && IsDigit(s[0]) then
      var k := DigitPrefix(s[1..]);
      assert s[1..][..k] == s[1..k + 1];
      1 + k
    else 0
  }

  /** A whitespace run ended by a non-whitespace character is exactly the
      maximal one. */
  lemma {:induction false} SpacePrefixAt(s: string, k: nat)
    requires k < |s| && AllSpace(s[..k]) && !IsSpace(s[k])
    ensures SpacePrefix(s) == k
    decreases k
  {
    if k > 0 {
      assert IsSpace(s[..k][0]);
      assert s[1..][..k - 1] == s[..k][1..];
      SpacePrefixAt(s[1..], k - 1);
    }
  }

  /** A digit run ended by a non-digit is exactly the maximal one. */
  lemma {:induction false} DigitPrefixAt(s: string, k: nat)
    requires k < |s| && AllDigits(s[..k]) && !IsDigit(s[k])
    ensures DigitPrefix(s) == k
    decreases k
  {
    if k > 0 {
      assert IsDigit(s[..k][0]);
      assert s[1..][..k - 1] == s[..k][1..];
      DigitPrefixAt(s[1..], k - 1);
    }
  }

  predicate StartsWith(s: string, p: string) {
    |p| <= |s| && s[..|p|] == p
  }

  predicate EndsWith(s: string, p: string) {
    |p| <= |s| && s[|s| - |p|..] == p
  }

  /** `s.includes(p)`: a left-to-right search for `p`. */
  predicate Contains(s: string, p: string)
    decreases |s|
  {
    StartsWith(s, p) || (|s| > 0 && Contains(s[1..], p))
  }

  /** `p` occurs in `s` starting at index `i`. */
  predicate OccursAt(s: string, p: string, i: int) {
    0 <= i && i + |p| <= |s| && s[i..i + |p|] == p
  }

  /** `Contains` finds exactly the substrings of `s`. */
  lemma {:induction false} ContainsIff(s: string, p: string)
    ensures Contains(s, p) <==> exists i :: OccursAt(s, p, i)
    decreases |s|
  {
    if StartsWith(s, p) {
      assert OccursAt(s, p, 0);
    } else if |s| > 0 {
      ContainsIff(s[1..], p);
      if Contains(s[1..], p) {
        var i :| OccursAt(s[1..], p, i);
        assert s[1..][i..i + |p|] == s[i + 1..i + 1 + |p|];
        assert OccursAt(s, p, i + 1);
      }
      if exists i :: OccursAt(s, p, i) {
        var i :| OccursAt(s, p, i);
        assert i != 0;
        assert s[1..][i - 1..i - 1 + |p|] == s[i..i + |p|];
        assert OccursAt(s[1..], p, i - 1);
      }
    }
  }

  /** The non-whitespace characters of `s`, in order. */
  function RemoveSpaces(s: string): (r: string)
    ensures |r| <= |s|
  {
    if s == [] then []
    else if IsSpace(s[0]) then RemoveSpaces(s[1..])
    else [s[0]] + RemoveSpaces(s[1..])
  }

  lemma {:induction false} RemoveSpacesAppend(a: string, b: string)
    ensures RemoveSpaces(a + b) == RemoveSpaces(a) + RemoveSpaces(b)
    decreases |a|
  {
    if a != [] {
      assert (a + b)[0] == a[0];
      assert (a + b)[1..] == a[1..] + b;
      RemoveSpacesAppend(a[1..], b);
    } else {
      assert a + b == b;
    }
  }

  /** Leading whitespace contributes nothing. */
  lemma {:induction false} RemoveSpacesAfterSpaces(a: string, b: string)
    requires AllSpace(a)
    ensures RemoveSpaces(a + b) == RemoveSpaces(b)
  {
    RemoveSpacesAppend(a, b);
    RemoveSpacesEmptyIff(a);
  }

  /** Deleting whitespace distributes over a cut at any index. */
  lemma {:induction false} RemoveSpacesSplit(s: string, i: nat)
    requires i <= |s|
    ensures RemoveSpaces(s) == RemoveSpaces(s[..i]) + RemoveSpaces(s[i..])
  {
    assert s == s[..i] + s[i..];
    RemoveSpacesAppend(s[..i], s[i..]);
  }

  /** A string is all whitespace exactly when deleting whitespace leaves nothing. */
  lemma {:induction false} RemoveSpacesEmptyIff(s: string)
    ensures RemoveSpaces(s) == [] <==> AllSpace(s)
    decreases |s|
  {
    if s != [] {
      RemoveSpacesEmptyIff(s[1..]);
      if AllSpace(s) {
        assert AllSpace(s[1..]) by {
          forall i | 0 <= i < |s[1..]| ensures IsSpace(s[1..][i]) { assert s[1..][i] == s[i + 1]; }
        }
      }
      if RemoveSpaces(s) == [] {
        assert IsSpace(s[0]);
        forall i | 0 <= i < |s| ensures IsSpace(s[i]) {
          if i > 0 { assert s[i] == s[1..][i - 1]; }
        }
      }
    }
  }

  /** `s.trimStart()`. */
  function TrimStart(s: string): (r: string)
    ensures r == s[SpacePrefix(s)..]
  {
    s[SpacePrefix(s)..]
  }

  /** Number of whitespace characters at the end of `s`. */
  function SpaceSuffix(s: string): (n: nat)
    ensures n <= |s|
    ensures AllSpace(s[|s| - n..])
    ensures n == |s| || !IsSpace(s[|s| - n - 1])
    decreases |s|
  {
    if |s| > 0 && IsSpace(s[|s| - 1]) then
      var k := SpaceSuffix(s[..|s| - 1]);
      SpaceSuffixStep(s, k);
      1 + k
    else 0
  }

  lemma {:induction false} SpaceSuffixStep(s: string, k: nat)
    requires 0 < |s| && IsSpace(s[|s| - 1]) && k < |s|
    requires AllSpace(s[..|s| - 1][|s| - 1 - k..])
    requires k == |s| - 1 || !IsSpace(s[..|s| - 1][|s| - 1 - k - 1])
    ensures AllSpace(s[|s| - 1 - k..])
    ensures k + 1 == |s| || !IsSpace(s[|s| - (k + 1) - 1])
  {
    var u := s[..|s| - 1];
    var v := s[|s| - 1 - k..];
    forall i | 0 <= i < |v| ensures IsSpace(v[i]) {
      if i < k { assert v[i] == u[|s| - 1 - k..][i]; }
    }
    if k + 1 < |s| { assert u[|s| - 1 - k - 1] == s[|s| - (k + 1) - 1]; }
  }

  /** `s.trimEnd()`. */
  function TrimEnd(s: string): (r: string)
    ensures r == s[..|s| - SpaceSuffix(s)]
  {
    s[..|s| - SpaceSuffix(s)]
  }

  /** `s.trim()`: whitespace removed from both ends. */
  function Trim(s: string): (r: string)
    ensures r == [] <==> AllSpace(s)
    ensures r == [] || (!IsSpace(r[0]) && !IsSpace(r[|r| - 1]))
    ensures RemoveSpaces(r) == RemoveSpaces(s)
  {
    TrimKeepsNonSpace(s);
    TrimEnds(s);
    TrimEnd(TrimStart(s))
  }

  /** The trimmed text is one slice of the original. */
  lemma {:induction false} TrimIsSlice(s: string)
    ensures var a := SpacePrefix(s);
      var n := SpaceSuffix(s[a..]);
      a + n <= |s| && Trim(s) == s[a..|s| - n]
  {
    var a := SpacePrefix(s);
    var n := SpaceSuffix(s[a..]);
    assert s[a..][..|s[a..]| - n] == s[a..|s| - n];
  }

  lemma {:induction false} TrimKeepsNonSpace(s: string)
    ensures RemoveSpaces(TrimEnd(TrimStart(s))) == RemoveSpaces(s)
  {
    var a := SpacePrefix(s);
    var t := s[a..];
    DropSpaces(s, a);
    DropTrailingSpaces(t, SpaceSuffix(t));
  }

  /** Leading whitespace contributes nothing. */
  lemma {:induction false} DropSpaces(s: string, a: nat)
    requires a <= |s| && AllSpace(s[..a])
    ensures RemoveSpaces(s) == RemoveSpaces(s[a..])
  {
    RemoveSpacesSplit(s, a);
    RemoveSpacesEmptyIff(s[..a]);
  }

  /** Trailing whitespace contributes nothing. */
  lemma {:induction false} DropTrailingSpaces(s: string, n: nat)
    requires n <= |s| && AllSpace(s[|s| - n..])
    ensures RemoveSpaces(s) == RemoveSpaces(s[..|s| - n])
  {
    RemoveSpacesSplit(s, |s| - n);
    RemoveSpacesEmptyIff(s[|s| - n..]);
  }

  lemma {:induction false} TrimEnds(s: string)
    ensures var r := TrimEnd(TrimStart(s));
      && (r == [] <==> AllSpace(s))
      && (r == [] || (!IsSpace(r[0]) && !IsSpace(r[|r| - 1])))
  {
    var a := SpacePrefix(s);
    var t := s[a..];
    var n := SpaceSuffix(t);
    var r := t[..|t| - n];
    if a < |s| {
      assert t[0] == s[a];
      assert r[0] == t[0];
      assert r[|r| - 1] == t[|t| - n - 1];
      assert !AllSpace(s);
    } else {
      assert s[..a] == s;
    }
  }

  /** Trimming a trimmed string changes nothing. */
  lemma {:induction false} TrimIdempotent(s: string)
    ensures Trim(Trim(s)) == Trim(s)
  {
    var t := Trim(s);
    if t != [] {
      assert SpacePrefix(t) == 0;
      assert t[0..] == t;
      assert SpaceSuffix(t) == 0;
      assert t[..|t|] == t;
    }
  }
}
