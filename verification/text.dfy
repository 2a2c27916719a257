/** Character classes and string primitives of the JavaScript runtime that the
    extension relies on: the `\s` class and `String.prototype.trim`, lower-casing,
    `\d`, `includes`, `startsWith` and number-to-string conversion. */
module Text {

  /** JavaScript's `\s` class, which is also the set `trim` removes:
      WhiteSpace and LineTerminator of ECMA-262 (section 12.2 and 12.3). */
  predicate IsSpace(c: char) {
    c in SpaceChars || '\U{2000}' <= c <= '\U{200A}'
  }

  const SpaceChars: set<char> := {
    '\t', '\n', '\U{B}', '\U{C}', '\r', ' ', '\U{A0}', '\U{1680}',
    '\U{2028}', '\U{2029}', '\U{202F}', '\U{205F}', '\U{3000}', '\U{FEFF}'
  }

  /** JavaScript's `\d` class: ASCII digits only. */
  predicate IsDigit(c: char) {
    '0' <= c <= '9'
  }

  predicate AllSpace(s: string) {
    forall i :: 0 <= i < |s| ==> IsSpace(s[i])
  }

  predicate NoSpace(s: string) {
    forall i :: 0 <= i < |s| ==> !IsSpace(s[i])
  }

  /** No occurrence of `c`. */
  predicate NoChar(s: string, c: char) {
    forall i :: 0 <= i < |s| ==> s[i] != c
  }

  predicate HasDigit(s: string) {
    exists i :: 0 <= i < |s| && IsDigit(s[i])
  }

  predicate AllDigits(s: string) {
    forall i :: 0 <= i < |s| ==> IsDigit(s[i])
  }

  lemma AllDigitsConcat(a: string, b: string)
    requires AllDigits(a) && AllDigits(b)
    ensures AllDigits(a + b)
  {
    forall k | 0 <= k < |a + b| ensures IsDigit((a + b)[k]) {
      if k < |a| {
        assert (a + b)[k] == a[k];
      } else {
        assert (a + b)[k] == b[k - |a|];
      }
    }
  }

  /** Upper-case letters that `toLowerCase` maps to one other character within
      Latin Extended-A (U+0100..U+017F), the block holding the Czech letters. */
  predicate IsExtendedUpper(c: char) {
    var n := c as int;
    || (0x100 <= n <= 0x12F && n % 2 == 0)
    || (0x132 <= n <= 0x137 && n % 2 == 0)
    || (0x139 <= n <= 0x148 && n % 2 == 1)
    || (0x14A <= n <= 0x177 && n % 2 == 0)
    || (0x179 <= n <= 0x17E && n % 2 == 1)
  }

  /** `toLowerCase` on one character, for Basic Latin, Latin-1 and Latin
      Extended-A; every other character is left as it is. */
  function Lower(c: char): char {
    if 'A' <= c <= 'Z' then (c as int + 32) as char
    else if '\U{C0}' <= c <= '\U{DE}' && c != '\U{D7}' then (c as int + 32) as char
    else if IsExtendedUpper(c) then (c as int + 1) as char
    else if c == '\U{178}' then '\U{FF}'
    else c
  }

  /** `toLowerCase` on a string: every character on its own, so the length is
      kept; the result is a fixed point, and a string already in lower case
      comes back unchanged. */
  function LowerStr(s: string): (r: string)
    ensures |r| == |s|
    ensures forall i :: 0 <= i < |s| ==> r[i] == Lower(s[i])
    ensures IsLowered(r)
    ensures IsLowered(s) ==> r == s
  {
    var r := seq(|s|, i requires 0 <= i < |s| => Lower(s[i]));
    assert IsLowered(r) by {
      forall i | 0 <= i < |s| {
        LowerFacts(s[i]);
      }
    }
    r
  }

  /** A string `toLowerCase` leaves unchanged. */
  predicate IsLowered(s: string) {
    forall i :: 0 <= i < |s| ==> Lower(s[i]) == s[i]
  }

  /** Lower-casing is idempotent, keeps the whitespace class, fixes digits and
      punctuation, and never yields an ASCII capital. */
  lemma LowerFacts(c: char)
    ensures Lower(Lower(c)) == Lower(c)
    ensures IsSpace(Lower(c)) <==> IsSpace(c)
    ensures IsDigit(Lower(c)) <==> IsDigit(c)
    ensures IsDigit(c) || c == '.' || c == ',' || c == '#' || c == '-' ==> Lower(c) == c
    ensures !('A' <= Lower(c) <= 'Z')
  {
  }

  lemma LoweredSlice(s: string, i: int, j: int)
    requires IsLowered(s) && 0 <= i <= j <= |s|
    ensures IsLowered(s[i..j])
  {
    forall k | 0 <= k < j - i ensures Lower(s[i..j][k]) == s[i..j][k] {
      assert s[i..j][k] == s[i + k];
    }
  }

  lemma LoweredConcat(a: string, b: string)
    requires IsLowered(a) && IsLowered(b)
    ensures IsLowered(a + b)
  {
    forall k | 0 <= k < |a + b| ensures Lower((a + b)[k]) == (a + b)[k] {
      if k < |a| {
        assert (a + b)[k] == a[k];
      } else {
        assert (a + b)[k] == b[k - |a|];
      }
    }
  }

  lemma LowerStrConcat(a: string, b: string)
    ensures LowerStr(a + b) == LowerStr(a) + LowerStr(b)
  {
  }

  lemma LowerStrSpaces(s: string)
    ensures AllSpace(s) <==> AllSpace(LowerStr(s))
  {
    forall i | 0 <= i < |s| {
      LowerFacts(s[i]);
    }
  }

  /** `trim` at the start: drops the leading whitespace run. */
  function TrimStart(s: string): (r: string)
    ensures LeadCut(s, r)
    decreases |s|
  {
    if s != [] && IsSpace(s[0]) then
      var t := s[1..];
      var r := TrimStart(t);
      assert s[..|s| - |r|] == [s[0]] + t[..|t| - |r|];
      assert r == s[|s| - |r|..];
      r
    else s
  }

  /** `trim` at the end: drops the trailing whitespace run. */
  function TrimEnd(s: string): (r: string)
    ensures TailCut(s, r)
    decreases |s|
  {
    if s != [] && IsSpace(s[|s| - 1]) then
      var t := s[..|s| - 1];
      var r := TrimEnd(t);
      assert s[|r|..] == t[|r|..] + [s[|s| - 1]];
      assert r == s[..|r|];
      r
    else s
  }

  /** `String.prototype.trim`. */
  function Trim(s: string): (r: string)
    ensures r != [] ==> !IsSpace(r[0]) && !IsSpace(r[|r| - 1])
  {
    TrimEnds(TrimStart(s));
    TrimEnd(TrimStart(s))
  }

  lemma TrimEnds(t: string)
    requires t != [] ==> !IsSpace(t[0])
    ensures var r := TrimEnd(t); r != [] ==> !IsSpace(r[0]) && !IsSpace(r[|r| - 1])
  {
    var r := TrimEnd(t);
    assert r != [] ==> r[0] == t[0];
  }

  /** Both ends of `trim`: the cut-off prefix and suffix are whitespace
      runs, and the kept middle is the rest of the text. */
  lemma TrimParts(s: string)
    ensures TrimmedAt(s, Trim(s), |s| - |TrimStart(s)|)
  {
    TrimCuts(s, TrimStart(s), TrimEnd(TrimStart(s)));
  }

  /** `t` is `s` without a leading whitespace run, and starts with a non-space. */
  predicate LeadCut(s: string, t: string) {
    |t| <= |s| && t == s[|s| - |t|..] && AllSpace(s[..|s| - |t|]) && (t != [] ==> !IsSpace(t[0]))
  }

  /** `r` is `t` without a trailing whitespace run, and ends with a non-space. */
  predicate TailCut(t: string, r: string) {
    |r| <= |t| && r == t[..|r|] && AllSpace(t[|r|..]) && (r != [] ==> !IsSpace(r[|r| - 1]))
  }

  lemma TrimCuts(s: string, t: string, r: string)
    requires LeadCut(s, t) && TailCut(t, r)
    ensures TrimmedAt(s, r, |s| - |t|)
    ensures r != [] ==> !IsSpace(r[0]) && !IsSpace(r[|r| - 1])
  {
    assert r == s[|s| - |t|..|s| - |t| + |r|];
    assert s[|s| - |t| + |r|..] == t[|r|..];
    assert r != [] ==> r[0] == t[0];
  }

  /** `r` is `s` with the whitespace runs `s[..i]` and `s[i + |r|..]` cut off. */
  predicate TrimmedAt(s: string, r: string, i: int) {
    0 <= i <= |s| - |r| && r == s[i..i + |r|] && AllSpace(s[..i]) && AllSpace(s[i + |r|..])
  }

  lemma TrimStartSpacePrefix(w: string, s: string)
    requires AllSpace(w)
    ensures TrimStart(w + s) == TrimStart(s)
    decreases |w|
  {
    if w != [] {
      assert (w + s)[1..] == w[1..] + s;
      TrimStartSpacePrefix(w[1..], s);
    } else {
      assert w + s == s;
    }
  }

  lemma TrimStartSolidPrefix(a: string, s: string)
    requires !AllSpace(a)
    ensures TrimStart(a + s) == TrimStart(a) + s
    decreases |a|
  {
    assert a != [] && (a + s)[0] == a[0];
    if IsSpace(a[0]) {
      assert !AllSpace(a[1..]) by {
        var k :| 0 <= k < |a| && !IsSpace(a[k]);
        assert a[1..][k - 1] == a[k];
      }
      assert (a + s)[1..] == a[1..] + s;
      TrimStartSolidPrefix(a[1..], s);
    }
  }

  lemma TrimEndSpaceSuffix(s: string, w: string)
    requires AllSpace(w)
    ensures TrimEnd(s + w) == TrimEnd(s)
    decreases |w|
  {
    if w != [] {
      assert (s + w)[..|s + w| - 1] == s + w[..|w| - 1];
      TrimEndSpaceSuffix(s, w[..|w| - 1]);
    } else {
      assert s + w == s;
    }
  }

  lemma TrimEndSolidSuffix(s: string, b: string)
    requires !AllSpace(b)
    ensures TrimEnd(s + b) == s + TrimEnd(b)
    decreases |b|
  {
    assert b != [] && (s + b)[|s + b| - 1] == b[|b| - 1];
    if IsSpace(b[|b| - 1]) {
      assert !AllSpace(b[..|b| - 1]) by {
        var k :| 0 <= k < |b| && !IsSpace(b[k]);
        assert b[..|b| - 1][k] == b[k];
      }
      assert (s + b)[..|s + b| - 1] == s + b[..|b| - 1];
      TrimEndSolidSuffix(s, b[..|b| - 1]);
    }
  }

  lemma TrimStartAllSpace(s: string)
    ensures AllSpace(s) <==> TrimStart(s) == []
  {
    if AllSpace(s) && s != [] {
      TrimStartAllSpace(s[1..]);
    }
    if TrimStart(s) == [] {
      assert s[..|s|] == s;
    }
  }

  /** Whitespace around a string does not reach `trim`'s result. */
  lemma TrimSurrounding(w1: string, s: string, w2: string)
    requires AllSpace(w1) && AllSpace(w2)
    ensures Trim(w1 + s + w2) == Trim(s)
  {
    assert w1 + s + w2 == w1 + (s + w2);
    TrimStartSpacePrefix(w1, s + w2);
    TrimTrailing(s, w2);
  }

  /** Trailing whitespace does not reach `trim`'s result. */
  lemma TrimTrailing(s: string, w: string)
    requires AllSpace(w)
    ensures TrimEnd(TrimStart(s + w)) == TrimEnd(TrimStart(s))
  {
    if AllSpace(s) {
      assert AllSpace(s + w);
      TrimStartAllSpace(s + w);
      TrimStartAllSpace(s);
    } else {
      TrimStartSolidPrefix(s, w);
      TrimEndSpaceSuffix(TrimStart(s), w);
    }
  }

  lemma TrimLowered(s: string)
    requires IsLowered(s)
    ensures IsLowered(Trim(s))
  {
    var i := |s| - |TrimStart(s)|;
    TrimParts(s);
    LoweredSlice(s, i, i + |Trim(s)|);
  }

  /** `trim` leaves a string alone that neither starts nor ends with
      whitespace. */
  lemma TrimClean(s: string)
    requires s != [] ==> !IsSpace(s[0]) && !IsSpace(s[|s| - 1])
    ensures Trim(s) == s
  {
  }

  lemma DigitNotSpace(c: char)
    requires IsDigit(c)
    ensures !IsSpace(c)
  {
  }

  lemma TrimNoSpace(s: string)
    requires NoSpace(s)
    ensures Trim(s) == s
  {
  }

  /** A string is its prefix, one character and its suffix put back together. */
  lemma SplitAround(r: string, p: int)
    requires 0 <= p < |r|
    ensures r == r[..p] + [r[p]] + r[p + 1..]
  {
    assert r == r[..p] + r[p..];
    assert r[p..] == [r[p]] + r[p + 1..];
  }

  /** `startsWith`. */
  predicate StartsWith(s: string, p: string) {
    |p| <= |s| && s[..|p|] == p
  }

  predicate OccursAt(h: string, n: string, i: int) {
    0 <= i && i + |n| <= |h| && h[i..i + |n|] == n
  }

  /** `String.prototype.includes`. */
  predicate Contains(h: string, n: string) {
    exists i | 0 <= i <= |h| - |n| :: OccursAt(h, n, i)
  }

  lemma ContainsEmpty(h: string)
    ensures Contains(h, [])
  {
    assert OccursAt(h, [], 0);
  }

  lemma ContainsSelf(h: string)
    ensures Contains(h, h)
  {
    assert OccursAt(h, h, 0);
  }

  /** How many UTF-16 code units a character takes: two for a character
      outside the Basic Multilingual Plane (a surrogate pair), one otherwise. */
  function Units(c: char): nat {
    if c as int < 0x1_0000 then 1 else 2
  }

  /** The `length` JavaScript reports for a string, in UTF-16 code units. */
  function Utf16Length(s: string): (n: nat)
    ensures |s| <= n <= 2 * |s|
    ensures (forall i :: 0 <= i < |s| ==> Units(s[i]) == 1) ==> n == |s|
  {
    if s == [] then 0 else Units(s[0]) + Utf16Length(s[1..])
  }

  function DigitChar(d: nat): char
    requires d < 10
  {
    ('0' as int + d) as char
  }

  /** Decimal rendering of a natural number, as `String(n)` prints it. */
  function NatToString(n: nat): (r: string)
    ensures r != [] && forall i :: 0 <= i < |r| ==> IsDigit(r[i])
    ensures r[0] == '0' ==> n == 0
  {
    if n < 10 then [DigitChar(n)] else NatToString(n / 10) + [DigitChar(n % 10)]
  }

  /** `String(i)` for an integer value. */
  function IntToString(i: int): string {
    if i < 0 then "-" + NatToString(-i) else NatToString(i)
  }

  /** The value of a string of decimal digits. */
  function DigitsValue(s: string): nat
    requires forall i :: 0 <= i < |s| ==> IsDigit(s[i])
  {
    if s == [] then 0
    else
      assert IsDigit(s[|s| - 1]);
      10 * DigitsValue(s[..|s| - 1]) + (s[|s| - 1] as int - '0' as int)
  }

  /** Reading back the digits `NatToString` prints gives the number again. */
  lemma {:induction false} NatToStringRoundTrip(n: nat)
    ensures DigitsValue(NatToString(n)) == n
  {
    if n >= 10 {
      var r := NatToString(n);
      assert r[..|r| - 1] == NatToString(n / 10);
      NatToStringRoundTrip(n / 10);
    }
  }
}
