/** The two text canonicalisers of the content script: `normalizeQuestion`
    (content.js:330-333), which builds cache keys, and `normalizeAnswer`
    (content.js:335-353), which makes answers comparable. */
module Normalize {
  import opened Wrappers
  import opened Text

  // ---------------------------------------------------------------------------
  // normalizeQuestion: toLowerCase().trim().replace(/\s+/g, ' ')
  // ---------------------------------------------------------------------------

  /** `replace(/\s+/g, ' ')`: every maximal whitespace run becomes one space. */
  function Collapse(s: string): (r: string)
    ensures s == [] <==> r == []
    ensures s != [] && !IsSpace(s[0]) ==> r[0] == s[0]
    ensures s != [] && !IsSpace(s[|s| - 1]) ==> !IsSpace(r[|r| - 1])
    decreases |s|
  {
    if s == [] then []
    else if IsSpace(s[0]) then
      var t := TrimStart(s);
      assert s != [] && !IsSpace(s[|s| - 1]) ==> t != [] && t[|t| - 1] == s[|s| - 1];
      [' '] + Collapse(t)
    else
      [s[0]] + Collapse(s[1..])
  }

  /** After collapsing, the only whitespace left is single plain spaces. */
  predicate SingleSpaced(r: string) {
    && (forall i :: 0 <= i < |r| && IsSpace(r[i]) ==> r[i] == ' ')
    && (forall i :: 0 <= i < |r| - 1 && IsSpace(r[i]) ==> !IsSpace(r[i + 1]))
  }

  lemma {:induction false} CollapseSingleSpaced(s: string)
    ensures SingleSpaced(Collapse(s))
    decreases |s|
  {
    if s != [] {
      if IsSpace(s[0]) {
        var t := TrimStart(s);
        CollapseSingleSpaced(t);
        var c := Collapse(t);
        assert Collapse(s) == [' '] + c;
        assert c != [] ==> !IsSpace(c[0]);
      } else {
        CollapseSingleSpaced(s[1..]);
        assert Collapse(s) == [s[0]] + Collapse(s[1..]);
      }
    }
  }

  /** Collapsing keeps a lower-cased string lower-cased. */
  lemma {:induction false} CollapseLowered(s: string)
    requires IsLowered(s)
    ensures IsLowered(Collapse(s))
    decreases |s|
  {
    if s != [] {
      if IsSpace(s[0]) {
        var t := TrimStart(s);
        LoweredSlice(s, |s| - |t|, |s|);
        CollapseLowered(t);
        LoweredConcat(" ", Collapse(t));
      } else {
        LoweredSlice(s, 1, |s|);
        LoweredSlice(s, 0, 1);
        CollapseLowered(s[1..]);
        LoweredConcat(s[..1], Collapse(s[1..]));
      }
    }
  }

  /** What a cache key looks like: lower-cased, no surrounding whitespace,
      and every whitespace run reduced to one plain space. */
  predicate IsQuestionKey(r: string) {
    && IsLowered(r)
    && (r != [] ==> !IsSpace(r[0]) && !IsSpace(r[|r| - 1]))
    && SingleSpaced(r)
  }

  /** `normalizeQuestion` (content.js:330-333). */
  function NormalizeQuestion(q: string): (r: string)
    ensures IsQuestionKey(r)
  {
    TrimLowered(LowerStr(q));
    CollapseLowered(Trim(LowerStr(q)));
    CollapseSingleSpaced(Trim(LowerStr(q)));
    Collapse(Trim(LowerStr(q)))
  }

  lemma {:induction false} CollapseIdentity(r: string)
    requires SingleSpaced(r)
    ensures Collapse(r) == r
    decreases |r|
  {
    if r != [] {
      var rest := r[1..];
      assert SingleSpaced(rest) by {
        forall i | 0 <= i < |rest| ensures rest[i] == r[i + 1] { }
      }
      CollapseIdentity(rest);
      if IsSpace(r[0]) {
        assert r[0] == ' ';
        assert rest != [] ==> !IsSpace(rest[0]);
        assert TrimStart(rest) == rest;
        assert r == [r[0]] + rest;
        TrimStartSpacePrefix([r[0]], rest);
        assert Collapse(r) == [' '] + Collapse(rest);
      } else {
        assert Collapse(r) == [r[0]] + Collapse(rest);
      }
      assert r == [r[0]] + rest;
    }
  }

  /** A cache key normalises to itself, so `normalizeQuestion` is idempotent. */
  lemma NormalizeQuestionIdempotent(q: string)
    ensures NormalizeQuestion(NormalizeQuestion(q)) == NormalizeQuestion(q)
  {
    var r := NormalizeQuestion(q);
    TrimClean(r);
    CollapseIdentity(r);
  }

  /** Strings that differ only in letter case give the same key. */
  lemma NormalizeQuestionIgnoresCase(q1: string, q2: string)
    requires LowerStr(q1) == LowerStr(q2)
    ensures NormalizeQuestion(q1) == NormalizeQuestion(q2)
  {
  }

  /** Whitespace around the question does not change its key. */
  lemma NormalizeQuestionIgnoresSurroundingSpace(w1: string, q: string, w2: string)
    requires AllSpace(w1) && AllSpace(w2)
    ensures NormalizeQuestion(w1 + q + w2) == NormalizeQuestion(q)
  {
    LowerStrConcat(w1 + q, w2);
    LowerStrConcat(w1, q);
    LowerStrSpaces(w1);
    LowerStrSpaces(w2);
    TrimSurrounding(LowerStr(w1), LowerStr(q), LowerStr(w2));
  }

  /** Two questions that differ only in the length or make-up of one inner
      whitespace run give the same key. */
  lemma NormalizeQuestionIgnoresRunLength(a: string, w1: string, w2: string, b: string)
    requires w1 != [] && w2 != [] && AllSpace(w1) && AllSpace(w2)
    ensures NormalizeQuestion(a + w1 + b) == NormalizeQuestion(a + w2 + b)
  {
    var la, lb := LowerStr(a), LowerStr(b);
    var l1, l2 := LowerStr(w1), LowerStr(w2);
    LowerStrConcat(a + w1, b);
    LowerStrConcat(a, w1);
    LowerStrConcat(a + w2, b);
    LowerStrConcat(a, w2);
    LowerStrSpaces(w1);
    LowerStrSpaces(w2);
    TrimRun(la, l1, l2, lb);
    if !AllSpace(la) && !AllSpace(lb) {
      CollapseRun(TrimStart(la), l1, l2, TrimEnd(lb));
    }
  }

  /** A leading whitespace run `w` collapses to one space, whatever it holds. */
  lemma CollapseSpaceLead(w: string, q: string)
    requires w != [] && AllSpace(w)
    ensures Collapse(w + q) == [' '] + Collapse(TrimStart(q))
  {
    assert IsSpace((w + q)[0]);
    TrimStartSpacePrefix(w, q);
  }

  /** Replacing one non-empty whitespace run by another does not change what
      `replace(/\s+/g, ' ')` produces. */
  lemma {:induction false} CollapseRun(p: string, w1: string, w2: string, q: string)
    requires w1 != [] && w2 != [] && AllSpace(w1) && AllSpace(w2)
    ensures Collapse(p + w1 + q) == Collapse(p + w2 + q)
    decreases |p|
  {
    if p == [] || AllSpace(p) {
      assert p + w1 + q == (p + w1) + q && p + w2 + q == (p + w2) + q;
      CollapseSpaceLead(p + w1, q);
      CollapseSpaceLead(p + w2, q);
    } else if !IsSpace(p[0]) {
      CollapseRunSolid(p, w1, w2, q);
    } else {
      CollapseRunSpace(p, w1, w2, q);
    }
  }

  lemma {:induction false} CollapseRunSolid(p: string, w1: string, w2: string, q: string)
    requires w1 != [] && w2 != [] && AllSpace(w1) && AllSpace(w2)
    requires p != [] && !IsSpace(p[0])
    ensures Collapse(p + w1 + q) == Collapse(p + w2 + q)
    decreases |p|, 0
  {
    var s1, s2 := p + w1 + q, p + w2 + q;
    assert s1[0] == p[0] && s2[0] == p[0];
    assert s1[1..] == p[1..] + w1 + q;
    assert s2[1..] == p[1..] + w2 + q;
    CollapseRun(p[1..], w1, w2, q);
  }

  lemma {:induction false} CollapseRunSpace(p: string, w1: string, w2: string, q: string)
    requires w1 != [] && w2 != [] && AllSpace(w1) && AllSpace(w2)
    requires p != [] && IsSpace(p[0]) && !AllSpace(p)
    ensures Collapse(p + w1 + q) == Collapse(p + w2 + q)
    decreases |p|, 0
  {
    CollapseSpaceFirst(p, w1, q);
    CollapseSpaceFirst(p, w2, q);
    CollapseRun(TrimStart(p), w1, w2, q);
  }

  /** A string that starts with whitespace (and is not all whitespace before
      `w`) collapses to one space followed by the collapse of the rest. */
  lemma CollapseSpaceFirst(p: string, w: string, q: string)
    requires p != [] && IsSpace(p[0]) && !AllSpace(p)
    ensures Collapse(p + w + q) == [' '] + Collapse(TrimStart(p) + w + q)
    ensures |TrimStart(p)| < |p|
  {
    assert (p + w + q)[0] == p[0];
    assert p + w + q == p + (w + q);
    TrimStartSolidRun(p, w, q);
  }

  lemma TrimStartSolidRun(p: string, w: string, q: string)
    requires !AllSpace(p)
    ensures TrimStart(p + (w + q)) == TrimStart(p) + w + q
  {
    TrimStartSolidPrefix(p, w + q);
    assert TrimStart(p) + (w + q) == TrimStart(p) + w + q;
  }

  /** `trim` of a string with an inner run `w` keeps or drops the run, and
      which one does not depend on the run's exact content. */
  lemma TrimRun(a: string, w1: string, w2: string, b: string)
    requires w1 != [] && w2 != [] && AllSpace(w1) && AllSpace(w2)
    ensures (AllSpace(a) || AllSpace(b)) ==> Trim(a + w1 + b) == Trim(a + w2 + b)
    ensures !AllSpace(a) && !AllSpace(b) ==>
      Trim(a + w1 + b) == TrimStart(a) + w1 + TrimEnd(b) && Trim(a + w2 + b) == TrimStart(a) + w2 + TrimEnd(b)
  {
    if AllSpace(a) {
      TrimRunLeft(a, w1, b);
      TrimRunLeft(a, w2, b);
    } else if AllSpace(b) {
      TrimRunRight(a, w1, b);
      TrimRunRight(a, w2, b);
    } else {
      TrimRunInner(a, w1, b);
      TrimRunInner(a, w2, b);
    }
  }

  lemma TrimRunLeft(a: string, w: string, b: string)
    requires AllSpace(a) && AllSpace(w)
    ensures Trim(a + w + b) == Trim(b)
  {
    assert AllSpace(a + w) by {
      forall k | 0 <= k < |a + w| ensures IsSpace((a + w)[k]) {
        if k < |a| { assert (a + w)[k] == a[k]; } else { assert (a + w)[k] == w[k - |a|]; }
      }
    }
    TrimStartSpacePrefix(a + w, b);
  }

  lemma TrimRunRight(a: string, w: string, b: string)
    requires !AllSpace(a) && AllSpace(w) && AllSpace(b)
    ensures Trim(a + w + b) == Trim(a)
  {
    assert a + w + b == a + (w + b);
    assert AllSpace(w + b) by {
      forall k | 0 <= k < |w + b| ensures IsSpace((w + b)[k]) {
        if k < |w| { assert (w + b)[k] == w[k]; } else { assert (w + b)[k] == b[k - |w|]; }
      }
    }
    TrimStartSolidPrefix(a, w + b);
    TrimEndSpaceSuffix(TrimStart(a), w + b);
  }

  lemma TrimRunInner(a: string, w: string, b: string)
    requires !AllSpace(a) && !AllSpace(b)
    ensures Trim(a + w + b) == TrimStart(a) + w + TrimEnd(b)
  {
    var t := TrimStart(a);
    assert a + w + b == a + (w + b);
    TrimStartSolidRun(a, w, b);
    TrimEndSolidSuffix(t + w, b);
  }

  // ---------------------------------------------------------------------------
  // normalizeAnswer
  // ---------------------------------------------------------------------------

  /** The placeholder `normalizeAnswer` parks a decimal point behind. */
  const Marker: string := "###DECIMAL###"

  /** The characters `/[\s,.]/g` removes. */
  predicate IsSeparator(c: char) {
    IsSpace(c) || c == ',' || c == '.'
  }

  predicate NoSeparator(s: string) {
    forall i :: 0 <= i < |s| ==> !IsSeparator(s[i])
  }

  /** `/\.(\d{1,2})$/` matches at position `p` of `t`. */
  predicate DecimalAt(t: string, p: int) {
    0 <= p < |t| && t[p] == '.' && 1 <= |t| - p - 1 <= 2 && AllDigits(t[p + 1..])
  }

  /** Where `/\.(\d{1,2})$/` matches, if it does: the leftmost match. */
  function DecimalDot(t: string): (r: Option<nat>)
    ensures r.Some? ==> DecimalAt(t, r.value) && forall q :: 0 <= q < r.value ==> !DecimalAt(t, q)
    ensures r.None? ==> forall q :: !DecimalAt(t, q)
  {
    if |t| >= 3 && t[|t| - 3] == '.' && IsDigit(t[|t| - 2]) && IsDigit(t[|t| - 1]) then
      Some(|t| - 3)
    else if |t| >= 2 && t[|t| - 2] == '.' && IsDigit(t[|t| - 1]) then
      Some(|t| - 2)
    else
      None
  }

  /** `replace(/\.(\d{1,2})$/, '###DECIMAL###$1')`. */
  function Protect(t: string): string {
    match DecimalDot(t)
    case Some(p) => t[..p] + Marker + t[p + 1..]
    case None => t
  }

  /** `replace(/[\s,.]/g, '')`. */
  function StripSeparators(s: string): (r: string)
    ensures NoSeparator(r)
    ensures |r| <= |s|
  {
    if s == [] then []
    else (if IsSeparator(s[0]) then [] else [s[0]]) + StripSeparators(s[1..])
  }

  lemma {:induction false} StripConcat(a: string, b: string)
    ensures StripSeparators(a + b) == StripSeparators(a) + StripSeparators(b)
    decreases |a|
  {
    if a == [] {
      assert a + b == b;
    } else {
      assert (a + b)[1..] == a[1..] + b;
      StripConcat(a[1..], b);
    }
  }

  lemma {:induction false} StripIdentity(s: string)
    requires NoSeparator(s)
    ensures StripSeparators(s) == s
    decreases |s|
  {
    if s != [] {
      StripIdentity(s[1..]);
    }
  }

  lemma {:induction false} StripLowered(s: string)
    requires IsLowered(s)
    ensures IsLowered(StripSeparators(s))
    decreases |s|
  {
    if s != [] {
      StripLowered(s[1..]);
    }
  }

  /** `replace(/###DECIMAL###/g, '.')`: left to right, non-overlapping. */
  function RestoreMarker(s: string): string
    decreases |s|
  {
    if s == [] then []
    else if StartsWith(s, Marker) then "." + RestoreMarker(s[|Marker|..])
    else [s[0]] + RestoreMarker(s[1..])
  }

  /** Lower-cased text holds no capital `D`, so it cannot hold the marker:
      input text cannot forge the placeholder. */
  lemma LoweredHasNoMarker(s: string)
    requires IsLowered(s)
    ensures !Contains(s, Marker)
  {
    forall i | 0 <= i <= |s| - |Marker| ensures !OccursAt(s, Marker, i) {
      assert Lower(s[i + 3]) == s[i + 3];
      assert Marker[3] == 'D';
    }
  }

  lemma {:induction false} RestoreIdentity(s: string)
    requires IsLowered(s)
    ensures RestoreMarker(s) == s
    decreases |s|
  {
    if s != [] {
      if |s| >= |Marker| {
        assert Lower(s[3]) == s[3];
        assert Marker[3] == 'D';
      }
      RestoreIdentity(s[1..]);
    }
  }

  lemma {:induction false} RestoreOne(a: string, d: string)
    requires IsLowered(a) && AllDigits(d)
    ensures RestoreMarker(a + Marker + d) == a + "." + d
    decreases |a|
  {
    if a == [] {
      assert a + Marker + d == Marker + d;
      RestoreAtMarker(d);
    } else {
      var s := a + Marker + d;
      MarkerNotAtLowered(a, d);
      assert s[1..] == a[1..] + Marker + d;
      LoweredSlice(a, 1, |a|);
      RestoreOne(a[1..], d);
      assert a + "." + d == [a[0]] + (a[1..] + "." + d);
    }
  }

  lemma RestoreAtMarker(d: string)
    requires AllDigits(d)
    ensures RestoreMarker(Marker + d) == "." + d
  {
    var s := Marker + d;
    assert StartsWith(s, Marker);
    assert s[|Marker|..] == d;
    assert IsLowered(d) by {
      forall j | 0 <= j < |d| ensures Lower(d[j]) == d[j] {
        LowerFacts(d[j]);
      }
    }
    RestoreIdentity(d);
  }

  /** The marker cannot start inside lower-cased text placed before it. */
  lemma MarkerNotAtLowered(a: string, d: string)
    requires IsLowered(a) && a != []
    ensures !StartsWith(a + Marker + d, Marker)
  {
    var s := a + Marker + d;
    assert Marker[3] == 'D';
    if |a| > 3 {
      assert s[3] == a[3];
      assert Lower(a[3]) == a[3];
    } else {
      assert s[3] == Marker[3 - |a|];
      assert Marker[0] == Marker[1] == Marker[2] == '#';
    }
  }

  /** `normalizeAnswer` (content.js:335-353): falsy input gives `''`;
      otherwise trim, lower-case, protect a final decimal, drop separators,
      restore the decimal point. */
  function NormalizeAnswer(s: string): string {
    if s == [] then []
    else RestoreMarker(StripSeparators(Protect(LowerStr(Trim(s)))))
  }

  /** What `normalizeAnswer` computes, stated without the placeholder: the
      trimmed, lower-cased text with its separators dropped, except that a
      final `.` followed by one or two digits survives. */
  function CanonicalAnswer(s: string): string {
    SeparatorStage(LowerStr(Trim(s)))
  }

  /** The separator stage on trimmed, lower-cased text `t`. */
  function SeparatorStage(t: string): string {
    match DecimalDot(t)
    case Some(p) => StripSeparators(t[..p]) + "." + t[p + 1..]
    case None => StripSeparators(t)
  }

  /** Placeholder and digits survive separator stripping, and the placeholder
      then turns back into the one decimal point. */
  lemma ProtectedRestores(a: string, d: string)
    requires IsLowered(a) && AllDigits(d)
    ensures RestoreMarker(StripSeparators(a + Marker + d)) == StripSeparators(a) + "." + d
  {
    StripProtected(a, d);
    StripLowered(a);
    RestoreOne(StripSeparators(a), d);
  }

  lemma StripProtected(a: string, d: string)
    requires AllDigits(d)
    ensures StripSeparators(a + Marker + d) == StripSeparators(a) + Marker + d
  {
    assert NoSeparator(Marker);
    assert NoSeparator(d);
    StripKeeps(a, Marker, d);
  }

  /** Separator-free pieces pass through `replace(/[\s,.]/g, '')` intact. */
  lemma StripKeeps(a: string, m: string, d: string)
    requires NoSeparator(m) && NoSeparator(d)
    ensures StripSeparators(a + m + d) == StripSeparators(a) + m + d
  {
    calc {
      StripSeparators(a + m + d);
      { assert a + m + d == a + (m + d); }
      StripSeparators(a + (m + d));
      { StripConcat(a, m + d); }
      StripSeparators(a) + StripSeparators(m + d);
      { StripConcat(m, d); StripIdentity(m); StripIdentity(d); }
      StripSeparators(a) + (m + d);
      StripSeparators(a) + m + d;
    }
  }

  lemma UnprotectedRestores(t: string)
    requires IsLowered(t)
    ensures RestoreMarker(StripSeparators(t)) == StripSeparators(t)
  {
    StripLowered(t);
    RestoreIdentity(StripSeparators(t));
  }

  lemma NormalizeAnswerIsCanonical(s: string)
    ensures NormalizeAnswer(s) == CanonicalAnswer(s)
  {
    if s != [] {
      var t := LowerStr(Trim(s));
      match DecimalDot(t)
      case Some(p) =>
        LoweredSlice(t, 0, p);
        ProtectedRestores(t[..p], t[p + 1..]);
      case None =>
        UnprotectedRestores(t);
    }
  }

  /** The only `.` that can survive normalisation: one followed by one or two
      digits that end the string. */
  predicate OnlyDecimalDot(r: string) {
    forall i :: 0 <= i < |r| && r[i] == '.' ==> DecimalAt(r, i)
  }

  /** What `normalizeAnswer`'s output looks like: lower-case, no whitespace,
      no commas, and its only `.` a decimal point before one or two final
      digits. */
  predicate AnswerShape(r: string) {
    && IsLowered(r)
    && (forall i :: 0 <= i < |r| ==> !IsSpace(r[i]) && r[i] != ',')
    && OnlyDecimalDot(r)
  }

  lemma PlainShape(b: string)
    requires IsLowered(b) && NoSeparator(b)
    ensures AnswerShape(b)
  {
  }

  lemma DecimalShape(b: string, d: string)
    requires IsLowered(b) && NoSeparator(b) && AllDigits(d) && 1 <= |d| <= 2
    ensures AnswerShape(b + "." + d)
  {
    var r := b + "." + d;
    forall i | 0 <= i < |r|
      ensures !IsSpace(r[i]) && r[i] != ',' && Lower(r[i]) == r[i]
      ensures r[i] == '.' ==> DecimalAt(r, i)
    {
      if i < |b| {
        assert r[i] == b[i];
      } else if i > |b| {
        assert r[i] == d[i - |b| - 1];
        LowerFacts(r[i]);
      } else {
        assert r[i + 1..] == d;
      }
    }
  }

  /** The output of `normalizeAnswer` always has `AnswerShape`; falsy input
      gives `''`. */
  lemma NormalizeAnswerShape(s: string)
    ensures s == [] ==> NormalizeAnswer(s) == []
    ensures AnswerShape(NormalizeAnswer(s))
  {
    NormalizeAnswerIsCanonical(s);
    var t := LowerStr(Trim(s));
    match DecimalDot(t)
    case Some(p) =>
      LoweredSlice(t, 0, p);
      StripLowered(t[..p]);
      DecimalShape(StripSeparators(t[..p]), t[p + 1..]);
    case None =>
      StripLowered(t);
      PlainShape(StripSeparators(t));
  }

  /** A string with no whitespace, no comma and only a decimal `.` comes out
      of the separator-stripping stage of `CanonicalAnswer` unchanged. */
  lemma StrippedFixed(r: string)
    requires forall i :: 0 <= i < |r| ==> !IsSpace(r[i]) && r[i] != ','
    requires OnlyDecimalDot(r)
    ensures DecimalDot(r).Some? ==>
      var p := DecimalDot(r).value; StripSeparators(r[..p]) + "." + r[p + 1..] == r
    ensures DecimalDot(r).None? ==> StripSeparators(r) == r
  {
    match DecimalDot(r)
    case Some(p) =>
      assert NoSeparator(r[..p]) by {
        forall q | 0 <= q < p ensures !IsSeparator(r[..p][q]) {
          assert r[..p][q] == r[q];
        }
      }
      StripIdentity(r[..p]);
      SplitAround(r, p);
      assert [r[p]] == ".";
    case None =>
      assert NoSeparator(r) by {
        forall q | 0 <= q < |r| ensures !IsSeparator(r[q]) {
          assert r[q] == '.' ==> DecimalAt(r, q);
        }
      }
      StripIdentity(r);
  }

  /** A string that already has `AnswerShape` is left as it is. */
  lemma ShapeFixed(r: string)
    requires AnswerShape(r)
    ensures NormalizeAnswer(r) == r
  {
    if r != [] {
      NormalizeAnswerIsCanonical(r);
      TrimNoSpace(r);
      assert LowerStr(Trim(r)) == r;
      StrippedFixed(r);
    }
  }

  /** `normalizeAnswer` is idempotent. */
  lemma NormalizeAnswerIdempotent(s: string)
    ensures NormalizeAnswer(NormalizeAnswer(s)) == NormalizeAnswer(s)
  {
    NormalizeAnswerShape(s);
    ShapeFixed(NormalizeAnswer(s));
  }

  /** Digits with spaces and commas between them, starting with a digit:
      how a number with digit groups is written. */
  predicate GroupedDigits(a: string) {
    && a != [] && IsDigit(a[0])
    && forall i :: 0 <= i < |a| ==> IsDigit(a[i]) || a[i] == ',' || a[i] == ' '
  }

  /** Text of digits, spaces, commas and dots, starting and ending with a
      digit, is left alone by `trim` and `toLowerCase`. */
  lemma NumberTextClean(r: string)
    requires r != [] && IsDigit(r[0]) && IsDigit(r[|r| - 1])
    requires forall i :: 0 <= i < |r| ==> IsDigit(r[i]) || r[i] == ',' || r[i] == ' ' || r[i] == '.'
    ensures LowerStr(Trim(r)) == r
  {
    forall i | 0 <= i < |r| ensures Lower(r[i]) == r[i] {
      LowerFacts(r[i]);
    }
    TrimClean(r);

  }

  /** A decimal point before one or two final digits survives, and the group
      separators before it go: `"1,234.50"` becomes `"1234.50"`. */
  lemma DecimalPointKept(a: string, d: string)
    requires GroupedDigits(a) && AllDigits(d) && 1 <= |d| <= 2
    ensures NormalizeAnswer(a + "." + d) == StripSeparators(a) + "." + d
  {
    var r := a + "." + d;
    assert NormalizeAnswer(r) == CanonicalAnswer(r) by {
      NormalizeAnswerIsCanonical(r);
    }
    assert CanonicalAnswer(r) == SeparatorStage(r) by {
      PointTextClean(a, d);
    }
    PointStage(a, d);
  }

  lemma PointTextClean(a: string, d: string)
    requires GroupedDigits(a) && AllDigits(d) && 1 <= |d| <= 2
    ensures LowerStr(Trim(a + "." + d)) == a + "." + d
  {
    var r := a + "." + d;
    assert r[0] == a[0] && r[|r| - 1] == d[|d| - 1];
    forall i | 0 <= i < |r| ensures IsDigit(r[i]) || r[i] == ',' || r[i] == ' ' || r[i] == '.' {
      if i < |a| { assert r[i] == a[i]; }
      else if i > |a| { assert r[i] == d[i - |a| - 1]; }
    }
    NumberTextClean(r);
  }

  lemma CommaTextClean(a: string, d: string)
    requires GroupedDigits(a) && AllDigits(d) && 1 <= |d| <= 2
    ensures LowerStr(Trim(a + "," + d)) == a + "," + d
  {
    var r := a + "," + d;
    assert r[0] == a[0] && r[|r| - 1] == d[|d| - 1];
    forall i | 0 <= i < |r| ensures IsDigit(r[i]) || r[i] == ',' || r[i] == ' ' || r[i] == '.' {
      if i < |a| { assert r[i] == a[i]; }
      else if i > |a| { assert r[i] == d[i - |a| - 1]; }
    }
    NumberTextClean(r);
  }

  lemma PointStage(a: string, d: string)
    requires GroupedDigits(a) && AllDigits(d) && 1 <= |d| <= 2
    ensures SeparatorStage(a + "." + d) == StripSeparators(a) + "." + d
  {
    var r := a + "." + d;
    PointDecimalDot(a, d);
    assert r[..|a|] == a && r[|a| + 1..] == d;
  }

  lemma PointDecimalDot(a: string, d: string)
    requires a != [] && AllDigits(d) && 1 <= |d| <= 2
    ensures DecimalDot(a + "." + d) == Some(|a|)
  {
    var r := a + "." + d;
    assert r[|a|] == '.';
    if |d| == 1 {
      assert r[|r| - 1] == d[0];
    } else {
      assert r[|r| - 1] == d[1] && r[|r| - 2] == d[0];
    }
  }

  /** A decimal comma is not protected: it is dropped with the other
      separators, so `"1 234,50"` becomes `"123450"`, not `"1234.50"`. */
  lemma DecimalCommaDropped(a: string, d: string)
    requires GroupedDigits(a) && AllDigits(d) && 1 <= |d| <= 2
    ensures NormalizeAnswer(a + "," + d) == StripSeparators(a) + d
  {
    var r := a + "," + d;
    assert NormalizeAnswer(r) == CanonicalAnswer(r) by {
      NormalizeAnswerIsCanonical(r);
    }
    assert CanonicalAnswer(r) == SeparatorStage(r) by {
      CommaTextClean(a, d);
    }
    CommaStage(a, d);
  }

  lemma CommaStage(a: string, d: string)
    requires GroupedDigits(a) && AllDigits(d) && 1 <= |d| <= 2
    ensures SeparatorStage(a + "," + d) == StripSeparators(a) + d
  {
    var r := a + "," + d;
    assert DecimalDot(r) == None by {
      forall i | 0 <= i < |r| ensures r[i] != '.' {
        if i < |a| { assert r[i] == a[i]; }
        else if i > |a| { assert r[i] == d[i - |a| - 1]; }
      }
      NoDotNoDecimal(r);
    }
    assert StripSeparators(r) == StripSeparators(a) + StripSeparators(d) by {
      StripDrop(a, ',', d);
    }
    DigitsStripFixed(d);
  }

  lemma DigitsStripFixed(d: string)
    requires AllDigits(d)
    ensures StripSeparators(d) == d
  {
    assert NoSeparator(d);
    StripIdentity(d);
  }

  lemma StripExamples()
    ensures StripSeparators("1,234") == "1234"
    ensures StripSeparators("1 234") == "1234"
  {
    var x, y := "1", "234";
    assert AllDigits(x) && AllDigits(y);
    DigitsStripFixed(x);
    DigitsStripFixed(y);
    StripDrop(x, ',', y);
    StripDrop(x, ' ', y);
    assert x + [','] + y == "1,234" && x + [' '] + y == "1 234" && x + y == "1234";
  }

  /** `"1,234.50"` normalises to `"1234.50"`. */
  lemma ExampleDot()
    ensures NormalizeAnswer("1,234.50") == "1234.50"
  {
    var a, d := "1,234", "50";
    assert a + "." + d == "1,234.50";
    assert "1234" + "." + d == "1234.50";
    ExampleDotParts(a, d);
  }

  lemma ExampleDotParts(a: string, d: string)
    requires a == "1,234" && d == "50"
    ensures NormalizeAnswer(a + "." + d) == "1234" + "." + d
  {
    assert NormalizeAnswer(a + "." + d) == StripSeparators(a) + "." + d by {
      assert GroupedDigits(a) && AllDigits(d);
      DecimalPointKept(a, d);
    }
    StripExamples();
  }

  /** `"1 234,50"` normalises to `"123450"`, so it does not compare equal to
      `"1,234.50"`. */
  lemma ExampleComma()
    ensures NormalizeAnswer("1 234,50") == "123450"
  {
    var a, d := "1 234", "50";
    assert a + "," + d == "1 234,50";
    assert GroupedDigits(a) && AllDigits(d);
    StripExamples();
    DecimalCommaDropped(a, d);
  }

  lemma NoDotNoDecimal(r: string)
    requires forall i :: 0 <= i < |r| ==> r[i] != '.'
    ensures DecimalDot(r) == None
  {
  }

  /** One separator between two pieces just disappears. */
  lemma StripDrop(a: string, c: char, d: string)
    requires IsSeparator(c)
    ensures StripSeparators(a + [c] + d) == StripSeparators(a) + StripSeparators(d)
  {
    assert a + [c] + d == a + ([c] + d);
    StripConcat(a, [c] + d);
    assert ([c] + d)[1..] == d;
  }
}
