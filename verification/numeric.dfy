/** The cleaning `enterNumericAnswer` applies to an oracle reply before typing
    it into the calculator field (content.js:939-947): drop reasoning blocks,
    trim, join digit groups, drop thousands dots, then keep the first signed
    number. */
module Numeric {
  import opened Wrappers
  import opened Text

  // ---------------------------------------------------------------------------
  // replace(/<think>[\s\S]*?<\/think>/g, '')
  // ---------------------------------------------------------------------------

  const Open: string := "<think>"
  const Close: string := "</think>"

  /** The leftmost occurrence of `n` in `s` at or after position `k`. */
  function FindFrom(s: string, n: string, k: nat): (r: Option<nat>)
    ensures r.Some? ==> k <= r.value && OccursAt(s, n, r.value)
    decreases |s| - k
  {
    if k + |n| > |s| then None
    else if OccursAt(s, n, k) then Some(k)
    else FindFrom(s, n, k + 1)
  }

  /** The occurrence found is the leftmost one, and none is missed. */
  lemma {:induction false} FindFromLeftmost(s: string, n: string, k: nat)
    ensures FindFrom(s, n, k).Some? ==> forall q :: k <= q < FindFrom(s, n, k).value ==> !OccursAt(s, n, q)
    ensures FindFrom(s, n, k).None? ==> forall q :: k <= q ==> !OccursAt(s, n, q)
    decreases |s| - k
  {
    if k + |n| <= |s| && !OccursAt(s, n, k) {
      FindFromLeftmost(s, n, k + 1);
    }
  }

  /** An occurrence at `j` with none between `k` and `j` is what is found. */
  lemma {:induction false} FindFromAt(s: string, n: string, k: nat, j: nat)
    requires k <= j && OccursAt(s, n, j)
    requires forall q :: k <= q < j ==> !OccursAt(s, n, q)
    ensures FindFrom(s, n, k) == Some(j)
    decreases j - k
  {
    if k < j {
      FindFromAt(s, n, k + 1, j);
    }
  }

  /** The end of the reasoning block opening at the start of `s`: the position
      just past the first `</think>` after the opener, if there is one. */
  function BlockEnd(s: string): (r: Option<nat>)
    ensures r.Some? ==> |Open| + |Close| <= r.value <= |s|
  {
    if s == [] || s[0] != '<' || !StartsWith(s, Open) then None
    else match FindFrom(s, Close, |Open|)
      case Some(j) => Some(j + |Close|)
      case None => None
  }

  /** The global, lazy block removal: scanning left to right, an opener with
      a later closer is removed together with everything up to the first such
      closer; an opener without one is ordinary text. */
  function StripThink(s: string): (r: string)
    ensures |r| <= |s|
    decreases |s|
  {
    if s == [] then []
    else match BlockEnd(s)
      case Some(e) => StripThink(s[e..])
      case None => [s[0]] + StripThink(s[1..])
  }

  /** Text with no opener passes through unchanged. */
  lemma StripThinkIdentity(s: string)
    requires NoChar(s, '<')
    ensures StripThink(s) == s
  {
    StripThinkPrefix(s, []);
    assert s + [] == s;
  }

  /** A closed block is removed, and scanning resumes right after it. */
  lemma StripThinkBlock(a: string, b: string, c: string)
    requires NoChar(a, '<') && NoChar(b, '<')
    ensures StripThink(a + Open + b + Close + c) == a + StripThink(c)
  {
    var x := Open + b + Close + c;
    assert a + Open + b + Close + c == a + x;
    StripThinkPrefix(a, x);
    BlockAtStart(b, c);
  }

  /** Text without `<` in front of the rest is copied as it is. */
  lemma {:induction false} StripThinkPrefix(a: string, x: string)
    requires NoChar(a, '<')
    ensures StripThink(a + x) == a + StripThink(x)
    decreases |a|
  {
    if a == [] {
      assert a + x == x;
    } else {
      assert StripThink(a + x) == [a[0]] + StripThink(a[1..] + x) by {
        StripThinkStep(a + x);
        assert (a + x)[1..] == a[1..] + x;
      }
      StripThinkPrefix(a[1..], x);
      assert a + StripThink(x) == [a[0]] + (a[1..] + StripThink(x));
    }
  }

  /** A character other than `<` is ordinary text. */
  lemma StripThinkStep(s: string)
    requires s != [] && s[0] != '<'
    ensures StripThink(s) == [s[0]] + StripThink(s[1..])
  {
    assert !StartsWith(s, Open) by {
      assert Open[0] == '<';
    }
  }

  lemma BlockAtStart(b: string, c: string)
    requires NoChar(b, '<')
    ensures BlockEnd(Open + b + Close + c) == Some(|Open| + |b| + |Close|)
    ensures (Open + b + Close + c)[|Open| + |b| + |Close|..] == c
  {
    var s := Open + b + Close + c;
    var j := |Open| + |b|;
    assert StartsWith(s, Open) by {
      assert s[..|Open|] == Open;
    }
    assert OccursAt(s, Close, j) by {
      assert s[j..j + |Close|] == Close;
    }
    forall q | |Open| <= q < j ensures !OccursAt(s, Close, q) {
      assert s[q] == b[q - |Open|];
      assert Close[0] == '<';
    }
    FindFromAt(s, Close, |Open|, j);
    assert s[j + |Close|..] == c;
  }

  // ---------------------------------------------------------------------------
  // replace(/(\d)[\s,](?=\d)/g, '$1')
  // ---------------------------------------------------------------------------

  /** The characters `[\s,]` matches. */
  predicate IsGroupSep(c: char) {
    IsSpace(c) || c == ','
  }

  /** A digit, a group separator and a digit start at position `i`. */
  predicate GroupTriple(s: string, i: int) {
    0 <= i && i + 2 < |s| && IsDigit(s[i]) && IsGroupSep(s[i + 1]) && IsDigit(s[i + 2])
  }

  /** The global replacement: a match keeps the digit and drops the separator;
      the digit after it is only looked at, so the scan resumes on it. */
  function JoinGroups(s: string): (r: string)
    ensures |r| <= |s|
    ensures s != [] ==> r != [] && r[0] == s[0]
    decreases |s|
  {
    if s == [] then []
    else if GroupTriple(s, 0) then [s[0]] + JoinGroups(s[2..])
    else [s[0]] + JoinGroups(s[1..])
  }

  /** `s` without the characters `drop` selects, in order. */
  function Keep(s: string, drop: char -> bool): (r: string)
    ensures |r| <= |s|
    ensures forall i :: 0 <= i < |r| ==> !drop(r[i])
  {
    if s == [] then []
    else (if drop(s[0]) then [] else [s[0]]) + Keep(s[1..], drop)
  }

  /** Only group separators are removed: all other characters survive, in
      order. */
  lemma {:induction false} JoinGroupsKeeps(s: string)
    ensures Keep(JoinGroups(s), IsGroupSep) == Keep(s, IsGroupSep)
    decreases |s|
  {
    if s != [] {
      if GroupTriple(s, 0) {
        JoinGroupsKeeps(s[2..]);
        assert s[1..][1..] == s[2..];
      } else {
        JoinGroupsKeeps(s[1..]);
      }
    }
  }

  lemma {:induction false} JoinGroupsIdentity(s: string)
    requires forall i :: !GroupTriple(s, i)
    ensures JoinGroups(s) == s
    decreases |s|
  {
    if s != [] {
      forall i ensures !GroupTriple(s[1..], i) {
        assert GroupTriple(s[1..], i) ==> GroupTriple(s, i + 1);
      }
      JoinGroupsIdentity(s[1..]);
    }
  }

  lemma {:induction false} JoinGroupsShrinks(s: string, i: int)
    requires GroupTriple(s, i)
    ensures |JoinGroups(s)| < |s|
    decreases |s|
  {
    if !GroupTriple(s, 0) {
      assert GroupTriple(s[1..], i - 1);
      JoinGroupsShrinks(s[1..], i - 1);
    }
  }

  /** The replacement changes the text exactly when some separator sits
      between two digits. */
  lemma JoinGroupsChanges(s: string)
    ensures JoinGroups(s) == s <==> forall i :: !GroupTriple(s, i)
  {
    if forall i :: !GroupTriple(s, i) {
      JoinGroupsIdentity(s);
    } else {
      var i :| GroupTriple(s, i);
      JoinGroupsShrinks(s, i);
    }
  }

  /** No separator between two digits is left over: the scan never skips a
      position where a match starts. */
  lemma {:induction false} JoinGroupsComplete(s: string)
    ensures forall i :: !GroupTriple(JoinGroups(s), i)
    decreases |s|
  {
    if s != [] {
      var r := JoinGroups(s);
      if GroupTriple(s, 0) {
        var t := JoinGroups(s[2..]);
        JoinGroupsComplete(s[2..]);
        assert r == [s[0]] + t;
        forall i ensures !GroupTriple(r, i) {
          if i == 0 {
            assert r[1] == s[2];
          } else {
            assert GroupTriple(r, i) ==> GroupTriple(t, i - 1);
          }
        }
      } else {
        var t := JoinGroups(s[1..]);
        JoinGroupsComplete(s[1..]);
        assert r == [s[0]] + t;
        forall i ensures !GroupTriple(r, i) {
          if i == 0 && |s| >= 3 && IsGroupSep(s[1]) {
            assert JoinGroups(s[1..]) == [s[1]] + JoinGroups(s[2..]) by {
              assert s[1..][1..] == s[2..];
            }
            assert r[1] == s[1] && r[2] == s[2];
          } else if i == 0 && |s| >= 2 {
            assert r[1] == s[1];
          } else {
            assert GroupTriple(r, i) ==> GroupTriple(t, i - 1);
          }
        }
      }
    }
  }

  /** Joining digit groups twice is joining them once. */
  lemma JoinGroupsIdempotent(s: string)
    ensures JoinGroups(JoinGroups(s)) == JoinGroups(s)
  {
    JoinGroupsComplete(s);
    JoinGroupsIdentity(JoinGroups(s));
  }

  // ---------------------------------------------------------------------------
  // replace(/(\d)\.(?=\d{3})/g, '$1')
  // ---------------------------------------------------------------------------

  /** A digit, a dot and (at least) three digits start at position `i`. */
  predicate ThousandsDot(s: string, i: int) {
    && 0 <= i && i + 4 < |s|
    && IsDigit(s[i]) && s[i + 1] == '.'
    && IsDigit(s[i + 2]) && IsDigit(s[i + 3]) && IsDigit(s[i + 4])
  }

  function DropThousandsDots(s: string): (r: string)
    ensures |r| <= |s|
    decreases |s|
  {
    if s == [] then []
    else if ThousandsDot(s, 0) then [s[0]] + DropThousandsDots(s[2..])
    else [s[0]] + DropThousandsDots(s[1..])
  }

  predicate IsDot(c: char) {
    c == '.'
  }

  /** Only dots are removed: every other character survives, in order. */
  lemma {:induction false} DropThousandsDotsKeeps(s: string)
    ensures Keep(DropThousandsDots(s), IsDot) == Keep(s, IsDot)
    decreases |s|
  {
    if s != [] {
      if ThousandsDot(s, 0) {
        DropThousandsDotsKeeps(s[2..]);
        assert s[1..][1..] == s[2..];
      } else {
        DropThousandsDotsKeeps(s[1..]);
      }
    }
  }

  lemma {:induction false} DropThousandsDotsIdentity(s: string)
    requires forall i :: !ThousandsDot(s, i)
    ensures DropThousandsDots(s) == s
    decreases |s|
  {
    if s != [] {
      forall i ensures !ThousandsDot(s[1..], i) {
        assert ThousandsDot(s[1..], i) ==> ThousandsDot(s, i + 1);
      }
      DropThousandsDotsIdentity(s[1..]);
    }
  }

  lemma {:induction false} DropThousandsDotsShrinks(s: string, i: int)
    requires ThousandsDot(s, i)
    ensures |DropThousandsDots(s)| < |s|
    decreases |s|
  {
    if !ThousandsDot(s, 0) {
      assert ThousandsDot(s[1..], i - 1);
      DropThousandsDotsShrinks(s[1..], i - 1);
    }
  }

  /** The replacement changes the text exactly when some dot sits between a
      digit and three more digits; a dot before one or two digits stays. */
  lemma DropThousandsDotsChanges(s: string)
    ensures DropThousandsDots(s) == s <==> forall i :: !ThousandsDot(s, i)
  {
    if forall i :: !ThousandsDot(s, i) {
      DropThousandsDotsIdentity(s);
    } else {
      var i :| ThousandsDot(s, i);
      DropThousandsDotsShrinks(s, i);
    }
  }

  // ---------------------------------------------------------------------------
  // match(/(-?\d+\.?\d*)/)
  // ---------------------------------------------------------------------------

  /** The pattern has a match starting at position `i`. */
  predicate NumberStart(s: string, i: int) {
    0 <= i < |s| && (IsDigit(s[i]) || (s[i] == '-' && i + 1 < |s| && IsDigit(s[i + 1])))
  }

  /** The length of the digit run starting at `k` (greedy `\d*`). */
  function DigitRun(s: string, k: nat): (n: nat)
    requires k <= |s|
    ensures k + n <= |s|
    ensures forall j :: k <= j < k + n ==> IsDigit(s[j])
    ensures k + n == |s| || !IsDigit(s[k + n])
    decreases |s| - k
  {
    if k < |s| && IsDigit(s[k]) then 1 + DigitRun(s, k + 1) else 0
  }

  /** Text of the form `-?\d+\.?\d*`: an optional minus, a digit, and then
      digits with at most one dot, since only digits may follow a dot. */
  predicate IsNumberToken(t: string) {
    var u := if t != [] && t[0] == '-' then t[1..] else t;
    && u != [] && IsDigit(u[0])
    && forall j :: 0 <= j < |u| ==> IsDigit(u[j]) || (u[j] == '.' && AllDigits(u[j + 1..]))
  }

  /** The match starting at `i`: every quantifier is greedy and nothing
      follows, so each part takes as much as it can. */
  function NumberAt(s: string, i: nat): (t: string)
    requires NumberStart(s, i)
    ensures i + |t| <= |s| && t == s[i..i + |t|]
    ensures IsNumberToken(t)
  {
    NumberTokenAt(s, i);
    s[i..NumberEnd(s, i)]
  }

  /** Where the match starting at `i` ends. */
  function NumberEnd(s: string, i: nat): (e: nat)
    requires NumberStart(s, i)
    ensures i < e <= |s|
  {
    var a := if s[i] == '-' then i + 1 else i;
    FractionEnd(s, a + DigitRun(s, a))
  }

  lemma NumberTokenAt(s: string, i: nat)
    requires NumberStart(s, i)
    ensures IsNumberToken(s[i..NumberEnd(s, i)])
    ensures var e := NumberEnd(s, i);
      e == |s| || (!IsDigit(s[e]) && (s[e] == '.' ==> !NoChar(s[i..e], '.')))
  {
    var a := if s[i] == '-' then i + 1 else i;
    var b := a + DigitRun(s, a);
    var e := FractionEnd(s, b);
    assert e == NumberEnd(s, i);
    assert b > a by {
      assert IsDigit(s[a]);
    }
    assert forall j :: a <= j < b ==> IsDigit(s[j]);
    assert b == |s| || !IsDigit(s[b]);
    if e == b {
      TokenOf(s, i, a, b, e);
    } else {
      assert s[b] == '.' && forall j :: b < j < e ==> IsDigit(s[j]);
      assert e == |s| || !IsDigit(s[e]);
      TokenOf(s, i, a, b, e);
    }
  }

  /** The match cannot be extended: no digit follows it, and a dot follows it
      only when it already holds one. */
  lemma NumberAtMaximal(s: string, i: nat)
    requires NumberStart(s, i)
    ensures var e := i + |NumberAt(s, i)|;
      e == |s| || (!IsDigit(s[e]) && (s[e] == '.' ==> !NoChar(NumberAt(s, i), '.')))
  {
    NumberTokenAt(s, i);
  }

  /** Where the optional `\.?\d*` part after the integer digits ending at `b`
      stops: a dot is taken, with the digits after it, whenever one is there. */
  function FractionEnd(s: string, b: nat): (e: nat)
    requires b <= |s|
    ensures b <= e <= |s|
    ensures e == b ==> b == |s| || s[b] != '.'
    ensures e > b ==> s[b] == '.' && (forall j :: b < j < e ==> IsDigit(s[j])) && (e == |s| || !IsDigit(s[e]))
  {
    if b < |s| && s[b] == '.' then b + 1 + DigitRun(s, b + 1) else b
  }

  /** A digit run from `a` to `b`, optionally a dot and a second digit run up
      to `e`, with an optional minus sign at `i` in front, is a number token;
      the dot, when taken, is inside it. */
  lemma TokenOf(s: string, i: nat, a: nat, b: nat, e: nat)
    requires i <= a < b <= e <= |s| && (a == i || (a == i + 1 && s[i] == '-'))
    requires forall j :: a <= j < b ==> IsDigit(s[j])
    requires e == b || (s[b] == '.' && forall j :: b < j < e ==> IsDigit(s[j]))
    requires b == |s| || !IsDigit(s[b])
    requires e == b ==> b == |s| || s[b] != '.'
    requires e > b ==> e == |s| || !IsDigit(s[e])
    ensures IsNumberToken(s[i..e])
    ensures e == |s| || (!IsDigit(s[e]) && (s[e] == '.' ==> !NoChar(s[i..e], '.')))
  {
    var t := s[i..e];
    var u := s[a..e];
    assert u == (if t != [] && t[0] == '-' then t[1..] else t) by {
      if a == i + 1 {
        assert t[1..] == u;
      } else {
        assert t[0] == s[a];
      }
    }
    forall j | 0 <= j < |u| ensures IsDigit(u[j]) || (u[j] == '.' && AllDigits(u[j + 1..])) {
      assert u[j] == s[a + j];
      if a + j == b {
        var v := u[j + 1..];
        forall k | 0 <= k < |v| ensures IsDigit(v[k]) {
          assert v[k] == s[b + 1 + k];
        }
      }
    }
    if e > b {
      assert t[b - i] == s[b];
    }
  }

  /** The leftmost position at or after `k` where a match starts. */
  function FirstNumberStart(s: string, k: nat): (r: Option<nat>)
    ensures r.Some? ==> k <= r.value && NumberStart(s, r.value)
    ensures r.Some? ==> forall q :: k <= q < r.value ==> !NumberStart(s, q)
    ensures r.None? ==> forall q :: k <= q ==> !NumberStart(s, q)
    decreases |s| - k
  {
    if k >= |s| then None
    else if NumberStart(s, k) then Some(k)
    else FirstNumberStart(s, k + 1)
  }

  /** `match(/(-?\d+\.?\d*)/)`, giving the captured text when there is a match. */
  function FirstNumber(s: string): (r: Option<string>)
  {
    match FirstNumberStart(s, 0)
    case Some(i) => Some(NumberAt(s, i))
    case None => None
  }

  /** There is a number in the text exactly when there is a digit, and then
      the number is the leftmost match, well formed and maximal. */
  lemma FirstNumberSpec(s: string)
    ensures FirstNumber(s).None? <==> !HasDigit(s)
    ensures FirstNumber(s).Some? ==> exists i :: (0 <= i < |s| && NumberStart(s, i)
      && FirstNumber(s).value == NumberAt(s, i) && forall q :: 0 <= q < i ==> !NumberStart(s, q))
  {
    if HasDigit(s) {
      var j :| 0 <= j < |s| && IsDigit(s[j]);
      assert NumberStart(s, j);
    }
    match FirstNumberStart(s, 0)
    case Some(i) =>
      assert IsDigit(s[i]) || IsDigit(s[i + 1]);
    case None =>
  }

  // ---------------------------------------------------------------------------
  // The whole cleaner
  // ---------------------------------------------------------------------------

  /** The text left after the replacements, before the number is picked. */
  function CleanedText(answer: string): string {
    DropThousandsDots(JoinGroups(Trim(StripThink(answer))))
  }

  /** What `enterNumericAnswer` types: the first number in the cleaned text,
      or the whole cleaned text when it holds no digit. */
  function CleanNumeric(answer: string): (r: string)
    ensures HasDigit(CleanedText(answer)) ==> IsNumberToken(r) && Contains(CleanedText(answer), r)
    ensures !HasDigit(CleanedText(answer)) ==> r == CleanedText(answer)
  {
    var c := CleanedText(answer);
    FirstNumberFound(c);
    FirstNumber(c).GetOr(c)
  }

  /** A match, when there is one, is a number token occurring in the text. */
  lemma FirstNumberFound(s: string)
    ensures FirstNumber(s).None? <==> !HasDigit(s)
    ensures FirstNumber(s).Some? ==> IsNumberToken(FirstNumber(s).value) && Contains(s, FirstNumber(s).value)
  {
    FirstNumberSpec(s);
    match FirstNumberStart(s, 0)
    case Some(i) =>
      assert OccursAt(s, NumberAt(s, i), i);
    case None =>
  }

  // ---------------------------------------------------------------------------
  // Worked examples
  // ---------------------------------------------------------------------------

  /** Text without digits passes through the group joiner unchanged. */
  lemma {:induction false} JoinGroupsNoDigitPrefix(a: string, t: string)
    requires !HasDigit(a)
    ensures JoinGroups(a + t) == a + JoinGroups(t)
    decreases |a|
  {
    if a != [] {
      assert !IsDigit(a[0]);
      assert (a + t)[0] == a[0] && (a + t)[1..] == a[1..] + t;
      assert !HasDigit(a[1..]) by {
        forall i | 0 <= i < |a| - 1 ensures !IsDigit(a[1..][i]) {
          assert a[1..][i] == a[i + 1];
        }
      }
      JoinGroupsNoDigitPrefix(a[1..], t);
    } else {
      assert a + t == t;
    }
  }

  /** A group of digits, one separator and a following digit: the separator
      goes, the group stays. */
  lemma {:induction false} JoinGroupsGroup(d: string, c: char, t: string)
    requires d != [] && AllDigits(d) && IsGroupSep(c) && t != [] && IsDigit(t[0])
    ensures JoinGroups(d + [c] + t) == d + JoinGroups(t)
    decreases |d|
  {
    var s := d + [c] + t;
    if |d| == 1 {
      assert GroupTriple(s, 0);
      assert s[2..] == t;
    } else {
      assert !GroupTriple(s, 0);
      assert s[1..] == d[1..] + [c] + t;
      JoinGroupsGroup(d[1..], c, t);
    }
  }

  /** Digits with a dot in front of three or more digits lose the dot. */
  lemma {:induction false} DropThousandsDotsGroup(d: string, e: string)
    requires d != [] && AllDigits(d) && |e| >= 3 && AllDigits(e)
    ensures DropThousandsDots(d + "." + e) == d + e
    decreases |d|
  {
    var s := d + "." + e;
    if |d| == 1 {
      assert ThousandsDot(s, 0);
      assert s[2..] == e;
      DropThousandsDotsIdentity(e);
    } else {
      assert !ThousandsDot(s, 0);
      assert s[1..] == d[1..] + "." + e;
      DropThousandsDotsGroup(d[1..], e);
    }
  }

  /** With no digit and no minus sign in front, the number found is the first
      maximal digit run (with its decimal part) after the prefix. */
  lemma FirstNumberAfter(a: string, t: string)
    requires !HasDigit(a) && NoChar(a, '-') && t != [] && IsDigit(t[0])
    ensures FirstNumber(a + t) == Some(NumberAt(t, 0))
  {
    var s := a + t;
    forall q | 0 <= q < |a| ensures !NumberStart(s, q) {
      assert s[q] == a[q];
    }
    assert s[|a|] == t[0];
    FirstNumberStartFrom(s, 0, |a|);
    NumberEndShift(a, t);
    var e := NumberEnd(t, 0);
    assert s[|a|..|a| + e] == t[..e];
  }

  /** Moving a number behind a prefix moves its end by the prefix's length. */
  lemma NumberEndShift(a: string, t: string)
    requires NumberStart(t, 0) && t[0] != '-'
    requires NumberStart(a + t, |a|)
    ensures NumberEnd(a + t, |a|) == |a| + NumberEnd(t, 0)
  {
    assert (a + t)[|a|] == t[0];
    DigitRunShift(a, t, 0);
    FractionEndShift(a, t, DigitRun(t, 0));
  }

  lemma FractionEndShift(a: string, t: string, k: nat)
    requires k <= |t|
    ensures FractionEnd(a + t, |a| + k) == |a| + FractionEnd(t, k)
  {
    if k < |t| {
      assert (a + t)[|a| + k] == t[k];
      if t[k] == '.' {
        DigitRunShift(a, t, k + 1);
      }
    }
  }

  /** A digit string after a prefix without digits or minus signs is the
      number found. */
  lemma FirstNumberOfPrefixed(a: string, d: string)
    requires !HasDigit(a) && NoChar(a, '-') && d != [] && AllDigits(d)
    ensures FirstNumber(a + d) == Some(d)
  {
    FirstNumberAfter(a, d);
    DigitRunAll(d, 0);
    assert NumberEnd(d, 0) == |d|;
    assert d[0..|d|] == d;
  }

  lemma {:induction false} FirstNumberStartFrom(s: string, k: nat, i: nat)
    requires k <= i && NumberStart(s, i) && forall q :: k <= q < i ==> !NumberStart(s, q)
    ensures FirstNumberStart(s, k) == Some(i)
    decreases i - k
  {
    if k < i {
      FirstNumberStartFrom(s, k + 1, i);
    }
  }

  lemma {:induction false} DigitRunShift(a: string, t: string, k: nat)
    requires k <= |t|
    ensures DigitRun(a + t, |a| + k) == DigitRun(t, k)
    decreases |t| - k
  {
    if k < |t| {
      assert (a + t)[|a| + k] == t[k];
      DigitRunShift(a, t, k + 1);
    }
  }

  lemma {:induction false} DigitRunAll(d: string, k: nat)
    requires k <= |d| && AllDigits(d)
    ensures DigitRun(d, k) == |d| - k
    decreases |d| - k
  {
    if k < |d| {
      DigitRunAll(d, k + 1);
    }
  }

  /** Three digit groups separated by single spaces after a label without
      digits, minus signs or `<`, as in `"Answer: 1 300 000"`, are typed as one
      number, `"1300000"`. */
  lemma CleanGrouped(a: string, g1: string, g2: string, g3: string)
    requires !HasDigit(a) && NoChar(a, '-') && NoChar(a, '<') && (a != [] ==> !IsSpace(a[0]))
    requires g1 != [] && g2 != [] && g3 != [] && AllDigits(g1) && AllDigits(g2) && AllDigits(g3)
    ensures CleanNumeric(a + g1 + " " + g2 + " " + g3) == g1 + g2 + g3
  {
    var d := g1 + g2 + g3;
    GroupedText(a, g1, g2, g3);
    assert AllDigits(d);
    FirstNumberOfPrefixed(a, d);
  }

  lemma GroupedText(a: string, g1: string, g2: string, g3: string)
    requires !HasDigit(a) && NoChar(a, '<') && (a != [] ==> !IsSpace(a[0]))
    requires g1 != [] && g2 != [] && g3 != [] && AllDigits(g1) && AllDigits(g2) && AllDigits(g3)
    ensures CleanedText(a + g1 + " " + g2 + " " + g3) == a + (g1 + g2 + g3)
  {
    var s := a + g1 + " " + g2 + " " + g3;
    GroupedUntrimmed(a, g1, g2, g3);
    GroupedJoined(a, g1, g2, g3);
    GroupedNoDots(a, g1 + g2 + g3);
  }

  lemma GroupedUntrimmed(a: string, g1: string, g2: string, g3: string)
    requires NoChar(a, '<') && (a != [] ==> !IsSpace(a[0]))
    requires g1 != [] && g2 != [] && g3 != [] && AllDigits(g1) && AllDigits(g2) && AllDigits(g3)
    ensures Trim(StripThink(a + g1 + " " + g2 + " " + g3)) == a + g1 + " " + g2 + " " + g3
  {
    GroupedNoThink(a, g1, g2, g3);
    GroupedTrimmed(a, g1, g2, g3);
  }

  lemma GroupedNoThink(a: string, g1: string, g2: string, g3: string)
    requires NoChar(a, '<')
    requires AllDigits(g1) && AllDigits(g2) && AllDigits(g3)
    ensures StripThink(a + g1 + " " + g2 + " " + g3) == a + g1 + " " + g2 + " " + g3
  {
    var s := a + g1 + " " + g2 + " " + g3;
    NoCharAppend(a, g1, '<');
    NoCharAppend(a + g1, " ", '<');
    NoCharAppend(a + g1 + " ", g2, '<');
    NoCharAppend(a + g1 + " " + g2, " ", '<');
    NoCharAppend(a + g1 + " " + g2 + " ", g3, '<');
    StripThinkIdentity(s);
  }

  lemma GroupedTrimmed(a: string, g1: string, g2: string, g3: string)
    requires a != [] ==> !IsSpace(a[0])
    requires g1 != [] && g3 != [] && AllDigits(g1) && AllDigits(g3)
    ensures Trim(a + g1 + " " + g2 + " " + g3) == a + g1 + " " + g2 + " " + g3
  {
    var s := a + g1 + " " + g2 + " " + g3;
    if a == [] {
      assert s[0] == g1[0];
    } else {
      assert s[0] == a[0];
    }
    assert s[|s| - 1] == g3[|g3| - 1];
    TrimClean(s);
  }

  lemma NoCharAppend(x: string, y: string, c: char)
    requires NoChar(x, c) && (NoChar(y, c) || (AllDigits(y) && !IsDigit(c)))
    ensures NoChar(x + y, c)
  {
  }

  lemma GroupedJoined(a: string, g1: string, g2: string, g3: string)
    requires !HasDigit(a)
    requires g1 != [] && g2 != [] && g3 != [] && AllDigits(g1) && AllDigits(g2) && AllDigits(g3)
    ensures JoinGroups(a + g1 + " " + g2 + " " + g3) == a + (g1 + g2 + g3)
  {
    var t3 := g2 + [' '] + g3;
    var t2 := g1 + [' '] + t3;
    var s := a + g1 + " " + g2 + " " + g3;
    assert s == a + t2;
    var j3 := g2 + g3;
    var j2 := g1 + j3;
    assert JoinGroups(t3) == j3 by {
      JoinGroupsGroup(g2, ' ', g3);
      JoinGroupsIdentity(g3);
    }
    assert JoinGroups(t2) == j2 by {
      JoinGroupsGroup(g1, ' ', t3);
    }
    assert JoinGroups(a + t2) == a + j2 by {
      JoinGroupsNoDigitPrefix(a, t2);
    }
    assert j2 == g1 + g2 + g3;
  }

  lemma GroupedNoDots(a: string, d: string)
    requires AllDigits(d) && !HasDigit(a)
    ensures DropThousandsDots(a + d) == a + d
  {
    var j := a + d;
    forall i ensures !ThousandsDot(j, i) {
      if 0 <= i < |j| - 1 && i + 1 >= |a| {
        assert IsDigit(j[i + 1]);
      } else if 0 <= i && i + 1 < |a| {
        assert j[i] == a[i];
      }
    }
    DropThousandsDotsIdentity(j);
  }

  lemma CleanGroupedExample()
    ensures CleanNumeric("Answer: 1 300 000") == "1300000"
  {
    var a, g1, g2, g3 := "Answer: ", "1", "300", "000";
    assert !HasDigit(a) && NoChar(a, '-') && NoChar(a, '<') && !IsSpace(a[0]) by {
      assert a == "Answer: ";
    }
    assert AllDigits(g1) && AllDigits(g2) && AllDigits(g3);
    assert a + g1 + " " + g2 + " " + g3 == "Answer: 1 300 000";
    assert g1 + g2 + g3 == "1300000";
    CleanGrouped(a, g1, g2, g3);
  }

  /** A dot in front of three or more digits is a thousands separator:
      `"10.200"` is typed as `"10200"`. */
  lemma CleanThousands(d: string, e: string)
    requires d != [] && AllDigits(d) && |e| >= 3 && AllDigits(e)
    ensures CleanNumeric(d + "." + e) == d + e
  {
    var t := d + e;
    ThousandsText(d, e);
    AllDigitsConcat(d, e);
    FirstNumberOfPrefixed([], t);
    assert [] + t == t;
  }

  lemma ThousandsText(d: string, e: string)
    requires d != [] && AllDigits(d) && |e| >= 3 && AllDigits(e)
    ensures CleanedText(d + "." + e) == d + e
  {
    var s := d + "." + e;
    DottedUntrimmed(d, e);
    DottedNoGroups(d, e);
    DropThousandsDotsGroup(d, e);
  }

  /** A dot in front of one or two digits is a decimal point: `"10.2"` is
      typed as it is. */
  lemma CleanDecimal(d: string, e: string)
    requires d != [] && AllDigits(d) && 1 <= |e| <= 2 && AllDigits(e)
    ensures CleanNumeric(d + "." + e) == d + "." + e
  {
    DecimalText(d, e);
    DecimalNumber(d, e);
  }

  lemma DecimalText(d: string, e: string)
    requires d != [] && AllDigits(d) && 1 <= |e| <= 2 && AllDigits(e)
    ensures CleanedText(d + "." + e) == d + "." + e
  {
    var s := d + "." + e;
    DottedUntrimmed(d, e);
    DottedNoGroups(d, e);
    forall i ensures !ThousandsDot(s, i) {
      if 0 <= i && i + 4 < |s| {
        assert s[i + 1] == d[i + 1];
      }
    }
    DropThousandsDotsIdentity(s);
  }

  /** A digit string, a dot and a digit string form one number. */
  lemma DecimalNumber(d: string, e: string)
    requires d != [] && AllDigits(d) && AllDigits(e)
    ensures FirstNumber(d + "." + e) == Some(d + "." + e)
  {
    var s := d + "." + e;
    assert s[0] == d[0] && s[|d|] == '.';
    FirstNumberStartFrom(s, 0, 0);
    assert DigitRun(s, 0) == |d| by {
      assert s == d + ("." + e);
      DigitRunPrefix(d, "." + e);
    }
    assert DigitRun(s, |d| + 1) == |e| by {
      DigitRunShift(d + ".", e, 0);
      DigitRunAll(e, 0);
    }
    assert NumberEnd(s, 0) == |s|;
    assert s[0..|s|] == s;
  }

  lemma DigitRunPrefix(d: string, t: string)
    requires AllDigits(d) && (t == [] || !IsDigit(t[0]))
    ensures DigitRun(d + t, 0) == |d|
  {
    DigitRunFrom(d, t, 0);
  }

  lemma {:induction false} DigitRunFrom(d: string, t: string, k: nat)
    requires k <= |d| && AllDigits(d) && (t == [] || !IsDigit(t[0]))
    ensures DigitRun(d + t, k) == |d| - k
    decreases |d| - k
  {
    if k < |d| {
      assert (d + t)[k] == d[k];
      DigitRunFrom(d, t, k + 1);
    } else if t != [] {
      assert (d + t)[k] == t[0];
    }
  }

  lemma DottedUntrimmed(d: string, e: string)
    requires d != [] && AllDigits(d) && e != [] && AllDigits(e)
    ensures Trim(StripThink(d + "." + e)) == d + "." + e
  {
    var s := d + "." + e;
    assert NoChar(s, '<') by {
      NoCharAppend(d, ".", '<');
      NoCharAppend(d + ".", e, '<');
    }
    StripThinkIdentity(s);
    assert !IsSpace(s[0]) by {
      assert s[0] == d[0];
      DigitNotSpace(d[0]);
    }
    assert !IsSpace(s[|s| - 1]) by {
      assert s[|s| - 1] == e[|e| - 1];
      DigitNotSpace(e[|e| - 1]);
    }
    TrimClean(s);
  }

  lemma DottedNoGroups(d: string, e: string)
    requires AllDigits(d) && AllDigits(e)
    ensures JoinGroups(d + "." + e) == d + "." + e
  {
    var s := d + "." + e;
    forall i ensures !GroupTriple(s, i) {
      if 0 <= i && i + 2 < |s| {
        assert s[i + 1] == '.' || IsDigit(s[i + 1]);
      }
    }
    JoinGroupsIdentity(s);
  }

  lemma CleanDotExamples()
    ensures CleanNumeric("10.200") == "10200"
    ensures CleanNumeric("10.2") == "10.2"
  {
    assert AllDigits("10") && AllDigits("200") && AllDigits("2");
    assert "10" + "." + "200" == "10.200" && "10" + "200" == "10200";
    assert "10" + "." + "2" == "10.2";
    CleanThousands("10", "200");
    CleanDecimal("10", "2");
  }
}
