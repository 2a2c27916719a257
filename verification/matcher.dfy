/** Choosing the on-screen option for an oracle answer: the Levenshtein
    distance (content.js:531-551), the five-stage `findBestMatch`
    (content.js:554-606) and the click decision of `selectAnswer`
    (content.js:857-894). */
module Matcher {
  import opened Wrappers
  import opened Text
  import opened Normalize

  // ---------------------------------------------------------------------------
  // Levenshtein distance
  // ---------------------------------------------------------------------------

  function Min3(x: nat, y: nat, z: nat): (r: nat)
    ensures r <= x && r <= y && r <= z
    ensures r == x || r == y || r == z
  {
    if x <= y && x <= z then x else if y <= z then y else z
  }

  /** The substitution cost of the table cell for `a[i-1]` against `b[j-1]`. */
  function Cost(a: string, b: string, i: nat, j: nat): nat
    requires 0 < i <= |a| && 0 < j <= |b|
  {
    if a[i - 1] == b[j - 1] then 0 else 1
  }

  /** The edit distance between the first `i` characters of `a` and the first
      `j` characters of `b`, as the recurrence that fills the table defines
      it: deleting, inserting or substituting one character costs 1. */
  function Dist(a: string, b: string, i: nat, j: nat): nat
    requires i <= |a| && j <= |b|
    decreases i + j
  {
    if i == 0 then j
    else if j == 0 then i
    else Min3(Dist(a, b, i - 1, j) + 1, Dist(a, b, i, j - 1) + 1, Dist(a, b, i - 1, j - 1) + Cost(a, b, i, j))
  }

  function EditDistance(a: string, b: string): nat {
    Dist(a, b, |a|, |b|)
  }

  /** `levenshteinDistance(str1, str2)` (content.js:531-551): the dynamic
      programme fills the table one row of `str2` at a time; only the previous
      row is kept. */
  method LevenshteinDistance(str1: string, str2: string) returns (d: nat)
    ensures d == EditDistance(str1, str2)
  {
    var prev: seq<nat> := seq(|str1| + 1, i => i);
    var j := 1;
    while j <= |str2|
      invariant 1 <= j <= |str2| + 1
      invariant |prev| == |str1| + 1
      invariant forall i {:trigger prev[i]} :: 0 <= i <= |str1| ==> prev[i] == Dist(str1, str2, i, j - 1)
    {
      var cur: seq<nat> := [j];
      var i := 1;
      while i <= |str1|
        invariant 1 <= i <= |str1| + 1
        invariant |cur| == i
        invariant forall k {:trigger cur[k]} :: 0 <= k < i ==> cur[k] == Dist(str1, str2, k, j)
      {
        var cost := if str1[i - 1] == str2[j - 1] then 0 else 1;
        var v := Min3(cur[i - 1] + 1, prev[i] + 1, prev[i - 1] + cost);
        DistStep(str1, str2, i, j);
        assert v == Dist(str1, str2, i, j);
        var next := cur + [v];
        forall k | 0 <= k <= i
          ensures next[k] == Dist(str1, str2, k, j)
        {
          if k < i {
            assert next[k] == cur[k];
          }
        }
        cur := next;
        i := i + 1;
      }
      prev := cur;
      j := j + 1;
    }
    d := prev[|str1|];
  }

  lemma DistStep(a: string, b: string, i: nat, j: nat)
    requires 0 < i <= |a| && 0 < j <= |b|
    ensures Dist(a, b, i, j) == Min3(Dist(a, b, i - 1, j) + 1, Dist(a, b, i, j - 1) + 1, Dist(a, b, i - 1, j - 1) + Cost(a, b, i, j))
  {
  }

  function Abs(x: int): nat { if x < 0 then -x else x }

  function MaxNat(x: nat, y: nat): nat { if x >= y then x else y }

  /** The distance lies between the length difference and the longer length. */
  lemma DistBounds(a: string, b: string, i: nat, j: nat)
    requires i <= |a| && j <= |b|
    ensures Abs(i - j) <= Dist(a, b, i, j) <= MaxNat(i, j)
  {
    DistUpper(a, b, i, j);
    DistLower(a, b, i, j);
  }

  lemma {:induction false} DistUpper(a: string, b: string, i: nat, j: nat)
    requires i <= |a| && j <= |b|
    ensures Dist(a, b, i, j) <= MaxNat(i, j)
    decreases i + j
  {
    if i > 0 && j > 0 {
      DistUpper(a, b, i - 1, j - 1);
      assert Dist(a, b, i, j) <= Dist(a, b, i - 1, j - 1) + Cost(a, b, i, j);
    }
  }

  lemma {:induction false} DistLower(a: string, b: string, i: nat, j: nat)
    requires i <= |a| && j <= |b|
    ensures Abs(i - j) <= Dist(a, b, i, j)
    decreases i + j
  {
    if i > 0 && j > 0 {
      DistLower(a, b, i - 1, j);
      DistLower(a, b, i, j - 1);
      DistLower(a, b, i - 1, j - 1);
      assert Abs(i - j) <= Abs(i - 1 - j) + 1;
      assert Abs(i - j) <= Abs(i - (j - 1)) + 1;
      assert Abs(i - j) == Abs(i - 1 - (j - 1));
      DistStep(a, b, i, j);
    }
  }

  /** Distance 0 means the prefixes are equal, and equal prefixes are at
      distance 0. */
  lemma DistZero(a: string, b: string, i: nat, j: nat)
    requires i <= |a| && j <= |b|
    ensures Dist(a, b, i, j) == 0 <==> i == j && a[..i] == b[..j]
  {
    if Dist(a, b, i, j) == 0 {
      DistZeroEqual(a, b, i, j);
    }
    if i == j && a[..i] == b[..j] {
      EqualDistZero(a, b, i);
    }
  }

  lemma {:induction false} DistZeroEqual(a: string, b: string, i: nat, j: nat)
    requires i <= |a| && j <= |b| && Dist(a, b, i, j) == 0
    ensures i == j && a[..i] == b[..j]
    decreases i + j
  {
    if i > 0 && j > 0 {
      DistLower(a, b, i - 1, j);
      DistLower(a, b, i, j - 1);
      DistStep(a, b, i, j);
      assert Dist(a, b, i - 1, j - 1) + Cost(a, b, i, j) == 0;
      DistZeroEqual(a, b, i - 1, j - 1);
      assert a[..i] == a[..i - 1] + [a[i - 1]] && b[..j] == b[..j - 1] + [b[j - 1]];
    }
  }

  lemma {:induction false} EqualDistZero(a: string, b: string, i: nat)
    requires i <= |a| && i <= |b| && a[..i] == b[..i]
    ensures Dist(a, b, i, i) == 0
  {
    if i > 0 {
      assert a[..i - 1] == a[..i][..i - 1] && b[..i - 1] == b[..i][..i - 1];
      assert a[i - 1] == a[..i][i - 1] && b[i - 1] == b[..i][i - 1];
      EqualDistZero(a, b, i - 1);
      DistStep(a, b, i, i);
    }
  }

  lemma EditDistanceFacts(a: string, b: string)
    ensures Abs(|a| - |b|) <= EditDistance(a, b) <= MaxNat(|a|, |b|)
    ensures EditDistance(a, b) == 0 <==> a == b
  {
    DistBounds(a, b, |a|, |b|);
    DistZero(a, b, |a|, |b|);
    assert a[..|a|] == a && b[..|b|] == b;
  }

  /** `1 - distance / maxLen` (content.js:589-591); in the script an empty
      pair gives `NaN`, which no comparison accepts, so it is left undefined
      here and excluded by `Qualifies`. */
  function Similarity(n: string, o: string): (r: real)
    requires |n| > 0 || |o| > 0
    ensures 0.0 <= r <= 1.0
    ensures r == 1.0 <==> n == o
  {
    EditDistanceFacts(n, o);
    var q := Ratio(EditDistance(n, o), MaxNat(|n|, |o|));
    1.0 - q
  }

  /** `d / m` for `0 <= d <= m`, `0 < m`: a value in [0, 1] that is 0 only
      for `d == 0`. */
  function Ratio(d: nat, m: nat): (q: real)
    requires 0 < m && d <= m
    ensures 0.0 <= q <= 1.0
    ensures q == 0.0 <==> d == 0
  {
    var q := d as real / m as real;
    assert q * m as real == d as real;
    q
  }

  /** The fuzzy threshold of content.js:593: similarity above 0.7. */
  predicate Qualifies(n: string, o: string) {
    (|n| > 0 || |o| > 0) && Similarity(n, o) > 0.7
  }

  // ---------------------------------------------------------------------------
  // findBestMatch
  // ---------------------------------------------------------------------------

  /** The `method` tag of a match, here `kind`: 'none', 'exact', 'contains', 'included',
      'fuzzy' or 'fallback'. */
  datatype MatchKind = NoOptions | Exact | ContainsOption | IncludedInOption | Fuzzy | Fallback

  datatype Match = Match(option: Option<string>, confidence: real, kind: MatchKind)

  /** The three text stages, in the order they are tried. */
  datatype Stage = ExactStage | ContainsStage | IncludedStage

  /** The normalised option texts, computed once per call. */
  function NormAll(opts: seq<string>): (r: seq<string>)
    ensures |r| == |opts|
    ensures forall i :: 0 <= i < |opts| ==> r[i] == NormalizeAnswer(opts[i])
  {
    seq(|opts|, i requires 0 <= i < |opts| => NormalizeAnswer(opts[i]))
  }

  /** Whether the normalised option `o` is a hit for the normalised answer `n`
      at a stage: equal to it, contained in it, or containing it. */
  predicate Hits(stage: Stage, n: string, o: string) {
    match stage
    case ExactStage => o == n
    case ContainsStage => Contains(n, o)
    case IncludedStage => Contains(o, n)
  }

  /** The first option from index `from` on that is a hit at `stage`, as the
      `for … of` loops of content.js:562-580 find it. */
  function FirstHit(stage: Stage, n: string, norms: seq<string>, from: nat): (r: Option<nat>)
    requires from <= |norms|
    ensures r.Some? ==> from <= r.value < |norms| && Hits(stage, n, norms[r.value])
    ensures r.Some? ==> forall k :: from <= k < r.value ==> !Hits(stage, n, norms[k])
    ensures r.None? ==> forall k :: from <= k < |norms| ==> !Hits(stage, n, norms[k])
    decreases |norms| - from
  {
    if from == |norms| then None
    else if Hits(stage, n, norms[from]) then Some(from)
    else FirstHit(stage, n, norms, from + 1)
  }

  /** The fuzzy loop of content.js:587-598 from index `i` on, with `best` the
      option kept so far: an option replaces it when it qualifies and its
      distance is strictly smaller. */
  function FuzzyFrom(n: string, norms: seq<string>, i: nat, best: Option<nat>): Option<nat>
    requires i <= |norms|
    requires best.Some? ==> best.value < i
    decreases |norms| - i
  {
    if i == |norms| then best
    else if Qualifies(n, norms[i]) && (best.None? || EditDistance(n, norms[i]) < EditDistance(n, norms[best.value])) then
      FuzzyFrom(n, norms, i + 1, Some(i))
    else FuzzyFrom(n, norms, i + 1, best)
  }

  /** Option `b` is no farther than any qualifying option among the first
      `upto`, and strictly nearer than every qualifying option before it. */
  predicate NearestUpTo(n: string, norms: seq<string>, b: nat, upto: nat)
    requires b < |norms| && upto <= |norms|
  {
    && (forall k :: 0 <= k < upto && Qualifies(n, norms[k]) ==> EditDistance(n, norms[b]) <= EditDistance(n, norms[k]))
    && (forall k :: 0 <= k < b && Qualifies(n, norms[k]) ==> EditDistance(n, norms[b]) < EditDistance(n, norms[k]))
  }

  /** The fuzzy candidate: among the qualifying options, the earliest one at
      the smallest distance. */
  predicate IsBestFuzzy(n: string, norms: seq<string>, b: nat) {
    b < |norms| && Qualifies(n, norms[b]) && NearestUpTo(n, norms, b, |norms|)
  }

  /** The loop invariant of the fuzzy scan over the options before `i`. */
  predicate FuzzySoFar(n: string, norms: seq<string>, i: nat, best: Option<nat>)
    requires i <= |norms|
  {
    && (best.None? ==> forall k :: 0 <= k < i ==> !Qualifies(n, norms[k]))
    && (best.Some? ==> best.value < i && Qualifies(n, norms[best.value]) && NearestUpTo(n, norms, best.value, i))
  }

  lemma {:induction false} FuzzyFromBest(n: string, norms: seq<string>, i: nat, best: Option<nat>)
    requires i <= |norms|
    requires best.Some? ==> best.value < i
    requires FuzzySoFar(n, norms, i, best)
    ensures var r := FuzzyFrom(n, norms, i, best);
      && (r.None? ==> forall k :: 0 <= k < |norms| ==> !Qualifies(n, norms[k]))
      && (r.Some? ==> IsBestFuzzy(n, norms, r.value))
    decreases |norms| - i
  {
    if i < |norms| {
      if Qualifies(n, norms[i]) && (best.None? || EditDistance(n, norms[i]) < EditDistance(n, norms[best.value])) {
        FuzzyFromBest(n, norms, i + 1, Some(i));
      } else {
        FuzzyFromBest(n, norms, i + 1, best);
      }
    }
  }

  /** The fuzzy stage: `None` when no option qualifies, otherwise the earliest
      option at the smallest distance among those that qualify. */
  function BestFuzzy(n: string, norms: seq<string>): (r: Option<nat>)
    ensures r.None? <==> forall k :: 0 <= k < |norms| ==> !Qualifies(n, norms[k])
    ensures r.Some? ==> IsBestFuzzy(n, norms, r.value)
  {
    FuzzyFromBest(n, norms, 0, None);
    FuzzyFrom(n, norms, 0, None)
  }

  /** The five stages of content.js:559-605 for the normalised answer `n`
      and the normalised options `norms`. */
  function Choose(n: string, opts: seq<string>, norms: seq<string>): (r: Match)
    requires |norms| == |opts|
    ensures r.option.None? <==> |opts| == 0
    ensures r.kind == NoOptions <==> |opts| == 0
    ensures r.option.Some? ==> r.option.value in opts
  {
    if |opts| == 0 then Match(None, 0.0, NoOptions)
    else
      match FirstHit(ExactStage, n, norms, 0)
      case Some(i) => Match(Some(opts[i]), 1.0, Exact)
      case None =>
        match FirstHit(ContainsStage, n, norms, 0)
        case Some(i) => Match(Some(opts[i]), 0.9, ContainsOption)
        case None =>
          match FirstHit(IncludedStage, n, norms, 0)
          case Some(i) => Match(Some(opts[i]), 0.85, IncludedInOption)
          case None =>
            match BestFuzzy(n, norms)
            case Some(i) =>
              if opts[i] != "" then Match(Some(opts[i]), Similarity(n, norms[i]), Fuzzy)
              else Match(Some(opts[0]), 0.25, Fallback)
            case None => Match(Some(opts[0]), 0.25, Fallback)
  }

  /** `findBestMatch(aiAnswer, availableOptions)` (content.js:554-606): no
      match exactly for an empty option list, and otherwise one of the
      options. */
  function FindBestMatch(ai: string, opts: seq<string>): (r: Match)
    ensures r.option.None? <==> |opts| == 0
    ensures r.kind == NoOptions <==> |opts| == 0
    ensures r.option.Some? ==> r.option.value in opts
  {
    Choose(NormalizeAnswer(ai), opts, NormAll(opts))
  }

  predicate NoHit(stage: Stage, n: string, norms: seq<string>) {
    forall k :: 0 <= k < |norms| ==> !Hits(stage, n, norms[k])
  }

  /** Option `i` is the first hit at `stage`. */
  predicate FirstHitIs(stage: Stage, n: string, norms: seq<string>, i: nat) {
    i < |norms| && Hits(stage, n, norms[i]) && forall k :: 0 <= k < i ==> !Hits(stage, n, norms[k])
  }

  /** An option that has survived the contains stage normalises to a
      non-empty string, so it is itself non-empty (an empty text normalises
      to `''`): the truthiness test on the fuzzy winner (content.js:600)
      never rejects it. */
  lemma FuzzyWinnerNonEmpty(n: string, opts: seq<string>, norms: seq<string>, i: nat)
    requires i < |opts| == |norms| && norms[i] == NormalizeAnswer(opts[i])
    requires !Hits(ContainsStage, n, norms[i])
    ensures norms[i] != [] && opts[i] != []
  {
    ContainsEmpty(n);
  }

  /** When an option reaches the fuzzy stage the answer is not empty: an
      empty answer is included in every option (content.js:577), so the
      `NaN` similarity of two empty texts never arises. */
  lemma FuzzyOperandsNonEmpty(n: string, o: string)
    requires !Hits(IncludedStage, n, o)
    ensures n != []
  {
    if n == [] {
      ContainsEmpty(o);
    }
  }

  /** The first stage: the first option equal to the answer after
      normalisation, at confidence 1.0 (content.js:562-566). */
  lemma ChooseExact(n: string, opts: seq<string>, norms: seq<string>)
    requires |norms| == |opts| > 0
    ensures var r := Choose(n, opts, norms);
      && (r.kind == Exact <==> !NoHit(ExactStage, n, norms))
      && (r.kind == Exact ==>
            r.confidence == 1.0 && exists i: nat :: FirstHitIs(ExactStage, n, norms, i) && r.option == Some(opts[i]))
  {
    var e := FirstHit(ExactStage, n, norms, 0);
    if e.Some? {
      assert FirstHitIs(ExactStage, n, norms, e.value);
    }
  }

  /** The second stage, reached only without an exact hit: the first option
      the answer contains, at 0.9 (content.js:569-574). */
  lemma ChooseContains(n: string, opts: seq<string>, norms: seq<string>)
    requires |norms| == |opts| > 0
    ensures var r := Choose(n, opts, norms);
      && (r.kind == ContainsOption <==> NoHit(ExactStage, n, norms) && !NoHit(ContainsStage, n, norms))
      && (r.kind == ContainsOption ==>
            r.confidence == 0.9 && exists i: nat :: FirstHitIs(ContainsStage, n, norms, i) && r.option == Some(opts[i]))
  {
    var e := FirstHit(ExactStage, n, norms, 0);
    var c := FirstHit(ContainsStage, n, norms, 0);
    if e.None? && c.Some? {
      assert FirstHitIs(ContainsStage, n, norms, c.value);
    }
  }

  /** The third stage, reached only without an earlier hit: the first option
      containing the answer, at 0.85 (content.js:576-580). */
  lemma ChooseIncluded(n: string, opts: seq<string>, norms: seq<string>)
    requires |norms| == |opts| > 0
    ensures var r := Choose(n, opts, norms);
      && (r.kind == IncludedInOption <==>
            NoHit(ExactStage, n, norms) && NoHit(ContainsStage, n, norms) && !NoHit(IncludedStage, n, norms))
      && (r.kind == IncludedInOption ==>
            r.confidence == 0.85 && exists i: nat :: FirstHitIs(IncludedStage, n, norms, i) && r.option == Some(opts[i]))
  {
    var e := FirstHit(ExactStage, n, norms, 0);
    var c := FirstHit(ContainsStage, n, norms, 0);
    var d := FirstHit(IncludedStage, n, norms, 0);
    if e.None? && c.None? && d.Some? {
      assert FirstHitIs(IncludedStage, n, norms, d.value);
    }
  }

  /** No text stage hit. */
  predicate NoTextHit(n: string, norms: seq<string>) {
    NoHit(ExactStage, n, norms) && NoHit(ContainsStage, n, norms) && NoHit(IncludedStage, n, norms)
  }

  /** The fourth stage, reached only without a text hit: when some option
      has similarity above 0.7, the earliest one at the smallest distance, at
      its similarity (content.js:582-602). */
  lemma ChooseFuzzy(n: string, opts: seq<string>, norms: seq<string>)
    requires |norms| == |opts| > 0
    requires forall k :: 0 <= k < |opts| ==> norms[k] == NormalizeAnswer(opts[k])
    ensures var r := Choose(n, opts, norms);
      && (r.kind == Fuzzy <==> NoTextHit(n, norms) && exists k :: 0 <= k < |norms| && Qualifies(n, norms[k]))
      && (r.kind == Fuzzy ==>
            && 0.7 < r.confidence <= 1.0
            && var b := BestFuzzy(n, norms);
               b.Some? && IsBestFuzzy(n, norms, b.value) && r.option == Some(opts[b.value])
               && r.confidence == Similarity(n, norms[b.value]))
  {
    var e := FirstHit(ExactStage, n, norms, 0);
    var c := FirstHit(ContainsStage, n, norms, 0);
    var d := FirstHit(IncludedStage, n, norms, 0);
    var r := Choose(n, opts, norms);
    if e.None? && c.None? && d.None? {
      assert NoTextHit(n, norms);
      var b := BestFuzzy(n, norms);
      if b.Some? {
        FuzzyWinnerNonEmpty(n, opts, norms, b.value);
        assert r == Match(Some(opts[b.value]), Similarity(n, norms[b.value]), Fuzzy);
      } else {
        assert r.kind == Fallback;
      }
    } else {
      TextHitFound(n, norms, e, c, d);
      assert r.kind != Fuzzy;
    }
  }

  lemma TextHitFound(n: string, norms: seq<string>, e: Option<nat>, c: Option<nat>, d: Option<nat>)
    requires e == FirstHit(ExactStage, n, norms, 0)
    requires c == FirstHit(ContainsStage, n, norms, 0)
    requires d == FirstHit(IncludedStage, n, norms, 0)
    requires e.Some? || c.Some? || d.Some?
    ensures !NoTextHit(n, norms)
  {
    if e.Some? {
      assert Hits(ExactStage, n, norms[e.value]);
    } else if c.Some? {
      assert Hits(ContainsStage, n, norms[c.value]);
    } else {
      assert Hits(IncludedStage, n, norms[d.value]);
    }
  }

  /** The last resort, when no stage hit: the first option at 0.25
      (content.js:604-605). */
  lemma ChooseFallback(n: string, opts: seq<string>, norms: seq<string>)
    requires |norms| == |opts| > 0
    requires forall k :: 0 <= k < |opts| ==> norms[k] == NormalizeAnswer(opts[k])
    ensures var r := Choose(n, opts, norms);
      && (r.kind == Fallback <==> NoTextHit(n, norms) && forall k :: 0 <= k < |norms| ==> !Qualifies(n, norms[k]))
      && (r.kind == Fallback ==> r.confidence == 0.25 && r.option == Some(opts[0]))
  {
    var e := FirstHit(ExactStage, n, norms, 0);
    var c := FirstHit(ContainsStage, n, norms, 0);
    var d := FirstHit(IncludedStage, n, norms, 0);
    if e.None? && c.None? && d.None? {
      var b := BestFuzzy(n, norms);
      if b.Some? {
        FuzzyWinnerNonEmpty(n, opts, norms, b.value);
      }
    }
  }

  /** Every kind of match but the fallback and the empty case carries a
      confidence above the click threshold 0.3. */
  lemma ChooseConfidence(n: string, opts: seq<string>, norms: seq<string>)
    requires |norms| == |opts|
    ensures var r := Choose(n, opts, norms);
      r.confidence > ClickThreshold <==> r.kind in {Exact, ContainsOption, IncludedInOption, Fuzzy}
  {
  }

  // ---------------------------------------------------------------------------
  // selectAnswer
  // ---------------------------------------------------------------------------

  /** `.filter(text => text && text.length > 0)`: the non-empty texts, in order. */
  function NonEmpty(s: seq<string>): (r: seq<string>)
    ensures forall x :: x in r <==> x in s && x != []
    ensures |r| <= |s|
  {
    if s == [] then []
    else if s[0] == [] then NonEmpty(s[1..])
    else [s[0]] + NonEmpty(s[1..])
  }

  /** The first index holding `t`. */
  function IndexOf(s: seq<string>, t: string): (r: Option<nat>)
    ensures r.Some? <==> t in s
    ensures r.Some? ==> r.value < |s| && s[r.value] == t && forall k :: 0 <= k < r.value ==> s[k] != t
  {
    if s == [] then None
    else if s[0] == t then Some(0)
    else match IndexOf(s[1..], t)
      case Some(i) => Some(i + 1)
      case None => None
  }

  /** The click threshold of content.js:868. */
  const ClickThreshold: real := 0.3

  /** `selectAnswer(aiAnswer, buttons)` (content.js:857-894), with each
      enabled button given by its trimmed label: the index of the button it
      clicks, or `None` when it reports that it could not match. */
  function SelectAnswer(ai: string, labels: seq<string>): (r: Option<nat>)
    ensures r.Some? ==> r.value < |labels|
    ensures r.Some? ==> FindBestMatch(ai, NonEmpty(labels)).option == Some(labels[r.value])
    ensures r.Some? ==> FindBestMatch(ai, NonEmpty(labels)).confidence > ClickThreshold
  {
    var m := FindBestMatch(ai, NonEmpty(labels));
    if m.option.Some? && m.confidence > ClickThreshold then IndexOf(labels, m.option.value)
    else None
  }

  /** A button is clicked exactly when the match came from one of the first
      four stages: their confidences are all above 0.3, while a fallback
      (0.25) or an empty option list never clicks. A clicked button is the
      first one carrying the matched text. */
  lemma SelectAnswerClicks(ai: string, labels: seq<string>)
    ensures var m := FindBestMatch(ai, NonEmpty(labels));
      var r := SelectAnswer(ai, labels);
      && (r.Some? <==> m.kind in {Exact, ContainsOption, IncludedInOption, Fuzzy})
      && (r.Some? ==> forall k :: 0 <= k < r.value ==> labels[k] != labels[r.value])
  {
    var opts := NonEmpty(labels);
    ChooseConfidence(NormalizeAnswer(ai), opts, NormAll(opts));
  }
}
