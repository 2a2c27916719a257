/** The answer memory of the content script (content.js:355-435): a map from a
    normalised question key to the cached answer, its usage statistics and a
    confidence record. `saveToMemory` is the upsert with scoring, answer
    replacement and eviction; `getFromMemory` is the lookup. */
module Memory {
  import opened Wrappers
  import opened Text
  import opened Normalize

  datatype Stats = Stats(timesUsed: nat, timesCorrect: nat, timesWrong: nat, healthScore: real)

  datatype Confidence = Confidence(score: real, source: string, verified: bool)

  /** One cached record. `questionText` is only present on records that came
      in through an import; `saveToMemory` never writes it. */
  datatype Entry = Entry(
    answer: string,
    questionText: Option<string>,
    timestamp: int,
    lastUsed: Option<int>,
    stats: Stats,
    confidence: Confidence)

  type Store = map<string, Entry>

  /** What `getFromMemory` hands back on a hit. */
  datatype Hit = Hit(answer: string, confidence: real, healthScore: real, timesUsed: nat)

  const AiSource: string := "ai"

  function Min(a: real, b: real): real { if a <= b then a else b }

  function Max(a: real, b: real): real { if a >= b then a else b }

  /** The health recomputation of content.js:399-401: the share of correct
      outcomes, or 1.0 when nothing has been counted. */
  function Health(correct: nat, wrong: nat): (h: real)
    ensures 0.0 <= h <= 1.0
    ensures h == 1.0 <==> wrong == 0
    ensures h == 0.0 <==> correct == 0 && wrong > 0
    ensures correct + wrong > 0 ==> h * (correct + wrong) as real == correct as real
  {
    if correct + wrong > 0 then
      var t := (correct + wrong) as real;
      assert correct as real <= t;
      correct as real / t
    else 1.0
  }

  /** The record `saveToMemory` creates for a key it has not seen
      (content.js:359-376). */
  function NewEntry(answer: string, wasCorrect: bool, now: int): (e: Entry)
    ensures e.answer == answer && e.questionText.None?
    ensures e.timestamp == now && e.lastUsed == Some(now)
    ensures e.stats.timesUsed == 1
    ensures e.stats.timesCorrect + e.stats.timesWrong == 1
    ensures e.stats.timesCorrect == 1 <==> wasCorrect
    ensures e.stats.healthScore == (if wasCorrect then 1.0 else 0.0)
    ensures e.confidence == Confidence(if wasCorrect then 0.8 else 0.5, AiSource, wasCorrect)
    ensures WellFormed(e) && e.stats.healthScore == Health(e.stats.timesCorrect, e.stats.timesWrong)
  {
    Entry(answer, None, now, Some(now),
          Stats(1, if wasCorrect then 1 else 0, if wasCorrect then 0 else 1, if wasCorrect then 1.0 else 0.0),
          Confidence(if wasCorrect then 0.8 else 0.5, AiSource, wasCorrect))
  }

  /** Whether a wrong outcome replaces the stored answer: the answers differ
      and the health stored before this update is below 0.5 (content.js:391). */
  predicate Replaces(e: Entry, answer: string) {
    e.answer != answer && e.stats.healthScore < 0.5
  }

  /** The in-place update of an existing record (content.js:378-402), before
      the eviction test. */
  function Updated(e: Entry, answer: string, wasCorrect: bool, now: int): Entry {
    var s := e.stats;
    var used := s.timesUsed + 1;
    if wasCorrect then
      e.(lastUsed := Some(now),
         stats := Stats(used, s.timesCorrect + 1, s.timesWrong, Health(s.timesCorrect + 1, s.timesWrong)),
         confidence := e.confidence.(score := Min(0.99, e.confidence.score + 0.05), verified := true))
    else if Replaces(e, answer) then
      e.(answer := answer, lastUsed := Some(now),
         stats := Stats(used, 1, 0, Health(1, 0)),
         confidence := e.confidence.(score := 0.7))
    else
      e.(lastUsed := Some(now),
         stats := Stats(used, s.timesCorrect, s.timesWrong + 1, Health(s.timesCorrect, s.timesWrong + 1)),
         confidence := e.confidence.(score := Max(0.1, e.confidence.score - 0.2)))
  }

  /** The auto-cleanup test of content.js:404. */
  predicate Evicted(e: Entry) {
    e.stats.healthScore < 0.3 && e.stats.timesUsed > 3
  }

  /** The body of `saveToMemory` (content.js:357-412) on the normalised key
      `key`, at time `now`. Only the record under `key` can change. */
  function SaveAt(m: Store, key: string, answer: string, wasCorrect: bool, now: int): (r: Store)
    ensures forall k :: k != key ==> (k in r <==> k in m)
    ensures forall k | k in m && k != key :: k in r && r[k] == m[k]
    ensures key !in m ==> key in r
  {
    if key !in m then m[key := NewEntry(answer, wasCorrect, now)]
    else
      var e := Updated(m[key], answer, wasCorrect, now);
      if Evicted(e) then m - {key} else m[key := e]
  }

  /** `saveToMemory(question, answer, wasCorrect)` (content.js:355-412): the
      record lives under the normalised question. */
  function Save(m: Store, question: string, answer: string, wasCorrect: bool, now: int): Store {
    SaveAt(m, NormalizeQuestion(question), answer, wasCorrect, now)
  }

  /** `a || d` on a stored number: zero is falsy and yields the default. */
  function OrReal(a: real, d: real): real { if a == 0.0 then d else a }

  function OrNat(a: nat, d: nat): nat { if a == 0 then d else a }

  /** The lookup of `getFromMemory` (content.js:415-434) on the normalised
      key, without its hit counter. */
  function GetAt(m: Store, key: string): (r: Option<Hit>)
    ensures r.Some? <==> key in m
    ensures r.Some? ==> r.value.answer == m[key].answer
    ensures r.Some? ==> r.value.confidence != 0.0 && r.value.healthScore != 0.0 && r.value.timesUsed >= 1
  {
    if key in m then
      var e := m[key];
      Some(Hit(e.answer, OrReal(e.confidence.score, 0.8), OrReal(e.stats.healthScore, 1.0), OrNat(e.stats.timesUsed, 1)))
    else None
  }

  /** `getFromMemory(question)` (content.js:414-435). */
  function Get(m: Store, question: string): Option<Hit> {
    GetAt(m, NormalizeQuestion(question))
  }

  // ---------------------------------------------------------------------------
  // Properties of one save
  // ---------------------------------------------------------------------------

  /** A save on an unseen key stores the fresh record of content.js:361-376. */
  lemma SaveNew(m: Store, key: string, answer: string, wasCorrect: bool, now: int)
    requires key !in m
    ensures var r := SaveAt(m, key, answer, wasCorrect, now);
      && key in r
      && r[key] == NewEntry(answer, wasCorrect, now)
  {
  }

  /** Every update of a stored record counts one more use and stamps
      `lastUsed`; a correct outcome counts one more correct answer, raises the
      score by 0.05 capped at 0.99, marks the record verified and keeps the
      stored answer (content.js:379-385). */
  lemma SaveCorrectUpdate(m: Store, key: string, answer: string, now: int)
    requires key in m
    ensures var e := m[key];
      var u := Updated(e, answer, true, now);
      && u.answer == e.answer
      && u.lastUsed == Some(now)
      && u.stats.timesUsed == e.stats.timesUsed + 1
      && u.stats.timesCorrect == e.stats.timesCorrect + 1
      && u.stats.timesWrong == e.stats.timesWrong
      && u.confidence.verified
      && u.confidence.score == (if e.confidence.score + 0.05 <= 0.99 then e.confidence.score + 0.05 else 0.99)
      && u.confidence.source == e.confidence.source
  {
  }

  /** A wrong outcome counts one more use. It replaces the stored answer and
      resets the record to one correct answer at score 0.7 exactly when the
      answers differ and the health stored before the update is below 0.5;
      otherwise it counts one more wrong answer and lowers the score by 0.2,
      floored at 0.1, keeping the stored answer (content.js:387-397). */
  lemma SaveWrongUpdate(m: Store, key: string, answer: string, now: int)
    requires key in m
    ensures var e := m[key];
      var u := Updated(e, answer, false, now);
      && u.lastUsed == Some(now)
      && u.stats.timesUsed == e.stats.timesUsed + 1
      && u.confidence.verified == e.confidence.verified
      && (u.answer != e.answer <==> e.answer != answer && e.stats.healthScore < 0.5)
      && (u.answer != e.answer ==>
            u.answer == answer && u.stats.timesCorrect == 1 && u.stats.timesWrong == 0 && u.confidence.score == 0.7)
      && (u.answer == e.answer ==>
            && u.stats.timesCorrect == e.stats.timesCorrect
            && u.stats.timesWrong == e.stats.timesWrong + 1
            && u.confidence.score == (if e.confidence.score - 0.2 >= 0.1 then e.confidence.score - 0.2 else 0.1))
  {
  }

  /** After an update the health is the correct share of the counted outcomes
      and lies in [0, 1]; the record is deleted exactly when that health is
      below 0.3 and it has been used more than three times (content.js:399-407). */
  lemma SaveEviction(m: Store, key: string, answer: string, wasCorrect: bool, now: int)
    requires key in m
    ensures       var u := Updated(m[key], answer, wasCorrect, now);
      var r := SaveAt(m, key, answer, wasCorrect, now);
      && 0.0 <= u.stats.healthScore <= 1.0
      && u.stats.timesCorrect + u.stats.timesWrong >= 1
      && u.stats.healthScore * (u.stats.timesCorrect + u.stats.timesWrong) as real == u.stats.timesCorrect as real
      && (key in r <==> !(u.stats.healthScore < 0.3 && u.stats.timesUsed > 3))
      && (key in r ==> r[key] == u)
  {
  }

  /** A stored health of 0 is reported as 1.0 by the lookup, because the
      lookup's default is applied with `||` (content.js:429). The first wrong
      save of a question leaves exactly such a record. */
  lemma ZeroHealthReportedFull(m: Store, key: string, answer: string, now: int)
    requires key !in m
    ensures var r := SaveAt(m, key, answer, false, now);
      && r[key].stats.healthScore == 0.0
      && GetAt(r, key) == Some(Hit(answer, 0.5, 1.0, 1))
  {
  }

  /** A lookup normalises its argument, so looking up an already normalised
      key finds the same record (the content script looks up and saves under
      the raw cache key, content.js:776 and 71). */
  lemma GetNormalizedKey(m: Store, question: string)
    ensures Get(m, NormalizeQuestion(question)) == Get(m, question)
  {
    NormalizeQuestionIdempotent(question);
  }

  // ---------------------------------------------------------------------------
  // Record invariant
  // ---------------------------------------------------------------------------

  /** The shape every record written by `saveToMemory` has: at least one
      counted outcome and never more than the uses, the stored health agrees
      with the counts, and the score stays within [0.1, 0.99]. */
  predicate WellFormed(e: Entry) {
    && 1 <= e.stats.timesCorrect + e.stats.timesWrong <= e.stats.timesUsed
    && e.stats.healthScore == Health(e.stats.timesCorrect, e.stats.timesWrong)
    && 0.1 <= e.confidence.score <= 0.99
  }

  predicate WellFormedStore(m: Store) {
    forall k | k in m :: WellFormed(m[k])
  }

  /** Saving keeps every record well formed. */
  lemma SavePreservesWellFormed(m: Store, key: string, answer: string, wasCorrect: bool, now: int)
    requires WellFormedStore(m)
    ensures WellFormedStore(SaveAt(m, key, answer, wasCorrect, now))
  {
        var r := SaveAt(m, key, answer, wasCorrect, now);
    if key in m {
      UpdatedWellFormed(m[key], answer, wasCorrect, now);
    }
    forall k | k in r
      ensures WellFormed(r[k])
    {
      if k != key {
        assert r[k] == m[k];
      }
    }
  }

  lemma UpdatedWellFormed(e: Entry, answer: string, wasCorrect: bool, now: int)
    requires WellFormed(e)
    ensures WellFormed(Updated(e, answer, wasCorrect, now))
  {
  }

  /** On a well-formed record the lookup reports the stored score and use
      count unchanged; only a health of 0 is altered, to 1.0. */
  lemma GetWellFormed(m: Store, key: string)
    requires WellFormedStore(m) && key in m
    ensures var e := m[key];
      var h := GetAt(m, key).value;
      && h.confidence == e.confidence.score
      && h.timesUsed == e.stats.timesUsed
      && h.healthScore == (if e.stats.healthScore == 0.0 then 1.0 else e.stats.healthScore)
  {
  }

  // ---------------------------------------------------------------------------
  // Saves along the shipped call sites
  // ---------------------------------------------------------------------------

  /** A record that has only ever seen correct outcomes. */
  predicate Clean(e: Entry) {
    WellFormed(e) && e.stats.timesWrong == 0
  }

  predicate CleanStore(m: Store) {
    forall k | k in m :: Clean(m[k])
  }

  /** One `saveToMemory(key, answer, true)` call. */
  datatype SaveCall = SaveCall(key: string, answer: string, now: int)

  function SaveAllCorrect(m: Store, calls: seq<SaveCall>): Store
    decreases |calls|
  {
    if calls == [] then m
    else SaveAllCorrect(SaveAt(m, calls[0].key, calls[0].answer, true, calls[0].now), calls[1..])
  }

  function CallKeys(calls: seq<SaveCall>): set<string> {
    set i | 0 <= i < |calls| :: calls[i].key
  }

  /** A correct save on a clean store keeps it clean, with health 1.0, and
      never evicts: the saved key is present afterwards. */
  lemma SaveCorrectClean(m: Store, c: SaveCall)
    requires CleanStore(m)
    ensures var r := SaveAt(m, c.key, c.answer, true, c.now);
      && CleanStore(r)
      && r.Keys == m.Keys + {c.key}
  {
    var key := c.key;
    var r := SaveAt(m, c.key, c.answer, true, c.now);
    if key in m {
      UpdatedWellFormed(m[key], c.answer, true, c.now);
      assert !Evicted(Updated(m[key], c.answer, true, c.now));
    }
    forall k | k in r
      ensures Clean(r[k])
    {
      if k != key {
        assert r[k] == m[k];
      }
    }
  }

  /** Every call site in the content script passes `wasCorrect = true`
      (content.js:71, 74, 198, 201, 224, 227, 231, 277, 304). Along any such
      sequence of saves starting from a clean store, no record ever counts a
      wrong answer (so every health stays 1.0, `CleanStoreFull`), and no
      record is evicted: each saved key is present at the end. */
  lemma {:induction false} CorrectSavesNeverEvict(m: Store, calls: seq<SaveCall>)
    requires CleanStore(m)
    ensures var r := SaveAllCorrect(m, calls);
      && CleanStore(r)
      && r.Keys == m.Keys + CallKeys(calls)
    decreases |calls|
  {
    if calls != [] {
      var m1 := SaveAt(m, calls[0].key, calls[0].answer, true, calls[0].now);
      SaveCorrectClean(m, calls[0]);
      CorrectSavesNeverEvict(m1, calls[1..]);
      CallKeysCons(calls);
    } else {
      assert CallKeys(calls) == {};
    }
  }

  /** In a clean store every health is 1.0. */
  lemma CleanStoreFull(m: Store)
    requires CleanStore(m)
    ensures forall k | k in m :: m[k].stats.healthScore == 1.0 && m[k].stats.timesWrong == 0
  {
    forall k | k in m
      ensures m[k].stats.healthScore == 1.0
    {
      assert Clean(m[k]);
    }
  }

  lemma CallKeysCons(calls: seq<SaveCall>)
    requires calls != []
    ensures CallKeys(calls) == {calls[0].key} + CallKeys(calls[1..])
  {
    forall x | x in CallKeys(calls)
      ensures x in {calls[0].key} + CallKeys(calls[1..])
    {
      var i :| 0 <= i < |calls| && x == calls[i].key;
      if i > 0 {
        assert calls[1..][i - 1] == calls[i];
      }
    }
    forall x | x in CallKeys(calls[1..])
      ensures x in CallKeys(calls)
    {
      var i :| 0 <= i < |calls[1..]| && x == calls[1..][i].key;
      assert calls[1..][i] == calls[i + 1];
    }
  }

  /** The empty store the content script starts from is clean. */
  lemma EmptyStoreClean()
    ensures CleanStore(map[])
  {
  }
}
