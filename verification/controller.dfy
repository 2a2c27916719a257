/** The question controller of the content script: `checkForQuestion`
    (content.js:608-855) and the result detection of `detectAnswerResult`
    (content.js:56-327), as transition functions over a state record.

    Every look at the page is an input: a `Snapshot` for the question scan, a
    `View` for the result indicators. The oracle's reply, the image hash, the
    topic hint and the clock are inputs too. One detection run (its observer
    and its five scheduled checks) is a `Session` value that the caller keeps
    next to the state, so that several runs can be alive at once, as they can
    in the source. */
module Controller {
  import opened Wrappers
  import opened Text
  import opened Normalize
  import opened Memory
  import opened Matcher
  import opened Page
  import opened Numeric

  /** The question, answer and cache key tracked for result detection
      (`currentQuestion`, `currentAnswer`, `currentCacheKey`). The source
      always sets and clears the three together, so they are one optional
      value here. */
  datatype Tracked = Tracked(question: string, answer: string, key: string)

  /** The content script's globals: `isProcessing`, `lastQuestionText`, the
      tracked triple, `waitingForResult` and the in-memory answer store. */
  datatype State = State(
    processing: bool,
    lastQuestion: string,
    tracked: Option<Tracked>,
    waiting: bool,
    memory: Store)

  const NotYourTurn: string := "NOT_YOUR_TURN"
  const NoQuestion: string := "NO_QUESTION"

  /** The state the script starts in. */
  function Initial(m: Store): (st: State)
    ensures !st.processing && !st.waiting && st.tracked.None? && st.memory == m
  {
    State(false, "", None, false, m)
  }

  /** `if (currentQuestion)`: a tracked, non-empty question. */
  predicate HasQuestion(t: Option<Tracked>) {
    t.Some? && t.value.question != []
  }

  /** `if (currentQuestion && currentAnswer)`. */
  predicate HasAnswer(t: Option<Tracked>) {
    HasQuestion(t) && t.value.answer != []
  }

  /** What the controller keeps true: whatever it tracks has a non-empty
      question and answer, so the truthiness tests above agree with
      "something is tracked". */
  predicate Consistent(st: State) {
    st.tracked.Some? ==> st.tracked.value.question != [] && st.tracked.value.answer != []
  }

  // ---------------------------------------------------------------------------
  // Detecting a new question
  // ---------------------------------------------------------------------------

  /** The outcome of the synchronous part of `checkForQuestion`: the new
      state and, when the question is taken on, its trimmed text. */
  datatype Begun = Begun(state: State, question: Option<string>)

  /** `checkForQuestion` up to `isProcessing = true` (content.js:608-731). */
  function Begin(st: State, p: Snapshot): (r: Begun)
    ensures r.question.Some? ==> r.question.value != [] && r.state.processing
    ensures r.state.memory == st.memory && r.state.tracked == st.tracked && r.state.waiting == st.waiting
  {
    if st.processing then Begun(st, None)
    else if !IsPlayerTurn(p) then Begun(st.(lastQuestion := NotYourTurn), None)
    else if p.question.None? then Begun(st.(lastQuestion := NoQuestion), None)
    else
      var q := Trim(p.question.value);
      if q == [] then Begun(st, None)
      else if q == st.lastQuestion then Begun(st, None)
      else if HasAnsweredButton(p.buttons) then Begun(st, None)
      else Begun(st.(processing := true, lastQuestion := q), Some(q))
  }

  /** The re-entry guard: while a question is in flight nothing happens. */
  lemma BeginGuarded(st: State, p: Snapshot)
    requires st.processing
    ensures Begin(st, p) == Begun(st, None)
  {
  }

  /** Off turn, the sentinel `NOT_YOUR_TURN` is remembered and nothing else
      changes. */
  lemma BeginNotYourTurn(st: State, p: Snapshot)
    requires !st.processing && !IsPlayerTurn(p)
    ensures Begin(st, p) == Begun(st.(lastQuestion := NotYourTurn), None)
  {
  }

  /** The `NO_QUESTION` branch is dead: the turn test already demands a
      question, so `lastQuestionText` becomes `NO_QUESTION` only when the
      question text itself reads so. */
  lemma NoQuestionUnreachable(st: State, p: Snapshot)
    ensures var r := Begin(st, p);
      r.state.lastQuestion == NoQuestion ==> st.lastQuestion == NoQuestion || r.question == Some(NoQuestion)
  {
  }

  /** A question is taken on exactly when no question is in flight, it is the
      player's turn, the trimmed text differs from the last one remembered
      and no button shows an already given answer; it then becomes the last
      question and the controller is busy. */
  lemma BeginProceeds(st: State, p: Snapshot)
    ensures var r := Begin(st, p);
      && (r.question.Some? <==>
            && !st.processing && IsPlayerTurn(p)
            && Trim(p.question.value) != st.lastQuestion
            && !HasAnsweredButton(p.buttons))
      && (r.question.Some? ==>
            && r.question == Some(Trim(p.question.value))
            && r.state == st.(processing := true, lastQuestion := Trim(p.question.value)))
  {
  }

  /** The same question text is never taken on twice in a row. */
  lemma BeginSkipsSameQuestion(st: State, p: Snapshot)
    requires p.question.Some? && Trim(p.question.value) == st.lastQuestion
    ensures Begin(st, p).question.None?
  {
  }

  /** A question the page shows as already answered is skipped without
      being remembered, so it is looked at again on the next poll. */
  lemma BeginSkipsAnswered(st: State, p: Snapshot)
    requires !st.processing && IsPlayerTurn(p) && HasAnsweredButton(p.buttons)
    ensures Begin(st, p).question.None?
    ensures Begin(st, p).state.lastQuestion == st.lastQuestion ||
            (Trim(p.question.value) == st.lastQuestion && Begin(st, p).state == st)
  {
  }

  // ---------------------------------------------------------------------------
  // Answering a question
  // ---------------------------------------------------------------------------

  /** What `chrome.runtime.sendMessage` gives back: a response object, or an
      exception. */
  datatype Reply = Response(success: bool, answer: string, error: string) | Thrown

  /** The `processQuestion` message sent to the background script. */
  datatype Request = Request(question: string, answers: seq<string>, imageUrl: Option<string>, topic: Option<string>)

  /** What is put on the page: a number typed into the calculator, the index
      of the clicked enabled button, a failed match, or nothing. */
  datatype Submission = Typed(text: string) | Clicked(index: nat) | Unmatched | NoSubmission

  datatype Completed = Completed(state: State, request: Option<Request>, submission: Submission, detect: bool)

  /** Whether the question carries an image (`if (imageUrl)`). */
  predicate HasImage(p: Snapshot) {
    p.image.Some? && p.image.value != []
  }

  /** The cache key: the question, plus the image hash when there is an
      image (content.js:767-774). */
  function CacheKey(q: string, p: Snapshot, hash: string): (k: string)
    ensures HasImage(p) ==> k == q + "|||IMG:" + hash
    ensures !HasImage(p) ==> k == q
  {
    if HasImage(p) then q + "|||IMG:" + hash else q
  }

  /** The option texts sent with the request: none for a numeric question. */
  function Answers(p: Snapshot): (r: seq<string>)
    ensures IsNumericQuestion(p) ==> r == []
    ensures !IsNumericQuestion(p) ==> r == ChoiceTexts(p.buttons)
  {
    if IsNumericQuestion(p) then [] else ChoiceTexts(p.buttons)
  }

  /** How an answer is put on the page (content.js:832-836): typed after the
      numeric cleaning, or matched against the enabled buttons. */
  function Submit(answer: string, numeric: bool, buttons: seq<Button>): (s: Submission)
    ensures numeric ==> s == Typed(CleanNumeric(answer))
    ensures !numeric ==> (s.Clicked? <==> SelectAnswer(answer, ClickLabels(buttons)).Some?)
    ensures !numeric && s.Clicked? ==> s.index < |Enabled(buttons)|
  {
    if numeric then Typed(CleanNumeric(answer))
    else match SelectAnswer(answer, ClickLabels(buttons))
      case Some(i) => Clicked(i)
      case None => Unmatched
  }

  /** `if (finalAnswer) { … }` (content.js:817-845): track an oracle answer,
      submit, and start detection when `waitingForResult` is set. */
  function Finish(st: State, q: string, key: string, answer: string, cached: bool,
                  numeric: bool, buttons: seq<Button>, request: Option<Request>): (r: Completed)
    ensures r.request == request
    ensures answer == [] ==> r == Completed(st, request, NoSubmission, false)
    ensures answer != [] && cached ==> r.state == st
    ensures answer != [] && !cached ==> r.state == st.(tracked := Some(Tracked(q, answer, key)), waiting := true)
    ensures answer != [] ==> r.submission == Submit(answer, numeric, buttons) && r.detect == r.state.waiting
  {
    if answer == [] then Completed(st, request, NoSubmission, false)
    else
      var st1 := if cached then st else st.(tracked := Some(Tracked(q, answer, key)), waiting := true);
      Completed(st1, request, Submit(answer, numeric, buttons), st1.waiting)
  }

  /** The asynchronous part of `checkForQuestion` for the question `q`
      (content.js:733-849), up to the `finally` block: `p` is the page after
      the first delay, `buttons` the buttons at submission time. The cool-down
      that clears `isProcessing` is `Release`. */
  function Complete(st: State, q: string, p: Snapshot, hash: string, topic: Option<string>,
                    reply: Reply, buttons: seq<Button>): (r: Completed)
    ensures r.state.memory == st.memory && r.state.processing == st.processing
    ensures r.request.Some? <==> Get(st.memory, CacheKey(q, p, hash)).None?
    ensures r.request.Some? ==> r.request.value == Request(q, Answers(p), p.image, topic)
  {
    var key := CacheKey(q, p, hash);
    var numeric := IsNumericQuestion(p);
    match Get(st.memory, key)
    case Some(hit) => Finish(st, q, key, hit.answer, true, numeric, buttons, None)
    case None =>
      var request := Some(Request(q, Answers(p), p.image, topic));
      match reply
      case Thrown => Completed(st.(lastQuestion := []), request, NoSubmission, false)
      case Response(success, answer, _) =>
        if success && answer != [] then Finish(st, q, key, answer, false, numeric, buttons, request)
        else Completed(st, request, NoSubmission, false)
  }

  /** The `finally` block's delayed `isProcessing = false`. */
  function Release(st: State): (r: State)
    ensures !r.processing && r == st.(processing := false)
  {
    st.(processing := false)
  }

  /** While a question is in flight every poll is turned away; once the
      cool-down has run, the next poll takes on exactly a question that is
      the player's, differs from the last one and is not shown as answered. */
  lemma ReleaseReopens(st: State, p: Snapshot)
    requires st.processing
    ensures Begin(st, p).question.None?
    ensures Begin(Release(st), p).question.Some? <==>
      && IsPlayerTurn(p) && Trim(p.question.value) != st.lastQuestion
      && !HasAnsweredButton(p.buttons)
  {
    BeginProceeds(Release(st), p);
  }

  /** For questions without a `|`, cache keys are injective: two questions
      share a key exactly when they have the same text, both or neither
      carry an image, and image questions have the same image hash. */
  lemma CacheKeyInjective(q1: string, p1: Snapshot, h1: string, q2: string, p2: Snapshot, h2: string)
    requires NoChar(q1, '|') && NoChar(q2, '|')
    ensures CacheKey(q1, p1, h1) == CacheKey(q2, p2, h2) <==>
      q1 == q2 && HasImage(p1) == HasImage(p2) && (HasImage(p1) ==> h1 == h2)
  {
    if CacheKey(q1, p1, h1) == CacheKey(q2, p2, h2) {
      if HasImage(p1) {
        MarkedKeyBar(q1, h1);
      }
      if HasImage(p2) {
        MarkedKeyBar(q2, h2);
      }
    }
  }

  /** The text of an image key up to its first `|` is the question. */
  lemma MarkedKeyBar(q: string, h: string)
    ensures var k := q + "|||IMG:" + h;
      && |k| == |q| + 7 + |h| && k[|q|] == '|' && k[..|q|] == q && k[|q| + 7..] == h
      && forall i :: 0 <= i < |q| ==> k[i] == q[i]
  {
  }

  /** On a numeric question no options are sent; on a multiple-choice page
      whose captions come first in their buttons, every option sent is a text
      `selectAnswer` can match. */
  lemma AnswersClickable(p: Snapshot)
    requires forall b :: b in p.buttons ==> LabelFirst(b)
    ensures forall t :: t in Answers(p) ==> !IsNumericQuestion(p) && t in ClickLabels(p.buttons)
  {
    if !IsNumericQuestion(p) {
      OptionsClickable(p.buttons);
    }
  }

  /** A cached answer is submitted without asking the oracle and without
      touching the tracking globals. */
  lemma CacheHitNoRequest(st: State, q: string, p: Snapshot, hash: string, topic: Option<string>,
                          reply: Reply, buttons: seq<Button>)
    requires Get(st.memory, CacheKey(q, p, hash)).Some?
    ensures var r := Complete(st, q, p, hash, topic, reply, buttons);
      && r.request.None? && r.state == st
      && var a := st.memory[NormalizeQuestion(CacheKey(q, p, hash))].answer;
         (a != [] ==> r.submission == Submit(a, IsNumericQuestion(p), buttons) && r.detect == st.waiting)
  {
  }

  /** An error response leaves everything as it was, including the last
      question, so the same question is not asked again; nothing is
      submitted. */
  lemma OracleErrorKeepsQuestion(st: State, q: string, p: Snapshot, hash: string, topic: Option<string>,
                                 reply: Reply, buttons: seq<Button>)
    requires Get(st.memory, CacheKey(q, p, hash)).None?
    requires reply.Response? && !(reply.success && reply.answer != [])
    ensures var r := Complete(st, q, p, hash, topic, reply, buttons);
      r.state == st && r.submission == NoSubmission && !r.detect
  {
  }

  /** A thrown exception forgets the last question, so it is taken on again. */
  lemma ThrownForgetsQuestion(st: State, q: string, p: Snapshot, hash: string, topic: Option<string>,
                              buttons: seq<Button>)
    requires Get(st.memory, CacheKey(q, p, hash)).None?
    ensures var r := Complete(st, q, p, hash, topic, Thrown, buttons);
      r.state == st.(lastQuestion := []) && r.submission == NoSubmission && !r.detect
  {
  }

  /** Only an answer from the oracle is tracked: on a miss where the oracle
      answered, the question, its answer and its key become the tracked
      triple, `waitingForResult` is set and detection starts ... */
  lemma AnsweredIsTracked(st: State, q: string, p: Snapshot, hash: string, topic: Option<string>,
                          answer: string, error: string, buttons: seq<Button>)
    requires Get(st.memory, CacheKey(q, p, hash)).None? && answer != []
    ensures var r := Complete(st, q, p, hash, topic, Response(true, answer, error), buttons);
      && r.state == st.(tracked := Some(Tracked(q, answer, CacheKey(q, p, hash))), waiting := true)
      && r.detect
      && r.submission == Submit(answer, IsNumericQuestion(p), buttons)
  {
  }

  /** ... and in every other case the tracking globals are left alone and no
      detection starts for this question. */
  lemma OtherwiseNotTracked(st: State, q: string, p: Snapshot, hash: string, topic: Option<string>,
                            reply: Reply, buttons: seq<Button>)
    requires Get(st.memory, CacheKey(q, p, hash)).None?
    requires !(reply.Response? && reply.success && reply.answer != [])
    ensures var r := Complete(st, q, p, hash, topic, reply, buttons);
      r.state.tracked == st.tracked && r.state.waiting == st.waiting && !r.detect
  {
  }

  /** Answering keeps the tracking well formed: a tracked triple has a
      non-empty question and answer, and nothing is awaited untracked;
      detection starts only while something is awaited. */
  lemma CompleteKeepsTracking(st: State, q: string, p: Snapshot, hash: string, topic: Option<string>,
                              reply: Reply, buttons: seq<Button>)
    requires Consistent(st) && (st.waiting ==> st.tracked.Some?) && q != []
    ensures var c := Complete(st, q, p, hash, topic, reply, buttons);
      && Consistent(c.state) && (c.state.waiting ==> c.state.tracked.Some?)
      && (c.detect ==> c.state.waiting)
  {
    var key := CacheKey(q, p, hash);
    if Get(st.memory, key).None? && reply.Response? && reply.success && reply.answer != [] {
      AnsweredIsTracked(st, q, p, hash, topic, reply.answer, reply.error, buttons);
    } else if Get(st.memory, key).None? {
      OtherwiseNotTracked(st, q, p, hash, topic, reply, buttons);
    } else {
      CacheHitNoRequest(st, q, p, hash, topic, reply, buttons);
    }
  }

  /** A failed request is not retried while the page still shows that
      question: after the error and the cool-down, the same snapshot is
      skipped. */
  lemma ErrorNotRetried(st: State, p: Snapshot, hash: string, topic: Option<string>,
                        reply: Reply, buttons: seq<Button>)
    requires var b := Begin(st, p); b.question.Some? && Get(st.memory, CacheKey(b.question.value, p, hash)).None?
    requires reply.Response? && !(reply.success && reply.answer != [])
    ensures var b := Begin(st, p);
      var c := Complete(b.state, b.question.value, p, hash, topic, reply, buttons);
      Begin(Release(c.state), p).question.None?
  {
    var b := Begin(st, p);
    BeginProceeds(st, p);
    var c := Complete(b.state, b.question.value, p, hash, topic, reply, buttons);
    assert c.state.lastQuestion == Trim(p.question.value);
  }

  /** After an exception and the cool-down the same snapshot is taken on
      again. */
  lemma ThrownRetried(st: State, p: Snapshot, hash: string, topic: Option<string>, buttons: seq<Button>)
    requires var b := Begin(st, p); b.question.Some? && Get(st.memory, CacheKey(b.question.value, p, hash)).None?
    ensures var b := Begin(st, p);
      var c := Complete(b.state, b.question.value, p, hash, topic, Thrown, buttons);
      Begin(Release(c.state), p).question == b.question
  {
    var b := Begin(st, p);
    BeginProceeds(st, p);
    var c := Complete(b.state, b.question.value, p, hash, topic, Thrown, buttons);
    assert c.state.lastQuestion == [];
    BeginProceeds(Release(c.state), p);
  }

  // ---------------------------------------------------------------------------
  // Result detection
  // ---------------------------------------------------------------------------

  /** What the result scans see: the text of the green box
      (`div.bg-green-600`), the text of the first yellow-bordered button, a
      button marked wrong (`bg-red-500`) and a red box. */
  datatype View = View(green: Option<string>, yellow: Option<string>, redButton: bool, redIndicator: bool)

  /** One detection run: the triple it saved when it started (the scheduled
      checks' `savedQuestion`/`savedCacheKey`), how many checks have run, and
      whether its observer is still connected. */
  datatype Session = Session(saved: Option<Tracked>, attempts: nat, observing: bool)

  /** A detection step only ever settles: the busy flag and the last question
      are untouched, and the tracking is either kept as it was or cleared —
      detection never starts tracking anything, and never starts waiting. */
  predicate Settles(st: State, r: State) {
    && r.processing == st.processing && r.lastQuestion == st.lastQuestion
    && (r.tracked == st.tracked || r.tracked.None?)
    && (r.waiting ==> st.waiting && r.tracked == st.tracked)
  }

  /** One `saveToMemory(key, answer, true)`. */
  datatype Record = Record(key: string, answer: string)

  /** A save, if any, is under the key of the question tracked beforehand. */
  predicate SavesTracked(st: State, rec: Option<Record>) {
    rec.Some? ==> st.tracked.Some? && rec.value.key == st.tracked.value.key
  }

  /** A detection step: the new state, the run's new state and what it saved. */
  datatype Step = Step(state: State, session: Session, record: Option<Record>)

  /** The store after a step's record. */
  function Apply(m: Store, rec: Option<Record>, now: int): Store {
    match rec
    case None => m
    case Some(x) => Save(m, x.key, x.answer, true, now)
  }

  /** Save the revealed answer under the tracked key when `track` holds, then
      clear the tracking; `waitingForResult` is cleared in every case. */
  function Resolve(st: State, track: bool, answer: string, now: int): (r: (State, Option<Record>))
    ensures !r.0.waiting && Settles(st, r.0)
    ensures track && st.tracked.Some? ==> r.1 == Some(Record(st.tracked.value.key, answer)) && r.0.tracked.None?
    ensures !(track && st.tracked.Some?) ==> r.1.None? && r.0.tracked == st.tracked
    ensures r.0.memory == Apply(st.memory, r.1, now)
  {
    if track && st.tracked.Some? then
      var rec := Some(Record(st.tracked.value.key, answer));
      (st.(memory := Apply(st.memory, rec, now), tracked := None, waiting := false), rec)
    else (st.(waiting := false), None)
  }

  /** The start of `detectAnswerResult` (content.js:56-82 and 255-258): a
      green box already on screen settles the question at once; otherwise a
      run starts, remembering the tracked triple. */
  function Detect(st: State, v: View, now: int): (r: Step)
    ensures r.state.memory == Apply(st.memory, r.record, now) && Settles(st, r.state)
    ensures SavesTracked(st, r.record)
    ensures r.session.observing <==> v.green.None?
    ensures v.green.None? ==> r == Step(st, Session(st.tracked, 0, true), None)
  {
    match v.green
    case Some(g) =>
      var (s, rec) := Resolve(st, HasQuestion(st.tracked), g, now);
      Step(s, Session(None, 0, false), rec)
    case None => Step(st, Session(st.tracked, 0, true), None)
  }

  /** One call of the run's `MutationObserver` callback
      (content.js:88-253): a green box saves under the current key, a
      yellow-bordered button next to a red one does too, a red box alone
      clears the tracking without saving; each disconnects the observer. */
  function Observe(st: State, sess: Session, v: View, now: int): (r: Step)
    ensures r.state.memory == Apply(st.memory, r.record, now) && Settles(st, r.state)
    ensures SavesTracked(st, r.record)
    ensures r.session.saved == sess.saved && r.session.attempts == sess.attempts
  {
    if !sess.observing || !st.waiting then Step(st, sess, None)
    else if v.green.Some? then
      var (s, rec) := Resolve(st, HasAnswer(st.tracked), v.green.value, now);
      Step(s, sess.(observing := false), rec)
    else if v.redButton && v.yellow.Some? then
      var (s, rec) := Resolve(st, HasQuestion(st.tracked), v.yellow.value, now);
      Step(s, sess.(observing := false), rec)
    else if v.redIndicator then
      Step(st.(tracked := None, waiting := false), sess.(observing := false), None)
    else Step(st, sess, None)
  }

  /** The number of scheduled checks (3, 6, 9, 12 and 15 seconds). */
  const CheckDelays: seq<nat> := [3000, 6000, 9000, 12000, 15000]

  /** One scheduled check, `tryFindCorrectAnswer` (content.js:264-321), as
      written: it runs while `waitingForResult` is set, whichever question
      that flag is for, and saves under the run's own key. */
  function TimerFires(st: State, sess: Session, v: View, now: int): (r: Step)
    ensures r.state.memory == Apply(st.memory, r.record, now) && Settles(st, r.state)
    ensures r.record.Some? ==> sess.saved.Some? && r.record.value.key == sess.saved.value.key
  {
    if !st.waiting || !HasQuestion(sess.saved) then Step(st, sess, None)
    else
      var next := sess.(attempts := sess.attempts + 1);
      var found := if v.green.Some? then v.green else v.yellow;
      match found
      case Some(a) =>
        var rec := Some(Record(sess.saved.value.key, a));
        Step(st.(memory := Apply(st.memory, rec, now), tracked := None, waiting := false),
             next.(observing := false), rec)
      case None =>
        if next.attempts >= |CheckDelays| then
          Step(st.(tracked := None, waiting := false), next.(observing := false), None)
        else Step(st, next, None)
  }

  /** A green box seen by the immediate check saves its text under the
      tracked key, whether or not it matches the submitted answer, and ends
      the wait. */
  lemma DetectGreenSaves(st: State, v: View, now: int)
    requires Consistent(st) && v.green.Some?
    ensures var r := Detect(st, v, now);
      && !r.state.waiting && r.state.tracked.None? && !r.session.observing
      && (st.tracked.Some? ==> r.record == Some(Record(st.tracked.value.key, v.green.value)))
      && (st.tracked.None? ==> r.record.None?)
  {
  }

  /** The observer's green box and yellow-bordered button both save the
      revealed text as correct under the tracked key. */
  lemma ObserveRevealSaves(st: State, sess: Session, v: View, now: int)
    requires Consistent(st) && st.tracked.Some? && sess.observing && st.waiting
    requires v.green.Some? || (v.redButton && v.yellow.Some?)
    ensures var r := Observe(st, sess, v, now);
      && r.record == Some(Record(st.tracked.value.key, if v.green.Some? then v.green.value else v.yellow.value))
      && r.state.tracked.None? && !r.state.waiting && !r.session.observing
  {
  }

  /** A red box on its own clears the tracking without saving anything. */
  lemma ObserveRedClears(st: State, sess: Session, v: View, now: int)
    requires sess.observing && st.waiting
    requires v.green.None? && !(v.redButton && v.yellow.Some?) && v.redIndicator
    ensures Observe(st, sess, v, now) ==
      Step(st.(tracked := None, waiting := false), sess.(observing := false), None)
  {
  }

  /** A yellow border without a red button is not a result for the observer. */
  lemma ObserveYellowNeedsRed(st: State, sess: Session, v: View, now: int)
    requires v.green.None? && !v.redButton && !v.redIndicator
    ensures Observe(st, sess, v, now) == Step(st, sess, None)
  {
  }

  /** Scheduled checks that find nothing, one per view. */
  function FireAll(st: State, sess: Session, vs: seq<View>, now: int): (r: Step)
    decreases |vs|
  {
    if vs == [] then Step(st, sess, None)
    else
      var s := TimerFires(st, sess, vs[0], now);
      FireAll(s.state, s.session, vs[1..], now)
  }

  /** The run gives up after its checks: once each of them has fired,
      `waitingForResult` is false even when no result ever appeared. */
  lemma {:induction false} FireAllGivesUp(st: State, sess: Session, vs: seq<View>, now: int)
    requires HasQuestion(sess.saved) && sess.attempts + |vs| >= |CheckDelays|
    requires sess.attempts < |CheckDelays| || !st.waiting
    ensures !FireAll(st, sess, vs, now).state.waiting
    decreases |vs|
  {
    if vs != [] {
      var s := TimerFires(st, sess, vs[0], now);
      if !st.waiting {
        assert !s.state.waiting;
        FireAllStopped(s.state, s.session, vs[1..], now);
      } else {
        assert s.session.saved == sess.saved && s.session.attempts == sess.attempts + 1;
        FireAllGivesUp(s.state, s.session, vs[1..], now);
      }
    }
  }

  /** Once `waitingForResult` is false, scheduled checks do nothing. */
  lemma {:induction false} FireAllStopped(st: State, sess: Session, vs: seq<View>, now: int)
    requires !st.waiting
    ensures FireAll(st, sess, vs, now) == Step(st, sess, None)
    decreases |vs|
  {
    if vs != [] {
      FireAllStopped(st, sess, vs[1..], now);
    }
  }

  // ---------------------------------------------------------------------------
  // Stale tracking, as written and corrected
  // ---------------------------------------------------------------------------

  /** As written, a question answered from the cache leaves the previous
      question's tracking and `waitingForResult` in place, and the detection
      it starts saves this question's revealed answer under the previous
      question's key. */
  lemma StaleTrackingOnCacheHit(st: State, q: string, p: Snapshot, hash: string, topic: Option<string>,
                                reply: Reply, buttons: seq<Button>, v: View, now: int)
    requires st.waiting && HasQuestion(st.tracked)
    requires Get(st.memory, CacheKey(q, p, hash)).Some? && Get(st.memory, CacheKey(q, p, hash)).value.answer != []
    requires v.green.Some?
    ensures var c := Complete(st, q, p, hash, topic, reply, buttons);
      && c.detect && c.state.tracked == st.tracked
      && Detect(c.state, v, now).record == Some(Record(st.tracked.value.key, v.green.value))
  {
    CacheHitNoRequest(st, q, p, hash, topic, reply, buttons);
  }

  /** The previous question's tracking abandoned, as a new question should. */
  function Abandon(st: State): (r: State)
    ensures r.tracked.None? && !r.waiting
    ensures r.processing == st.processing && r.lastQuestion == st.lastQuestion && r.memory == st.memory
  {
    st.(tracked := None, waiting := false)
  }

  /** `checkForQuestion` with the previous question's tracking abandoned
      before the new one is answered. */
  function CompleteFixed(st: State, q: string, p: Snapshot, hash: string, topic: Option<string>,
                         reply: Reply, buttons: seq<Button>): (r: Completed)
    ensures r.state.memory == st.memory && r.state.processing == st.processing
    ensures r.request.Some? <==> Get(st.memory, CacheKey(q, p, hash)).None?
  {
    Complete(Abandon(st), q, p, hash, topic, reply, buttons)
  }

  /** Corrected: after a question is answered, whatever is being waited for
      is that question, under its own key, with the answer the oracle gave;
      detection starts only for it. */
  lemma CompleteFixedTracksCurrent(st: State, q: string, p: Snapshot, hash: string, topic: Option<string>,
                                   reply: Reply, buttons: seq<Button>)
    ensures var c := CompleteFixed(st, q, p, hash, topic, reply, buttons);
      && (c.state.waiting <==> c.state.tracked.Some?)
      && (c.detect <==> c.state.waiting)
      && (c.state.waiting ==>
            && Get(st.memory, CacheKey(q, p, hash)).None?
            && reply.Response? && reply.success
            && c.state.tracked == Some(Tracked(q, reply.answer, CacheKey(q, p, hash))))
  {
    var key := CacheKey(q, p, hash);
    if Get(st.memory, key).None? && reply.Response? && reply.success && reply.answer != [] {
      AnsweredIsTracked(Abandon(st), q, p, hash, topic, reply.answer, reply.error, buttons);
    } else if Get(st.memory, key).None? {
      OtherwiseNotTracked(Abandon(st), q, p, hash, topic, reply, buttons);
    } else {
      CacheHitNoRequest(Abandon(st), q, p, hash, topic, reply, buttons);
    }
  }

  /** Corrected, end to end: a green box seen once the question is answered
      is saved under that question's own key. */
  lemma FixedDetectSavesCurrent(st: State, q: string, p: Snapshot, hash: string, topic: Option<string>,
                                reply: Reply, buttons: seq<Button>, v: View, now: int)
    requires q != [] && v.green.Some?
    ensures var c := CompleteFixed(st, q, p, hash, topic, reply, buttons);
      c.detect ==> Detect(c.state, v, now).record == Some(Record(CacheKey(q, p, hash), v.green.value))
  {
    CompleteFixedTracksCurrent(st, q, p, hash, topic, reply, buttons);
  }

  /** As written, a scheduled check of an earlier run still fires once a
      later question has set `waitingForResult`: it saves the revealed answer
      under its own, earlier key and drops the later question's tracking, so
      the later question's result is recorded under the earlier question's
      key instead of its own. */
  lemma StaleTimerSavesUnderOldKey(st: State, sess: Session, v: View, now: int)
    requires HasQuestion(sess.saved) && st.waiting && st.tracked != sess.saved
    requires v.green.Some?
    ensures var r := TimerFires(st, sess, v, now);
      && r.record == Some(Record(sess.saved.value.key, v.green.value))
      && r.state.tracked.None? && !r.state.waiting
  {
  }

  /** A scheduled check whose run is no longer the one being waited for does
      nothing, as a cancelled timer would. */
  function TimerFiresFixed(st: State, sess: Session, v: View, now: int): (r: Step)
    ensures r.state.memory == Apply(st.memory, r.record, now) && Settles(st, r.state)
    ensures SavesTracked(st, r.record)
  {
    if sess.saved != st.tracked then Step(st, sess, None)
    else TimerFires(st, sess, v, now)
  }

  /** The correction changes nothing for the run being waited for. */
  lemma TimerFixedAgrees(st: State, sess: Session, v: View, now: int)
    requires sess.saved == st.tracked
    ensures TimerFiresFixed(st, sess, v, now) == TimerFires(st, sess, v, now)
  {
  }
}
