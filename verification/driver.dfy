/** The content script as a whole: the controller's state, the question
    being answered, the submission in progress, the detections scheduled
    and every detection run started so far, driven by the events that reach
    it (a poll of the page, the end of an answer, the submission, a
    scheduled detection, the cool-down, an observer callback, a scheduled
    check). `fixed` selects the corrected variants of `checkForQuestion` and
    of the scheduled check. */
module Driver {
  import opened Wrappers
  import opened Normalize
  import opened Memory
  import opened Page
  import opened Controller

  /** `pending` is the question taken on and not yet answered;
      `submitting` holds between the tracking of an answer and the end of
      the submit delay; `armed` counts the `detectAnswerResult` calls
      scheduled and not yet run. */
  datatype World = World(state: State, pending: Option<string>, submitting: bool, armed: nat, runs: seq<Session>)

  /** What can happen next. `Answer` is the work from the first delay to the
      submit delay (content.js:733-830); `Submit` the submission, the
      `waitingForResult` test that schedules detection and the `finally`
      block (content.js:832-853); `Fire` a scheduled `detectAnswerResult`
      starting on the page `v`. */
  datatype Event =
    | Poll(p: Snapshot)
    | Answer(p: Snapshot, hash: string, topic: Option<string>, reply: Reply, buttons: seq<Button>)
    | Submit
    | Fire(v: View, now: int)
    | Cool
    | Mutation(run: nat, v: View, now: int)
    | Tick(run: nat, v: View, now: int)

  /** A world after an event, and the save the event made. */
  datatype Moved = Moved(world: World, record: Option<Record>)

  /** A poll: `checkForQuestion` is called unless a question is in flight. */
  function OnPoll(w: World, p: Snapshot): (r: Moved)
    ensures r.record.None? && r.world.runs == w.runs && r.world.armed == w.armed && r.world.submitting == w.submitting
    ensures w.pending.Some? || w.submitting ==> r.world == w
    ensures w.pending.None? && !w.submitting ==>
      r.world.state == Begin(w.state, p).state && r.world.pending == Begin(w.state, p).question
  {
    if w.pending.Some? || w.submitting then Moved(w, None)
    else
      var b := Begin(w.state, p);
      Moved(w.(state := b.state, pending := b.question), None)
  }

  /** The pending question is answered: looked up, asked for and tracked.
      When there is an answer to submit, the submit delay starts; otherwise
      the `finally` block runs at once. */
  function OnAnswer(w: World, p: Snapshot, hash: string, topic: Option<string>, reply: Reply,
                    buttons: seq<Button>, fixed: bool): (r: Moved)
    ensures r.record.None? && r.world.state.memory == w.state.memory
    ensures r.world.pending.None? && r.world.armed == w.armed && r.world.runs == w.runs
    ensures w.pending.None? ==> r.world == w
  {
    if w.pending.None? then Moved(w, None)
    else
      var q := w.pending.value;
      // with `fixed`, this is `CompleteFixed`
      var c := Complete(if fixed then Abandon(w.state) else w.state, q, p, hash, topic, reply, buttons);
      Moved(w.(state := c.state, pending := None, submitting := c.submission != NoSubmission), None)
  }

  /** The answer is put on the page, and detection is scheduled when
      `waitingForResult` is set at that moment, whoever set it. */
  function OnSubmit(w: World): (r: Moved)
    ensures r.record.None? && r.world.state == w.state && !r.world.submitting
    ensures w.submitting ==> r.world.armed == (if w.state.waiting then w.armed + 1 else w.armed)
    ensures !w.submitting ==> r.world == w
  {
    if !w.submitting then Moved(w, None)
    else Moved(w.(submitting := false, armed := if w.state.waiting then w.armed + 1 else w.armed), None)
  }

  /** A scheduled `detectAnswerResult` runs on what is tracked when it runs. */
  function OnFire(w: World, v: View, now: int): (r: Moved)
    ensures r.world.state.memory == Apply(w.state.memory, r.record, now)
    ensures Settles(w.state, r.world.state) && SavesTracked(w.state, r.record)
    ensures w.armed > 0 ==> r.world.armed == w.armed - 1 && |r.world.runs| == |w.runs| + 1
    ensures w.armed == 0 ==> r.world == w
  {
    if w.armed == 0 then Moved(w, None)
    else
      var d := Detect(w.state, v, now);
      Moved(w.(state := d.state, armed := w.armed - 1, runs := w.runs + [d.session]), d.record)
  }

  /** The cool-down ends once nothing is in flight. In the source its timer
      is set after the detection timer and runs longer, so it fires after
      it; here the two may come in either order. */
  function OnCool(w: World): (r: Moved)
    ensures r.record.None? && r.world.pending == w.pending && r.world.submitting == w.submitting
    ensures w.pending.None? && !w.submitting ==> r.world == w.(state := Release(w.state))
    ensures w.pending.Some? || w.submitting ==> r.world == w
  {
    if w.pending.Some? || w.submitting then Moved(w, None)
    else Moved(w.(state := Release(w.state)), None)
  }

  /** Run `i`'s observer callback, or its scheduled check. */
  function OnRun(w: World, i: nat, v: View, now: int, tick: bool, fixed: bool): (r: Moved)
    ensures r.world.state.memory == Apply(w.state.memory, r.record, now)
    ensures Settles(w.state, r.world.state)
    ensures r.world.pending == w.pending && r.world.submitting == w.submitting && r.world.armed == w.armed
    ensures fixed || !tick ==> SavesTracked(w.state, r.record)
  {
    if i >= |w.runs| then Moved(w, None)
    else
      var s := if !tick then Observe(w.state, w.runs[i], v, now)
               else if fixed then TimerFiresFixed(w.state, w.runs[i], v, now)
               else TimerFires(w.state, w.runs[i], v, now);
      Moved(w.(state := s.state, runs := w.runs[i := s.session]), s.record)
  }

  function Next(w: World, e: Event, fixed: bool): (r: Moved) {
    match e
    case Poll(p) => OnPoll(w, p)
    case Answer(p, hash, topic, reply, buttons) => OnAnswer(w, p, hash, topic, reply, buttons, fixed)
    case Submit => OnSubmit(w)
    case Fire(v, now) => OnFire(w, v, now)
    case Cool => OnCool(w)
    case Mutation(i, v, now) => OnRun(w, i, v, now, false, fixed)
    case Tick(i, v, now) => OnRun(w, i, v, now, true, fixed)
  }

  /** What stays true however the events arrive: the tracked triple is never
      blank, nothing is awaited without being tracked, a question in flight
      (pending or being submitted) holds the busy flag, a pending question
      is non-empty, and every record in the store is clean — confirmed only,
      never contradicted — because the controller only ever saves revealed
      answers as correct. */
  predicate Inv(w: World) {
    && StateInv(w.state)
    && (w.pending.Some? ==> w.pending.value != [] && w.state.processing && !w.submitting)
    && (w.submitting ==> w.state.processing)
  }

  lemma InitialInv(m: Store)
    requires CleanStore(m)
    ensures Inv(World(Initial(m), None, false, 0, []))
  {
  }

  /** Saving answers as correct keeps a store clean. */
  lemma ApplyClean(m: Store, rec: Option<Record>, now: int)
    requires CleanStore(m)
    ensures CleanStore(Apply(m, rec, now))
  {
    if rec.Some? {
      SaveCorrectClean(m, SaveCall(NormalizeQuestion(rec.value.key), rec.value.answer, now));
    }
  }

  lemma PollInv(w: World, p: Snapshot)
    requires Inv(w)
    ensures Inv(OnPoll(w, p).world)
  {
  }

  /** Answering keeps the invariant: what it tracks is the pending,
      non-empty question with a non-empty answer, tracked and awaited
      together, and the busy flag stays set for the submission. */
  lemma AnswerInv(w: World, p: Snapshot, hash: string, topic: Option<string>, reply: Reply,
                  buttons: seq<Button>, fixed: bool)
    requires Inv(w)
    ensures Inv(OnAnswer(w, p, hash, topic, reply, buttons, fixed).world)
  {
    if w.pending.Some? {
      var st := if fixed then Abandon(w.state) else w.state;
      CompleteKeepsTracking(st, w.pending.value, p, hash, topic, reply, buttons);
    }
  }

  lemma SubmitInv(w: World)
    requires Inv(w)
    ensures Inv(OnSubmit(w).world)
  {
  }

  /** The state part of the invariant. */
  predicate StateInv(st: State) {
    Consistent(st) && CleanStore(st.memory) && (st.waiting ==> st.tracked.Some?)
  }

  /** A detection step keeps the state part of the invariant. */
  lemma SettleInv(st: State, r: State, rec: Option<Record>, now: int)
    requires StateInv(st) && Settles(st, r) && r.memory == Apply(st.memory, rec, now)
    ensures StateInv(r)
  {
    ApplyClean(st.memory, rec, now);
  }

  lemma FireInv(w: World, v: View, now: int)
    requires Inv(w)
    ensures Inv(OnFire(w, v, now).world)
  {
    var r := OnFire(w, v, now);
    SettleInv(w.state, r.world.state, r.record, now);
  }

  lemma CoolInv(w: World)
    requires Inv(w)
    ensures Inv(OnCool(w).world)
  {
  }

  lemma RunStepInv(w: World, i: nat, v: View, now: int, tick: bool, fixed: bool)
    requires Inv(w)
    ensures Inv(OnRun(w, i, v, now, tick, fixed).world)
  {
    var r := OnRun(w, i, v, now, tick, fixed);
    SettleInv(w.state, r.world.state, r.record, now);
  }

  /** Every event keeps the invariant, in the code as written and corrected. */
  lemma NextInv(w: World, e: Event, fixed: bool)
    requires Inv(w)
    ensures Inv(Next(w, e, fixed).world)
  {
    match e
    case Poll(p) => PollInv(w, p);
    case Answer(p, hash, topic, reply, buttons) => AnswerInv(w, p, hash, topic, reply, buttons, fixed);
    case Submit => SubmitInv(w);
    case Fire(v, now) => FireInv(w, v, now);
    case Cool => CoolInv(w);
    case Mutation(i, v, now) => RunStepInv(w, i, v, now, false, fixed);
    case Tick(i, v, now) => RunStepInv(w, i, v, now, true, fixed);
  }

  /** The worlds a sequence of events passes through, ending with the last. */
  function Run(w: World, es: seq<Event>, fixed: bool): World
    decreases |es|
  {
    if es == [] then w else Run(Next(w, es[0], fixed).world, es[1..], fixed)
  }

  /** The invariant holds after any sequence of events. */
  lemma {:induction false} RunInv(w: World, es: seq<Event>, fixed: bool)
    requires Inv(w)
    ensures Inv(Run(w, es, fixed))
    decreases |es|
  {
    if es != [] {
      NextInv(w, es[0], fixed);
      RunInv(Next(w, es[0], fixed).world, es[1..], fixed);
    }
  }

  /** With the corrections, answering a question, submitting it and running
      the detection that schedules saves, if anything, under the key of the
      question just answered. */
  lemma FixedAnswerSavesCurrent(w: World, p: Snapshot, hash: string, topic: Option<string>, reply: Reply,
                                buttons: seq<Button>, v: View, now: int)
    requires Inv(w) && w.pending.Some?
    ensures var w1 := OnAnswer(w, p, hash, topic, reply, buttons, true).world;
      var r := OnFire(OnSubmit(w1).world, v, now);
      r.record.Some? ==> r.record.value.key == CacheKey(w.pending.value, p, hash)
  {
    var w1 := OnAnswer(w, p, hash, topic, reply, buttons, true).world;
    CompleteFixedTracksCurrent(w.state, w.pending.value, p, hash, topic, reply, buttons);
    assert w1.state == CompleteFixed(w.state, w.pending.value, p, hash, topic, reply, buttons).state;
  }

  /** As written, the last scheduled check of an earlier run, firing during
      the submit delay of a newly tracked question, clears
      `waitingForResult`: the submission then schedules no detection, and
      the new question's result is never recorded. */
  lemma StaleTimerCancelsDetection(w: World, i: nat, v: View, now: int)
    requires Inv(w) && w.submitting && w.state.waiting
    requires i < |w.runs| && HasQuestion(w.runs[i].saved)
    requires w.runs[i].attempts + 1 >= |CheckDelays| && v.green.None? && v.yellow.None?
    ensures var w1 := OnRun(w, i, v, now, true, false).world;
      && !w1.state.waiting && w1.state.tracked.None?
      && OnSubmit(w1).world.armed == w.armed
  {
  }

  /** Corrected: a scheduled check of another question's run leaves the world
      alone, so the submission schedules the new question's detection. */
  lemma FixedTimerKeepsDetection(w: World, i: nat, v: View, now: int)
    requires Inv(w) && w.submitting && w.state.waiting
    requires i < |w.runs| && w.runs[i].saved != w.state.tracked
    ensures var w1 := OnRun(w, i, v, now, true, true).world;
      w1.state == w.state && OnSubmit(w1).world.armed == w.armed + 1
  {
  }
}
