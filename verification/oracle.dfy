/** The background service worker (background.js): the prompt built for a
    question, the chain of chat models tried with retries and back-off, and
    the reply sent back to the content script. The chat service is a
    parameter `respond`: what the request for a given model and attempt comes
    to. */
module Oracle {
  import opened Wrappers
  import opened Text
  import opened Numeric
  import opened Controller

  // ---------------------------------------------------------------------------
  // Retry and fallback (background.js:4-104)
  // ---------------------------------------------------------------------------

  /** The models tried, in order, for a question without an image. */
  const TextChain: seq<string> := [
    "llama-3.3-70b-versatile", "llama-3.1-70b-versatile", "llama3-70b-8192",
    "mixtral-8x7b-32768", "gemma2-9b-it"]

  /** The models tried, in order, for a question with an image. */
  const VisionChain: seq<string> := ["llama-3.2-90b-vision-preview", "llama-3.2-11b-vision-preview"]

  /** The attempts each model gets (`maxRetries = 3`). */
  const MaxRetries: nat := 3

  /** The error reported when no request was made at all. */
  const AllFailed: string := "All AI models failed"

  /** One request: the position of its model in the chain, and the attempt
      number for that model, counted from 1. */
  datatype Call = Call(model: nat, attempt: nat)

  /** What one request comes to: an ok response whose first choice carries
      `content`, a response that is not ok, or an exception (a network
      failure, or a body without the expected shape). */
  datatype Outcome = Ok(content: string) | NotOk(status: nat, body: string) | Threw(message: string)

  /** The message of the error raised for a response that is not ok. */
  function StatusError(status: nat, body: string): string {
    "Groq API error: " + NatToString(status) + " - " + body
  }

  /** Rate limiting (429) and server errors (5xx) abandon the model at once. */
  predicate MovesOn(o: Outcome) {
    o.NotOk? && (o.status == 429 || o.status >= 500)
  }

  /** The message a failed request leaves in `lastError`. */
  function ErrorOf(o: Outcome): string
    requires !o.Ok?
  {
    match o
    case NotOk(status, body) => StatusError(status, body)
    case Threw(message) => message
  }

  /** `lastError || new Error('All AI models failed')`, where the loops
      keep the last failed outcome. */
  function LastError(last: Option<Outcome>): string {
    match last
    case Some(NotOk(status, body)) => StatusError(status, body)
    case Some(Threw(message)) => message
    case _ => AllFailed
  }

  function Pow2(k: nat): (r: nat)
    ensures r >= 1
  {
    if k == 0 then 1 else 2 * Pow2(k - 1)
  }

  /** The wait after a failed attempt that is not the model's last:
      `min(1000 * 2^(attempt - 1), 5000)` milliseconds. */
  function Backoff(attempt: nat): (ms: nat)
    requires attempt >= 1
    ensures 1000 <= ms <= 5000
  {
    var d := 1000 * Pow2(attempt - 1);
    if d < 5000 then d else 5000
  }

  /** The first wait is a second, and each wait doubles the previous one
      until the five-second cap. */
  lemma BackoffDoubles(attempt: nat)
    requires attempt >= 1
    ensures Backoff(1) == 1000
    ensures Backoff(attempt + 1) == if 2 * Backoff(attempt) < 5000 then 2 * Backoff(attempt) else 5000
  {
  }

  /** A request made, and the wait that followed it (`None` when the next
      request, if any, came at once). */
  datatype Attempt = Attempt(call: Call, pause: Option<nat>)

  /** A successful answer: the trimmed content, the model, the attempt. */
  datatype Win = Win(answer: string, model: string, attempt: nat)

  /** The requests made, in order, and how `callGroqAPIWithFallback` ends:
      with a win, or by throwing the last failure (`None`: no request was
      made), whose message is `LastError`. */
  datatype Trace = Trace(steps: seq<Attempt>, result: Result<Win, Option<Outcome>>)

  function Then(s: Attempt, t: Trace): Trace {
    Trace([s] + t.steps, t.result)
  }

  /** The nested loops of `callGroqAPIWithFallback`, from attempt `a` of the
      model at position `m`, with `last` the last failed outcome. */
  function Try(chain: seq<string>, retries: nat, respond: Call -> Outcome, m: nat, a: nat, last: Option<Outcome>): Trace
    requires 1 <= a <= retries + 1
    decreases |chain| - m, retries + 1 - a
  {
    if m >= |chain| then Trace([], Failure(last))
    else if a > retries then Try(chain, retries, respond, m + 1, 1, last)
    else
      var c := Call(m, a);
      var o := respond(c);
      if o.Ok? then Trace([Attempt(c, None)], Success(Win(Trim(o.content), chain[m], a)))
      else if MovesOn(o) then Then(Attempt(c, None), Try(chain, retries, respond, m + 1, 1, Some(o)))
      else Then(Attempt(c, if a < retries then Some(Backoff(a)) else None),
                Try(chain, retries, respond, m, a + 1, Some(o)))
  }

  /** `callGroqAPIWithFallback(apiKey, messages, hasImage, retries)`. */
  function Fallback(chain: seq<string>, retries: nat, respond: Call -> Outcome): Trace {
    Try(chain, retries, respond, 0, 1, None)
  }

  /** One turn of the loops: a model out of attempts hands over to the next. */
  lemma TrySkip(chain: seq<string>, retries: nat, respond: Call -> Outcome, m: nat, a: nat, last: Option<Outcome>)
    requires a == retries + 1 && m < |chain|
    ensures Try(chain, retries, respond, m, a, last) == Try(chain, retries, respond, m + 1, 1, last)
  {
  }

  /** One turn of the loops: a success ends them. */
  lemma TryOk(chain: seq<string>, retries: nat, respond: Call -> Outcome, m: nat, a: nat, last: Option<Outcome>)
    requires 1 <= a <= retries && m < |chain| && respond(Call(m, a)).Ok?
    ensures Try(chain, retries, respond, m, a, last)
         == Trace([Attempt(Call(m, a), None)], Success(Win(Trim(respond(Call(m, a)).content), chain[m], a)))
  {
  }

  /** One turn of the loops: a failure is recorded with its back-off and the
      loops go on from the next model or the next attempt. */
  lemma TryFail(chain: seq<string>, retries: nat, respond: Call -> Outcome, m: nat, a: nat, last: Option<Outcome>)
    requires 1 <= a <= retries && m < |chain| && !respond(Call(m, a)).Ok?
    ensures var o := respond(Call(m, a));
      Try(chain, retries, respond, m, a, last)
        == Then(Attempt(Call(m, a), PauseAfter(retries, Call(m, a), o)),
                if MovesOn(o) then Try(chain, retries, respond, m + 1, 1, Some(o))
                else Try(chain, retries, respond, m, a + 1, Some(o)))
  {
  }

  // The order of requests, stated independently of the loops.

  /** A request for an existing model and an allowed attempt. */
  predicate InChain(chain: seq<string>, retries: nat, c: Call) {
    c.model < |chain| && 1 <= c.attempt <= retries
  }

  /** The request after a failed one: the next model after a rate limit, a
      server error or the model's last attempt, otherwise the next attempt. */
  function NextCall(retries: nat, c: Call, o: Outcome): Call {
    if MovesOn(o) || c.attempt >= retries then Call(c.model + 1, 1) else Call(c.model, c.attempt + 1)
  }

  /** The wait after a request: back-off after a failure that is retried. */
  function PauseAfter(retries: nat, c: Call, o: Outcome): Option<nat>
    requires c.attempt >= 1
  {
    if !o.Ok? && !MovesOn(o) && c.attempt < retries then Some(Backoff(c.attempt)) else None
  }

  /** The first request made from attempt `a` of model `m`. */
  function Entry(retries: nat, m: nat, a: nat): Call {
    if a <= retries then Call(m, a) else Call(m + 1, 1)
  }

  /** Every request of `s` is for a model of the chain and an allowed
      attempt, and each later one is the request that follows the failure
      of the one before. */
  predicate Follows(chain: seq<string>, retries: nat, respond: Call -> Outcome, s: seq<Attempt>) {
    && (forall i :: 0 <= i < |s| ==> InChain(chain, retries, s[i].call))
    && (forall i :: 0 <= i < |s| - 1 ==>
          !respond(s[i].call).Ok? && s[i + 1].call == NextCall(retries, s[i].call, respond(s[i].call)))
  }

  lemma FollowsCons(chain: seq<string>, retries: nat, respond: Call -> Outcome, x: Attempt, s: seq<Attempt>)
    requires InChain(chain, retries, x.call) && Follows(chain, retries, respond, s)
    requires s != [] ==> !respond(x.call).Ok? && s[0].call == NextCall(retries, x.call, respond(x.call))
    ensures Follows(chain, retries, respond, [x] + s)
  {
    assert forall i :: 1 <= i < |[x] + s| ==> ([x] + s)[i] == s[i - 1];
  }

  /** Every request is for a model of the chain and an allowed attempt; the
      first is the entry point, and each later one is the request that
      follows the failure of the one before. */
  lemma {:induction false} TryCalls(chain: seq<string>, retries: nat, respond: Call -> Outcome, m: nat, a: nat, last: Option<Outcome>)
    requires 1 <= a <= retries + 1
    ensures var s := Try(chain, retries, respond, m, a, last).steps;
      && Follows(chain, retries, respond, s)
      && (s != [] ==> s[0].call == Entry(retries, m, a))
    decreases |chain| - m, retries + 1 - a
  {
    if m < |chain| {
      if a > retries {
        TrySkip(chain, retries, respond, m, a, last);
        TryCalls(chain, retries, respond, m + 1, 1, last);
      } else if respond(Call(m, a)).Ok? {
        TryOk(chain, retries, respond, m, a, last);
      } else {
        var o := respond(Call(m, a));
        var next := if MovesOn(o) then m + 1 else m;
        var na := if MovesOn(o) then 1 else a + 1;
        TryFail(chain, retries, respond, m, a, last);
        TryCalls(chain, retries, respond, next, na, Some(o));
        var t := Try(chain, retries, respond, next, na, Some(o));
        var x := Attempt(Call(m, a), PauseAfter(retries, Call(m, a), o));
        FollowsCons(chain, retries, respond, x, t.steps);
      }
    }
  }

  /** Every request of `s` is followed by the back-off its outcome calls for. */
  predicate Paced(retries: nat, respond: Call -> Outcome, s: seq<Attempt>) {
    forall i :: 0 <= i < |s| ==> s[i].call.attempt >= 1 && s[i].pause == PauseAfter(retries, s[i].call, respond(s[i].call))
  }

  lemma PacedCons(retries: nat, respond: Call -> Outcome, x: Attempt, s: seq<Attempt>)
    requires x.call.attempt >= 1 && x.pause == PauseAfter(retries, x.call, respond(x.call))
    requires Paced(retries, respond, s)
    ensures Paced(retries, respond, [x] + s)
  {
    assert forall i :: 1 <= i < |[x] + s| ==> ([x] + s)[i] == s[i - 1];
  }

  /** Every request is followed by the back-off its outcome calls for. */
  lemma {:induction false} TryPauses(chain: seq<string>, retries: nat, respond: Call -> Outcome, m: nat, a: nat, last: Option<Outcome>)
    requires 1 <= a <= retries + 1
    ensures Paced(retries, respond, Try(chain, retries, respond, m, a, last).steps)
    decreases |chain| - m, retries + 1 - a
  {
    if m < |chain| {
      if a > retries {
        TrySkip(chain, retries, respond, m, a, last);
        TryPauses(chain, retries, respond, m + 1, 1, last);
      } else if respond(Call(m, a)).Ok? {
        TryOk(chain, retries, respond, m, a, last);
      } else {
        var o := respond(Call(m, a));
        var next := if MovesOn(o) then m + 1 else m;
        var na := if MovesOn(o) then 1 else a + 1;
        TryFail(chain, retries, respond, m, a, last);
        TryPauses(chain, retries, respond, next, na, Some(o));
        var t := Try(chain, retries, respond, next, na, Some(o));
        PacedCons(retries, respond, Attempt(Call(m, a), PauseAfter(retries, Call(m, a), o)), t.steps);
      }
    }
  }

  /** No request is made exactly when the chain is already exhausted, and
      then the result is the failure carried in (at first none, whose
      message reads 'All AI models failed'). */
  lemma {:induction false} TryEmpty(chain: seq<string>, retries: nat, respond: Call -> Outcome, m: nat, a: nat, last: Option<Outcome>)
    requires 1 <= a <= retries + 1
    ensures var t := Try(chain, retries, respond, m, a, last);
      && (t.steps == [] <==> Entry(retries, m, a).model >= |chain| || retries == 0)
      && (t.steps == [] ==> t.result == Failure(last))
    decreases |chain| - m, retries + 1 - a
  {
    if m < |chain| {
      if a > retries {
        TrySkip(chain, retries, respond, m, a, last);
        TryEmpty(chain, retries, respond, m + 1, 1, last);
      } else if respond(Call(m, a)).Ok? {
        TryOk(chain, retries, respond, m, a, last);
      } else {
        TryFail(chain, retries, respond, m, a, last);
      }
    }
  }

  /** How a trace with requests ends: with the trimmed content of its last
      request when that succeeded, and otherwise with that request's error
      once no model or attempt is left. */
  predicate Concludes(chain: seq<string>, retries: nat, respond: Call -> Outcome, t: Trace) {
    t.steps != [] &&
    var c := t.steps[|t.steps| - 1].call;
    var o := respond(c);
    && c.model < |chain|
    && (t.result.Success? <==> o.Ok?)
    && (o.Ok? ==> t.result.value == Win(Trim(o.content), chain[c.model], c.attempt))
    && (!o.Ok? ==> t.result.error == Some(o) && NextCall(retries, c, o).model >= |chain|)
  }

  lemma ConcludesThen(chain: seq<string>, retries: nat, respond: Call -> Outcome, x: Attempt, t: Trace)
    requires Concludes(chain, retries, respond, t)
    ensures Concludes(chain, retries, respond, Then(x, t))
  {
    assert Then(x, t).steps[|Then(x, t).steps| - 1] == t.steps[|t.steps| - 1];
  }

  /** The result of a trace with requests is decided by its last request. */
  lemma {:induction false} TryResult(chain: seq<string>, retries: nat, respond: Call -> Outcome, m: nat, a: nat, last: Option<Outcome>)
    requires 1 <= a <= retries + 1
    ensures var t := Try(chain, retries, respond, m, a, last);
      t.steps != [] ==> Concludes(chain, retries, respond, t)
    decreases |chain| - m, retries + 1 - a
  {
    if m < |chain| {
      if a > retries {
        TrySkip(chain, retries, respond, m, a, last);
        TryResult(chain, retries, respond, m + 1, 1, last);
      } else if respond(Call(m, a)).Ok? {
        TryOk(chain, retries, respond, m, a, last);
      } else {
        var o := respond(Call(m, a));
        var next := if MovesOn(o) then m + 1 else m;
        var na := if MovesOn(o) then 1 else a + 1;
        TryResult(chain, retries, respond, next, na, Some(o));
        FailConcludes(chain, retries, respond, m, a, last, next, na);
      }
    }
  }

  /** A failed request followed by a trace that concludes, or by none,
      concludes. */
  lemma FailConcludes(chain: seq<string>, retries: nat, respond: Call -> Outcome, m: nat, a: nat, last: Option<Outcome>, next: nat, na: nat)
    requires 1 <= a <= retries && m < |chain| && !respond(Call(m, a)).Ok?
    requires next == (if MovesOn(respond(Call(m, a))) then m + 1 else m)
    requires na == (if MovesOn(respond(Call(m, a))) then 1 else a + 1)
    requires var t := Try(chain, retries, respond, next, na, Some(respond(Call(m, a))));
      t.steps != [] ==> Concludes(chain, retries, respond, t)
    ensures Concludes(chain, retries, respond, Try(chain, retries, respond, m, a, last))
  {
    var o := respond(Call(m, a));
    TryFail(chain, retries, respond, m, a, last);
    var t := Try(chain, retries, respond, next, na, Some(o));
    var x := Attempt(Call(m, a), PauseAfter(retries, Call(m, a), o));
    if t.steps == [] {
      TryEmpty(chain, retries, respond, next, na, Some(o));
      assert NextCall(retries, Call(m, a), o) == Entry(retries, next, na);
      assert Then(x, t).steps == [x];
    } else {
      ConcludesThen(chain, retries, respond, x, t);
    }
  }

  /** Requests are made in increasing (model, attempt) order. */
  predicate Before(c: Call, d: Call) {
    c.model < d.model || (c.model == d.model && c.attempt < d.attempt)
  }

  /** No request is repeated, and once a model has been given up no later
      request goes back to it. */
  lemma {:induction false} TryOrdered(chain: seq<string>, retries: nat, respond: Call -> Outcome, m: nat, a: nat, last: Option<Outcome>, i: nat, j: nat)
    requires 1 <= a <= retries + 1
    requires i < j < |Try(chain, retries, respond, m, a, last).steps|
    ensures var s := Try(chain, retries, respond, m, a, last).steps;
      Before(s[i].call, s[j].call)
    decreases j - i
  {
    TryCalls(chain, retries, respond, m, a, last);
    if j > i + 1 {
      TryOrdered(chain, retries, respond, m, a, last, i + 1, j);
    }
  }

  /** A model that answered 429 or a server error is never asked again. */
  lemma MovedOnNotRetried(chain: seq<string>, retries: nat, respond: Call -> Outcome, i: nat, j: nat)
    requires i < j < |Fallback(chain, retries, respond).steps|
    requires MovesOn(respond(Fallback(chain, retries, respond).steps[i].call))
    ensures var s := Fallback(chain, retries, respond).steps;
      s[j].call.model > s[i].call.model
  {
    TryCalls(chain, retries, respond, 0, 1, None);
    if j > i + 1 {
      TryOrdered(chain, retries, respond, 0, 1, None, i + 1, j);
    }
  }

  /** The requests still possible from attempt `a` of model `m`. */
  function Remaining(chain: seq<string>, retries: nat, m: nat, a: nat): nat
    requires 1 <= a <= retries + 1
    decreases |chain| - m
  {
    if m >= |chain| then 0 else (retries + 1 - a) + Remaining(chain, retries, m + 1, 1)
  }

  lemma {:induction false} RemainingFull(chain: seq<string>, retries: nat, m: nat)
    requires m <= |chain|
    ensures Remaining(chain, retries, m, 1) == (|chain| - m) * retries
    decreases |chain| - m
  {
    if m < |chain| {
      RemainingFull(chain, retries, m + 1);
      var k := |chain| - m - 1;
      assert (k + 1) * retries == k * retries + retries;
    }
  }

  lemma {:induction false} TryBound(chain: seq<string>, retries: nat, respond: Call -> Outcome, m: nat, a: nat, last: Option<Outcome>)
    requires 1 <= a <= retries + 1
    ensures |Try(chain, retries, respond, m, a, last).steps| <= Remaining(chain, retries, m, a)
    decreases |chain| - m, retries + 1 - a
  {
    if m < |chain| {
      if a > retries {
        TrySkip(chain, retries, respond, m, a, last);
        TryBound(chain, retries, respond, m + 1, 1, last);
      } else if respond(Call(m, a)).Ok? {
        TryOk(chain, retries, respond, m, a, last);
      } else {
        var o := respond(Call(m, a));
        TryFail(chain, retries, respond, m, a, last);
        if MovesOn(o) {
          TryBound(chain, retries, respond, m + 1, 1, Some(o));
        } else {
          TryBound(chain, retries, respond, m, a + 1, Some(o));
        }
      }
    }
  }

  /** At most `retries` requests per model: 15 for a question without an
      image, 6 for one with an image. */
  lemma FallbackBound(chain: seq<string>, retries: nat, respond: Call -> Outcome)
    ensures |Fallback(chain, retries, respond).steps| <= |chain| * retries
    ensures |Fallback(TextChain, MaxRetries, respond).steps| <= 15
    ensures |Fallback(VisionChain, MaxRetries, respond).steps| <= 6
  {
    TryBound(chain, retries, respond, 0, 1, None);
    RemainingFull(chain, retries, 0);
    TryBound(TextChain, MaxRetries, respond, 0, 1, None);
    RemainingFull(TextChain, MaxRetries, 0);
    TryBound(VisionChain, MaxRetries, respond, 0, 1, None);
    RemainingFull(VisionChain, MaxRetries, 0);
  }

  // ---------------------------------------------------------------------------
  // The prompt (background.js:147-263)
  // ---------------------------------------------------------------------------

  /** The three system prompts: multiple choice with an image, multiple
      choice from text, and a bare number. */
  datatype Instructions = VisionChoice | TextChoice | NumberOnly

  /** The user message: the prompt alone, or the prompt and an image URL. */
  datatype UserMessage = Plain(text: string) | Illustrated(text: string, imageUrl: string)

  datatype Messages = Messages(system: Instructions, user: UserMessage)

  /** The body of one chat-completion request. */
  datatype Payload = Payload(model: string, messages: Messages, temperature: real, maxTokens: nat)

  const Temperature: real := 0.1

  /** A longer answer is allowed when there is an image. */
  function MaxTokens(hasImage: bool): nat {
    if hasImage then 50 else 10
  }

  /** The chain is picked by whether an image URL was given. */
  function Chain(hasImage: bool): seq<string> {
    if hasImage then VisionChain else TextChain
  }

  /** The context line put before the prompt when a topic is known. */
  function TopicPrefix(topic: Option<string>): (r: string)
    ensures r == [] <==> topic.None? || topic.value == []
    ensures r != [] ==> r == "Topic/Category: " + topic.value + "\n\n"
  {
    if topic.Some? && topic.value != [] then "Topic/Category: " + topic.value + "\n\n" else ""
  }

  /** Option `i` (from 0) as listed in the prompt: `${i + 1}. ${a}`. */
  function OptionLine(i: nat, a: string): string {
    NatToString(i + 1) + ". " + a
  }

  function OptionLines(answers: seq<string>): (r: seq<string>)
    ensures |r| == |answers|
    ensures forall i :: 0 <= i < |r| ==> r[i] == OptionLine(i, answers[i])
  {
    seq(|answers|, i requires 0 <= i < |answers| => OptionLine(i, answers[i]))
  }

  /** `join('\n')`. */
  function JoinLines(ls: seq<string>): string {
    if ls == [] then "" else if |ls| == 1 then ls[0] else ls[0] + "\n" + JoinLines(ls[1..])
  }

  /** `split('\n')`: the pieces between line breaks, at least one. */
  function Lines(s: string): (r: seq<string>)
    ensures |r| >= 1
  {
    if s == [] then [[]]
    else
      var rest := Lines(s[1..]);
      if s[0] == '\n' then [[]] + rest else [[s[0]] + rest[0]] + rest[1..]
  }

  lemma {:induction false} LinesPlain(a: string, s: string)
    requires NoChar(a, '\n')
    ensures Lines(a + s) == [a + Lines(s)[0]] + Lines(s)[1..]
  {
    if a != [] {
      var l := Lines(s);
      assert (a + s)[0] == a[0] != '\n';
      assert (a + s)[1..] == a[1..] + s;
      LinesPlain(a[1..], s);
      var rest := Lines(a[1..] + s);
      assert rest == [a[1..] + l[0]] + l[1..];
      assert Lines(a + s) == [[a[0]] + rest[0]] + rest[1..];
      assert rest[1..] == l[1..];
      assert [a[0]] + (a[1..] + l[0]) == a + l[0];
    } else {
      assert a + s == s;
      assert a + Lines(s)[0] == Lines(s)[0];
      assert Lines(s) == [Lines(s)[0]] + Lines(s)[1..];
    }
  }

  /** Splitting joined lines gives them back, when none holds a line break. */
  lemma {:induction false} LinesOfJoin(ls: seq<string>)
    requires ls != []
    requires forall i :: 0 <= i < |ls| ==> NoChar(ls[i], '\n')
    ensures Lines(JoinLines(ls)) == ls
  {
    if |ls| == 1 {
      LinesPlain(ls[0], []);
      assert ls[0] + [] == ls[0];
    } else {
      var j := JoinLines(ls[1..]);
      LinesOfJoin(ls[1..]);
      assert ls[0] + "\n" + j == ls[0] + ("\n" + j);
      LinesPlain(ls[0], "\n" + j);
      assert ("\n" + j)[1..] == j;
      assert Lines("\n" + j) == [[]] + ls[1..];
      assert ls[0] + [] == ls[0];
    }
  }

  /** A listed option: its number and its text. */
  datatype Numbered = Numbered(number: nat, text: string)

  /** Reads a listed option back. */
  function ParseOption(line: string): Option<Numbered> {
    var k := DigitRun(line, 0);
    if k > 0 && k + 2 <= |line| && line[k..k + 2] == ". " then
      assert AllDigits(line[..k]);
      Some(Numbered(DigitsValue(line[..k]), line[k + 2..]))
    else None
  }

  lemma ParseOptionLine(i: nat, a: string)
    ensures ParseOption(OptionLine(i, a)) == Some(Numbered(i + 1, a))
  {
    var d := NatToString(i + 1);
    var line := OptionLine(i, a);
    assert line == d + (". " + a);
    DigitRunPrefix(d, ". " + a);
    assert line[..|d|] == d;
    assert line[|d|..|d| + 2] == ". ";
    assert line[|d| + 2..] == a;
    NatToStringRoundTrip(i + 1);
  }

  /** The option list of a prompt: read line by line, it gives back every
      option with its number, when no option holds a line break. */
  lemma OptionsRecovered(answers: seq<string>)
    requires answers != []
    requires forall i :: 0 <= i < |answers| ==> NoChar(answers[i], '\n')
    ensures var ls := Lines(JoinLines(OptionLines(answers)));
      |ls| == |answers| && forall i :: 0 <= i < |ls| ==> ParseOption(ls[i]) == Some(Numbered(i + 1, answers[i]))
  {
    var ol := OptionLines(answers);
    forall i | 0 <= i < |ol| ensures NoChar(ol[i], '\n') {
      var d := NatToString(i + 1);
      assert ol[i] == d + ". " + answers[i];
      forall k | 0 <= k < |ol[i]| ensures ol[i][k] != '\n' {
        if k < |d| {
          assert ol[i][k] == d[k] && IsDigit(d[k]);
        } else if k >= |d| + 2 {
          assert ol[i][k] == answers[i][k - |d| - 2];
        }
      }
    }
    LinesOfJoin(ol);
    forall i | 0 <= i < |ol| ensures ParseOption(ol[i]) == Some(Numbered(i + 1, answers[i])) {
      ParseOptionLine(i, answers[i]);
    }
  }

  /** The prompt's final line for a multiple-choice question. */
  const ChoiceTail: string := "\n\nAnswer:"

  /** The prompt's final line for a number. */
  const NumberTail: string := "\n\nAnswer (complete full number only):"

  /** The user prompt: the topic line, then the question and, for a multiple
      choice, the numbered options; an attached image adds a lead-in. */
  function UserPrompt(q: string, answers: seq<string>, topic: Option<string>, withImage: bool): (r: string)
    ensures StartsWith(r, TopicPrefix(topic))
    ensures answers != [] ==> EndsWith(r, ChoiceTail)
    ensures answers == [] ==> EndsWith(r, NumberTail)
  {
    var lead := if answers != [] && withImage then "Look at the image and answer this question:\n\n" else "";
    var body := if answers != [] then "Question: " + q + "\n\nOptions:\n" + JoinLines(OptionLines(answers))
                else "Question: " + q;
    var tail := if answers != [] then ChoiceTail else NumberTail;
    Framed(TopicPrefix(topic), lead + body, tail);
    TopicPrefix(topic) + (lead + body) + tail
  }

  predicate EndsWith(s: string, t: string) {
    |t| <= |s| && s[|s| - |t|..] == t
  }

  lemma Framed(p: string, m: string, t: string)
    ensures StartsWith(p + m + t, p) && EndsWith(p + m + t, t)
  {
    var s := p + m + t;
    assert s[..|p|] == p;
    assert s[|s| - |t|..] == t;
  }

  /** The two tails tell the question kinds apart. */
  lemma TailsDiffer(r: string)
    ensures EndsWith(r, ChoiceTail) ==> !EndsWith(r, NumberTail)
  {
    if EndsWith(r, ChoiceTail) {
      assert r[|r| - 2] == ChoiceTail[|ChoiceTail| - 2] == 'r';
      if |NumberTail| <= |r| {
        assert r[|r| - |NumberTail|..][|NumberTail| - 2] == r[|r| - 2];
      }
    }
  }

  /** The data URL of a downloaded image. */
  function DataUrl(base64: string): string {
    "data:image/jpeg;base64," + base64
  }

  /** Whether the image was downloaded: there is an image and its base64
      text is not empty. */
  predicate Attached(hasImage: bool, image: Option<string>) {
    hasImage && image.Some? && image.value != []
  }

  /** The messages sent for a question; `image` is the downloaded base64
      text (`None` when the download failed). */
  function Compose(q: string, answers: seq<string>, topic: Option<string>, hasImage: bool, image: Option<string>): (r: Messages)
    ensures r.system == VisionChoice <==> answers != [] && Attached(hasImage, image)
    ensures r.system == TextChoice <==> answers != [] && !Attached(hasImage, image)
    ensures r.system == NumberOnly <==> answers == []
    ensures r.user.Illustrated? <==> Attached(hasImage, image)
    ensures r.user.Illustrated? ==> r.user.imageUrl == DataUrl(image.value)
    ensures StartsWith(r.user.text, TopicPrefix(topic))
    ensures EndsWith(r.user.text, ChoiceTail) <==> answers != []
  {
    var attached := Attached(hasImage, image);
    var system := if answers == [] then NumberOnly else if attached then VisionChoice else TextChoice;
    var text := UserPrompt(q, answers, topic, attached);
    TailsDiffer(text);
    Messages(system, if attached then Illustrated(text, DataUrl(image.value)) else Plain(text))
  }

  // ---------------------------------------------------------------------------
  // Answering a request (background.js:107-298)
  // ---------------------------------------------------------------------------

  const MissingKey: string := "Groq API key not configured. Please set it in the extension popup."

  /** `!!imageUrl`. */
  predicate ImageGiven(req: Request) {
    req.imageUrl.Some? && req.imageUrl.value != []
  }

  /** The requests sent and the answer or error `processQuestionWithAI` ends with. */
  datatype Asked = Asked(sent: seq<Payload>, result: Result<string, string>)

  /** The bodies of the requests of a trace. */
  function Bodies(chain: seq<string>, retries: nat, respond: Call -> Outcome, msgs: Messages, hasImage: bool): (r: seq<Payload>)
    ensures var s := Fallback(chain, retries, respond).steps;
      && |r| == |s|
      && forall i :: 0 <= i < |r| ==> s[i].call.model < |chain| && r[i] == Payload(chain[s[i].call.model], msgs, Temperature, MaxTokens(hasImage))
  {
    TryCalls(chain, retries, respond, 0, 1, None);
    var s := Fallback(chain, retries, respond).steps;
    seq(|s|, i requires 0 <= i < |s| => Payload(chain[s[i].call.model], msgs, Temperature, MaxTokens(hasImage)))
  }

  /** `processQuestionWithAI(question, answers, imageUrl, topic)`, with the
      stored key `apiKey` and the downloaded image `image`. */
  function Ask(req: Request, apiKey: Option<string>, image: Option<string>, respond: Call -> Outcome): (r: Asked)
    ensures apiKey.None? || apiKey.value == [] ==> r == Asked([], Failure(MissingKey))
    ensures apiKey.Some? && apiKey.value != [] ==>
      var hasImage := ImageGiven(req);
      var msgs := Compose(req.question, req.answers, req.topic, hasImage, if hasImage then image else None);
      && 1 <= |r.sent| <= |Chain(hasImage)| * MaxRetries
      && forall i :: 0 <= i < |r.sent| ==>
           && r.sent[i].model in Chain(hasImage)
           && r.sent[i].messages == msgs
           && r.sent[i].temperature == Temperature
           && r.sent[i].maxTokens == MaxTokens(hasImage)
  {
    if apiKey.None? || apiKey.value == [] then Asked([], Failure(MissingKey))
    else
      var hasImage := ImageGiven(req);
      var chain := Chain(hasImage);
      var msgs := Compose(req.question, req.answers, req.topic, hasImage, if hasImage then image else None);
      var t := Fallback(chain, MaxRetries, respond);
      TryEmpty(chain, MaxRetries, respond, 0, 1, None);
      FallbackBound(chain, MaxRetries, respond);
      var sent := Bodies(chain, MaxRetries, respond, msgs, hasImage);
      Asked(sent, match t.result
                  case Success(w) => Success(w.answer)
                  case Failure(e) => Failure(LastError(e)))
  }

  /** The `processQuestion` message handler: the answer, or the error's
      message, as the response object the content script receives. */
  function Handle(req: Request, apiKey: Option<string>, image: Option<string>, respond: Call -> Outcome): (r: Reply)
    ensures r.Response?
    ensures r.success <==> Ask(req, apiKey, image, respond).result.Success?
    ensures r.success ==> r.answer == Ask(req, apiKey, image, respond).result.value
    ensures !r.success ==> r.error == Ask(req, apiKey, image, respond).result.error
  {
    match Ask(req, apiKey, image, respond).result
    case Success(a) => Response(true, a, "")
    case Failure(e) => Response(false, "", e)
  }

  /** With a key, the content script gets an answer exactly when the last
      request made succeeded, and that answer is its content trimmed;
      otherwise it gets the last request's error. */
  lemma HandleAnswers(req: Request, key: string, image: Option<string>, respond: Call -> Outcome)
    requires key != []
    ensures var chain := Chain(ImageGiven(req));
      var s := Fallback(chain, MaxRetries, respond).steps;
      var r := Handle(req, Some(key), image, respond);
      && s != []
      && var o := respond(s[|s| - 1].call);
      && (r.success <==> o.Ok?)
      && (o.Ok? ==> r.answer == Trim(o.content))
      && (!o.Ok? ==> r.error == ErrorOf(o))
  {
    var chain := Chain(ImageGiven(req));
    FallbackConcludes(chain, respond);
    HandleFallback(req, key, image, respond);
  }

  /** With a non-empty chain, the fallback makes a request and its result is
      decided by the last one. */
  lemma FallbackConcludes(chain: seq<string>, respond: Call -> Outcome)
    requires chain != []
    ensures Concludes(chain, MaxRetries, respond, Fallback(chain, MaxRetries, respond))
  {
    TryEmpty(chain, MaxRetries, respond, 0, 1, None);
    TryResult(chain, MaxRetries, respond, 0, 1, None);
  }

  lemma HandleFallback(req: Request, key: string, image: Option<string>, respond: Call -> Outcome)
    requires key != []
    ensures Handle(req, Some(key), image, respond) ==
      match Fallback(Chain(ImageGiven(req)), MaxRetries, respond).result
      case Success(w) => Response(true, w.answer, "")
      case Failure(e) => Response(false, "", LastError(e))
  {
  }

  /** An image whose download failed is dropped from the messages, yet the
      vision models are still the ones asked, with the longer answer limit. */
  lemma FailedDownloadStillVision(req: Request, key: string, respond: Call -> Outcome)
    requires key != [] && ImageGiven(req)
    ensures var r := Ask(req, Some(key), None, respond);
      forall i :: 0 <= i < |r.sent| ==>
        r.sent[i].model in VisionChain && r.sent[i].messages.user.Plain? && r.sent[i].maxTokens == 50
  {
  }
}
