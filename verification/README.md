# VyzyvatelBot core, modelled in Dafny

VyzyvatelBot is a browser extension that answers quiz questions on a
Czech quiz site. Its content script reads the question and the answer
buttons. It looks the question up in its answer memory, and on a miss
asks the background worker, which calls a chat-completion API through a
chain of models with retries. The content script then clicks the
best-matching option or types a cleaned number. It watches the page for
the revealed correct answer and records it in the memory. The popup lets
the user browse, search, edit, delete and import that memory.

This project models that core as pure Dafny functions and proves what it
promises. Modules, one file each:

- `Text`: the character classes of JavaScript's `\s` and `trim()`, `toLowerCase` on the Latin ranges the site uses, substring search, and decimal printing of naturals.
- `Normalize`: `normalizeQuestion`, the cache key, and `normalizeAnswer`, the comparison form with its protected decimal point.
- `Numeric`: the cleaning in `enterNumericAnswer`: drop `<think>` blocks, join digit groups, drop thousands dots, take the first signed number.
- `Memory`: the answer memory, `saveToMemory` and `getFromMemory`, over a map from key to record.
- `Matcher`: Levenshtein distance, the five-stage `findBestMatch`, and the 0.3 click threshold of `selectAnswer`.
- `Page`: `isPlayerTurn` and the button scans of `checkForQuestion`, over an abstract page snapshot.
- `Controller`: `checkForQuestion` and `detectAnswerResult` as transitions of the script's state (`isProcessing`, `lastQuestionText`, the tracked question, answer and key, `waitingForResult`).
- `Driver`: the content script under any interleaving of polls, answers, submissions, scheduled detections, cool-downs, observer callbacks and scheduled checks. It includes an invariant kept by every event.
- `Oracle`: the background worker: the model fallback chain with retry and backoff, and the prompt and message shape. The API is a function from call to outcome.
- `Admin`: the popup's cache administration: `escapeHtml` and `escapeAttr`, the displayed question, search filter and recency sort, edit, delete and import merge.

Scores, health and similarity are `real`s, so no rounding is modelled.
The clock is an `int` parameter `now`. The image fingerprint, the topic
name, the page, and every API outcome are inputs.

## Model

| member | source | states |
|---|---|---|
| Text.LowerStr | content.js:332 | Lower-casing keeps the length and maps every character on its own. Its result is already lower case, and lower-case text comes back unchanged. |
| Text.LowerFacts | content.js:332 | Lower-casing a character is idempotent. It keeps whitespace and digits as they are. It leaves `.`, `,`, `#` and `-` unchanged and leaves no ASCII capital. |
| Text.LowerStrConcat | content.js:332 | Lower-casing distributes over concatenation. |
| Text.Trim | content.js:332 | A trimmed string neither starts nor ends with whitespace. |
| Text.TrimParts | content.js:332 | `trim()` removes exactly a whitespace prefix and a whitespace suffix; what is left is a contiguous slice of the input. |
| Text.TrimSurrounding | content.js:332 | Whitespace added on either side does not change the trimmed string. |
| Text.TrimClean | content.js:633 | A string with no surrounding whitespace is its own trim. |
| Text.TrimStartAllSpace | content.js:633-637 | Trimming leaves nothing exactly when the text is all whitespace. |
| Text.NatToStringRoundTrip | background.js:61 | The decimal text of an HTTP status reads back as that status. |
| Normalize.NormalizeQuestion | content.js:330-333 | A cache key is lower-cased, has no surrounding whitespace, and has every whitespace run reduced to one space. |
| Normalize.NormalizeQuestionIdempotent | content.js:330-333 | Normalising a key again changes nothing. |
| Normalize.NormalizeQuestionIgnoresCase | content.js:332 | Questions that differ only in letter case get the same key. |
| Normalize.NormalizeQuestionIgnoresSurroundingSpace | content.js:332 | Whitespace around a question does not change its key. |
| Normalize.NormalizeQuestionIgnoresRunLength | content.js:332 | Questions that differ only in the length or make-up of an inner whitespace run get the same key. |
| Normalize.CollapseSingleSpaced | content.js:332 | After `replace(/\s+/g, ' ')` no whitespace character other than a single space remains, and no two spaces are adjacent. |
| Normalize.CollapseRun | content.js:332 | Any two non-empty whitespace runs at the same place collapse to the same text. |
| Normalize.DecimalDot | content.js:344 | It finds the dot that `/\.(\d{1,2})$/` matches: the dot followed by one or two final digits. None exists exactly when no position qualifies. |
| Normalize.StripSeparators | content.js:347 | The result has no whitespace, comma or dot. |
| Normalize.LoweredHasNoMarker | content.js:338-344 | Lower-cased text cannot contain the upper-case decimal marker, so the input cannot forge it. |
| Normalize.ProtectedRestores | content.js:344-350 | A protected decimal survives separator removal and is restored as `.` plus its digits. |
| Normalize.UnprotectedRestores | content.js:347-350 | Without a protected decimal, the restore step changes nothing. |
| Normalize.NormalizeAnswerIsCanonical | content.js:335-353 | `normalizeAnswer` equals the marker-free reference definition: strip separators around the qualifying dot and keep that dot. |
| Normalize.NormalizeAnswerShape | content.js:335-353 | An empty answer gives `''`. Every result is lower-cased and has no whitespace or comma, and its only dot is a final dot followed by one or two digits. |
| Normalize.ShapeFixed | content.js:335-353 | Every string of that shape is its own normal form. |
| Normalize.NormalizeAnswerIdempotent | content.js:335-353 | Normalising an answer twice is normalising it once. |
| Normalize.DecimalPointKept | content.js:344-350 | Grouped digits with a point and one or two decimals lose their group separators and keep the point. |
| Normalize.DecimalCommaDropped | content.js:344-350 | Grouped digits with a decimal comma lose the comma as well, which merges the decimals into the integer part. |
| Normalize.ExampleDot | content.js:335-353 | `"1,234.50"` normalises to `"1234.50"`. |
| Normalize.ExampleComma | content.js:335-353 | `"1 234,50"` normalises to `"123450"`. |
| Numeric.FindFrom | content.js:940 | The `<think>` or `</think>` it reports occurs at or after the start position. |
| Numeric.FindFromLeftmost | content.js:940 | The reported occurrence is the leftmost one, and none is reported only when there is none. |
| Numeric.StripThinkIdentity | content.js:940 | Text without `<` passes the `<think>` removal unchanged. |
| Numeric.StripThinkBlock | content.js:940 | A complete `<think>…</think>` block is removed lazily, at its first closing tag, and the text before it is kept. |
| Numeric.JoinGroupsKeeps | content.js:944 | Joining digit groups removes only whitespace and commas. |
| Numeric.JoinGroupsChanges | content.js:944 | The text changes exactly when some digit, separator, digit triple occurs. |
| Numeric.JoinGroupsComplete | content.js:944 | After the replacement no digit, separator, digit triple remains, overlapping ones included. |
| Numeric.JoinGroupsIdempotent | content.js:944 | Joining groups twice is joining them once. |
| Numeric.DropThousandsDotsKeeps | content.js:945 | The thousands-dot step removes only dots. |
| Numeric.DropThousandsDotsChanges | content.js:945 | The text changes exactly when some digit is followed by a dot and three digits. |
| Numeric.NumberTokenAt | content.js:947 | The token read at a number start matches `-?\d+\.?\d*` and is maximal, so the greedy match could not be extended. |
| Numeric.FirstNumberStart | content.js:947 | It finds the leftmost position where `-?\d+` can match, or reports that none exists. |
| Numeric.FirstNumberSpec | content.js:947 | There is a number exactly when the text has a digit. The number found is the greedy token at the leftmost match position. |
| Numeric.CleanNumeric | content.js:939-948 | With a digit in the cleaned text, the result is a number token contained in it. Without one, the result is the cleaned text itself. |
| Numeric.CleanGrouped | content.js:939-948 | Label text without digits, followed by space-separated digit groups, yields the groups joined. |
| Numeric.CleanThousands | content.js:939-948 | Digits, a dot and three or more digits yield the digits without the dot. |
| Numeric.CleanDecimal | content.js:939-948 | Digits, a dot and one or two digits keep the decimal point. |
| Numeric.CleanGroupedExample | content.js:939-948 | `"Answer: 1 300 000"` is cleaned to `"1300000"`. |
| Numeric.CleanDotExamples | content.js:939-948 | `"10.200"` is cleaned to `"10200"` and `"10.2"` stays `"10.2"`. |
| Memory.Health | content.js:399-401 | Health lies in [0, 1]. It is 1 exactly when nothing was wrong, and 0 exactly when something was wrong and nothing correct. Otherwise it is the correct share of the total. |
| Memory.NewEntry | content.js:359-376 | A fresh record is used once with one verdict. It is healthy and scored 0.8 when correct, and unhealthy and scored 0.5 when wrong. Its source is `ai` and it is verified exactly when correct. Its health score is its share of correct verdicts, so the record is well formed. |
| Memory.SaveAt | content.js:355-412 | A save touches no key other than its own, and an unseen key is always stored. |
| Memory.SaveNew | content.js:359-376 | Saving under an unseen key stores exactly the fresh record. |
| Memory.SaveCorrectUpdate | content.js:379-385 | A correct save keeps the answer and counts one more use and one more correct verdict. It raises the score by 0.05, capped at 0.99, and marks the record verified. |
| Memory.SaveWrongUpdate | content.js:379-397 | A wrong save counts one more use. The answer is replaced, and the record reset to 1 correct, 0 wrong and score 0.7, exactly when the new answer differs and the stored health is below 0.5. Otherwise the save counts one more wrong verdict and lowers the score by 0.2, floored at 0.1. |
| Memory.SaveEviction | content.js:399-407 | After an update the health is the correct share, in [0, 1]. The record is deleted exactly when health is below 0.3 and it has been used more than three times. Otherwise the store holds the updated record. |
| Memory.GetAt | content.js:414-434 | A lookup hits exactly when the key is stored, returns the stored answer, and never reports a zero score or health. |
| Memory.GetWellFormed | content.js:426-431 | For a well-formed record the lookup reports its score and use count, and reports its health, except that a stored health of 0 is reported as 1. |
| Memory.ZeroHealthReportedFull | content.js:429 | A record saved once as wrong stores health 0, and the lookup reports it as 1.0. |
| Memory.GetNormalizedKey | content.js:415 | Looking up a key or its normal form gives the same result. |
| Memory.SavePreservesWellFormed | content.js:355-412 | Saves keep every record's counts consistent and its health the correct share. |
| Memory.CorrectSavesNeverEvict | content.js:382-407 | Along any sequence of saves made as correct, as every call site does, no record is ever wrong or below full health. The stored keys only grow, by exactly the saved keys. |
| Memory.CleanStoreFull | content.js:401 | In a store reached that way every record has health 1.0 and no wrong verdict. |
| Matcher.LevenshteinDistance | content.js:531-551 | The row-by-row dynamic programme returns the edit distance of the recursive definition. |
| Matcher.DistStep | content.js:541-546 | Each table cell is the least of deletion, insertion and substitution cost. |
| Matcher.EditDistanceFacts | content.js:531-551 | The distance lies between the length difference and the longer length, and it is 0 exactly when the strings are equal. |
| Matcher.Similarity | content.js:589-591 | Similarity lies in [0, 1] and is 1 exactly when the strings are equal. |
| Matcher.FirstHit | content.js:562-580 | A stage's hit is the first option that passes its test, and none is reported only when no option passes. |
| Matcher.BestFuzzy | content.js:587-598 | The fuzzy winner has similarity above 0.7 and the least distance, and on ties it is the earliest. There is none exactly when no option qualifies. |
| Matcher.FindBestMatch | content.js:554-606 | The result is `none` exactly when there are no options. Otherwise the match is one of the options. |
| Matcher.ChooseExact | content.js:562-566 | Exact wins, at 1.0 on the first option with the same normal form, exactly when such an option exists. |
| Matcher.ChooseContains | content.js:569-573 | The contains stage wins, at 0.9 on the first option the answer contains, exactly when no option is exact and one is contained. |
| Matcher.ChooseIncluded | content.js:576-580 | The included stage wins, at 0.85 on the first option containing the answer, exactly when the earlier stages miss and one contains it. |
| Matcher.ChooseFuzzy | content.js:582-602 | Fuzzy wins exactly when the text stages miss and some option qualifies. It gives the best fuzzy option, with its similarity as confidence. |
| Matcher.ChooseFallback | content.js:604-605 | Fallback gives the first option at 0.25, exactly when nothing else wins. |
| Matcher.ChooseConfidence | content.js:868 | Confidence exceeds the 0.3 click threshold exactly when the method is not fallback. |
| Matcher.FuzzyWinnerNonEmpty | content.js:600 | A fuzzy winner is never empty, so its truthiness test never rejects it. |
| Matcher.SelectAnswer | content.js:857-894 | A clicked button's label is the match, and its confidence is above 0.3. |
| Matcher.SelectAnswerClicks | content.js:857-894 | A button is clicked exactly when the method is exact, contains, included or fuzzy. It is the first button with the matched label. |
| Page.IsPlayerTurn | content.js:898-936 | It is the player's turn exactly when a non-blank question is shown and either an answer button or an enabled calculator input is present. An answer button is enabled and its trimmed text is longer than two UTF-16 code units, not a key and not an interface label. |
| Page.AnswerTextByLength | content.js:914-921 | An answer button is one whose text is longer than two UTF-16 code units and is none of the three longer UI labels. |
| Page.HasAnsweredButton | content.js:718-723 | The page counts as answered exactly when some disabled button has trimmed text longer than two UTF-16 code units. |
| Page.IsNumericQuestion | content.js:746-755 | A question is numeric exactly when there is a calculator input or a number-pad button. |
| Page.ChoiceTexts | content.js:757-764 | The options sent to the oracle are exactly the non-blank, non-key labels of enabled buttons. |
| Page.OptionsClickable | content.js:859-862 | When each button's caption paragraph is its first paragraph, every option sent to the oracle is among the texts `selectAnswer` compares the answer against. |
| Page.CaptionAfterParagraph | content.js:859-862 | A caption that follows another paragraph is offered as an option, while `selectAnswer` compares against the other paragraph's text. |
| Controller.Begin | content.js:608-731 | Proceeding yields a non-empty question and sets the busy flag. Nothing else about tracking or memory changes. |
| Controller.BeginGuarded | content.js:609 | While busy, a poll does nothing. |
| Controller.BeginNotYourTurn | content.js:614-620 | When it is not the player's turn, only the `NOT_YOUR_TURN` sentinel is recorded. |
| Controller.NoQuestionUnreachable | content.js:623-637 | The `NO_QUESTION` sentinel is never newly set, because the turn check already requires a non-blank question. |
| Controller.BeginProceeds | content.js:608-731 | A poll proceeds exactly when the script is idle, it is the player's turn, the trimmed question is new and no answered button shows. It then records that question and sets the busy flag. |
| Controller.BeginSkipsSameQuestion | content.js:639-641 | The question last handled is skipped. |
| Controller.BeginSkipsAnswered | content.js:725-728 | An already-answered page is skipped without recording the question. |
| Controller.CacheKeyInjective | content.js:767-774 | For questions without `\|`, two cache keys are equal exactly when the questions are equal, both or neither carry an image, and image questions have the same hash. |
| Controller.AnswersClickable | content.js:757-764 | Numeric questions send no options. On other pages whose captions come first in their buttons, every option sent is a text `selectAnswer` can match. |
| Controller.Submit | content.js:832-837 | Numeric questions get the cleaned number typed. Others click exactly when `selectAnswer` finds a button, which is an enabled one. |
| Controller.Complete | content.js:776-815 | The oracle is asked exactly on a cache miss, with the question, options, image and topic. |
| Controller.CacheHitNoRequest | content.js:779-824 | A cache hit makes no request and starts no tracking, but submits the cached answer. |
| Controller.OracleErrorKeepsQuestion | content.js:807-814 | An oracle error returns with nothing submitted and the question still recorded. |
| Controller.ThrownForgetsQuestion | content.js:846-849 | A thrown error clears the recorded question. |
| Controller.AnsweredIsTracked | content.js:817-845 | A fresh oracle answer is tracked with its key, and detection starts. |
| Controller.ErrorNotRetried | content.js:807-814 | After an oracle error and the cool-down, the same question is not asked again. |
| Controller.ThrownRetried | content.js:846-853 | After a thrown error and the cool-down, the same question is asked again. |
| Controller.ReleaseReopens | content.js:850-853 | While busy, every poll is turned away. After the cool-down, the next poll takes on exactly a question that is the player's, new and not shown as answered. |
| Controller.Resolve | content.js:63-79 | Resolving stops waiting. It saves the revealed answer under the tracked key and clears tracking exactly when something is tracked. |
| Controller.Detect | content.js:56-82 | The immediate check saves only under the tracked key. It starts observing exactly when no green box is shown. |
| Controller.DetectGreenSaves | content.js:59-80 | A green box at once saves its text as correct under the tracked key and ends detection. |
| Controller.Observe | content.js:88-245 | An observer callback saves only under the tracked key and leaves the scheduled checks alone. |
| Controller.ObserveRevealSaves | content.js:180-238 | A green box, or a yellow-outlined button while a button is marked wrong, saves the revealed text under the tracked key and clears tracking. |
| Controller.ObserveRedClears | content.js:239-245 | A red indicator alone clears tracking without saving. |
| Controller.ObserveYellowNeedsRed | content.js:88-245 | With no green box and no red button or indicator, the callback changes nothing. |
| Controller.TimerFires | content.js:264-321 | A scheduled check saves only under the key captured when detection started. |
| Controller.FireAllGivesUp | content.js:314-320 | Five scheduled checks always end waiting. |
| Controller.FireAllStopped | content.js:265-267 | Once waiting has ended, later checks do nothing. |
| Controller.StaleTrackingOnCacheHit | content.js:779-845 | As written, a cache hit during an earlier wait keeps the old tracking. Detection then saves the new page's answer under the old key. |
| Controller.CompleteFixedTracksCurrent | content.js:817-824 | Corrected: detection runs exactly when the current question is tracked. It is tracked only on a fresh oracle answer, with the current key. |
| Controller.FixedDetectSavesCurrent | content.js:838-843 | Corrected: what detection saves goes under the current question's key. |
| Controller.StaleTimerSavesUnderOldKey | content.js:256-277 | As written, a timer from an earlier question saves a later page's answer under the earlier key. |
| Controller.TimerFiresFixed | content.js:264-321 | Corrected: a scheduled check saves only under the key being tracked. |
| Controller.TimerFixedAgrees | content.js:264-321 | When the captured key is still the tracked one, the corrected check behaves as written. |
| Driver.OnAnswer | content.js:733-830 | Answering saves nothing and ends the pending state. It leaves the memory, the scheduled detections and the runs as they were. |
| Driver.OnSubmit | content.js:839-844 | The submission schedules one detection exactly when `waitingForResult` is set at that moment, whichever question set it. It changes no state. |
| Driver.OnFire | content.js:840-843 | A scheduled detection uses up one scheduled call and starts one run. It saves only under the key tracked when it runs. |
| Driver.OnRun | content.js:88-321 | An observer callback or scheduled check changes the memory only by the save it reports. Without the correction, observer callbacks still save only under the tracked key. |
| Driver.NextInv | content.js:608-855 | Every event keeps the invariant: tracking is never blank, waiting implies tracking, a pending question is non-empty, and a question in flight holds the busy flag. Every stored record is clean. |
| Driver.RunInv | content.js:56-855 | The invariant holds after any sequence of events, as written and corrected. |
| Driver.FixedAnswerSavesCurrent | content.js:817-844 | With the corrections, answering, submitting and running the scheduled detection save, if at all, under the key of the question just answered. |
| Driver.StaleTimerCancelsDetection | content.js:823-844 | As written, an earlier run's last scheduled check that fires during the submit delay clears `waitingForResult`. The submission then schedules no detection. |
| Driver.FixedTimerKeepsDetection | content.js:839-844 | Corrected: another run's scheduled check leaves the world alone, and the submission schedules the detection. |
| Oracle.Backoff | background.js:88-93 | The pause before a retry is between 1000 and 5000 ms. |
| Oracle.BackoffDoubles | background.js:90 | The pause starts at 1000 ms and doubles per attempt, capped at 5000 ms. |
| Oracle.TryOk | background.js:73-82 | The first OK response ends the loop with its trimmed content, its model and its attempt number. |
| Oracle.TryFail | background.js:59-94 | A failure records a pause. A 429 or 5xx status moves to the next model. Any other status or error retries the same model. |
| Oracle.TryCalls | background.js:37-96 | The calls made are in the chain. Each one follows the previous failure: the next model after a 429 or 5xx, otherwise the next attempt. |
| Oracle.TryPauses | background.js:84-94 | A pause follows exactly the failures that are retried on the same model before its last attempt, and lasts that attempt's backoff. A 429 or 5xx gets none. |
| Oracle.TryEmpty | background.js:37-41 | No call is made only when the chain is exhausted or no retries are allowed. |
| Oracle.TryResult | background.js:37-103 | The last call decides the result: an OK gives success, and a failure gives that failure with nowhere left to go. |
| Oracle.TryOrdered | background.js:37-41 | Calls go in strictly increasing order of model and attempt. |
| Oracle.MovedOnNotRetried | background.js:64-68 | After a 429 or 5xx, that model is never called again. |
| Oracle.FallbackBound | background.js:37-41 | At most chain length × retries calls are made: 15 on the text chain, 6 on the vision chain. |
| Oracle.TopicPrefix | background.js:152 | The topic line appears exactly when a non-empty topic is given. |
| Oracle.OptionsRecovered | background.js:183 | The listed options can be read back, line by line, as their numbers and texts. |
| Oracle.UserPrompt | background.js:152-247 | The user prompt starts with the topic prefix. It ends with the choice tail when there are options, and with the number tail otherwise. |
| Oracle.Compose | background.js:154-283 | The prompt is the vision choice, text choice or number prompt by options and attached image. The image is attached exactly when it was both given and downloaded, as a JPEG data URL. |
| Oracle.Bodies | background.js:51-56 | Each request body names the model of its call, carries the same messages, and uses temperature 0.1 and max tokens 50 with an image, 10 without. |
| Oracle.Ask | background.js:120-290 | A missing or empty key fails before any call. Otherwise there are one to chain × retries calls, all in the chain the image choice selects, with the same messages. |
| Oracle.HandleFallback | background.js:98-118 | The reply is success with the answer, or failure with the last error's message. With no last error, the message is `All AI models failed`. |
| Oracle.HandleAnswers | background.js:286-293 | The reply succeeds exactly when the last call is OK. It then answers that call's trimmed content, and otherwise reports that call's error. |
| Oracle.FailedDownloadStillVision | background.js:124-145 | When the image download fails, calls still go to the vision chain with 50 tokens, and the message is text-only. |
| Admin.EscapeChar | popup.js:21-32 | Each special character becomes its entity and every other character stays as it is. |
| Admin.EscapeHtmlConcat | popup.js:21-28 | Escaping distributes over concatenation. |
| Admin.EscapeAttrConcat | popup.js:30-32 | Attribute escaping distributes over concatenation. |
| Admin.EscapedHtmlInert | popup.js:21-28 | Escaped text has no `<`, `>`, `"` or `'`, and every `&` in it begins one of the five entities. |
| Admin.EscapedAttrInert | popup.js:30-32 | The same holds for attribute escaping, where an `&` may also begin the backtick entity. |
| Admin.EscapedAttrNoTick | popup.js:30-32 | Attribute escaping leaves no backtick. |
| Admin.UnescapeEscape | popup.js:21-32 | Decoding the entities recovers the original text, after either escape. |
| Admin.StripImageKey | popup.js:163 | For a question without `\|`, its image key is shown as the question text. The key is the question, `\|\|\|IMG:` or its lower-case form, then a non-empty hex hash. |
| Admin.StripPlainKey | popup.js:223 | A key without `\|` is shown unchanged. |
| Admin.Matching | popup.js:137-143 | The filter keeps exactly the rows that match the search, each at most as often as it occurs. |
| Admin.ByRecency | popup.js:156 | Sorting permutes the rows. |
| Admin.ByRecencyRecent | popup.js:156 | Sorted rows run from most to least recently used, with a missing `lastUsed` counting as 0. |
| Admin.ByRecencyStable | popup.js:156 | The sort is stable: rows with equal recency keep their order. |
| Admin.Render | popup.js:121-156 | The list says the cache is empty exactly when it is. It says no results exactly when nothing matches. Otherwise it lists exactly the matching rows. |
| Admin.RenderShowsMatches | popup.js:121-158 | Listed rows are newest first. A key is listed exactly when it is stored and matches, with its stored record, and ties keep their filter order. |
| Admin.Edit | popup.js:248-256 | An answer that is blank after trimming is rejected. Otherwise only that record changes, and in it only the answer, now trimmed, and `lastUsed`. |
| Admin.EditThenGet | popup.js:248-256 | After an edit, the lookup returns the new answer and the store stays well formed. |
| Admin.Delete | popup.js:272-275 | A confirmed delete removes exactly that key. A cancelled one changes nothing. |
| Admin.DeleteThenGet | popup.js:272-282 | After a confirmed delete the lookup misses that key, every other lookup answers as before, and the store stays well formed. |
| Admin.Merge | popup.js:346 | The merged keys are the union. Imported records win on shared keys, and other existing records are unchanged. |
| Admin.MergeIdempotent | popup.js:346 | Importing the same file twice equals importing it once, and an empty import changes nothing. |
| Admin.MergeWellFormed | popup.js:346 | Merging well-formed caches gives a well-formed cache. |
| Admin.Import | popup.js:334-374 | Unparsable JSON is reported as invalid. Otherwise a confirmed import merges, and a cancelled one keeps the cache. |

## Left out

- `toLowerCase` is modelled on ASCII, Latin-1 and Latin Extended-A, the letters of Czech text. Other scripts are lowered as themselves.
- Scores, health and similarity are exact `real`s, so floating-point rounding in `1 - distance / maxLen` and in the score steps is not modelled.
- The DOM is not modelled. Querying, `MutationObserver` wiring, CSS-signature tracking, `getComputedStyle` border tests and arrow-div removal appear only through their results, as `Snapshot`, `View` and button records.
- The topic-scraping heuristics of `checkForQuestion` are not modelled; the topic is an input.
- Humanizer delays, `setTimeout` scheduling, `Math.random`, the 800 ms detection delay and the 1500 ms cool-down are not modelled as time. They become events that the `Driver` may deliver in any order, including orders the delays rule out, such as the cool-down before the detection.
- `hashImageContent` (fetch and SHA-256) is not modelled; the image fingerprint is an opaque string.
- `chrome.storage` persistence, the `cacheHits` counter, messaging and the memory reload are left out. The store is a value passed in and returned.
- The input-field and submit-button search of `enterNumericAnswer`, and `checkForTextInput`, are left out; typing is the `Typed` submission.
- The system prompt texts are represented only by which of the three prompts is chosen.
- The network is the `respond` parameter, one outcome per (model, attempt) call. `blobToBase64` and the image download are the `image` input.
- The `onMessage` dispatch on `action` is not modelled; `Handle` is the `processQuestion` branch.
- Records the popup shows are typed: records without `stats`, the legacy `usedCount`, and `image` fields are not modelled.
- Imported JSON of the wrong shape is not modelled; a parse is a store or a failure.
- The `confirm` dialogs are boolean inputs.
- The popup's settings, export and clear buttons, the modal and `showStatus` are left out, as is `selectItemByKey` with `CSS.escape`.
- JavaScript object-key order is left out: the cache list is taken in any order that lists each key once.
- Driver.OnAnswer: the memory lookup (content.js:776) and the tracking assignment (content.js:817-824) are one step. A save by another run between the two is seen by the lookup here, and not in the source.
- Matcher.Similarity: lengths and edit distance count code points, where JavaScript counts UTF-16 code units. They differ only on characters outside the Basic Multilingual Plane, such as emoji, which take two units.
- Matcher.EditDistanceFacts: counts code points, for the same reason as `Matcher.Similarity`.
- Text.LowerStr: `toLowerCase` turns U+0130, capital I with dot above, into two characters, `i` and U+0307. The model leaves it as one character, so that lower-casing keeps the length.
- Admin.StripImageKey: a question text that contains `\|` is left out, because a tag-like run inside it would be stripped instead.
- Admin.EscapeHtml: takes a string, so the `value || ''` coercion of `0`, `null` and `undefined` is not modelled. Every call site passes a string or a string-or-empty field.

## Findings

| source | as written | input that shows it | evidently intended | confidence | as-written member | corrected member |
|---|---|---|---|---|---|---|
| content.js:779-845 | On a cache hit, tracking is left untouched. If the previous question is still awaited, `waitingForResult` stays true and detection starts again, saving the revealed answer under the previous question's key. | An oracle-answered question whose result never shows is followed by a cached question whose page shows a green box. | A new question abandons the previous question's tracking, so a save only ever goes under the key of the question on screen. | not executed | Controller.StaleTrackingOnCacheHit | Controller.CompleteFixedTracksCurrent |
| content.js:256-284 | A scheduled check tests the global `waitingForResult` but saves under the key it captured when its detection started. A timer left over from an earlier question can save a later page's answer under the earlier key. | A's observer records A's result before A's first check, so A's checks keep firing and return at the guard. Question B is then answered and tracked. B's green box appears in the 800 ms before B's detection starts, when no observer is connected, and A's next check fires in that window: it saves B's text under A's key. | A scheduled check acts only while its own question is the tracked one. | not executed | Controller.StaleTimerSavesUnderOldKey | Controller.TimerFiresFixed |
| content.js:823-844 | Tracking is set before the submit delay, and detection is scheduled only if `waitingForResult` is still set after it. An earlier run's scheduled check that gives up during the delay clears the flag, so the new question's result is never checked. | Question A's run has had four checks. Question B is answered and tracked, and A's fifth check, finding nothing, fires during B's 200-500 ms submit delay. | A scheduled check acts only while its own question is tracked, so B's detection still starts. | not executed | Driver.StaleTimerCancelsDetection | Driver.FixedTimerKeepsDetection |
