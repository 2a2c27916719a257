/** What the content script reads off the quiz page, as plain values: the
    question paragraph, the `button[data-slot="button"]` elements, the
    calculator input and the question image. The tests over them are
    `isPlayerTurn` (content.js:898-936) and the button scans of
    `checkForQuestion` (content.js:718-764). */
module Page {
  import opened Wrappers
  import opened Text

  /** One button: its whole `textContent`; the text of its first
      `p.select-none` or `p.font-semibold` paragraph (`caption`) and of its
      first paragraph of any class (`paragraph`), each when there is one; and
      whether it is disabled. The option scan reads the first, `selectAnswer`
      the second. */
  datatype Button = Button(text: string, caption: Option<string>, paragraph: Option<string>, disabled: bool)

  /** One look at the page. `question` is the question paragraph's text
      (`None` when there is no such element), `calculator` is `Some(disabled)`
      when a calculator input exists, `image` the question image's URL. */
  datatype Snapshot = Snapshot(
    question: Option<string>,
    buttons: seq<Button>,
    calculator: Option<bool>,
    image: Option<string>)

  /** The on-screen number pad keys. */
  const KeyboardKeys: set<string> := {"0", "1", "2", "3", "4", "5", "6", "7", "8", "9", ".", "-"}

  /** Game-interface buttons that are never answers ('Leave game', 'Join
      game', 'OK', 'Cancel'). */
  const UiLabels: set<string> := {"Opustit hru", "P\U{0159}ipojit do hry", "OK", "Zru\U{0161}it"}

  /** The answer-button test of `isPlayerTurn` on a trimmed text
      (content.js:914-920); the length is JavaScript's, in UTF-16 code units. */
  predicate IsAnswerText(t: string) {
    Utf16Length(t) > 2 && t !in KeyboardKeys && t !in UiLabels
  }

  /** Keys and 'OK' are at most two code units long, so the length test
      alone already rejects them: only the three long interface labels are
      excluded by name. */
  lemma AnswerTextByLength(t: string)
    ensures IsAnswerText(t) <==>
      Utf16Length(t) > 2 && t != "Opustit hru" && t != "P\U{0159}ipojit do hry" && t != "Zru\U{0161}it"
  {
    if Utf16Length(t) > 2 {
      assert t !in KeyboardKeys;
      assert t != "OK";
    }
  }

  function TrimmedText(b: Button): string {
    Trim(b.text)
  }

  /** Whether some button passes the test `p`: the early-return loop every
      button scan of the content script is written as. */
  function Any(bs: seq<Button>, p: Button -> bool): (r: bool)
    ensures r <==> exists i :: 0 <= i < |bs| && p(bs[i])
  {
    if bs == [] then false
    else if p(bs[0]) then true
    else
      var r := Any(bs[1..], p);
      assert forall i :: 1 <= i < |bs| ==> bs[i] == bs[1..][i - 1];
      r
  }

  /** An enabled button with an answer text. */
  predicate IsAnswerButton(b: Button) {
    !b.disabled && IsAnswerText(TrimmedText(b))
  }

  /** Whether an enabled button with an answer text is on screen: the scan of
      content.js:912-925. */
  function HasAnswerButton(bs: seq<Button>): (r: bool)
    ensures r <==> exists i :: 0 <= i < |bs| && IsAnswerButton(bs[i])
  {
    Any(bs, IsAnswerButton)
  }

  /** `isPlayerTurn()` (content.js:898-936): a non-blank question and either
      an enabled answer button or an enabled calculator input. */
  function IsPlayerTurn(p: Snapshot): (r: bool)
    ensures r ==> p.question.Some? && Trim(p.question.value) != []
    ensures r <==>
      && p.question.Some? && Trim(p.question.value) != []
      && ((exists i :: 0 <= i < |p.buttons| && IsAnswerButton(p.buttons[i]))
          || p.calculator == Some(false))
  {
    if p.question.None? || Trim(p.question.value) == [] then false
    else HasAnswerButton(p.buttons) || p.calculator == Some(false)
  }

  /** The text test of the already-answered scan (content.js:718-723):
      longer than two UTF-16 code units and not a key. */
  predicate AnsweredText(t: string) {
    Utf16Length(t) > 2 && t !in KeyboardKeys
  }

  /** Keys are one code unit long, so only the length test matters. */
  lemma AnsweredTextByLength(t: string)
    ensures AnsweredText(t) <==> Utf16Length(t) > 2
  {
    if Utf16Length(t) > 2 {
      assert t !in KeyboardKeys;
    }
  }

  /** A disabled button with an answered text. */
  predicate IsAnsweredButton(b: Button) {
    b.disabled && AnsweredText(TrimmedText(b))
  }

  /** The already-answered scan of content.js:718-727: some disabled button
      has an answered text. */
  function HasAnsweredButton(bs: seq<Button>): (r: bool)
    ensures r <==> exists i :: 0 <= i < |bs| && IsAnsweredButton(bs[i])
  {
    Any(bs, IsAnsweredButton)
  }

  /** A button showing a number-pad key. */
  predicate IsKeyButton(b: Button) {
    TrimmedText(b) in KeyboardKeys
  }

  /** Whether any button shows a number-pad key (content.js:749-753). */
  function HasKeyButton(bs: seq<Button>): (r: bool)
    ensures r <==> exists i :: 0 <= i < |bs| && IsKeyButton(bs[i])
  {
    Any(bs, IsKeyButton)
  }

  /** `isNumericQuestion` (content.js:746-755): a calculator input, enabled or
      not, or a number-pad key on any button. */
  function IsNumericQuestion(p: Snapshot): (r: bool)
    ensures r <==> p.calculator.Some? || exists i :: 0 <= i < |p.buttons| && IsKeyButton(p.buttons[i])
  {
    p.calculator.Some? || HasKeyButton(p.buttons)
  }

  /** The trimmed label text the option scan reads, `''` without a label. */
  function LabelText(b: Button): string {
    match b.caption
    case Some(t) => Trim(t)
    case None => []
  }

  /** Whether a button contributes an option to the oracle request. */
  predicate OffersOption(b: Button) {
    !b.disabled && IsOptionText(LabelText(b))
  }

  /** A label worth sending: not blank and not a key. */
  predicate IsOptionText(t: string) {
    t != [] && t !in KeyboardKeys
  }

  /** The buttons that pass the test `p`, in page order. */
  function Filter(bs: seq<Button>, p: Button -> bool): (r: seq<Button>)
    ensures |r| <= |bs|
    ensures forall b :: b in r <==> b in bs && p(b)
  {
    if bs == [] then []
    else
      var rest := Filter(bs[1..], p);
      if p(bs[0]) then [bs[0]] + rest else rest
  }

  /** The text `f` of every button that passes the test `p`, in page order. */
  function Collect(bs: seq<Button>, p: Button -> bool, f: Button -> string): (r: seq<string>)
    ensures |r| <= |bs|
    ensures forall t :: t in r <==> exists b :: b in bs && p(b) && f(b) == t
  {
    if bs == [] then []
    else
      var rest := Collect(bs[1..], p, f);
      assert forall b :: b in bs <==> b == bs[0] || b in bs[1..];
      if p(bs[0]) then [f(bs[0])] + rest else rest
  }

  /** The option texts sent to the oracle for a multiple-choice question
      (content.js:757-764): the labels of the enabled buttons, without blanks
      and keys, in page order. */
  function ChoiceTexts(bs: seq<Button>): (r: seq<string>)
    ensures |r| <= |bs|
    ensures forall t :: t in r <==> exists b :: b in bs && OffersOption(b) && LabelText(b) == t
    ensures forall j :: 0 <= j < |r| ==> IsOptionText(r[j])
  {
    var r := Collect(bs, OffersOption, LabelText);
    assert forall j :: 0 <= j < |r| ==> IsOptionText(r[j]) by {
      forall j | 0 <= j < |r| ensures IsOptionText(r[j]) {
        assert r[j] in r;
      }
    }
    r
  }

  /** The enabled buttons, in page order
      (`button[data-slot="button"]:not([disabled])`). */
  function Enabled(bs: seq<Button>): (r: seq<Button>)
    ensures |r| <= |bs|
    ensures forall b :: b in r <==> b in bs && !b.disabled
  {
    Filter(bs, (b: Button) => !b.disabled)
  }

  /** The text `selectAnswer` reads off a button (content.js:859-862): the
      trimmed first paragraph, or the trimmed whole text when it has none. A
      labelled paragraph is a paragraph, and the selector list matches in
      document order, so this is the first `<p>` whatever its class. */
  function ClickText(b: Button): string {
    match b.paragraph
    case Some(t) => Trim(t)
    case None => Trim(b.text)
  }

  /** The texts `selectAnswer` compares against, one per enabled button. */
  function ClickLabels(bs: seq<Button>): (r: seq<string>)
    ensures |r| == |Enabled(bs)|
    ensures forall j :: 0 <= j < |r| ==> r[j] == ClickText(Enabled(bs)[j])
  {
    var e := Enabled(bs);
    seq(|e|, j requires 0 <= j < |e| => ClickText(e[j]))
  }

  /** A button whose caption paragraph, when it has one, is its first
      paragraph. */
  predicate LabelFirst(b: Button) {
    b.caption.Some? ==> b.paragraph == b.caption
  }

  /** When every caption paragraph comes first in its button, every option
      text sent to the oracle is one of the texts `selectAnswer` compares
      the answer against, so an answer repeating an option can be clicked. */
  lemma OptionsClickable(bs: seq<Button>)
    requires forall b :: b in bs ==> LabelFirst(b)
    ensures forall t :: t in ChoiceTexts(bs) ==> t in ClickLabels(bs)
  {
    var e := Enabled(bs);
    var r := ClickLabels(bs);
    forall t | t in ChoiceTexts(bs) ensures t in r {
      var b :| b in bs && OffersOption(b) && LabelText(b) == t;
      assert b in e;
      var j :| 0 <= j < |e| && e[j] == b;
      assert r[j] == ClickText(b);
    }
  }

  /** Without that layout the two scans disagree: a button whose caption
      follows another paragraph offers its caption as an option, while
      `selectAnswer` compares against the other paragraph. */
  lemma CaptionAfterParagraph(text: string, caption: string, first: string)
    requires IsOptionText(Trim(caption)) && Trim(first) != Trim(caption)
    ensures var b := Button(text, Some(caption), Some(first), false);
      ChoiceTexts([b]) == [Trim(caption)] && ClickLabels([b]) == [Trim(first)]
  {
    var b := Button(text, Some(caption), Some(first), false);
    assert [b][1..] == [];
    assert Enabled([b]) == [b];
  }
}
