/** The cache administration of the popup (popup.js): HTML escaping of what
    is shown, the search filter and most-recent-first order of the cache
    list, the question shown for a key, editing and deleting a record, and
    merging an imported cache into the stored one. */
module Admin {
  import opened Wrappers
  import opened Text
  import opened Memory

  // ---------------------------------------------------------------------------
  // Escaping (popup.js:21-32)
  // ---------------------------------------------------------------------------

  /** `s.replace(/c/g, with)`: every `c` replaced by `with`. */
  function ReplaceAll(s: string, c: char, with: string): string {
    if s == [] then [] else (if s[0] == c then with else [s[0]]) + ReplaceAll(s[1..], c, with)
  }

  lemma {:induction false} ReplaceAllConcat(a: string, b: string, c: char, with: string)
    ensures ReplaceAll(a + b, c, with) == ReplaceAll(a, c, with) + ReplaceAll(b, c, with)
  {
    if a != [] {
      assert (a + b)[1..] == a[1..] + b;
      ReplaceAllConcat(a[1..], b, c, with);
    } else {
      assert a + b == b;
    }
  }

  lemma ReplaceAllSingle(x: char, c: char, with: string)
    ensures ReplaceAll([x], c, with) == if x == c then with else [x]
  {
    assert [x][1..] == [];
  }

  lemma {:induction false} ReplaceAllNone(s: string, c: char, with: string)
    requires NoChar(s, c)
    ensures ReplaceAll(s, c, with) == s
  {
    if s != [] {
      ReplaceAllNone(s[1..], c, with);
    }
  }

  /** One `.replace(/from/g, to)` of a chain. */
  datatype Rule = Rule(from: char, to: string)

  /** The replacements applied one after the other. */
  function ReplaceEach(s: string, rules: seq<Rule>): string
    decreases |rules|
  {
    if rules == [] then s else ReplaceEach(ReplaceAll(s, rules[0].from, rules[0].to), rules[1..])
  }

  /** `escapeHtml`'s chain: `&` first, then `<`, `>`, `"` and `'`. */
  const HtmlRules: seq<Rule> := [Rule('&', "&amp;"), Rule('<', "&lt;"), Rule('>', "&gt;"), Rule('"', "&quot;"), Rule('\'', "&#39;")]

  /** The backtick step `escapeAttr` adds. */
  const TickRule: Rule := Rule('`', "&#96;")

  /** `escapeHtml(value)`. */
  function EscapeHtml(s: string): string {
    ReplaceEach(s, HtmlRules)
  }

  /** `escapeAttr(value)`: `escapeHtml`, then the backtick. */
  function EscapeAttr(s: string): string {
    ReplaceAll(EscapeHtml(s), TickRule.from, TickRule.to)
  }

  /** What one character becomes in an attribute value. */
  function AttrEntity(c: char): string {
    if c == '&' then "&amp;"
    else if c == '<' then "&lt;"
    else if c == '>' then "&gt;"
    else if c == '"' then "&quot;"
    else if c == '\'' then "&#39;"
    else if c == '`' then "&#96;"
    else [c]
  }

  /** What one character becomes in element text: the backtick stays. */
  function HtmlEntity(c: char): string {
    if c == '`' then "`" else AttrEntity(c)
  }

  lemma {:induction false} ReplaceEachConcat(a: string, b: string, rules: seq<Rule>)
    ensures ReplaceEach(a + b, rules) == ReplaceEach(a, rules) + ReplaceEach(b, rules)
    decreases |rules|
  {
    if rules != [] {
      var r := rules[0];
      ReplaceAllConcat(a, b, r.from, r.to);
      ReplaceEachConcat(ReplaceAll(a, r.from, r.to), ReplaceAll(b, r.from, r.to), rules[1..]);
    }
  }

  /** Text holding none of the characters the rules replace passes through. */
  lemma {:induction false} ReplaceEachInert(s: string, rules: seq<Rule>)
    requires forall i :: 0 <= i < |rules| ==> NoChar(s, rules[i].from)
    ensures ReplaceEach(s, rules) == s
    decreases |rules|
  {
    if rules != [] {
      ReplaceAllNone(s, rules[0].from, rules[0].to);
      ReplaceEachInert(s, rules[1..]);
    }
  }

  /** What the chain makes of one character: the replacement of the first
      rule that matches it, put through the later rules, or the character. */
  function EachOnChar(c: char, rules: seq<Rule>): string
    decreases |rules|
  {
    if rules == [] then [c]
    else if c == rules[0].from then ReplaceEach(rules[0].to, rules[1..])
    else EachOnChar(c, rules[1..])
  }

  lemma {:induction false} ReplaceEachChar(c: char, rules: seq<Rule>)
    ensures ReplaceEach([c], rules) == EachOnChar(c, rules)
    decreases |rules|
  {
    if rules != [] {
      ReplaceAllSingle(c, rules[0].from, rules[0].to);
      if c != rules[0].from {
        ReplaceEachChar(c, rules[1..]);
      }
    }
  }

  /** None of the entities holds a character a later step replaces. */
  predicate EntityText(e: string) {
    NoChar(e, '<') && NoChar(e, '>') && NoChar(e, '"') && NoChar(e, '\'') && NoChar(e, '`')
  }

  lemma EntitiesInert()
    ensures EntityText("&amp;") && EntityText("&lt;") && EntityText("&gt;")
    ensures EntityText("&quot;") && EntityText("&#39;") && EntityText("&#96;")
  {
  }

  lemma HtmlRulesTail(k: nat, e: string)
    requires 1 <= k <= 5 && EntityText(e)
    ensures ReplaceEach(e, HtmlRules[k..]) == e
  {
    ReplaceEachInert(e, HtmlRules[k..]);
  }

  /** The chain acts on one character as the entity table says: an `&` put
      in by an earlier step is not escaped again. */
  lemma EscapeChar(c: char)
    ensures EscapeHtml([c]) == HtmlEntity(c)
    ensures EscapeAttr([c]) == AttrEntity(c)
  {
    EntitiesInert();
    ReplaceEachChar(c, HtmlRules);
    var h := HtmlRules;
    assert h[1..][1..] == h[2..] && h[2..][1..] == h[3..] && h[3..][1..] == h[4..] && h[4..][1..] == h[5..];
    if c == '&' {
      HtmlRulesTail(1, "&amp;");
    } else if c == '<' {
      HtmlRulesTail(2, "&lt;");
    } else if c == '>' {
      HtmlRulesTail(3, "&gt;");
    } else if c == '"' {
      HtmlRulesTail(4, "&quot;");
    } else if c == '\'' {
      HtmlRulesTail(5, "&#39;");
    }
    assert EscapeHtml([c]) == HtmlEntity(c);
    if c == '`' {
      ReplaceAllSingle(c, '`', "&#96;");
    } else {
      ReplaceAllNone(HtmlEntity(c), '`', "&#96;");
    }
  }

  lemma EscapeHtmlConcat(a: string, b: string)
    ensures EscapeHtml(a + b) == EscapeHtml(a) + EscapeHtml(b)
  {
    ReplaceEachConcat(a, b, HtmlRules);
  }

  lemma EscapeAttrConcat(a: string, b: string)
    ensures EscapeAttr(a + b) == EscapeAttr(a) + EscapeAttr(b)
  {
    EscapeHtmlConcat(a, b);
    ReplaceAllConcat(EscapeHtml(a), EscapeHtml(b), '`', "&#96;");
  }

  /** `escapeHtml` replaces each character by its entity, independently of
      its neighbours. */
  lemma EscapeHtmlPerChar(s: string)
    requires s != []
    ensures EscapeHtml(s) == HtmlEntity(s[0]) + EscapeHtml(s[1..])
  {
    assert s == [s[0]] + s[1..];
    EscapeHtmlConcat([s[0]], s[1..]);
    EscapeChar(s[0]);
  }

  lemma EscapeAttrPerChar(s: string)
    requires s != []
    ensures EscapeAttr(s) == AttrEntity(s[0]) + EscapeAttr(s[1..])
  {
    assert s == [s[0]] + s[1..];
    EscapeAttrConcat([s[0]], s[1..]);
    EscapeChar(s[0]);
  }

  /** The characters markup gives a meaning to. */
  predicate Special(c: char) {
    c == '<' || c == '>' || c == '"' || c == '\''
  }

  /** Text without tag or quote delimiters. */
  predicate Inert(s: string) {
    forall i :: 0 <= i < |s| ==> !Special(s[i])
  }

  lemma InertConcat(a: string, b: string)
    requires Inert(a) && Inert(b)
    ensures Inert(a + b)
  {
    forall i | 0 <= i < |a + b| ensures !Special((a + b)[i]) {
      if i >= |a| {
        assert (a + b)[i] == b[i - |a|];
      }
    }
  }

  /** Escaped text holds no tag or quote delimiter. */
  lemma EntityInert(c: char)
    ensures Inert(HtmlEntity(c)) && Inert(AttrEntity(c))
  {
  }

  /** Whether `t` begins with one of the entities `escapeHtml` writes, or,
      when `tick` is set, with the backtick entity `escapeAttr` adds. */
  predicate EntityStart(t: string, tick: bool) {
    || StartsWith(t, "&amp;") || StartsWith(t, "&lt;") || StartsWith(t, "&gt;")
    || StartsWith(t, "&quot;") || StartsWith(t, "&#39;")
    || (tick && StartsWith(t, "&#96;"))
  }

  /** Every `&` begins an entity, so no ampersand of the input survives to
      start a character reference of its own. */
  predicate AmpsEncoded(s: string, tick: bool) {
    forall i :: 0 <= i < |s| && s[i] == '&' ==> EntityStart(s[i..], tick)
  }

  lemma StartsWithExtend(s: string, t: string, e: string)
    requires StartsWith(s, e)
    ensures StartsWith(s + t, e)
  {
    assert (s + t)[..|e|] == s[..|e|];
  }

  lemma AmpsConcat(a: string, b: string, tick: bool)
    requires AmpsEncoded(a, tick) && AmpsEncoded(b, tick)
    ensures AmpsEncoded(a + b, tick)
  {
    forall i | 0 <= i < |a + b| && (a + b)[i] == '&' ensures EntityStart((a + b)[i..], tick) {
      if i < |a| {
        assert (a + b)[i..] == a[i..] + b;
        assert a[i] == '&';
        var t := a[i..];
        if StartsWith(t, "&amp;") { StartsWithExtend(t, b, "&amp;"); }
        else if StartsWith(t, "&lt;") { StartsWithExtend(t, b, "&lt;"); }
        else if StartsWith(t, "&gt;") { StartsWithExtend(t, b, "&gt;"); }
        else if StartsWith(t, "&quot;") { StartsWithExtend(t, b, "&quot;"); }
        else if StartsWith(t, "&#39;") { StartsWithExtend(t, b, "&#39;"); }
        else { StartsWithExtend(t, b, "&#96;"); }
      } else {
        assert (a + b)[i..] == b[i - |a|..];
        assert b[i - |a|] == '&';
      }
    }
  }

  /** An entity text starts with itself and holds no other `&`. */
  lemma EntityItself(e: string, tick: bool)
    requires e != [] && e[0] == '&' && EntityStart(e, tick)
    requires forall i :: 1 <= i < |e| ==> e[i] != '&'
    ensures AmpsEncoded(e, tick)
  {
    assert e[0..] == e;
  }

  lemma EntityAmps(c: char)
    ensures AmpsEncoded(HtmlEntity(c), false) && AmpsEncoded(AttrEntity(c), true)
  {
    var h, a := HtmlEntity(c), AttrEntity(c);
    if a != [c] {
      assert a[..|a|] == a;
      EntityItself(a, true);
    }
    if h != [c] {
      assert h[..|h|] == h;
      EntityItself(h, false);
    }
  }

  /** Escaped element text holds no tag or quote delimiter, and each of its
      ampersands begins one of the five entities. */
  lemma {:induction false} EscapedHtmlInert(s: string)
    ensures Inert(EscapeHtml(s))
    ensures AmpsEncoded(EscapeHtml(s), false)
  {
    if s != [] {
      EscapeHtmlPerChar(s);
      EscapedHtmlInert(s[1..]);
      EntityInert(s[0]);
      EntityAmps(s[0]);
      InertConcat(HtmlEntity(s[0]), EscapeHtml(s[1..]));
      AmpsConcat(HtmlEntity(s[0]), EscapeHtml(s[1..]), false);
    } else {
      ReplaceEachInert(s, HtmlRules);
    }
  }

  /** The same for an attribute value, whose ampersands may also begin the
      backtick entity. */
  lemma {:induction false} EscapedAttrInert(s: string)
    ensures Inert(EscapeAttr(s))
    ensures AmpsEncoded(EscapeAttr(s), true)
  {
    if s != [] {
      EscapeAttrPerChar(s);
      EscapedAttrInert(s[1..]);
      EntityInert(s[0]);
      EntityAmps(s[0]);
      InertConcat(AttrEntity(s[0]), EscapeAttr(s[1..]));
      AmpsConcat(AttrEntity(s[0]), EscapeAttr(s[1..]), true);
    } else {
      ReplaceEachInert(s, HtmlRules);
    }
  }

  /** An attribute value holds no backtick either. */
  lemma {:induction false} EscapedAttrNoTick(s: string)
    ensures NoChar(EscapeAttr(s), '`')
  {
    if s != [] {
      EscapeAttrPerChar(s);
      EscapedAttrNoTick(s[1..]);
      var e, t := AttrEntity(s[0]), EscapeAttr(s[1..]);
      forall i | 0 <= i < |e + t| ensures (e + t)[i] != '`' {
        if i >= |e| {
          assert (e + t)[i] == t[i - |e|];
        }
      }
    }
  }

  /** How an HTML parser reads the six entities back. */
  function Unescape(s: string): string
    decreases |s|
  {
    if s == [] then []
    else if StartsWith(s, "&amp;") then "&" + Unescape(s[5..])
    else if StartsWith(s, "&lt;") then "<" + Unescape(s[4..])
    else if StartsWith(s, "&gt;") then ">" + Unescape(s[4..])
    else if StartsWith(s, "&quot;") then "\"" + Unescape(s[6..])
    else if StartsWith(s, "&#39;") then "'" + Unescape(s[5..])
    else if StartsWith(s, "&#96;") then "`" + Unescape(s[5..])
    else [s[0]] + Unescape(s[1..])
  }

  /** A text that differs from `e` at position `k` does not start with `e`. */
  lemma Mismatch(s: string, e: string, k: nat)
    requires k < |e| && k < |s| && s[k] != e[k]
    ensures !StartsWith(s, e)
  {
    if |e| <= |s| {
      assert s[..|e|][k] == s[k];
    }
  }

  lemma UnescapeAmp(rest: string)
    ensures Unescape("&amp;" + rest) == ['&'] + Unescape(rest)
  {
    var s := "&amp;" + rest;
    assert s[..5] == "&amp;";
    assert s[5..] == rest;
  }

  lemma UnescapeLt(rest: string)
    ensures Unescape("&lt;" + rest) == ['<'] + Unescape(rest)
  {
    var s := "&lt;" + rest;
    Mismatch(s, "&amp;", 1);
    assert s[..4] == "&lt;";
    assert s[4..] == rest;
  }

  lemma UnescapeGt(rest: string)
    ensures Unescape("&gt;" + rest) == ['>'] + Unescape(rest)
  {
    var s := "&gt;" + rest;
    Mismatch(s, "&amp;", 1);
    Mismatch(s, "&lt;", 1);
    assert s[..4] == "&gt;";
    assert s[4..] == rest;
  }

  lemma UnescapeQuot(rest: string)
    ensures Unescape("&quot;" + rest) == ['"'] + Unescape(rest)
  {
    var s := "&quot;" + rest;
    Mismatch(s, "&amp;", 1);
    Mismatch(s, "&lt;", 1);
    Mismatch(s, "&gt;", 1);
    assert s[..6] == "&quot;";
    assert s[6..] == rest;
  }

  lemma UnescapeApos(rest: string)
    ensures Unescape("&#39;" + rest) == ['\''] + Unescape(rest)
  {
    var s := "&#39;" + rest;
    Mismatch(s, "&amp;", 1);
    Mismatch(s, "&lt;", 1);
    Mismatch(s, "&gt;", 1);
    Mismatch(s, "&quot;", 1);
    assert s[..5] == "&#39;";
    assert s[5..] == rest;
  }

  lemma UnescapeTick(rest: string)
    ensures Unescape("&#96;" + rest) == ['`'] + Unescape(rest)
  {
    var s := "&#96;" + rest;
    Mismatch(s, "&amp;", 1);
    Mismatch(s, "&lt;", 1);
    Mismatch(s, "&gt;", 1);
    Mismatch(s, "&quot;", 1);
    Mismatch(s, "&#39;", 2);
    assert s[..5] == "&#96;";
    assert s[5..] == rest;
  }

  lemma UnescapeEntity(c: char, rest: string)
    ensures Unescape(AttrEntity(c) + rest) == [c] + Unescape(rest)
    ensures Unescape(HtmlEntity(c) + rest) == [c] + Unescape(rest)
  {
    if c == '&' {
      UnescapeAmp(rest);
    } else if c == '<' {
      UnescapeLt(rest);
    } else if c == '>' {
      UnescapeGt(rest);
    } else if c == '"' {
      UnescapeQuot(rest);
    } else if c == '\'' {
      UnescapeApos(rest);
    } else {
      UnescapePlain(c, rest);
      if c == '`' {
        UnescapeTick(rest);
      }
    }
  }

  lemma UnescapePlain(c: char, rest: string)
    requires c != '&'
    ensures Unescape([c] + rest) == [c] + Unescape(rest)
  {
    var s := [c] + rest;
    assert s[0] == c;
    assert s[1..] == rest;
    forall e | e in ["&amp;", "&lt;", "&gt;", "&quot;", "&#39;", "&#96;"] ensures !StartsWith(s, e) {
      Mismatch(s, e, 0);
    }
  }

  /** Reading an escaped value back gives the value: what is shown is the
      text itself, and the `data-key` attribute of an Edit or Delete button
      gives back the exact cache key. */
  lemma {:induction false} UnescapeEscape(s: string)
    ensures Unescape(EscapeHtml(s)) == s
    ensures Unescape(EscapeAttr(s)) == s
  {
    if s != [] {
      EscapeHtmlPerChar(s);
      EscapeAttrPerChar(s);
      UnescapeEscape(s[1..]);
      UnescapeEntity(s[0], EscapeHtml(s[1..]));
      UnescapeEntity(s[0], EscapeAttr(s[1..]));
      assert [s[0]] + s[1..] == s;
    } else {
      assert EscapeHtml(s) == [] by {
        ReplaceEachInert(s, HtmlRules);
      }
    }
  }

  // ---------------------------------------------------------------------------
  // The question shown for a key (popup.js:163, 223)
  // ---------------------------------------------------------------------------

  /** `[a-f0-9]` under the `i` flag. */
  predicate IsHex(c: char) {
    '0' <= c <= '9' || 'a' <= c <= 'f' || 'A' <= c <= 'F'
  }

  /** A match of `/\|\|\|img:[a-f0-9]/i` starting at `i`. */
  predicate TagAt(s: string, i: int) {
    && 0 <= i && i + 8 <= |s|
    && s[i] == '|' && s[i + 1] == '|' && s[i + 2] == '|'
    && (s[i + 3] == 'i' || s[i + 3] == 'I')
    && (s[i + 4] == 'm' || s[i + 4] == 'M')
    && (s[i + 5] == 'g' || s[i + 5] == 'G')
    && s[i + 6] == ':'
    && IsHex(s[i + 7])
  }

  /** The length of the run of hex digits at `k`. */
  function HexRun(s: string, k: nat): (n: nat)
    requires k <= |s|
    ensures k + n <= |s|
    ensures forall j :: k <= j < k + n ==> IsHex(s[j])
    ensures k + n == |s| || !IsHex(s[k + n])
    decreases |s| - k
  {
    if k < |s| && IsHex(s[k]) then 1 + HexRun(s, k + 1) else 0
  }

  /** The leftmost match at or after `k`. */
  function FirstTag(s: string, k: nat): (r: Option<nat>)
    ensures r.Some? ==> k <= r.value && TagAt(s, r.value)
    ensures forall i :: k <= i && (r.None? || i < r.value) ==> !TagAt(s, i)
    decreases |s| - k
  {
    if k + 8 > |s| then None
    else if TagAt(s, k) then Some(k)
    else FirstTag(s, k + 1)
  }

  /** `key.replace(/\|\|\|img:[a-f0-9]+/i, '')`: the leftmost match, taken
      with all the hex digits that follow, is removed. */
  function StripImageTag(s: string): (r: string)
    ensures FirstTag(s, 0).None? ==> r == s
    ensures FirstTag(s, 0).Some? ==>
      var i := FirstTag(s, 0).value;
      r == s[..i] + s[i + 7 + HexRun(s, i + 7)..]
  {
    match FirstTag(s, 0)
    case None => s
    case Some(i) => s[..i] + s[i + 7 + HexRun(s, i + 7)..]
  }

  /** A text without `|` holds no match. */
  lemma NoBarNoTag(k: string, t: string)
    requires NoChar(k, '|')
    ensures forall i :: 0 <= i < |k| ==> !TagAt(k + t, i)
  {
    forall i | 0 <= i < |k| ensures !TagAt(k + t, i) {
      assert (k + t)[i] == k[i];
    }
  }

  /** The question shown for an image question's key is the question: the
      `|||IMG:` marker and the hash the content script appends are removed,
      in either case, when the question has no `|`. */
  lemma StripImageKey(k: string, marker: string, hash: string)
    requires NoChar(k, '|')
    requires marker == "|||IMG:" || marker == "|||img:"
    requires hash != [] && forall j :: 0 <= j < |hash| ==> IsHex(hash[j])
    ensures StripImageTag(k + marker + hash) == k
  {
    var s := k + marker + hash;
    NoBarNoTag(k, marker + hash);
    assert s == k + (marker + hash);
    assert s[|k| + 7] == hash[0];
    assert TagAt(s, |k|);
    FirstTagFinds(s, 0, |k|);
    var n := HexRun(s, |k| + 7);
    forall j | |k| + 7 <= j < |s| ensures IsHex(s[j]) {
      assert s[j] == hash[j - |k| - 7];
    }
    assert n == |hash|;
    assert s[..|k|] == k;
  }

  lemma {:induction false} FirstTagFinds(s: string, k: nat, i: nat)
    requires k <= i && TagAt(s, i)
    requires forall j :: k <= j < i ==> !TagAt(s, j)
    ensures FirstTag(s, k) == Some(i)
    decreases i - k
  {
    if k < i {
      FirstTagFinds(s, k + 1, i);
    }
  }

  /** A key of a question without an image, and without `|`, is shown as is. */
  lemma StripPlainKey(k: string)
    requires NoChar(k, '|')
    ensures StripImageTag(k) == k
  {
    NoBarNoTag(k, []);
    assert k + [] == k;
    assert FirstTag(k, 0).None?;
  }

  /** `data.questionText || key.replace(…)`. */
  function ShownQuestion(key: string, e: Entry): string {
    if e.questionText.Some? && e.questionText.value != [] then e.questionText.value else StripImageTag(key)
  }

  // ---------------------------------------------------------------------------
  // The cache list (popup.js:121-156)
  // ---------------------------------------------------------------------------

  /** One `[key, data]` pair of `Object.entries(currentCache)`. */
  datatype Row = Row(key: string, entry: Entry)

  /** `rows` lists the store `m`: every key once, with its record. */
  predicate Lists(rows: seq<Row>, m: Store) {
    && (forall i :: 0 <= i < |rows| ==> rows[i].key in m && m[rows[i].key] == rows[i].entry)
    && (forall k :: k in m ==> exists i :: 0 <= i < |rows| && rows[i].key == k)
    && (forall i, j :: 0 <= i < j < |rows| ==> rows[i].key != rows[j].key)
  }

  /** The search test: an empty search keeps everything; otherwise the
      lower-cased question text (or key) or answer must contain the
      lower-cased search. */
  predicate Matches(search: string, r: Row) {
    var q := if r.entry.questionText.Some? && r.entry.questionText.value != [] then r.entry.questionText.value else r.key;
    search == [] || Contains(LowerStr(q), LowerStr(search)) || Contains(LowerStr(r.entry.answer), LowerStr(search))
  }

  /** `cacheEntries.filter(…)`: the rows that match the search, in order. */
  function Matching(rows: seq<Row>, search: string): (r: seq<Row>)
    ensures forall x :: x in r <==> x in rows && Matches(search, x)
    ensures multiset(r) <= multiset(rows)
  {
    if rows == [] then []
    else
      var rest := Matching(rows[1..], search);
      assert rows == [rows[0]] + rows[1..];
      if Matches(search, rows[0]) then [rows[0]] + rest else rest
  }

  /** `data.lastUsed || 0`. */
  function Recency(r: Row): int {
    r.entry.lastUsed.GetOr(0)
  }

  /** Most recent first. */
  predicate Recent(rows: seq<Row>) {
    forall i, j :: 0 <= i < j < |rows| ==> Recency(rows[i]) >= Recency(rows[j])
  }

  /** Puts `x` before the first row no more recent than it. */
  function Insert(x: Row, rows: seq<Row>): (r: seq<Row>)
    ensures multiset(r) == multiset(rows) + multiset{x}
    ensures |r| == |rows| + 1
  {
    if rows == [] || Recency(x) >= Recency(rows[0]) then [x] + rows
    else
      assert rows == [rows[0]] + rows[1..];
      [rows[0]] + Insert(x, rows[1..])
  }

  lemma {:induction false} InsertRecent(x: Row, rows: seq<Row>)
    requires Recent(rows)
    ensures Recent(Insert(x, rows))
    ensures Insert(x, rows) != [] && forall y :: y in Insert(x, rows) ==> y == x || y in rows
  {
    if rows != [] && Recency(x) < Recency(rows[0]) {
      InsertRecent(x, rows[1..]);
      var t := Insert(x, rows[1..]);
      forall y | y in t ensures Recency(y) <= Recency(rows[0]) {
        if y != x {
          assert y in rows[1..];
        }
      }
      assert Insert(x, rows) == [rows[0]] + t;
    }
  }

  /** The stable sort of `filtered.sort((a, b) => (b.lastUsed || 0) - (a.lastUsed || 0))`. */
  function ByRecency(rows: seq<Row>): (r: seq<Row>)
    ensures multiset(r) == multiset(rows)
    ensures |r| == |rows|
  {
    if rows == [] then []
    else
      assert rows == [rows[0]] + rows[1..];
      Insert(rows[0], ByRecency(rows[1..]))
  }

  lemma {:induction false} ByRecencyRecent(rows: seq<Row>)
    ensures Recent(ByRecency(rows))
  {
    if rows != [] {
      ByRecencyRecent(rows[1..]);
      InsertRecent(rows[0], ByRecency(rows[1..]));
    }
  }

  /** The rows of recency `v`, in order. */
  function Tier(rows: seq<Row>, v: int): seq<Row> {
    if rows == [] then []
    else (if Recency(rows[0]) == v then [rows[0]] else []) + Tier(rows[1..], v)
  }

  lemma TierCons(x: Row, rows: seq<Row>, v: int)
    ensures Tier([x] + rows, v) == (if Recency(x) == v then [x] else []) + Tier(rows, v)
  {
    assert ([x] + rows)[1..] == rows;
  }

  /** Inserting `x` adds it to its own recency tier, at the front, and
      leaves every other tier alone. */
  lemma {:induction false} InsertTier(x: Row, rows: seq<Row>, v: int)
    ensures Tier(Insert(x, rows), v) == (if Recency(x) == v then [x] else []) + Tier(rows, v)
  {
    if rows != [] && Recency(x) < Recency(rows[0]) {
      InsertTier(x, rows[1..], v);
      assert Insert(x, rows) == [rows[0]] + Insert(x, rows[1..]);
      assert rows == [rows[0]] + rows[1..];
      TierPast(x, rows[0], rows[1..], Insert(x, rows[1..]), v);
    } else {
      assert Insert(x, rows) == [x] + rows;
      TierCons(x, rows, v);
    }
  }

  /** A row more recent than `x` in front of both sides keeps `x`'s tier
      relation. */
  lemma TierPast(x: Row, y: Row, rest: seq<Row>, t: seq<Row>, v: int)
    requires Recency(x) < Recency(y)
    requires Tier(t, v) == (if Recency(x) == v then [x] else []) + Tier(rest, v)
    ensures Tier([y] + t, v) == (if Recency(x) == v then [x] else []) + Tier([y] + rest, v)
  {
    TierCons(y, t, v);
    TierCons(y, rest, v);
  }

  /** The sort is stable: rows used at the same time keep their order. */
  lemma {:induction false} ByRecencyStable(rows: seq<Row>, v: int)
    ensures Tier(ByRecency(rows), v) == Tier(rows, v)
  {
    if rows != [] {
      ByRecencyStable(rows[1..], v);
      InsertTier(rows[0], ByRecency(rows[1..]), v);
    }
  }

  /** What the cache list shows. */
  datatype Listing = EmptyCache | NoResults | Items(rows: seq<Row>)

  /** `renderCacheList(search)`. */
  function Render(rows: seq<Row>, search: string): (r: Listing)
    ensures rows == [] <==> r == EmptyCache
    ensures r.Items? ==> r.rows != [] && forall x :: x in r.rows <==> x in rows && Matches(search, x)
    ensures r == NoResults <==> rows != [] && forall i :: 0 <= i < |rows| ==> !Matches(search, rows[i])
  {
    if rows == [] then EmptyCache
    else
      var filtered := Matching(rows, search);
      var out := ByRecency(filtered);
      assert forall x :: x in out <==> x in multiset(filtered);
      if filtered == [] then NoResults else Items(out)
  }

  /** The listed rows: the matches of a store listed by `rows`, each once,
      with its record. */
  lemma ListedRows(rows: seq<Row>, m: Store, search: string, out: seq<Row>)
    requires Lists(rows, m)
    requires forall x :: x in out <==> x in rows && Matches(search, x)
    ensures forall k :: (exists i :: 0 <= i < |out| && out[i].key == k) <==> k in m && Matches(search, Row(k, m[k]))
    ensures forall i :: 0 <= i < |out| ==> out[i].entry == m[out[i].key]
  {
    forall k ensures (exists i :: 0 <= i < |out| && out[i].key == k) <==> k in m && Matches(search, Row(k, m[k])) {
      if exists i :: 0 <= i < |out| && out[i].key == k {
        var i :| 0 <= i < |out| && out[i].key == k;
        assert out[i] in out;
      }
      if k in m && Matches(search, Row(k, m[k])) {
        var i :| 0 <= i < |rows| && rows[i].key == k;
        assert rows[i] == Row(k, m[k]);
        assert rows[i] in out;
        var j :| 0 <= j < |out| && out[j] == rows[i];
      }
    }
    forall i | 0 <= i < |out| ensures out[i].entry == m[out[i].key] {
      assert out[i] in out;
    }
  }

  /** The list shows exactly the records of the store that match the
      search, most recent first, each once, rows used at the same time in
      their original order. */
  lemma RenderShowsMatches(rows: seq<Row>, m: Store, search: string)
    requires Lists(rows, m)
    requires Render(rows, search).Items?
    ensures var out := Render(rows, search).rows;
      && Recent(out)
      && (forall k :: (exists i :: 0 <= i < |out| && out[i].key == k) <==> k in m && Matches(search, Row(k, m[k])))
      && (forall i :: 0 <= i < |out| ==> out[i].entry == m[out[i].key])
      && (forall v :: Tier(out, v) == Tier(Matching(rows, search), v))
  {
    var filtered := Matching(rows, search);
    var out := ByRecency(filtered);
    assert Render(rows, search).rows == out;
    ByRecencyRecent(filtered);
    forall v ensures Tier(out, v) == Tier(filtered, v) {
      ByRecencyStable(filtered, v);
    }
    ListedRows(rows, m, search, out);
  }

  // ---------------------------------------------------------------------------
  // Editing, deleting, importing (popup.js:218-282, 334-374)
  // ---------------------------------------------------------------------------

  const EmptyAnswer: string := "Answer cannot be empty!"
  const InvalidJson: string := "Invalid JSON file!"

  /** Saving an edited answer: the trimmed input replaces the answer and
      the record counts as used now; nothing else about it changes. An
      Edit button is only shown for a key of the cache. */
  function Edit(m: Store, key: string, input: string, now: int): (r: Result<Store, string>)
    requires key in m
    ensures Trim(input) == [] <==> r.Failure?
    ensures r.Failure? ==> r.error == EmptyAnswer
    ensures r.Success? ==> r.value.Keys == m.Keys
    ensures r.Success? ==> forall k :: k in m && k != key ==> r.value[k] == m[k]
    ensures r.Success? ==> r.value[key] == m[key].(answer := Trim(input), lastUsed := Some(now))
  {
    var a := Trim(input);
    if a == [] then Failure(EmptyAnswer)
    else Success(m[key := m[key].(answer := a, lastUsed := Some(now))])
  }

  /** After an edit the content script's lookup returns the new answer, and
      the store stays well formed. */
  lemma EditThenGet(m: Store, key: string, input: string, now: int)
    requires key in m && Trim(input) != []
    requires WellFormedStore(m)
    ensures var r := Edit(m, key, input, now).value;
      GetAt(r, key).Some? && GetAt(r, key).value.answer == Trim(input) && WellFormedStore(r)
  {
    var e := m[key].(answer := Trim(input), lastUsed := Some(now));
    assert Edit(m, key, input, now).value == m[key := e];
    ReplaceKeepsWellFormed(m, key, e);
  }

  /** Replacing a record by one with the same counters and confidence keeps
      a store well formed. */
  lemma ReplaceKeepsWellFormed(m: Store, key: string, e: Entry)
    requires WellFormedStore(m) && key in m
    requires e.stats == m[key].stats && e.confidence == m[key].confidence
    ensures WellFormedStore(m[key := e])
  {
    assert WellFormed(m[key]);
  }

  /** `deleteCacheItem(key)`: the record goes once the user confirms. */
  function Delete(m: Store, key: string, confirmed: bool): (r: Store)
    ensures confirmed ==> key !in r && r.Keys == m.Keys - {key}
    ensures !confirmed ==> r == m
    ensures forall k :: k in r ==> r[k] == m[k]
  {
    if confirmed then m - {key} else m
  }

  /** After a confirmed delete the content script's lookup misses the key,
      every other lookup answers as before, and the store stays well
      formed. */
  lemma DeleteThenGet(m: Store, key: string)
    ensures var r := Delete(m, key, true);
      GetAt(r, key).None? && forall k :: k != key ==> GetAt(r, k) == GetAt(m, k)
    ensures WellFormedStore(m) ==> WellFormedStore(Delete(m, key, true))
  {
    var r := Delete(m, key, true);
    forall k | k != key ensures GetAt(r, k) == GetAt(m, k) {
      assert k in r <==> k in m;
      if k in m {
        assert r[k] == m[k];
      }
    }
  }

  /** `{ ...existing, ...imported }`: every key of either, the imported
      record winning. */
  function Merge(existing: Store, imported: Store): (r: Store)
    ensures r.Keys == existing.Keys + imported.Keys
    ensures forall k :: k in imported ==> r[k] == imported[k]
    ensures forall k :: k in existing && k !in imported ==> r[k] == existing[k]
  {
    existing + imported
  }

  /** Importing the same file again changes nothing, and importing nothing
      changes nothing. */
  lemma MergeIdempotent(existing: Store, imported: Store)
    ensures Merge(Merge(existing, imported), imported) == Merge(existing, imported)
    ensures Merge(existing, map[]) == existing
  {
  }

  /** Merging well-formed stores gives a well-formed store; the merged
      store holds one record per distinct key, however many that is. */
  lemma MergeWellFormed(existing: Store, imported: Store)
    requires WellFormedStore(existing) && WellFormedStore(imported)
    ensures WellFormedStore(Merge(existing, imported))
    ensures |Merge(existing, imported)| == |existing.Keys + imported.Keys|
  {
    assert Merge(existing, imported).Keys == existing.Keys + imported.Keys;
  }

  /** The import handler: a file that does not parse is reported, an
      import the user declines changes nothing. */
  function Import(existing: Store, parsed: Option<Store>, confirmed: bool): (r: Result<Store, string>)
    ensures parsed.None? <==> r.Failure?
    ensures r.Failure? ==> r.error == InvalidJson
    ensures r.Success? && !confirmed ==> r.value == existing
    ensures r.Success? && confirmed ==> r.value.Keys == existing.Keys + parsed.value.Keys
    ensures r.Success? && confirmed ==> forall k :: k in parsed.value ==> r.value[k] == parsed.value[k]
  {
    match parsed
    case None => Failure(InvalidJson)
    case Some(imported) => Success(if confirmed then Merge(existing, imported) else existing)
  }
}
