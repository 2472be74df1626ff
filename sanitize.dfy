/**
 * The server's two text sanitizers: `sanitize_content`, applied to post and
 * comment text before it is stored and later inserted into pages without
 * escaping, and `sanitize_for_db`. Both are chains of replace-all steps.
 */
module Sanitize {
  import opened Text
  import opened Overlap

  /** A replace-all step: every occurrence of `pattern` becomes `replacement`. */
  datatype Rule = Rule(pattern: string, replacement: string)

  /** No rule has an empty pattern. */
  predicate WellFormed(rules: seq<Rule>)
  {
    forall k :: 0 <= k < |rules| ==> rules[k].pattern != []
  }

  /** No replacement in the chain contains `c`. */
  predicate NeverWrites(rules: seq<Rule>, c: char)
  {
    forall k :: 0 <= k < |rules| ==> c !in rules[k].replacement
  }

  /** Every replacement is at most as long as its pattern. */
  predicate Shrinking(rules: seq<Rule>)
  {
    forall k :: 0 <= k < |rules| ==> |rules[k].replacement| <= |rules[k].pattern|
  }

  /** Every replacement is at least as long as its pattern. */
  predicate Growing(rules: seq<Rule>)
  {
    forall k :: 0 <= k < |rules| ==> |rules[k].replacement| >= |rules[k].pattern|
  }

  /** None of the chain's patterns occurs in `s`. */
  predicate NoPatternIn(s: string, rules: seq<Rule>)
  {
    forall k :: 0 <= k < |rules| ==> !Contains(s, rules[k].pattern)
  }

  /** The rules applied one after another, each to the whole output of the previous one. */
  function ApplyRules(s: string, rules: seq<Rule>): string
    requires WellFormed(rules)
    decreases |rules|
  {
    if rules == [] then s
    else ApplyRules(ReplaceAll(s, rules[0].pattern, rules[0].replacement), rules[1..])
  }

  /** An element opener or closer `<tag` turned into visible text. */
  function ElementRule(tag: string): Rule
  {
    Rule("<" + tag, "&lt;" + tag)
  }

  /** A URL scheme `scheme:` defused. */
  function SchemeRule(scheme: string): Rule
  {
    Rule(scheme + ":", "blocked-" + scheme + ":")
  }

  /** An inline event-handler attribute ` onevent=` renamed into an inert data attribute. */
  function HandlerRule(event: string): Rule
  {
    Rule(" on" + event + "=", " data-blocked-on" + event + "=")
  }

  const ElementTags: seq<string> := ["script", "/script", "iframe", "/iframe", "object", "embed", "base"]
  const Schemes: seq<string> := ["javascript", "data", "vbscript"]
  const Events: seq<string> := ["error", "load", "click", "mouseover", "focus", "blur"]

  /** Which of the three rule shapes a name is put into. */
  datatype RuleKind = ElementKind | SchemeKind | HandlerKind

  function RuleFor(kind: RuleKind, name: string): Rule
  {
    match kind
    case ElementKind => ElementRule(name)
    case SchemeKind => SchemeRule(name)
    case HandlerKind => HandlerRule(name)
  }

  /** One rule per name, in the order of the names. */
  function RulesFor(kind: RuleKind, names: seq<string>): (rules: seq<Rule>)
    ensures |rules| == |names| && forall k :: 0 <= k < |names| ==> rules[k] == RuleFor(kind, names[k])
  {
    if names == [] then [] else [RuleFor(kind, names[0])] + RulesFor(kind, names[1..])
  }

  /** Dangerous element openers and closers, in the order they are replaced. */
  const ElementRules: seq<Rule> := RulesFor(ElementKind, ElementTags)

  /** Script-bearing URL schemes. */
  const ProtocolRules: seq<Rule> := RulesFor(SchemeKind, Schemes)

  /** Inline event handlers. */
  const HandlerRules: seq<Rule> := RulesFor(HandlerKind, Events)

  const ContentRules: seq<Rule> := ElementRules + ProtocolRules + HandlerRules

  lemma LacksAppend(a: string, b: string, c: char)
    requires c !in a && c !in b
    ensures c !in a + b
  {
  }

  /** The fixed parts of the replacements hold no newline. */
  lemma FixedPartsNoNewline()
    ensures '\n' !in "&lt;" && '\n' !in "blocked-" && '\n' !in ":"
    ensures '\n' !in " data-blocked-on" && '\n' !in "="
  {
  }

  /** Nor do the names. */
  lemma NamesNoNewline()
    ensures forall k :: 0 <= k < |ElementTags| ==> '\n' !in ElementTags[k]
    ensures forall k :: 0 <= k < |Schemes| ==> '\n' !in Schemes[k]
    ensures forall k :: 0 <= k < |Events| ==> '\n' !in Events[k]
  {
  }

  lemma ElementRuleFacts(tag: string)
    requires '\n' !in tag
    ensures ElementRule(tag).pattern != [] && |ElementRule(tag).replacement| >= |ElementRule(tag).pattern|
    ensures '\n' !in ElementRule(tag).replacement
  {
    FixedPartsNoNewline();
    LacksAppend("&lt;", tag, '\n');
  }

  lemma SchemeRuleFacts(scheme: string)
    requires '\n' !in scheme
    ensures SchemeRule(scheme).pattern != [] && |SchemeRule(scheme).replacement| >= |SchemeRule(scheme).pattern|
    ensures '\n' !in SchemeRule(scheme).replacement
  {
    FixedPartsNoNewline();
    LacksAppend("blocked-", scheme, '\n');
    LacksAppend("blocked-" + scheme, ":", '\n');
  }

  lemma HandlerRuleFacts(event: string)
    requires '\n' !in event
    ensures HandlerRule(event).pattern != [] && |HandlerRule(event).replacement| >= |HandlerRule(event).pattern|
    ensures '\n' !in HandlerRule(event).replacement
  {
    FixedPartsNoNewline();
    LacksAppend(" data-blocked-on", event, '\n');
    LacksAppend(" data-blocked-on" + event, "=", '\n');
  }

  lemma ElementRulesFacts()
    ensures WellFormed(ElementRules) && NeverWrites(ElementRules, '\n') && Growing(ElementRules)
  {
    NamesNoNewline();
    forall k | 0 <= k < |ElementRules|
      ensures ElementRules[k].pattern != [] && '\n' !in ElementRules[k].replacement
      ensures |ElementRules[k].replacement| >= |ElementRules[k].pattern|
    {
      ElementRuleFacts(ElementTags[k]);
    }
  }

  lemma ProtocolRulesFacts()
    ensures WellFormed(ProtocolRules) && NeverWrites(ProtocolRules, '\n') && Growing(ProtocolRules)
  {
    NamesNoNewline();
    forall k | 0 <= k < |ProtocolRules|
      ensures ProtocolRules[k].pattern != [] && '\n' !in ProtocolRules[k].replacement
      ensures |ProtocolRules[k].replacement| >= |ProtocolRules[k].pattern|
    {
      SchemeRuleFacts(Schemes[k]);
    }
  }

  lemma HandlerRulesFacts()
    ensures WellFormed(HandlerRules) && NeverWrites(HandlerRules, '\n') && Growing(HandlerRules)
  {
    NamesNoNewline();
    forall k | 0 <= k < |HandlerRules|
      ensures HandlerRules[k].pattern != [] && '\n' !in HandlerRules[k].replacement
      ensures |HandlerRules[k].replacement| >= |HandlerRules[k].pattern|
    {
      HandlerRuleFacts(Events[k]);
    }
  }

  /** The three properties hold of a chain made of two chains that have them. */
  lemma {:induction false} ChainFactsAppend(a: seq<Rule>, b: seq<Rule>, c: char)
    requires WellFormed(a) && NeverWrites(a, c) && Growing(a)
    requires WellFormed(b) && NeverWrites(b, c) && Growing(b)
    ensures WellFormed(a + b) && NeverWrites(a + b, c) && Growing(a + b)
  {
    forall k | |a| <= k < |a + b| ensures (a + b)[k] == b[k - |a|] {
    }
  }

  lemma ContentRulesFacts()
    ensures WellFormed(ContentRules) && NeverWrites(ContentRules, '\n') && Growing(ContentRules)
  {
    ElementRulesFacts();
    ProtocolRulesFacts();
    HandlerRulesFacts();
    ChainFactsAppend(ElementRules, ProtocolRules, '\n');
    ChainFactsAppend(ElementRules + ProtocolRules, HandlerRules, '\n');
  }

  /**
   * `sanitize_content`: newlines become `<br>`, then the element and attribute
   * rules run in order. No listed element opener or closer and no listed
   * event-handler attribute survives.
   */
  function SanitizeContent(content: string): (r: string)
    ensures forall k :: 0 <= k < |ElementTags| ==> !Contains(r, ElementRule(ElementTags[k]).pattern)
    ensures forall k :: 0 <= k < |Events| ==> !Contains(r, HandlerRule(Events[k]).pattern)
  {
    ContentRulesFacts();
    ContentChainDefuses(ReplaceAll(content, "\n", "<br>"));
    ApplyRules(ReplaceAll(content, "\n", "<br>"), ContentRules)
  }

  /** The SQL fragments `sanitize_for_db` deletes, in the order it deletes them. */
  const DbRules: seq<Rule> := [
    Rule(";", ""),
    Rule("--", ""),
    Rule("/*", ""),
    Rule("*/", ""),
    Rule("xp_", "")
  ]

  lemma DbRulesFacts()
    ensures WellFormed(DbRules) && Shrinking(DbRules) && NeverWrites(DbRules, ';')
  {
  }

  /**
   * `sanitize_for_db`: trim, then delete each SQL fragment in turn. The output
   * holds no semicolon and is never longer than the trimmed input.
   */
  function SanitizeForDb(content: string): (r: string)
    ensures ';' !in r
    ensures |r| <= |RustTrim(content)|
  {
    DbRulesFacts();
    var t := RustTrim(content);
    ReplaceCharRemoves(t, ';', "");
    ApplyRulesKeepsAbsent(ReplaceAll(t, ";", ""), DbRules[1..], ';');
    ApplyRulesNoLonger(t, DbRules);
    ApplyRules(t, DbRules)
  }

  // ---- general facts about rule chains ----

  lemma ContainsCharIff(s: string, c: char)
    ensures Contains(s, [c]) <==> c in s
    decreases |s|
  {
    if s != [] {
      ContainsCharIff(s[1..], c);
      assert s == [s[0]] + s[1..];
    }
  }

  /** A chain leaves text alone when none of its patterns occurs in it. */
  lemma {:induction false} ApplyRulesAbsent(s: string, rules: seq<Rule>)
    requires WellFormed(rules)
    requires NoPatternIn(s, rules)
    ensures ApplyRules(s, rules) == s
    decreases |rules|
  {
    if rules != [] {
      ReplaceAllAbsent(s, rules[0].pattern, rules[0].replacement);
      ApplyRulesAbsent(s, rules[1..]);
    }
  }

  /** A character absent from the text and from every replacement is absent from the result. */
  lemma {:induction false} ApplyRulesKeepsAbsent(s: string, rules: seq<Rule>, c: char)
    requires WellFormed(rules) && c !in s
    requires NeverWrites(rules, c)
    ensures c !in ApplyRules(s, rules)
    decreases |rules|
  {
    if rules != [] {
      ReplaceAllKeepsAbsent(s, rules[0].pattern, rules[0].replacement, c);
      ApplyRulesKeepsAbsent(ReplaceAll(s, rules[0].pattern, rules[0].replacement), rules[1..], c);
    }
  }

  /** Rules whose replacements are never longer than their patterns never lengthen the text. */
  lemma {:induction false} ApplyRulesNoLonger(s: string, rules: seq<Rule>)
    requires WellFormed(rules)
    requires Shrinking(rules)
    ensures |ApplyRules(s, rules)| <= |s|
    decreases |rules|
  {
    if rules != [] {
      ReplaceAllNoLonger(s, rules[0].pattern, rules[0].replacement);
      ApplyRulesNoLonger(ReplaceAll(s, rules[0].pattern, rules[0].replacement), rules[1..]);
    }
  }

  /** Rules whose replacements are never shorter than their patterns never shorten the text. */
  lemma {:induction false} ApplyRulesNoShorter(s: string, rules: seq<Rule>)
    requires WellFormed(rules)
    requires Growing(rules)
    ensures |ApplyRules(s, rules)| >= |s|
    decreases |rules|
  {
    if rules != [] {
      ReplaceAllNoShorter(s, rules[0].pattern, rules[0].replacement);
      ApplyRulesNoShorter(ReplaceAll(s, rules[0].pattern, rules[0].replacement), rules[1..]);
    }
  }

  // ---- sanitize_content ----

  /** The output holds no newline: every one became `<br>` and no rule writes one back. */
  lemma SanitizeContentNoNewline(content: string)
    ensures '\n' !in SanitizeContent(content)
  {
    ContentRulesFacts();
    ReplaceCharRemoves(content, '\n', "<br>");
    ApplyRulesKeepsAbsent(ReplaceAll(content, "\n", "<br>"), ContentRules, '\n');
  }

  /** Sanitizing never shortens the content: every replacement is at least as long as what it replaces. */
  lemma SanitizeContentNoShorter(content: string)
    ensures |SanitizeContent(content)| >= |content|
  {
    ContentRulesFacts();
    ReplaceAllNoShorter(content, "\n", "<br>");
    ApplyRulesNoShorter(ReplaceAll(content, "\n", "<br>"), ContentRules);
  }

  /** Content without newlines and without any listed pattern comes back unchanged. */
  lemma SanitizeContentIdentity(content: string)
    requires '\n' !in content
    requires NoPatternIn(content, ContentRules)
    ensures SanitizeContent(content) == content
  {
    ContentRulesFacts();
    ContainsCharIff(content, '\n');
    ReplaceAllAbsent(content, "\n", "<br>");
    ApplyRulesAbsent(content, ContentRules);
  }

  // ---- rules that cannot undo one another ----

  /** Text free of `q` stays free of it through a chain none of whose replacements can overlap `q`. */
  lemma {:induction false} ApplyRulesKeepsOut(s: string, rules: seq<Rule>, q: string)
    requires WellFormed(rules) && q != [] && !Contains(s, q)
    requires forall k :: 0 <= k < |rules| ==> Apart(q, rules[k].replacement)
    ensures !Contains(ApplyRules(s, rules), q)
    decreases |rules|
  {
    if rules != [] {
      ReplaceAllKeepsOut(s, rules[0].pattern, rules[0].replacement, q);
      ApplyRulesKeepsOut(ReplaceAll(s, rules[0].pattern, rules[0].replacement), rules[1..], q);
    }
  }

  /** A pattern that neither its own replacement nor any later one can overlap is gone from the output. */
  lemma {:induction false} ApplyRulesRemoves(s: string, rules: seq<Rule>, k: nat)
    requires WellFormed(rules) && k < |rules|
    requires forall j :: k <= j < |rules| ==> Apart(rules[k].pattern, rules[j].replacement)
    ensures !Contains(ApplyRules(s, rules), rules[k].pattern)
    decreases k
  {
    var s1 := ReplaceAll(s, rules[0].pattern, rules[0].replacement);
    if k == 0 {
      ReplaceAllRemoves(s, rules[0].pattern, rules[0].replacement);
      ApplyRulesKeepsOut(s1, rules[1..], rules[0].pattern);
    } else {
      ApplyRulesRemoves(s1, rules[1..], k - 1);
    }
  }

  /** A text no pattern of the chain can overlap survives the chain. */
  lemma {:induction false} ApplyRulesKeeps(s: string, rules: seq<Rule>, w: string)
    requires WellFormed(rules) && w != [] && Contains(s, w)
    requires forall k :: 0 <= k < |rules| ==> Apart(w, rules[k].pattern)
    ensures Contains(ApplyRules(s, rules), w)
    decreases |rules|
  {
    if rules != [] {
      ReplaceAllKeeps(s, rules[0].pattern, rules[0].replacement, w);
      ApplyRulesKeeps(ReplaceAll(s, rules[0].pattern, rules[0].replacement), rules[1..], w);
    }
  }

  /**
   * A text `w` holding rule `k`'s pattern, which the earlier patterns cannot
   * overlap, makes rule `k` write its replacement, which survives when no
   * later pattern can overlap it.
   */
  lemma {:induction false} ApplyRulesShows(s: string, rules: seq<Rule>, k: nat, w: string)
    requires WellFormed(rules) && k < |rules| && w != [] && Contains(s, w) && Contains(w, rules[k].pattern)
    requires forall j :: 0 <= j < k ==> Apart(w, rules[j].pattern)
    requires rules[k].replacement != []
    requires forall j :: k < j < |rules| ==> Apart(rules[k].replacement, rules[j].pattern)
    ensures Contains(ApplyRules(s, rules), rules[k].replacement)
    decreases k
  {
    var s1 := ReplaceAll(s, rules[0].pattern, rules[0].replacement);
    if k == 0 {
      ContainsTrans(s, w, rules[0].pattern);
      ReplaceAllWrites(s, rules[0].pattern, rules[0].replacement);
      ApplyRulesKeeps(s1, rules[1..], rules[0].replacement);
    } else {
      ReplaceAllKeeps(s, rules[0].pattern, rules[0].replacement, w);
      ApplyRulesShows(s1, rules[1..], k - 1, w);
    }
  }

  /** The shape of an element tag that keeps its pattern apart from every replacement. */
  predicate TagShape(tag: string)
  {
    |tag| >= 2 && 'l' !in tag && tag[|tag| - 1] != 'b'
  }

  /** Characters no rule name holds. */
  predicate NameShape(name: string)
  {
    '<' !in name && ' ' !in name && '&' !in name
  }

  lemma NameShapes()
    ensures forall k :: 0 <= k < |ElementTags| ==> TagShape(ElementTags[k]) && NameShape(ElementTags[k])
    ensures forall k :: 0 <= k < |Schemes| ==> NameShape(Schemes[k])
    ensures forall k :: 0 <= k < |Events| ==> NameShape(Events[k])
  {
    TagShapes();
    SchemeShapes();
    EventShapes();
  }

  lemma TagShapes()
    ensures forall k :: 0 <= k < |ElementTags| ==> TagShape(ElementTags[k]) && NameShape(ElementTags[k])
  {
  }

  lemma SchemeShapes()
    ensures forall k :: 0 <= k < |Schemes| ==> NameShape(Schemes[k])
  {
  }

  lemma EventShapes()
    ensures forall k :: 0 <= k < |Events| ==> NameShape(Events[k])
  {
  }

  /** Where each kind of rule sits in the content chain. */
  lemma ContentRulesLayout()
    ensures |ContentRules| == |ElementTags| + |Schemes| + |Events|
    ensures forall k :: 0 <= k < |ElementTags| ==> ContentRules[k] == ElementRule(ElementTags[k])
    ensures forall k :: 0 <= k < |Schemes| ==> ContentRules[|ElementTags| + k] == SchemeRule(Schemes[k])
    ensures forall k :: 0 <= k < |Events| ==> ContentRules[|ElementTags| + |Schemes| + k] == HandlerRule(Events[k])
  {
    ElementLayout();
    SchemeLayout();
    HandlerLayout();
  }

  lemma ElementLayout()
    ensures |ContentRules| == |ElementTags| + |Schemes| + |Events|
    ensures forall k :: 0 <= k < |ElementTags| ==> ContentRules[k] == ElementRule(ElementTags[k])
  {
  }

  lemma SchemeLayout()
    ensures forall k :: 0 <= k < |Schemes| ==> ContentRules[|ElementTags| + k] == SchemeRule(Schemes[k])
  {
  }

  lemma HandlerLayout()
    ensures forall k :: 0 <= k < |Events| ==> ContentRules[|ElementTags| + |Schemes| + k] == HandlerRule(Events[k])
  {
  }

  /** Every rule of the content chain is one of the three shapes, built on a name of the lists. */
  lemma ContentRuleAt(j: nat) returns (kind: RuleKind, name: string)
    requires j < |ContentRules|
    ensures ContentRules[j] == RuleFor(kind, name) && NameShape(name)
    ensures |ElementTags| + |Schemes| <= j ==> kind == HandlerKind && name == Events[j - |ElementTags| - |Schemes|]
  {
    ContentRulesLayout();
    NameShapes();
    if j < |ElementTags| {
      kind, name := ElementKind, ElementTags[j];
    } else if j < |ElementTags| + |Schemes| {
      kind, name := SchemeKind, Schemes[j - |ElementTags|];
    } else {
      kind, name := HandlerKind, Events[j - |ElementTags| - |Schemes|];
    }
  }

  /** An element pattern cannot overlap any replacement. */
  lemma ElementApartFrom(tag: string, kind: RuleKind, name: string)
    requires TagShape(tag) && NameShape(tag) && NameShape(name)
    ensures Apart(ElementRule(tag).pattern, RuleFor(kind, name).replacement)
  {
    var q := "<" + tag;
    var r := RuleFor(kind, name).replacement;
    assert q[1..] == tag;
    match kind {
      case ElementKind =>
        LacksAppend("&lt;", name, '<');
        StartsClearByHead(q, r);
        assert r[0] == '&';
        BridgesClearByHead(q, r);
      case SchemeKind =>
        LacksAppend("blocked-", name, '<');
        LacksAppend("blocked-" + name, ":", '<');
        StartsClearByHead(q, r);
        assert r[0] == 'b' && r[1] == 'l';
        LacksAppend("<", tag, 'l');
        assert q[|q| - 1] == tag[|tag| - 1];
        BridgesClearBySecond(q, r);
      case HandlerKind =>
        LacksAppend(" data-blocked-on", name, '<');
        LacksAppend(" data-blocked-on" + name, "=", '<');
        StartsClearByHead(q, r);
        assert r[0] == ' ';
        BridgesClearByHead(q, r);
    }
    ApartOfHalves(q, r);
  }

  /** A handler pattern cannot overlap any handler replacement. */
  lemma HandlerApartFrom(event: string, other: string)
    requires NameShape(event) && NameShape(other)
    ensures Apart(HandlerRule(event).pattern, HandlerRule(other).replacement)
  {
    var q := " on" + event + "=";
    var r := " data-blocked-on" + other + "=";
    assert r[1..] == "data-blocked-on" + other + "=";
    LacksAppend("data-blocked-on", other, ' ');
    LacksAppend("data-blocked-on" + other, "=", ' ');
    StartsClearAtHead(q, r, 1);
    assert q[1..] == "on" + event + "=";
    LacksAppend("on", event, ' ');
    LacksAppend("on" + event, "=", ' ');
    BridgesClearByHead(q, r);
    ApartOfHalves(q, r);
  }

  /** Whatever the input, the content chain leaves no listed element pattern and no listed handler pattern. */
  lemma ContentChainDefuses(s: string)
    ensures WellFormed(ContentRules)
    ensures forall k :: 0 <= k < |ElementTags| ==> !Contains(ApplyRules(s, ContentRules), ElementRule(ElementTags[k]).pattern)
    ensures forall k :: 0 <= k < |Events| ==> !Contains(ApplyRules(s, ContentRules), HandlerRule(Events[k]).pattern)
  {
    ContentRulesFacts();
    ContentRulesLayout();
    NameShapes();
    forall k | 0 <= k < |ElementTags|
      ensures !Contains(ApplyRules(s, ContentRules), ElementRule(ElementTags[k]).pattern)
    {
      forall j | k <= j < |ContentRules| ensures Apart(ContentRules[k].pattern, ContentRules[j].replacement) {
        var kind, name := ContentRuleAt(j);
        ElementApartFrom(ElementTags[k], kind, name);
      }
      ApplyRulesRemoves(s, ContentRules, k);
    }
    forall k | 0 <= k < |Events|
      ensures !Contains(ApplyRules(s, ContentRules), HandlerRule(Events[k]).pattern)
    {
      var i := |ElementTags| + |Schemes| + k;
      forall j | i <= j < |ContentRules| ensures Apart(ContentRules[i].pattern, ContentRules[j].replacement) {
        var kind, name := ContentRuleAt(j);
        HandlerApartFrom(Events[k], name);
      }
      ApplyRulesRemoves(s, ContentRules, i);
    }
  }

  /** The thirteen dangerous texts, spelled out: none occurs in sanitized content. */
  lemma SanitizeContentDefused(content: string)
    ensures var r := SanitizeContent(content);
      !Contains(r, "<script") && !Contains(r, "</script") && !Contains(r, "<iframe") && !Contains(r, "</iframe")
      && !Contains(r, "<object") && !Contains(r, "<embed") && !Contains(r, "<base")
      && !Contains(r, " onerror=") && !Contains(r, " onload=") && !Contains(r, " onclick=")
      && !Contains(r, " onmouseover=") && !Contains(r, " onfocus=") && !Contains(r, " onblur=")
  {
    var r := SanitizeContent(content);
    ElementPatternsSpelled();
    HandlerPatternsSpelled();
    assert !Contains(r, ElementRule(ElementTags[0]).pattern) && !Contains(r, ElementRule(ElementTags[1]).pattern);
    assert !Contains(r, ElementRule(ElementTags[2]).pattern) && !Contains(r, ElementRule(ElementTags[3]).pattern);
    assert !Contains(r, ElementRule(ElementTags[4]).pattern) && !Contains(r, ElementRule(ElementTags[5]).pattern);
    assert !Contains(r, ElementRule(ElementTags[6]).pattern);
    assert !Contains(r, HandlerRule(Events[0]).pattern) && !Contains(r, HandlerRule(Events[1]).pattern);
    assert !Contains(r, HandlerRule(Events[2]).pattern) && !Contains(r, HandlerRule(Events[3]).pattern);
    assert !Contains(r, HandlerRule(Events[4]).pattern) && !Contains(r, HandlerRule(Events[5]).pattern);
  }

  lemma ElementPatternsSpelled()
    ensures ElementRule(ElementTags[0]).pattern == "<script" && ElementRule(ElementTags[1]).pattern == "</script"
    ensures ElementRule(ElementTags[2]).pattern == "<iframe" && ElementRule(ElementTags[3]).pattern == "</iframe"
    ensures ElementRule(ElementTags[4]).pattern == "<object" && ElementRule(ElementTags[5]).pattern == "<embed"
    ensures ElementRule(ElementTags[6]).pattern == "<base"
  {
  }

  lemma HandlerPatternsSpelled()
    ensures HandlerRule(Events[0]).pattern == " onerror=" && HandlerRule(Events[1]).pattern == " onload="
    ensures HandlerRule(Events[2]).pattern == " onclick=" && HandlerRule(Events[3]).pattern == " onmouseover="
    ensures HandlerRule(Events[4]).pattern == " onfocus=" && HandlerRule(Events[5]).pattern == " onblur="
  {
  }
}
