/**
 * What `sanitize_content` does to the inputs its own tests use, stated for
 * every input that holds the same text: a script opener comes out escaped, a
 * newline as `<br>`, an `onerror` attribute renamed, the `javascript:` and
 * quoted `data:` schemes blocked, and `<b>bold</b>`, `<div>` and `alert`
 * kept. Each follows from the rule texts being apart; the concrete test
 * inputs are instances.
 */
module SanitizeCases {
  import opened Text
  import opened Overlap
  import opened Sanitize

  // ---- what the rule names are made of ----

  predicate TagTraits(tag: string)
  {
    |tag| >= 2 && '"' !in tag && '>' !in tag && tag[0] != 'd' && tag[1] != 'r'
    && (tag[0] != '/' || tag[1] != 'b')
    && tag[|tag| - 1] != 'j' && tag[|tag| - 1] != 'a' && ('j' !in tag || 'a' !in tag)
  }

  predicate SchemeTraits(scheme: string)
  {
    |scheme| >= 2 && (scheme[0] == 'j' || scheme[0] == 'd' || scheme[0] == 'v')
    && (scheme[1] == 'a' || scheme[1] == 'b') && '"' !in scheme && 'l' !in scheme
  }

  predicate EventTraits(event: string)
  {
    '"' !in event && ('b' in event ==> event == "blur") && ('a' in event ==> event == "load")
  }

  lemma TagTraitsHold()
    ensures forall k :: 0 <= k < |ElementTags| ==> TagTraits(ElementTags[k])
  {
  }

  lemma SchemeTraitsHold()
    ensures forall k :: 0 <= k < |Schemes| ==> SchemeTraits(Schemes[k])
  {
  }

  lemma EventTraitsHold()
    ensures forall k :: 0 <= k < |Events| ==> EventTraits(Events[k])
  {
  }

  /** The pattern of rule `j` of the content chain, by the part of the chain it sits in. */
  lemma PatternAt(j: nat) returns (name: string)
    requires j < |ContentRules|
    ensures NameShape(name)
    ensures j < |ElementTags| ==>
      ContentRules[j].pattern == "<" + name && TagShape(name) && TagTraits(name)
    ensures |ElementTags| <= j < |ElementTags| + |Schemes| ==>
      ContentRules[j].pattern == name + ":" && SchemeTraits(name) && name == Schemes[j - |ElementTags|]
    ensures |ElementTags| + |Schemes| <= j ==>
      ContentRules[j].pattern == " on" + name + "=" && EventTraits(name)
      && name == Events[j - |ElementTags| - |Schemes|]
  {
    ContentRulesLayout();
    NameShapes();
    TagTraitsHold();
    SchemeTraitsHold();
    EventTraitsHold();
    if j < |ElementTags| {
      name := ElementTags[j];
    } else if j < |ElementTags| + |Schemes| {
      name := Schemes[j - |ElementTags|];
    } else {
      name := Events[j - |ElementTags| - |Schemes|];
    }
  }

  lemma Lacks3(a: string, b: string, c: string, ch: char)
    requires ch !in a && ch !in b && ch !in c
    ensures ch !in a + b + c
  {
  }

  lemma NewlineApart(w: string)
    requires |w| >= 2 && w[0] != '\n' && '\n' !in w[1..]
    ensures Apart(w, "\n")
  {
    ApartByHeads(w, "\n");
  }

  // ---- from the input to the output ----

  /**
   * Content holding `w`, which the newline rule and the rules before `k`
   * cannot break and which holds rule `k`'s pattern, comes out holding rule
   * `k`'s replacement when no later pattern can break that.
   */
  lemma SanitizedShows(content: string, w: string, k: nat)
    requires k < |ContentRules| && w != [] && Contains(content, w) && Apart(w, "\n")
    requires Contains(w, ContentRules[k].pattern) && ContentRules[k].replacement != []
    requires forall j :: 0 <= j < k ==> Apart(w, ContentRules[j].pattern)
    requires forall j :: k < j < |ContentRules| ==> Apart(ContentRules[k].replacement, ContentRules[j].pattern)
    ensures Contains(SanitizeContent(content), ContentRules[k].replacement)
  {
    ContentRulesFacts();
    ReplaceAllKeeps(content, "\n", "<br>", w);
    ApplyRulesShows(ReplaceAll(content, "\n", "<br>"), ContentRules, k, w);
  }

  /** Content holding `w`, which no rule can break, comes out holding `w`. */
  lemma SanitizedKeeps(content: string, w: string)
    requires w != [] && Contains(content, w) && Apart(w, "\n")
    requires forall j :: 0 <= j < |ContentRules| ==> Apart(w, ContentRules[j].pattern)
    ensures Contains(SanitizeContent(content), w)
  {
    ContentRulesFacts();
    ReplaceAllKeeps(content, "\n", "<br>", w);
    ApplyRulesKeeps(ReplaceAll(content, "\n", "<br>"), ContentRules, w);
  }

  lemma ScriptRuleSpelled()
    ensures ContentRules[0] == Rule("<script", "&lt;script")
  {
    ElementLayout();
    ScriptSpelled();
  }

  lemma ScriptSpelled()
    ensures ElementRule(ElementTags[0]) == Rule("<script", "&lt;script")
  {
  }

  lemma JavascriptRuleSpelled()
    ensures ContentRules[7] == Rule("javascript:", "blocked-javascript:")
  {
    SchemeLayout();
    JavascriptSpelled();
  }

  lemma JavascriptSpelled()
    ensures SchemeRule(Schemes[0]) == Rule("javascript:", "blocked-javascript:")
  {
  }

  lemma DataRuleSpelled()
    ensures ContentRules[8] == Rule("data:", "blocked-data:")
  {
    SchemeLayout();
    DataSpelled();
  }

  lemma DataSpelled()
    ensures SchemeRule(Schemes[1]) == Rule("data:", "blocked-data:")
  {
  }

  lemma OnerrorRuleSpelled()
    ensures ContentRules[10] == Rule(" onerror=", " data-blocked-onerror=")
  {
    HandlerLayout();
    OnerrorSpelled();
  }

  lemma OnerrorSpelled()
    ensures HandlerRule(Events[0]) == Rule(" onerror=", " data-blocked-onerror=")
  {
  }

  // ---- a script opener comes out escaped ----

  lemma EscapedScriptApartElement(name: string)
    requires NameShape(name)
    ensures Apart("&lt;script", "<" + name)
  {
    assert "&lt;script"[1..] == "lt;script";
    Lacks3("<", name, "", '&');
    assert "<" + name == "<" + name + "";
    ApartByHeads("&lt;script", "<" + name);
  }

  lemma EscapedScriptApartScheme(name: string)
    requires NameShape(name) && SchemeTraits(name)
    ensures Apart("&lt;script", name + ":")
  {
    assert "&lt;script"[1..] == "lt;script";
    Lacks3("", name, ":", '&');
    assert name + ":" == "" + name + ":";
    ApartByHeads("&lt;script", name + ":");
  }

  lemma EscapedScriptApartHandler(name: string)
    requires NameShape(name)
    ensures Apart("&lt;script", " on" + name + "=")
  {
    assert "&lt;script"[1..] == "lt;script";
    Lacks3(" on", name, "=", '&');
    ApartByHeads("&lt;script", " on" + name + "=");
  }

  lemma EscapedScriptApart(j: nat)
    requires j < |ContentRules|
    ensures Apart("&lt;script", ContentRules[j].pattern)
  {
    var name := PatternAt(j);
    if j < |ElementTags| {
      EscapedScriptApartElement(name);
    } else if j < |ElementTags| + |Schemes| {
      EscapedScriptApartScheme(name);
    } else {
      EscapedScriptApartHandler(name);
    }
  }

  /** `<script` anywhere in the input comes out as the visible text `&lt;script`. */
  lemma ShowsEscapedScript(content: string)
    requires Contains(content, "<script")
    ensures Contains(SanitizeContent(content), "&lt;script")
  {
    ScriptRuleSpelled();
    ScriptTexts();
    EscapedScriptApartAll();
    SanitizedShows(content, "<script", 0);
  }

  lemma ScriptTexts()
    ensures Apart("<script", "\n") && Contains("<script", "<script")
  {
    NewlineApart("<script");
    assert StartsWith("<script", "<script");
  }

  lemma EscapedScriptApartAll()
    ensures forall j :: 0 < j < |ContentRules| ==> Apart("&lt;script", ContentRules[j].pattern)
  {
    forall j | 0 < j < |ContentRules| ensures Apart("&lt;script", ContentRules[j].pattern) {
      EscapedScriptApart(j);
    }
  }

  // ---- a newline comes out as a line break ----

  lemma BreakApartElement(name: string)
    requires NameShape(name) && TagTraits(name)
    ensures Apart("<br>", "<" + name)
  {
    var w, p := "<br>", "<" + name;
    assert w[1..] == "br>";
    assert p[1..] == name && p[2] == name[1];
    StartsClearAtHead(w, p, 2);
    BridgesClearByHead(w, p);
    ApartOfHalves(w, p);
  }

  lemma BreakApartScheme(name: string)
    requires NameShape(name) && SchemeTraits(name)
    ensures Apart("<br>", name + ":")
  {
    assert "<br>"[1..] == "br>";
    Lacks3("", name, ":", '<');
    assert name + ":" == "" + name + ":";
    ApartByHeads("<br>", name + ":");
  }

  lemma BreakApartHandler(name: string)
    requires NameShape(name)
    ensures Apart("<br>", " on" + name + "=")
  {
    assert "<br>"[1..] == "br>";
    Lacks3(" on", name, "=", '<');
    ApartByHeads("<br>", " on" + name + "=");
  }

  lemma BreakApart(j: nat)
    requires j < |ContentRules|
    ensures Apart("<br>", ContentRules[j].pattern)
  {
    var name := PatternAt(j);
    if j < |ElementTags| {
      BreakApartElement(name);
    } else if j < |ElementTags| + |Schemes| {
      BreakApartScheme(name);
    } else {
      BreakApartHandler(name);
    }
  }

  /** A newline in the input comes out as `<br>`. */
  lemma ShowsBreak(content: string)
    requires '\n' in content
    ensures Contains(SanitizeContent(content), "<br>")
  {
    ContentRulesFacts();
    ContainsCharIff(content, '\n');
    ReplaceAllWrites(content, "\n", "<br>");
    BreakApartAll();
    ApplyRulesKeeps(ReplaceAll(content, "\n", "<br>"), ContentRules, "<br>");
  }

  lemma BreakApartAll()
    ensures forall j :: 0 <= j < |ContentRules| ==> Apart("<br>", ContentRules[j].pattern)
  {
    forall j | 0 <= j < |ContentRules| ensures Apart("<br>", ContentRules[j].pattern) {
      BreakApart(j);
    }
  }

  // ---- basic formatting is kept ----

  lemma BoldApartElement(name: string)
    requires NameShape(name) && TagTraits(name)
    ensures Apart("<b>bold</b>", "<" + name)
  {
    var w, p := "<b>bold</b>", "<" + name;
    assert w[1..] == "b>bold</b>";
    assert p[1..] == name && p[1] == name[0] && p[2] == name[1];
    StartsClearAtHead(w, p, 2);
    BridgesClearByPoints(w, p);
    ApartOfHalves(w, p);
  }

  lemma BoldApartScheme(name: string)
    requires NameShape(name) && SchemeTraits(name)
    ensures Apart("<b>bold</b>", name + ":")
  {
    var w, p := "<b>bold</b>", name + ":";
    Lacks3("", name, ":", '<');
    assert p == "" + name + ":";
    StartsClearByHead(w, p);
    assert p[0] == name[0] && p[1] == name[1];
    BridgesClearByPoints(w, p);
    ApartOfHalves(w, p);
  }

  lemma BoldApartHandler(name: string)
    requires NameShape(name)
    ensures Apart("<b>bold</b>", " on" + name + "=")
  {
    assert "<b>bold</b>"[1..] == "b>bold</b>";
    Lacks3(" on", name, "=", '<');
    ApartByHeads("<b>bold</b>", " on" + name + "=");
  }

  lemma BoldApart(j: nat)
    requires j < |ContentRules|
    ensures Apart("<b>bold</b>", ContentRules[j].pattern)
  {
    var name := PatternAt(j);
    if j < |ElementTags| {
      BoldApartElement(name);
    } else if j < |ElementTags| + |Schemes| {
      BoldApartScheme(name);
    } else {
      BoldApartHandler(name);
    }
  }

  /** `<b>bold</b>` in the input is kept as it is. */
  lemma KeepsBold(content: string)
    requires Contains(content, "<b>bold</b>")
    ensures Contains(SanitizeContent(content), "<b>bold</b>")
  {
    NewlineApart("<b>bold</b>");
    BoldApartAll();
    SanitizedKeeps(content, "<b>bold</b>");
  }

  lemma BoldApartAll()
    ensures forall j :: 0 <= j < |ContentRules| ==> Apart("<b>bold</b>", ContentRules[j].pattern)
  {
    forall j | 0 <= j < |ContentRules| ensures Apart("<b>bold</b>", ContentRules[j].pattern) {
      BoldApart(j);
    }
  }

  lemma DivApartElement(name: string)
    requires NameShape(name) && TagTraits(name)
    ensures Apart("<div>", "<" + name)
  {
    var w, p := "<div>", "<" + name;
    assert w[1..] == "div>";
    assert p[1..] == name && p[1] == name[0];
    StartsClearAtHead(w, p, 1);
    BridgesClearByHead(w, p);
    ApartOfHalves(w, p);
  }

  lemma DivApartScheme(name: string)
    requires NameShape(name) && SchemeTraits(name)
    ensures Apart("<div>", name + ":")
  {
    var w, p := "<div>", name + ":";
    Lacks3("", name, ":", '<');
    assert p == "" + name + ":";
    StartsClearByHead(w, p);
    assert p[0] == name[0] && p[1] == name[1];
    BridgesClearBySecond(w, p);
    ApartOfHalves(w, p);
  }

  lemma DivApartHandler(name: string)
    requires NameShape(name)
    ensures Apart("<div>", " on" + name + "=")
  {
    assert "<div>"[1..] == "div>";
    Lacks3(" on", name, "=", '<');
    ApartByHeads("<div>", " on" + name + "=");
  }

  lemma DivApart(j: nat)
    requires j < |ContentRules|
    ensures Apart("<div>", ContentRules[j].pattern)
  {
    var name := PatternAt(j);
    if j < |ElementTags| {
      DivApartElement(name);
    } else if j < |ElementTags| + |Schemes| {
      DivApartScheme(name);
    } else {
      DivApartHandler(name);
    }
  }

  /** `<div>` in the input is kept as it is. */
  lemma KeepsDiv(content: string)
    requires Contains(content, "<div>")
    ensures Contains(SanitizeContent(content), "<div>")
  {
    NewlineApart("<div>");
    DivApartAll();
    SanitizedKeeps(content, "<div>");
  }

  lemma DivApartAll()
    ensures forall j :: 0 <= j < |ContentRules| ==> Apart("<div>", ContentRules[j].pattern)
  {
    forall j | 0 <= j < |ContentRules| ensures Apart("<div>", ContentRules[j].pattern) {
      DivApart(j);
    }
  }

  lemma AlertApartElement(name: string)
    requires NameShape(name) && TagShape(name) && TagTraits(name)
    ensures Apart("alert", "<" + name)
  {
    var w, p := "alert", "<" + name;
    assert w[1..] == "lert";
    Lacks3("<", name, "", 'l');
    assert p == "<" + name + "" && p[|p| - 1] == name[|name| - 1];
    StartsClearBySecond(w, p);
    BridgesClearByHead(w, p);
    ApartOfHalves(w, p);
  }

  lemma AlertApartScheme(name: string)
    requires NameShape(name) && SchemeTraits(name)
    ensures Apart("alert", name + ":")
  {
    var w, p := "alert", name + ":";
    assert w[1..] == "lert";
    Lacks3("", name, ":", 'l');
    assert p == "" + name + ":";
    StartsClearBySecond(w, p);
    BridgesClearByHead(w, p);
    ApartOfHalves(w, p);
  }

  lemma AlertApartHandler(name: string)
    requires NameShape(name) && EventTraits(name)
    ensures Apart("alert", " on" + name + "=")
  {
    var w, p := "alert", " on" + name + "=";
    assert w[1..] == "lert";
    if 'a' in name {
      assert p == " onload=";
      StartsClearByPoints(w, p);
    } else {
      Lacks3(" on", name, "=", 'a');
      StartsClearByHead(w, p);
    }
    BridgesClearByHead(w, p);
    ApartOfHalves(w, p);
  }

  lemma AlertApart(j: nat)
    requires j < |ContentRules|
    ensures Apart("alert", ContentRules[j].pattern)
  {
    var name := PatternAt(j);
    if j < |ElementTags| {
      AlertApartElement(name);
    } else if j < |ElementTags| + |Schemes| {
      AlertApartScheme(name);
    } else {
      AlertApartHandler(name);
    }
  }

  /** `alert` in the input is kept as it is. */
  lemma KeepsAlert(content: string)
    requires Contains(content, "alert")
    ensures Contains(SanitizeContent(content), "alert")
  {
    NewlineApart("alert");
    AlertApartAll();
    SanitizedKeeps(content, "alert");
  }

  lemma AlertApartAll()
    ensures forall j :: 0 <= j < |ContentRules| ==> Apart("alert", ContentRules[j].pattern)
  {
    forall j | 0 <= j < |ContentRules| ensures Apart("alert", ContentRules[j].pattern) {
      AlertApart(j);
    }
  }

  // ---- an onerror attribute is renamed ----

  lemma OnerrorApartElement(name: string)
    requires NameShape(name)
    ensures Apart(" onerror=", "<" + name)
  {
    assert " onerror="[1..] == "onerror=";
    Lacks3("<", name, "", ' ');
    assert "<" + name == "<" + name + "";
    ApartByHeads(" onerror=", "<" + name);
  }

  lemma OnerrorApartScheme(name: string)
    requires NameShape(name) && SchemeTraits(name)
    ensures Apart(" onerror=", name + ":")
  {
    assert " onerror="[1..] == "onerror=";
    Lacks3("", name, ":", ' ');
    assert name + ":" == "" + name + ":";
    ApartByHeads(" onerror=", name + ":");
  }

  lemma OnerrorApart(j: nat)
    requires j < |ElementTags| + |Schemes|
    ensures Apart(" onerror=", ContentRules[j].pattern)
  {
    ContentRulesLayout();
    var name := PatternAt(j);
    if j < |ElementTags| {
      OnerrorApartElement(name);
    } else {
      OnerrorApartScheme(name);
    }
  }

  lemma RenamedOnerrorApartHandler(name: string)
    requires NameShape(name)
    ensures Apart(" data-blocked-onerror=", " on" + name + "=")
  {
    var w, p := " data-blocked-onerror=", " on" + name + "=";
    assert w[1..] == "data-blocked-onerror=";
    assert p[1..] == "on" + name + "=";
    Lacks3("on", name, "=", ' ');
    StartsClearAtHead(w, p, 1);
    BridgesClearByHead(w, p);
    ApartOfHalves(w, p);
  }

  lemma RenamedOnerrorApart(j: nat)
    requires |ElementTags| + |Schemes| <= j < |ContentRules|
    ensures Apart(" data-blocked-onerror=", ContentRules[j].pattern)
  {
    var name := PatternAt(j);
    RenamedOnerrorApartHandler(name);
  }

  /** An ` onerror=` attribute in the input comes out renamed to ` data-blocked-onerror=`. */
  lemma ShowsRenamedOnerror(content: string)
    requires Contains(content, " onerror=")
    ensures Contains(SanitizeContent(content), " data-blocked-onerror=")
  {
    OnerrorRuleSpelled();
    OnerrorTexts();
    OnerrorApartAll();
    RenamedOnerrorApartAll();
    SanitizedShows(content, " onerror=", 10);
  }

  lemma OnerrorTexts()
    ensures Apart(" onerror=", "\n") && Contains(" onerror=", " onerror=")
  {
    NewlineApart(" onerror=");
    assert StartsWith(" onerror=", " onerror=");
  }

  lemma OnerrorApartAll()
    ensures forall j :: 0 <= j < 10 ==> Apart(" onerror=", ContentRules[j].pattern)
  {
    forall j | 0 <= j < 10 ensures Apart(" onerror=", ContentRules[j].pattern) {
      OnerrorApart(j);
    }
  }

  lemma RenamedOnerrorApartAll()
    ensures forall j :: 10 < j < |ContentRules| ==> Apart(" data-blocked-onerror=", ContentRules[j].pattern)
  {
    forall j | 10 < j < |ContentRules| ensures Apart(" data-blocked-onerror=", ContentRules[j].pattern) {
      RenamedOnerrorApart(j);
    }
  }

  // ---- script-bearing schemes are blocked ----

  lemma JavascriptApartElement(name: string)
    requires NameShape(name) && TagTraits(name)
    ensures Apart("javascript:", "<" + name)
  {
    var w, p := "javascript:", "<" + name;
    assert w[1..] == "avascript:";
    assert p == "<" + name + "";
    if 'j' in name {
      Lacks3("<", name, "", 'a');
      assert p[|p| - 1] == name[|name| - 1];
      StartsClearBySecond(w, p);
    } else {
      Lacks3("<", name, "", 'j');
      StartsClearByHead(w, p);
    }
    BridgesClearByHead(w, p);
    ApartOfHalves(w, p);
  }

  lemma JavascriptApart(j: nat)
    requires j < |ElementTags|
    ensures Apart("javascript:", ContentRules[j].pattern)
  {
    var name := PatternAt(j);
    JavascriptApartElement(name);
  }

  /** A text opening with `blo` and holding no space cannot be broken by a handler pattern. */
  lemma BlockedApartHandler(w: string, name: string)
    requires |w| >= 3 && w[..3] == "blo" && ' ' !in w
    requires NameShape(name) && EventTraits(name)
    ensures Apart(w, " on" + name + "=")
  {
    var p := " on" + name + "=";
    if 'b' in name {
      assert p == " onblur=";
      assert w[0] == 'b' && w[1] == 'l' && w[2] == 'o';
      StartsClearByPoints(w, p);
    } else {
      Lacks3(" on", name, "=", 'b');
      StartsClearByHead(w, p);
    }
    assert p[0] == ' ';
    BridgesClearByHead(w, p);
    ApartOfHalves(w, p);
  }

  lemma BlockedJavascriptApartData(name: string)
    requires name == "data"
    ensures Apart("blocked-javascript:", name + ":")
  {
    var w, p := "blocked-javascript:", "data:";
    assert name + ":" == p;
    StartsClearByHead(w, p);
    BridgesClearByPoints(w, p);
    ApartOfHalves(w, p);
  }

  lemma BlockedApartVbscript(w: string, name: string)
    requires name == "vbscript"
    requires w == "blocked-javascript:" || w == "blocked-data:"
    ensures Apart(w, name + ":")
  {
    var p := "vbscript:";
    assert name + ":" == p;
    StartsClearByPoints(w, p);
    BridgesClearByPoints(w, p);
    ApartOfHalves(w, p);
  }

  lemma BlockedJavascriptApartHandler(name: string)
    requires NameShape(name) && EventTraits(name)
    ensures Apart("blocked-javascript:", " on" + name + "=")
  {
    assert "blocked-javascript:"[..3] == "blo";
    BlockedApartHandler("blocked-javascript:", name);
  }

  lemma BlockedJavascriptApart(j: nat)
    requires |ElementTags| < j < |ContentRules|
    ensures Apart("blocked-javascript:", ContentRules[j].pattern)
  {
    var name := PatternAt(j);
    if j == |ElementTags| + 1 {
      BlockedJavascriptApartData(name);
    } else if j == |ElementTags| + 2 {
      BlockedApartVbscript("blocked-javascript:", name);
    } else {
      BlockedJavascriptApartHandler(name);
    }
  }

  /** `javascript:` in the input comes out as `blocked-javascript:`. */
  lemma ShowsBlockedJavascript(content: string)
    requires Contains(content, "javascript:")
    ensures Contains(SanitizeContent(content), "blocked-javascript:")
  {
    JavascriptRuleSpelled();
    JavascriptTexts();
    JavascriptApartAll();
    BlockedJavascriptApartAll();
    SanitizedShows(content, "javascript:", 7);
  }

  lemma JavascriptTexts()
    ensures Apart("javascript:", "\n") && Contains("javascript:", "javascript:")
  {
    NewlineApart("javascript:");
    assert StartsWith("javascript:", "javascript:");
  }

  lemma JavascriptApartAll()
    ensures forall j :: 0 <= j < 7 ==> Apart("javascript:", ContentRules[j].pattern)
  {
    forall j | 0 <= j < 7 ensures Apart("javascript:", ContentRules[j].pattern) {
      JavascriptApart(j);
    }
  }

  lemma BlockedJavascriptApartAll()
    ensures forall j :: 7 < j < |ContentRules| ==> Apart("blocked-javascript:", ContentRules[j].pattern)
  {
    forall j | 7 < j < |ContentRules| ensures Apart("blocked-javascript:", ContentRules[j].pattern) {
      BlockedJavascriptApart(j);
    }
  }

  lemma QuotedDataApartElement(name: string)
    requires NameShape(name) && TagTraits(name)
    ensures Apart("\"data:", "<" + name)
  {
    assert "\"data:"[1..] == "data:";
    Lacks3("<", name, "", '"');
    assert "<" + name == "<" + name + "";
    ApartByHeads("\"data:", "<" + name);
  }

  lemma QuotedDataApartJavascript(name: string)
    requires name == "javascript"
    ensures Apart("\"data:", name + ":")
  {
    assert name + ":" == "javascript:";
    assert "\"data:"[1..] == "data:";
    ApartByHeads("\"data:", "javascript:");
  }

  lemma QuotedDataApart(j: nat)
    requires j <= |ElementTags|
    ensures Apart("\"data:", ContentRules[j].pattern)
  {
    var name := PatternAt(j);
    if j < |ElementTags| {
      QuotedDataApartElement(name);
    } else {
      QuotedDataApartJavascript(name);
    }
  }

  lemma BlockedDataApartHandler(name: string)
    requires NameShape(name) && EventTraits(name)
    ensures Apart("blocked-data:", " on" + name + "=")
  {
    assert "blocked-data:"[..3] == "blo";
    BlockedApartHandler("blocked-data:", name);
  }

  lemma BlockedDataApart(j: nat)
    requires |ElementTags| + 1 < j < |ContentRules|
    ensures Apart("blocked-data:", ContentRules[j].pattern)
  {
    var name := PatternAt(j);
    if j == |ElementTags| + 2 {
      BlockedApartVbscript("blocked-data:", name);
    } else {
      BlockedDataApartHandler(name);
    }
  }

  /** A `data:` URL opening a quoted attribute value comes out as `blocked-data:`. */
  lemma ShowsBlockedData(content: string)
    requires Contains(content, "\"data:")
    ensures Contains(SanitizeContent(content), "blocked-data:")
  {
    DataRuleSpelled();
    QuotedDataTexts();
    QuotedDataApartAll();
    BlockedDataApartAll();
    SanitizedShows(content, "\"data:", 8);
  }

  lemma QuotedDataTexts()
    ensures Apart("\"data:", "\n") && Contains("\"data:", "data:")
  {
    NewlineApart("\"data:");
    assert StartsWith("data:", "data:");
    ContainsAfter("\"", "data:", "data:");
    assert "\"" + "data:" == "\"data:";
  }

  lemma QuotedDataApartAll()
    ensures forall j :: 0 <= j < 8 ==> Apart("\"data:", ContentRules[j].pattern)
  {
    forall j | 0 <= j < 8 ensures Apart("\"data:", ContentRules[j].pattern) {
      QuotedDataApart(j);
    }
  }

  lemma BlockedDataApartAll()
    ensures forall j :: 8 < j < |ContentRules| ==> Apart("blocked-data:", ContentRules[j].pattern)
  {
    forall j | 8 < j < |ContentRules| ensures Apart("blocked-data:", ContentRules[j].pattern) {
      BlockedDataApart(j);
    }
  }
}
