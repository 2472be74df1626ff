/**
 * The inputs the tests of `sanitize_content` use, and what those tests
 * check in the output, each derived from the general facts about the
 * rule chain.
 */
module SanitizeExamples {
  import opened Text
  import opened Overlap
  import opened Sanitize
  import opened SanitizeCases

  // Each input is written in the pieces the proofs below name; the joined
  // text is the test's literal.
  const ScriptAlertInput := "<script" + ">" + "alert" + "('XSS')</script>"
  const LineBreakInput := "This is a" + "\n" + "line break"
  const FormattingInput := "<p>This is " + "<b>bold</b>" + " and <i>italic</i></p>"
  const SqlInput := "SELECT * FROM users " + "WHERE username = " + "'admin' OR '1'='1';"
  const OnerrorInput := "<img src=x" + " onerror=" + "\"alert(1)\">"
  const ScriptInDivInput := "<div>" + "<script" + ">alert(123)</script></div>"
  const JavascriptLinkInput := "<a href=\"" + "javascript:" + "alert('XSS')\">Click me</a>"
  const DataUriInput := "<img src=" + "\"data:" + "text/html,<script>alert(1)</script>\">"

  // ---- a script tag: escaped, its text kept ----

  lemma ScriptAlertParts()
    ensures Contains(ScriptAlertInput, "<script") && Contains(ScriptAlertInput, "alert")
  {
    ContainsStart("<script", ">");
    ContainsBefore("<script" + ">", "alert", "<script");
    ContainsBefore("<script" + ">" + "alert", "('XSS')</script>", "<script");
    ContainsMiddle("<script" + ">", "alert", "('XSS')</script>");
  }

  lemma ScriptAlertExample()
    ensures Contains(SanitizeContent(ScriptAlertInput), "&lt;script")
    ensures Contains(SanitizeContent(ScriptAlertInput), "alert")
  {
    ScriptAlertParts();
    ShowsEscapedScript(ScriptAlertInput);
    KeepsAlert(ScriptAlertInput);
  }

  // ---- a newline: shown as a line break ----

  lemma LineBreakExample()
    ensures Contains(SanitizeContent(LineBreakInput), "<br>")
  {
    assert '\n' in "\n";
    ShowsBreak(LineBreakInput);
  }

  // ---- basic formatting: kept ----

  lemma FormattingExample()
    ensures Contains(SanitizeContent(FormattingInput), "<b>bold</b>")
  {
    ContainsMiddle("<p>This is ", "<b>bold</b>", " and <i>italic</i></p>");
    KeepsBold(FormattingInput);
  }

  // ---- an SQL injection: shown as it is ----

  /** No character of `cs` occurs in `s`. */
  predicate Avoids(s: string, cs: string)
  {
    forall i :: 0 <= i < |s| ==> s[i] !in cs
  }

  lemma AvoidsJoin(a: string, b: string, cs: string)
    requires Avoids(a, cs) && Avoids(b, cs)
    ensures Avoids(a + b, cs)
  {
  }

  lemma AvoidsChar(s: string, cs: string, c: char)
    requires Avoids(s, cs) && c in cs
    ensures c !in s
  {
  }

  lemma SqlTexts()
    ensures '\n' !in SqlInput && '<' !in SqlInput && ':' !in SqlInput && 'o' !in SqlInput
  {
    SqlHeadAvoids();
    SqlMiddleAvoids();
    SqlTailAvoids();
    AvoidsJoin("SELECT * FROM users ", "WHERE username = ", "<:o\n");
    AvoidsJoin("SELECT * FROM users " + "WHERE username = ", "'admin' OR '1'='1';", "<:o\n");
    AvoidsChar(SqlInput, "<:o\n", '<');
    AvoidsChar(SqlInput, "<:o\n", ':');
    AvoidsChar(SqlInput, "<:o\n", 'o');
    AvoidsChar(SqlInput, "<:o\n", '\n');
  }

  lemma SqlHeadAvoids()
    ensures Avoids("SELECT * FROM users ", "<:o\n")
  {
  }

  lemma SqlMiddleAvoids()
    ensures Avoids("WHERE username = ", "<:o\n")
  {
  }

  lemma SqlTailAvoids()
    ensures Avoids("'admin' OR '1'='1';", "<:o\n")
  {
  }

  /** A text without `<`, `:` and a lower-case `o` holds no pattern of the chain. */
  lemma NoRuleMatches(s: string, j: nat)
    requires j < |ContentRules|
    requires '<' !in s && ':' !in s && 'o' !in s
    ensures !Contains(s, ContentRules[j].pattern)
  {
    var name := PatternAt(j);
    if j < |ElementTags| {
      NoElementMatches(s, name);
    } else if j < |ElementTags| + |Schemes| {
      NoSchemeMatches(s, name);
    } else {
      NoHandlerMatches(s, name);
    }
  }

  lemma NoElementMatches(s: string, tag: string)
    requires '<' !in s
    ensures !Contains(s, "<" + tag)
  {
    assert ("<" + tag)[0] == '<';
    MissingChar(s, "<" + tag, 0);
  }

  lemma NoSchemeMatches(s: string, scheme: string)
    requires ':' !in s
    ensures !Contains(s, scheme + ":")
  {
    assert (scheme + ":")[|scheme|] == ':';
    MissingChar(s, scheme + ":", |scheme|);
  }

  lemma NoHandlerMatches(s: string, event: string)
    requires 'o' !in s
    ensures !Contains(s, " on" + event + "=")
  {
    assert (" on" + event + "=")[1] == 'o';
    MissingChar(s, " on" + event + "=", 1);
  }

  lemma SqlExample()
    ensures SanitizeContent(SqlInput) == SqlInput
  {
    SqlTexts();
    forall j | 0 <= j < |ContentRules| ensures !Contains(SqlInput, ContentRules[j].pattern) {
      NoRuleMatches(SqlInput, j);
    }
    SanitizeContentIdentity(SqlInput);
  }

  // ---- an event handler: renamed ----

  lemma OnerrorExample()
    ensures Contains(SanitizeContent(OnerrorInput), " data-blocked-onerror=")
  {
    ContainsMiddle("<img src=x", " onerror=", "\"alert(1)\">");
    ShowsRenamedOnerror(OnerrorInput);
  }

  // ---- a script inside a div: the div kept, the script escaped ----

  lemma ScriptInDivParts()
    ensures Contains(ScriptInDivInput, "<div>") && Contains(ScriptInDivInput, "<script")
  {
    ContainsStart("<div>", "<script");
    ContainsBefore("<div>" + "<script", ">alert(123)</script></div>", "<div>");
    ContainsMiddle("<div>", "<script", ">alert(123)</script></div>");
  }

  lemma ScriptInDivExample()
    ensures Contains(SanitizeContent(ScriptInDivInput), "<div>")
    ensures Contains(SanitizeContent(ScriptInDivInput), "&lt;script")
  {
    ScriptInDivParts();
    KeepsDiv(ScriptInDivInput);
    ShowsEscapedScript(ScriptInDivInput);
  }

  // ---- a javascript: link: blocked ----

  lemma JavascriptLinkExample()
    ensures Contains(SanitizeContent(JavascriptLinkInput), "blocked-javascript:")
  {
    ContainsMiddle("<a href=\"", "javascript:", "alert('XSS')\">Click me</a>");
    ShowsBlockedJavascript(JavascriptLinkInput);
  }

  // ---- a data: URI: blocked ----

  lemma DataUriExample()
    ensures Contains(SanitizeContent(DataUriInput), "blocked-data:")
  {
    ContainsMiddle("<img src=", "\"data:", "text/html,<script>alert(1)</script>\">");
    ShowsBlockedData(DataUriInput);
  }
}
