/**
 * The browser's two pure text helpers: `escapeHtml`, a chain of five global
 * replacements, and `formatDate`, which renders a timestamp relative to the
 * current time.
 */
module HtmlUtils {
  import opened Text
  import opened Sanitize

  // ---- escapeHtml ----

  /** The five replacements, `&` first so that the entities written later are not escaped again. */
  const HtmlRules: seq<Rule> := [
    Rule("&", "&amp;"),
    Rule("<", "&lt;"),
    Rule(">", "&gt;"),
    Rule("\"", "&quot;"),
    Rule("'", "&#039;")
  ]

  predicate IsSpecial(c: char)
  {
    c == '&' || c == '<' || c == '>' || c == '"' || c == '\''
  }

  /** Every rule replaces a single character. */
  predicate SingleCharRules(rules: seq<Rule>)
  {
    forall k :: 0 <= k < |rules| ==> |rules[k].pattern| == 1
  }

  lemma HtmlRulesFacts()
    ensures WellFormed(HtmlRules) && SingleCharRules(HtmlRules) && Growing(HtmlRules)
  {
  }

  /** `escapeHtml`: a missing or empty text gives the empty string; anything else goes through the chain. */
  function EscapeHtml(text: Option<string>): (r: string)
    ensures text.None? ==> r == []
    ensures text.Some? ==> r == EscapeChars(text.value)
  {
    HtmlRulesFacts();
    if text.None? || text.value == [] then []
    else
      ChainIsPerChar(text.value);
      ApplyRules(text.value, HtmlRules)
  }

  /** The escape of one character. */
  function EscapeChar(c: char): (r: string)
    ensures r != [] && (r[0] == '&' <==> IsSpecial(c))
  {
    if c == '&' then "&amp;"
    else if c == '<' then "&lt;"
    else if c == '>' then "&gt;"
    else if c == '"' then "&quot;"
    else if c == '\'' then "&#039;"
    else [c]
  }

  /** Character-by-character escaping, the reference the replacement chain is compared with. */
  function EscapeChars(s: string): string
  {
    if s == [] then [] else EscapeChar(s[0]) + EscapeChars(s[1..])
  }

  /** A chain of one-character rules runs on each part of a concatenation separately. */
  lemma {:induction false} ApplyRulesAppend(a: string, b: string, rules: seq<Rule>)
    requires WellFormed(rules) && SingleCharRules(rules)
    ensures ApplyRules(a + b, rules) == ApplyRules(a, rules) + ApplyRules(b, rules)
    decreases |rules|
  {
    if rules != [] {
      var p := rules[0].pattern;
      assert p == [p[0]];
      ReplaceCharAppend(a, b, p[0], rules[0].replacement);
      ApplyRulesAppend(ReplaceAll(a, p, rules[0].replacement), ReplaceAll(b, p, rules[0].replacement), rules[1..]);
    }
  }

  /** A chain of one-character rules leaves text holding none of their characters alone. */
  lemma {:induction false} SingleCharRulesPass(s: string, rules: seq<Rule>)
    requires WellFormed(rules) && SingleCharRules(rules)
    requires forall k :: 0 <= k < |rules| ==> rules[k].pattern[0] !in s
    ensures ApplyRules(s, rules) == s
  {
    forall k | 0 <= k < |rules| ensures !Contains(s, rules[k].pattern) {
      LacksChar(s, rules[k].pattern, 0);
    }
    ApplyRulesAbsent(s, rules);
  }

  /** No replacement holds the character of a later rule's pattern. */
  predicate LaterPatternsAbsent(rules: seq<Rule>)
    requires SingleCharRules(rules)
  {
    forall j, k :: 0 <= j < k < |rules| ==> rules[k].pattern[0] !in rules[j].replacement
  }

  /** The replacement of the first rule for `c`, or `c` itself when none is. */
  function FirstHit(c: char, rules: seq<Rule>): string
  {
    if rules == [] then [c]
    else if rules[0].pattern == [c] then rules[0].replacement
    else FirstHit(c, rules[1..])
  }

  /** On one character, a chain of one-character rules whose replacements hold no later pattern acts as its first matching rule. */
  lemma {:induction false} ChainOnSingle(c: char, rules: seq<Rule>)
    requires WellFormed(rules) && SingleCharRules(rules) && LaterPatternsAbsent(rules)
    ensures ApplyRules([c], rules) == FirstHit(c, rules)
    decreases |rules|
  {
    if rules != [] {
      var p := rules[0].pattern;
      var rest := rules[1..];
      assert p == [p[0]];
      assert forall k :: 0 <= k < |rest| ==> rest[k] == rules[k + 1];
      ReplaceCharSingle(c, p[0], rules[0].replacement);
      if p == [c] {
        SingleCharRulesPass(rules[0].replacement, rest);
      } else {
        ChainOnSingle(c, rest);
      }
    }
  }

  /** The entities hold only `&`, `#`, `;`, letters and digits. */
  predicate EntityChar(c: char)
  {
    c == '&' || c == '#' || c == ';' || ('a' <= c <= 'z') || ('0' <= c <= '9')
  }

  lemma HtmlRulesOrdered()
    ensures SingleCharRules(HtmlRules) && LaterPatternsAbsent(HtmlRules)
  {
    assert forall j :: 0 <= j < |HtmlRules| ==> forall i :: 0 <= i < |HtmlRules[j].replacement| ==> EntityChar(HtmlRules[j].replacement[i]);
    assert forall k :: 1 <= k < |HtmlRules| ==> !EntityChar(HtmlRules[k].pattern[0]);
  }

  /** The first matching rule of the chain gives the character's escape. */
  lemma FirstHitIsEscape(c: char)
    ensures FirstHit(c, HtmlRules) == EscapeChar(c)
  {
    var r1 := HtmlRules[1..];
    var r2 := r1[1..];
    var r3 := r2[1..];
    var r4 := r3[1..];
    assert r4[1..] == [];
    assert FirstHit(c, r4) == if c == '\'' then "&#039;" else [c];
    assert FirstHit(c, r3) == if c == '"' then "&quot;" else FirstHit(c, r4);
    assert FirstHit(c, r2) == if c == '>' then "&gt;" else FirstHit(c, r3);
    assert FirstHit(c, r1) == if c == '<' then "&lt;" else FirstHit(c, r2);
    assert FirstHit(c, HtmlRules) == if c == '&' then "&amp;" else FirstHit(c, r1);
  }

  /** The chain on one character gives that character's escape. */
  lemma ChainOnChar(c: char)
    ensures ApplyRules([c], HtmlRules) == EscapeChar(c)
  {
    HtmlRulesFacts();
    HtmlRulesOrdered();
    ChainOnSingle(c, HtmlRules);
    FirstHitIsEscape(c);
  }

  /** The replacement chain is character-by-character escaping. */
  lemma {:induction false} ChainIsPerChar(s: string)
    ensures ApplyRules(s, HtmlRules) == EscapeChars(s)
    decreases |s|
  {
    HtmlRulesFacts();
    if s == [] {
      SingleCharRulesPass(s, HtmlRules);
    } else {
      assert s == [s[0]] + s[1..];
      ApplyRulesAppend([s[0]], s[1..], HtmlRules);
      ChainOnChar(s[0]);
      ChainIsPerChar(s[1..]);
    }
  }

  /** No escape of a character contains a raw `<`, `>`, `"` or `'`. */
  lemma {:induction false} EscapeCharsSafe(s: string)
    ensures forall i :: 0 <= i < |EscapeChars(s)| ==> !IsSpecial(EscapeChars(s)[i]) || EscapeChars(s)[i] == '&'
    decreases |s|
  {
    if s != [] {
      EscapeCharsSafe(s[1..]);
      var e, t := EscapeChar(s[0]), EscapeChars(s[1..]);
      assert EscapeChars(s) == e + t;
      forall i | 0 <= i < |e + t| ensures !IsSpecial((e + t)[i]) || (e + t)[i] == '&' {
        if i >= |e| {
          assert (e + t)[i] == t[i - |e|];
        }
      }
    }
  }

  /** `escapeHtml` output never holds a raw `<`, `>`, `"` or `'`. */
  lemma EscapeHtmlNoRawSpecials(text: Option<string>)
    ensures forall i :: 0 <= i < |EscapeHtml(text)| ==>
      EscapeHtml(text)[i] != '<' && EscapeHtml(text)[i] != '>' && EscapeHtml(text)[i] != '"' && EscapeHtml(text)[i] != '\''
  {
    if text.Some? && text.value != [] {
      ChainIsPerChar(text.value);
      EscapeCharsSafe(text.value);
    }
  }

  /** A falsy argument gives the empty string. */
  lemma EscapeHtmlFalsy(text: Option<string>)
    requires text.None? || text.value == []
    ensures EscapeHtml(text) == []
  {
  }

  /** Text without any of the five special characters comes back unchanged. */
  lemma EscapeHtmlIdentity(s: string)
    requires forall i :: 0 <= i < |s| ==> !IsSpecial(s[i])
    ensures EscapeHtml(Some(s)) == s
  {
    HtmlRulesFacts();
    SingleCharRulesPass(s, HtmlRules);
  }

  /** Escaping never shortens the text. */
  lemma EscapeHtmlNoShorter(s: string)
    ensures |EscapeHtml(Some(s))| >= |s|
  {
    HtmlRulesFacts();
    ApplyRulesNoShorter(s, HtmlRules);
  }

  /** The inverse of escaping: each of the five entities becomes its character again. */
  function Unescape(s: string): (r: string)
    ensures |r| <= |s|
    decreases |s|
  {
    if s == [] then []
    else if StartsWith(s, "&amp;") then "&" + Unescape(s[5..])
    else if StartsWith(s, "&lt;") then "<" + Unescape(s[4..])
    else if StartsWith(s, "&gt;") then ">" + Unescape(s[4..])
    else if StartsWith(s, "&quot;") then "\"" + Unescape(s[6..])
    else if StartsWith(s, "&#039;") then "'" + Unescape(s[6..])
    else [s[0]] + Unescape(s[1..])
  }

  lemma UnescapeStep(c: char, t: string)
    ensures Unescape(EscapeChar(c) + t) == [c] + Unescape(t)
  {
    var e := EscapeChar(c);
    var s := e + t;
    StartsHere(e, t);
    if c == '&' {
    } else if c == '<' {
      NotStartsAt(s, "&amp;", 1);
    } else if c == '>' {
      NotStartsAt(s, "&amp;", 1);
      NotStartsAt(s, "&lt;", 1);
    } else if c == '"' {
      NotStartsAt(s, "&amp;", 1);
      NotStartsAt(s, "&lt;", 1);
      NotStartsAt(s, "&gt;", 1);
    } else if c == '\'' {
      NotStartsAt(s, "&amp;", 1);
      NotStartsAt(s, "&lt;", 1);
      NotStartsAt(s, "&gt;", 1);
      NotStartsAt(s, "&quot;", 1);
    } else {
      NotStartsAt(s, "&amp;", 0);
      NotStartsAt(s, "&lt;", 0);
      NotStartsAt(s, "&gt;", 0);
      NotStartsAt(s, "&quot;", 0);
      NotStartsAt(s, "&#039;", 0);
      assert s[1..] == t;
    }
  }

  /** Escaping loses nothing: unescaping gives back the original text. */
  lemma {:induction false} UnescapeEscape(s: string)
    ensures Unescape(EscapeHtml(Some(s))) == s
  {
    ChainIsPerChar(s);
    UnescapeEscapeChars(s);
  }

  lemma {:induction false} UnescapeEscapeChars(s: string)
    ensures Unescape(EscapeChars(s)) == s
    decreases |s|
  {
    if s != [] {
      UnescapeStep(s[0], EscapeChars(s[1..]));
      UnescapeEscapeChars(s[1..]);
      assert s == [s[0]] + s[1..];
    }
  }

  // ---- formatDate ----

  /** A parsed timestamp: milliseconds since the epoch and its rendering in the local time zone. */
  datatype Instant = Instant(ms: int, local: LocalTime)

  /** `getFullYear`, `getMonth() + 1`, `getDate`, `getHours`, `getMinutes` in the local time zone. */
  datatype LocalTime = LocalTime(year: int, month: nat, day: nat, hours: nat, minutes: nat)

  /** A well-formed local time with a four-digit year. */
  predicate Ordinary(t: LocalTime)
  {
    1000 <= t.year <= 9999 && 1 <= t.month <= 12 && 1 <= t.day <= 31 && t.hours < 24 && t.minutes < 60
  }

  const Unknown: string := "未知时间"
  const JustNow: string := "刚刚"
  const MinutesSuffix: string := " 分钟前"
  const HoursSuffix: string := " 小时前"
  const DaysSuffix: string := " 天前"

  /** Whole seconds between the instant and `now`, rounded down; negative for a future instant. */
  function ElapsedSeconds(date: Instant, now: int): int
  {
    (now - date.ms) / 1000
  }

  /** `YYYY-MM-DD HH:mm`, with every part but the year padded to two digits. */
  function Absolute(t: LocalTime): string
  {
    IntToString(t.year) + "-" + Pad2(t.month) + "-" + Pad2(t.day) + " " + Pad2(t.hours) + ":" + Pad2(t.minutes)
  }

  /** A four-digit number has four digits. */
  lemma FourDigits(n: nat)
    requires 1000 <= n <= 9999
    ensures |NatToString(n)| == 4
  {
    assert NatToString(n) == NatToString(n / 10) + [DigitChar(n % 10)];
    assert NatToString(n / 10) == NatToString(n / 100) + [DigitChar(n / 10 % 10)];
    assert NatToString(n / 100) == NatToString(n / 1000) + [DigitChar(n / 100 % 10)];
  }

  /** An ordinary local time renders as sixteen characters with its separators in place. */
  lemma AbsoluteShape(t: LocalTime)
    requires Ordinary(t)
    ensures var r := Absolute(t);
      |r| == 16 && r[4] == '-' && r[7] == '-' && r[10] == ' ' && r[13] == ':'
  {
    FourDigits(t.year);
  }

  /**
   * `formatDate`: a missing or unparseable date (`None`) is unknown; otherwise
   * the age picks a bucket, and anything thirty days or older is shown as an
   * absolute local date.
   */
  function FormatDate(date: Option<Instant>, now: int): (r: string)
    ensures r != []
  {
    if date.None? then Unknown
    else
      var diff := ElapsedSeconds(date.value, now);
      if diff < 60 then JustNow
      else if diff < 3600 then NatToString(diff / 60) + MinutesSuffix
      else if diff < 86400 then NatToString(diff / 3600) + HoursSuffix
      else if diff < 2592000 then NatToString(diff / 86400) + DaysSuffix
      else Absolute(date.value.local)
  }

  /** The last two characters of a rendered count followed by one of the suffixes. */
  lemma SuffixEnd(n: nat, suffix: string)
    requires |suffix| >= 2
    ensures var r := NatToString(n) + suffix;
      r[|r| - 1] == suffix[|suffix| - 1] && r[|r| - 2] == suffix[|suffix| - 2]
  {
  }

  /** The last character of an absolute date is a digit. */
  lemma AbsoluteEnd(t: LocalTime)
    ensures var r := Absolute(t); r != [] && IsDigit(r[|r| - 1])
  {
    var r := Absolute(t);
    var p := Pad2(t.minutes);
    assert r == (IntToString(t.year) + "-" + Pad2(t.month) + "-" + Pad2(t.day) + " " + Pad2(t.hours) + ":") + p;
    assert r[|r| - 1] == p[|p| - 1];
  }

  /** Missing dates, and only they, are unknown. */
  lemma UnknownIff(date: Option<Instant>, now: int)
    ensures FormatDate(date, now) == Unknown <==> date.None?
  {
    if date.Some? {
      var diff := ElapsedSeconds(date.value, now);
      var r := FormatDate(date, now);
      if 60 <= diff < 3600 {
        SuffixEnd(diff / 60, MinutesSuffix);
      } else if 3600 <= diff < 86400 {
        SuffixEnd(diff / 3600, HoursSuffix);
      } else if 86400 <= diff < 2592000 {
        SuffixEnd(diff / 86400, DaysSuffix);
      } else if diff >= 2592000 {
        AbsoluteEnd(date.value.local);
      }
      assert r[|r| - 1] != Unknown[|Unknown| - 1];
    }
  }

  /** "刚刚" exactly when less than a minute has passed, including future timestamps. */
  lemma JustNowIff(date: Instant, now: int)
    ensures FormatDate(Some(date), now) == JustNow <==> ElapsedSeconds(date, now) < 60
  {
    var diff := ElapsedSeconds(date, now);
    var r := FormatDate(Some(date), now);
    if 60 <= diff < 3600 {
      SuffixEnd(diff / 60, MinutesSuffix);
    } else if 3600 <= diff < 86400 {
      SuffixEnd(diff / 3600, HoursSuffix);
    } else if 86400 <= diff < 2592000 {
      SuffixEnd(diff / 86400, DaysSuffix);
    } else if diff >= 2592000 {
      AbsoluteEnd(date.local);
    }
    assert diff >= 60 ==> r[|r| - 1] != JustNow[|JustNow| - 1];
  }

  /** "k 分钟前" exactly when the age is under an hour and its whole minutes are `k`; then 1 <= k <= 59. */
  lemma MinutesAgoIff(date: Instant, now: int, k: nat)
    ensures FormatDate(Some(date), now) == NatToString(k) + MinutesSuffix <==>
      60 <= ElapsedSeconds(date, now) < 3600 && ElapsedSeconds(date, now) / 60 == k
    ensures FormatDate(Some(date), now) == NatToString(k) + MinutesSuffix ==> 1 <= k <= 59
  {
    var diff := ElapsedSeconds(date, now);
    var r := FormatDate(Some(date), now);
    var target := NatToString(k) + MinutesSuffix;
    SuffixEnd(k, MinutesSuffix);
    if diff < 60 {
      assert r[|r| - 1] != target[|target| - 1];
    } else if diff < 3600 {
      if r == target {
        assert "" + NatToString(diff / 60) == NatToString(diff / 60) && "" + NatToString(k) == NatToString(k);
        EmbeddedNatInjective("", diff / 60, k, MinutesSuffix);
      }
    } else if diff < 86400 {
      SuffixEnd(diff / 3600, HoursSuffix);
      assert r[|r| - 2] != target[|target| - 2];
    } else if diff < 2592000 {
      SuffixEnd(diff / 86400, DaysSuffix);
      assert r[|r| - 2] != target[|target| - 2];
    } else {
      AbsoluteEnd(date.local);
      assert r[|r| - 1] != target[|target| - 1];
    }
  }

  /** "k 小时前" exactly when the age is at least an hour and under a day, with `k` whole hours; then 1 <= k <= 23. */
  lemma HoursAgoIff(date: Instant, now: int, k: nat)
    ensures FormatDate(Some(date), now) == NatToString(k) + HoursSuffix <==>
      3600 <= ElapsedSeconds(date, now) < 86400 && ElapsedSeconds(date, now) / 3600 == k
    ensures FormatDate(Some(date), now) == NatToString(k) + HoursSuffix ==> 1 <= k <= 23
  {
    var diff := ElapsedSeconds(date, now);
    var r := FormatDate(Some(date), now);
    var target := NatToString(k) + HoursSuffix;
    SuffixEnd(k, HoursSuffix);
    if diff < 60 {
      assert r[|r| - 1] != target[|target| - 1];
    } else if diff < 3600 {
      SuffixEnd(diff / 60, MinutesSuffix);
      assert r[|r| - 2] != target[|target| - 2];
    } else if diff < 86400 {
      if r == target {
        assert "" + NatToString(diff / 3600) == NatToString(diff / 3600) && "" + NatToString(k) == NatToString(k);
        EmbeddedNatInjective("", diff / 3600, k, HoursSuffix);
      }
    } else if diff < 2592000 {
      SuffixEnd(diff / 86400, DaysSuffix);
      assert r[|r| - 2] != target[|target| - 2];
    } else {
      AbsoluteEnd(date.local);
      assert r[|r| - 1] != target[|target| - 1];
    }
  }

  /** "k 天前" exactly when the age is at least a day and under thirty, with `k` whole days; then 1 <= k <= 29. */
  lemma DaysAgoIff(date: Instant, now: int, k: nat)
    ensures FormatDate(Some(date), now) == NatToString(k) + DaysSuffix <==>
      86400 <= ElapsedSeconds(date, now) < 2592000 && ElapsedSeconds(date, now) / 86400 == k
    ensures FormatDate(Some(date), now) == NatToString(k) + DaysSuffix ==> 1 <= k <= 29
  {
    var diff := ElapsedSeconds(date, now);
    var r := FormatDate(Some(date), now);
    var target := NatToString(k) + DaysSuffix;
    SuffixEnd(k, DaysSuffix);
    if diff < 60 {
      assert r[|r| - 1] != target[|target| - 1];
    } else if diff < 3600 {
      SuffixEnd(diff / 60, MinutesSuffix);
      assert r[|r| - 2] != target[|target| - 2];
    } else if diff < 86400 {
      SuffixEnd(diff / 3600, HoursSuffix);
      assert r[|r| - 2] != target[|target| - 2];
    } else if diff < 2592000 {
      if r == target {
        assert "" + NatToString(diff / 86400) == NatToString(diff / 86400) && "" + NatToString(k) == NatToString(k);
        EmbeddedNatInjective("", diff / 86400, k, DaysSuffix);
      }
    } else {
      AbsoluteEnd(date.local);
      assert r[|r| - 1] != target[|target| - 1];
    }
  }

  /** Thirty days or more, and only then, the absolute local date is shown. */
  lemma AbsoluteIff(date: Instant, now: int)
    ensures FormatDate(Some(date), now) == Absolute(date.local) <==> ElapsedSeconds(date, now) >= 2592000
  {
    var diff := ElapsedSeconds(date, now);
    var r := FormatDate(Some(date), now);
    var a := Absolute(date.local);
    AbsoluteEnd(date.local);
    if diff < 60 {
      assert r[|r| - 1] != a[|a| - 1];
    } else if diff < 3600 {
      SuffixEnd(diff / 60, MinutesSuffix);
      assert r[|r| - 1] != a[|a| - 1];
    } else if diff < 86400 {
      SuffixEnd(diff / 3600, HoursSuffix);
      assert r[|r| - 1] != a[|a| - 1];
    } else if diff < 2592000 {
      SuffixEnd(diff / 86400, DaysSuffix);
      assert r[|r| - 1] != a[|a| - 1];
    }
  }
}
