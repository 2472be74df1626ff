/**
 * String primitives shared by the server-side transforms and the browser
 * scripts: replace-all with leftmost, non-overlapping matches (the meaning of
 * Rust's `str::replace` and of a JavaScript `replace` with a global regular
 * expression of one literal character), substring search, trimming, and the
 * decimal rendering and parsing of non-negative integers.
 *
 * Strings are sequences of Unicode scalar values. A Rust `&str` matched
 * byte-wise agrees with matching on scalar values, and `chars().count()` is
 * the length of the sequence.
 */
module Text {

  datatype Option<T> = None | Some(value: T)

  /** `pat` occurs in `s` at position `i`. */
  predicate MatchesAt(s: string, pat: string, i: nat)
  {
    i + |pat| <= |s| && s[i..i + |pat|] == pat
  }

  predicate StartsWith(s: string, pat: string)
  {
    |pat| <= |s| && s[..|pat|] == pat
  }

  /** Substring search, written the way `contains` scans: try here, then one further. */
  predicate Contains(s: string, pat: string)
    decreases |s|
  {
    StartsWith(s, pat) || (s != [] && Contains(s[1..], pat))
  }

  lemma {:induction false} ContainsIffMatch(s: string, pat: string)
    ensures Contains(s, pat) <==> exists i :: 0 <= i <= |s| && MatchesAt(s, pat, i)
    decreases |s|
  {
    if StartsWith(s, pat) {
      assert MatchesAt(s, pat, 0);
    } else if s == [] {
      forall i | 0 <= i <= |s| ensures !MatchesAt(s, pat, i) {
        assert i == 0;
      }
    } else {
      ContainsIffMatch(s[1..], pat);
      if Contains(s[1..], pat) {
        var i :| 0 <= i <= |s[1..]| && MatchesAt(s[1..], pat, i);
        assert s[i + 1..i + 1 + |pat|] == s[1..][i..i + |pat|];
        assert MatchesAt(s, pat, i + 1);
      } else {
        forall i | 0 <= i <= |s| ensures !MatchesAt(s, pat, i) {
          if i > 0 && MatchesAt(s, pat, i) {
            assert s[i..i + |pat|] == s[1..][i - 1..i - 1 + |pat|];
            assert MatchesAt(s[1..], pat, i - 1);
          }
        }
      }
    }
  }

  /**
   * Every occurrence of `pat` is replaced by `rep`, scanning left to right;
   * after a match the scan resumes behind it, so matches never overlap. An
   * empty pattern never reaches here: every caller passes a non-empty one.
   */
  function ReplaceAll(s: string, pat: string, rep: string): string
    requires pat != []
    decreases |s|
  {
    if |s| < |pat| then s
    else if s[..|pat|] == pat then rep + ReplaceAll(s[|pat|..], pat, rep)
    else [s[0]] + ReplaceAll(s[1..], pat, rep)
  }

  /** Input in which the pattern never occurs is returned unchanged. */
  lemma {:induction false} ReplaceAllAbsent(s: string, pat: string, rep: string)
    requires pat != []
    requires !Contains(s, pat)
    ensures ReplaceAll(s, pat, rep) == s
    decreases |s|
  {
    if |s| >= |pat| {
      ReplaceAllAbsent(s[1..], pat, rep);
      assert [s[0]] + s[1..] == s;
    }
  }

  /** A replacement of the same length as the pattern keeps the length. */
  lemma {:induction false} ReplaceAllSameLength(s: string, pat: string, rep: string)
    requires pat != [] && |rep| == |pat|
    ensures |ReplaceAll(s, pat, rep)| == |s|
    decreases |s|
  {
    if |s| >= |pat| {
      if s[..|pat|] == pat {
        ReplaceAllSameLength(s[|pat|..], pat, rep);
      } else {
        ReplaceAllSameLength(s[1..], pat, rep);
      }
    }
  }

  /** A replacement no longer than the pattern never lengthens the text. */
  lemma {:induction false} ReplaceAllNoLonger(s: string, pat: string, rep: string)
    requires pat != [] && |rep| <= |pat|
    ensures |ReplaceAll(s, pat, rep)| <= |s|
    decreases |s|
  {
    if |s| >= |pat| {
      if s[..|pat|] == pat {
        ReplaceAllNoLonger(s[|pat|..], pat, rep);
      } else {
        ReplaceAllNoLonger(s[1..], pat, rep);
      }
    }
  }

  /** A replacement at least as long as the pattern never shortens the text. */
  lemma {:induction false} ReplaceAllNoShorter(s: string, pat: string, rep: string)
    requires pat != [] && |rep| >= |pat|
    ensures |ReplaceAll(s, pat, rep)| >= |s|
    decreases |s|
  {
    if |s| >= |pat| {
      if s[..|pat|] == pat {
        ReplaceAllNoShorter(s[|pat|..], pat, rep);
      } else {
        ReplaceAllNoShorter(s[1..], pat, rep);
      }
    }
  }

  /** A character absent from the input and from the replacement stays absent. */
  lemma {:induction false} ReplaceAllKeepsAbsent(s: string, pat: string, rep: string, c: char)
    requires pat != [] && c !in s && c !in rep
    ensures c !in ReplaceAll(s, pat, rep)
    decreases |s|
  {
    if |s| >= |pat| {
      if s[..|pat|] == pat {
        ReplaceAllKeepsAbsent(s[|pat|..], pat, rep, c);
      } else {
        ReplaceAllKeepsAbsent(s[1..], pat, rep, c);
      }
    }
  }

  /** Replacing a one-character pattern by text without it removes that character. */
  lemma {:induction false} ReplaceCharRemoves(s: string, c: char, rep: string)
    requires c !in rep
    ensures c !in ReplaceAll(s, [c], rep)
    decreases |s|
  {
    if |s| >= 1 {
      ReplaceCharRemoves(s[1..], c, rep);
    }
  }

  /** With a one-character pattern, replacing distributes over concatenation. */
  lemma {:induction false} ReplaceCharAppend(a: string, b: string, c: char, rep: string)
    ensures ReplaceAll(a + b, [c], rep) == ReplaceAll(a, [c], rep) + ReplaceAll(b, [c], rep)
    decreases |a|
  {
    if a != [] {
      assert (a + b)[1..] == a[1..] + b;
      ReplaceCharAppend(a[1..], b, c, rep);
    } else {
      assert a + b == b;
    }
  }

  /** One step of the scan: text that starts with the pattern. */
  lemma ReplaceAllHit(pat: string, rest: string, rep: string)
    requires pat != []
    ensures ReplaceAll(pat + rest, pat, rep) == rep + ReplaceAll(rest, pat, rep)
  {
    assert (pat + rest)[..|pat|] == pat;
    assert (pat + rest)[|pat|..] == rest;
  }

  /** One step of the scan: text whose `k`-th character already differs from the pattern's. */
  lemma ReplaceAllMiss(c: char, rest: string, pat: string, rep: string, k: nat)
    requires pat != [] && k < |pat| && k <= |rest| && ([c] + rest)[k] != pat[k]
    ensures ReplaceAll([c] + rest, pat, rep) == [c] + ReplaceAll(rest, pat, rep)
  {
    var s := [c] + rest;
    assert s[1..] == rest;
    if |s| >= |pat| {
      assert s[..|pat|][k] != pat[k];
    }
  }

  /** A stretch of text without the pattern's first character passes through the scan unchanged. */
  lemma {:induction false} ReplaceAllSkip(a: string, b: string, pat: string, rep: string)
    requires pat != [] && pat[0] !in a
    ensures ReplaceAll(a + b, pat, rep) == a + ReplaceAll(b, pat, rep)
    decreases |a|
  {
    if a != [] {
      var s := a + b;
      ReplaceAllSkip(a[1..], b, pat, rep);
      assert s[1..] == a[1..] + b;
      if |s| < |pat| {
        assert |b| < |pat|;
        assert ReplaceAll(b, pat, rep) == b;
      } else {
        assert s[..|pat|][0] != pat[0];
      }
    } else {
      assert a + b == b;
    }
  }

  /** A scan across a stretch without the pattern's first character, one occurrence, and another such stretch. */
  lemma ReplaceAllPastHit(a: string, pat: string, rep: string, m: string, t: string)
    requires pat != [] && pat[0] !in a && pat[0] !in m
    ensures ReplaceAll(a + pat + m + t, pat, rep) == a + rep + m + ReplaceAll(t, pat, rep)
  {
    ReplaceAllSkip(m, t, pat, rep);
    ReplaceAllHit(pat, m + t, rep);
    ReplaceAllSkip(a, pat + (m + t), pat, rep);
    assert a + pat + m + t == a + (pat + (m + t));
    assert a + rep + m + ReplaceAll(t, pat, rep) == a + (rep + (m + ReplaceAll(t, pat, rep)));
  }

  /** Text that starts like the pattern but departs from it at `k`, and never again holds its first character, is left alone. */
  lemma ReplaceAllNearMiss(c: char, r: string, pat: string, rep: string, k: nat)
    requires pat != [] && k < |pat| && k <= |r| && ([c] + r)[k] != pat[k] && pat[0] !in r
    ensures ReplaceAll([c] + r, pat, rep) == [c] + r
  {
    ReplaceAllMiss(c, r, pat, rep, k);
    ReplaceAllSkip(r, [], pat, rep);
    assert r + [] == r;
  }

  /** A pattern holding a character the text lacks does not occur in it. */
  lemma LacksChar(s: string, pat: string, k: nat)
    requires k < |pat| && pat[k] !in s
    ensures !Contains(s, pat)
  {
    ContainsIffMatch(s, pat);
  }

  /** When replacing changes the text, the pattern occurs in it. */
  lemma ChangedContains(s: string, pat: string, rep: string)
    requires pat != [] && ReplaceAll(s, pat, rep) != s
    ensures Contains(s, pat)
  {
    if !Contains(s, pat) {
      ReplaceAllAbsent(s, pat, rep);
    }
  }

  /** A one-character pattern on a one-character text. */
  lemma ReplaceCharSingle(x: char, c: char, rep: string)
    ensures ReplaceAll([x], [c], rep) == if x == c then rep else [x]
  {
    assert [x][1..] == [];
  }

  /** `n` copies of `c`, as Rust's `str::repeat` on a one-character string. */
  function Repeat(c: char, n: nat): (r: string)
    ensures |r| == n && forall i :: 0 <= i < n ==> r[i] == c
  {
    if n == 0 then [] else [c] + Repeat(c, n - 1)
  }

  // ---- whitespace and trimming ----

  /** Unicode White_Space, the set Rust's `str::trim` removes. */
  predicate RustWhitespace(c: char)
  {
    ('\U{0009}' <= c <= '\U{000D}') || c == ' ' || c == '\U{0085}' || c == '\U{00A0}'
    || c == '\U{1680}' || ('\U{2000}' <= c <= '\U{200A}') || c == '\U{2028}' || c == '\U{2029}'
    || c == '\U{202F}' || c == '\U{205F}' || c == '\U{3000}'
  }

  /** WhiteSpace and LineTerminator of ECMAScript, the set `String.prototype.trim` removes. */
  predicate JsWhitespace(c: char)
  {
    ('\U{0009}' <= c <= '\U{000D}') || c == ' ' || c == '\U{00A0}'
    || c == '\U{1680}' || ('\U{2000}' <= c <= '\U{200A}') || c == '\U{2028}' || c == '\U{2029}'
    || c == '\U{202F}' || c == '\U{205F}' || c == '\U{3000}' || c == '\U{FEFF}'
  }

  function TrimStart(s: string, ws: char -> bool): (r: string)
    ensures |r| <= |s| && r == s[|s| - |r|..]
    ensures r != [] ==> !ws(r[0])
    ensures forall i :: 0 <= i < |s| - |r| ==> ws(s[i])
    decreases |s|
  {
    if s != [] && ws(s[0]) then TrimStart(s[1..], ws) else s
  }

  function TrimEnd(s: string, ws: char -> bool): (r: string)
    ensures |r| <= |s| && r == s[..|r|]
    ensures r != [] ==> !ws(r[|r| - 1])
    ensures forall i :: |r| <= i < |s| ==> ws(s[i])
    decreases |s|
  {
    if s != [] && ws(s[|s| - 1]) then TrimEnd(s[..|s| - 1], ws) else s
  }

  /** Leading and trailing whitespace removed. */
  function Trim(s: string, ws: char -> bool): (r: string)
    ensures |r| <= |s|
    ensures r != [] ==> !ws(r[0]) && !ws(r[|r| - 1])
    ensures r == [] <==> forall i :: 0 <= i < |s| ==> ws(s[i])
  {
    var t := TrimStart(s, ws);
    TrimEndEmpty(t, ws);
    TrimEnd(t, ws)
  }

  lemma TrimEndEmpty(t: string, ws: char -> bool)
    ensures TrimEnd(t, ws) == [] <==> forall i :: 0 <= i < |t| ==> ws(t[i])
  {
    var r := TrimEnd(t, ws);
    if r != [] {
      assert t[|r| - 1] == r[|r| - 1];
    }
  }

  /** Text with no whitespace at either end is its own trim. */
  lemma TrimUnchanged(s: string, ws: char -> bool)
    requires s != [] ==> !ws(s[0]) && !ws(s[|s| - 1])
    ensures Trim(s, ws) == s
  {
  }

  /** `str::trim`: Unicode whitespace off both ends. */
  function RustTrim(s: string): (r: string)
    ensures |r| <= |s|
    ensures r != [] ==> !RustWhitespace(r[0]) && !RustWhitespace(r[|r| - 1])
    ensures r == [] <==> forall i :: 0 <= i < |s| ==> RustWhitespace(s[i])
  {
    Trim(s, RustWhitespace)
  }

  /** `String.prototype.trim`: JavaScript whitespace and line terminators off both ends. */
  function JsTrim(s: string): (r: string)
    ensures |r| <= |s|
    ensures r != [] ==> !JsWhitespace(r[0]) && !JsWhitespace(r[|r| - 1])
    ensures r == [] <==> forall i :: 0 <= i < |s| ==> JsWhitespace(s[i])
  {
    Trim(s, JsWhitespace)
  }

  // ---- decimal numbers ----

  predicate IsDigit(c: char) { '0' <= c <= '9' }

  predicate AllDigits(s: string) { forall i :: 0 <= i < |s| ==> IsDigit(s[i]) }

  function DigitChar(d: nat): (c: char)
    requires d < 10
    ensures IsDigit(c) && c as int - '0' as int == d
  {
    (d + '0' as int) as char
  }

  /** Decimal rendering without leading zeros, as `Number.prototype.toString()` or Rust's `to_string` gives it. */
  function NatToString(n: nat): (r: string)
    ensures r != [] && AllDigits(r)
    ensures |r| == 1 <==> n < 10
  {
    if n < 10 then [DigitChar(n)] else NatToString(n / 10) + [DigitChar(n % 10)]
  }

  function IntToString(n: int): string
  {
    if n < 0 then "-" + NatToString(-n) else NatToString(n)
  }

  /** The value of a string of decimal digits, as `parseInt(s, 10)` reads it. */
  function DigitsValue(s: string): nat
    requires AllDigits(s)
  {
    if s == [] then 0 else DigitsValue(s[..|s| - 1]) * 10 + (s[|s| - 1] as int - '0' as int)
  }

  /** Reading back a rendered number gives the number. */
  lemma {:induction false} DigitsValueOfNatToString(n: nat)
    ensures DigitsValue(NatToString(n)) == n
  {
    if n >= 10 {
      var r := NatToString(n);
      assert r[..|r| - 1] == NatToString(n / 10);
      DigitsValueOfNatToString(n / 10);
    }
  }

  /** Rendering is injective: distinct numbers give distinct texts. */
  lemma NatToStringInjective(m: nat, n: nat)
    requires NatToString(m) == NatToString(n)
    ensures m == n
  {
    DigitsValueOfNatToString(m);
    DigitsValueOfNatToString(n);
  }

  /** The value of an optionally signed string of digits; anything else reads as 0. */
  function IntValue(s: string): int
  {
    if s != [] && s[0] == '-' && AllDigits(s[1..]) then -(DigitsValue(s[1..]) as int)
    else if AllDigits(s) then DigitsValue(s)
    else 0
  }

  /** Reading back a rendered integer gives the integer. */
  lemma IntValueOfIntToString(n: int)
    ensures IntValue(IntToString(n)) == n
  {
    var t := IntToString(n);
    if n < 0 {
      assert t[0] == '-' && t[1..] == NatToString(-n);
      DigitsValueOfNatToString(-n);
    } else {
      assert t == NatToString(n) && IsDigit(t[0]);
      DigitsValueOfNatToString(n);
    }
  }

  /** `padStart(2, '0')` applied to the decimal rendering. */
  function Pad2(n: nat): (r: string)
    ensures |r| >= 2 && AllDigits(r)
    ensures n < 100 ==> |r| == 2
  {
    if n < 10 then "0" + NatToString(n) else NatToString(n)
  }

  /** Length of the run of decimal digits that starts `s`. */
  function DigitRun(s: string): (k: nat)
    ensures k <= |s| && AllDigits(s[..k])
    ensures k < |s| ==> !IsDigit(s[k])
    decreases |s|
  {
    if s != [] && IsDigit(s[0]) then
      var k := 1 + DigitRun(s[1..]);
      assert s[..k] == [s[0]] + s[1..][..k - 1];
      k
    else 0
  }

  /** A run of digits followed by a non-digit is exactly that long. */
  lemma {:induction false} DigitRunOf(d: string, rest: string)
    requires AllDigits(d)
    requires rest == [] || !IsDigit(rest[0])
    ensures DigitRun(d + rest) == |d|
    decreases |d|
  {
    if d != [] {
      assert (d + rest)[1..] == d[1..] + rest;
      DigitRunOf(d[1..], rest);
    } else {
      assert d + rest == rest;
    }
  }

  /**
   * `parseInt(s)` on decimal text: leading whitespace is skipped, then an
   * optional sign, then the longest run of digits is read; `None` stands for NaN.
   */
  function ParseInt(s: string): (r: Option<int>)
    ensures r.None? <==> DigitRun(SignStripped(TrimStart(s, JsWhitespace))) == 0
  {
    var t := TrimStart(s, JsWhitespace);
    var u := SignStripped(t);
    var k := DigitRun(u);
    if k == 0 then None
    else if t[0] == '-' then Some(-(DigitsValue(u[..k]) as int))
    else Some(DigitsValue(u[..k]))
  }

  function SignStripped(t: string): (u: string)
    ensures |u| <= |t|
  {
    if t != [] && (t[0] == '-' || t[0] == '+') then t[1..] else t
  }

  /** No digit is whitespace, for either language. */
  lemma DigitNotSpace(c: char)
    requires IsDigit(c)
    ensures !JsWhitespace(c) && !RustWhitespace(c)
  {
  }

  /** A run of digits, followed by anything that does not continue it, reads as its value. */
  lemma ParseIntOfDigits(d: string, rest: string)
    requires d != [] && AllDigits(d)
    requires rest == [] || !IsDigit(rest[0])
    ensures ParseInt(d + rest) == Some(DigitsValue(d))
  {
    var s := d + rest;
    assert s[0] == d[0];
    DigitNotSpace(s[0]);
    assert TrimStart(s, JsWhitespace) == s;
    assert SignStripped(s) == s;
    DigitRunOf(d, rest);
    assert s[..|d|] == d;
  }

  /** A rendered number, followed by anything that does not continue its digits, reads back as the number. */
  lemma ParseIntOfNat(n: nat, rest: string)
    requires rest == [] || !IsDigit(rest[0])
    ensures ParseInt(NatToString(n) + rest) == Some(n)
  {
    ParseIntOfDigits(NatToString(n), rest);
    DigitsValueOfNatToString(n);
  }

  /** The last characters of a concatenation are those of its second part. */
  lemma TailChar(x: string, q: string, k: nat)
    requires 1 <= k <= |q|
    ensures (x + q)[|x + q| - k] == q[|q| - k]
  {
  }

  /** A number rendered between fixed texts determines the number. */
  lemma EmbeddedNatInjective(p: string, m: nat, n: nat, q: string)
    requires p + NatToString(m) + q == p + NatToString(n) + q
    ensures m == n
  {
    var a, b := p + NatToString(m) + q, p + NatToString(n) + q;
    assert NatToString(m) == a[|p|..|a| - |q|];
    assert NatToString(n) == b[|p|..|b| - |q|];
    NatToStringInjective(m, n);
  }

  /** Text that differs from `pat` at position `k` does not start with it. */
  lemma NotStartsAt(s: string, pat: string, k: nat)
    requires k < |pat| && k < |s| && s[k] != pat[k]
    ensures !StartsWith(s, pat)
  {
    if |pat| <= |s| {
      assert s[..|pat|][k] != pat[k];
    }
  }

  /** Text starts with its own first part, and what follows that part is the rest. */
  lemma StartsHere(e: string, t: string)
    ensures StartsWith(e + t, e) && (e + t)[|e|..] == t
  {
    assert (e + t)[..|e|] == e;
  }
}
