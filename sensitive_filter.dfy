/**
 * The server's sensitive-word filter: a word list read from a file of lines,
 * a process-wide set of words that `reload_sensitive_words` replaces
 * wholesale, and `filter_sensitive_words`, which masks every occurrence of
 * each word with as many `*` as the word has characters, longest words first.
 *
 * The file is a parameter: `Some(lines)` is a file that could be read,
 * `None` one whose opening or reading failed.
 */
module SensitiveFilter {
  import opened Text

  // ---- the word list ----

  /** A line yields a word when its trimmed form is non-empty and not a `#` comment. */
  predicate IsWordLine(line: string)
  {
    var t := RustTrim(line);
    t != [] && t[0] != '#'
  }

  /** `line` yields the word `w`. */
  predicate Yields(line: string, w: string)
  {
    IsWordLine(line) && RustTrim(line) == w
  }

  /** The set of words a list of lines yields. */
  function WordsOf(lines: seq<string>): set<string>
    decreases |lines|
  {
    if lines == [] then {}
    else
      var last := lines[|lines| - 1];
      var before := WordsOf(lines[..|lines| - 1]);
      if IsWordLine(last) then before + {RustTrim(last)} else before
  }

  /** A word is in the set exactly when some line yields it. */
  lemma WordsOfIff(lines: seq<string>, w: string)
    ensures w in WordsOf(lines) <==> exists i :: 0 <= i < |lines| && Yields(lines[i], w)
  {
    if w in WordsOf(lines) {
      var i := WordsOfWitness(lines, w);
    }
    if exists i :: 0 <= i < |lines| && Yields(lines[i], w) {
      var i :| 0 <= i < |lines| && Yields(lines[i], w);
      WordsOfHas(lines, i);
    }
  }

  /** Every word in the set comes from some line. */
  lemma {:induction false} WordsOfWitness(lines: seq<string>, w: string) returns (i: nat)
    requires w in WordsOf(lines)
    ensures i < |lines| && Yields(lines[i], w)
    decreases |lines|
  {
    var init := lines[..|lines| - 1];
    if w in WordsOf(init) {
      i := WordsOfWitness(init, w);
      assert init[i] == lines[i];
    } else {
      i := |lines| - 1;
    }
  }

  /** Every word line contributes its word. */
  lemma {:induction false} WordsOfHas(lines: seq<string>, i: nat)
    requires i < |lines| && IsWordLine(lines[i])
    ensures RustTrim(lines[i]) in WordsOf(lines)
    decreases |lines|
  {
    if i < |lines| - 1 {
      var init := lines[..|lines| - 1];
      assert init[i] == lines[i];
      WordsOfHas(init, i);
    }
  }

  /** Every stored word is non-empty, so it can be searched for and replaced. */
  predicate NonEmptyWords(words: set<string>)
  {
    forall w :: w in words ==> w != []
  }

  /** Every word the list yields is non-empty and is not a comment. */
  lemma {:induction false} WordsOfShape(lines: seq<string>)
    ensures forall w :: w in WordsOf(lines) ==> w != [] && w[0] != '#'
    decreases |lines|
  {
    if lines != [] {
      WordsOfShape(lines[..|lines| - 1]);
    }
  }

  /** One more line read adds its word, if it yields one. */
  lemma WordsOfPrefixStep(lines: seq<string>, i: nat)
    requires i < |lines|
    ensures WordsOf(lines[..i + 1]) ==
      if IsWordLine(lines[i]) then WordsOf(lines[..i]) + {RustTrim(lines[i])} else WordsOf(lines[..i])
  {
    assert lines[..i + 1][..i] == lines[..i];
  }

  /** `load_sensitive_words` over lines already read: trim each, keep the word lines. */
  method LoadSensitiveWords(lines: seq<string>) returns (words: set<string>)
    ensures words == WordsOf(lines)
  {
    words := {};
    var i := 0;
    while i < |lines|
      invariant 0 <= i <= |lines|
      invariant words == WordsOf(lines[..i])
    {
      var trimmed := RustTrim(lines[i]);
      WordsOfPrefixStep(lines, i);
      if trimmed != [] && trimmed[0] != '#' {
        words := words + {trimmed};
      }
      i := i + 1;
    }
    assert lines[..|lines|] == lines;
  }

  // ---- masking ----

  /** One word applied: if it occurs, every occurrence becomes a run of `*` of its length. */
  function Mask(s: string, w: string): (r: string)
    requires w != []
    ensures |r| == |s|
  {
    if Contains(s, w) then
      ReplaceAllSameLength(s, w, Repeat('*', |w|));
      ReplaceAll(s, w, Repeat('*', |w|))
    else s
  }

  predicate NonEmptyOrder(order: seq<string>)
  {
    forall i :: 0 <= i < |order| ==> order[i] != []
  }

  /** The words applied one after another in the given order. */
  function ApplyWords(s: string, order: seq<string>): (r: string)
    requires NonEmptyOrder(order)
    ensures |r| == |s|
    decreases |order|
  {
    if order == [] then s
    else Mask(ApplyWords(s, order[..|order| - 1]), order[|order| - 1])
  }

  /** The words that occurred, at the moment each was applied, in application order. */
  function FoundWords(s: string, order: seq<string>): (found: seq<string>)
    requires NonEmptyOrder(order)
    ensures |found| <= |order|
    ensures forall i :: 0 <= i < |found| ==> found[i] in order
    decreases |order|
  {
    if order == [] then []
    else
      var init := order[..|order| - 1];
      var w := order[|order| - 1];
      var before := FoundWords(s, init);
      assert forall i :: 0 <= i < |before| ==> before[i] in order by {
        forall i | 0 <= i < |before| ensures before[i] in order {
          var j :| 0 <= j < |init| && init[j] == before[i];
          assert order[j] == init[j];
        }
      }
      if Contains(ApplyWords(s, init), w) then before + [w] else before
  }

  // ---- the order of application ----

  predicate Distinct(order: seq<string>)
  {
    forall i, j :: 0 <= i < j < |order| ==> order[i] != order[j]
  }

  /** `order` lists every word of `words` exactly once. */
  ghost predicate Enumerates(order: seq<string>, words: set<string>)
  {
    Distinct(order) && forall w :: w in words <==> w in order
  }

  /** Character counts never increase along `order`. */
  predicate LongestFirst(order: seq<string>)
  {
    forall i, j :: 0 <= i < j < |order| ==> |order[i]| >= |order[j]|
  }

  lemma LongestExists(words: set<string>)
    requires words != {}
    ensures exists w :: w in words && forall v :: v in words ==> |v| <= |w|
    decreases |words|
  {
    var x :| x in words;
    if words - {x} == {} {
      assert words == {x};
    } else {
      LongestExists(words - {x});
      var y :| y in words - {x} && forall v :: v in words - {x} ==> |v| <= |y|;
      if |x| >= |y| {
        assert forall v :: v in words ==> |v| <= |x|;
      } else {
        assert forall v :: v in words ==> |v| <= |y|;
      }
    }
  }

  lemma EnumeratesNonEmpty(order: seq<string>, words: set<string>)
    requires Enumerates(order, words) && NonEmptyWords(words)
    ensures NonEmptyOrder(order)
  {
    forall i | 0 <= i < |order| ensures order[i] != [] {
      assert order[i] in words;
    }
  }

  /** What is listed so far: distinct, longest first, and no shorter than anything still to list. */
  ghost predicate SortedPart(sorted: seq<string>, remaining: set<string>, words: set<string>)
  {
    remaining <= words && Distinct(sorted) && LongestFirst(sorted) &&
    (forall w :: w in words <==> w in remaining || w in sorted) &&
    (forall i :: 0 <= i < |sorted| ==> sorted[i] !in remaining) &&
    (forall i, v :: 0 <= i < |sorted| && v in remaining ==> |v| <= |sorted[i]|)
  }

  /** Moving a longest remaining word to the end of the listing keeps it sorted. */
  lemma SortStep(sorted: seq<string>, remaining: set<string>, words: set<string>, w: string)
    requires SortedPart(sorted, remaining, words)
    requires w in remaining && forall v :: v in remaining ==> |v| <= |w|
    ensures SortedPart(sorted + [w], remaining - {w}, words)
  {
    var s' := sorted + [w];
    forall i, j | 0 <= i < j < |s'| ensures s'[i] != s'[j] && |s'[i]| >= |s'[j]| {
      if j == |sorted| {
        assert s'[i] == sorted[i] && s'[j] == w;
      } else {
        assert s'[i] == sorted[i] && s'[j] == sorted[j];
      }
    }
  }

  /** The set listed longest first; among words of equal length the order is unspecified. */
  method SortLongestFirst(words: set<string>) returns (sorted: seq<string>)
    ensures Enumerates(sorted, words) && LongestFirst(sorted)
  {
    var remaining := words;
    sorted := [];
    while remaining != {}
      invariant SortedPart(sorted, remaining, words)
      decreases |remaining|
    {
      LongestExists(remaining);
      var w :| w in remaining && forall v :: v in remaining ==> |v| <= |w|;
      SortStep(sorted, remaining, words, w);
      sorted := sorted + [w];
      remaining := remaining - {w};
    }
  }

  // ---- the process-wide word set ----

  class WordFilter {
    var words: set<string>

    ghost predicate Valid()
      reads this
    {
      NonEmptyWords(words)
    }

    /** The first use loads the file; a file that cannot be read leaves the set empty. */
    constructor (file: Option<seq<string>>)
      ensures Valid()
      ensures words == if file.Some? then WordsOf(file.value) else {}
    {
      if file.Some? {
        var loaded := LoadSensitiveWords(file.value);
        WordsOfShape(file.value);
        words := loaded;
      } else {
        words := {};
      }
    }

    /**
     * `reload_sensitive_words`: a readable file replaces the whole set and
     * the new size is returned; an unreadable one is an error and the old
     * set stays.
     */
    method Reload(file: Option<seq<string>>) returns (count: Option<nat>)
      requires Valid()
      modifies this
      ensures Valid()
      ensures file.None? ==> count.None? && words == old(words)
      ensures file.Some? ==> words == WordsOf(file.value) && count == Some(|words|)
    {
      if file.None? {
        return None;
      }
      var loaded := LoadSensitiveWords(file.value);
      WordsOfShape(file.value);
      words := loaded;
      count := Some(|loaded|);
    }

    /**
     * `filter_sensitive_words`: the words, sorted longest first, are applied
     * in turn; `found` is the list the source logs. `order` is the listing
     * the sort happened to produce: the set's iteration order is arbitrary
     * and the sort is stable, so words of equal length come in any order.
     */
    method Filter(content: string) returns (filtered: string, found: seq<string>, ghost order: seq<string>)
      requires Valid()
      ensures Enumerates(order, words) && LongestFirst(order)
      ensures NonEmptyOrder(order)
      ensures filtered == ApplyWords(content, order)
      ensures found == FoundWords(content, order)
    {
      var sorted := SortLongestFirst(words);
      EnumeratesNonEmpty(sorted, words);
      order := sorted;
      filtered := content;
      found := [];
      var k := 0;
      while k < |sorted|
        invariant 0 <= k <= |sorted|
        invariant filtered == ApplyWords(content, sorted[..k])
        invariant found == FoundWords(content, sorted[..k])
      {
        var word := sorted[k];
        assert sorted[..k + 1][..k] == sorted[..k];
        if Contains(filtered, word) {
          var replacement := Repeat('*', |word|);
          filtered := ReplaceAll(filtered, word, replacement);
          found := found + [word];
        }
        k := k + 1;
      }
      assert sorted[..|sorted|] == sorted;
    }
  }

  // ---- properties of masking ----

  /** Applying `a` and then `b` is applying `a + b`. */
  lemma {:induction false} ApplyWordsAppend(s: string, a: seq<string>, b: seq<string>)
    requires NonEmptyOrder(a) && NonEmptyOrder(b)
    ensures NonEmptyOrder(a + b)
    ensures ApplyWords(s, a + b) == ApplyWords(ApplyWords(s, a), b)
    decreases |b|
  {
    if b == [] {
      assert a + b == a;
    } else {
      var b' := b[..|b| - 1];
      assert (a + b)[..|a + b| - 1] == a + b';
      ApplyWordsAppend(s, a, b');
    }
  }

  /** Content in which no listed word occurs comes back unchanged, and nothing is reported. */
  lemma {:induction false} ApplyWordsAbsent(s: string, order: seq<string>)
    requires NonEmptyOrder(order)
    requires forall i :: 0 <= i < |order| ==> !Contains(s, order[i])
    ensures ApplyWords(s, order) == s
    ensures FoundWords(s, order) == []
    decreases |order|
  {
    if order != [] {
      ApplyWordsAbsent(s, order[..|order| - 1]);
    }
  }

  /** When nothing is reported, nothing was changed. */
  lemma {:induction false} NothingFoundNothingChanged(s: string, order: seq<string>)
    requires NonEmptyOrder(order)
    requires FoundWords(s, order) == []
    ensures ApplyWords(s, order) == s
    decreases |order|
  {
    if order != [] {
      var init := order[..|order| - 1];
      assert |FoundWords(s, init)| <= |FoundWords(s, order)|;
      NothingFoundNothingChanged(s, init);
    }
  }

  /** `s` holds no `*`. */
  predicate StarFree(s: string)
  {
    forall k :: 0 <= k < |s| ==> s[k] != '*'
  }

  /** Positions `lo` up to `hi` of `s` hold no `*`. */
  predicate StarFreeRange(s: string, lo: nat, hi: nat)
    requires lo <= hi <= |s|
  {
    forall k :: lo <= k < hi ==> s[k] != '*'
  }

  /** A non-empty replacement made of `*` only. */
  predicate AllStars(stars: string)
  {
    stars != [] && forall k :: 0 <= k < |stars| ==> stars[k] == '*'
  }

  /** A match at the front puts the replacement first. */
  lemma HitFront(t: string, w: string, stars: string, i: nat)
    requires w != [] && |t| >= |w| && t[..|w|] == w && AllStars(stars) && i < |stars|
    ensures ReplaceAll(t, w, stars) == stars + ReplaceAll(t[|w|..], w, stars)
    ensures ReplaceAll(t, w, stars)[i] == '*'
  {
  }

  /** A star-free start of the masked text is the start of the original text. */
  lemma {:induction false} StarFreePrefix(t: string, w: string, stars: string, m: nat)
    requires w != [] && AllStars(stars) && m <= |ReplaceAll(t, w, stars)|
    requires StarFreeRange(ReplaceAll(t, w, stars), 0, m)
    ensures m <= |t| && t[..m] == ReplaceAll(t, w, stars)[..m]
    decreases |t|
  {
    var r := ReplaceAll(t, w, stars);
    if |t| >= |w| && m > 0 {
      if t[..|w|] == w {
        HitFront(t, w, stars, 0);
        assert false;
      } else {
        var r' := ReplaceAll(t[1..], w, stars);
        assert r == [t[0]] + r';
        forall k | 0 <= k < m - 1 ensures r'[k] != '*' {
          assert r'[k] == r[k + 1];
        }
        StarFreePrefix(t[1..], w, stars, m - 1);
        assert t[..m] == [t[0]] + t[1..][..m - 1];
        assert r[..m] == [t[0]] + r'[..m - 1];
      }
    }
  }

  /** Every star-free stretch of the masked text is a stretch of the original text. */
  lemma {:induction false} StarFreeWindow(t: string, w: string, stars: string, i: nat, m: nat) returns (j: nat)
    requires w != [] && AllStars(stars) && i + m <= |ReplaceAll(t, w, stars)|
    requires StarFreeRange(ReplaceAll(t, w, stars), i, i + m)
    ensures MatchesAt(t, ReplaceAll(t, w, stars)[i..i + m], j)
    decreases |t|
  {
    var r := ReplaceAll(t, w, stars);
    if m == 0 {
      j := 0;
    } else if |t| < |w| {
      j := i;
    } else if t[..|w|] == w {
      if i < |stars| {
        HitFront(t, w, stars, i);
        assert false;
      } else {
        j := StarFreeWindowAfterHit(t, w, stars, i, m);
      }
    } else if i == 0 {
      StarFreePrefix(t, w, stars, m);
      j := 0;
    } else {
      j := StarFreeWindowAfterMiss(t, w, stars, i, m);
    }
  }

  lemma {:induction false} StarFreeWindowAfterHit(t: string, w: string, stars: string, i: nat, m: nat) returns (j: nat)
    requires w != [] && AllStars(stars) && i + m <= |ReplaceAll(t, w, stars)|
    requires StarFreeRange(ReplaceAll(t, w, stars), i, i + m)
    requires |t| >= |w| && t[..|w|] == w && |stars| <= i && m > 0
    ensures MatchesAt(t, ReplaceAll(t, w, stars)[i..i + m], j)
    decreases |t|, 0
  {
    var r := ReplaceAll(t, w, stars);
    var tail := t[|w|..];
    var r' := ReplaceAll(tail, w, stars);
    assert r == stars + r';
    var i' := i - |stars|;
    assert r[i..i + m] == r'[i'..i' + m];
    forall k | i' <= k < i' + m ensures r'[k] != '*' {
      assert r'[k] == r[k + |stars|];
    }
    var j' := StarFreeWindow(tail, w, stars, i', m);
    DropSlice(t, |w|, j', j' + m);
    j := j' + |w|;
  }

  lemma {:induction false} StarFreeWindowAfterMiss(t: string, w: string, stars: string, i: nat, m: nat) returns (j: nat)
    requires w != [] && AllStars(stars) && i + m <= |ReplaceAll(t, w, stars)|
    requires StarFreeRange(ReplaceAll(t, w, stars), i, i + m)
    requires |t| >= |w| && t[..|w|] != w && i > 0 && m > 0
    ensures MatchesAt(t, ReplaceAll(t, w, stars)[i..i + m], j)
    decreases |t|, 0
  {
    var r := ReplaceAll(t, w, stars);
    var tail := t[1..];
    var r' := ReplaceAll(tail, w, stars);
    assert r == [t[0]] + r';
    assert r[1..] == r';
    assert r[i..i + m] == r[1..][i - 1..i - 1 + m];
    forall k | i - 1 <= k < i - 1 + m ensures r'[k] != '*' {
      assert r'[k] == r[k + 1];
    }
    var j' := StarFreeWindow(tail, w, stars, i - 1, m);
    DropSlice(t, 1, j', j' + m);
    j := j' + 1;
  }

  /** A stretch of a suffix is the shifted stretch of the whole. */
  lemma DropSlice(t: string, d: nat, a: nat, b: nat)
    requires d <= |t| && a <= b <= |t| - d
    ensures t[d..][a..b] == t[d + a..d + b]
  {
  }

  /** Masking cannot create an occurrence of a word without `*`. */
  lemma MaskKeepsAbsent(s: string, w: string, v: string)
    requires w != [] && StarFree(v) && !Contains(s, v)
    ensures !Contains(Mask(s, w), v)
  {
    if Contains(s, w) {
      var stars := Repeat('*', |w|);
      var r := ReplaceAll(s, w, stars);
      ContainsIffMatch(r, v);
      ContainsIffMatch(s, v);
      if Contains(r, v) {
        var i :| 0 <= i <= |r| && MatchesAt(r, v, i);
        forall k | i <= k < i + |v| ensures r[k] != '*' {
          assert r[k] == v[k - i];
        }
        var j := StarFreeWindow(s, w, stars, i, |v|);
        assert false;
      }
    }
  }

  /** After a word without `*` has been applied, it no longer occurs. */
  lemma MaskRemovesWord(s: string, w: string)
    requires w != [] && StarFree(w)
    ensures !Contains(Mask(s, w), w)
  {
    if Contains(s, w) {
      MaskLeavesNoMatch(s, w, Repeat('*', |w|));
    }
  }

  lemma {:induction false} MaskLeavesNoMatch(s: string, w: string, stars: string)
    requires w != [] && StarFree(w) && AllStars(stars)
    ensures !Contains(ReplaceAll(s, w, stars), w)
    decreases |s|
  {
    var r := ReplaceAll(s, w, stars);
    if |s| < |w| {
      LacksLength(r, w);
    } else if s[..|w|] == w {
      var tail := s[|w|..];
      MaskLeavesNoMatch(tail, w, stars);
      assert w[0] !in stars;
      NotContainsAfter(stars, ReplaceAll(tail, w, stars), w);
    } else {
      var tail := s[1..];
      var r' := ReplaceAll(tail, w, stars);
      MaskLeavesNoMatch(tail, w, stars);
      assert r == [s[0]] + r';
      assert r[1..] == r';
      if StartsWith(r, w) {
        forall k | 0 <= k < |w| - 1 ensures r'[k] != '*' {
          assert r'[k] == r[..|w|][k + 1];
        }
        StarFreePrefix(tail, w, stars, |w| - 1);
        assert false;
      }
    }
  }

  lemma LacksLength(s: string, pat: string)
    requires |s| < |pat|
    ensures !Contains(s, pat)
  {
    ContainsIffMatch(s, pat);
  }

  /** Prefixing text that lacks the pattern's first character does not create the pattern. */
  lemma {:induction false} NotContainsAfter(a: string, b: string, pat: string)
    requires pat != [] && pat[0] !in a && !Contains(b, pat)
    ensures !Contains(a + b, pat)
    decreases |a|
  {
    if a != [] {
      NotContainsAfter(a[1..], b, pat);
      assert (a + b)[1..] == a[1..] + b;
      assert (a + b)[0] == a[0];
    } else {
      assert a + b == b;
    }
  }

  /** The filtered text holds none of the applied words, provided no word contains `*`. */
  lemma {:induction false} ApplyWordsRemovesAll(s: string, order: seq<string>)
    requires NonEmptyOrder(order)
    requires forall i :: 0 <= i < |order| ==> StarFree(order[i])
    ensures forall i :: 0 <= i < |order| ==> !Contains(ApplyWords(s, order), order[i])
    decreases |order|
  {
    if order != [] {
      var init := order[..|order| - 1];
      var w := order[|order| - 1];
      ApplyWordsRemovesAll(s, init);
      var before := ApplyWords(s, init);
      forall i | 0 <= i < |order| ensures !Contains(Mask(before, w), order[i]) {
        if i == |order| - 1 {
          MaskRemovesWord(before, w);
        } else {
          assert order[i] == init[i];
          MaskKeepsAbsent(before, w, order[i]);
        }
      }
    }
  }

  // ---- the unit tests of filter.rs, as lemmas ----

  /** Reading one more line adds its word, if it is a word line. */
  lemma WordsOfSnoc(lines: seq<string>, line: string)
    ensures WordsOf(lines + [line]) == if IsWordLine(line) then WordsOf(lines) + {RustTrim(line)} else WordsOf(lines)
  {
    assert (lines + [line])[..|lines|] == lines;
  }

  /** A word line: no whitespace at its ends and no `#` in front. */
  lemma PlainLine(line: string)
    requires line != [] && line[0] != '#'
    requires !RustWhitespace(line[0]) && !RustWhitespace(line[|line| - 1])
    ensures IsWordLine(line) && RustTrim(line) == line
  {
    TrimUnchanged(line, RustWhitespace);
  }

  /** A comment line: `#` in front. */
  lemma CommentLine(line: string)
    requires line != [] && line[0] == '#' && !RustWhitespace(line[|line| - 1])
    ensures !IsWordLine(line)
  {
    TrimUnchanged(line, RustWhitespace);
  }

  /** A line that loads as itself: non-empty, no whitespace at its ends, no `#` in front. */
  predicate PlainWord(w: string)
  {
    w != [] && w[0] != '#' && !RustWhitespace(w[0]) && !RustWhitespace(w[|w| - 1])
  }

  /** A comment line that trimming leaves as it is. */
  predicate PlainComment(line: string)
  {
    line != [] && line[0] == '#' && !RustWhitespace(line[|line| - 1])
  }

  /** A word line adds exactly itself. */
  lemma AddWord(lines: seq<string>, w: string, before: set<string>)
    requires WordsOf(lines) == before && PlainWord(w)
    ensures WordsOf(lines + [w]) == before + {w}
  {
    PlainLine(w);
    WordsOfSnoc(lines, w);
  }

  /** A blank or comment line adds nothing. */
  lemma AddNothing(lines: seq<string>, line: string, before: set<string>)
    requires WordsOf(lines) == before && (line == [] || PlainComment(line))
    ensures WordsOf(lines + [line]) == before
  {
    if line != [] {
      CommentLine(line);
    }
    WordsOfSnoc(lines, line);
  }

  lemma File1(c1: string)
    requires PlainComment(c1)
    ensures WordsOf([c1]) == {}
  {
    AddNothing([], c1, {});
    assert [] + [c1] == [c1];
  }

  lemma File2(c1: string, a: string)
    requires PlainComment(c1) && PlainWord(a)
    ensures WordsOf([c1, a]) == {a}
  {
    File1(c1);
    PlainLine(a);
    WordsOfSnoc([c1], a);
    assert [c1] + [a] == [c1, a];
  }

  lemma File3(c1: string, a: string, b: string)
    requires PlainComment(c1) && PlainWord(a) && PlainWord(b)
    ensures WordsOf([c1, a, b]) == {a, b}
  {
    File2(c1, a);
    AddWord([c1, a], b, {a});
    assert [c1, a] + [b] == [c1, a, b];
  }

  lemma File4(c1: string, a: string, b: string, e: string)
    requires PlainComment(c1) && PlainWord(a) && PlainWord(b) && e == []
    ensures WordsOf([c1, a, b, e]) == {a, b}
  {
    File3(c1, a, b);
    AddNothing([c1, a, b], e, {a, b});
    assert [c1, a, b] + [e] == [c1, a, b, e];
  }

  lemma File5(c1: string, a: string, b: string, e: string, c2: string)
    requires PlainComment(c1) && PlainWord(a) && PlainWord(b) && e == [] && PlainComment(c2)
    ensures WordsOf([c1, a, b, e, c2]) == {a, b}
  {
    File4(c1, a, b, e);
    AddNothing([c1, a, b, e], c2, {a, b});
    assert [c1, a, b, e] + [c2] == [c1, a, b, e, c2];
  }

  /** The shape of the loading test's file: comment, two words, blank, comment, word. */
  lemma SixLineFile(c1: string, a: string, b: string, e: string, c2: string, d: string)
    requires PlainComment(c1) && PlainWord(a) && PlainWord(b) && e == [] && PlainComment(c2) && PlainWord(d)
    ensures WordsOf([c1, a, b, e, c2, d]) == {a, b, d}
  {
    File5(c1, a, b, e, c2);
    AddWord([c1, a, b, e, c2], d, {a, b});
    assert [c1, a, b, e, c2] + [d] == [c1, a, b, e, c2, d];
  }

  /** Comment lines and blank lines contribute nothing: the test file yields three words. */
  lemma LoadTest()
    ensures WordsOf(["# 测试敏感词", "政治", "笨蛋", "", "# 注释行", "暴力"]) == {"政治", "笨蛋", "暴力"}
  {
    SixLineFile("# 测试敏感词", "政治", "笨蛋", "", "# 注释行", "暴力");
  }

  /** The word list the filtering tests load. */
  const TestWords: set<string> := {"政治", "笨蛋", "暴力", "国家机密", "国家"}

  lemma Words1(a: string)
    requires PlainWord(a)
    ensures WordsOf([a]) == {a}
  {
    PlainLine(a);
    WordsOfSnoc([], a);
    assert [] + [a] == [a];
  }

  lemma Words2(a: string, b: string)
    requires PlainWord(a) && PlainWord(b)
    ensures WordsOf([a, b]) == {a, b}
  {
    Words1(a);
    AddWord([a], b, {a});
    assert [a] + [b] == [a, b];
  }

  lemma Words3(a: string, b: string, c: string)
    requires PlainWord(a) && PlainWord(b) && PlainWord(c)
    ensures WordsOf([a, b, c]) == {a, b, c}
  {
    Words2(a, b);
    AddWord([a, b], c, {a, b});
    assert [a, b] + [c] == [a, b, c];
  }

  lemma Words4(a: string, b: string, c: string, d: string)
    requires PlainWord(a) && PlainWord(b) && PlainWord(c) && PlainWord(d)
    ensures WordsOf([a, b, c, d]) == {a, b, c, d}
  {
    Words3(a, b, c);
    AddWord([a, b, c], d, {a, b, c});
    assert [a, b, c] + [d] == [a, b, c, d];
  }

  /** Five word lines load as five words. */
  lemma FiveWordFile(a: string, b: string, c: string, d: string, e: string)
    requires PlainWord(a) && PlainWord(b) && PlainWord(c) && PlainWord(d) && PlainWord(e)
    ensures WordsOf([a, b, c, d, e]) == {a, b, c, d, e}
  {
    Words4(a, b, c, d);
    AddWord([a, b, c, d], e, {a, b, c, d});
    assert [a, b, c, d] + [e] == [a, b, c, d, e];
  }

  /** The filtering tests load these five words. */
  lemma TestWordsLoaded()
    ensures WordsOf(["政治", "笨蛋", "暴力", "国家机密", "国家"]) == TestWords
  {
    FiveWordFile("政治", "笨蛋", "暴力", "国家机密", "国家");
  }

  /** Applying a list in which one word `key` turns `s` into `t` and every other word leaves both alone. */
  lemma {:induction false} ApplyWordsOneHit(s: string, t: string, order: seq<string>, key: string)
    requires NonEmptyOrder(order) && key != []
    requires Mask(s, key) == t && Mask(t, key) == t
    requires forall i :: 0 <= i < |order| && order[i] != key ==> Mask(s, order[i]) == s && Mask(t, order[i]) == t
    ensures ApplyWords(s, order) == if key in order then t else s
    decreases |order|
  {
    if order != [] {
      var init := order[..|order| - 1];
      assert forall i :: 0 <= i < |init| ==> init[i] == order[i];
      ApplyWordsOneHit(s, t, init, key);
      assert order == init + [order[|order| - 1]];
    }
  }

  /** A word with a character the text lacks leaves the text alone. */
  lemma MaskLacking(s: string, w: string, k: nat)
    requires w != [] && k < |w| && w[k] !in s
    ensures Mask(s, w) == s
  {
    LacksChar(s, w, k);
  }

  /** The head of a longest-first listing is a listed word at least as long as any other. */
  lemma EnumeratedHead(order: seq<string>, words: set<string>, j: nat)
    requires Enumerates(order, words) && LongestFirst(order) && 0 < j < |order|
    ensures order[0] in words && order[0] != order[j] && |order[0]| >= |order[j]|
  {
  }

  /** Every longest-first listing of the test words starts with the only four-character word. */
  lemma TestOrderStart(order: seq<string>)
    requires Enumerates(order, TestWords) && LongestFirst(order)
    ensures order != [] && order[0] == "国家机密"
  {
    assert "国家机密" in order;
    var j :| 0 <= j < |order| && order[j] == "国家机密";
    if j != 0 {
      EnumeratedHead(order, TestWords, j);
      assert false;
    }
  }

  lemma Stars2()
    ensures Repeat('*', 2) == "**"
  {
  }

  lemma Stars4()
    ensures Repeat('*', 4) == "****"
  {
  }

  lemma SecretTail()
    ensures ReplaceAll("国家信息", "国家机密", "****") == "国家信息"
  {
    ReplaceAllNearMiss('国', "家信息", "国家机密", "****", 2);
    assert ['国'] + "家信息" == "国家信息";
  }

  /** The four-character word is masked first; `国家` still occurs in what is left. */
  lemma SecretWhole()
    ensures ReplaceAll("这里有" + "国家机密" + "和" + "国家信息", "国家机密", "****") == "这里有" + "****" + "和" + "国家信息"
  {
    SecretTail();
    ReplaceAllPastHit("这里有", "国家机密", "****", "和", "国家信息");
  }

  lemma MaskSecretStep()
    ensures Mask("这里有" + "国家机密" + "和" + "国家信息", "国家机密") == "这里有" + "****" + "和" + "国家信息"
  {
    SecretWhole();
    Stars4();
    assert ("这里有" + "国家机密" + "和" + "国家信息")[3] != ("这里有" + "****" + "和" + "国家信息")[3];
    ChangedContains("这里有" + "国家机密" + "和" + "国家信息", "国家机密", "****");
  }

  /** `国家` is masked next, in what the four-character word left. */
  lemma NationWhole()
    ensures ReplaceAll("这里有****和" + "国家" + "信息" + [], "国家", "**") == "这里有****和" + "**" + "信息" + []
  {
    ReplaceAllPastHit("这里有****和", "国家", "**", "信息", []);
  }

  lemma MaskNationStep()
    ensures Mask("这里有" + "****" + "和" + "国家信息", "国家") == "这里有****和**信息"
  {
    NationWhole();
    Stars2();
    assert "这里有" + "****" + "和" + "国家信息" == "这里有****和" + "国家" + "信息" + [];
    assert "这里有****和" + "**" + "信息" + [] == "这里有****和**信息";
    assert ("这里有" + "****" + "和" + "国家信息")[8] != "这里有****和**信息"[8];
    ChangedContains("这里有" + "****" + "和" + "国家信息", "国家", "**");
  }

  lemma PoliticsThrice()
    ensures ReplaceAll("政治政治政治", "政治", "**") == "******"
  {
    ReplaceAllHit("政治", "", "**");
    assert "政治" + "" == "政治";
    ReplaceAllHit("政治", "政治", "**");
    ReplaceAllHit("政治", "政治政治", "**");
  }

  lemma MaskPoliticsStep()
    ensures Mask("政治政治政治", "政治") == "******"
  {
    PoliticsThrice();
    Stars2();
    ChangedContains("政治政治政治", "政治", "**");
  }

  /** The two-character words other than `国家` occur neither before nor after `国家` is masked. */
  lemma OtherWordsLeaveAlone(w: string)
    requires w in TestWords && w != "国家机密" && w != "国家"
    ensures Mask("这里有" + "****" + "和" + "国家信息", w) == "这里有" + "****" + "和" + "国家信息"
    ensures Mask("这里有****和**信息", w) == "这里有****和**信息"
  {
    MaskLacking("这里有" + "****" + "和" + "国家信息", w, 0);
    MaskLacking("这里有****和**信息", w, 0);
  }

  /** Applying a listing is applying its first word and then the rest. */
  lemma ApplyWordsFirst(s: string, order: seq<string>)
    requires NonEmptyOrder(order) && order != []
    ensures NonEmptyOrder(order[1..])
    ensures ApplyWords(s, order) == ApplyWords(Mask(s, order[0]), order[1..])
  {
    var rest := order[1..];
    assert order == [order[0]] + rest;
    assert NonEmptyOrder([order[0]]) && NonEmptyOrder(rest);
    ApplyWordsAppend(s, [order[0]], rest);
    assert [order[0]][..0] == [];
  }

  /** The listing's first step masks the four-character word. */
  lemma SecretFirst(order: seq<string>)
    requires Enumerates(order, TestWords) && LongestFirst(order) && NonEmptyOrder(order)
    ensures order != [] && order[0] == "国家机密" && NonEmptyOrder(order[1..])
    ensures ApplyWords("这里有" + "国家机密" + "和" + "国家信息", order) == ApplyWords("这里有" + "****" + "和" + "国家信息", order[1..])
  {
    TestOrderStart(order);
    ApplyWordsFirst("这里有" + "国家机密" + "和" + "国家信息", order);
    MaskSecretStep();
  }

  /** After the four-character word, the listing holds only the other test words, `国家` among them. */
  lemma TestOrderRest(order: seq<string>)
    requires Enumerates(order, TestWords) && order != [] && order[0] == "国家机密"
    ensures forall i :: 0 <= i < |order[1..]| ==> order[1..][i] in TestWords && order[1..][i] != "国家机密"
    ensures "国家" in order[1..]
  {
    var rest := order[1..];
    forall i | 0 <= i < |rest| ensures rest[i] in TestWords && rest[i] != "国家机密" {
      assert rest[i] == order[i + 1];
      assert order[0] != order[i + 1];
    }
    assert "国家" in order;
    var j :| 0 <= j < |order| && order[j] == "国家";
    assert j != 0 && rest[j - 1] == "国家";
  }

  /** After it, the remaining words turn what is left into the expected text. */
  lemma NationAfterSecret(order: seq<string>)
    requires Enumerates(order, TestWords) && order != [] && order[0] == "国家机密" && NonEmptyOrder(order[1..])
    ensures ApplyWords("这里有" + "****" + "和" + "国家信息", order[1..]) == "这里有****和**信息"
  {
    var rest := order[1..];
    var x := "这里有" + "****" + "和" + "国家信息";
    var y := "这里有****和**信息";
    TestOrderRest(order);
    MaskNationStep();
    MaskLacking(y, "国家", 0);
    forall i | 0 <= i < |rest| && rest[i] != "国家"
      ensures Mask(x, rest[i]) == x && Mask(y, rest[i]) == y
    {
      OtherWordsLeaveAlone(rest[i]);
    }
    ApplyWordsOneHit(x, y, rest, "国家");
  }

  lemma SecretTextParts()
    ensures "这里有国家机密和国家信息" == "这里有" + "国家机密" + "和" + "国家信息"
  {
  }

  /** The longer word wins over its prefix, whatever order the equal-length words come in. */
  lemma FilterTestLongestFirst(order: seq<string>)
    requires Enumerates(order, TestWords) && LongestFirst(order) && NonEmptyOrder(order)
    ensures ApplyWords("这里有国家机密和国家信息", order) == "这里有****和**信息"
  {
    SecretFirst(order);
    NationAfterSecret(order);
    SecretTextParts();
  }

  /** No test word but `政治` occurs in the repeated text or in its masked form. */
  lemma PoliticsOnly(w: string)
    requires w in TestWords && w != "政治"
    ensures Mask("政治政治政治", w) == "政治政治政治" && Mask("******", w) == "******"
  {
    MaskLacking("政治政治政治", w, 0);
    MaskLacking("******", w, 0);
  }

  /** Back-to-back occurrences are all masked. */
  lemma FilterTestRepeated(order: seq<string>)
    requires Enumerates(order, TestWords) && NonEmptyOrder(order)
    ensures ApplyWords("政治政治政治", order) == "******"
  {
    MaskPoliticsStep();
    MaskLacking("******", "政治", 0);
    forall i | 0 <= i < |order| && order[i] != "政治"
      ensures Mask("政治政治政治", order[i]) == "政治政治政治" && Mask("******", order[i]) == "******"
    {
      PoliticsOnly(order[i]);
    }
    assert "政治" in TestWords;
    ApplyWordsOneHit("政治政治政治", "******", order, "政治");
  }

  /** Text with none of the words passes through unchanged and nothing is reported. */
  lemma FilterTestClean(order: seq<string>)
    requires Enumerates(order, TestWords) && NonEmptyOrder(order)
    ensures ApplyWords("这是正常内容", order) == "这是正常内容"
    ensures FoundWords("这是正常内容", order) == []
  {
    forall i | 0 <= i < |order| ensures !Contains("这是正常内容", order[i]) {
      assert order[i] in TestWords;
      LacksChar("这是正常内容", order[i], 0);
    }
    ApplyWordsAbsent("这是正常内容", order);
  }

  /** The overlapping-words test expects a text one character shorter than its input; masking keeps the length, so no order gives it. */
  lemma OverlapTestUnsatisfiable(order: seq<string>)
    requires NonEmptyOrder(order)
    ensures ApplyWords("他是一个暴力犯罪分子", order) != "他是一个*****"
  {
    assert |"他是一个暴力犯罪分子"| == 10 && |"他是一个*****"| == 9;
  }
}
