/**
 * When replacing one pattern cannot disturb another. Two texts are apart when
 * no overlapping placement of one against the other agrees on the overlap:
 * their occurrences in any text are then disjoint. From that follow the facts
 * the sanitizer rests on: a replace-all removes its pattern when the
 * replacement is apart from it, keeps a text free of any pattern apart from
 * the replacement, keeps every substring apart from the pattern, and writes its
 * replacement wherever the pattern occurred.
 */
module Overlap {
  import opened Text

  /** With `r` placed at offset `d` of `q`, the two differ somewhere they overlap. */
  predicate Clash(q: string, r: string, d: int)
  {
    exists k :: 0 <= k < |r| && 0 <= d + k < |q| && q[d + k] != r[k]
  }

  /** Every overlapping placement of `r` against `q` disagrees somewhere. */
  predicate Apart(q: string, r: string)
  {
    forall d :: -|r| < d < |q| ==> Clash(q, r, d)
  }

  /** Occurrences of texts that are apart never overlap. */
  lemma NoOverlap(t: string, q: string, i: nat, r: string, j: nat)
    requires Apart(q, r) && MatchesAt(t, q, i) && MatchesAt(t, r, j)
    ensures j + |r| <= i || i + |q| <= j
  {
    AgreeOnOverlap(t, q, i, r, j);
  }

  /** Two occurrences in one text agree wherever they overlap. */
  lemma AgreeOnOverlap(t: string, q: string, i: nat, r: string, j: nat)
    requires MatchesAt(t, q, i) && MatchesAt(t, r, j)
    ensures !Clash(q, r, j - i)
  {
    var d := j - i;
    forall k | 0 <= k < |r| && 0 <= d + k < |q| ensures q[d + k] == r[k] {
      assert q[d + k] == t[i..i + |q|][d + k];
      assert r[k] == t[j..j + |r|][k];
    }
  }

  // ---- sufficient conditions for being apart ----

  /** `q` cannot begin inside `r`. */
  predicate StartsClear(q: string, r: string)
  {
    forall d :: -|r| < d <= 0 ==> Clash(q, r, d)
  }

  /** `r` cannot begin inside `q` after its first character. */
  predicate BridgesClear(q: string, r: string)
  {
    forall d :: 0 < d < |q| ==> Clash(q, r, d)
  }

  lemma ApartOfHalves(q: string, r: string)
    requires StartsClear(q, r) && BridgesClear(q, r)
    ensures Apart(q, r)
  {
    forall d | -|r| < d < |q| ensures Clash(q, r, d) {
    }
  }

  /** The first character of `q` does not occur in `r`. */
  lemma StartsClearByHead(q: string, r: string)
    requires q != [] && q[0] !in r
    ensures StartsClear(q, r)
  {
    forall d | -|r| < d <= 0 ensures Clash(q, r, d) {
      var t := -d;
      assert q[d + t] != r[t];
    }
  }

  /** `r` ends in something other than `q`'s first character, and `q`'s second does not occur in `r`. */
  lemma StartsClearBySecond(q: string, r: string)
    requires |q| >= 2 && r != [] && r[|r| - 1] != q[0] && q[1] !in r
    ensures StartsClear(q, r)
  {
    forall d | -|r| < d <= 0 ensures Clash(q, r, d) {
      var t := -d;
      if r[t] == q[0] {
        assert q[d + (t + 1)] != r[t + 1];
      } else {
        assert q[d + t] != r[t];
      }
    }
  }

  /** `q`'s first character occurs in `r` only at its start, and the two differ at position `k`. */
  lemma StartsClearAtHead(q: string, r: string, k: nat)
    requires q != [] && r != [] && q[0] == r[0] && q[0] !in r[1..]
    requires k < |q| && k < |r| && q[k] != r[k]
    ensures StartsClear(q, r)
  {
    forall d | -|r| < d <= 0 ensures Clash(q, r, d) {
      var t := -d;
      if t == 0 {
        assert q[d + k] != r[k];
      } else {
        assert r[t] == r[1..][t - 1];
        assert q[d + t] != r[t];
      }
    }
  }

  /** Wherever `r` holds `q`'s first character, one of the next two characters of `r` departs from `q`. */
  predicate StartsDepart(q: string, r: string)
  {
    |q| >= 3 && forall t :: 0 <= t < |r| && r[t] == q[0] ==>
      t + 1 < |r| && (r[t + 1] != q[1] || (t + 2 < |r| && r[t + 2] != q[2]))
  }

  lemma StartsClearByPoints(q: string, r: string)
    requires StartsDepart(q, r)
    ensures StartsClear(q, r)
  {
    forall d | -|r| < d <= 0 ensures Clash(q, r, d) {
      var t := -d;
      if r[t] != q[0] {
        assert q[d + t] != r[t];
      } else if r[t + 1] != q[1] {
        assert q[d + (t + 1)] != r[t + 1];
      } else {
        assert q[d + (t + 2)] != r[t + 2];
      }
    }
  }

  /** The first character of `r` does not occur in `q` after its first character. */
  lemma BridgesClearByHead(q: string, r: string)
    requires q != [] && r != [] && r[0] !in q[1..]
    ensures BridgesClear(q, r)
  {
    forall d | 0 < d < |q| ensures Clash(q, r, d) {
      assert q[1..][d - 1] == q[d + 0];
    }
  }

  /** `q` ends in something other than `r`'s first character, and `r`'s second does not occur in `q`. */
  lemma BridgesClearBySecond(q: string, r: string)
    requires q != [] && |r| >= 2 && q[|q| - 1] != r[0] && r[1] !in q
    ensures BridgesClear(q, r)
  {
    forall d | 0 < d < |q| ensures Clash(q, r, d) {
      if q[d] == r[0] {
        assert q[d + 1] != r[1];
      } else {
        assert q[d + 0] != r[0];
      }
    }
  }

  /** Wherever `q` holds `r`'s first character, one of the next two characters of `q` departs from `r`. */
  predicate BridgesDepart(q: string, r: string)
  {
    |r| >= 3 && forall d :: 0 < d < |q| && q[d] == r[0] ==>
      d + 1 < |q| && (q[d + 1] != r[1] || (d + 2 < |q| && q[d + 2] != r[2]))
  }

  lemma BridgesClearByPoints(q: string, r: string)
    requires BridgesDepart(q, r)
    ensures BridgesClear(q, r)
  {
    forall d | 0 < d < |q| ensures Clash(q, r, d) {
      if q[d] != r[0] {
        assert q[d + 0] != r[0];
      } else if q[d + 1] != r[1] {
        assert q[d + 1] != r[1];
      } else {
        assert q[d + 2] != r[2];
      }
    }
  }

  /** Neither text's first character occurs where it would let the other overlap it. */
  lemma ApartByHeads(q: string, r: string)
    requires q != [] && r != [] && q[0] !in r && r[0] !in q[1..]
    ensures Apart(q, r)
  {
    StartsClearByHead(q, r);
    BridgesClearByHead(q, r);
    ApartOfHalves(q, r);
  }

  // ---- occurrences and concatenation ----

  lemma MatchShift(a: string, s: string, q: string, i: nat)
    ensures MatchesAt(a + s, q, |a| + i) <==> MatchesAt(s, q, i)
  {
    if |a| + i + |q| <= |a + s| {
      assert (a + s)[|a| + i..|a| + i + |q|] == s[i..i + |q|];
    }
  }

  lemma MatchPrefix(a: string, s: string, q: string, i: nat)
    requires i + |q| <= |a|
    ensures MatchesAt(a + s, q, i) <==> MatchesAt(a, q, i)
  {
    assert (a + s)[i..i + |q|] == a[i..i + |q|];
  }

  /** No occurrence of `q` in `s` at any position. */
  predicate Free(s: string, q: string)
  {
    forall i :: 0 <= i <= |s| ==> !MatchesAt(s, q, i)
  }

  lemma FreeIff(s: string, q: string)
    ensures Free(s, q) <==> !Contains(s, q)
  {
    ContainsIffMatch(s, q);
  }

  /** A text cannot hold a pattern one of whose characters it lacks. */
  lemma MissingChar(s: string, q: string, i: nat)
    requires i < |q| && q[i] !in s
    ensures !Contains(s, q)
  {
    ContainsIffMatch(s, q);
    forall j | 0 <= j <= |s| ensures !MatchesAt(s, q, j) {
      if j + |q| <= |s| {
        assert s[j..j + |q|][i] == s[j + i];
      }
    }
  }

  lemma ContainsAfter(a: string, s: string, q: string)
    requires Contains(s, q)
    ensures Contains(a + s, q)
  {
    ContainsIffMatch(s, q);
    var i :| 0 <= i <= |s| && MatchesAt(s, q, i);
    MatchShift(a, s, q, i);
    ContainsIffMatch(a + s, q);
  }

  lemma ContainsBefore(s: string, t: string, q: string)
    requires Contains(s, q)
    ensures Contains(s + t, q)
  {
    ContainsIffMatch(s, q);
    var i :| 0 <= i <= |s| && MatchesAt(s, q, i);
    MatchPrefix(s, t, q, i);
    ContainsIffMatch(s + t, q);
  }

  lemma ContainsStart(w: string, b: string)
    ensures Contains(w + b, w)
  {
    assert (w + b)[..|w|] == w;
  }

  /** A text holds every text placed inside it. */
  lemma ContainsMiddle(a: string, w: string, b: string)
    ensures Contains(a + w + b, w)
  {
    assert (a + w + b)[|a|..|a| + |w|] == w;
    assert MatchesAt(a + w + b, w, |a|);
    ContainsIffMatch(a + w + b, w);
  }

  lemma ContainsTrans(s: string, w: string, q: string)
    requires Contains(s, w) && Contains(w, q)
    ensures Contains(s, q)
  {
    ContainsIffMatch(s, w);
    ContainsIffMatch(w, q);
    var i :| 0 <= i <= |s| && MatchesAt(s, w, i);
    var j :| 0 <= j <= |w| && MatchesAt(w, q, j);
    forall x | 0 <= x < |q| ensures s[i + j + x] == q[x] {
      assert q[x] == w[j..j + |q|][x] == w[j + x];
      assert w[j + x] == s[i..i + |w|][j + x];
    }
    assert s[i + j..i + j + |q|] == q;
    assert MatchesAt(s, q, i + j);
    ContainsIffMatch(s, q);
  }

  // ---- what a replace-all does to other texts ----

  /**
   * A replacement `r` placed behind a prefix `a` in which `q` fits nowhere,
   * with a tail free of `q`, gives a text free of `q` when `r` cannot overlap it.
   */
  lemma ScanJoin(a: string, r: string, t: string, q: string)
    requires q != [] && Apart(q, r) && Free(t, q)
    requires forall i :: 0 <= i && i + |q| <= |a| ==> !MatchesAt(a, q, i)
    ensures Free(a + (r + t), q)
  {
    var out := a + (r + t);
    assert out == (a + r) + t;
    assert MatchesAt(out, r, |a|) by {
      assert out[|a|..|a| + |r|] == r;
    }
    forall i | 0 <= i <= |out| ensures !MatchesAt(out, q, i) {
      if i + |q| <= |a| {
        MatchPrefix(a, r + t, q, i);
      } else if i < |a| + |r| {
        if MatchesAt(out, q, i) {
          NoOverlap(out, q, i, r, |a|);
        }
      } else {
        MatchShift(a + r, t, q, i - |a| - |r|);
      }
    }
  }

  /**
   * Scanning `s` behind a prefix `a` in which `q` starts nowhere: the output
   * holds `q` nowhere, when `q` is the pattern itself or is absent from `s`,
   * and the replacement cannot overlap it.
   */
  lemma {:induction false} ScanFree(a: string, s: string, p: string, r: string, q: string)
    requires p != [] && q != [] && Apart(q, r)
    requires forall i :: 0 <= i < |a| ==> !MatchesAt(a + s, q, i)
    requires q == p || Free(s, q)
    ensures Free(a + ReplaceAll(s, p, r), q)
    decreases |s|
  {
    if |s| < |p| {
      ScanShort(a, s, p, q);
    } else if s[..|p|] == p {
      ScanRest(s, p, q);
      ScanFree([], s[|p|..], p, r, q);
      ScanHit(a, s, p, r, q);
    } else {
      ScanStep(a, s, p, q);
      ScanFree(a + [s[0]], s[1..], p, r, q);
      ScanMiss(a, s, p, r, q);
    }
  }

  lemma ScanHit(a: string, s: string, p: string, r: string, q: string)
    requires p != [] && q != [] && Apart(q, r) && |p| <= |s| && s[..|p|] == p
    requires forall i :: 0 <= i < |a| ==> !MatchesAt(a + s, q, i)
    requires Free([] + ReplaceAll(s[|p|..], p, r), q)
    ensures Free(a + ReplaceAll(s, p, r), q)
  {
    var t := ReplaceAll(s[|p|..], p, r);
    assert [] + t == t;
    forall i | 0 <= i && i + |q| <= |a| ensures !MatchesAt(a, q, i) {
      MatchPrefix(a, s, q, i);
    }
    ScanJoin(a, r, t, q);
    assert ReplaceAll(s, p, r) == r + t;
  }

  lemma ScanMiss(a: string, s: string, p: string, r: string, q: string)
    requires p != [] && |p| <= |s| && s[..|p|] != p
    requires Free(a + [s[0]] + ReplaceAll(s[1..], p, r), q)
    ensures Free(a + ReplaceAll(s, p, r), q)
  {
    assert ReplaceAll(s, p, r) == [s[0]] + ReplaceAll(s[1..], p, r);
    assert a + [s[0]] + ReplaceAll(s[1..], p, r) == a + ReplaceAll(s, p, r);
  }

  lemma ScanShort(a: string, s: string, p: string, q: string)
    requires |s| < |p|
    requires forall i :: 0 <= i < |a| ==> !MatchesAt(a + s, q, i)
    requires q == p || Free(s, q)
    ensures Free(a + s, q)
  {
    forall i | 0 <= i <= |a + s| ensures !MatchesAt(a + s, q, i) {
      if i >= |a| {
        MatchShift(a, s, q, i - |a|);
      }
    }
  }

  lemma ScanRest(s: string, p: string, q: string)
    requires |p| <= |s| && (q == p || Free(s, q))
    ensures q == p || Free(s[|p|..], q)
  {
    if q != p {
      forall i | 0 <= i <= |s[|p|..]| ensures !MatchesAt(s[|p|..], q, i) {
        assert s == s[..|p|] + s[|p|..];
        MatchShift(s[..|p|], s[|p|..], q, i);
      }
    }
  }

  lemma ScanStep(a: string, s: string, p: string, q: string)
    requires |p| <= |s| && s[..|p|] != p
    requires forall i :: 0 <= i < |a| ==> !MatchesAt(a + s, q, i)
    requires q == p || Free(s, q)
    ensures forall i :: 0 <= i < |a + [s[0]]| ==> !MatchesAt(a + [s[0]] + s[1..], q, i)
    ensures q == p || Free(s[1..], q)
  {
    assert a + [s[0]] + s[1..] == a + s;
    if q != p {
      MatchShift(a, s, q, 0);
      forall i | 0 <= i <= |s[1..]| ensures !MatchesAt(s[1..], q, i) {
        assert s == [s[0]] + s[1..];
        MatchShift([s[0]], s[1..], q, i);
      }
    }
  }

  /** A replace-all whose replacement cannot overlap its pattern leaves no occurrence of the pattern. */
  lemma ReplaceAllRemoves(s: string, p: string, r: string)
    requires p != [] && Apart(p, r)
    ensures !Contains(ReplaceAll(s, p, r), p)
  {
    ScanFree([], s, p, r, p);
    assert [] + s == s && [] + ReplaceAll(s, p, r) == ReplaceAll(s, p, r);
    FreeIff(ReplaceAll(s, p, r), p);
  }

  /** A replace-all cannot create a text its replacement cannot overlap. */
  lemma ReplaceAllKeepsOut(s: string, p: string, r: string, q: string)
    requires p != [] && q != [] && Apart(q, r) && !Contains(s, q)
    ensures !Contains(ReplaceAll(s, p, r), q)
  {
    FreeIff(s, q);
    ScanFree([], s, p, r, q);
    assert [] + s == s && [] + ReplaceAll(s, p, r) == ReplaceAll(s, p, r);
    FreeIff(ReplaceAll(s, p, r), q);
  }

  /** Where the pattern starts nowhere before `n`, the first `n` characters pass through unchanged. */
  lemma {:induction false} ReplaceAllCopies(s: string, p: string, r: string, n: nat)
    requires p != [] && n <= |s|
    requires forall m :: 0 <= m < n ==> !MatchesAt(s, p, m)
    ensures ReplaceAll(s, p, r) == s[..n] + ReplaceAll(s[n..], p, r)
    decreases n
  {
    if n == 0 {
      assert s[..0] + s[0..] == s[0..] == s;
    } else if |s| < |p| {
      assert |s[n..]| < |p|;
      assert s[..n] + s[n..] == s;
    } else {
      CopiesShift(s, p, n);
      ReplaceAllCopies(s[1..], p, r, n - 1);
      CopiesStep(s, p, r, n);
    }
  }

  lemma CopiesShift(s: string, p: string, n: nat)
    requires 0 < n <= |s|
    requires forall m :: 0 <= m < n ==> !MatchesAt(s, p, m)
    ensures forall m :: 0 <= m < n - 1 ==> !MatchesAt(s[1..], p, m)
  {
    forall m | 0 <= m < n - 1 ensures !MatchesAt(s[1..], p, m) {
      assert s == [s[0]] + s[1..];
      MatchShift([s[0]], s[1..], p, m);
      assert !MatchesAt(s, p, m + 1);
    }
  }

  lemma CopiesStep(s: string, p: string, r: string, n: nat)
    requires p != [] && 0 < n <= |s| && |p| <= |s| && !MatchesAt(s, p, 0)
    requires ReplaceAll(s[1..], p, r) == s[1..][..n - 1] + ReplaceAll(s[1..][n - 1..], p, r)
    ensures ReplaceAll(s, p, r) == s[..n] + ReplaceAll(s[n..], p, r)
  {
    assert s[..|p|] != p;
    assert ReplaceAll(s, p, r) == [s[0]] + ReplaceAll(s[1..], p, r);
    assert s[1..][n - 1..] == s[n..];
    assert [s[0]] + s[1..][..n - 1] == s[..n];
  }

  /** A text the pattern cannot overlap survives a replace-all. */
  lemma {:induction false} ReplaceAllKeeps(s: string, p: string, r: string, w: string)
    requires p != [] && w != [] && Apart(w, p) && Contains(s, w)
    ensures Contains(ReplaceAll(s, p, r), w)
    decreases |s|
  {
    ContainsIffMatch(s, w);
    var i :| 0 <= i <= |s| && MatchesAt(s, w, i);
    if i == 0 {
      KeepsAtStart(s, p, r, w);
    } else if |s| < |p| {
    } else if s[..|p|] == p {
      KeepsPastHit(s, p, w, i);
      ReplaceAllKeeps(s[|p|..], p, r, w);
      ContainsAfter(r, ReplaceAll(s[|p|..], p, r), w);
    } else {
      KeepsPastMiss(s, w, i);
      ReplaceAllKeeps(s[1..], p, r, w);
      ContainsAfter([s[0]], ReplaceAll(s[1..], p, r), w);
      assert ReplaceAll(s, p, r) == [s[0]] + ReplaceAll(s[1..], p, r);
    }
  }

  lemma KeepsAtStart(s: string, p: string, r: string, w: string)
    requires p != [] && Apart(w, p) && MatchesAt(s, w, 0)
    ensures Contains(ReplaceAll(s, p, r), w)
  {
    forall m | 0 <= m < |w| ensures !MatchesAt(s, p, m) {
      if MatchesAt(s, p, m) {
        NoOverlap(s, w, 0, p, m);
      }
    }
    ReplaceAllCopies(s, p, r, |w|);
    var out := ReplaceAll(s, p, r);
    assert out[..|w|] == s[..|w|] == w;
    assert StartsWith(out, w);
  }

  lemma KeepsPastHit(s: string, p: string, w: string, i: nat)
    requires 0 < i && Apart(w, p) && MatchesAt(s, w, i) && MatchesAt(s, p, 0)
    ensures Contains(s[|p|..], w)
  {
    NoOverlap(s, w, i, p, 0);
    var rest := s[|p|..];
    assert s == s[..|p|] + rest;
    MatchShift(s[..|p|], rest, w, i - |p|);
    ContainsIffMatch(rest, w);
  }

  lemma KeepsPastMiss(s: string, w: string, i: nat)
    requires 0 < i && MatchesAt(s, w, i)
    ensures Contains(s[1..], w)
  {
    assert s == [s[0]] + s[1..];
    MatchShift([s[0]], s[1..], w, i - 1);
    ContainsIffMatch(s[1..], w);
  }

  /** Where the pattern occurs, its replacement appears in the output. */
  lemma {:induction false} ReplaceAllWrites(s: string, p: string, r: string)
    requires p != [] && Contains(s, p)
    ensures Contains(ReplaceAll(s, p, r), r)
    decreases |s|
  {
    if StartsWith(s, p) {
      var out := ReplaceAll(s, p, r);
      assert out == r + ReplaceAll(s[|p|..], p, r);
      assert out[..|r|] == r;
    } else {
      assert |s| >= |p| ==> s[..|p|] != p;
      ReplaceAllWrites(s[1..], p, r);
      if |s| < |p| {
        ContainsIffMatch(s[1..], p);
      } else {
        ContainsAfter([s[0]], ReplaceAll(s[1..], p, r), r);
      }
    }
  }
}
