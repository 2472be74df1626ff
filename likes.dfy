/**
 * The browser-only like counter. Each comment's like button shows `👍 N`; a
 * click reads N back from the label, shows N + 1, highlights the button and
 * records N + 1 for that comment in a saved map (the `likedComments` entry of
 * local storage). A comment is first drawn with its saved count, else the
 * server's count, else 0.
 */
module Likes {
  import opened Text

  const Thumb: char := '\U{1F44D}'

  /** The text inside the button. */
  function LikeLabel(n: nat): string
  {
    [Thumb, ' '] + NatToString(n)
  }

  /** `String.prototype.replace` with a string pattern: only the first occurrence goes. */
  function RemoveFirst(s: string, c: char): (r: string)
    ensures c !in s ==> r == s
    ensures c in s ==> |r| == |s| - 1
    ensures c in s ==> exists i :: DropsFirst(s, c, i, r)
  {
    if s == [] then []
    else if s[0] == c then
      assert s[..0] + s[1..] == s[1..];
      assert DropsFirst(s, c, 0, s[1..]);
      s[1..]
    else
      var rest := RemoveFirst(s[1..], c);
      RemoveFirstShift(s, c, rest);
      [s[0]] + rest
  }

  /** `c` first occurs in `s` at `i`, and dropping it leaves `r`. */
  predicate DropsFirst(s: string, c: char, i: int, r: string)
  {
    0 <= i < |s| && s[i] == c && c !in s[..i] && r == s[..i] + s[i + 1..]
  }

  /** The first occurrence in the tail, one place on, is the first in the whole when the head is another character. */
  lemma RemoveFirstShift(s: string, c: char, rest: string)
    requires s != [] && s[0] != c
    requires c in s[1..] ==> exists i :: DropsFirst(s[1..], c, i, rest)
    ensures c in s ==> exists i :: DropsFirst(s, c, i, [s[0]] + rest)
  {
    if c in s {
      var t := s[1..];
      assert s == [s[0]] + t;
      assert c in t;
      var i :| DropsFirst(t, c, i, rest);
      assert s[..i + 1] == [s[0]] + t[..i];
      assert s[i + 2..] == t[i + 1..];
      assert DropsFirst(s, c, i + 1, [s[0]] + rest);
    }
  }

  lemma ParseDigits(d: string)
    requires d != [] && AllDigits(d)
    ensures ParseInt(d) == Some(DigitsValue(d))
  {
    ParseIntOfDigits(d, []);
    assert d + [] == d;
  }

  /** The fallback text "0" parses as 0. */
  lemma ParseZero()
    ensures ParseInt("0") == Some(0)
  {
    ParseDigits("0");
    DigitsValueOfNatToString(0);
    assert NatToString(0) == "0";
  }

  /** How a click reads the count: drop the thumb, trim, fall back to "0" when empty, `parseInt`. */
  function ReadLikes(shownText: string): (r: Option<int>)
    ensures JsTrim(RemoveFirst(shownText, Thumb)) == [] ==> r == Some(0)
  {
    ParseZero();
    var t := JsTrim(RemoveFirst(shownText, Thumb));
    var digits := if t == [] then "0" else t;
    ParseInt(digits)
  }

  /** Trimming a space-led run of digits leaves the digits. */
  lemma TrimSpacedDigits(d: string)
    requires d != [] && AllDigits(d)
    ensures JsTrim([' '] + d) == d
  {
    var s := [' '] + d;
    assert s[1..] == d;
    assert !JsWhitespace(d[0]);
    assert TrimStart(s, JsWhitespace) == d;
    assert !JsWhitespace(d[|d| - 1]);
    assert TrimEnd(d, JsWhitespace) == d;
  }

  /** Dropping the thumb from a label leaves the space and the digits. */
  lemma RemoveThumb(d: string)
    ensures RemoveFirst([Thumb, ' '] + d, Thumb) == [' '] + d
  {
    var s := [Thumb, ' '] + d;
    assert s[0] == Thumb;
    assert s[1..] == [' '] + d;
  }

  /** A label holding a run of digits reads back as their value. */
  lemma ReadLikesOfDigits(d: string)
    requires d != [] && AllDigits(d)
    ensures ReadLikes([Thumb, ' '] + d) == Some(DigitsValue(d))
  {
    RemoveThumb(d);
    TrimSpacedDigits(d);
    ParseIntOfDigits(d, []);
    assert d + [] == d;
  }

  /** A label the counter wrote reads back as its count. */
  lemma ReadLikesOfLabel(n: nat)
    ensures ReadLikes(LikeLabel(n)) == Some(n)
  {
    ReadLikesOfDigits(NatToString(n));
    DigitsValueOfNatToString(n);
  }

  /** The count a click shows: what the label reads back as, plus one. */
  method NextLikes(shown: nat) returns (n: nat)
    ensures n == shown + 1
  {
    var read := ReadLikes(LikeLabel(shown));
    ReadLikesOfLabel(shown);
    n := read.value + 1;
  }

  /** The saved count for a comment, if any. */
  function Stored(liked: map<string, nat>, id: string): Option<nat>
  {
    if id in liked then Some(liked[id]) else None
  }

  /** The first count shown: `likedComments[id] || comment.likes || 0` (a saved 0 is falsy too). */
  function LikeSeed(stored: Option<nat>, likes: Option<nat>): (n: nat)
    ensures n == 0 ==> (stored.None? || stored.value == 0) && (likes.None? || likes.value == 0)
    ensures stored.Some? && stored.value > 0 ==> n == stored.value
    ensures !(stored.Some? && stored.value != 0) ==> n == if likes.Some? then likes.value else 0
  {
    if stored.Some? && stored.value != 0 then stored.value
    else if likes.Some? then likes.value
    else 0
  }

  /** The button is highlighted on first drawing exactly when a truthy count is saved. */
  predicate StartsHighlighted(stored: Option<nat>)
  {
    stored.Some? && stored.value != 0
  }

  /** Every saved count is positive: each was written as a displayed count plus one. */
  predicate PositiveCounts(liked: map<string, nat>)
  {
    forall k :: k in liked ==> liked[k] > 0
  }

  /** With positive counts, a comment starts highlighted exactly when it has a saved count, and shows it. */
  lemma SeedFromSaved(liked: map<string, nat>, id: string, likes: Option<nat>)
    requires PositiveCounts(liked)
    ensures StartsHighlighted(Stored(liked, id)) <==> id in liked
    ensures id in liked ==> LikeSeed(Stored(liked, id), likes) == liked[id]
    ensures id !in liked ==> LikeSeed(Stored(liked, id), likes) == if likes.Some? then likes.value else 0
  {
  }

  /** The saved `likedComments` map. */
  class LikeStore {
    var liked: map<string, nat>

    ghost predicate Valid()
      reads this
    {
      PositiveCounts(liked)
    }

    constructor (saved: map<string, nat>)
      requires PositiveCounts(saved)
      ensures Valid() && liked == saved
    {
      liked := saved;
    }
  }

  /** One like button: the count it shows, whether clicks are ignored, and whether it is highlighted. */
  class LikeButton {
    var shown: nat
    var disabled: bool
    var highlighted: bool

    /** The button as a comment element first draws it. */
    constructor (stored: Option<nat>, likes: Option<nat>)
      ensures shown == LikeSeed(stored, likes) && highlighted == StartsHighlighted(stored) && !disabled
    {
      shown := LikeSeed(stored, likes);
      highlighted := StartsHighlighted(stored);
      disabled := false;
    }
  }

  /**
   * `likeComment`: nothing happens for a missing id or a disabled button.
   * Otherwise the button is disabled, shows one more like and is highlighted,
   * and that count is saved for this comment alone. `firstLike` is whether
   * the one-time notice about likes being local is due.
   */
  method LikeComment(commentId: string, button: LikeButton, store: LikeStore) returns (firstLike: bool)
    requires store.Valid()
    modifies button, store
    ensures store.Valid()
    ensures commentId == [] || old(button.disabled) ==>
      !firstLike && button.shown == old(button.shown) && button.disabled == old(button.disabled) &&
      button.highlighted == old(button.highlighted) && store.liked == old(store.liked)
    ensures commentId != [] && !old(button.disabled) ==>
      button.shown == old(button.shown) + 1 && button.disabled && button.highlighted &&
      store.liked == old(store.liked)[commentId := old(button.shown) + 1] &&
      firstLike == (old(button.shown) == 0)
  {
    firstLike := false;
    if commentId == [] || button.disabled {
      return;
    }
    button.disabled := true;
    var newLikes := NextLikes(button.shown);
    button.shown := newLikes;
    button.highlighted := true;
    store.liked := store.liked[commentId := newLikes];
    firstLike := newLikes == 1;
  }

  /** The timer that fires 500 ms after a click makes the button clickable again. */
  method Reenable(button: LikeButton)
    modifies button
    ensures !button.disabled && button.shown == old(button.shown) && button.highlighted == old(button.highlighted)
  {
    button.disabled := false;
  }

  /** After a like, redrawing the comment shows the liked count, highlighted. */
  lemma RedrawAfterLike(liked: map<string, nat>, id: string, shown: nat, likes: Option<nat>)
    ensures var after := liked[id := shown + 1];
      LikeSeed(Stored(after, id), likes) == shown + 1 && StartsHighlighted(Stored(after, id))
  {
  }

  /** A like leaves every other comment's saved count and first drawing alone. */
  lemma LikeIsLocal(liked: map<string, nat>, id: string, other: string, n: nat, likes: Option<nat>)
    requires other != id
    ensures Stored(liked[id := n], other) == Stored(liked, other)
    ensures LikeSeed(Stored(liked[id := n], other), likes) == LikeSeed(Stored(liked, other), likes)
  {
  }
}
