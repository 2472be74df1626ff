/**
 * The older feed script: the full-list pagination widget, post cards with a
 * comment badge and a collapse toggle for long content, the comment section
 * toggle, and comment submission. Submission clears this post's entry in
 * every comment cache and forces the next load to bypass them. No comment
 * loader is exported by the application script, so this script's loader
 * always ends in its own error message.
 */
module MainFeed {
  import opened Text
  import opened Feed
  import CommentCache
  import AppFeed

  // ---- the post list ----

  const EmptyFeed: string := "还没有帖子，来发布第一个吧！"

  /** A drawn post: id, displayed content, its badge count (`comments_count || 0`), and whether it is collapsible. */
  datatype MainCard = MainCard(id: string, content: string, count: nat, collapsible: bool)

  datatype FeedView = EmptyFeedNotice | FeedCards(cards: seq<MainCard>)

  /** `createPostElement`; the collapse test is on the raw content, `post.content && post.content.length > 200`. */
  function MainCardOf(p: PostData): (c: MainCard)
    ensures c.id == p.id && c.content != [] && c.count == p.commentsCount
    ensures c.collapsible <==> IsCollapsible(p.content)
  {
    MainCard(p.id, DisplayedContent(p), p.commentsCount, IsCollapsible(p.content))
  }

  /** A post without an id throws in `createPostElement` and is skipped; the rest appear in payload order. */
  function MainCardsOf(ps: seq<PostData>): (cards: seq<MainCard>)
    ensures |cards| <= |ps|
    ensures forall j :: 0 <= j < |cards| ==> cards[j].id != []
  {
    if ps == [] then []
    else MainCardsOf(ps[..|ps| - 1]) + (if ps[|ps| - 1].id != [] then [MainCardOf(ps[|ps| - 1])] else [])
  }

  /** `renderPosts`: the invitation to post for an empty list, otherwise the cards. */
  function RenderedPosts(ps: seq<PostData>): (v: FeedView)
    ensures v == EmptyFeedNotice <==> ps == []
    ensures v.FeedCards? ==> |v.cards| <= |ps| && forall j :: 0 <= j < |v.cards| ==> v.cards[j].id != []
  {
    if ps == [] then EmptyFeedNotice else FeedCards(MainCardsOf(ps))
  }

  /** When every post has an id, card `i` is post `i`'s. */
  lemma {:induction false} MainCardsOfAllIds(ps: seq<PostData>)
    requires forall i :: 0 <= i < |ps| ==> ps[i].id != []
    ensures |MainCardsOf(ps)| == |ps|
    ensures forall i :: 0 <= i < |ps| ==> MainCardsOf(ps)[i] == MainCardOf(ps[i])
    decreases |ps|
  {
    if ps != [] {
      var init := ps[..|ps| - 1];
      MainCardsOfAllIds(init);
      assert MainCardsOf(ps) == MainCardsOf(init) + [MainCardOf(ps[|ps| - 1])];
      forall i | 0 <= i < |ps|
        ensures MainCardsOf(ps)[i] == MainCardOf(ps[i])
      {
        if i < |init| {
          assert ps[i] == init[i];
        }
      }
    }
  }

  /** Both scripts draw the same posts, in the same order, with the same content and collapse decision. */
  lemma {:induction false} SameCardsAsApp(ps: seq<PostData>)
    ensures |MainCardsOf(ps)| == |AppFeed.PostCardsOf(ps)|
    ensures forall i :: 0 <= i < |MainCardsOf(ps)| ==>
      MainCardsOf(ps)[i].id == AppFeed.PostCardsOf(ps)[i].id &&
      MainCardsOf(ps)[i].content == AppFeed.PostCardsOf(ps)[i].content &&
      MainCardsOf(ps)[i].collapsible == AppFeed.PostCardsOf(ps)[i].collapsible
    decreases |ps|
  {
    if ps != [] {
      var init := ps[..|ps| - 1];
      var p := ps[|ps| - 1];
      SameCardsAsApp(init);
      CollapsibleDisplayed(p);
      var m := MainCardsOf(ps);
      var a := AppFeed.PostCardsOf(ps);
      assert m == MainCardsOf(init) + (if p.id != [] then [MainCardOf(p)] else []);
      assert a == AppFeed.PostCardsOf(init) + (if p.id != [] then [AppFeed.CardOf(p)] else []);
    }
  }

  /** The `forEach` that appends a card per post, skipping those whose creation throws. */
  method RenderPosts(ps: seq<PostData>) returns (view: FeedView)
    ensures view == RenderedPosts(ps)
  {
    if ps == [] {
      return EmptyFeedNotice;
    }
    var cards: seq<MainCard> := [];
    var i := 0;
    while i < |ps|
      invariant 0 <= i <= |ps|
      invariant cards == MainCardsOf(ps[..i])
    {
      assert ps[..i + 1][..i] == ps[..i];
      if ps[i].id != [] {
        cards := cards + [MainCardOf(ps[i])];
      }
      i := i + 1;
    }
    assert ps[..i] == ps;
    view := FeedCards(cards);
  }

  /** The pagination container. */
  class Pager {
    var items: seq<PageItem>

    constructor ()
      ensures items == []
    {
      items := [];
    }

    /** `updatePagination`: previous link, every page 1..total, next link; nothing for a single page. */
    method UpdatePagination(current: int, total: int)
      modifies this
      ensures items == FullItems(current, total)
    {
      if total <= 1 {
        items := [];
        return;
      }
      var acc := [PrevItem(current)];
      for i := 1 to total + 1
        invariant acc == [PrevItem(current)] + Numbers(1, i - 1, current, true)
      {
        acc := acc + [Number(i, current == i, true)];
      }
      items := acc + [NextItem(current, total)];
    }
  }

  // ---- a post's comment section ----

  /** What this script's loader shows: the application script exports no loader for it to call. */
  const LoaderMissing: string := "加载失败: app.js未正确加载"

  /** One post card's mutable parts: the badge, the comment section, and its form. */
  class PostView {
    var count: nat
    var sectionVisible: bool
    var list: CommentCache.ListView
    var draft: string
    var submitDisabled: bool
    var submitText: string

    /** A card as first drawn: the badge from `comments_count || 0`, the section hidden. */
    constructor (p: PostData)
      ensures count == p.commentsCount && !sectionVisible && list == CommentCache.Blank
      ensures draft == [] && !submitDisabled && submitText == CommentCache.ReplyLabel
    {
      count := p.commentsCount;
      sectionVisible := false;
      list := CommentCache.Blank;
      draft := [];
      submitDisabled := false;
      submitText := CommentCache.ReplyLabel;
    }

    /** `loadComments`: with no exported loader to delegate to, the list shows the error message. */
    method LoadComments()
      modifies this
      ensures list == CommentCache.Failed(LoaderMissing)
      ensures count == old(count) && sectionVisible == old(sectionVisible) && draft == old(draft)
      ensures submitDisabled == old(submitDisabled) && submitText == old(submitText)
    {
      list := CommentCache.Failed(LoaderMissing);
    }

    /** `toggleComments`: flips the section; only a section that was hidden asks for a load. */
    method ToggleComments() returns (loads: bool)
      modifies this
      ensures sectionVisible == !old(sectionVisible) && loads == !old(sectionVisible)
      ensures loads ==> list == CommentCache.Failed(LoaderMissing)
      ensures !loads ==> list == old(list)
      ensures count == old(count) && draft == old(draft)
      ensures submitDisabled == old(submitDisabled) && submitText == old(submitText)
    {
      loads := !sectionVisible;
      sectionVisible := !sectionVisible;
      if loads {
        LoadComments();
      }
    }

    /** `updateCommentCount`: the badge shows the given count, or 0 when there is none. */
    method UpdateCommentCount(c: Option<nat>)
      modifies this
      ensures count == if c.Some? then c.value else 0
      ensures sectionVisible == old(sectionVisible) && list == old(list) && draft == old(draft)
      ensures submitDisabled == old(submitDisabled) && submitText == old(submitText)
    {
      count := if c.Some? then c.value else 0;
    }
  }

  /** The page-wide flags comment submission raises, besides the two cache maps. */
  class SubmitFlags {
    /** `window._commentSubmitting`. */
    var submitting: bool
    /** `window._forceCommentRefresh`. */
    var forceRefresh: bool

    constructor ()
      ensures !submitting && !forceRefresh
    {
      submitting := false;
      forceRefresh := false;
    }
  }

  /** The button disabled and relabelled, the submitting flag raised; nothing else changes. */
  method MarkSubmitting(view: PostView, flags: SubmitFlags)
    modifies view, flags
    ensures view.submitDisabled && view.submitText == CommentCache.SubmittingLabel && flags.submitting
    ensures view.count == old(view.count) && view.sectionVisible == old(view.sectionVisible)
    ensures view.list == old(view.list) && view.draft == old(view.draft)
    ensures flags.forceRefresh == old(flags.forceRefresh)
  {
    view.submitDisabled := true;
    view.submitText := CommentCache.SubmittingLabel;
    flags.submitting := true;
  }

  /**
   * The submit button's click handler and the synchronous part of
   * `submitComment`: blank content does nothing; otherwise the button is
   * disabled, the submitting flag raised, and the trimmed content `sent`.
   */
  method BeginSubmit(view: PostView, flags: SubmitFlags) returns (sent: Option<string>)
    modifies view, flags
    ensures sent.Some? <==> JsTrim(old(view.draft)) != []
    ensures sent.Some? ==>
      sent.value == JsTrim(old(view.draft)) && view.submitDisabled &&
      view.submitText == CommentCache.SubmittingLabel && flags.submitting
    ensures sent.None? ==>
      view.submitDisabled == old(view.submitDisabled) && view.submitText == old(view.submitText) &&
      flags.submitting == old(flags.submitting)
    ensures view.count == old(view.count) && view.sectionVisible == old(view.sectionVisible)
    ensures view.list == old(view.list) && view.draft == old(view.draft)
    ensures flags.forceRefresh == old(flags.forceRefresh)
  {
    var content := JsTrim(view.draft);
    sent := if content != [] then Some(content) else None;
    if sent.Some? {
      MarkSubmitting(view, flags);
    }
  }

  /** The prefix of the alert the `catch` of `submitComment` raises. */
  const SubmitFailedPrefix: string := "提交评论失败: "

  /**
   * The rest of `submitComment`, as intended. A posted comment clears the
   * form, deletes this post's entry from both cache maps, raises the
   * force-refresh flag, asks for a load and adds one to the badge; a failed
   * one (`error` being the thrown message) is alerted. The button is
   * restored either way; the submitting flag is never lowered.
   */
  method FinishSubmit(view: PostView, flags: SubmitFlags, cache: CommentCache.Cache, postId: string,
                      posted: bool, error: string)
    returns (alert: Option<string>)
    modifies view, flags, cache
    ensures !view.submitDisabled && view.submitText == CommentCache.ReplyLabel
    ensures posted ==>
      alert.None? &&
      view.draft == [] && view.count == old(view.count) + 1 && view.list == CommentCache.Failed(LoaderMissing) &&
      flags.forceRefresh && cache.data == old(cache.data) - {postId} && cache.lastLoaded == old(cache.lastLoaded) - {postId}
    ensures !posted ==>
      alert == Some(SubmitFailedPrefix + error) &&
      view.draft == old(view.draft) && view.count == old(view.count) && view.list == old(view.list) &&
      flags.forceRefresh == old(flags.forceRefresh) &&
      cache.data == old(cache.data) && cache.lastLoaded == old(cache.lastLoaded)
    ensures flags.submitting == old(flags.submitting) && view.sectionVisible == old(view.sectionVisible)
  {
    alert := None;
    if posted {
      view.draft := [];
      ghost var sections := view.sectionVisible;
      cache.Invalidate(postId);
      flags.forceRefresh := true;
      view.LoadComments();
      assert view.count == old(view.count) && view.draft == [] && view.sectionVisible == sections;
      assert cache.data == old(cache.data) - {postId} && cache.lastLoaded == old(cache.lastLoaded) - {postId};
      var next := CommentCache.CountAfterSubmit(view.count);
      view.count := next;
    } else {
      alert := Some(SubmitFailedPrefix + error);
    }
    view.submitDisabled := false;
    view.submitText := CommentCache.ReplyLabel;
  }

  // ---- submission as written ----

  /**
   * The rest of `submitComment` as written. After a successful POST the form
   * is cleared, then `delete commentsCache[postId]` throws, that name being
   * declared nowhere: the `catch` alerts the error, and the cache maps, the
   * force-refresh flag, the list and the badge are left as they were. A
   * failed POST is alerted the same way. The `finally` restores the button
   * and then throws on the undeclared `refreshBtn`, which rejects the
   * returned promise and changes nothing further.
   */
  method FinishSubmitAsWritten(view: PostView, flags: SubmitFlags, cache: CommentCache.Cache, postId: string,
                               posted: bool, error: string)
    returns (alert: string)
    modifies view
    ensures !view.submitDisabled && view.submitText == CommentCache.ReplyLabel
    ensures posted ==> view.draft == [] && alert == SubmitFailedPrefix + CommentCache.UndeclaredCacheError
    ensures !posted ==> view.draft == old(view.draft) && alert == SubmitFailedPrefix + error
    ensures view.count == old(view.count) && view.list == old(view.list) && view.sectionVisible == old(view.sectionVisible)
    ensures cache.data == old(cache.data) && cache.lastLoaded == old(cache.lastLoaded) && flags.forceRefresh == old(flags.forceRefresh)
  {
    if posted {
      view.draft := [];
      alert := SubmitFailedPrefix + CommentCache.UndeclaredCacheError;
    } else {
      alert := SubmitFailedPrefix + error;
    }
    view.submitDisabled := false;
    view.submitText := CommentCache.ReplyLabel;
  }

  /**
   * A post with a cached thread, submitted to as written and as intended:
   * as written the stale entry stays, the badge keeps its count and an
   * error is alerted; as intended the entry is gone and the badge is one up.
   */
  method SubmitAsWrittenDiffers(p: PostData, postId: string, t: CommentCache.Thread, now: int)
    returns (cachedAsWritten: bool, badgeAsWritten: nat, alertAsWritten: string,
             cachedIntended: bool, badgeIntended: nat, alertIntended: Option<string>)
    ensures cachedAsWritten && badgeAsWritten == p.commentsCount
    ensures alertAsWritten == SubmitFailedPrefix + CommentCache.UndeclaredCacheError
    ensures !cachedIntended && badgeIntended == p.commentsCount + 1 && alertIntended.None?
  {
    var flags := new SubmitFlags();
    var view := new PostView(p);
    var cache := new CommentCache.Cache();
    cache.Put(postId, t, now);
    alertAsWritten := FinishSubmitAsWritten(view, flags, cache, postId, true, []);
    cachedAsWritten := postId in cache.data;
    badgeAsWritten := view.count;
    var view2 := new PostView(p);
    var cache2 := new CommentCache.Cache();
    cache2.Put(postId, t, now);
    alertIntended := FinishSubmit(view2, flags, cache2, postId, true, []);
    cachedIntended := postId in cache2.data;
    badgeIntended := view2.count;
  }
}
