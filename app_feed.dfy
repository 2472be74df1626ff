/**
 * The feed application script: the post list with its five-page pagination
 * window, the new-post form, and each post's comment section with its
 * comment button. The button reads "评论 N" once the post has N > 0
 * comments. The later declarations of the comment loader and comment
 * submission in the script replace the earlier ones, so the comment section
 * modelled here has no cache.
 */
module AppFeed {
  import opened Text
  import opened Feed
  import CommentCache

  // ---- the comment button label ----

  const CommentWord: string := "评论"

  /** `comments_count > 0 ? "评论 N" : "评论"`. */
  function CommentButtonLabel(n: nat): (r: string)
    ensures StartsWith(r, CommentWord)
    ensures n == 0 <==> r == CommentWord
  {
    assert StartsWith(CommentWord + " " + NatToString(n), CommentWord) by {
      StartsHere(CommentWord, " " + NatToString(n));
      assert CommentWord + " " + NatToString(n) == CommentWord + (" " + NatToString(n));
    }
    if n > 0 then CommentWord + " " + NatToString(n) else CommentWord
  }

  /** `/评论\s*(\d+)/` tried at the start of `s`: the word, any whitespace, then at least one digit. */
  function CountAt(s: string): (r: Option<nat>)
    ensures r.Some? ==> StartsWith(s, CommentWord)
  {
    if StartsWith(s, CommentWord) then
      var r := TrimStart(s[|CommentWord|..], JsWhitespace);
      var k := DigitRun(r);
      if k > 0 then Some(DigitsValue(r[..k])) else None
    else None
  }

  /** The first match of the pattern, scanning left to right. */
  function FindCount(s: string): (r: Option<nat>)
    ensures r.Some? ==> Contains(s, CommentWord)
    decreases |s|
  {
    if s == [] then None
    else if CountAt(s).Some? then CountAt(s)
    else FindCount(s[1..])
  }

  /** `matches ? parseInt(matches[1], 10) : 0`. */
  function ParsedCount(s: string): (n: nat)
    ensures !Contains(s, CommentWord) ==> n == 0
  {
    if FindCount(s).Some? then FindCount(s).value else 0
  }

  /** The label after a successful comment: the parsed count plus one. */
  function NextCountLabel(shown: string): (r: string)
    ensures StartsWith(r, CommentWord + " ")
  {
    StartsHere(CommentWord + " ", NatToString(ParsedCount(shown) + 1));
    CommentWord + " " + NatToString(ParsedCount(shown) + 1)
  }

  lemma TrimSpaceBeforeDigits(d: string)
    requires d != [] && AllDigits(d)
    ensures TrimStart(" " + d, JsWhitespace) == d
  {
    assert (" " + d)[1..] == d;
    assert !JsWhitespace(d[0]);
  }

  /** The bare word holds no count. */
  lemma NoCountInWord()
    ensures FindCount(CommentWord) == None
  {
    var w := CommentWord;
    assert w[|CommentWord|..] == [];
    assert TrimStart([], JsWhitespace) == [];
    assert CountAt(w) == None;
    assert w[1..] == [w[1]];
    assert !StartsWith(w[1..], CommentWord);
    assert w[1..][1..] == [];
  }

  /** A label the script wrote reads back as its count, so the count it shows is the count it parses. */
  lemma ParsedCountOfLabel(n: nat)
    ensures ParsedCount(CommentButtonLabel(n)) == n
  {
    if n == 0 {
      NoCountInWord();
    } else {
      var d := NatToString(n);
      var s := CommentWord + " " + d;
      assert s == CommentWord + (" " + d);
      StartsHere(CommentWord, " " + d);
      TrimSpaceBeforeDigits(d);
      assert d + [] == d;
      DigitRunOf(d, []);
      assert d[..|d|] == d;
      DigitsValueOfNatToString(n);
      assert CountAt(s) == Some(n);
    }
  }

  /** After a successful comment, a label showing N shows N + 1. */
  lemma NextCountLabelOf(n: nat)
    ensures NextCountLabel(CommentButtonLabel(n)) == CommentButtonLabel(n + 1)
  {
    ParsedCountOfLabel(n);
  }

  // ---- the post list ----

  /** A drawn post card: its id, displayed content, comment button label, and whether it is collapsible. */
  datatype PostCard = PostCard(id: string, content: string, commentLabel: string, collapsible: bool)

  /** What the post container shows. */
  datatype PostsView =
    | PostsLoading
    | NoPosts
    | PostCards(cards: seq<PostCard>)
    | PostsUnavailable

  function CardOf(p: PostData): (c: PostCard)
    ensures c.id == p.id && c.content != [] && StartsWith(c.commentLabel, CommentWord)
    ensures c.collapsible <==> p.content != [] && IsCollapsible(p.content)
  {
    PostCard(p.id, DisplayedContent(p), CommentButtonLabel(p.commentsCount), IsCollapsible(DisplayedContent(p)))
  }

  /** One card per post with a truthy id, in payload order. */
  function PostCardsOf(ps: seq<PostData>): (cards: seq<PostCard>)
    ensures |cards| <= |ps|
    ensures forall j :: 0 <= j < |cards| ==> cards[j].id != []
  {
    if ps == [] then []
    else PostCardsOf(ps[..|ps| - 1]) + (if ps[|ps| - 1].id != [] then [CardOf(ps[|ps| - 1])] else [])
  }

  /** `displayPosts`: the empty-state message for no posts, otherwise the cards. */
  function DisplayedPosts(ps: seq<PostData>): (v: PostsView)
    ensures v == NoPosts <==> ps == []
    ensures v.PostCards? ==> |v.cards| <= |ps| && forall j :: 0 <= j < |v.cards| ==> v.cards[j].id != []
    ensures v.NoPosts? || v.PostCards?
  {
    if ps == [] then NoPosts else PostCards(PostCardsOf(ps))
  }

  lemma {:induction false} PostCardsOfAppend(a: seq<PostData>, b: seq<PostData>)
    ensures PostCardsOf(a + b) == PostCardsOf(a) + PostCardsOf(b)
    decreases |b|
  {
    if b == [] {
      assert a + b == a;
    } else {
      var b' := b[..|b| - 1];
      assert (a + b)[..|a + b| - 1] == a + b';
      PostCardsOfAppend(a, b');
    }
  }

  /** When every post has an id, card `i` is post `i`'s. */
  lemma {:induction false} PostCardsOfAllIds(ps: seq<PostData>)
    requires forall i :: 0 <= i < |ps| ==> ps[i].id != []
    ensures |PostCardsOf(ps)| == |ps|
    ensures forall i :: 0 <= i < |ps| ==> PostCardsOf(ps)[i] == CardOf(ps[i])
    decreases |ps|
  {
    if ps != [] {
      var init := ps[..|ps| - 1];
      PostCardsOfAllIds(init);
      var last := CardOf(ps[|ps| - 1]);
      assert PostCardsOf(ps) == PostCardsOf(init) + [last];
      forall i | 0 <= i < |ps|
        ensures PostCardsOf(ps)[i] == CardOf(ps[i])
      {
        if i < |init| {
          assert ps[i] == init[i];
        }
      }
    }
  }

  /** A post without an id adds no card wherever it stands. */
  lemma PostWithoutIdSkipped(a: seq<PostData>, p: PostData, b: seq<PostData>)
    requires p.id == []
    ensures PostCardsOf(a + [p] + b) == PostCardsOf(a + b)
  {
    PostCardsOfAppend(a + [p], b);
    NoIdNoCard(a, p);
    PostCardsOfAppend(a, b);
  }

  lemma NoIdNoCard(a: seq<PostData>, p: PostData)
    requires p.id == []
    ensures PostCardsOf(a + [p]) == PostCardsOf(a)
  {
    assert (a + [p])[..|a|] == a;
  }

  /** The `forEach` that appends a card for each post with an id. */
  method RenderPostCards(ps: seq<PostData>) returns (cards: seq<PostCard>)
    ensures cards == PostCardsOf(ps)
  {
    cards := [];
    var i := 0;
    while i < |ps|
      invariant 0 <= i <= |ps|
      invariant cards == PostCardsOf(ps[..i])
    {
      assert ps[..i + 1][..i] == ps[..i];
      if ps[i].id != [] {
        cards := cards + [CardOf(ps[i])];
      }
      i := i + 1;
    }
    assert ps[..i] == ps;
  }

  /** A page of posts as the list endpoint returns it; a missing or zero field is 0. */
  datatype ListPayload = ListPayload(posts: seq<PostData>, page: nat, total: nat, pageSize: nat)

  datatype PostsResult = PostsLoaded(payload: ListPayload) | PostsFailed

  /** Pagination is recomputed only when page, total and page size are all truthy. */
  predicate Paginates(d: ListPayload)
  {
    d.page != 0 && d.total != 0 && d.pageSize != 0
  }

  const PostLabel: string := "发表"
  const PostingLabel: string := "发表中"

  /** The module-level state of the script, with the post form. */
  class App {
    var currentPage: int
    var totalPages: int
    var posts: PostsView
    var pagination: seq<PageItem>
    var draft: string
    var submitDisabled: bool
    var submitText: string

    constructor ()
      ensures currentPage == 1 && totalPages == 1 && posts == PostsLoading && pagination == []
      ensures draft == [] && !submitDisabled && submitText == PostLabel
    {
      currentPage := 1;
      totalPages := 1;
      posts := PostsLoading;
      pagination := [];
      draft := [];
      submitDisabled := false;
      submitText := PostLabel;
    }

    /** `updatePagination`: records the page count and draws the window layout. */
    method UpdatePagination(current: int, total: int)
      modifies this
      ensures totalPages == total && pagination == WindowItems(current, total)
      ensures currentPage == old(currentPage) && posts == old(posts)
      ensures draft == old(draft) && submitDisabled == old(submitDisabled) && submitText == old(submitText)
    {
      totalPages := total;
      if total <= 1 {
        pagination := [];
        return;
      }
      var items := [PrevItem(current)];
      var lo := WindowStart(current);
      var hi := WindowEnd(current, total);
      var i := lo;
      while i <= hi
        invariant lo <= i && (i <= hi + 1 || i == lo)
        invariant items == [PrevItem(current)] + Numbers(lo, i - 1, current, false)
        decreases hi - i
      {
        items := items + [Number(i, i == current, i != current)];
        i := i + 1;
      }
      assert Numbers(lo, i - 1, current, false) == Numbers(lo, hi, current, false);
      pagination := items + [NextItem(current, total)];
    }

    /** The start of `loadPosts`: the requested page becomes current before anything is fetched. */
    method StartLoadPosts(page: int)
      modifies this
      ensures currentPage == page && posts == PostsLoading
      ensures totalPages == old(totalPages) && pagination == old(pagination)
      ensures draft == old(draft) && submitDisabled == old(submitDisabled) && submitText == old(submitText)
    {
      currentPage := page;
      posts := PostsLoading;
    }

    /**
     * The rest of `loadPosts`: a payload is displayed and, when it carries a
     * page, a total and a page size, the widget is redrawn for
     * `ceil(total / pageSize)` pages; a failure shows the notice and keeps the widget.
     */
    method FinishLoadPosts(result: PostsResult)
      modifies this
      ensures result.PostsLoaded? ==> posts == DisplayedPosts(result.payload.posts)
      ensures result.PostsLoaded? && Paginates(result.payload) ==>
        var d := result.payload;
        totalPages == PageCount(d.total, d.pageSize) && pagination == WindowItems(d.page, PageCount(d.total, d.pageSize))
      ensures !(result.PostsLoaded? && Paginates(result.payload)) ==>
        totalPages == old(totalPages) && pagination == old(pagination)
      ensures result.PostsFailed? ==> posts == PostsUnavailable
      ensures currentPage == old(currentPage)
      ensures draft == old(draft) && submitDisabled == old(submitDisabled) && submitText == old(submitText)
    {
      if result.PostsFailed? {
        posts := PostsUnavailable;
        return;
      }
      var d := result.payload;
      if d.posts == [] {
        posts := NoPosts;
      } else {
        var cards := RenderPostCards(d.posts);
        posts := PostCards(cards);
      }
      if Paginates(d) {
        UpdatePagination(d.page, PageCount(d.total, d.pageSize));
      }
    }

    /**
     * The synchronous part of `submitPost`: with the form present and
     * non-blank content, the button is disabled and the trimmed content is
     * `sent`; otherwise nothing changes and nothing is sent.
     */
    method BeginSubmitPost(present: bool) returns (sent: Option<string>)
      modifies this
      ensures sent.Some? <==> present && JsTrim(old(draft)) != []
      ensures sent.Some? ==> sent.value == JsTrim(old(draft)) && submitDisabled && submitText == PostingLabel
      ensures sent.None? ==> submitDisabled == old(submitDisabled) && submitText == old(submitText)
      ensures draft == old(draft) && currentPage == old(currentPage) && totalPages == old(totalPages)
      ensures posts == old(posts) && pagination == old(pagination)
    {
      var content := JsTrim(draft);
      sent := if present && content != [] then Some(content) else None;
      if sent.Some? {
        ShowPosting();
      }
    }

    /** The post button disabled and relabelled; nothing else changes. */
    method ShowPosting()
      modifies this
      ensures submitDisabled && submitText == PostingLabel
      ensures draft == old(draft) && currentPage == old(currentPage) && totalPages == old(totalPages)
      ensures posts == old(posts) && pagination == old(pagination)
    {
      submitDisabled := true;
      submitText := PostingLabel;
    }

    /** The rest of `submitPost`: a created post clears the form and reloads page 1; the button is restored either way. */
    method FinishSubmitPost(posted: bool)
      modifies this
      ensures !submitDisabled && submitText == PostLabel
      ensures posted ==> draft == [] && currentPage == 1 && posts == PostsLoading
      ensures !posted ==> draft == old(draft) && currentPage == old(currentPage) && posts == old(posts)
      ensures totalPages == old(totalPages) && pagination == old(pagination)
    {
      if posted {
        draft := [];
        StartLoadPosts(1);
      }
      submitDisabled := false;
      submitText := PostLabel;
    }
  }

  // ---- a post's comment section ----

  /** What a comment list shows: every comment's content, in order. */
  datatype CommentList =
    | CommentsLoading
    | NoComments
    | Entries(contents: seq<string>)
    | CommentsFailed

  /** The count the button shows after a load: `total || comments.length || 0`. */
  function LoadedCount(t: CommentCache.Thread): (n: nat)
    ensures n == 0 <==> t.total == 0 && t.comments == []
    ensures t.total != 0 ==> n == t.total
  {
    if t.total != 0 then t.total else |t.comments|
  }

  /** The contents the list shows; this list neither skips comments nor draws likes. */
  function ContentsOf(cs: seq<CommentCache.CommentData>): (r: seq<string>)
    ensures |r| == |cs| && forall i :: 0 <= i < |cs| ==> r[i] == cs[i].content
  {
    if cs == [] then [] else ContentsOf(cs[..|cs| - 1]) + [cs[|cs| - 1].content]
  }

  function CommentListOf(t: CommentCache.Thread): CommentList
  {
    if t.comments == [] then NoComments else Entries(ContentsOf(t.comments))
  }

  datatype CommentsResult = CommentsLoaded(thread: CommentCache.Thread) | CommentsLoadFailed

  /** The comment button's label as the card draws it. */
  const PublishFirst: string := "发表评论"
  /** Its label once a submission settles: a different wording from the first. */
  const Publish: string := "发布评论"
  const Publishing: string := "发布中..."

  /** A post's comment button and its comment section. */
  class CommentPanel {
    var buttonLabel: string
    var visible: bool
    var list: CommentList
    var draft: string
    var submitDisabled: bool
    var submitText: string

    /** As a post card first draws it: hidden, the label from the post's count. */
    constructor (count: nat)
      ensures buttonLabel == CommentButtonLabel(count) && !visible && list == CommentsLoading
      ensures draft == [] && !submitDisabled && submitText == PublishFirst
    {
      buttonLabel := CommentButtonLabel(count);
      visible := false;
      list := CommentsLoading;
      draft := [];
      submitDisabled := false;
      submitText := PublishFirst;
    }

    /** The start of `loadComments`: the list shows the spinner and a fetch starts. */
    method StartLoadComments()
      modifies this
      ensures list == CommentsLoading
      ensures buttonLabel == old(buttonLabel) && visible == old(visible) && draft == old(draft)
      ensures submitDisabled == old(submitDisabled) && submitText == old(submitText)
    {
      list := CommentsLoading;
    }

    /** The comment button: flips the section, and a section that was hidden starts loading. */
    method Toggle() returns (loads: bool)
      modifies this
      ensures visible == !old(visible) && loads == !old(visible)
      ensures loads ==> list == CommentsLoading
      ensures !loads ==> list == old(list)
      ensures buttonLabel == old(buttonLabel) && draft == old(draft)
      ensures submitDisabled == old(submitDisabled) && submitText == old(submitText)
    {
      loads := !visible;
      visible := !visible;
      if loads {
        StartLoadComments();
      }
    }

    /** The rest of `loadComments`: a payload relabels the button with its count and fills the list. */
    method FinishLoadComments(result: CommentsResult)
      modifies this
      ensures result.CommentsLoaded? ==>
        buttonLabel == CommentButtonLabel(LoadedCount(result.thread)) && list == CommentListOf(result.thread)
      ensures result.CommentsLoadFailed? ==> buttonLabel == old(buttonLabel) && list == CommentsFailed
      ensures visible == old(visible) && draft == old(draft)
      ensures submitDisabled == old(submitDisabled) && submitText == old(submitText)
    {
      if result.CommentsLoadFailed? {
        list := CommentsFailed;
        return;
      }
      var t := result.thread;
      buttonLabel := CommentButtonLabel(LoadedCount(t));
      if t.comments == [] {
        list := NoComments;
        return;
      }
      var contents: seq<string> := [];
      var i := 0;
      while i < |t.comments|
        invariant 0 <= i <= |t.comments|
        invariant contents == ContentsOf(t.comments[..i])
      {
        assert t.comments[..i + 1][..i] == t.comments[..i];
        contents := contents + [t.comments[i].content];
        i := i + 1;
      }
      assert t.comments[..i] == t.comments;
      list := Entries(contents);
    }

    /**
     * The synchronous part of `submitComment`: blank content, or a form
     * missing its elements, does nothing; otherwise the button is disabled
     * and the trimmed content is `sent`.
     */
    method BeginSubmitComment(present: bool) returns (sent: Option<string>)
      modifies this
      ensures sent.Some? <==> present && JsTrim(old(draft)) != []
      ensures sent.Some? ==> sent.value == JsTrim(old(draft)) && submitDisabled && submitText == Publishing
      ensures sent.None? ==> submitDisabled == old(submitDisabled) && submitText == old(submitText)
      ensures buttonLabel == old(buttonLabel) && visible == old(visible) && list == old(list) && draft == old(draft)
    {
      var content := JsTrim(draft);
      sent := if present && content != [] then Some(content) else None;
      if sent.Some? {
        ShowPublishing();
      }
    }

    /** The comment button disabled and relabelled; nothing else changes. */
    method ShowPublishing()
      modifies this
      ensures submitDisabled && submitText == Publishing
      ensures buttonLabel == old(buttonLabel) && visible == old(visible) && list == old(list) && draft == old(draft)
    {
      submitDisabled := true;
      submitText := Publishing;
    }

    /**
     * The rest of `submitComment`: a posted comment clears the form, adds one
     * to the count the button shows and reloads the list; the button is
     * re-enabled with its label either way.
     */
    method FinishSubmitComment(posted: bool)
      modifies this
      ensures !submitDisabled && submitText == Publish
      ensures posted ==> draft == [] && buttonLabel == NextCountLabel(old(buttonLabel)) && list == CommentsLoading
      ensures !posted ==> draft == old(draft) && buttonLabel == old(buttonLabel) && list == old(list)
      ensures visible == old(visible)
    {
      if posted {
        draft := [];
        buttonLabel := NextCountLabel(buttonLabel);
        StartLoadComments();
      }
      submitDisabled := false;
      submitText := Publish;
    }
  }

  /** After a load, the count the button shows parses back from its label. */
  lemma LoadedLabelParses(t: CommentCache.Thread)
    ensures ParsedCount(CommentButtonLabel(LoadedCount(t))) == LoadedCount(t)
  {
    ParsedCountOfLabel(LoadedCount(t));
  }
}
