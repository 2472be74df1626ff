/**
 * The comment-thread cache of the comment enhancements script: two parallel
 * maps keyed by post id, one holding each thread's payload and one holding
 * the time it was loaded. The XHR interceptor serves a comment GET from the
 * cache when the entry is at most three minutes old; the script's own loader
 * uses the complementary expiry test, writes both maps on every successful
 * fetch, and a successful comment submission deletes both entries for that
 * post before forcing a reload.
 */
module CommentCache {
  import opened Text
  import opened Likes

  /** One comment of a thread payload; an empty `id` stands for a missing or falsy one. */
  datatype CommentData = CommentData(id: string, content: string, likes: Option<nat>)

  /**
   * A thread payload: its comments, `total || 0`, and the optional `cachedAt`
   * stamp in milliseconds that the status line reads.
   */
  datatype Thread = Thread(comments: seq<CommentData>, total: nat, cachedAt: Option<int>)

  const MinuteMs: int := 60000
  /** Three minutes: the age up to which the interceptor serves an entry. */
  const FreshWindowMs: int := 180000

  // ---- the freshness rules, on the two maps ----

  /** `_commentsLastLoaded[id] || 0`. */
  function Stamp(lastLoaded: map<string, int>, id: string): int
  {
    if id in lastLoaded then lastLoaded[id] else 0
  }

  /** The interceptor's test: an entry exists and its age is at most three minutes. */
  predicate FreshIn(data: map<string, Thread>, lastLoaded: map<string, int>, id: string, now: int)
  {
    id in data && now - Stamp(lastLoaded, id) <= FreshWindowMs
  }

  /** `isCacheExpired`: no truthy stamp, or an age above `minutes` minutes. */
  predicate ExpiredIn(lastLoaded: map<string, int>, id: string, now: int, minutes: nat)
  {
    Stamp(lastLoaded, id) == 0 || now - Stamp(lastLoaded, id) > minutes * MinuteMs
  }

  /** For a cached entry with a stamp, the two tests are complementary at the default of three minutes. */
  lemma FreshIffNotExpired(data: map<string, Thread>, lastLoaded: map<string, int>, id: string, now: int)
    requires id in data && Stamp(lastLoaded, id) != 0
    ensures FreshIn(data, lastLoaded, id, now) <==> !ExpiredIn(lastLoaded, id, now, 3)
  {
  }

  /** An entry without a stamp counts as loaded at time 0: stale for the interceptor at any real clock, expired for the loader. */
  lemma MissingStampStale(data: map<string, Thread>, lastLoaded: map<string, int>, id: string, now: int, minutes: nat)
    requires Stamp(lastLoaded, id) == 0 && now > FreshWindowMs
    ensures !FreshIn(data, lastLoaded, id, now) && ExpiredIn(lastLoaded, id, now, minutes)
  {
  }

  /** A write makes the entry fresh for exactly the next three minutes. */
  lemma PutFreshWindow(data: map<string, Thread>, lastLoaded: map<string, int>, id: string, payload: Thread, now: int, t: int)
    ensures FreshIn(data[id := payload], lastLoaded[id := now], id, t) <==> t <= now + FreshWindowMs
  {
  }

  /** After a delete the entry is neither fresh nor unexpired, at any time. */
  lemma InvalidateStale(data: map<string, Thread>, lastLoaded: map<string, int>, id: string, t: int, minutes: nat)
    ensures !FreshIn(data - {id}, lastLoaded - {id}, id, t)
    ensures ExpiredIn(lastLoaded - {id}, id, t, minutes)
  {
  }

  /** Writing or deleting one key leaves every other key's freshness and expiry as it was. */
  lemma OtherKeysUnaffected(data: map<string, Thread>, lastLoaded: map<string, int>, id: string, other: string,
                            payload: Thread, now: int, t: int, minutes: nat)
    requires other != id
    ensures FreshIn(data[id := payload], lastLoaded[id := now], other, t) == FreshIn(data, lastLoaded, other, t)
    ensures FreshIn(data - {id}, lastLoaded - {id}, other, t) == FreshIn(data, lastLoaded, other, t)
    ensures ExpiredIn(lastLoaded[id := now], other, t, minutes) == ExpiredIn(lastLoaded, other, t, minutes)
    ensures ExpiredIn(lastLoaded - {id}, other, t, minutes) == ExpiredIn(lastLoaded, other, t, minutes)
  {
  }

  /** `window._commentsCacheMap` and `window._commentsLastLoaded`. */
  class Cache {
    var data: map<string, Thread>
    var lastLoaded: map<string, int>

    constructor ()
      ensures data == map[] && lastLoaded == map[]
    {
      data := map[];
      lastLoaded := map[];
    }

    function Get(id: string): (r: Option<Thread>)
      reads this
      ensures r.Some? <==> id in data
      ensures r.Some? ==> r.value == data[id]
    {
      if id in data then Some(data[id]) else None
    }

    predicate IsFresh(id: string, now: int)
      reads this
      ensures IsFresh(id, now) ==> Get(id).Some?
    {
      FreshIn(data, lastLoaded, id, now)
    }

    predicate IsExpired(id: string, now: int, minutes: nat)
      reads this
      ensures id !in lastLoaded ==> IsExpired(id, now, minutes)
    {
      ExpiredIn(lastLoaded, id, now, minutes)
    }

    /** A successful load: both maps get the entry, the stamp being the time of the write. */
    method Put(id: string, payload: Thread, now: int)
      modifies this
      ensures data == old(data)[id := payload] && lastLoaded == old(lastLoaded)[id := now]
    {
      data := data[id := payload];
      lastLoaded := lastLoaded[id := now];
    }

    /** `delete` of the entry from both maps. */
    method Invalidate(id: string)
      modifies this
      ensures data == old(data) - {id} && lastLoaded == old(lastLoaded) - {id}
    {
      data := data - {id};
      lastLoaded := lastLoaded - {id};
    }

    /**
     * The write the interceptor's `onload` wrapper makes for a request it did
     * not serve: only for status 200 with a parsable, non-empty body, and only
     * while no comment submission is in progress.
     */
    method RecordResponse(plan: Plan, response: XhrResponse, submitting: bool, now: int)
      modifies this
      ensures Records(plan, response, submitting) ==>
        data == old(data)[plan.key := response.payload.value] && lastLoaded == old(lastLoaded)[plan.key := now]
      ensures !Records(plan, response, submitting) ==> data == old(data) && lastLoaded == old(lastLoaded)
    {
      if Records(plan, response, submitting) {
        Put(plan.key, response.payload.value, now);
      }
    }
  }

  // ---- the XHR interceptor ----

  /** Upper-casing of ASCII letters; no other character upper-cases to a letter of "GET". */
  function UpperChar(c: char): (u: char)
    ensures u == 'G' <==> c == 'G' || c == 'g'
    ensures u == 'E' <==> c == 'E' || c == 'e'
    ensures u == 'T' <==> c == 'T' || c == 't'
  {
    if 'a' <= c <= 'z' then (c as int - 32) as char else c
  }

  /** `toUpperCase`, character by character. */
  function AsciiUpper(s: string): (r: string)
    ensures |r| == |s| && forall i :: 0 <= i < |s| ==> r[i] == UpperChar(s[i])
  {
    if s == [] then [] else [UpperChar(s[0])] + AsciiUpper(s[1..])
  }

  lemma AsciiUpperGet(verb: string)
    ensures (|verb| == 3 && (verb[0] == 'G' || verb[0] == 'g') && (verb[1] == 'E' || verb[1] == 'e')
             && (verb[2] == 'T' || verb[2] == 't')) <==> AsciiUpper(verb) == "GET"
  {
    var u := AsciiUpper(verb);
    if |verb| == 3 && u != "GET" {
      assert u[0] != 'G' || u[1] != 'E' || u[2] != 'T';
    }
  }

  /** `method.toUpperCase() === 'GET'`: only the three letters, in either case, upper-case to it. */
  predicate IsGet(verb: string)
    ensures IsGet(verb) <==> AsciiUpper(verb) == "GET"
  {
    AsciiUpperGet(verb);
    |verb| == 3 && (verb[0] == 'G' || verb[0] == 'g') && (verb[1] == 'E' || verb[1] == 'e')
    && (verb[2] == 'T' || verb[2] == 't')
  }

  /** `url.includes('/comments')` and a GET. */
  predicate IsCommentRequest(verb: string, url: string)
    ensures IsCommentRequest(verb, url) <==>
      IsGet(verb) && exists i :: 0 <= i <= |url| && MatchesAt(url, "/comments", i)
  {
    ContainsIffMatch(url, "/comments");
    Contains(url, "/comments") && IsGet(verb)
  }

  /** Length of the run of characters other than `/` that starts `s`: what `[^\/]+` consumes. */
  function NonSlashRun(s: string): (k: nat)
    ensures k <= |s| && '/' !in s[..k]
    ensures k < |s| ==> s[k] == '/'
    decreases |s|
  {
    if s != [] && s[0] != '/' then
      var k := 1 + NonSlashRun(s[1..]);
      assert s[..k] == [s[0]] + s[1..][..k - 1];
      k
    else 0
  }

  /** `/\/posts\/([^\/]+)\/comments/` tried at the start of `s`; the capture, when it matches. */
  function PostIdAt(s: string): Option<string>
  {
    if StartsWith(s, "/posts/") then
      var rest := s[7..];
      var k := NonSlashRun(rest);
      if k > 0 && StartsWith(rest[k..], "/comments") then Some(rest[..k]) else None
    else None
  }

  /** `url.match(…)[1]`: the capture of the leftmost match. */
  function ExtractPostId(url: string): (r: Option<string>)
    ensures r.Some? ==> r.value != [] && '/' !in r.value
    decreases |url|
  {
    if url == [] then None
    else if PostIdAt(url).Some? then
      PostIdAtSound(url);
      PostIdAt(url)
    else ExtractPostId(url[1..])
  }

  /** A match at the front captures a non-empty run without `/` between "/posts/" and "/comments". */
  lemma PostIdAtSound(s: string)
    requires PostIdAt(s).Some?
    ensures var id := PostIdAt(s).value;
      id != [] && '/' !in id && MatchesAt(s, "/posts/" + id + "/comments", 0)
  {
    var id := PostIdAt(s).value;
    var rest := s[7..];
    var k := NonSlashRun(rest);
    assert id == rest[..k];
    assert s[..7] == "/posts/";
    assert rest[k..k + 9] == "/comments";
    assert s[..7 + k + 9] == "/posts/" + id + "/comments";
  }

  /** A match in the tail of a text is a match in the text, one place further on. */
  lemma MatchesAtShift(s: string, pat: string, i: nat)
    requires s != [] && MatchesAt(s[1..], pat, i)
    ensures MatchesAt(s, pat, i + 1)
  {
    assert s[i + 1..i + 1 + |pat|] == s[1..][i..i + |pat|];
  }

  /** An extracted id is a non-empty run without `/` that sits between "/posts/" and "/comments" at the leftmost such place. */
  lemma {:induction false} ExtractPostIdSound(url: string) returns (i: nat)
    requires ExtractPostId(url).Some?
    ensures var id := ExtractPostId(url).value;
      id != [] && '/' !in id && MatchesAt(url, "/posts/" + id + "/comments", i)
    ensures forall j :: 0 <= j < i ==> PostIdAt(url[j..]).None?
    decreases |url|
  {
    if PostIdAt(url).Some? {
      i := 0;
      PostIdAtSound(url);
    } else {
      var tail := url[1..];
      assert ExtractPostId(url) == ExtractPostId(tail);
      var i' := ExtractPostIdSound(tail);
      i := i' + 1;
      MatchesAtShift(url, "/posts/" + ExtractPostId(tail).value + "/comments", i');
      forall j | 0 <= j < i ensures PostIdAt(url[j..]).None? {
        if j > 0 {
          assert url[j..] == tail[j - 1..];
        }
      }
    }
  }

  /** The match tried at `s`, where `s` starts with a character that cannot begin it. */
  lemma ExtractSkipsChar(s: string)
    requires s != [] && s[0] != '/'
    ensures ExtractPostId(s) == ExtractPostId(s[1..])
  {
    NotStartsAt(s, "/posts/", 0);
  }

  /** A run without `/` in front of the URL cannot start a match, so the scan passes over it. */
  lemma {:induction false} ExtractSkipsRun(p: string, s: string)
    requires '/' !in p
    ensures ExtractPostId(p + s) == ExtractPostId(s)
    decreases |p|
  {
    if p != [] {
      ExtractSkipsChar(p + s);
      assert (p + s)[1..] == p[1..] + s;
      ExtractSkipsRun(p[1..], s);
    } else {
      assert p + s == s;
    }
  }

  /** The URL the client requests for a post's comments yields that post's id, whatever query follows. */
  lemma ExtractFromCommentsUrl(id: string, query: string)
    requires id != [] && '/' !in id
    ensures ExtractPostId("/api/posts/" + id + "/comments" + query) == Some(id)
  {
    var tail := "/posts/" + id + "/comments" + query;
    ApiPrefix(id, query);
    SkipApi(tail);
    ExtractCommentsPath(id, query);
  }

  lemma ApiPrefix(id: string, query: string)
    ensures "/api/posts/" + id + "/comments" + query == "/api" + ("/posts/" + id + "/comments" + query)
  {
  }

  lemma ExtractCommentsPath(id: string, query: string)
    requires id != [] && '/' !in id
    ensures ExtractPostId("/posts/" + id + "/comments" + query) == Some(id)
  {
    PostIdAtCommentsPath(id, query);
  }

  lemma SkipApi(tail: string)
    ensures ExtractPostId("/api" + tail) == ExtractPostId(tail)
  {
    var url := "/api" + tail;
    NotStartsAt(url, "/posts/", 1);
    assert url[1..] == "api" + tail;
    ExtractSkipsRun("api", tail);
  }

  /** The match at the start of a comments path captures the post id. */
  lemma PostIdAtCommentsPath(id: string, query: string)
    requires id != [] && '/' !in id
    ensures PostIdAt("/posts/" + id + "/comments" + query) == Some(id)
  {
    var tail := "/posts/" + id + "/comments" + query;
    var rest := id + ("/comments" + query);
    assert tail == "/posts/" + rest;
    StartsHere("/posts/", rest);
    NonSlashRunOf(id, "/comments" + query);
    StartsHere(id, "/comments" + query);
    StartsHere("/comments", query);
  }

  lemma {:induction false} NonSlashRunOf(a: string, b: string)
    requires '/' !in a && b != [] && b[0] == '/'
    ensures NonSlashRun(a + b) == |a|
    decreases |a|
  {
    if a == [] {
      assert a + b == b;
    } else {
      assert (a + b)[1..] == a[1..] + b;
      NonSlashRunOf(a[1..], b);
    }
  }

  /** What `send` will do with a request, as `open` decided it. */
  datatype Plan =
    | PassThrough            // not a comment request: untouched
    | Serve(postId: string)  // answered from the cache, no network
    | Record(key: string)    // sent, and its response written to the cache under `key`

  /** The key a comment GET whose post id could not be extracted is written under: JS coerces the missing id to this. */
  const UndefinedKey: string := "undefined"

  /** `open`: classifies the request and, for a comment GET with a post id, decides whether the cache answers it. */
  function OpenPlan(verb: string, url: string, forceRefresh: bool, submitting: bool,
                    data: map<string, Thread>, lastLoaded: map<string, int>, now: int): (r: Plan)
    ensures r.PassThrough? <==> !IsCommentRequest(verb, url)
    ensures r.Serve? ==> !forceRefresh && !submitting && FreshIn(data, lastLoaded, r.postId, now)
    ensures r.Serve? ==> ExtractPostId(url) == Some(r.postId)
    ensures r.Record? && ExtractPostId(url).Some? ==> r.key == ExtractPostId(url).value
  {
    if !IsCommentRequest(verb, url) then PassThrough
    else match ExtractPostId(url)
      case None => Record(UndefinedKey)
      case Some(id) =>
        if !forceRefresh && !submitting && FreshIn(data, lastLoaded, id, now) then Serve(id) else Record(id)
  }

  /** The cache answers exactly the comment GETs for a post whose entry is fresh, when neither flag is set. */
  lemma ServeIff(verb: string, url: string, forceRefresh: bool, submitting: bool,
                 data: map<string, Thread>, lastLoaded: map<string, int>, now: int, id: string)
    ensures OpenPlan(verb, url, forceRefresh, submitting, data, lastLoaded, now) == Serve(id) <==>
      (IsCommentRequest(verb, url) && ExtractPostId(url) == Some(id) && !forceRefresh && !submitting &&
       id in data && now - Stamp(lastLoaded, id) <= FreshWindowMs)
  {
  }

  /** Either flag sends every comment GET to the network. */
  lemma FlagsBypassCache(verb: string, url: string, forceRefresh: bool, submitting: bool,
                         data: map<string, Thread>, lastLoaded: map<string, int>, now: int)
    requires forceRefresh || submitting
    ensures !OpenPlan(verb, url, forceRefresh, submitting, data, lastLoaded, now).Serve?
  {
  }

  /** A comment GET without a recognisable post id is recorded under "undefined". */
  lemma UnmatchedUrlKey(verb: string, url: string, forceRefresh: bool, submitting: bool,
                        data: map<string, Thread>, lastLoaded: map<string, int>, now: int)
    requires IsCommentRequest(verb, url) && ExtractPostId(url).None?
    ensures OpenPlan(verb, url, forceRefresh, submitting, data, lastLoaded, now) == Record(UndefinedKey)
  {
  }

  /** A response as the `onload` wrapper sees it: its status, and its parsed body when the text is non-empty and parses. */
  datatype XhrResponse = XhrResponse(status: int, payload: Option<Thread>)

  /** Whether the wrapper writes: a recorded request, status 200, a parsed body, and no submission in progress. */
  predicate Records(plan: Plan, response: XhrResponse, submitting: bool)
  {
    plan.Record? && response.status == 200 && response.payload.Some? && !submitting
  }

  /** A request the cache answered writes nothing, so serving never refreshes an entry's stamp. */
  lemma ServedNeverRecords(postId: string, response: XhrResponse, submitting: bool)
    ensures !Records(Serve(postId), response, submitting)
  {
  }

  // ---- rendering ----

  /** One rendered comment: its id, content, the like count it is drawn with, and whether that is highlighted. */
  datatype Card = Card(id: string, content: string, likes: nat, highlighted: bool)

  /** What the comment list shows; `Blank` is the empty list a new section starts with. */
  datatype ListView =
    | Blank
    | Loading
    | NoComments
    | Cards(cards: seq<Card>)
    | Failed(message: string)

  /** `createCommentElement` for a comment with an id. */
  function CardFor(c: CommentData, liked: map<string, nat>): (r: Card)
    ensures r.id == c.id && r.content == c.content
    ensures r.highlighted ==> c.id in liked && r.likes == liked[c.id]
  {
    Card(c.id, c.content, LikeSeed(Stored(liked, c.id), c.likes), StartsHighlighted(Stored(liked, c.id)))
  }

  /** The cards of a comment list: comments without an id throw in `createCommentElement` and are skipped. */
  function CardsOf(cs: seq<CommentData>, liked: map<string, nat>): (cards: seq<Card>)
    ensures |cards| <= |cs|
    ensures forall j :: 0 <= j < |cards| ==> cards[j].id != []
  {
    if cs == [] then []
    else CardsOf(cs[..|cs| - 1], liked) + (if cs[|cs| - 1].id != [] then [CardFor(cs[|cs| - 1], liked)] else [])
  }

  /** `renderComments`: the empty-state message for no comments, otherwise the wrapper with the cards. */
  function RenderedList(t: Thread, liked: map<string, nat>): (r: ListView)
    ensures r == NoComments <==> t.comments == []
    ensures r.Cards? ==> |r.cards| <= |t.comments| && forall j :: 0 <= j < |r.cards| ==> r.cards[j].id != []
    ensures r.NoComments? || r.Cards?
  {
    if t.comments == [] then NoComments else Cards(CardsOf(t.comments, liked))
  }

  lemma {:induction false} CardsOfAppend(a: seq<CommentData>, b: seq<CommentData>, liked: map<string, nat>)
    ensures CardsOf(a + b, liked) == CardsOf(a, liked) + CardsOf(b, liked)
    decreases |b|
  {
    if b == [] {
      assert a + b == a;
    } else {
      var b' := b[..|b| - 1];
      assert (a + b)[..|a + b| - 1] == a + b';
      CardsOfAppend(a, b', liked);
    }
  }

  /** When every comment has an id, there is one card per comment, in payload order. */
  lemma {:induction false} CardsOfAllIds(cs: seq<CommentData>, liked: map<string, nat>)
    requires forall i :: 0 <= i < |cs| ==> cs[i].id != []
    ensures |CardsOf(cs, liked)| == |cs|
    ensures forall i :: 0 <= i < |cs| ==> CardsOf(cs, liked)[i] == CardFor(cs[i], liked)
    decreases |cs|
  {
    if cs != [] {
      CardsOfAllIds(cs[..|cs| - 1], liked);
    }
  }

  /** Comments without ids produce no cards. */
  lemma {:induction false} CardsOfNoIds(cs: seq<CommentData>, liked: map<string, nat>)
    requires forall i :: 0 <= i < |cs| ==> cs[i].id == []
    ensures CardsOf(cs, liked) == []
    decreases |cs|
  {
    if cs != [] {
      CardsOfNoIds(cs[..|cs| - 1], liked);
    }
  }

  /** The `forEach` that appends one element per comment, skipping those whose creation throws. */
  method RenderComments(t: Thread, liked: map<string, nat>) returns (view: ListView)
    ensures view == RenderedList(t, liked)
  {
    if t.comments == [] {
      return NoComments;
    }
    var cards: seq<Card> := [];
    var i := 0;
    while i < |t.comments|
      invariant 0 <= i <= |t.comments|
      invariant cards == CardsOf(t.comments[..i], liked)
    {
      var c := t.comments[i];
      assert t.comments[..i + 1][..i] == t.comments[..i];
      if c.id != [] {
        cards := cards + [CardFor(c, liked)];
      }
      i := i + 1;
    }
    assert t.comments[..i] == t.comments;
    view := Cards(cards);
  }

  // ---- the status line ----

  const JustUpdated: string := " · 刚刚更新"
  const MinutesNote: string := "分钟前更新"
  const HoursNote: string := "小时前更新"
  const DaysNote: string := "天前更新"

  /** The age note for an entry `diffMinutes` whole minutes old (rounded down, so a future stamp is "just now"). */
  function AgeNote(diffMinutes: int): (r: string)
    ensures StartsWith(r, " · ")
  {
    if diffMinutes < 1 then
      LeadsWith(" · ", "刚刚", "更新");
      assert JustUpdated == " · " + "刚刚" + "更新";
      JustUpdated
    else if diffMinutes < 60 then
      LeadsWith(" · ", NatToString(diffMinutes), MinutesNote);
      " · " + NatToString(diffMinutes) + MinutesNote
    else if diffMinutes / 60 < 24 then
      LeadsWith(" · ", NatToString(diffMinutes / 60), HoursNote);
      " · " + NatToString(diffMinutes / 60) + HoursNote
    else
      LeadsWith(" · ", NatToString(diffMinutes / 60 / 24), DaysNote);
      " · " + NatToString(diffMinutes / 60 / 24) + DaysNote
  }

  lemma LeadsWith(e: string, a: string, b: string)
    ensures StartsWith(e + a + b, e)
  {
    assert (e + a + b)[..|e|] == e;
  }

  /**
   * `updateCommentsStatus`: nothing for an uncached post; otherwise the
   * count, followed by the age of the payload's `cachedAt` stamp, or by
   * "just updated" right after a load.
   */
  function StatusText(cached: Option<Thread>, now: int, justLoaded: bool): (r: string)
    ensures r == [] <==> cached.None?
    ensures cached.Some? ==> StartsWith(r, NatToString(cached.value.total) + " 条评论")
  {
    if cached.None? then ""
    else
      var t := cached.value;
      var head := NatToString(t.total) + " 条评论";
      var stamped := t.cachedAt.Some? && t.cachedAt.value != 0;
      if stamped && !justLoaded then
        StartsHere(head, AgeNote((now - t.cachedAt.value) / MinuteMs));
        head + AgeNote((now - t.cachedAt.value) / MinuteMs)
      else if justLoaded then
        StartsHere(head, JustUpdated);
        head + JustUpdated
      else
        assert head[..|head|] == head;
        head
  }

  /** Where the age notes differ: the character before "前更新", or "刚刚" instead of "前". */
  lemma AgeNoteEnd(d: int)
    ensures |AgeNote(d)| >= 5
    ensures d < 1 ==> AgeNote(d)[|AgeNote(d)| - 3] == '刚'
    ensures 1 <= d < 60 ==> AgeNote(d)[|AgeNote(d)| - 3] == '前' && AgeNote(d)[|AgeNote(d)| - 4] == '钟'
    ensures 60 <= d < 1440 ==> AgeNote(d)[|AgeNote(d)| - 3] == '前' && AgeNote(d)[|AgeNote(d)| - 4] == '时'
    ensures d >= 1440 ==> AgeNote(d)[|AgeNote(d)| - 3] == '前' && AgeNote(d)[|AgeNote(d)| - 4] == '天'
  {
    var r := AgeNote(d);
    if 1 <= d < 60 {
      TailChar(" · " + NatToString(d), MinutesNote, 3);
      TailChar(" · " + NatToString(d), MinutesNote, 4);
    } else if 60 <= d < 1440 {
      TailChar(" · " + NatToString(d / 60), HoursNote, 3);
      TailChar(" · " + NatToString(d / 60), HoursNote, 4);
    } else if d >= 1440 {
      TailChar(" · " + NatToString(d / 60 / 24), DaysNote, 3);
      TailChar(" · " + NatToString(d / 60 / 24), DaysNote, 4);
    }
  }

  /** "k分钟前更新" exactly when the age is `k` whole minutes, under an hour. */
  lemma MinutesNoteIff(d: int, k: nat)
    ensures AgeNote(d) == " · " + NatToString(k) + MinutesNote <==> 1 <= d < 60 && d == k
  {
    var target := " · " + NatToString(k) + MinutesNote;
    AgeNoteEnd(d);
    TailChar(" · " + NatToString(k), MinutesNote, 3);
    TailChar(" · " + NatToString(k), MinutesNote, 4);
    if 1 <= d < 60 && AgeNote(d) == target {
      EmbeddedNatInjective(" · ", d, k, MinutesNote);
    }
  }

  /** "k小时前更新" exactly when the age is at least an hour and under a day, with `k` whole hours. */
  lemma HoursNoteIff(d: int, k: nat)
    ensures AgeNote(d) == " · " + NatToString(k) + HoursNote <==> 60 <= d < 1440 && d / 60 == k
  {
    var target := " · " + NatToString(k) + HoursNote;
    AgeNoteEnd(d);
    TailChar(" · " + NatToString(k), HoursNote, 3);
    TailChar(" · " + NatToString(k), HoursNote, 4);
    if 60 <= d < 1440 && AgeNote(d) == target {
      EmbeddedNatInjective(" · ", d / 60, k, HoursNote);
    }
  }

  /** "k天前更新" exactly when the age is at least a day, with `k` whole days. */
  lemma DaysNoteIff(d: int, k: nat)
    ensures AgeNote(d) == " · " + NatToString(k) + DaysNote <==> d >= 1440 && d / 1440 == k
  {
    var target := " · " + NatToString(k) + DaysNote;
    AgeNoteEnd(d);
    TailChar(" · " + NatToString(k), DaysNote, 3);
    TailChar(" · " + NatToString(k), DaysNote, 4);
    if d >= 1440 {
      assert d / 60 / 24 == d / 1440;
      if AgeNote(d) == target {
        EmbeddedNatInjective(" · ", d / 1440, k, DaysNote);
      }
    }
  }

  /** "刚刚更新" exactly when less than a minute has passed. */
  lemma JustUpdatedIff(d: int)
    ensures AgeNote(d) == JustUpdated <==> d < 1
  {
    AgeNoteEnd(d);
    var r := AgeNote(d);
    assert JustUpdated[|JustUpdated| - 3] == '刚';
  }

  // ---- the loader and the comment form ----

  /** A post's comment section and its count badge. */
  class PostPane {
    var count: nat
    var draft: string
    var submitDisabled: bool
    var submitText: string
    var list: ListView
    var status: string

    constructor (count: nat)
      ensures this.count == count && draft == [] && !submitDisabled && submitText == ReplyLabel
      ensures list == Blank && status == []
    {
      this.count := count;
      draft := [];
      submitDisabled := false;
      submitText := ReplyLabel;
      list := Blank;
      status := [];
    }
  }

  const ReplyLabel: string := "回复"
  const SubmittingLabel: string := "提交中..."
  const LoadingStatus: string := "正在加载评论..."
  const FailedStatus: string := "加载失败"

  /** The outcome of the comment-list fetch. */
  datatype FetchResult =
    | Fetched(thread: Thread)
    | HttpFailure(status: int)
    | NetworkFailure(message: string)

  /**
   * What the error view shows for a failed fetch: the thrown error's
   * message, or "加载失败" in place of an empty one.
   */
  function FailureMessage(r: FetchResult): (m: string)
    requires !r.Fetched?
    ensures m != []
    ensures r.NetworkFailure? && r.message != [] ==> m == r.message
  {
    match r
    case HttpFailure(s) => "服务器错误: " + IntToString(s)
    case NetworkFailure(m) => if m == [] then FailedStatus else m
  }

  /**
   * The synchronous part of `loadComments`, up to the fetch: an unexpired
   * entry is rendered with no request, unless a refresh is forced; otherwise
   * the list shows the loading state and a fetch starts (`fetching`).
   */
  method StartLoad(cache: Cache, pane: PostPane, postId: string, forceRefresh: bool, now: int, liked: map<string, nat>)
    returns (fetching: bool)
    modifies pane
    ensures fetching <==> forceRefresh || postId !in cache.data || cache.IsExpired(postId, now, 3)
    ensures !fetching ==>
      pane.list == RenderedList(cache.data[postId], liked) &&
      pane.status == StatusText(Some(cache.data[postId]), now, false)
    ensures fetching ==> pane.list == Loading && pane.status == LoadingStatus
    ensures pane.count == old(pane.count) && pane.draft == old(pane.draft)
    ensures pane.submitDisabled == old(pane.submitDisabled) && pane.submitText == old(pane.submitText)
  {
    pane.status := LoadingStatus;
    if !forceRefresh && postId in cache.data && !cache.IsExpired(postId, now, 3) {
      pane.list := RenderComments(cache.data[postId], liked);
      pane.status := StatusText(Some(cache.data[postId]), now, false);
      return false;
    }
    pane.list := Loading;
    return true;
  }

  /**
   * The rest of `loadComments`, once the fetch settles: a payload is written
   * to both maps under the post id, rendered, and its total shown on the
   * badge; a failure shows the error and leaves the cache alone.
   */
  method FinishLoad(cache: Cache, pane: PostPane, postId: string, result: FetchResult, now: int, liked: map<string, nat>)
    modifies cache, pane
    ensures result.Fetched? ==>
      cache.data == old(cache.data)[postId := result.thread] &&
      cache.lastLoaded == old(cache.lastLoaded)[postId := now] &&
      pane.list == RenderedList(result.thread, liked) && pane.count == result.thread.total &&
      pane.status == StatusText(Some(result.thread), now, true)
    ensures !result.Fetched? ==>
      cache.data == old(cache.data) && cache.lastLoaded == old(cache.lastLoaded) &&
      pane.list == Failed(FailureMessage(result)) && pane.status == FailedStatus && pane.count == old(pane.count)
    ensures pane.draft == old(pane.draft)
    ensures pane.submitDisabled == old(pane.submitDisabled) && pane.submitText == old(pane.submitText)
  {
    if result.Fetched? {
      cache.Put(postId, result.thread, now);
      pane.list := RenderComments(result.thread, liked);
      pane.count := result.thread.total;
      pane.status := StatusText(cache.Get(postId), now, true);
    } else {
      pane.list := Failed(FailureMessage(result));
      pane.status := FailedStatus;
    }
  }

  /** Right after a successful load the status reads "N 条评论 · 刚刚更新". */
  lemma StatusAfterLoad(t: Thread, now: int)
    ensures StatusText(Some(t), now, true) == NatToString(t.total) + " 条评论" + JustUpdated
  {
  }

  /** The count badge after a successful submission: its text read back with `parseInt`, plus one. */
  function CountAfterSubmit(count: nat): (r: nat)
    ensures r == count + 1
  {
    assert NatToString(count) + [] == NatToString(count);
    ParseIntOfNat(count, []);
    ParseInt(NatToString(count)).value + 1
  }

  /**
   * The synchronous part of `submitComment`: nothing happens without a post
   * id, content and the form's elements (`present`); otherwise the button is
   * disabled and relabelled while the request is out.
   */
  method BeginSubmit(pane: PostPane, postId: string, content: string, present: bool) returns (started: bool)
    modifies pane
    ensures started <==> postId != [] && content != [] && present
    ensures started ==> pane.submitDisabled && pane.submitText == SubmittingLabel
    ensures !started ==> pane.submitDisabled == old(pane.submitDisabled) && pane.submitText == old(pane.submitText)
    ensures pane.count == old(pane.count) && pane.draft == old(pane.draft)
    ensures pane.list == old(pane.list) && pane.status == old(pane.status)
  {
    if postId == [] || content == [] || !present {
      return false;
    }
    pane.submitDisabled := true;
    pane.submitText := SubmittingLabel;
    return true;
  }

  /**
   * The rest of `submitComment`, once the POST settles. On success the form
   * is cleared, both cache entries of this post are deleted, a forced reload
   * starts and the badge goes up by one; on failure nothing but the button
   * changes. Either way the button ends enabled and labelled "回复".
   */
  method FinishSubmit(cache: Cache, pane: PostPane, postId: string, posted: bool, now: int, liked: map<string, nat>)
    modifies cache, pane
    ensures !pane.submitDisabled && pane.submitText == ReplyLabel
    ensures posted ==>
      pane.draft == [] &&
      cache.data == old(cache.data) - {postId} && cache.lastLoaded == old(cache.lastLoaded) - {postId} &&
      pane.list == Loading && pane.status == LoadingStatus &&
      pane.count == old(pane.count) + 1
    ensures !posted ==>
      pane.draft == old(pane.draft) && cache.data == old(cache.data) && cache.lastLoaded == old(cache.lastLoaded) &&
      pane.list == old(pane.list) && pane.status == old(pane.status) && pane.count == old(pane.count)
  {
    if posted {
      pane.draft := [];
      cache.Invalidate(postId);
      ghost var d := cache.data;
      ghost var l := cache.lastLoaded;
      var fetching := StartLoad(cache, pane, postId, true, now, liked);
      assert fetching;
      assert pane.list == Loading && pane.status == LoadingStatus;
      assert cache.data == d && cache.lastLoaded == l;
      assert pane.count == old(pane.count) && pane.draft == [];
      var next := CountAfterSubmit(pane.count);
      pane.count := next;
    }
    pane.submitDisabled := false;
    pane.submitText := ReplyLabel;
  }

  // ---- the status update as written ----

  /** The error a read of an undeclared name raises: `commentsCache` is declared in no scope this script sees. */
  const UndeclaredCacheError: string := "commentsCache is not defined"

  /**
   * What a load that found an unexpired entry leaves on screen as written:
   * the cards are drawn, then the status update throws outside the `try`, so
   * the status keeps saying that comments are loading.
   */
  function ServeFromCacheAsWritten(t: Thread, liked: map<string, nat>): (v: (ListView, string))
    ensures v.0 == RenderedList(t, liked) && v.1 == LoadingStatus
    ensures !StartsWith(v.1, NatToString(t.total) + " 条评论")
  {
    var counted := NatToString(t.total) + " 条评论";
    assert IsDigit(counted[0]) && !IsDigit(LoadingStatus[0]);
    (RenderedList(t, liked), LoadingStatus)
  }

  /**
   * What a settled fetch leaves on screen as written, for a section with a
   * status element: list, badge, status. After a payload the cache is written
   * and the badge updated, but the status update throws inside the `try`, and
   * the `catch` replaces the drawn list with the error view.
   */
  function FinishLoadAsWritten(result: FetchResult, count: nat): (v: (ListView, nat, string))
    ensures v.0.Failed? && v.2 == FailedStatus
    ensures result.Fetched? ==> v.0.message == UndeclaredCacheError && v.1 == result.thread.total
    ensures !result.Fetched? ==> v.0.message == FailureMessage(result) && v.1 == count
  {
    if result.Fetched? then (Failed(UndeclaredCacheError), result.thread.total, FailedStatus)
    else (Failed(FailureMessage(result)), count, FailedStatus)
  }

  /** As written, a successful fetch never shows its comments: the list differs from what `FinishLoad` draws. */
  lemma FetchShowsErrorAsWritten(t: Thread, count: nat, liked: map<string, nat>)
    ensures FinishLoadAsWritten(Fetched(t), count).0 != RenderedList(t, liked)
  {
  }

  /** As written, a load served from the cache never shows its status: it differs from what `StartLoad` writes. */
  lemma CachedStatusStuckAsWritten(t: Thread, now: int, liked: map<string, nat>)
    ensures ServeFromCacheAsWritten(t, liked).1 != StatusText(Some(t), now, false)
  {
    var r := StatusText(Some(t), now, false);
    assert IsDigit(r[0]) by {
      assert r[..|NatToString(t.total)|] == NatToString(t.total);
    }
    assert !IsDigit(LoadingStatus[0]);
  }

  /** After a submission deletes an entry, the next load fetches even without forcing, and so does the interceptor. */
  lemma SubmittedEntryRefetched(data: map<string, Thread>, lastLoaded: map<string, int>, postId: string, t: int)
    ensures postId !in data - {postId}
    ensures !FreshIn(data - {postId}, lastLoaded - {postId}, postId, t)
  {
  }
}
