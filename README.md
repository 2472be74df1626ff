# Anonymous feed ("tree hole"): server text transforms and browser scripts

This project models the core of an anonymous posting board in Dafny. Visitors
publish short posts, and others comment on them and "like" the comments. The
model covers two halves of that system.

- **Server side (Rust).**
  - The error type and the HTTP response it turns into.
  - The HTML sanitizer and the SQL-fragment stripper.
  - The sensitive-word filter: loading the word list, reloading it, and
    masking the words in a text.
- **Browser side (JavaScript).**
  - The error-listener registry and its error factories.
  - The date formatter and HTML escaper.
  - The comment cache shared by the comment scripts: the request
    interceptor and the fallback loader with its status line.
  - Comment rendering, and likes kept in local storage.
  - The two feed scripts: post cards, the long-content toggle, both
    pagination layouts, the comment section toggle, and post and comment
    submission.

Pure transforms are Dafny functions with lemmas. Code that changes state in
place is a `class` whose methods carry `modifies` clauses:

- the listener registry, the word filter and the two cache maps;
- the like button and the like store;
- the post pane, comment panel and pager;
- the application's page state.

Each such method is proved against a specification function, such as
`RenderedList`, `WindowItems`, `FullItems`, `WordsOf`, `ApplyWords` or
`Dispatch`. The properties the code relies on are then proved about that
function.

Shared conventions:

- **Missing values.** An empty `id` stands for a missing or falsy id. A
  missing count is 0. An `Option` stands for anything the code tests for
  presence.
- **Inputs from outside.** Network results, file contents and the clock
  (`now`, in milliseconds) are parameters.
- **Asynchronous flows.** Each one is split into the synchronous part that
  starts it (`Start…`/`Begin…`) and the continuation that runs when the
  response arrives (`Finish…`).
- **Overlap.** The sanitizer's proofs rest on `Overlap.Apart(q, r)`: no
  occurrence of `q` can share a character position with an occurrence of
  `r`. The rows below say "cannot overlap" for it. `SanitizeExamples`
  holds the source's own sanitizer tests, and `SanitizeCases` the general
  lemmas behind them.

## Model

| member | source | states |
|---|---|---|
| AppErrors.Describe | src/utils/error.rs:11-23 | the display text ends with the text the variant carries, after a non-empty category prefix |
| AppErrors.IntoResponse | src/utils/error.rs:25-39 | the body is an object with the single field `error`; the status is 400, 404 or 500; the display text is the category prefix followed by the body's message |
| AppErrors.ServerErrorIff | src/utils/error.rs:28-31 | status 500 exactly for database and internal errors |
| AppErrors.ClientErrorIff | src/utils/error.rs:29-30 | status 404 exactly for `NotFound`, 400 exactly for `BadRequest` |
| AppErrors.RecoverIntoResponse | src/utils/error.rs:27-36 | status and message give back the error, with a database error read as an internal one |
| AppErrors.DatabaseLooksInternal | src/utils/error.rs:28-31 | a database error and an internal error with the same text give identical responses |
| AppErrors.IntoResponseInjective | src/utils/error.rs:27-36 | equal responses mean equal messages, and equal errors apart from that one case |
| Sanitize.ContentRulesFacts | src/utils/sanitize.rs:28-47 | the sixteen replacements have non-empty patterns, none writes a newline, and none shortens what it replaces |
| Sanitize.DbRulesFacts | src/utils/sanitize.rs:70-75 | the five deletions have non-empty patterns, do not lengthen, and never write `;` |
| Sanitize.ApplyRulesAbsent | src/utils/sanitize.rs:28-47 | a chain of replace-alls leaves text holding none of its patterns unchanged |
| Sanitize.ApplyRulesKeepsAbsent | src/utils/sanitize.rs:28-47 | a character absent from the text and from every replacement is absent afterwards |
| Sanitize.ApplyRulesNoLonger | src/utils/sanitize.rs:70-75 | rules whose replacements are no longer than their patterns never lengthen the text |
| Sanitize.ApplyRulesNoShorter | src/utils/sanitize.rs:28-47 | rules whose replacements are no shorter than their patterns never shorten the text |
| Sanitize.ApplyRulesRemoves | src/utils/sanitize.rs:28-47 | a rule's pattern is absent after the chain when no later replacement can overlap it |
| Sanitize.ApplyRulesKeepsOut | src/utils/sanitize.rs:28-47 | a text absent from the input, which no replacement can overlap, stays absent |
| Sanitize.ApplyRulesKeeps | src/utils/sanitize.rs:28-47 | a text that no pattern can overlap survives the whole chain |
| Sanitize.ApplyRulesShows | src/utils/sanitize.rs:28-47 | where rule `k`'s pattern occurs inside a text that no earlier pattern overlaps, rule `k`'s replacement appears, when no later pattern can overlap it |
| Sanitize.SanitizeContent | src/utils/sanitize.rs:15-51 | the output holds none of the seven element openings and none of the six ` on…=` handler attributes that the replacements target |
| Sanitize.ContentChainDefuses | src/utils/sanitize.rs:28-47 | the sixteen replacements are well formed, and after them no element pattern and no handler pattern occurs, whatever the text |
| Sanitize.SanitizeContentDefused | src/utils/sanitize.rs:29-47 | spelled out: no "<script", "</script", "<iframe", "</iframe", "<object", "<embed", "<base", " onerror=", " onload=", " onclick=", " onmouseover=", " onfocus=" or " onblur=" is left |
| Sanitize.SanitizeContentNoNewline | src/utils/sanitize.rs:15-51 | `sanitize_content` output holds no newline |
| Sanitize.SanitizeContentNoShorter | src/utils/sanitize.rs:15-51 | `sanitize_content` never shortens its input |
| Sanitize.SanitizeContentIdentity | src/utils/sanitize.rs:100-104 | content with no newline and no listed pattern comes back unchanged (the SQL text of the test) |
| SanitizeCases.ShowsEscapedScript | src/utils/sanitize.rs:29 | content holding "<script" shows "&lt;script" |
| SanitizeCases.ShowsBreak | src/utils/sanitize.rs:22 | content holding a newline shows "<br>" |
| SanitizeCases.KeepsBold | src/utils/sanitize.rs:96-98 | "<b>bold</b>" survives sanitizing |
| SanitizeCases.KeepsDiv | src/utils/sanitize.rs:112-113 | "<div>" survives sanitizing |
| SanitizeCases.KeepsAlert | src/utils/sanitize.rs:85-88 | "alert" survives sanitizing |
| SanitizeCases.ShowsRenamedOnerror | src/utils/sanitize.rs:42 | content holding " onerror=" shows " data-blocked-onerror=" |
| SanitizeCases.ShowsBlockedJavascript | src/utils/sanitize.rs:39 | content holding "javascript:" shows "blocked-javascript:" |
| SanitizeCases.ShowsBlockedData | src/utils/sanitize.rs:40 | content holding "data:" right after a `"` shows "blocked-data:" |
| SanitizeExamples.ScriptAlertExample | src/utils/sanitize.rs:85-88 | the script test's output contains "&lt;script" and "alert" |
| SanitizeExamples.LineBreakExample | src/utils/sanitize.rs:91-93 | the line-break test's output contains "<br>" |
| SanitizeExamples.FormattingExample | src/utils/sanitize.rs:96-98 | the formatting test's output contains "<b>bold</b>" |
| SanitizeExamples.SqlExample | src/utils/sanitize.rs:101-104 | the SQL test's text comes back exactly as it went in |
| SanitizeExamples.OnerrorExample | src/utils/sanitize.rs:107-109 | the event-handler test's output contains " data-blocked-onerror=" |
| SanitizeExamples.ScriptInDivExample | src/utils/sanitize.rs:112-114 | the script-in-div test's output contains "<div>" and "&lt;script" |
| SanitizeExamples.JavascriptLinkExample | src/utils/sanitize.rs:117-118 | the link test's output contains "blocked-javascript:" |
| SanitizeExamples.DataUriExample | src/utils/sanitize.rs:121-122 | the data-URI test's output contains "blocked-data:" |
| Overlap.ReplaceAllRemoves | src/utils/sanitize.rs:28-47 | after replacing a pattern by a text that cannot overlap it, the pattern no longer occurs |
| Overlap.ReplaceAllKeepsOut | src/utils/sanitize.rs:28-47 | a text absent from the input, which cannot overlap the replacement, is still absent after a replace-all |
| Overlap.ReplaceAllKeeps | src/utils/sanitize.rs:28-47 | a text the pattern cannot overlap survives a replace-all |
| Overlap.ReplaceAllWrites | src/utils/sanitize.rs:28-47 | where the pattern occurs, its replacement appears in the output |
| Overlap.ReplaceAllCopies | src/utils/sanitize.rs:28-47 | the characters before the first occurrence pass through unchanged |
| Sanitize.SanitizeForDb | src/utils/sanitize.rs:63-76 | `sanitize_for_db` output holds no `;` and is no longer than the trimmed input |
| SensitiveFilter.WordsOfIff | src/utils/filter.rs:28-36 | a word is loaded exactly when some line, once trimmed, is that word, non-empty and not a `#` comment |
| SensitiveFilter.WordsOfWitness | src/utils/filter.rs:29-35 | every loaded word comes from a line that yields it |
| SensitiveFilter.WordsOfHas | src/utils/filter.rs:31-34 | every word line contributes its trimmed text |
| SensitiveFilter.WordsOfShape | src/utils/filter.rs:33 | every loaded word is non-empty and does not start with `#` |
| SensitiveFilter.LoadSensitiveWords | src/utils/filter.rs:23-39 | the loop over the lines builds exactly `WordsOf(lines)` |
| SensitiveFilter.Mask | src/utils/filter.rs:76-78 | one word's masking keeps the text's length |
| SensitiveFilter.ApplyWords | src/utils/filter.rs:75-81 | applying the words in order keeps the text's length |
| SensitiveFilter.FoundWords | src/utils/filter.rs:75-81 | the reported words are at most as many as the listed ones, and each is listed |
| SensitiveFilter.LongestExists | src/utils/filter.rs:72-73 | a non-empty word set has a word at least as long as any other, so a longest-first order exists |
| SensitiveFilter.EnumeratesNonEmpty | src/utils/filter.rs:72 | an order listing the stored words has no empty word |
| SensitiveFilter.SortLongestFirst | src/utils/filter.rs:72-73 | the stored words, each exactly once, ordered by non-increasing character count |
| SensitiveFilter.WordFilter.constructor | src/utils/filter.rs:8-17 | the first use holds the file's words, or the empty set when the file cannot be read |
| SensitiveFilter.WordFilter.Reload | src/utils/filter.rs:45-54 | a readable file replaces the whole set and returns its size; an unreadable one changes nothing and returns an error |
| SensitiveFilter.WordFilter.Filter | src/utils/filter.rs:63-89 | the words are visited once each, longest character count first; the result is `ApplyWords` over that order and the reported words are `FoundWords` |
| SensitiveFilter.ApplyWordsAppend | src/utils/filter.rs:75-81 | applying `a` then `b` is applying `a + b` |
| SensitiveFilter.ApplyWordsAbsent | src/utils/filter.rs:76 | text holding no listed word is unchanged and nothing is reported |
| SensitiveFilter.NothingFoundNothingChanged | src/utils/filter.rs:75-81 | when nothing is reported, the text is unchanged |
| SensitiveFilter.MaskKeepsAbsent | src/utils/filter.rs:77-78 | masking cannot create an occurrence of a word without `*` |
| SensitiveFilter.MaskRemovesWord | src/utils/filter.rs:77-78 | after a word without `*` is masked it no longer occurs |
| SensitiveFilter.ApplyWordsRemovesAll | src/utils/filter.rs:75-81 | when no word contains `*`, the filtered text contains none of the words |
| SensitiveFilter.LoadTest | src/utils/filter.rs:104-116 | the test file's six lines yield exactly the three words |
| SensitiveFilter.TestWordsLoaded | src/utils/filter.rs:137 | the filtering test's file yields its five words |
| SensitiveFilter.TestOrderStart | src/utils/filter.rs:70-73 | every longest-first order of the test words starts with the four-character word |
| SensitiveFilter.FilterTestLongestFirst | src/utils/filter.rs:152-156 | for every longest-first order, the longer word is masked before its prefix, giving the expected text |
| SensitiveFilter.FilterTestRepeated | src/utils/filter.rs:150 | three back-to-back occurrences are all masked |
| SensitiveFilter.FilterTestClean | src/utils/filter.rs:141 | clean text passes unchanged and nothing is reported |
| SensitiveFilter.OverlapTestUnsatisfiable | src/utils/filter.rs:166-168 | no order of any word list turns the test input into the expected text, which is one character shorter |
| ErrorRegistry.OrDefault | static/assets/js/error-handler.js:104 | a present non-empty string wins, otherwise the fallback (JavaScript `or` on strings) |
| ErrorRegistry.CreateNetworkError | static/assets/js/error-handler.js:101-108 | a network error with the given time, and the message or its default |
| ErrorRegistry.CreateApiError | static/assets/js/error-handler.js:111-120 | an API error carrying status and body; the body's non-empty message, otherwise a text naming the status |
| ErrorRegistry.CreateValidationError | static/assets/js/error-handler.js:123-130 | a validation error with the given field errors or `{}`, and the message or its default |
| ErrorRegistry.ApiDefaultInjective | static/assets/js/error-handler.js:116 | two default API messages are equal only for equal statuses |
| ErrorRegistry.Without | static/assets/js/error-handler.js:57-59 | filtering never lengthens the list |
| ErrorRegistry.WithoutAppend | static/assets/js/error-handler.js:57-59 | filtering keeps the order of the remaining listeners |
| ErrorRegistry.WithoutMembers | static/assets/js/error-handler.js:57-59 | a listener survives exactly when it was listed and is not the one removed |
| ErrorRegistry.WithoutAbsent | static/assets/js/error-handler.js:57-59 | removing an unlisted listener changes nothing |
| ErrorRegistry.OffUndoesOn | static/assets/js/error-handler.js:46-61 | registering a new listener and removing it restores the list |
| ErrorRegistry.FirstHandler | static/assets/js/error-handler.js:75-80 | the position of the first listener answering `true`, everyone before it answering otherwise |
| ErrorRegistry.FirstHandlerIs | static/assets/js/error-handler.js:75-80 | that position is unique |
| ErrorRegistry.Lookup | static/assets/js/error-handler.js:72 | a non-empty answer is the registered list of that type; a missing type gives `[]` |
| ErrorRegistry.Scan | static/assets/js/error-handler.js:75-80 | the calls are a prefix of the list; a handled walk ends on a listener answering `true`, an unhandled one calls everyone |
| ErrorRegistry.ScanIff | static/assets/js/error-handler.js:75-80 | a walk stops exactly when some listener answers `true`; it calls everyone up to that one, or everyone |
| ErrorRegistry.HandledIff | static/assets/js/error-handler.js:65-98 | `handleError` returns true exactly when a listener of the error's type, or else an UNKNOWN listener, answers `true` |
| ErrorRegistry.Dispatch | static/assets/js/error-handler.js:65-98 | every typed listener is called unless one handled the error; a handled error ends on a listener answering `true`; the global handler runs only for an unhandled one |
| ErrorRegistry.GlobalIff | static/assets/js/error-handler.js:93-95 | the global handler runs exactly when it is set and nobody handled the error |
| ErrorRegistry.UnknownWalkedTwice | static/assets/js/error-handler.js:72-90 | an unhandled UNKNOWN error walks the UNKNOWN list twice |
| ErrorRegistry.TypedHandlerStops | static/assets/js/error-handler.js:75-80 | a typed listener answering `true` stops dispatch: later listeners, the UNKNOWN list and the global handler do not run |
| ErrorRegistry.RunListeners | static/assets/js/error-handler.js:75-80 | the loop's flag and calls are those of `Scan` |
| ErrorRegistry.ErrorHandler.constructor | static/assets/js/error-handler.js:19-22 | the registry starts empty |
| ErrorRegistry.ErrorHandler.On | static/assets/js/error-handler.js:46-52 | appends to the type's list, creating it when missing; other types stay as they were |
| ErrorRegistry.ErrorHandler.Off | static/assets/js/error-handler.js:55-61 | filters the listener out of an existing list; an unknown type is left alone |
| ErrorRegistry.ErrorHandler.HandleError | static/assets/js/error-handler.js:65-98 | the flag, the listener calls and the global call are those of `Dispatch` |
| HtmlUtils.HtmlRulesFacts | static/assets/js/utils.js:37-42 | the five replacements each replace one character and never shorten |
| HtmlUtils.EscapeChar | static/assets/js/utils.js:37-42 | a character's escape is non-empty and starts with `&` exactly for the five special characters |
| HtmlUtils.ChainIsPerChar | static/assets/js/utils.js:37-42 | the chain of replace-alls, `&` first, equals escaping character by character |
| HtmlUtils.EscapeHtml | static/assets/js/utils.js:35-43 | a missing argument gives `""`; otherwise the text escaped character by character |
| HtmlUtils.EscapeHtmlNoRawSpecials | static/assets/js/utils.js:35-43 | the output holds no raw `<`, `>`, `"` or `'` |
| HtmlUtils.EscapeHtmlFalsy | static/assets/js/utils.js:36 | a missing or empty argument gives the empty string |
| HtmlUtils.EscapeHtmlIdentity | static/assets/js/utils.js:37-42 | text without special characters comes back unchanged |
| HtmlUtils.EscapeHtmlNoShorter | static/assets/js/utils.js:37-42 | escaping never shortens |
| HtmlUtils.Unescape | static/assets/js/utils.js:37-42 | the inverse transform never lengthens |
| HtmlUtils.UnescapeEscape | static/assets/js/utils.js:35-43 | unescaping the escape gives back the original text |
| HtmlUtils.AbsoluteShape | static/assets/js/utils.js:25-30 | an ordinary local time renders as sixteen characters `YYYY-MM-DD HH:mm` |
| HtmlUtils.FormatDate | static/assets/js/utils.js:6-32 | the result is never empty |
| HtmlUtils.UnknownIff | static/assets/js/utils.js:7-10 | "未知时间" exactly for a missing or unparsable date |
| HtmlUtils.JustNowIff | static/assets/js/utils.js:15-16 | "刚刚" exactly when under 60 seconds have passed, future dates included |
| HtmlUtils.MinutesAgoIff | static/assets/js/utils.js:17-18 | "k 分钟前" exactly for ages under an hour with `k` whole minutes; then 1 <= k <= 59 |
| HtmlUtils.HoursAgoIff | static/assets/js/utils.js:19-20 | "k 小时前" exactly for ages under a day with `k` whole hours; then 1 <= k <= 23 |
| HtmlUtils.DaysAgoIff | static/assets/js/utils.js:21-22 | "k 天前" exactly for ages under 30 days with `k` whole days; then 1 <= k <= 29 |
| HtmlUtils.AbsoluteIff | static/assets/js/utils.js:23-31 | the absolute date exactly from 30 days on |
| Likes.RemoveFirst | static/assets/js/comment-enhancements.js:528 | string `replace` drops the first occurrence of the character and keeps the rest in order; without one, the text is unchanged |
| Likes.ReadLikes | static/assets/js/comment-enhancements.js:528 | a label that is only the thumb and whitespace falls back to "0" and reads as 0 |
| Likes.ParseZero | static/assets/js/comment-enhancements.js:528 | the fallback text "0" parses as 0 |
| Likes.ReadLikesOfLabel | static/assets/js/comment-enhancements.js:528 | the label the counter writes parses back to its count |
| Likes.NextLikes | static/assets/js/comment-enhancements.js:528-531 | a click shows the count read from the label plus one |
| Likes.LikeSeed | static/assets/js/comment-enhancements.js:379 | a truthy saved count wins; otherwise the comment count, or 0 when it is missing; 0 only when neither is truthy |
| Likes.SeedFromSaved | static/assets/js/comment-enhancements.js:379-385 | with positive saved counts, a comment starts highlighted exactly when a count is saved, and shows that count |
| Likes.LikeStore.constructor | static/assets/js/comment-enhancements.js:539 | the store holds the saved map |
| Likes.LikeButton.constructor | static/assets/js/comment-enhancements.js:379-385 | a button shows the seed count and is highlighted on a truthy saved count |
| Likes.LikeComment | static/assets/js/comment-enhancements.js:518-556 | a missing id or a disabled button changes nothing; otherwise the button is disabled and highlighted, shows one more, and the store saves that count |
| Likes.Reenable | static/assets/js/comment-enhancements.js:552-554 | the timer re-enables the button and changes nothing else |
| Likes.RedrawAfterLike | static/assets/js/main.js:413-419 | redrawing after a like shows the liked count, highlighted |
| Likes.LikeIsLocal | static/assets/js/main.js:516-518 | a like leaves every other comment's saved count and first drawing alone |
| CommentCache.FreshIffNotExpired | static/assets/js/comment-enhancements.js:247-256 | for a stamped entry, the interceptor's freshness and the loader's expiry test are complementary at three minutes |
| CommentCache.MissingStampStale | static/assets/js/comment-enhancements.js:30-33 | an unstamped entry is stale for the interceptor at any real clock, and expired for the loader |
| CommentCache.Cache.IsFresh | static/assets/js/comment-enhancements.js:29-33 | a fresh post has a cached entry |
| CommentCache.Cache.IsExpired | static/assets/js/comment-enhancements.js:248-256 | a post never stamped is expired |
| CommentCache.PutFreshWindow | static/assets/js/comment-enhancements.js:96-97 | a write makes the entry fresh for exactly the next 180000 ms |
| CommentCache.InvalidateStale | static/assets/js/comment-enhancements.js:487-492 | after a delete the entry is neither fresh nor unexpired |
| CommentCache.OtherKeysUnaffected | static/assets/js/comment-enhancements.js:96-97 | a write or delete of one key leaves other keys' freshness and expiry unchanged |
| CommentCache.Cache.constructor | static/assets/js/comment-enhancements.js:6-7 | both maps start empty |
| CommentCache.Cache.Get | static/assets/js/comment-enhancements.js:52 | an entry is returned exactly when present, and it is the stored one |
| CommentCache.Cache.Put | static/assets/js/comment-enhancements.js:299-300 | both maps gain the entry, stamped with the time of the write |
| CommentCache.Cache.Invalidate | static/assets/js/comment-enhancements.js:487-492 | both maps lose the entry |
| CommentCache.Cache.RecordResponse | static/assets/js/comment-enhancements.js:86-107 | the `onload` wrapper writes the entry exactly for a recorded request with status 200 and a parsed body while no submission is in progress |
| CommentCache.AsciiUpper | static/assets/js/comment-enhancements.js:15 | upper-casing keeps the length and maps each character on its own |
| CommentCache.IsGet | static/assets/js/comment-enhancements.js:15 | the verb is a GET exactly when it upper-cases to "GET" |
| CommentCache.IsCommentRequest | static/assets/js/comment-enhancements.js:15 | a request is a comment request exactly when it is a GET whose URL contains "/comments" somewhere |
| CommentCache.ExtractPostId | static/assets/js/comment-enhancements.js:19-21 | an extracted id is non-empty and holds no `/` |
| CommentCache.NonSlashRun | static/assets/js/comment-enhancements.js:19 | `[^\/]+` consumes the longest run without `/` |
| CommentCache.ExtractPostIdSound | static/assets/js/comment-enhancements.js:19-21 | an extracted id is non-empty, has no `/`, and sits between "/posts/" and "/comments" at the leftmost such place |
| CommentCache.ExtractFromCommentsUrl | static/assets/js/comment-enhancements.js:19-21 | the client's comments URL, with any query, yields its post id |
| CommentCache.OpenPlan | static/assets/js/comment-enhancements.js:13-44 | the request passes through exactly when it is not a comment request; the cache answers only with both flags clear, a fresh entry and the id from the URL; a recorded request is keyed by the URL's id when there is one |
| CommentCache.ServeIff | static/assets/js/comment-enhancements.js:13-44 | the cache answers exactly the comment GETs whose post entry is fresh and whose flags are both clear |
| CommentCache.FlagsBypassCache | static/assets/js/comment-enhancements.js:25-26 | either flag sends every comment GET to the network |
| CommentCache.UnmatchedUrlKey | static/assets/js/comment-enhancements.js:15-22 | a comment GET without a post id in its URL is recorded under "undefined" |
| CommentCache.ServedNeverRecords | static/assets/js/comment-enhancements.js:49-83 | a request the cache answered writes nothing |
| CommentCache.CardFor | static/assets/js/comment-enhancements.js:344-398 | the card carries the comment's id and content; a highlighted card shows the saved count of a liked comment |
| CommentCache.RenderedList | static/assets/js/comment-enhancements.js:318-341 | the empty-state notice exactly for no comments, else at most one card per comment, each with an id |
| CommentCache.CardsOf | static/assets/js/comment-enhancements.js:331-338 | at most one card per comment, each for a comment with an id |
| CommentCache.CardsOfAppend | static/assets/js/comment-enhancements.js:331-338 | cards of a concatenation are the concatenation of cards |
| CommentCache.CardsOfAllIds | static/assets/js/comment-enhancements.js:331-338 | when every comment has an id, card `i` is comment `i`'s |
| CommentCache.CardsOfNoIds | static/assets/js/comment-enhancements.js:345-347 | comments without ids produce no cards |
| CommentCache.RenderComments | static/assets/js/comment-enhancements.js:318-341 | the loop builds `RenderedList`: the empty-state notice, or the cards |
| CommentCache.AgeNote | static/assets/js/comment-enhancements.js:417-436 | every age note starts with " · " |
| CommentCache.StatusText | static/assets/js/comment-enhancements.js:401-441 | empty exactly without a cached entry; otherwise it starts with the entry's total and " 条评论" |
| CommentCache.AgeNoteEnd | static/assets/js/comment-enhancements.js:417-436 | the four age buckets end in distinguishable text |
| CommentCache.JustUpdatedIff | static/assets/js/comment-enhancements.js:422-423 | "刚刚更新" exactly under one minute |
| CommentCache.MinutesNoteIff | static/assets/js/comment-enhancements.js:424-425 | "k分钟前更新" exactly for `k` whole minutes under an hour |
| CommentCache.HoursNoteIff | static/assets/js/comment-enhancements.js:426-429 | "k小时前更新" exactly from an hour to under a day, with `k` whole hours |
| CommentCache.DaysNoteIff | static/assets/js/comment-enhancements.js:430-431 | "k天前更新" exactly from a day on, with `k` whole days |
| CommentCache.PostPane.constructor | static/assets/js/comment-enhancements.js:455-467 | a pane holds its count, an empty comment list, a blank status, an empty form and an enabled reply button |
| CommentCache.StartLoad | static/assets/js/comment-enhancements.js:260-285 | a fetch starts exactly when forced, missing or expired; otherwise the cached list and its status show; a fetch shows the spinner and the loading status |
| CommentCache.FinishLoad | static/assets/js/comment-enhancements.js:287-311 | a payload is cached, rendered, counted and given the just-loaded status; a failure shows its message and "加载失败" and leaves the cache alone |
| CommentCache.StatusAfterLoad | static/assets/js/comment-enhancements.js:414-435 | right after a load the status is "N 条评论 · 刚刚更新" |
| CommentCache.FailureMessage | static/assets/js/comment-enhancements.js:564-567 | the error notice is never empty; a network error with a non-empty message shows that message, else "加载失败" |
| CommentCache.CountAfterSubmit | static/assets/js/comment-enhancements.js:502-506 | the badge read back with `parseInt` plus one is the old count plus one |
| CommentCache.BeginSubmit | static/assets/js/comment-enhancements.js:455-467 | submission starts exactly with an id, content and the form present, and disables the button |
| CommentCache.FinishSubmit | static/assets/js/comment-enhancements.js:469-514 | a posted comment clears the form, deletes the entry, forces a reload and adds one to the badge; the button is restored either way |
| CommentCache.SubmittedEntryRefetched | static/assets/js/comment-enhancements.js:487-498 | after the delete, the next load fetches and the interceptor does not serve |
| CommentCache.FinishLoadAsWritten | static/assets/js/comment-enhancements.js:303-311 | as written, every finished load shows an error and "加载失败"; a successful fetch shows the undeclared-name error |
| CommentCache.FetchShowsErrorAsWritten | static/assets/js/comment-enhancements.js:405 | as written, a successful fetch never shows its comments |
| CommentCache.ServeFromCacheAsWritten | static/assets/js/comment-enhancements.js:278-282 | as written, the cached list shows as `RenderedList` draws it, but the status stays "正在加载评论..." and never starts with the entry's count |
| CommentCache.CachedStatusStuckAsWritten | static/assets/js/comment-enhancements.js:405 | as written, a cached load never shows its real status |
| Feed.DisplayedContent | static/assets/js/app.js:127 | never empty: the content when present, else "(无内容)" |
| Feed.CollapsibleDisplayed | static/assets/js/app.js:157 | testing the displayed or the raw content for length decides the same |
| Feed.FoldLabel | static/assets/js/app.js:232-245 | the label says "收起" exactly when expanded and "展开" exactly when collapsed |
| Feed.Collapsible.constructor | static/assets/js/app.js:212-230 | a block starts collapsed, with the overlay and the "展开" label |
| Feed.Collapsible.Toggle | static/assets/js/app.js:232-245 | a click flips the state and keeps the label and overlay in step |
| Feed.ToggleTwice | static/assets/js/main.js:241-245 | two clicks restore the block |
| Feed.PrevItem | static/assets/js/app.js:396-400 | the previous link is enabled towards `current - 1` exactly when `current > 1` |
| Feed.NextItem | static/assets/js/app.js:415-419 | the next link is enabled towards `current + 1` exactly when `current < total` |
| Feed.Numbers | static/assets/js/app.js:406-412 | the pages `lo..hi` in order, exactly the current one active |
| Feed.WindowStart | static/assets/js/app.js:403 | the window starts at page 1 or later, at most two pages before the current page and never after it |
| Feed.WindowEnd | static/assets/js/app.js:404 | the window ends at the last page or earlier, at most four pages after its start |
| Feed.WindowItems | static/assets/js/app.js:393-421 | no links for a single page; otherwise two to seven items, the previous link first and the next link last |
| Feed.FullItems | static/assets/js/main.js:610-630 | no links for a single page; otherwise one item per page between the previous and next links |
| Feed.WindowBounds | static/assets/js/app.js:403-404 | for a page in range the window has one to five pages inside `1..total` and holds the current page |
| Feed.WindowExample | static/assets/js/app.js:403-404 | page 7 of 20 shows the window 5..9 |
| Feed.WindowPages | static/assets/js/app.js:395-419 | the window layout's numbers are the window's pages in order; only the current one is active, and only it has no link |
| Feed.FullPages | static/assets/js/main.js:612-630 | the full layout lists every page 1..total, all linked, exactly the current one active |
| Feed.LinksInRange | static/assets/js/app.js:395-419 | every link of either layout leads to a page in `1..total` |
| Feed.LayoutsShareFrame | static/assets/js/main.js:610-630 | both layouts are empty exactly for a single page and share their previous and next links |
| Feed.PageCount | static/assets/js/app.js:74 | `Math.ceil(total / page_size)`: the fewest pages that hold all the items |
| AppFeed.CommentButtonLabel | static/assets/js/app.js:136 | the label starts with "评论" and is the bare word exactly for a zero count |
| AppFeed.CountAt | static/assets/js/app.js:527-529 | a count is read only where the text starts with "评论" |
| AppFeed.FindCount | static/assets/js/app.js:527-529 | a count is found only in a text containing "评论" |
| AppFeed.ParsedCount | static/assets/js/app.js:527-529 | a text without "评论" reads as 0 |
| AppFeed.NextCountLabel | static/assets/js/app.js:527-535 | the new label is "评论 " followed by a count |
| AppFeed.NoCountInWord | static/assets/js/app.js:528-529 | the bare word matches no count |
| AppFeed.ParsedCountOfLabel | static/assets/js/app.js:527-529 | the count the pattern reads from a written label is the count written |
| AppFeed.NextCountLabelOf | static/assets/js/app.js:527-535 | after a comment, a label showing N shows N + 1 |
| AppFeed.PostCardsOf | static/assets/js/app.js:99-104 | at most one card per post, each for a post with an id |
| AppFeed.PostCardsOfAppend | static/assets/js/app.js:99-104 | cards of a concatenation are the concatenation of cards |
| AppFeed.PostCardsOfAllIds | static/assets/js/app.js:99-104 | when every post has an id, card `i` is post `i`'s |
| AppFeed.PostWithoutIdSkipped | static/assets/js/app.js:100 | a post without an id adds no card wherever it stands |
| AppFeed.CardOf | static/assets/js/app.js:112-198 | a card carries the post's id, non-empty content and a label starting with "评论"; it collapses exactly for long non-empty content |
| AppFeed.DisplayedPosts | static/assets/js/app.js:86-109 | the empty notice exactly for no posts, else at most one card per post, each with an id |
| AppFeed.RenderPostCards | static/assets/js/app.js:97-104 | the loop builds `PostCardsOf` |
| AppFeed.App.constructor | static/assets/js/app.js:7-9 | page 1 of 1, the loading state, an empty form |
| AppFeed.App.UpdatePagination | static/assets/js/app.js:383-435 | records the page count and draws the window layout `WindowItems` |
| AppFeed.App.StartLoadPosts | static/assets/js/app.js:54-62 | the requested page becomes current and the spinner shows |
| AppFeed.App.FinishLoadPosts | static/assets/js/app.js:71-82 | a payload is displayed and repaginates exactly when page, total and page size are truthy; a failure shows the empty notice |
| AppFeed.App.BeginSubmitPost | static/assets/js/app.js:333-346 | sends the trimmed text exactly when the form is present and the text is not blank, disabling the button |
| AppFeed.App.FinishSubmitPost | static/assets/js/app.js:361-378 | success clears the form and reloads page 1; the button is restored either way |
| AppFeed.LoadedCount | static/assets/js/app.js:459 | the total when it is not 0, else the number of comments; 0 exactly when both are 0 |
| AppFeed.ContentsOf | static/assets/js/app.js:473-481 | one entry per comment, in order, with its content |
| AppFeed.CommentPanel.constructor | static/assets/js/app.js:135-152 | hidden, labelled from the post's count, with the spinner, an empty form and the "发表评论" button |
| AppFeed.CommentPanel.StartLoadComments | static/assets/js/app.js:438-445 | the list shows the spinner |
| AppFeed.CommentPanel.Toggle | static/assets/js/app.js:170-177 | flips the section; it loads exactly when it was hidden |
| AppFeed.CommentPanel.FinishLoadComments | static/assets/js/app.js:454-486 | a payload relabels the button with its count and lists its comments; a failure shows the error |
| AppFeed.CommentPanel.BeginSubmitComment | static/assets/js/app.js:490-502 | sends the trimmed text exactly when the form is present and the text is not blank |
| AppFeed.CommentPanel.FinishSubmitComment | static/assets/js/app.js:519-549 | success clears the form, bumps the label and reloads; the button comes back labelled "发布评论", not the "发表评论" it was drawn with, either way |
| AppFeed.LoadedLabelParses | static/assets/js/app.js:459-463 | the count written after a load reads back from the label |
| MainFeed.MainCardsOf | static/assets/js/main.js:118-125 | at most one card per post, each for a post with an id |
| MainFeed.MainCardsOfAllIds | static/assets/js/main.js:118-125 | when every post has an id, card `i` is post `i`'s |
| MainFeed.MainCardOf | static/assets/js/main.js:129-223 | a card carries the post's id, its comment count and non-empty content, and collapses exactly for long content |
| MainFeed.RenderedPosts | static/assets/js/main.js:107-126 | the invitation exactly for no posts, else at most one card per post, each with an id |
| MainFeed.SameCardsAsApp | static/assets/js/main.js:129-223 | both scripts draw the same posts in the same order, with the same content and collapse decision |
| MainFeed.RenderPosts | static/assets/js/main.js:107-126 | the loop builds `RenderedPosts`: the invitation for no posts, else the cards |
| MainFeed.Pager.constructor | static/assets/js/main.js:603-607 | the container starts empty |
| MainFeed.Pager.UpdatePagination | static/assets/js/main.js:603-640 | the loop draws the full layout `FullItems` |
| MainFeed.PostView.constructor | static/assets/js/main.js:171-198 | the badge shows the post's comment count (0 when missing), the section hidden with an empty comment list, the reply button enabled |
| MainFeed.PostView.LoadComments | static/assets/js/main.js:277-291 | with no exported loader, the list shows "加载失败: app.js未正确加载" |
| MainFeed.PostView.ToggleComments | static/assets/js/main.js:249-274 | flips the section; it loads exactly when it was hidden |
| MainFeed.PostView.UpdateCommentCount | static/assets/js/main.js:547-555 | the badge shows the count, or 0 when there is none |
| MainFeed.SubmitFlags.constructor | static/assets/js/main.js:446 | both flags start clear |
| MainFeed.BeginSubmit | static/assets/js/main.js:202-207 | sends the trimmed text exactly when it is not blank, disabling the button and raising the submitting flag |
| MainFeed.FinishSubmit | static/assets/js/main.js:458-491 | success clears the form, deletes the entry from both cache maps, forces the refresh, shows the missing-loader message and adds one to the badge; failure alerts "提交评论失败: " with the message and changes nothing else; the button is restored either way |
| MainFeed.FinishSubmitAsWritten | static/assets/js/main.js:462-490 | as written, success clears the form and then alerts the undeclared-name error, leaving both cache maps, the refresh flag, the list and the badge as they were; the button is restored |
| MainFeed.SubmitAsWrittenDiffers | static/assets/js/main.js:465-481 | after a successful post, as written the cached entry survives, the badge keeps the old count and an alert shows; as intended the entry is gone, the badge shows one more and no alert shows |
| Text.ContainsIffMatch | src/utils/filter.rs:76 | `contains` holds exactly when the pattern matches at some position |
| Text.ReplaceAllAbsent | src/utils/sanitize.rs:28-47 | replace-all leaves text without the pattern unchanged |
| Text.ReplaceAllSameLength | src/utils/filter.rs:77-78 | a replacement as long as the pattern keeps the length |
| Text.Repeat | src/utils/filter.rs:77 | `"*".repeat(n)` is `n` stars |
| Text.Trim | src/utils/filter.rs:31 | trimming strips whitespace only, and is empty exactly for all-whitespace text |
| Text.RustTrim | src/utils/sanitize.rs:66 | `trim` never lengthens, leaves no whitespace at either end, and is empty exactly for all-whitespace text |
| Text.JsTrim | static/assets/js/app.js:339 | the same for JavaScript's whitespace set |
| Text.NatToStringInjective | static/assets/js/comment-enhancements.js:504-505 | distinct counts are written differently |
| Text.DigitsValueOfNatToString | static/assets/js/comment-enhancements.js:504-505 | a written count reads back as itself |
| Text.ParseIntOfNat | static/assets/js/comment-enhancements.js:504 | `parseInt` of a written count followed by a non-digit is that count |
| Text.ParseInt | static/assets/js/comment-enhancements.js:504 | `parseInt` fails exactly when no digit follows the leading whitespace and sign |

## Left out

- Network, timers, `localStorage`, DOM queries and `innerHTML` become parameters or plain fields. Toasts, console logging and focus are not modelled, and neither are alerts, except the comment-submission alert of main.js (main.js:485), which `MainFeed.FinishSubmit` returns.
- `static/assets/js/ui-effects.js` is not part of this model.
- Other helpers in `utils.js` are not modelled because they only touch the DOM or timers: debounce, throttle, clipboard copy, textarea auto-resize and the loading indicators.
- The error handler's `window` hooks for uncaught errors (error-handler.js:25-43) and the default global handler's page notice (error-handler.js:134-178) are not modelled. The global handler is a flag: it is set or not.
- ErrorRegistry: JavaScript object keys such as `__proto__`, and listeners that throw, are not modelled.
- HtmlUtils.FormatDate: the local-time breakdown is a parameter. Date parsing and time zones are not modelled.
- CommentCache.IsGet: `toUpperCase` is modelled for the ASCII letters only (`AsciiUpper`). Other characters are left as they are, so a non-ASCII character whose upper case is G, E or T is not covered.
- Lengths are counted in Unicode characters. The 200-character collapse test is stated in characters, not UTF-16 code units, and so is the length rule that orders masked words in `filter.rs`.
- `parseInt` is modelled for decimal digits after optional whitespace and sign. The prefixes and radix detection it also accepts are not modelled.
- Creation times, their tooltips and `toLocaleString` on cards are not drawn.
- main.js `updateCommentsStatus` and its refresh-button titles (main.js:320-376) are not modelled. Nothing in the modelled flows reaches them: the loader this script calls always stops at the missing-loader message.
- main.js reads the undeclared `commentsCache` (main.js:465) and `refreshBtn` (main.js:490). Both are modelled as written in `MainFeed.FinishSubmitAsWritten`, and the intended flow in `MainFeed.FinishSubmit` (see Findings). The `refreshBtn` throw comes after the button is restored, so the only effect left out is the rejected promise it leaves behind.
- The earlier `loadComments`, `renderComments` and `submitComment` at app.js:249-330 are not modelled. Later declarations of the same names in the same scope (app.js:438 and app.js:490) replace the first and third, and nothing calls the second any more.
- The comment-enhancements.js delegation to `window.app.loadComments` is taken as absent. `window.app` exports only `loadPosts` and `submitPost` (app.js:553-556), so the local fallback always runs.
- MainFeed.FinishSubmit: the submitting flag is never lowered, as written.
- The retry button in the error notice (comment-enhancements.js:310) is not modelled.
- Rust routes, `main.rs`, the models and pagination helpers are not part of this model; they are context only.
- `lazy_static`, the `RwLock` and concurrent access to the word set are not modelled, and neither is file reading: the file's lines are a parameter, and an unreadable file is `None`.
- The `filter.rs` test that calls `contains_sensitive_word` (filter.rs:118-133) is not modelled, because that function does not exist.
- The overlapping-words test at filter.rs:159-169 cannot pass, so it is not modelled as a property. Its expected text is one character shorter than its input, and masking keeps the length (`SensitiveFilter.OverlapTestUnsatisfiable`).
- Sanitize.SanitizeContent: the three scheme patterns are not claimed absent from the output, because each replacement (`blocked-javascript:`, `blocked-data:`, `blocked-vbscript:`) contains its own pattern. For the schemes, the promise proved is that the blocked form appears: `SanitizeCases.ShowsBlockedJavascript`, and `SanitizeCases.ShowsBlockedData` for "data:" preceded by `"`, as in the test. That lemma asks for the `"` because "<embed" ends in "d" and can overlap "data:", and the proof does not follow the text through that overlap. `vbscript:` has no such lemma.
- Sanitize.SanitizeContent: the kept texts are proved for the texts the source's tests name (`<b>bold</b>`, `<div>`, `alert`), not for arbitrary markup.
- Text.ReplaceAll: the definition carries no ensures of its own. What it does is stated by the `Overlap.ReplaceAll…` lemmas and by `Text.ReplaceAllAbsent`, `Text.ReplaceAllSameLength`, `Text.ReplaceAllNoLonger` and `Text.ReplaceAllNoShorter`.

## Findings

| source | as written | input that shows it | evidently intended | confidence | as-written member | corrected member |
|---|---|---|---|---|---|---|
| static/assets/js/comment-enhancements.js:405 (reached from 303-307) | `updateCommentsStatus` reads `commentsCache`, declared in no scope the script sees; after a successful fetch the throw lands in the `catch`, so the list shows the error and the status "加载失败" (`CommentCache.FetchShowsErrorAsWritten`) | any fetched payload, with the status element present | read the entry from `window._commentsCacheMap`, render the comments and show "N 条评论 · 刚刚更新" | not executed | CommentCache.FinishLoadAsWritten | CommentCache.FinishLoad |
| static/assets/js/comment-enhancements.js:405 (reached from 278-282) | on the cache path, the throw propagates out of the loader after the list has been drawn; the status stays "正在加载评论..." (`CommentCache.CachedStatusStuckAsWritten`) | a fresh cached entry, a load not forced | show the entry's count and age | not executed | CommentCache.ServeFromCacheAsWritten | CommentCache.StartLoad |
| static/assets/js/main.js:465 (declared only in a comment at line 7) | after a successful post, `delete commentsCache[postId]` reads a name declared nowhere; the throw skips the deletions from both cache maps, the forced refresh, the reload and the new badge count, and the `catch` alerts "提交评论失败: commentsCache is not defined" (`MainFeed.SubmitAsWrittenDiffers` sets both outcomes side by side) | any comment the server accepts | delete the entry from both cache maps, force the refresh, reload the list and add one to the badge, with no alert | not executed | MainFeed.FinishSubmitAsWritten | MainFeed.FinishSubmit |
