# A verified model of the video-sharing web client's logic

This project models the decision logic of a React client for a video-sharing REST API. Nearly all of the client is rendering and `fetch` plumbing. Its logic sits in a few places:

- **Duration formatting.**
  - The shared `formatDuration` turns whole seconds into `hh:mm:ss`, with the hours field only when there are hours.
  - The channel page keeps a different copy of its own.
  - The unit choice of `getRelativeTime` picks the first unit whose limit exceeds the difference and passes the formatter a count that is never positive for a past date.
- **Two authenticated-fetch wrappers.**
  - `fetchWithAuth` is the cookie-session wrapper. On a 401 it refreshes once and retries once. When the refresh is refused, it navigates to `/login` and hands back the original 401.
  - `apiFetch` with `refreshToken` is the bearer-token wrapper. It keeps an access token in a token cell and sends it as `Authorization: Bearer <token>`. On a 401 it refreshes once and retries once. Any failure of the refresh or of the retry clears the token and rethrows the same error. A rejected first request propagates with the token left in place.
- **The pages' state updates after a server reply:**
  - the watch page's recommended list, like/dislike reconciliation, comment add/edit/delete and the subscribe toggle;
  - the home page's Prev/Next paging and its fetch;
  - the settings page's fetch helper and form guards;
  - the playlists page's thumbnail enrichment, create and delete.

The network is an input: a sequence of outcomes, each a reply (status plus parsed body, or no body when it does not parse) or a rejection. Request number `k` of a call reads outcome `k`. A page handler takes the one outcome its request produced. JSON values are a datatype. JavaScript truthiness, optional chaining (`?.`), `||` and object spread are written out as functions on it. Integers are unbounded. Durations and time differences are whole numbers.

The modules follow the source files:

| module | models |
|---|---|
| `JsValue` | JSON values, truthiness, `?.`, `\|\|`, property assignment |
| `Text` | decimal digits, `padStart`, `split`/`join`, `trim` |
| `Lists` | `filter` by id, order preservation |
| `Http` | requests, responses, outcomes, option spreading |
| `Durations` | `formatDuration`, `getRelativeTime` unit choice |
| `ChannelPage` | the channel page's own `formatDuration`, and a corrected version |
| `ApiClient` | `fetchWithAuth` |
| `RefreshProtocol` | the same protocol as a state machine, with a proof that `fetchWithAuth` follows it |
| `BearerFetch` | `apiFetch`, `refreshToken`, the token cell |
| `AuthVariants` | where the two wrappers agree and where they differ |
| `VideoPlayer` | the watch page's handlers |
| `Home` | the home page |
| `Settings` | the settings page |
| `Playlists` | the playlists page |

## Model

| member | source | states |
|---|---|---|
| JsValue.Or | src/pages/Setting.jsx:65 | `a \|\| b`: a truthy left side is the result; otherwise the fallback is |
| JsValue.Get | src/pages/VideoPlayerPage.jsx:53 | `o?.key` is defined exactly when `o` is an object holding the key, and then it is that field |
| JsValue.Assign | src/pages/PlayList/Playlists.jsx:30 | `obj.key = v` sets that property to `v` and leaves every other property as it was |
| JsValue.IndexFieldsLookup | src/pages/VideoPlayerPage.jsx:110-111 | spreading a list gives exactly the properties `String(0)` to `String(n - 1)`, each holding its element |
| JsValue.SpreadKeys | src/pages/VideoPlayerPage.jsx:110-111 | a spread object gives its fields; a spread list or string gives one property per index, holding the element or the character; `null`, `undefined`, booleans and numbers give nothing |
| Text.TwoDigits | src/utils/formatDuration.js:11-12 | `String(n).padStart(2, "0")` is all digits, at least two characters long, and reads back as `n`; below 100 it is exactly two characters, and from 10 on it does not start with a padding `0` |
| Text.TwoDigitsUnpadded | src/utils/formatDuration.js:11-12 | from 10 on the field is `String(n)` itself |
| Text.PadStart | src/utils/formatDuration.js:10-12 | `padStart(width, c)` prefixes copies of `c` up to the width and never truncates a longer string |
| Text.ReadDigitsOfDigits | src/pages/ChannelPage.jsx:18-19 | the decimal text of `n` reads back as `n` |
| Text.DigitsNoLeadingZero | src/pages/ChannelPage.jsx:18 | the decimal text of a positive number does not start with `0` |
| Text.BlankIffAllSpace | src/pages/VideoPlayerPage.jsx:151 | `s.trim()` is empty exactly when every character of `s` is white space |
| Lists.Without | src/pages/VideoPlayerPage.jsx:200 | filtering by id keeps exactly the elements with another id; the length drops by the number of matches |
| Lists.WithoutIsSubsequence | src/pages/VideoPlayerPage.jsx:200 | filtering keeps the survivors in their original order |
| Lists.WithoutIdempotent | src/pages/PlayList/Playlists.jsx:72 | filtering by the same id twice removes nothing more |
| Lists.WithoutAbsent | src/pages/PlayList/Playlists.jsx:72 | filtering by an id no element has returns the list unchanged |
| Http.Settle | src/services/apiClient.js:26-29 | a reply is handed to the caller as its response; a rejection stays a rejection |
| Http.Spread | src/services/apiClient.js:6-9 | `{...base, ...over}` has the keys of both; a key of `over` takes its value from `over`, any other from `base` |
| Http.WithCredentials | src/services/apiClient.js:6-9 | `{credentials: "include", ...options}`: cookies by default, and the caller's own `credentials` and other options win |
| Durations.ToClock | src/utils/formatDuration.js:3-6 | hours·3600 + minutes·60 + seconds equals the input, with minutes and seconds below 60 |
| Durations.Compact | src/utils/formatDuration.js:13 | `.filter(Boolean)` over strings and nulls never lengthens the list and keeps no empty string |
| Durations.CompactMembers | src/utils/formatDuration.js:13 | a string survives the filter exactly when it is non-empty and was in the list |
| Durations.CompactAppend | src/utils/formatDuration.js:13 | the filter works entry by entry: filtering a concatenation concatenates the filtered halves, so the survivors keep their order |
| Durations.CompactThree | src/utils/formatDuration.js:9-13 | the filter keeps the hours field exactly when it is a non-empty string; minutes and seconds always survive |
| Durations.ClockFields | src/utils/formatDuration.js:9-13 | the joined fields are hours, minutes and seconds, each padded, when hours > 0, and only minutes and seconds otherwise |
| Durations.HoursIffHour | src/utils/formatDuration.js:4-10 | the hours field is present exactly from 3600 seconds on |
| Durations.ClockTextSplits | src/utils/formatDuration.js:9-13 | splitting the output on `:` gives back the padded fields that were joined |
| Durations.ReadClockText | src/utils/formatDuration.js:9-13 | reading the output back as `[h:]mm:ss` adds the clock fields up again |
| Durations.ClockTextShape | src/utils/formatDuration.js:9-13 | every field has at least two digits, exactly two for minutes and seconds below 100, the hours field only when there are hours, and each field reads back as its clock field |
| Durations.FormatDurationShape | src/utils/formatDuration.js:2-14 | 2 fields below an hour, 3 from an hour on; each field has at least two digits; the last two are exactly two digits, the seconds within the minute and the minutes within the hour; the hours field holds the full hour count and is never cut to two digits |
| Durations.FormatDurationRoundTrip | src/utils/formatDuration.js:2-14 | the output reads back as exactly the number of seconds formatted |
| Durations.TwoDigitsOfDigit | src/utils/formatDuration.js:11-12 | a single digit is padded to `0d` |
| Durations.ZeroClockText | src/utils/formatDuration.js:11-13 | the all-zero clock prints as `00:00` |
| Durations.FormatDurationZero | src/utils/formatDuration.js:11-13 | 0 seconds gives `00:00`: `"00"` is truthy, so both fields survive the filter |
| Durations.FormatDurationExamples | src/utils/formatDuration.js:2-14 | 65 gives `01:05`, and 3661 gives `01:01:01` |
| Durations.RelativeTime | src/utils/formatDuration.js:22-36 | the chosen unit is the first whose max exceeds the difference; one is always chosen, because the year has no max; minus the value is the floor of the difference over the unit's size; the value is ≤ 0 for a non-negative difference |
| Durations.FirstFitUnique | src/utils/formatDuration.js:31-32 | exactly one unit is the first that fits |
| Durations.FirstFitMonotone | src/utils/formatDuration.js:22-32 | a longer difference never gets a smaller unit |
| ChannelPage.FormatDurationFields | src/pages/ChannelPage.jsx:13-22 | the text is the unpadded hour count (when positive), the TOTAL minute count and the padded seconds, joined with `:` |
| ChannelPage.FieldsSplit | src/pages/ChannelPage.jsx:18-21 | splitting on `:` recovers the fields; the text has one colon fewer than it has fields |
| ChannelPage.ReadWrittenFields | src/pages/ChannelPage.jsx:15-21 | read as `h:mm:ss`, the written fields add up as hours, minutes and seconds, whatever the minutes field holds |
| ChannelPage.MinutesAndSeconds | src/pages/ChannelPage.jsx:15-17 | total minutes·60 + seconds is the input; the hour count is positive exactly from 3600 on |
| ChannelPage.FormatDurationShape | src/pages/ChannelPage.jsx:13-22 | one colon below an hour, two from an hour on; the seconds field is exactly two digits holding s mod 60; the minutes field holds floor(s/60), unpadded, and is one digit exactly below 600 s; the hour field has no leading zero |
| ChannelPage.FormatDurationMisreads | src/pages/ChannelPage.jsx:16-21 | read back as `h:mm:ss`, the text counts every full hour twice; it reads back correctly exactly below one hour |
| ChannelPage.OneHourOneMinuteOneSecond | src/pages/ChannelPage.jsx:13-22 | 3661 seconds print as `1:61:01`, which reads back as 7261 |
| ChannelPage.FixedSplits | src/pages/ChannelPage.jsx:13-22 | the corrected text splits on `:` into its fields |
| ChannelPage.ReadFixedText | src/pages/ChannelPage.jsx:13-22 | the corrected text reads back as the sum of its clock fields |
| ChannelPage.FormatDurationFixedRoundTrip | src/pages/ChannelPage.jsx:13-22 | the corrected formatter's text reads back as exactly the input |
| ChannelPage.FixedAgreesBelowAnHour | src/pages/ChannelPage.jsx:13-22 | below an hour the corrected text is the original's |
| ChannelPage.FormatDurationFixedBelowAnHour | src/pages/ChannelPage.jsx:13-22 | the correction changes the text exactly for inputs of one hour or more |
| ApiClient.ResolveUrl | src/services/apiClient.js:4 | a URL starting with `http` is used verbatim; any other is prefixed with the API base |
| ApiClient.ResolveUrlIdempotent | src/services/apiClient.js:4 | with an absolute base, resolving a resolved URL changes nothing |
| ApiClient.FetchWithAuth | src/services/apiClient.js:3-38 | 1 to 3 requests. A rejected first request propagates. A non-401 is returned after one call. A 401 triggers one refresh POST to `<base>/users/refresh-token`. A refresh that rejects or answers 401 sends the browser to `/login` and returns the original 401 with no retry. Any other refresh status leads to one retry of the same request, whose outcome is handed back as is, even another 401 or a rejection |
| RefreshProtocol.Step | src/services/apiClient.js:6-37 | each transition moves strictly closer to a terminal phase, issues at most one request, and sets the redirect flag exactly when entering `Failed` |
| RefreshProtocol.Run | src/services/apiClient.js:6-37 | the machine always stops in `Done` or `Failed`, within its request budget |
| RefreshProtocol.RunBounds | src/services/apiClient.js:12-35 | from the start a call issues 1 to 3 requests and navigates exactly when it ends in `Failed` |
| RefreshProtocol.FetchWithAuthFollowsProtocol | src/services/apiClient.js:3-38 | `fetchWithAuth` and the state machine agree on every outcome sequence: same result, same number of requests, a redirect exactly on `Failed` |
| BearerFetch.Authorization | src/pages/Auth/apiFetch.js:25-32 | `Bearer <token>` for a truthy token, the empty string otherwise |
| BearerFetch.CallOptions | src/pages/Auth/apiFetch.js:27-35 | `credentials`, `Authorization` and `Content-Type` are forced; every other caller option and header passes through unchanged |
| BearerFetch.WithBearer | src/pages/Auth/apiFetch.js:43 | the retry's options differ only in the `Authorization` header, now `Bearer <new token>` |
| BearerFetch.AccessToken | src/pages/Auth/apiFetch.js:17-18 | a token is read exactly when `json?.data?.accessToken` is a truthy string |
| BearerFetch.RefreshToken | src/pages/Auth/apiFetch.js:5-22 | succeeds exactly on a 2xx reply whose body parses and carries a token. Otherwise: a rejection propagates; a non-2xx throws "Refresh failed"; an unparseable body fails; a missing token throws "No access token in refresh response" |
| BearerFetch.ApiFetch | src/pages/Auth/apiFetch.js:24-52 | the URL is always API base + path. A non-401 is returned after one call with the token untouched. A 401 triggers one refresh. A failed refresh clears the token and rethrows its error with no retry. A successful refresh stores the token and sends one retry with `Bearer <new token>`, returning its response, or clearing the token and rethrowing when it rejects |
| BearerFetch.RetryIsFreshCall | src/pages/Auth/apiFetch.js:27-44 | whatever token the first request carried, expired or none, the retried request is exactly what a fresh call with the new token would send |
| BearerFetch.RefreshedTokenAuthorizesNextCall | src/pages/Auth/apiFetch.js:20-32 | after a successful refresh, the next call through the same token cell carries `Bearer <new token>` |
| BearerFetch.FailedRefreshSendsNextCallAnonymously | src/pages/Auth/apiFetch.js:25-48 | after a failed refresh, the next call carries an empty `Authorization` header |
| AuthVariants.VariantsAgreeOnRecovery | src/services/apiClient.js:12-29 | when the refresh yields a token, both wrappers make three calls, retry the same URL and hand back the retry's response |
| AuthVariants.VariantsDisagreeOnRefusedRefresh | src/pages/Auth/apiFetch.js:39-48 | on a refresh answered 401, the cookie wrapper resolves with the old 401 and navigates; the bearer wrapper rejects with "Refresh failed" and clears its token |
| AuthVariants.VariantsDisagreeOnServerErrorRefresh | src/pages/Auth/apiFetch.js:13 | on a refresh answered with another non-2xx status, the cookie wrapper still retries (3 calls); the bearer wrapper gives up after 2 |
| VideoPlayer.Recommended | src/pages/VideoPlayerPage.jsx:50-54 | no list is set when the fetch rejects, the status is not 2xx or the body does not parse. For a 2xx reply that parses, the load throws and sets no list exactly when `videos` is present and not `null` and is either not a list or a list holding `null`. Otherwise the video being watched is never recommended, every other fetched video is, and nothing else is. Without a list in the reply the result is empty |
| VideoPlayer.RecommendedKeepsOrder | src/pages/VideoPlayerPage.jsx:53 | when the list is set, the recommendations keep the server's order |
| VideoPlayer.ReactionOf | src/pages/VideoPlayerPage.jsx:104-113 | the four reads succeed exactly for a 2xx reply with a parsed body whose `data` is present and not `null`. They then give `data.totalLikes`, `data.totalDislikes`, `data.isLiked` and `data.isDisliked`, each undefined when `data` is not an object holding it |
| VideoPlayer.Counter | src/pages/VideoPlayerPage.jsx:110-111 | `{...prev.likes, count}` replaces `count` and keeps every other property the spread gives, index properties of a list or string included |
| VideoPlayer.CounterOverList | src/pages/VideoPlayerPage.jsx:110 | a `likes` list holding one user id gives `{"0": id, count}` |
| VideoPlayer.ApplyReaction | src/pages/VideoPlayerPage.jsx:108-114 | the two counts and the two flags come from the reply; every other property of the video is unchanged |
| VideoPlayer.CounterTwice | src/pages/VideoPlayerPage.jsx:110 | rewriting a counter twice keeps only the second count |
| VideoPlayer.SameReadAfterReaction | src/pages/VideoPlayerPage.jsx:108-114 | any one property reads the same after two replies as after the second alone |
| VideoPlayer.LastReactionWins | src/pages/VideoPlayerPage.jsx:108-114 | applying two replies in turn equals applying the second |
| VideoPlayer.ReactionIdempotent | src/pages/VideoPlayerPage.jsx:108-114 | applying the same reply twice equals applying it once |
| VideoPlayer.SetLoading | src/pages/VideoPlayerPage.jsx:98 | raising or dropping one button's flag leaves the other flag and the video alone |
| VideoPlayer.Press | src/pages/VideoPlayerPage.jsx:96-98 | a like/dislike request goes out exactly when none is in flight for that button |
| VideoPlayer.Settle | src/pages/VideoPlayerPage.jsx:104-119 | the flag drops; a reply whose reads succeed is applied; anything else leaves the video as it was |
| VideoPlayer.DoubleClickSendsOnce | src/pages/VideoPlayerPage.jsx:97-98 | a second click before the reply sends nothing and changes nothing |
| VideoPlayer.SettleReenables | src/pages/VideoPlayerPage.jsx:117-119 | after any reply the button sends again |
| VideoPlayer.AddComment | src/pages/VideoPlayerPage.jsx:149-168 | a blank draft sends nothing. A confirmed reply puts the new comment first, grows the list by one, keeps the rest and clears the draft. A confirmed reply whose body is JSON `null` leaves the list and still clears the draft. Otherwise nothing changes |
| VideoPlayer.WhitespaceDraftSendsNothing | src/pages/VideoPlayerPage.jsx:151 | a draft of white space only sends nothing and changes nothing |
| VideoPlayer.Rename | src/pages/VideoPlayerPage.jsx:183 | the comment with the id gets the new content and keeps every other field; any other comment is untouched |
| VideoPlayer.EditAll | src/pages/VideoPlayerPage.jsx:183 | the map keeps the length and renames position by position |
| VideoPlayer.EditComment | src/pages/VideoPlayerPage.jsx:170-189 | a blank edit sends nothing; a confirmed reply renames the matching comments and closes the editor; otherwise nothing changes |
| VideoPlayer.EditKeepsIds | src/pages/VideoPlayerPage.jsx:183 | an edit keeps the length, every id, and every comment with another id |
| VideoPlayer.LastEditWins | src/pages/VideoPlayerPage.jsx:183 | editing twice keeps the second text |
| VideoPlayer.DeleteAfterEdit | src/pages/VideoPlayerPage.jsx:183-200 | deleting an edited comment leaves what deleting it unedited leaves |
| VideoPlayer.DeleteComment | src/pages/VideoPlayerPage.jsx:191-204 | a confirmed reply removes exactly the comments with the id; otherwise nothing changes |
| VideoPlayer.DeleteUndoesAdd | src/pages/VideoPlayerPage.jsx:163-200 | deleting a just-added comment under a fresh id restores the list |
| VideoPlayer.InitialCount | src/pages/VideoPlayerPage.jsx:244 | `subscribersCount \|\| 0`: a missing or zero count starts at 0 |
| VideoPlayer.SubscriptionRequest | src/pages/VideoPlayerPage.jsx:262-269 | the call goes to `unSubscribe` exactly when the viewer is subscribed, and to `subscribe` exactly when not; it is a POST with cookies |
| VideoPlayer.PressSubscribe | src/pages/VideoPlayerPage.jsx:249-269 | a request goes out exactly with a logged-in viewer and none in flight, and it is the request for the flag at the time of the click |
| VideoPlayer.SettleSubscribe | src/pages/VideoPlayerPage.jsx:271-283 | only a confirmed reply flips the flag; unsubscribing gives max(count−1, 0) and subscribing count+1; the counter never goes negative |
| VideoPlayer.Subscribe | src/pages/VideoPlayerPage.jsx:249-291 | the click sends the request the press chose. No viewer, or a request in flight, means no change. A non-negative counter stays non-negative |
| VideoPlayer.ClicksAlternateEndpoints | src/pages/VideoPlayerPage.jsx:262-283 | after a confirmed click the next click posts to the other endpoint; after a failed one it posts to the same endpoint again |
| VideoPlayer.SubscribeRoundTrip | src/pages/VideoPlayerPage.jsx:275-283 | subscribe then unsubscribe, both confirmed, restores the state |
| VideoPlayer.UnsubscribeRoundTrip | src/pages/VideoPlayerPage.jsx:275-283 | unsubscribe then subscribe restores the counter, except that a counter at 0 ends at 1 |
| Home.PrevPage | src/pages/HomePage.jsx:95 | `Math.max(p - 1, 1)` is at least 1, one less than `p` when that is still ≥ 1 |
| Home.NextPage | src/pages/HomePage.jsx:97 | `Math.min(p + 1, totalPages)` is at most `totalPages`, one more than `p` when that is still ≤ `totalPages` |
| Home.Prev | src/pages/HomePage.jsx:95 | disabled on page 1, where it changes nothing; otherwise only the page moves |
| Home.Next | src/pages/HomePage.jsx:97 | disabled on the last page, where it changes nothing; otherwise only the page moves |
| Home.PagingStaysInRange | src/pages/HomePage.jsx:95-97 | from a page in range, Prev and Next stay in range and change nothing but the page |
| Home.DisabledIffNoOp | src/pages/HomePage.jsx:95-97 | in range, each button is disabled exactly when its clamp would not move the page |
| Home.PrevUndoesNext | src/pages/HomePage.jsx:95-97 | an enabled Next followed by Prev, or Prev followed by Next, comes back to the same state |
| Home.NextLeavesRangeWhenEmpty | src/pages/HomePage.jsx:97 | with `totalPages` 0, Next is enabled on page 1 and moves to page 0 |
| Home.ClickCategory | src/pages/HomePage.jsx:74-77 | a chip selects its category only while the sidebar is collapsed; nothing else changes |
| Home.Fetched | src/pages/HomePage.jsx:43-49 | a page is read exactly from a 2xx reply whose `data.data.totalPages` and `data.data.currentPage` are numbers. It holds those two and `data.data.videos`. A rejected request or a non-2xx status yields none |
| Home.ErrorOf | src/pages/HomePage.jsx:44-51 | a rejection records its reason; a non-2xx status fails at `new error(...)` |
| Home.Load | src/pages/HomePage.jsx:38-56 | a good reply overwrites the videos, `totalPages` and the page with the server's values; a failure records an error and keeps them; loading ends either way; an earlier error is not cleared |
| Home.FirstLoad | src/pages/HomePage.jsx:24-55 | both paging buttons' disabled conditions hold in the initial state, although the buttons are not rendered while it loads. The first load shows the server's page with no error, or it stays on page 1 of 1 with no videos and shows the error |
| Home.ErrorOutlivesRecovery | src/pages/HomePage.jsx:47-51 | once an error is recorded, every later load still carries one |
| Home.FailedThenGoodLoadShowsError | src/pages/HomePage.jsx:42-55 | a rejection followed by a good reply still leaves the rejection's error on screen |
| Home.LoadFixed | src/pages/HomePage.jsx:42-55 | the corrected load clears the error on a good reply and records it on a failure |
| Home.LoadFixedOnlyClearsError | src/pages/HomePage.jsx:42-55 | the corrected load differs from the original only in the error field |
| Home.FixedRecovers | src/pages/HomePage.jsx:42-55 | with the fix, a good reply after a failure shows the server's videos and no error |
| Settings.CallRequest | src/pages/Setting.jsx:31-34 | the URL is base + path; credentials default to `include` and the caller's options win |
| Settings.Shape | src/pages/Setting.jsx:30-37 | the helper rejects only when `fetch` does; it resolves with `ok`, the status and the parsed body, or `{}` when the body does not parse |
| Settings.UnparseableIsFailure | src/pages/Setting.jsx:35-36 | an unparseable body never counts as a success |
| Settings.AccountBody | src/pages/Setting.jsx:110 | the account body holds exactly `fullName` and `email`, as typed |
| Settings.Overwrite | src/pages/Setting.jsx:113 | after `{...user, ...fields}` each field reads its new value and every other key reads its old one |
| Settings.Saved | src/pages/Setting.jsx:113 | a saved update gives `fullName` and `email` their typed values and leaves every other key and every form field alone |
| Settings.UpdateAccount | src/pages/Setting.jsx:99-121 | sent exactly when both trimmed fields are non-empty, and then it is the helper's call with the account options. A success changes only `fullName` and `email` in the user record; otherwise nothing changes |
| Settings.AccountRequestCarriesForm | src/pages/Setting.jsx:107-111 | the account request is a PATCH to `/users/update-account` with cookies and a JSON header. Its body holds exactly `fullName` and `email`, as typed |
| Settings.UpdateAccountIdempotent | src/pages/Setting.jsx:113 | saving the same form twice leaves what saving once leaves |
| Settings.SavedIdempotent | src/pages/Setting.jsx:113 | copying the same two fields in again changes nothing |
| Settings.PasswordBody | src/pages/Setting.jsx:140 | the body holds exactly `oldPassword` and `newPassword`, never the confirmation |
| Settings.PasswordRefusal | src/pages/Setting.jsx:126-133 | "fill all fields" exactly when a field is empty; otherwise "mismatch" exactly when new ≠ confirm |
| Settings.ChangePassword | src/pages/Setting.jsx:124-155 | sent exactly when all three are filled and the new one is confirmed, and then it is the helper's call with the password options. A success empties all three; otherwise nothing changes |
| Settings.PasswordRequestOmitsConfirmation | src/pages/Setting.jsx:137-141 | the password request is a POST to `/users/change-password` with cookies. Its body holds exactly the old and the new password and no `confirmPassword` |
| Settings.ChangedPasswordFormIsEmpty | src/pages/Setting.jsx:145-147 | after a success the form is empty, so resubmitting sends nothing |
| Settings.ChangeImage | src/pages/Setting.jsx:57-96 | no file sends nothing. A success stores the URL from the reply when truthy, and otherwise keeps the current URL. Only that image field can change |
| Settings.ImageFallbackKeepsUser | src/pages/Setting.jsx:65-66 | a successful upload without a URL in the reply leaves the user record exactly as it was |
| Playlists.Thumbnail | src/pages/PlayList/Playlists.jsx:27-34 | a rejected or unparseable lookup, or one whose `data` is `null` or missing, gives `null`. Otherwise the thumbnail is `data.thumbnail`, undefined when `data` is not an object holding it |
| Playlists.WithThumbnail | src/pages/PlayList/Playlists.jsx:26-38 | with videos, the thumbnail comes from the first video's lookup; without, it is `null`; every other field is kept |
| Playlists.Enrich | src/pages/PlayList/Playlists.jsx:24-40 | `Promise.all(list.map(...))` keeps the number and order of playlists, each enriched in place |
| Playlists.EnrichKeepsPlaylists | src/pages/PlayList/Playlists.jsx:24-41 | enrichment keeps the length, order, ids and all fields but `firstThumbnail`; a playlist without videos gets `null` |
| Playlists.ThumbnailDependsOnFirstVideo | src/pages/PlayList/Playlists.jsx:26-30 | the thumbnail depends only on the lookup of the first video |
| Playlists.Loaded | src/pages/PlayList/Playlists.jsx:23-41 | a list is shown exactly when the reply parsed, is not `null`, and `res.data \|\| []` is a list of objects. It is then that list enriched, so a falsy `data` shows an empty list |
| Playlists.FetchPlaylists | src/pages/PlayList/Playlists.jsx:20-46 | when the load goes through, the enriched `res.data \|\| []` replaces the current list; on any throw the current list stays |
| Playlists.Created | src/pages/PlayList/Playlists.jsx:51-54 | a created playlist is taken exactly from a reply whose `success` is truthy and whose `data` is an object, and it is that object |
| Playlists.Add | src/pages/PlayList/Playlists.jsx:48-66 | sent exactly when name and description are non-empty. On success the new playlist goes first with a `null` thumbnail, and the dialog resets. Otherwise nothing changes |
| Playlists.SpacesAreNotEmpty | src/pages/PlayList/Playlists.jsx:49 | the guard does not trim: a name of spaces is sent |
| Playlists.Delete | src/pages/PlayList/Playlists.jsx:68-76 | a declined confirmation sends nothing. Once the call resolves, exactly the playlists with the id go, whatever the body says. A rejection changes nothing |
| Playlists.DeleteRemovesExactly | src/pages/PlayList/Playlists.jsx:72 | after deleting, no playlist has the id, every other playlist remains, in order |
| Playlists.DeleteTwiceIsDeleteOnce | src/pages/PlayList/Playlists.jsx:72 | deleting the same id again removes nothing more |
| Playlists.DeleteUndoesAdd | src/pages/PlayList/Playlists.jsx:55-72 | deleting a just-created playlist under a fresh id restores the list |

## Left out

- Negative and fractional durations, and fractional time differences. `Math.floor` on a float is not modelled: durations are natural numbers.
- Durations.RelativeTime: the difference is a whole number of seconds. `Date` arithmetic and the `Intl.RelativeTimeFormat` text are not modelled, only the unit index and the signed count handed to it.
- `alert`, `console` output, `window.confirm` (taken as a boolean input) and the in-flight flags that only disable buttons (`savingAccount`, `changingPass`, `uploadingAvatar`, `uploadingCover`, the home page's `isLoading` beyond its final value).
- `JSON.stringify` of request bodies: the bodies are maps of JSON values. `FormData` uploads are only a "file chosen" flag.
- The URLs and methods of the watch page's like, dislike and comment requests, and of the settings page's image uploads. For these the model records whether a request is sent, and the reply it gets as an input.
- `handleLike` goes through the bearer wrapper while `handleDislike` calls `fetch` directly. Both handlers take the settled result of their request as input; the wrappers themselves are modelled separately.
- `undefined` versus `null`, and an absent property versus one set to `undefined`. An `undefined` comment or `data` is `null` in the model, and assigning `undefined` removes the property.
- The settings page's initial load of the current user, the watch page's initial loads (video, channel, comments, current user, subscription status), view counting on a timer, and history posts. These are I/O with no further logic.
- VideoPlayer.AddComment: the list updater runs during rendering. With a JSON `null` body it throws there, after the draft has been cleared. The model keeps the list as it was and clears the draft. What React then does with the render error is not modelled.
- VideoPlayer.EditComment and VideoPlayer.DeleteComment: `c._id` throws in the updater when the list holds a `null` comment. The model gives such an entry no id: an edit keeps it as it is and renames the others, and a delete keeps it and removes the others. The page instead leaves the list unchanged and raises a render error.
- The state updater of the like/dislike handlers runs during rendering. When the reply's `data` is `null` or missing it throws there, and the model keeps the video as it was. Any other `data` that is not an object gives undefined counts and flags, which are applied as on the page.
- Home.Fetched: a reply whose page numbers are not numbers is treated as malformed, and so is a `data.data` that is a non-null primitive or a list. The page would store whatever the reads give, `undefined` included. Only a `null` or missing `data.data` makes it throw.
- Home.ErrorOf: the text of the error is not modelled, only its kind. A non-2xx status fails with a TypeError because `error` in `new error(...)` is the state variable, not a constructor.
- BearerFetch.AccessToken: a truthy access token that is not a string is treated as missing.
- VideoPlayer.InitialCount: a non-numeric `subscribersCount` starts the counter at 0.
- Playlists.Loaded: a list entry that is itself a list is treated as failing the load, whereas the page would set `firstThumbnail` on it.
- Playlists.Created: a `data` that is a list is treated as a failed create, whereas the page would set `firstThumbnail` on it and put it first.
- Playlists.WithThumbnail: `pl.videos` as a non-empty string (which the page would index) is treated as no videos.
- The token service's module is not part of this model; it is a single get/set/clear cell.
- Calls past the end of the outcome sequence see a transport failure. This is an artifact of the oracle: every call reads its own outcome.
- Concurrency: simultaneous refreshes, overlapping handlers, and React's batching of state updates. Each call and handler runs to completion in turn.
- JSX rendering, routing, layout and the static pages.

## Findings

| source | as written | input that shows it | evidently intended | confidence | as-written member | corrected member |
|---|---|---|---|---|---|---|
| src/pages/ChannelPage.jsx:16-21 | the minutes field is `Math.floor(s / 60)`, the total minute count, printed after the hour field | 3661 s prints `1:61:01`, which reads back as 7261 s | minutes within the hour, `Math.floor((s % 3600) / 60)`, padded to two digits after an hour field: `1:01:01` | not executed | ChannelPage.FormatDurationMisreads | ChannelPage.FormatDurationFixedRoundTrip |
| src/pages/HomePage.jsx:42-55 | `setError` is called only in the `catch`; a later successful fetch never clears it, and the page renders the error before the videos | a rejected fetch, then a good reply | a successful fetch clears the error and the videos show again | not executed | Home.FailedThenGoodLoadShowsError | Home.FixedRecovers |
