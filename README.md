# CyberGuard Social — a Dafny model of its moderation core

CyberGuard Social is a small social network in which every comment passes
through a cyberbullying classifier. A flagged comment costs its author
reputation: every second flagged comment takes one point off a score that
starts at 10, never going below 0. An account that falls below 5 points is
banned. Two front ends share one Firebase Realtime Database. The first is a
Streamlit app (`app.py`, `auth.py`, `database.py`, `reputation.py`). The
second is a FastAPI server (`api/main.py`) with a Next.js client. The
server's classification combines a local transformer model
(`detector.py`) with a Gemini or custom HTTP classifier (`api_client.py`).

The model is a set of Dafny modules, one per source file, over a few shared
ones:

- `wrappers.dfy`: `Option`, `Result`, `Max`, `Min`.
- `text.dfy`: Python's `str.strip()`, `lower()`, `split()`, `' '.join`, JavaScript's `trim()`, and `in` on strings.
- `store.dfy`: the database as three ordered key/record lists (`users`, `posts`, `comments` per post). Records are maps of JSON-like values. `Db` is a class whose methods are the Firebase `set`, `update` and `remove` calls the source makes.
- `ledger.dfy`: the reputation rule on a (score, bad-comment count, banned) standing, with its closed form.
- `labels.dfy`: the verdict `(is_bullying, bullying_type)` of a class label.
- `reputation.dfy`, `auth.dfy`, `database.dfy`, `detector.dfy`, `api_client.dfy`, `app.dfy`, `api_server.dfy`: the Python code, file by file.
- `feed.dfy`, `profile.dfy`: the reputation bands, guards and page state of the two Next.js pages.

Database calls, Firebase authentication, the transformer and the HTTP
classifiers are not modelled. What they return becomes a parameter:

- `created` / `signedIn`: the account id Firebase gives, or `None`.
- `ModelOutcome`: the transformer's class id, or a failure.
- `GeminiReply` / `CustomReply`: the remote classifiers' replies.
- `localLabel`: the local label.
- `postId`, `commentId`, `timestamp`: the generated ids and clock readings.

Operations that change the database are methods on `Db`. Each one states
the new lists through the pure `SetNode`, `UpdateNode`, `RemoveNode` and
`DecreaseEffect` functions, and the lemmas are stated about those functions.

## Model

| member | source | states |
|---|---|---|
| Ledger.Step | reputation.py:20-41 | one flagged comment adds one to the count; the score drops by at most one and only on an even count, stays at or above 0 and never rises; a ban is never lifted, and is newly set only below 5 points |
| Ledger.ClosedForm | reputation.py:20-41 | after k flagged comments the score is the start score less the number of even counts reached, floored at 0; the ban is set once such a step lands below 5 |
| Ledger.FreshAccount | reputation.py:20-41 | an account starting at 10 points with no flags has `max(0, 10 - k/2)` points after k flagged comments and is banned exactly when k >= 12 |
| Ledger.FreshAccountExamples | reputation.py:12-13 | 4 flags leave 8 points, 10 flags leave 5 points unbanned, 12 flags leave 4 points and a ban |
| Ledger.TwoFlagsOnePoint | reputation.py:12 | every two flagged comments take exactly one point, floored at 0 |
| Ledger.Monotone | reputation.py:25-41 | the score never rises and never goes negative, and a ban persists, over any number of flags |
| Reputation.StepWrites | reputation.py:20-45 | the fields written for one flagged comment: always the new count, the score only on an even count, `is_banned = True` only when that score is below 5; merged into the record they give exactly the next standing |
| Reputation.DecreaseEffect | reputation.py:15-45 | a missing or empty record leaves the users unchanged; otherwise only that user's record changes, merged with the step's writes |
| Reputation.DecreaseReputation | reputation.py:8-46 | the users become `DecreaseEffect` of the old users, nothing else changes; the result is `None` for a missing record, the new score on an even count, the old score on an odd one |
| Reputation.StepWritesAsIssued | reputation.py:26-45 | the step's writes are exactly the calls the code issues: the count alone on an odd count, score and count on an even one, then the ban when the new score is below 5 |
| Reputation.UpdateTwice | reputation.py:30-39 | two successive `update` calls on one record equal one update with the merged fields |
| Reputation.DecreaseFollowsRule | reputation.py:15-45 | the stored standing after a decrease is `Step` of the standing before it |
| Reputation.RepeatedDecreases | reputation.py:8-46 | k decreases move the user's standing by k steps of the rule and leave every other user untouched |
| Reputation.SignedUpAccountAfterFlags | reputation.py:8-46 | a signed-up account flagged k times has `max(0, 10 - k/2)` points and is banned iff k >= 12 |
| Auth.GetUserData | auth.py:48-49 | a record is returned exactly when the user has a node |
| Auth.SignupRecord | auth.py:35-41 | the new record holds exactly the username, the email, a score of 10, an incomplete profile and no ban, which is a fresh standing |
| Auth.Signup | auth.py:30-46 | a failed account creation changes nothing; a created account gets the signup record under its id and nothing else changes |
| Auth.MergeProfile | auth.py:53 | the merged record has the old keys, the new keys and `profile_complete`; new values win over old ones and the profile is complete |
| Auth.UpdateProfile | auth.py:51-54 | a missing record makes the call fail (`{**None}` raises) with nothing changed; otherwise the user's record is updated with the merge |
| Auth.StoredProfileIsMerge | auth.py:51-54 | a profile update that carries no reputation fields leaves the standing as it was, and the stored record is the merge |
| Auth.UpdateReputationScore | auth.py:56-62 | when the database is reachable only the user's score field is written and the result is true; otherwise nothing changes and the result is false |
| Auth.ScoreWriteKeepsRest | auth.py:59 | writing a score changes the score and keeps the count, the ban and every other field |
| Database.WithId | database.py:45 | a fetched record is the stored one with its key attached as `id` |
| Database.WithIds | database.py:44-46 | fetching keeps the order and the number of nodes, each with its id |
| Database.GetAllPosts | database.py:42-46 | one record per stored post, in order, each with the post's key as `id` |
| Database.GetPostComments | database.py:63-67 | one record per comment of the post, in order, each with its key as `id` |
| Database.GetPost | database.py:119-123 | a record exactly when the post's node is truthy, namely the stored post with its id |
| Database.PostRecord | database.py:23-37 | a new post has the author, content, timestamp, an empty like list and the image address or null |
| Database.CreatePost | database.py:19-40 | the post is stored under the given id, nothing else changes, and the id is returned |
| Database.CommentRecord | database.py:52-58 | a new comment has the author, content, timestamp, verdict flag and category or null |
| Database.CreateComment | database.py:48-61 | the comment is stored under the post and its id, nothing else changes, and the id is returned |
| Database.DeleteComment | database.py:69-72 | the comment node is removed, nothing else changes, and the result is always true |
| Database.HitOf | database.py:87-92 | a hit carries the user's key, and the stored score as its reputation, or 100 when there is none |
| Database.ScaledHitOf | database.py:87-92 | the corrected hit: the same key, email and name, with the reputation on the 0-100 scale the feed shows |
| Database.Hits | database.py:80-92 | the matching users in store order, one hit each, never more hits than users |
| Database.HitsNoneOrAll | database.py:80-92 | no matching user gives no hit; when every user matches there is one hit per user |
| Database.HitsAppend | database.py:80-92 | searching a concatenation of user lists gives the concatenation of the searches |
| Database.HitsExact | database.py:80-92 | a user is a hit exactly when the lower-cased query occurs in their lower-cased username or email |
| Database.SearchUsers | database.py:74-94 | the result is the first ten hits, in database order |
| Database.LikesOf | database.py:104-108 | the stored like list, or none when it is missing or a legacy integer |
| Database.RemoveFirst | database.py:111 | `list.remove` takes out exactly one occurrence |
| Database.WithoutConcat | database.py:110-113 | removing a user from a concatenation removes it from each part |
| Database.IndexOf | database.py:110-111 | the position of the first occurrence: it holds the user and no earlier entry does |
| Database.RemoveFirstAt | database.py:111 | `list.remove` takes out the first occurrence only: entries before it stay in place and entries after it move up by one |
| Database.RemoveFirstSlices | database.py:111 | the result is the list before the first occurrence followed by the list after it |
| Database.WithoutRemoveFirst | database.py:111 | once every occurrence of a user is ignored, removing the first one changes nothing |
| Database.RemoveFirstOfAppended | database.py:111-113 | removing a user just appended to a list that did not hold it restores the list |
| Database.Toggle | database.py:110-113 | a user not in the list is appended at the end; a user in it has the first occurrence cut out, the entries before and after it kept |
| Database.ToggleKeepsOthers | database.py:110-113 | a toggle never changes the other users' likes |
| Database.ToggleFlips | database.py:110-113 | an absent user is appended; a present user loses one occurrence; with at most one occurrence, membership flips |
| Database.ToggleTwiceRestores | database.py:110-113 | liking then unliking restores the list |
| Database.ToggleLike | database.py:97-116 | a falsy post gives `None` and changes nothing; otherwise the post's likes become the toggled list, which is returned |
| Detector.KeepLettersAndSpace | detector.py:65 | only ASCII letters and whitespace remain, all taken from the input, and a text already made of them is unchanged |
| Detector.KeepLettersAndSpaceAppend | detector.py:65 | the filter works character by character: it distributes over concatenation and keeps one character exactly when it is an ASCII letter or whitespace |
| Detector.Collapse | detector.py:67 | the result is empty exactly when the input is, starts with whitespace exactly when the input does, and introduces no non-whitespace character |
| Detector.CollapseSingleSpaces | detector.py:67 | after collapsing, every whitespace character is a single space and no two are adjacent |
| Detector.CollapseKeepsWords | detector.py:67 | collapsing whitespace keeps the text's words, in order |
| Detector.CollapseFixed | detector.py:67 | a text whose only whitespace is single spaces is unchanged by collapsing |
| Detector.DropStopwords | detector.py:69 | the kept words are no stop words, come from the input, and all words are kept when none is a stop word |
| Detector.DropStopwordsAppend | detector.py:69 | filtering distributes over concatenation |
| Detector.Preprocess | detector.py:60-70 | the result is lower-case letters and single inner spaces with no edge spaces; its words are the filtered words and none is a stop word |
| Detector.PreprocessWordsClean | detector.py:60-70 | every preprocessed word is non-empty and made of lower-case letters |
| Detector.CleanTextIsFixed | detector.py:60-70 | preprocessing a text that is already clean leaves its words as they are |
| Detector.PreprocessKeepsWords | detector.py:60-70 | the output's words are the words of the lower-cased letters-only input with the stop words dropped, in input order |
| Detector.PreprocessIdempotent | detector.py:60-70 | preprocessing twice is preprocessing once |
| Detector.DetectCyberbullying | detector.py:72-106 | a prediction in range gives the verdict of its class label; a missing model or a failed prediction gives (False, None) |
| Detector.DetectionCases | detector.py:93-97 | the comment is flagged exactly for class ids 0, 1 and 3; the category is present exactly when flagged, and is the label in lower case |
| Labels.VerdictOf | detector.py:96-97 | flagged exactly when the label is not "Not Cyberbullying"; the category is then the lower-cased label, otherwise absent |
| ApiClient.NormalizeCategory | api_client.py:92-104 | the result is always a valid category, and a valid category is kept |
| ApiClient.KeywordOrder | api_client.py:94-104 | an invalid category is mapped by the first keyword group it mentions, in the order race or ethnic, gender or sexual, religion, not or safe |
| ApiClient.NormalizeIdempotent | api_client.py:92-104 | normalising twice is normalising once |
| ApiClient.NegatedRaceIsRace | api_client.py:95-96 | the substring tests are naive: "not race" is normalised to Ethnicity/Race |
| ApiClient.NoMentionIsOther | api_client.py:103-104 | an invalid category that mentions none of the keywords becomes "Other" |
| ApiClient.RemoveAll | api_client.py:83 | `str.replace` with an empty replacement never lengthens the text, and changes it exactly when the pattern occurs in it |
| ApiClient.RemoveAllKeepsChars | api_client.py:83 | removal only takes characters out: the result's characters are among the input's |
| ApiClient.RemoveAllTakesCopies | api_client.py:83 | the text shrinks by exactly the pattern's length for each copy removed |
| ApiClient.RemoveFenceKeepsHead | api_client.py:83 | removing fences keeps a first character that is not a backtick |
| ApiClient.RemoveFenceLeavesNone | api_client.py:83 | after removing every code fence, no three consecutive backticks remain |
| ApiClient.NoFenceNotContained | api_client.py:83 | a text without three consecutive backticks does not contain a fence |
| ApiClient.StripKeepsNoFence | api_client.py:83 | stripping cannot create a fence |
| ApiClient.CleanResponseText | api_client.py:76-83 | the cleaned reply contains no code fence |
| ApiClient.FirstMentioned | api_client.py:109-112 | the first category, in list order, whose lower-cased name occurs in the lower-cased reply; none when no name occurs |
| ApiClient.PlainTextCategory | api_client.py:108-114 | the plain-text fallback answers a valid category that the reply mentions, with the whole reply as its explanation, exactly when some category is mentioned |
| ApiClient.InterpretAnswer | api_client.py:86-123 | a parsed object with a string category answers that category normalised, with the object's explanation or ""; a category that is not a string, or a decoded value that is not an object, answers nothing; a missing category defaults to "Not Cyberbullying"; malformed JSON falls back to the plain text; an answer's category is always valid |
| ApiClient.ValidCategoryAnswerKept | api_client.py:86-106 | an object with a valid category is answered with that category and its explanation |
| ApiClient.ClassifyWithGemini | api_client.py:20-123 | a failed or empty request answers nothing; a reply's text is answered by interpreting its fence-free cleaned text and that text's decoding; the category is always valid |
| ApiClient.FirstKey | api_client.py:157-165 | the first of the result keys that the body holds |
| ApiClient.AsResult | api_client.py:157-165 | a JSON null is returned as None |
| ApiClient.GeminiCategoryIsTruthy | api_client.py:140-142 | a valid Gemini category is never empty, so it is always returned |
| ApiClient.ClassifyWithApi | api_client.py:126-174 | a Gemini category wins; without it and without a custom URL or body the result is None; otherwise the first of `category`, `label`, `prediction`, `class` in a JSON object, else the stripped body, else None |
| ApiClient.GetDetailedClassification | api_client.py:177-211 | the final label is Gemini's when given, else the local label when given, else "Not Cyberbullying"; the verdict is that label's |
| ApiClient.BothFailedMeansSafe | api_client.py:201-210 | when both classifiers fail the text is classed safe, not flagged |
| ApiClient.FinalLabelIsValid | api_client.py:177-211 | with a local label from the model's labels, the final label is always a valid category |
| ApiServer.NonEmptyText | api/main.py:205-208 | the stripped text is accepted exactly when it is not empty, and 400 otherwise |
| ApiServer.ValidateText | api/main.py:181-187 | accepted exactly when the stripped text is non-empty and at most 5000 characters long; 400 otherwise |
| ApiServer.ClassifyText | api/main.py:173-200 | a result exactly for valid text; the local and Gemini labels and the explanation are passed through; the final label is Gemini's category when given, else the local label when given, else "Not Cyberbullying"; it is flagged exactly when the final label is not "Not Cyberbullying", and the category is the lower-cased label |
| ApiServer.ClassifyLocalOnly | api/main.py:202-222 | 400 for empty text, 500 when the model fails; otherwise the local label with its verdict |
| ApiServer.ClassifyGeminiOnly | api/main.py:224-249 | 400 for empty text, 503 without a key, 500 without an answer; otherwise Gemini's label, explanation and verdict |
| ApiServer.EndpointsAgree | api/main.py:173-249 | the combined endpoint agrees with the Gemini-only one when Gemini answers, and with the local-only one when it does not |
| ApiServer.ViewOf | api/main.py:287-300 | the view's reputation is ten times the score, the score and the ban are the record's, and a record without a score shows 100 |
| ApiServer.LoginUser | api/main.py:269-306 | 401 for bad credentials, 404 without a record, 403 when banned; otherwise the caller's view, not banned, on both scales |
| ApiServer.CurrentUser | api/main.py:339-365 | 404 exactly when the record is missing or empty; the view reports the stored ban and does not reject it |
| ApiServer.LoginMatchesCurrentUser | api/main.py:269-365 | after a successful login, `/api/auth/me` returns the same view |
| ApiServer.SignupUser | api/main.py:308-337 | a failed creation gives 400 and changes nothing; a created account stores the signup record and returns (10, 100, not banned), which is what `/api/auth/me` then returns |
| ApiServer.LoginAfterFlags | api/main.py:276-284 | a signed-up account can log in exactly while it has fewer than 12 flagged comments |
| ApiServer.FirstWithId | api/main.py:503 | the comment found has the requested id; none found means no comment has it |
| ApiServer.FirstWithIdIsGet | api/main.py:501-503 | looking up by id in the fetched list finds exactly the stored comment with that key |
| ApiServer.OwnerOf | api/main.py:509 | the stored `user_id` of the comment, or null when it has none |
| ApiServer.DeleteCommentEndpoint | api/main.py:495-519 | 404 for a missing comment, 403 for another user's; only the owner's request removes it, and an error changes nothing |
| ApiServer.AuthorName | api/main.py:475-485 | the stored username of a present account, or the fallback name when the account or its username is missing |
| ApiServer.AddComment | api/main.py:456-492 | the comment is stored with the detector's verdict; the author's record takes one step of the rule exactly when flagged; posts are untouched |
| ApiServer.CommentPenalty | api/main.py:477-480 | a flagged comment moves its author's standing one step and no other user's; a clean one changes nothing |
| ApiServer.CreateNewPost | api/main.py:405-428 | the post is stored without an image and the response echoes the requested image, no likes, no comments and no flag |
| ApiServer.StrLessAsymmetric | api/main.py:381 | string order is asymmetric |
| ApiServer.Insert | api/main.py:381 | insertion adds exactly the new post, as a multiset |
| ApiServer.InsertNewestFirst | api/main.py:381 | inserting into a newest-first list keeps it newest first |
| ApiServer.SortNewestFirst | api/main.py:381 | the sorted posts are newest first and a permutation of the input |
| ApiServer.PostViewOf | api/main.py:384-399 | the view carries the post's timestamp, its like list (a legacy integer counts as none) and its number of comments |
| ApiServer.GetPosts | api/main.py:371-403 | one view per post, built from the posts sorted newest first, with timestamps non-increasing |
| ApiServer.ToggleLikeEndpoint | api/main.py:522-538 | 404 for a missing post; otherwise the toggled like list, and `liked` holds exactly when the caller is now in it |
| ApiServer.LikedFlips | api/main.py:532-534 | for a caller liked at most once, `liked` is the opposite of before |
| ApiServer.SearchUsersEndpoint | api/main.py:545-557 | a query shorter than two characters gives no users; otherwise at most ten hits, the first of the search |
| App.DecreaseReputationApp | app.py:43-76 | the Streamlit copy of the rule has exactly the effect of reputation.py's |
| App.LocalPart | app.py:99 | the text before the first '@', which holds no '@' |
| App.LoginProfile | app.py:98-104 | the record made at first login is the signup record named after the e-mail's local part |
| App.LoginRoute | app.py:109-117 | a truthy ban turns the user away; otherwise an incomplete profile is sent to be completed and a complete one home |
| App.Login | app.py:88-119 | bad credentials change nothing; otherwise a missing record is created first, a banned user is signed out and the others are routed by their record |
| App.NewAccountCompletesProfile | app.py:95-113 | an account new at signup or at first login is sent to complete its profile |
| App.TurnedAwayAfterFlags | app.py:109-111 | a signed-up account is turned away at login exactly after 12 or more flagged comments |
| App.StoredBanIsBool | app.py:109 | that account's ban flag is always a stored boolean |
| App.CanCreatePost | app.py:271 | a post is accepted exactly when it has non-whitespace text or a file |
| App.SubmitPost | app.py:264-277 | an accepted post is stored and the page goes home; a rejected one changes nothing |
| App.SubmitComment | app.py:238-259 | a whitespace-only comment changes nothing; otherwise it is stored with its verdict and a flagged one costs its author one step of the rule |
| Feed.ReputationColor | frontend/src/app/feed/page.tsx:261-266 | green exactly from 80, red exactly below 40 |
| Feed.ColorMonotone | frontend/src/app/feed/page.tsx:261-266 | a higher reputation never gets a lower colour band |
| Feed.ReputationBadge | frontend/src/app/feed/page.tsx:268-274 | Excellent exactly from 90, Critical exactly below 30 |
| Feed.BadgeMonotone | frontend/src/app/feed/page.tsx:268-274 | a higher reputation never gets a lower badge |
| Feed.BandsAgreeAtEnds | frontend/src/app/feed/page.tsx:261-274 | an Excellent badge is green and a Critical one is red |
| Feed.DisplayedReputation | frontend/src/app/feed/page.tsx:291 | the `or 100` fallback of JavaScript shows both a missing reputation and 0 as 100, so the shown value is never 0 |
| Feed.ZeroShownAsExcellent | frontend/src/app/feed/page.tsx:291 | a reputation of 0 is shown as 100, green, with the Excellent badge |
| Feed.EmptiedAccountLooksExcellent | frontend/src/app/feed/page.tsx:291 | an account whose score fell to 0 has an Excellent header badge |
| Feed.ShownReputation | frontend/src/app/feed/page.tsx:291 | the corrected fallback applies to a missing reputation only |
| Feed.HeaderBadgeFollowsScore | frontend/src/app/feed/page.tsx:291 | with the corrected fallback the header is Critical exactly below 3 points and Excellent exactly from 9 |
| Feed.SearchBadge | frontend/src/app/feed/page.tsx:394 | a search hit is badged by its reputation, except that 0 is badged Excellent; a reputation between 1 and 29 is Critical |
| Feed.FreshAccountSearchedLooksCritical | frontend/src/app/feed/page.tsx:394 | a freshly signed-up account is Excellent in its header but Critical in the search list |
| Feed.ScaledSearchMatchesHeader | frontend/src/app/feed/page.tsx:394 | with scaled hits every account gets the same badge in search as in its header |
| Feed.FeedState.ToggleComments | frontend/src/app/feed/page.tsx:230-239 | the open post closes; any other post opens, and its comments are requested unless a list is cached |
| Feed.FeedState.CommentsFetched | frontend/src/app/feed/page.tsx:130-137 | the fetched list is cached under its post |
| Feed.ToggleTwiceCloses | frontend/src/app/feed/page.tsx:230-239 | opening and closing a post leaves it closed after at most one request |
| Feed.CanSubmitPost | frontend/src/app/feed/page.tsx:145-147 | a post is sent exactly when signed in and the text has a non-whitespace character |
| Feed.CanSubmitComment | frontend/src/app/feed/page.tsx:168-170 | a comment is sent exactly when signed in and the post's draft exists and has a non-whitespace character |
| Feed.CanSearch | frontend/src/app/feed/page.tsx:242-243 | a search is sent exactly when the query has a non-whitespace character |
| Feed.OneLetterQuery | frontend/src/app/feed/page.tsx:242-243 | a one-letter query passes the page's guard and the server answers it with no users |
| Profile.ScoreColor | frontend/src/app/profile/page.tsx:61-65 | emerald exactly from 8, red exactly below 5 |
| Profile.ScoreBg | frontend/src/app/profile/page.tsx:67-71 | one of the three bar colours |
| Profile.BgMatchesColor | frontend/src/app/profile/page.tsx:61-71 | the bar and the number are always in the same band |
| Profile.Status | frontend/src/app/profile/page.tsx:73-78 | Excellent exactly from 8, At Risk exactly below 4 |
| Profile.TrendUp | frontend/src/app/profile/page.tsx:180-183 | the arrow points up exactly when the score is not red |
| Profile.RestrictedBelowFive | frontend/src/app/profile/page.tsx:207-209 | for an account started fresh, "below 5 points" and "banned" coincide after any number of flags |
| Profile.TrendMatchesBan | frontend/src/app/profile/page.tsx:180-183 | the arrow points up exactly for accounts that are not banned |
| Profile.StatusOfBannedAccounts | frontend/src/app/profile/page.tsx:73-78 | an At Risk account is banned, but a banned account with 4 points is labelled Fair |

## Left out

- All I/O is left out: Firebase, Firebase Storage uploads, HTTP requests to Gemini and the custom classifier, `uuid`, `datetime.now()`, JWT creation and verification, and logging. Their results are parameters.
- The transformer and the NLTK stop-word download are left out. The model's prediction is a `ModelOutcome`, and the stop-word list is a parameter of `Preprocess`.
- `json.loads` is left out: a reply's parse is given as a `Parse` value.
- `_predict_local_label` is not defined in detector.py, so both `get_detailed_classification` and `api/main.py` fail to import it. The model takes the local label as an input, as if that function existed.
- The classification is fail-open, not fail-safe. When the local model and the remote classifiers all fail, the text is classed "Not Cyberbullying" and the comment is not flagged. The model follows the code (`ApiClient.BothFailedMeansSafe`).
- The `get_comments` endpoint is left out, as are the `/`, `/api/health` and `/api/categories` endpoints and the Streamlit pages' rendering. The complete-profile form is modelled only through `Auth.UpdateProfile`.
- Concurrency is left out: two requests updating the same record race in the source, and the model runs one operation at a time.
- The progress bar's width (a float) and all styling are left out.
- `Text.Lower` covers the ASCII case mapping only; Python's and JavaScript's Unicode case mapping is not modelled. Whitespace follows Python's `str.isspace` and JavaScript's `trim` in full.
- Stored values of an unexpected type (a string score, say) are read as the field's default when computing a standing.
- ApiServer.ClassifyText: the `.get` defaults at api/main.py:194-199 are unreachable and not modelled, and the pydantic check on the response types is left out.
- ApiServer.SortNewestFirst: Python's sort is stable, but the model states only newest-first order and permutation, not that equal timestamps keep their order.
- ApiServer.LikedFlips: membership flips only for a caller who appears at most once, because `list.remove` takes out just one occurrence.
- ApiServer.CurrentUser: a banned account is not rejected here. Bans are enforced only at the two login paths, and the model states exactly that.
- Detector.Preprocess: `detect_cyberbullying` does not call `preprocess_text`, so preprocessing is modelled on its own.

## Findings

| source | as written | input that shows it | evidently intended | confidence | as-written member | corrected member |
|---|---|---|---|---|---|---|
| frontend/src/app/feed/page.tsx:291 | the fallback `user.reputation or-else 100`, written with JavaScript's logical or, treats a reputation of 0 as missing | an account whose score has fallen to 0 (banned) is shown 100 with a green Excellent badge | fall back to 100 only when the value is missing (nullish coalescing) | not executed | Feed.EmptiedAccountLooksExcellent | Feed.HeaderBadgeFollowsScore |
| database.py:91 | `search_users` returns the raw 0-10 score (default 100) as `reputation`, and the feed bands it on the 0-100 scale at frontend/src/app/feed/page.tsx:394 | a freshly signed-up account (score 10) shows as Critical in search but Excellent in its own header | return the score on the 0-100 scale, as `/api/auth/me` does | not executed | Feed.FreshAccountSearchedLooksCritical | Feed.ScaledSearchMatchesHeader |
