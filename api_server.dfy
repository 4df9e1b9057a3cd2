/**
 * api/main.py: the request rules of the REST server. Each endpoint is
 * modelled after authentication has resolved the caller: `caller` is the
 * user id a valid token carries. What the classifiers, Firebase
 * authentication and the clock produced are inputs; an `HTTPException` is
 * an `HttpError` result.
 */
module ApiServer {
  import opened Wrappers
  import opened Text
  import opened Store
  import opened Ledger
  import opened Labels
  import Auth
  import Reputation
  import opened Database
  import Detector
  import ApiClient

  /** An `HTTPException`: its status code and detail message. */
  datatype HttpError = HttpError(status: nat, detail: string)

  const MaxTextLength := 5000

  // ------------------------------------------------------------ classification

  /** The stripped text of a request, or 400 when nothing is left. */
  function NonEmptyText(raw: string): (r: Result<string, HttpError>)
    ensures r.Ok? <==> Strip(raw) != []
    ensures r.Ok? ==> r.value == Strip(raw)
    ensures r.Err? ==> r.error.status == 400
  {
    var text := Strip(raw);
    if text == [] then Err(HttpError(400, "Text cannot be empty")) else Ok(text)
  }

  /** The validation of `classify_text`: stripped, non-empty and at most 5000 characters long. */
  function ValidateText(raw: string): (r: Result<string, HttpError>)
    ensures r.Ok? <==> Strip(raw) != [] && |Strip(raw)| <= MaxTextLength
    ensures r.Ok? ==> r.value == Strip(raw)
    ensures r.Err? ==> r.error.status == 400
  {
    match NonEmptyText(raw)
    case Err(e) => Err(e)
    case Ok(text) => if |text| > MaxTextLength then Err(HttpError(400, "Text too long (max 5000 characters)")) else Ok(text)
  }

  /** The body `classify_text` returns. */
  datatype ClassificationResult = ClassificationResult(
    text: string, localModelLabel: Option<string>, geminiLabel: Option<string>,
    geminiExplanation: Option<ApiClient.Json>, finalLabel: string, isBullying: bool, bullyingType: Option<string>)

  /**
   * `classify_text`: `localLabel` and `gemini` are what the two classifiers
   * gave for the stripped text. The fields come from the detailed
   * classification, so the verdict is the one the final label maps to.
   */
  function ClassifyText(raw: string, localLabel: Option<string>, gemini: Option<ApiClient.GeminiAnswer>)
    : (r: Result<ClassificationResult, HttpError>)
    ensures r.Ok? <==> ValidateText(raw).Ok?
    ensures r.Err? ==> r.error.status == 400
    ensures r.Ok? ==> r.value.text == Strip(raw)
    ensures r.Ok? ==> (r.value.isBullying <==> r.value.finalLabel != NotCyberbullying)
    ensures r.Ok? ==> r.value.bullyingType == (if r.value.isBullying then Some(Lower(r.value.finalLabel)) else None)
    ensures r.Ok? ==> r.value.localModelLabel == localLabel
    ensures r.Ok? ==> r.value.geminiLabel == (if gemini.Some? then Some(gemini.value.category) else None)
    ensures r.Ok? ==> r.value.geminiExplanation == (if gemini.Some? then Some(gemini.value.explanation) else None)
    ensures r.Ok? && ApiClient.HasCategory(gemini) ==> r.value.finalLabel == gemini.value.category
    ensures r.Ok? && !ApiClient.HasCategory(gemini) && ApiClient.Given(localLabel) ==> r.value.finalLabel == localLabel.value
    ensures r.Ok? && !ApiClient.HasCategory(gemini) && !ApiClient.Given(localLabel) ==> r.value.finalLabel == NotCyberbullying
  {
    match ValidateText(raw)
    case Err(e) => Err(e)
    case Ok(text) =>
      var d := ApiClient.GetDetailedClassification(localLabel, gemini);
      Ok(ClassificationResult(text, d.localLabel, d.apiLabel, d.apiExplanation, d.finalLabel,
                              d.verdict.isBullying, d.verdict.bullyingType))
  }

  /** The body of the single-classifier endpoints. */
  datatype LabelResponse = LabelResponse(text: string, className: string, explanation: Option<ApiClient.Json>,
                                         isBullying: bool, bullyingType: Option<string>, model: string)

  /** `classify_local_only`: `local` is the local model's label, `None` when it raised (500). */
  function ClassifyLocalOnly(raw: string, local: Option<string>): (r: Result<LabelResponse, HttpError>)
    ensures NonEmptyText(raw).Err? ==> r.Err? && r.error.status == 400
    ensures NonEmptyText(raw).Ok? && local.None? ==> r.Err? && r.error.status == 500
    ensures r.Ok? <==> NonEmptyText(raw).Ok? && local.Some?
    ensures r.Ok? ==> r.value.className == local.value && r.value.text == Strip(raw)
    ensures r.Ok? ==> (r.value.isBullying <==> local.value != NotCyberbullying)
    ensures r.Ok? ==> r.value.bullyingType == (if r.value.isBullying then Some(Lower(local.value)) else None)
  {
    match NonEmptyText(raw)
    case Err(e) => Err(e)
    case Ok(text) =>
      if local.None? then Err(HttpError(500, "Model error"))
      else
        var v := VerdictOf(local.value);
        Ok(LabelResponse(text, local.value, None, v.isBullying, v.bullyingType, "boss2805/cyberbully"))
  }

  /**
   * `classify_gemini_only`: 400 for an empty text, 503 when no key is
   * configured, 500 when Gemini gives no category.
   */
  function ClassifyGeminiOnly(raw: string, keyConfigured: bool, gemini: Option<ApiClient.GeminiAnswer>)
    : (r: Result<LabelResponse, HttpError>)
    ensures NonEmptyText(raw).Err? ==> r.Err? && r.error.status == 400
    ensures NonEmptyText(raw).Ok? && !keyConfigured ==> r.Err? && r.error.status == 503
    ensures NonEmptyText(raw).Ok? && keyConfigured && gemini.None? ==> r.Err? && r.error.status == 500
    ensures r.Ok? <==> NonEmptyText(raw).Ok? && keyConfigured && gemini.Some?
    ensures r.Ok? ==> r.value.className == gemini.value.category && r.value.explanation == Some(gemini.value.explanation)
    ensures r.Ok? ==> (r.value.isBullying <==> gemini.value.category != NotCyberbullying)
    ensures r.Ok? ==> r.value.bullyingType == (if r.value.isBullying then Some(Lower(gemini.value.category)) else None)
  {
    match NonEmptyText(raw)
    case Err(e) => Err(e)
    case Ok(text) =>
      if !keyConfigured then Err(HttpError(503, "Gemini API not configured"))
      else if gemini.None? then Err(HttpError(500, "Gemini API failed to respond"))
      else
        var v := VerdictOf(gemini.value.category);
        Ok(LabelResponse(text, gemini.value.category, Some(gemini.value.explanation), v.isBullying, v.bullyingType,
                         "gemini-2.0-flash"))
  }

  /** The three classification endpoints agree: given the same Gemini answer, the Gemini-only verdict is the combined one, and without it the local-only verdict is. */
  lemma EndpointsAgree(raw: string, local: Option<string>, gemini: Option<ApiClient.GeminiAnswer>)
    requires ValidateText(raw).Ok?
    ensures gemini.Some? && gemini.value.category in ApiClient.ValidCategories ==>
              ClassifyGeminiOnly(raw, true, gemini).value.isBullying == ClassifyText(raw, local, gemini).value.isBullying
    ensures gemini.None? && ApiClient.Given(local) ==>
              ClassifyLocalOnly(raw, local).value.isBullying == ClassifyText(raw, local, gemini).value.isBullying
              && ClassifyLocalOnly(raw, local).value.bullyingType == ClassifyText(raw, local, gemini).value.bullyingType
  {
    if gemini.Some? && gemini.value.category in ApiClient.ValidCategories {
      ApiClient.GeminiCategoryIsTruthy(gemini);
    }
  }

  // ------------------------------------------------------------ accounts

  /** The user object the account endpoints return; `reputation` is the score on the feed's 0-100 scale. */
  datatype UserView = UserView(id: string, email: string, username: string, reputationScore: int, reputation: int, isBanned: bool)

  /** The view of a stored user record: a missing score counts as 10, a missing name as "User". */
  function ViewOf(uid: string, email: string, rec: Record): (v: UserView)
    ensures v.reputation == 10 * v.reputationScore
    ensures v.reputationScore == StandingOf(rec).score && v.isBanned == StandingOf(rec).banned
    ensures ScoreKey !in rec ==> v.reputation == 100
  {
    var score := IntField(rec, ScoreKey, InitialScore);
    UserView(uid, email, StrField(rec, UsernameKey, "User"), score, score * 10, BoolField(rec, BannedKey, false))
  }

  /**
   * `login_user`: `signedIn` is the id Firebase gives for the credentials
   * (`None` when they are wrong). Unknown credentials give 401, a missing
   * or empty record 404, a banned account 403.
   */
  function LoginUser(users: seq<Entry>, signedIn: Option<string>, email: string): (r: Result<UserView, HttpError>)
    ensures signedIn.None? ==> r.Err? && r.error.status == 401
    ensures signedIn.Some? && !Truthy(Get(users, signedIn.value)) ==> r.Err? && r.error.status == 404
    ensures signedIn.Some? && Truthy(Get(users, signedIn.value)) && StandingOf(Get(users, signedIn.value).value).banned ==>
              r.Err? && r.error.status == 403
    ensures r.Ok? <==> signedIn.Some? && Truthy(Get(users, signedIn.value)) && !StandingOf(Get(users, signedIn.value).value).banned
    ensures r.Ok? ==> !r.value.isBanned && r.value.id == signedIn.value && r.value.reputation == 10 * r.value.reputationScore
  {
    if signedIn.None? then Err(HttpError(401, "Invalid credentials"))
    else
      var userData := Get(users, signedIn.value);
      if !Truthy(userData) then Err(HttpError(404, "User data not found"))
      else if BoolField(userData.value, BannedKey, false) then Err(HttpError(403, "Account is banned"))
      else Ok(ViewOf(signedIn.value, email, userData.value))
  }

  /** `get_current_user`: the caller's view, 404 without a record; a banned account is not rejected here. */
  function CurrentUser(users: seq<Entry>, caller: string, email: string): (r: Result<UserView, HttpError>)
    ensures r.Ok? <==> Truthy(Get(users, caller))
    ensures r.Err? ==> r.error.status == 404
    ensures r.Ok? ==> r.value.id == caller && r.value.reputation == 10 * r.value.reputationScore
    ensures r.Ok? ==> r.value.isBanned == StandingOf(Get(users, caller).value).banned
  {
    var userData := Get(users, caller);
    if !Truthy(userData) then Err(HttpError(404, "User not found")) else Ok(ViewOf(caller, email, userData.value))
  }

  /** A logged-in view and the view of `/api/auth/me` for the same account are the same. */
  lemma LoginMatchesCurrentUser(users: seq<Entry>, uid: string, email: string)
    requires LoginUser(users, Some(uid), email).Ok?
    ensures CurrentUser(users, uid, email) == LoginUser(users, Some(uid), email)
  {
  }

  /**
   * `signup_user`: `created` is the id of the new account, `None` when
   * Firebase refused it (400). The view returned is fixed at score 10,
   * reputation 100, not banned, and it is what `/api/auth/me` returns next.
   */
  method SignupUser(db: Db, created: Option<string>, email: string, username: string) returns (r: Result<UserView, HttpError>)
    requires db.Valid()
    modifies db
    ensures db.Valid()
    ensures created.None? ==> r.Err? && r.error.status == 400 && db.users == old(db.users)
    ensures created.Some? ==> r == Ok(UserView(created.value, email, username, 10, 100, false))
    ensures created.Some? ==> db.users == SetNode(old(db.users), created.value, Auth.SignupRecord(email, username))
    ensures r.Ok? ==> CurrentUser(db.users, created.value, email) == r
    ensures db.posts == old(db.posts) && db.comments == old(db.comments)
  {
    var user := Auth.Signup(db, created, email, username);
    if user.None? {
      return Err(HttpError(400, "Failed to create account"));
    }
    r := Ok(UserView(user.value, email, username, 10, 100, false));
    assert Get(db.users, user.value) == Some(Auth.SignupRecord(email, username));
  }

  /** A signed-up account that has had `k` comments flagged can still log in exactly when `k < 12`. */
  lemma LoginAfterFlags(users: seq<Entry>, uid: string, email: string, username: string, k: nat)
    requires Get(users, uid) == Some(Auth.SignupRecord(email, username))
    ensures LoginUser(Reputation.DecreasedTimes(users, uid, k), Some(uid), email).Ok? <==> k < 12
  {
    Reputation.SignedUpAccountAfterFlags(users, uid, email, username, k);
  }

  // ------------------------------------------------------------ comments

  /** `next((c for c in comments if c.get('id') == commentId), None)`. */
  function FirstWithId(rs: seq<Record>, id: string): (r: Option<Record>)
    ensures r.Some? ==> r.value in rs && IdKey in r.value && r.value[IdKey] == VStr(id)
    ensures r.None? ==> forall i :: 0 <= i < |rs| ==> ValueAt(rs[i], IdKey) != VStr(id)
  {
    if rs == [] then None
    else if ValueAt(rs[0], IdKey) == VStr(id) then Some(rs[0])
    else FirstWithId(rs[1..], id)
  }

  /** Over the fetched comments, the search by id finds the stored comment under that key, with its id attached. */
  lemma {:induction false} FirstWithIdIsGet(es: seq<Entry>, id: string)
    ensures FirstWithId(WithIds(es), id) == if Get(es, id).Some? then Some(WithId(Entry(id, Get(es, id).value))) else None
    decreases |es|
  {
    if es != [] {
      assert WithIds(es)[1..] == WithIds(es[1..]);
      FirstWithIdIsGet(es[1..], id);
    }
  }

  /** The owner of a stored comment as the ownership check reads it. */
  function OwnerOf(comment: Record): (owner: Value)
    ensures UserIdKey in comment ==> owner == comment[UserIdKey]
    ensures UserIdKey !in comment ==> owner == VNull
  {
    ValueAt(comment, UserIdKey)
  }

  /**
   * `delete_comment`: 404 when the post has no comment with that id, 403
   * when the caller does not own it, and otherwise the comment is removed.
   */
  method DeleteCommentEndpoint(db: Db, postId: string, commentId: string, caller: string) returns (r: Result<string, HttpError>)
    requires db.Valid()
    modifies db
    ensures db.Valid()
    ensures var c := Get(old(db.PostComments(postId)), commentId);
            && (c.None? ==> r == Err(HttpError(404, "Comment not found")))
            && (c.Some? && OwnerOf(c.value) != VStr(caller) ==> r.Err? && r.error.status == 403)
            && (r.Ok? <==> c.Some? && OwnerOf(c.value) == VStr(caller))
    ensures r.Err? ==> db.comments == old(db.comments)
    ensures r.Ok? ==> db.comments == old(db.comments)[postId := RemoveNode(old(db.PostComments(postId)), commentId)]
    ensures db.users == old(db.users) && db.posts == old(db.posts)
  {
    var comments := GetPostComments(db, postId);
    FirstWithIdIsGet(db.PostComments(postId), commentId);
    var comment := FirstWithId(comments, commentId);
    if comment.None? {
      return Err(HttpError(404, "Comment not found"));
    }
    if ValueAt(comment.value, UserIdKey) != VStr(caller) {
      return Err(HttpError(403, "You can only delete your own comments"));
    }
    var _ := DeleteComment(db, postId, commentId);
    return Ok("Comment deleted successfully");
  }

  /** The comment object `add_comment` returns. */
  datatype CommentView = CommentView(id: string, userId: string, userName: string, content: string, timestamp: string,
                                     isBullying: bool, bullyingType: Option<string>)

  /** The author name shown in a response: the stored name, or `fallback` when the record is missing or has none. */
  function AuthorName(users: seq<Entry>, uid: string, fallback: string): (name: string)
    ensures !Truthy(Get(users, uid)) ==> name == fallback
    ensures Truthy(Get(users, uid)) && UsernameKey in Get(users, uid).value && Get(users, uid).value[UsernameKey].VStr? ==>
              name == Get(users, uid).value[UsernameKey].s
    ensures Truthy(Get(users, uid)) && UsernameKey !in Get(users, uid).value ==> name == fallback
  {
    var u := Get(users, uid);
    if Truthy(u) then StrField(u.value, UsernameKey, fallback) else fallback
  }

  /**
   * `add_comment`: `outcome` is what the detection model made of the
   * comment, `commentId` and `timestamp` the values the store and the clock
   * give. The comment is stored with its verdict, and the author is
   * penalised exactly when it is flagged.
   */
  method AddComment(db: Db, postId: string, content: string, caller: string, outcome: Detector.ModelOutcome,
                    commentId: string, timestamp: string, now: string) returns (view: CommentView)
    requires db.Valid()
    modifies db
    ensures db.Valid()
    ensures var v := Detector.DetectCyberbullying(outcome);
            && view == CommentView(commentId, caller, AuthorName(old(db.users), caller, "User"), content, now,
                                   v.isBullying, v.bullyingType)
            && db.comments == old(db.comments)[postId := SetNode(old(db.PostComments(postId)), commentId,
                                                                 CommentRecord(caller, content, timestamp, v.isBullying, v.bullyingType))]
            && db.users == (if v.isBullying then Reputation.DecreaseEffect(old(db.users), caller) else old(db.users))
    ensures db.posts == old(db.posts)
  {
    var v := Detector.DetectCyberbullying(outcome);
    var id := CreateComment(db, caller, postId, content, v.isBullying, v.bullyingType, commentId, timestamp);
    var userName := AuthorName(db.users, caller, "User");
    if v.isBullying {
      var _ := Reputation.DecreaseReputation(db, caller);
    }
    view := CommentView(id, caller, userName, content, now, v.isBullying, v.bullyingType);
  }

  /** A comment changes its author's standing by one step of the rule exactly when it is flagged, and nobody else's. */
  lemma CommentPenalty(users: seq<Entry>, caller: string, outcome: Detector.ModelOutcome)
    requires Truthy(Get(users, caller))
    ensures var v := Detector.DetectCyberbullying(outcome);
            var after := if v.isBullying then Reputation.DecreaseEffect(users, caller) else users;
            && StandingOf(Get(after, caller).value) == (if v.isBullying then Step(StandingOf(Get(users, caller).value))
                                                          else StandingOf(Get(users, caller).value))
            && (forall k :: k != caller ==> Get(after, k) == Get(users, k))
  {
    if Detector.DetectCyberbullying(outcome).isBullying {
      Reputation.DecreaseFollowsRule(users, caller);
    }
  }

  // ------------------------------------------------------------ posts

  /** The post object the post endpoints return. */
  datatype PostView = PostView(id: string, userId: string, userName: string, content: string, imageUrl: Value,
                               timestamp: string, likes: seq<string>, commentCount: nat, isBullying: bool,
                               bullyingType: Value)

  /**
   * `create_new_post`: the post is stored without an image and never
   * classified; the response echoes the submitted image address and is
   * never flagged.
   */
  method CreateNewPost(db: Db, caller: string, content: string, imageUrl: Option<string>, postId: string,
                       timestamp: string, now: string) returns (view: PostView)
    requires db.Valid()
    modifies db
    ensures db.Valid()
    ensures db.posts == SetNode(old(db.posts), postId, PostRecord(caller, content, timestamp, None))
    ensures db.users == old(db.users) && db.comments == old(db.comments)
    ensures view.id == postId && view.userId == caller && view.content == content
    ensures view.imageUrl == (if imageUrl.Some? then VStr(imageUrl.value) else VNull)
    ensures view.likes == [] && view.commentCount == 0 && !view.isBullying && view.bullyingType == VNull
    ensures view.userName == AuthorName(old(db.users), caller, "User")
  {
    var id := CreatePost(db, caller, content, postId, timestamp, None);
    var userName := AuthorName(db.users, caller, "User");
    view := PostView(id, caller, userName, content, if imageUrl.Some? then VStr(imageUrl.value) else VNull,
                     now, [], 0, false, VNull);
  }

  /** Python's `a < b` on strings: lexicographic by code point. */
  predicate StrLess(a: string, b: string)
    decreases |a|
  {
    if a == [] then b != []
    else if b == [] then false
    else a[0] < b[0] || (a[0] == b[0] && StrLess(a[1..], b[1..]))
  }

  /** String order is asymmetric: a string less than another is not greater than it. */
  lemma {:induction false} StrLessAsymmetric(a: string, b: string)
    requires StrLess(a, b)
    ensures !StrLess(b, a)
    decreases |a|
  {
    if a != [] && a[0] == b[0] {
      StrLessAsymmetric(a[1..], b[1..]);
    }
  }

  /** `post.get('timestamp', '')`, the sort key of `get_posts`. */
  function TimestampOf(rec: Record): string {
    StrField(rec, TimestampKey, "")
  }

  /** Newest first: no post is followed by one with a later timestamp. */
  predicate NewestFirst(rs: seq<Record>) {
    forall i :: 0 <= i < |rs| - 1 ==> !StrLess(TimestampOf(rs[i]), TimestampOf(rs[i + 1]))
  }

  /** Inserts `x` into a list after every post at least as new as it. */
  function Insert(x: Record, rs: seq<Record>): (r: seq<Record>)
    ensures |r| == |rs| + 1
    ensures multiset(r) == multiset(rs) + multiset{x}
  {
    if rs == [] || StrLess(TimestampOf(rs[0]), TimestampOf(x)) then [x] + rs
    else
      assert rs == [rs[0]] + rs[1..];
      [rs[0]] + Insert(x, rs[1..])
  }

  /** Inserting into a newest-first list keeps it newest first. */
  lemma {:induction false} InsertNewestFirst(x: Record, rs: seq<Record>)
    requires NewestFirst(rs)
    ensures NewestFirst(Insert(x, rs))
    ensures Insert(x, rs)[0] == x || (rs != [] && Insert(x, rs)[0] == rs[0])
    decreases |rs|
  {
    if rs == [] {
      assert Insert(x, rs) == [x];
    } else if !StrLess(TimestampOf(rs[0]), TimestampOf(x)) {
      var tail := rs[1..];
      TailNewestFirst(rs);
      InsertNewestFirst(x, tail);
      var rest := Insert(x, tail);
      assert Insert(x, rs) == [rs[0]] + rest;
      assert tail != [] ==> tail[0] == rs[1];
      ConsNewestFirst(rs[0], rest);
    } else {
      StrLessAsymmetric(TimestampOf(rs[0]), TimestampOf(x));
      assert Insert(x, rs) == [x] + rs;
      ConsNewestFirst(x, rs);
    }
  }

  /** The tail of a newest-first list is newest first. */
  lemma TailNewestFirst(rs: seq<Record>)
    requires rs != [] && NewestFirst(rs)
    ensures NewestFirst(rs[1..])
  {
    var tail := rs[1..];
    forall i | 0 <= i < |tail| - 1 ensures !StrLess(TimestampOf(tail[i]), TimestampOf(tail[i + 1])) {
      assert tail[i] == rs[i + 1] && tail[i + 1] == rs[i + 2];
    }
  }

  /** A post no older than the head of a newest-first list can be put in front of it. */
  lemma ConsNewestFirst(h: Record, rest: seq<Record>)
    requires NewestFirst(rest)
    requires rest != [] ==> !StrLess(TimestampOf(h), TimestampOf(rest[0]))
    ensures NewestFirst([h] + rest)
  {
    var r := [h] + rest;
    forall i | 0 <= i < |r| - 1 ensures !StrLess(TimestampOf(r[i]), TimestampOf(r[i + 1])) {
      if i > 0 {
        assert r[i] == rest[i - 1] && r[i + 1] == rest[i];
      }
    }
  }

  /** `sorted(posts, key=timestamp, reverse=True)`. */
  function SortNewestFirst(rs: seq<Record>): (r: seq<Record>)
    ensures NewestFirst(r)
    ensures multiset(r) == multiset(rs)
    ensures |r| == |rs|
    decreases |rs|
  {
    if rs == [] then []
    else
      var init := SortNewestFirst(rs[..|rs| - 1]);
      assert rs == rs[..|rs| - 1] + [rs[|rs| - 1]];
      InsertNewestFirst(rs[|rs| - 1], init);
      Insert(rs[|rs| - 1], init)
  }

  /** The view `get_posts` builds for one fetched post. */
  function PostViewOf(db: Db, post: Record): (v: PostView)
    reads db
    ensures v.timestamp == TimestampOf(post)
    ensures v.likes == LikesOf(post)
    ensures v.commentCount == |db.PostComments(StrField(post, IdKey, ""))|
  {
    var uid := StrField(post, UserIdKey, "");
    PostView(StrField(post, IdKey, ""), uid, AuthorName(db.users, uid, "Unknown"), StrField(post, ContentKey, ""),
             ValueAt(post, "image_url"), TimestampOf(post), LikesOf(post),
             |db.PostComments(StrField(post, IdKey, ""))|, BoolField(post, "is_bullying", false), ValueAt(post, "bullying_type"))
  }

  /**
   * `get_posts`: every post once, newest first, each with its author's
   * name, its like list (a legacy counter shows as no likes) and its
   * number of comments.
   */
  method GetPosts(db: Db) returns (views: seq<PostView>)
    ensures var sorted := SortNewestFirst(GetAllPosts(db));
            |views| == |sorted| && forall i :: 0 <= i < |views| ==> views[i] == PostViewOf(db, sorted[i])
    ensures |views| == |db.posts|
    ensures forall i :: 0 <= i < |views| - 1 ==> !StrLess(views[i].timestamp, views[i + 1].timestamp)
  {
    var sorted := SortNewestFirst(GetAllPosts(db));
    views := [];
    var i := 0;
    while i < |sorted|
      invariant 0 <= i <= |sorted|
      invariant |views| == i
      invariant forall j :: 0 <= j < i ==> views[j] == PostViewOf(db, sorted[j])
    {
      views := views + [PostViewOf(db, sorted[i])];
      i := i + 1;
    }
  }

  // ------------------------------------------------------------ likes and search

  /** The body of `toggle_like_post`. */
  datatype LikeResponse = LikeResponse(likes: seq<string>, liked: bool)

  /** `toggle_like_post`: 404 for a missing post; otherwise the toggled list and whether the caller is now in it. */
  method ToggleLikeEndpoint(db: Db, postId: string, caller: string) returns (r: Result<LikeResponse, HttpError>)
    requires db.Valid()
    modifies db
    ensures db.Valid()
    ensures var p := old(Get(db.posts, postId));
            && (!Truthy(p) ==> r == Err(HttpError(404, "Post not found")) && db.posts == old(db.posts))
            && (Truthy(p) ==> r.Ok? && r.value.likes == Toggle(LikesOf(p.value), caller)
                              && db.posts == UpdateNode(old(db.posts), postId, map[LikesKey := VList(r.value.likes)]))
    ensures r.Ok? ==> (r.value.liked <==> caller in r.value.likes)
    ensures db.users == old(db.users) && db.comments == old(db.comments)
  {
    var post := GetPost(db, postId);
    if post.None? {
      return Err(HttpError(404, "Post not found"));
    }
    var likes := ToggleLike(db, postId, caller);
    return Ok(LikeResponse(likes.value, caller in likes.value));
  }

  /** A like from a caller who is in the list at most once is taken back, and one from a caller who is not is recorded. */
  lemma LikedFlips(likes: seq<string>, caller: string)
    requires multiset(likes)[caller] <= 1
    ensures caller in Toggle(likes, caller) <==> caller !in likes
  {
    ToggleFlips(likes, caller);
  }

  /** `search_users`: a query shorter than two characters gives no users and reads nothing; otherwise the first ten hits. */
  method SearchUsersEndpoint(db: Db, q: string) returns (users: seq<SearchHit>)
    ensures |q| < 2 ==> users == []
    ensures |q| >= 2 ==> var all := Hits(db.users, q);
                         users == if |all| <= SearchLimit then all else all[..SearchLimit]
    ensures |users| <= SearchLimit
  {
    if |q| < 2 {
      return [];
    }
    users := SearchUsers(db, q);
  }
}
