/**
 * frontend/src/app/feed/page.tsx: the reputation bands of the feed (on the
 * 0-100 scale), the value the page shows for a reputation, the comment
 * panel's expand/collapse state, and the guards on the submit buttons.
 * Rendering and the HTTP requests are outside the model.
 */
module Feed {
  import opened Wrappers
  import opened Text
  import opened Store
  import opened Ledger
  import Auth
  import Database
  import ApiServer

  // ------------------------------------------------------------ bands

  /** The colour classes of `getReputationColor`, from the lowest band to the highest. */
  const ColorClasses: seq<string> := ["text-red-400", "text-orange-400", "text-yellow-400", "text-green-400"]

  /** The band of a colour: its place in `ColorClasses`. */
  function ColorRank(c: string): nat {
    if c == ColorClasses[3] then 3 else if c == ColorClasses[2] then 2 else if c == ColorClasses[1] then 1 else 0
  }

  /** `getReputationColor`: green from 80, yellow from 60, orange from 40, red below. */
  function ReputationColor(reputation: int): (c: string)
    ensures c in ColorClasses
    ensures c == "text-green-400" <==> reputation >= 80
    ensures c == "text-red-400" <==> reputation < 40
  {
    if reputation >= 80 then "text-green-400"
    else if reputation >= 60 then "text-yellow-400"
    else if reputation >= 40 then "text-orange-400"
    else "text-red-400"
  }

  /** A higher reputation never gets a lower colour band. */
  lemma ColorMonotone(a: int, b: int)
    requires a <= b
    ensures ColorRank(ReputationColor(a)) <= ColorRank(ReputationColor(b))
  {
  }

  /** The badge of `getReputationBadge`: its text and its colour class. */
  datatype Badge = Badge(name: string, color: string)

  /** The badges, from the lowest band to the highest. */
  const Badges: seq<Badge> := [Badge("Critical", "bg-red-500"), Badge("Poor", "bg-orange-500"), Badge("Fair", "bg-yellow-500"),
                               Badge("Good", "bg-blue-500"), Badge("Excellent", "bg-green-500")]

  /** The band of a badge: its place in `Badges`. */
  function BadgeRank(b: Badge): nat {
    if b == Badges[4] then 4 else if b == Badges[3] then 3 else if b == Badges[2] then 2 else if b == Badges[1] then 1 else 0
  }

  /** `getReputationBadge`: Excellent from 90, Good from 70, Fair from 50, Poor from 30, Critical below. */
  function ReputationBadge(reputation: int): (b: Badge)
    ensures b in Badges
    ensures b.name == "Excellent" <==> reputation >= 90
    ensures b.name == "Critical" <==> reputation < 30
  {
    if reputation >= 90 then Badge("Excellent", "bg-green-500")
    else if reputation >= 70 then Badge("Good", "bg-blue-500")
    else if reputation >= 50 then Badge("Fair", "bg-yellow-500")
    else if reputation >= 30 then Badge("Poor", "bg-orange-500")
    else Badge("Critical", "bg-red-500")
  }

  /** A higher reputation never gets a lower badge. */
  lemma BadgeMonotone(a: int, b: int)
    requires a <= b
    ensures BadgeRank(ReputationBadge(a)) <= BadgeRank(ReputationBadge(b))
  {
  }

  /** The two bands never contradict each other at the ends: an Excellent badge is green and a Critical one red. */
  lemma BandsAgreeAtEnds(reputation: int)
    ensures ReputationBadge(reputation).name == "Excellent" ==> ReputationColor(reputation) == "text-green-400"
    ensures ReputationBadge(reputation).name == "Critical" ==> ReputationColor(reputation) == "text-red-400"
  {
  }

  // ------------------------------------------------------------ the value shown

  /** `reputation || 100`: a missing reputation and a reputation of 0 are both shown as 100. */
  function DisplayedReputation(reputation: Option<int>): (r: int)
    ensures reputation.None? || reputation.value == 0 ==> r == 100
    ensures reputation.Some? && reputation.value != 0 ==> r == reputation.value
    ensures r != 0
  {
    if reputation.None? || reputation.value == 0 then 100 else reputation.value
  }

  /** A reputation of 0, the score of an account that has lost every point, is shown as 100 with the best badge. */
  lemma ZeroShownAsExcellent()
    ensures DisplayedReputation(Some(0)) == 100
    ensures ReputationBadge(DisplayedReputation(Some(0))).name == "Excellent"
    ensures ReputationColor(DisplayedReputation(Some(0))) == "text-green-400"
  {
  }

  /** The header of an account whose score has fallen to 0 says Excellent, although the account is banned. */
  lemma EmptiedAccountLooksExcellent(users: seq<Entry>, uid: string, email: string)
    requires Truthy(Get(users, uid))
    requires StandingOf(Get(users, uid).value).score == 0
    ensures ApiServer.CurrentUser(users, uid, email).Ok?
    ensures ReputationBadge(DisplayedReputation(Some(ApiServer.CurrentUser(users, uid, email).value.reputation))).name == "Excellent"
  {
  }

  /** `reputation ?? 100`: only a missing reputation falls back to 100. */
  function ShownReputation(reputation: Option<int>): (r: int)
    ensures reputation.None? ==> r == 100
    ensures reputation.Some? ==> r == reputation.value
  {
    if reputation.None? then 100 else reputation.value
  }

  /** The header's badge for the account view `/api/auth/me` returns, with the corrected `??` fallback rather than the page's `||`. */
  function CorrectedHeaderBadge(view: ApiServer.UserView): (b: Badge)
    ensures b == ReputationBadge(view.reputation)
  {
    ReputationBadge(ShownReputation(Some(view.reputation)))
  }

  /** With the fallback kept for a missing value, the header's badge follows the score: Critical below 3 points, Excellent from 9. */
  lemma HeaderBadgeFollowsScore(users: seq<Entry>, uid: string, email: string)
    requires Truthy(Get(users, uid))
    ensures var view := ApiServer.CurrentUser(users, uid, email).value;
            var score := StandingOf(Get(users, uid).value).score;
            && (CorrectedHeaderBadge(view).name == "Critical" <==> score < 3)
            && (CorrectedHeaderBadge(view).name == "Excellent" <==> score >= 9)
  {
  }

  // ------------------------------------------------------------ search results

  /** The badge the search list shows for a hit. */
  function SearchBadge(hit: Database.SearchHit): (b: Badge)
    ensures hit.reputation != 0 ==> b == ReputationBadge(hit.reputation)
    ensures hit.reputation == 0 ==> b.name == "Excellent"
    ensures 0 < hit.reputation < 30 ==> b.name == "Critical"
  {
    ReputationBadge(DisplayedReputation(Some(hit.reputation)))
  }

  /** A freshly signed-up account is Excellent in the header but Critical in the search list, whose reputation is the 0-10 score. */
  lemma FreshAccountSearchedLooksCritical(uid: string, email: string, username: string)
    ensures var rec := Auth.SignupRecord(email, username);
            && SearchBadge(Database.HitOf(Entry(uid, rec))).name == "Critical"
            && ReputationBadge(DisplayedReputation(Some(ApiServer.ViewOf(uid, email, rec).reputation))).name == "Excellent"
  {
  }

  /** The badge of a search hit with the corrected `??` fallback, kept only for a missing value. */
  function CorrectedResultBadge(hit: Database.SearchHit): (b: Badge)
    ensures b == ReputationBadge(hit.reputation)
  {
    ReputationBadge(ShownReputation(Some(hit.reputation)))
  }

  /** With hits scaled to 0-100, every account gets the same badge in the search list as in its own header. */
  lemma ScaledSearchMatchesHeader(uid: string, email: string, rec: Record)
    ensures CorrectedResultBadge(Database.ScaledHitOf(Entry(uid, rec))) == CorrectedHeaderBadge(ApiServer.ViewOf(uid, email, rec))
  {
  }

  // ------------------------------------------------------------ page state

  /** The state of the feed page that `toggleComments` reads and writes. */
  class FeedState {
    /** The post whose comments are open, if any. */
    var expandedPost: Option<string>
    /** The comment lists fetched so far, by post id. */
    var comments: map<string, seq<string>>
    /** The posts whose comments have been requested, in order. */
    var requested: seq<string>

    constructor ()
      ensures expandedPost == None && comments == map[] && requested == []
    {
      expandedPost, comments, requested := None, map[], [];
    }

    /**
     * `toggleComments`: the open post is closed; any other post is opened,
     * and its comments are requested unless a list (even an empty one) is
     * already cached.
     */
    method ToggleComments(postId: string)
      modifies this
      ensures old(expandedPost) == Some(postId) ==> expandedPost == None && requested == old(requested)
      ensures old(expandedPost) != Some(postId) ==> expandedPost == Some(postId)
      ensures old(expandedPost) != Some(postId) ==>
                requested == (if postId in old(comments) then old(requested) else old(requested) + [postId])
      ensures comments == old(comments)
    {
      if expandedPost == Some(postId) {
        expandedPost := None;
      } else {
        expandedPost := Some(postId);
        if postId !in comments {
          requested := requested + [postId];
        }
      }
    }

    /** The answer to a comment request arrives: the list is cached under the post. */
    method CommentsFetched(postId: string, ids: seq<string>)
      modifies this
      ensures comments == old(comments)[postId := ids]
      ensures expandedPost == old(expandedPost) && requested == old(requested)
    {
      comments := comments[postId := ids];
    }
  }

  /** Toggling the same post twice leaves it closed again, with at most one request sent. */
  method ToggleTwiceCloses(state: FeedState, postId: string)
    requires state.expandedPost == None
    modifies state
    ensures state.expandedPost == None
    ensures |state.requested| <= |old(state.requested)| + 1
  {
    state.ToggleComments(postId);
    state.ToggleComments(postId);
  }

  // ------------------------------------------------------------ submit guards

  /** `handleSubmitPost` sends a post only when signed in and the text is not all whitespace. */
  function CanSubmitPost(newPost: string, signedIn: bool): (r: bool)
    ensures r <==> signedIn && exists i :: 0 <= i < |newPost| && !IsJsSpace(newPost[i])
  {
    JsTrim(newPost) != [] && signedIn
  }

  /** `handleAddComment` sends a comment only when signed in and the post's draft exists and is not all whitespace. */
  function CanSubmitComment(drafts: map<string, string>, postId: string, signedIn: bool): (r: bool)
    ensures r <==> signedIn && postId in drafts && exists i :: 0 <= i < |drafts[postId]| && !IsJsSpace(drafts[postId][i])
  {
    postId in drafts && JsTrim(drafts[postId]) != [] && signedIn
  }

  /** `handleSearch` sends a query only when it is not all whitespace. */
  function CanSearch(query: string): (r: bool)
    ensures r <==> exists i :: 0 <= i < |query| && !IsJsSpace(query[i])
  {
    JsTrim(query) != []
  }

  /** A one-letter query passes the page's guard, but the server answers it with no users. */
  method OneLetterQuery(db: Db, c: char) returns (users: seq<Database.SearchHit>)
    requires !IsJsSpace(c)
    ensures CanSearch([c]) && users == []
  {
    assert [c][0] == c;
    users := ApiServer.SearchUsersEndpoint(db, [c]);
  }
}
