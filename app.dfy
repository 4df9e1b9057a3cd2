/**
 * app.py: the Streamlit front end's own copy of the reputation rule, the
 * routing decision taken at login, and the guards on new posts and
 * comments. The session is the two entries of `st.session_state` the code
 * reads and writes; what Firebase authentication and the detection model
 * produced are inputs.
 */
module App {
  import opened Wrappers
  import opened Text
  import opened Store
  import opened Ledger
  import Auth
  import Reputation
  import Database
  import Detector

  /**
   * `decrease_reputation` as app.py defines it: the same rule as
   * reputation.py, with messages instead of a return value. A user with no
   * (or an empty) record is left alone.
   */
  method DecreaseReputationApp(db: Db, uid: string)
    requires db.Valid()
    modifies db
    ensures db.Valid()
    ensures db.users == Reputation.DecreaseEffect(old(db.users), uid)
    ensures db.posts == old(db.posts) && db.comments == old(db.comments)
  {
    var userData := Auth.GetUserData(db, uid);
    if !Truthy(userData) {
      return;
    }
    var rec := userData.value;
    var currentScore := IntField(rec, ScoreKey, InitialScore);
    var badCommentsCount := IntField(rec, BadCountKey, 0) + 1;
    Reputation.StepWritesAsIssued(rec);
    ghost var before := db.users;
    Reputation.EffectIsUpdate(before, uid);
    if badCommentsCount % 2 == 0 {
      var newScore := Max(0, currentScore - 1);
      var first := map[ScoreKey := VInt(newScore), BadCountKey := VInt(badCommentsCount)];
      db.UpdateUser(uid, first);
      if newScore < BanThreshold {
        db.UpdateUser(uid, map[BannedKey := VBool(true)]);
        Reputation.UpdateTwice(before, uid, first, map[BannedKey := VBool(true)]);
      }
    } else {
      db.UpdateUser(uid, map[BadCountKey := VInt(badCommentsCount)]);
    }
  }

  // ------------------------------------------------------------ login

  /** `email.split('@')[0]`: the text before the first '@', or all of it when there is none. */
  function LocalPart(email: string): (r: string)
    ensures |r| <= |email| && r == email[..|r|]
    ensures '@' !in r
    ensures |r| < |email| ==> email[|r|] == '@'
  {
    if email == [] || email[0] == '@' then [] else [email[0]] + LocalPart(email[1..])
  }

  /** The record the login page creates for an account that has no record: named after the e-mail's local part. */
  function LoginProfile(email: string): (r: Record)
    ensures StandingOf(r) == Fresh && UserTyped(r)
    ensures !FlagField(r, BannedKey) && !FlagField(r, CompleteKey)
    ensures r == Auth.SignupRecord(email, LocalPart(email))
  {
    map[UsernameKey := VStr(LocalPart(email)), EmailKey := VStr(email), ScoreKey := VInt(10),
        CompleteKey := VBool(false), BannedKey := VBool(false)]
  }

  /** Where a successful login leads. */
  datatype Route = Banned | CompleteProfile | Home

  /** A banned account is turned away; otherwise an incomplete profile is sent to be completed, and a complete one home. */
  function LoginRoute(rec: Record): (r: Route)
    ensures r == Banned <==> FlagField(rec, BannedKey)
    ensures r == CompleteProfile <==> !FlagField(rec, BannedKey) && !FlagField(rec, CompleteKey)
  {
    if FlagField(rec, BannedKey) then Banned
    else if !FlagField(rec, CompleteKey) then CompleteProfile
    else Home
  }

  /** What `st.session_state` holds: the signed-in user and the page shown. */
  class Session {
    var user: Option<string>
    var page: string

    constructor ()
      ensures user == None && page == "login"
    {
      user, page := None, "login";
    }
  }

  /**
   * The login button of `show_login_page`: `signedIn` is the id Firebase
   * gives for the credentials, `None` when they are wrong. An account with
   * no record gets one first; a banned account is signed out again.
   */
  method Login(session: Session, db: Db, signedIn: Option<string>, email: string)
    requires db.Valid()
    modifies session, db
    ensures db.Valid()
    ensures signedIn.None? ==> db.users == old(db.users) && session.user == old(session.user) && session.page == old(session.page)
    ensures signedIn.Some? ==>
              var uid := signedIn.value;
              && db.users == (if old(Get(db.users, uid)).None? then SetNode(old(db.users), uid, LoginProfile(email)) else old(db.users))
              && Get(db.users, uid).Some?
              && var route := LoginRoute(Get(db.users, uid).value);
              && session.user == (if route == Banned then None else Some(uid))
              && session.page == (match route case Banned => old(session.page) case CompleteProfile => "complete_profile" case Home => "home")
    ensures db.posts == old(db.posts) && db.comments == old(db.comments)
  {
    if signedIn.None? {
      return;
    }
    var uid := signedIn.value;
    session.user := Some(uid);
    var userData := Auth.GetUserData(db, uid);
    if userData.None? {
      db.SetUser(uid, LoginProfile(email));
      userData := Auth.GetUserData(db, uid);
    }
    var rec := userData.value;
    if FlagField(rec, BannedKey) {
      session.user := None;
    } else if !FlagField(rec, CompleteKey) {
      session.page := "complete_profile";
    } else {
      session.page := "home";
    }
  }

  /** A new account, whether made at signup or at its first login, is sent to complete its profile. */
  lemma NewAccountCompletesProfile(email: string, username: string)
    ensures LoginRoute(Auth.SignupRecord(email, username)) == CompleteProfile
    ensures LoginRoute(LoginProfile(email)) == CompleteProfile
  {
  }

  /** An account signed up with `signup` and then flagged `k` times is turned away at login exactly when `k >= 12`. */
  lemma TurnedAwayAfterFlags(users: seq<Entry>, uid: string, email: string, username: string, k: nat)
    requires Get(users, uid) == Some(Auth.SignupRecord(email, username))
    ensures Get(Reputation.DecreasedTimes(users, uid, k), uid).Some?
    ensures LoginRoute(Get(Reputation.DecreasedTimes(users, uid, k), uid).value) == Banned <==> k >= 12
  {
    Reputation.SignedUpAccountAfterFlags(users, uid, email, username, k);
    var rec := Get(Reputation.DecreasedTimes(users, uid, k), uid).value;
    assert FlagField(rec, BannedKey) == StandingOf(rec).banned by {
      StoredBanIsBool(users, uid, email, username, k);
    }
  }

  /** The ban flag of that account is always a stored boolean (or absent), so its truthiness is the standing's ban. */
  lemma {:induction false} StoredBanIsBool(users: seq<Entry>, uid: string, email: string, username: string, k: nat)
    requires Get(users, uid) == Some(Auth.SignupRecord(email, username))
    ensures Get(Reputation.DecreasedTimes(users, uid, k), uid).Some?
    ensures var rec := Get(Reputation.DecreasedTimes(users, uid, k), uid).value;
            BannedKey in rec && rec[BannedKey].VBool?
    decreases k
  {
    if k > 0 {
      StoredBanIsBool(users, uid, email, username, k - 1);
      var prev := Reputation.DecreasedTimes(users, uid, k - 1);
      assert Truthy(Get(prev, uid)) by {
        assert BannedKey in Get(prev, uid).value;
      }
    }
  }

  // ------------------------------------------------------------ posts and comments

  /** The guard of `show_create_post`: some non-whitespace content, or an uploaded file. */
  function CanCreatePost(content: string, hasFile: bool): (r: bool)
    ensures r <==> hasFile || exists i :: 0 <= i < |content| && !IsSpace(content[i])
  {
    Strip(content) != [] || hasFile
  }

  /**
   * The Post button of `show_create_post`: `upload` is the address of the
   * uploaded image, if any. An accepted post is stored and the page goes
   * home; a rejected one changes nothing.
   */
  method SubmitPost(session: Session, db: Db, uid: string, content: string, upload: Option<string>,
                    postId: string, timestamp: string)
    requires db.Valid()
    modifies session, db
    ensures db.Valid()
    ensures CanCreatePost(content, upload.Some?) ==>
              db.posts == SetNode(old(db.posts), postId, Database.PostRecord(uid, content, timestamp, upload))
              && session.page == "home"
    ensures !CanCreatePost(content, upload.Some?) ==> db.posts == old(db.posts) && session.page == old(session.page)
    ensures session.user == old(session.user)
    ensures db.users == old(db.users) && db.comments == old(db.comments)
  {
    if CanCreatePost(content, upload.Some?) {
      var _ := Database.CreatePost(db, uid, content, postId, timestamp, upload);
      session.page := "home";
    }
  }

  /**
   * The Post Comment button of `show_home`: a comment with some
   * non-whitespace text is stored with the model's verdict, and a flagged
   * one costs its author one step of the reputation rule.
   */
  method SubmitComment(db: Db, uid: string, postId: string, newComment: string, outcome: Detector.ModelOutcome,
                       commentId: string, timestamp: string)
    requires db.Valid()
    modifies db
    ensures db.Valid()
    ensures Strip(newComment) == [] ==> db.users == old(db.users) && db.comments == old(db.comments)
    ensures Strip(newComment) != [] ==>
              var v := Detector.DetectCyberbullying(outcome);
              && db.comments == old(db.comments)[postId := SetNode(old(db.PostComments(postId)), commentId,
                                   Database.CommentRecord(uid, newComment, timestamp, v.isBullying, v.bullyingType))]
              && db.users == (if v.isBullying then Reputation.DecreaseEffect(old(db.users), uid) else old(db.users))
    ensures db.posts == old(db.posts)
  {
    if Strip(newComment) == [] {
      return;
    }
    var v := Detector.DetectCyberbullying(outcome);
    var _ := Database.CreateComment(db, uid, postId, newComment, v.isBullying, v.bullyingType, commentId, timestamp);
    if v.isBullying {
      DecreaseReputationApp(db, uid);
    }
  }
}
