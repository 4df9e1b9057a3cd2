/**
 * The account records of auth.py: the record a signup writes, the profile
 * merge, and the direct score write. Account creation itself (Firebase
 * authentication) is outside the model: its outcome is a parameter.
 */
module Auth {
  import opened Wrappers
  import opened Store
  import opened Ledger

  /** `get_user_data`: the stored user record, or `None` when there is none. */
  function GetUserData(db: Db, uid: string): (r: Option<Record>)
    reads db
    ensures r.Some? <==> exists i :: 0 <= i < |db.users| && db.users[i].key == uid
  {
    Get(db.users, uid)
  }

  /** The record `signup` stores for a new account: score 10, not banned, profile not complete. */
  function SignupRecord(email: string, username: string): (r: Record)
    ensures StandingOf(r) == Fresh
    ensures UserTyped(r)
    ensures r.Keys == {UsernameKey, EmailKey, ScoreKey, CompleteKey, BannedKey}
    ensures r[CompleteKey] == VBool(false) && r[BannedKey] == VBool(false) && r[ScoreKey] == VInt(10)
    ensures r[UsernameKey] == VStr(username) && r[EmailKey] == VStr(email)
  {
    map[UsernameKey := VStr(username), EmailKey := VStr(email), ScoreKey := VInt(10),
        CompleteKey := VBool(false), BannedKey := VBool(false)]
  }

  /**
   * `signup`: `created` is the id Firebase gives the new account, or `None`
   * when account creation failed; the record is stored only for a created account.
   */
  method Signup(db: Db, created: Option<string>, email: string, username: string) returns (user: Option<string>)
    requires db.Valid()
    modifies db
    ensures db.Valid()
    ensures user == created
    ensures created.None? ==> db.users == old(db.users)
    ensures created.Some? ==> db.users == SetNode(old(db.users), created.value, SignupRecord(email, username))
    ensures db.posts == old(db.posts) && db.comments == old(db.comments)
  {
    if created.None? {
      return None;
    }
    db.SetUser(created.value, SignupRecord(email, username));
    return created;
  }

  /** The record `update_profile` writes: the new fields win, the others keep their values, and the profile is marked complete. */
  function MergeProfile(current: Record, profileData: Record): (r: Record)
    ensures r.Keys == current.Keys + profileData.Keys + {CompleteKey}
    ensures r[CompleteKey] == VBool(true)
    ensures forall k :: k in profileData && k != CompleteKey ==> r[k] == profileData[k]
    ensures forall k :: k in current && k !in profileData && k != CompleteKey ==> r[k] == current[k]
  {
    current + profileData + map[CompleteKey := VBool(true)]
  }

  /**
   * `update_profile`: merges `profileData` into the stored record. With no
   * stored record the merge raises (`{**None}`), so nothing is written and
   * `ok` is false.
   */
  method UpdateProfile(db: Db, uid: string, profileData: Record) returns (ok: bool)
    requires db.Valid() && UserTyped(profileData)
    modifies db
    ensures db.Valid()
    ensures ok <==> old(Get(db.users, uid)).Some?
    ensures !ok ==> db.users == old(db.users)
    ensures ok ==> db.users == UpdateNode(old(db.users), uid, MergeProfile(old(Get(db.users, uid)).value, profileData))
    ensures db.posts == old(db.posts) && db.comments == old(db.comments)
  {
    var current := GetUserData(db, uid);
    if current.None? {
      return false;
    }
    var i := Find(db.users, uid).value;
    assert UserTyped(db.users[i].val);
    db.UpdateUser(uid, MergeProfile(current.value, profileData));
    return true;
  }

  /** After `update_profile` the stored record is exactly the merge, and its reputation fields are untouched unless `profileData` names them. */
  lemma StoredProfileIsMerge(users: seq<Entry>, uid: string, profileData: Record)
    requires Get(users, uid).Some?
    requires ScoreKey !in profileData && BadCountKey !in profileData && BannedKey !in profileData
    ensures var cur := Get(users, uid).value;
            var after := Get(UpdateNode(users, uid, MergeProfile(cur, profileData)), uid);
            after == Some(MergeProfile(cur, profileData)) && StandingOf(after.value) == StandingOf(cur)
  {
    var cur := Get(users, uid).value;
    var m := MergeProfile(cur, profileData);
    assert cur + m == m;
  }

  /**
   * `update_reputation_score`: `reachable` is false when the write raises;
   * then nothing is written and the result is false.
   */
  method UpdateReputationScore(db: Db, uid: string, newScore: int, reachable: bool) returns (ok: bool)
    requires db.Valid()
    modifies db
    ensures db.Valid()
    ensures ok == reachable
    ensures ok ==> db.users == UpdateNode(old(db.users), uid, map[ScoreKey := VInt(newScore)])
    ensures !ok ==> db.users == old(db.users)
    ensures db.posts == old(db.posts) && db.comments == old(db.comments)
  {
    if !reachable {
      return false;
    }
    db.UpdateUser(uid, map[ScoreKey := VInt(newScore)]);
    return true;
  }

  /** A direct score write changes the score and nothing else: in particular it never lifts a ban. */
  lemma ScoreWriteKeepsRest(users: seq<Entry>, uid: string, newScore: int)
    requires Get(users, uid).Some?
    ensures var before := Get(users, uid).value;
            var after := Get(UpdateNode(users, uid, map[ScoreKey := VInt(newScore)]), uid).value;
            && StandingOf(after) == StandingOf(before).(score := newScore)
            && (forall k :: k in before && k != ScoreKey ==> k in after && after[k] == before[k])
  {
  }
}
