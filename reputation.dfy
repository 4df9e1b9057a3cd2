/**
 * reputation.py: `decrease_reputation`, the penalty a user receives for a
 * flagged comment, as writes to the user's record in the store.
 */
module Reputation {
  import opened Wrappers
  import opened Store
  import opened Ledger
  import Auth

  /** The fields `decrease_reputation` writes into a user record `rec`; applied to `rec`, they move its standing one step of the rule. */
  function StepWrites(rec: Record): (w: Record)
    ensures UserTyped(w)
    ensures StandingOf(rec + w) == Step(StandingOf(rec))
    ensures BadCountKey in w && w.Keys <= {ScoreKey, BadCountKey, BannedKey}
    ensures ScoreKey in w <==> Step(StandingOf(rec)).badComments % 2 == 0
    ensures BannedKey in w ==> w[BannedKey] == VBool(true)
  {
    var s := StandingOf(rec);
    var count := s.badComments + 1;
    if count % 2 == 0 then
      var newScore := Max(0, s.score - 1);
      var first := map[ScoreKey := VInt(newScore), BadCountKey := VInt(count)];
      if newScore < BanThreshold then first + map[BannedKey := VBool(true)] else first
    else
      map[BadCountKey := VInt(count)]
  }

  /** The user list after one call: a user with no (or an empty) record is left alone, any other user's record takes the step's writes, and no other user changes. */
  function DecreaseEffect(users: seq<Entry>, uid: string): (r: seq<Entry>)
    ensures !Truthy(Get(users, uid)) ==> r == users
    ensures Truthy(Get(users, uid)) ==> Get(r, uid) == Some(Get(users, uid).value + StepWrites(Get(users, uid).value))
    ensures forall k :: k != uid ==> Get(r, k) == Get(users, k)
  {
    var u := Get(users, uid);
    if Truthy(u) then UpdateNode(users, uid, StepWrites(u.value)) else users
  }

  /**
   * `decrease_reputation(user_id)`. Returns the new score on an even count,
   * the unchanged score on an odd one, and `None` (writing nothing) when the
   * user has no record.
   */
  method DecreaseReputation(db: Db, uid: string) returns (result: Option<int>)
    requires db.Valid()
    modifies db
    ensures db.Valid()
    ensures db.users == DecreaseEffect(old(db.users), uid)
    ensures db.posts == old(db.posts) && db.comments == old(db.comments)
    ensures var u := old(Get(db.users, uid));
            result == if Truthy(u) then Some(Step(StandingOf(u.value)).score) else None
  {
    var userData := Auth.GetUserData(db, uid);
    if !Truthy(userData) {
      return None;
    }
    var rec := userData.value;
    var currentScore := IntField(rec, ScoreKey, InitialScore);
    var badCommentsCount := IntField(rec, BadCountKey, 0) + 1;
    StepWritesAsIssued(rec);
    ghost var before := db.users;
    EffectIsUpdate(before, uid);
    if badCommentsCount % 2 == 0 {
      var newScore := Max(0, currentScore - 1);
      var first := map[ScoreKey := VInt(newScore), BadCountKey := VInt(badCommentsCount)];
      db.UpdateUser(uid, first);
      if newScore < BanThreshold {
        db.UpdateUser(uid, map[BannedKey := VBool(true)]);
        UpdateTwice(before, uid, first, map[BannedKey := VBool(true)]);
      }
      return Some(newScore);
    } else {
      db.UpdateUser(uid, map[BadCountKey := VInt(badCommentsCount)]);
      return Some(currentScore);
    }
  }

  /** For a user with a record, the effect of one call is one update of that record with the step's writes. */
  lemma EffectIsUpdate(users: seq<Entry>, uid: string)
    requires Truthy(Get(users, uid))
    ensures DecreaseEffect(users, uid) == UpdateNode(users, uid, StepWrites(Get(users, uid).value))
  {
  }

  /** The fields of one step as the code issues them: the count alone on an odd count; the score and the count on an even one, followed by the ban when the score falls below 5. */
  lemma StepWritesAsIssued(rec: Record)
    ensures var count := IntField(rec, BadCountKey, 0) + 1;
            var newScore := Max(0, IntField(rec, ScoreKey, InitialScore) - 1);
            var first := map[ScoreKey := VInt(newScore), BadCountKey := VInt(count)];
            && (count % 2 != 0 ==> StepWrites(rec) == map[BadCountKey := VInt(count)])
            && (count % 2 == 0 && newScore >= BanThreshold ==> StepWrites(rec) == first)
            && (count % 2 == 0 && newScore < BanThreshold ==> StepWrites(rec) == first + map[BannedKey := VBool(true)])
  {
  }

  /** Two updates of the same existing child are one update with the merged fields. */
  lemma UpdateTwice(es: seq<Entry>, key: string, a: Record, b: Record)
    requires Find(es, key).Some?
    ensures UpdateNode(UpdateNode(es, key, a), key, b) == UpdateNode(es, key, a + b)
  {
    var i := Find(es, key).value;
    var v := es[i].val;
    UpdateExisting(es, key, a);
    var once := es[i := Entry(key, v + a)];
    SameKeysSameFind(es, once);
    UpdateExisting(once, key, b);
    UpdateExisting(es, key, a + b);
    MergeAssoc(v, a, b);
  }

  /** Updating an existing child replaces its entry in place with the merged record. */
  lemma UpdateExisting(es: seq<Entry>, key: string, fields: Record)
    requires Find(es, key).Some?
    ensures var i := Find(es, key).value;
            UpdateNode(es, key, fields) == es[i := Entry(key, es[i].val + fields)]
  {
  }

  lemma MergeAssoc(v: Record, a: Record, b: Record)
    ensures v + a + b == v + (a + b)
  {
  }

  /** One call moves the stored standing of an existing user exactly one step of the rule. */
  lemma DecreaseFollowsRule(users: seq<Entry>, uid: string)
    requires Truthy(Get(users, uid))
    ensures Truthy(Get(DecreaseEffect(users, uid), uid))
    ensures StandingOf(Get(DecreaseEffect(users, uid), uid).value) == Step(StandingOf(Get(users, uid).value))
  {
    var rec := Get(users, uid).value;
    var w := StepWrites(rec);
    assert BadCountKey in rec + w;
  }

  /** The user list after `k` calls for the same user. */
  function DecreasedTimes(users: seq<Entry>, uid: string, k: nat): seq<Entry>
    decreases k
  {
    if k == 0 then users else DecreaseEffect(DecreasedTimes(users, uid, k - 1), uid)
  }

  /** `k` calls move an existing user's standing `k` steps; no other user changes. */
  lemma {:induction false} RepeatedDecreases(users: seq<Entry>, uid: string, k: nat)
    requires Truthy(Get(users, uid))
    ensures Truthy(Get(DecreasedTimes(users, uid, k), uid))
    ensures StandingOf(Get(DecreasedTimes(users, uid, k), uid).value) == Iterate(StandingOf(Get(users, uid).value), k)
    ensures forall other :: other != uid ==> Get(DecreasedTimes(users, uid, k), other) == Get(users, other)
    decreases k
  {
    if k > 0 {
      RepeatedDecreases(users, uid, k - 1);
      DecreaseFollowsRule(DecreasedTimes(users, uid, k - 1), uid);
    }
  }

  /** For an account as signup stores it, `k` flagged comments leave count `k`, score `max(0, 10 - k/2)`, and a ban exactly when `k >= 12`. */
  lemma SignedUpAccountAfterFlags(users: seq<Entry>, uid: string, email: string, username: string, k: nat)
    requires Get(users, uid) == Some(Auth.SignupRecord(email, username))
    ensures Truthy(Get(DecreasedTimes(users, uid, k), uid))
    ensures StandingOf(Get(DecreasedTimes(users, uid, k), uid).value) == Standing(Max(0, InitialScore - k / 2), k, k >= 12)
  {
    assert EmailKey in Auth.SignupRecord(email, username);
    RepeatedDecreases(users, uid, k);
    FreshAccount(k);
  }
}
