/**
 * The Firebase realtime database as the Python code sees it: nodes under
 * `users`, `posts` and `comments/<post_id>`, each a record of named values.
 * A collection is kept as the ordered list of its child entries, so that the
 * order in which `.each()` hands them out is part of the state. Lookups take
 * the first entry with a key (Firebase keys are unique, so it is the only one).
 */
module Store {
  import opened Wrappers

  datatype Value = VStr(s: string) | VInt(n: int) | VBool(b: bool) | VNull | VList(items: seq<string>)

  /** A stored JSON object, as the dict `.val()` returns. */
  type Record = map<string, Value>

  datatype Entry = Entry(key: string, val: Record)

  const ScoreKey := "reputation_score"
  const BadCountKey := "bad_comments_count"
  const BannedKey := "is_banned"
  const CompleteKey := "profile_complete"
  const UsernameKey := "username"
  const EmailKey := "email"
  const IdKey := "id"
  const LikesKey := "likes"
  const TimestampKey := "timestamp"
  const UserIdKey := "user_id"
  const ContentKey := "content"

  /** The position of the first child with `key`. */
  function Find(es: seq<Entry>, key: string): (r: Option<nat>)
    ensures r.Some? ==> r.value < |es| && es[r.value].key == key
    ensures r.Some? ==> forall j :: 0 <= j < r.value ==> es[j].key != key
    ensures r.None? ==> forall j :: 0 <= j < |es| ==> es[j].key != key
  {
    if es == [] then None
    else if es[0].key == key then Some(0)
    else match Find(es[1..], key)
      case None => None
      case Some(i) => Some(i + 1)
  }

  /** `.child(key).get().val()`: the child's record, or `None` when there is none. */
  function Get(es: seq<Entry>, key: string): Option<Record> {
    match Find(es, key)
    case None => None
    case Some(i) => Some(es[i].val)
  }

  /** Python truthiness of a fetched record: a missing node and an empty dict are both false. */
  predicate Truthy(r: Option<Record>) {
    r.Some? && r.value != map[]
  }

  /** `.child(key).update(fields)`: merges `fields` into the child, creating it when it is missing; no other child changes. */
  function UpdateNode(es: seq<Entry>, key: string, fields: Record): (r: seq<Entry>)
    ensures Get(r, key) == Some(if Get(es, key).Some? then Get(es, key).value + fields else fields)
    ensures forall k :: k != key ==> Get(r, k) == Get(es, k)
  {
    match Find(es, key)
    case None =>
      AppendKeepsOthers(es, Entry(key, fields));
      es + [Entry(key, fields)]
    case Some(i) =>
      var r := es[i := Entry(key, es[i].val + fields)];
      SameKeysSameFind(es, r);
      r
  }

  /** `.child(key).set(rec)`: replaces the child with `rec`; no other child changes. */
  function SetNode(es: seq<Entry>, key: string, rec: Record): (r: seq<Entry>)
    ensures Get(r, key) == Some(rec)
    ensures forall k :: k != key ==> Get(r, k) == Get(es, k)
  {
    match Find(es, key)
    case None =>
      AppendKeepsOthers(es, Entry(key, rec));
      es + [Entry(key, rec)]
    case Some(i) =>
      var r := es[i := Entry(key, rec)];
      SameKeysSameFind(es, r);
      r
  }

  /** `.child(key).remove()`: the child is gone; no other child changes. */
  function RemoveNode(es: seq<Entry>, key: string): (r: seq<Entry>)
    ensures Get(r, key) == None
    ensures forall k :: k != key ==> Get(r, k) == Get(es, k)
    ensures |r| <= |es|
  {
    if es == [] then []
    else
      var rest := RemoveNode(es[1..], key);
      GetFirst(es);
      if es[0].key == key then rest
      else
        GetFirst([es[0]] + rest);
        assert ([es[0]] + rest)[1..] == rest;
        [es[0]] + rest
  }

  /** Looking a key up in a non-empty list: the head answers for its own key, the tail for the others. */
  lemma GetFirst(es: seq<Entry>)
    requires es != []
    ensures forall k :: Get(es, k) == if es[0].key == k then Some(es[0].val) else Get(es[1..], k)
  {
    forall k ensures Get(es, k) == if es[0].key == k then Some(es[0].val) else Get(es[1..], k) {
      if es[0].key != k {
        match Find(es[1..], k)
        case None =>
        case Some(i) => assert es[i + 1] == es[1..][i];
      }
    }
  }

  lemma {:induction false} SameKeysSameFind(a: seq<Entry>, b: seq<Entry>)
    requires |a| == |b|
    requires forall j :: 0 <= j < |a| ==> a[j].key == b[j].key
    ensures forall k :: Find(a, k) == Find(b, k)
  {
    forall k ensures Find(a, k) == Find(b, k) {
      var fa, fb := Find(a, k), Find(b, k);
      if fa.Some? && fb.Some? {
        assert !(fa.value < fb.value) && !(fb.value < fa.value);
      }
    }
  }

  lemma AppendKeepsOthers(es: seq<Entry>, e: Entry)
    requires Find(es, e.key).None?
    ensures Find(es + [e], e.key) == Some(|es|)
    ensures forall k :: k != e.key ==> Find(es + [e], k) == Find(es, k)
  {
    forall k {
      FindAppend(es, e, k);
    }
  }

  lemma {:induction false} FindAppend(es: seq<Entry>, e: Entry, k: string)
    ensures Find(es + [e], k) == if Find(es, k).Some? then Find(es, k) else if e.key == k then Some(|es|) else None
    decreases |es|
  {
    if es != [] {
      assert (es + [e])[1..] == es[1..] + [e];
      FindAppend(es[1..], e, k);
    }
  }

  /** `record.get(name, default)` for a field the code treats as an integer. */
  function IntField(rec: Record, name: string, default: int): int {
    if name in rec && rec[name].VInt? then rec[name].n else default
  }

  /** `record.get(name, default)` for a field the code treats as a boolean. */
  function BoolField(rec: Record, name: string, default: bool): bool {
    if name in rec && rec[name].VBool? then rec[name].b else default
  }

  /** `record.get(name, default)` for a field the code treats as a string. */
  function StrField(rec: Record, name: string, default: string): string {
    if name in rec && rec[name].VStr? then rec[name].s else default
  }

  /** Python truthiness of `record.get(name, False)`: a missing field, `None`, `False`, `0`, `""` and `[]` are false. */
  function FlagField(rec: Record, name: string): (r: bool)
    ensures name in rec && rec[name].VBool? ==> r == rec[name].b
    ensures name !in rec || rec[name].VNull? ==> !r
  {
    if name !in rec then false
    else match rec[name]
      case VBool(b) => b
      case VInt(n) => n != 0
      case VStr(t) => t != []
      case VList(items) => items != []
      case VNull => false
  }

  /** A user record whose reputation fields, when present, have the types every writer gives them. */
  predicate UserTyped(rec: Record) {
    && (ScoreKey in rec ==> rec[ScoreKey].VInt?)
    && (BadCountKey in rec ==> rec[BadCountKey].VInt?)
    && (BannedKey in rec ==> rec[BannedKey].VBool?)
  }

  /** A post whose `likes` is a list of user ids or the legacy integer counter. */
  predicate PostTyped(rec: Record) {
    LikesKey in rec ==> rec[LikesKey].VList? || rec[LikesKey].VInt?
  }

  /** The database: the three top-level nodes the application writes. */
  class Db {
    var users: seq<Entry>
    var posts: seq<Entry>
    var comments: map<string, seq<Entry>>

    ghost predicate Valid()
      reads this
    {
      && (forall i :: 0 <= i < |users| ==> UserTyped(users[i].val))
      && (forall i :: 0 <= i < |posts| ==> PostTyped(posts[i].val))
    }

    constructor ()
      ensures Valid()
      ensures users == [] && posts == [] && comments == map[]
    {
      users, posts, comments := [], [], map[];
    }

    /** The comments stored under one post (none when the node is missing). */
    function PostComments(postId: string): seq<Entry>
      reads this
    {
      if postId in comments then comments[postId] else []
    }

    /** `db.child("users").child(uid).update(fields)`. */
    method UpdateUser(uid: string, fields: Record)
      requires Valid() && UserTyped(fields)
      modifies this
      ensures Valid()
      ensures users == UpdateNode(old(users), uid, fields)
      ensures posts == old(posts) && comments == old(comments)
    {
      users := UpdateNode(users, uid, fields);
    }

    /** `db.child("users").child(uid).set(rec)`. */
    method SetUser(uid: string, rec: Record)
      requires Valid() && UserTyped(rec)
      modifies this
      ensures Valid()
      ensures users == SetNode(old(users), uid, rec)
      ensures posts == old(posts) && comments == old(comments)
    {
      users := SetNode(users, uid, rec);
    }

    /** `db.child("posts").child(postId).update(fields)`. */
    method UpdatePost(postId: string, fields: Record)
      requires Valid() && PostTyped(fields)
      modifies this
      ensures Valid()
      ensures posts == UpdateNode(old(posts), postId, fields)
      ensures users == old(users) && comments == old(comments)
    {
      posts := UpdateNode(posts, postId, fields);
    }

    /** `db.child("posts").child(postId).set(rec)`. */
    method SetPost(postId: string, rec: Record)
      requires Valid() && PostTyped(rec)
      modifies this
      ensures Valid()
      ensures posts == SetNode(old(posts), postId, rec)
      ensures users == old(users) && comments == old(comments)
    {
      posts := SetNode(posts, postId, rec);
    }

    /** `db.child("comments").child(postId).child(commentId).set(rec)`. */
    method SetComment(postId: string, commentId: string, rec: Record)
      requires Valid()
      modifies this
      ensures Valid()
      ensures comments == old(comments)[postId := SetNode(old(PostComments(postId)), commentId, rec)]
      ensures users == old(users) && posts == old(posts)
    {
      comments := comments[postId := SetNode(PostComments(postId), commentId, rec)];
    }

    /** `db.child("comments").child(postId).child(commentId).remove()`. */
    method RemoveComment(postId: string, commentId: string)
      requires Valid()
      modifies this
      ensures Valid()
      ensures comments == old(comments)[postId := RemoveNode(old(PostComments(postId)), commentId)]
      ensures users == old(users) && posts == old(posts)
    {
      comments := comments[postId := RemoveNode(PostComments(postId), commentId)];
    }
  }
}
