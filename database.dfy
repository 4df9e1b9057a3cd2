/**
 * database.py: posts, comments, user search and likes over the store.
 * Fresh ids (`uuid4`), timestamps and image uploads are parameters.
 */
module Database {
  import opened Wrappers
  import opened Text
  import opened Store
  import opened Ledger

  /** A fetched child as the code hands it out: its record with the store key attached as `id`. */
  function WithId(e: Entry): (r: Record)
    ensures r.Keys == e.val.Keys + {IdKey}
    ensures r[IdKey] == VStr(e.key)
    ensures forall k :: k in e.val && k != IdKey ==> r[k] == e.val[k]
  {
    e.val + map[IdKey := VStr(e.key)]
  }

  /** Every child of a collection with its key as `id`, in store order. */
  function WithIds(es: seq<Entry>): (rs: seq<Record>)
    ensures |rs| == |es|
    ensures forall i :: 0 <= i < |es| ==> rs[i] == WithId(es[i])
  {
    seq(|es|, i requires 0 <= i < |es| => WithId(es[i]))
  }

  /** `get_all_posts`. */
  function GetAllPosts(db: Db): (rs: seq<Record>)
    reads db
    ensures |rs| == |db.posts|
    ensures forall i :: 0 <= i < |rs| ==> IdKey in rs[i] && rs[i][IdKey] == VStr(db.posts[i].key)
  {
    WithIds(db.posts)
  }

  /** `get_post_comments`: the post's comments in store order; none when the node is missing. */
  function GetPostComments(db: Db, postId: string): (rs: seq<Record>)
    reads db
    ensures |rs| == |db.PostComments(postId)|
    ensures forall i :: 0 <= i < |rs| ==> IdKey in rs[i] && rs[i][IdKey] == VStr(db.PostComments(postId)[i].key)
  {
    WithIds(db.PostComments(postId))
  }

  /** `get_post`: a post with a non-empty record, with `id` set to the requested key; `None` otherwise. */
  function GetPost(db: Db, postId: string): (r: Option<Record>)
    reads db
    ensures r.Some? <==> Truthy(Get(db.posts, postId))
    ensures r.Some? ==> IdKey in r.value && r.value[IdKey] == VStr(postId) && r.value == WithId(Entry(postId, Get(db.posts, postId).value))
  {
    var p := Get(db.posts, postId);
    if Truthy(p) then Some(WithId(Entry(postId, p.value))) else None
  }

  /** The record `create_post` stores: the author, the text, the time, an empty like list and the image address or null. */
  function PostRecord(uid: string, content: string, timestamp: string, imageUrl: Option<string>): (r: Record)
    ensures PostTyped(r)
    ensures r.Keys == {UserIdKey, ContentKey, TimestampKey, LikesKey, "image_url"}
    ensures r[LikesKey] == VList([]) && r[UserIdKey] == VStr(uid) && r[ContentKey] == VStr(content)
    ensures r["image_url"] == (if imageUrl.Some? then VStr(imageUrl.value) else VNull)
  {
    map[UserIdKey := VStr(uid), ContentKey := VStr(content), TimestampKey := VStr(timestamp),
        LikesKey := VList([]), "image_url" := if imageUrl.Some? then VStr(imageUrl.value) else VNull]
  }

  /** `create_post`: `postId` is the fresh id and `imageUrl` the address of the uploaded image, if any. */
  method CreatePost(db: Db, uid: string, content: string, postId: string, timestamp: string, imageUrl: Option<string>)
    returns (id: string)
    requires db.Valid()
    modifies db
    ensures db.Valid()
    ensures id == postId
    ensures db.posts == SetNode(old(db.posts), postId, PostRecord(uid, content, timestamp, imageUrl))
    ensures db.users == old(db.users) && db.comments == old(db.comments)
  {
    db.SetPost(postId, PostRecord(uid, content, timestamp, imageUrl));
    return postId;
  }

  /** The record `create_comment` stores. */
  function CommentRecord(uid: string, content: string, timestamp: string, isBullying: bool, bullyingType: Option<string>): (r: Record)
    ensures r.Keys == {UserIdKey, ContentKey, TimestampKey, "is_bullying", "bullying_type"}
    ensures r["is_bullying"] == VBool(isBullying) && r[UserIdKey] == VStr(uid) && r[ContentKey] == VStr(content)
    ensures r["bullying_type"] == (if bullyingType.Some? then VStr(bullyingType.value) else VNull)
  {
    map[UserIdKey := VStr(uid), ContentKey := VStr(content), TimestampKey := VStr(timestamp),
        "is_bullying" := VBool(isBullying),
        "bullying_type" := if bullyingType.Some? then VStr(bullyingType.value) else VNull]
  }

  /** `create_comment`: `commentId` is the fresh id. */
  method CreateComment(db: Db, uid: string, postId: string, content: string, isBullying: bool, bullyingType: Option<string>,
                       commentId: string, timestamp: string)
    returns (id: string)
    requires db.Valid()
    modifies db
    ensures db.Valid()
    ensures id == commentId
    ensures db.comments == old(db.comments)[postId := SetNode(old(db.PostComments(postId)), commentId,
                                                               CommentRecord(uid, content, timestamp, isBullying, bullyingType))]
    ensures db.users == old(db.users) && db.posts == old(db.posts)
  {
    db.SetComment(postId, commentId, CommentRecord(uid, content, timestamp, isBullying, bullyingType));
    return commentId;
  }

  /** `delete_comment`: removes the comment (a missing one is no error) and reports success. */
  method DeleteComment(db: Db, postId: string, commentId: string) returns (ok: bool)
    requires db.Valid()
    modifies db
    ensures db.Valid()
    ensures ok
    ensures db.comments == old(db.comments)[postId := RemoveNode(old(db.PostComments(postId)), commentId)]
    ensures db.users == old(db.users) && db.posts == old(db.posts)
  {
    db.RemoveComment(postId, commentId);
    return true;
  }

  // ---------------------------------------------------------------- search

  /** One search result: `email` and `displayName` are the stored values (null when missing); `reputation` defaults to 100. */
  datatype SearchHit = SearchHit(uid: string, email: Value, displayName: Value, reputation: int)

  const SearchLimit := 10

  function ValueAt(rec: Record, name: string): Value {
    if name in rec then rec[name] else VNull
  }

  /** The lowercased query occurs in the lowercased username or email (a missing one counts as empty). */
  predicate Matches(query: string, rec: Record) {
    var q := Lower(query);
    Contains(Lower(StrField(rec, UsernameKey, "")), q) || Contains(Lower(StrField(rec, EmailKey, "")), q)
  }

  function HitOf(e: Entry): (h: SearchHit)
    ensures h.uid == e.key
    ensures ScoreKey !in e.val ==> h.reputation == 100
    ensures ScoreKey in e.val && e.val[ScoreKey].VInt? ==> h.reputation == e.val[ScoreKey].n
  {
    SearchHit(e.key, ValueAt(e.val, EmailKey), ValueAt(e.val, UsernameKey), IntField(e.val, ScoreKey, 100))
  }

  /** A search hit whose reputation is on the 0-100 scale of the account endpoints: ten times the stored score, which defaults to 10. */
  function ScaledHitOf(e: Entry): (h: SearchHit)
    ensures h.uid == e.key && h.email == HitOf(e).email && h.displayName == HitOf(e).displayName
    ensures h.reputation == 10 * StandingOf(e.val).score
  {
    SearchHit(e.key, ValueAt(e.val, EmailKey), ValueAt(e.val, UsernameKey), 10 * IntField(e.val, ScoreKey, InitialScore))
  }

  /** Every matching user of `es`, in store order. */
  function Hits(es: seq<Entry>, query: string): (r: seq<SearchHit>)
    ensures |r| <= |es|
    decreases |es|
  {
    if es == [] then []
    else
      var last := es[|es| - 1];
      Hits(es[..|es| - 1], query) + (if Matches(query, last.val) then [HitOf(last)] else [])
  }

  /** Searching two runs of users one after the other gives the hits of the first run, then those of the second: hits keep store order. */
  lemma {:induction false} HitsAppend(a: seq<Entry>, b: seq<Entry>, query: string)
    ensures Hits(a + b, query) == Hits(a, query) + Hits(b, query)
    decreases |b|
  {
    if b == [] {
      assert a + b == a;
    } else {
      var b' := b[..|b| - 1];
      assert (a + b)[..|a + b| - 1] == a + b';
      HitsAppend(a, b', query);
    }
  }

  /** No matching user gives no hit, and when every user matches there is one hit per user. */
  lemma {:induction false} HitsNoneOrAll(es: seq<Entry>, query: string)
    ensures (forall j :: 0 <= j < |es| ==> !Matches(query, es[j].val)) ==> Hits(es, query) == []
    ensures (forall j :: 0 <= j < |es| ==> Matches(query, es[j].val)) ==> |Hits(es, query)| == |es|
    decreases |es|
  {
    if es != [] {
      var init := es[..|es| - 1];
      HitsNoneOrAll(init, query);
      assert forall j :: 0 <= j < |init| ==> init[j] == es[j];
    }
  }

  /** Every hit comes from a matching user, and every matching user gives a hit. */
  lemma {:induction false} HitsExact(es: seq<Entry>, query: string)
    ensures forall h :: h in Hits(es, query) ==> exists j :: 0 <= j < |es| && h == HitOf(es[j]) && Matches(query, es[j].val)
    ensures forall j :: 0 <= j < |es| && Matches(query, es[j].val) ==> HitOf(es[j]) in Hits(es, query)
    decreases |es|
  {
    if es != [] {
      var init := es[..|es| - 1];
      HitsExact(init, query);
      forall h | h in Hits(es, query)
        ensures exists j :: 0 <= j < |es| && h == HitOf(es[j]) && Matches(query, es[j].val)
      {
        if h in Hits(init, query) {
          var j :| 0 <= j < |init| && h == HitOf(init[j]) && Matches(query, init[j].val);
          assert es[j] == init[j];
        } else {
          assert h == HitOf(es[|es| - 1]);
        }
      }
      forall j | 0 <= j < |es| && Matches(query, es[j].val)
        ensures HitOf(es[j]) in Hits(es, query)
      {
        if j < |es| - 1 {
          assert es[j] == init[j];
        }
      }
    }
  }

  /** `search_users`: the first ten hits, in store order. */
  method SearchUsers(db: Db, query: string) returns (results: seq<SearchHit>)
    ensures var all := Hits(db.users, query);
            results == if |all| <= SearchLimit then all else all[..SearchLimit]
    ensures |results| <= SearchLimit
  {
    var q := Lower(query);
    var all: seq<SearchHit> := [];
    var i := 0;
    while i < |db.users|
      invariant 0 <= i <= |db.users|
      invariant all == Hits(db.users[..i], query)
    {
      var user := db.users[i];
      var username := Lower(StrField(user.val, UsernameKey, ""));
      var email := Lower(StrField(user.val, EmailKey, ""));
      if Contains(username, q) || Contains(email, q) {
        all := all + [SearchHit(user.key, ValueAt(user.val, EmailKey), ValueAt(user.val, UsernameKey),
                                IntField(user.val, ScoreKey, 100))];
      }
      assert db.users[..i + 1][..i] == db.users[..i];
      i := i + 1;
    }
    assert db.users[..i] == db.users;
    results := if |all| <= SearchLimit then all else all[..SearchLimit];
  }

  // ---------------------------------------------------------------- likes

  /** The like list as `toggle_like` reads it: a legacy integer counter, or no field at all, is an empty list. */
  function LikesOf(rec: Record): (likes: seq<string>)
    ensures LikesKey in rec && rec[LikesKey].VList? ==> likes == rec[LikesKey].items
    ensures LikesKey !in rec || rec[LikesKey].VInt? ==> likes == []
  {
    if LikesKey in rec && rec[LikesKey].VList? then rec[LikesKey].items else []
  }

  /** `likes.remove(x)`: drops the first occurrence of `x`. */
  function RemoveFirst(s: seq<string>, x: string): (r: seq<string>)
    requires x in s
    ensures |r| == |s| - 1
    ensures multiset(r) == multiset(s) - multiset{x}
  {
    assert s == [s[0]] + s[1..];
    if s[0] == x then s[1..]
    else
      [s[0]] + RemoveFirst(s[1..], x)
  }

  /** The position of the first occurrence of `x` in `s`. */
  function IndexOf(s: seq<string>, x: string): (i: nat)
    requires x in s
    ensures i < |s| && s[i] == x && x !in s[..i]
  {
    if s[0] == x then 0
    else
      var j := IndexOf(s[1..], x);
      assert s[..j + 1] == [s[0]] + s[1..][..j];
      j + 1
  }

  /** `list.remove` takes out the first occurrence and no other: every entry before it stays in place, and every entry after it moves up by one. */
  lemma {:induction false} RemoveFirstAt(s: seq<string>, x: string)
    requires x in s
    ensures var r, i := RemoveFirst(s, x), IndexOf(s, x);
            && (forall k :: 0 <= k < i ==> r[k] == s[k])
            && (forall k :: i <= k < |r| ==> r[k] == s[k + 1])
  {
    if s[0] != x {
      var t := s[1..];
      RemoveFirstAt(t, x);
      var r, rt, j := RemoveFirst(s, x), RemoveFirst(t, x), IndexOf(t, x);
      assert r == [s[0]] + rt;
      assert IndexOf(s, x) == j + 1;
      forall k | 0 < k < |r| ensures r[k] == rt[k - 1] {
      }
    }
  }

  /** The same as slices: the list before the first occurrence followed by the list after it. */
  lemma RemoveFirstSlices(s: seq<string>, x: string)
    requires x in s
    ensures RemoveFirst(s, x) == s[..IndexOf(s, x)] + s[IndexOf(s, x) + 1..]
  {
    RemoveFirstAt(s, x);
    var r, i := RemoveFirst(s, x), IndexOf(s, x);
    var u := s[..i] + s[i + 1..];
    assert |u| == |r|;
    forall k | 0 <= k < |r| ensures r[k] == u[k] {
      if k < i {
        assert u[k] == s[k];
      } else {
        assert u[k] == s[k + 1];
      }
    }
  }

  /** The list with every occurrence of `x` taken out: what other users see of the list. */
  function Without(s: seq<string>, x: string): (r: seq<string>)
    ensures x !in r
  {
    if s == [] then []
    else (if s[0] == x then [] else [s[0]]) + Without(s[1..], x)
  }

  /** The like list after one toggle by `uid`. */
  function Toggle(likes: seq<string>, uid: string): (r: seq<string>)
    ensures uid !in likes ==> r == likes + [uid]
    ensures uid in likes ==> r == likes[..IndexOf(likes, uid)] + likes[IndexOf(likes, uid) + 1..]
  {
    if uid in likes then
      RemoveFirstSlices(likes, uid);
      RemoveFirst(likes, uid)
    else likes + [uid]
  }

  lemma {:induction false} WithoutConcat(a: seq<string>, b: seq<string>, x: string)
    ensures Without(a + b, x) == Without(a, x) + Without(b, x)
    decreases |a|
  {
    if a != [] {
      assert (a + b)[1..] == a[1..] + b;
      WithoutConcat(a[1..], b, x);
    } else {
      assert a + b == b;
    }
  }

  lemma {:induction false} WithoutRemoveFirst(s: seq<string>, x: string)
    requires x in s
    ensures Without(RemoveFirst(s, x), x) == Without(s, x)
    decreases |s|
  {
    if s[0] != x {
      WithoutRemoveFirst(s[1..], x);
      assert ([s[0]] + RemoveFirst(s[1..], x))[1..] == RemoveFirst(s[1..], x);
    }
  }

  lemma {:induction false} RemoveFirstOfAppended(s: seq<string>, x: string)
    requires x !in s
    ensures RemoveFirst(s + [x], x) == s
    decreases |s|
  {
    if s == [] {
    } else {
      assert (s + [x])[1..] == s[1..] + [x];
      RemoveFirstOfAppended(s[1..], x);
    }
  }

  /** A toggle leaves every other user's likes, and their order, as they were. */
  lemma ToggleKeepsOthers(likes: seq<string>, uid: string)
    ensures Without(Toggle(likes, uid), uid) == Without(likes, uid)
  {
    if uid in likes {
      WithoutRemoveFirst(likes, uid);
    } else {
      WithoutConcat(likes, [uid], uid);
      assert Without([uid], uid) == [];
      assert Without(likes, uid) + [] == Without(likes, uid);
    }
  }

  /** A toggle adds or removes exactly one like of `uid`; when `uid` liked at most once, its membership flips. */
  lemma ToggleFlips(likes: seq<string>, uid: string)
    ensures uid !in likes ==> Toggle(likes, uid) == likes + [uid]
    ensures uid in likes ==> multiset(Toggle(likes, uid))[uid] == multiset(likes)[uid] - 1
    ensures multiset(likes)[uid] <= 1 ==> (uid in Toggle(likes, uid) <==> uid !in likes)
  {
    if uid in likes {
      var r := Toggle(likes, uid);
      assert multiset(r)[uid] == multiset(likes)[uid] - 1;
      if multiset(likes)[uid] <= 1 {
        assert multiset(r)[uid] == 0;
        assert uid !in multiset(r);
      }
    } else {
      assert uid in likes + [uid] by { assert (likes + [uid])[|likes|] == uid; }
    }
  }

  /** Liking and then unliking a post one had not liked restores the list exactly. */
  lemma ToggleTwiceRestores(likes: seq<string>, uid: string)
    requires uid !in likes
    ensures Toggle(Toggle(likes, uid), uid) == likes
  {
    assert (likes + [uid])[|likes|] == uid;
    RemoveFirstOfAppended(likes, uid);
  }

  /**
   * `toggle_like`: a missing (or empty) post gives `None` and nothing is
   * written; otherwise the toggled list is written back and returned.
   */
  method ToggleLike(db: Db, postId: string, uid: string) returns (likes: Option<seq<string>>)
    requires db.Valid()
    modifies db
    ensures db.Valid()
    ensures var p := old(Get(db.posts, postId));
            && (!Truthy(p) ==> likes.None? && db.posts == old(db.posts))
            && (Truthy(p) ==> (likes == Some(Toggle(LikesOf(p.value), uid))
                               && db.posts == UpdateNode(old(db.posts), postId, map[LikesKey := VList(likes.value)])))
    ensures db.users == old(db.users) && db.comments == old(db.comments)
  {
    var post := Get(db.posts, postId);
    if !Truthy(post) {
      return None;
    }
    var current := LikesOf(post.value);
    var next := Toggle(current, uid);
    db.UpdatePost(postId, map[LikesKey := VList(next)]);
    return Some(next);
  }
}
