/**
 * The read handlers of the Post Service (getAllPosts, getLikedPosts,
 * getFollowingPosts, getUserPosts) as queries over the database: a
 * `Post.find` filter evaluated in ascending identifier order, optionally followed by a
 * sort on `createdAt`, newest first. A feed is the sequence of identifiers
 * of the posts the response lists, in response order.
 */
module Feeds {
  import opened Schema

  /** The filter of a `Post.find` query. */
  datatype Query =
    | AnyPost                              // find()
    | OwnedBy(owner: UserId)               // find({user: owner})
    | OwnedByAnyOf(owners: seq<UserId>)    // find({user: {$in: owners}})
    | IdAnyOf(ids: seq<PostId>)            // find({_id: {$in: ids}})

  predicate Matches(q: Query, id: PostId, post: Post)
  {
    match q
    case AnyPost => true
    case OwnedBy(owner) => post.user == owner
    case OwnedByAnyOf(owners) => post.user in owners
    case IdAnyOf(ids) => id in ids
  }

  /** The post `id` exists below `bound` and matches `q`. */
  predicate Selected(posts: map<PostId, Post>, bound: nat, q: Query, id: PostId)
  {
    id < bound && id in posts && Matches(q, id, posts[id])
  }

  /**
   * The posts with identifier below `bound` that match `q`, in ascending
   * identifier order (the model's choice: MongoDB promises no order for an
   * unsorted find).
   */
  function Find(posts: map<PostId, Post>, bound: nat, q: Query): (r: seq<PostId>)
    ensures forall i, j :: 0 <= i < j < |r| ==> r[i] < r[j]
    ensures forall id :: id in r <==> Selected(posts, bound, q, id)
    decreases bound
  {
    if bound == 0 then []
    else
      var earlier := Find(posts, bound - 1, q);
      var id := bound - 1;
      if Selected(posts, bound, q, id) then
        assert forall i :: 0 <= i < |earlier| ==> Selected(posts, bound - 1, q, earlier[i]);
        earlier + [id]
      else earlier
  }

  /** Find lists each selected post exactly once. */
  lemma {:induction false} FindOnce(posts: map<PostId, Post>, bound: nat, q: Query)
    ensures forall id :: multiset(Find(posts, bound, q))[id] == if Selected(posts, bound, q, id) then 1 else 0
    decreases bound
  {
    if bound > 0 {
      FindOnce(posts, bound - 1, q);
      var earlier := Find(posts, bound - 1, q);
      if Selected(posts, bound, q, bound - 1) {
        assert Find(posts, bound, q) == earlier + [bound - 1];
        assert multiset(earlier + [bound - 1]) == multiset(earlier) + multiset{bound - 1};
      }
    }
  }

  /** Every identifier of `ids` names a stored post. */
  predicate AllStored(ids: seq<PostId>, posts: map<PostId, Post>)
  {
    forall id :: id in ids ==> id in posts
  }

  /** `sort({createdAt: -1})`: creation times never increase along `ids`. */
  predicate NewestFirst(ids: seq<PostId>, posts: map<PostId, Post>)
  {
    && AllStored(ids, posts)
    && forall i, j :: 0 <= i < j < |ids| ==> posts[ids[i]].createdAt >= posts[ids[j]].createdAt
  }

  /** Inserts `id` into a newest-first sequence, after the posts created no later. */
  function InsertNewest(id: PostId, sorted: seq<PostId>, posts: map<PostId, Post>): (r: seq<PostId>)
    requires id in posts && AllStored(sorted, posts)
    ensures multiset(r) == multiset(sorted) + multiset{id}
    ensures forall x :: x in r <==> x == id || x in sorted
    decreases |sorted|
  {
    if sorted == [] then [id]
    else if posts[id].createdAt >= posts[sorted[0]].createdAt then [id] + sorted
    else
      assert sorted == [sorted[0]] + sorted[1..];
      [sorted[0]] + InsertNewest(id, sorted[1..], posts)
  }

  /** A post created no earlier than all of a newest-first sequence can go in front of it. */
  lemma PrependNewest(x: PostId, s: seq<PostId>, posts: map<PostId, Post>)
    requires x in posts && NewestFirst(s, posts)
    requires forall y :: y in s ==> posts[y].createdAt <= posts[x].createdAt
    ensures NewestFirst([x] + s, posts)
  {
  }

  /** The head of a newest-first sequence is its newest post, and its tail is newest first. */
  lemma NewestFirstHead(s: seq<PostId>, posts: map<PostId, Post>)
    requires s != [] && NewestFirst(s, posts)
    ensures NewestFirst(s[1..], posts)
    ensures forall y :: y in s ==> posts[y].createdAt <= posts[s[0]].createdAt
  {
  }

  /** Inserting into a newest-first sequence keeps it newest first. */
  lemma {:induction false} InsertNewestKeepsOrder(id: PostId, sorted: seq<PostId>, posts: map<PostId, Post>)
    requires id in posts && NewestFirst(sorted, posts)
    ensures NewestFirst(InsertNewest(id, sorted, posts), posts)
    decreases |sorted|
  {
    if sorted != [] {
      NewestFirstHead(sorted, posts);
      if posts[id].createdAt >= posts[sorted[0]].createdAt {
        PrependNewest(id, sorted, posts);
      } else {
        InsertNewestKeepsOrder(id, sorted[1..], posts);
        PrependNewest(sorted[0], InsertNewest(id, sorted[1..], posts), posts);
      }
    }
  }

  /** Sorts stored posts newest first (ties keep their incoming order). */
  function SortNewest(ids: seq<PostId>, posts: map<PostId, Post>): (r: seq<PostId>)
    requires AllStored(ids, posts)
    ensures multiset(r) == multiset(ids)
    ensures NewestFirst(r, posts)
    decreases |ids|
  {
    if ids == [] then []
    else
      assert ids == [ids[0]] + ids[1..];
      var rest := SortNewest(ids[1..], posts);
      InsertNewestKeepsOrder(ids[0], rest, posts);
      InsertNewest(ids[0], rest, posts)
  }

  /** The response of a feed handler: a status and the posts listed. */
  datatype Feed = Feed(status: nat, posts: seq<PostId>)

  /** getAllPosts: every post, newest first, each exactly once. */
  function GetAllPosts(db: Db): (r: seq<PostId>)
    requires Valid(db)
    ensures NewestFirst(r, db.posts)
    ensures forall id :: multiset(r)[id] == if id in db.posts then 1 else 0
  {
    FindOnce(db.posts, db.nextPostId, AnyPost);
    SortNewest(Find(db.posts, db.nextPostId, AnyPost), db.posts)
  }

  /**
   * getLikedPosts: 404 when the user is missing; otherwise the stored posts
   * whose identifiers the user's likedPosts holds, in ascending identifier order, each
   * once however often likedPosts repeats it.
   */
  function GetLikedPosts(db: Db, userId: UserId): (r: Feed)
    requires Valid(db)
    ensures r.status == StatusNotFound <==> userId !in db.users
    ensures userId !in db.users ==> r.posts == []
    ensures userId in db.users ==>
      && r.status == StatusOk
      && (forall i, j :: 0 <= i < j < |r.posts| ==> r.posts[i] < r.posts[j])
      && forall id :: id in r.posts <==> id in db.posts && id in db.users[userId].likedPosts
  {
    if userId !in db.users then Feed(StatusNotFound, [])
    else Feed(StatusOk, Find(db.posts, db.nextPostId, IdAnyOf(db.users[userId].likedPosts)))
  }

  /**
   * getFollowingPosts: 404 when the caller is missing; otherwise every post
   * whose owner the caller follows, newest first, each exactly once.
   */
  function GetFollowingPosts(db: Db, caller: UserId): (r: Feed)
    requires Valid(db)
    ensures r.status == StatusNotFound <==> caller !in db.users
    ensures caller !in db.users ==> r.posts == []
    ensures caller in db.users ==>
      && r.status == StatusOk
      && NewestFirst(r.posts, db.posts)
      && forall id :: multiset(r.posts)[id] ==
           if id in db.posts && db.posts[id].user in db.users[caller].following then 1 else 0
  {
    if caller !in db.users then Feed(StatusNotFound, [])
    else
      var q := OwnedByAnyOf(db.users[caller].following);
      FindOnce(db.posts, db.nextPostId, q);
      Feed(StatusOk, SortNewest(Find(db.posts, db.nextPostId, q), db.posts))
  }

  /**
   * `User.findOne({username: name})`: the user with the least identifier among those with
   * that username.
   */
  function FindUserByName(users: map<UserId, User>, bound: nat, name: string): (r: Option<UserId>)
    ensures r.Some? ==> r.value < bound && r.value in users && users[r.value].username == name
    ensures r.Some? ==> forall u :: u < r.value && u in users ==> users[u].username != name
    ensures r.None? ==> forall u :: u < bound && u in users ==> users[u].username != name
    decreases bound
  {
    if bound == 0 then None
    else
      match FindUserByName(users, bound - 1, name)
      case Some(u) => Some(u)
      case None =>
        var u := bound - 1;
        if u in users && users[u].username == name then Some(u) else None
  }

  /**
   * getUserPosts: 404 when no user has that username; otherwise the posts
   * of the first such user, newest first, each exactly once.
   */
  function GetUserPosts(db: Db, username: string): (r: Feed)
    requires Valid(db)
    ensures r.status == StatusNotFound <==> forall u :: u in db.users ==> db.users[u].username != username
    ensures r.status == StatusNotFound ==> r.posts == []
    ensures r.status != StatusNotFound ==>
      && r.status == StatusOk
      && NewestFirst(r.posts, db.posts)
      && exists owner :: owner in db.users && db.users[owner].username == username &&
           forall id :: multiset(r.posts)[id] == if id in db.posts && db.posts[id].user == owner then 1 else 0
  {
    match FindUserByName(db.users, db.nextUserId, username)
    case None => Feed(StatusNotFound, [])
    case Some(owner) =>
      FindOnce(db.posts, db.nextPostId, OwnedBy(owner));
      var listed := SortNewest(Find(db.posts, db.nextPostId, OwnedBy(owner)), db.posts);
      assert forall id :: multiset(listed)[id] == if id in db.posts && db.posts[id].user == owner then 1 else 0;
      Feed(StatusOk, listed)
  }
}
