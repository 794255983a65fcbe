/**
 * The write handlers of the Post Service (createPost, deletePost,
 * commentOnPost, likeUnlikePost) as transitions of the database: each takes
 * the database before the request and gives the response status and the
 * database after it. The media host's upload is the function `upload`
 * (payload to secure URL); its destroy call is recorded in
 * `destroyedImages`; the clock reading that becomes `createdAt` is `now`.
 */
module PostService {
  import opened Schema
  import ImageIds

  datatype Outcome = Outcome(status: nat, db: Db)

  /** MongoDB's `$pull`: every occurrence of `x` removed, everything else kept. */
  function Pull(s: seq<nat>, x: nat): (r: seq<nat>)
    ensures x !in r
    ensures forall y :: y != x ==> multiset(r)[y] == multiset(s)[y]
    ensures x !in s ==> r == s
    decreases |s|
  {
    if s == [] then []
    else
      assert s == [s[0]] + s[1..];
      if s[0] == x then Pull(s[1..], x) else [s[0]] + Pull(s[1..], x)
  }

  /** Pulling an element that was pushed onto a sequence not holding it gives the sequence back. */
  lemma {:induction false} PullPushed(s: seq<nat>, x: nat)
    ensures Pull(s + [x], x) == Pull(s, x)
    decreases |s|
  {
    if s == [] {
      assert Pull([x], x) == Pull([x][1..], x);
    } else {
      assert (s + [x])[1..] == s[1..] + [x];
      PullPushed(s[1..], x);
    }
  }

  /** `User.findByIdAndUpdate(user, {$pull: {likedPosts: id}})`; no effect on a missing user. */
  function PullLikedPost(users: map<UserId, User>, user: UserId, id: PostId): map<UserId, User>
  {
    if user in users then users[user := users[user].(likedPosts := Pull(users[user].likedPosts, id))]
    else users
  }

  /** `User.findByIdAndUpdate(user, {$push: {likedPosts: id}})`; no effect on a missing user. */
  function PushLikedPost(users: map<UserId, User>, user: UserId, id: PostId): map<UserId, User>
  {
    if user in users then users[user := users[user].(likedPosts := users[user].likedPosts + [id])]
    else users
  }

  /** The `img` createPost stores: the upload's secure URL when an image was sent. */
  function StoredImage(img: Option<string>, upload: string -> string): Option<string>
  {
    if Truthy(img) then Some(upload(img.value)) else img
  }

  /**
   * createPost: 404 when the caller's user is missing (checked first), 400
   * when neither text nor image is given, otherwise 201 and one new post
   * under a fresh identifier, with the text as given and the image replaced
   * by its uploaded URL.
   */
  function CreatePost(db: Db, caller: UserId, text: Option<string>, img: Option<string>,
                      upload: string -> string, now: int): (r: Outcome)
    requires Valid(db)
    ensures Valid(r.db)
    ensures r.status == StatusNotFound <==> caller !in db.users
    ensures r.status == StatusBadRequest <==> caller in db.users && !Truthy(text) && !Truthy(img)
    ensures caller in db.users && (Truthy(text) || Truthy(img)) ==> r.status == StatusCreated
    ensures r.status != StatusCreated ==> r.db == db
    ensures r.status == StatusCreated ==>
      var id := db.nextPostId;
      && id !in db.posts
      && r.db.posts.Keys == db.posts.Keys + {id}
      && (forall other :: other in db.posts ==> r.db.posts[other] == db.posts[other])
      && r.db.posts[id].user == caller
      && r.db.posts[id].text == text
      && (Truthy(img) ==> r.db.posts[id].img == Some(upload(img.value)))
      && (!Truthy(img) ==> r.db.posts[id].img == img)
      && r.db.posts[id].likes == [] && r.db.posts[id].comments == []
      && r.db.posts[id].createdAt == now
      && r.db.users == db.users && r.db.notifications == db.notifications
      && r.db.destroyedImages == db.destroyedImages
      && r.db.nextPostId == db.nextPostId + 1 && r.db.nextUserId == db.nextUserId
  {
    if caller !in db.users then Outcome(StatusNotFound, db)
    else if !Truthy(text) && !Truthy(img) then Outcome(StatusBadRequest, db)
    else
      var post := Post(caller, text, StoredImage(img, upload), [], [], now);
      Outcome(StatusCreated, db.(posts := db.posts[db.nextPostId := post], nextPostId := db.nextPostId + 1))
  }

  /**
   * deletePost: 404 for an unknown post, 400 when the caller does not own
   * it (both leave the database as it was), otherwise 200, the post removed
   * and nothing else, and its image, if any, destroyed on the media host.
   */
  function DeletePost(db: Db, caller: UserId, id: PostId): (r: Outcome)
    requires Valid(db)
    ensures Valid(r.db)
    ensures r.status == StatusNotFound <==> id !in db.posts
    ensures r.status == StatusBadRequest <==> id in db.posts && db.posts[id].user != caller
    ensures id in db.posts && db.posts[id].user == caller ==> r.status == StatusOk
    ensures r.status != StatusOk ==> r.db == db
    ensures r.status == StatusOk ==>
      && r.db.posts.Keys == db.posts.Keys - {id}
      && (forall other :: other in r.db.posts ==> r.db.posts[other] == db.posts[other])
      && r.db.destroyedImages ==
           db.destroyedImages + (if Truthy(db.posts[id].img) then [ImageIds.ImageId(db.posts[id].img.value)] else [])
      && r.db.users == db.users && r.db.notifications == db.notifications
      && r.db.nextPostId == db.nextPostId && r.db.nextUserId == db.nextUserId
  {
    if id !in db.posts then Outcome(StatusNotFound, db)
    else
      var post := db.posts[id];
      if post.user != caller then Outcome(StatusBadRequest, db)
      else
        var destroyed := if Truthy(post.img) then [ImageIds.ImageId(post.img.value)] else [];
        Outcome(StatusOk, db.(posts := db.posts - {id}, destroyedImages := db.destroyedImages + destroyed))
  }

  /**
   * commentOnPost: 400 for empty text (checked before the lookup), 404 for
   * an unknown post, otherwise 200 and the comment appended to that post
   * alone, earlier comments untouched.
   */
  function CommentOnPost(db: Db, caller: UserId, id: PostId, text: Option<string>): (r: Outcome)
    requires Valid(db)
    ensures Valid(r.db)
    ensures r.status == StatusBadRequest <==> !Truthy(text)
    ensures r.status == StatusNotFound <==> Truthy(text) && id !in db.posts
    ensures Truthy(text) && id in db.posts ==> r.status == StatusOk
    ensures r.status != StatusOk ==> r.db == db
    ensures r.status == StatusOk ==>
      && r.db.posts.Keys == db.posts.Keys
      && (forall other :: other in db.posts && other != id ==> r.db.posts[other] == db.posts[other])
      && |r.db.posts[id].comments| == |db.posts[id].comments| + 1
      && r.db.posts[id].comments[..|db.posts[id].comments|] == db.posts[id].comments
      && r.db.posts[id].comments[|db.posts[id].comments|] == Comment(caller, text.value)
      && r.db.posts[id] == db.posts[id].(comments := r.db.posts[id].comments)
      && r.db == db.(posts := r.db.posts)
  {
    if !Truthy(text) then Outcome(StatusBadRequest, db)
    else if id !in db.posts then Outcome(StatusNotFound, db)
    else
      var post := db.posts[id];
      var comments := post.comments + [Comment(caller, text.value)];
      assert comments[..|post.comments|] == post.comments;
      Outcome(StatusOk, db.(posts := db.posts[id := post.(comments := comments)]))
  }

  /**
   * likeUnlikePost: 404 for an unknown post. When the caller already likes
   * the post (unlike), every occurrence of the caller leaves its likes and
   * every occurrence of the post leaves the caller's likedPosts, and no
   * notification is made. Otherwise (like), the caller is appended to the
   * likes, the post to the caller's likedPosts, and one like notification
   * from the caller to the post's owner is appended.
   */
  function LikeUnlikePost(db: Db, caller: UserId, id: PostId): (r: Outcome)
    requires Valid(db)
    ensures Valid(r.db)
    ensures r.status == StatusNotFound <==> id !in db.posts
    ensures r.status != StatusNotFound ==> r.status == StatusOk
    ensures id !in db.posts ==> r.db == db
    ensures id in db.posts ==>
      && r.db.posts.Keys == db.posts.Keys
      && (forall other :: other in db.posts && other != id ==> r.db.posts[other] == db.posts[other])
      && r.db.posts[id] == db.posts[id].(likes := r.db.posts[id].likes)
      && r.db.users.Keys == db.users.Keys
      && (forall u :: u in db.users && u != caller ==> r.db.users[u] == db.users[u])
      && (caller in db.users ==> r.db.users[caller] == db.users[caller].(likedPosts := r.db.users[caller].likedPosts))
      && r.db.destroyedImages == db.destroyedImages
      && r.db.nextPostId == db.nextPostId && r.db.nextUserId == db.nextUserId
    ensures id in db.posts && caller in db.posts[id].likes ==>
      && caller !in r.db.posts[id].likes
      && (forall u :: u != caller ==> multiset(r.db.posts[id].likes)[u] == multiset(db.posts[id].likes)[u])
      && (caller in db.users ==>
            && id !in r.db.users[caller].likedPosts
            && forall p :: p != id ==> multiset(r.db.users[caller].likedPosts)[p] == multiset(db.users[caller].likedPosts)[p])
      && r.db.notifications == db.notifications
    ensures id in db.posts && caller !in db.posts[id].likes ==>
      && r.db.posts[id].likes == db.posts[id].likes + [caller]
      && (caller in db.users ==> r.db.users[caller].likedPosts == db.users[caller].likedPosts + [id])
      && r.db.notifications == db.notifications + [Notification(caller, db.posts[id].user, LikeKind)]
  {
    if id !in db.posts then Outcome(StatusNotFound, db)
    else
      var post := db.posts[id];
      if caller in post.likes then
        Outcome(StatusOk, db.(posts := db.posts[id := post.(likes := Pull(post.likes, caller))],
                              users := PullLikedPost(db.users, caller, id)))
      else
        var like := Notification(caller, post.user, LikeKind);
        Outcome(StatusOk, db.(posts := db.posts[id := post.(likes := post.likes + [caller])],
                              users := PushLikedPost(db.users, caller, id),
                              notifications := db.notifications + [like]))
  }

  /**
   * The toggle law: liking and then unliking a post, starting from a state
   * where the caller does not like it and the caller's likedPosts does not
   * hold it, restores the database except for the one like notification.
   */
  lemma LikeThenUnlikeRestores(db: Db, caller: UserId, id: PostId)
    requires Valid(db) && id in db.posts && caller !in db.posts[id].likes
    requires caller in db.users ==> id !in db.users[caller].likedPosts
    ensures var liked := LikeUnlikePost(db, caller, id);
            var unliked := LikeUnlikePost(liked.db, caller, id);
            && liked.status == StatusOk && unliked.status == StatusOk
            && caller in liked.db.posts[id].likes
            && unliked.db == db.(notifications := db.notifications + [Notification(caller, db.posts[id].user, LikeKind)])
  {
    var post := db.posts[id];
    var liked := LikeUnlikePost(db, caller, id);
    PullPushed(post.likes, caller);
    assert liked.db.posts[id].likes == post.likes + [caller];
    var unliked := LikeUnlikePost(liked.db, caller, id);
    assert unliked.db.posts[id] == post;
    assert unliked.db.posts == db.posts;
    if caller in db.users {
      var likedPosts := db.users[caller].likedPosts;
      PullPushed(likedPosts, id);
      assert unliked.db.users[caller] == db.users[caller];
    }
    assert unliked.db.users == db.users;
  }

  /**
   * Whatever the starting state, two like/unlike requests by the same caller
   * on the same post leave its like-state (liked or not) as it was and add
   * exactly one notification, the like from the caller to the owner.
   */
  lemma LikeUnlikeTwice(db: Db, caller: UserId, id: PostId)
    requires Valid(db) && id in db.posts
    ensures var first := LikeUnlikePost(db, caller, id);
            var second := LikeUnlikePost(first.db, caller, id);
            && (caller in second.db.posts[id].likes <==> caller in db.posts[id].likes)
            && second.db.notifications == db.notifications + [Notification(caller, db.posts[id].user, LikeKind)]
  {
  }

  /** No user occurs twice in the sequence. */
  predicate Distinct(s: seq<UserId>)
  {
    forall u :: u in s ==> multiset(s)[u] == 1
  }

  /** likeUnlikePost never lets a user like the same post twice. */
  lemma LikesStayDistinct(db: Db, caller: UserId, id: PostId)
    requires Valid(db) && id in db.posts && Distinct(db.posts[id].likes)
    ensures Distinct(LikeUnlikePost(db, caller, id).db.posts[id].likes)
  {
  }

  /**
   * A user creates a text post; a user `fan` likes it, which notifies the
   * owner; `fan` then unlikes it, which empties the likes and adds no
   * notification.
   */
  lemma CreateLikeUnlikeScenario(db: Db, owner: UserId, fan: UserId, upload: string -> string, now: int)
    requires Valid(db) && owner in db.users && fan in db.users
    ensures var created := CreatePost(db, owner, Some("hello"), None, upload, now);
            var id := db.nextPostId;
            var liked := LikeUnlikePost(created.db, fan, id);
            var unliked := LikeUnlikePost(liked.db, fan, id);
            && created.status == StatusCreated
            && created.db.posts[id] == Post(owner, Some("hello"), None, [], [], now)
            && liked.status == StatusOk && liked.db.posts[id].likes == [fan]
            && liked.db.notifications == db.notifications + [Notification(fan, owner, LikeKind)]
            && unliked.status == StatusOk && unliked.db.posts[id].likes == []
            && unliked.db.notifications == liked.db.notifications
  {
  }
}
