/**
 * The database as the write handlers see it: one object whose collections
 * each handler updates step by step, in the order the handlers issue their
 * writes. Each method is proved to produce the same status and database as
 * the corresponding transition of PostService.
 */
module PostStore {
  import opened Schema
  import ImageIds
  import PostService

  class Store {
    var posts: map<PostId, Post>
    var users: map<UserId, User>
    var notifications: seq<Notification>
    var destroyedImages: seq<string>
    var nextPostId: nat
    var nextUserId: nat

    /** The database value the store currently holds. */
    function Snapshot(): Db
      reads this
    {
      Db(posts, users, notifications, destroyedImages, nextPostId, nextUserId)
    }

    predicate Valid()
      reads this
    {
      Schema.Valid(Snapshot())
    }

    /** A store holding the registered users and no posts or notifications. */
    constructor (registered: map<UserId, User>, userBound: nat)
      requires forall u :: u in registered ==> u < userBound
      ensures Valid()
      ensures Snapshot() == Db(map[], registered, [], [], 0, userBound)
    {
      posts := map[];
      users := registered;
      notifications := [];
      destroyedImages := [];
      nextPostId := 0;
      nextUserId := userBound;
    }

    /** createPost; `created` is the new post's identifier on a 201. */
    method CreatePost(caller: UserId, text: Option<string>, img: Option<string>,
                      upload: string -> string, now: int) returns (status: nat, created: Option<PostId>)
      requires Valid()
      modifies this
      ensures Valid()
      ensures PostService.Outcome(status, Snapshot()) ==
              PostService.CreatePost(old(Snapshot()), caller, text, img, upload, now)
      ensures created.Some? <==> status == StatusCreated
      ensures created.Some? ==> created.value == old(nextPostId) && posts[created.value].user == caller
    {
      if caller !in users {
        return StatusNotFound, None;
      }
      if !Truthy(text) && !Truthy(img) {
        return StatusBadRequest, None;
      }
      var stored := img;
      if Truthy(img) {
        stored := Some(upload(img.value));
      }
      var id := nextPostId;
      posts := posts[id := Post(caller, text, stored, [], [], now)];
      nextPostId := nextPostId + 1;
      status, created := StatusCreated, Some(id);
    }

    /** deletePost: destroys the image, if any, then removes the post. */
    method DeletePost(caller: UserId, id: PostId) returns (status: nat)
      requires Valid()
      modifies this
      ensures Valid()
      ensures PostService.Outcome(status, Snapshot()) == PostService.DeletePost(old(Snapshot()), caller, id)
    {
      if id !in posts {
        return StatusNotFound;
      }
      var post := posts[id];
      if post.user != caller {
        return StatusBadRequest;
      }
      if Truthy(post.img) {
        var imageId := ImageIds.ImageId(post.img.value);
        destroyedImages := destroyedImages + [imageId];
      }
      posts := posts - {id};
      status := StatusOk;
    }

    /** commentOnPost: pushes the comment onto the post and saves it. */
    method CommentOnPost(caller: UserId, id: PostId, text: Option<string>) returns (status: nat)
      requires Valid()
      modifies this
      ensures Valid()
      ensures PostService.Outcome(status, Snapshot()) == PostService.CommentOnPost(old(Snapshot()), caller, id, text)
    {
      if !Truthy(text) {
        return StatusBadRequest;
      }
      if id !in posts {
        return StatusNotFound;
      }
      var post := posts[id];
      post := post.(comments := post.comments + [Comment(caller, text.value)]);
      posts := posts[id := post];
      status := StatusOk;
    }

    /**
     * likeUnlikePost: on unlike, pulls the caller from the post's likes and
     * then the post from the caller's likedPosts; on like, pushes onto both,
     * saves the post and then saves the notification.
     */
    method LikeUnlikePost(caller: UserId, id: PostId) returns (status: nat)
      requires Valid()
      modifies this
      ensures Valid()
      ensures PostService.Outcome(status, Snapshot()) == PostService.LikeUnlikePost(old(Snapshot()), caller, id)
    {
      if id !in posts {
        return StatusNotFound;
      }
      var post := posts[id];
      if caller in post.likes {
        posts := posts[id := post.(likes := PostService.Pull(post.likes, caller))];
        if caller in users {
          users := users[caller := users[caller].(likedPosts := PostService.Pull(users[caller].likedPosts, id))];
        }
      } else {
        post := post.(likes := post.likes + [caller]);
        if caller in users {
          users := users[caller := users[caller].(likedPosts := users[caller].likedPosts + [id])];
        }
        posts := posts[id := post];
        notifications := notifications + [Notification(caller, post.user, LikeKind)];
      }
      status := StatusOk;
    }
  }
}
