/**
 * The documents the Post Service reads and writes: users, posts with their
 * likes and comments, and like notifications, held together in one database
 * value. Identifiers are natural numbers handed out in increasing order.
 * Where a collection is read without a sort, the model reads it in
 * ascending identifier order; that order is the model's choice, since
 * MongoDB promises no order for an unsorted read.
 */
module Schema {

  type UserId = nat
  type PostId = nat

  /** An optional request or document field (`undefined`/`null` is None). */
  datatype Option<T> = None | Some(value: T)

  /** JavaScript truthiness of an optional string field: present and non-empty. */
  predicate Truthy(field: Option<string>)
  {
    field.Some? && field.value != ""
  }

  datatype Comment = Comment(user: UserId, text: string)

  datatype Post = Post(
    user: UserId,              // the owner
    text: Option<string>,
    img: Option<string>,
    likes: seq<UserId>,
    comments: seq<Comment>,
    createdAt: int)

  datatype User = User(
    username: string,
    likedPosts: seq<PostId>,
    following: seq<UserId>)

  /** A notification document; `kind` holds the document's `type` field. */
  datatype Notification = Notification(from: UserId, to: UserId, kind: string)

  const LikeKind: string := "like"

  /**
   * The database: the posts and users collections, the notifications
   * collection in insertion order, the image identifiers the media host was
   * asked to destroy, and the next free identifier of each collection.
   */
  datatype Db = Db(
    posts: map<PostId, Post>,
    users: map<UserId, User>,
    notifications: seq<Notification>,
    destroyedImages: seq<string>,
    nextPostId: nat,
    nextUserId: nat)

  /** Every stored identifier was handed out before the counter. */
  predicate Valid(db: Db)
  {
    && (forall id :: id in db.posts ==> id < db.nextPostId)
    && (forall u :: u in db.users ==> u < db.nextUserId)
  }

  // HTTP status codes the handlers answer with.
  const StatusOk: nat := 200
  const StatusCreated: nat := 201
  const StatusBadRequest: nat := 400
  const StatusNotFound: nat := 404
}
