# Post Service of a small social network, in Dafny

This project models the Post Service of a Twitter-like web application:
the request handlers that create, delete, comment on, like and unlike
posts, and the four feed queries (all posts, a user's liked posts, the
posts of followed users, a user's own posts). The document database is an
in-memory value `Db` with three collections (users, posts, notifications).
The media host that stores images appears in two ways. Its upload is a
function parameter `upload` that maps a payload to the secure URL it
returns. Its destroy call is recorded as the list `destroyedImages`.

- `schema.dfy` (module `Schema`): the documents, JavaScript truthiness of
  an optional string field (`Truthy`), the database value, and the status
  codes 200, 201, 400 and 404.
- `image_id.dfy` (module `ImageIds`): JavaScript's `split` on one
  character, with `Join` as its inverse, and the image-identifier
  derivation `ImageId` that deletePost uses.
- `feeds.dfy` (module `Feeds`): `Post.find` filters evaluated in ascending
  identifier order, the newest-first sort on `createdAt`, `User.findOne` by username,
  and the four feed handlers.
- `post_service.dfy` (module `PostService`): the four write handlers as
  transitions from the database before a request to the status and the
  database after it, and lemmas about sequences of requests.
- `store.dfy` (module `PostStore`): class `Store` holds the collections as
  fields. Its methods perform each handler's writes one at a time, in the
  order the handler issues them. Each method is proved to give the same
  status and database as the `PostService` transition of the same name.

Identifiers are natural numbers handed out in increasing order. Where
the source reads a collection without a sort, the model reads it in
ascending identifier order; MongoDB itself promises no order there (see
"## Left out"). `Valid` says every stored identifier is below its collection's
counter, and every handler preserves it.

Three behaviours of the code that the model keeps as they are:

- A delete by a non-owner answers 400.
- A post's likes are a sequence that is pushed onto and pulled from.
- likeUnlikePost updates the caller's user document with
  `findByIdAndUpdate`. That changes nothing when the document is missing,
  and the handler still answers 200.

## Model

| member | source | states |
|---|---|---|
| ImageIds.Split | backend/controllers/post.controller.js:48 | `split` on one character gives at least one piece, no piece holds the separator, the first piece is a prefix of the input, and an input without the separator is its own single piece |
| ImageIds.JoinSplit | backend/controllers/post.controller.js:48 | joining the pieces of a split with the separator gives back the string |
| ImageIds.SplitJoin | backend/controllers/post.controller.js:48 | splitting a join of separator-free pieces gives back the pieces |
| ImageIds.SplitAtSeparator | backend/controllers/post.controller.js:48 | splitting `a + sep + b` is splitting `a` followed by splitting `b` |
| ImageIds.ImageId | backend/controllers/post.controller.js:48 | the derived image identifier contains neither `/` nor `.` |
| ImageIds.ImageIdOfUrl | backend/controllers/post.controller.js:48 | for any URL whose last segment is `name.ext` (name free of `/` and `.`), the identifier is `name`, whatever precedes the last `/` |
| ImageIds.ImageIdOfBareSegment | backend/controllers/post.controller.js:48 | for any URL whose last segment has neither `/` nor `.`, the identifier is that whole segment, whatever precedes the last `/` |
| ImageIds.ImageIdOfFileName | backend/controllers/post.controller.js:48 | a string with no `/` of the form `name.ext` (name free of `.`) is its own last segment and yields `name` |
| ImageIds.ImageIdOfJpeg | backend/controllers/post.controller.js:48 | a URL ending in `/abc.jpg` yields `abc` |
| Feeds.Find | backend/controllers/post.controller.js:131-195 | a `Post.find` lists exactly the stored posts matching the filter, in strictly ascending identifier order |
| Feeds.FindOnce | backend/controllers/post.controller.js:131-195 | a `Post.find` lists each matching post exactly once and no other |
| Feeds.InsertNewest | backend/controllers/post.controller.js:175 | inserting into a list adds exactly that post, one more occurrence of it and nothing else |
| Feeds.InsertNewestKeepsOrder | backend/controllers/post.controller.js:175 | inserting into a newest-first list keeps it newest first |
| Feeds.SortNewest | backend/controllers/post.controller.js:175 | `sort({createdAt: -1})` gives a permutation of its input with creation times non-increasing |
| Feeds.GetAllPosts | backend/controllers/post.controller.js:131 | getAllPosts lists every stored post exactly once, newest first |
| Feeds.GetLikedPosts | backend/controllers/post.controller.js:148-161 | 404 exactly when the user is missing; otherwise the stored posts whose identifiers the user's likedPosts holds, each once, in ascending identifier order |
| Feeds.GetFollowingPosts | backend/controllers/post.controller.js:168-183 | 404 exactly when the caller is missing; otherwise every post whose owner the caller follows, each once, newest first |
| Feeds.FindUserByName | backend/controllers/post.controller.js:193 | `findOne({username})` returns the user with the least identifier among those with that username, or none when no user has it |
| Feeds.GetUserPosts | backend/controllers/post.controller.js:190-203 | 404 exactly when no user has the username; otherwise the posts owned by such a user, each once, newest first |
| PostService.Pull | backend/controllers/post.controller.js:95 | `$pull` removes every occurrence of the value and keeps the count of every other value; without the value the sequence is unchanged |
| PostService.PullPushed | backend/controllers/post.controller.js:95-109 | pulling a value just pushed gives the same as pulling it from the sequence before the push |
| PostService.CreatePost | backend/controllers/post.controller.js:7-31 | 404 exactly when the caller's user is missing, checked before content; 400 exactly when text and image are both falsy; both leave the database unchanged; 201 whenever the caller exists and text or image is truthy; on 201 one post under a fresh identifier with owner, text as given, image the upload's URL when one was sent, no likes or comments, created now; nothing else changes |
| PostService.DeletePost | backend/controllers/post.controller.js:39-53 | 404 exactly for an unknown post; 400 exactly when the caller is not the owner; both leave the database unchanged; 200 whenever the caller owns an existing post; on 200 that post alone is removed and the identifier of its image, if any, is destroyed |
| PostService.CommentOnPost | backend/controllers/post.controller.js:60-75 | 400 exactly for falsy text, checked before the lookup; 404 for an unknown post; both leave the database unchanged; 200 whenever the text is truthy and the post exists; on 200 the post's comments grow by exactly `{user: caller, text}` at the end, earlier comments, the post's other fields and all other posts unchanged |
| PostService.LikeUnlikePost | backend/controllers/post.controller.js:82-122 | 404 exactly for an unknown post, unchanged; unlike when the caller is in likes: every occurrence of the caller leaves likes and of the post leaves the caller's likedPosts, others kept, no notification; like otherwise: caller appended to likes, post to likedPosts, one like notification from caller to owner appended |
| PostService.LikeThenUnlikeRestores | backend/controllers/post.controller.js:90-121 | from not-liked, with the post absent from the caller's likedPosts, like then unlike restores posts and users exactly and leaves exactly one new notification |
| PostService.LikeUnlikeTwice | backend/controllers/post.controller.js:90-121 | from any state, two toggles leave the caller's like-state as it was and add exactly one like notification |
| PostService.LikesStayDistinct | backend/controllers/post.controller.js:90-106 | if no user occurs twice in a post's likes, none does after likeUnlikePost |
| PostService.CreateLikeUnlikeScenario | backend/controllers/post.controller.js:7-121 | a created text post has no likes; a like by any user `fan` gives likes `[fan]` and notifies the owner; the unlike empties likes and adds no notification |
| PostStore.Store.CreatePost | backend/controllers/post.controller.js:7-31 | the imperative handler gives the status and new state of `PostService.CreatePost` and returns the new identifier exactly on 201 |
| PostStore.Store.DeletePost | backend/controllers/post.controller.js:39-53 | the imperative handler gives the status and new state of `PostService.DeletePost` |
| PostStore.Store.CommentOnPost | backend/controllers/post.controller.js:60-75 | the imperative handler gives the status and new state of `PostService.CommentOnPost` |
| PostStore.Store.LikeUnlikePost | backend/controllers/post.controller.js:82-122 | the imperative handler, writing the post, the user and the notification in the source's order, gives the status and new state of `PostService.LikeUnlikePost` |

## Left out

- The media host's upload and destroy calls are network calls. Upload is the parameter `upload`; destroy is recorded in `destroyedImages`.
- The clock that sets `createdAt` is the parameter `now`.
- Reference expansion (`populate`) and the exclusion of the password field are done inside the database library. Feeds list post identifiers, and each stands for the stored document. This also leaves out that getFollowingPosts expands `comments` rather than `comments.user`.
- Response bodies and messages are not modelled, only the status code and the database. This includes the distinct like and unlike messages of likeUnlikePost.
- The try/catch paths answering 500, and the logging, are generic error plumbing.
- getAllPosts sends a second response when the result is empty. That is an HTTP-layer quirk and does not affect the database.
- Each handler is modelled as one sequential step. The non-atomic writes of likeUnlikePost and deletePost, and crashes or concurrent requests between them, are not modelled.
- Request fields are strings or absent. Non-string JSON values (numbers, objects) for `text` and `img` are not modelled.
- Feeds.GetLikedPosts: the unsorted `Post.find` promises no order in MongoDB; the model fixes ascending identifier order, so the order it states is one the source does not guarantee.
- Feeds.FindUserByName: MongoDB does not say which document `findOne` returns when several users share a username; the model picks the one with the least identifier.
- Feeds.SortNewest: MongoDB does not promise an order among posts with equal `createdAt`. The model keeps their incoming order, and the contract promises only non-increasing creation times and a permutation.
- backend/lib/utils/generateToken.js (session tokens and cookies) and the two frontend components are not part of this model. They hold no logic of the Post Service.
- Creating, following and deleting users is done elsewhere. Users here are only read and have their likedPosts updated.
