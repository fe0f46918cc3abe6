# Post controller of a social network, modelled in Dafny

This project models the post controller of a MERN-style social network
(`server/controllers/post.controller.js`): the four request handlers
`createPost`, `getAllPosts`, `getPostById` and `deletePost`, over a
relational store held as in-memory tables of users, posts, comments and
likes.

- `rows.dfy` (module `Rows`): the rows, the tables, and the ORM calls the
  controller makes, given set semantics. `create` appends one row.
  `findUnique` is a lookup by key. `deleteMany({ where: { postId } })` keeps
  exactly the rows with another postId. The `include`/`select` joins become
  filters and the four-field author projection. `Cascade` is what the delete
  transaction commits.
- `enrichment.dfy` (module `Enrichment`): the read side. It holds the
  `likedByUser` flag (`likes.some(like => like.userId === viewer)`), the
  newest-first order of `orderBy: { createdAt: 'desc' }`, and the list and
  detail views built from them.
- `post_controller.dfy` (module `PostController`): a `Store` class with one
  field per table. `CreatePost` and `DeletePost` change the fields in place.
  `DeletePost` runs the three deletions of the transaction one after another
  and restores a snapshot when a step fails. `GetAllPosts` and `GetPostById`
  only read. Every handler returns a `Response`: `Ok(body)` with status 200,
  or `Fail(status, error)` with the same error strings as the source.

Inputs the controller does not compute are parameters:
- the authenticated viewer's id (`req.user.userId`);
- the id and creation time the database gives a new post;
- whether a store call fails (`storeFails`);
- for the delete transaction, which step throws (`fault`).

`Store.Valid()` is the primary-key invariant: no two rows of a table share an
id. Every handler keeps it. Uniqueness of (postId, userId) among likes is not
assumed anywhere, because the controller never enforces it.

`orderBy: { createdAt: 'desc' }` has no secondary key, so `SortNewestFirst`
promises a newest-first permutation and nothing about the order of equal
creation times. The delete handler returns the transaction's result array:
two deletion counts and the deleted post (`DeletionSummary`).

## Model

| member | source | states |
|---|---|---|
| `Rows.Filter` | server/controllers/post.controller.js:123-124 | the rows kept are exactly the rows of the table that satisfy the condition, with their multiplicities; nothing else is kept |
| `Rows.Find` | server/controllers/post.controller.js:111 | the lookup finds nothing exactly when no row has the key; what it finds is a row of the table with that key |
| `Rows.FindPostKeyed` | server/controllers/post.controller.js:66-67 | in a table with unique post ids, looking up a stored post's id returns that very post |
| `Rows.AuthorOf` | server/controllers/post.controller.js:35-42 | the author join is empty exactly when no user has the id; otherwise it is the id/email/name/avatarUrl projection of such a user, and never the password |
| `Rows.CommentsSplit` | server/controllers/post.controller.js:123 | the comments with a postId and the comments without it together make up the whole table, so the count `deleteMany` reports is the size of the post's comment thread |
| `Rows.LikesSplit` | server/controllers/post.controller.js:124 | the same for likes |
| `Rows.InsertPost` | server/controllers/post.controller.js:14-19 | after `create`, the posts are the old posts plus the new one; users, comments and likes are unchanged; unique keys and reference integrity are kept when the id is fresh and the author exists |
| `Rows.Cascade` | server/controllers/post.controller.js:122-126 | after the cascade, no post has the id and no comment or like has it as postId; every other post, comment and like is still there; users are unchanged; unique keys are kept |
| `Rows.CascadeKeepsRefs` | server/controllers/post.controller.js:122-126 | if every comment and like referenced an existing post before the cascade, that is still so after it: no orphans are left |
| `Enrichment.SomeLikeBy` | server/controllers/post.controller.js:52 | `likes.some(...)` is true exactly when some like in the list carries the viewer's id |
| `Enrichment.Enrich` | server/controllers/post.controller.js:50-53 | a list entry keeps the fetched post unchanged; its author is the four-field projection of the post's author; it carries exactly the likes and comments whose postId is the post's id; its `likedByUser` is true exactly when a like row joins this post to the viewer |
| `Enrichment.Detail` | server/controllers/post.controller.js:66-99 | the single-post view keeps the post unchanged; its author is the four-field projection of the post's author; it carries exactly its likes; its comment rows are exactly the post's comments, each entry with its writer's projection; `likedByUser` follows the same exists-rule as the list |
| `Enrichment.InsertByDate` | server/controllers/post.controller.js:45-47 | inserting a post into a newest-first list gives a newest-first list holding the old posts and the new one |
| `Enrichment.SortNewestFirst` | server/controllers/post.controller.js:45-47 | the ordered result is a permutation of the table in which creation times never increase; no tie order is promised |
| `Enrichment.ListPosts` | server/controllers/post.controller.js:32-53 | the list holds one entry per stored post, newest first; each entry is the enrichment of its post; each `likedByUser` is true exactly when a like row joins that post to the viewer |
| `Enrichment.NewestFirstUnique` | server/controllers/post.controller.js:45-47 | when creation times are distinct, two newest-first orders of the same posts are equal, so the list order is then fully determined |
| `Enrichment.ListThreeNewestFirst` | server/controllers/post.controller.js:32-48 | posts created at t1 < t2 < t3 are listed as [t3, t2, t1], however the table holds them |
| `PostController.Store.CreatePost` | server/controllers/post.controller.js:4-26 | missing or empty content gives 400 and changes no table; a store failure or an id already in use gives 500 and changes no table; otherwise exactly one post is added, with the given content, owned by the viewer, and it is the body; unique keys are kept |
| `PostController.Store.GetAllPosts` | server/controllers/post.controller.js:28-60 | a store failure gives 500; otherwise the body is a newest-first permutation of the stored posts; each entry is the enrichment of its post (author projection, likes and comments carried over) with `likedByUser` true exactly when a like row joins that post to the viewer |
| `PostController.Store.GetPostById` | server/controllers/post.controller.js:61-107 | a store failure gives 500; a missing id gives 404; otherwise the body is the stored post with that id, enriched and with `likedByUser` by the exists-rule |
| `PostController.Store.DeleteCommentsOf` | server/controllers/post.controller.js:123 | removes exactly the comments with the postId, changes no other table, and reports how many rows it removed |
| `PostController.Store.DeleteLikesOf` | server/controllers/post.controller.js:124 | removes exactly the likes with the postId, changes no other table, and reports how many rows it removed |
| `PostController.Store.DeletePostRow` | server/controllers/post.controller.js:125 | removes the post with the id and returns it; when there is none it changes nothing and reports the failure |
| `PostController.Store.Restore` | server/controllers/post.controller.js:122 | the rollback of the transaction: every table is as in the snapshot |
| `PostController.Store.DeletePost` | server/controllers/post.controller.js:108-134 | a missing id gives 404 whoever asks; a viewer who is not the author gets 403; in both cases every table is unchanged; a failing transaction step gives 500 with every table as before, with no partial cascade; otherwise the store is the cascade of the old store and the body carries the two deletion counts and the deleted post |
| `PostController.DeleteThenLookupFails` | server/controllers/post.controller.js:122-126 | after the cascade, looking the post up fails and re-querying its comments and likes by postId finds none |
| `PostController.NewPostNotLiked` | server/controllers/post.controller.js:14-19 | a freshly created post is not liked by any viewer, in the list or in the detail view, while every like references an existing post |

## Left out

- HTTP and Express plumbing (`req.params`, `res.status(...).json(...)`) is reduced to the returned `Response`. The `console.log` of errors is not modelled.
- Authentication: the viewer id is an input. How the middleware produces it is not part of this model.
- `content` is an optional string. A JSON body whose `content` is a non-string value (a number, a boolean, an object) is not modelled. Those are the other values `!content` can be asked about.
- The `findUnique` at the start of `deletePost` sits outside the `try`. If it throws, the promise is rejected and no response from this handler is sent. The model does not cover that case: `DeletePost` has a failure input only for the transaction.
- Store failures are abstract: a boolean, or the index of the failing transaction step. Each one leaves the store unchanged. Which errors Prisma raises, and why, is not modelled.
- The order among a post's joined likes and comments is the table order. The model promises nothing about it, and neither does the source.
- The other columns of the user and post tables (for instance profile fields and timestamps other than `createdAt`) are not modelled. `User.password` stands for the fields the projection hides. The database schema is not part of this model.
- Concurrency and transaction isolation between simultaneous requests are not modelled. Each handler runs alone against the store.
- Query planning, SQL, and the way `include`/`select` are executed are not modelled. Only their table semantics are.
- The client files (React components, forms, cache refetches, theme) are not part of this model.
