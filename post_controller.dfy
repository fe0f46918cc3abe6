/**
 * The post controller's four request handlers over a store object whose
 * tables they read and change in place.
 *
 * Each handler is one request: its inputs are the request fields and the
 * authenticated viewer's id, its result is the (status, body) pair it sends.
 * What the database decides on its own (a new row's id and creation time, a
 * failing query) is passed in as a parameter.
 */
module PostController {
  import opened Rows
  import opened Enrichment

  /** The response a handler sends: status 200 with a JSON body, or an error status with `{ error }`. */
  datatype Response<T> = Ok(value: T) | Fail(status: nat, error: string)

  /** The result array of the delete transaction: two deletion counts and the deleted post row. */
  datatype DeletionSummary = DeletionSummary(commentsDeleted: nat, likesDeleted: nat, post: Post)

  const FieldsRequired := "All fields are required"
  const PostNotFound := "Post was not found"
  const Forbidden := "Forbidden"
  const InternalError := "Internal server error"

  /** The `!content` test: a missing body field and the empty string both fail it. */
  predicate MissingContent(content: Option<string>) {
    content.None? || content.value == ""
  }

  /** The database the controller talks to, one field per table. */
  class Store {
    var users: seq<User>
    var posts: seq<Post>
    var comments: seq<Comment>
    var likes: seq<Like>

    function State(): Tables
      reads this
    {
      Tables(users, posts, comments, likes)
    }

    predicate Valid()
      reads this
    {
      WellFormed(State())
    }

    constructor (t: Tables)
      requires WellFormed(t)
      ensures Valid() && State() == t
    {
      users, posts, comments, likes := t.users, t.posts, t.comments, t.likes;
    }

    /**
     * `createPost`: 400 without content; otherwise one new post row owned by
     * the viewer, returned as the body. The store assigns `newId` and `now`;
     * an id already in use, or any other store failure, gives 500.
     */
    method CreatePost(viewer: Id, content: Option<string>, newId: Id, now: Timestamp, storeFails: bool)
      returns (r: Response<Post>)
      requires Valid()
      modifies this
      ensures Valid()
      ensures MissingContent(content) ==> r == Fail(400, FieldsRequired) && State() == old(State())
      ensures !MissingContent(content) && (storeFails || newId in PostIds(old(posts))) ==>
                r == Fail(500, InternalError) && State() == old(State())
      ensures !MissingContent(content) && !storeFails && newId !in PostIds(old(posts)) ==>
                && r == Ok(Post(newId, content.value, viewer, now))
                && State() == InsertPost(old(State()), r.value)
    {
      if MissingContent(content) {
        return Fail(400, FieldsRequired);
      }
      if storeFails || newId in PostIds(posts) {
        return Fail(500, InternalError);
      }
      var post := Post(newId, content.value, viewer, now);
      posts := posts + [post];
      r := Ok(post);
    }

    /** `getAllPosts`: every post, newest first, each with the viewer's `likedByUser` flag. */
    method GetAllPosts(viewer: Id, storeFails: bool) returns (r: Response<seq<PostView>>)
      requires Valid()
      ensures storeFails ==> r == Fail(500, InternalError)
      ensures !storeFails ==> r.Ok?
      ensures r.Ok? ==>
                && multiset(PostsOf(r.value)) == multiset(posts)
                && NewestFirst(PostsOf(r.value))
                && (forall i | 0 <= i < |r.value| :: r.value[i] == Enrich(State(), r.value[i].post, viewer))
                && (forall i | 0 <= i < |r.value| ::
                      r.value[i].likedByUser <==> LikeRowExists(State(), r.value[i].post.id, viewer))
    {
      if storeFails {
        return Fail(500, InternalError);
      }
      r := Ok(ListPosts(State(), viewer));
    }

    /** `getPostById`: 404 when no post has the id, otherwise that post enriched for the viewer. */
    method GetPostById(id: Id, viewer: Id, storeFails: bool) returns (r: Response<PostDetail>)
      requires Valid()
      ensures storeFails ==> r == Fail(500, InternalError)
      ensures !storeFails && id !in PostIds(posts) ==> r == Fail(404, PostNotFound)
      ensures !storeFails && id in PostIds(posts) ==> r.Ok?
      ensures r.Ok? ==>
                && r.value.post in posts && r.value.post.id == id
                && (r.value.likedByUser <==> LikeRowExists(State(), id, viewer))
                && r == Ok(Detail(State(), r.value.post, viewer))
    {
      if storeFails {
        return Fail(500, InternalError);
      }
      match FindPost(posts, id)
      case None =>
        r := Fail(404, PostNotFound);
      case Some(post) =>
        r := Ok(Detail(State(), post, viewer));
    }

    /** `comment.deleteMany({ where: { postId } })`, returning the count of deleted rows. */
    method DeleteCommentsOf(postId: Id) returns (count: nat)
      modifies this
      ensures State() == old(State()).(comments := CommentsNotOf(old(comments), postId))
      ensures count == |CommentsOf(old(comments), postId)|
    {
      var before := |comments|;
      comments := CommentsNotOf(comments, postId);
      CommentsSplit(old(comments), postId);
      count := before - |comments|;
    }

    /** `like.deleteMany({ where: { postId } })`, returning the count of deleted rows. */
    method DeleteLikesOf(postId: Id) returns (count: nat)
      modifies this
      ensures State() == old(State()).(likes := LikesNotOf(old(likes), postId))
      ensures count == |LikesOf(old(likes), postId)|
    {
      var before := |likes|;
      likes := LikesNotOf(likes, postId);
      LikesSplit(old(likes), postId);
      count := before - |likes|;
    }

    /** `post.delete({ where: { id } })`: the deleted row, or None (the ORM throws) when there is none. */
    method DeletePostRow(id: Id) returns (deleted: Option<Post>)
      modifies this
      ensures deleted == FindPost(old(posts), id)
      ensures deleted.None? ==> State() == old(State())
      ensures deleted.Some? ==> State() == old(State()).(posts := PostsWithout(old(posts), id))
    {
      deleted := FindPost(posts, id);
      if deleted.Some? {
        posts := PostsWithout(posts, id);
      }
    }

    /** Rolls the tables back to a snapshot taken when a transaction began. */
    method Restore(snapshot: Tables)
      modifies this
      ensures State() == snapshot
    {
      users, posts, comments, likes := snapshot.users, snapshot.posts, snapshot.comments, snapshot.likes;
    }

    /**
     * `deletePost`: 404 when the post is absent, 403 when the viewer is not
     * its author, otherwise the all-or-nothing cascade. `fault == Some(k)`
     * makes step k of the transaction throw (k >= 3: the commit fails); the
     * steps before it are rolled back and the response is 500.
     */
    method DeletePost(id: Id, viewer: Id, fault: Option<nat>) returns (r: Response<DeletionSummary>)
      requires Valid()
      modifies this
      ensures Valid()
      ensures id !in PostIds(old(posts)) ==> r == Fail(404, PostNotFound) && State() == old(State())
      ensures id in PostIds(old(posts)) && FindPost(old(posts), id).value.authorId != viewer ==>
                r == Fail(403, Forbidden) && State() == old(State())
      ensures id in PostIds(old(posts)) && FindPost(old(posts), id).value.authorId == viewer ==>
                if fault.Some? then
                  r == Fail(500, InternalError) && State() == old(State())
                else
                  && State() == Cascade(old(State()), id)
                  && r == Ok(DeletionSummary(|CommentsOf(old(comments), id)|, |LikesOf(old(likes), id)|,
                                             FindPost(old(posts), id).value))
    {
      var found := FindPost(posts, id);
      if found.None? {
        return Fail(404, PostNotFound);
      }
      var post := found.value;
      if post.authorId != viewer {
        return Fail(403, Forbidden);
      }

      var snapshot := State();
      var failed := true;
      var commentCount, likeCount := 0, 0;
      if fault != Some(0) {
        commentCount := DeleteCommentsOf(id);
        if fault != Some(1) {
          likeCount := DeleteLikesOf(id);
          if fault != Some(2) {
            var deleted := DeletePostRow(id);
            failed := deleted.None? || fault.Some?;
          }
        }
      }

      if failed {
        Restore(snapshot);
        return Fail(500, InternalError);
      }
      assert State() == Cascade(snapshot, id);
      r := Ok(DeletionSummary(commentCount, likeCount, post));
    }
  }

  /** After a successful delete, looking the post up again answers 404 and no row references it. */
  lemma DeleteThenLookupFails(t: Tables, id: Id)
    ensures id !in PostIds(Cascade(t, id).posts)
    ensures CommentsOf(Cascade(t, id).comments, id) == []
    ensures LikesOf(Cascade(t, id).likes, id) == []
  {
    var r := Cascade(t, id);
    var cs := CommentsOf(r.comments, id);
    assert multiset(cs) == multiset{};
    assert |cs| == |multiset(cs)|;
    var ls := LikesOf(r.likes, id);
    assert multiset(ls) == multiset{};
    assert |ls| == |multiset(ls)|;
  }

  /** A post just created is not liked by anyone while every like points at an existing post. */
  lemma NewPostNotLiked(t: Tables, p: Post, viewer: Id)
    requires NoDanglingRefs(t)
    requires p.id !in PostIds(t.posts)
    ensures !Detail(InsertPost(t, p), p, viewer).likedByUser
    ensures !Enrich(InsertPost(t, p), p, viewer).likedByUser
  {
  }
}
