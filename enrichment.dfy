/**
 * The read side of the post controller: the per-viewer `likedByUser` flag,
 * the newest-first order of the post list, and the joined views that
 * `getAllPosts` and `getPostById` return.
 */
module Enrichment {
  import opened Rows

  /** A list entry: the post row, its author projection, its likes and comments, and the flag. */
  datatype PostView = PostView(post: Post, author: Option<Author>, likes: seq<Like>, comments: seq<Comment>, likedByUser: bool)

  /** A comment as the detail view embeds it, with its writer's projection. */
  datatype CommentView = CommentView(comment: Comment, user: Option<Author>)

  /** The single-post view: like a list entry, but each comment carries its writer. */
  datatype PostDetail = PostDetail(post: Post, author: Option<Author>, likes: seq<Like>, comments: seq<CommentView>, likedByUser: bool)

  /** `likes.some(like => like.userId === viewer)`. */
  function SomeLikeBy(likes: seq<Like>, viewer: Id): (b: bool)
    ensures b <==> exists l | l in likes :: l.userId == viewer
  {
    if likes == [] then false
    else likes[0].userId == viewer || SomeLikeBy(likes[1..], viewer)
  }

  /** The invariant the derived flag must match: a like row joins this post to this viewer. */
  predicate LikeRowExists(t: Tables, postId: Id, viewer: Id) {
    exists l | l in t.likes :: l.postId == postId && l.userId == viewer
  }

  /** One element of the `posts.map(post => ({ ...post, likedByUser }))` in the list handler. */
  function Enrich(t: Tables, p: Post, viewer: Id): (v: PostView)
    ensures v.post == p
    ensures v.author == AuthorOf(t.users, p.authorId)
    ensures forall l :: l in v.likes <==> l in t.likes && l.postId == p.id
    ensures forall c :: c in v.comments <==> c in t.comments && c.postId == p.id
    ensures v.likedByUser <==> LikeRowExists(t, p.id, viewer)
  {
    var likes := LikesOf(t.likes, p.id);
    PostView(p, AuthorOf(t.users, p.authorId), likes, CommentsOf(t.comments, p.id), SomeLikeBy(likes, viewer))
  }

  function WithWriters(us: seq<User>, cs: seq<Comment>): seq<CommentView> {
    seq(|cs|, i requires 0 <= i < |cs| => CommentView(cs[i], AuthorOf(us, cs[i].userId)))
  }

  /** The comment rows under a list of comment views. */
  function CommentRows(cvs: seq<CommentView>): seq<Comment> {
    seq(|cvs|, i requires 0 <= i < |cvs| => cvs[i].comment)
  }

  /** The enriched post that the single-post handler returns. */
  function Detail(t: Tables, p: Post, viewer: Id): (d: PostDetail)
    ensures d.post == p
    ensures d.author == AuthorOf(t.users, p.authorId)
    ensures forall l :: l in d.likes <==> l in t.likes && l.postId == p.id
    ensures CommentRows(d.comments) == CommentsOf(t.comments, p.id)
    ensures forall c :: c in CommentRows(d.comments) <==> c in t.comments && c.postId == p.id
    ensures forall i | 0 <= i < |d.comments| ::
              && d.comments[i].comment in t.comments
              && d.comments[i].comment.postId == p.id
              && d.comments[i].user == AuthorOf(t.users, d.comments[i].comment.userId)
    ensures d.likedByUser <==> LikeRowExists(t, p.id, viewer)
  {
    var likes := LikesOf(t.likes, p.id);
    var comments := CommentsOf(t.comments, p.id);
    var d := PostDetail(p, AuthorOf(t.users, p.authorId), likes, WithWriters(t.users, comments), SomeLikeBy(likes, viewer));
    assert forall i | 0 <= i < |comments| :: comments[i] in comments;
    assert CommentRows(d.comments) == comments;
    d
  }

  /** Newest first: creation times never increase along the sequence. */
  predicate NewestFirst(ps: seq<Post>) {
    forall i, j | 0 <= i < j < |ps| :: ps[i].createdAt >= ps[j].createdAt
  }

  /** A post at least as new as every post of a newest-first sequence can go in front of it. */
  lemma PrependNewest(x: Post, s: seq<Post>)
    requires NewestFirst(s)
    requires forall k | 0 <= k < |s| :: x.createdAt >= s[k].createdAt
    ensures NewestFirst([x] + s)
  {
  }

  lemma TailNewestFirst(s: seq<Post>)
    requires NewestFirst(s) && s != []
    ensures NewestFirst(s[1..])
  {
  }

  function InsertByDate(p: Post, s: seq<Post>): (r: seq<Post>)
    requires NewestFirst(s)
    ensures NewestFirst(r)
    ensures multiset(r) == multiset(s) + multiset{p}
  {
    if s == [] || p.createdAt >= s[0].createdAt then
      PrependNewest(p, s);
      [p] + s
    else
      TailNewestFirst(s);
      var rest := InsertByDate(p, s[1..]);
      assert s == [s[0]] + s[1..];
      assert forall k | 0 <= k < |rest| :: s[0].createdAt >= rest[k].createdAt by {
        forall k | 0 <= k < |rest| ensures s[0].createdAt >= rest[k].createdAt {
          assert rest[k] in multiset(rest);
          if rest[k] != p {
            assert rest[k] in s[1..];
            var i :| 0 <= i < |s| - 1 && s[1..][i] == rest[k];
            assert s[i + 1] == rest[k];
          }
        }
      }
      PrependNewest(s[0], rest);
      [s[0]] + rest
  }

  /**
   * `orderBy: { createdAt: 'desc' }`: a newest-first permutation of the
   * table. Only the order and the permutation are promised; how rows with
   * equal creation times are ordered is not.
   */
  function SortNewestFirst(ps: seq<Post>): (r: seq<Post>)
    ensures NewestFirst(r)
    ensures multiset(r) == multiset(ps)
  {
    if ps == [] then []
    else
      assert ps == [ps[0]] + ps[1..];
      InsertByDate(ps[0], SortNewestFirst(ps[1..]))
  }

  function PostsOf(vs: seq<PostView>): seq<Post> {
    seq(|vs|, i requires 0 <= i < |vs| => vs[i].post)
  }

  /** What `getAllPosts` sends back: every post once, newest first, each enriched for the viewer. */
  function ListPosts(t: Tables, viewer: Id): (r: seq<PostView>)
    ensures |r| == |t.posts|
    ensures multiset(PostsOf(r)) == multiset(t.posts)
    ensures NewestFirst(PostsOf(r))
    ensures forall i | 0 <= i < |r| :: r[i] == Enrich(t, r[i].post, viewer)
    ensures forall i | 0 <= i < |r| :: r[i].likedByUser <==> LikeRowExists(t, r[i].post.id, viewer)
  {
    var sorted := SortNewestFirst(t.posts);
    var r := seq(|sorted|, i requires 0 <= i < |sorted| => Enrich(t, sorted[i], viewer));
    assert PostsOf(r) == sorted;
    r
  }

  /** No two distinct posts of `s` were created at the same time. */
  predicate DistinctTimes(s: seq<Post>) {
    forall x, y | x in s && y in s && x.createdAt == y.createdAt :: x == y
  }

  /** The head of a newest-first sequence is at least as new as any of its posts. */
  lemma NewestAtHead(a: seq<Post>, x: Post)
    requires NewestFirst(a) && x in a
    ensures a[0].createdAt >= x.createdAt
  {
  }

  /** Two newest-first orders of the same posts with distinct times start with the same post. */
  lemma SameNewest(a: seq<Post>, b: seq<Post>)
    requires multiset(a) == multiset(b) && a != []
    requires NewestFirst(a) && NewestFirst(b)
    requires DistinctTimes(a)
    ensures b != [] && a[0] == b[0]
  {
    assert |b| == |a| by { assert |multiset(b)| == |multiset(a)|; }
    assert b[0] in multiset(a) && a[0] in multiset(b);
    NewestAtHead(a, b[0]);
    NewestAtHead(b, a[0]);
  }

  /** Removing the same first post from two orders of the same posts leaves orders of the same posts. */
  lemma SameRest(a: seq<Post>, b: seq<Post>)
    requires multiset(a) == multiset(b) && a != [] && b != [] && a[0] == b[0]
    ensures multiset(a[1..]) == multiset(b[1..])
  {
    assert a == [a[0]] + a[1..] && b == [b[0]] + b[1..];
    assert multiset(a) == multiset{a[0]} + multiset(a[1..]);
    assert multiset(b) == multiset{a[0]} + multiset(b[1..]);
    assert multiset(a[1..]) == multiset(a) - multiset{a[0]};
    assert multiset(b[1..]) == multiset(b) - multiset{a[0]};
  }

  /** When creation times are distinct, the newest-first order of a set of posts is unique. */
  lemma {:induction false} NewestFirstUnique(a: seq<Post>, b: seq<Post>)
    requires multiset(a) == multiset(b)
    requires NewestFirst(a) && NewestFirst(b)
    requires DistinctTimes(a)
    ensures a == b
  {
    if a == [] {
      assert |multiset(b)| == 0;
    } else {
      SameNewest(a, b);
      SameRest(a, b);
      assert DistinctTimes(a[1..]) by {
        assert forall x | x in a[1..] :: x in a;
      }
      TailNewestFirst(a);
      TailNewestFirst(b);
      NewestFirstUnique(a[1..], b[1..]);
      assert a == [a[0]] + a[1..] && b == [b[0]] + b[1..];
    }
  }

  lemma OrderedThree(p1: Post, p2: Post, p3: Post)
    requires p1.createdAt < p2.createdAt < p3.createdAt
    ensures NewestFirst([p3, p2, p1]) && DistinctTimes([p3, p2, p1])
  {
  }

  /** Posts created at t1 < t2 < t3 are listed as [t3, t2, t1], whatever order the table holds them in. */
  lemma ListThreeNewestFirst(t: Tables, viewer: Id, p1: Post, p2: Post, p3: Post)
    requires multiset(t.posts) == multiset([p1, p2, p3])
    requires p1.createdAt < p2.createdAt < p3.createdAt
    ensures PostsOf(ListPosts(t, viewer)) == [p3, p2, p1]
  {
    var listed := PostsOf(ListPosts(t, viewer));
    var expected := [p3, p2, p1];
    assert multiset(expected) == multiset([p1, p2, p3]);
    assert multiset(listed) == multiset(t.posts);
    OrderedThree(p1, p2, p3);
    NewestFirstUnique(expected, listed);
  }
}
