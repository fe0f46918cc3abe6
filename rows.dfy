/**
 * The relational store behind the post controller, as in-memory tables.
 *
 * Each table is a sequence of rows; the order of a sequence carries no
 * meaning (a query that promises an order sorts explicitly). The ORM calls
 * the controller makes are given set semantics over these tables:
 * `create` appends one row, `findUnique` looks a row up by its key,
 * `deleteMany({ where: { postId } })` removes exactly the rows with that
 * postId, and `delete({ where: { id } })` removes the post with that id.
 */
module Rows {

  datatype Option<T> = None | Some(value: T)

  /** Identifiers are opaque strings, compared only for equality. */
  type Id = string

  /** A creation time as the store records it (milliseconds since the epoch). */
  type Timestamp = int

  /** A user row; `password` stands for the fields that are never exposed. */
  datatype User = User(id: Id, email: string, password: string, name: string, avatarUrl: string)

  /** The restricted projection of a user that responses embed. */
  datatype Author = Author(id: Id, email: string, name: string, avatarUrl: string)

  datatype Post = Post(id: Id, content: string, authorId: Id, createdAt: Timestamp)

  datatype Comment = Comment(id: Id, content: string, postId: Id, userId: Id, createdAt: Timestamp)

  /** A like; nothing makes (postId, userId) unique. */
  datatype Like = Like(id: Id, postId: Id, userId: Id)

  datatype Tables = Tables(users: seq<User>, posts: seq<Post>, comments: seq<Comment>, likes: seq<Like>)

  /** The rows of `s` that satisfy `keep`, each as often as it occurs in `s`. */
  function Filter<T(==,!new)>(s: seq<T>, keep: T -> bool): (r: seq<T>)
    ensures forall x :: multiset(r)[x] == if keep(x) then multiset(s)[x] else 0
    ensures forall x :: x in r <==> x in s && keep(x)
  {
    if s == [] then []
    else
      var rest := Filter(s[1..], keep);
      assert s == [s[0]] + s[1..];
      (if keep(s[0]) then [s[0]] else []) + rest
  }

  /** Lookup by key: the first row whose key is `id`, if there is one. */
  function Find<T(==)>(s: seq<T>, key: T -> Id, id: Id): (r: Option<T>)
    ensures r.None? <==> forall x | x in s :: key(x) != id
    ensures r.Some? ==> r.value in s && key(r.value) == id
  {
    if s == [] then None
    else if key(s[0]) == id then Some(s[0])
    else Find(s[1..], key, id)
  }

  /** A table keyed by `key`: no row occurs twice and no two rows share a key. */
  predicate Keyed<T(==)>(s: seq<T>, key: T -> Id) {
    && (forall x | x in s :: multiset(s)[x] <= 1)
    && (forall a, b | a in s && b in s && key(a) == key(b) :: a == b)
  }

  function PostIds(ps: seq<Post>): set<Id> {
    set p | p in ps :: p.id
  }

  function UserIds(us: seq<User>): set<Id> {
    set u | u in us :: u.id
  }

  /** Every table has unique primary keys. */
  predicate WellFormed(t: Tables) {
    && Keyed(t.users, (u: User) => u.id)
    && Keyed(t.posts, (p: Post) => p.id)
    && Keyed(t.comments, (c: Comment) => c.id)
    && Keyed(t.likes, (l: Like) => l.id)
  }

  /** Every foreign field names an existing row. */
  predicate NoDanglingRefs(t: Tables) {
    && (forall p | p in t.posts :: p.authorId in UserIds(t.users))
    && (forall c | c in t.comments :: c.postId in PostIds(t.posts) && c.userId in UserIds(t.users))
    && (forall l | l in t.likes :: l.postId in PostIds(t.posts) && l.userId in UserIds(t.users))
  }

  function FindPost(ps: seq<Post>, id: Id): Option<Post> {
    Find(ps, (p: Post) => p.id, id)
  }

  function FindUser(us: seq<User>, id: Id): Option<User> {
    Find(us, (u: User) => u.id, id)
  }

  /** In a keyed post table, the lookup finds the one post with that id. */
  lemma FindPostKeyed(ps: seq<Post>, p: Post)
    requires Keyed(ps, (q: Post) => q.id)
    requires p in ps
    ensures FindPost(ps, p.id) == Some(p)
  {
  }

  function Project(u: User): Author {
    Author(u.id, u.email, u.name, u.avatarUrl)
  }

  /** The `select { id, email, name, avatarUrl }` join on a user id. */
  function AuthorOf(us: seq<User>, id: Id): (r: Option<Author>)
    ensures r.None? <==> id !in UserIds(us)
    ensures r.Some? ==> exists u | u in us :: u.id == id && r.value == Project(u)
  {
    match FindUser(us, id)
    case None => None
    case Some(u) => Some(Project(u))
  }

  /** The `include: { likes: true }` join: the likes that reference the post. */
  function LikesOf(ls: seq<Like>, postId: Id): seq<Like> {
    Filter(ls, (l: Like) => l.postId == postId)
  }

  /** The `include: { comments: true }` join: the comments that reference the post. */
  function CommentsOf(cs: seq<Comment>, postId: Id): seq<Comment> {
    Filter(cs, (c: Comment) => c.postId == postId)
  }

  /** What `like.deleteMany({ where: { postId } })` leaves behind. */
  function LikesNotOf(ls: seq<Like>, postId: Id): seq<Like> {
    Filter(ls, (l: Like) => l.postId != postId)
  }

  /** What `comment.deleteMany({ where: { postId } })` leaves behind. */
  function CommentsNotOf(cs: seq<Comment>, postId: Id): seq<Comment> {
    Filter(cs, (c: Comment) => c.postId != postId)
  }

  /** What `post.delete({ where: { id } })` leaves behind. */
  function PostsWithout(ps: seq<Post>, id: Id): seq<Post> {
    Filter(ps, (p: Post) => p.id != id)
  }

  /** A `deleteMany` on postId removes exactly the rows counted by the join on that postId. */
  lemma CommentsSplit(cs: seq<Comment>, postId: Id)
    ensures |CommentsOf(cs, postId)| + |CommentsNotOf(cs, postId)| == |cs|
  {
    assert multiset(CommentsOf(cs, postId)) + multiset(CommentsNotOf(cs, postId)) == multiset(cs);
  }

  lemma LikesSplit(ls: seq<Like>, postId: Id)
    ensures |LikesOf(ls, postId)| + |LikesNotOf(ls, postId)| == |ls|
  {
    assert multiset(LikesOf(ls, postId)) + multiset(LikesNotOf(ls, postId)) == multiset(ls);
  }

  /** `post.create`: one new row. */
  function InsertPost(t: Tables, p: Post): (r: Tables)
    ensures forall q :: q in r.posts <==> q in t.posts || q == p
    ensures r.users == t.users && r.comments == t.comments && r.likes == t.likes
    ensures WellFormed(t) && p.id !in PostIds(t.posts) ==> WellFormed(r)
    ensures NoDanglingRefs(t) && p.authorId in UserIds(t.users) ==> NoDanglingRefs(r)
  {
    var r := t.(posts := t.posts + [p]);
    assert WellFormed(t) && p.id !in PostIds(t.posts) ==> p !in t.posts;
    r
  }

  /**
   * The cascade the delete transaction commits: the post's comments, the
   * post's likes, then the post itself.
   */
  function Cascade(t: Tables, id: Id): (r: Tables)
    ensures r.users == t.users
    ensures forall p :: p in r.posts <==> p in t.posts && p.id != id
    ensures forall c :: c in r.comments <==> c in t.comments && c.postId != id
    ensures forall l :: l in r.likes <==> l in t.likes && l.postId != id
    ensures WellFormed(t) ==> WellFormed(r)
  {
    Tables(t.users, PostsWithout(t.posts, id), CommentsNotOf(t.comments, id), LikesNotOf(t.likes, id))
  }

  /** Deleting a whole cascade leaves no row that points at a missing post. */
  lemma CascadeKeepsRefs(t: Tables, id: Id)
    requires NoDanglingRefs(t)
    ensures NoDanglingRefs(Cascade(t, id))
  {
  }
}
