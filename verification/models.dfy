/**
 * The tables of the blog and the queries over them: users, posts, editors'
 * articles (`NewPost`) and the self-referential `followers` association
 * table, with the follow graph and the two feed queries.
 */
module Models {
  import opened Sql

  type UserId = int

  /**
   * Stand-in for werkzeug's salted password hash: an ideal digest that
   * matches exactly the password it was made from.
   */
  datatype PasswordHash = Digest(secret: string)

  /** `generate_password_hash` */
  function GeneratePasswordHash(password: string): PasswordHash {
    Digest(password)
  }

  /** `check_password_hash` */
  predicate CheckPasswordHash(h: PasswordHash, password: string) {
    h == GeneratePasswordHash(password)
  }

  /** `set_password` then `check_password` accepts that password and no other. */
  lemma PasswordRoundTrip(password: string, other: string)
    ensures CheckPasswordHash(GeneratePasswordHash(password), password)
    ensures other != password ==> !CheckPasswordHash(GeneratePasswordHash(password), other)
  {
  }

  /** A row of the `user` table; an absent `about_me` is the empty string. */
  datatype User = User(id: UserId, username: string, email: string, passwordHash: PasswordHash, aboutMe: string)

  /** A row of the `post` table; `timestamp` is the creation time as a number. */
  datatype Post = Post(id: int, body: string, timestamp: int, userId: UserId)

  /** A row of the `new_post` table (editors' articles). */
  datatype NewPost = NewPost(id: int, name: string, body: string, timestamp: int,
                             userId: UserId, categoryId: int, synopsis: string)

  /** A row of the `followers` table: `followerId` follows `followedId`. */
  datatype Edge = Edge(followerId: UserId, followedId: UserId)

  function PostTime(p: Post): int { p.timestamp }

  function NewPostTime(p: NewPost): int { p.timestamp }

  // ---------------------------------------------------------------------
  // Users

  /** `User.query.filter_by(username=name).first()` */
  function FindByUsername(users: seq<User>, name: string): (r: Option<User>)
    ensures r.Some? ==> r.value in users && r.value.username == name
    ensures r.None? <==> forall u :: u in users ==> u.username != name
  {
    First(users, (u: User) => u.username == name)
  }

  /** `User.query.filter_by(email=email).first()` */
  function FindByEmail(users: seq<User>, email: string): (r: Option<User>)
    ensures r.Some? ==> r.value in users && r.value.email == email
    ensures r.None? <==> forall u :: u in users ==> u.email != email
  {
    First(users, (u: User) => u.email == email)
  }

  /** `User.query.get(id)` */
  function FindById(users: seq<User>, id: UserId): (r: Option<User>)
    ensures r.Some? ==> r.value in users && r.value.id == id
    ensures r.None? <==> forall u :: u in users ==> u.id != id
  {
    First(users, (u: User) => u.id == id)
  }

  ghost predicate HasUser(users: seq<User>, id: UserId) {
    exists i :: 0 <= i < |users| && users[i].id == id
  }

  /** The position of the user with primary key `id`. */
  function UserIndex(users: seq<User>, id: UserId): (i: nat)
    requires HasUser(users, id)
    ensures i < |users| && users[i].id == id
    ensures forall k :: 0 <= k < i ==> users[k].id != id
  {
    if users[0].id == id then 0
    else
      assert HasUser(users[1..], id) by {
        var k :| 0 <= k < |users| && users[k].id == id;
        assert users[1..][k - 1] == users[k];
      }
      1 + UserIndex(users[1..], id)
  }

  /** The primary key and the two `unique=True` columns hold no repeated value. */
  ghost predicate UniqueIds(users: seq<User>) {
    forall i, j :: 0 <= i < j < |users| ==> users[i].id != users[j].id
  }

  ghost predicate UniqueUsernames(users: seq<User>) {
    forall i, j :: 0 <= i < j < |users| ==> users[i].username != users[j].username
  }

  ghost predicate UniqueEmails(users: seq<User>) {
    forall i, j :: 0 <= i < j < |users| ==> users[i].email != users[j].email
  }

  /** Every primary key handed out so far is positive and below `next`. */
  ghost predicate IdsBelow(users: seq<User>, next: UserId) {
    forall i :: 0 <= i < |users| ==> 0 < users[i].id < next
  }

  /** With unique primary keys, the user found by position is the only one with that key. */
  lemma UserIndexUnique(users: seq<User>, id: UserId, k: nat)
    requires UniqueIds(users) && HasUser(users, id)
    requires k < |users| && users[k].id == id
    ensures UserIndex(users, id) == k
  {
  }

  // ---------------------------------------------------------------------
  // The follow graph

  /** `self.followed.filter(followers.c.followed_id == user.id).count()` */
  function CountEdges(edges: seq<Edge>, follower: UserId, followed: UserId): (n: nat)
    ensures n <= |edges|
    ensures n > 0 <==> Edge(follower, followed) in edges
  {
    if edges == [] then 0
    else
      assert edges == [edges[0]] + edges[1..];
      (if edges[0] == Edge(follower, followed) then 1 else 0) + CountEdges(edges[1..], follower, followed)
  }

  /** `User.is_following`: the count of matching rows is positive. */
  predicate IsFollowing(edges: seq<Edge>, me: UserId, user: UserId): (b: bool)
    ensures b <==> Edge(me, user) in edges
  {
    CountEdges(edges, me, user) > 0
  }

  /** Without repeated rows, at most one row links a given pair. */
  lemma {:induction false} DistinctCountAtMostOne(edges: seq<Edge>, me: UserId, user: UserId)
    requires Distinct(edges)
    ensures CountEdges(edges, me, user) <= 1
  {
    if edges != [] {
      DistinctTail(edges);
      DistinctCountAtMostOne(edges[1..], me, user);
      HeadNotInTail(edges);
    }
  }

  /** `DELETE FROM followers WHERE follower_id = .. AND followed_id = ..` */
  function RemoveEdge(edges: seq<Edge>, e: Edge): (r: seq<Edge>)
    ensures e !in r
    ensures forall x :: x != e ==> (x in r <==> x in edges)
    ensures |r| == |edges| - CountEdges(edges, e.followerId, e.followedId)
    ensures Distinct(edges) ==> Distinct(r)
  {
    if edges == [] then []
    else
      var t := RemoveEdge(edges[1..], e);
      assert edges == [edges[0]] + edges[1..];
      assert Distinct(edges) ==> Distinct(if edges[0] == e then t else [edges[0]] + t) by {
        if Distinct(edges) {
          DistinctTail(edges);
          if edges[0] != e {
            HeadNotInTail(edges);
            DistinctCons(edges[0], t);
          }
        }
      }
      if edges[0] == e then t else [edges[0]] + t
  }

  /** The table after `User.follow`: a row is added only when none links the pair yet. */
  function Followed(edges: seq<Edge>, me: UserId, user: UserId): (r: seq<Edge>)
    ensures forall e :: e in r <==> e in edges || e == Edge(me, user)
  {
    if IsFollowing(edges, me, user) then edges else edges + [Edge(me, user)]
  }

  /** The table after `User.unfollow`: the pair's row goes only when there is one. */
  function Unfollowed(edges: seq<Edge>, me: UserId, user: UserId): (r: seq<Edge>)
    ensures forall e :: e in r <==> e in edges && e != Edge(me, user)
  {
    if IsFollowing(edges, me, user) then RemoveEdge(edges, Edge(me, user)) else edges
  }

  /** After `follow(u)`, `is_following(u)` holds. */
  lemma FollowEstablishes(edges: seq<Edge>, me: UserId, user: UserId)
    ensures IsFollowing(Followed(edges, me, user), me, user)
  {
  }

  /** After `unfollow(u)`, `is_following(u)` no longer holds. */
  lemma UnfollowEnds(edges: seq<Edge>, me: UserId, user: UserId)
    ensures !IsFollowing(Unfollowed(edges, me, user), me, user)
  {
  }

  /** Following twice leaves the table as following once. */
  lemma FollowIdempotent(edges: seq<Edge>, me: UserId, user: UserId)
    ensures Followed(Followed(edges, me, user), me, user) == Followed(edges, me, user)
  {
    FollowEstablishes(edges, me, user);
  }

  /** Unfollowing twice leaves the table as unfollowing once. */
  lemma UnfollowIdempotent(edges: seq<Edge>, me: UserId, user: UserId)
    ensures Unfollowed(Unfollowed(edges, me, user), me, user) == Unfollowed(edges, me, user)
  {
    UnfollowEnds(edges, me, user);
  }

  /** `follow` never creates a repeated row. */
  lemma FollowKeepsDistinct(edges: seq<Edge>, me: UserId, user: UserId)
    requires Distinct(edges)
    ensures Distinct(Followed(edges, me, user))
  {
    if !IsFollowing(edges, me, user) {
      var r := edges + [Edge(me, user)];
      forall i, j | 0 <= i < j < |r| ensures r[i] != r[j] {
        if j == |edges| {
          assert r[i] == edges[i];
        }
      }
    }
  }

  /** On a table without repeated rows, `unfollow` deletes exactly one row or none. */
  lemma UnfollowRemovesOneRow(edges: seq<Edge>, me: UserId, user: UserId)
    requires Distinct(edges)
    ensures Distinct(Unfollowed(edges, me, user))
    ensures |Unfollowed(edges, me, user)| == if IsFollowing(edges, me, user) then |edges| - 1 else |edges|
  {
    DistinctCountAtMostOne(edges, me, user);
  }

  /** `follow(u)` and `unfollow(u)` leave every other pair as it was. */
  lemma FollowUnfollowTouchOnlyTheirPair(edges: seq<Edge>, me: UserId, user: UserId, a: UserId, b: UserId)
    requires Edge(a, b) != Edge(me, user)
    ensures IsFollowing(Followed(edges, me, user), a, b) <==> IsFollowing(edges, a, b)
    ensures IsFollowing(Unfollowed(edges, me, user), a, b) <==> IsFollowing(edges, a, b)
  {
  }

  /** No user follows themself. */
  ghost predicate NoSelfEdges(edges: seq<Edge>) {
    forall e :: e in edges ==> e.followerId != e.followedId
  }

  // ---------------------------------------------------------------------
  // Feeds

  /** The post keys are distinct, positive and below `next`. */
  ghost predicate PostKeys(posts: seq<Post>, next: int) {
    && (forall i, j :: 0 <= i < j < |posts| ==> posts[i].id != posts[j].id)
    && (forall i :: 0 <= i < |posts| ==> 0 < posts[i].id < next)
  }

  /** Storing a post under the next key keeps the keys distinct. */
  lemma AppendPostKeepsKeys(posts: seq<Post>, next: int, p: Post)
    requires PostKeys(posts, next) && p.id == next && next > 0
    ensures PostKeys(posts + [p], next + 1)
  {
    var r := posts + [p];
    forall i, j | 0 <= i < j < |r| ensures r[i].id != r[j].id {
      if j == |posts| {
        assert r[i] == posts[i];
      }
    }
  }

  /** `Post.query.filter_by(user_id=user)` */
  function PostsBy(posts: seq<Post>, user: UserId): (r: seq<Post>)
    ensures forall p :: p in r <==> p in posts && p.userId == user
  {
    Where(posts, (p: Post) => p.userId == user)
  }

  /**
   * `Post.query.join(followers, followed_id == Post.user_id).filter(follower_id == me)`:
   * one row per (edge, post) pair that matches, so a post appears once per
   * repeated edge.
   */
  function FollowedJoin(edges: seq<Edge>, posts: seq<Post>, me: UserId): (r: seq<Post>)
    ensures forall p :: p in r <==> p in posts && Edge(me, p.userId) in edges
  {
    if edges == [] then []
    else
      assert edges == [edges[0]] + edges[1..];
      (if edges[0].followerId == me then PostsBy(posts, edges[0].followedId) else [])
        + FollowedJoin(edges[1..], posts, me)
  }

  /**
   * `User.followed_posts`: the UNION of the posts of followed users and the
   * user's own posts, newest first.
   */
  function FollowedPosts(edges: seq<Edge>, posts: seq<Post>, me: UserId): (r: seq<Post>)
    ensures forall p :: p in r <==> p in posts && (p.userId == me || IsFollowing(edges, me, p.userId))
    ensures Distinct(r)
    ensures SortedDesc(r, PostTime)
  {
    var rows := Union(FollowedJoin(edges, posts, me), PostsBy(posts, me));
    OrderByDesc(rows, PostTime)
  }

  /**
   * `User.followed_thrown_away_posts` (also `Editor`'s): the user's own
   * articles, newest first.
   */
  function FollowedThrownAwayPosts(newPosts: seq<NewPost>, me: UserId): (r: seq<NewPost>)
    ensures forall p :: multiset(r)[p] == if p.userId == me then multiset(newPosts)[p] else 0
    ensures SortedDesc(r, NewPostTime)
  {
    OrderByDesc(Where(newPosts, (p: NewPost) => p.userId == me), NewPostTime)
  }

  /** A user who follows nobody and has not posted sees an empty feed. */
  lemma FeedEmptyWhenAlone(edges: seq<Edge>, posts: seq<Post>, me: UserId)
    requires forall e :: e in edges ==> e.followerId != me
    requires forall p :: p in posts ==> p.userId != me
    ensures FollowedPosts(edges, posts, me) == []
  {
    var r := FollowedPosts(edges, posts, me);
    if r != [] {
      assert false;
    }
  }

  /** After `follow(u)` every post of `u` is in the follower's feed. */
  lemma FeedShowsFollowedUser(edges: seq<Edge>, posts: seq<Post>, me: UserId, user: UserId, p: Post)
    requires p in posts && p.userId == user
    ensures p in FollowedPosts(Followed(edges, me, user), posts, me)
  {
    FollowEstablishes(edges, me, user);
  }

  /** After `unfollow(u)` no post of `u` is in the feed, unless the user is `u`. */
  lemma FeedHidesUnfollowedUser(edges: seq<Edge>, posts: seq<Post>, me: UserId, user: UserId, p: Post)
    requires p.userId == user && user != me
    ensures p !in FollowedPosts(Unfollowed(edges, me, user), posts, me)
  {
    UnfollowEnds(edges, me, user);
  }

  /** A new post shows in its author's feed and in the feed of every follower of the author. */
  lemma NewPostInFeeds(edges: seq<Edge>, posts: seq<Post>, p: Post, reader: UserId)
    requires reader == p.userId || IsFollowing(edges, reader, p.userId)
    ensures p in FollowedPosts(edges, posts + [p], reader)
  {
    assert p == (posts + [p])[|posts|];
  }

  /**
   * A follows only B, who has one post; A's feed is that post. Once A posts
   * something later, A's feed is A's post followed by B's.
   */
  lemma FeedScenario(a: UserId, b: UserId, hello: Post, world: Post)
    requires a != b && hello.userId == b && world.userId == a
    requires world.timestamp > hello.timestamp
    ensures FollowedPosts([Edge(a, b)], [hello], a) == [hello]
    ensures FollowedPosts([Edge(a, b)], [hello, world], a) == [world, hello]
  {
    var edges := [Edge(a, b)];
    assert IsFollowing(edges, a, b);
    var r1 := FollowedPosts(edges, [hello], a);
    assert hello in r1;
    OnlyRow(r1, hello);
    var r2 := FollowedPosts(edges, [hello, world], a);
    assert hello in r2 && world in r2;
    TwoRowsByKey(r2, world, hello, PostTime);
  }

  // ---------------------------------------------------------------------
  // The database

  /** The database session: the tables, and the next primary keys to hand out. */
  class Database {
    var users: seq<User>
    var posts: seq<Post>
    var newPosts: seq<NewPost>
    var followers: seq<Edge>
    var nextUserId: UserId
    var nextPostId: int

    /** The schema's key and uniqueness constraints, and no repeated follow row. */
    ghost predicate Valid()
      reads this
    {
      && UniqueIds(users) && UniqueUsernames(users) && UniqueEmails(users)
      && 0 < nextUserId && IdsBelow(users, nextUserId)
      && 0 < nextPostId && PostKeys(posts, nextPostId)
      && Distinct(followers)
    }

    /** An empty database. */
    constructor ()
      ensures Valid()
      ensures users == [] && posts == [] && newPosts == [] && followers == []
      ensures nextUserId == 1 && nextPostId == 1
    {
      users, posts, newPosts, followers := [], [], [], [];
      nextUserId, nextPostId := 1, 1;
    }

    /** `db.session.add(Post(...))`: stores a post under the next key. */
    method AddPost(body: string, timestamp: int, author: UserId) returns (post: Post)
      requires Valid()
      modifies this`posts, this`nextPostId
      ensures Valid()
      ensures post == Post(old(nextPostId), body, timestamp, author)
      ensures posts == old(posts) + [post]
      ensures nextPostId == old(nextPostId) + 1
    {
      post := Post(nextPostId, body, timestamp, author);
      AppendPostKeepsKeys(posts, nextPostId, post);
      posts := posts + [post];
      nextPostId := nextPostId + 1;
    }

    /** `User.follow`: adds the row (me, user) unless `is_following` already holds. */
    method Follow(me: UserId, user: UserId)
      requires Valid()
      modifies this`followers
      ensures Valid()
      ensures followers == Followed(old(followers), me, user)
      ensures IsFollowing(followers, me, user)
    {
      FollowKeepsDistinct(followers, me, user);
      FollowEstablishes(followers, me, user);
      if !IsFollowing(followers, me, user) {
        followers := followers + [Edge(me, user)];
      }
    }

    /** `User.unfollow`: deletes the row (me, user) only if `is_following` holds. */
    method Unfollow(me: UserId, user: UserId)
      requires Valid()
      modifies this`followers
      ensures Valid()
      ensures followers == Unfollowed(old(followers), me, user)
      ensures !IsFollowing(followers, me, user)
    {
      UnfollowRemovesOneRow(followers, me, user);
      UnfollowEnds(followers, me, user);
      if IsFollowing(followers, me, user) {
        followers := RemoveEdge(followers, Edge(me, user));
      }
    }
  }
}
