/**
 * The posts table of the Next.js server as `PostService`
 * (back/services/PostServiceDB.ts) sees it: columns `id`, `user_id`,
 * `content`, `created_at`, `updated_at`, with `user_id` a foreign key into
 * `users`. There is no update; delete is scoped to the owner.
 */
module PostServiceDb {
  import opened Wrappers
  import Timeline

  /** The message MySQL gives when `user_id` names no user (the text after it is left out). */
  const ForeignKeyMessage := "Cannot add or update a child row: a foreign key constraint fails"

  /** A row of `posts`, as `SELECT *` returns it. */
  datatype Post = Post(id: nat, userId: int, content: string, createdAt: nat, updatedAt: nat)

  /** What the listings return: `p.id, p.content, p.created_at, u.username`. */
  datatype PostWithUser = PostWithUser(id: nat, content: string, createdAt: nat, username: string)

  datatype CreatePostData = CreatePostData(userId: int, content: string)

  /** Every row sits under its own id. */
  predicate Keyed(posts: map<int, Post>) {
    forall k :: k in posts ==> posts[k].id == k
  }

  /** The foreign key: every post's `user_id` names a user. */
  predicate AuthorsExist(posts: map<int, Post>, users: map<int, string>) {
    forall k :: k in posts ==> posts[k].userId in users
  }

  /** Row `k` exists and the inner join keeps it. */
  predicate Joined(posts: map<int, Post>, users: map<int, string>, k: int) {
    k in posts && posts[k].userId in users
  }

  /** Row `k` as the listings return it. */
  function JoinAt(posts: map<int, Post>, users: map<int, string>, k: int): PostWithUser
    requires Joined(posts, users, k)
  {
    PostWithUser(posts[k].id, posts[k].content, posts[k].createdAt, users[posts[k].userId])
  }

  function JoinAll(posts: map<int, Post>, users: map<int, string>, order: seq<int>): (r: seq<PostWithUser>)
    requires Keyed(posts)
    requires forall i :: 0 <= i < |order| ==> Joined(posts, users, order[i])
    ensures |r| == |order|
    ensures forall i :: 0 <= i < |r| ==> r[i] == JoinAt(posts, users, order[i]) && r[i].id == order[i]
  {
    if order == [] then [] else [JoinAt(posts, users, order[0])] + JoinAll(posts, users, order[1..])
  }

  function Stamps(posts: map<int, Post>): map<int, nat> {
    map k | k in posts :: posts[k].createdAt
  }

  /** The joined rows of `ids`, each once, newest first. */
  function Listing(posts: map<int, Post>, users: map<int, string>, ids: set<int>): (r: seq<PostWithUser>)
    requires Keyed(posts)
    requires forall k :: k in ids ==> Joined(posts, users, k)
    ensures forall i :: 0 <= i < |r| ==> r[i].id in ids && Joined(posts, users, r[i].id) && r[i] == JoinAt(posts, users, r[i].id)
    ensures forall k :: k in ids ==> exists i :: 0 <= i < |r| && r[i].id == k
    ensures forall i, j :: 0 <= i < j < |r| ==> r[i].id != r[j].id
    ensures forall i, j :: 0 <= i < j < |r| ==> r[i].createdAt >= r[j].createdAt
  {
    var at := Stamps(posts);
    assert at.Keys == posts.Keys;
    assert ids <= at.Keys by {
      forall k | k in ids ensures k in at { assert Joined(posts, users, k); }
    }
    var order := Timeline.NewestFirst(at, ids);
    var r := JoinAll(posts, users, order);
    assert forall i :: 0 <= i < |r| ==> r[i].createdAt == at[order[i]];
    r
  }

  /** `getAllPosts`: (id, content, created_at, username) of every post joined to its author, newest first. */
  function AllPosts(posts: map<int, Post>, users: map<int, string>): (r: seq<PostWithUser>)
    requires Keyed(posts)
    ensures forall i :: 0 <= i < |r| ==> Joined(posts, users, r[i].id) && r[i] == JoinAt(posts, users, r[i].id)
    ensures forall k :: Joined(posts, users, k) ==> exists i :: 0 <= i < |r| && r[i].id == k
    ensures forall i, j :: 0 <= i < j < |r| ==> r[i].id != r[j].id
    ensures forall i, j :: 0 <= i < j < |r| ==> r[i].createdAt >= r[j].createdAt
  {
    var ids := set k | k in posts && posts[k].userId in users;
    assert forall k :: Joined(posts, users, k) ==> k in ids;
    Listing(posts, users, ids)
  }

  /** `getPostsByUserId`: exactly the posts of `userId`, newest first. */
  function PostsByUserId(posts: map<int, Post>, users: map<int, string>, userId: int): (r: seq<PostWithUser>)
    requires Keyed(posts)
    ensures forall i :: 0 <= i < |r| ==> Joined(posts, users, r[i].id) && posts[r[i].id].userId == userId && r[i] == JoinAt(posts, users, r[i].id)
    ensures forall k :: Joined(posts, users, k) && posts[k].userId == userId ==> exists i :: 0 <= i < |r| && r[i].id == k
    ensures forall i, j :: 0 <= i < j < |r| ==> r[i].id != r[j].id
    ensures forall i, j :: 0 <= i < j < |r| ==> r[i].createdAt >= r[j].createdAt
  {
    var ids := set k | k in posts && posts[k].userId in users && posts[k].userId == userId;
    assert forall k :: Joined(posts, users, k) && posts[k].userId == userId ==> k in ids;
    Listing(posts, users, ids)
  }

  /** `getPostById`: `SELECT * FROM posts WHERE id = ?`, the row or null. */
  function FindPost(posts: map<int, Post>, id: int): (r: Option<Post>)
    ensures r.Some? <==> id in posts
    ensures r.Some? ==> r.value == posts[id]
  {
    if id in posts then Some(posts[id]) else None
  }

  /** `DELETE FROM posts WHERE id = ? AND user_id = ?`. */
  function AfterDelete(posts: map<int, Post>, id: int, userId: int): map<int, Post> {
    if id in posts && posts[id].userId == userId then posts - {id} else posts
  }

  /** With the foreign key in force no post is dropped by the join: `getAllPosts` lists every post. */
  lemma EveryPostListed(posts: map<int, Post>, users: map<int, string>)
    requires Keyed(posts) && AuthorsExist(posts, users)
    ensures forall k :: k in posts ==> exists i :: 0 <= i < |AllPosts(posts, users)| && AllPosts(posts, users)[i].id == k
  {
    var r := AllPosts(posts, users);
    forall k | k in posts
      ensures exists i :: 0 <= i < |r| && r[i].id == k
    {
      assert Joined(posts, users, k);
    }
  }

  /**
   * A post created after every existing one (a later `created_at`) heads
   * the `getAllPosts` listing.
   */
  lemma CreatedPostListedFirst(posts: map<int, Post>, users: map<int, string>, nextId: nat, userId: int, content: string, now: nat)
    requires Keyed(posts) && nextId !in posts && userId in users
    requires forall k :: k in posts ==> posts[k].createdAt < now
    ensures var after := posts[nextId := Post(nextId, userId, content, now, now)];
      && Keyed(after)
      && |AllPosts(after, users)| > 0
      && AllPosts(after, users)[0] == PostWithUser(nextId, content, now, users[userId])
  {
    var after := posts[nextId := Post(nextId, userId, content, now, now)];
    assert Joined(after, users, nextId);
    var r := AllPosts(after, users);
    var i :| 0 <= i < |r| && r[i].id == nextId;
    if i > 0 {
      assert false;
    }
  }

  /** Deleting removes the one owned row and nothing else; repeating the delete removes nothing. */
  lemma DeleteOwned(posts: map<int, Post>, id: int, userId: int)
    requires id in posts && posts[id].userId == userId
    ensures var after := AfterDelete(posts, id, userId);
      && after.Keys == posts.Keys - {id}
      && (forall k :: k in after ==> after[k] == posts[k])
      && AfterDelete(after, id, userId) == after
  {
  }

  /** A delete of someone else's post changes nothing, exactly like a delete of a missing id. */
  lemma DeleteNotOwnedLikeAbsent(posts: map<int, Post>, id: int, userId: int)
    requires id in posts && posts[id].userId != userId
    ensures AfterDelete(posts, id, userId) == posts
    ensures AfterDelete(posts - {id}, id, userId) == posts - {id}
  {
  }

  class PostStore {
    var posts: map<int, Post>
    /** The `users` table as the joins and the foreign key see it: id to username. */
    var usernames: map<int, string>
    var nextId: nat

    ghost predicate Valid()
      reads this
    {
      1 <= nextId && Keyed(posts) && AuthorsExist(posts, usernames)
      && forall k :: k in posts ==> 1 <= k < nextId
    }

    constructor (usernames: map<int, string>)
      ensures Valid() && posts == map[] && this.usernames == usernames && nextId == 1
    {
      posts := map[];
      this.usernames := usernames;
      nextId := 1;
    }

    /**
     * `createPost`: inserts (user_id, content) under a fresh id and returns
     * the plain row read back. A `user_id` that names no user is refused by
     * the foreign key and nothing is inserted; the AUTO_INCREMENT value is
     * used up either way.
     */
    method CreatePost(data: CreatePostData, now: nat) returns (r: Result<Post, string>)
      requires Valid()
      modifies this
      ensures Valid() && usernames == old(usernames)
      ensures nextId == old(nextId) + 1 && old(nextId) !in old(posts)
      ensures data.userId !in usernames ==> r == Err(ForeignKeyMessage) && posts == old(posts)
      ensures data.userId in usernames ==>
        && posts == old(posts)[old(nextId) := Post(old(nextId), data.userId, data.content, now, now)]
        && r == Ok(posts[old(nextId)])
    {
      var id := nextId;
      nextId := nextId + 1;
      if data.userId !in usernames {
        return Err(ForeignKeyMessage);
      }
      posts := posts[id := Post(id, data.userId, data.content, now, now)];
      var row := FindPost(posts, id);
      r := Ok(row.value);
    }

    /** `getAllPosts`. */
    function GetAllPosts(): seq<PostWithUser>
      reads this
      requires Valid()
    {
      AllPosts(posts, usernames)
    }

    /** `getPostById`. */
    function GetPostById(id: int): Option<Post>
      reads this
    {
      FindPost(posts, id)
    }

    /** `getPostsByUserId`. */
    function GetPostsByUserId(userId: int): seq<PostWithUser>
      reads this
      requires Valid()
    {
      PostsByUserId(posts, usernames, userId)
    }

    /** `deletePost`: the owner-scoped DELETE; true iff a row was removed. */
    method DeletePost(id: int, userId: int) returns (removed: bool)
      requires Valid()
      modifies this
      ensures Valid() && usernames == old(usernames) && nextId == old(nextId)
      ensures posts == AfterDelete(old(posts), id, userId)
      ensures removed <==> id in old(posts) && id !in posts
    {
      removed := id in posts && posts[id].userId == userId;
      posts := AfterDelete(posts, id, userId);
    }
  }
}
