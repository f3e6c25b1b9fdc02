/**
 * The posts table of the Express server as `PostService`
 * (back/services/PostService.ts) sees it: columns `id`, `title`,
 * `content`, `userId`, `createdAt`, `updatedAt`; every read joins `users`
 * on `userId` to add the author's username. Update and delete are scoped to
 * the owner.
 */
module PostService {
  import opened Wrappers
  import Timeline

  /** The message `createPost` throws when the new row cannot be read back. */
  const CreateFailedMessage := "Error creando el post"

  /** A row of `posts`. */
  datatype PostRow = PostRow(id: nat, title: string, content: string, userId: int, createdAt: nat, updatedAt: nat)

  /** A row joined to its author's username: what every read returns. */
  datatype Post = Post(id: nat, title: string, content: string, userId: int, username: string, createdAt: nat, updatedAt: nat)

  function Join(row: PostRow, username: string): Post {
    Post(row.id, row.title, row.content, row.userId, username, row.createdAt, row.updatedAt)
  }

  /** Every row sits under its own id. */
  predicate Keyed(posts: map<int, PostRow>) {
    forall k :: k in posts ==> posts[k].id == k
  }

  /** Row `k` exists and the inner join keeps it: its author is a user. */
  predicate Joined(posts: map<int, PostRow>, users: map<int, string>, k: int) {
    k in posts && posts[k].userId in users
  }

  /** `getPostById`: the joined row with that id, or null. */
  function FindPost(posts: map<int, PostRow>, users: map<int, string>, id: int): (r: Option<Post>)
    ensures r.Some? <==> Joined(posts, users, id)
    ensures r.Some? ==> r.value == Join(posts[id], users[posts[id].userId])
  {
    if Joined(posts, users, id) then Some(Join(posts[id], users[posts[id].userId])) else None
  }

  /** The check `updatePost` makes before writing: the post reads back and belongs to `userId`. */
  predicate Owns(posts: map<int, PostRow>, users: map<int, string>, id: int, userId: int) {
    var found := FindPost(posts, users, id);
    found.Some? && found.value.userId == userId
  }

  function Stamps(posts: map<int, PostRow>): map<int, nat> {
    map k | k in posts :: posts[k].createdAt
  }

  /** Row `k` as the join returns it. */
  function JoinAt(posts: map<int, PostRow>, users: map<int, string>, k: int): Post
    requires Joined(posts, users, k)
  {
    Join(posts[k], users[posts[k].userId])
  }

  /** The joined rows of `order`, in that order. */
  function JoinAll(posts: map<int, PostRow>, users: map<int, string>, order: seq<int>): (r: seq<Post>)
    requires Keyed(posts)
    requires forall i :: 0 <= i < |order| ==> Joined(posts, users, order[i])
    ensures |r| == |order|
    ensures forall i :: 0 <= i < |r| ==> r[i] == JoinAt(posts, users, order[i]) && r[i].id == order[i]
  {
    if order == [] then [] else [JoinAt(posts, users, order[0])] + JoinAll(posts, users, order[1..])
  }

  /** The joined rows of `ids`, each once, newest first. */
  function Listing(posts: map<int, PostRow>, users: map<int, string>, ids: set<int>): (r: seq<Post>)
    requires Keyed(posts)
    requires forall k :: k in ids ==> Joined(posts, users, k)
    ensures forall i :: 0 <= i < |r| ==> r[i].id in ids && Joined(posts, users, r[i].id) && r[i] == JoinAt(posts, users, r[i].id)
    ensures forall k :: k in ids ==> exists i :: 0 <= i < |r| && r[i].id == k
    ensures forall i, j :: 0 <= i < j < |r| ==> r[i].id != r[j].id
    ensures forall i, j :: 0 <= i < j < |r| ==> r[i].createdAt >= r[j].createdAt
  {
    var at := Stamps(posts);
    assert at.Keys == posts.Keys;
    assert ids <= at.Keys by {
      forall k | k in ids ensures k in at { assert Joined(posts, users, k); }
    }
    var order := Timeline.NewestFirst(at, ids);
    var r := JoinAll(posts, users, order);
    assert forall i :: 0 <= i < |r| ==> r[i].createdAt == at[order[i]];
    r
  }

  /** `getAllPosts`: every post whose author exists, with the username, newest first. */
  function AllPosts(posts: map<int, PostRow>, users: map<int, string>): (r: seq<Post>)
    requires Keyed(posts)
    ensures forall i :: 0 <= i < |r| ==> Joined(posts, users, r[i].id) && r[i] == JoinAt(posts, users, r[i].id)
    ensures forall k :: Joined(posts, users, k) ==> exists i :: 0 <= i < |r| && r[i].id == k
    ensures forall i, j :: 0 <= i < j < |r| ==> r[i].id != r[j].id
    ensures forall i, j :: 0 <= i < j < |r| ==> r[i].createdAt >= r[j].createdAt
  {
    var ids := set k | k in posts && posts[k].userId in users;
    assert forall k :: Joined(posts, users, k) ==> k in ids;
    Listing(posts, users, ids)
  }

  /** `getPostsByUser`: exactly the posts of `userId` (when that user exists), newest first. */
  function PostsByUser(posts: map<int, PostRow>, users: map<int, string>, userId: int): (r: seq<Post>)
    requires Keyed(posts)
    ensures forall i :: 0 <= i < |r| ==> Joined(posts, users, r[i].id) && posts[r[i].id].userId == userId && r[i] == JoinAt(posts, users, r[i].id)
    ensures forall k :: Joined(posts, users, k) && posts[k].userId == userId ==> exists i :: 0 <= i < |r| && r[i].id == k
    ensures forall i, j :: 0 <= i < j < |r| ==> r[i].id != r[j].id
    ensures forall i, j :: 0 <= i < j < |r| ==> r[i].createdAt >= r[j].createdAt
  {
    var ids := set k | k in posts && posts[k].userId in users && posts[k].userId == userId;
    assert forall k :: Joined(posts, users, k) && posts[k].userId == userId ==> k in ids;
    Listing(posts, users, ids)
  }

  /** The row `INSERT INTO posts (title, content, userId)` adds under `id`, stamped `now`. */
  function NewRow(id: nat, title: string, content: string, userId: int, now: nat): PostRow {
    PostRow(id, title, content, userId, now, now)
  }

  /** `UPDATE posts SET title, content, updatedAt WHERE id = ? AND userId = ?`. */
  function AfterUpdate(posts: map<int, PostRow>, id: int, title: string, content: string, userId: int, now: nat): map<int, PostRow> {
    if id in posts && posts[id].userId == userId
    then posts[id := posts[id].(title := title, content := content, updatedAt := now)]
    else posts
  }

  /** `DELETE FROM posts WHERE id = ? AND userId = ?`. */
  function AfterDelete(posts: map<int, PostRow>, id: int, userId: int): map<int, PostRow> {
    if id in posts && posts[id].userId == userId then posts - {id} else posts
  }

  /**
   * What `createPost` reads back after inserting: the new post with the given
   * title, content and author and the author's username; nothing when the
   * author is not a user (the join drops the row).
   */
  lemma CreatedPostReadBack(posts: map<int, PostRow>, users: map<int, string>, id: nat, title: string, content: string, userId: int, now: nat)
    ensures var found := FindPost(posts[id := NewRow(id, title, content, userId, now)], users, id);
      && (found.Some? <==> userId in users)
      && (found.Some? ==> found.value == Post(id, title, content, userId, users[userId], now, now))
  {
  }

  /**
   * An owned post is rewritten in place: new title and content, same id,
   * author and creation time, `updatedAt` now; no other row changes.
   */
  lemma UpdateOwned(posts: map<int, PostRow>, users: map<int, string>, id: int, title: string, content: string, userId: int, now: nat)
    requires Owns(posts, users, id, userId)
    ensures var after := AfterUpdate(posts, id, title, content, userId, now);
      && after.Keys == posts.Keys
      && (forall k :: k in posts && k != id ==> after[k] == posts[k])
      && FindPost(after, users, id) == Some(Post(posts[id].id, title, content, userId, users[userId], posts[id].createdAt, now))
  {
  }

  /** Not owning a post looks exactly like the post not existing: `updatePost` answers null for both. */
  lemma NotOwnedLikeAbsent(posts: map<int, PostRow>, users: map<int, string>, id: int, userId: int)
    requires id in posts && posts[id].userId != userId
    ensures !Owns(posts, users, id, userId)
    ensures !Owns(posts - {id}, users, id, userId)
    ensures AfterDelete(posts, id, userId) == posts
    ensures AfterDelete(posts - {id}, id, userId) == posts - {id}
  {
  }

  /** Deleting removes the one owned row and nothing else; a second identical delete removes nothing. */
  lemma DeleteOwned(posts: map<int, PostRow>, id: int, userId: int)
    requires id in posts && posts[id].userId == userId
    ensures var after := AfterDelete(posts, id, userId);
      && after.Keys == posts.Keys - {id}
      && (forall k :: k in after ==> after[k] == posts[k])
      && id !in after
      && AfterDelete(after, id, userId) == after
  {
  }

  /**
   * A post whose author is not a user cannot be updated (the read before the
   * write finds nothing) but can still be deleted by its `userId`.
   */
  lemma OrphanDeletableNotUpdatable(posts: map<int, PostRow>, users: map<int, string>, id: int, userId: int)
    requires id in posts && posts[id].userId == userId && userId !in users
    ensures !Owns(posts, users, id, userId)
    ensures id !in AfterDelete(posts, id, userId)
  {
  }

  class PostStore {
    var posts: map<int, PostRow>
    /** The `users` table as the joins see it: id to username. This service never changes it. */
    var usernames: map<int, string>
    var nextId: nat

    ghost predicate Valid()
      reads this
    {
      1 <= nextId && Keyed(posts) && forall k :: k in posts ==> 1 <= k < nextId
    }

    constructor (usernames: map<int, string>)
      ensures Valid() && posts == map[] && this.usernames == usernames && nextId == 1
    {
      posts := map[];
      this.usernames := usernames;
      nextId := 1;
    }

    /** `getAllPosts`. */
    function GetAllPosts(): seq<Post>
      reads this
      requires Valid()
    {
      AllPosts(posts, usernames)
    }

    /** `getPostById`. */
    function GetPostById(id: int): Option<Post>
      reads this
    {
      FindPost(posts, usernames, id)
    }

    /** `getPostsByUser`. */
    function GetPostsByUser(userId: int): seq<Post>
      reads this
      requires Valid()
    {
      PostsByUser(posts, usernames, userId)
    }

    /**
     * `createPost`: inserts a row under a fresh id and returns what
     * `getPostById` reads back for it; when that read is empty (the author
     * is not a user) it fails with `CreateFailedMessage`, the row staying
     * inserted.
     */
    method CreatePost(title: string, content: string, userId: int, now: nat) returns (r: Result<Post, string>)
      requires Valid()
      modifies this
      ensures Valid() && usernames == old(usernames)
      ensures nextId == old(nextId) + 1 && old(nextId) !in old(posts)
      ensures posts == old(posts)[old(nextId) := NewRow(old(nextId), title, content, userId, now)]
      ensures r == match FindPost(posts, usernames, old(nextId))
                   case Some(post) => Ok(post)
                   case None => Err(CreateFailedMessage)
    {
      var id := nextId;
      posts := posts[id := NewRow(id, title, content, userId, now)];
      nextId := nextId + 1;
      var post := GetPostById(id);
      if post.None? {
        r := Err(CreateFailedMessage);
      } else {
        r := Ok(post.value);
      }
    }

    /**
     * `updatePost`: null, with nothing changed, unless the post reads back
     * and belongs to `userId`; otherwise the owner-scoped UPDATE runs and the
     * post is read back.
     */
    method UpdatePost(id: int, title: string, content: string, userId: int, now: nat) returns (r: Option<Post>)
      requires Valid()
      modifies this
      ensures Valid() && usernames == old(usernames) && nextId == old(nextId)
      ensures !old(Owns(posts, usernames, id, userId)) ==> r.None? && posts == old(posts)
      ensures old(Owns(posts, usernames, id, userId)) ==>
        && posts == AfterUpdate(old(posts), id, title, content, userId, now)
        && r == FindPost(posts, usernames, id)
    {
      var existing := GetPostById(id);
      if existing.None? || existing.value.userId != userId {
        return None;
      }
      posts := AfterUpdate(posts, id, title, content, userId, now);
      r := GetPostById(id);
    }

    /** `deletePost`: the owner-scoped DELETE; true iff a row was removed. */
    method DeletePost(id: int, userId: int) returns (removed: bool)
      requires Valid()
      modifies this
      ensures Valid() && usernames == old(usernames) && nextId == old(nextId)
      ensures posts == AfterDelete(old(posts), id, userId)
      ensures removed <==> id in old(posts) && id !in posts
    {
      removed := id in posts && posts[id].userId == userId;
      posts := AfterDelete(posts, id, userId);
    }
  }
}
