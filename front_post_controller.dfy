/**
 * The Next.js `PostController` (front/controllers/PostController.ts): it
 * authenticates with `getUserFromToken`, validates the body with a schema
 * and answers `{ success, ... }` JSON through the snake_case posts table
 * (`PostServiceDb`). Here a rejected token is 401, never an error.
 */
module FrontPostController {
  import opened Wrappers
  import JsText
  import Numerals
  import Jwt
  import Bearer
  import opened Json
  import opened PostServiceDb

  const Unauthorized := "Unauthorized"
  const ValidationError := "Validation error"
  const CreateFallback := "Error creating post"
  const InvalidPostId := "Invalid post ID"
  const NotFoundOrUnauthorized := "Post not found or unauthorized"
  const PostDeleted := "Post deleted successfully"

  /** The schema's bound on `content`, in UTF-16 code units. */
  const MaxContent: nat := 280

  /**
   * `await request.json()`: the fields the handler looks at, or the message
   * of the error thrown for a body that is not JSON.
   */
  datatype RequestBody = Parsed(content: Field, userId: Field) | Unparsable(message: string)

  /** `{success: false, error}`, `{success: true, post}`, `{success: true, posts}`, `{success: true, message}`. */
  datatype Body = Failure(error: string) | Created(post: Post) | Listed(posts: seq<PostWithUser>) | Done(message: string)

  datatype Response = Response(status: nat, body: Body)

  /** A handler's answer with the posts table and AUTO_INCREMENT counter it leaves behind. */
  datatype Outcome = Outcome(response: Response, posts: map<int, Post>, nextId: nat)

  /**
   * `getUserFromToken`: no user unless the header starts with "Bearer ";
   * the rest of it is verified with `JWT_SECRET || 'your-secret-key'`, and
   * any failure is `null`.
   */
  function GetUserFromToken(header: Option<string>, env: Option<string>, now: nat): (user: Option<Jwt.Claims>)
    ensures user.Some? ==> header.Some? && JsText.StartsWith(header.value, Bearer.Prefix)
    ensures user.Some? <==>
      Bearer.TokenByPrefix(header).Some? && Jwt.Verify(Bearer.TokenByPrefix(header).value, Jwt.SecretFrom(env, Jwt.DefaultSecret), now).Some?
    ensures user.Some? ==> user == Jwt.Verify(header.value[|Bearer.Prefix|..], Jwt.SecretFrom(env, Jwt.DefaultSecret), now)
  {
    match Bearer.TokenByPrefix(header)
    case None => None
    case Some(token) => Jwt.Verify(token, Jwt.SecretFrom(env, Jwt.DefaultSecret), now)
  }

  /** `createPostSchema.parse`: `content` must be a string of 1 to 280 UTF-16 code units; other keys are dropped. */
  function CreateSchema(content: Field): (r: Option<string>)
    ensures r.Some? <==> content.Text? && 1 <= JsText.JsLength(content.text) <= MaxContent
    ensures r.Some? ==> r.value == content.text
  {
    if content.Text? && 1 <= JsText.JsLength(content.text) <= MaxContent then Some(content.text) else None
  }

  /**
   * `createPost`: 401 without a user, before the body is read; 500 with the
   * parser's message for a body that is not JSON; 400 'Validation error'
   * when the schema fails; 500 with the driver's message when the foreign
   * key refuses the author (the id is used up); otherwise 201 with the row
   * inserted under `nextId`, its author taken from the token.
   */
  function CreateOutcome(posts: map<int, Post>, users: map<int, string>, nextId: nat,
                         user: Option<Jwt.Claims>, body: RequestBody, now: nat): (o: Outcome)
    ensures user.None? ==> o == Outcome(Response(401, Failure(Unauthorized)), posts, nextId)
    ensures user.Some? && body.Unparsable? ==>
      o == Outcome(Response(500, Failure(JsText.OrElse(body.message, CreateFallback))), posts, nextId)
    ensures user.Some? && body.Parsed? && CreateSchema(body.content).None? ==>
      o == Outcome(Response(400, Failure(ValidationError)), posts, nextId)
    ensures o.response.status == 201 <==>
      user.Some? && body.Parsed? && CreateSchema(body.content).Some? && user.value.userId in users
    ensures o.response.status == 201 ==>
      && o.nextId == nextId + 1
      && o.posts == posts[nextId := Post(nextId, user.value.userId, body.content.text, now, now)]
      && o.response.body == Created(o.posts[nextId])
    ensures user.Some? && body.Parsed? && CreateSchema(body.content).Some? && user.value.userId !in users ==>
      o == Outcome(Response(500, Failure(ForeignKeyMessage)), posts, nextId + 1)
  {
    if user.None? then Outcome(Response(401, Failure(Unauthorized)), posts, nextId)
    else
      match body
      case Unparsable(message) => Outcome(Response(500, Failure(JsText.OrElse(message, CreateFallback))), posts, nextId)
      case Parsed(content, _) =>
        match CreateSchema(content)
        case None => Outcome(Response(400, Failure(ValidationError)), posts, nextId)
        case Some(text) =>
          if user.value.userId !in users then
            Outcome(Response(500, Failure(ForeignKeyMessage)), posts, nextId + 1)
          else
            var row := Post(nextId, user.value.userId, text, now, now);
            Outcome(Response(201, Created(row)), posts[nextId := row], nextId + 1)
  }

  /** `getAllPosts`: every post joined to its author, newest first. */
  function GetAllPosts(posts: map<int, Post>, users: map<int, string>): (r: Response)
    requires Keyed(posts)
    ensures r.status == 200 && r.body.Listed?
    ensures forall i :: 0 <= i < |r.body.posts| ==>
      Joined(posts, users, r.body.posts[i].id) && r.body.posts[i] == JoinAt(posts, users, r.body.posts[i].id)
    ensures forall i, j :: 0 <= i < j < |r.body.posts| ==> r.body.posts[i].id != r.body.posts[j].id
    ensures forall k :: Joined(posts, users, k) ==> exists i :: 0 <= i < |r.body.posts| && r.body.posts[i].id == k
    ensures forall i, j :: 0 <= i < j < |r.body.posts| ==> r.body.posts[i].createdAt >= r.body.posts[j].createdAt
  {
    Response(200, Listed(AllPosts(posts, users)))
  }

  /** `getUserPosts`: 401 without a user; otherwise 200 with exactly the caller's posts. */
  function GetUserPosts(posts: map<int, Post>, users: map<int, string>, user: Option<Jwt.Claims>): (r: Response)
    requires Keyed(posts)
    ensures user.None? <==> r == Response(401, Failure(Unauthorized))
    ensures user.Some? ==> r.status == 200 && r.body.Listed?
    ensures user.Some? ==> forall i :: 0 <= i < |r.body.posts| ==>
      && Joined(posts, users, r.body.posts[i].id) && posts[r.body.posts[i].id].userId == user.value.userId
      && r.body.posts[i] == JoinAt(posts, users, r.body.posts[i].id)
    ensures user.Some? ==> forall i, j :: 0 <= i < j < |r.body.posts| ==> r.body.posts[i].id != r.body.posts[j].id
    ensures user.Some? ==> forall i, j :: 0 <= i < j < |r.body.posts| ==> r.body.posts[i].createdAt >= r.body.posts[j].createdAt
    ensures user.Some? ==> forall k :: Joined(posts, users, k) && posts[k].userId == user.value.userId ==>
      exists i :: 0 <= i < |r.body.posts| && r.body.posts[i].id == k
  {
    match user
    case None => Response(401, Failure(Unauthorized))
    case Some(claims) => Response(200, Listed(PostsByUserId(posts, users, claims.userId)))
  }

  /**
   * `deletePost`, whose checks run in this order: 401 without a user, 400
   * 'Invalid post ID' when `parseInt` gives `NaN`, 404 when no row with
   * that id belongs to the caller, otherwise 200 with the row removed.
   */
  function DeleteOutcome(posts: map<int, Post>, nextId: nat, user: Option<Jwt.Claims>, idParam: string): (o: Outcome)
    ensures o.nextId == nextId
    ensures user.None? ==> o.response == Response(401, Failure(Unauthorized))
    ensures user.Some? && JsText.ParseInt(idParam).None? ==> o.response == Response(400, Failure(InvalidPostId))
    ensures o.response.status == 200 <==>
      && user.Some? && JsText.ParseInt(idParam).Some?
      && JsText.ParseInt(idParam).value in posts && posts[JsText.ParseInt(idParam).value].userId == user.value.userId
    ensures o.response.status == 200 ==>
      o.response.body == Done(PostDeleted) && o.posts == posts - {JsText.ParseInt(idParam).value}
    ensures o.response.status != 200 ==> o.posts == posts
    ensures user.Some? && JsText.ParseInt(idParam).Some? && o.response.status != 200 ==>
      o.response == Response(404, Failure(NotFoundOrUnauthorized))
  {
    if user.None? then Outcome(Response(401, Failure(Unauthorized)), posts, nextId)
    else
      match JsText.ParseInt(idParam)
      case None => Outcome(Response(400, Failure(InvalidPostId)), posts, nextId)
      case Some(id) =>
        if id in posts && posts[id].userId == user.value.userId
        then Outcome(Response(200, Done(PostDeleted)), AfterDelete(posts, id, user.value.userId), nextId)
        else Outcome(Response(404, Failure(NotFoundOrUnauthorized)), posts, nextId)
  }

  /** A header built from a token that verifies under the configured secret identifies the token's user. */
  lemma IssuedTokenAccepted(claims: Jwt.Claims, secret: string, env: Option<string>, issued: nat, ttl: nat, now: nat)
    requires Jwt.SecretFrom(env, Jwt.DefaultSecret) == secret
    requires now < issued + ttl
    ensures GetUserFromToken(Some(Bearer.Header(Jwt.Sign(claims, secret, issued, ttl))), env, now) == Some(claims)
  {
    Bearer.PrefixRecoversToken(Jwt.Sign(claims, secret, issued, ttl));
    Jwt.VerifySigned(claims, secret, issued, ttl, now);
  }

  /** The `user_id` a client puts in the body is ignored: only the token decides the author. */
  lemma BodyUserIdIgnored(posts: map<int, Post>, users: map<int, string>, nextId: nat,
                          user: Option<Jwt.Claims>, content: Field, forged: Field, now: nat)
    ensures CreateOutcome(posts, users, nextId, user, Parsed(content, forged), now)
         == CreateOutcome(posts, users, nextId, user, Parsed(content, Absent), now)
  {
  }

  /** A post the caller just created is listed among the caller's posts. */
  lemma CreatedPostInUserPosts(posts: map<int, Post>, users: map<int, string>, nextId: nat,
                               user: Option<Jwt.Claims>, body: RequestBody, now: nat)
    requires Keyed(posts)
    requires CreateOutcome(posts, users, nextId, user, body, now).response.status == 201
    ensures var o := CreateOutcome(posts, users, nextId, user, body, now);
      && Keyed(o.posts)
      && exists i :: 0 <= i < |GetUserPosts(o.posts, users, user).body.posts| && GetUserPosts(o.posts, users, user).body.posts[i].id == nextId
  {
    var o := CreateOutcome(posts, users, nextId, user, body, now);
    assert Joined(o.posts, users, nextId);
    var r := GetUserPosts(o.posts, users, user);
    assert exists i :: 0 <= i < |r.body.posts| && r.body.posts[i].id == nextId;
  }

  /** Deleting someone else's post answers exactly as deleting a post that does not exist. */
  lemma DeleteNotOwnedLikeAbsent(posts: map<int, Post>, nextId: nat, user: Jwt.Claims, theirs: nat, missing: nat)
    requires theirs in posts && posts[theirs].userId != user.userId
    requires missing !in posts
    ensures DeleteOutcome(posts, nextId, Some(user), Numerals.Decimal(theirs))
         == DeleteOutcome(posts, nextId, Some(user), Numerals.Decimal(missing))
         == Outcome(Response(404, Failure(NotFoundOrUnauthorized)), posts, nextId)
  {
    JsText.ParseDecimal(theirs);
    JsText.ParseDecimal(missing);
  }

  /** `createPost` against the live table. */
  method CreatePost(store: PostStore, header: Option<string>, body: RequestBody, env: Option<string>, now: nat) returns (res: Response)
    requires store.Valid()
    modifies store
    ensures store.Valid() && store.usernames == old(store.usernames)
    ensures Outcome(res, store.posts, store.nextId)
         == CreateOutcome(old(store.posts), old(store.usernames), old(store.nextId), GetUserFromToken(header, env, now), body, now)
  {
    var user := GetUserFromToken(header, env, now);
    if user.None? {
      return Response(401, Failure(Unauthorized));
    }
    if body.Unparsable? {
      return Response(500, Failure(JsText.OrElse(body.message, CreateFallback)));
    }
    var content := CreateSchema(body.content);
    if content.None? {
      return Response(400, Failure(ValidationError));
    }
    var created := store.CreatePost(CreatePostData(user.value.userId, content.value), now);
    match created
    case Ok(post) => res := Response(201, Created(post));
    case Err(message) => res := Response(500, Failure(JsText.OrElse(message, CreateFallback)));
  }

  /** `deletePost` against the live table. */
  method DeletePost(store: PostStore, header: Option<string>, idParam: string, env: Option<string>, now: nat) returns (res: Response)
    requires store.Valid()
    modifies store
    ensures store.Valid() && store.usernames == old(store.usernames)
    ensures Outcome(res, store.posts, store.nextId)
         == DeleteOutcome(old(store.posts), old(store.nextId), GetUserFromToken(header, env, now), idParam)
  {
    var user := GetUserFromToken(header, env, now);
    if user.None? {
      return Response(401, Failure(Unauthorized));
    }
    var id := JsText.ParseInt(idParam);
    if id.None? {
      return Response(400, Failure(InvalidPostId));
    }
    var deleted := store.DeletePost(id.value, user.value.userId);
    if !deleted {
      return Response(404, Failure(NotFoundOrUnauthorized));
    }
    res := Response(200, Done(PostDeleted));
  }
}
