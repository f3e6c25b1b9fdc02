/**
 * The Express `PostController` (back/controllers/PostController.ts): each
 * handler turns a request (Authorization header, route parameter, body
 * fields) into a status and a JSON body, calling `PostService`. Every
 * handler's `try`/`catch` answers 500 for anything thrown, and that
 * includes a token that `jwt.verify` rejects.
 */
module BackPostController {
  import opened Wrappers
  import JsText
  import Numerals
  import Jwt
  import Bearer
  import opened PostService

  const TokenRequired := "Token requerido"
  const InternalError := "Error interno del servidor"
  const PostNotFound := "Post no encontrado"
  const NotFoundOrNotOwned := "Post no encontrado o no autorizado"
  const PostDeleted := "Post eliminado correctamente"

  /** The fallback secret these handlers verify tokens with when `JWT_SECRET` is unset or empty. */
  const VerifyFallback := "secret"

  datatype Body = Message(message: string) | OnePost(post: Post) | PostList(posts: seq<Post>)

  datatype Response = Response(status: nat, body: Body)

  /** A handler's answer together with the posts table it leaves behind. */
  datatype Outcome = Outcome(response: Response, posts: map<int, PostRow>)

  /** What the Authorization header yields: no usable token, a token `jwt.verify` throws on, or the caller's id. */
  datatype Auth = NoToken | Invalid | Caller(userId: nat)

  /**
   * The token is the header with its first "Bearer " removed; an absent
   * header or an empty token is `NoToken`; otherwise the token is verified
   * with `JWT_SECRET || 'secret'` and the claims' `userId` is the caller.
   */
  function Authenticate(header: Option<string>, env: Option<string>, now: nat): (a: Auth)
    ensures a.NoToken? <==> header.None? || JsText.ReplaceFirst(header.value, Bearer.Prefix, "") == []
    ensures a.Caller? <==> !a.NoToken? && Jwt.Verify(Bearer.TokenByReplace(header).value, Jwt.SecretFrom(env, VerifyFallback), now).Some?
    ensures a.Caller? ==> a.userId == Jwt.Verify(Bearer.TokenByReplace(header).value, Jwt.SecretFrom(env, VerifyFallback), now).value.userId
  {
    var token := Bearer.TokenByReplace(header);
    if token.None? || token.value == [] then NoToken
    else
      match Jwt.Verify(token.value, Jwt.SecretFrom(env, VerifyFallback), now)
      case None => Invalid
      case Some(claims) => Caller(claims.userId)
  }

  /** `getAllPosts`: 200 with the listing. */
  function GetAllPosts(posts: map<int, PostRow>, users: map<int, string>): (r: Response)
    requires Keyed(posts)
    ensures r.status == 200 && r.body.PostList?
    ensures forall i :: 0 <= i < |r.body.posts| ==>
      Joined(posts, users, r.body.posts[i].id) && r.body.posts[i] == JoinAt(posts, users, r.body.posts[i].id)
    ensures forall i, j :: 0 <= i < j < |r.body.posts| ==> r.body.posts[i].id != r.body.posts[j].id
    ensures forall k :: Joined(posts, users, k) ==> exists i :: 0 <= i < |r.body.posts| && r.body.posts[i].id == k
    ensures forall i, j :: 0 <= i < j < |r.body.posts| ==> r.body.posts[i].createdAt >= r.body.posts[j].createdAt
  {
    Response(200, PostList(AllPosts(posts, users)))
  }

  /**
   * `getPostById`: the route parameter goes through `parseInt`; 404 'Post
   * no encontrado' when no joined row has that id (a `NaN` id matches no
   * row), otherwise 200 with the post.
   */
  function GetPostById(posts: map<int, PostRow>, users: map<int, string>, idParam: string): (r: Response)
    ensures r.status == 200 <==> JsText.ParseInt(idParam).Some? && Joined(posts, users, JsText.ParseInt(idParam).value)
    ensures r.status != 200 ==> r == Response(404, Message(PostNotFound))
    ensures r.status == 200 ==> r.body == OnePost(FindPost(posts, users, JsText.ParseInt(idParam).value).value)
  {
    var found := match JsText.ParseInt(idParam)
                 case None => None
                 case Some(id) => FindPost(posts, users, id);
    match found
    case None => Response(404, Message(PostNotFound))
    case Some(post) => Response(200, OnePost(post))
  }

  /** `getPostsByUser`: 200 with that user's posts; a `NaN` user id has none. */
  function GetPostsByUser(posts: map<int, PostRow>, users: map<int, string>, userParam: string): (r: Response)
    requires Keyed(posts)
    ensures r.status == 200 && r.body.PostList?
    ensures JsText.ParseInt(userParam).None? ==> r.body.posts == []
    ensures forall i :: 0 <= i < |r.body.posts| ==>
      && JsText.ParseInt(userParam).Some? && r.body.posts[i].userId == JsText.ParseInt(userParam).value
      && Joined(posts, users, r.body.posts[i].id) && r.body.posts[i] == JoinAt(posts, users, r.body.posts[i].id)
    ensures forall i, j :: 0 <= i < j < |r.body.posts| ==> r.body.posts[i].id != r.body.posts[j].id
    ensures forall i, j :: 0 <= i < j < |r.body.posts| ==> r.body.posts[i].createdAt >= r.body.posts[j].createdAt
    ensures JsText.ParseInt(userParam).Some? ==>
      forall k :: Joined(posts, users, k) && posts[k].userId == JsText.ParseInt(userParam).value ==>
        exists i :: 0 <= i < |r.body.posts| && r.body.posts[i].id == k
  {
    match JsText.ParseInt(userParam)
    case None => Response(200, PostList([]))
    case Some(userId) => Response(200, PostList(PostsByUser(posts, users, userId)))
  }

  /**
   * `createPost`: 401 without a token, 500 for a rejected token, 500 when
   * `title` or `content` is missing from the body (the driver refuses to
   * bind `undefined`) and 500 when the new row cannot be read back;
   * otherwise the row is inserted under `nextId` with the caller as author
   * and the answer is 201 with it.
   */
  function CreateOutcome(posts: map<int, PostRow>, users: map<int, string>, nextId: nat, auth: Auth,
                         title: Option<string>, content: Option<string>, now: nat): (o: Outcome)
    ensures auth.NoToken? ==> o == Outcome(Response(401, Message(TokenRequired)), posts)
    ensures auth.Invalid? ==> o == Outcome(Response(500, Message(InternalError)), posts)
    ensures o.response.status == 201 || o.response == Response(500, Message(InternalError)) || o.response == Response(401, Message(TokenRequired))
    ensures o.response.status == 201 <==>
      auth.Caller? && title.Some? && content.Some? && auth.userId in users
    ensures o.response.status == 201 ==>
      var author := auth.userId;
      && o.posts == posts[nextId := NewRow(nextId, title.value, content.value, author, now)]
      && o.response.body == OnePost(Post(nextId, title.value, content.value, author, users[author], now, now))
    ensures auth.Caller? && (title.None? || content.None?) ==> o == Outcome(Response(500, Message(InternalError)), posts)
    ensures auth.Caller? && title.Some? && content.Some? && auth.userId !in users ==>
      o == Outcome(Response(500, Message(InternalError)), posts[nextId := NewRow(nextId, title.value, content.value, auth.userId, now)])
  {
    match auth
    case NoToken => Outcome(Response(401, Message(TokenRequired)), posts)
    case Invalid => Outcome(Response(500, Message(InternalError)), posts)
    case Caller(author) =>
      if title.None? || content.None? then Outcome(Response(500, Message(InternalError)), posts)
      else
        var after := posts[nextId := NewRow(nextId, title.value, content.value, author, now)];
        CreatedPostReadBack(posts, users, nextId, title.value, content.value, author, now);
        match FindPost(after, users, nextId)
        case None => Outcome(Response(500, Message(InternalError)), after)
        case Some(post) => Outcome(Response(201, OnePost(post)), after)
  }

  /**
   * `updatePost`: 401 / 500 as for create; 404 'Post no encontrado o no
   * autorizado' when the caller does not own a post with that id (absent,
   * someone else's, or a `NaN` id alike); for an owned post, 500 when a
   * body field is missing, otherwise 200 with the updated post.
   */
  function UpdateOutcome(posts: map<int, PostRow>, users: map<int, string>, auth: Auth, idParam: string,
                         title: Option<string>, content: Option<string>, now: nat): (o: Outcome)
    ensures auth.NoToken? ==> o == Outcome(Response(401, Message(TokenRequired)), posts)
    ensures auth.Invalid? ==> o == Outcome(Response(500, Message(InternalError)), posts)
    ensures o.response.status == 404 <==>
      auth.Caller? &&
      (JsText.ParseInt(idParam).None? || !Owns(posts, users, JsText.ParseInt(idParam).value, auth.userId))
    ensures o.response.status == 404 ==> o == Outcome(Response(404, Message(NotFoundOrNotOwned)), posts)
    ensures o.response.status == 200 <==> o.response.status != 404 && auth.Caller? && title.Some? && content.Some?
    ensures o.response.status == 200 ==>
      var id := JsText.ParseInt(idParam).value;
      && o.posts == AfterUpdate(posts, id, title.value, content.value, auth.userId, now)
      && o.response.body == OnePost(FindPost(o.posts, users, id).value)
    ensures o.response.status != 200 ==> o.posts == posts
  {
    match auth
    case NoToken => Outcome(Response(401, Message(TokenRequired)), posts)
    case Invalid => Outcome(Response(500, Message(InternalError)), posts)
    case Caller(caller) =>
      match JsText.ParseInt(idParam)
      case None => Outcome(Response(404, Message(NotFoundOrNotOwned)), posts)
      case Some(id) =>
        if !Owns(posts, users, id, caller) then Outcome(Response(404, Message(NotFoundOrNotOwned)), posts)
        else if title.None? || content.None? then Outcome(Response(500, Message(InternalError)), posts)
        else
          var after := AfterUpdate(posts, id, title.value, content.value, caller, now);
          UpdateOwned(posts, users, id, title.value, content.value, caller, now);
          Outcome(Response(200, OnePost(FindPost(after, users, id).value)), after)
  }

  /**
   * `deletePost`: 401 / 500 as for create; 404 'Post no encontrado o no
   * autorizado' when no row with that id belongs to the caller; otherwise
   * the row is removed and the answer is 200 'Post eliminado correctamente'.
   */
  function DeleteOutcome(posts: map<int, PostRow>, auth: Auth, idParam: string): (o: Outcome)
    ensures auth.NoToken? ==> o == Outcome(Response(401, Message(TokenRequired)), posts)
    ensures auth.Invalid? ==> o == Outcome(Response(500, Message(InternalError)), posts)
    ensures o.response.status == 200 <==>
      && auth.Caller? && JsText.ParseInt(idParam).Some?
      && JsText.ParseInt(idParam).value in posts
      && posts[JsText.ParseInt(idParam).value].userId == auth.userId
    ensures o.response.status == 200 ==>
      o == Outcome(Response(200, Message(PostDeleted)), posts - {JsText.ParseInt(idParam).value})
    ensures auth.Caller? && o.response.status != 200 ==>
      o == Outcome(Response(404, Message(NotFoundOrNotOwned)), posts)
  {
    match auth
    case NoToken => Outcome(Response(401, Message(TokenRequired)), posts)
    case Invalid => Outcome(Response(500, Message(InternalError)), posts)
    case Caller(caller) =>
      match JsText.ParseInt(idParam)
      case None => Outcome(Response(404, Message(NotFoundOrNotOwned)), posts)
      case Some(id) =>
        var removed := id in posts && posts[id].userId == caller;
        var after := AfterDelete(posts, id, caller);
        if removed then Outcome(Response(200, Message(PostDeleted)), after)
        else Outcome(Response(404, Message(NotFoundOrNotOwned)), after)
  }

  /** A header carrying a token that verifies identifies the token's user. */
  lemma IssuedTokenAuthenticates(claims: Jwt.Claims, secret: string, env: Option<string>, issued: nat, ttl: nat, now: nat)
    requires Jwt.SecretFrom(env, VerifyFallback) == secret
    requires now < issued + ttl
    ensures Authenticate(Some(Bearer.Header(Jwt.Sign(claims, secret, issued, ttl))), env, now) == Caller(claims.userId)
  {
    var token := Jwt.Sign(claims, secret, issued, ttl);
    Bearer.ReplaceRecoversToken(token);
    assert token != [] by {
      assert token[0] == Numerals.Decimal(claims.userId)[0];
    }
    Jwt.VerifySigned(claims, secret, issued, ttl, now);
  }

  /**
   * With `JWT_SECRET` unset, a token the Express `AuthController` issued
   * (signed with its fallback 'your-secret-key') is rejected here, where the
   * fallback is 'secret': creating a post with it answers 500 and inserts
   * nothing.
   */
  lemma IssuerFallbackRejected(claims: Jwt.Claims, posts: map<int, PostRow>, users: map<int, string>, nextId: nat,
                               title: Option<string>, content: Option<string>, issued: nat, now: nat)
    ensures var header := Some(Bearer.Header(Jwt.Sign(claims, Jwt.DefaultSecret, issued, Jwt.Ttl24h)));
      && Authenticate(header, None, now) == Invalid
      && CreateOutcome(posts, users, nextId, Authenticate(header, None, now), title, content, now) == Outcome(Response(500, Message(InternalError)), posts)
  {
    var token := Jwt.Sign(claims, Jwt.DefaultSecret, issued, Jwt.Ttl24h);
    Bearer.ReplaceRecoversToken(token);
    assert token != [] by {
      assert token[0] == Numerals.Decimal(claims.userId)[0];
    }
    assert Jwt.DefaultSecret != VerifyFallback by {
      assert Jwt.DefaultSecret[0] != VerifyFallback[0];
    }
    Jwt.VerifyOtherSecret(claims, Jwt.DefaultSecret, VerifyFallback, issued, Jwt.Ttl24h, now);
  }

  /** A post created by an authenticated caller is then found by `getPostById` under its id's decimal numeral. */
  lemma CreatedPostIsFound(posts: map<int, PostRow>, users: map<int, string>, nextId: nat, auth: Auth,
                           title: Option<string>, content: Option<string>, now: nat)
    requires CreateOutcome(posts, users, nextId, auth, title, content, now).response.status == 201
    ensures var o := CreateOutcome(posts, users, nextId, auth, title, content, now);
      GetPostById(o.posts, users, Numerals.Decimal(nextId)) == Response(200, o.response.body)
  {
    JsText.ParseDecimal(nextId);
  }

  /**
   * Deleting someone else's post answers exactly as deleting a post that
   * does not exist, and neither changes the table.
   */
  lemma DeleteNotOwnedLikeAbsent(posts: map<int, PostRow>, caller: nat, theirs: nat, missing: nat)
    requires theirs in posts && posts[theirs].userId != caller
    requires missing !in posts
    ensures DeleteOutcome(posts, Caller(caller), Numerals.Decimal(theirs))
         == DeleteOutcome(posts, Caller(caller), Numerals.Decimal(missing))
         == Outcome(Response(404, Message(NotFoundOrNotOwned)), posts)
  {
    JsText.ParseDecimal(theirs);
    JsText.ParseDecimal(missing);
  }

  /** A delete that succeeded, repeated, answers 404 and changes nothing more. */
  lemma DeleteTwice(posts: map<int, PostRow>, auth: Auth, idParam: string)
    requires DeleteOutcome(posts, auth, idParam).response.status == 200
    ensures var after := DeleteOutcome(posts, auth, idParam).posts;
      DeleteOutcome(after, auth, idParam) == Outcome(Response(404, Message(NotFoundOrNotOwned)), after)
  {
  }

  /** `createPost` against the live table. */
  method CreatePost(store: PostStore, header: Option<string>, title: Option<string>, content: Option<string>,
                    env: Option<string>, now: nat) returns (res: Response)
    requires store.Valid()
    modifies store
    ensures store.Valid() && store.usernames == old(store.usernames)
    ensures Outcome(res, store.posts) == CreateOutcome(old(store.posts), old(store.usernames), old(store.nextId), Authenticate(header, env, now), title, content, now)
    ensures store.nextId == old(store.nextId) + (if Authenticate(header, env, now).Caller? && title.Some? && content.Some? then 1 else 0)
  {
    var auth := Authenticate(header, env, now);
    if auth.NoToken? {
      return Response(401, Message(TokenRequired));
    }
    if auth.Invalid? || title.None? || content.None? {
      return Response(500, Message(InternalError));
    }
    var created := store.CreatePost(title.value, content.value, auth.userId, now);
    match created
    case Ok(post) => res := Response(201, OnePost(post));
    case Err(_) => res := Response(500, Message(InternalError));
  }

  /** `updatePost` against the live table. */
  method UpdatePost(store: PostStore, header: Option<string>, idParam: string, title: Option<string>, content: Option<string>,
                    env: Option<string>, now: nat) returns (res: Response)
    requires store.Valid()
    modifies store
    ensures store.Valid() && store.usernames == old(store.usernames) && store.nextId == old(store.nextId)
    ensures Outcome(res, store.posts) == UpdateOutcome(old(store.posts), old(store.usernames), Authenticate(header, env, now), idParam, title, content, now)
  {
    var auth := Authenticate(header, env, now);
    if auth.NoToken? {
      return Response(401, Message(TokenRequired));
    }
    if auth.Invalid? {
      return Response(500, Message(InternalError));
    }
    var id := JsText.ParseInt(idParam);
    if id.None? {
      return Response(404, Message(NotFoundOrNotOwned));
    }
    if title.None? || content.None? {
      // the service reads the post first; the UPDATE it then issues cannot bind `undefined`
      var existing := store.GetPostById(id.value);
      if existing.Some? && existing.value.userId == auth.userId {
        return Response(500, Message(InternalError));
      }
      return Response(404, Message(NotFoundOrNotOwned));
    }
    var updated := store.UpdatePost(id.value, title.value, content.value, auth.userId, now);
    match updated
    case None => res := Response(404, Message(NotFoundOrNotOwned));
    case Some(post) => res := Response(200, OnePost(post));
  }

  /** `deletePost` against the live table. */
  method DeletePost(store: PostStore, header: Option<string>, idParam: string, env: Option<string>, now: nat) returns (res: Response)
    requires store.Valid()
    modifies store
    ensures store.Valid() && store.usernames == old(store.usernames) && store.nextId == old(store.nextId)
    ensures Outcome(res, store.posts) == DeleteOutcome(old(store.posts), Authenticate(header, env, now), idParam)
  {
    var auth := Authenticate(header, env, now);
    if auth.NoToken? {
      return Response(401, Message(TokenRequired));
    }
    if auth.Invalid? {
      return Response(500, Message(InternalError));
    }
    var id := JsText.ParseInt(idParam);
    if id.None? {
      return Response(404, Message(NotFoundOrNotOwned));
    }
    var removed := store.DeletePost(id.value, auth.userId);
    if removed {
      res := Response(200, Message(PostDeleted));
    } else {
      res := Response(404, Message(NotFoundOrNotOwned));
    }
  }
}
