/**
 * The Next.js `AuthController` (front/controllers/AuthController.ts):
 * bodies are validated with a schema, users live in `UserService`'s table,
 * and tokens are signed with `JWT_SECRET || 'your-secret-key'` for seven
 * days. The schema's e-mail check is the predicate `isEmail`, an input.
 */
module FrontAuthController {
  import opened Wrappers
  import JsText
  import Jwt
  import Bearer
  import opened Json
  import opened UserService
  import FrontPostController

  const ValidationError := "Validation error"
  const RegisterFallback := "Error creating user"
  const InvalidCredentials := "Invalid credentials"
  const LoginFallback := "Error logging in"

  /** `await request.json()`: the fields the handlers read, or the parse error's message. */
  datatype RequestBody = Parsed(username: Field, email: Field, password: Field) | Unparsable(message: string)

  /** `{success: false, error}` or `{success: true, user, token}`. */
  datatype Body = Failure(error: string) | Session(user: UserView, token: string)

  datatype Response = Response(status: nat, body: Body)

  /** A handler's answer with the users table and AUTO_INCREMENT counter it leaves behind. */
  datatype Outcome = Outcome(response: Response, users: map<int, User>, nextId: nat)

  /** The token both handlers issue for `u`. */
  function SessionToken(u: User, env: Option<string>, now: nat): string {
    Jwt.Sign(Jwt.Claims(u.id, u.email), Jwt.SecretFrom(env, Jwt.DefaultSecret), now, Jwt.Ttl7d)
  }

  /** `registerSchema`: username of at least 3 code units, an e-mail, password of at least 6. */
  function RegisterSchema(username: Field, email: Field, password: Field, isEmail: string -> bool): (r: Option<CreateUserData>)
    ensures r.Some? <==>
      && username.Text? && JsText.JsLength(username.text) >= 3
      && email.Text? && isEmail(email.text)
      && password.Text? && JsText.JsLength(password.text) >= 6
    ensures r.Some? ==> r.value == CreateUserData(username.text, email.text, password.text)
  {
    if username.Text? && JsText.JsLength(username.text) >= 3 && email.Text? && isEmail(email.text)
       && password.Text? && JsText.JsLength(password.text) >= 6
    then Some(CreateUserData(username.text, email.text, password.text))
    else None
  }

  /** `loginSchema`: an e-mail and a non-empty password; the pair, or `None`. */
  function LoginSchema(email: Field, password: Field, isEmail: string -> bool): (r: Option<(string, string)>)
    ensures r.Some? <==> email.Text? && isEmail(email.text) && password.Text? && password.text != []
    ensures r.Some? ==> r.value == (email.text, password.text)
  {
    if email.Text? && isEmail(email.text) && password.Text? && JsText.JsLength(password.text) >= 1
    then Some((email.text, password.text))
    else None
  }

  /**
   * `register`: 400 'Validation error' when the schema fails; 400 with the
   * thrown message for every other failure (a body that is not JSON, or a
   * taken username or email, which leaves the table as it was and uses up
   * the id); otherwise 201 with the new user's view and a 7-day token.
   */
  function RegisterOutcome(users: map<int, User>, nextId: nat, body: RequestBody, isEmail: string -> bool,
                           salt: string, env: Option<string>, now: nat): (o: Outcome)
    requires TableInvariant(users, nextId)
    ensures o.response.status == 201 || o.response.status == 400
    ensures body.Unparsable? ==> o == Outcome(Response(400, Failure(JsText.OrElse(body.message, RegisterFallback))), users, nextId)
    ensures body.Parsed? && RegisterSchema(body.username, body.email, body.password, isEmail).None? ==>
      o == Outcome(Response(400, Failure(ValidationError)), users, nextId)
    ensures o.response.status == 201 <==>
      body.Parsed? && RegisterSchema(body.username, body.email, body.password, isEmail).Some?
      && !Taken(users, body.username.text, body.email.text)
    ensures o.response.status == 201 ==>
      var u := NewUser(nextId, CreateUserData(body.username.text, body.email.text, body.password.text), salt, now);
      && nextId !in users
      && o == Outcome(Response(201, Session(View(u), SessionToken(u, env, now))), users[nextId := u], nextId + 1)
    ensures body.Parsed? && RegisterSchema(body.username, body.email, body.password, isEmail).Some?
            && Taken(users, body.username.text, body.email.text) ==>
      o == Outcome(Response(400, Failure(DuplicateMessage)), users, nextId + 1)
  {
    match body
    case Unparsable(message) => Outcome(Response(400, Failure(JsText.OrElse(message, RegisterFallback))), users, nextId)
    case Parsed(username, email, password) =>
      match RegisterSchema(username, email, password, isEmail)
      case None => Outcome(Response(400, Failure(ValidationError)), users, nextId)
      case Some(data) =>
        if Taken(users, data.username, data.email) then Outcome(Response(400, Failure(DuplicateMessage)), users, nextId + 1)
        else
          var u := NewUser(nextId, data, salt, now);
          InsertFresh(users, nextId, data, salt, now);
          Outcome(Response(201, Session(View(u), SessionToken(u, env, now))), users[nextId := u], nextId + 1)
  }

  /**
   * `login`: 500 with the parse error's message for a body that is not
   * JSON; 400 'Validation error' when the schema fails; the same 401
   * 'Invalid credentials' for an unknown email and a wrong password;
   * otherwise 200 with the user's view and a 7-day token for that user.
   */
  function LoginResponse(users: map<int, User>, body: RequestBody, isEmail: string -> bool,
                         env: Option<string>, now: nat): (r: Response)
    requires EmailsUnique(users)
    ensures body.Unparsable? ==> r == Response(500, Failure(JsText.OrElse(body.message, LoginFallback)))
    ensures body.Parsed? && LoginSchema(body.email, body.password, isEmail).None? ==> r == Response(400, Failure(ValidationError))
    ensures r.status == 200 <==>
      && body.Parsed? && LoginSchema(body.email, body.password, isEmail).Some?
      && FindByEmail(users, body.email.text).Some?
      && ValidatePassword(body.password.text, FindByEmail(users, body.email.text).value.password)
    ensures r.status == 200 ==>
      var u := FindByEmail(users, body.email.text).value;
      r == Response(200, Session(View(u), SessionToken(u, env, now)))
    ensures body.Parsed? && LoginSchema(body.email, body.password, isEmail).Some? && r.status != 200 ==>
      r == Response(401, Failure(InvalidCredentials))
  {
    match body
    case Unparsable(message) => Response(500, Failure(JsText.OrElse(message, LoginFallback)))
    case Parsed(_, email, password) =>
      match LoginSchema(email, password, isEmail)
      case None => Response(400, Failure(ValidationError))
      case Some((address, secret)) =>
        match FindByEmail(users, address)
        case None => Response(401, Failure(InvalidCredentials))
        case Some(u) =>
          if !ValidatePassword(secret, u.password) then Response(401, Failure(InvalidCredentials))
          else Response(200, Session(View(u), SessionToken(u, env, now)))
  }

  /** An unknown email and a wrong password get the very same answer. */
  lemma LoginRejectionsIdentical(users: map<int, User>, unknown: RequestBody, wrong: RequestBody,
                                 isEmail: string -> bool, env: Option<string>, now: nat)
    requires EmailsUnique(users)
    requires unknown.Parsed? && LoginSchema(unknown.email, unknown.password, isEmail).Some?
    requires forall k :: k in users ==> users[k].email != unknown.email.text
    requires wrong.Parsed? && LoginSchema(wrong.email, wrong.password, isEmail).Some?
    requires FindByEmail(users, wrong.email.text).Some?
    requires !ValidatePassword(wrong.password.text, FindByEmail(users, wrong.email.text).value.password)
    ensures LoginResponse(users, unknown, isEmail, env, now)
         == LoginResponse(users, wrong, isEmail, env, now)
         == Response(401, Failure(InvalidCredentials))
  {
  }

  /**
   * A user just registered logs in with the same email and password, and
   * gets the view `register` returned.
   */
  lemma RegisteredUserCanLogIn(users: map<int, User>, nextId: nat, body: RequestBody, isEmail: string -> bool,
                               salt: string, env: Option<string>, now: nat, later: nat)
    requires TableInvariant(users, nextId)
    requires RegisterOutcome(users, nextId, body, isEmail, salt, env, now).response.status == 201
    ensures var o := RegisterOutcome(users, nextId, body, isEmail, salt, env, now);
      && TableInvariant(o.users, o.nextId)
      && LoginResponse(o.users, body, isEmail, env, later).status == 200
      && LoginResponse(o.users, body, isEmail, env, later).body.user == o.response.body.user
  {
    var data := CreateUserData(body.username.text, body.email.text, body.password.text);
    InsertFresh(users, nextId, data, salt, now);
    StoredPasswordValidates(nextId, data, salt, now);
  }

  /**
   * The token `register` issues authorises the new user at the Next.js post
   * controller, which verifies with the same secret, for seven days.
   */
  lemma RegisteredTokenAuthorisesPosts(users: map<int, User>, nextId: nat, body: RequestBody, isEmail: string -> bool,
                                       salt: string, env: Option<string>, now: nat, later: nat)
    requires TableInvariant(users, nextId)
    requires RegisterOutcome(users, nextId, body, isEmail, salt, env, now).response.status == 201
    requires later < now + Jwt.Ttl7d
    ensures var o := RegisterOutcome(users, nextId, body, isEmail, salt, env, now);
      FrontPostController.GetUserFromToken(Some(Bearer.Header(o.response.body.token)), env, later)
      == Some(Jwt.Claims(nextId, body.email.text))
  {
    FrontPostController.IssuedTokenAccepted(Jwt.Claims(nextId, body.email.text), Jwt.SecretFrom(env, Jwt.DefaultSecret), env, now, Jwt.Ttl7d, later);
  }

  /** `register` against the live table. */
  method Register(store: UserStore, body: RequestBody, isEmail: string -> bool, salt: string,
                  env: Option<string>, now: nat) returns (res: Response)
    requires store.Valid()
    modifies store
    ensures store.Valid()
    ensures Outcome(res, store.users, store.nextId) == RegisterOutcome(old(store.users), old(store.nextId), body, isEmail, salt, env, now)
  {
    if body.Unparsable? {
      return Response(400, Failure(JsText.OrElse(body.message, RegisterFallback)));
    }
    var data := RegisterSchema(body.username, body.email, body.password, isEmail);
    if data.None? {
      return Response(400, Failure(ValidationError));
    }
    var created := store.CreateUser(data.value, salt, now);
    match created
    case Err(message) => res := Response(400, Failure(JsText.OrElse(message, RegisterFallback)));
    case Ok(u) => res := Response(201, Session(View(u), SessionToken(u, env, now)));
  }
}
