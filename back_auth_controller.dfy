/**
 * The Express `AuthController` (back/controllers/AuthController.ts):
 * `register` and `login` issue 24-hour tokens signed with
 * `JWT_SECRET || 'your-secret-key'`; `getCurrentUser` answers for the
 * token's user. The users table is the one `UserService` keeps. Body fields
 * are `Some(text)` when present and `None` when missing.
 */
module BackAuthController {
  import opened Wrappers
  import JsText
  import Numerals
  import Jwt
  import Bearer
  import Bcrypt
  import opened UserService

  const FieldsRequired := "Username, email y password son requeridos"
  const UsernameTooShort := "Username debe tener al menos 3 caracteres"
  const PasswordTooShort := "Password debe tener al menos 6 caracteres"
  const EmailTaken := "El usuario ya existe con este email"
  const InternalError := "Error interno del servidor"
  const LoginFieldsRequired := "Email y password son requeridos"
  const BadCredentials := "Credenciales inválidas"
  const TokenRequired := "Token requerido"
  const InvalidToken := "Token inválido"
  const UserNotFound := "Usuario no encontrado"

  /** `{message}`, `{user, token}` or `{user}`. */
  datatype Body = Message(message: string) | Session(user: UserView, token: string) | Current(user: UserView)

  datatype Response = Response(status: nat, body: Body)

  /** A handler's answer with the users table and AUTO_INCREMENT counter it leaves behind. */
  datatype Outcome = Outcome(response: Response, users: map<int, User>, nextId: nat)

  /** `!field`: missing, or the empty string. */
  predicate Falsy(field: Option<string>) {
    field.None? || field.value == []
  }

  /** The token `register` and `login` issue for `u`. */
  function SessionToken(u: User, env: Option<string>, now: nat): string {
    Jwt.Sign(Jwt.Claims(u.id, u.email), Jwt.SecretFrom(env, Jwt.DefaultSecret), now, Jwt.Ttl24h)
  }

  /**
   * The field checks of `register`, in their order: all three present, then
   * username at least 3 code units, then password at least 6. The message
   * of the first that fails, or `None`.
   */
  function RegisterCheck(username: Option<string>, email: Option<string>, password: Option<string>): (failure: Option<string>)
    ensures Falsy(username) || Falsy(email) || Falsy(password) ==> failure == Some(FieldsRequired)
    ensures !Falsy(username) && !Falsy(email) && !Falsy(password) ==>
      && (JsText.JsLength(username.value) < 3 ==> failure == Some(UsernameTooShort))
      && (JsText.JsLength(username.value) >= 3 && JsText.JsLength(password.value) < 6 ==> failure == Some(PasswordTooShort))
    ensures failure.None? <==>
      !Falsy(username) && !Falsy(email) && !Falsy(password) && JsText.JsLength(username.value) >= 3 && JsText.JsLength(password.value) >= 6
  {
    if Falsy(username) || Falsy(email) || Falsy(password) then Some(FieldsRequired)
    else if JsText.JsLength(username.value) < 3 then Some(UsernameTooShort)
    else if JsText.JsLength(password.value) < 6 then Some(PasswordTooShort)
    else None
  }

  /**
   * `register`: 400 with the first failed check; 409 when the email is
   * registered; 500 when `createUser` throws (the username is taken: the
   * id is used up, no row is added); otherwise 201 with the new user's view
   * and a 24-hour token for it.
   */
  function RegisterOutcome(users: map<int, User>, nextId: nat, username: Option<string>, email: Option<string>,
                           password: Option<string>, salt: string, env: Option<string>, now: nat): (o: Outcome)
    requires TableInvariant(users, nextId)
    ensures RegisterCheck(username, email, password).Some? ==>
      o == Outcome(Response(400, Message(RegisterCheck(username, email, password).value)), users, nextId)
    ensures RegisterCheck(username, email, password).None? && FindByEmail(users, email.value).Some? ==>
      o == Outcome(Response(409, Message(EmailTaken)), users, nextId)
    ensures o.response.status == 201 <==>
      RegisterCheck(username, email, password).None? && !Taken(users, username.value, email.value)
    ensures o.response.status == 201 ==>
      var u := NewUser(nextId, CreateUserData(username.value, email.value, password.value), salt, now);
      && o == Outcome(Response(201, Session(View(u), SessionToken(u, env, now))), users[nextId := u], nextId + 1)
      && nextId !in users
    ensures o.response.status == 500 ==> o == Outcome(Response(500, Message(InternalError)), users, nextId + 1)
    ensures o.response.status in {400, 409, 500, 201}
  {
    match RegisterCheck(username, email, password)
    case Some(failure) => Outcome(Response(400, Message(failure)), users, nextId)
    case None =>
      if FindByEmail(users, email.value).Some? then Outcome(Response(409, Message(EmailTaken)), users, nextId)
      else if Taken(users, username.value, email.value) then Outcome(Response(500, Message(InternalError)), users, nextId + 1)
      else
        var u := NewUser(nextId, CreateUserData(username.value, email.value, password.value), salt, now);
        InsertFresh(users, nextId, CreateUserData(username.value, email.value, password.value), salt, now);
        Outcome(Response(201, Session(View(u), SessionToken(u, env, now))), users[nextId := u], nextId + 1)
  }

  /**
   * `login`: 400 when email or password is missing, before any lookup; the
   * same 401 'Credenciales inválidas' for an unknown email and for a wrong
   * password; otherwise 200 with the user's view and a 24-hour token.
   */
  function LoginResponse(users: map<int, User>, email: Option<string>, password: Option<string>,
                         env: Option<string>, now: nat): (r: Response)
    requires EmailsUnique(users)
    ensures Falsy(email) || Falsy(password) ==> r == Response(400, Message(LoginFieldsRequired))
    ensures r.status == 200 <==>
      !Falsy(email) && !Falsy(password) && FindByEmail(users, email.value).Some?
      && ValidatePassword(password.value, FindByEmail(users, email.value).value.password)
    ensures r.status == 200 ==>
      var u := FindByEmail(users, email.value).value;
      r == Response(200, Session(View(u), SessionToken(u, env, now)))
    ensures !Falsy(email) && !Falsy(password) && r.status != 200 ==> r == Response(401, Message(BadCredentials))
  {
    if Falsy(email) || Falsy(password) then Response(400, Message(LoginFieldsRequired))
    else
      match FindByEmail(users, email.value)
      case None => Response(401, Message(BadCredentials))
      case Some(u) =>
        if !ValidatePassword(password.value, u.password) then Response(401, Message(BadCredentials))
        else Response(200, Session(View(u), SessionToken(u, env, now)))
  }

  /**
   * `getCurrentUser`: 401 'Token requerido' without a token (the header's
   * first "Bearer " removed); 401 'Token inválido' when verification
   * fails; 404 when the token's user is gone; otherwise 200 with the view.
   */
  function CurrentUserResponse(users: map<int, User>, header: Option<string>, env: Option<string>, now: nat): (r: Response)
    ensures Bearer.TokenByReplace(header) in {None, Some([])} ==> r == Response(401, Message(TokenRequired))
    ensures r.status == 200 <==>
      && Bearer.TokenByReplace(header).Some? && Bearer.TokenByReplace(header).value != []
      && Jwt.Verify(Bearer.TokenByReplace(header).value, Jwt.SecretFrom(env, Jwt.DefaultSecret), now).Some?
      && Jwt.Verify(Bearer.TokenByReplace(header).value, Jwt.SecretFrom(env, Jwt.DefaultSecret), now).value.userId in users
    ensures r.status == 200 ==>
      r.body == Current(View(users[Jwt.Verify(Bearer.TokenByReplace(header).value, Jwt.SecretFrom(env, Jwt.DefaultSecret), now).value.userId]))
    ensures && Bearer.TokenByReplace(header) !in {None, Some([])}
            && Jwt.Verify(Bearer.TokenByReplace(header).value, Jwt.SecretFrom(env, Jwt.DefaultSecret), now).None?
            ==> r == Response(401, Message(InvalidToken))
    ensures r.status !in {200, 401} ==> r == Response(404, Message(UserNotFound))
  {
    var token := Bearer.TokenByReplace(header);
    if token.None? || token.value == [] then Response(401, Message(TokenRequired))
    else
      match Jwt.Verify(token.value, Jwt.SecretFrom(env, Jwt.DefaultSecret), now)
      case None => Response(401, Message(InvalidToken))
      case Some(claims) =>
        match FindById(users, claims.userId)
        case None => Response(404, Message(UserNotFound))
        case Some(u) => Response(200, Current(View(u)))
  }

  /** An unknown email and a wrong password get the very same answer. */
  lemma LoginRejectionsIdentical(users: map<int, User>, unknown: string, known: string, wrong: string, anyPassword: string,
                                 env: Option<string>, now: nat)
    requires EmailsUnique(users)
    requires unknown != [] && known != [] && wrong != [] && anyPassword != []
    requires forall k :: k in users ==> users[k].email != unknown
    requires FindByEmail(users, known).Some? && !ValidatePassword(wrong, FindByEmail(users, known).value.password)
    ensures LoginResponse(users, Some(unknown), Some(anyPassword), env, now)
         == LoginResponse(users, Some(known), Some(wrong), env, now)
         == Response(401, Message(BadCredentials))
  {
  }

  /** A user just registered can log in with the same email and password and gets the same view. */
  lemma RegisteredUserCanLogIn(users: map<int, User>, nextId: nat, username: string, email: string, password: string,
                               salt: string, env: Option<string>, now: nat, later: nat)
    requires TableInvariant(users, nextId)
    requires RegisterOutcome(users, nextId, Some(username), Some(email), Some(password), salt, env, now).response.status == 201
    ensures var o := RegisterOutcome(users, nextId, Some(username), Some(email), Some(password), salt, env, now);
      && TableInvariant(o.users, o.nextId)
      && LoginResponse(o.users, Some(email), Some(password), env, later).status == 200
      && LoginResponse(o.users, Some(email), Some(password), env, later).body.user == o.response.body.user
  {
    var data := CreateUserData(username, email, password);
    InsertFresh(users, nextId, data, salt, now);
    StoredPasswordValidates(nextId, data, salt, now);
  }

  /**
   * The token `register` issues identifies the new user to `getCurrentUser`
   * for 24 hours.
   */
  lemma RegisteredTokenIdentifies(users: map<int, User>, nextId: nat, username: string, email: string, password: string,
                                  salt: string, env: Option<string>, now: nat, later: nat)
    requires TableInvariant(users, nextId)
    requires RegisterOutcome(users, nextId, Some(username), Some(email), Some(password), salt, env, now).response.status == 201
    requires later < now + Jwt.Ttl24h
    ensures var o := RegisterOutcome(users, nextId, Some(username), Some(email), Some(password), salt, env, now);
      CurrentUserResponse(o.users, Some(Bearer.Header(o.response.body.token)), env, later) == Response(200, Current(o.response.body.user))
  {
    var data := CreateUserData(username, email, password);
    var u := NewUser(nextId, data, salt, now);
    var token := SessionToken(u, env, now);
    Bearer.ReplaceRecoversToken(token);
    assert token != [] by {
      assert token[0] == Numerals.Decimal(nextId)[0];
    }
    Jwt.VerifySigned(Jwt.Claims(u.id, u.email), Jwt.SecretFrom(env, Jwt.DefaultSecret), now, Jwt.Ttl24h, later);
  }

  /**
   * bcrypt reads only the first 72 UTF-8 bytes of a password: once a user
   * has registered with a password whose beginning `first` fills them, any
   * password that begins with `first` logs in as that user.
   */
  lemma LongPasswordVariantLogsIn(users: map<int, User>, nextId: nat, username: string, email: string,
                                  first: string, registered: string, typed: string,
                                  salt: string, env: Option<string>, now: nat, later: nat)
    requires TableInvariant(users, nextId)
    requires |Bcrypt.Utf8(first)| >= Bcrypt.KeyBytes
    requires RegisterOutcome(users, nextId, Some(username), Some(email), Some(first + registered), salt, env, now).response.status == 201
    ensures var o := RegisterOutcome(users, nextId, Some(username), Some(email), Some(first + registered), salt, env, now);
      LoginResponse(o.users, Some(email), Some(first + typed), env, later)
        == Response(200, Session(o.response.body.user, SessionToken(o.users[nextId], env, later)))
  {
    var data := CreateUserData(username, email, first + registered);
    InsertFresh(users, nextId, data, salt, now);
    Bcrypt.CompareReadsFirstBytes(first, registered, HashRounds, salt);
    Bcrypt.CompareReadsFirstBytes(first, typed, HashRounds, salt);
  }

  /** `register` against the live table. */
  method Register(store: UserStore, username: Option<string>, email: Option<string>, password: Option<string>,
                  salt: string, env: Option<string>, now: nat) returns (res: Response)
    requires store.Valid()
    modifies store
    ensures store.Valid()
    ensures Outcome(res, store.users, store.nextId)
         == RegisterOutcome(old(store.users), old(store.nextId), username, email, password, salt, env, now)
  {
    var failure := RegisterCheck(username, email, password);
    if failure.Some? {
      return Response(400, Message(failure.value));
    }
    var existing := store.GetUserByEmail(email.value);
    if existing.Some? {
      return Response(409, Message(EmailTaken));
    }
    var created := store.CreateUser(CreateUserData(username.value, email.value, password.value), salt, now);
    match created
    case Err(_) => res := Response(500, Message(InternalError));
    case Ok(u) => res := Response(201, Session(View(u), SessionToken(u, env, now)));
  }
}
