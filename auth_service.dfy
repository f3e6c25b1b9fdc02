/**
 * The browser-side session store `authService`
 * (front/services/authService.ts): the `token` and `user` entries of
 * `localStorage`, written when a register or login answer carries a token
 * and removed on logout. Without a window (server rendering) every read
 * gives null and every write does nothing. The answer of the `fetch` call
 * is an input.
 */
module AuthService {
  import opened Wrappers
  import JsText
  import Bearer
  import opened UserService

  const RegisterFallback := "Error en el registro"
  const LoginFallback := "Error en el login"

  /** The `AuthResponse` the server's JSON decodes to; absent members are `None`. */
  datatype AuthResponse = AuthResponse(success: bool, user: Option<UserView>, token: Option<string>, error: Option<string>)

  /** What `fetch` and `response.json()` gave: the decoded answer, or the message of the error thrown. */
  datatype Fetched = Received(response: AuthResponse) | Thrown(message: string)

  /**
   * The text stored under 'user': `JSON.stringify` of a user, or the text
   * "undefined" that storing an absent user leaves.
   */
  datatype StoredUser = UserJson(user: UserView) | UndefinedText

  /** What `getUser` gives: null, the parsed user, or the error `JSON.parse` throws. */
  datatype UserRead = NoUser | Found(user: UserView) | Unparsable

  /** The request headers `getAuthHeaders` builds. */
  datatype AuthHeaders = AuthHeaders(contentType: string, authorization: Option<string>)

  /** `!!token`: a token is stored and is not empty. */
  predicate Truthy(token: Option<string>) {
    token.Some? && token.value != []
  }

  /** `getAuthHeaders` for the token `getToken` gave: Authorization is sent iff that token is truthy. */
  function HeadersFor(token: Option<string>): (h: AuthHeaders)
    ensures h.contentType == "application/json"
    ensures h.authorization.Some? <==> Truthy(token)
    ensures h.authorization.Some? ==> h.authorization.value == Bearer.Header(token.value)
  {
    AuthHeaders("application/json", if Truthy(token) then Some(Bearer.Header(token.value)) else None)
  }

  /** `userStr ? JSON.parse(userStr) : null` over the stored text. */
  function ReadUser(stored: Option<StoredUser>): (r: UserRead)
    ensures r.NoUser? <==> stored.None?
    ensures r.Found? <==> stored.Some? && stored.value.UserJson?
    ensures r.Found? ==> r.user == stored.value.user
  {
    match stored
    case None => NoUser
    case Some(UserJson(u)) => Found(u)
    case Some(UndefinedText) => Unparsable
  }

  /** `result.success && result.token`: the answer is stored. */
  predicate Accepted(fetched: Fetched) {
    fetched.Received? && fetched.response.success && Truthy(fetched.response.token)
  }

  /** The value `register`/`login` resolve to: the server's answer, or a failure carrying the error's message. */
  function Answer(fetched: Fetched, fallback: string): (r: AuthResponse)
    ensures fetched.Received? ==> r == fetched.response
    ensures fetched.Thrown? ==> !r.success && r.token.None? && r.error == Some(JsText.OrElse(fetched.message, fallback))
  {
    match fetched
    case Received(response) => response
    case Thrown(message) => AuthResponse(false, None, None, Some(JsText.OrElse(message, fallback)))
  }

  /** The stored text for the user of an accepted answer. */
  function UserText(user: Option<UserView>): (stored: StoredUser)
    ensures user.Some? <==> stored.UserJson?
    ensures user.Some? ==> stored.user == user.value
  {
    if user.Some? then UserJson(user.value) else UndefinedText
  }

  /** The Express and Next.js servers both read back the token the client sends. */
  lemma HeaderCarriesToken(token: Option<string>)
    requires Truthy(token)
    ensures Bearer.TokenByPrefix(HeadersFor(token).authorization) == Some(token.value)
    ensures Bearer.TokenByReplace(HeadersFor(token).authorization) == Some(token.value)
  {
    Bearer.PrefixRecoversToken(token.value);
    Bearer.ReplaceRecoversToken(token.value);
  }

  class AuthService {
    /** `typeof window !== 'undefined'`. */
    const hasWindow: bool
    /** `localStorage` 'token'. */
    var token: Option<string>
    /** `localStorage` 'user'. */
    var user: Option<StoredUser>

    /** The service over whatever the storage already holds. */
    constructor (hasWindow: bool, token: Option<string>, user: Option<StoredUser>)
      ensures this.hasWindow == hasWindow && this.token == token && this.user == user
    {
      this.hasWindow := hasWindow;
      this.token := token;
      this.user := user;
    }

    /** `getToken`. */
    function GetToken(): (t: Option<string>)
      reads this
      ensures hasWindow ==> t == token
      ensures !hasWindow ==> t.None?
    {
      if hasWindow then token else None
    }

    /** `getUser`. */
    function GetUser(): (r: UserRead)
      reads this
      ensures !hasWindow ==> r.NoUser?
      ensures hasWindow ==> r == ReadUser(user)
    {
      if hasWindow then ReadUser(user) else NoUser
    }

    /** `isAuthenticated`: a non-empty token is stored. */
    predicate IsAuthenticated()
      reads this
      ensures IsAuthenticated() <==> hasWindow && token.Some? && token.value != []
    {
      Truthy(GetToken())
    }

    /** `getAuthHeaders`. */
    function GetAuthHeaders(): (h: AuthHeaders)
      reads this
      ensures h.authorization.Some? <==> IsAuthenticated()
      ensures h.authorization.Some? ==> h.authorization.value == Bearer.Header(token.value)
    {
      HeadersFor(GetToken())
    }

    /** `setToken`. */
    method SetToken(t: string)
      modifies this
      ensures hasWindow ==> token == Some(t)
      ensures !hasWindow ==> token == old(token)
      ensures user == old(user)
    {
      if hasWindow {
        token := Some(t);
      }
    }

    /** `setUser`. */
    method SetUser(u: Option<UserView>)
      modifies this
      ensures hasWindow ==> user == Some(UserText(u))
      ensures !hasWindow ==> user == old(user)
      ensures token == old(token)
    {
      if hasWindow {
        user := Some(UserText(u));
      }
    }

    /**
     * What `register` and `login` share: store token and user when the
     * answer has `success` and a truthy token, and resolve to the answer
     * (or to a failure carrying the thrown error's message or `fallback`).
     */
    method Receive(fetched: Fetched, fallback: string) returns (r: AuthResponse)
      modifies this
      ensures r == Answer(fetched, fallback)
      ensures Accepted(fetched) && hasWindow ==>
        token == fetched.response.token && user == Some(UserText(fetched.response.user))
      ensures Accepted(fetched) && hasWindow ==>
        IsAuthenticated() && GetAuthHeaders().authorization == Some(Bearer.Header(fetched.response.token.value))
      ensures !(Accepted(fetched) && hasWindow) ==> token == old(token) && user == old(user)
    {
      if fetched.Thrown? {
        return Answer(fetched, fallback);
      }
      var result := fetched.response;
      if result.success && Truthy(result.token) {
        SetToken(result.token.value);
        SetUser(result.user);
      }
      r := result;
    }

    /** `register`. */
    method Register(fetched: Fetched) returns (r: AuthResponse)
      modifies this
      ensures r == Answer(fetched, RegisterFallback)
      ensures Accepted(fetched) && hasWindow ==>
        token == fetched.response.token && user == Some(UserText(fetched.response.user))
      ensures Accepted(fetched) && hasWindow ==>
        IsAuthenticated() && GetAuthHeaders().authorization == Some(Bearer.Header(fetched.response.token.value))
      ensures !(Accepted(fetched) && hasWindow) ==> token == old(token) && user == old(user)
    {
      r := Receive(fetched, RegisterFallback);
    }

    /** `login`. */
    method Login(fetched: Fetched) returns (r: AuthResponse)
      modifies this
      ensures r == Answer(fetched, LoginFallback)
      ensures Accepted(fetched) && hasWindow ==>
        token == fetched.response.token && user == Some(UserText(fetched.response.user))
      ensures Accepted(fetched) && hasWindow ==>
        IsAuthenticated() && GetAuthHeaders().authorization == Some(Bearer.Header(fetched.response.token.value))
      ensures !(Accepted(fetched) && hasWindow) ==> token == old(token) && user == old(user)
    {
      r := Receive(fetched, LoginFallback);
    }

    /** `logout`: both entries removed; afterwards nobody is authenticated and there is no user. */
    method Logout()
      modifies this
      ensures hasWindow ==> token.None? && user.None?
      ensures !hasWindow ==> token == old(token) && user == old(user)
      ensures !IsAuthenticated() && GetUser() == NoUser
    {
      if hasWindow {
        token := None;
        user := None;
      }
    }
  }
}
