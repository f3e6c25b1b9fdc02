# Posts app core, modelled in Dafny

This project models the sequential core of the posts application in
TP4/posts-app. Users register and log in, receive a signed token, and
publish short posts. Two servers share this logic:

- an Express server (`back/`) with a `PostController`, an
  `AuthController` and two versions of the posts table (`PostService`,
  camelCase columns with a title; `PostServiceDB`, snake_case columns
  without one);
- a Next.js server (`front/`) with its own `PostController` and
  `AuthController` over the users table of `UserService`.

The browser keeps the session in `localStorage` through `authService`. The
`NewPostForm` component guards what it sends.

Each table is a class that holds a map from id to row, plus the next
AUTO_INCREMENT value. Queries are functions over the maps. Mutating
methods are tied to value-level functions of the old state. Each controller
handler is specified by a function from the table and the request to an
`Outcome` (the response plus the table left behind). The method that runs
the handler against the live table is proved equal to that function.

Library behaviour is modelled concretely, so that the proofs rest on
definitions rather than axioms:

- `JsText`: JavaScript string semantics. `length` counts UTF-16 code
  units. Also modelled: `trim`, `startsWith`, `replace` with a string
  pattern, and the global `parseInt`.
- `Jwt`: tokens are a length-prefixed text of the claims, `iat` and `exp`,
  plus an ideal signature that verifies under exactly the secret that
  signed it.
- `Bcrypt`: a digest records the 72 key bytes `bcryptjs` hashes: the
  password's UTF-8 bytes and a NUL, repeated when shorter.
- `Timeline`: `ORDER BY created_at DESC` as a newest-first ordering of a
  set of ids.

Things the proofs bring out:

- With `JWT_SECRET` unset, the Express `AuthController` signs tokens with
  `'your-secret-key'`. The Express `PostController` verifies with `'secret'`.
  So a freshly issued token cannot create a post there: the answer is 500
  (`BackPostController.IssuerFallbackRejected`). The Next.js server uses
  `'your-secret-key'` on both sides, and its tokens are accepted for seven
  days (`FrontAuthController.RegisteredTokenAuthorisesPosts`).
- The Express post controller answers 500, not 401, for a token that fails
  verification, because `jwt.verify` throws into the catch-all. A client
  cannot tell a rejected token from a server fault: both are 500.
- A duplicate user gets different answers in different places. On the
  Next.js server it gets 400 with the message 'Usuario o email ya existe'.
  On the Express server a duplicate email gets 409, but a duplicate
  username gets 500, the same answer as a database failure.
- The Next.js controllers put `error.message` into 500 and 400 bodies, so
  the client sees database text such as the foreign-key message.
- `bcryptjs` reads only the first 72 UTF-8 bytes of a password. A user who
  registered with a longer password logs in with any password that shares
  those bytes (`BackAuthController.LongPasswordVariantLogsIn`).
- The two bearer extractions agree on headers that start with "Bearer ".
  They differ on other headers: `replace` cuts "Bearer " out of the middle
  of a header, and `startsWith` refuses such a header
  (`Bearer.ExtractionsDifferInside`).

The clock (`now`, in seconds), bcrypt's random salt, the `JWT_SECRET`
environment variable and the result of every `fetch` are parameters.
Zod's e-mail check is the parameter `isEmail`.

## Model

| member | source | states |
|---|---|---|
| JsText.JsLength | TP4/posts-app/front/components/NewPostForm.tsx:22 | `content.length` counts UTF-16 code units: between the number of characters and twice that, and zero only for the empty string |
| JsText.Trim | TP4/posts-app/front/components/NewPostForm.tsx:28 | `trim()` never lengthens a string; it gives "" exactly when every character is white space; otherwise it neither starts nor ends with white space |
| JsText.OrElse | TP4/posts-app/front/controllers/PostController.ts:74 | `message \|\| fallback`: the message when it is non-empty, otherwise the fallback |
| JsText.IndexOf | TP4/posts-app/back/controllers/PostController.ts:35 | the first position where the pattern occurs, or -1 when it occurs nowhere |
| JsText.ReplaceAbsent | TP4/posts-app/back/controllers/PostController.ts:35 | `replace` leaves a string without the pattern unchanged |
| JsText.ReplaceAtStart | TP4/posts-app/back/controllers/PostController.ts:35 | `replace` of a prefix removes exactly that prefix |
| JsText.ParseDecimal | TP4/posts-app/front/controllers/PostController.ts:133 | `parseInt` reads back the decimal numeral of every natural number |
| JsText.ParseNoDigits | TP4/posts-app/front/controllers/PostController.ts:133-134 | `parseInt` of a string without digits is NaN |
| Bearer.TokenByReplace | TP4/posts-app/back/controllers/PostController.ts:35 | no token exactly when the header is absent; what it yields from a present header is stated by the lemmas below |
| Bearer.TokenByPrefix | TP4/posts-app/front/controllers/PostController.ts:17-22 | a token exactly when the header starts with "Bearer ", and then the header is "Bearer " followed by the token |
| Bearer.ReplaceRecoversToken | TP4/posts-app/back/controllers/PostController.ts:35 | the Express extraction recovers the token the client put after "Bearer " |
| Bearer.PrefixRecoversToken | TP4/posts-app/front/controllers/PostController.ts:18-22 | the Next.js extraction recovers the token the client put after "Bearer " |
| Bearer.ReplaceKeepsOtherHeaders | TP4/posts-app/back/controllers/PostController.ts:35 | a header that does not contain "Bearer " is passed to verification unchanged |
| Bearer.ExtractionsAgreeOnBearer | TP4/posts-app/front/controllers/PostController.ts:18-22 | on headers that start with "Bearer " the two extractions give the same token |
| Bearer.ExtractionsDifferInside | TP4/posts-app/back/controllers/PostController.ts:35 | "xBearer y" yields the token "xy" by `replace` and no token by `startsWith` |
| Jwt.SecretFrom | TP4/posts-app/back/controllers/AuthController.ts:5 | `JWT_SECRET \|\| fallback`: the variable when it is set and non-empty, the fallback otherwise |
| Jwt.VerifySigned | TP4/posts-app/back/controllers/PostController.ts:41 | `verify(sign(c, k, ttl), k, now)` gives back the claims `c` while `now` is before issue time + ttl |
| Jwt.VerifyOtherSecret | TP4/posts-app/back/controllers/PostController.ts:41 | verification under any other secret rejects the token |
| Jwt.VerifyExpired | TP4/posts-app/back/controllers/AuthController.ts:47-51 | once issue time + ttl is reached the token is rejected, even under its own secret |
| Jwt.VerifiedMeansSigned | TP4/posts-app/back/controllers/AuthController.ts:128 | a token that verifies is well formed, was signed with that secret and has not expired, and its claims are what verification returns |
| Bcrypt.CompareOwnHash | TP4/posts-app/front/services/UserService.ts:45-47 | `compare(p, hash(p))` holds for every cost and salt |
| Bcrypt.CompareOtherRejected | TP4/posts-app/front/services/UserService.ts:45-47 | `compare(q, hash(p))` fails for every `q` other than `p`, when both are at most 72 UTF-8 bytes long and contain no NUL character |
| Bcrypt.CompareReadsFirstBytes | TP4/posts-app/front/services/UserService.ts:45-47 | once a password fills 72 UTF-8 bytes, anything appended to it matches the same digest |
| Bcrypt.LongPasswordsCollide | TP4/posts-app/front/services/UserService.ts:45-47 | seventy-two 'a's followed by 'Y' matches the digest of seventy-two 'a's followed by 'X' |
| Bcrypt.Utf8Injective | TP4/posts-app/front/services/UserService.ts:8 | the UTF-8 bytes `hash` reads determine the password |
| Timeline.NewestFirst | TP4/posts-app/back/services/PostServiceDB.ts:33 | `ORDER BY created_at DESC`: each id once, every id of the set, and timestamps non-increasing |
| UserService.View | TP4/posts-app/back/controllers/AuthController.ts:54-58 | the user view carries id, username and email, and no password |
| UserService.NewUser | TP4/posts-app/front/services/UserService.ts:8-14 | the inserted row stores the bcrypt digest (cost 10), never the plaintext, with the given username and email |
| UserService.FindByEmail | TP4/posts-app/front/services/UserService.ts:30-43 | null exactly when no row has that email; otherwise a row of the table with that email |
| UserService.FindById | TP4/posts-app/front/services/UserService.ts:49-62 | the row with that id, or null exactly when there is none |
| UserService.ValidatePassword | TP4/posts-app/front/services/UserService.ts:45-47 | true exactly when bcrypt's compare accepts |
| UserService.StoredPasswordValidates | TP4/posts-app/front/services/UserService.ts:45-47 | a user's own password validates against the digest `createUser` stored |
| UserService.InsertFresh | TP4/posts-app/front/services/UserService.ts:11-21 | inserting a free username and email under the next id keeps ids, usernames and emails unique; the new row is what lookup by id and by email find |
| UserService.UserStore.CreateUser | TP4/posts-app/front/services/UserService.ts:6-28 | a taken username or email fails with 'Usuario o email ya existe' and leaves the rows unchanged; otherwise exactly one row is added under a fresh id and returned; the id is used up either way |
| PostService.FindPost | TP4/posts-app/back/services/PostService.ts:31-46 | the post with that id joined to its author's username, or null exactly when there is no such row or its author is not a user |
| PostService.AllPosts | TP4/posts-app/back/services/PostService.ts:15-29 | every post whose author exists, each once, joined to the username, `createdAt` non-increasing; orphans are dropped |
| PostService.PostsByUser | TP4/posts-app/back/services/PostService.ts:106-122 | exactly the joined posts with that `userId`, each once, newest first |
| PostService.CreatedPostReadBack | TP4/posts-app/back/services/PostService.ts:51-63 | after the INSERT the read-back finds the new post, with the given title, content and author, exactly when the author is a user |
| PostService.UpdateOwned | TP4/posts-app/back/services/PostService.ts:79-84 | an owned post gets the new title and content and keeps id, author and creation time; no other row changes; the re-read returns it |
| PostService.NotOwnedLikeAbsent | TP4/posts-app/back/services/PostService.ts:74-77 | for a non-owner, update and delete behave exactly as for an id that does not exist |
| PostService.DeleteOwned | TP4/posts-app/back/services/PostService.ts:94-99 | deleting an owned post removes exactly that row; a second identical delete removes nothing |
| PostService.OrphanDeletableNotUpdatable | TP4/posts-app/back/services/PostService.ts:74-99 | a post whose author is not a user cannot be updated, because the read finds nothing, but can still be deleted |
| PostService.PostStore.CreatePost | TP4/posts-app/back/services/PostService.ts:48-68 | one row under a fresh id; returns what `getPostById` reads back, or 'Error creando el post' when that read is empty |
| PostService.PostStore.UpdatePost | TP4/posts-app/back/services/PostService.ts:70-89 | null and nothing changed unless the caller owns the post; otherwise the owner-scoped UPDATE and the re-read post |
| PostService.PostStore.DeletePost | TP4/posts-app/back/services/PostService.ts:91-104 | the owner-scoped DELETE; true exactly when a row was removed; nothing else changes |
| PostServiceDb.FindPost | TP4/posts-app/back/services/PostServiceDB.ts:42-55 | the plain row with that id, or null exactly when there is none |
| PostServiceDb.AllPosts | TP4/posts-app/back/services/PostServiceDB.ts:25-40 | (id, content, created_at, username) of every post joined to its author, each once, created_at non-increasing |
| PostServiceDb.PostsByUserId | TP4/posts-app/back/services/PostServiceDB.ts:57-73 | exactly that user's joined posts, each once, newest first |
| PostServiceDb.EveryPostListed | TP4/posts-app/back/services/PostServiceDB.ts:29-34 | with the foreign key in force, the join drops nothing: every post is listed |
| PostServiceDb.CreatedPostListedFirst | TP4/posts-app/back/services/PostServiceDB.ts:29-34 | a post created later than every other heads the listing |
| PostServiceDb.DeleteOwned | TP4/posts-app/back/services/PostServiceDB.ts:79-84 | deleting an owned post removes exactly that row; repeating the delete changes nothing |
| PostServiceDb.DeleteNotOwnedLikeAbsent | TP4/posts-app/back/services/PostServiceDB.ts:79-84 | a non-owner's delete changes nothing, exactly like a delete of a missing id |
| PostServiceDb.PostStore.CreatePost | TP4/posts-app/back/services/PostServiceDB.ts:5-23 | inserts (user_id, content) under a fresh id and returns that plain row; an author who is not a user is refused by the foreign key and nothing is inserted |
| PostServiceDb.PostStore.DeletePost | TP4/posts-app/back/services/PostServiceDB.ts:75-88 | the owner-scoped DELETE; true exactly when a row was removed; nothing else changes |
| BackPostController.Authenticate | TP4/posts-app/back/controllers/PostController.ts:35-42 | no token when the header is absent or the replace leaves ""; otherwise the caller is the `userId` of a token that verifies under `JWT_SECRET \|\| 'secret'` |
| BackPostController.GetAllPosts | TP4/posts-app/back/controllers/PostController.ts:6-14 | 200 listing exactly the posts whose author exists, each once, each as the join of its row and its author's username, newest first |
| BackPostController.GetPostById | TP4/posts-app/back/controllers/PostController.ts:16-30 | 200 with the post exactly when `parseInt(id)` names a joined post; otherwise 404 'Post no encontrado' |
| BackPostController.GetPostsByUser | TP4/posts-app/back/controllers/PostController.ts:103-112 | 200 with exactly that user's joined posts, each once, newest first; none for a NaN id |
| BackPostController.CreateOutcome | TP4/posts-app/back/controllers/PostController.ts:32-50 | 401 'Token requerido' without a token, 500 for a rejected token and 500 for a missing title or content, all changing nothing; 500 with the new row kept when its author is not a user; 201 exactly when the caller is a user and title and content are present, with the row authored by the token's user |
| BackPostController.UpdateOutcome | TP4/posts-app/back/controllers/PostController.ts:52-76 | 401/500 as for create; 404 'Post no encontrado o no autorizado', with nothing changed, exactly when the caller does not own the post (absent, someone else's, or NaN id); 200 with the re-read post after the owner-scoped update |
| BackPostController.DeleteOutcome | TP4/posts-app/back/controllers/PostController.ts:78-101 | 401/500 as for create; 200 and the row removed exactly when the caller owns it; 404 with nothing changed otherwise |
| BackPostController.IssuedTokenAuthenticates | TP4/posts-app/back/controllers/PostController.ts:35-42 | a header carrying an unexpired token signed with the configured secret authenticates its user |
| BackPostController.IssuerFallbackRejected | TP4/posts-app/back/controllers/PostController.ts:41 | with `JWT_SECRET` unset, a 24-hour token signed with 'your-secret-key' is rejected, and creating a post with it answers 500 and inserts nothing |
| BackPostController.CreatedPostIsFound | TP4/posts-app/back/controllers/PostController.ts:19-25 | after a 201 create, `getPostById` on the new id's numeral answers 200 with the same post |
| BackPostController.DeleteNotOwnedLikeAbsent | TP4/posts-app/back/controllers/PostController.ts:90-94 | deleting someone else's post gets the same 404 and unchanged table as deleting a missing post |
| BackPostController.DeleteTwice | TP4/posts-app/back/controllers/PostController.ts:90-94 | repeating a successful delete answers 404 and changes nothing |
| BackPostController.CreatePost | TP4/posts-app/back/controllers/PostController.ts:32-50 | running the handler against the table gives exactly `CreateOutcome`; the AUTO_INCREMENT value advances exactly when an INSERT runs (an authenticated caller with title and content) |
| BackPostController.UpdatePost | TP4/posts-app/back/controllers/PostController.ts:52-76 | running the handler against the table gives exactly `UpdateOutcome` |
| BackPostController.DeletePost | TP4/posts-app/back/controllers/PostController.ts:78-101 | running the handler against the table gives exactly `DeleteOutcome` |
| FrontPostController.GetUserFromToken | TP4/posts-app/front/controllers/PostController.ts:15-32 | null unless the header starts with "Bearer " and the rest verifies under `JWT_SECRET \|\| 'your-secret-key'`; then the verified claims |
| FrontPostController.CreateSchema | TP4/posts-app/front/controllers/PostController.ts:10-12 | accepts exactly a string `content` of 1 to 280 UTF-16 code units |
| FrontPostController.CreateOutcome | TP4/posts-app/front/controllers/PostController.ts:35-77 | 401 without a user, whatever the body; 500 with the parse error's message; 400 'Validation error'; 500 with the foreign-key message (id used up); 201 exactly when the content passes and the user exists, with `user_id` taken from the token |
| FrontPostController.GetAllPosts | TP4/posts-app/front/controllers/PostController.ts:79-94 | 200 listing exactly the posts whose author exists, each once, each as the join of its row and its author's username, newest first |
| FrontPostController.GetUserPosts | TP4/posts-app/front/controllers/PostController.ts:96-120 | 401 exactly without a user; otherwise 200 with exactly the caller's joined posts, each once, newest first |
| FrontPostController.DeleteOutcome | TP4/posts-app/front/controllers/PostController.ts:122-161 | checks in order: 401 without a user, 400 'Invalid post ID' for NaN, 404 'Post not found or unauthorized' when the caller owns no such row, otherwise 200 with the row removed |
| FrontPostController.IssuedTokenAccepted | TP4/posts-app/front/controllers/PostController.ts:17-28 | an unexpired token signed with the configured secret yields its claims |
| FrontPostController.BodyUserIdIgnored | TP4/posts-app/front/controllers/PostController.ts:51-54 | a `user_id` in the body has no effect on the outcome |
| FrontPostController.CreatedPostInUserPosts | TP4/posts-app/front/controllers/PostController.ts:107 | a post just created is listed among the caller's posts |
| FrontPostController.DeleteNotOwnedLikeAbsent | TP4/posts-app/front/controllers/PostController.ts:141-147 | deleting someone else's post gets the same 404 and unchanged table as deleting a missing post |
| FrontPostController.CreatePost | TP4/posts-app/front/controllers/PostController.ts:35-77 | running the handler against the table gives exactly `CreateOutcome` |
| FrontPostController.DeletePost | TP4/posts-app/front/controllers/PostController.ts:122-161 | running the handler against the table gives exactly `DeleteOutcome` |
| BackAuthController.RegisterCheck | TP4/posts-app/back/controllers/AuthController.ts:13-29 | checks in order: all three fields present, then username of at least 3, then password of at least 6; the first failure's message |
| BackAuthController.RegisterOutcome | TP4/posts-app/back/controllers/AuthController.ts:8-68 | 400 on a failed check and 409 for a registered email, both before any insert; 500 for a taken username; 201 exactly when username and email are free, with the view (no password) and a 24-hour token for the new user |
| BackAuthController.LoginResponse | TP4/posts-app/back/controllers/AuthController.ts:70-118 | 400 for a missing field before any lookup; 200 with the view and a 24-hour token exactly when the email exists and the password matches; 401 'Credenciales inválidas' otherwise |
| BackAuthController.CurrentUserResponse | TP4/posts-app/back/controllers/AuthController.ts:120-147 | 401 'Token requerido' without a token; 401 'Token inválido' when verification fails; 404 for an unknown user; 200 with the view exactly when the token verifies and names a user |
| BackAuthController.LoginRejectionsIdentical | TP4/posts-app/back/controllers/AuthController.ts:82-94 | an unknown email and a wrong password get the identical 401 |
| BackAuthController.RegisteredUserCanLogIn | TP4/posts-app/back/controllers/AuthController.ts:82-101 | after a 201 register, login with the same email and password answers 200 with the same view |
| BackAuthController.RegisteredTokenIdentifies | TP4/posts-app/back/controllers/AuthController.ts:122-135 | the token `register` issued identifies the new user to `getCurrentUser` for 24 hours |
| BackAuthController.LongPasswordVariantLogsIn | TP4/posts-app/back/controllers/AuthController.ts:82-101 | after registering with a password whose beginning fills 72 UTF-8 bytes, logging in with any password that has the same beginning answers 200 as that user |
| BackAuthController.Register | TP4/posts-app/back/controllers/AuthController.ts:8-68 | running the handler against the users table gives exactly `RegisterOutcome` |
| FrontAuthController.RegisterSchema | TP4/posts-app/front/controllers/AuthController.ts:10-14 | accepts exactly a username of at least 3, an e-mail and a password of at least 6 |
| FrontAuthController.LoginSchema | TP4/posts-app/front/controllers/AuthController.ts:16-19 | accepts exactly an e-mail and a non-empty password |
| FrontAuthController.RegisterOutcome | TP4/posts-app/front/controllers/AuthController.ts:22-68 | always 201 or 400: 'Validation error' for the schema; the thrown message for a bad body or a duplicate (table unchanged); 201 with the view and a 7-day token exactly when the schema passes and username and email are free |
| FrontAuthController.LoginResponse | TP4/posts-app/front/controllers/AuthController.ts:70-134 | 500 for a body that is not JSON; 400 for the schema; 200 with the view and a 7-day token exactly when the email exists and the password matches; otherwise 401 'Invalid credentials' |
| FrontAuthController.LoginRejectionsIdentical | TP4/posts-app/front/controllers/AuthController.ts:84-101 | an unknown email and a wrong password get the identical 401 |
| FrontAuthController.RegisteredUserCanLogIn | TP4/posts-app/front/controllers/AuthController.ts:82-101 | after a 201 register, the same body logs in with 200 and the same view |
| FrontAuthController.RegisteredTokenAuthorisesPosts | TP4/posts-app/front/controllers/AuthController.ts:38-42 | the token `register` issues is accepted by the Next.js post controller for seven days |
| FrontAuthController.Register | TP4/posts-app/front/controllers/AuthController.ts:22-68 | running the handler against the users table gives exactly `RegisterOutcome` |
| AuthService.HeadersFor | TP4/posts-app/front/services/authService.ts:29-35 | JSON content type always; `Authorization: Bearer <token>` exactly when the token is truthy |
| AuthService.ReadUser | TP4/posts-app/front/services/authService.ts:109-115 | null exactly when nothing is stored; the stored user when it is a user's JSON |
| AuthService.Answer | TP4/posts-app/front/services/authService.ts:55-60 | the server's answer, or for a thrown error a failure with the error's message or the fallback |
| AuthService.UserText | TP4/posts-app/front/services/authService.ts:117-121 | the stored text is the user's JSON exactly when there is a user |
| AuthService.HeaderCarriesToken | TP4/posts-app/front/services/authService.ts:33 | both servers extract from the header exactly the token the client stored |
| AuthService.AuthService.GetToken | TP4/posts-app/front/services/authService.ts:96-101 | the stored token in a browser, null without a window |
| AuthService.AuthService.GetUser | TP4/posts-app/front/services/authService.ts:109-115 | the stored user read back in a browser, null without a window |
| AuthService.AuthService.IsAuthenticated | TP4/posts-app/front/services/authService.ts:123-125 | true exactly when a non-empty token is stored in a browser |
| AuthService.AuthService.GetAuthHeaders | TP4/posts-app/front/services/authService.ts:29-35 | carries Authorization exactly when `isAuthenticated` holds, with the stored token |
| AuthService.AuthService.SetToken | TP4/posts-app/front/services/authService.ts:103-107 | stores the token in a browser; does nothing without a window |
| AuthService.AuthService.SetUser | TP4/posts-app/front/services/authService.ts:117-121 | stores the user's text in a browser; does nothing without a window |
| AuthService.AuthService.Receive | TP4/posts-app/front/services/authService.ts:47-52 | token and user are stored exactly when the answer has success and a truthy token (in a browser), after which the service is authenticated and its headers carry that token; otherwise storage is unchanged |
| AuthService.AuthService.Register | TP4/posts-app/front/services/authService.ts:37-61 | stores the session only for an accepted answer, after which the service is authenticated and sends that token; a thrown error resolves to a failure with 'Error en el registro' as fallback and changes nothing |
| AuthService.AuthService.Login | TP4/posts-app/front/services/authService.ts:63-87 | stores the session only for an accepted answer, after which the service is authenticated and sends that token; a thrown error resolves to a failure with 'Error en el login' as fallback and changes nothing |
| AuthService.AuthService.Logout | TP4/posts-app/front/services/authService.ts:89-94 | both entries removed; afterwards nobody is authenticated and there is no user |
| NewPostForm.RemainingChars | TP4/posts-app/front/components/NewPostForm.tsx:46 | 280 minus the content's length; negative exactly when the content is over the limit |
| NewPostForm.SubmitDisabled | TP4/posts-app/front/components/NewPostForm.tsx:149 | disabled exactly while submitting, or when the trimmed content is empty, or when the content is over 280 |
| NewPostForm.FailureText | TP4/posts-app/front/components/NewPostForm.tsx:37 | the server's error when it has one, otherwise 'Error al crear el post'; never empty |
| NewPostForm.SentContentPassesSchema | TP4/posts-app/front/components/NewPostForm.tsx:22-28 | whatever the guard lets through, once trimmed, passes the server's 1..280 content schema |
| NewPostForm.EnabledButtonSends | TP4/posts-app/front/components/NewPostForm.tsx:149 | an enabled button means the content is sent and accepted by the schema; a negative counter always disables the button |
| NewPostForm.Form.HandleSubmit | TP4/posts-app/front/components/NewPostForm.tsx:20-44 | nothing happens when the guard rejects; otherwise the trimmed content is sent; on success the content is cleared and `onPostCreated` is called; on failure the error is set and the content kept; never submitting afterwards |

## Left out

- Database I/O, connection handling, the lazily opened shared connection and concurrency are left out. So are errors the database raises other than the UNIQUE and foreign-key ones. The catch-all 500 paths of the handlers that only such errors reach are therefore not modelled.
- MySQL's default collation compares usernames and emails without regard to case and accents. The model compares strings exactly.
- Column sizes (VARCHAR(255), TEXT) are not modelled, and neither is `ON DELETE CASCADE`, since no operation of the core deletes users.
- A NaN id from `parseInt` is bound as a parameter. The model assumes it matches no row.
- Strings are sequences of Unicode scalar values. A JavaScript string may hold an unpaired surrogate (for example from `JSON.parse('"\\uD800"')`); `JsText.JsLength`, the 280-code-unit content schema and `Bcrypt.Utf8` say nothing about such strings.
- `parseInt` is modelled over unbounded integers. The loss of precision above 2^53 is not modelled.
- Express bodies are modelled as strings or missing fields. A non-string JSON value in `username` or `password` (whose `.length` would be undefined) is not modelled. A missing `title` or `content` is modelled as the driver's refusal to bind `undefined` (500).
- The zod error `details` in 400 bodies are left out. Zod's e-mail regular expression is the input predicate `isEmail`.
- `jsonwebtoken`'s real compact format, base64url, HMAC and unforgeability are left out. So is the check on the types of `decoded.userId`. Tokens are an ideal, readable stand-in.
- bcrypt's one-wayness and its digest text are left out. The random salt is an input.
- The camelCase posts table that `PostService` queries is created by none of the repository's scripts. The model gives it no foreign key to `users`, so an author who is not a user is inserted. The 500-with-the-row-kept path of `BackPostController.CreateOutcome` and `PostService.OrphanDeletableNotUpdatable` rest on this assumption. The snake_case table of `PostServiceDB` does have the foreign key, and the model enforces it there.
- `ORDER BY created_at DESC` leaves equal timestamps in no particular order. The model puts the larger id first.
- Timeline.NewestFirst: its contract states the order by timestamp only; the tie rule it uses (larger id first) is not part of the contract.
- Logging, JSON serialisation, `Date` values and their formatting are left out. So are `progressPercentage` (floating point), the rendering of `NewPostForm`, its `onFocus`/`onBlur`/`onChange` handlers and the textarea's `maxLength` attribute.
- `fetch`, the network and `API_BASE_URL` are left out; what `fetch` resolves to is an input.
- `localStorage` is modelled as holding only what `authService` writes: a token, a user's JSON, or the text "undefined".
