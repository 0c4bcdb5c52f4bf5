# Authentication and session core of the Online Bookshop

This project models the session logic of the bookshop's Next.js route
handlers, and proves properties of the model, in Dafny:

- `POST /api/auth/signup` registers a user with a bcrypt-hashed password.
- `POST /api/auth/login` checks the credentials against the store. It mints a
  JWT holding `{id, username, email}` and sets it in the `auth_token` cookie.
  The cookie lives 1 day, or 30 days with "remember me".
- `GET /api/auth/current` reads the cookie, verifies the token and answers
  with the user's profile, fetched from the store by the decoded id. When it
  rejects a presented cookie, it clears it.
- `PUT /api/auth/profile` verifies the token and updates the user's record.
- `POST /api/auth/logout` overwrites the cookie with an empty, expired one.
- `lib/api-helpers.ts` holds `getAuthUser`, `cacheResponse` and
  `formatError`.

Each handler is one atomic step over two pieces of state:

- the user table (`Users.UserStore`, a class over a
  `map<UserId, UserRecord>` with a unique index on email);
- the client's cookies (`Session.CookieJar`, a class over a
  `map<string, Cookie>`).

Every handler is an imperative method (`LoginRoute.Post`, `CurrentRoute.Get`,
...). It calls the store's methods and `CookieJar.Set` in the order the route
does. Its `ensures` equates the new state and the response with a ghost
specification function (`LoginSpec`, `CurrentSpec`, ...). That function's
own `ensures` state what the route promises: each status with its exact
message, with both directions of each "if and only if"; what changes and
what does not; and the invariant that emails stay unique. A handler's
`modifies` clause names only the state the route writes. So login, the
current-user route and logout provably never write the user table. Signup
and the profile route provably never write the cookies.

External libraries are parameters, not axioms:

- `jwt.sign` and `jwt.verify` are the two function-typed fields of
  `Types.Codec`. They take the secret and the clock as arguments. `verify`
  returns None where the library throws (malformed token, bad signature,
  expired token).
- `bcrypt.hash` and `bcrypt.compare` are the fields of `Types.Hasher`.
- That a signed token verifies back to its claims
  (`Session.SignThenVerify`), and that a password matches its own hash
  (`Users.HashThenCompare`), appear only as hypotheses of the lemmas that
  need them.
- The signing secret (`JWT_SECRET` or its fallback) and the
  `NODE_ENV === "production"` test that sets the `secure` flag are the
  fields of `Types.Config`.

Thrown errors are modelled as follows:

- A request body that is not JSON is `None`.
- A store that throws is the parameter `storeFault`. It marks the whole
  request's store as unavailable, so the first store call throws.
- The store's own errors are part of `UserStore`'s methods. `create` with
  an id or an email already present throws. `update` of a missing id throws,
  and so does `update` to an email that another record holds.

In a JSON body, a missing or null string field is `None`. `!x` in the
source is `!Truthy(x)`. For the profile update's optional fields,
`FieldUpdate` tells an absent key (undefined: the stored value is kept)
apart from null (cleared) and a string (set). This follows the update
semantics of the ORM.

The model keeps these behaviours of the code, although a cleaner design
would differ:

- The profile route answers 500 "Failed to update profile", not 401, to a
  token that fails verification (app/api/auth/profile/route.ts:15, 48-51).
- The current-user route answers 401 "User not found" for a deleted user
  (app/api/auth/current/route.ts:54).
- The current-user route clears the cookie on every exception, store faults
  included (app/api/auth/current/route.ts:59-73).
- Signup does not log the user in.

The current-user route imports its store from `@/lib/prisma`; the other
routes import it from `@/lib/db`. Both are the one `UserStore` here.

## Model

| member | source | states |
|---|---|---|
| `Types.Truthy` | app/api/auth/login/route.ts:15 | A string field fails the `!x` test exactly when it is undefined, null or the empty string |
| `Types.PublicOf` | app/api/auth/login/route.ts:56-60 | The public projection of a record holds its id, username and email, and nothing else |
| `Types.ProfileOf` | app/api/auth/current/route.ts:28-37 | The `select` projection holds the id and the record's username, email, address, city, state, zipCode and country, and no password |
| `Types.ClaimsOf` | app/api/auth/login/route.ts:36 | The token's claims are the record's id, username and email |
| `LoginRoute.HasCredentials` | app/api/auth/login/route.ts:15 | Defines the login body passing the `!email` and `!password` tests: both fields are truthy |
| `LoginRoute.Authentic` | app/api/auth/login/route.ts:20-33 | Defines the credentials checking out: the lookup by email finds a record, and `bcrypt.compare` matches the password against its stored hash |
| `LoginRoute.LoginSpec` | app/api/auth/login/route.ts:10-66 | Non-JSON body or store fault: 500 "An error occurred during login". A falsy email or password: 400 "Email and password are required". An unknown email, or a password that does not match the stored hash: 401 "Invalid email or password". Each status holds exactly in its case. Only on 200 does the cookie change: `auth_token` is then set to the session cookie holding `sign(secret, now, {id, username, email} of the record found by email, "30d" or "1d")`, other cookies stay as they were, and the body is "Login successful" with only id, username and email |
| `LoginRoute.Post` | app/api/auth/login/route.ts:10-66 | The handler (validate, find by email, compare, sign, set the cookie) yields exactly `LoginSpec`'s response and cookies. It may modify only the cookie jar, so the store is unchanged on every path |
| `LoginRoute.UnknownEmailLooksLikeWrongPassword` | app/api/auth/login/route.ts:24-33 | An unknown email and a known email with a wrong password get the identical response (401, same message), and neither sets a cookie |
| `Session.LifetimesAgree` | app/api/auth/login/route.ts:36-51 | The token's `expiresIn` ("30d" / "1d") stands for the same number of seconds as the cookie's maxAge: 2592000 with remember-me, 86400 without |
| `Session.SessionCookie` | app/api/auth/login/route.ts:43-51 | The login cookie is named `auth_token`, holds the minted token, is httpOnly with path "/" and sameSite "strict", is secure exactly in production, and has a maxAge equal to the token's lifetime |
| `Session.ClearedCookie` | app/api/auth/logout/route.ts:8-16 | The cleared cookie is `auth_token` with value "" and expires at epoch 0, and keeps httpOnly, path "/", sameSite "strict" and the production-dependent secure flag |
| `Session.ClearedIsAbsent` | app/api/auth/current/route.ts:12-16 | Once the cleared cookie is set, the `!token` check fails, so the client presents no session |
| `Session.ExpiresIn` | app/api/auth/login/route.ts:37 | The `expiresIn` handed to `jwt.sign` is a whole number of days in the `<n>d` form |
| `Session.MaxAgeSeconds` | app/api/auth/login/route.ts:49 | The cookie's maxAge is a whole number of days in seconds: 30 days with remember-me, 1 day without |
| `Session.TokenOf` | app/api/auth/current/route.ts:12 | `cookies().get("auth_token")?.value` is defined exactly when an `auth_token` cookie exists, and is its value |
| `Session.Presented` | app/api/auth/current/route.ts:12-16 | Defines the `!token` test passing: an `auth_token` cookie exists and its value is not "" |
| `Session.Decoded` | app/api/auth/current/route.ts:12-23 | Claims are decoded only from a presented (truthy) token, and then they are what `jwt.verify` gives with the secret and the clock |
| `Session.CookieJar.Set` | app/api/auth/login/route.ts:41-51 | `cookies().set(c)` replaces the cookie of c's name and leaves every other cookie as it was |
| `CurrentRoute.CurrentSpec` | app/api/auth/current/route.ts:9-77 | No presented token: 401 "Not authenticated", cookies untouched. A token that fails verification, or a store fault: 401 "Not authenticated". A verified id not in the store: 401 "User not found". Each such rejection of a presented token sets `auth_token` to the cleared cookie, and afterwards no token is presented. Otherwise: 200 with the store's profile (id, username, email, address, city, state, zipCode, country) for the decoded id, cookies untouched |
| `CurrentRoute.Get` | app/api/auth/current/route.ts:9-77 | The handler yields exactly `CurrentSpec`'s response and cookies. It may modify only the cookie jar, so the store is never changed |
| `CurrentRoute.RejectedCookieStaysCleared` | app/api/auth/current/route.ts:59-75 | After a presented cookie is rejected, any later current-user request presents no token. It gets 401 "Not authenticated" and no further cookie change |
| `SignupRoute.Complete` | app/api/auth/signup/route.ts:10 | Defines the signup body passing the `!username`, `!email` and `!password` tests: all three fields are truthy |
| `SignupRoute.SignupSpec` | app/api/auth/signup/route.ts:5-51 | Any falsy field: 400 "Missing required fields". An email already held: 400 "User with this email already exists". Non-JSON body, store fault, or an id collision: 500 "An error occurred while creating the user". The table is unchanged except on 201, and then it gains exactly the new id, with the given username and email, password = hash(password) and null profile fields (the schema's defaults, assumed). Existing records are unchanged, the body holds only id, username and email, and the unique-email invariant is preserved |
| `SignupRoute.Post` | app/api/auth/signup/route.ts:5-51 | The handler (validate, find by email, hash, create) yields exactly `SignupSpec`'s response and table, and keeps the store's invariant. It takes no cookie jar, so it neither reads nor writes the session cookie |
| `SignupRoute.RegisteredRecord` | app/api/auth/signup/route.ts:23-33 | The created record stores the given username and email, and in its password field the hash of the given password |
| `ProfileRoute.ProfileSpec` | app/api/auth/profile/route.ts:8-52 | No presented token: 401 "Not authenticated". A token that fails verification: 500 "Failed to update profile", whatever the body. A verified token with a falsy username or email: 400 "Username and email are required". A store fault, a missing id or an email taken by another record: 500. The table changes only on 200, and then only the record of the decoded id: username and email are set from the body, and the five optional fields follow the body (kept when absent). The response is that record's profile projection, and the unique-email invariant is preserved |
| `ProfileRoute.Put` | app/api/auth/profile/route.ts:8-52 | The handler (token, verify, body, validate, update) yields exactly `ProfileSpec`'s response and table. It may modify only the store, so it never writes the cookie or re-mints the token |
| `ProfileRoute.EditOf` | app/api/auth/profile/route.ts:17-34 | The update's data is the body's username, email and the five optional fields, unchanged |
| `LogoutRoute.LogoutSpec` | app/api/auth/logout/route.ts:4-19 | Whatever the prior cookies: 200 "Logged out successfully", `auth_token` becomes the cleared cookie, other cookies stay, and no session token is presented afterwards |
| `LogoutRoute.Post` | app/api/auth/logout/route.ts:4-19 | The handler yields exactly `LogoutSpec`'s response and cookies. It takes no store, so the user table is never touched |
| `LogoutRoute.LogoutIdempotent` | app/api/auth/logout/route.ts:6-18 | Two logouts leave the same cookies and give the same response as one |
| `LogoutRoute.LogoutTwice` | app/api/auth/logout/route.ts:4-19 | Calling the handler twice returns the same success response both times and leaves the cookies of a single logout |
| `ApiHelpers.TtlOrDefault` | lib/api-helpers.ts:8 | The ttl is the argument when one is given, and 60 when it is undefined |
| `ApiHelpers.CacheControlValue` | lib/api-helpers.ts:10 | Defines the template literal `public, s-maxage=${a}, stale-while-revalidate=${b}`, each number written by `ShowInt` |
| `ApiHelpers.CacheResponse` | lib/api-helpers.ts:8-12 | The header map has the single key Cache-Control. Its value reads back as s-maxage = ttl and stale-while-revalidate = ttl * 2, with ttl defaulting to 60. And it is the only string that reads back as that pair, so the header's text is fixed exactly, numerals included |
| `ApiHelpers.ParseRendered` | lib/api-helpers.ts:10 | The header string "public, s-maxage=<a>, stale-while-revalidate=<b>", with a and b in exact decimal digits, parses back to exactly (a, b), for every integer a and b |
| `ApiHelpers.ParsedIsRendered` | lib/api-helpers.ts:10 | The converse: every string the header parser accepts is the rendering of the pair it reads, so leading zeros, "-0" or other spacing are refused |
| `ApiHelpers.RenderingIsUnique` | lib/api-helpers.ts:10 | For each pair (a, b), the rendering of (a, b) is the one string that parses to it |
| `ApiHelpers.GetAuthUser` | lib/api-helpers.ts:15-38 | null when no token is presented or verification throws. Otherwise exactly {id, username, email} of the decoded claims. It is a function of the cookies and changes nothing |
| `ApiHelpers.FormatError` | lib/api-helpers.ts:41-48 | The envelope carries the message unchanged and the given status, or 400 when the status is undefined |
| `Users.UserStore.FindByEmail` | app/api/auth/login/route.ts:19-22 | Throws exactly on a fault. Otherwise it finds a record exactly when the email is in use, and that record is the store's record with that email, the only one under the unique index |
| `Users.UserStore.FindById` | app/api/auth/current/route.ts:25-38 | Throws exactly on a fault. Otherwise it finds a record exactly when the id is present, and returns that record's select projection |
| `Users.UserStore.Create` | app/api/auth/signup/route.ts:26-33 | Succeeds exactly when there is no fault and the id and the email are both new. It then adds exactly that record, keeps the unique index, and otherwise leaves the table unchanged |
| `Users.UserStore.Update` | app/api/auth/profile/route.ts:24-45 | Succeeds exactly when there is no fault, the id is present and no other record holds the new email. It then rewrites only that record, whose password stays as it was, and returns its projection. On failure the table is unchanged |
| `Users.UserWithEmailUnique` | app/api/auth/login/route.ts:19-22 | Under the unique index, the record holding an email is the one lookup by email returns |
| `Users.InsertKeepsUnique` | app/api/auth/signup/route.ts:14-33 | Adding a record with a new id and an unused email keeps emails unique |
| `Users.UpdateKeepsUnique` | app/api/auth/profile/route.ts:24-34 | Rewriting a record with an email that no other record holds keeps emails unique |
| `Users.Edited` | app/api/auth/profile/route.ts:26-34 | The updated record takes the new username and email, keeps its password, and applies each optional field's update |
| `Users.ApplyField` | app/api/auth/profile/route.ts:29-33 | An undefined field keeps the stored value, null clears it, a string replaces it |
| `Users.NewRecord` | app/api/auth/signup/route.ts:27-33 | A created record has the given username, email and password hash. Its address, city, state, zipCode and country are null, an assumption about the schema's defaults |
| `Users.UserWithEmail` | app/api/auth/login/route.ts:19-22 | `findUnique({ where: { email } })` finds an id exactly when some record holds the email, and the record of that id holds it |
| `Decimal.ShowInt` | lib/api-helpers.ts:10 | The exact decimal digits of i, which is `${i}` for an integral number of magnitude at most 2^53: a canonical numeral, digits with at most one leading '-', present exactly when i is negative, and no leading zero unless i is 0 |
| `Decimal.ParseShowNat` | lib/api-helpers.ts:10 | The decimal rendering of a natural number parses back to that number |
| `Decimal.ParseShowInt` | lib/api-helpers.ts:10 | The rendering of an integer, with a minus sign when negative, parses back to that integer |
| `Decimal.ReadShowInt` | lib/api-helpers.ts:10 | The strict reader, which accepts only canonical numerals, reads the rendering of every integer back to that integer |
| `Decimal.ShowReadInt` | lib/api-helpers.ts:10 | Every string the strict reader accepts is the rendering of the integer it reads, so two different numerals never read as the same integer |
| `Scenarios.LoginThenCurrent` | app/api/auth/current/route.ts:18-58 | Given that signed tokens verify back to their claims during their lifetime: after a successful login, the current-user route answers 200 with the store's profile of the user who logged in, at any clock before the cookie's maxAge runs out |
| `Scenarios.SignupLoginCurrent` | app/api/auth/signup/route.ts:24-46 | Given the hasher and token hypotheses: signing up a new email gives 201. Logging in with the same email and password then gives 200, and a current-user read with the cookie it set gives the new user's profile |
| `Scenarios.LogoutEndsSession` | app/api/auth/logout/route.ts:8-18 | After logout: the current-user route answers 401 "Not authenticated" with the cookies untouched, the profile route answers 401 with the store untouched, and `getAuthUser` gives null |
| `Scenarios.AuthUserAgreesWithCurrent` | lib/api-helpers.ts:15-38 | When `getAuthUser` finds no session, the current-user route refuses. When the route answers with a user, that user's id is the one `getAuthUser` reports |
| `Scenarios.CurrentReflectsProfileUpdate` | app/api/auth/profile/route.ts:24-47 | After a successful profile update, the current-user route, with the same unchanged cookie, answers with exactly the updated profile the update returned |

## Left out

- JWT internals are not modelled: HMAC signing, base64url encoding and the `exp` check inside `jsonwebtoken`. `sign` and `verify` are parameters. The fact that a token signed with a different secret, or read after its expiry, fails to verify is a property of that library; it is not stated here. Only the "verifies back to its claims while live" direction appears, as a lemma hypothesis.
- `Types.Codec`: a token that verifies is assumed to carry string `id`, `username` and `email` claims, as the routes' `as { id: string; ... }` casts presume. A validly signed token with any other payload is not modelled: a bare string, or an object without these fields, which anyone can mint while the fallback secret "your-secret-key" is in use. For such a token `getAuthUser` would return an object of undefined fields, and the current-user and profile routes would pass an undefined id to the store.
- `Users.NewRecord`: the address, city, state, zipCode and country of a new user are assumed to be null. The signup route sets only username, email and password; the other columns take the schema's defaults. The schema is not part of this model.
- `Users.UserWithEmail`: the lookup by email compares emails with exact, case-sensitive string equality. The database's own comparison depends on the provider and its collation, which are not part of this model; so does the unique index that `Users.EmailsUnique` stands for.
- `Session.SpanSeconds` reads only the `<n>d` form of duration strings, the one this code passes. The other formats the `ms` library accepts are not modelled.
- bcrypt internals are not modelled: salt, the cost factor 10, timing. `hash` is a fixed function per run, so the salt's randomness is not captured. A throwing `bcrypt.hash` or `bcrypt.compare`, and a throwing `jwt.sign`, are not modelled. Their observable effect would be the route's 500 answer, the same as a store fault.
- ORM internals are not modelled: id generation is the `newId` parameter, and errors are one fault flag per request plus the constraint errors of `UserStore`.
- Request bodies are strings or absent. JSON numbers, booleans or objects in a string field are not modelled; the ORM's type validation would throw on them. `rememberMe` is its truthiness.
- Async/await and concurrent requests are not modelled: each handler is one atomic step.
- The browser's own cookie handling is not modelled. The jar keeps what the server last set, including the cleared cookie with value "". That cookie reads exactly like an absent one (`Session.ClearedIsAbsent`). The expiry of a maxAge cookie by the browser is not modelled.
- `console.error` logging is not modelled.
- `ApiHelpers.CacheResponse`: ttl is an integer, and the header is modelled only while |ttl * 2| <= 2^53, the integers a JavaScript number holds exactly and writes digit for digit. `Decimal.ShowInt` always writes the exact digits. Between 2^53 and 10^21 JavaScript writes the shortest digits that read back as the same double (`${2**64}` is "18446744073709552000"), and from 10^21 on it uses exponential form ("1e+21"). The rendering of fractional and non-finite JavaScript numbers is not modelled either.
- The UI components (header, book grid, book search, theme provider) are not modelled: they are rendering and effects, not session logic.
