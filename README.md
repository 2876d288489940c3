# Movie watchlist backend — a Dafny model of its watchlist, profile and authentication core

This project models the stateful core of a small Express/MongoDB backend for a movie
watchlist application:

- the **watchlist table**: one entry per (user, movieId), created by a save, edited in place
  by love, rate and comment, deleted by remove, and read through a paginated, searchable,
  newest-first listing and a loved-only listing; every query filters on the caller's id;
- the **user table**: registration and login (controller and service variants), the profile
  read and update, and "who am I";
- the **access guard** `protect`, which classifies the Authorization header as no token,
  token failed, or authorized and then attaches the user to the request;
- the **entry record shape**: required fields, defaults, the rating bounds and the
  timestamps.

Modules follow the source files: `WatchlistSchema` (models/Watchlist.js), `Database` (the two
collections as a `Store` class with `users`, `entries` and the next user id, plus the
`findOne`/`findById` lookups), `UserController`, `AuthController`, `AuthMiddleware`,
`AuthService`. `Base` holds `Option`, the handler result `Result` (`Ok(status, body)` or
`Err(status, message)`) and the thrown-error outcome of the service functions. `Crypto`
holds bcrypt and jsonwebtoken as function-valued fields of a `Primitives` value; the model
assumes of them only `Sound`: `compare(pw, hash(pw, salt))`, `verify(sign(id)) == Some(id)`,
and that a signed token contains no space. `Scenarios` runs request sequences on a fresh store.

Handlers that change a table are methods over the `Store` with `modifies` frames naming only
the fields they change (the table, and for registration also the next user id); their
`ensures` give the whole new state in terms of the old one and keep `Store.Valid()`
(distinct user ids, unique (user, movieId) keys, every entry valid against the schema). Queries are functions. Clock readings, bcrypt salts and the caller's id
(resolved by the guard) are parameters.

Behaviour worth knowing, all as the code has it:

- A duplicate save answers 400 "Movie already saved", not a 409 conflict.
- `updatedAt` moves only when a save really changes a field (Mongoose's `timestamps` rule),
  so loving an already-loved movie leaves the table exactly as it was.
- A header of exactly `Bearer` is classified "token failed", not "no token", because
  `split(" ")[1]` is `undefined` and verification then throws.
- When a verified token's id no longer resolves, the guard still calls `next()` with a null
  user.
- The profile update does not re-check email uniqueness, so uniqueness of emails is not an
  invariant of the user table (`ProfileUpdateCanDuplicateEmail`).
- The controller registration hashes the password itself and hands the digest to `create`
  (`Hashed`); the service registration hands the password to `create` as given. The model
  assumes the user schema stores fields as given, so the service's user holds `Plain`.

## Model

| member | source | states |
|---|---|---|
| `WatchlistSchema.NewEntry` | controllers/userController.js:25-31 | a created entry passes the schema validators, is owned by the caller, carries the given movie id, title and poster, is not loved, has no rating, no comments, no genres, and both timestamps equal the creation time |
| `WatchlistSchema.Saved` | models/Watchlist.js:45-47 | saving with timestamps: an unmodified document is written back exactly as stored; a modified one takes every changed field and updatedAt moves to now |
| `WatchlistSchema.NewComment` | models/Watchlist.js:3-15 | a pushed comment keeps its (required, non-empty) text and its createdAt defaults to the current time |
| `Database.FindEntry` | controllers/userController.js:19 | the lookup by (caller, movieId) returns the first entry with both keys, and finds nothing exactly when no entry has them |
| `Database.FindUserByEmail` | controllers/authController.js:18 | the lookup by email returns the first user with that email, and nothing exactly when no user has it |
| `Database.FindUserById` | controllers/userController.js:116 | the lookup by id returns a user with that id, and nothing exactly when no user has it |
| `Database.FindAppendedUser` | controllers/authController.js:18-33 | a user created with an unused email is what a later lookup of that email finds |
| `Database.FindAppendedEntry` | controllers/userController.js:19-31 | an entry saved under an unused key is what a later lookup of that key finds |
| `Database.Store.CreateUser` | controllers/authController.js:29-33 | a created user gets a fresh id, is appended to the table, and the table stays valid |
| `UserController.SaveMovie` | controllers/userController.js:10-34 | missing movieId (or 0), title or poster gives 400 "Missing movie data"; an existing (caller, movieId) gives 400 "Movie already saved"; both leave the table unchanged; otherwise exactly one default entry is appended, returned with 201, and found under its key; keys stay unique |
| `UserController.LoveMovie` | controllers/userController.js:39-53 | no caller entry for movieId gives 404 with no change; otherwise only that entry is replaced by its loved copy, returned with 200; if it was already loved the table is unchanged (idempotent) |
| `UserController.RemoveMovie` | controllers/userController.js:58-72 | no caller entry gives 404 with no change; otherwise exactly that entry is deleted (the table shrinks by one) and afterwards no entry has the key |
| `UserController.RateMovie` | controllers/userController.js:159-179 | a missing, 0, below-1 or above-5 rating gives 400 before any lookup; no entry gives 404; otherwise only that entry's rating is overwritten with the new value (last write wins) |
| `UserController.AddComment` | controllers/userController.js:184-204 | empty or missing text gives 400; no entry gives 404; otherwise only that entry changes: one comment with the text and the current time is appended after the existing ones, and updatedAt moves to now |
| `UserController.QueryNumber` | controllers/userController.js:75-76 | `parseInt(q) \|\| n`: a supplied non-zero number is taken as is; an absent, non-numeric or 0 value gives the default, so page and limit are at least 1 |
| `UserController.ContainsIgnoringCase` | controllers/userController.js:82 | the case-insensitive title match: the empty term matches any text, and a term longer than the text never matches |
| `UserController.SearchFoldsCase` | controllers/userController.js:82 | the match depends only on the lower-cased text and term: case on either side is irrelevant |
| `UserController.TitleMatches` | controllers/userController.js:79-82 | an entry matches exactly when it has a title and the lower-cased title contains the lower-cased term; untitled entries never match |
| `UserController.Filter` | controllers/userController.js:104-107 | a `find` keeps each stored entry that passes the filter as often as it is stored, and nothing else |
| `UserController.Insert` | controllers/userController.js:89 | inserting into a newest-first list gives a newest-first list holding one more entry |
| `UserController.SortNewestFirst` | controllers/userController.js:89 | the sorted listing is newest first by createdAt and a permutation of its input |
| `UserController.Paginate` | controllers/userController.js:77-88 | a page holds the items from offset (page-1)*limit on, at most limit of them, and none past the end |
| `UserController.TotalPages` | controllers/userController.js:93 | totalPages is the ceiling of totalItems/limit: the least page count whose pages hold every item |
| `UserController.ListWatchlist` | controllers/userController.js:74-98 | page and limit default to 1 and 10 when absent, non-numeric or 0, and otherwise are the requested ones, echoed as currentPage and itemsPerPage; totalItems counts the caller's title-matching entries; totalPages is its ceiling over limit; the page holds at most limit of the caller's matching entries, newest first, from the page's offset of the sorted matches |
| `UserController.PagesCoverListing` | controllers/userController.js:77-93 | pages 1 to totalPages, laid end to end, are exactly the sorted matches: each entry is on exactly one page |
| `UserController.PageIsEmptyExactlyPastTheEnd` | controllers/userController.js:77-93 | a page is empty if and only if its number exceeds totalPages |
| `UserController.FifteenEntriesMakeTwoPages` | controllers/userController.js:75-97 | 15 matching entries with limit 10 give totalPages 2, 10 items on page 1, 5 on page 2 and none on page 3 |
| `UserController.SearchIgnoresCase` | controllers/userController.js:82 | the search "inception" matches the title "Inception" |
| `UserController.EmptySearchMatchesAll` | controllers/userController.js:78-82 | the default empty search matches every titled entry |
| `UserController.LovedMovies` | controllers/userController.js:103-110 | the loved list holds exactly the caller's loved entries, each as often as stored |
| `UserController.GetProfile` | controllers/userController.js:115-124 | a resolving caller id gives 200 with that user's record without the password; otherwise 404 "User not found" |
| `UserController.UpdatedUser` | controllers/userController.js:137-144 | the id is kept; a supplied name or email replaces the stored one, an omitted or empty one keeps it; a supplied password replaces the secret by its hash, an omitted one keeps it |
| `UserController.UpdateProfile` | controllers/userController.js:129-154 | an unknown caller gives 404 with no change; otherwise only that user is replaced by the updated record, and the reply carries its id, name, email and a token signed for the same id |
| `UserController.ProfileUpdateCanDuplicateEmail` | controllers/userController.js:139 | the update does not check email uniqueness: two distinct users can end up with one email |
| `UserController.WithoutFound` | controllers/userController.js:61-64 | deleting the entry found under a key keeps keys unique and leaves no entry with that key |
| `UserController.RemoveUndoesSave` | controllers/userController.js:25-31 | removing a just-saved movie finds the appended entry and gives back the table as it was before the save |
| `AuthMiddleware.TokenField` | middleware/authMiddleware.js:13 | `split(" ")[1]` is undefined exactly when the header holds no space, and otherwise a field without spaces |
| `AuthMiddleware.SplitAtFirstSpace` | middleware/authMiddleware.js:13 | `split(" ")` of a word without spaces, a space and a rest is the word followed by the fields of the rest |
| `AuthMiddleware.AttachedUser` | middleware/authMiddleware.js:17 | the attached user is the public record (without password) of a stored user with the decoded id, or null exactly when no user has that id |
| `AuthMiddleware.Classify` | middleware/authMiddleware.js:5-30 | an absent header or one not starting with "Bearer" is "no token"; a Bearer header without a second field or whose token fails verification is "token failed"; otherwise the request is authorized with the user of the decoded id (possibly null) |
| `AuthMiddleware.BareBearerFailsVerification` | middleware/authMiddleware.js:13-24 | a header of exactly "Bearer" is classified "token failed", not "no token" |
| `AuthMiddleware.SignedTokenAuthorizes` | middleware/authMiddleware.js:8-19 | "Bearer " followed by a token signed for an id is authorized and attaches the user with that id, or null when it does not resolve |
| `AuthMiddleware.Protect` | middleware/authMiddleware.js:5-30 | on "no token" and "token failed" the request gets status 401 and the matching distinct message, next is not called and req.user is untouched; on success req.user is set, next is called exactly once and no status or error is set |
| `AuthController.RegisterUser` | controllers/authController.js:8-46 | a missing name, email or password gives 400 and creates nothing; a stored email gives 400 "User already exists" and changes nothing; otherwise one user with a fresh id and the bcrypt digest (never the plain field) is appended, the reply is 201 with id, name, email and a token for that id, and the email is now taken |
| `AuthController.LoginUser` | controllers/authController.js:50-74 | an unknown email and a wrong password give the same 401 "Invalid email or password"; success happens exactly when the first user with the email matches the password, and returns that user's id, name, email and a token for its id |
| `AuthController.LoginAfterRegister` | controllers/authController.js:25-73 | logging in with just-registered credentials succeeds and its token verifies back to the new id |
| `AuthController.RegisteredEmailIsTaken` | controllers/authController.js:18-22 | after a user is appended, a registration with the same email is refused: two registrations of one email never both succeed |
| `AuthController.LoginAfterPasswordChange` | controllers/userController.js:137-151 | after a profile update that sets a password (and possibly a new name and email), logging in with that password and the email the update stored succeeds for the same user, provided no earlier user holds that email |
| `AuthController.GetMe` | controllers/authController.js:79-81 | the reply is 200 with the attached user unchanged |
| `AuthController.MeWithIssuedToken` | controllers/authController.js:79-81 | a request carrying a token issued for a user passes the guard and "who am I" answers with that user's record without password |
| `AuthService.RegisterUserService` | services/authService.js:4-18 | a stored email throws "User already exists" and changes nothing; otherwise one user holding the password exactly as given is appended and id, username, email and a token for the new id are returned |
| `AuthService.LoginUserService` | services/authService.js:20-33 | an unknown email and a failed password match throw the same "Invalid credentials"; success returns the matched user's id, username, email and token and reads the table only |
| `AuthService.ServiceLoginAgreesWithController` | services/authService.js:20-33 | with bcrypt's comparison as the password match, the service login and the controller login admit the same callers with the same id and token |
| `Scenarios.SaveTwice` | controllers/userController.js:18-33 | saving one movie twice: 201 then 400 "Movie already saved", and exactly one entry exists |
| `Scenarios.LoveTwice` | controllers/userController.js:42-52 | loving twice succeeds both times, the movie is loved, and the second call changes nothing |
| `Scenarios.RateTwice` | controllers/userController.js:163-176 | ratings 0 and 6 are refused with 400; rating 3 then 5 leaves 5 |
| `Scenarios.CommentTwice` | controllers/userController.js:188-200 | empty text is refused; two comments are kept in the order they were added |
| `Scenarios.ForeignEntryIsNotFound` | controllers/userController.js:42-47 | another user's entry answers 404 to love, rate, comment and remove and is left untouched |
| `Scenarios.RegisterTwiceThenLogin` | controllers/authController.js:18-73 | the second registration of an email is refused; login with the first one's credentials returns its id and a token verifying to it |
| `Scenarios.GuardAcceptsIssuedToken` | middleware/authMiddleware.js:13-19 | the token issued at registration passes the guard, next is called once and the registered user is attached |

## Left out

- The movie catalogue (the outbound TMDB client and the movie controller), the Express and
  CORS wiring, server start, and the unused movie schema: they hold no watchlist state.
  Every watchlist and profile handler is taken to run behind the guard, as the user routes
  declare.
- bcrypt and jsonwebtoken are foreign code: they are opaque functions, and token expiry,
  the signing secret and the cost factor are not modelled. `utils/generateToken.js` and
  `models/User.js` are not part of this model; the user record holds the fields the
  handlers use.
- MongoDB regular-expression semantics of the search term: the model matches plain text
  with ASCII case folding, so metacharacters and non-ASCII case folding are not captured.
- The check-then-create race of the save and of registration, and all request
  concurrency: the model is sequential.
- Database failures and cast errors (a non-numeric movieId in the path, a malformed id),
  which end in the framework's default error answer.
- Clock values and bcrypt salts are caller-supplied natural numbers.
- UserController.ListWatchlist: page and limit are the natural numbers `parseInt` yields;
  negative values, whose outcome depends on the database driver, are not modelled.
- UserController.SortNewestFirst: entries with equal createdAt keep stored order; the
  database leaves that order unspecified.
- UserController.RateMovie: ratings are integers; JavaScript non-integer numbers and
  truthiness of non-string values are not modelled (only absent and empty strings count as
  missing).
- Handlers receive the caller's id; the crash of a handler reading `req.user._id` after the
  guard attached a null user is not modelled.
- AuthController.LoginUser: email and password are present strings; a missing password
  makes bcrypt throw in the source, which is not modelled.
- The "Invalid user data" branches of both registrations: creation returns a document or
  throws, so they cannot be reached; the user schema's own validation is not modelled.
- AuthService.RegisterUserService: its arguments are present strings; the service does
  no validation of its own, and what the unseen user schema does with missing fields is
  not modelled. Its `username` is stored in the user's name field.
- AuthService.LoginUserService: the user schema's `matchPassword` is a parameter.
- The user schema (`models/User.js`) is not part of this model; it is assumed to store
  fields as given, with no pre-save hashing, so the service registration's user holds the
  password as handed to `create`.
- The error answers: the error middleware is commented out in `index.js`, so Express's
  default handler writes every thrown error, with the status set before the throw and a
  stack trace outside production. The model's `Err` carries the status and the thrown
  message only, so `LoginUser`'s identical 401 for an unknown email and a wrong password
  holds at the level of the thrown error, not of the stack text.
- The title, overview and other display fields beyond the three a save stores stay absent
  in every entry the model creates, as in the source.
