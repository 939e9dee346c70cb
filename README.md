# Place/user consistency core of a MERN backend

This project models the two controllers of an Express/Mongoose backend in Dafny. In this backend,
users own places. A place records its `creator`, and each user document keeps a `places` list of
the ids of the places it created. The controllers keep both sides in step:

- `createPlace` inserts a place and pushes its id onto the owner's list.
- `deletePlace` removes the place, pulls its id from the creator's list and schedules its image
  file for deletion.
- `updatePlace` changes only a place's title and description.
- `getPlaceById` and `getPlacesByUserId` read places.
- `getAllUsers`, `signup` and `login` manage identities.

The store is modelled as a value, `Database.Db`. It holds the place map, the user map and the
sequence of image paths scheduled for unlinking. The invariant is `Database.Invariant`:

- a user lists place `p` exactly when `p` is stored and its creator is that user;
- no list repeats an id;
- no two users share an email.

There are two layers:

- **Pure layer.** Modules `Places` and `Users` model each controller as a function from the store
  before a request to an `Outcome`: the store after the request and the answer (`Ok` or one of the
  error kinds). The lemmas beside these functions prove that the invariant is preserved and how
  requests combine.
- **Imperative layer.** Class `Store.Store` holds the two collections as fields that its methods
  update step by step. A transaction's writes are staged in locals and assigned only at the
  commit. Each method is proved to produce exactly the outcome of its controller function and to
  keep the invariant.

Collaborators that cannot be seen are parameters:

- the bcrypt hash and compare (`hash`, `compare`);
- the token issuer (`createJWT`);
  these four user-side functions travel together as `Users.Collaborators`;
- the signup route's email sanitizer and format check (`normalizeEmail`, `isEmail`);
- the outcome of the request validator for places (`inputsValid`);
- fresh object ids (`newId`, required to be unused);
- storage failures (`fault`, a nondeterministic choice of the step at which the database rejects).

The source's error classes become `Errors.Error`:

| error kind | source | status |
|---|---|---|
| `BadRequestError` | BadRequestError | 400 |
| `NotFoundError` | NotFoundError | 404 |
| `UnauthenticatedError` | UnauthenticatedError, also used for "not the owner" | 401 |
| `CustomError` | CustomError, a caught storage failure | 500 |
| `UncaughtError` | any exception that is not an HttpError | 500 |

An example of an `UncaughtError` is the `TypeError` raised when a populated creator is missing.

Notes on the source's behaviour:

- `controllers/places.js` answers an ownership failure with `UnauthenticatedError`. There is no
  separate "unauthorized" kind.
- Both controllers answer input errors with `BadRequestError`.
- `createPlace` in `controllers/places.js` is not atomic (see Findings).
- The response of `getPlacesByUserId` in `controllers/places.js` has no count (see Findings).
- `signup` in `controllers/users.js` does not catch storage failures. They escape as uncaught
  errors rather than as an operation-failed answer.
- `routes/users.js` normalizes the email before `signup` but not before `login` (see Findings).

## Model

| member | source | states |
|---|---|---|
| Database.Pull | controllers/places.js:196 | After `pull`, the pulled id occurs nowhere in the list, and every other id keeps its number of occurrences (the multiset of the result is that of the input with the id removed). The list never grows and is unchanged when the id was absent. |
| Database.PullAppend | controllers/places.js:196 | Pulling distributes over concatenation, so the surviving ids keep their relative order. |
| Database.PullAt | controllers/places.js:196 | In a list without duplicates, pulling the id at index `i` removes exactly that entry and keeps all others in order. |
| Database.PullPreservesDistinct | controllers/places.js:196 | Pulling from a list without duplicates leaves a list without duplicates. |
| Database.Populate | controllers/places.js:40 | `populate` yields only stored places that the list refers to. When every listed id is stored, it yields exactly one place per id, in list order. |
| Database.OwnedCountIsListLength | controllers/places.js:40-56 | Under the invariant, a user's list holds exactly the ids of the places it created, so its length is the number of places that user owns. |
| Places.GetPlaceById | controllers/places.js:15-32 | The answer is the stored place exactly when the id is present. Otherwise it is NotFound. |
| Places.GetPlacesByUserIdAsWritten | controllers/places.js:35-57 | NotFound exactly for an unknown user. Otherwise the places are those of the corrected answer, and the answer never carries a count. |
| Places.GetPlacesByUserIdAsWrittenOmitsCount | controllers/places.js:53-56 | For every known user, the as-written answer has no count, while the intended count is the list length. |
| Places.GetPlacesByUserId | controllers/places.js:35-57 | NotFound exactly for an unknown user. The count is the number of places returned. Under the invariant the places are those of the user's list, one per id, in list order. |
| Places.CreatePlace | controllers/places.js:59-110 | Invalid input gives BadRequest. A lookup failure gives CustomError. An unknown owner gives NotFound. For a known owner, any write or commit failure gives CustomError, and every error leaves the store unchanged. On success the place is stored with the caller as creator, the uploaded image, the fixed default location and the given title, description and address. Its id is appended to the owner's list, and all other places, users and scheduled unlinks are unchanged. |
| Places.CreatePlaceAsWritten | controllers/places.js:98-107 | Under every fault other than a failed commit, it gives exactly the store and answer of CreatePlace. Under a failed commit, the answer is an error, the place map is unchanged and the owner's list has the new id appended. |
| Places.CreatePlaceAsWrittenCommitFaultBreaksConsistency | controllers/places.js:98-107 | When the commit fails after the owner was saved outside the session, the answer is CustomError, yet the owner lists an id with no stored place, so the invariant is broken. |
| Places.CreatePlaceCommitFaultLeavesStore | controllers/places.js:98-107 | With the owner saved inside the session, a failed commit leaves the store exactly as it was. |
| Places.UpdatePlace | controllers/places.js:112-167 | An invalid input or an empty title or description gives BadRequest before any lookup. Then a lookup failure gives CustomError and an absent id gives NotFound, whoever the caller is. A place created by someone else gives Unauthenticated, and a failed save of the owner's place gives CustomError. Errors leave the store unchanged. On success only the title and description of that place change. Its creator, image, address and location, all other places, all users and the scheduled unlinks are unchanged. |
| Places.DeletePlace | controllers/places.js:169-208 | A lookup failure gives CustomError, and an absent id gives NotFound whoever the caller is. A missing populated creator gives an uncaught error, and a place created by someone else gives Unauthenticated. For the owner, any write or commit failure gives CustomError. Errors leave the store unchanged. On success the deleted place is returned and removed from the place map. The creator's list becomes `Pull` of the old list: the id is gone and every other entry keeps its multiplicity. All other users and places are unchanged, and the pre-deletion image path is appended to the scheduled unlinks. |
| Places.CreatePlacePreservesInvariant | controllers/places.js:78-103 | createPlace keeps the membership invariant, duplicate-free lists and unique emails. |
| Places.UpdatePlacePreservesInvariant | controllers/places.js:154-158 | updatePlace keeps the invariant. |
| Places.DeletePlacePreservesInvariant | controllers/places.js:190-197 | deletePlace keeps the invariant. |
| Places.CreateThenListed | controllers/places.js:98-103 | After a successful create, the owner's places are the earlier ones followed by the new place, and the count grows by one. |
| Places.PopulateWithout | controllers/places.js:40 | Populating a duplicate-free list with entry `i` removed, against the places without that entry's place, gives the full population with entry `i` removed. |
| Places.DeleteThenListed | controllers/places.js:190-201 | After a successful delete of the place at index `i` of the owner's list, the owner's places are the earlier ones without entry `i`, in order, and the count drops by one. |
| Places.DeleteThenGone | controllers/places.js:175-201 | After a successful delete, looking the place up gives NotFound. Deleting it again gives NotFound for any caller and changes nothing. The owner's list is exactly one entry shorter. |
| Users.GetAllUsers | controllers/users.js:7-10 | Every stored user is listed, with its name, email, image and places, and the listing type has no password field. |
| Users.GetAllUsersHidesPasswords | controllers/users.js:8 | Stores that differ only in password hashes give the same listing. |
| Users.Signup | controllers/users.js:12-46 | A failed route check (name, normalized email, password length) gives BadRequest. A lookup failure gives an uncaught error. A normalized email already held gives BadRequest, and a failed create gives an uncaught error. Success happens exactly when none of these occur. Every error leaves the store unchanged. On success exactly one user is added, with the given name and image, the normalized email, the password stored as `hash(password)` and an empty places list. A token is issued for it, and no other user and no place changes. |
| Users.FindByEmail | controllers/users.js:55 | With unique emails, a user is found exactly when some user holds the email, and the found user holds it. |
| Users.Login | controllers/users.js:48-69 | An empty email or password gives BadRequest, and nothing else does. An unknown email gives Unauthenticated. Success happens exactly when some user with that email passes the password comparison. It then returns that user with a token issued for it. The only errors are BadRequest and Unauthenticated. |
| Users.SignupPreservesInvariant | controllers/users.js:20-42 | signup keeps the invariant, including unique emails. |
| Users.SignupThenLogin | controllers/users.js:36-68 | After a successful signup with an email that normalizing leaves unchanged, a login with the same email and password returns the new user and its token, provided the comparison accepts the stored hash. |
| Users.SignupThenRawLoginFails | controllers/users.js:55 | After a successful signup with an email that normalizing changes and that no user held before, a login with that email as typed gives Unauthenticated. |
| Users.LoginNormalized | controllers/users.js:48-69 | With the email normalized as at signup: an empty field gives BadRequest, and success happens exactly when some user holds the normalized email and passes the comparison; that user is returned. |
| Users.SignupThenNormalizedLogin | controllers/users.js:36-68 | With login normalizing the email, signing up and logging in with the same email and password returns the new user and its token for every email. |
| Store.Store.CreatePlace | controllers/places.js:59-110 | The staged insert and push are committed together. The new store and the answer are those of Places.CreatePlace, and the invariant is kept. |
| Store.Store.UpdatePlace | controllers/places.js:112-167 | Title and description are assigned on the loaded place and saved. The new store and the answer are those of Places.UpdatePlace, and the invariant is kept. |
| Store.Store.DeletePlace | controllers/places.js:169-208 | The staged delete and pull are committed together, then the image is scheduled for unlinking. The new store and the answer are those of Places.DeletePlace, and the invariant is kept. |
| Store.Store.Signup | controllers/users.js:12-46 | The user is inserted into the user map. The new store and the answer are those of Users.Signup, and the invariant is kept. |

## Findings

| source | as written | input that shows it | evidently intended | confidence | as-written member | corrected member |
|---|---|---|---|---|---|---|
| controllers/places.js:103 | `user.save()` is not given the session that holds the place insert, and a failure is never followed by an abort | an existing user calls `createPlace` with valid inputs, and `commitTransaction` rejects after both saves succeeded | the owner is saved inside the session, so the commit publishes the place and the list entry together or neither | medium, not executed | Places.CreatePlaceAsWrittenCommitFaultBreaksConsistency | Places.CreatePlace |
| routes/users.js:16 | the signup route normalizes the email before it is checked and stored, but the login route (routes/users.js:22) does not, and `login` looks the email up as typed (controllers/users.js:55) | sign up with `Alice@Example.com`, which is stored as `alice@example.com`, then log in with `Alice@Example.com` | login normalizes the email as signup does, so any email that signed up can log in as typed | medium, not executed | Users.SignupThenRawLoginFails | Users.SignupThenNormalizedLogin |
| controllers/places.js:55 | `count: userWithPlaces.length` reads a property that a user document does not have, so the response carries no count | any existing user, for example one owning one place | `userWithPlaces.places.length` | high, not executed | Places.GetPlacesByUserIdAsWrittenOmitsCount | Places.GetPlacesByUserId |

## Left out

- HTTP plumbing is left out: `req`, `res`, `next`, status codes and response bodies beyond the answer value.
- The validator middleware for places is left out. Its rules live in `routes/places.js`, which is not part of this model, so its verdict is the parameter `inputsValid`.
- The signup route rules of `routes/users.js:15-17` are modelled as `Users.SignupChecks`. The sanitizer `normalizeEmail` and the format check `isEmail` are opaque functions; their validator.js rules are not modelled.
- bcrypt internals and salting are left out. `hash` is a parameter of each call, so each call may use a different salt. The hash-failure path (controllers/users.js:28-34) is left out. There `next` and `HttpError` are undefined, and the model's `hash` never fails.
- `createJWT` is left out. The token is an opaque function of the new user id and document. The models/User.js schema is not part of this model.
- Storage failures of the read operations are left out: `getPlaceById` (whose catch block calls the undefined `next`), `getPlacesByUserId`, `getAllUsers` and `login`. They are modelled as lookups that always answer.
- A missing upload (`req.file` undefined) is left out. The image path is always supplied.
- Geocoding is left out. It is switched off in the source, and the location is the fixed pair, written as integers in units of 10^-7 degrees rather than as floating point.
- Session lifetime is not modelled. An uncommitted or unaborted session is taken to leave nothing visible. The server-side transaction timeout is not modelled.
- `fs.unlink` is not modelled. It runs detached and its failure is only logged, so it is modelled only as appending the path to the ghost `unlinked` sequence.
- Concurrency between requests is not modelled. Each request runs alone against the store.
- Fresh object ids come from the caller, with a requirement that they are unused.
- Ids in requests are taken to be well-formed ObjectId strings. A malformed id makes `findById` reject with a cast error; that is the `LookupFault` case (CustomError), never NotFound.
- UpdatePlace: the `UserWriteFault` and `CommitFault` choices have no effect, because the update has no such step.
- Users.Signup: the `PlaceWriteFault` and `CommitFault` choices have no effect, because signup writes no place and uses no transaction.
- Users.Login: the email is looked up as typed, as in the source; `Users.LoginNormalized` is the corrected lookup.
- Login: both credential failures are `UnauthenticatedError`. The two different messages ("Invalid credentials." and "Incorrect password.") are not distinguished, and no error message is modelled.
- Store.Store.CreatePlace: implements the corrected `createPlace`, with the owner saved in the session. The as-written behaviour is `Places.CreatePlaceAsWritten`, which would break the class invariant.
