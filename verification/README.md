# A simple authentication service, modelled in Dafny

The service keeps a collection of users (`name`, `email`, `password`,
`admin`) and answers six routes: register (`POST /user`), authenticate
(`POST /authenticate`, which signs a bearer token), list (`GET /user`,
admins only), read one (`GET /user/:id`), update (`PUT /user/:id`) and
delete (`DELETE /user/:id`). The last three apply the self-or-admin rule:
the caller's token must carry a truthy `admin` claim or the record's own
email. A missing or rejected token is answered 401 "Invalid token".

The model has six modules:

- `Options` (options.dfy): the optional value, for a JSON field that may be
  absent or a lookup that may miss.
- `UserSchema` (user_schema.dfy): the document schema of models/user.js as
  a validity predicate (`email` and `password` required, where `required`
  also refuses the empty string), the text of the validator's error, and
  the unique index on `name` as a predicate on the collection.
- `ObjectIds` (object_ids.dfy): ids and their textual form in URL paths.
- `Handlers` (handlers.dfy): one pure step function per route over a
  snapshot of the collection (`Store`: documents by id, their natural order,
  the next id). Each step returns the reply (status, optional `Location`,
  body) and, for the routes that write, the new collection. The module also
  holds the access rule `MayAccess` and the projection `Project`, which has
  no password field.
- `HandlerProperties` (handler_properties.dfy): the properties of the
  routes, proved about the step functions.
- `Server` (server.dfy): the class `AccountService`, whose fields
  are the collection and whose methods run the handlers step by step, in
  place. Each method is proved equal to its step function, and each writing
  method is proved to keep the collection invariant. `List` builds its map
  in a loop, as the `forEach` does.

A bearer token is abstract: `Verified(claims)` for a token whose signature
and expiry check out, `Invalid` otherwise. Passwords are stored and compared
as plain text, as in server.js:101.

## Behaviour of the code that the model keeps

- The unique index is on `name`, not on `email` (models/user.js:5-12). Two
  users may share an email (`SharedEmailAllowed`). The index is not sparse,
  so a missing name counts as a value: a second unnamed user is a duplicate
  (`UnnamedUsersCollide`).
- Because emails are not unique, authentication looks at the first user
  with the email, in natural order. A later user with the same email never
  gets a token of its own: it gets "Bad password", or the earlier user's
  token when the passwords happen to agree (`EarlierSharedEmailShadows`).
- The self-or-admin check compares emails, so users who share an email can
  read, update and delete each other's records (`SharedEmailGrantsAccess`).
  Whoever registers an email first thus locks later holders of it out of
  logging in, and can still read, update and delete their records.
- Registration refuses a truthy `admin` flag with 403. A flag of `false` is
  stored as sent and appears in the user's token.
- Delete removes the record before the self-or-admin check, so a refused
  caller (403) has still deleted it (`DeleteOutcomes`).
- Update replies 204 before its save completes. A save that would break the
  `name` index therefore leaves the record as it was, yet the reply is
  still 204 (`UpdateOutcomes`).
- A path parameter that is not an id makes the store's lookup fail with a
  cast error, answered 500 (`MalformedPathIsServerError`).

## Model

| member | source | states |
|---|---|---|
| UserSchema.MissingPaths | models/user.js:9-16 | a path is reported missing exactly when the schema requires it and the document leaves it unset or empty |
| UserSchema.Present | server.js:60 | a string field passes `!data.email`, the fallbacks of server.js:189-190 and mongoose's `required` (models/user.js:11, 15) exactly when it is neither absent nor the empty string |
| UserSchema.Truthy | server.js:69 | an admin flag is truthy exactly when it is neither absent nor `false`, so an absent flag acts as `false` here and at server.js:123, 157, 184 and 213 |
| UserSchema.ValidationMessage | server.js:78-80 | the validator's message starts with the `User validation failed: ` header and, for a refused document, continues with the name of the first missing path |
| UserSchema.RequiredMessages | server.js:78-80 | a non-empty list of missing paths gives a non-empty text that begins with the first path's name |
| UserSchema.ValidUser | models/user.js:9-16 | a document is valid exactly when no required path is missing; `name` and `admin` are optional |
| UserSchema.UniqueNames | models/user.js:5-8 | no two stored users share a name; in particular at most one stored user has no name |
| UserSchema.NameTaken | models/user.js:5-8 | a name counts as taken only when some stored user holds it |
| UserSchema.MissingEmailIsRefused | models/user.js:9-12 | a document without an email is invalid and `email` is reported |
| UserSchema.MissingPasswordIsRefused | models/user.js:13-16 | a document without a password is invalid and the validation message names `password` |
| UserSchema.InsertKeepsNamesUnique | models/user.js:5-8 | inserting a document whose name no stored user holds keeps names unique |
| UserSchema.ReplaceKeepsNamesUnique | models/user.js:5-8 | replacing a document by one whose name no other user holds keeps names unique |
| ObjectIds.ParseId | server.js:147-152 | a path parameter reads as an id exactly when it is a non-empty string of digits; otherwise the lookup fails |
| ObjectIds.ParseIdText | server.js:85 | the id written into `/user/<id>` reads back as the same id |
| ObjectIds.IdTextInjective | server.js:85 | distinct users get distinct `Location` paths |
| ObjectIds.IdText | server.js:85 | the id in the `Location` header is written as a non-empty string of decimal digits |
| Handlers.StoreInvariant | models/user.js:4-18 | between requests every stored document is valid, names are unique, the order lists each stored id once and the next id is fresh |
| Handlers.MayAccess | server.js:157-161 | a truthy admin claim opens every record; a token without an email claim opens a record only for an admin |
| Handlers.Project | server.js:162-167 | the public view carries the user's id, name, email and admin flag, and has no password field |
| Handlers.ClaimsOf | server.js:104-109 | the signed claims are the user's id, name, email and admin flag, with no password field |
| Handlers.Patched | server.js:189-190 | the patched user keeps its email and admin flag, stays valid, and is unchanged when neither name nor password is truthy |
| Handlers.PathOf | server.js:85 | the `Location` of a new user is `/user/` followed by a text that parses back to that user's id |
| Handlers.Unauthorized | server.js:222-225 | a rejected token is answered 401 with the JSON message "Invalid token" and no `Location` |
| Handlers.RegisterStep | server.js:56-87 | the reply is 201, 400 or 403; anything but 201 leaves the collection unchanged; a 201 adds exactly the fresh id, with no truthy admin flag |
| Handlers.AuthenticateStep | server.js:90-115 | the reply is 200 or 401; a 200 carries a token whose claims are exactly the id, name, email and admin flag of a stored user whose email and password are the supplied ones |
| Handlers.ListStep | server.js:122-142 | the reply is 200, 401 or 403, and 200 exactly for a valid token with a truthy admin claim |
| Handlers.GetStep | server.js:146-170 | the reply is 200, 401, 403, 404 or 500; a 200 is only for a stored id the caller may access |
| Handlers.UpdateStep | server.js:173-199 | the reply is 204, 401, 403, 404 or 500; anything but 204 changes nothing; the ids, the order and every user's email and admin flag never change |
| Handlers.DeleteStep | server.js:203-220 | the reply is 204, 401, 403, 404 or 500; 401, 404 and 500 change nothing; both 204 and 403 remove the addressed user |
| Handlers.WithoutKeepsOrder | server.js:205 | removing an id keeps the relative order of the remaining ids |
| Handlers.FirstByEmail | server.js:94 | `findOne` by email returns nothing exactly when no user in the order has the email, else the first user in natural order that has it |
| Handlers.Without | server.js:205 | removing an id from the natural order keeps every other id, and no id twice |
| Handlers.DirectoryOf | server.js:130-139 | the list map has exactly the stored ids as keys, each mapped to that user's `{id, name, email, admin}` |
| HandlerProperties.AccessIsSelfOrAdmin | server.js:157-161 | a truthy admin claim grants access; otherwise access holds exactly when the emails are equal; an absent admin claim acts as false |
| HandlerProperties.PasswordNeverSent | server.js:104-109 | the projection, the token claims and the whole list map do not change when any one user's stored password changes |
| HandlerProperties.RegisterRefusals | server.js:60-71 | a missing or empty email is answered 400 ValidationError "`email` is required" before the admin flag is checked; a truthy admin flag then gives 403 Forbidden; every refusal leaves the collection unchanged |
| HandlerProperties.RegisterNeverCreatesAdmin | server.js:63-71 | no user added by registration has a truthy admin flag |
| HandlerProperties.RegisterMissingPassword | server.js:78-80 | without a password, registration is answered 400 ValidationError naming `password` and nothing is stored |
| HandlerProperties.RegisterDuplicateName | server.js:72-77 | a name already stored gives 400 DuplicationError "User already exists" and the collection is unchanged |
| HandlerProperties.UnnamedUsersCollide | models/user.js:5-8 | a second registration without a name is a duplicate of a stored unnamed user |
| HandlerProperties.RegisterCreatesOne | server.js:72-85 | 201 exactly when email present, admin not truthy, password present and name free; then exactly one user is added under a fresh id, appended to the natural order, the counter moves past it, and `Location` is `/user/` + that id and reads back to it |
| HandlerProperties.RegisterKeepsInvariant | server.js:56-87 | registration keeps the collection invariant: order lists each id once, ids are fresh, every document is valid, names are unique |
| HandlerProperties.SharedEmailAllowed | models/user.js:9-12 | two users with different names and the same email can both register |
| HandlerProperties.AuthenticateOutcomes | server.js:94-113 | "Bad username" exactly when no user has the email; a token is issued only for a stored user with that email and that password, over its `{id, name, email, admin}`; the status is 200 or 401 |
| HandlerProperties.AuthenticateFirstHolderDecides | server.js:94-103 | when several users share the email, the first in natural order decides: a token for it on an equal password, else "Bad password" |
| HandlerProperties.AuthenticateSoleHolder | server.js:101-113 | when one user holds the email, equal plain-text passwords give its token and anything else "Bad password" |
| HandlerProperties.EarlierSharedEmailShadows | server.js:94-103 | a later user sharing an earlier user's email never receives its own token, whatever password it presents |
| HandlerProperties.RegisterThenAuthenticate | server.js:56-115 | after a successful registration under an unshared email, authenticating with that email and password returns a token for the new id, whose admin claim is the request's non-truthy flag |
| HandlerProperties.InvalidTokenRejected | server.js:222-227 | with a missing or invalid token, list, read, update and delete answer 401 "Invalid token" and change nothing |
| HandlerProperties.ListAdminOnly | server.js:122-141 | list is 200 exactly for a truthy admin claim, else 403 with no body; the map has one password-free entry per stored user, keyed by its id |
| HandlerProperties.MalformedPathIsServerError | server.js:148-152 | a path that is not an id gives 500 on read, update and delete, and changes nothing |
| HandlerProperties.GetOutcomes | server.js:146-170 | for any path that reads as the id: a missing id gives 404 whoever asks; otherwise neither admin nor owner gives 403; otherwise 200 with the user's public fields |
| HandlerProperties.RegisteredUserReadsOwnRecordOnly | server.js:146-170 | after registering under an email no stored user holds, the new user's token reads its own record at its `Location` and gets 403 for every user stored before |
| HandlerProperties.UpdateOutcomes | server.js:173-199 | for any path that reads as the id: 404 before 403, both leaving the collection unchanged; else 204, truthy name and password replace the old ones, email and admin stay, no other user changes, and a name held by another user leaves the collection unchanged |
| HandlerProperties.UpdateKeepsInvariant | server.js:189-196 | update keeps the collection invariant |
| HandlerProperties.DeleteOutcomes | server.js:203-220 | for any path that reads as the id: a missing id gives 404 and changes nothing; an existing one is removed from the collection and the natural order, the counter is untouched, and the reply is 204 for admin or owner and 403 for anyone else |
| HandlerProperties.DeleteKeepsInvariant | server.js:205 | delete keeps the collection invariant |
| HandlerProperties.SharedEmailGrantsAccess | server.js:157-161 | a token carrying another user's email reads that user's record (200), updates it (204) and deletes it (204), as the checks at server.js:184-188 and 213-216 compare emails too |
| HandlerProperties.SecondDeleteNotFound | server.js:205-211 | the first delete of an existing id replies 204 or 403; a second delete of it replies 404 and changes nothing |
| Server.AccountService.Register | server.js:56-87 | the in-place registration replies and updates the collection as the register step says, keeping the invariant |
| Server.AccountService.Authenticate | server.js:90-115 | the reply is the authenticate step's; a token names the email that was supplied |
| Server.AccountService.List | server.js:122-142 | the map built user by user in natural order is the list step's reply |
| Server.AccountService.Get | server.js:146-170 | the reply is the read step's; a 200 is only for a stored id |
| Server.AccountService.Update | server.js:173-199 | the in-place patch and save reply and update the collection as the update step says, keeping the invariant |
| Server.AccountService.Delete | server.js:203-220 | the in-place removal replies and updates the collection as the delete step says, keeping the invariant |

## Left out

- Token signing and verification, the shared secret and the `expiresIn`
  of 1440 (server.js:110-112, 118). These belong to a JWT library and a
  clock. A token is `Verified(claims)` or `Invalid`, and `Token(claims)`
  stands for the signed token.
- The database connection, environment and configuration loading
  (server.js:12, 18-46), Express, body parsing, logging, CORS and
  `app.listen` (server.js:14-17, 229-230). The root route `GET /`
  (server.js:51-53) only sends a fixed greeting.
- Store faults: the 500 replies for a failed lookup, save or removal
  (server.js:81-84, 98-99, 127-129, 149-152, 176-179, 192-195, 206-208) are
  not modelled, except the cast error for a path that is not an id.
  Without faults, the check order in authenticate (missing user before
  error) makes no difference.
- Asynchrony. Update's save is modelled as completing at once. Its outcome
  still decides the collection, and the reply is 204 either way.
- Ids: the store's ObjectIds (24 hex digits) are modelled as naturals
  written in decimal. So `ParseId` accepts digit strings, not hex strings.
  Fresh ids come from a counter.
- Natural order is modelled as insertion order. It is used only by
  `findOne` when several users share an email.
- JSON types other than strings: request fields are modelled as JSON
  strings or absent, and `admin` as a Boolean or absent. Numbers are not
  modelled, although the checks at server.js:60 and 189-190 see them
  uncast (a JSON `0` email is refused, a `0` name keeps the old one) and
  the `!==` at server.js:101 never matches a number against a stored
  string. Objects are not modelled either, although `findOne`
  (server.js:94) takes them as query selectors such as `{$ne: null}`,
  which matches the first stored user. How the driver treats an absent
  email in the `findOne` filter is not modelled; an absent email matches
  no user.
- The keys of the list map are ids, not their JSON string forms. The bodies
  that `sendStatus` writes (the status's reason phrase) are modelled as
  `StatusOnly`.
- The wording of the validator's message belongs to the store's library.
  The model uses the form `User validation failed: <path>: Path \`<path>\`
  is required.`
