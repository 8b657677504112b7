/** What the route handlers promise, stated over the step functions of
    `Handlers`: check order, untouched collections on refusal, the
    collection invariant, and the end-to-end flows register, authenticate,
    read and delete. */
module HandlerProperties {

  import opened Options
  import opened UserSchema
  import opened ObjectIds
  import opened Handlers

  // ===== Shared pieces =====

  /** Self-or-admin: a truthy admin claim opens every record; without one, only
      the record whose email equals the caller's. An absent admin claim
      behaves as `false`. */
  lemma AccessIsSelfOrAdmin(caller: Claims, record: User)
    ensures Truthy(caller.admin) ==> MayAccess(caller, record)
    ensures !Truthy(caller.admin) ==> (MayAccess(caller, record) <==> caller.email == record.email)
    ensures MayAccess(caller.(admin := None), record) == MayAccess(caller.(admin := Some(false)), record)
  {
  }

  /** Nothing a user reply or a token carries depends on the stored password. */
  lemma PasswordNeverSent(users: map<Id, User>, id: Id, password: Option<string>)
    requires id in users
    ensures Project(id, users[id]) == Project(id, users[id].(password := password))
    ensures ClaimsOf(id, users[id]) == ClaimsOf(id, users[id].(password := password))
    ensures DirectoryOf(users) == DirectoryOf(users[id := users[id].(password := password)])
  {
    var changed := users[id := users[id].(password := password)];
    assert forall k :: k in users ==> DirectoryOf(users)[k] == DirectoryOf(changed)[k];
  }

  // ===== POST /user =====

  /** Every refusal leaves the collection as it was; a missing email is
      reported before a truthy admin flag is looked at. */
  lemma RegisterRefusals(s: Store, req: Registration)
    ensures RegisterStep(s, req).reply.status != 201 ==> RegisterStep(s, req).store == s
    ensures !Present(req.email) ==>
      RegisterStep(s, req).reply == Reply(400, None, Error("ValidationError", "`email` is required"))
    ensures Present(req.email) && Truthy(req.admin) ==>
      RegisterStep(s, req).reply == Reply(403, None, Error("Forbidden", "Cannot create admin-user via API"))
  {
  }

  /** A registration can never create an admin account. */
  lemma RegisterNeverCreatesAdmin(s: Store, req: Registration)
    ensures forall id :: id in RegisterStep(s, req).store.users && id !in s.users ==>
      !Truthy(RegisterStep(s, req).store.users[id].admin)
  {
  }

  /** Without a password the store's validator refuses the document and names the path. */
  lemma RegisterMissingPassword(s: Store, req: Registration)
    requires Present(req.email) && !Truthy(req.admin) && !Present(req.password)
    ensures RegisterStep(s, req) ==
      Step(s, Reply(400, None, Error("ValidationError", "User validation failed: password: Path `password` is required.")))
  {
    MissingPasswordIsRefused(User(req.name, req.email, req.password, req.admin));
  }

  /** A name some stored user already holds is a duplicate-key failure. */
  lemma RegisterDuplicateName(s: Store, req: Registration, holder: Id)
    requires Present(req.email) && !Truthy(req.admin) && Present(req.password)
    requires holder in s.users && s.users[holder].name == req.name
    ensures RegisterStep(s, req) == Step(s, Reply(400, None, Error("DuplicationError", "User already exists")))
  {
    assert holder !in {};
  }

  /** The unique index is not sparse: a second user without a name collides
      with the first one. */
  lemma UnnamedUsersCollide(s: Store, req: Registration, unnamed: Id)
    requires Present(req.email) && !Truthy(req.admin) && Present(req.password) && req.name.None?
    requires unnamed in s.users && s.users[unnamed].name.None?
    ensures RegisterStep(s, req).reply == Reply(400, None, Error("DuplicationError", "User already exists"))
  {
    RegisterDuplicateName(s, req, unnamed);
  }

  /** Registration succeeds exactly when the email is present, the admin flag
      is not truthy, the password is present and the name is free; it then
      adds exactly one user under a fresh id and points `Location` at it. */
  lemma RegisterCreatesOne(s: Store, req: Registration)
    requires StoreInvariant(s)
    ensures RegisterStep(s, req).reply.status == 201 <==>
      Present(req.email) && !Truthy(req.admin) && Present(req.password) && !NameTaken(s.users, req.name, {})
    ensures RegisterStep(s, req).reply.status == 201 ==>
      && s.nextId !in s.users
      && RegisterStep(s, req).store.users == s.users[s.nextId := User(req.name, req.email, req.password, req.admin)]
      && RegisterStep(s, req).store.order == s.order + [s.nextId]
      && RegisterStep(s, req).store.nextId == s.nextId + 1
      && |RegisterStep(s, req).store.users| == |s.users| + 1
      && RegisterStep(s, req).reply.location == Some("/user/" + IdText(s.nextId))
      && ParseId(RegisterStep(s, req).reply.location.value[|"/user/"|..]) == Some(s.nextId)
  {
    if RegisterStep(s, req).reply.status == 201 {
      assert s.nextId !in s.users;
      ParseIdText(s.nextId);
      assert RegisterStep(s, req).reply.location.value[|"/user/"|..] == IdText(s.nextId);
    }
  }

  lemma RegisterKeepsInvariant(s: Store, req: Registration)
    requires StoreInvariant(s)
    ensures StoreInvariant(RegisterStep(s, req).store)
  {
    var step := RegisterStep(s, req);
    if step.store != s {
      var id := s.nextId;
      var newUser := User(req.name, req.email, req.password, req.admin);
      assert id !in s.users && id !in s.order;
      InsertKeepsNamesUnique(s.users, id, newUser);
      assert Distinct(s.order + [id]) by {
        var o := s.order + [id];
        forall i, j | 0 <= i < j < |o| ensures o[i] != o[j] {
          if j == |s.order| { assert o[i] in s.order; }
        }
      }
    }
  }

  /** Email carries no unique index: two users may share one. */
  lemma SharedEmailAllowed()
    ensures var first := RegisterStep(Store(map[], [], 0), Registration(Some("u"), Some("p"), None, Some("Ann")));
            var second := RegisterStep(first.store, Registration(Some("u"), Some("q"), None, Some("Bob")));
            && first.reply.status == 201 && second.reply.status == 201
            && second.store.users[0].email == second.store.users[1].email
  {
    var first := RegisterStep(Store(map[], [], 0), Registration(Some("u"), Some("p"), None, Some("Ann")));
    assert first.store.users == map[0 := User(Some("Ann"), Some("u"), Some("p"), None)];
    assert !NameTaken(first.store.users, Some("Bob"), {}) by {
      assert "Ann" != "Bob" by { assert "Ann"[0] != "Bob"[0]; }
    }
  }

  // ===== POST /authenticate =====

  /** The replies of authentication: "Bad username" exactly when no stored
      user has the email; otherwise the first stored user with that email
      decides, and a token is issued exactly when its password equals the
      supplied one, signed over that user's public fields. */
  lemma AuthenticateOutcomes(s: Store, req: Login)
    requires StoreInvariant(s)
    ensures AuthenticateStep(s, req) == Reply(401, None, Message("Bad username")) <==>
      forall id :: id in s.users ==> s.users[id].email != req.email
    ensures AuthenticateStep(s, req).status == 200 ==>
      exists id :: id in s.users && s.users[id].email == req.email && s.users[id].password == req.password
                   && AuthenticateStep(s, req) == Reply(200, None, Token(Claims(Some(id), s.users[id].name, s.users[id].email, s.users[id].admin)))
    ensures AuthenticateStep(s, req).status in {200, 401}
  {
  }

  /** Whatever other users share the email, the first of them in natural
      order decides: its password, compared as plain text, gives its token
      or "Bad password". */
  lemma AuthenticateFirstHolderDecides(s: Store, req: Login, k: nat)
    requires StoreInvariant(s)
    requires k < |s.order| && s.users[s.order[k]].email == req.email
    requires forall m :: 0 <= m < k ==> s.users[s.order[m]].email != req.email
    ensures AuthenticateStep(s, req) ==
      if req.password == s.users[s.order[k]].password then Reply(200, None, Token(ClaimsOf(s.order[k], s.users[s.order[k]])))
      else Reply(401, None, Message("Bad password"))
  {
    assert s.order[k] in s.users;
    var found := FirstByEmail(s.users, s.order, req.email);
    assert found.Some?;
    var i :| 0 <= i < |s.order| && s.order[i] == found.value
             && s.users[found.value].email == req.email
             && forall m :: 0 <= m < i ==> s.users[s.order[m]].email != req.email;
    assert i == k;
  }

  /** When exactly one stored user has the email, the supplied password
      alone decides, compared as plain text. */
  lemma AuthenticateSoleHolder(s: Store, req: Login, id: Id)
    requires StoreInvariant(s)
    requires id in s.users && s.users[id].email == req.email
    requires forall other :: other in s.users && other != id ==> s.users[other].email != req.email
    ensures AuthenticateStep(s, req) ==
      if req.password == s.users[id].password then Reply(200, None, Token(ClaimsOf(id, s.users[id])))
      else Reply(401, None, Message("Bad password"))
  {
    var found := FirstByEmail(s.users, s.order, req.email);
    assert id in s.order;
    assert found == Some(id);
  }

  /** Emails are not unique, and the lookup takes the first match in natural
      order: a later user who shares an earlier user's email cannot obtain a
      token of its own, whatever password it presents. */
  lemma EarlierSharedEmailShadows(s: Store, req: Login, i: nat, j: nat)
    requires StoreInvariant(s)
    requires i < j < |s.order|
    requires s.users[s.order[i]].email == req.email && s.users[s.order[j]].email == req.email
    ensures AuthenticateStep(s, req) != Reply(200, None, Token(ClaimsOf(s.order[j], s.users[s.order[j]])))
  {
    assert s.order[i] in s.users && s.order[j] in s.users;
    var found := FirstByEmail(s.users, s.order, req.email);
    assert found.Some?;
    var k :| 0 <= k < |s.order| && s.order[k] == found.value
             && s.users[found.value].email == req.email
             && forall m :: 0 <= m < k ==> s.users[s.order[m]].email != req.email;
    assert k <= i;
    assert found.value != s.order[j];
  }

  /** A user just registered under an email nobody else holds can log in with
      its password, and its token carries its own id and a non-admin flag. */
  lemma RegisterThenAuthenticate(s: Store, req: Registration)
    requires StoreInvariant(s)
    requires RegisterStep(s, req).reply.status == 201
    requires forall id :: id in s.users ==> s.users[id].email != req.email
    ensures StoreInvariant(RegisterStep(s, req).store)
    ensures AuthenticateStep(RegisterStep(s, req).store, Login(req.email, req.password)) ==
      Reply(200, None, Token(Claims(Some(s.nextId), req.name, req.email, req.admin)))
    ensures !Truthy(req.admin)
  {
    RegisterCreatesOne(s, req);
    RegisterKeepsInvariant(s, req);
    var after := RegisterStep(s, req).store;
    AuthenticateSoleHolder(after, Login(req.email, req.password), s.nextId);
  }

  // ===== Protected routes =====

  /** A missing, forged or expired token is answered 401 "Invalid token" and
      touches nothing. */
  lemma InvalidTokenRejected(s: Store, path: string, ch: Changes)
    ensures ListStep(s, Invalid) == Reply(401, None, Message("Invalid token"))
    ensures GetStep(s, Invalid, path) == Reply(401, None, Message("Invalid token"))
    ensures UpdateStep(s, Invalid, path, ch) == Step(s, Reply(401, None, Message("Invalid token")))
    ensures DeleteStep(s, Invalid, path) == Step(s, Reply(401, None, Message("Invalid token")))
  {
  }

  /** Listing is for admins only, with no self exception; an admin receives
      one password-free entry per stored user, keyed by its id. */
  lemma ListAdminOnly(s: Store, caller: Claims)
    ensures ListStep(s, Verified(caller)).status == 200 <==> Truthy(caller.admin)
    ensures !Truthy(caller.admin) ==> ListStep(s, Verified(caller)) == Reply(403, None, StatusOnly)
    ensures Truthy(caller.admin) ==>
      && ListStep(s, Verified(caller)).body.Directory?
      && ListStep(s, Verified(caller)).body.users.Keys == s.users.Keys
      && forall id :: id in s.users ==>
           ListStep(s, Verified(caller)).body.users[id] == PublicUser(id, s.users[id].name, s.users[id].email, s.users[id].admin)
  {
  }

  /** A path that is not an id fails the store's cast: 500, nothing touched. */
  lemma MalformedPathIsServerError(s: Store, caller: Claims, path: string, ch: Changes)
    requires !(|path| > 0 && AllDigits(path))
    ensures GetStep(s, Verified(caller), path) == Reply(500, None, StatusOnly)
    ensures UpdateStep(s, Verified(caller), path, ch) == Step(s, Reply(500, None, StatusOnly))
    ensures DeleteStep(s, Verified(caller), path) == Step(s, Reply(500, None, StatusOnly))
  {
  }

  /** Reading one user: not found before forbidden, then self-or-admin, and
      the reply holds the user's public fields only. This holds for every
      path the cast reads as `id`, not only for the id's own text. */
  lemma GetOutcomes(s: Store, caller: Claims, path: string, id: Id)
    requires ParseId(path) == Some(id)
    ensures id !in s.users ==> GetStep(s, Verified(caller), path) == Reply(404, None, StatusOnly)
    ensures id in s.users && !Truthy(caller.admin) && caller.email != s.users[id].email ==>
      GetStep(s, Verified(caller), path) == Reply(403, None, StatusOnly)
    ensures id in s.users && (Truthy(caller.admin) || caller.email == s.users[id].email) ==>
      GetStep(s, Verified(caller), path) ==
        Reply(200, None, Profile(PublicUser(id, s.users[id].name, s.users[id].email, s.users[id].admin)))
  {
  }

  /** Access compares emails, and emails are not unique: a user whose token
      carries the email of another user may read, update and delete that
      user's record. */
  lemma SharedEmailGrantsAccess(s: Store, holder: Id, other: Id, path: string, ch: Changes)
    requires StoreInvariant(s)
    requires holder in s.users && ParseId(path) == Some(other) && other in s.users
    requires s.users[holder].email == s.users[other].email
    ensures var token := Verified(ClaimsOf(holder, s.users[holder]));
            && GetStep(s, token, path) == Reply(200, None, Profile(Project(other, s.users[other])))
            && UpdateStep(s, token, path, ch).reply == Reply(204, None, StatusOnly)
            && DeleteStep(s, token, path).reply == Reply(204, None, StatusOnly)
            && DeleteStep(s, token, path).store.users == s.users - {other}
  {
    var caller := ClaimsOf(holder, s.users[holder]);
    assert MayAccess(caller, s.users[other]);
    GetOutcomes(s, caller, path, other);
    UpdateOutcomes(s, caller, path, other, ch);
    DeleteOutcomes(s, caller, path, other);
  }

  /** The end-to-end flow: after registering under an unshared email and
      authenticating, the new user reads its own record at the `Location`
      it was given and is refused every other user's. */
  lemma RegisteredUserReadsOwnRecordOnly(s: Store, req: Registration)
    requires StoreInvariant(s)
    requires RegisterStep(s, req).reply.status == 201
    requires forall id :: id in s.users ==> s.users[id].email != req.email
    ensures var after := RegisterStep(s, req).store;
            var token := Verified(Claims(Some(s.nextId), req.name, req.email, req.admin));
            && GetStep(after, token, IdText(s.nextId)) ==
                 Reply(200, None, Profile(PublicUser(s.nextId, req.name, req.email, req.admin)))
            && forall other :: other in s.users ==> GetStep(after, token, IdText(other)) == Reply(403, None, StatusOnly)
  {
    RegisterThenAuthenticate(s, req);
    RegisterCreatesOne(s, req);
    var after := RegisterStep(s, req).store;
    var caller := Claims(Some(s.nextId), req.name, req.email, req.admin);
    ParseIdText(s.nextId);
    GetOutcomes(after, caller, IdText(s.nextId), s.nextId);
    forall other | other in s.users
      ensures GetStep(after, Verified(caller), IdText(other)) == Reply(403, None, StatusOnly)
    {
      ParseIdText(other);
      GetOutcomes(after, caller, IdText(other), other);
    }
  }

  // ===== PUT /user/:id =====

  /** Updating: not found before forbidden, both leaving the collection as it
      was. An allowed update replies 204; `name` and `password` take the
      request's truthy values and keep their own otherwise, `email` and
      `admin` never change, and no other user changes. The save goes through
      exactly when the resulting name is held by no other user. */
  lemma UpdateOutcomes(s: Store, caller: Claims, path: string, id: Id, ch: Changes)
    requires ParseId(path) == Some(id)
    ensures id !in s.users ==> UpdateStep(s, Verified(caller), path, ch) == Step(s, Reply(404, None, StatusOnly))
    ensures id in s.users && !MayAccess(caller, s.users[id]) ==>
      UpdateStep(s, Verified(caller), path, ch) == Step(s, Reply(403, None, StatusOnly))
    ensures id in s.users && MayAccess(caller, s.users[id]) ==>
      var after := UpdateStep(s, Verified(caller), path, ch);
      var before := s.users[id];
      var name := if Present(ch.name) then ch.name else before.name;
      && after.reply == Reply(204, None, StatusOnly)
      && after.store.order == s.order && after.store.nextId == s.nextId
      && after.store.users.Keys == s.users.Keys
      && (forall other :: other in s.users && other != id ==> after.store.users[other] == s.users[other])
      && after.store.users[id].email == before.email
      && after.store.users[id].admin == before.admin
      && (NameTaken(s.users, name, {id}) ==> after.store == s)
      && (!NameTaken(s.users, name, {id}) ==>
            && after.store.users[id].name == name
            && after.store.users[id].password == (if Present(ch.password) then ch.password else before.password))
  {
  }

  lemma UpdateKeepsInvariant(s: Store, cred: Credential, path: string, ch: Changes)
    requires StoreInvariant(s)
    ensures StoreInvariant(UpdateStep(s, cred, path, ch).store)
  {
    if cred.Verified? && ParseId(path).Some? {
      var id := ParseId(path).value;
      if id in s.users && MayAccess(cred.claims, s.users[id]) {
        var user := Patched(s.users[id], ch);
        if !NameTaken(s.users, user.name, {id}) {
          ReplaceKeepsNamesUnique(s.users, id, user);
        }
      }
    }
  }

  // ===== DELETE /user/:id =====

  /** Deleting: a missing id is 404 with nothing touched; an existing one is
      removed whatever the caller, and only the reply tells an allowed caller
      (204) from a refused one (403). */
  lemma DeleteOutcomes(s: Store, caller: Claims, path: string, id: Id)
    requires ParseId(path) == Some(id)
    ensures id !in s.users ==> DeleteStep(s, Verified(caller), path) == Step(s, Reply(404, None, StatusOnly))
    ensures id in s.users ==>
      && DeleteStep(s, Verified(caller), path).store.users == s.users - {id}
      && DeleteStep(s, Verified(caller), path).store.order == Without(s.order, id)
      && DeleteStep(s, Verified(caller), path).store.nextId == s.nextId
      && DeleteStep(s, Verified(caller), path).reply ==
           (if Truthy(caller.admin) || caller.email == s.users[id].email
            then Reply(204, None, StatusOnly) else Reply(403, None, StatusOnly))
  {
  }

  lemma DeleteKeepsInvariant(s: Store, cred: Credential, path: string)
    requires StoreInvariant(s)
    ensures StoreInvariant(DeleteStep(s, cred, path).store)
  {
    if cred.Verified? && ParseId(path).Some? && ParseId(path).value in s.users {
      var id := ParseId(path).value;
      var after := DeleteStep(s, cred, path).store;
      assert after.users == s.users - {id};
      assert forall a :: a in after.users ==> a in s.users;
    }
  }

  /** Once an existing id has been deleted, by anyone, a second delete of it
      replies 404 and changes nothing. */
  lemma SecondDeleteNotFound(s: Store, first: Claims, second: Claims, path: string, id: Id)
    requires ParseId(path) == Some(id)
    requires id in s.users
    ensures DeleteStep(s, Verified(first), path).reply.status in {204, 403}
    ensures var once := DeleteStep(s, Verified(first), path).store;
            DeleteStep(once, Verified(second), path) == Step(once, Reply(404, None, StatusOnly))
  {
    DeleteOutcomes(s, first, path, id);
    DeleteOutcomes(DeleteStep(s, Verified(first), path).store, second, path, id);
  }
}
