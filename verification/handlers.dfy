/** The decision logic of the route handlers in server.js, one function per
    route, over an immutable snapshot of the user collection. Each function
    returns the reply the handler sends and, for the routes that write, the
    collection afterwards. */
module Handlers {

  import opened Options
  import opened UserSchema
  import opened ObjectIds

  /** The payload a bearer token was signed over. A token may have been signed
      by anyone holding the secret, so every claim may be absent. */
  datatype Claims = Claims(id: Option<Id>, name: Option<string>, email: Option<string>, admin: Option<bool>)

  /** What the token middleware makes of a request: the claims of a token whose
      signature and expiry check out, or `Invalid` for a missing, forged or
      expired one. */
  datatype Credential = Invalid | Verified(claims: Claims)

  /** The password-free view of a stored user that the read routes send. */
  datatype PublicUser = PublicUser(id: Id, name: Option<string>, email: Option<string>, admin: Option<bool>)

  /** Reply payloads: `StatusOnly` is a reply without JSON (`sendStatus`, or a
      bare `send()`), `Token` stands for the signed token over `claims`. */
  datatype Body =
    | StatusOnly
    | Error(errorName: string, errorMessage: string)
    | Message(message: string)
    | Token(claims: Claims)
    | Profile(user: PublicUser)
    | Directory(users: map<Id, PublicUser>)

  datatype Reply = Reply(status: int, location: Option<string>, body: Body)

  /** The user collection: its documents by id, their natural (insertion) order,
      and the next id the store will hand out. */
  datatype Store = Store(users: map<Id, User>, order: seq<Id>, nextId: Id)

  datatype Step = Step(store: Store, reply: Reply)

  /** Request bodies of the three routes that read one. */
  datatype Registration = Registration(email: Option<string>, password: Option<string>, admin: Option<bool>, name: Option<string>)
  datatype Login = Login(email: Option<string>, password: Option<string>)
  datatype Changes = Changes(name: Option<string>, password: Option<string>)

  predicate Distinct(s: seq<Id>)
  {
    forall i, j :: 0 <= i < j < |s| ==> s[i] != s[j]
  }

  /** What the collection guarantees between requests: the order lists every
      stored id once, ids come from the supply, every document passed the
      schema, and the unique index on `name` holds. */
  ghost predicate StoreInvariant(s: Store)
    ensures StoreInvariant(s) ==> s.nextId !in s.users
    ensures StoreInvariant(s) ==> forall id :: id in s.users ==> s.users[id].email.Some? && s.users[id].password.Some?
  {
    && (forall id :: id in s.users <==> id in s.order)
    && Distinct(s.order)
    && (forall id :: id in s.users ==> id < s.nextId)
    && (forall id :: id in s.users ==> ValidUser(s.users[id]))
    && UniqueNames(s.users)
  }

  /** Self-or-admin: the caller may see or change a record when it holds a
      truthy admin claim or the record's own email. */
  predicate MayAccess(caller: Claims, record: User)
    ensures Truthy(caller.admin) ==> MayAccess(caller, record)
    ensures caller.email.None? && record.email.Some? ==> (MayAccess(caller, record) <==> Truthy(caller.admin))
  {
    Truthy(caller.admin) || caller.email == record.email
  }

  /** The fields `{id, name, email, admin}` that the read routes send; the
      password is not among them. */
  function Project(id: Id, u: User): (p: PublicUser)
    ensures p.id == id && p.name == u.name && p.email == u.email && p.admin == u.admin
  {
    PublicUser(id, u.name, u.email, u.admin)
  }

  /** The claims `POST /authenticate` signs for a stored user. */
  function ClaimsOf(id: Id, u: User): (c: Claims)
    ensures c.id == Some(id) && c.name == u.name && c.email == u.email && c.admin == u.admin
  {
    Claims(Some(id), u.name, u.email, u.admin)
  }

  /** Every stored user's projection, keyed by id. */
  function DirectoryOf(users: map<Id, User>): (d: map<Id, PublicUser>)
    ensures d.Keys == users.Keys
    ensures forall id :: id in d ==> d[id] == Project(id, users[id])
  {
    map id | id in users :: Project(id, users[id])
  }

  /** The path of a user's resource, as sent in the `Location` header. */
  function PathOf(id: Id): (p: string)
    ensures |p| > |"/user/"| && p[..|"/user/"|] == "/user/"
    ensures ParseId(p[|"/user/"|..]) == Some(id)
  {
    ParseIdText(id);
    assert ("/user/" + IdText(id))[|"/user/"|..] == IdText(id);
    "/user/" + IdText(id)
  }

  /** The reply the error middleware sends for a token it rejected. */
  function Unauthorized(): (r: Reply)
    ensures r.status == 401 && r.location.None? && r.body == Message("Invalid token")
  {
    Reply(401, None, Message("Invalid token"))
  }

  function Status(code: int): Reply
  {
    Reply(code, None, StatusOnly)
  }

  /** The first document in natural order whose email equals `email`, as `findOne` returns it. */
  function FirstByEmail(users: map<Id, User>, order: seq<Id>, email: Option<string>): (r: Option<Id>)
    requires forall id :: id in order ==> id in users
    ensures r.None? <==> forall id :: id in order ==> users[id].email != email
    ensures r.Some? ==> exists i :: 0 <= i < |order| && order[i] == r.value
                                   && users[r.value].email == email
                                   && forall j :: 0 <= j < i ==> users[order[j]].email != email
  {
    if order == [] then None
    else if users[order[0]].email == email then
      Some(order[0])
    else
      var r := FirstByEmail(users, order[1..], email);
      if r.Some? then
        var i :| 0 <= i < |order[1..]| && order[1..][i] == r.value
                 && users[r.value].email == email
                 && forall j :: 0 <= j < i ==> users[order[1..][j]].email != email;
        assert order[i + 1] == r.value;
        assert forall j :: 0 <= j < i + 1 ==> users[order[j]].email != email by {
          forall j | 0 <= j < i + 1 ensures users[order[j]].email != email {
            if j > 0 { assert order[j] == order[1..][j - 1]; }
          }
        }
        r
      else
        assert forall id :: id in order ==> id == order[0] || id in order[1..];
        r
  }

  /** `order` with `x` taken out, the rest in the same order (`WithoutKeepsOrder`). */
  function Without(order: seq<Id>, x: Id): (r: seq<Id>)
    ensures forall id :: id in r <==> id in order && id != x
    ensures Distinct(order) ==> Distinct(r)
  {
    if order == [] then []
    else
      var rest := Without(order[1..], x);
      DistinctTail(order);
      if order[0] == x then rest else [order[0]] + rest
  }

  /** `a` stands before `b` in `s`. */
  ghost predicate Precedes(s: seq<Id>, a: Id, b: Id)
  {
    exists i, j :: 0 <= i < j < |s| && s[i] == a && s[j] == b
  }

  /** Taking an id out of the natural order keeps the others in their order. */
  lemma {:induction false} WithoutKeepsOrder(order: seq<Id>, x: Id, a: Id, b: Id)
    requires Precedes(Without(order, x), a, b)
    ensures Precedes(order, a, b)
  {
    var r := Without(order, x);
    var rest := Without(order[1..], x);
    var i, j :| 0 <= i < j < |r| && r[i] == a && r[j] == b;
    if order[0] == x {
      WithoutKeepsOrder(order[1..], x, a, b);
      var i', j' :| 0 <= i' < j' < |order[1..]| && order[1..][i'] == a && order[1..][j'] == b;
      assert order[i' + 1] == a && order[j' + 1] == b;
    } else if i == 0 {
      assert b == rest[j - 1] && b in rest;
      assert b in order[1..];
      var j' :| 0 <= j' < |order[1..]| && order[1..][j'] == b;
      assert order[0] == a && order[j' + 1] == b;
    } else {
      assert rest[i - 1] == a && rest[j - 1] == b;
      WithoutKeepsOrder(order[1..], x, a, b);
      var i', j' :| 0 <= i' < j' < |order[1..]| && order[1..][i'] == a && order[1..][j'] == b;
      assert order[i' + 1] == a && order[j' + 1] == b;
    }
  }

  lemma DistinctTail(order: seq<Id>)
    requires |order| > 0
    ensures Distinct(order) ==> Distinct(order[1..]) && order[0] !in order[1..]
  {
    if Distinct(order) {
      forall k | 0 <= k < |order[1..]| ensures order[1..][k] != order[0] {
        assert order[1..][k] == order[k + 1];
      }
    }
  }

  /** The user an update leaves behind: `name` and `password` take the request's
      value when it is truthy and keep the stored one otherwise. */
  function Patched(u: User, ch: Changes): (r: User)
    ensures r.email == u.email && r.admin == u.admin
    ensures ValidUser(u) ==> ValidUser(r)
    ensures !Present(ch.name) && !Present(ch.password) ==> r == u
  {
    u.(name := if Present(ch.name) then ch.name else u.name,
       password := if Present(ch.password) then ch.password else u.password)
  }

  /** `POST /user`: the email check, then the admin check, then the store's
      schema validation, then its unique index, then the insert. */
  function RegisterStep(s: Store, req: Registration): (r: Step)
    ensures r.reply.status in {201, 400, 403}
    ensures r.reply.status != 201 ==> r.store == s
    ensures r.reply.status == 201 ==>
      && r.store.users.Keys == s.users.Keys + {s.nextId}
      && r.store.nextId > s.nextId
      && !Truthy(r.store.users[s.nextId].admin)
  {
    if !Present(req.email) then
      Step(s, Reply(400, None, Error("ValidationError", "`email` is required")))
    else
      var newUser := User(req.name, req.email, req.password, req.admin);
      if Truthy(newUser.admin) then
        Step(s, Reply(403, None, Error("Forbidden", "Cannot create admin-user via API")))
      else if !ValidUser(newUser) then
        Step(s, Reply(400, None, Error("ValidationError", ValidationMessage(newUser))))
      else if NameTaken(s.users, newUser.name, {}) then
        Step(s, Reply(400, None, Error("DuplicationError", "User already exists")))
      else
        var id := s.nextId;
        Step(Store(s.users[id := newUser], s.order + [id], s.nextId + 1), Reply(201, Some(PathOf(id)), StatusOnly))
  }

  /** `POST /authenticate`: look the email up, compare the stored password as
      plain text, and sign the user's public fields. */
  function AuthenticateStep(s: Store, req: Login): (r: Reply)
    requires StoreInvariant(s)
    ensures r.status in {200, 401}
    ensures r.status == 200 ==>
      && r.body.Token? && r.body.claims.email == req.email && r.body.claims.id.Some?
      && r.body.claims.id.value in s.users && s.users[r.body.claims.id.value].password == req.password
    ensures r.status == 200 ==>
      && s.users[r.body.claims.id.value].email == req.email
      && r.body == Token(ClaimsOf(r.body.claims.id.value, s.users[r.body.claims.id.value]))
  {
    match FirstByEmail(s.users, s.order, req.email)
    case None => Reply(401, None, Message("Bad username"))
    case Some(id) =>
      if req.password != s.users[id].password then Reply(401, None, Message("Bad password"))
      else Reply(200, None, Token(ClaimsOf(id, s.users[id])))
  }

  /** `GET /user`: admins only, every user's projection keyed by id. */
  function ListStep(s: Store, cred: Credential): (r: Reply)
    ensures r.status in {200, 401, 403}
    ensures r.status == 200 <==> cred.Verified? && Truthy(cred.claims.admin)
  {
    match cred
    case Invalid => Unauthorized()
    case Verified(caller) =>
      if !Truthy(caller.admin) then Status(403)
      else Reply(200, None, Directory(DirectoryOf(s.users)))
  }

  /** `GET /user/:id`: cast error, then not found, then self-or-admin. */
  function GetStep(s: Store, cred: Credential, path: string): (r: Reply)
    ensures r.status in {200, 401, 403, 404, 500}
    ensures r.status == 200 ==>
      cred.Verified? && ParseId(path).Some? && ParseId(path).value in s.users
      && MayAccess(cred.claims, s.users[ParseId(path).value])
  {
    match cred
    case Invalid => Unauthorized()
    case Verified(caller) =>
      match ParseId(path)
      case None => Status(500)
      case Some(id) =>
        if id !in s.users then Status(404)
        else if !MayAccess(caller, s.users[id]) then Status(403)
        else Reply(200, None, Profile(Project(id, s.users[id])))
  }

  /** `PUT /user/:id`: as `GetStep` up to the access check, then patch and save.
      The reply is 204 whether or not the save succeeds; a save that would
      break the unique index on `name` leaves the collection as it was. */
  function UpdateStep(s: Store, cred: Credential, path: string, ch: Changes): (r: Step)
    ensures r.reply.status in {204, 401, 403, 404, 500}
    ensures r.reply.status != 204 ==> r.store == s
    ensures r.store.users.Keys == s.users.Keys && r.store.order == s.order && r.store.nextId == s.nextId
    ensures forall id :: id in s.users ==>
      r.store.users[id].email == s.users[id].email && r.store.users[id].admin == s.users[id].admin
  {
    match cred
    case Invalid => Step(s, Unauthorized())
    case Verified(caller) =>
      match ParseId(path)
      case None => Step(s, Status(500))
      case Some(id) =>
        if id !in s.users then Step(s, Status(404))
        else if !MayAccess(caller, s.users[id]) then Step(s, Status(403))
        else
          var user := Patched(s.users[id], ch);
          var saved := if NameTaken(s.users, user.name, {id}) then s else s.(users := s.users[id := user]);
          Step(saved, Status(204))
  }

  /** `DELETE /user/:id`: the document is removed first, and only then is the
      caller checked, so a refused caller has still deleted it. */
  function DeleteStep(s: Store, cred: Credential, path: string): (r: Step)
    ensures r.reply.status in {204, 401, 403, 404, 500}
    ensures r.reply.status in {401, 404, 500} ==> r.store == s
    ensures r.reply.status in {204, 403} ==>
      ParseId(path).Some? && ParseId(path).value in s.users && r.store.users == s.users - {ParseId(path).value}
  {
    match cred
    case Invalid => Step(s, Unauthorized())
    case Verified(caller) =>
      match ParseId(path)
      case None => Step(s, Status(500))
      case Some(id) =>
        if id !in s.users then Step(s, Status(404))
        else
          var removed := Store(s.users - {id}, Without(s.order, id), s.nextId);
          if !MayAccess(caller, s.users[id]) then Step(removed, Status(403))
          else Step(removed, Status(204))
  }
}
