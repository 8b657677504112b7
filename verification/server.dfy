/** The service as server.js runs it: one user collection, updated in place
    by the handlers. Each method does what its handler does and is proved to
    agree with the step function of `Handlers` that specifies it, so every
    property proved in `HandlerProperties` holds of it. */
module Server {

  import opened Options
  import opened UserSchema
  import opened ObjectIds
  import opened Handlers
  import opened HandlerProperties

  class AccountService {
    var users: map<Id, User>
    var order: seq<Id>
    var nextId: Id

    function Model(): Store
      reads this
    {
      Store(users, order, nextId)
    }

    ghost predicate Valid()
      reads this
    {
      StoreInvariant(Model())
    }

    /** An empty collection. */
    constructor ()
      ensures Valid() && users == map[] && order == []
    {
      users, order, nextId := map[], [], 0;
    }

    /** `POST /user`. */
    method Register(req: Registration) returns (reply: Reply)
      requires Valid()
      modifies this
      ensures Valid()
      ensures Step(Model(), reply) == RegisterStep(old(Model()), req)
    {
      RegisterKeepsInvariant(Model(), req);
      if !Present(req.email) {
        return Reply(400, None, Error("ValidationError", "`email` is required"));
      }
      var newUser := User(req.name, req.email, req.password, req.admin);
      if Truthy(newUser.admin) {
        return Reply(403, None, Error("Forbidden", "Cannot create admin-user via API"));
      }
      // The save: the schema's validators first, then the unique index.
      if !ValidUser(newUser) {
        return Reply(400, None, Error("ValidationError", ValidationMessage(newUser)));
      }
      if NameTaken(users, newUser.name, {}) {
        return Reply(400, None, Error("DuplicationError", "User already exists"));
      }
      var id := nextId;
      users := users[id := newUser];
      order := order + [id];
      nextId := nextId + 1;
      reply := Reply(201, Some(PathOf(id)), StatusOnly);
    }

    /** `POST /authenticate`; reads the collection only. */
    method Authenticate(req: Login) returns (reply: Reply)
      requires Valid()
      ensures reply == AuthenticateStep(Model(), req)
      ensures reply.status == 200 ==> reply.body.Token? && reply.body.claims.email == req.email
    {
      var found := FirstByEmail(users, order, req.email);
      if found.None? {
        return Reply(401, None, Message("Bad username"));
      }
      var user := users[found.value];
      if req.password != user.password {
        return Reply(401, None, Message("Bad password"));
      }
      reply := Reply(200, None, Token(ClaimsOf(found.value, user)));
    }

    /** `GET /user`: the map is built one user at a time in natural order. */
    method List(cred: Credential) returns (reply: Reply)
      requires Valid()
      ensures reply == ListStep(Model(), cred)
    {
      if cred.Invalid? {
        return Unauthorized();
      }
      if !Truthy(cred.claims.admin) {
        return Status(403);
      }
      var userMap: map<Id, PublicUser> := map[];
      var i := 0;
      while i < |order|
        invariant 0 <= i <= |order|
        invariant forall id :: id in userMap <==> id in order[..i]
        invariant forall id :: id in userMap ==> id in users && userMap[id] == Project(id, users[id])
      {
        var id := order[i];
        userMap := userMap[id := Project(id, users[id])];
        assert order[..i + 1] == order[..i] + [id];
        i := i + 1;
      }
      assert order[..i] == order;
      assert userMap.Keys == users.Keys;
      assert userMap == DirectoryOf(users);
      reply := Reply(200, None, Directory(userMap));
    }

    /** `GET /user/:id`; reads the collection only. */
    method Get(cred: Credential, path: string) returns (reply: Reply)
      ensures reply == GetStep(Model(), cred, path)
      ensures reply.status == 200 ==> ParseId(path).Some? && ParseId(path).value in users
    {
      if cred.Invalid? {
        return Unauthorized();
      }
      var parsed := ParseId(path);
      if parsed.None? {
        return Status(500);
      }
      var id := parsed.value;
      if id !in users {
        return Status(404);
      }
      var user := users[id];
      if !Truthy(cred.claims.admin) {
        if user.email != cred.claims.email {
          return Status(403);
        }
      }
      reply := Reply(200, None, Profile(Project(id, user)));
    }

    /** `PUT /user/:id`: the found user is patched and saved; the reply is 204
        whether or not the save goes through. */
    method Update(cred: Credential, path: string, ch: Changes) returns (reply: Reply)
      requires Valid()
      modifies this
      ensures Valid()
      ensures Step(Model(), reply) == UpdateStep(old(Model()), cred, path, ch)
    {
      UpdateKeepsInvariant(Model(), cred, path, ch);
      if cred.Invalid? {
        return Unauthorized();
      }
      var parsed := ParseId(path);
      if parsed.None? {
        return Status(500);
      }
      var id := parsed.value;
      if id !in users {
        return Status(404);
      }
      var user := users[id];
      if !Truthy(cred.claims.admin) {
        if user.email != cred.claims.email {
          return Status(403);
        }
      }
      user := user.(name := if Present(ch.name) then ch.name else user.name);
      user := user.(password := if Present(ch.password) then ch.password else user.password);
      // The save fails on the unique index when another user holds the name.
      if !NameTaken(users, user.name, {id}) {
        users := users[id := user];
      }
      reply := Status(204);
    }

    /** `DELETE /user/:id`: remove first, check the caller afterwards. */
    method Delete(cred: Credential, path: string) returns (reply: Reply)
      requires Valid()
      modifies this
      ensures Valid()
      ensures Step(Model(), reply) == DeleteStep(old(Model()), cred, path)
    {
      DeleteKeepsInvariant(Model(), cred, path);
      if cred.Invalid? {
        return Unauthorized();
      }
      var parsed := ParseId(path);
      if parsed.None? {
        return Status(500);
      }
      var id := parsed.value;
      if id !in users {
        return Status(404);
      }
      var user := users[id];
      users := users - {id};
      order := Without(order, id);
      if !Truthy(cred.claims.admin) {
        if user.email != cred.claims.email {
          return Status(403);
        }
      }
      reply := Status(204);
    }
  }
}
