/** The `User` document of models/user.js: four fields, of which `email` and
    `password` are required and `name` carries a unique index. A field the
    request did not supply is `None` (JavaScript's `undefined`). */
module UserSchema {

  import opened Options

  /** A user document as the schema declares it. */
  datatype User = User(name: Option<string>, email: Option<string>, password: Option<string>, admin: Option<bool>)

  /** A string field is present in the sense of a `required` validator and of
      JavaScript truthiness: it is set and not the empty string. */
  predicate Present(s: Option<string>)
    ensures Present(s) <==> s != None && s != Some("")
  {
    s.Some? && |s.value| > 0
  }

  /** `admin` is a Boolean without a default: only a stored `true` is truthy. */
  predicate Truthy(b: Option<bool>)
    ensures Truthy(b) <==> b != None && b != Some(false)
  {
    b.Some? && b.value
  }

  /** The schema's `required` paths, in declaration order. */
  const RequiredPaths: seq<string> := ["email", "password"]

  function FieldOf(u: User, path: string): Option<string>
  {
    if path == "email" then u.email else u.password
  }

  /** The required paths that `u` leaves empty, in declaration order. */
  function MissingPaths(u: User): (r: seq<string>)
    ensures forall p :: p in r <==> p in RequiredPaths && !Present(FieldOf(u, p))
    ensures |r| <= |RequiredPaths|
  {
    (if Present(u.email) then [] else ["email"]) + (if Present(u.password) then [] else ["password"])
  }

  /** A document the store accepts: every required path is present. */
  predicate ValidUser(u: User)
    ensures ValidUser(u) <==> MissingPaths(u) == []
  {
    assert !Present(u.email) ==> "email" in MissingPaths(u);
    assert !Present(u.password) ==> "password" in MissingPaths(u);
    Present(u.email) && Present(u.password)
  }

  /** The header of the store's validation error. */
  const ValidationHeader: string := "User validation failed: "

  /** The text of the store's validation error for a document missing
      required paths: the header, then the first missing path's name. */
  function ValidationMessage(u: User): (m: string)
    ensures |m| >= |ValidationHeader| && m[..|ValidationHeader|] == ValidationHeader
    ensures !ValidUser(u) ==>
      && |m| >= |ValidationHeader| + |MissingPaths(u)[0]|
      && m[|ValidationHeader|..|ValidationHeader| + |MissingPaths(u)[0]|] == MissingPaths(u)[0]
  {
    var h := ValidationHeader;
    var t := RequiredMessages(MissingPaths(u));
    assert (h + t)[..|h|] == h;
    assert !ValidUser(u) ==> (h + t)[|h|..|h| + |MissingPaths(u)[0]|] == t[..|MissingPaths(u)[0]|];
    h + t
  }

  function RequiredMessages(paths: seq<string>): (m: string)
    ensures |paths| > 0 ==> |m| > 0
    ensures |paths| > 0 ==> |m| >= |paths[0]| && m[..|paths[0]|] == paths[0]
  {
    if paths == [] then ""
    else
      var one := paths[0] + ": Path `" + paths[0] + "` is required.";
      if |paths| == 1 then one else one + ", " + RequiredMessages(paths[1..])
  }

  /** The unique index on `name`. It is not sparse, so a missing name is
      indexed as a value of its own: at most one stored user may lack one. */
  ghost predicate UniqueNames<K>(users: map<K, User>)
    ensures UniqueNames(users) ==>
      forall a, b :: a in users && b in users && users[a].name.None? && users[b].name.None? ==> a == b
  {
    forall a, b :: a in users && b in users && a != b ==> users[a].name != users[b].name
  }

  /** Some stored user other than those in `except` already holds `name`. */
  predicate NameTaken<K>(users: map<K, User>, name: Option<string>, except: set<K>)
    ensures NameTaken(users, name, except) ==> name in (set k | k in users :: users[k].name)
  {
    exists k :: k in users && k !in except && users[k].name == name
  }

  /** Inserting a user whose name no stored user holds keeps the index unique. */
  lemma InsertKeepsNamesUnique<K>(users: map<K, User>, k: K, u: User)
    requires UniqueNames(users)
    requires k !in users
    requires !NameTaken(users, u.name, {})
    ensures UniqueNames(users[k := u])
  {
    var updated := users[k := u];
    forall a, b | a in updated && b in updated && a != b
      ensures updated[a].name != updated[b].name
    {
      if a == k {
        assert b in users && b !in {};
      } else if b == k {
        assert a in users && a !in {};
      }
    }
  }

  /** Replacing a user by one whose name no OTHER stored user holds keeps the index unique. */
  lemma ReplaceKeepsNamesUnique<K>(users: map<K, User>, k: K, u: User)
    requires UniqueNames(users)
    requires k in users
    requires !NameTaken(users, u.name, {k})
    ensures UniqueNames(users[k := u])
  {
    var updated := users[k := u];
    forall a, b | a in updated && b in updated && a != b
      ensures updated[a].name != updated[b].name
    {
      if a == k {
        assert b in users && b !in {k};
      } else if b == k {
        assert a in users && a !in {k};
      }
    }
  }

  /** A document with an email but no password is refused, and the refusal names `password`. */
  lemma MissingPasswordIsRefused(u: User)
    requires Present(u.email) && !Present(u.password)
    ensures !ValidUser(u)
    ensures ValidationMessage(u) == "User validation failed: password: Path `password` is required."
  {
  }

  /** A document without an email is refused whatever else it holds. */
  lemma MissingEmailIsRefused(u: User)
    requires !Present(u.email)
    ensures !ValidUser(u) && "email" in MissingPaths(u)
  {
  }
}
