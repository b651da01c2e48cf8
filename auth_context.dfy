/**
 * The browser-local account registry behind `AuthProvider`: a table from
 * username to encoded password kept under the storage key "notesUsers", the
 * name of the signed-in user kept under "notesCurrentUser", and the
 * `username` state the rest of the app reads.
 */
module AuthContext {
  import opened Wrappers

  const UsersKey := "notesUsers"
  const CurrentUserKey := "notesCurrentUser"

  /** JavaScript truthiness of a `string | null`: `null` and `""` are the only falsy values. */
  predicate IsTruthy(s: Option<string>): (truthy: bool)
    ensures !truthy <==> s == None || s == Some("")
  {
    s.Some? && s.value != ""
  }

  /**
   * What the model relies on about `btoa`, the password encoding: distinct
   * passwords get distinct encodings, and the empty password encodes to the
   * empty string. Base64's alphabet and padding are not needed.
   */
  ghost predicate IsPasswordEncoder(encode: string -> string) {
    && encode("") == ""
    && forall p, q :: encode(p) == encode(q) ==> p == q
  }

  /**
   * `verifyPassword`: the input's encoding is what is stored. With a password
   * encoder, the empty stored encoding is matched by the empty password only.
   */
  predicate VerifyPassword(encode: string -> string, input: string, stored: string): (ok: bool)
    ensures ok <==> stored == encode(input)
    ensures IsPasswordEncoder(encode) && stored == "" ==> (ok <==> input == "")
  {
    encode(input) == stored
  }

  /** A password always verifies against its own encoding. */
  lemma VerifyOwnEncoding(encode: string -> string, p: string)
    ensures VerifyPassword(encode, p, encode(p))
  {
  }

  /** Only the password that was encoded verifies against an encoding. */
  lemma VerifyOnlyOwnEncoding(encode: string -> string, p: string, q: string)
    requires IsPasswordEncoder(encode)
    requires VerifyPassword(encode, q, encode(p))
    ensures q == p
  {
  }

  /** The table `JSON.parse(localStorage.getItem("notesUsers") || '{}')` yields: a missing entry is the empty table. */
  function UsersTable(entry: Option<map<string, string>>): (users: map<string, string>)
    ensures entry.None? ==> users == map[]
    ensures entry.Some? ==> users == entry.value
  {
    entry.GetOr(map[])
  }

  /**
   * `users[username]` is truthy, reading only the table's own entries: an
   * account exists when a non-empty encoding is stored for the name. A name
   * stored with the empty encoding counts as absent.
   */
  predicate HasAccount(users: map<string, string>, username: string): (has: bool)
    ensures has ==> username in users
    ensures username in users ==> (has <==> IsTruthy(Some(users[username])))
  {
    username in users && users[username] != ""
  }

  /** Members every plain JavaScript object inherits from `Object.prototype`; all of them are truthy. */
  const ObjectPrototypeMembers: set<string> := {
    "constructor", "hasOwnProperty", "isPrototypeOf", "propertyIsEnumerable",
    "toLocaleString", "toString", "valueOf", "__proto__",
    "__defineGetter__", "__defineSetter__", "__lookupGetter__", "__lookupSetter__"
  }

  /**
   * `users[username]` is truthy as the code evaluates it on the parsed JSON
   * object: an own entry decides, and without one the lookup falls through to
   * the inherited members of `Object.prototype`.
   */
  predicate HasAccountAsWritten(users: map<string, string>, username: string): (found: bool)
    ensures username in users ==> (found <==> HasAccount(users, username))
    ensures username !in users ==> (found <==> username in ObjectPrototypeMembers)
  {
    if username in users then users[username] != "" else username in ObjectPrototypeMembers
  }

  /**
   * As written, a name such as "constructor" with no stored account is
   * reported as an existing account, so registering it fails.
   */
  lemma InheritedNameLooksRegistered(users: map<string, string>)
    requires "constructor" !in users
    ensures HasAccountAsWritten(users, "constructor")
    ensures !HasAccount(users, "constructor")
  {
  }

  /** The two lookups agree on every name that is not an inherited member. */
  lemma AccountLookupsAgree(users: map<string, string>, username: string)
    requires username in users || username !in ObjectPrototypeMembers
    ensures HasAccountAsWritten(users, username) == HasAccount(users, username)
  {
  }

  class AuthProvider {
    /** `encodePassword`, i.e. `btoa`. */
    const encodePassword: string -> string
    /** The "notesUsers" storage entry, parsed; `None` when it is missing or empty. */
    var storedUsers: Option<map<string, string>>
    /** The "notesCurrentUser" storage entry. */
    var storedCurrentUser: Option<string>
    /** The `username` React state: who is signed in. */
    var username: Option<string>

    ghost predicate Valid() {
      IsPasswordEncoder(encodePassword)
    }

    /** The provider mounts with no signed-in user over whatever storage holds. */
    constructor(encode: string -> string, users: Option<map<string, string>>, currentUser: Option<string>)
      requires IsPasswordEncoder(encode)
      ensures Valid() && encodePassword == encode
      ensures storedUsers == users && storedCurrentUser == currentUser && username == None
    {
      encodePassword := encode;
      storedUsers := users;
      storedCurrentUser := currentUser;
      username := None;
    }

    /** The mount effect: a non-empty stored current user becomes the signed-in user. */
    method RestoreSession()
      modifies this`username
      ensures IsTruthy(storedCurrentUser) ==> username == storedCurrentUser
      ensures !IsTruthy(storedCurrentUser) ==> username == old(username)
    {
      if IsTruthy(storedCurrentUser) {
        username := storedCurrentUser;
      }
    }

    /**
     * `register`: refused when the name already has an account; otherwise the
     * encoded password is stored for the name, every other entry is kept, and
     * the new user is signed in and remembered.
     */
    method Register(name: string, password: string) returns (ok: bool)
      requires Valid()
      modifies this
      ensures ok <==> !HasAccount(UsersTable(old(storedUsers)), name)
      ensures !ok ==> storedUsers == old(storedUsers) && storedCurrentUser == old(storedCurrentUser)
                      && username == old(username)
      ensures ok ==> storedUsers == Some(UsersTable(old(storedUsers))[name := encodePassword(password)])
      ensures ok ==> storedCurrentUser == Some(name) && username == Some(name)
    {
      var users := UsersTable(storedUsers);
      if HasAccount(users, name) {
        return false;
      }
      users := users[name := encodePassword(password)];
      storedUsers := Some(users);
      storedCurrentUser := Some(name);
      username := Some(name);
      return true;
    }

    /**
     * `login`: refused for a name without an account and for a password that
     * does not verify against the stored encoding; on success the user is
     * signed in and remembered. The account table is never written.
     */
    method Login(name: string, password: string) returns (ok: bool)
      requires Valid()
      modifies this`storedCurrentUser, this`username
      ensures ok <==> HasAccount(UsersTable(storedUsers), name)
                      && VerifyPassword(encodePassword, password, UsersTable(storedUsers)[name])
      ensures !ok ==> storedCurrentUser == old(storedCurrentUser) && username == old(username)
      ensures ok ==> storedCurrentUser == Some(name) && username == Some(name)
    {
      var users := UsersTable(storedUsers);
      if !HasAccount(users, name) {
        return false;
      }
      if !VerifyPassword(encodePassword, password, users[name]) {
        return false;
      }
      storedCurrentUser := Some(name);
      username := Some(name);
      return true;
    }

    /** `logout`: forgets the remembered user and signs out; accounts are kept. */
    method Logout()
      modifies this`storedCurrentUser, this`username
      ensures storedCurrentUser == None && username == None
    {
      storedCurrentUser := None;
      username := None;
    }
  }

  /**
   * A successful registration is followed by a successful login with the same
   * credentials exactly when the password is not empty: the empty password is
   * stored as the empty encoding, which counts as no account.
   */
  method RegisterThenLogin(auth: AuthProvider, name: string, password: string)
      returns (registered: bool, loggedIn: bool)
    requires auth.Valid()
    modifies auth
    ensures registered ==> (loggedIn <==> password != "")
    ensures registered && loggedIn ==> auth.username == Some(name)
  {
    registered := auth.Register(name, password);
    loggedIn := auth.Login(name, password);
  }
}
