/** The `usuarios` table: registration, lookup by username, login and the master check. */
module Credentials {
  import opened Wrappers
  import opened Text

  /** `tipo` of a user, restricted by the schema to 'master' or 'estandar'. */
  datatype Role = Master | Estandar

  /** One row of `usuarios`; `password` holds the hex digest, never the plaintext. */
  datatype User = User(id: nat, nombre: string, apellido: string, cedula: string,
                       username: string, password: string, role: Role)

  predicate IsHexDigit(c: char) {
    '0' <= c <= '9' || 'a' <= c <= 'f'
  }

  /** The shape of `sha256(...).hexdigest()`: 64 lower-case hexadecimal characters. */
  predicate IsHexDigest(s: string) {
    |s| == 64 && forall i :: 0 <= i < |s| ==> IsHexDigit(s[i])
  }

  /** What the model assumes of `hash_password`: every password maps to a hex digest. */
  ghost predicate DigestShaped(hash: string -> string) {
    forall p :: IsHexDigest(hash(p))
  }

  /** `check_password`: the supplied password hashes to the stored value. It accepts
      whatever `hash_password` stored for that password, and never matches a stored value
      that is not a digest, such as a plaintext password. */
  function CheckPassword(hash: string -> string, password: string, hashed: string): (ok: bool)
    ensures hashed == hash(password) ==> ok
    ensures ok ==> hashed == hash(password)
    ensures DigestShaped(hash) && !IsHexDigest(hashed) ==> !ok
  {
    hash(password) == hashed
  }

  /** The two UNIQUE constraints of `usuarios`: username and cédula. */
  ghost predicate UniqueUsers(users: seq<User>) {
    forall i, j :: 0 <= i < j < |users| ==>
      users[i].username != users[j].username && users[i].cedula != users[j].cedula
  }

  /** AUTOINCREMENT keys: increasing in insertion order, positive, below the next key.
      Each table states this over its own row type's `id` field, so the quantifiers
      trigger on field selections rather than on an applied key function. */
  ghost predicate UserKeys(users: seq<User>, next: nat) {
    && (forall i, j :: 0 <= i < j < |users| ==> users[i].id < users[j].id)
    && (forall i :: 0 <= i < |users| ==> 1 <= users[i].id < next)
    && 1 <= next
  }

  /** Appending a row under the next key keeps the keys increasing. */
  lemma AppendUserKeys(users: seq<User>, next: nat, u: User)
    requires UserKeys(users, next) && u.id == next
    ensures UserKeys(users + [u], next + 1)
  {
  }

  /** `get_user`: the first row whose username matches, or nothing. */
  function FindUser(users: seq<User>, username: string): (r: Option<User>)
    ensures r.None? <==> forall i :: 0 <= i < |users| ==> users[i].username != username
    ensures r.Some? ==> r.value in users && r.value.username == username
    ensures forall i :: 0 <= i < |users| && users[i].username == username ==>
              (forall j :: 0 <= j < i ==> users[j].username != username) ==> r == Some(users[i])
  {
    if users == [] then None
    else if users[0].username == username then Some(users[0])
    else
      var r := FindUser(users[1..], username);
      assert forall i :: 1 <= i < |users| ==> users[i] == users[1..][i - 1];
      r
  }

  /** Why a login attempt was refused, or the row of the user who logged in. */
  datatype LoginResult = MissingCredentials | InvalidCredentials | LoggedIn(user: User)

  /** The `login` closure: the username is stripped, the password is taken as typed;
      blank input is refused before any lookup, then the stored hash must match. */
  function Authenticate(users: seq<User>, hash: string -> string, username: string,
                        password: string): (r: LoginResult)
    ensures r.MissingCredentials? <==> Strip(username) == [] || password == []
    ensures r.LoggedIn? ==> r.user in users && r.user.username == Strip(username)
                             && r.user.password == hash(password)
    ensures UniqueUsers(users) && Strip(username) != [] && password != [] ==>
              (r.LoggedIn? <==> exists i :: 0 <= i < |users| && users[i].username == Strip(username)
                                                             && users[i].password == hash(password))
  {
    var name := Strip(username);
    if name == [] || password == [] then MissingCredentials
    else match FindUser(users, name)
      case None => InvalidCredentials
      case Some(u) =>
        if CheckPassword(hash, password, u.password) then LoggedIn(u) else InvalidCredentials
  }

  /** The start-up query `SELECT * FROM usuarios WHERE tipo='master'` is non-empty. */
  function HasMaster(users: seq<User>): (b: bool)
    ensures b <==> exists i :: 0 <= i < |users| && users[i].role == Master
  {
    if users == [] then false
    else if users[0].role == Master then true
    else
      var b := HasMaster(users[1..]);
      assert forall i :: 1 <= i < |users| ==> users[i] == users[1..][i - 1];
      b
  }

  /** How `register_user` ends: the inserted row, or the check that refused it. */
  datatype RegisterOutcome =
    | Registered(user: User)
    | MissingField        // some field blank after stripping (the password is not stripped)
    | PasswordTooShort    // fewer than 4 characters
    | UsernameTaken       // `get_user` found the username
    | InsertFailed        // the INSERT hit the UNIQUE constraint on cédula

  /** Every field filled in: the four text fields after stripping, the password as typed. */
  function AllFilled(nombre: string, apellido: string, cedula: string, username: string,
                     password: string): (b: bool)
    ensures b <==> !IsBlank(nombre) && !IsBlank(apellido) && !IsBlank(cedula) && !IsBlank(username)
                   && password != []
  {
    Strip(nombre) != [] && Strip(apellido) != [] && Strip(cedula) != [] && Strip(username) != [] && password != []
  }

  /** `register_user` against the current rows, with `nextId` the AUTOINCREMENT key the INSERT would take. */
  function Registration(users: seq<User>, nextId: nat, hash: string -> string, nombre: string,
                        apellido: string, cedula: string, username: string, password: string,
                        role: Role): (r: RegisterOutcome)
    ensures r.MissingField? <==> !AllFilled(nombre, apellido, cedula, username, password)
    ensures r.PasswordTooShort? <==> AllFilled(nombre, apellido, cedula, username, password) && |password| < 4
    ensures r.UsernameTaken? <==>
              AllFilled(nombre, apellido, cedula, username, password) && |password| >= 4
              && exists i :: 0 <= i < |users| && users[i].username == Strip(username)
    ensures r.InsertFailed? <==>
              AllFilled(nombre, apellido, cedula, username, password) && |password| >= 4
              && (forall i :: 0 <= i < |users| ==> users[i].username != Strip(username))
              && exists i :: 0 <= i < |users| && users[i].cedula == Strip(cedula)
    ensures r.Registered? ==>
              r.user == User(nextId, Strip(nombre), Strip(apellido), Strip(cedula), Strip(username),
                             hash(password), role)
    ensures r.Registered? && UniqueUsers(users) ==> UniqueUsers(users + [r.user])
    ensures r.Registered? && DigestShaped(hash) && !IsHexDigest(password) ==> r.user.password != password
  {
    if !AllFilled(nombre, apellido, cedula, username, password) then MissingField
    else if |password| < 4 then PasswordTooShort
    else if FindUser(users, Strip(username)).Some? then UsernameTaken
    else if exists i :: 0 <= i < |users| && users[i].cedula == Strip(cedula) then InsertFailed
    else
      var u := User(nextId, Strip(nombre), Strip(apellido), Strip(cedula), Strip(username),
                    hash(password), role);
      AppendKeepsUnique(users, u);
      Registered(u)
  }

  /** Adding a row whose username and cédula are both new keeps the UNIQUE constraints. */
  lemma AppendKeepsUnique(users: seq<User>, u: User)
    requires forall i :: 0 <= i < |users| ==> users[i].username != u.username && users[i].cedula != u.cedula
    ensures UniqueUsers(users) ==> UniqueUsers(users + [u])
  {
    var all := users + [u];
    assert forall i :: 0 <= i < |users| ==> all[i] == users[i];
    assert all[|users|] == u;
  }

  /** A user who has just registered can log in with the same password, typing the username
      as at registration or as it was stored. */
  lemma RegisteredUserCanLogIn(users: seq<User>, nextId: nat, hash: string -> string, nombre: string,
                               apellido: string, cedula: string, username: string, password: string,
                               role: Role, u: User)
    requires Registration(users, nextId, hash, nombre, apellido, cedula, username, password, role) == Registered(u)
    ensures Authenticate(users + [u], hash, username, password) == LoggedIn(u)
    ensures Authenticate(users + [u], hash, u.username, password) == LoggedIn(u)
  {
    var r := Registration(users, nextId, hash, nombre, apellido, cedula, username, password, role);
    assert Strip(username) != [] && password != [] && u.username == Strip(username)
           && u.password == hash(password)
           && forall i :: 0 <= i < |users| ==> users[i].username != Strip(username);
    FindNewUser(users, u, Strip(username));
    KnownUserLogsIn(users + [u], hash, username, password, u);
    StripIdempotent(username);
    KnownUserLogsIn(users + [u], hash, u.username, password, u);
  }

  /** Login succeeds once the lookup finds a row whose stored hash matches. */
  lemma KnownUserLogsIn(users: seq<User>, hash: string -> string, username: string, password: string, u: User)
    requires Strip(username) != [] && password != []
    requires FindUser(users, Strip(username)) == Some(u) && u.password == hash(password)
    ensures Authenticate(users, hash, username, password) == LoggedIn(u)
  {
  }

  /** Looking up the username of a row just appended, absent before, finds that row. */
  lemma FindNewUser(users: seq<User>, u: User, name: string)
    requires forall i :: 0 <= i < |users| ==> users[i].username != name
    requires u.username == name
    ensures FindUser(users + [u], name) == Some(u)
  {
    var all := users + [u];
    assert all[|users|] == u;
    assert forall j :: 0 <= j < |users| ==> all[j] == users[j];
  }

  /** Adding a user keeps a master if one existed, and adds one exactly when the new user
      is a master. */
  lemma RegistrationKeepsMaster(users: seq<User>, u: User)
    ensures HasMaster(users + [u]) <==> HasMaster(users) || u.role == Master
  {
    var all := users + [u];
    assert all[|users|] == u;
    assert forall i :: 0 <= i < |users| ==> all[i] == users[i];
  }
}
