/** Registration and login. Password hashing, hash comparison and token
    signing are parameters; only the facts the properties need are assumed
    about them, and only by the lemmas that need them. */
module Auth {
  import opened Optional
  import opened Board
  import Guard

  const FieldsRequired := "Username and password are required"
  const UsernameTaken := "Username already exists"
  const UserCreated := "User created successfully"
  const InvalidCredentials := "Invalid credentials"
  const LoginSucceeded := "Login successful"

  /** Lifetime requested for a session token. */
  const SessionLifetime := "1d"

  /** What is handed to the signer: the payload and the `expiresIn` option. */
  datatype Claims = Claims(payload: Identity, expiresIn: string)

  /** A password always matches its own hash. */
  ghost predicate HashMatches(hash: string -> string, compare: (string, string) -> bool)
  {
    forall p :: compare(p, hash(p))
  }

  /** Verification accepts every token the signer issued and decodes its payload
      (expiry is not modelled). */
  ghost predicate VerifiesSigned(sign: Claims -> string, verify: string -> Option<Identity>)
  {
    forall c :: verify(sign(c)) == Some(c.payload)
  }

  /** Signed tokens are non-empty and contain no space (a compact JWS is
      base64url fields joined by dots). */
  ghost predicate CompactTokens(sign: Claims -> string)
  {
    forall c :: sign(c) != "" && ' ' !in sign(c)
  }

  /** POST /auth/register. `newId` is the id the store generates for the new row. */
  function Register(
    s: Store, username: Option<string>, password: Option<string>, newId: Id, hash: string -> string)
    : (r: Reply)
    requires FreshUserId(s, newId)
    ensures !Truthy(username) || !Truthy(password) ==> r == Reply(400, s, Message(FieldsRequired))
    ensures Truthy(username) && Truthy(password) && username.value in s.users ==>
      r == Reply(400, s, Message(UsernameTaken))
    ensures r.status == 201 <==> Truthy(username) && Truthy(password) && username.value !in s.users
    ensures r.status != 201 ==> r.status == 400 && r.store == s
    ensures r.status == 201 ==>
      && r.store.users.Keys == s.users.Keys + {username.value}
      && (forall n :: n in s.users ==> r.store.users[n] == s.users[n])
      && r.store.users[username.value] == User(newId, username.value, hash(password.value))
      && r.store.columns == s.columns
      && r.store.tasks == s.tasks
      && r.body == Registered(UserCreated, PublicUser(newId, username.value))
    ensures Valid(s) ==> Valid(r.store)
  {
    if !Truthy(username) || !Truthy(password) then
      Reply(400, s, Message(FieldsRequired))
    else if username.value in s.users then
      Reply(400, s, Message(UsernameTaken))
    else
      var u := User(newId, username.value, hash(password.value));
      Reply(201, s.(users := s.users[u.username := u]), Registered(UserCreated, PublicUser(u.id, u.username)))
  }

  /** POST /auth/login. An unknown user and a wrong password get the same reply. */
  function Login(
    s: Store, username: string, password: string,
    compare: (string, string) -> bool, sign: Claims -> string)
    : (r: Reply)
    ensures r.store == s
    ensures r.status == 200 <==> username in s.users && compare(password, s.users[username].password)
    ensures r.status != 200 ==> r == Reply(401, s, Message(InvalidCredentials))
    ensures r.status == 200 ==>
      r.body == LoggedIn(LoginSucceeded,
        sign(Claims(Identity(s.users[username].id, s.users[username].username), SessionLifetime)))
  {
    if username !in s.users then
      Reply(401, s, Message(InvalidCredentials))
    else
      var u := s.users[username];
      if !compare(password, u.password) then
        Reply(401, s, Message(InvalidCredentials))
      else
        Reply(200, s, LoggedIn(LoginSucceeded, sign(Claims(Identity(u.id, u.username), SessionLifetime))))
  }

  /** A user who just registered can log in with the same password, and the
      token names the new user. */
  lemma RegisterThenLogin(
    s: Store, username: string, password: string, newId: Id,
    hash: string -> string, compare: (string, string) -> bool, sign: Claims -> string)
    requires HashMatches(hash, compare)
    requires FreshUserId(s, newId)
    requires username != "" && password != ""
    requires username !in s.users
    ensures Register(s, Some(username), Some(password), newId, hash).status == 201
    ensures Login(Register(s, Some(username), Some(password), newId, hash).store, username, password, compare, sign)
      == Reply(200, Register(s, Some(username), Some(password), newId, hash).store,
               LoggedIn(LoginSucceeded, sign(Claims(Identity(newId, username), SessionLifetime))))
  {
    var s' := Register(s, Some(username), Some(password), newId, hash).store;
    assert s'.users[username] == User(newId, username, hash(password));
  }

  /** Registering a name twice: the second attempt is refused and changes nothing. */
  lemma RegisterTwice(
    s: Store, username: string, password: string, password': string, newId: Id, newId': Id,
    hash: string -> string)
    requires FreshUserId(s, newId)
    requires username != "" && password != "" && password' != ""
    requires username !in s.users
    requires FreshUserId(Register(s, Some(username), Some(password), newId, hash).store, newId')
    ensures
      var s' := Register(s, Some(username), Some(password), newId, hash).store;
      Register(s', Some(username), Some(password'), newId', hash) == Reply(400, s', Message(UsernameTaken))
  {
  }

  /** The token a successful login returns, sent back as `Bearer <token>`,
      passes the guard with exactly the logged-in user's identity attached. */
  lemma LoginTokenPassesGuard(
    s: Store, username: string, password: string,
    compare: (string, string) -> bool, sign: Claims -> string, verify: string -> Option<Identity>)
    requires VerifiesSigned(sign, verify)
    requires CompactTokens(sign)
    requires Login(s, username, password, compare, sign).status == 200
    ensures
      var token := Login(s, username, password, compare, sign).body.token;
      Guard.AuthenticateToken(Some("Bearer " + token), verify)
        == Guard.Next(Identity(s.users[username].id, s.users[username].username))
  {
    var u := s.users[username];
    var c := Claims(Identity(u.id, u.username), SessionLifetime);
    var token := sign(c);
    assert "Bearer " + token == "Bearer" + " " + token + "";
    Guard.TokenIsSecondField("Bearer", token, "");
  }
}
