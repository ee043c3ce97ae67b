/** The auth controller: registering a customer and logging in. */
module Auth {
  import opened Common
  import opened Store

  /** The password library, passed in: `hash` with the salt it draws at
      random, and `compare`, which checks a password against a stored hash. */
  datatype Crypto = Crypto(hash: (string, int) -> string, compare: (string, string) -> bool)

  /** What the model relies on from the library: a password always matches
      a hash made from it, whatever the salt. */
  ghost predicate Sound(crypto: Crypto)
  {
    forall password, salt :: crypto.compare(password, crypto.hash(password, salt))
  }

  /** The user fields a registration answers with. */
  datatype PublicUser = PublicUser(id: int, name: string, email: string)

  /** The claims a login token carries. */
  datatype Claims = Claims(userId: int, role: Role)

  /** The user fields a login answers with. */
  datatype UserSummary = UserSummary(id: int, name: string, role: Role)

  /** The answer to a successful login: the token and the user's summary. */
  datatype Session = Session(token: Claims, user: UserSummary)

  /** Some user is registered under `email` (compared exactly). */
  predicate EmailInUse(users: map<int, User>, email: string)
  {
    exists id :: id in users && users[id].email == email
  }

  /** The user registered under `email`, if any. */
  function FindByEmail(users: map<int, User>, email: string): (r: Option<User>)
    requires EmailsUnique(users)
    ensures r.None? <==> !EmailInUse(users, email)
    ensures forall id :: id in users && users[id].email == email ==> r == Some(users[id])
  {
    if EmailInUse(users, email) then
      var id :| id in users && users[id].email == email;
      Some(users[id])
    else
      None
  }

  /** The public projection of a user row: no password hash, no role. */
  function Public(user: User): PublicUser
  {
    PublicUser(user.id, user.name, user.email)
  }

  /** Logs in with `email` and `password`. An unknown email and a wrong
      password are refused with the same error; success yields a token
      with the user's id and role. Nothing in the store changes. */
  function Login(users: map<int, User>, crypto: Crypto, email: Option<string>, password: Option<string>)
    : (r: Result<Session>)
    requires EmailsUnique(users)
    ensures r == Err(MissingFields) <==> email.None? || password.None?
    ensures r.Ok? <==>
      && email.Some? && password.Some?
      && exists id :: id in users && users[id].email == email.value
                   && crypto.compare(password.value, users[id].password)
    ensures r.Err? && email.Some? && password.Some? ==> r.error == InvalidCredentials
    ensures forall id :: id in users && email == Some(users[id].email) && r.Ok? ==>
      var user := users[id];
      r.value == Session(Claims(user.id, user.role), UserSummary(user.id, user.name, user.role))
  {
    if email.None? || password.None? then
      Err(MissingFields)
    else
      match FindByEmail(users, email.value)
      case None => Err(InvalidCredentials)
      case Some(user) =>
        if !crypto.compare(password.value, user.password) then
          Err(InvalidCredentials)
        else
          Ok(Session(Claims(user.id, user.role), UserSummary(user.id, user.name, user.role)))
  }

  /** Registers a customer. The three fields are required and the email
      must be new; the row stores the salted hash of the password, and the
      answer carries the public fields only. */
  method Register(db: Database, crypto: Crypto, name: Option<string>, email: Option<string>,
                  password: Option<string>, salt: int)
    returns (r: Result<PublicUser>)
    requires db.Valid()
    modifies db
    ensures db.Valid()
    ensures r == Err(MissingFields) <==> name.None? || email.None? || password.None?
    ensures r == Err(EmailTaken) <==>
      name.Some? && email.Some? && password.Some? && EmailInUse(old(db.users), email.value)
    ensures r.Ok? <==>
      name.Some? && email.Some? && password.Some? && !EmailInUse(old(db.users), email.value)
    ensures r.Err? ==> unchanged(db)
    ensures r.Ok? ==>
      && var user := User(old(db.nextId), name.value, email.value, crypto.hash(password.value, salt), Customer);
      && db.users == old(db.users)[user.id := user]
      && r.value == Public(user)
      && db.products == old(db.products) && db.orders == old(db.orders)
      && db.nextId == old(db.nextId) + 1
  {
    if name.None? || email.None? || password.None? {
      return Err(MissingFields);
    }
    if FindByEmail(db.users, email.value).Some? {
      return Err(EmailTaken);
    }
    var user := User(db.nextId, name.value, email.value, crypto.hash(password.value, salt), Customer);
    db.users := db.users[user.id := user];
    db.nextId := db.nextId + 1;
    r := Ok(Public(user));
  }

  /** Adding a user under an email no one uses keeps emails unique, and
      that user can then log in with the password whose hash was stored,
      getting a token with the user's own id and role. */
  lemma LoginAfterRegister(users: map<int, User>, crypto: Crypto, user: User, password: string, salt: int)
    requires Sound(crypto) && EmailsUnique(users)
    requires user.id !in users && !EmailInUse(users, user.email)
    requires user.password == crypto.hash(password, salt)
    ensures EmailsUnique(users[user.id := user])
    ensures Login(users[user.id := user], crypto, Some(user.email), Some(password))
         == Ok(Session(Claims(user.id, user.role), UserSummary(user.id, user.name, user.role)))
  {
    var after := users[user.id := user];
    assert after[user.id].email == user.email;
  }

  /** A customer who registers can log in at once, as a customer. */
  method RegisterThenLogin(db: Database, crypto: Crypto, name: string, email: string, password: string, salt: int)
    returns (registered: Result<PublicUser>, session: Result<Session>)
    requires db.Valid() && Sound(crypto)
    requires !EmailInUse(db.users, email)
    modifies db
    ensures registered.Ok?
    ensures session == Ok(Session(Claims(registered.value.id, Customer),
                                  UserSummary(registered.value.id, name, Customer)))
  {
    ghost var before := db.users;
    registered := Register(db, crypto, Some(name), Some(email), Some(password), salt);
    LoginAfterRegister(before, crypto, User(registered.value.id, name, email, crypto.hash(password, salt), Customer), password, salt);
    session := Login(db.users, crypto, Some(email), Some(password));
  }
}
